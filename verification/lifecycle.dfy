/**
  What every legal session has in common, whatever fails in it: its calls balance, come in order and
  stop at the release.

  The methods of `Requester` only ever produce legal logs, so all of this holds of them.
 */
module Lifecycle {
  import opened Options
  import opened UsnCursor
  import opened Session
  import opened R = Requester

  // ---- Bookkeeping.

  function Tally(log: seq<Event>, kind: Event -> bool): nat {
    if log == [] then 0
    else Tally(log[..|log| - 1], kind) + if kind(log[|log| - 1]) then 1 else 0
  }

  lemma TallySnoc(log: seq<Event>, e: Event, kind: Event -> bool)
    ensures Tally(log + [e], kind) == Tally(log, kind) + if kind(e) then 1 else 0
  {
    assert (log + [e])[..|log|] == log;
  }

  predicate Creates(e: Event) { e.call.CreateComponents? && e.ok }
  predicate Aborts(e: Event) { e.call.AbortBackup? }
  predicate Releases(e: Event) { e.call.Release? }
  predicate Completes(e: Event) { e.call == Launch(CompleteOp) }
  predicate Deletes(e: Event) { e.call.DeleteSet? }
  predicate Starts(e: Event) { e.call.StartWorker? && e.ok }
  predicate Stops(e: Event) { e.call.StopWorker? }
  predicate Launches(e: Event) { e.call.Launch? && e.ok }
  predicate ReleasesAsync(e: Event) { e.call.ReleaseAsync? }
  predicate Collects(e: Event) { e.call.CollectRules? }
  predicate FreesMetadata(e: Event) { e.call.FreeMetadata? }
  predicate AsksStatus(e: Event) { e == Event(Launch(StatusOp), true) }
  predicate FreesStatus(e: Event) { e.call.FreeStatus? }
  predicate GetsProps(e: Event) { e.call.GetProps? && e.ok }
  predicate FreesProps(e: Event) { e.call.FreeProps? }

  function One(b: bool): nat {
    if b then 1 else 0
  }

  /** The stage an operation is waited for in. */
  function StageOf(op: Op): Stage {
    match op
    case GatherOp => InState
    case PrepareOp => Adding
    case DoOp => Capturing
    case StatusOp => Shot
    case CompleteOp => Open
  }

  predicate Awaits(s: State, op: Op) {
    !s.await.Quiet? && s.await.op == op
  }

  predicate Placed(s: State) {
    !s.await.Quiet? ==> s.stage == StageOf(s.await.op)
  }

  // How often each thing must have been done, given where the session stands.

  predicate IsMade(s: State) { !s.stage.Unmade? && !s.stage.Unmakeable? }

  predicate IsAborted(s: State) { s.stage.Aborted? || s.stage.Dropped? }

  predicate WritersTold(cfg: Config, s: State) {
    || s.stage.Completed? || (s.stage.Open? && !s.await.Quiet?)
    || ((s.stage.Deleted? || s.stage.Closed?) && !cfg.noWriters)
  }

  predicate CopiesDeleted(cfg: Config, s: State) { s.stage.Deleted? || (s.stage.Closed? && !cfg.persistent) }

  predicate Running(s: State) { s.thread.Outside? || s.thread.Inside? }

  predicate HoldsStatus(s: State) {
    (s.stage.Shot? && !s.await.Quiet?) || s.stage.StatusKept? || s.stage.StatusListed? || s.stage.StatusDue?
  }

  /** Sessions, the end of the backup, and the thread: each thing is done once, or not at all. */
  ghost predicate LifeBooks(cfg: Config, log: seq<Event>, s: State) {
    && Tally(log, Creates) == One(IsMade(s))
    && Tally(log, Aborts) == One(IsAborted(s))
    && Tally(log, Releases) == One(Over(s.stage))
    && Tally(log, Completes) == One(WritersTold(cfg, s))
    && Tally(log, Deletes) == One(CopiesDeleted(cfg, s))
    && Tally(log, Starts) == Tally(log, Stops) + One(Running(s))
  }

  /** Whatever is taken is given back. */
  ghost predicate HoldBooks(log: seq<Event>, s: State) {
    && Tally(log, Launches) == Tally(log, ReleasesAsync) + One(!s.await.Quiet?)
    && Tally(log, Collects) == Tally(log, FreesMetadata) + One(s.stage.RulesRead?)
    && Tally(log, AsksStatus) == Tally(log, FreesStatus) + One(HoldsStatus(s))
    && Tally(log, GetsProps) == Tally(log, FreesProps) + One(s.stage.Held?)
  }

  ghost predicate Books(cfg: Config, log: seq<Event>, s: State) {
    Placed(s) && LifeBooks(cfg, log, s) && HoldBooks(log, s)
  }

  lemma PlacedStep(cfg: Config, s: State, e: Event, t: State)
    requires Advance(cfg, s, e) == Some(t) && Placed(s)
    ensures Placed(t)
  {
  }

  lemma MadeStep(cfg: Config, s: State, e: Event, t: State)
    requires Advance(cfg, s, e) == Some(t) && Placed(s)
    ensures One(IsMade(t)) == One(IsMade(s)) + One(Creates(e))
  {
    match e.call
    case CreateComponents =>
    case ReleaseAsync =>
    case _ =>
  }

  lemma AbortStep(cfg: Config, s: State, e: Event, t: State)
    requires Advance(cfg, s, e) == Some(t) && Placed(s)
    ensures One(IsAborted(t)) == One(IsAborted(s)) + One(Aborts(e))
  {
    if !OfThread(e.call) && !OfAwait(e.call) && !e.call.Launch? {
      match e.call
      case AbortBackup =>
      case Release =>
      case _ =>
    } else if OfAwait(e.call) {
      match e.call
      case ReleaseAsync =>
      case _ =>
    }
  }

  lemma ReleaseStep(cfg: Config, s: State, e: Event, t: State)
    requires Advance(cfg, s, e) == Some(t) && Placed(s)
    ensures One(Over(t.stage)) == One(Over(s.stage)) + One(Releases(e))
  {
    match e.call
    case AbortBackup =>
    case Release =>
    case ReleaseAsync =>
    case _ =>
  }

  lemma CompleteStep(cfg: Config, s: State, e: Event, t: State)
    requires Advance(cfg, s, e) == Some(t) && Placed(s)
    ensures One(WritersTold(cfg, t)) == One(WritersTold(cfg, s)) + One(Completes(e))
  {
    match e.call
    case Launch(_) =>
    case ReleaseAsync =>
    case DeleteSet(_) =>
    case Release =>
    case _ =>
  }

  lemma DeleteStep(cfg: Config, s: State, e: Event, t: State)
    requires Advance(cfg, s, e) == Some(t) && Placed(s)
    ensures One(CopiesDeleted(cfg, t)) == One(CopiesDeleted(cfg, s)) + One(Deletes(e))
  {
    match e.call
    case ReleaseAsync =>
    case DeleteSet(_) =>
    case Release =>
    case _ =>
  }

  lemma ThreadStep(cfg: Config, s: State, e: Event, t: State)
    requires Advance(cfg, s, e) == Some(t)
    ensures One(Running(t)) + One(Stops(e)) == One(Running(s)) + One(Starts(e))
  {
  }

  lemma AwaitStep(cfg: Config, s: State, e: Event, t: State)
    requires Advance(cfg, s, e) == Some(t)
    ensures One(!t.await.Quiet?) + One(ReleasesAsync(e)) == One(!s.await.Quiet?) + One(Launches(e))
  {
  }

  lemma HoldStep(cfg: Config, s: State, e: Event, t: State)
    requires Advance(cfg, s, e) == Some(t) && Placed(s)
    ensures One(t.stage.RulesRead?) + One(FreesMetadata(e)) == One(s.stage.RulesRead?) + One(Collects(e))
    ensures One(t.stage.Held?) + One(FreesProps(e)) == One(s.stage.Held?) + One(GetsProps(e))
  {
  }

  lemma StatusStep(cfg: Config, s: State, e: Event, t: State)
    requires Advance(cfg, s, e) == Some(t) && Placed(s)
    ensures One(HoldsStatus(t)) + One(FreesStatus(e)) == One(HoldsStatus(s)) + One(AsksStatus(e))
  {
    match e.call
    case Launch(_) =>
    case ReleaseAsync =>
    case FreeStatus =>
    case StatusCount(_) =>
    case WriterStatus(_) =>
    case GetProps(_, _, _) =>
    case _ =>
  }

  lemma LifeBooksStep(cfg: Config, log: seq<Event>, s: State, e: Event, t: State)
    requires Advance(cfg, s, e) == Some(t) && Placed(s) && LifeBooks(cfg, log, s)
    ensures LifeBooks(cfg, log + [e], t)
  {
    MadeStep(cfg, s, e, t);
    AbortStep(cfg, s, e, t);
    ReleaseStep(cfg, s, e, t);
    CompleteStep(cfg, s, e, t);
    DeleteStep(cfg, s, e, t);
    ThreadStep(cfg, s, e, t);
    TallySnoc(log, e, Creates);
    TallySnoc(log, e, Aborts);
    TallySnoc(log, e, Releases);
    TallySnoc(log, e, Completes);
    TallySnoc(log, e, Deletes);
    TallySnoc(log, e, Starts);
    TallySnoc(log, e, Stops);
  }

  lemma HoldBooksStep(cfg: Config, log: seq<Event>, s: State, e: Event, t: State)
    requires Advance(cfg, s, e) == Some(t) && Placed(s) && HoldBooks(log, s)
    ensures HoldBooks(log + [e], t)
  {
    AwaitStep(cfg, s, e, t);
    HoldStep(cfg, s, e, t);
    StatusStep(cfg, s, e, t);
    TallySnoc(log, e, Launches);
    TallySnoc(log, e, ReleasesAsync);
    TallySnoc(log, e, Collects);
    TallySnoc(log, e, FreesMetadata);
    TallySnoc(log, e, AsksStatus);
    TallySnoc(log, e, FreesStatus);
    TallySnoc(log, e, GetsProps);
    TallySnoc(log, e, FreesProps);
  }

  lemma {:induction false} BooksAt(cfg: Config, log: seq<Event>, trace: seq<State>, n: nat)
    requires Legal(cfg, log, trace) && n <= |log|
    ensures Books(cfg, log[..n], trace[n])
  {
    if n > 0 {
      BooksAt(cfg, log, trace, n - 1);
      assert LegalAt(cfg, log, trace, n - 1);
      assert log[..n] == log[..n - 1] + [log[n - 1]];
      PlacedStep(cfg, trace[n - 1], log[n - 1], trace[n]);
      LifeBooksStep(cfg, log[..n - 1], trace[n - 1], log[n - 1], trace[n]);
      HoldBooksStep(cfg, log[..n - 1], trace[n - 1], log[n - 1], trace[n]);
    }
  }

  /** A thread that was started and is no longer running was stopped exactly once. */
  lemma StoppedThreadBalances(cfg: Config, log: seq<Event>, trace: seq<State>)
    requires Legal(cfg, log, trace) && trace[|log|].thread.Stopped?
    ensures Tally(log, Stops) == Tally(log, Starts) <= 1
  {
    BooksAt(cfg, log, trace, |log|);
    assert log[..|log|] == log;
    StartsOnce(cfg, log, trace, |log|);
  }

  lemma {:induction false} StartsOnce(cfg: Config, log: seq<Event>, trace: seq<State>, n: nat)
    requires Legal(cfg, log, trace) && n <= |log|
    ensures Tally(log[..n], Starts) <= One(!trace[n].thread.NotStarted?)
  {
    if n > 0 {
      StartsOnce(cfg, log, trace, n - 1);
      assert LegalAt(cfg, log, trace, n - 1);
      assert log[..n] == log[..n - 1] + [log[n - 1]];
      TallySnoc(log[..n - 1], log[n - 1], Starts);
    }
  }

  // ---- Nothing after the release, nothing after the stop.

  /** After the stop there is nothing at all. */
  lemma StopIsLast(cfg: Config, log: seq<Event>, trace: seq<State>, i: nat)
    requires Legal(cfg, log, trace) && i < |log| && log[i].call.StopWorker?
    ensures i == |log| - 1
  {
    assert LegalAt(cfg, log, trace, i);
    assert i + 1 < |log| ==> LegalAt(cfg, log, trace, i + 1);
  }

  /** After the release the thread is left and stopped; nothing else happens. */
  lemma NothingAfterRelease(cfg: Config, log: seq<Event>, trace: seq<State>, i: nat)
    requires Legal(cfg, log, trace) && i < |log| && log[i].call.Release?
    ensures |log| <= i + 3
    ensures i + 1 < |log| ==> log[i + 1].call == Leave
    ensures i + 2 < |log| ==> log[i + 2].call == StopWorker
  {
    assert LegalAt(cfg, log, trace, i);
    if i + 1 < |log| {
      assert LegalAt(cfg, log, trace, i + 1);
      if i + 2 < |log| {
        assert LegalAt(cfg, log, trace, i + 2);
        StopIsLast(cfg, log, trace, i + 2);
      }
    }
  }

  /** A session that failed is aborted before it is released, and released at once. */
  lemma AbortThenRelease(cfg: Config, log: seq<Event>, trace: seq<State>, i: nat)
    requires Legal(cfg, log, trace) && i + 1 < |log| && log[i].call.AbortBackup?
    ensures log[i + 1].call == Release
  {
    assert LegalAt(cfg, log, trace, i);
    assert LegalAt(cfg, log, trace, i + 1);
  }

  // ---- Waiting for an operation.

  /** The ways a wait goes wrong: the context is done, the deadline passed, the wait or the query failed. */
  predicate GoesWrong(s: State, e: Event) {
    || (e.call.Poll? && !e.ok)
    || (e.call.Clock? && s.await.Polled? && e.call.now >= s.await.deadline)
    || (e.call.Wait? && !e.ok)
    || (e.call.QueryStatus? && !e.ok)
  }

  /** The way a wait comes to its end by itself. */
  predicate Concludes(e: Event) {
    e.call.QueryStatus? && e.ok && !e.call.status.Pending?
  }

  /** What has to be cancelled, and what has to be released, is so at once. */
  lemma NextAwaitCall(cfg: Config, s: State, e: Event, t: State)
    requires Advance(cfg, s, e) == Some(t)
    ensures e.call.CancelAsync? <==> s.await.MustCancel?
    ensures e.call.ReleaseAsync? <==> s.await.Settled?
  {
  }

  lemma WrongMustCancel(cfg: Config, s: State, e: Event, t: State)
    requires Advance(cfg, s, e) == Some(t)
    ensures t.await.MustCancel? <==> GoesWrong(s, e)
  {
    match e.call
    case ReleaseAsync =>
    case QueryStatus(_) =>
    case _ =>
  }

  lemma EndIsSettled(cfg: Config, s: State, e: Event, t: State)
    requires Advance(cfg, s, e) == Some(t)
    ensures t.await.Settled? <==> e.call.CancelAsync? || Concludes(e)
  {
    match e.call
    case ReleaseAsync =>
    case QueryStatus(_) =>
    case _ =>
  }

  /** An operation is cancelled exactly when the wait for it went wrong. */
  lemma CancelledIffWrong(cfg: Config, log: seq<Event>, trace: seq<State>, i: nat)
    requires Legal(cfg, log, trace) && i + 1 < |log|
    ensures log[i + 1].call == CancelAsync <==> GoesWrong(trace[i], log[i])
  {
    assert LegalAt(cfg, log, trace, i) && LegalAt(cfg, log, trace, i + 1);
    WrongMustCancel(cfg, trace[i], log[i], trace[i + 1]);
    NextAwaitCall(cfg, trace[i + 1], log[i + 1], trace[i + 2]);
  }

  /** The operation is released exactly after it was cancelled or came to its end. */
  lemma ReleasedIffSettled(cfg: Config, log: seq<Event>, trace: seq<State>, i: nat)
    requires Legal(cfg, log, trace) && i + 1 < |log|
    ensures log[i + 1].call == ReleaseAsync <==> log[i].call == CancelAsync || Concludes(log[i])
  {
    assert LegalAt(cfg, log, trace, i) && LegalAt(cfg, log, trace, i + 1);
    EndIsSettled(cfg, trace[i], log[i], trace[i + 1]);
    NextAwaitCall(cfg, trace[i + 1], log[i + 1], trace[i + 2]);
  }

  lemma PlacedAt(cfg: Config, log: seq<Event>, trace: seq<State>, n: nat)
    requires Legal(cfg, log, trace) && n <= |log|
    ensures Placed(trace[n])
  {
    BooksAt(cfg, log, trace, n);
  }

  /** A wait is timed by reading the clock, right after the context was found not to be done. */
  lemma TimedByClock(cfg: Config, s: State, e: Event, t: State)
    requires Advance(cfg, s, e) == Some(t) && t.await.Timed?
    ensures s.await.Polled? && e.call.Clock? && s.await.deadline == t.await.deadline
    ensures t.await.remaining == t.await.deadline - e.call.now > 0
  {
    match e.call
    case ReleaseAsync =>
    case QueryStatus(_) =>
    case _ =>
  }

  lemma PolledByPoll(cfg: Config, s: State, e: Event, t: State)
    requires Advance(cfg, s, e) == Some(t) && t.await.Polled?
    ensures e == Event(Poll, true)
  {
    match e.call
    case ReleaseAsync =>
    case QueryStatus(_) =>
    case _ =>
  }

  /** After waiting the status is asked for, however the wait was answered. */
  lemma WaitedThenQuery(cfg: Config, s: State, e: Event, t: State)
    requires Advance(cfg, s, e) == Some(t) && s.await.Waited?
    ensures e.call.QueryStatus?
  {
  }

  /**
    Each wait follows a look at the context and at the clock.  It asks for no more than a second, and not
    past the deadline as of that clock reading.  Then the status is asked for.
   */
  lemma WaitsAreBounded(cfg: Config, log: seq<Event>, trace: seq<State>, i: nat)
    requires Legal(cfg, log, trace) && i < |log| && log[i].call.Wait?
    ensures i > 1 && log[i - 2] == Event(Poll, true) && log[i - 1].call.Clock? && trace[i].await.Timed?
    ensures log[i].call.ms <= 1000
    ensures var remaining := trace[i].await.deadline - log[i - 1].call.now;
            && log[i].call.ms * MILLISECOND <= remaining
            && (log[i].call.ms == 1000 || remaining < (log[i].call.ms + 1) * MILLISECOND)
    ensures log[i].ok && i + 1 < |log| ==> log[i + 1].call.QueryStatus?
  {
    assert LegalAt(cfg, log, trace, i);
    assert trace[i].await.Timed? && log[i].call.ms == Slice(trace[i].await.remaining);
    assert i > 0 && LegalAt(cfg, log, trace, i - 1);
    TimedByClock(cfg, trace[i - 1], log[i - 1], trace[i]);
    assert i > 1 && LegalAt(cfg, log, trace, i - 2);
    PolledByPoll(cfg, trace[i - 2], log[i - 2], trace[i - 1]);
    if log[i].ok && i + 1 < |log| {
      assert LegalAt(cfg, log, trace, i + 1);
      WaitedThenQuery(cfg, trace[i + 1], log[i + 1], trace[i + 2]);
    }
  }

  /** The deadline of a wait in state `w`, if one is set. */
  predicate Due(w: Await, deadline: int) {
    w.Top? || w.Polled? || w.Timed? || w.Waited? ==> w.deadline == deadline
  }

  /**
    After an operation is launched, the clock is read once for its deadline, which does not move; until the
    operation is released there are only calls of the wait for it.
   */
  lemma {:induction false} WaitIsUndivided(cfg: Config, log: seq<Event>, trace: seq<State>, i: nat, j: nat)
    requires Legal(cfg, log, trace) && i < j < |log| && Launches(log[i])
    requires forall k :: i < k < j ==> log[k].call != ReleaseAsync
    ensures OfAwait(log[j].call) && Awaits(trace[j], log[i].call.op)
    ensures log[i + 1].call.Clock?
    ensures var t := cfg.timeouts;
            Due(trace[j].await, log[i + 1].call.now + match log[i].call.op
                                                      case GatherOp | StatusOp => t.gather
                                                      case PrepareOp => t.prepare
                                                      case DoOp => t.snapshot
                                                      case CompleteOp => t.complete)
    ensures j > i + 1 ==> !trace[j].await.Started?
  {
    assert LegalAt(cfg, log, trace, j);
    if j == i + 1 {
      assert LegalAt(cfg, log, trace, i);
    } else {
      WaitIsUndivided(cfg, log, trace, i, j - 1);
      assert LegalAt(cfg, log, trace, j - 1);
    }
  }

  /** A status that lets the session go on: finished, or a code that is neither known nor a failure. */
  predicate WentWell(e: Event) {
    e.call.QueryStatus? && e.ok && (e.call.status.Finished? || (e.call.status.Other? && !e.call.status.failed))
  }

  /** The `j`-th event releases an operation that the query before it says went well. */
  predicate EndsWell(log: seq<Event>, trace: seq<State>, j: nat, op: Op)
    requires j < |log| && j < |trace|
  {
    0 < j && log[j].call.ReleaseAsync? && Awaits(trace[j], op) && WentWell(log[j - 1])
  }

  /** How many gatherings of writer metadata went well among the first `n` events. */
  function WellGathers(log: seq<Event>, trace: seq<State>, n: nat): nat
    requires n <= |log| && n <= |trace|
  {
    if n == 0 then 0 else WellGathers(log, trace, n - 1) + One(EndsWell(log, trace, n - 1, GatherOp))
  }

  /** The outcome of an operation is what the last query said, and failure if there was none to ask. */
  lemma OutcomeIsTheStatus(cfg: Config, log: seq<Event>, trace: seq<State>, i: nat)
    requires Legal(cfg, log, trace) && 0 < i < |log| && log[i].call.ReleaseAsync?
    ensures trace[i].await.Settled? && (trace[i].await.done <==> WentWell(log[i - 1]))
  {
    assert LegalAt(cfg, log, trace, i);
    assert LegalAt(cfg, log, trace, i - 1);
    PlacedAt(cfg, log, trace, i - 1);
  }

  lemma GatherMoves(cfg: Config, s: State, e: Event, t: State)
    requires Advance(cfg, s, e) == Some(t) && Placed(s)
    ensures One(t.stage.Gathered? || t.stage.RulesRead?) + One(FreesMetadata(e)) ==
            One(s.stage.Gathered? || s.stage.RulesRead?)
            + One(e.call.ReleaseAsync? && s.await == Settled(GatherOp, true))
  {
    match e.call
    case ReleaseAsync =>
    case FreeMetadata =>
    case CollectRules =>
    case _ =>
  }

  /** Metadata that was gathered well is freed, but for what the session has just gathered. */
  lemma {:induction false} GatheredIsFreed(cfg: Config, log: seq<Event>, trace: seq<State>, n: nat)
    requires Legal(cfg, log, trace) && n <= |log|
    ensures WellGathers(log, trace, n) ==
            Tally(log[..n], FreesMetadata) + One(trace[n].stage.Gathered? || trace[n].stage.RulesRead?)
  {
    if n > 0 {
      GatheredIsFreed(cfg, log, trace, n - 1);
      assert LegalAt(cfg, log, trace, n - 1);
      PlacedAt(cfg, log, trace, n - 1);
      assert log[..n] == log[..n - 1] + [log[n - 1]];
      TallySnoc(log[..n - 1], log[n - 1], FreesMetadata);
      GatherMoves(cfg, trace[n - 1], log[n - 1], trace[n]);
      if log[n - 1].call.ReleaseAsync? && n - 1 > 0 { OutcomeIsTheStatus(cfg, log, trace, n - 1); }
    }
  }

  /** After a gathering that went well, the rules are read at once, and then the metadata is freed. */
  lemma GatheredThenReadThenFreed(cfg: Config, log: seq<Event>, trace: seq<State>, j: nat)
    requires Legal(cfg, log, trace) && j < |log| && EndsWell(log, trace, j, GatherOp)
    ensures trace[j + 1].stage.Gathered?
    ensures j + 1 < |log| ==> log[j + 1].call == CollectRules && trace[j + 2].stage.RulesRead?
    ensures j + 2 < |log| ==> log[j + 2].call == FreeMetadata
  {
    OutcomeIsTheStatus(cfg, log, trace, j);
    assert LegalAt(cfg, log, trace, j);
    OnlyReads(cfg, log, trace, j + 1);
    if j + 1 < |log| { OnlyFrees(cfg, log, trace, j + 2); }
  }

  lemma OnlyReads(cfg: Config, log: seq<Event>, trace: seq<State>, i: nat)
    requires Legal(cfg, log, trace) && i <= |log| && trace[i].stage.Gathered? && trace[i].await.Quiet?
    requires trace[i].thread.Inside?
    ensures i < |log| ==> log[i].call == CollectRules && trace[i + 1] == trace[i].(stage := RulesRead)
  {
    assert i < |log| ==> LegalAt(cfg, log, trace, i);
  }

  lemma OnlyFrees(cfg: Config, log: seq<Event>, trace: seq<State>, i: nat)
    requires Legal(cfg, log, trace) && i <= |log| && trace[i].stage.RulesRead? && trace[i].await.Quiet?
    requires trace[i].thread.Inside?
    ensures i < |log| ==> log[i].call == FreeMetadata
  {
    assert i < |log| ==> LegalAt(cfg, log, trace, i);
  }

  /**
    A closed session: made once, released once, never aborted; writers were told exactly if they took
    part, the copies were deleted exactly if they need not persist, and everything taken was given back.
   */
  lemma ClosedSessionBalances(cfg: Config, log: seq<Event>, trace: seq<State>)
    requires Legal(cfg, log, trace) && trace[|log|].stage.Closed?
    ensures Tally(log, Creates) == 1 == Tally(log, Releases) && Tally(log, Aborts) == 0
    ensures Tally(log, Completes) == One(!cfg.noWriters) && Tally(log, Deletes) == One(!cfg.persistent)
    ensures Tally(log, Launches) == Tally(log, ReleasesAsync)
    ensures WellGathers(log, trace, |log|) == Tally(log, Collects) == Tally(log, FreesMetadata)
    ensures Tally(log, AsksStatus) == Tally(log, FreesStatus) && Tally(log, GetsProps) == Tally(log, FreesProps)
  {
    BooksAt(cfg, log, trace, |log|);
    GatheredIsFreed(cfg, log, trace, |log|);
    assert log[..|log|] == log;
  }

  /** A session given up: aborted once and released once; no writer is told it is complete, no copy deleted. */
  lemma DroppedSessionBalances(cfg: Config, log: seq<Event>, trace: seq<State>)
    requires Legal(cfg, log, trace) && trace[|log|].stage.Dropped?
    ensures Tally(log, Creates) == 1 == Tally(log, Releases) && Tally(log, Aborts) == 1
    ensures Tally(log, Completes) == 0 == Tally(log, Deletes)
    ensures Tally(log, Launches) == Tally(log, ReleasesAsync)
    ensures WellGathers(log, trace, |log|) == Tally(log, Collects) == Tally(log, FreesMetadata)
    ensures Tally(log, AsksStatus) == Tally(log, FreesStatus) && Tally(log, GetsProps) == Tally(log, FreesProps)
  {
    BooksAt(cfg, log, trace, |log|);
    GatheredIsFreed(cfg, log, trace, |log|);
    assert log[..|log|] == log;
  }

  // ---- What is asked of VSS, and what is reported.

  /** Snapshots of this context disappear with the session. */
  predicate AutoRelease(context: VssContext) {
    context.Backup? || context.FileShareBackup?
  }

  /** Writers take part in snapshots of this context. */
  predicate WithWriters(context: VssContext) {
    context.Backup? || context.AppRollback?
  }

  /** Telling writers went wrong, or copies could not be deleted that were still there. */
  predicate CloseFails(s: State, e: Event) {
    || e == Event(Launch(CompleteOp), false)
    || (e.call.ReleaseAsync? && s.await == Settled(CompleteOp, false))
    || (e.call.DeleteSet? && !e.ok && !e.call.notFound)
  }

  lemma {:induction false} TroubleComesLate(cfg: Config, log: seq<Event>, trace: seq<State>, n: nat)
    requires Legal(cfg, log, trace) && n <= |log|
    ensures trace[n].trouble.Some? ==> trace[n].stage.Completed? || trace[n].stage.Deleted? || trace[n].stage.Closed?
  {
    if n > 0 {
      TroubleComesLate(cfg, log, trace, n - 1);
      PlacedAt(cfg, log, trace, n - 1);
      assert LegalAt(cfg, log, trace, n - 1);
    }
  }

  /** The trouble a close reports is the first thing that went wrong in it, and it stays. */
  lemma TroubleIsTheFirst(cfg: Config, log: seq<Event>, trace: seq<State>, i: nat)
    requires Legal(cfg, log, trace) && i < |log|
    ensures trace[i].trouble.Some? ==> trace[i + 1].trouble == trace[i].trouble
    ensures trace[i].trouble.None? ==> (trace[i + 1].trouble.Some? <==> CloseFails(trace[i], log[i]))
  {
    assert LegalAt(cfg, log, trace, i);
    PlacedAt(cfg, log, trace, i);
    TroubleComesLate(cfg, log, trace, i);
  }

  // ---- The order of the phases.

  ghost predicate Done(log: seq<Event>, call: Call) {
    Event(call, true) in log
  }

  ghost predicate Captured(log: seq<Event>, k: nat, cursor: Cursor) {
    Event(CaptureCursor(k, cursor), true) in log || Event(CaptureCursor(k, cursor), false) in log
  }

  /** How many volumes have passed their check. */
  function Checked(cfg: Config, stage: Stage): nat {
    match stage
    case Resolving(k) => k
    case Checking(k) => k
    case Adding => cfg.volumes
    case Capturing => cfg.volumes
    case _ => 0
  }

  predicate PastGather(stage: Stage) {
    stage.Gathered? || stage.RulesRead? || stage.Resolving? || stage.Checking? || stage.Adding?
  }

  predicate PastShot(stage: Stage) {
    || stage.Shot? || stage.StatusKept? || stage.StatusListed? || stage.StatusDue? || stage.Fetching? || stage.Held?
    || stage.Open? || stage.Completed? || stage.Deleted? || stage.Closed?
  }

  predicate Failed(stage: Stage) {
    stage.Broken? || stage.Aborted? || stage.Dropped?
  }

  /** The operation that is waited for was launched. */
  ghost predicate WaitHistory(log: seq<Event>, s: State) {
    !s.await.Quiet? ==> Done(log, Launch(s.await.op))
  }

  predicate PastFreezeCall(s: State) {
    Awaits(s, DoOp) || PastShot(s.stage) || Failed(s.stage)
  }

  /** Once the freeze is launched, no cursor is captured any more. */
  ghost predicate FreezeHistory(log: seq<Event>, s: State) {
    Done(log, Launch(DoOp)) ==> PastFreezeCall(s)
  }

  predicate PastContext(stage: Stage) {
    stage.InContext? || stage.InState? || PastGather(stage) || stage.Capturing?
  }

  /** The session was told its context. */
  ghost predicate ContextHistory(cfg: Config, log: seq<Event>, s: State) {
    PastContext(s.stage) ==> Done(log, SetContext(ContextFor(cfg)))
  }

  /** The volumes that must have been checked by now. */
  ghost predicate CheckHistory(cfg: Config, log: seq<Event>, s: State) {
    forall k :: 0 <= k < Checked(cfg, s.stage) ==> Done(log, CheckVolume(k))
  }

  /** The IDs and cursors are those that were given. */
  ghost predicate TakenHistory(log: seq<Event>, s: State) {
    && (forall k :: 0 <= k < |s.ids| ==> Done(log, AddVolume(k, s.ids[k])))
    && (forall k :: 0 <= k < |s.cursors| ==> Captured(log, k, s.cursors[k]))
  }

  /** There is an ID for every volume by the time writers prepare. */
  predicate AllAdded(cfg: Config, s: State) {
    Awaits(s, PrepareOp) || s.stage.Capturing? || PastShot(s.stage) ==> |s.ids| == cfg.volumes
  }

  /** There is a cursor for every volume by the time of the freeze. */
  predicate AllCaptured(cfg: Config, s: State) {
    Awaits(s, DoOp) || PastShot(s.stage) ==> |s.cursors| == cfg.volumes
  }

  lemma WaitHistoryStep(cfg: Config, log: seq<Event>, s: State, e: Event, t: State)
    requires Advance(cfg, s, e) == Some(t) && WaitHistory(log, s)
    ensures WaitHistory(log + [e], t)
  {
  }

  lemma FreezeCallMoves(cfg: Config, s: State, e: Event, t: State)
    requires Advance(cfg, s, e) == Some(t) && Placed(s)
    ensures PastFreezeCall(s) || e == Event(Launch(DoOp), true) ==> PastFreezeCall(t)
  {
    match e.call
    case Launch(_) =>
    case ReleaseAsync =>
    case _ =>
  }

  lemma FreezeHistoryStep(cfg: Config, log: seq<Event>, s: State, e: Event, t: State)
    requires Advance(cfg, s, e) == Some(t) && Placed(s) && FreezeHistory(log, s)
    ensures FreezeHistory(log + [e], t)
  {
    FreezeCallMoves(cfg, s, e, t);
  }

  lemma ContextMoves(cfg: Config, s: State, e: Event, t: State)
    requires Advance(cfg, s, e) == Some(t) && Placed(s)
    ensures PastContext(t.stage) ==> PastContext(s.stage) || e == Event(SetContext(ContextFor(cfg)), true)
  {
    match e.call
    case SetContext(_) =>
    case ReleaseAsync =>
    case _ =>
  }

  lemma ContextHistoryStep(cfg: Config, log: seq<Event>, s: State, e: Event, t: State)
    requires Advance(cfg, s, e) == Some(t) && Placed(s) && ContextHistory(cfg, log, s)
    ensures ContextHistory(cfg, log + [e], t)
  {
    ContextMoves(cfg, s, e, t);
  }

  lemma CheckedMoves(cfg: Config, s: State, e: Event, t: State)
    requires Advance(cfg, s, e) == Some(t) && Placed(s)
    ensures Checked(cfg, t.stage) <= Checked(cfg, s.stage) ||
            (Checked(cfg, t.stage) == Checked(cfg, s.stage) + 1 && e == Event(CheckVolume(Checked(cfg, s.stage)), true))
  {
    match e.call
    case CheckVolume(_) =>
    case ReleaseAsync =>
    case AddVolume(_, _) =>
    case _ =>
  }

  lemma CheckHistoryStep(cfg: Config, log: seq<Event>, s: State, e: Event, t: State)
    requires Advance(cfg, s, e) == Some(t) && Placed(s) && CheckHistory(cfg, log, s)
    ensures CheckHistory(cfg, log + [e], t)
  {
    CheckedMoves(cfg, s, e, t);
  }

  lemma TakenMoves(cfg: Config, s: State, e: Event, t: State)
    requires Advance(cfg, s, e) == Some(t)
    ensures if e.call.AddVolume? && e.ok then e.call.k == |s.ids| && t.ids == s.ids + [e.call.id] else t.ids == s.ids
    ensures if e.call.CaptureCursor? then e.call.k == |s.cursors| && t.cursors == s.cursors + [e.call.cursor]
            else t.cursors == s.cursors
  {
    match e.call
    case AddVolume(_, _) =>
    case CaptureCursor(_, _) =>
    case _ =>
  }

  lemma TakenHistoryStep(cfg: Config, log: seq<Event>, s: State, e: Event, t: State)
    requires Advance(cfg, s, e) == Some(t) && TakenHistory(log, s)
    ensures TakenHistory(log + [e], t)
  {
    TakenMoves(cfg, s, e, t);
  }

  lemma IdsStep(cfg: Config, s: State, e: Event, t: State)
    requires Advance(cfg, s, e) == Some(t) && Placed(s) && AllAdded(cfg, s)
    ensures AllAdded(cfg, t)
  {
    match e.call
    case Launch(_) =>
    case ReleaseAsync =>
    case AddVolume(_, _) =>
    case _ =>
  }

  lemma CursorsStep(cfg: Config, s: State, e: Event, t: State)
    requires Advance(cfg, s, e) == Some(t) && Placed(s) && AllCaptured(cfg, s)
    ensures AllCaptured(cfg, t)
  {
    match e.call
    case Launch(_) =>
    case ReleaseAsync =>
    case CaptureCursor(_, _) =>
    case _ =>
  }

  lemma {:induction false} HistoryAt(cfg: Config, log: seq<Event>, trace: seq<State>, n: nat)
    requires Legal(cfg, log, trace) && n <= |log|
    ensures Placed(trace[n]) && WaitHistory(log[..n], trace[n])
    ensures CheckHistory(cfg, log[..n], trace[n])
    ensures TakenHistory(log[..n], trace[n]) && ContextHistory(cfg, log[..n], trace[n])
    ensures AllAdded(cfg, trace[n]) && AllCaptured(cfg, trace[n]) && FreezeHistory(log[..n], trace[n])
  {
    if n > 0 {
      HistoryAt(cfg, log, trace, n - 1);
      assert LegalAt(cfg, log, trace, n - 1);
      assert log[..n] == log[..n - 1] + [log[n - 1]];
      PlacedStep(cfg, trace[n - 1], log[n - 1], trace[n]);
      WaitHistoryStep(cfg, log[..n - 1], trace[n - 1], log[n - 1], trace[n]);
      ContextHistoryStep(cfg, log[..n - 1], trace[n - 1], log[n - 1], trace[n]);
      FreezeHistoryStep(cfg, log[..n - 1], trace[n - 1], log[n - 1], trace[n]);
      CheckHistoryStep(cfg, log[..n - 1], trace[n - 1], log[n - 1], trace[n]);
      TakenHistoryStep(cfg, log[..n - 1], trace[n - 1], log[n - 1], trace[n]);
      IdsStep(cfg, trace[n - 1], log[n - 1], trace[n]);
      CursorsStep(cfg, trace[n - 1], log[n - 1], trace[n]);
    }
  }

  // ---- The session goes on only after what went well.

  /** The operations a set depends on; the writers' status and the completion are best effort. */
  predicate Essential(op: Op) {
    op.GatherOp? || op.PrepareOp? || op.DoOp?
  }

  /** The stages that come after an operation that went well, or, for the writers' part, without writers. */
  predicate Behind(stage: Stage, op: Op) {
    match op
    case GatherOp => PastGather(stage) || stage.Capturing? || PastShot(stage)
    case PrepareOp => stage.Capturing? || PastShot(stage)
    case DoOp => PastShot(stage)
    case _ => false
  }

  /** The `j`-th event releases an operation that was launched, and that its last query says went well. */
  ghost predicate WellAt(log: seq<Event>, trace: seq<State>, j: nat, op: Op) {
    j < |log| && j < |trace| && EndsWell(log, trace, j, op) && Done(log[..j], Launch(op))
  }

  /** Among the first `n` events the operation was launched, waited for, and went well. */
  ghost predicate WellBefore(log: seq<Event>, trace: seq<State>, n: nat, op: Op) {
    exists j: nat :: j < n && WellAt(log, trace, j, op)
  }

  lemma BehindMoves(cfg: Config, s: State, e: Event, t: State, op: Op)
    requires Advance(cfg, s, e) == Some(t) && Placed(s) && (cfg.noWriters ==> op.DoOp?)
    ensures Behind(t.stage, op) ==> Behind(s.stage, op) || (e.call.ReleaseAsync? && s.await == Settled(op, true))
  {
    match e.call
    case ReleaseAsync =>
    case Launch(_) =>
    case SetBackupState =>
    case AddVolume(_, _) =>
    case FreeProps(_) =>
    case _ =>
  }

  /** The gather, the preparation and the freeze are each got past only by finishing well. */
  lemma {:induction false} BehindIsWell(cfg: Config, log: seq<Event>, trace: seq<State>, n: nat, op: Op)
    requires Legal(cfg, log, trace) && n <= |log| && (cfg.noWriters ==> op.DoOp?)
    requires Behind(trace[n].stage, op)
    ensures WellBefore(log, trace, n, op)
  {
    if n > 0 {
      assert LegalAt(cfg, log, trace, n - 1);
      HistoryAt(cfg, log, trace, n - 1);
      BehindMoves(cfg, trace[n - 1], log[n - 1], trace[n], op);
      if Behind(trace[n - 1].stage, op) {
        BehindIsWell(cfg, log, trace, n - 1, op);
        var j: nat :| j < n - 1 && WellAt(log, trace, j, op);
        assert WellAt(log, trace, j, op);
      } else {
        OutcomeIsTheStatus(cfg, log, trace, n - 1);
        assert WellAt(log, trace, n - 1, op);
      }
    }
  }

  /** The set is started once every volume has passed its check and writers, if any, have described themselves. */
  lemma SetStartsAfterChecks(cfg: Config, log: seq<Event>, trace: seq<State>, i: nat)
    requires Legal(cfg, log, trace) && i < |log| && log[i].call.StartSet?
    ensures forall k :: 0 <= k < cfg.volumes ==> Done(log[..i], CheckVolume(k))
    ensures cfg.noWriters || MetadataReadBefore(log, trace, i)
  {
    assert LegalAt(cfg, log, trace, i);
    HistoryAt(cfg, log, trace, i);
    if !cfg.noWriters {
      BehindIsWell(cfg, log, trace, i, GatherOp);
      var j: nat :| j < i && WellAt(log, trace, j, GatherOp);
      GatheredThenReadThenFreed(cfg, log, trace, j);
      assert j + 2 < i;
    }
  }

  /** Writers were gathered well, their rules were then read, and their metadata was then freed. */
  ghost predicate MetadataReadBefore(log: seq<Event>, trace: seq<State>, n: nat)
    requires n <= |log|
  {
    exists j: nat :: j + 2 < n && WellAt(log, trace, j, GatherOp)
                     && log[j + 1].call == CollectRules && log[j + 2].call == FreeMetadata
  }

  /** Writers prepare after they have described themselves and every volume is in the set. */
  lemma PrepareAfterGather(cfg: Config, log: seq<Event>, trace: seq<State>, i: nat)
    requires Legal(cfg, log, trace) && i < |log| && log[i].call == Launch(PrepareOp)
    ensures !cfg.noWriters && WellBefore(log, trace, i, GatherOp)
    ensures |trace[i].ids| == cfg.volumes
    ensures forall k :: 0 <= k < cfg.volumes ==> Done(log[..i], AddVolume(k, trace[i].ids[k]))
  {
    assert LegalAt(cfg, log, trace, i);
    HistoryAt(cfg, log, trace, i);
    BehindIsWell(cfg, log, trace, i, GatherOp);
  }

  /** A journal cursor is captured after writers, if any take part, have prepared, and before the freeze. */
  lemma CursorBeforeFreeze(cfg: Config, log: seq<Event>, trace: seq<State>, i: nat)
    requires Legal(cfg, log, trace) && i < |log| && log[i].call.CaptureCursor?
    ensures cfg.noWriters || WellBefore(log, trace, i, PrepareOp)
    ensures !Done(log[..i], Launch(DoOp))
  {
    assert LegalAt(cfg, log, trace, i);
    HistoryAt(cfg, log, trace, i);
    if !cfg.noWriters { BehindIsWell(cfg, log, trace, i, PrepareOp); }
  }

  /** The context says exactly whether copies persist and whether writers take part. */
  predicate AsAsked(cfg: Config, context: VssContext) {
    (AutoRelease(context) <==> !cfg.persistent) && (WithWriters(context) <==> !cfg.noWriters)
  }

  /**
    At the freeze the session has been told what was asked for, every volume is in the set and its cursor
    is captured.  Without writers, the freeze is the only operation of the whole session.
   */
  lemma FreezeIsPrepared(cfg: Config, log: seq<Event>, trace: seq<State>, i: nat)
    requires Legal(cfg, log, trace) && i < |log| && log[i].call == Launch(DoOp)
    ensures exists context :: AsAsked(cfg, context) && Done(log[..i], SetContext(context))
    ensures if cfg.noWriters then forall j :: 0 <= j < |log| && log[j].call.Launch? ==> log[j].call.op == DoOp
            else WellBefore(log, trace, i, GatherOp) && WellBefore(log, trace, i, PrepareOp)
    ensures |trace[i].ids| == |trace[i].cursors| == cfg.volumes
    ensures forall k :: 0 <= k < cfg.volumes ==>
              Done(log[..i], CheckVolume(k)) && Done(log[..i], AddVolume(k, trace[i].ids[k])) &&
              Captured(log[..i], k, trace[i].cursors[k])
  {
    assert LegalAt(cfg, log, trace, i);
    HistoryAt(cfg, log, trace, i);
    assert AsAsked(cfg, ContextFor(cfg));
    if cfg.noWriters {
      forall j | 0 <= j < |log| && log[j].call.Launch? ensures log[j].call.op == DoOp {
        assert LegalAt(cfg, log, trace, j);
      }
    } else {
      BehindIsWell(cfg, log, trace, i, GatherOp);
      BehindIsWell(cfg, log, trace, i, PrepareOp);
    }
  }

  // ---- What an open set is made of.

  /** How many snapshots have been described as usable. */
  function Fetched(cfg: Config, stage: Stage): nat {
    match stage
    case Fetching(k) => k
    case Held(k, _) => k
    case Open => cfg.volumes
    case _ => 0
  }

  /** VSS described snapshot `k` as one that can be read. */
  ghost predicate Described(log: seq<Event>, k: nat, id: nat) {
    exists props: Props :: GLOBALROOT <= props.device && props.created && Done(log, GetProps(k, id, props))
  }

  /** A snapshot being looked at was described by the ID of its volume. */
  ghost predicate HeldHistory(cfg: Config, log: seq<Event>, s: State) {
    s.stage.Held? ==>
      var k := s.stage.k;
      k < cfg.volumes && k < |s.ids| && Done(log, GetProps(k, s.ids[k], s.stage.props))
  }

  ghost predicate FetchHistory(cfg: Config, log: seq<Event>, s: State) {
    && Fetched(cfg, s.stage) <= |s.ids|
    && forall k :: 0 <= k < Fetched(cfg, s.stage) ==> Described(log, k, s.ids[k])
  }

  lemma HeldHistoryStep(cfg: Config, log: seq<Event>, s: State, e: Event, t: State)
    requires Advance(cfg, s, e) == Some(t) && Placed(s) && HeldHistory(cfg, log, s)
    ensures HeldHistory(cfg, log + [e], t)
  {
    match e.call
    case GetProps(_, _, _) =>
    case ReleaseAsync =>
    case _ =>
  }

  /** Snapshots are fetched one by one, each by freeing a description that was usable. */
  predicate FetchesOne(cfg: Config, s: State, e: Event, t: State) {
    && e.call.FreeProps? && s.stage.Held? && Usable(s.stage.props)
    && t.ids == s.ids && Fetched(cfg, t.stage) == s.stage.k + 1
  }

  lemma FetchedMoves(cfg: Config, s: State, e: Event, t: State)
    requires Advance(cfg, s, e) == Some(t) && Placed(s)
    ensures s.ids <= t.ids
    ensures Fetched(cfg, t.stage) <= Fetched(cfg, s.stage) || FetchesOne(cfg, s, e, t)
  {
    match e.call
    case FreeProps(_) =>
    case AddVolume(_, _) =>
    case ReleaseAsync =>
    case Launch(_) =>
    case _ =>
  }

  lemma DescribedGrows(log: seq<Event>, e: Event, k: nat, id: nat)
    requires Described(log, k, id)
    ensures Described(log + [e], k, id)
  {
    var props: Props :| GLOBALROOT <= props.device && props.created && Done(log, GetProps(k, id, props));
    assert Done(log + [e], GetProps(k, id, props));
  }

  lemma FetchHistoryStep(cfg: Config, log: seq<Event>, s: State, e: Event, t: State)
    requires HeldHistory(cfg, log, s) && FetchHistory(cfg, log, s) && s.ids <= t.ids
    requires Fetched(cfg, t.stage) <= Fetched(cfg, s.stage) || FetchesOne(cfg, s, e, t)
    ensures FetchHistory(cfg, log + [e], t)
  {
    forall k | 0 <= k < Fetched(cfg, t.stage) ensures k < |s.ids| && Described(log + [e], k, s.ids[k]) {
      if k < Fetched(cfg, s.stage) {
        DescribedGrows(log, e, k, s.ids[k]);
      } else {
        assert Done(log + [e], GetProps(k, s.ids[k], s.stage.props));
      }
    }
  }

  lemma {:induction false} FetchHistoryAt(cfg: Config, log: seq<Event>, trace: seq<State>, n: nat)
    requires Legal(cfg, log, trace) && n <= |log|
    ensures Placed(trace[n]) && HeldHistory(cfg, log[..n], trace[n]) && FetchHistory(cfg, log[..n], trace[n])
  {
    if n > 0 {
      FetchHistoryAt(cfg, log, trace, n - 1);
      assert LegalAt(cfg, log, trace, n - 1);
      assert log[..n] == log[..n - 1] + [log[n - 1]];
      PlacedStep(cfg, trace[n - 1], log[n - 1], trace[n]);
      HeldHistoryStep(cfg, log[..n - 1], trace[n - 1], log[n - 1], trace[n]);
      FetchedMoves(cfg, trace[n - 1], log[n - 1], trace[n]);
      FetchHistoryStep(cfg, log[..n - 1], trace[n - 1], log[n - 1], trace[n]);
    }
  }

  /** A set that is open was frozen well, and has one usable snapshot and one captured cursor for every volume. */
  lemma OpenSetIsWhole(cfg: Config, log: seq<Event>, trace: seq<State>)
    requires Legal(cfg, log, trace) && trace[|log|].stage.Open?
    ensures WellBefore(log, trace, |log|, DoOp)
    ensures cfg.noWriters || (WellBefore(log, trace, |log|, GatherOp) && WellBefore(log, trace, |log|, PrepareOp))
    ensures var s := trace[|log|];
            && |s.ids| == |s.cursors| == cfg.volumes
            && forall k :: 0 <= k < cfg.volumes ==>
                 Done(log, AddVolume(k, s.ids[k])) && Described(log, k, s.ids[k]) && Captured(log, k, s.cursors[k])
  {
    HistoryAt(cfg, log, trace, |log|);
    FetchHistoryAt(cfg, log, trace, |log|);
    BehindIsWell(cfg, log, trace, |log|, DoOp);
    if !cfg.noWriters {
      BehindIsWell(cfg, log, trace, |log|, GatherOp);
      BehindIsWell(cfg, log, trace, |log|, PrepareOp);
    }
    assert log[..|log|] == log;
  }

  // ---- A set fails only for a cause, and every cause fails it.

  predicate IsSpoiled(stage: Stage) {
    Failed(stage) || stage.Unmakeable?
  }

  /** The calls a set cannot do without. */
  predicate Needed(call: Call) {
    match call
    case Launch(op) => Essential(op)
    case CreateComponents | Initialize | SetContext(_) | SetBackupState => true
    case ResolveVolume(_) | CheckVolume(_) | StartSet | AddVolume(_, _) | GetProps(_, _, _) => true
    case _ => false
  }

  /** What spoils a set: a needed call or operation that fails, or a snapshot that cannot be read. */
  predicate Spoils(s: State, e: Event) {
    || (Needed(e.call) && !e.ok)
    || (e.call.ReleaseAsync? && s.await.Settled? && Essential(s.await.op) && !s.await.done)
    || (e.call.FreeProps? && s.stage.Held? && !Usable(s.stage.props))
  }

  lemma SpoiledMoves(cfg: Config, s: State, e: Event, t: State)
    requires Advance(cfg, s, e) == Some(t) && Placed(s)
    ensures IsSpoiled(t.stage) <==> IsSpoiled(s.stage) || Spoils(s, e)
  {
    match e.call
    case ReleaseAsync =>
    case Launch(_) =>
    case FreeProps(_) =>
    case AddVolume(_, _) =>
    case Release =>
    case _ =>
  }

  /** The same in terms of the log: an essential operation fails unless its last query says it went well. */
  ghost predicate SpoiledAt(log: seq<Event>, trace: seq<State>, i: nat)
    requires i < |log| && i < |trace|
  {
    var s, e := trace[i], log[i];
    || (Needed(e.call) && !e.ok)
    || (i > 0 && e.call.ReleaseAsync? && !s.await.Quiet? && Essential(s.await.op) && !WentWell(log[i - 1]))
    || (e.call.FreeProps? && s.stage.Held? && !(GLOBALROOT <= s.stage.props.device && s.stage.props.created))
  }

  ghost predicate Spoiled(log: seq<Event>, trace: seq<State>, n: nat)
    requires n <= |log| && n <= |trace|
  {
    exists i: nat :: i < n && SpoiledAt(log, trace, i)
  }

  lemma SpoilsIsSpoiledAt(cfg: Config, log: seq<Event>, trace: seq<State>, i: nat)
    requires Legal(cfg, log, trace) && i < |log|
    ensures Spoils(trace[i], log[i]) <==> SpoiledAt(log, trace, i)
  {
    assert LegalAt(cfg, log, trace, i);
    if log[i].call.ReleaseAsync? && i > 0 { OutcomeIsTheStatus(cfg, log, trace, i); }
  }

  /** A session is given up, or never made, if and only if one of these things has happened. */
  lemma {:induction false} SpoiledForACause(cfg: Config, log: seq<Event>, trace: seq<State>, n: nat)
    requires Legal(cfg, log, trace) && n <= |log|
    ensures IsSpoiled(trace[n].stage) <==> Spoiled(log, trace, n)
  {
    if n > 0 {
      SpoiledForACause(cfg, log, trace, n - 1);
      assert LegalAt(cfg, log, trace, n - 1);
      PlacedAt(cfg, log, trace, n - 1);
      SpoiledMoves(cfg, trace[n - 1], log[n - 1], trace[n]);
      SpoilsIsSpoiledAt(cfg, log, trace, n - 1);
      if Spoiled(log, trace, n) {
        var i: nat :| i < n && SpoiledAt(log, trace, i);
        assert i < n - 1 ==> Spoiled(log, trace, n - 1);
      }
      if i: nat :| i < n - 1 && SpoiledAt(log, trace, i) {
        assert Spoiled(log, trace, n);
      }
    }
  }

  /** A session is unmade on a stopped thread exactly if the thread failed to start. */
  lemma {:induction false} ThreadFailedToStart(cfg: Config, log: seq<Event>, trace: seq<State>, n: nat)
    requires Legal(cfg, log, trace) && n <= |log|
    ensures trace[n].thread.NotStarted? ==> trace[n].stage.Unmade?
    ensures trace[n].thread.Stopped? && trace[n].stage.Unmade? <==> Event(StartWorker, false) in log[..n]
  {
    if n > 0 {
      ThreadFailedToStart(cfg, log, trace, n - 1);
      assert LegalAt(cfg, log, trace, n - 1);
      assert log[..n] == log[..n - 1] + [log[n - 1]];
      ThreadMoves(cfg, trace[n - 1], log[n - 1], trace[n]);
    }
  }

  lemma ThreadMoves(cfg: Config, s: State, e: Event, t: State)
    requires Advance(cfg, s, e) == Some(t) && (s.thread.NotStarted? ==> s.stage.Unmade?)
    ensures t.thread.NotStarted? ==> t.stage.Unmade?
    ensures t.thread.Stopped? && t.stage.Unmade? <==>
            (s.thread.Stopped? && s.stage.Unmade?) || e == Event(StartWorker, false)
  {
  }

  // ---- A whole life.

  /** The counts of a session at its end; `wasOpen` tells whether its set was ever handed out. */
  ghost predicate Balanced(cfg: Config, log: seq<Event>, trace: seq<State>, wasOpen: bool)
    requires |log| <= |trace|
  {
    && Tally(log, Creates) == Tally(log, Releases) <= 1
    && Tally(log, Aborts) == (if wasOpen then 0 else Tally(log, Creates))
    && Tally(log, Completes) == One(wasOpen && !cfg.noWriters)
    && Tally(log, Deletes) == One(wasOpen && !cfg.persistent)
    && Tally(log, Starts) == Tally(log, Stops) <= 1
    && Tally(log, Launches) == Tally(log, ReleasesAsync)
    && WellGathers(log, trace, |log|) == Tally(log, Collects) == Tally(log, FreesMetadata)
    && Tally(log, AsksStatus) == Tally(log, FreesStatus) && Tally(log, GetsProps) == Tally(log, FreesProps)
  }

  lemma EndedSessionBalances(cfg: Config, log: seq<Event>, trace: seq<State>)
    requires Legal(cfg, log, trace)
    requires var s := trace[|log|];
             s.thread.Stopped? && s.await.Quiet? && (Over(s.stage) || s.stage.Unmade? || s.stage.Unmakeable?)
    ensures Balanced(cfg, log, trace, trace[|log|].stage.Closed?)
  {
    BooksAt(cfg, log, trace, |log|);
    GatheredIsFreed(cfg, log, trace, |log|);
    assert log[..|log|] == log;
    StoppedThreadBalances(cfg, log, trace);
  }

  lemma OpenUnlessSpoiled(cfg: Config, log: seq<Event>, trace: seq<State>)
    requires Legal(cfg, log, trace)
    requires var s := trace[|log|]; s.stage.Unmade? ==> s.thread.Stopped?
    requires var s := trace[|log|]; s.stage.Open? || s.stage.Closed? || s.stage.Unmade? || IsSpoiled(s.stage)
    ensures trace[|log|].stage.Open? || trace[|log|].stage.Closed? <==>
            Event(StartWorker, false) !in log && !Spoiled(log, trace, |log|)
  {
    SpoiledForACause(cfg, log, trace, |log|);
    ThreadFailedToStart(cfg, log, trace, |log|);
    assert log[..|log|] == log;
  }

  /**
    A snapshot set from `CreateSet` to any number of calls of `Close`, whatever fails on the way.  It is
    opened unless its thread does not start or something spoils it; once it has failed or has been closed,
    its calls balance.
   */
  method CreateThenClose(env: Env, paths: seq<string>, noWriters: bool, persistent: bool, t: Timeouts, closes: nat)
    returns (session: Requester, wasOpen: bool)
    requires Ticks(env) && 1 <= |paths| <= 64
    ensures fresh(session) && Legal(session.cfg, session.log, session.trace)
    ensures session.cfg == Config(noWriters, persistent, |paths|, t)
    ensures wasOpen && closes == 0 ==> session.state.stage.Open? && session.state.thread.Outside?
    ensures wasOpen && closes > 0 ==> session.state.stage.Closed?
    ensures !wasOpen || closes > 0 ==> Balanced(session.cfg, session.log, session.trace, wasOpen)
    ensures wasOpen <==>
            Event(StartWorker, false) !in session.log && !Spoiled(session.log, session.trace, |session.log|)
  {
    var r, handed, made := CreateSnapshotSet(env, paths, noWriters, persistent, t, true);
    session, wasOpen := made.value, handed.Some?;
    if wasOpen {
      var ss := handed.value;
      for i := 0 to closes
        invariant ss.Valid() && ss.backend == made && fresh(ss) && fresh(session)
        invariant ss.closed <==> i > 0
      {
        var _ := ss.Close();
      }
    }
    if !wasOpen || closes > 0 {
      EndedSessionBalances(session.cfg, session.log, session.trace);
    }
    OpenUnlessSpoiled(session.cfg, session.log, session.trace);
  }
}
