/**
  The requester: creating a snapshot set, waiting for VSS, and closing (create_windows.go,
  async_windows.go, worker_windows.go, vss.go).

  Every call goes through `Do`, which may only be used for a call the automaton of `Session` allows
  next, whether or not that call succeeds.
 */
module Requester {
  import opened Options
  import opened UsnCursor
  import opened Session

  /** The rest of the world: what each call comes back with, given everything so far. */
  datatype Env = Env(
    answer: (seq<Event>, Call) -> bool,
    clock: seq<Event> -> int,
    status: seq<Event> -> AsyncStatus,
    id: seq<Event> -> nat,
    cursor: seq<Event> -> Cursor,
    props: (seq<Event>, nat) -> Props,
    count: seq<Event> -> nat,
    notFound: seq<Event> -> bool)

  ghost predicate ClockPasses(env: Env, time: int, calls: nat) {
    forall log :: |log| >= calls ==> env.clock(log) >= time
  }

  ghost predicate EventuallyPast(env: Env, time: int) {
    exists calls: nat :: ClockPasses(env, time, calls)
  }

  /** Time goes on: any moment is past after enough calls. */
  ghost predicate Ticks(env: Env) {
    forall time :: EventuallyPast(env, time)
  }

  datatype Snapshot = Snapshot(volumePath: string, id: nat, device: string, cursor: Cursor)

  /** VSS, asked for the snapshot with this ID, described one like that at some moment, as usable. */
  ghost predicate Describes(env: Env, id: nat, props: Props) {
    GLOBALROOT <= props.device && props.created && exists log :: props == env.props(log, id)
  }

  /** The snapshot is what VSS describes when asked for the ID. */
  ghost predicate Depicts(env: Env, id: nat, snap: Snapshot) {
    Describes(env, id, Props(snap.id, snap.device, true))
  }

  /**
    Snapshot `k` is the one of volume `k`: its path, the cursor captured for it, and what VSS describes
    when asked for the ID that adding the volume returned.
   */
  ghost predicate Aligned(env: Env, snaps: seq<Snapshot>, n: nat, paths: seq<string>, ids: seq<nat>,
                          cursors: seq<Cursor>) {
    && |snaps| == n <= |paths| && n <= |ids| && n <= |cursors|
    && forall k :: 0 <= k < n ==>
         snaps[k].volumePath == paths[k] && snaps[k].cursor == cursors[k] && Depicts(env, ids[k], snaps[k])
  }

  /** The contract of VSS: the snapshot described is the one that was asked for. */
  ghost predicate DescribesTheAsked(env: Env) {
    forall log, id :: env.props(log, id).id == id
  }

  /** If VSS keeps that contract, each snapshot has its volume's ID; its path is always a shadow device's. */
  lemma AlignedIds(env: Env, snaps: seq<Snapshot>, n: nat, paths: seq<string>, ids: seq<nat>, cursors: seq<Cursor>,
                   k: nat)
    requires Aligned(env, snaps, n, paths, ids, cursors) && k < n
    ensures GLOBALROOT <= snaps[k].device
    ensures DescribesTheAsked(env) ==> snaps[k].id == ids[k]
  {
    assert Depicts(env, ids[k], snaps[k]);
    var log :| Props(snaps[k].id, snaps[k].device, true) == env.props(log, ids[k]);
  }

  /** The next snapshot, with what was kept for its volume. */
  function Paired(before: seq<Snapshot>, k: nat, paths: seq<string>, cursors: seq<Cursor>, props: Props)
    : (snaps: seq<Snapshot>)
    requires k < |paths| && k < |cursors|
    ensures |snaps| == |before| + 1
  {
    before + [Snapshot(paths[k], props.id, props.device, cursors[k])]
  }

  lemma PairedIsAligned(env: Env, before: seq<Snapshot>, k: nat, paths: seq<string>, ids: seq<nat>,
                        cursors: seq<Cursor>, props: Props)
    requires k < |paths| && k < |ids| && k < |cursors|
    requires Aligned(env, before, k, paths, ids, cursors) && Describes(env, ids[k], props)
    ensures Aligned(env, Paired(before, k, paths, cursors, props), k + 1, paths, ids, cursors)
  {
    var snap := Snapshot(paths[k], props.id, props.device, cursors[k]);
    assert Props(snap.id, snap.device, true) == props;
    assert Depicts(env, ids[k], snap);
  }

  /** The log ends with these calls. */
  ghost predicate EndsWith(log: seq<Event>, calls: seq<Call>) {
    |calls| <= |log| && forall i :: 0 <= i < |calls| ==> log[|log| - |calls| + i].call == calls[i]
  }

  class Requester {
    const cfg: Config
    const env: Env
    var log: seq<Event>
    ghost var state: State
    ghost var trace: seq<State>

    /** The log is a legal session so far, and `state` is where it has led. */
    ghost predicate Valid()
      reads this
    {
      Legal(cfg, log, trace) && trace[|log|] == state && Ticks(env)
    }

    constructor (cfg: Config, env: Env)
      requires Ticks(env)
      ensures Valid() && this.cfg == cfg && this.env == env && log == [] && state == START
    {
      this.cfg := cfg;
      this.env := env;
      this.log := [];
      this.state := START;
      this.trace := [START];
    }

    method Do(call: Call) returns (ok: bool)
      requires Valid()
      requires Advance(cfg, state, Event(call, true)).Some? && Advance(cfg, state, Event(call, false)).Some?
      modifies this
      ensures Valid() && log == old(log) + [Event(call, ok)] && ok == env.answer(old(log), call)
      ensures Advance(cfg, old(state), Event(call, ok)) == Some(state)
    {
      ok := env.answer(log, call);
      var e := Event(call, ok);
      ghost var next := Advance(cfg, state, e).value;
      LegalSnoc(cfg, log, trace, e, next);
      log := log + [e];
      trace := trace + [next];
      state := next;
    }

    /** A call on the operation that is being waited for. */
    method DoAwait(call: Call) returns (ok: bool)
      requires Valid() && state.thread.Inside? && OfAwait(call)
      requires AdvanceAwait(cfg, state, Event(call, true)).Some? && AdvanceAwait(cfg, state, Event(call, false)).Some?
      modifies this
      ensures Valid() && log == old(log) + [Event(call, ok)] && ok == env.answer(old(log), call)
      ensures AdvanceAwait(cfg, old(state), Event(call, ok)) == Some(state)
    {
      ok := Do(call);
    }

    /**
      `awaitAsync`: poll until the operation is over, the context is done or the deadline has passed.
      The wait ends: `Ticks` bounds the number of rounds.
     */
    method AwaitAsync(op: Op) returns (done: bool)
      requires Valid() && state.thread.Inside? && state.await == Started(op)
      modifies this
      ensures Valid() && Some(state) == AfterAwait(old(state).(await := Quiet), op, done)
      ensures old(log) < log
    {
      var now := env.clock(log);
      var _ := DoAwait(Clock(now));
      var deadline := now + TimeoutFor(cfg.timeouts, op);
      ghost var first := log;
      assert EventuallyPast(env, deadline);
      ghost var calls: nat :| ClockPasses(env, deadline, calls);
      while true
        invariant Valid() && state == old(state).(await := Top(op, deadline)) && first <= log
        decreases calls - |log|
      {
        var over := AwaitRound(op, deadline, calls);
        if over.Some? {
          return over.value;
        }
      }
    }

    /** One turn of the loop; `None` means the operation is still pending. */
    method AwaitRound(op: Op, deadline: int, ghost calls: nat) returns (over: Option<bool>)
      requires Valid() && state.thread.Inside? && state.await == Top(op, deadline) && ClockPasses(env, deadline, calls)
      modifies this
      ensures Valid() && old(log) < log
      ensures over.None? ==> state == old(state) && |old(log)| < calls
      ensures over.Some? ==> Some(state) == AfterAwait(old(state).(await := Quiet), op, over.value)
    {
      var proceed := DoAwait(Poll);
      if proceed {
        over := AwaitPolled(op, deadline, calls);
      } else {
        Cancel(op);
        over := Some(false);
      }
    }

    /** The deadline is looked at on every turn. */
    method AwaitPolled(op: Op, deadline: int, ghost calls: nat) returns (over: Option<bool>)
      requires Valid() && state.thread.Inside? && state.await == Polled(op, deadline)
      requires ClockPasses(env, deadline, calls)
      modifies this
      ensures Valid() && old(log) < log
      ensures over.None? ==> state == old(state).(await := Top(op, deadline)) && |old(log)| < calls
      ensures over.Some? ==> Some(state) == AfterAwait(old(state).(await := Quiet), op, over.value)
    {
      var now := env.clock(log);
      var remaining := deadline - now;
      var _ := DoAwait(Clock(now));
      if remaining <= 0 {
        Cancel(op);
        over := Some(false);
      } else {
        over := AwaitSlice(op, deadline, remaining);
      }
    }

    /** Wait for at most a second of what remains. */
    method AwaitSlice(op: Op, ghost deadline: int, remaining: int) returns (over: Option<bool>)
      requires Valid() && state.thread.Inside? && state.await == Timed(op, deadline, remaining) && remaining > 0
      modifies this
      ensures Valid() && old(log) < log
      ensures over.None? ==> state == old(state).(await := Top(op, deadline))
      ensures over.Some? ==> Some(state) == AfterAwait(old(state).(await := Quiet), op, over.value)
    {
      var ok := DoAwait(Wait(Slice(remaining)));
      if ok {
        over := Ask(op, deadline);
      } else {
        Cancel(op);
        over := Some(false);
      }
    }

    /** Whatever the wait said, the operation's own status decides. */
    method Ask(op: Op, ghost deadline: int) returns (over: Option<bool>)
      requires Valid() && state.thread.Inside? && state.await == Waited(op, deadline)
      modifies this
      ensures Valid() && old(log) < log
      ensures over.None? ==> state == old(state).(await := Top(op, deadline))
      ensures over.Some? ==> Some(state) == AfterAwait(old(state).(await := Quiet), op, over.value)
    {
      var status := env.status(log);
      var ok := DoAwait(QueryStatus(status));
      if !ok {
        Cancel(op);
        over := Some(false);
      } else if status.Pending? {
        over := None;
      } else {
        over := Some(status.Finished? || (status.Other? && !status.failed));
        var _ := DoAwait(ReleaseAsync);
      }
    }

    /** Cancel the operation and, as on every way out, release it. */
    method Cancel(op: Op)
      requires Valid() && state.thread.Inside? && state.await == MustCancel(op)
      modifies this
      ensures Valid() && Some(state) == AfterAwait(old(state).(await := Quiet), op, false)
      ensures old(log) < log
    {
      var _ := DoAwait(CancelAsync);
      var _ := DoAwait(ReleaseAsync);
    }

    /** Launch an operation and, if that succeeds, wait for it. */
    method Perform(op: Op) returns (done: bool)
      requires Valid() && state.thread.Inside? && state.await.Quiet?
      requires AdvanceLaunch(cfg, state, op, true) == Some(state.(await := Started(op)))
      requires AdvanceLaunch(cfg, state, op, false).Some? && !op.StatusOp?
      modifies this
      ensures Valid() && old(log) < log
      ensures done ==> Some(state) == AfterAwait(old(state), op, true)
      ensures !done ==>
                || Some(state) == AfterAwait(old(state), op, false)
                || Some(state) == AdvanceLaunch(cfg, old(state), op, false)
    {
      done := Do(Launch(op));
      if done {
        done := AwaitAsync(op);
      }
    }

    // ---- `createSet`, phase by phase.

    ghost predicate Ready(stage: Stage)
      reads this
    {
      && Valid() && state.thread.Inside? && state.await.Quiet? && state.stage == stage
      && state.trouble.None?
    }

    ghost predicate NothingTaken()
      reads this
    {
      state.ids == [] && state.cursors == []
    }

    /** A call on the session, inside its thread, while no operation is being waited for. */
    method DoPhase(call: Call) returns (ok: bool)
      requires Ready(state.stage) && !OfThread(call) && !OfAwait(call) && !call.Launch?
      requires AdvanceSession(cfg, state, Event(call, true)).Some?
      requires AdvanceSession(cfg, state, Event(call, false)).Some?
      modifies this
      ensures Valid() && state.thread.Inside? && state.await.Quiet?
      ensures log == old(log) + [Event(call, ok)] && ok == env.answer(old(log), call)
      ensures AdvanceSession(cfg, old(state), Event(call, ok)) == Some(state)
    {
      ok := Do(call);
    }

    /** A session object, told what kind of backup this is. */
    method SetUp() returns (ok: bool, made: bool)
      requires Ready(Unmade) && NothingTaken()
      modifies this
      ensures NothingTaken()
      ensures ok ==> made && Ready(if cfg.noWriters then Resolving(0) else InState)
      ensures !ok ==> Ready(if made then Broken else Unmakeable)
    {
      made := DoPhase(CreateComponents);
      ok := made;
      if !ok { return; }
      ok := DoPhase(Initialize);
      if !ok { return; }
      ok := DoPhase(SetContext(ContextFor(cfg)));
      if !ok { return; }
      ok := DoPhase(SetBackupState);
    }

    /** Writer metadata: read while it is held, freed once. */
    method GatherMetadata() returns (ok: bool)
      requires Ready(InState) && NothingTaken() && !cfg.noWriters
      modifies this
      ensures NothingTaken()
      ensures ok ==> Ready(Resolving(0))
      ensures !ok ==> Ready(Broken)
    {
      ok := Perform(GatherOp);
      if !ok { return; }
      var _ := DoPhase(CollectRules);
      var _ := DoPhase(FreeMetadata);
    }

    /** Every volume is resolved and checked before the set is started. */
    method Preflight() returns (ok: bool)
      requires Ready(Resolving(0)) && NothingTaken()
      modifies this
      ensures NothingTaken()
      ensures ok ==> Ready(Resolving(cfg.volumes))
      ensures !ok ==> Ready(Broken)
    {
      for k := 0 to cfg.volumes
        invariant Ready(Resolving(k)) && NothingTaken()
      {
        ok := Check(k);
        if !ok { return; }
      }
      ok := true;
    }

    method Check(k: nat) returns (ok: bool)
      requires Ready(Resolving(k)) && NothingTaken() && k < cfg.volumes
      modifies this
      ensures NothingTaken() && Ready(if ok then Resolving(k + 1) else Broken)
    {
      ok := DoPhase(ResolveVolume(k));
      if !ok { return; }
      ok := DoPhase(CheckVolume(k));
    }

    /** The set, with every volume added. */
    method AddVolumes() returns (ok: bool, ids: seq<nat>)
      requires Ready(Resolving(cfg.volumes)) && NothingTaken() && cfg.volumes > 0
      modifies this
      ensures state.cursors == []
      ensures ok ==> Ready(if cfg.noWriters then Capturing else Adding) && |ids| == cfg.volumes && ids == state.ids
      ensures !ok ==> Ready(Broken)
    {
      ids := [];
      ok := DoPhase(StartSet);
      if !ok { return; }
      for k := 0 to cfg.volumes
        invariant Ready(if cfg.noWriters && k == cfg.volumes then Capturing else Adding)
        invariant |ids| == k && ids == state.ids && state.cursors == []
      {
        var id := env.id(log);
        ok := DoPhase(AddVolume(k, id));
        if !ok { return; }
        ids := ids + [id];
      }
      ok := true;
    }

    /** Writers prepare, unless none take part. */
    method Prepare() returns (ok: bool)
      requires Ready(if cfg.noWriters then Capturing else Adding) && |state.ids| == cfg.volumes && state.cursors == []
      modifies this
      ensures state.ids == old(state.ids) && state.cursors == []
      ensures ok ==> Ready(Capturing)
      ensures !ok ==> Ready(Broken)
    {
      ok := true;
      if !cfg.noWriters {
        ok := Perform(PrepareOp);
      }
    }

    /** Every volume's journal cursor, as late as possible, and then the freeze. */
    method Shoot() returns (ok: bool, cursors: seq<Cursor>)
      requires Ready(Capturing) && |state.ids| == cfg.volumes && state.cursors == []
      modifies this
      ensures state.ids == old(state.ids)
      ensures ok ==> Ready(Shot) && |cursors| == cfg.volumes && cursors == state.cursors
      ensures !ok ==> Ready(Broken)
    {
      cursors := [];
      for k := 0 to cfg.volumes
        invariant Ready(Capturing) && state.ids == old(state.ids)
        invariant |cursors| == k && cursors == state.cursors
      {
        var cursor := env.cursor(log);
        var _ := DoPhase(CaptureCursor(k, cursor));
        cursors := cursors + [cursor];
      }
      ok := Perform(DoOp);
    }

    /** Writer outcomes, best effort; whatever was gathered is freed. */
    method ListWriters()
      requires Ready(Shot) && !cfg.noWriters
      modifies this
      ensures Ready(Fetching(0)) && state.ids == old(state.ids) && state.cursors == old(state.cursors)
    {
      var launched := Do(Launch(StatusOp));
      if launched {
        var done := AwaitAsync(StatusOp);
        if done {
          ReadStatuses();
        } else {
          var _ := DoPhase(FreeStatus);
        }
      }
    }

    method ReadStatuses()
      requires Ready(StatusKept)
      modifies this
      ensures Ready(Fetching(0)) && state.ids == old(state.ids) && state.cursors == old(state.cursors)
    {
      var n := env.count(log);
      var counted := DoPhase(StatusCount(n));
      if counted {
        ReadListed(n);
      }
      var _ := DoPhase(FreeStatus);
    }

    method ReadListed(n: nat)
      requires Ready(StatusListed(n, 0))
      modifies this
      ensures Ready(StatusListed(n, n)) && state.ids == old(state.ids) && state.cursors == old(state.cursors)
    {
      for k := 0 to n
        invariant Ready(StatusListed(n, k)) && state.ids == old(state.ids) && state.cursors == old(state.cursors)
      {
        var _ := DoPhase(WriterStatus(k));
      }
    }

    /** The snapshots, in the order of the volumes; one that is not usable fails the set. */
    method Fetch(paths: seq<string>, ids: seq<nat>, cursors: seq<Cursor>) returns (ok: bool, snaps: seq<Snapshot>)
      requires Ready(Fetching(0)) || (Ready(Shot) && cfg.noWriters)
      requires ids == state.ids && cursors == state.cursors
      requires |paths| == cfg.volumes == |ids| == |cursors| && cfg.volumes > 0
      modifies this
      ensures state.ids == ids && state.cursors == cursors
      ensures ok ==> Ready(Open) && Aligned(env, snaps, |paths|, paths, ids, cursors)
      ensures !ok ==> Ready(Broken)
    {
      ok, snaps := FetchOne(0, paths, ids, cursors, []);
      if !ok { return; }
      for k := 1 to cfg.volumes
        invariant Ready(if k == cfg.volumes then Open else Fetching(k))
        invariant state.ids == ids && state.cursors == cursors
        invariant Aligned(env, snaps, k, paths, ids, cursors)
      {
        ok, snaps := FetchOne(k, paths, ids, cursors, snaps);
        if !ok { return; }
      }
    }

    /** The body of the loop over the snapshots. */
    method FetchOne(k: nat, paths: seq<string>, ids: seq<nat>, cursors: seq<Cursor>, before: seq<Snapshot>)
      returns (ok: bool, snaps: seq<Snapshot>)
      requires Ready(Fetching(k)) || (Ready(Shot) && cfg.noWriters && k == 0)
      requires ids == state.ids && cursors == state.cursors
      requires k < cfg.volumes == |paths| == |ids| == |cursors| && Aligned(env, before, k, paths, ids, cursors)
      modifies this
      ensures state.ids == ids && state.cursors == cursors
      ensures ok ==> Ready(if k + 1 == cfg.volumes then Open else Fetching(k + 1))
      ensures ok ==> Aligned(env, snaps, k + 1, paths, ids, cursors)
      ensures !ok ==> Ready(Broken)
    {
      snaps := before;
      var props;
      ok, props := Describe(k, ids[k]);
      if ok {
        PairedIsAligned(env, before, k, paths, ids, cursors, props);
        snaps := Paired(before, k, paths, cursors, props);
      }
    }

    /** What VSS says of one snapshot, freed as soon as it is copied. */
    method Describe(k: nat, id: nat) returns (ok: bool, props: Props)
      requires Ready(state.stage) && AtFetch(cfg, state.stage, k)
      requires k < cfg.volumes && k < |state.ids| && id == state.ids[k]
      modifies this
      ensures state.ids == old(state.ids) && state.cursors == old(state.cursors)
      ensures ok ==> Describes(env, id, props) && Ready(if k + 1 == cfg.volumes then Open else Fetching(k + 1))
      ensures !ok ==> Ready(Broken)
    {
      props := env.props(log, id);
      ok := DoPhase(GetProps(k, id, props));
      if ok {
        var _ := DoPhase(FreeProps(k));
        ok := Usable(props);
      }
    }

    // ---- The command thread.

    /** The closure `createSet` runs on the thread. */
    method Build(paths: seq<string>) returns (ok: bool, made: bool, snaps: seq<Snapshot>)
      requires Ready(Unmade) && NothingTaken() && |paths| == cfg.volumes > 0
      modifies this
      ensures ok ==> Ready(Open) && Aligned(env, snaps, |paths|, paths, state.ids, state.cursors)
      ensures !ok ==> Ready(if made then Broken else Unmakeable)
    {
      snaps := [];
      ok, made := SetUp();
      if !ok { return; }
      if !cfg.noWriters {
        ok := GatherMetadata();
        if !ok { return; }
      }
      ok := Preflight();
      if !ok { return; }
      var ids, cursors;
      ok, ids := AddVolumes();
      if !ok { return; }
      ok := Prepare();
      if !ok { return; }
      ok, cursors := Shoot();
      if !ok { return; }
      if !cfg.noWriters {
        ListWriters();
      }
      ok, snaps := Fetch(paths, ids, cursors);
    }

    /**
      `createSet`: the whole life up to a usable set, or all of it unwound.  A session that was made and
      failed is aborted and released before the thread stops; a thread that never had one just stops.
     */
    method CreateSet(paths: seq<string>) returns (r: Option<seq<Snapshot>>)
      requires Valid() && log == [] && |paths| == cfg.volumes > 0
      modifies this
      ensures Valid()
      ensures r.Some? ==> state.thread.Outside? && state.await.Quiet? && state.stage.Open? && state.trouble.None?
      ensures r.Some? ==> Aligned(env, r.value, |paths|, paths, state.ids, state.cursors)
      ensures r.None? ==> state.thread.Stopped? && state.await.Quiet?
      ensures r.None? ==> state.stage.Unmade? || state.stage.Unmakeable? || state.stage.Dropped?
      ensures r.None? && state.stage.Dropped? ==> EndsWith(log, [AbortBackup, Release, Leave, StopWorker])
    {
      var started := Do(StartWorker);
      if !started {
        return None;
      }
      var _ := Do(Enter);
      var ok, made, snaps := Build(paths);
      var _ := Do(Leave);
      if ok {
        return Some(snaps);
      }
      GiveUp(made);
      return None;
    }

    /** The error path: a session that was made is aborted and released, and the thread stops. */
    method GiveUp(made: bool)
      requires Valid() && state.thread.Outside? && state.await.Quiet?
      requires if made then state.stage.Broken? else state.stage.Unmakeable?
      modifies this
      ensures Valid() && state.thread.Stopped? && state.await.Quiet?
      ensures state.stage == if made then Dropped else Unmakeable
      ensures made ==> EndsWith(log, [AbortBackup, Release, Leave, StopWorker])
    {
      if made {
        Unwind();
      }
      var _ := Do(StopWorker);
    }

    method Unwind()
      requires Valid() && state.thread.Outside? && state.await.Quiet? && state.stage.Broken?
      modifies this
      ensures Valid() && state.thread.Outside? && state.await.Quiet? && state.stage.Dropped?
      ensures EndsWith(log, [AbortBackup, Release, Leave])
    {
      var _ := Do(Enter);
      var _ := Do(AbortBackup);
      var _ := Do(Release);
      var _ := Do(Leave);
    }

    /** `winSet.close`: the first thing that went wrong is reported, and everything is still done. */
    method CloseSet() returns (trouble: Option<Trouble>)
      requires Valid() && state.thread.Outside? && state.await.Quiet? && state.stage.Open? && state.trouble.None?
      modifies this
      ensures Valid() && state.thread.Stopped? && state.await.Quiet? && state.stage.Closed? && trouble == state.trouble
      ensures old(log) < log && EndsWith(log, [Release, Leave, StopWorker])
    {
      var _ := Do(Enter);
      trouble := Complete();
      trouble := DeleteCopies(trouble);
      Retire();
    }

    ghost predicate Closing(stage: Stage, trouble: Option<Trouble>)
      reads this
    {
      Valid() && state.thread.Inside? && state.await.Quiet? && state.stage == stage && state.trouble == trouble
    }

    /** Writers are told that the backup is over, if any took part. */
    method Complete() returns (trouble: Option<Trouble>)
      requires Closing(Open, None)
      modifies this
      ensures Closing(if cfg.noWriters then Open else Completed, trouble) && old(log) <= log
    {
      trouble := None;
      if !cfg.noWriters {
        var done := Perform(CompleteOp);
        if !done {
          trouble := Some(CompleteFailed);
        }
      }
    }

    /** The copies are deleted, unless they are meant to outlive the session. */
    method DeleteCopies(before: Option<Trouble>) returns (trouble: Option<Trouble>)
      requires Closing(if cfg.noWriters then Open else Completed, before)
      modifies this
      ensures Closing(if !cfg.persistent then Deleted else if cfg.noWriters then Open else Completed, trouble)
      ensures old(log) <= log
    {
      trouble := before;
      if !cfg.persistent {
        var notFound := env.notFound(log);
        var deleted := Do(DeleteSet(notFound));
        if !deleted && !notFound && trouble.None? {
          trouble := Some(DeleteFailed);
        }
      }
    }

    method Retire()
      requires Closing(if !cfg.persistent then Deleted else if cfg.noWriters then Open else Completed, state.trouble)
      modifies this
      ensures Valid() && state.thread.Stopped? && state.await.Quiet? && state.stage.Closed?
      ensures state.trouble == old(state.trouble)
      ensures old(log) < log && EndsWith(log, [Release, Leave, StopWorker])
    {
      var _ := Do(Release);
      var _ := Do(Leave);
      var _ := Do(StopWorker);
    }
  }

  /** A snapshot set.  One that was attached rather than created has no session behind it. */
  class SnapshotSet {
    const backend: Option<Requester>
    var closed: bool

    ghost predicate Valid()
      reads this, if backend.Some? then {backend.value} else {}
    {
      backend.Some? ==>
        var b := backend.value;
        && b.Valid() && b.state.await.Quiet?
        && if closed then b.state.thread.Stopped? && b.state.stage.Closed?
           else b.state.thread.Outside? && b.state.stage.Open? && b.state.trouble.None?
    }

    constructor Created(backend: Requester)
      requires backend.Valid() && backend.state.thread.Outside? && backend.state.await.Quiet?
      requires backend.state.stage.Open? && backend.state.trouble.None?
      ensures Valid() && !closed && this.backend == Some(backend)
    {
      this.backend := Some(backend);
      this.closed := false;
    }

    constructor Attached()
      ensures Valid() && !closed && backend == None
    {
      this.backend := None;
      this.closed := false;
    }

    /** Close once: later calls do nothing and report nothing, even after an error. */
    method Close() returns (trouble: Option<Trouble>)
      requires Valid()
      modifies this, if backend.Some? then {backend.value} else {}
      ensures Valid() && closed
      ensures old(closed) || backend.None? ==> trouble == None
      ensures old(closed) && backend.Some? ==>
                backend.value.log == old(backend.value.log) && backend.value.state == old(backend.value.state)
      ensures !old(closed) && backend.Some? ==>
                trouble == backend.value.state.trouble && old(backend.value.log) < backend.value.log
    {
      if closed {
        return None;
      }
      closed := true;
      match backend {
        case None => return None;
        case Some(b) => trouble := b.CloseSet();
      }
    }
  }

  datatype Opened = TooFew | TooMany | Unsupported | Failed | Ready(snaps: seq<Snapshot>)

  /** `CreateSet`: between one and 64 volumes, on a system that supports it. */
  method CreateSnapshotSet(env: Env, paths: seq<string>, noWriters: bool, persistent: bool, t: Timeouts,
                           supported: bool)
    returns (r: Opened, ss: Option<SnapshotSet>, session: Option<Requester>)
    requires Ticks(env)
    ensures r.TooFew? <==> |paths| == 0
    ensures r.TooMany? <==> |paths| > 64
    ensures 1 <= |paths| <= 64 ==> (r.Unsupported? <==> !supported)
    ensures session.Some? <==> r.Failed? || r.Ready?
    ensures session.Some? ==> fresh(session.value) && session.value.cfg == Config(noWriters, persistent, |paths|, t)
    ensures r.Ready? <==> ss.Some?
    ensures r.Ready? ==>
              && fresh(ss.value) && ss.value.Valid() && !ss.value.closed && ss.value.backend == session
              && Aligned(env, r.snaps, |paths|, paths, session.value.state.ids, session.value.state.cursors)
    ensures r.Failed? ==>
              && session.value.Valid() && session.value.state.thread.Stopped? && session.value.state.await.Quiet?
              && var stage := session.value.state.stage; stage.Unmade? || stage.Unmakeable? || stage.Dropped?
  {
    r, ss, session := Failed, None, None;
    if |paths| == 0 {
      r := TooFew;
    } else if |paths| > 64 {
      r := TooMany;
    } else if !supported {
      r := Unsupported;
    } else {
      var w := new Requester(Config(noWriters, persistent, |paths|, t), env);
      session := Some(w);
      var snaps := w.CreateSet(paths);
      if snaps.Some? {
        var made := new SnapshotSet.Created(w);
        r, ss := Opened.Ready(snaps.value), Some(made);
      }
    }
  }
}
