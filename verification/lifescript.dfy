/**
  The script of a session that nothing has spoiled: every call on the session, in order, waits aside.

  Where the automaton says what may come next, the script says in one piece what has been done.
 */
module LifeScript {
  import opened Options
  import opened UsnCursor
  import opened Session
  import opened Lifecycle

  // ---- The script.

  /** Calls of the writers' status, which is best effort. */
  predicate OfStatus(call: Call) {
    call == Launch(StatusOp) || call.StatusCount? || call.WriterStatus? || call.FreeStatus?
  }

  predicate InScript(call: Call) {
    !OfThread(call) && !OfAwait(call) && !OfStatus(call)
  }

  const NOTHING: Props := Props(0, "", false)

  /** The call, without what VSS answered to it. */
  function Mark(call: Call): Call {
    match call
    case GetProps(k, id, _) => GetProps(k, id, NOTHING)
    case DeleteSet(_) => DeleteSet(false)
    case _ => call
  }

  /** The calls on the session among these events. */
  function Script(log: seq<Event>): seq<Call> {
    if log == [] then [] else Scripted(Script(log[..|log| - 1]), log[|log| - 1].call)
  }

  function Scripted(done: seq<Call>, call: Call): seq<Call> {
    if InScript(call) then done + [Mark(call)] else done
  }

  function SetUpCalls(cfg: Config): seq<Call> {
    [CreateComponents, Initialize, SetContext(ContextFor(cfg)), SetBackupState]
  }

  /** Writers are gathered, their rules read, their metadata freed. */
  function Introduced(cfg: Config): seq<Call> {
    if cfg.noWriters then SetUpCalls(cfg) else SetUpCalls(cfg) + [Launch(GatherOp)] + [CollectRules] + [FreeMetadata]
  }

  function Checks(pre: seq<Call>, k: nat): seq<Call> {
    if k == 0 then pre else Checks(pre, k - 1) + [ResolveVolume(k - 1)] + [CheckVolume(k - 1)]
  }

  function Adds(pre: seq<Call>, ids: seq<nat>): seq<Call> {
    if ids == [] then pre else Adds(pre, ids[..|ids| - 1]) + [AddVolume(|ids| - 1, ids[|ids| - 1])]
  }

  function Captures(pre: seq<Call>, cursors: seq<Cursor>): seq<Call> {
    if cursors == [] then pre
    else Captures(pre, cursors[..|cursors| - 1]) + [CaptureCursor(|cursors| - 1, cursors[|cursors| - 1])]
  }

  function Fetches(pre: seq<Call>, ids: seq<nat>, k: nat): seq<Call>
    requires k <= |ids|
  {
    if k == 0 then pre else Fetches(pre, ids, k - 1) + [GetProps(k - 1, ids[k - 1], NOTHING)] + [FreeProps(k - 1)]
  }

  function Added(cfg: Config, ids: seq<nat>): seq<Call> {
    Adds(Checks(Introduced(cfg), cfg.volumes) + [StartSet], ids)
  }

  function Prepared(cfg: Config, ids: seq<nat>): seq<Call> {
    if cfg.noWriters then Added(cfg, ids) else Added(cfg, ids) + [Launch(PrepareOp)]
  }

  function Frozen(cfg: Config, ids: seq<nat>, cursors: seq<Cursor>): seq<Call> {
    Captures(Prepared(cfg, ids), cursors) + [Launch(DoOp)]
  }

  /** The whole life of a set up to its being open. */
  function OpenScript(cfg: Config, ids: seq<nat>, cursors: seq<Cursor>): seq<Call>
    requires cfg.volumes <= |ids|
  {
    Fetches(Frozen(cfg, ids, cursors), ids, cfg.volumes)
  }

  function Told(cfg: Config, ids: seq<nat>, cursors: seq<Cursor>): seq<Call>
    requires cfg.volumes <= |ids|
  {
    if cfg.noWriters then OpenScript(cfg, ids, cursors) else OpenScript(cfg, ids, cursors) + [Launch(CompleteOp)]
  }

  /** And its closing: writers are told, copies deleted, the session released. */
  function ClosedScript(cfg: Config, ids: seq<nat>, cursors: seq<Cursor>): seq<Call>
    requires cfg.volumes <= |ids|
  {
    (if cfg.persistent then Told(cfg, ids, cursors) else Told(cfg, ids, cursors) + [DeleteSet(false)]) + [Release]
  }

  // ---- How far the script has got.

  /** The calls made by the time a stage is reached. */
  function Upto(cfg: Config, stage: Stage, ids: seq<nat>, cursors: seq<Cursor>): seq<Call>
    requires Room(cfg, stage, ids)
  {
    match stage
    case Made => [CreateComponents]
    case Initialized => [CreateComponents, Initialize]
    case InContext => [CreateComponents, Initialize, SetContext(ContextFor(cfg))]
    case InState => SetUpCalls(cfg)
    case Gathered => SetUpCalls(cfg) + [Launch(GatherOp)]
    case RulesRead => SetUpCalls(cfg) + [Launch(GatherOp)] + [CollectRules]
    case Resolving(k) => Checks(Introduced(cfg), k)
    case Checking(k) => Checks(Introduced(cfg), k) + [ResolveVolume(k)]
    case Adding => Added(cfg, ids)
    case Capturing => Captures(Prepared(cfg, ids), cursors)
    case Shot | StatusKept | StatusListed(_, _) | StatusDue => Frozen(cfg, ids, cursors)
    case Fetching(k) => Fetches(Frozen(cfg, ids, cursors), ids, k)
    case Held(k, _) => Fetches(Frozen(cfg, ids, cursors), ids, k) + [GetProps(k, ids[k], NOTHING)]
    case Open => OpenScript(cfg, ids, cursors)
    case Completed => OpenScript(cfg, ids, cursors) + [Launch(CompleteOp)]
    case Deleted => Told(cfg, ids, cursors) + [DeleteSet(false)]
    case Closed => ClosedScript(cfg, ids, cursors)
    case _ => []
  }

  /** There are IDs for the snapshots fetched so far. */
  predicate Room(cfg: Config, stage: Stage, ids: seq<nat>) {
    match stage
    case Fetching(k) => k <= |ids|
    case Held(k, _) => k < |ids|
    case Open | Completed | Deleted | Closed => cfg.volumes <= |ids|
    case _ => true
  }

  /** The calls made by now: those of the stage, and the launch of an operation that is being waited for. */
  function Reached(cfg: Config, s: State): seq<Call>
    requires Room(cfg, s.stage, s.ids)
  {
    var calls := Upto(cfg, s.stage, s.ids, s.cursors);
    if s.await.Quiet? || s.await.op.StatusOp? then calls else calls + [Launch(s.await.op)]
  }

  /** IDs come in their own time. */
  predicate IdsInTime(s: State) {
    s.ids == [] || s.stage.Adding? || s.stage.Capturing? || PastShot(s.stage) || IsSpoiled(s.stage)
  }

  predicate CursorsInTime(s: State) {
    s.cursors == [] || s.stage.Capturing? || PastShot(s.stage) || IsSpoiled(s.stage)
  }

  /** Without writers there is no ceremony: nothing is waited for but the freeze. */
  predicate NoCeremony(cfg: Config, s: State) {
    cfg.noWriters ==>
      && (s.await.Quiet? || s.await.op.DoOp?)
      && !s.stage.InState? && !s.stage.Gathered? && !s.stage.RulesRead? && !s.stage.Completed?
  }

  ghost predicate InTime(cfg: Config, s: State) {
    Placed(s) && IdsInTime(s) && CursorsInTime(s) && NoCeremony(cfg, s) && Room(cfg, s.stage, s.ids)
  }

  ghost predicate OnScript(cfg: Config, log: seq<Event>, s: State) {
    && Room(cfg, s.stage, s.ids)
    && (!IsSpoiled(s.stage) ==> Script(log) == Reached(cfg, s))
  }

  lemma ScriptSnoc(log: seq<Event>, e: Event)
    ensures Script(log + [e]) == Scripted(Script(log), e.call)
  {
    assert (log + [e])[..|log|] == log;
  }

  lemma IdsInTimeStep(cfg: Config, s: State, e: Event, t: State)
    requires Advance(cfg, s, e) == Some(t) && Placed(s) && IdsInTime(s)
    ensures IdsInTime(t)
  {
    match e.call
    case ReleaseAsync =>
    case Launch(_) =>
    case AddVolume(_, _) =>
    case _ =>
  }

  lemma CursorsInTimeStep(cfg: Config, s: State, e: Event, t: State)
    requires Advance(cfg, s, e) == Some(t) && Placed(s) && CursorsInTime(s)
    ensures CursorsInTime(t)
  {
    match e.call
    case ReleaseAsync =>
    case Launch(_) =>
    case CaptureCursor(_, _) =>
    case _ =>
  }

  lemma NoCeremonyStep(cfg: Config, s: State, e: Event, t: State)
    requires Advance(cfg, s, e) == Some(t) && Placed(s) && NoCeremony(cfg, s)
    ensures NoCeremony(cfg, t)
  {
    match e.call
    case ReleaseAsync =>
    case Launch(_) =>
    case SetBackupState =>
    case _ =>
  }

  lemma RoomStep(cfg: Config, s: State, e: Event, t: State)
    requires Advance(cfg, s, e) == Some(t) && Placed(s) && Room(cfg, s.stage, s.ids)
    ensures Room(cfg, t.stage, t.ids)
  {
    if OfThread(e.call) {
    } else if OfAwait(e.call) {
      match e.call
      case ReleaseAsync => assert AfterAwait(s.(await := Quiet), s.await.op, s.await.done) == Some(t);
      case _ =>
    } else if e.call.Launch? {
      assert AdvanceLaunch(cfg, s, e.call.op, e.ok) == Some(t);
    } else {
      assert AdvanceSession(cfg, s, e) == Some(t);
      SessionRoom(cfg, s, e, t);
    }
  }

  lemma SessionRoom(cfg: Config, s: State, e: Event, t: State)
    requires AdvanceSession(cfg, s, e) == Some(t) && Room(cfg, s.stage, s.ids)
    ensures Room(cfg, t.stage, t.ids)
  {
    match e.call
    case AddVolume(_, _) =>
    case GetProps(_, _, _) =>
    case FreeProps(_) =>
    case _ =>
  }

  /** The script goes on by the call that is made. */
  predicate Follows(cfg: Config, s: State, e: Event, t: State)
    requires Room(cfg, s.stage, s.ids) && Room(cfg, t.stage, t.ids)
  {
    !IsSpoiled(t.stage) ==> Reached(cfg, t) == Scripted(Reached(cfg, s), e.call)
  }

  lemma ThreadFollows(cfg: Config, s: State, e: Event, t: State)
    requires OfThread(e.call) && Advance(cfg, s, e) == Some(t)
    requires Room(cfg, s.stage, s.ids) && Room(cfg, t.stage, t.ids)
    ensures Follows(cfg, s, e, t)
  {
  }

  lemma AwaitFollows(cfg: Config, s: State, e: Event, t: State)
    requires OfAwait(e.call) && !e.call.ReleaseAsync? && Advance(cfg, s, e) == Some(t)
    requires Room(cfg, s.stage, s.ids) && Room(cfg, t.stage, t.ids)
    ensures Follows(cfg, s, e, t)
  {
    assert t == s.(await := t.await);
  }

  lemma ReleaseFollows(cfg: Config, s: State, e: Event, t: State)
    requires e.call.ReleaseAsync? && Advance(cfg, s, e) == Some(t) && InTime(cfg, s) && Room(cfg, t.stage, t.ids)
    ensures Follows(cfg, s, e, t)
  {
    assert AfterAwait(s.(await := Quiet), s.await.op, s.await.done) == Some(t);
    match s.await.op
    case GatherOp =>
    case PrepareOp =>
    case DoOp =>
    case StatusOp =>
    case CompleteOp =>
  }

  lemma GatherFollows(cfg: Config, s: State, e: Event, t: State)
    requires e.call.Launch? && e.call.op.GatherOp? && s.await.Quiet?
    requires AdvanceLaunch(cfg, s, e.call.op, e.ok) == Some(t) && InTime(cfg, s) && Room(cfg, t.stage, t.ids)
    ensures Follows(cfg, s, e, t)
  {
  }

  lemma PrepareFollows(cfg: Config, s: State, e: Event, t: State)
    requires e.call.Launch? && e.call.op.PrepareOp? && s.await.Quiet?
    requires AdvanceLaunch(cfg, s, e.call.op, e.ok) == Some(t) && InTime(cfg, s) && Room(cfg, t.stage, t.ids)
    ensures Follows(cfg, s, e, t)
  {
  }

  lemma FreezeFollows(cfg: Config, s: State, e: Event, t: State)
    requires e.call.Launch? && e.call.op.DoOp? && s.await.Quiet?
    requires AdvanceLaunch(cfg, s, e.call.op, e.ok) == Some(t) && InTime(cfg, s) && Room(cfg, t.stage, t.ids)
    ensures Follows(cfg, s, e, t)
  {
  }

  lemma OtherLaunchFollows(cfg: Config, s: State, e: Event, t: State)
    requires e.call.Launch? && (e.call.op.StatusOp? || e.call.op.CompleteOp?) && s.await.Quiet?
    requires AdvanceLaunch(cfg, s, e.call.op, e.ok) == Some(t) && InTime(cfg, s) && Room(cfg, t.stage, t.ids)
    ensures Follows(cfg, s, e, t)
  {
  }

  lemma LaunchFollows(cfg: Config, s: State, e: Event, t: State)
    requires e.call.Launch? && s.await.Quiet? && AdvanceLaunch(cfg, s, e.call.op, e.ok) == Some(t)
    requires InTime(cfg, s) && Room(cfg, t.stage, t.ids)
    ensures Follows(cfg, s, e, t)
  {
    match e.call.op
    case GatherOp => GatherFollows(cfg, s, e, t);
    case PrepareOp => PrepareFollows(cfg, s, e, t);
    case DoOp => FreezeFollows(cfg, s, e, t);
    case StatusOp => OtherLaunchFollows(cfg, s, e, t);
    case CompleteOp => OtherLaunchFollows(cfg, s, e, t);
  }

  predicate OfSetUp(call: Call) {
    || call.CreateComponents? || call.Initialize? || call.SetContext? || call.SetBackupState?
    || call.CollectRules? || call.FreeMetadata?
  }

  lemma MakingFollows(cfg: Config, s: State, e: Event, t: State)
    requires e.call.CreateComponents? || e.call.Initialize?
    requires s.await.Quiet? && AdvanceSession(cfg, s, e) == Some(t)
    requires InTime(cfg, s) && Room(cfg, t.stage, t.ids)
    ensures Follows(cfg, s, e, t)
  {
  }

  lemma ContextFollows(cfg: Config, s: State, e: Event, t: State)
    requires e.call.SetContext?
    requires s.await.Quiet? && AdvanceSession(cfg, s, e) == Some(t)
    requires InTime(cfg, s) && Room(cfg, t.stage, t.ids)
    ensures Follows(cfg, s, e, t)
  {
  }

  lemma StateFollows(cfg: Config, s: State, e: Event, t: State)
    requires e.call.SetBackupState?
    requires s.await.Quiet? && AdvanceSession(cfg, s, e) == Some(t)
    requires InTime(cfg, s) && Room(cfg, t.stage, t.ids)
    ensures Follows(cfg, s, e, t)
  {
  }

  lemma RulesFollow(cfg: Config, s: State, e: Event, t: State)
    requires e.call.CollectRules? || e.call.FreeMetadata?
    requires s.await.Quiet? && AdvanceSession(cfg, s, e) == Some(t)
    requires InTime(cfg, s) && Room(cfg, t.stage, t.ids)
    ensures Follows(cfg, s, e, t)
  {
  }

  lemma SetUpFollows(cfg: Config, s: State, e: Event, t: State)
    requires OfSetUp(e.call) && s.await.Quiet? && AdvanceSession(cfg, s, e) == Some(t)
    requires InTime(cfg, s) && Room(cfg, t.stage, t.ids)
    ensures Follows(cfg, s, e, t)
  {
    match e.call
    case SetContext(_) => ContextFollows(cfg, s, e, t);
    case SetBackupState => StateFollows(cfg, s, e, t);
    case CollectRules => RulesFollow(cfg, s, e, t);
    case FreeMetadata => RulesFollow(cfg, s, e, t);
    case _ => MakingFollows(cfg, s, e, t);
  }

  predicate OfVolumes(call: Call) {
    call.ResolveVolume? || call.CheckVolume? || call.StartSet? || call.AddVolume? || call.CaptureCursor?
  }

  lemma CheckFollows(cfg: Config, s: State, e: Event, t: State)
    requires e.call.ResolveVolume? || e.call.CheckVolume?
    requires s.await.Quiet? && AdvanceSession(cfg, s, e) == Some(t)
    requires InTime(cfg, s) && Room(cfg, t.stage, t.ids)
    ensures Follows(cfg, s, e, t)
  {
  }

  lemma StartFollows(cfg: Config, s: State, e: Event, t: State)
    requires e.call.StartSet?
    requires s.await.Quiet? && AdvanceSession(cfg, s, e) == Some(t)
    requires InTime(cfg, s) && Room(cfg, t.stage, t.ids)
    ensures Follows(cfg, s, e, t)
  {
  }

  lemma AddFollows(cfg: Config, s: State, e: Event, t: State)
    requires e.call.AddVolume?
    requires s.await.Quiet? && AdvanceSession(cfg, s, e) == Some(t)
    requires InTime(cfg, s) && Room(cfg, t.stage, t.ids)
    ensures Follows(cfg, s, e, t)
  {
    assert e.ok ==> t.ids[..|s.ids|] == s.ids;
  }

  lemma CaptureFollows(cfg: Config, s: State, e: Event, t: State)
    requires e.call.CaptureCursor?
    requires s.await.Quiet? && AdvanceSession(cfg, s, e) == Some(t)
    requires InTime(cfg, s) && Room(cfg, t.stage, t.ids)
    ensures Follows(cfg, s, e, t)
  {
    assert t.cursors[..|s.cursors|] == s.cursors;
  }

  lemma VolumesFollow(cfg: Config, s: State, e: Event, t: State)
    requires OfVolumes(e.call) && s.await.Quiet? && AdvanceSession(cfg, s, e) == Some(t)
    requires InTime(cfg, s) && Room(cfg, t.stage, t.ids)
    ensures Follows(cfg, s, e, t)
  {
    match e.call
    case StartSet => StartFollows(cfg, s, e, t);
    case AddVolume(_, _) => AddFollows(cfg, s, e, t);
    case CaptureCursor(_, _) => CaptureFollows(cfg, s, e, t);
    case _ => CheckFollows(cfg, s, e, t);
  }

  predicate OfFetch(call: Call) {
    call.GetProps? || call.FreeProps?
  }

  lemma StatusFollows(cfg: Config, s: State, e: Event, t: State)
    requires e.call.StatusCount? || e.call.WriterStatus? || e.call.FreeStatus?
    requires s.await.Quiet? && AdvanceSession(cfg, s, e) == Some(t)
    requires InTime(cfg, s) && Room(cfg, t.stage, t.ids)
    ensures Follows(cfg, s, e, t)
  {
  }

  lemma FetchFollows(cfg: Config, s: State, e: Event, t: State)
    requires OfFetch(e.call)
    requires s.await.Quiet? && AdvanceSession(cfg, s, e) == Some(t)
    requires InTime(cfg, s) && Room(cfg, t.stage, t.ids)
    ensures Follows(cfg, s, e, t)
  {
  }

  predicate OfEnd(call: Call) {
    call.AbortBackup? || call.DeleteSet? || call.Release?
  }

  lemma DeleteFollows(cfg: Config, s: State, e: Event, t: State)
    requires e.call.DeleteSet?
    requires s.await.Quiet? && AdvanceSession(cfg, s, e) == Some(t)
    requires InTime(cfg, s) && Room(cfg, t.stage, t.ids)
    ensures Follows(cfg, s, e, t)
  {
  }

  lemma AbortFollows(cfg: Config, s: State, e: Event, t: State)
    requires e.call.AbortBackup?
    requires s.await.Quiet? && AdvanceSession(cfg, s, e) == Some(t)
    requires InTime(cfg, s) && Room(cfg, t.stage, t.ids)
    ensures Follows(cfg, s, e, t)
  {
  }

  lemma DropFollows(cfg: Config, s: State, e: Event, t: State)
    requires e.call.Release?
    requires s.await.Quiet? && AdvanceSession(cfg, s, e) == Some(t)
    requires InTime(cfg, s) && Room(cfg, t.stage, t.ids)
    ensures Follows(cfg, s, e, t)
  {
  }

  lemma EndFollows(cfg: Config, s: State, e: Event, t: State)
    requires OfEnd(e.call) && s.await.Quiet? && AdvanceSession(cfg, s, e) == Some(t)
    requires InTime(cfg, s) && Room(cfg, t.stage, t.ids)
    ensures Follows(cfg, s, e, t)
  {
    match e.call
    case DeleteSet(_) => DeleteFollows(cfg, s, e, t);
    case AbortBackup => AbortFollows(cfg, s, e, t);
    case Release => DropFollows(cfg, s, e, t);
  }

  lemma ScriptFollows(cfg: Config, s: State, e: Event, t: State)
    requires Advance(cfg, s, e) == Some(t) && InTime(cfg, s) && Room(cfg, t.stage, t.ids)
    ensures Follows(cfg, s, e, t)
  {
    if OfThread(e.call) {
      ThreadFollows(cfg, s, e, t);
    } else if OfAwait(e.call) {
      if e.call.ReleaseAsync? { ReleaseFollows(cfg, s, e, t); } else { AwaitFollows(cfg, s, e, t); }
    } else if e.call.Launch? {
      LaunchFollows(cfg, s, e, t);
    } else if OfSetUp(e.call) {
      SetUpFollows(cfg, s, e, t);
    } else if OfVolumes(e.call) {
      VolumesFollow(cfg, s, e, t);
    } else if OfFetch(e.call) {
      FetchFollows(cfg, s, e, t);
    } else if OfStatus(e.call) {
      StatusFollows(cfg, s, e, t);
    } else {
      EndFollows(cfg, s, e, t);
    }
  }

  lemma InTimeStep(cfg: Config, s: State, e: Event, t: State)
    requires Advance(cfg, s, e) == Some(t) && InTime(cfg, s)
    ensures InTime(cfg, t)
  {
    PlacedStep(cfg, s, e, t);
    IdsInTimeStep(cfg, s, e, t);
    CursorsInTimeStep(cfg, s, e, t);
    NoCeremonyStep(cfg, s, e, t);
    RoomStep(cfg, s, e, t);
  }

  lemma StaysSpoiled(cfg: Config, s: State, e: Event, t: State)
    requires Advance(cfg, s, e) == Some(t) && Placed(s) && IsSpoiled(s.stage)
    ensures IsSpoiled(t.stage)
  {
    SpoiledMoves(cfg, s, e, t);
  }

  ghost predicate Kept(cfg: Config, log: seq<Event>, s: State) {
    InTime(cfg, s) && OnScript(cfg, log, s)
  }

  lemma KeptAtStart(cfg: Config)
    ensures Kept(cfg, [], START)
  {
  }

  lemma KeptStep(cfg: Config, log: seq<Event>, s: State, e: Event, t: State)
    requires Advance(cfg, s, e) == Some(t) && Kept(cfg, log, s)
    ensures Kept(cfg, log + [e], t)
  {
    InTimeStep(cfg, s, e, t);
    OnScriptStep(cfg, log, s, e, t);
  }

  lemma {:induction false} ScriptAt(cfg: Config, log: seq<Event>, trace: seq<State>, n: nat)
    requires Legal(cfg, log, trace) && n <= |log|
    ensures Kept(cfg, log[..n], trace[n])
  {
    if n == 0 {
      KeptAtStart(cfg);
    } else {
      ScriptAt(cfg, log, trace, n - 1);
      assert LegalAt(cfg, log, trace, n - 1);
      assert log[..n] == log[..n - 1] + [log[n - 1]];
      KeptStep(cfg, log[..n - 1], trace[n - 1], log[n - 1], trace[n]);
    }
  }

  lemma OnScriptStep(cfg: Config, log: seq<Event>, s: State, e: Event, t: State)
    requires Advance(cfg, s, e) == Some(t) && InTime(cfg, s) && Room(cfg, t.stage, t.ids) && OnScript(cfg, log, s)
    ensures OnScript(cfg, log + [e], t)
  {
    if IsSpoiled(s.stage) {
      StaysSpoiled(cfg, s, e, t);
    } else {
      ScriptFollows(cfg, s, e, t);
      ScriptSnoc(log, e);
    }
  }

  lemma KeptOpen(cfg: Config, log: seq<Event>, s: State)
    requires Kept(cfg, log, s) && s.stage.Open? && s.await.Quiet?
    ensures cfg.volumes <= |s.ids| && Script(log) == OpenScript(cfg, s.ids, s.cursors)
  {
  }

  lemma KeptClosed(cfg: Config, log: seq<Event>, s: State)
    requires Kept(cfg, log, s) && s.stage.Closed?
    ensures cfg.volumes <= |s.ids| && Script(log) == ClosedScript(cfg, s.ids, s.cursors)
  {
  }

  lemma AllCounted(cfg: Config, log: seq<Event>, trace: seq<State>)
    requires Legal(cfg, log, trace) && PastShot(trace[|log|].stage)
    ensures |trace[|log|].ids| == |trace[|log|].cursors| == cfg.volumes
  {
    HistoryAt(cfg, log, trace, |log|);
  }

  /** An open set: these calls were made on its session, these only, and in this order. */
  lemma OpenSetFollowsScript(cfg: Config, log: seq<Event>, trace: seq<State>)
    requires Legal(cfg, log, trace) && trace[|log|].stage.Open? && trace[|log|].await.Quiet?
    ensures var s := trace[|log|];
            |s.ids| == |s.cursors| == cfg.volumes && Script(log) == OpenScript(cfg, s.ids, s.cursors)
  {
    ScriptAt(cfg, log, trace, |log|);
    AllCounted(cfg, log, trace);
    assert log[..|log|] == log;
    KeptOpen(cfg, log, trace[|log|]);
  }

  /** A closed set: after that its writers were told, its copies deleted and its session released, as called for. */
  lemma ClosedSetFollowsScript(cfg: Config, log: seq<Event>, trace: seq<State>)
    requires Legal(cfg, log, trace) && trace[|log|].stage.Closed?
    ensures var s := trace[|log|];
            |s.ids| == |s.cursors| == cfg.volumes && Script(log) == ClosedScript(cfg, s.ids, s.cursors)
  {
    ScriptAt(cfg, log, trace, |log|);
    AllCounted(cfg, log, trace);
    assert log[..|log|] == log;
    KeptClosed(cfg, log, trace[|log|]);
  }

  // ---- The writers' status.

  ghost predicate AskedForStatus(log: seq<Event>) {
    Event(Launch(StatusOp), true) in log || Event(Launch(StatusOp), false) in log
  }

  predicate AfterStatus(stage: Stage) {
    PastShot(stage) && !stage.Shot?
  }

  lemma StatusMoves(cfg: Config, s: State, e: Event, t: State)
    requires Advance(cfg, s, e) == Some(t) && Placed(s) && !cfg.noWriters
    ensures AfterStatus(t.stage) || Awaits(t, StatusOp) ==>
              AfterStatus(s.stage) || Awaits(s, StatusOp) || e.call == Launch(StatusOp)
  {
    match e.call
    case ReleaseAsync =>
    case Launch(_) =>
    case GetProps(_, _, _) =>
    case _ =>
  }

  /** With writers, no snapshot is fetched before their status has been asked for. */
  lemma {:induction false} StatusIsAsked(cfg: Config, log: seq<Event>, trace: seq<State>, n: nat)
    requires Legal(cfg, log, trace) && n <= |log| && !cfg.noWriters
    requires AfterStatus(trace[n].stage) || Awaits(trace[n], StatusOp)
    ensures AskedForStatus(log[..n])
  {
    if n > 0 {
      assert LegalAt(cfg, log, trace, n - 1);
      PlacedAt(cfg, log, trace, n - 1);
      assert log[..n] == log[..n - 1] + [log[n - 1]];
      StatusMoves(cfg, trace[n - 1], log[n - 1], trace[n]);
      if AfterStatus(trace[n - 1].stage) || Awaits(trace[n - 1], StatusOp) {
        StatusIsAsked(cfg, log, trace, n - 1);
      }
    }
  }

  ghost predicate Called(log: seq<Event>, call: Call) {
    Event(call, true) in log || Event(call, false) in log
  }

  /** While statuses are listed, the ones before have been read. */
  ghost predicate ListHistory(log: seq<Event>, s: State) {
    s.stage.StatusListed? ==>
      Done(log, StatusCount(s.stage.n)) && forall k :: 0 <= k < s.stage.k ==> Called(log, WriterStatus(k))
  }

  lemma ListMoves(cfg: Config, s: State, e: Event, t: State)
    requires Advance(cfg, s, e) == Some(t) && Placed(s) && t.stage.StatusListed?
    ensures || (e == Event(StatusCount(t.stage.n), true) && t.stage.k == 0)
            || (s.stage.StatusListed? && s.stage.n == t.stage.n &&
                (t.stage.k == s.stage.k || (t.stage.k == s.stage.k + 1 && e.call == WriterStatus(s.stage.k))))
  {
    match e.call
    case ReleaseAsync =>
    case StatusCount(_) =>
    case WriterStatus(_) =>
    case _ =>
  }

  lemma {:induction false} ListHistoryAt(cfg: Config, log: seq<Event>, trace: seq<State>, n: nat)
    requires Legal(cfg, log, trace) && n <= |log|
    ensures ListHistory(log[..n], trace[n])
  {
    if n > 0 {
      ListHistoryAt(cfg, log, trace, n - 1);
      assert LegalAt(cfg, log, trace, n - 1);
      PlacedAt(cfg, log, trace, n - 1);
      assert log[..n] == log[..n - 1] + [log[n - 1]];
      if trace[n].stage.StatusListed? { ListMoves(cfg, trace[n - 1], log[n - 1], trace[n]); }
    }
  }

  /** A status is due to be freed unread only after a count that failed or a wait that did not go well. */
  lemma DueMoves(cfg: Config, s: State, e: Event, t: State)
    requires Advance(cfg, s, e) == Some(t) && Placed(s) && t.stage.StatusDue? && t.thread.Inside?
    ensures (e.call.StatusCount? && !e.ok) || (e.call.ReleaseAsync? && s.await == Settled(StatusOp, false))
  {
    match e.call
    case ReleaseAsync =>
    case StatusCount(_) =>
    case _ =>
  }

  ghost predicate AllRead(log: seq<Event>, n: nat) {
    forall k :: 0 <= k < n ==> Called(log, WriterStatus(k))
  }

  /** Each writer's status is read before the statuses are freed, unless they could not be gathered or counted. */
  lemma StatusesAreRead(cfg: Config, log: seq<Event>, trace: seq<State>, i: nat)
    requires Legal(cfg, log, trace) && i < |log| && log[i].call.FreeStatus?
    ensures || (exists n: nat :: Done(log[..i], StatusCount(n)) && AllRead(log[..i], n))
            || (i > 0 && log[i - 1].call.StatusCount? && !log[i - 1].ok)
            || (i > 1 && log[i - 1].call.ReleaseAsync? && !WentWell(log[i - 2]))
  {
    assert LegalAt(cfg, log, trace, i);
    ListHistoryAt(cfg, log, trace, i);
    assert trace[i].stage.StatusListed? ==> AllRead(log[..i], trace[i].stage.n);
    if trace[i].stage.StatusDue? {
      assert i > 0 && LegalAt(cfg, log, trace, i - 1);
      PlacedAt(cfg, log, trace, i - 1);
      DueMoves(cfg, trace[i - 1], log[i - 1], trace[i]);
      if log[i - 1].call.ReleaseAsync? { OutcomeIsTheStatus(cfg, log, trace, i - 1); }
    }
  }

  // ---- The thread.

  /** The thread was entered before the `i`-th event, and not left or stopped since. */
  ghost predicate OnThread(log: seq<Event>, i: nat)
    requires i <= |log|
  {
    exists j: nat :: j < i && log[j].call.Enter? && StaysInside(log, j, i)
  }

  ghost predicate StaysInside(log: seq<Event>, j: nat, i: nat)
    requires j < i <= |log|
  {
    forall m :: j < m < i ==> !OfThread(log[m].call)
  }

  lemma {:induction false} InsideIsOnThread(cfg: Config, log: seq<Event>, trace: seq<State>, n: nat)
    requires Legal(cfg, log, trace) && n <= |log| && trace[n].thread.Inside?
    ensures OnThread(log, n)
  {
    if n > 0 {
      assert LegalAt(cfg, log, trace, n - 1);
      if log[n - 1].call.Enter? {
        assert StaysInside(log, n - 1, n);
      } else {
        InsideMoves(cfg, trace[n - 1], log[n - 1], trace[n]);
        InsideIsOnThread(cfg, log, trace, n - 1);
        var j: nat :| j < n - 1 && log[j].call.Enter? && StaysInside(log, j, n - 1);
        assert StaysInside(log, j, n);
      }
    }
  }

  lemma InsideMoves(cfg: Config, s: State, e: Event, t: State)
    requires Advance(cfg, s, e) == Some(t) && t.thread.Inside? && !e.call.Enter?
    ensures s.thread.Inside? && !OfThread(e.call)
  {
    match e.call
    case ReleaseAsync =>
    case _ =>
  }

  /** Every call on the session or one of its operations is made on the thread, between entering and leaving it. */
  lemma CallsAreOnThread(cfg: Config, log: seq<Event>, trace: seq<State>, i: nat)
    requires Legal(cfg, log, trace) && i < |log| && !OfThread(log[i].call)
    ensures OnThread(log, i)
  {
    assert LegalAt(cfg, log, trace, i);
    InsideIsOnThread(cfg, log, trace, i);
  }
}
