/**
  The calls a backup session may make, and in what order.

  The log records every call on the COM objects, the clock, the context and the worker thread, with
  whether it succeeded.  `Advance` is the automaton of legal sessions: it says for every state which
  calls may come next.
 */
module Session {
  import opened Options
  import opened UsnCursor

  datatype Timeouts = Timeouts(gather: int, prepare: int, snapshot: int, complete: int)

  datatype Config = Config(noWriters: bool, persistent: bool, volumes: nat, timeouts: Timeouts)

  /** What VSS says of a snapshot: its ID, its read path, and whether its state is "created". */
  datatype Props = Props(id: nat, device: string, created: bool)

  const GLOBALROOT: string := "\\\\?\\GLOBALROOT\\Device\\"

  /** A snapshot a backup may read from. */
  predicate Usable(p: Props) {
    GLOBALROOT <= p.device && p.created
  }

  datatype VssContext = Backup | FileShareBackup | AppRollback | NasRollback

  function ContextFor(cfg: Config): VssContext {
    if cfg.persistent && cfg.noWriters then NasRollback
    else if cfg.persistent then AppRollback
    else if cfg.noWriters then FileShareBackup
    else Backup
  }

  /** What `QueryStatus` can report: `Other` is a code of neither kind, which may be a failure. */
  datatype AsyncStatus = Finished | Pending | Cancelled | Other(failed: bool)

  /** The asynchronous operations. */
  datatype Op = GatherOp | PrepareOp | DoOp | StatusOp | CompleteOp

  /** How long each may take: asking for the writers' status shares the time for their metadata. */
  function TimeoutFor(t: Timeouts, op: Op): int {
    match op
    case GatherOp => t.gather
    case PrepareOp => t.prepare
    case DoOp => t.snapshot
    case StatusOp => t.gather
    case CompleteOp => t.complete
  }

  datatype Call =
    // the worker thread
    | StartWorker | Enter | Leave | StopWorker
    // the session
    | CreateComponents | Initialize | SetContext(context: VssContext) | SetBackupState
    | Launch(op: Op)
    | CollectRules | FreeMetadata
    | ResolveVolume(k: nat) | CheckVolume(k: nat)
    | StartSet | AddVolume(k: nat, id: nat)
    | CaptureCursor(k: nat, cursor: Cursor)
    | StatusCount(n: nat) | WriterStatus(k: nat) | FreeStatus
    | GetProps(k: nat, id: nat, props: Props) | FreeProps(k: nat)
    | AbortBackup | DeleteSet(notFound: bool) | Release
    // one asynchronous operation
    | Poll | Clock(now: int) | Wait(ms: nat) | QueryStatus(status: AsyncStatus) | CancelAsync | ReleaseAsync

  datatype Event = Event(call: Call, ok: bool)

  datatype Thread = NotStarted | Outside | Inside | Stopped

  /** Where the wait for an asynchronous operation stands. */
  datatype Await =
    | Quiet
    | Started(op: Op)
    | Top(op: Op, deadline: int)
    | Polled(op: Op, deadline: int)
    | Timed(op: Op, deadline: int, remaining: int)
    | Waited(op: Op, deadline: int)
    | MustCancel(op: Op)
    | Settled(op: Op, done: bool)

  datatype Stage =
    | Unmade | Unmakeable | Made | Initialized | InContext | InState
    | Gathered | RulesRead
    | Resolving(k: nat) | Checking(k: nat)
    | Adding
    | Capturing
    | Shot
    | StatusKept | StatusListed(n: nat, k: nat) | StatusDue
    | Fetching(k: nat) | Held(k: nat, props: Props)
    | Open | Completed | Deleted
    | Closed
    | Broken | Aborted
    | Dropped

  datatype Trouble = CompleteFailed | DeleteFailed

  datatype State = State(thread: Thread, await: Await, stage: Stage, ids: seq<nat>, cursors: seq<Cursor>,
                         trouble: Option<Trouble>)

  const START: State := State(NotStarted, Quiet, Unmade, [], [], None)

  /** Milliseconds to the clock's nanoseconds. */
  const MILLISECOND: int := 1_000_000
  const SECOND: int := 1_000_000_000

  /** How many milliseconds to wait of what remains: a second at most, rounded down. */
  function Slice(remaining: int): (ms: nat) {
    if remaining <= 0 then 0 else (if remaining > SECOND then SECOND else remaining) / MILLISECOND
  }

  /** The session object is released. */
  predicate Over(stage: Stage) {
    stage.Closed? || stage.Dropped?
  }

  // ---- The automaton.

  function Go(s: State, ok: bool, stage: Stage): Option<State> {
    Some(s.(stage := if ok then stage else Broken))
  }

  function AdvanceThread(s: State, e: Event): Option<State> {
    match e.call
    case StartWorker => if s.thread.NotStarted? then Some(s.(thread := if e.ok then Outside else Stopped)) else None
    case Enter =>
      if s.thread.Outside? && (s.stage.Unmade? || s.stage.Open? || s.stage.Broken?) then Some(s.(thread := Inside))
      else None
    case Leave =>
      if s.thread.Inside? && (s.stage.Unmakeable? || s.stage.Open? || s.stage.Broken? || Over(s.stage)) then
        Some(s.(thread := Outside))
      else None
    case StopWorker =>
      if s.thread.Outside? && (s.stage.Unmakeable? || Over(s.stage)) then Some(s.(thread := Stopped)) else None
    case _ => None
  }

  /** The next step of waiting for an operation. */
  function AdvanceAwait(cfg: Config, s: State, e: Event): Option<State> {
    var w := s.await;
    match e.call
    case Poll => if w.Top? then Some(s.(await := if e.ok then Polled(w.op, w.deadline) else MustCancel(w.op))) else None
    case Clock(now) =>
      if w.Started? then Some(s.(await := Top(w.op, now + TimeoutFor(cfg.timeouts, w.op))))
      else if w.Polled? then
        Some(s.(await := if w.deadline - now > 0 then Timed(w.op, w.deadline, w.deadline - now) else MustCancel(w.op)))
      else None
    case Wait(ms) =>
      if w.Timed? && ms == Slice(w.remaining) then
        Some(s.(await := if e.ok then Waited(w.op, w.deadline) else MustCancel(w.op)))
      else None
    case QueryStatus(status) =>
      if w.Waited? then Some(s.(await := if e.ok then Judged(w.op, w.deadline, status) else MustCancel(w.op))) else None
    case CancelAsync => if w.MustCancel? then Some(s.(await := Settled(w.op, false))) else None
    case ReleaseAsync => if w.Settled? then AfterAwait(s.(await := Quiet), w.op, w.done) else None
    case _ => None
  }

  /** What a status says: finished, pending, cancelled, failed; any other code means finished. */
  function Judged(op: Op, deadline: int, status: AsyncStatus): Await {
    match status
    case Finished => Settled(op, true)
    case Pending => Top(op, deadline)
    case Cancelled => Settled(op, false)
    case Other(failed) => Settled(op, !failed)
  }

  /** Where an operation that is over leaves the session. */
  function AfterAwait(s: State, op: Op, done: bool): Option<State> {
    match op
    case GatherOp => Go(s, done, Gathered)
    case PrepareOp => Go(s, done, Capturing)
    case DoOp => Go(s, done, Shot)
    case StatusOp => Some(s.(stage := if done then StatusKept else StatusDue))
    case CompleteOp => Some(s.(stage := Completed, trouble := if done then s.trouble else Some(CompleteFailed)))
  }

  /** Launching an operation: the stage it needs, and the one a failed launch leads to. */
  function AdvanceLaunch(cfg: Config, s: State, op: Op, ok: bool): Option<State> {
    match op
    case GatherOp => if s.stage.InState? && !cfg.noWriters then Some(Launched(s, op, ok, Broken)) else None
    case PrepareOp =>
      if s.stage.Adding? && !cfg.noWriters && |s.ids| == cfg.volumes then Some(Launched(s, op, ok, Broken)) else None
    case DoOp => if s.stage.Capturing? && |s.cursors| == cfg.volumes then Some(Launched(s, op, ok, Broken)) else None
    case StatusOp => if s.stage.Shot? && !cfg.noWriters then Some(Launched(s, op, ok, Fetching(0))) else None
    case CompleteOp =>
      if s.stage.Open? && !cfg.noWriters then
        if ok then Some(Launched(s, op, ok, Completed)) else AfterAwait(s, op, false)
      else None
  }

  function Launched(s: State, op: Op, ok: bool, failed: Stage): State {
    if ok then s.(await := Started(op)) else s.(stage := failed)
  }

  function AdvanceSession(cfg: Config, s: State, e: Event): Option<State> {
    match e.call
    case CreateComponents =>
      if s.stage.Unmade? then Some(s.(stage := if e.ok then Made else Unmakeable)) else None
    case Initialize => if s.stage.Made? then Go(s, e.ok, Initialized) else None
    case SetContext(context) =>
      if s.stage.Initialized? && context == ContextFor(cfg) then Go(s, e.ok, InContext) else None
    case SetBackupState =>
      if s.stage.InContext? then Go(s, e.ok, if cfg.noWriters then Resolving(0) else InState) else None
    case CollectRules => if s.stage.Gathered? then Go(s, true, RulesRead) else None
    case FreeMetadata => if s.stage.RulesRead? then Go(s, true, Resolving(0)) else None
    case ResolveVolume(k) =>
      if s.stage.Resolving? && s.stage.k == k && k < cfg.volumes then Go(s, e.ok, Checking(k)) else None
    case CheckVolume(k) => if s.stage.Checking? && s.stage.k == k then Go(s, e.ok, Resolving(k + 1)) else None
    case StartSet => if s.stage.Resolving? && s.stage.k == cfg.volumes then Go(s, e.ok, Adding) else None
    case AddVolume(k, id) =>
      if s.stage.Adding? && k == |s.ids| < cfg.volumes then
        var next := if cfg.noWriters && k + 1 == cfg.volumes then Capturing else Adding;
        Some(if e.ok then s.(ids := s.ids + [id], stage := next) else s.(stage := Broken))
      else None
    case CaptureCursor(k, cursor) =>
      if s.stage.Capturing? && k == |s.cursors| < cfg.volumes then Some(s.(cursors := s.cursors + [cursor])) else None
    case StatusCount(n) =>
      if s.stage.StatusKept? then Some(s.(stage := if e.ok then StatusListed(n, 0) else StatusDue)) else None
    case WriterStatus(k) =>
      if s.stage.StatusListed? && s.stage.k == k < s.stage.n then Some(s.(stage := StatusListed(s.stage.n, k + 1)))
      else None
    case FreeStatus =>
      if s.stage.StatusDue? || (s.stage.StatusListed? && s.stage.k == s.stage.n) then Go(s, true, Fetching(0)) else None
    case GetProps(k, id, props) =>
      if AtFetch(cfg, s.stage, k) && k < cfg.volumes && k < |s.ids| && id == s.ids[k] then Go(s, e.ok, Held(k, props))
      else None
    case FreeProps(k) =>
      if s.stage.Held? && s.stage.k == k then
        Go(s, Usable(s.stage.props), if k + 1 == cfg.volumes then Open else Fetching(k + 1))
      else None
    case AbortBackup => if s.stage.Broken? then Go(s, true, Aborted) else None
    case DeleteSet(notFound) =>
      if ReadyToDelete(cfg, s.stage) then
        Some(s.(stage := Deleted,
                trouble := if !e.ok && !notFound && s.trouble.None? then Some(DeleteFailed) else s.trouble))
      else None
    case Release =>
      if s.stage.Aborted? then Go(s, true, Dropped)
      else if ReadyToRelease(cfg, s.stage) then Go(s, true, Closed)
      else None
    case _ => None
  }

  /** Snapshot properties are fetched in the order of the volumes; without writers, right after the freeze. */
  predicate AtFetch(cfg: Config, stage: Stage, k: nat) {
    (stage.Fetching? && stage.k == k) || (cfg.noWriters && stage.Shot? && k == 0)
  }

  /** Copies that need not outlive the session are deleted once writers know, if any took part. */
  predicate ReadyToDelete(cfg: Config, stage: Stage) {
    !cfg.persistent && if cfg.noWriters then stage.Open? else stage.Completed?
  }

  predicate ReadyToRelease(cfg: Config, stage: Stage) {
    if !cfg.persistent then stage.Deleted? else if cfg.noWriters then stage.Open? else stage.Completed?
  }

  predicate OfThread(call: Call) {
    call.StartWorker? || call.Enter? || call.Leave? || call.StopWorker?
  }

  predicate OfAwait(call: Call) {
    call.Poll? || call.Clock? || call.Wait? || call.QueryStatus? || call.CancelAsync? || call.ReleaseAsync?
  }

  /** The calls of a session: only inside its thread, and one operation at a time. */
  function Advance(cfg: Config, s: State, e: Event): Option<State> {
    if OfThread(e.call) then
      if s.await.Quiet? then AdvanceThread(s, e) else None
    else if !s.thread.Inside? then None
    else if OfAwait(e.call) then AdvanceAwait(cfg, s, e)
    else if !s.await.Quiet? then None
    else if e.call.Launch? then AdvanceLaunch(cfg, s, e.call.op, e.ok)
    else AdvanceSession(cfg, s, e)
  }

  /** One step of a trace: the automaton allows the event and leads to the next state. */
  ghost predicate LegalAt(cfg: Config, log: seq<Event>, trace: seq<State>, i: nat)
    requires |trace| == |log| + 1 && i < |log|
  {
    Advance(cfg, trace[i], log[i]) == Some(trace[i + 1])
  }

  /** The states a legal session goes through. */
  ghost predicate Legal(cfg: Config, log: seq<Event>, trace: seq<State>) {
    && |trace| == |log| + 1 && trace[0] == START
    && forall i {:trigger LegalAt(cfg, log, trace, i)} :: 0 <= i < |log| ==> LegalAt(cfg, log, trace, i)
  }

  lemma LegalSnoc(cfg: Config, log: seq<Event>, trace: seq<State>, e: Event, next: State)
    requires Legal(cfg, log, trace) && Advance(cfg, trace[|log|], e) == Some(next)
    ensures Legal(cfg, log + [e], trace + [next])
  {
    forall i | 0 <= i < |log| + 1 ensures LegalAt(cfg, log + [e], trace + [next], i) {
      if i < |log| { assert LegalAt(cfg, log, trace, i); }
    }
  }
}
