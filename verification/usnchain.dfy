/**
  Runs of incremental backups (README.md, "Incremental backups"; create_windows.go, the capture before
  the freeze; usn_windows.go, `USNChangesSince`).

  A live volume changes while a backup captures a cursor, freezes a snapshot, reads the journal reply
  by reply, and persists.  The journal may be trimmed, recreated or switched off at any moment, and a
  backup may be given up at any moment.  The catalogue maps file IDs to contents.
 */
module UsnChain {
  import opened Options
  import opened UsnCursor
  import opened UsnRecord
  import opened UsnScan
  import opened UsnChanges

  type Files = map<nat, nat>

  /** The journal the live volume writes to now. */
  datatype Journal = Journal(id: nat, firstUsn: int, nextUsn: int)

  /**
    A snapshot: the files when the cursor was captured, the files when it was frozen, and how many
    records the captured journal had by then.
   */
  datatype Shot = Shot(was: Files, snap: Files, mark: nat)

  /** `changed` is the change set a backup went by; a full walk has none. */
  datatype Phase =
    | Idle
    | Captured(bound: Cursor, was: Files)
    | Frozen(bound: Cursor, shot: Shot)
    | Scanning(bound: Cursor, shot: Shot, start: int, table: Table)
    | Ready(bound: Cursor, shot: Shot, changed: Option<set<nat>>, result: Files)

  /** The last backup that was persisted, and the cursor it went from. */
  datatype Backup = Backup(shot: Shot, changed: Option<set<nat>>, since: Cursor)

  datatype World = World(
    live: Files,
    active: Option<Journal>,
    logs: map<nat, seq<Record>>,   // every record ever written, by journal, trimmed or not
    catalogue: Files,
    cursor: Cursor,
    last: Option<Backup>,
    phase: Phase)

  datatype Action =
    | Write(id: nat, content: nat, rec: Record, size: int)
    | Delete(id: nat, rec: Record, size: int)
    | Trim(first: int)
    | Recreate(journal: nat, at: int)
    | SwitchOff
    | Capture(failed: bool)
    | Freeze
    | Begin
    | Reply(next: int, recs: seq<Record>)
    | Purge
    | Persist
    | GiveUp

  // ---- The steps.

  /** The live volume after a change of one file; an active journal gets a record of it. */
  ghost predicate Touches(w: World, id: nat, live: Files, rec: Record, size: int, w': World) {
    match w.active
    case None => w' == w.(live := live)
    case Some(a) =>
      && size > 0 && size % 8 == 0 && rec.fileId == id && rec.usn == a.nextUsn
      && a.id in w.logs
      && w' == w.(live := live, active := Some(a.(nextUsn := a.nextUsn + size)),
                  logs := w.logs[a.id := w.logs[a.id] + [rec]])
  }

  function Log(w: World, journal: nat): seq<Record> {
    if journal in w.logs then w.logs[journal] else []
  }

  /** The catalogue with the changed files taken from the snapshot, or dropped if it lacks them. */
  function Apply(catalogue: Files, changed: set<nat>, snap: Files): Files {
    map f | f in catalogue.Keys + snap.Keys && f in (if f in changed then snap else catalogue) ::
      if f in changed then snap[f] else catalogue[f]
  }

  /** What a query of the live journal says. */
  function InfoOf(j: Journal): Info {
    Info(j.id, j.firstUsn, j.nextUsn)
  }

  /** The cursor checks of the call, on the journal as it is now. */
  ghost predicate MayRead(w: World, bound: Cursor) {
    bound != ZERO && w.active.Some? &&
    Trusted(w.cursor, bound, InfoOf(w.active.value))
  }

  /** One reply to the scan, and what the backup does next; too many files mean a full walk. */
  ghost function AfterReply(w: World, p: Phase, next: int, recs: seq<Record>): Phase
    requires p.Scanning?
  {
    match Fold(p.table, Below(recs, p.bound.nextUsn))
    case None => Ready(p.bound, p.shot, None, p.shot.snap)
    case Some(table) =>
      match NextStart(p.start, next, p.bound.nextUsn, StopOf(recs, p.bound.nextUsn))
      case None => Ready(p.bound, p.shot, Some(table.Keys), Apply(w.catalogue, table.Keys, p.shot.snap))
      case Some(start) => Scanning(p.bound, p.shot, start, table)
  }

  ghost predicate Step(w: World, act: Action, w': World) {
    match act
    case Write(id, content, rec, size) => Touches(w, id, w.live[id := content], rec, size, w')
    case Delete(id, rec, size) => Touches(w, id, w.live - {id}, rec, size, w')
    case Trim(first) =>
      && w.active.Some? && w.active.value.firstUsn <= first <= w.active.value.nextUsn
      && w' == w.(active := Some(w.active.value.(firstUsn := first)))
    case Recreate(journal, at) =>
      && journal != 0 && journal !in w.logs && at >= 0 && at % 8 == 0
      && w' == w.(active := Some(Journal(journal, at, at)), logs := w.logs[journal := []])
    case SwitchOff => w' == w.(active := None)
    case Capture(failed) =>
      && w.phase.Idle?
      && w' == w.(phase := Captured(
           if failed || w.active.None? then ZERO else CursorOf(InfoOf(w.active.value)), w.live))
    case Freeze =>
      && w.phase.Captured?
      && w' == w.(phase := Frozen(w.phase.bound, Shot(w.phase.was, w.live, |Log(w, w.phase.bound.journalId)|)))
    case Begin =>
      && w.phase.Frozen?
      && var p := w.phase;
         w' == w.(phase := if MayRead(w, p.bound) then Scanning(p.bound, p.shot, w.cursor.nextUsn, map[])
                           else Ready(p.bound, p.shot, None, p.shot.snap))
    case Reply(next, recs) =>
      && w.phase.Scanning? && w.active.Some? && w.active.value.id == w.phase.bound.journalId
      && w.active.value.firstUsn <= w.phase.start
      && Advances(Log(w, w.active.value.id), w.phase.start, w.phase.bound.nextUsn, next, recs)
      && w' == w.(phase := AfterReply(w, w.phase, next, recs))
    case Purge =>
      && w.phase.Scanning?
      && w' == w.(phase := Ready(w.phase.bound, w.phase.shot, None, w.phase.shot.snap))
    case Persist =>
      && w.phase.Ready?
      && w' == w.(catalogue := w.phase.result, cursor := w.phase.bound,
                  last := Some(Backup(w.phase.shot, w.phase.changed, w.cursor)), phase := Idle)
    case GiveUp => w' == w.(phase := Idle)
  }

  /** Before the first backup. */
  ghost predicate Init(w: World) {
    w.active.None? && w.logs == map[] && w.cursor == ZERO && w.last.None? && w.phase.Idle?
  }

  ghost predicate Run(ws: seq<World>, acts: seq<Action>) {
    && |ws| == |acts| + 1 && Init(ws[0])
    && forall i :: 0 <= i < |acts| ==> Step(ws[i], acts[i], ws[i + 1])
  }

  // ---- The invariant.

  /** The two sides do not agree on the file. */
  predicate Differ(a: Files, b: Files, f: nat) {
    (f in a) != (f in b) || (f in a && a[f] != b[f])
  }

  /** Among the first `upTo` records there is one of the file at or after `usn`. */
  ghost predicate Recorded(log: seq<Record>, upTo: nat, f: nat, usn: int) {
    exists i :: 0 <= i < |log| && i < upTo && log[i].fileId == f && log[i].usn >= usn
  }

  /** Wherever the two sides disagree, the log has a record at or after `usn`. */
  ghost predicate Excused(a: Files, b: Files, log: seq<Record>, upTo: nat, usn: int) {
    forall f :: Differ(a, b, f) ==> Recorded(log, upTo, f, usn)
  }

  ghost predicate JournalsOk(w: World) {
    && 0 !in w.logs
    && (forall j :: j in w.logs ==> Ordered(w.logs[j]))
    && (w.active.Some? ==>
          && w.active.value.id in w.logs
          && var log := Log(w, w.active.value.id);
             forall i :: 0 <= i < |log| ==> log[i].usn < w.active.value.nextUsn)
  }

  /** The cursor's journal is the one being written. */
  ghost predicate Current(w: World, c: Cursor) {
    w.active.Some? && w.active.value.id == c.journalId
  }

  /** A cursor taken from the live volume. */
  ghost predicate Taken(w: World, c: Cursor) {
    && (c == ZERO || c.journalId in w.logs)
    && (Current(w, c) ==> c.nextUsn <= w.active.value.nextUsn)
  }

  /** Every change since these contents were right has a record at or after the cursor. */
  ghost predicate Tracks(w: World, files: Files, c: Cursor) {
    Current(w, c) ==> Excused(files, w.live, Log(w, c.journalId), |Log(w, c.journalId)|, c.nextUsn)
  }

  ghost predicate LastOk(w: World) {
    w.last.Some? ==>
      var shot := w.last.value.shot;
      && Excused(w.catalogue, shot.snap, Log(w, w.cursor.journalId), shot.mark, w.cursor.nextUsn)
      && LagsExactly(w.catalogue, shot, w.last.value.changed)
      && GoesByJournal(w, w.last.value.since, w.cursor, w.last.value.changed)
  }

  /** A change set is the files the journal has records of from one cursor to the other. */
  ghost predicate GoesByJournal(w: World, since: Cursor, bound: Cursor, changed: Option<set<nat>>) {
    changed.Some? ==>
      && since.journalId == bound.journalId && since.nextUsn <= bound.nextUsn
      && changed.value == Ids(Window(Log(w, bound.journalId), since.nextUsn, bound.nextUsn))
  }

  /**
    Exactly where a backup's result is not its snapshot: on the files that changed between the capture
    and the freeze and are not in the change set.
   */
  ghost predicate LagsExactly(result: Files, shot: Shot, changed: Option<set<nat>>) {
    forall f :: Differ(result, shot.snap, f) <==>
                  changed.Some? && f !in changed.value && Differ(shot.was, shot.snap, f)
  }

  /** The files on which the catalogue was behind at the capture, as the journal names them. */
  ghost predicate KnownAtCapture(w: World, bound: Cursor, was: Files) {
    bound != ZERO && w.cursor.journalId == bound.journalId ==>
      forall f :: Differ(w.catalogue, was, f) ==>
        f in Ids(Window(Log(w, bound.journalId), w.cursor.nextUsn, bound.nextUsn))
  }

  /** Old catalogue entries the snapshot contradicts were recorded by the freeze. */
  ghost predicate OldExcused(w: World, bound: Cursor, snap: Files, mark: nat) {
    w.cursor.journalId == bound.journalId ==>
      Excused(w.catalogue, snap, Log(w, bound.journalId), mark, w.cursor.nextUsn)
  }

  ghost predicate PhaseOk(w: World) {
    match w.phase
    case Idle => true
    case Captured(bound, was) => Taken(w, bound) && KnownAtCapture(w, bound, was)
    case Frozen(bound, shot) =>
      && Taken(w, bound) && ShotOk(w, bound, shot) && KnownAtCapture(w, bound, shot.was)
      && (Current(w, bound) ==> OldExcused(w, bound, shot.snap, shot.mark))
    case Scanning(bound, shot, start, table) =>
      && Taken(w, bound) && ShotOk(w, bound, shot) && KnownAtCapture(w, bound, shot.was)
      && bound != ZERO && w.cursor.journalId == bound.journalId && OldExcused(w, bound, shot.snap, shot.mark)
      && w.cursor.nextUsn <= start <= bound.nextUsn
      && Fold(map[], Window(Log(w, bound.journalId), w.cursor.nextUsn, start)) == Some(table)
    case Ready(bound, shot, changed, result) =>
      && Taken(w, bound) && ShotOk(w, bound, shot)
      && Excused(result, shot.snap, Log(w, bound.journalId), shot.mark, bound.nextUsn)
      && LagsExactly(result, shot, changed) && GoesByJournal(w, w.cursor, bound, changed)
  }

  ghost predicate ShotOk(w: World, bound: Cursor, shot: Shot) {
    shot.mark <= |Log(w, bound.journalId)| && Tracks(w, shot.snap, bound)
  }

  ghost predicate Inv(w: World) {
    JournalsOk(w) && Taken(w, w.cursor) && Tracks(w, w.catalogue, w.cursor) && LastOk(w) && PhaseOk(w)
  }

  // ---- Preservation.

  lemma RecordedGrows(log: seq<Record>, r: Record, upTo: nat, upTo': nat, f: nat, usn: int)
    requires Recorded(log, upTo, f, usn) && upTo <= upTo'
    ensures Recorded(log + [r], upTo', f, usn)
  {
    var i :| 0 <= i < |log| && i < upTo && log[i].fileId == f && log[i].usn >= usn;
    assert (log + [r])[i] == log[i];
  }

  lemma ExcusedGrows(a: Files, b: Files, log: seq<Record>, r: Record, upTo: nat, usn: int)
    requires Excused(a, b, log, upTo, usn)
    ensures Excused(a, b, log + [r], upTo, usn)
  {
    forall f | Differ(a, b, f) ensures Recorded(log + [r], upTo, f, usn) {
      RecordedGrows(log, r, upTo, upTo, f, usn);
    }
  }

  /** A change of one file, with its record, keeps every other file excused and excuses that one. */
  lemma TouchExcuses(files: Files, live: Files, live': Files, log: seq<Record>, r: Record, usn: int)
    requires Excused(files, live, log, |log|, usn) && r.usn >= usn
    requires forall f :: f != r.fileId ==> !Differ(live, live', f)
    ensures Excused(files, live', log + [r], |log| + 1, usn)
  {
    forall f | Differ(files, live', f) ensures Recorded(log + [r], |log| + 1, f, usn) {
      if f == r.fileId {
        assert (log + [r])[|log|] == r;
      } else {
        assert !Differ(live, live', f);
        assert Differ(files, live, f);
        RecordedGrows(log, r, |log|, |log| + 1, f, usn);
      }
    }
  }

  lemma {:induction false} WindowUnmoved(log: seq<Record>, r: Record, lo: int, hi: int)
    requires hi <= r.usn
    ensures Window(log + [r], lo, hi) == Window(log, lo, hi)
  {
    if log == [] {
      assert log + [r] == [r];
    } else {
      assert (log + [r])[1..] == log[1..] + [r];
      WindowUnmoved(log[1..], r, lo, hi);
    }
  }

  /** What a touch leaves of one tracked state of the files. */
  lemma TouchTracks(w: World, id: nat, live: Files, rec: Record, size: int, w': World, files: Files, c: Cursor)
    requires Inv(w) && Touches(w, id, live, rec, size, w') && forall f :: f != id ==> !Differ(w.live, live, f)
    requires Taken(w, c) && Tracks(w, files, c)
    ensures Taken(w', c) && Tracks(w', files, c)
  {
    if Current(w', c) {
      TouchExcuses(files, w.live, live, Log(w, c.journalId), rec, c.nextUsn);
    }
  }

  lemma TouchKeeps(w: World, id: nat, live: Files, rec: Record, size: int, w': World)
    requires Inv(w) && Touches(w, id, live, rec, size, w') && forall f :: f != id ==> !Differ(w.live, live, f)
    ensures Inv(w')
  {
    TouchTracks(w, id, live, rec, size, w', w.catalogue, w.cursor);
    match w.active {
      case None =>
        assert forall j :: Log(w', j) == Log(w, j);
      case Some(a) =>
        LogOrdered(Log(w, a.id), rec);
        forall j ensures Log(w', j) == Log(w, j) || (j == a.id && Log(w', j) == Log(w, j) + [rec]) {
        }
        if w.last.Some? && w.cursor.journalId == a.id {
          var shot := w.last.value.shot;
          WindowUnmoved(Log(w, a.id), rec, w.last.value.since.nextUsn, w.cursor.nextUsn);
          ExcusedGrows(w.catalogue, shot.snap, Log(w, a.id), rec, shot.mark, w.cursor.nextUsn);
        }
    }
    TouchPhase(w, id, live, rec, size, w');
  }

  lemma LogOrdered(log: seq<Record>, r: Record)
    requires Ordered(log) && forall i :: 0 <= i < |log| ==> log[i].usn < r.usn
    ensures Ordered(log + [r])
  {
  }

  lemma TouchPhase(w: World, id: nat, live: Files, rec: Record, size: int, w': World)
    requires Inv(w) && Touches(w, id, live, rec, size, w') && forall f :: f != id ==> !Differ(w.live, live, f)
    ensures PhaseOk(w')
  {
    var p := w.phase;
    if !p.Idle? {
      var log := Log(w, p.bound.journalId);
      if Current(w, p.bound) {
        assert Log(w', p.bound.journalId) == log + [rec];
        WindowUnmoved(log, rec, w.cursor.nextUsn, p.bound.nextUsn);
        if p.Frozen? || p.Scanning? {
          if w.cursor.journalId == p.bound.journalId {
            ExcusedGrows(w.catalogue, p.shot.snap, log, rec, p.shot.mark, w.cursor.nextUsn);
          }
        }
        if p.Scanning? {
          WindowUnmoved(log, rec, w.cursor.nextUsn, p.start);
        }
        if p.Ready? {
          ExcusedGrows(p.result, p.shot.snap, log, rec, p.shot.mark, p.bound.nextUsn);
        }
      } else {
        assert Log(w', p.bound.journalId) == log;
      }
      if !p.Captured? {
        TouchTracks(w, id, live, rec, size, w', p.shot.snap, p.bound);
      }
    }
  }

  /** The journal changed, the files did not: whatever was tracked by another journal is left alone. */
  lemma JournalKeeps(w: World, act: Action, w': World)
    requires Inv(w) && Step(w, act, w') && (act.Trim? || act.Recreate? || act.SwitchOff?)
    ensures Inv(w')
  {
    assert forall j :: Log(w', j) == Log(w, j);
    JournalPhase(w, act, w');
  }

  lemma JournalPhase(w: World, act: Action, w': World)
    requires Inv(w) && Step(w, act, w') && (act.Trim? || act.Recreate? || act.SwitchOff?)
    ensures PhaseOk(w')
  {
    assert forall j :: Log(w', j) == Log(w, j);
    JournalTracks(w, act, w');
  }

  lemma JournalTracks(w: World, act: Action, w': World)
    requires Inv(w) && Step(w, act, w') && (act.Trim? || act.Recreate? || act.SwitchOff?)
    ensures forall c :: Taken(w, c) && Current(w', c) && c != ZERO ==> Current(w, c)
    ensures forall c :: Taken(w, c) ==> Taken(w', c)
    ensures forall files, c :: Taken(w, c) && Tracks(w, files, c) ==> Tracks(w', files, c)
  {
    assert forall j :: Log(w', j) == Log(w, j);
  }

  lemma CaptureKeeps(w: World, failed: bool, w': World)
    requires Inv(w) && Step(w, Capture(failed), w')
    ensures Inv(w')
  {
    assert forall j :: Log(w', j) == Log(w, j);
    var bound := w'.phase.bound;
    if bound != ZERO && w.cursor.journalId == bound.journalId {
      var log := Log(w, bound.journalId);
      forall f | Differ(w.catalogue, w.live, f) ensures f in Ids(Window(log, w.cursor.nextUsn, bound.nextUsn)) {
        var i :| 0 <= i < |log| && log[i].fileId == f && log[i].usn >= w.cursor.nextUsn;
        WindowMember(log, w.cursor.nextUsn, bound.nextUsn, i);
      }
    }
  }

  lemma FreezeKeeps(w: World, w': World)
    requires Inv(w) && Step(w, Freeze, w')
    ensures Inv(w')
  {
    assert forall j :: Log(w', j) == Log(w, j);
    var p := w'.phase;
    assert forall f :: !Differ(p.shot.snap, w.live, f);
  }

  lemma {:induction false} WindowOfNothing(log: seq<Record>, at: int)
    ensures Window(log, at, at) == []
  {
    if log != [] {
      WindowOfNothing(log[1..], at);
    }
  }

  lemma BeginKeeps(w: World, w': World)
    requires Inv(w) && Step(w, Begin, w')
    ensures Inv(w')
  {
    assert forall j :: Log(w', j) == Log(w, j);
    var p := w'.phase;
    assert forall f :: !Differ(p.shot.snap, p.shot.snap, f);
    if p.Scanning? {
      WindowOfNothing(Log(w, p.bound.journalId), p.start);
    }
  }

  lemma {:induction false} WindowMember(log: seq<Record>, lo: int, hi: int, i: nat)
    requires i < |log| && lo <= log[i].usn < hi
    ensures log[i].fileId in Ids(Window(log, lo, hi))
  {
    var tail := Window(log[1..], lo, hi);
    var all := Window(log, lo, hi);
    if i == 0 {
      assert all[0] == log[0];
    } else {
      WindowMember(log[1..], lo, hi, i - 1);
      var k :| 0 <= k < |tail| && tail[k].fileId == log[i].fileId;
      assert all[k + |all| - |tail|] == tail[k];
    }
  }

  /**
    The heart of the chain: after the scan, an entry the snapshot contradicts was recorded between the
    capture and the freeze.  It was excused by the old cursor; if that record were below the bound, the
    file would be in the change set and taken from the snapshot.
   */
  lemma ApplyExcuses(catalogue: Files, snap: Files, log: seq<Record>, mark: nat, lo: int, hi: int, table: Table)
    requires Excused(catalogue, snap, log, mark, lo)
    requires Fold(map[], Window(log, lo, hi)) == Some(table)
    ensures Excused(Apply(catalogue, table.Keys, snap), snap, log, mark, hi)
  {
    OverflowIffTooManyFiles(Window(log, lo, hi));
    forall f | Differ(Apply(catalogue, table.Keys, snap), snap, f) ensures Recorded(log, mark, f, hi) {
      assert f !in table.Keys && Differ(catalogue, snap, f);
      var i :| 0 <= i < |log| && i < mark && log[i].fileId == f && log[i].usn >= lo;
      if log[i].usn < hi {
        WindowMember(log, lo, hi, i);
      }
    }
  }

  /** A file outside the change set was up to date at the capture, so it lags exactly if it changed since. */
  lemma ApplyLags(catalogue: Files, shot: Shot, changed: set<nat>, result: Files)
    requires result == Apply(catalogue, changed, shot.snap)
    ensures (forall f :: Differ(catalogue, shot.was, f) ==> f in changed) ==> LagsExactly(result, shot, Some(changed))
  {
    if forall f :: Differ(catalogue, shot.was, f) ==> f in changed {
      forall f ensures Differ(result, shot.snap, f) <==> f !in changed && Differ(shot.was, shot.snap, f) {
        ApplyAt(catalogue, changed, shot.snap, f);
        if f !in changed { assert !Differ(catalogue, shot.was, f); }
      }
    }
  }

  lemma ReplyKeeps(w: World, next: int, recs: seq<Record>, w': World)
    requires Inv(w) && Step(w, Reply(next, recs), w')
    ensures Inv(w')
  {
    var p, p' := w.phase, w'.phase;
    var log, lo, hi := Log(w, p.bound.journalId), w.cursor.nextUsn, p.bound.nextUsn;
    var taken := Below(recs, hi);
    assert forall j :: Log(w', j) == Log(w, j);
    assert forall f :: !Differ(p.shot.snap, p.shot.snap, f);
    AdvanceCoversWindow(log, p.start, hi, next, recs);
    WindowSplit(log, lo, p.start, hi);
    FoldConcat(map[], Window(log, lo, p.start), taken);
    if Fold(p.table, taken).Some? {
      match NextStart(p.start, next, hi, StopOf(recs, hi)) {
        case None =>
          var table := Fold(p.table, taken).value;
          ApplyExcuses(w.catalogue, p.shot.snap, log, p.shot.mark, lo, hi, table);
          ApplyLags(w.catalogue, p.shot, table.Keys, p'.result);
          OverflowIffTooManyFiles(Window(log, lo, hi));
        case Some(n) =>
          WindowSplit(log, lo, p.start, n);
          TakenIsWindow(log, p.start, hi, next, recs);
      }
    }
  }

  lemma TakenIsWindow(log: seq<Record>, start: int, bound: int, next: int, recs: seq<Record>)
    requires Advances(log, start, bound, next, recs) && start < next < bound
    ensures Below(recs, bound) == Window(log, start, next)
  {
  }

  lemma PersistKeeps(w: World, w': World)
    requires Inv(w) && Step(w, Persist, w')
    ensures Inv(w')
  {
    var p := w.phase;
    var log := Log(w, p.bound.journalId);
    assert forall j :: Log(w', j) == Log(w, j);
    if Current(w, p.bound) {
      forall f | Differ(p.result, w.live, f) ensures Recorded(log, |log|, f, p.bound.nextUsn) {
        if Differ(p.result, p.shot.snap, f) {
          var i :| 0 <= i < |log| && i < p.shot.mark && log[i].fileId == f && log[i].usn >= p.bound.nextUsn;
          assert i < |log|;
        } else {
          assert Differ(p.shot.snap, w.live, f);
        }
      }
    }
  }

  lemma StepKeeps(w: World, act: Action, w': World)
    requires Inv(w) && Step(w, act, w')
    ensures Inv(w')
  {
    match act {
      case Write(id, content, rec, size) => TouchKeeps(w, id, w.live[id := content], rec, size, w');
      case Delete(id, rec, size) => TouchKeeps(w, id, w.live - {id}, rec, size, w');
      case Trim(_) => JournalKeeps(w, act, w');
      case Recreate(_, _) => JournalKeeps(w, act, w');
      case SwitchOff => JournalKeeps(w, act, w');
      case Capture(failed) => CaptureKeeps(w, failed, w');
      case Freeze => FreezeKeeps(w, w');
      case Begin => BeginKeeps(w, w');
      case Reply(next, recs) => ReplyKeeps(w, next, recs, w');
      case Purge =>
        assert forall j :: Log(w', j) == Log(w, j);
        assert forall f :: !Differ(w.phase.shot.snap, w.phase.shot.snap, f);
      case Persist => PersistKeeps(w, w');
      case GiveUp =>
        assert forall j :: Log(w', j) == Log(w, j);
    }
  }

  /** The invariant holds in every state of every run. */
  lemma {:induction false} RunKeeps(ws: seq<World>, acts: seq<Action>, n: nat)
    requires Run(ws, acts) && n < |ws|
    ensures Inv(ws[n])
  {
    if n > 0 {
      RunKeeps(ws, acts, n - 1);
      StepKeeps(ws[n - 1], acts[n - 1], ws[n]);
    }
  }

  // ---- What it means for backups.

  /** The file was touched between the capture and the freeze of the last backup. */
  ghost predicate TouchedInWindow(w: World, f: nat)
    requires w.last.Some?
  {
    Recorded(Log(w, w.cursor.journalId), w.last.value.shot.mark, f, w.cursor.nextUsn)
  }

  /**
    Incremental-chain safety.  At any moment of any run: a catalogue entry that the last backup's
    snapshot contradicts has a record at or after the persisted cursor, made before that snapshot was
    frozen.  So nothing is lost, and files not touched between capture and freeze are exact.
   */
  lemma StaleEntriesAreReportedAgain(ws: seq<World>, acts: seq<Action>, n: nat, f: nat)
    requires Run(ws, acts) && n < |ws| && ws[n].last.Some?
    ensures Differ(ws[n].catalogue, ws[n].last.value.shot.snap, f) ==> TouchedInWindow(ws[n], f)
  {
    RunKeeps(ws, acts, n);
  }

  /** The journal has a record of the file from the cursor the last backup went from up to the one it left. */
  ghost predicate RecordedInTime(w: World, f: nat)
    requires w.last.Some?
  {
    var log := Log(w, w.cursor.journalId);
    exists i :: 0 <= i < |log| && log[i].fileId == f && w.last.value.since.nextUsn <= log[i].usn < w.cursor.nextUsn
  }

  lemma {:induction false} InWindowIff(log: seq<Record>, lo: int, hi: int, f: nat)
    ensures f in Ids(Window(log, lo, hi)) <==>
            exists i :: 0 <= i < |log| && log[i].fileId == f && lo <= log[i].usn < hi
  {
    if i :| 0 <= i < |log| && log[i].fileId == f && lo <= log[i].usn < hi {
      WindowMember(log, lo, hi, i);
    }
    if log != [] && f in Ids(Window(log, lo, hi)) {
      var all, tail := Window(log, lo, hi), Window(log[1..], lo, hi);
      InWindowIff(log[1..], lo, hi, f);
      var k :| 0 <= k < |all| && all[k].fileId == f;
      if lo <= log[0].usn < hi && k == 0 {
        assert log[0].fileId == f;
      } else {
        assert tail[k - (|all| - |tail|)].fileId == f;
        var i :| 0 <= i < |log[1..]| && log[1..][i].fileId == f && lo <= log[1..][i].usn < hi;
        assert log[i + 1].fileId == f;
      }
    }
  }

  /**
    "The catalogue is the snapshot" holds exactly if the last backup was a full walk, or every file that
    is not in the snapshot as it was at the capture has a record in the journal between the two cursors.
   */
  lemma CatalogueIsSnapshotIff(ws: seq<World>, acts: seq<Action>, n: nat)
    requires Run(ws, acts) && n < |ws| && ws[n].last.Some?
    ensures var w, last := ws[n], ws[n].last.value;
            w.catalogue == last.shot.snap <==>
            last.changed.None? || forall f :: Differ(last.shot.was, last.shot.snap, f) ==> RecordedInTime(w, f)
  {
    RunKeeps(ws, acts, n);
    var w, last := ws[n], ws[n].last.value;
    if last.changed.Some? {
      forall f ensures f in last.changed.value <==> RecordedInTime(w, f) {
        InWindowIff(Log(w, w.cursor.journalId), last.since.nextUsn, w.cursor.nextUsn, f);
      }
    }
    if last.changed.None? || forall f :: Differ(last.shot.was, last.shot.snap, f) ==> RecordedInTime(w, f) {
      forall f ensures !Differ(w.catalogue, last.shot.snap, f) {
      }
      SameFiles(w.catalogue, last.shot.snap);
    } else {
      var f :| Differ(last.shot.was, last.shot.snap, f) && !RecordedInTime(w, f);
      assert Differ(w.catalogue, last.shot.snap, f);
    }
  }

  /** With nothing touched between capture and freeze, the catalogue is the snapshot. */
  lemma QuietCaptureIsExact(ws: seq<World>, acts: seq<Action>, n: nat)
    requires Run(ws, acts) && n < |ws| && ws[n].last.Some?
    requires forall f :: !TouchedInWindow(ws[n], f)
    ensures ws[n].catalogue == ws[n].last.value.shot.snap
  {
    var w := ws[n];
    forall f ensures !Differ(w.catalogue, w.last.value.shot.snap, f) {
      StaleEntriesAreReportedAgain(ws, acts, n, f);
    }
    SameFiles(w.catalogue, w.last.value.shot.snap);
  }

  /**
    No change is ever missed: as long as the cursor's journal is the one being written, every file on
    which the catalogue and the live volume disagree has a record the next incremental will start from.
   */
  lemma EveryLiveChangeIsAhead(ws: seq<World>, acts: seq<Action>, n: nat, f: nat)
    requires Run(ws, acts) && n < |ws| && Current(ws[n], ws[n].cursor)
    requires Differ(ws[n].catalogue, ws[n].live, f)
    ensures Recorded(Log(ws[n], ws[n].cursor.journalId), |Log(ws[n], ws[n].cursor.journalId)|, f, ws[n].cursor.nextUsn)
  {
    RunKeeps(ws, acts, n);
  }

  // ---- The change list the call returns is what the chain applies.

  /** Updating the catalogue one reported change at a time. */
  function ApplyChanges(catalogue: Files, changes: seq<Change>, snap: Files): Files
    decreases |changes|
  {
    if changes == [] then catalogue
    else
      var c := changes[0];
      ApplyChanges(if c.deleted then catalogue - {c.fileId}
                   else if c.fileId in snap then catalogue[c.fileId := snap[c.fileId]]
                   else catalogue,
                   changes[1..], snap)
  }

  lemma {:induction false} ApplyChangesAt(catalogue: Files, changes: seq<Change>, snap: Files, f: nat)
    requires forall i :: 0 <= i < |changes| ==> (changes[i].deleted <==> changes[i].fileId !in snap)
    ensures HasChange(changes, f) ==> !Differ(ApplyChanges(catalogue, changes, snap), snap, f)
    ensures !HasChange(changes, f) ==> !Differ(ApplyChanges(catalogue, changes, snap), catalogue, f)
    decreases |changes|
  {
    if changes != [] {
      var c, tail := changes[0], changes[1..];
      var next := if c.deleted then catalogue - {c.fileId} else catalogue[c.fileId := snap[c.fileId]];
      ApplyChangesAt(next, tail, snap, f);
      assert HasChange(changes, f) <==> c.fileId == f || HasChange(tail, f) by {
        if i :| 0 <= i < |tail| && tail[i].fileId == f { assert changes[i + 1].fileId == f; }
        if i :| 0 < i < |changes| && changes[i].fileId == f { assert tail[i - 1].fileId == f; }
      }
    }
  }

  /**
    Whatever order the changes come in, applying them one by one is the step of the chain: opening a
    file of the snapshot by ID fails exactly when the snapshot does not have it.
   */
  lemma ChangeListApplies(catalogue: Files, changes: seq<Change>, table: Table, vol: Volume, snap: Files)
    requires Lists(changes, table.Keys, table, vol)
    requires forall f :: vol(f).Some? <==> f in snap
    ensures ApplyChanges(catalogue, changes, snap) == Apply(catalogue, table.Keys, snap)
  {
    var a, b := ApplyChanges(catalogue, changes, snap), Apply(catalogue, table.Keys, snap);
    DeletedMeansAbsent(changes, table, vol, snap);
    forall f ensures !Differ(a, b, f) {
      ApplyChangesAt(catalogue, changes, snap, f);
      ListedMeansInTable(changes, table, vol, f);
      ApplyAt(catalogue, table.Keys, snap, f);
    }
    SameFiles(a, b);
  }

  lemma DeletedMeansAbsent(changes: seq<Change>, table: Table, vol: Volume, snap: Files)
    requires Lists(changes, table.Keys, table, vol)
    requires forall f :: vol(f).Some? <==> f in snap
    ensures forall i :: 0 <= i < |changes| ==> (changes[i].deleted <==> changes[i].fileId !in snap)
  {
    forall i | 0 <= i < |changes| ensures changes[i].deleted <==> changes[i].fileId !in snap {
      var id := changes[i].fileId;
      assert changes[i] == ChangeOf(vol, id, table[id]);
    }
  }

  lemma ListedMeansInTable(changes: seq<Change>, table: Table, vol: Volume, f: nat)
    requires Lists(changes, table.Keys, table, vol)
    ensures HasChange(changes, f) <==> f in table.Keys
  {
  }

  lemma ApplyAt(catalogue: Files, changed: set<nat>, snap: Files, f: nat)
    ensures !Differ(Apply(catalogue, changed, snap), if f in changed then snap else catalogue, f)
  {
  }

  lemma SameFiles(a: Files, b: Files)
    requires forall f :: !Differ(a, b, f)
    ensures a == b
  {
    forall f ensures f in a <==> f in b {
      assert !Differ(a, b, f);
    }
    forall f | f in a ensures a[f] == b[f] {
      assert !Differ(a, b, f);
    }
  }

  /** A step of the chain's scan is one turn of the call's loop: the same end, or the same next turn. */
  lemma ReplyIsTurn(w: World, p: Phase, dev: Device, cancelled: nat -> bool, k: nat,
                    next: int, recs: seq<Record>, os: seq<Other>)
    requires p.Scanning? && !cancelled(k) && dev(k, p.start).Read? && Carries(dev(k, p.start).bytes, next, recs, os)
    ensures var r := ScanFrom(dev, cancelled, k, p.start, p.bound.nextUsn, p.table);
            match AfterReply(w, p, next, recs)
            case Ready(_, _, None, result) => r.TooMany? && result == p.shot.snap
            case Ready(_, _, Some(changed), result) =>
              r.Scanned? && changed == r.byId.Keys && result == Apply(w.catalogue, changed, p.shot.snap)
            case Scanning(_, _, start, table) => r == ScanFrom(dev, cancelled, k + 1, start, p.bound.nextUsn, table)
            case _ => false
  {
    ScanTurn(dev, cancelled, k, p.start, p.bound.nextUsn, p.table, next, recs, os);
  }

  /** The active journal still has every record the file system made at or after this position. */
  ghost predicate StillKept(w: World, usn: int) {
    w.active.Some? && forall i :: 0 <= i < |Log(w, w.active.value.id)| ==>
                        Log(w, w.active.value.id)[i].usn >= usn ==>
                        Log(w, w.active.value.id)[i].usn >= w.active.value.firstUsn
  }

  /**
    A scan is only ever begun from an aligned cursor of the journal that is both the captured and the
    active one, when nothing from there on has been purged.
   */
  lemma ScanBeginsInJournal(ws: seq<World>, acts: seq<Action>, n: nat)
    requires Run(ws, acts) && n < |acts| && !ws[n].phase.Scanning? && ws[n + 1].phase.Scanning?
    ensures var w, p := ws[n], ws[n + 1].phase;
            && p.start == w.cursor.nextUsn && p.start >= 0 && p.start % 8 == 0
            && Current(w, p.bound) && w.cursor.journalId == p.bound.journalId
            && w.active.value.firstUsn <= p.start <= p.bound.nextUsn && StillKept(w, p.start)
  {
    assert Step(ws[n], acts[n], ws[n + 1]);
    RunKeeps(ws, acts, n + 1);
  }

  /** A reply is only taken for records that had not been purged. */
  lemma ReplyMissesNothing(ws: seq<World>, acts: seq<Action>, n: nat)
    requires Run(ws, acts) && n < |acts| && acts[n].Reply?
    ensures ws[n].phase.Scanning? && Current(ws[n], ws[n].phase.bound) && StillKept(ws[n], ws[n].phase.start)
  {
    assert Step(ws[n], acts[n], ws[n + 1]);
  }

  // ---- "The catalogue is the snapshot" is not a theorem.

  function World0(): World {
    World(map[1 := 10], None, map[], map[], ZERO, None, Idle)
  }

  /** The states of a run: a full backup, then one with file 1 written between capture and freeze. */
  function StaleRun(rec: Record): seq<World> {
    var w0 := World0();
    var w1 := w0.(active := Some(Journal(7, 0, 0)), logs := map[7 := []]);
    var w2 := w1.(phase := Captured(Cursor(7, 0), map[1 := 10]));
    var first := Shot(map[1 := 10], map[1 := 10], 0);
    var w3 := w2.(phase := Frozen(Cursor(7, 0), first));
    var w4 := w3.(phase := Ready(Cursor(7, 0), first, None, map[1 := 10]));
    var w5 := w4.(catalogue := map[1 := 10], cursor := Cursor(7, 0), last := Some(Backup(first, None, ZERO)),
                  phase := Idle);
    var w6 := w5.(phase := Captured(Cursor(7, 0), map[1 := 10]));
    var w7 := w6.(live := map[1 := 11], active := Some(Journal(7, 0, 8)), logs := map[7 := [rec]]);
    var second := Shot(map[1 := 10], map[1 := 11], 1);
    var w8 := w7.(phase := Frozen(Cursor(7, 0), second));
    var w9 := w8.(phase := Scanning(Cursor(7, 0), second, 0, map[]));
    var w10 := w9.(phase := Ready(Cursor(7, 0), second, Some({}), map[1 := 10]));
    var w11 := w10.(last := Some(Backup(second, Some({}), Cursor(7, 0))), phase := Idle);
    [w0, w1, w2, w3, w4, w5, w6, w7, w8, w9, w10, w11]
  }

  function StaleActions(rec: Record): seq<Action> {
    [Recreate(7, 0), Capture(false), Freeze, Begin, Persist, Capture(false), Write(1, 11, rec, 8), Freeze, Begin,
     Reply(8, [rec]), Persist]
  }

  lemma CatalogueMayLag(rec: Record)
    requires rec.fileId == 1 && rec.usn == 0
    ensures Run(StaleRun(rec), StaleActions(rec))
    ensures var w := StaleRun(rec)[11];
            w.last.Some? && Differ(w.catalogue, w.last.value.shot.snap, 1) && TouchedInWindow(w, 1)
  {
    var ws, acts := StaleRun(rec), StaleActions(rec);
    FirstBackup(rec);
    assert Step(ws[5], acts[5], ws[6]);
    assert map[1 := 10][1 := 11] == map[1 := 11] && [] + [rec] == [rec];
    assert map[7 := []][7 := [rec]] == map[7 := [rec]];
    assert Step(ws[6], acts[6], ws[7]);
    assert Step(ws[7], acts[7], ws[8]);
    assert Step(ws[8], acts[8], ws[9]);
    LateReply(ws[9], rec, ws[10]);
    assert Step(ws[9], acts[9], ws[10]);
    assert Step(ws[10], acts[10], ws[11]);
    assert Log(ws[11], 7)[0] == rec;
  }

  lemma FirstBackup(rec: Record)
    ensures var ws, acts := StaleRun(rec), StaleActions(rec);
            Init(ws[0]) && forall i :: 0 <= i < 5 ==> Step(ws[i], acts[i], ws[i + 1])
  {
    var ws, acts := StaleRun(rec), StaleActions(rec);
    FirstCapture(rec);
    assert Step(ws[3], acts[3], ws[4]);
    assert Step(ws[4], acts[4], ws[5]);
  }

  lemma FirstCapture(rec: Record)
    ensures var ws, acts := StaleRun(rec), StaleActions(rec);
            && Init(ws[0]) && Step(ws[0], acts[0], ws[1]) && Step(ws[1], acts[1], ws[2]) && Step(ws[2], acts[2], ws[3])
  {
  }

  lemma LateReply(w: World, rec: Record, w': World)
    requires rec.usn == 0 && w == StaleRun(rec)[9] && w' == StaleRun(rec)[10]
    ensures Step(w, Reply(8, [rec]), w')
  {
    assert [rec][1..] == [];
    assert Window([rec], 0, 0) == [];
    assert Below([rec], 0) == [];
    var table: Table := map[];
    assert Apply(w.catalogue, table.Keys, w.phase.shot.snap) == map[1 := 10];
  }
}
