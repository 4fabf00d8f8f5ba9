/**
  The change set between a persisted cursor and a snapshot (usn.go; usn_windows.go,
  `USNChangesSince`, `idResolver`).
 */
module UsnChanges {
  import opened Options
  import opened UsnCursor
  import opened UsnRecord
  import opened UsnScan

  // ---- The scan against a journal that answers in order.

  ghost predicate Ordered(journal: seq<Record>) {
    forall i, j :: 0 <= i < j < |journal| ==> journal[i].usn < journal[j].usn
  }

  /** The journal's records from `lo` up to, not including, `hi`. */
  function Window(journal: seq<Record>, lo: int, hi: int): seq<Record> {
    if journal == [] then []
    else (if lo <= journal[0].usn < hi then [journal[0]] else []) + Window(journal[1..], lo, hi)
  }

  lemma {:induction false} WindowFrom(journal: seq<Record>, lo: int, mid: int, hi: int)
    requires lo <= mid <= hi && forall i :: 0 <= i < |journal| ==> mid <= journal[i].usn
    ensures Window(journal, lo, mid) == [] && Window(journal, lo, hi) == Window(journal, mid, hi)
  {
    if journal != [] {
      WindowFrom(journal[1..], lo, mid, hi);
    }
  }

  lemma {:induction false} WindowSplit(journal: seq<Record>, lo: int, mid: int, hi: int)
    requires Ordered(journal) && lo <= mid <= hi
    ensures Window(journal, lo, hi) == Window(journal, lo, mid) + Window(journal, mid, hi)
  {
    if journal != [] {
      if mid <= journal[0].usn {
        WindowFrom(journal, lo, mid, hi);
      } else {
        WindowSplit(journal[1..], lo, mid, hi);
        var head := if lo <= journal[0].usn then [journal[0]] else [];
        var a, b := Window(journal[1..], lo, mid), Window(journal[1..], mid, hi);
        assert head + (a + b) == head + a + b;
      }
    }
  }

  /** The reply holds these records, and names the position to go on from. */
  ghost predicate Carries(bytes: seq<byte>, next: int, recs: seq<Record>, os: seq<Other>) {
    && -0x8000_0000_0000_0000 <= next < 0x8000_0000_0000_0000
    && AllWritable(recs, os)
    && bytes == ToLE(Unsigned(next), 8) + EncodeAll(recs, os)
  }

  /**
    An honest reply to a read from `start`.  It advances, holding exactly the journal's records up to
    where it advances to, or it does not advance, and then the journal has none left below the bound.
    Records at or beyond the bound may follow: the live journal keeps growing.
   */
  ghost predicate AnswersRead(bytes: seq<byte>, journal: seq<Record>, start: int, bound: int) {
    if |bytes| < 8 then Window(journal, start, bound) == []
    else
      exists next: int, recs: seq<Record>, os: seq<Other> ::
        Carries(bytes, next, recs, os) && Advances(journal, start, bound, next, recs)
  }

  ghost predicate Advances(journal: seq<Record>, start: int, bound: int, next: int, recs: seq<Record>) {
    if next <= start then Window(journal, start, bound) == [] && Below(recs, bound) == []
    else
      && (forall i :: 0 <= i < |recs| ==> recs[i].usn < next)
      && Below(recs, bound) == Window(journal, start, if next < bound then next else bound)
  }

  /** The device may fail or report a purge at any read; what it does answer is honest. */
  ghost predicate Honest(dev: Device, journal: seq<Record>, bound: int) {
    Ordered(journal) && forall k, start :: HonestAt(dev, journal, bound, k, start)
  }

  ghost predicate HonestAt(dev: Device, journal: seq<Record>, bound: int, k: nat, start: int) {
    dev(k, start).Read? ==> AnswersRead(dev(k, start).bytes, journal, start, bound)
  }

  /** Nothing went wrong: no failed read, no purge, no cancellation. */
  ghost predicate Undisturbed(dev: Device, cancelled: nat -> bool) {
    forall k, start :: UndisturbedAt(dev, cancelled, k, start)
  }

  ghost predicate UndisturbedAt(dev: Device, cancelled: nat -> bool, k: nat, start: int) {
    !cancelled(k) && dev(k, start).Read?
  }

  lemma {:induction false} BelowStops(recs: seq<Record>, bound: int)
    ensures Below(recs, bound) == recs || exists i :: 0 <= i < |recs| && recs[i].usn >= bound
  {
    if recs != [] && recs[0].usn < bound {
      BelowStops(recs[1..], bound);
      BelowStep(recs, bound);
      if Below(recs[1..], bound) != recs[1..] {
        var i :| 0 <= i < |recs[1..]| && recs[1..][i].usn >= bound;
        assert recs[i + 1].usn >= bound;
      }
    }
  }

  lemma ReplyIsRead(bytes: seq<byte>, next: int, recs: seq<Record>, os: seq<Other>, bound: int)
    requires Carries(bytes, next, recs, os)
    ensures |bytes| >= 8 && ReplyPosition(bytes) == next
    ensures Parse(Lookup(bytes, bound), |bytes|, 8) ==
            Parsed(Below(recs, bound), StopOf(recs, bound))
  {
    var head := ToLE(Unsigned(next), 8);
    assert bytes[..8] == head;
    Widths();
    LERoundTrip(Unsigned(next), 8);
    ParseEncoded(head, recs, os, bound);
  }

  /** What folding the records still wanted from `start` on makes of a table. */
  ghost function Wanted(journal: seq<Record>, start: int, bound: int, m: Table): Scanned {
    match Fold(m, Window(journal, start, bound))
    case None => TooMany
    case Some(m') => UsnScan.Scanned.Scanned(m')
  }

  /** The records of a reply below the bound, and whether a record at or beyond it ended them. */
  ghost function StopOf(recs: seq<Record>, bound: int): Stop {
    if Below(recs, bound) == recs then Drained else PastBound
  }

  /** What a reply adds, and what is still wanted after it, is what was wanted before it. */
  lemma AdvanceCoversWindow(journal: seq<Record>, start: int, bound: int, next: int, recs: seq<Record>)
    requires Ordered(journal) && start <= bound && Advances(journal, start, bound, next, recs)
    ensures Window(journal, start, bound) ==
            match NextStart(start, next, bound, StopOf(recs, bound))
            case None => Below(recs, bound)
            case Some(n) => Below(recs, bound) + Window(journal, n, bound)
  {
    BelowStops(recs, bound);
    if start < next < bound {
      WindowSplit(journal, start, next, bound);
    }
  }

  /** One turn of the loop with a reply that carries these records. */
  lemma ScanTurn(dev: Device, cancelled: nat -> bool, k: nat, start: int, bound: int, m: Table,
                 next: int, recs: seq<Record>, os: seq<Other>)
    requires !cancelled(k) && dev(k, start).Read? && Carries(dev(k, start).bytes, next, recs, os)
    ensures ScanFrom(dev, cancelled, k, start, bound, m) ==
            match Fold(m, Below(recs, bound))
            case None => TooMany
            case Some(m') =>
              match NextStart(start, next, bound, StopOf(recs, bound))
              case None => UsnScan.Scanned.Scanned(m')
              case Some(n) => ScanFrom(dev, cancelled, k + 1, n, bound, m')
  {
    ReplyIsRead(dev(k, start).bytes, next, recs, os, bound);
  }

  /** What is wanted from `start` on, when a reply advances. */
  lemma WantedTurn(journal: seq<Record>, start: int, bound: int, m: Table, next: int, recs: seq<Record>)
    requires Ordered(journal) && start <= bound && Advances(journal, start, bound, next, recs)
    ensures Wanted(journal, start, bound, m) ==
            match Fold(m, Below(recs, bound))
            case None => TooMany
            case Some(m') =>
              match NextStart(start, next, bound, StopOf(recs, bound))
              case None => UsnScan.Scanned.Scanned(m')
              case Some(n) => Wanted(journal, n, bound, m')
  {
    AdvanceCoversWindow(journal, start, bound, next, recs);
    var going := NextStart(start, next, bound, StopOf(recs, bound));
    if going.Some? {
      FoldConcat(m, Below(recs, bound), Window(journal, going.value, bound));
    }
  }

  /** The scan has what was wanted, or says why not; undisturbed, it has it. */
  ghost predicate Delivers(r: Scanned, wanted: Scanned, undisturbed: bool) {
    r == wanted || (!undisturbed && (r.JournalReset? || r.IoError? || r.Cancelled?))
  }

  /**
    Scan refinement.  However an honest device splits the journal into replies, the scan's table is one
    fold over exactly the journal's records from the start to the bound, or the scan fails because the
    device did, because it was cancelled, or because there are too many files.
   */
  lemma {:induction false} ScanIsOneFold(dev: Device, cancelled: nat -> bool, journal: seq<Record>,
                                         k: nat, start: int, bound: int, m: Table)
    requires Honest(dev, journal, bound) && start <= bound
    ensures Delivers(ScanFrom(dev, cancelled, k, start, bound, m), Wanted(journal, start, bound, m),
                     Undisturbed(dev, cancelled))
    decreases bound - start
  {
    var reply := dev(k, start);
    assert HonestAt(dev, journal, bound, k, start);
    assert Undisturbed(dev, cancelled) ==> UndisturbedAt(dev, cancelled, k, start);
    if !cancelled(k) && reply.Read? {
      if |reply.bytes| < 8 {
        assert Fold(m, []) == Some(m);
      } else {
        var next: int, recs: seq<Record>, os: seq<Other> :|
          Carries(reply.bytes, next, recs, os) && Advances(journal, start, bound, next, recs);
        ScanTurn(dev, cancelled, k, start, bound, m, next, recs, os);
        WantedTurn(journal, start, bound, m, next, recs);
        var after, going := Fold(m, Below(recs, bound)), NextStart(start, next, bound, StopOf(recs, bound));
        if after.Some? && going.Some? {
          ScanIsOneFold(dev, cancelled, journal, k + 1, going.value, bound, after.value);
        }
      }
    }
  }

  // ---- Resolving files in the snapshot.

  /** A path in UTF-16 units; `\` is 0x5C. */
  type Path = seq<nat>

  /** Opening a file of the snapshot by its ID: its path, unless it is not there. */
  type Volume = nat -> Option<Path>

  class IdResolver {
    const vol: Volume
    var cache: map<nat, Option<Path>>

    ghost predicate Valid()
      reads this
    {
      forall id :: id in cache ==> cache[id] == vol(id)
    }

    constructor (vol: Volume)
      ensures Valid() && this.vol == vol
    {
      this.vol := vol;
      cache := map[];
    }

    method PathById(id: nat) returns (path: Option<Path>)
      requires Valid()
      modifies this`cache
      ensures Valid() && path == vol(id)
    {
      if id in cache {
        return cache[id];
      }
      path := vol(id);
      cache := cache[id := path];
    }
  }

  datatype Change = Change(path: Path, pathKnown: bool, name: seq<nat>, isDir: bool, deleted: bool,
                           fileId: nat, parentId: nat, reasons: nat, lastUsn: int)

  function ChangeOf(vol: Volume, id: nat, a: Agg): Change {
    var c := Change([], false, a.name, Bit(a.attributes, 4), false, id, a.parentId, a.reasons, a.lastUsn);
    match vol(id)
    case Some(path) => c.(path := path, pathKnown := true)
    case None =>
      match vol(a.parentId)
      case None => c.(deleted := true)
      case Some(parent) =>
        c.(deleted := true, pathKnown := true, path := if parent == [] then a.name else parent + [0x5C] + a.name)
  }

  /** One change for each of these files of the table, in some order. */
  ghost predicate Lists(changes: seq<Change>, ids: set<nat>, m: Table, vol: Volume)
    requires ids <= m.Keys
  {
    && |changes| == |ids|
    && (forall i :: 0 <= i < |changes| ==>
          changes[i].fileId in ids && changes[i] == ChangeOf(vol, changes[i].fileId, m[changes[i].fileId]))
    && (forall i, j :: 0 <= i < j < |changes| ==> changes[i].fileId != changes[j].fileId)
    && (forall id :: id in ids ==> HasChange(changes, id))
  }

  ghost predicate HasChange(changes: seq<Change>, id: nat) {
    exists i :: 0 <= i < |changes| && changes[i].fileId == id
  }

  lemma ListsMore(changes: seq<Change>, ids: set<nat>, m: Table, vol: Volume, id: nat)
    requires ids <= m.Keys && Lists(changes, ids, m, vol) && id in m && id !in ids
    ensures Lists(changes + [ChangeOf(vol, id, m[id])], ids + {id}, m, vol)
  {
    var more := changes + [ChangeOf(vol, id, m[id])];
    assert more[|changes|].fileId == id;
    forall x | x in ids + {id} ensures HasChange(more, x) {
      if x != id {
        var i :| 0 <= i < |changes| && changes[i].fileId == x;
        assert more[i].fileId == x;
      }
    }
  }

  method ResolveOne(r: IdResolver, id: nat, a: Agg) returns (c: Change)
    requires r.Valid()
    modifies r`cache
    ensures r.Valid() && c == ChangeOf(r.vol, id, a)
  {
    c := Change([], false, a.name, Bit(a.attributes, 4), false, id, a.parentId, a.reasons, a.lastUsn);
    var path := r.PathById(id);
    if path.Some? {
      c := c.(path := path.value, pathKnown := true);
    } else {
      c := c.(deleted := true);
      var parent := r.PathById(a.parentId);
      if parent.Some? {
        c := c.(path := if parent.value == [] then a.name else parent.value + [0x5C] + a.name, pathKnown := true);
      }
    }
  }

  method ResolveAll(m: Table, vol: Volume) returns (changes: seq<Change>)
    ensures Lists(changes, m.Keys, m, vol)
  {
    var r := new IdResolver(vol);
    changes := [];
    var left := m.Keys;
    ghost var done: set<nat> := {};
    while left != {}
      invariant r.Valid() && r.vol == vol && fresh(r)
      invariant done !! left && done + left == m.Keys
      invariant Lists(changes, done, m, vol)
      decreases |left|
    {
      var id :| id in left;
      var c := ResolveOne(r, id, m[id]);
      ListsMore(changes, done, m, vol, id);
      changes := changes + [c];
      left, done := left - {id}, done + {id};
    }
    assert done == m.Keys;
  }

  // ---- The whole call.

  datatype Query = Active(info: Info) | NotActive | QueryFailed

  /** The answer; a failure tells whether it wraps `ErrJournalReset` or `ErrTooManyChanges`. */
  datatype Answer =
    | Changes(changes: seq<Change>, next: Cursor)
    | Reset
    | TooManyChanges
    | Failure

  /** The cursor checks, which all fail closed to a reset. */
  predicate Trusted(cursor: Cursor, bound: Cursor, live: Info) {
    && cursor.journalId == bound.journalId
    && live.id == bound.journalId
    && live.firstUsn <= cursor.nextUsn <= bound.nextUsn
    && cursor.nextUsn % 8 == 0 && cursor.nextUsn >= 0
  }

  function AnswerOf(r: Scanned): Answer {
    match r
    case Scanned(_) => Failure
    case JournalReset => Reset
    case TooMany => TooManyChanges
    case IoError => Failure
    case Cancelled => Failure
  }

  method USNChangesSince(bound: Cursor, snapshotOpens: bool, liveOpens: bool, query: Query, cursor: Cursor,
                         dev: Device, cancelled: nat -> bool, vol: Volume) returns (ans: Answer)
    ensures bound == ZERO ==> ans == Reset
    ensures bound != ZERO && !(snapshotOpens && liveOpens) ==> ans == Failure
    ensures bound != ZERO && snapshotOpens && liveOpens ==>
              match query
              case NotActive => ans == Reset
              case QueryFailed => ans == Failure
              case Active(live) =>
                if !Trusted(cursor, bound, live) then ans == Reset
                else
                  match ScanFrom(dev, cancelled, 0, cursor.nextUsn, bound.nextUsn, map[])
                  case Scanned(m) => ans.Changes? && ans.next == bound && Lists(ans.changes, m.Keys, m, vol)
                  case TooMany => ans == TooManyChanges
                  case JournalReset => ans == Reset
                  case _ => ans == Failure
    // Each doubt about the cursor, as the documentation lists them, is a reset.
    ensures bound != ZERO && snapshotOpens && liveOpens && query.Active? ==>
              var live := query.info;
              && (cursor.journalId != bound.journalId ==> ans == Reset)
              && (live.id != bound.journalId ==> ans == Reset)
              && (cursor.nextUsn < live.firstUsn ==> ans == Reset)
              && (cursor.nextUsn > bound.nextUsn ==> ans == Reset)
              && (cursor.nextUsn % 8 != 0 || cursor.nextUsn < 0 ==> ans == Reset)
  {
    if bound == ZERO {
      return Reset;
    }
    if !snapshotOpens || !liveOpens {
      return Failure;
    }
    if query.NotActive? {
      return Reset;
    }
    if query.QueryFailed? {
      return Failure;
    }
    var live := query.info;
    if cursor.journalId != bound.journalId {
      return Reset;
    } else if live.id != bound.journalId {
      return Reset;
    } else if cursor.nextUsn < live.firstUsn {
      return Reset;
    } else if cursor.nextUsn > bound.nextUsn {
      return Reset;
    } else if cursor.nextUsn % 8 != 0 || cursor.nextUsn < 0 {
      return Reset;
    }
    var scanner := new Scanner();
    var r := scanner.Scan(dev, cancelled, cursor.nextUsn, bound.nextUsn);
    if !r.Scanned? {
      return AnswerOf(r);
    }
    var changes := ResolveAll(r.byId, vol);
    return Changes(changes, bound);
  }

  /** Reading the change set against the journal: what an answer that is not an error means. */
  ghost predicate Explains(changes: seq<Change>, journal: seq<Record>, lo: int, hi: int, vol: Volume) {
    exists m: Table :: Fold(map[], Window(journal, lo, hi)) == Some(m) && Lists(changes, m.Keys, m, vol)
  }

  /**
    A file is in the change set exactly if the journal has a record of it between the two cursors; it is
    reported deleted exactly if the snapshot does not have it.
   */
  lemma ChangesAreTheWindowsFiles(changes: seq<Change>, journal: seq<Record>, lo: int, hi: int, vol: Volume, id: nat)
    requires Explains(changes, journal, lo, hi, vol)
    ensures HasChange(changes, id) <==> id in Ids(Window(journal, lo, hi))
    ensures forall i :: 0 <= i < |changes| ==> (changes[i].deleted <==> vol(changes[i].fileId).None?)
  {
    var w := Window(journal, lo, hi);
    var m: Table :| Fold(map[], w) == Some(m) && Lists(changes, m.Keys, m, vol);
    OverflowIffTooManyFiles(w);
    assert id in m <==> id in m.Keys;
  }

  /** Against an honest device, what the scan hands to the resolver explains the journal between the cursors. */
  lemma ScannedChangesExplain(dev: Device, cancelled: nat -> bool, journal: seq<Record>, lo: int, hi: int,
                              changes: seq<Change>, vol: Volume)
    requires Honest(dev, journal, hi) && lo <= hi
    requires var r := ScanFrom(dev, cancelled, 0, lo, hi, map[]); r.Scanned? && Lists(changes, r.byId.Keys, r.byId, vol)
    ensures Explains(changes, journal, lo, hi, vol)
  {
    ScanIsOneFold(dev, cancelled, journal, 0, lo, hi, map[]);
  }

  /** The change reports what its file's newest record says, and every reason some record of it has. */
  ghost predicate Reports(c: Change, w: seq<Record>) {
    && (exists n: nat :: Newest(w, n, c.fileId) && c.name == w[n].name && c.parentId == w[n].parentId
                         && c.lastUsn == w[n].usn && (c.isDir <==> Bit(w[n].attributes, 4)))
    && forall k: nat :: Bit(c.reasons, k) <==> SomeBit(w, c.fileId, k)
  }

  /** The path is the snapshot's; failing that, the parent's with the last name; failing both, unknown. */
  predicate Located(c: Change, vol: Volume) {
    match vol(c.fileId)
    case Some(path) => !c.deleted && c.pathKnown && c.path == path
    case None =>
      && c.deleted && (c.pathKnown <==> vol(c.parentId).Some?)
      && (c.pathKnown ==>
            var parent := vol(c.parentId).value;
            c.path == if parent == [] then c.name else parent + [0x5C] + c.name)
  }

  lemma ChangesReportTheWindow(changes: seq<Change>, journal: seq<Record>, lo: int, hi: int, vol: Volume, i: nat)
    requires Explains(changes, journal, lo, hi, vol) && i < |changes|
    ensures Reports(changes[i], Window(journal, lo, hi)) && Located(changes[i], vol)
  {
    var w := Window(journal, lo, hi);
    var m: Table :| Fold(map[], w) == Some(m) && Lists(changes, m.Keys, m, vol);
    FoldMeans(w);
    SummaryIsReported(m[changes[i].fileId], w, vol, changes[i].fileId);
  }

  lemma SummaryIsReported(a: Agg, w: seq<Record>, vol: Volume, id: nat)
    requires Summarizes(a, w, id)
    ensures Reports(ChangeOf(vol, id, a), w) && Located(ChangeOf(vol, id, a), vol)
  {
  }
}
