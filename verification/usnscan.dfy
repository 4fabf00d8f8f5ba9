/**
  Aggregating the change journal (usn_windows.go, `USNChangesSince`): one entry per file, folded from
  the records of one reply after another.
 */
module UsnScan {
  import opened Options
  import opened UsnRecord

  // ---- Reason bits.

  predicate Bit(x: nat, k: nat) {
    if k == 0 then x % 2 == 1 else Bit(x / 2, k - 1)
  }

  /** Bitwise or. */
  function Or(a: nat, b: nat): nat {
    if a == 0 then b
    else (if a % 2 == 1 || b % 2 == 1 then 1 else 0) + 2 * Or(a / 2, b / 2)
  }

  lemma {:induction false} OrBit(a: nat, b: nat, k: nat)
    ensures Bit(Or(a, b), k) <==> Bit(a, k) || Bit(b, k)
    decreases k
  {
    if a == 0 {
      ZeroHasNoBit(k);
    } else if k > 0 {
      OrBit(a / 2, b / 2, k - 1);
      assert Or(a, b) / 2 == Or(a / 2, b / 2);
    }
  }

  lemma {:induction false} ZeroHasNoBit(k: nat)
    ensures !Bit(0, k)
  {
    if k > 0 { ZeroHasNoBit(k - 1); }
  }

  // ---- One entry per file.

  datatype Agg = Agg(name: seq<nat>, parentId: nat, reasons: nat, attributes: nat, lastUsn: int)

  type Table = map<nat, Agg>

  /** `maxUSNChanges`. */
  const MAX_CHANGES: nat := 0x10_0000

  /** The entry's view of the file is the record's; its reasons accumulate. */
  function Ingest(m: Table, r: Record): Table {
    var before := if r.fileId in m then m[r.fileId].reasons else 0;
    m[r.fileId := Agg(r.name, r.parentId, Or(before, r.reason), r.attributes, r.usn)]
  }

  /** Folding records into a table; `None` when a new file would exceed the limit. */
  function Fold(m: Table, recs: seq<Record>): Option<Table>
    decreases |recs|
  {
    if recs == [] then Some(m)
    else if recs[0].fileId !in m && |m| >= MAX_CHANGES then None
    else Fold(Ingest(m, recs[0]), recs[1..])
  }

  lemma {:induction false} FoldConcat(m: Table, a: seq<Record>, b: seq<Record>)
    ensures Fold(m, a + b) == match Fold(m, a) case None => None case Some(m') => Fold(m', b)
    decreases |a|
  {
    if a == [] {
      assert a + b == b;
    } else {
      assert (a + b)[1..] == a[1..] + b;
      FoldConcat(Ingest(m, a[0]), a[1..], b);
    }
  }

  function Ids(recs: seq<Record>): set<nat> {
    set i | 0 <= i < |recs| :: recs[i].fileId
  }

  lemma SubsetSize<T>(a: set<T>, b: set<T>)
    requires a <= b
    ensures |a| <= |b|
  {
    assert b == a + (b - a);
  }

  lemma IdsHead(recs: seq<Record>)
    requires recs != []
    ensures Ids(recs) == {recs[0].fileId} + Ids(recs[1..])
  {
    assert forall i :: 0 < i < |recs| ==> recs[i] == recs[1..][i - 1];
    assert forall i :: 0 <= i < |recs[1..]| ==> recs[1..][i] == recs[i + 1];
  }

  lemma IngestKeys(m: Table, r: Record)
    ensures Ingest(m, r).Keys == m.Keys + {r.fileId}
    ensures |Ingest(m, r)| == |m| + if r.fileId in m then 0 else 1
    ensures |Ingest(m, r).Keys| == |Ingest(m, r)| && |m.Keys| == |m|
  {
    var m' := Ingest(m, r);
    assert m'.Keys == m.Keys + {r.fileId};
    if r.fileId in m {
      assert m'.Keys == m.Keys;
    }
  }

  lemma {:induction false} FoldKeys(m: Table, recs: seq<Record>)
    requires |m| <= MAX_CHANGES && Fold(m, recs).Some?
    ensures Fold(m, recs).value.Keys == m.Keys + Ids(recs) && |Fold(m, recs).value| <= MAX_CHANGES
    decreases |recs|
  {
    if recs != [] {
      IdsHead(recs);
      IngestKeys(m, recs[0]);
      FoldKeys(Ingest(m, recs[0]), recs[1..]);
    } else {
      assert m.Keys + Ids(recs) == m.Keys;
    }
  }

  lemma FullTable(m: Table, id: nat, all: set<nat>)
    requires |m| >= MAX_CHANGES && id !in m && m.Keys <= all && id in all
    ensures |all| > MAX_CHANGES
  {
    assert |m.Keys + {id}| == |m.Keys| + 1 && |m.Keys| == |m|;
    SubsetSize(m.Keys + {id}, all);
  }

  lemma {:induction false} FoldGivesUp(m: Table, recs: seq<Record>, all: set<nat>)
    requires Fold(m, recs).None?
    requires m.Keys <= all && forall i :: 0 <= i < |recs| ==> recs[i].fileId in all
    ensures |all| > MAX_CHANGES
    decreases |recs|
  {
    var id := recs[0].fileId;
    if id !in m && |m| >= MAX_CHANGES {
      FullTable(m, id, all);
    } else {
      assert Ingest(m, recs[0]).Keys == m.Keys + {id};
      FoldGivesUp(Ingest(m, recs[0]), recs[1..], all);
    }
  }

  /** The limit is on distinct files: the fold gives up exactly when there are more than it allows. */
  lemma OverflowIffTooManyFiles(recs: seq<Record>)
    ensures Fold(map[], recs).None? <==> |Ids(recs)| > MAX_CHANGES
    ensures Fold(map[], recs).Some? ==> Fold(map[], recs).value.Keys == Ids(recs)
  {
    var none: Table := map[];
    assert none.Keys + Ids(recs) == Ids(recs);
    if Fold(none, recs).None? {
      FoldGivesUp(none, recs, Ids(recs));
    } else {
      FoldKeys(none, recs);
      assert |Fold(none, recs).value.Keys| == |Fold(none, recs).value|;
    }
  }

  /** `i` is the newest record of the file. */
  ghost predicate Newest(recs: seq<Record>, i: nat, id: nat) {
    i < |recs| && recs[i].fileId == id && forall j :: i < j < |recs| ==> recs[j].fileId != id
  }

  /** An entry is what its newest record says, with a reason bit iff some record of the file has it. */
  ghost predicate Summarizes(a: Agg, recs: seq<Record>, id: nat) {
    && (exists i: nat :: Newest(recs, i, id) && a.name == recs[i].name && a.parentId == recs[i].parentId
                         && a.attributes == recs[i].attributes && a.lastUsn == recs[i].usn)
    && (forall k: nat :: Bit(a.reasons, k) <==> SomeBit(recs, id, k))
  }

  ghost predicate SomeBit(recs: seq<Record>, id: nat, k: nat) {
    exists i :: 0 <= i < |recs| && recs[i].fileId == id && Bit(recs[i].reason, k)
  }

  ghost predicate Means(m: Table, recs: seq<Record>) {
    m.Keys == Ids(recs) && forall id :: id in m ==> Summarizes(m[id], recs, id)
  }

  lemma SomeBitSnoc(recs: seq<Record>, r: Record, id: nat, k: nat)
    ensures SomeBit(recs + [r], id, k) <==> SomeBit(recs, id, k) || (r.fileId == id && Bit(r.reason, k))
  {
    var all := recs + [r];
    assert forall i :: 0 <= i < |recs| ==> all[i] == recs[i];
    assert all[|recs|] == r;
  }

  lemma IdsSnoc(recs: seq<Record>, r: Record)
    ensures Ids(recs + [r]) == Ids(recs) + {r.fileId}
  {
    var all := recs + [r];
    assert forall i :: 0 <= i < |recs| ==> all[i] == recs[i];
    assert all[|recs|] == r;
  }

  lemma OtherFilesKeepTheirSummary(a: Agg, recs: seq<Record>, r: Record, id: nat)
    requires Summarizes(a, recs, id) && r.fileId != id
    ensures Summarizes(a, recs + [r], id)
  {
    var all := recs + [r];
    var i: nat :| Newest(recs, i, id) && a.name == recs[i].name && a.parentId == recs[i].parentId
                  && a.attributes == recs[i].attributes && a.lastUsn == recs[i].usn;
    assert all[i] == recs[i] && Newest(all, i, id);
    forall k: nat ensures Bit(a.reasons, k) <==> SomeBit(all, id, k) {
      SomeBitSnoc(recs, r, id, k);
    }
  }

  lemma IngestMeans(m: Table, recs: seq<Record>, r: Record)
    requires Means(m, recs)
    ensures Means(Ingest(m, r), recs + [r])
  {
    var all, m' := recs + [r], Ingest(m, r);
    IdsSnoc(recs, r);
    forall id | id in m' ensures Summarizes(m'[id], all, id) {
      if id != r.fileId {
        OtherFilesKeepTheirSummary(m[id], recs, r, id);
      } else {
        assert all[|recs|] == r && Newest(all, |recs|, id);
        var before := if id in m then m[id].reasons else 0;
        forall k: nat ensures Bit(m'[id].reasons, k) <==> SomeBit(all, id, k) {
          OrBit(before, r.reason, k);
          SomeBitSnoc(recs, r, id, k);
          ZeroHasNoBit(k);
          assert id !in m ==> !SomeBit(recs, id, k);
        }
      }
    }
  }

  lemma {:induction false} FoldMeansFrom(m: Table, seen: seq<Record>, recs: seq<Record>)
    requires Means(m, seen) && Fold(m, recs).Some?
    ensures Means(Fold(m, recs).value, seen + recs)
    decreases |recs|
  {
    if recs == [] {
      assert seen + recs == seen;
    } else {
      IngestMeans(m, seen, recs[0]);
      FoldMeansFrom(Ingest(m, recs[0]), seen + [recs[0]], recs[1..]);
      assert seen + [recs[0]] + recs[1..] == seen + recs;
    }
  }

  /** What the aggregated table says about the records. */
  lemma FoldMeans(recs: seq<Record>)
    requires Fold(map[], recs).Some?
    ensures Means(Fold(map[], recs).value, recs)
  {
    assert Means(map[], []);
    FoldMeansFrom(map[], [], recs);
    assert [] + recs == recs;
  }

  // ---- The batch loop.

  /** The 64 KiB reply buffer. */
  const BUFFER: nat := 0x1_0000

  datatype RawReply = Read(bytes: seq<byte>) | Purged | Failed

  type Reply = r: RawReply | r.Read? ==> |r.bytes| <= BUFFER witness Failed

  /** The answer to the `k`-th read, which asks for records from a position on. */
  type Device = (nat, int) -> Reply

  datatype Scanned = Scanned(byId: Table) | JournalReset | TooMany | IoError | Cancelled

  /** The position to ask for next, unless the scan is over. */
  function NextStart(start: int, next: int, bound: int, stop: Stop): Option<int> {
    if next <= start || next >= bound || stop.PastBound? then None else Some(next)
  }

  function ReplyPosition(bytes: seq<byte>): int
    requires |bytes| >= 8
  {
    Signed(FromLE(bytes[..8]))
  }

  function ScanFrom(dev: Device, cancelled: nat -> bool, k: nat, start: int, bound: int, m: Table): Scanned
    decreases bound - start
  {
    if cancelled(k) then Cancelled
    else
      match dev(k, start)
      case Purged => JournalReset
      case Failed => IoError
      case Read(bytes) =>
        if |bytes| < 8 then Scanned(m)
        else
          var p := Parse(Lookup(bytes, bound), |bytes|, 8);
          match Fold(m, p.recs)
          case None => TooMany
          case Some(m') =>
            if p.stop.Malformed? then JournalReset
            else
              match NextStart(start, ReplyPosition(bytes), bound, p.stop)
              case None => Scanned(m')
              case Some(next) => ScanFrom(dev, cancelled, k + 1, next, bound, m')
  }

  /** What reading one reply does to a table: its records folded in, or too many files. */
  ghost predicate BatchRead(before: Table, p: Parsed, stop: Option<Stop>, after: Table) {
    match Fold(before, p.recs)
    case None => stop.None?
    case Some(m) => stop == Some(p.stop) && after == m
  }

  lemma BatchStep(m: Table, p: Parsed, r: Record, rest: Parsed)
    requires p == Parsed([r] + rest.recs, rest.stop) && (r.fileId in m || |m| < MAX_CHANGES)
    ensures forall stop, after :: BatchRead(Ingest(m, r), rest, stop, after) ==> BatchRead(m, p, stop, after)
  {
    assert p.recs[1..] == rest.recs;
  }

  class Scanner {
    const buf: array<byte>
    var byId: Table

    constructor ()
      ensures byId == map[] && buf.Length == BUFFER && fresh(buf)
    {
      buf := new byte[BUFFER](_ => 0);
      byId := map[];
    }

    /** `DeviceIoControl`: the reply overwrites the front of the buffer. */
    method Fill(bytes: seq<byte>)
      requires |bytes| <= buf.Length
      modifies buf
      ensures buf[..|bytes|] == bytes
    {
      forall i | 0 <= i < |bytes| {
        buf[i] := bytes[i];
      }
    }

    /** The inner loop: decode records and fold them into `byId`.  `None` when there are too many files. */
    method ReadRecords(ret: nat, bound: int) returns (stop: Option<Stop>)
      requires 8 <= ret <= buf.Length
      modifies this`byId
      ensures BatchRead(old(byId), Parse(Lookup(buf[..ret], bound), ret, 8), stop, byId)
    {
      stop := ReadWith(Lookup(buf[..ret], bound), ret);
    }

    method ReadWith(look: Looker, ret: nat) returns (stop: Option<Stop>)
      requires 8 <= ret && forall o: nat :: look(o).Rec? ==> look(o).length > 0
      modifies this`byId
      ensures BatchRead(old(byId), Parse(look, ret, 8), stop, byId)
    {
      ghost var start := byId;
      var off := 8;
      while off + HEADER <= ret
        invariant 8 <= off
        invariant forall s, m :: BatchRead(byId, Parse(look, ret, off), s, m) ==>
                                 BatchRead(start, Parse(look, ret, 8), s, m)
        decreases ret - off
      {
        match look(off) {
          case Broken(fault) =>
            assert BatchRead(byId, Parse(look, ret, off), Some(Malformed(fault)), byId);
            return Some(Malformed(fault));
          case Beyond =>
            assert BatchRead(byId, Parse(look, ret, off), Some(PastBound), byId);
            return Some(PastBound);
          case Rec(rec, length) =>
            ParseStep(look, ret, off, rec, length);
            if rec.fileId !in byId && |byId| >= MAX_CHANGES {
              assert BatchRead(byId, Parse(look, ret, off), None, byId);
              return None;
            }
            BatchStep(byId, Parse(look, ret, off), rec, Parse(look, ret, off + length));
            byId := Ingest(byId, rec);
            off := off + length;
        }
      }
      assert BatchRead(byId, Parse(look, ret, off), Some(Drained), byId);
      return Some(Drained);
    }

    /** The outer loop. */
    method Scan(dev: Device, cancelled: nat -> bool, cursor: int, bound: int) returns (r: Scanned)
      requires buf.Length == BUFFER
      modifies this`byId, buf
      ensures r == ScanFrom(dev, cancelled, 0, cursor, bound, map[])
    {
      byId := map[];
      var startUsn, done, k := cursor, false, 0;
      while !done
        invariant ScanFrom(dev, cancelled, 0, cursor, bound, map[]) ==
                  if done then Scanned(byId) else ScanFrom(dev, cancelled, k, startUsn, bound, byId)
        decreases !done, bound - startUsn
      {
        if cancelled(k) {
          return Cancelled;
        }
        var reply := dev(k, startUsn);
        if reply.Purged? {
          return JournalReset;
        }
        if reply.Failed? {
          return IoError;
        }
        var ret := |reply.bytes|;
        Fill(reply.bytes);
        if ret < 8 {
          break;
        }
        var nextStart := ReplyPosition(buf[..ret]);
        var stop := ReadRecords(ret, bound);
        if stop.None? {
          return TooMany;
        }
        if stop.value.Malformed? {
          return JournalReset;
        }
        done := stop.value.PastBound?;
        if nextStart <= startUsn {
          break;
        }
        startUsn := nextStart;
        if nextStart >= bound {
          break;
        }
        k := k + 1;
      }
      return Scanned(byId);
    }
  }
}
