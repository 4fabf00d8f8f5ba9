/**
  What any journal device, honest or not, makes of a scan: the replies it was given, one after another,
  and which of them decided it.
 */
module UsnReplies {
  import opened Options
  import opened UsnRecord
  import opened UsnScan

  /** A reply that can be used: a read whose records all pass their checks. */
  predicate Clean(reply: Reply, bound: int) {
    reply.Read? && (|reply.bytes| < 8 || !Parse(Lookup(reply.bytes, bound), |reply.bytes|, 8).stop.Malformed?)
  }

  /** The records a reply gives before its end, the bound, or the first that fails a check. */
  function RecordsOf(reply: Reply, bound: int): seq<Record> {
    if reply.Read? && |reply.bytes| >= 8 then Parse(Lookup(reply.bytes, bound), |reply.bytes|, 8).recs else []
  }

  /** A clean reply after which the scan goes on, and from where: the position it names, if that is progress. */
  predicate LeadsTo(reply: Reply, start: int, bound: int, next: int) {
    && Clean(reply, bound) && |reply.bytes| >= 8
    && next == ReplyPosition(reply.bytes) && start < next < bound
    && Parse(Lookup(reply.bytes, bound), |reply.bytes|, 8).stop.Drained?
  }

  /** The scan asks for these positions in turn, each but the first named by the reply before it. */
  ghost predicate Asked(dev: Device, cancelled: nat -> bool, k: nat, bound: int, starts: seq<int>) {
    && starts != []
    && forall i :: 0 <= i < |starts| - 1 ==> AskedAt(dev, cancelled, k, bound, starts, i)
  }

  predicate AskedAt(dev: Device, cancelled: nat -> bool, k: nat, bound: int, starts: seq<int>, i: nat)
    requires i + 1 < |starts|
  {
    !cancelled(k + i) && LeadsTo(dev(k + i, starts[i]), starts[i], bound, starts[i + 1])
  }

  /** The records of the replies to these requests, in order. */
  function AllRecords(dev: Device, k: nat, bound: int, starts: seq<int>): seq<Record>
    decreases |starts|
  {
    if starts == [] then [] else RecordsOf(dev(k, starts[0]), bound) + AllRecords(dev, k + 1, bound, starts[1..])
  }

  /** The verdict of the last reply on a scan whose earlier replies were clean; `folded` is what all records fold to. */
  ghost predicate Decided(reply: Reply, stopped: bool, start: int, bound: int, folded: Option<Table>, r: Scanned) {
    if stopped then r.Cancelled?
    else if reply.Purged? then r.JournalReset?
    else if reply.Failed? then r.IoError?
    else if folded.None? then r.TooMany?
    else if !Clean(reply, bound) then r.JournalReset?
    else
      && r.Scanned? && folded == Some(r.byId)
      && !exists next :: LeadsTo(reply, start, bound, next)
  }

  /** All that a scan does, whatever the device says. */
  ghost predicate Explained(dev: Device, cancelled: nat -> bool, k: nat, bound: int, m: Table, starts: seq<int>,
                            r: Scanned)
    requires starts != []
  {
    var n := |starts| - 1;
    && Asked(dev, cancelled, k, bound, starts)
    && Fold(m, AllRecords(dev, k, bound, starts[..n])).Some?
    && DecidedAt(dev, cancelled, k + n, starts[n], bound, Fold(m, AllRecords(dev, k, bound, starts)), r)
  }

  ghost predicate DecidedAt(dev: Device, cancelled: nat -> bool, k: nat, start: int, bound: int,
                            folded: Option<Table>, r: Scanned) {
    Decided(dev(k, start), cancelled(k), start, bound, folded, r)
  }

  lemma ExplainedLater(dev: Device, cancelled: nat -> bool, k: nat, start: int, bound: int, m: Table, m': Table,
                       starts: seq<int>, r: Scanned)
    requires starts != [] && !cancelled(k) && LeadsTo(dev(k, start), start, bound, starts[0])
    requires Fold(m, RecordsOf(dev(k, start), bound)) == Some(m')
    requires Explained(dev, cancelled, k + 1, bound, m', starts, r)
    ensures Explained(dev, cancelled, k, bound, m, [start] + starts, r)
  {
    var n := |starts|;
    AskedLater(dev, cancelled, k, start, bound, starts);
    MoreRecords(dev, k, start, bound, m, m', starts[..n - 1]);
    MoreRecords(dev, k, start, bound, m, m', starts);
    assert ([start] + starts)[..n] == [start] + starts[..n - 1];
    assert ([start] + starts)[n] == starts[n - 1];
    assert DecidedAt(dev, cancelled, k + n, starts[n - 1], bound, Fold(m', AllRecords(dev, k + 1, bound, starts)), r);
  }

  lemma AskedLater(dev: Device, cancelled: nat -> bool, k: nat, start: int, bound: int, starts: seq<int>)
    requires starts != [] && !cancelled(k) && LeadsTo(dev(k, start), start, bound, starts[0])
    requires Asked(dev, cancelled, k + 1, bound, starts)
    ensures Asked(dev, cancelled, k, bound, [start] + starts)
  {
    forall i | 0 <= i < |starts| ensures AskedAt(dev, cancelled, k, bound, [start] + starts, i) {
      if i > 0 {
        assert AskedAt(dev, cancelled, k + 1, bound, starts, i - 1);
      }
    }
  }

  /** Folding what a reply gives, and then what later ones do, is folding all of it. */
  lemma MoreRecords(dev: Device, k: nat, start: int, bound: int, m: Table, m': Table, starts: seq<int>)
    requires Fold(m, RecordsOf(dev(k, start), bound)) == Some(m')
    ensures Fold(m, AllRecords(dev, k, bound, [start] + starts)) == Fold(m', AllRecords(dev, k + 1, bound, starts))
  {
    assert ([start] + starts)[1..] == starts;
    FoldConcat(m, RecordsOf(dev(k, start), bound), AllRecords(dev, k + 1, bound, starts));
  }

  /**
    For any device: every reply but the last is clean and names a later start.  The last one decides:
    a purge or a reply with a malformed record is a reset, a failed read an error, and only a clean one
    gives a table, which is the fold of all records of all replies.
   */
  lemma {:induction false} ScanExplained(dev: Device, cancelled: nat -> bool, k: nat, start: int, bound: int, m: Table)
    returns (starts: seq<int>)
    ensures starts != [] && starts[0] == start
    ensures Explained(dev, cancelled, k, bound, m, starts, ScanFrom(dev, cancelled, k, start, bound, m))
    decreases bound - start
  {
    var reply := dev(k, start);
    starts := [start];
    if !cancelled(k) && Clean(reply, bound) && |reply.bytes| >= 8 {
      var p := Parse(Lookup(reply.bytes, bound), |reply.bytes|, 8);
      var next := ReplyPosition(reply.bytes);
      if Fold(m, p.recs).Some? && start < next < bound && p.stop.Drained? {
        var later := ScanExplained(dev, cancelled, k + 1, next, bound, Fold(m, p.recs).value);
        ExplainedLater(dev, cancelled, k, start, bound, m, Fold(m, p.recs).value, later,
                       ScanFrom(dev, cancelled, k, start, bound, m));
        starts := [start] + later;
        return;
      }
    }
    OneReply(dev, cancelled, k, start, bound, m);
  }

  lemma OneReply(dev: Device, cancelled: nat -> bool, k: nat, start: int, bound: int, m: Table)
    requires cancelled(k) || Fold(m, RecordsOf(dev(k, start), bound)).None?
             || forall next :: !LeadsTo(dev(k, start), start, bound, next)
    ensures Explained(dev, cancelled, k, bound, m, [start], ScanFrom(dev, cancelled, k, start, bound, m))
  {
    var recs := RecordsOf(dev(k, start), bound);
    assert [start][..0] == [] && [start][1..] == [];
    assert AllRecords(dev, k + 1, bound, []) == [];
    assert AllRecords(dev, k, bound, [start]) == recs + [] == recs;
    assert Fold(m, []) == Some(m);
    if !cancelled(k) && Clean(dev(k, start), bound) && |dev(k, start).bytes| >= 8 {
      var bytes := dev(k, start).bytes;
      var next, p := ReplyPosition(bytes), Parse(Lookup(bytes, bound), |bytes|, 8);
      assert LeadsTo(dev(k, start), start, bound, next) || Fold(m, recs).None?
        || NextStart(start, next, bound, p.stop).None?;
    }
  }
}
