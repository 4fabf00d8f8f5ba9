/**
  Cluster runs, byte extents, and reading them in rounds (extents.go; extents_windows.go,
  `fileExtentsUnder`).
 */
module Extents {
  import opened Options

  datatype VcnRun = VcnRun(nextVCN: int, lcn: int)
  datatype Extent = Extent(fileOffset: int, volumeOffset: int, length: int)

  datatype Fault = NonMonotonicVCN | BadClusterSize
  datatype Mapped = Mapped(out: seq<Extent>, next: int, fault: Option<Fault>)

  const TWO63: int := 0x8000_0000_0000_0000

  /** Arithmetic of the source's `int64`. */
  function Wrap(x: int): int {
    (x + TWO63) % (2 * TWO63) - TWO63
  }

  function RunExtent(prev: int, r: VcnRun, cs: int): Extent {
    Extent(Wrap(prev * cs), Wrap(r.lcn * cs), Wrap(Wrap(r.nextVCN - prev) * cs))
  }

  function MapRuns(out: seq<Extent>, prev: int, runs: seq<VcnRun>, cs: int): Mapped
    decreases |runs|
  {
    if runs == [] then Mapped(out, prev, None)
    else if runs[0].nextVCN <= prev then Mapped(out, prev, Some(NonMonotonicVCN))
    else
      var more := if runs[0].lcn >= 0 then [RunExtent(prev, runs[0], cs)] else [];
      MapRuns(out + more, runs[0].nextVCN, runs[1..], cs)
  }

  function AppendRuns(out: seq<Extent>, prev: int, runs: seq<VcnRun>, cs: int): Mapped {
    if cs <= 0 then Mapped(out, prev, Some(BadClusterSize)) else MapRuns(out, prev, runs, cs)
  }

  method AppendRunsLoop(before: seq<Extent>, startVCN: int, runs: seq<VcnRun>, clusterSize: int)
    returns (out: seq<Extent>, prevVCN: int, fault: Option<Fault>)
    ensures Mapped(out, prevVCN, fault) == AppendRuns(before, startVCN, runs, clusterSize)
  {
    out, prevVCN := before, startVCN;
    if clusterSize <= 0 {
      return out, prevVCN, Some(BadClusterSize);
    }
    assert runs[0..] == runs;
    for i := 0 to |runs|
      invariant AppendRuns(before, startVCN, runs, clusterSize) == MapRuns(out, prevVCN, runs[i..], clusterSize)
    {
      var r := runs[i];
      assert runs[i..][0] == r && runs[i..][1..] == runs[i + 1..];
      if r.nextVCN <= prevVCN {
        return out, prevVCN, Some(NonMonotonicVCN);
      }
      if r.lcn >= 0 {
        out := out + [RunExtent(prevVCN, r, clusterSize)];
      } else {
        assert out + [] == out;
      }
      prevVCN := r.nextVCN;
    }
    return out, prevVCN, None;
  }

  // ---- Rounds compose.

  /** The first cluster of the `i`-th run; one past the last run, the end of them all. */
  function Start(prev: int, runs: seq<VcnRun>, i: nat): int
    requires i <= |runs|
  {
    if i == 0 then prev else runs[i - 1].nextVCN
  }

  ghost predicate Ascending(prev: int, runs: seq<VcnRun>) {
    forall i :: 0 <= i < |runs| ==> Start(prev, runs, i) < runs[i].nextVCN
  }

  lemma {:induction false} RoundsCompose(out: seq<Extent>, prev: int, a: seq<VcnRun>, b: seq<VcnRun>, cs: int)
    ensures var first := MapRuns(out, prev, a, cs);
            MapRuns(out, prev, a + b, cs) ==
            if first.fault.Some? then first else MapRuns(first.out, first.next, b, cs)
    decreases |a|
  {
    if a == [] {
      assert a + b == b;
    } else {
      assert (a + b)[1..] == a[1..] + b;
      if a[0].nextVCN > prev {
        var more := if a[0].lcn >= 0 then [RunExtent(prev, a[0], cs)] else [];
        RoundsCompose(out + more, a[0].nextVCN, a[1..], b, cs);
      }
    }
  }

  /** The mapping fails exactly on runs that do not ascend; otherwise it ends at the last run's end. */
  lemma {:induction false} FaultIffNotAscending(out: seq<Extent>, prev: int, runs: seq<VcnRun>, cs: int)
    ensures MapRuns(out, prev, runs, cs).fault == if Ascending(prev, runs) then None else Some(NonMonotonicVCN)
    ensures Ascending(prev, runs) ==> MapRuns(out, prev, runs, cs).next == Start(prev, runs, |runs|)
    decreases |runs|
  {
    if runs != [] {
      AscendingTail(prev, runs);
    }
    if runs != [] && runs[0].nextVCN > prev {
      var more := if runs[0].lcn >= 0 then [RunExtent(prev, runs[0], cs)] else [];
      FaultIffNotAscending(out + more, runs[0].nextVCN, runs[1..], cs);
    }
  }

  lemma AscendingTail(prev: int, runs: seq<VcnRun>)
    requires runs != []
    ensures Ascending(prev, runs) <==> prev < runs[0].nextVCN && Ascending(runs[0].nextVCN, runs[1..])
  {
    var tail := runs[1..];
    assert forall i :: 0 <= i < |tail| ==> Start(runs[0].nextVCN, tail, i) == Start(prev, runs, i + 1);
    if Ascending(prev, runs) {
      assert Start(prev, runs, 0) == prev;
      forall i | 0 <= i < |tail| ensures Start(runs[0].nextVCN, tail, i) < tail[i].nextVCN {
        assert Start(prev, runs, i + 1) < runs[i + 1].nextVCN;
      }
    } else {
      var i :| 0 <= i < |runs| && Start(prev, runs, i) >= runs[i].nextVCN;
      if i > 0 {
        assert Start(runs[0].nextVCN, tail, i - 1) >= tail[i - 1].nextVCN;
      }
    }
  }

  lemma {:induction false} MapRunsAppends(out: seq<Extent>, prev: int, runs: seq<VcnRun>, cs: int)
    ensures MapRuns(out, prev, runs, cs).out == out + MapRuns([], prev, runs, cs).out
    decreases |runs|
  {
    if runs == [] || runs[0].nextVCN <= prev {
      assert out + [] == out;
    } else {
      var more := if runs[0].lcn >= 0 then [RunExtent(prev, runs[0], cs)] else [];
      MapRunsAppends(out + more, runs[0].nextVCN, runs[1..], cs);
      MapRunsAppends([] + more, runs[0].nextVCN, runs[1..], cs);
      assert [] + more == more;
      var rest := MapRuns([], runs[0].nextVCN, runs[1..], cs).out;
      assert out + more + rest == out + (more + rest);
    }
  }

  // ---- Where every byte lies.

  /** The volume cluster that holds the file's cluster `v`, if any; `runs` start at cluster `prev`. */
  function ClusterOf(prev: int, runs: seq<VcnRun>, v: int): Option<int>
    decreases |runs|
  {
    if runs == [] then None
    else if v < runs[0].nextVCN then
      if runs[0].lcn >= 0 then Some(runs[0].lcn + (v - prev)) else None
    else ClusterOf(runs[0].nextVCN, runs[1..], v)
  }

  /** Every byte of the file that the runs speak of has an `int64` offset, and so has each run's place on the volume. */
  ghost predicate InRange(prev: int, runs: seq<VcnRun>, cs: int) {
    && 0 <= prev
    && forall i :: 0 <= i < |runs| ==>
         && runs[i].nextVCN * cs < TWO63
         && runs[i].lcn * cs < TWO63
  }

  predicate Covers(e: Extent, b: int) {
    e.fileOffset <= b < e.fileOffset + e.length
  }

  lemma Distribute(a: int, b: int, cs: int)
    ensures (b - a) * cs == b * cs - a * cs
  {
  }

  lemma NonNegative(x: int, y: int)
    requires x >= 0 && y >= 0
    ensures x * y >= 0
  {
  }

  lemma Scale(a: int, b: int, cs: int)
    requires cs > 0 && a <= b
    ensures a * cs <= b * cs && (a < b ==> a * cs + cs <= b * cs)
    ensures (b - a) * cs == b * cs - a * cs
  {
    Distribute(a, b, cs);
    NonNegative(b - a, cs);
    if a < b {
      Distribute(a + 1, b, cs);
      Distribute(-1, a, cs);
      NonNegative(b - (a + 1), cs);
    }
  }

  /** Within range nothing wraps around. */
  lemma ExactExtent(prev: int, r: VcnRun, cs: int)
    requires cs > 0 && 0 <= prev < r.nextVCN && r.lcn >= 0
    requires r.nextVCN * cs < TWO63 && r.lcn * cs < TWO63
    ensures RunExtent(prev, r, cs) == Extent(prev * cs, r.lcn * cs, r.nextVCN * cs - prev * cs)
    ensures 0 <= prev * cs < r.nextVCN * cs && 0 <= r.lcn * cs
  {
    Scale(0, prev, cs);
    Scale(prev, r.nextVCN, cs);
    Scale(0, r.lcn, cs);
    Scale(1, cs, r.nextVCN - prev);
    NoWrap(prev * cs);
    NoWrap(r.lcn * cs);
    NoWrap(r.nextVCN - prev);
    NoWrap((r.nextVCN - prev) * cs);
  }

  lemma NoWrap(x: int)
    requires -TWO63 <= x < TWO63
    ensures Wrap(x) == x
  {
  }

  /** In file order, one extent after another, none reaching back before `from`. */
  ghost predicate Disjoint(from: int, es: seq<Extent>) {
    && (forall i :: 0 <= i < |es| ==> from <= es[i].fileOffset && 0 < es[i].length)
    && (forall i, j :: 0 <= i < j < |es| ==> es[i].fileOffset + es[i].length <= es[j].fileOffset)
  }

  function FirstExtent(prev: int, r: VcnRun, cs: int): seq<Extent> {
    if r.lcn >= 0 then [Extent(prev * cs, r.lcn * cs, r.nextVCN * cs - prev * cs)] else []
  }

  /** The mapping one run at a time, in exact arithmetic. */
  lemma MapStep(prev: int, runs: seq<VcnRun>, cs: int)
    requires cs > 0 && Ascending(prev, runs) && InRange(prev, runs, cs) && runs != []
    ensures prev < runs[0].nextVCN && 0 <= prev * cs < runs[0].nextVCN * cs
    ensures Ascending(runs[0].nextVCN, runs[1..]) && InRange(runs[0].nextVCN, runs[1..], cs)
    ensures MapRuns([], prev, runs, cs).out
         == FirstExtent(prev, runs[0], cs) + MapRuns([], runs[0].nextVCN, runs[1..], cs).out
  {
    AscendingTail(prev, runs);
    InRangeTail(prev, runs, cs);
    Scale(0, prev, cs);
    Scale(prev, runs[0].nextVCN, cs);
    FirstIsExact(prev, runs[0], cs);
    MapFirst(prev, runs, cs, FirstExtent(prev, runs[0], cs));
  }

  lemma FirstIsExact(prev: int, r: VcnRun, cs: int)
    requires cs > 0 && 0 <= prev < r.nextVCN && r.nextVCN * cs < TWO63
    requires r.lcn * cs < TWO63
    ensures FirstExtent(prev, r, cs) == if r.lcn >= 0 then [RunExtent(prev, r, cs)] else []
  {
    if r.lcn >= 0 { ExactExtent(prev, r, cs); }
  }

  lemma InRangeTail(prev: int, runs: seq<VcnRun>, cs: int)
    requires InRange(prev, runs, cs) && runs != [] && prev < runs[0].nextVCN
    ensures InRange(runs[0].nextVCN, runs[1..], cs)
  {
    assert forall i :: 0 <= i < |runs[1..]| ==> runs[1..][i] == runs[i + 1];
  }

  lemma MapFirst(prev: int, runs: seq<VcnRun>, cs: int, first: seq<Extent>)
    requires runs != [] && prev < runs[0].nextVCN
    requires first == if runs[0].lcn >= 0 then [RunExtent(prev, runs[0], cs)] else []
    ensures MapRuns([], prev, runs, cs).out == first + MapRuns([], runs[0].nextVCN, runs[1..], cs).out
  {
    assert [] + first == first;
    MapRunsAppends(first, runs[0].nextVCN, runs[1..], cs);
  }

  /** The mapping in exact arithmetic. */
  function ExactRuns(prev: int, runs: seq<VcnRun>, cs: int): seq<Extent>
    decreases |runs|
  {
    if runs == [] then [] else FirstExtent(prev, runs[0], cs) + ExactRuns(runs[0].nextVCN, runs[1..], cs)
  }

  /** Within range, no offset and no length overflows: 64-bit arithmetic gives the exact extents. */
  lemma {:induction false} NothingWraps(prev: int, runs: seq<VcnRun>, cs: int)
    requires cs > 0 && Ascending(prev, runs) && InRange(prev, runs, cs)
    ensures MapRuns([], prev, runs, cs).out == ExactRuns(prev, runs, cs)
    decreases |runs|
  {
    if runs != [] {
      MapStep(prev, runs, cs);
      NothingWraps(runs[0].nextVCN, runs[1..], cs);
    }
  }

  lemma DisjointCons(head: Extent, rest: seq<Extent>)
    requires 0 < head.length && Disjoint(head.fileOffset + head.length, rest)
    ensures Disjoint(head.fileOffset, [head] + rest)
  {
    var es := [head] + rest;
    assert forall i :: 0 < i < |es| ==> es[i] == rest[i - 1];
  }

  lemma {:induction false} ExtentsAreDisjoint(prev: int, runs: seq<VcnRun>, cs: int)
    requires cs > 0 && Ascending(prev, runs) && InRange(prev, runs, cs)
    ensures Disjoint(prev * cs, MapRuns([], prev, runs, cs).out)
    decreases |runs|
  {
    if runs != [] {
      MapStep(prev, runs, cs);
      ExtentsAreDisjoint(runs[0].nextVCN, runs[1..], cs);
      var rest := MapRuns([], runs[0].nextVCN, runs[1..], cs).out;
      if runs[0].lcn >= 0 {
        DisjointCons(FirstExtent(prev, runs[0], cs)[0], rest);
      } else {
        assert [] + rest == rest;
      }
    }
  }

  /** Some extent covers byte `o` of cluster `v` exactly if the cluster is allocated, at its place. */
  ghost predicate Places(es: seq<Extent>, at: Option<int>, v: int, o: int, cs: int) {
    match at
    case None => forall i :: 0 <= i < |es| ==> !Covers(es[i], v * cs + o)
    case Some(l) => exists i :: 0 <= i < |es| && Covers(es[i], v * cs + o) &&
                     es[i].volumeOffset + (v * cs + o - es[i].fileOffset) == l * cs + o
  }

  lemma {:induction false} EveryByteIsPlaced(prev: int, runs: seq<VcnRun>, cs: int, v: int, o: int)
    requires cs > 0 && Ascending(prev, runs) && InRange(prev, runs, cs)
    requires prev <= v && 0 <= o < cs
    ensures Places(MapRuns([], prev, runs, cs).out, ClusterOf(prev, runs, v), v, o, cs)
    decreases |runs|
  {
    if runs != [] {
      var r := runs[0];
      var rest := MapRuns([], r.nextVCN, runs[1..], cs).out;
      MapStep(prev, runs, cs);
      ExtentsAreDisjoint(r.nextVCN, runs[1..], cs);
      Scale(prev, v, cs);
      if v < r.nextVCN {
        Scale(v, r.nextVCN, cs);
        FirstRunPlaces(prev, r, rest, cs, v, o);
      } else {
        Scale(r.nextVCN, v, cs);
        EveryByteIsPlaced(r.nextVCN, runs[1..], cs, v, o);
        LaterRunPlaces(prev, r, rest, cs, v, o, ClusterOf(r.nextVCN, runs[1..], v));
      }
    }
  }

  lemma FirstRunPlaces(prev: int, r: VcnRun, rest: seq<Extent>, cs: int, v: int, o: int)
    requires cs > 0 && prev <= v < r.nextVCN && 0 <= o < cs
    requires prev * cs <= v * cs && v * cs + cs <= r.nextVCN * cs
    requires Disjoint(r.nextVCN * cs, rest)
    ensures Places(FirstExtent(prev, r, cs) + rest, if r.lcn >= 0 then Some(r.lcn + (v - prev)) else None, v, o, cs)
  {
    var es := FirstExtent(prev, r, cs) + rest;
    if r.lcn >= 0 {
      Distribute(prev, v, cs);
      Distribute(-(v - prev), r.lcn, cs);
      assert Covers(es[0], v * cs + o);
    } else {
      assert es == rest;
    }
  }

  lemma LaterRunPlaces(prev: int, r: VcnRun, rest: seq<Extent>, cs: int, v: int, o: int, at: Option<int>)
    requires cs > 0 && r.nextVCN <= v && 0 <= o && r.nextVCN * cs <= v * cs
    requires Places(rest, at, v, o, cs)
    ensures Places(FirstExtent(prev, r, cs) + rest, at, v, o, cs)
  {
    var es := FirstExtent(prev, r, cs) + rest;
    if r.lcn < 0 {
      assert es == rest;
    } else if at.Some? {
      var i :| 0 <= i < |rest| && Covers(rest[i], v * cs + o) &&
               rest[i].volumeOffset + (v * cs + o - rest[i].fileOffset) == at.value * cs + o;
      assert es[i + 1] == rest[i];
    }
  }

  // ---- Reassembly.

  /** The file's byte `b`, by the layout: the volume's byte in the mapped cluster, or a hole's zero. */
  function Content(runs: seq<VcnRun>, cs: int, vol: int -> int, b: int): int
    requires cs > 0
  {
    match ClusterOf(0, runs, b / cs)
    case None => 0
    case Some(l) => vol(l * cs + b % cs)
  }

  /** Copying one extent off the volume into a buffer that holds the start of the file. */
  function Copy(buf: seq<int>, e: Extent, vol: int -> int): (r: seq<int>)
    ensures |r| == |buf|
  {
    seq(|buf|, i requires 0 <= i < |buf| =>
      if Covers(e, i) then vol(e.volumeOffset + (i - e.fileOffset)) else buf[i])
  }

  function CopyAll(buf: seq<int>, es: seq<Extent>, vol: int -> int): (r: seq<int>)
    ensures |r| == |buf|
    decreases |es|
  {
    if es == [] then buf else CopyAll(Copy(buf, es[0], vol), es[1..], vol)
  }

  lemma {:induction false} CopyAllAt(buf: seq<int>, es: seq<Extent>, vol: int -> int, from: int, b: nat)
    requires b < |buf| && Disjoint(from, es)
    ensures (forall i :: 0 <= i < |es| ==> !Covers(es[i], b)) ==> CopyAll(buf, es, vol)[b] == buf[b]
    ensures forall i :: 0 <= i < |es| && Covers(es[i], b) ==>
              CopyAll(buf, es, vol)[b] == vol(es[i].volumeOffset + (b - es[i].fileOffset))
    decreases |es|
  {
    if es != [] {
      var tail := es[1..];
      assert forall i :: 0 <= i < |tail| ==> tail[i] == es[i + 1];
      CopyAllAt(Copy(buf, es[0], vol), tail, vol, from, b);
      forall i | 0 <= i < |es| && Covers(es[i], b)
        ensures CopyAll(buf, es, vol)[b] == vol(es[i].volumeOffset + (b - es[i].fileOffset))
      {
        if i > 0 { assert Covers(tail[i - 1], b); }
      }
    }
  }

  lemma DivMod(b: nat, cs: int)
    requires cs > 0
    ensures 0 <= b / cs && 0 <= b % cs < cs && (b / cs) * cs + b % cs == b
  {
  }

  /**
    Reading every extent over zeros, trimmed to the file's size, gives back the file: the extents say
    where each byte is, holes included, and no offset overflows.
   */
  lemma ReassemblyIsContent(runs: seq<VcnRun>, cs: int, vol: int -> int, size: nat)
    requires cs > 0 && Ascending(0, runs) && InRange(0, runs, cs)
    ensures AppendRuns([], 0, runs, cs).fault.None?
    ensures CopyAll(seq(size, _ => 0), AppendRuns([], 0, runs, cs).out, vol)
         == seq(size, b requires 0 <= b < size => Content(runs, cs, vol, b))
  {
    var es := MapRuns([], 0, runs, cs).out;
    FaultIffNotAscending([], 0, runs, cs);
    ExtentsAreDisjoint(0, runs, cs);
    forall b | 0 <= b < size
      ensures CopyAll(seq(size, _ => 0), es, vol)[b] == Content(runs, cs, vol, b)
    {
      var v, o := b / cs, b % cs;
      DivMod(b, cs);
      EveryByteIsPlaced(0, runs, cs, v, o);
      CopyAllAt(seq(size, _ => 0), es, vol, 0 * cs, b);
    }
  }
}
