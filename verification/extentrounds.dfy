/**
  Reading a file's cluster runs in rounds (extents_windows.go, `fileExtentsUnder`).

  A reply is the status of the request, the bytes written, and the buffer seen as 64-bit words: the
  extent count, the starting cluster, then a pair of words for each run.
 */
module ExtentRounds {
  import opened Options
  import opened Extents

  /** The buffer: 16 bytes of header and room for 512 runs. */
  const BUFFER_WORDS: nat := (16 + MAX_EXTENTS * 16) / 8
  const MAX_EXTENTS: nat := 512

  datatype Status = Success | MoreData | HandleEof | DeviceError

  datatype RawReply = Reply(status: Status, ret: nat, words: seq<int>)

  /** What any device can put in the buffer it is given. */
  type Reply = r: RawReply | |r.words| == BUFFER_WORDS && r.ret <= 8 * BUFFER_WORDS
    witness Reply(DeviceError, 0, seq(BUFFER_WORDS, _ => 0))

  /** The answer to the `k`-th request, which asks for a starting cluster. */
  type Device = (nat, int) -> Reply

  datatype Answer =
    | Found(extents: seq<Extent>)
    | IoFailure
    | ShortReply
    | BadCount
    | NoProgress
    | BadRuns(fault: Fault)

  datatype Round = Return(answer: Answer) | Resume(out: seq<Extent>, vcn: int)

  function RunAt(words: seq<int>, i: nat): VcnRun
    requires 3 + 2 * i < |words|
  {
    VcnRun(words[2 + 2 * i], words[3 + 2 * i])
  }

  function RunsIn(words: seq<int>, n: nat): seq<VcnRun>
    requires 2 + 2 * n <= |words|
  {
    seq(n, i requires 0 <= i < n => RunAt(words, i))
  }

  /** One turn of the loop: what a reply makes of the extents so far. */
  function Turn(reply: Reply, out: seq<Extent>, cs: int): Round {
    if reply.status.HandleEof? then Return(Found(out))
    else if reply.status.DeviceError? then Return(IoFailure)
    else if reply.ret < 16 then Return(ShortReply)
    else
      var n := reply.words[0];
      if n < 0 || n > (reply.ret - 16) / 16 then Return(BadCount)
      else if n == 0 && reply.status.MoreData? then Return(NoProgress)
      else
        var m := AppendRuns(out, reply.words[1], RunsIn(reply.words, n), cs);
        if m.fault.Some? then Return(BadRuns(m.fault.value))
        else if reply.status.Success? then Return(Found(m.out))
        else Resume(m.out, m.next)
  }

  method TakeTurn(reply: Reply, buf: array<int>, before: seq<Extent>, cs: int) returns (round: Round)
    requires buf.Length == BUFFER_WORDS
    modifies buf
    ensures round == Turn(reply, before, cs)
  {
    forall i | 0 <= i < BUFFER_WORDS {
      buf[i] := reply.words[i];
    }
    assert buf[..] == reply.words;
    if reply.status.HandleEof? {
      return Return(Found(before));
    }
    if !reply.status.Success? && !reply.status.MoreData? {
      return Return(IoFailure);
    }
    if reply.ret < 16 {
      return Return(ShortReply);
    }
    var n := buf[0];
    if n < 0 || n > (reply.ret - 16) / 16 {
      return Return(BadCount);
    }
    if n == 0 && reply.status.MoreData? {
      return Return(NoProgress);
    }
    var runs := [];
    for i := 0 to n
      invariant runs == RunsIn(reply.words, i)
      invariant buf[..] == reply.words
    {
      runs := runs + [VcnRun(buf[2 + 2 * i], buf[3 + 2 * i])];
    }
    var out, prevVCN, fault := AppendRunsLoop(before, buf[1], runs, cs);
    if fault.Some? {
      return Return(BadRuns(fault.value));
    }
    if reply.status.Success? {
      return Return(Found(out));
    }
    return Resume(out, prevVCN);
  }

  // ---- The device.

  /** The run that contains cluster `v`. */
  ghost predicate Contains(runs: seq<VcnRun>, i: nat, v: int) {
    i < |runs| && Start(0, runs, i) <= v < runs[i].nextVCN
  }

  /**
    A request is rounded down to the start of the run that contains it; the reply holds any positive
    number of runs from there, and says whether there are more.  Past the last run, and for a file
    without runs, the answer is end of file.
   */
  ghost predicate AnswersFor(reply: Reply, runs: seq<VcnRun>, v: int) {
    if v >= Start(0, runs, |runs|) then reply.status.HandleEof?
    else
      exists i: nat, n: nat :: Contains(runs, i, v) && Holds(reply, runs, i, n)
  }

  /** The reply holds `n` runs from the `i`-th on. */
  ghost predicate Holds(reply: Reply, runs: seq<VcnRun>, i: nat, n: nat) {
    && 0 < n <= MAX_EXTENTS && i + n <= |runs|
    && reply.ret == 16 + 16 * n
    && reply.words[0] == n && reply.words[1] == Start(0, runs, i)
    && RunsIn(reply.words, n) == runs[i..i + n]
    && reply.status == if i + n == |runs| then Success else MoreData
  }

  /** Any request may fail; one that does not is answered as above. */
  ghost predicate Honest(dev: Device, runs: seq<VcnRun>) {
    Ascending(0, runs) && forall k, v :: 0 <= v ==> dev(k, v).status.DeviceError? || AnswersFor(dev(k, v), runs, v)
  }

  lemma {:induction false} StartsAscend(runs: seq<VcnRun>, i: nat, j: nat)
    requires Ascending(0, runs) && i < j <= |runs|
    ensures Start(0, runs, i) < Start(0, runs, j)
    decreases j
  {
    assert Start(0, runs, j - 1) < runs[j - 1].nextVCN;
    if i < j - 1 { StartsAscend(runs, i, j - 1); }
  }

  /** At a run's start there is nothing to round: that run is the one. */
  lemma BoundaryIsExact(runs: seq<VcnRun>, at: nat, i: nat)
    requires Ascending(0, runs) && at < |runs| && Contains(runs, i, Start(0, runs, at))
    ensures i == at
  {
    if i < at {
      if i + 1 < at { StartsAscend(runs, i + 1, at); }
    } else if at < i {
      StartsAscend(runs, at, i);
    }
  }

  /** What all the runs, mapped at once, give. */
  ghost function OneShot(runs: seq<VcnRun>, cs: int): Answer {
    if runs == [] then Found([])
    else if cs <= 0 then BadRuns(BadClusterSize)
    else Found(MapRuns([], 0, runs, cs).out)
  }

  /** The loop has mapped the runs before `at` and asks for the start of the `at`-th. */
  ghost predicate Reached(runs: seq<VcnRun>, at: nat, out: seq<Extent>, vcn: int, cs: int) {
    && at < |runs| && vcn == Start(0, runs, at)
    && (at > 0 ==> cs > 0)
    && MapRuns([], 0, runs[..at], cs) == Mapped(out, vcn, None)
  }

  lemma TurnOnRuns(reply: Reply, runs: seq<VcnRun>, i: nat, n: nat, out: seq<Extent>, cs: int)
    requires Holds(reply, runs, i, n)
    ensures cs <= 0 ==> Turn(reply, out, cs) == Return(BadRuns(BadClusterSize))
    ensures cs > 0 ==>
              var m := MapRuns(out, Start(0, runs, i), runs[i..i + n], cs);
              m.fault.None? ==>
                Turn(reply, out, cs) == if i + n == |runs| then Return(Found(m.out)) else Resume(m.out, m.next)
  {
  }

  /** Mapping some runs after the ones before them is mapping the longer prefix. */
  lemma PrefixMaps(runs: seq<VcnRun>, at: nat, next: nat, out: seq<Extent>, cs: int)
    requires Ascending(0, runs) && at <= next <= |runs|
    requires MapRuns([], 0, runs[..at], cs) == Mapped(out, Start(0, runs, at), None)
    ensures MapRuns(out, Start(0, runs, at), runs[at..next], cs) == MapRuns([], 0, runs[..next], cs)
    ensures MapRuns([], 0, runs[..next], cs).fault.None?
    ensures MapRuns([], 0, runs[..next], cs).next == Start(0, runs, next)
  {
    RoundsCompose([], 0, runs[..at], runs[at..next], cs);
    assert runs[..at] + runs[at..next] == runs[..next];
    PrefixAscends(runs, next);
    FaultIffNotAscending([], 0, runs[..next], cs);
  }

  lemma TurnAdvances(runs: seq<VcnRun>, at: nat, out: seq<Extent>, vcn: int, cs: int, reply: Reply)
    returns (next: nat)
    requires Ascending(0, runs) && Reached(runs, at, out, vcn, cs) && AnswersFor(reply, runs, vcn)
    ensures match Turn(reply, out, cs)
            case Return(answer) => answer == OneShot(runs, cs)
            case Resume(out', vcn') => at < next && Reached(runs, next, out', vcn', cs)
  {
    StartsAscend(runs, at, |runs|);
    var i: nat, n: nat :| Contains(runs, i, vcn) && Holds(reply, runs, i, n);
    BoundaryIsExact(runs, at, i);
    next := at + n;
    if cs > 0 {
      TurnExtends(runs, at, out, vcn, cs, reply, n);
    }
  }

  lemma TurnExtends(runs: seq<VcnRun>, at: nat, out: seq<Extent>, vcn: int, cs: int, reply: Reply, n: nat)
    requires cs > 0 && Ascending(0, runs) && Reached(runs, at, out, vcn, cs) && Holds(reply, runs, at, n)
    ensures match Turn(reply, out, cs)
            case Return(answer) => answer == OneShot(runs, cs)
            case Resume(out', vcn') => Reached(runs, at + n, out', vcn', cs)
  {
    TurnOnRuns(reply, runs, at, n, out, cs);
    PrefixMaps(runs, at, at + n, out, cs);
    assert at + n == |runs| ==> runs[..at + n] == runs;
  }

  lemma PrefixAscends(runs: seq<VcnRun>, n: nat)
    requires Ascending(0, runs) && n <= |runs|
    ensures Ascending(0, runs[..n])
  {
    forall i | 0 <= i < n ensures Start(0, runs[..n], i) < runs[..n][i].nextVCN {
      assert Start(0, runs, i) < runs[i].nextVCN;
    }
  }

  /** The requests, from 0 upwards, are all starts of runs. */
  ghost predicate Boundaries(runs: seq<VcnRun>, asked: seq<int>) {
    && (forall k :: 0 <= k < |asked| ==> IsStart(runs, asked[k]))
    && (forall j, k :: 0 <= j < k < |asked| ==> asked[j] < asked[k])
    && (|asked| > 0 ==> asked[0] == 0)
  }

  ghost predicate IsStart(runs: seq<VcnRun>, v: int) {
    exists i: nat :: i <= |runs| && v == Start(0, runs, i)
  }

  /** The first `size` bytes of the file. */
  function FileContent(runs: seq<VcnRun>, cs: int, vol: int -> int, size: nat): (bytes: seq<int>)
    requires cs > 0
    ensures |bytes| == size
  {
    seq(size, b requires 0 <= b < size => Content(runs, cs, vol, b))
  }

  /** Whatever is on the volume, copying the extents over zeros gives the file, at any size. */
  ghost predicate Reassembles(es: seq<Extent>, runs: seq<VcnRun>, cs: int)
    requires cs > 0
  {
    forall vol: int -> int, size: nat :: CopyAll(seq(size, _ => 0), es, vol) == FileContent(runs, cs, vol, size)
  }

  lemma OneShotReassembles(runs: seq<VcnRun>, cs: int)
    requires cs > 0 && Ascending(0, runs) && InRange(0, runs, cs)
    ensures OneShot(runs, cs).Found? && Reassembles(OneShot(runs, cs).extents, runs, cs)
  {
    var es := OneShot(runs, cs).extents;
    assert es == AppendRuns([], 0, runs, cs).out;
    forall vol: int -> int, size: nat ensures CopyAll(seq(size, _ => 0), es, vol) == FileContent(runs, cs, vol, size) {
      ReassemblyIsContent(runs, cs, vol, size);
    }
  }

  lemma FoundReassembles(runs: seq<VcnRun>, cs: int, answer: Answer)
    requires Ascending(0, runs)
    ensures answer == OneShot(runs, cs) && answer.Found? && cs > 0 && InRange(0, runs, cs) ==>
              Reassembles(answer.extents, runs, cs)
  {
    if cs > 0 && InRange(0, runs, cs) {
      OneShotReassembles(runs, cs);
    }
  }

  /** Where the loop stands before a request; a file without runs gets no further than the first. */
  ghost predicate Underway(runs: seq<VcnRun>, at: nat, out: seq<Extent>, vcn: int, cs: int) {
    if runs == [] then at == 0 == vcn && out == [] else Reached(runs, at, out, vcn, cs)
  }

  lemma RoundEnds(runs: seq<VcnRun>, at: nat, out: seq<Extent>, vcn: int, cs: int, reply: Reply)
    returns (next: nat)
    requires Ascending(0, runs) && Underway(runs, at, out, vcn, cs)
    requires reply.status.DeviceError? || AnswersFor(reply, runs, vcn)
    ensures match Turn(reply, out, cs)
            case Return(answer) =>
              && (answer == OneShot(runs, cs) || (answer == IoFailure && reply.status.DeviceError?))
              && (answer.Found? && cs > 0 && InRange(0, runs, cs) ==> Reassembles(answer.extents, runs, cs))
            case Resume(out', vcn') => runs != [] && at < next && vcn < vcn' && Underway(runs, next, out', vcn', cs)
  {
    next := at;
    if runs != [] && !reply.status.DeviceError? {
      next := TurnAdvances(runs, at, out, vcn, cs, reply);
      if at < next <= |runs| { StartsAscend(runs, at, next); }
    }
    if Turn(reply, out, cs).Return? {
      FoundReassembles(runs, cs, Turn(reply, out, cs).answer);
    }
  }

  lemma BoundariesExtend(runs: seq<VcnRun>, asked: seq<int>, at: nat, vcn: int)
    requires Boundaries(runs, asked) && forall k :: 0 <= k < |asked| ==> asked[k] < vcn
    requires at <= |runs| && vcn == Start(0, runs, at) && (asked == [] ==> vcn == 0)
    ensures Boundaries(runs, asked + [vcn])
  {
    assert IsStart(runs, vcn);
  }

  /**
    The resume loop.  Whatever number of runs each reply holds, the rounds give what one reply with all
    the runs would give, unless a request failed; and every request is the start of a run.
   */
  method FileExtents(dev: Device, ghost runs: seq<VcnRun>, cs: int) returns (answer: Answer, asked: seq<int>)
    requires Honest(dev, runs)
    ensures asked != [] && Boundaries(runs, asked)
    ensures answer == OneShot(runs, cs) ||
            (answer == IoFailure && dev(|asked| - 1, asked[|asked| - 1]).status.DeviceError?)
    ensures answer.Found? && cs > 0 && InRange(0, runs, cs) ==> Reassembles(answer.extents, runs, cs)
  {
    var buf := new int[BUFFER_WORDS];
    var out, vcn := [], 0;
    asked := [];
    ghost var at: nat := 0;
    assert runs[..0] == [] && Start(0, runs, 0) == 0;
    while true
      invariant Underway(runs, at, out, vcn, cs) && 0 <= vcn && (runs == [] ==> asked == [])
      invariant asked == [] ==> vcn == 0
      invariant Boundaries(runs, asked) && forall k :: 0 <= k < |asked| ==> asked[k] < vcn
      decreases |runs| - at
    {
      BoundariesExtend(runs, asked, at, vcn);
      asked := asked + [vcn];
      var reply := dev(|asked| - 1, vcn);
      assert reply.status.DeviceError? || AnswersFor(reply, runs, vcn);
      ghost var next := RoundEnds(runs, at, out, vcn, cs, reply);
      var round := TakeTurn(reply, buf, out, cs);
      match round {
        case Return(a) =>
          return a, asked;
        case Resume(more, nextVCN) =>
          out, vcn := more, nextVCN;
          at := next;
      }
    }
  }

  /**
    What becomes of any reply.  End of file ends with what there is; a device error is a failure; any
    other reply is used whole, or, if it fails a check, yields no extents at all.
   */
  lemma NoPartialAnswer(reply: Reply, out: seq<Extent>, cs: int)
    ensures reply.status.HandleEof? ==> Turn(reply, out, cs) == Return(Found(out))
    ensures reply.status.DeviceError? ==> Turn(reply, out, cs) == Return(IoFailure)
    ensures reply.status.Success? || reply.status.MoreData? ==>
              (Turn(reply, out, cs).Resume? || Turn(reply, out, cs).answer.Found? <==>
               && reply.ret >= 16 && 0 <= reply.words[0] <= (reply.ret - 16) / 16
               && !(reply.words[0] == 0 && reply.status.MoreData?)
               && cs > 0 && Ascending(reply.words[1], RunsIn(reply.words, reply.words[0])))
    ensures Turn(reply, out, cs).Resume? ==> reply.status.MoreData?
  {
    var done, ret, n := reply.status.Success?, reply.ret, reply.words[0];
    if (done || reply.status.MoreData?) && ret >= 16 && 0 <= n <= (ret - 16) / 16 {
      FaultIffNotAscending(out, reply.words[1], RunsIn(reply.words, reply.words[0]), cs);
    }
  }
}
