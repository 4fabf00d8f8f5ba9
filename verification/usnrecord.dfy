/**
  Change-journal records in a reply buffer (usn_windows.go, `usnRecordV2` and the inner loop of
  `USNChangesSince`).  Numbers are little-endian; a version-2 record is a 60-byte header and a name.
 */
module UsnRecord {

  type byte = b: int | 0 <= b < 256

  // ---- Little-endian numbers.

  function FromLE(bs: seq<byte>): nat {
    if bs == [] then 0 else bs[0] + 256 * FromLE(bs[1..])
  }

  function ToLE(x: nat, n: nat): (bs: seq<byte>)
    ensures |bs| == n
  {
    if n == 0 then [] else [x % 256] + ToLE(x / 256, n - 1)
  }

  function Pow256(n: nat): nat {
    if n == 0 then 1 else 256 * Pow256(n - 1)
  }

  lemma {:induction false} LERoundTrip(x: nat, n: nat)
    requires x < Pow256(n)
    ensures FromLE(ToLE(x, n)) == x
  {
    if n > 0 {
      LERoundTrip(x / 256, n - 1);
      assert ToLE(x, n)[1..] == ToLE(x / 256, n - 1);
    }
  }

  lemma Widths()
    ensures Pow256(2) == 0x1_0000 && Pow256(4) == 0x1_0000_0000 && Pow256(8) == 0x1_0000_0000_0000_0000
  {
    assert Pow256(4) == 0x1_0000_0000;
    assert Pow256(6) == 0x1_0000_0000_0000;
  }

  /** A 64-bit word read as a signed number, and back. */
  function Signed(x: nat): int {
    if x < 0x8000_0000_0000_0000 then x else x - 0x1_0000_0000_0000_0000
  }

  function Unsigned(x: int): nat
    requires -0x8000_0000_0000_0000 <= x
  {
    if x >= 0 then x else x + 0x1_0000_0000_0000_0000
  }

  /** The number stored in `w` bytes at `off`. */
  function Field(bs: seq<byte>, off: nat, w: nat): nat
    requires off + w <= |bs|
  {
    FromLE(bs[off..off + w])
  }

  /** Two-byte units, and back. */
  function Units(bs: seq<byte>): seq<nat>
    decreases |bs|
  {
    if |bs| < 2 then [] else [FromLE(bs[..2])] + Units(bs[2..])
  }

  function UnitBytes(units: seq<nat>): (bs: seq<byte>)
    ensures |bs| == 2 * |units|
  {
    if units == [] then [] else ToLE(units[0], 2) + UnitBytes(units[1..])
  }

  lemma {:induction false} UnitsRoundTrip(units: seq<nat>)
    requires forall i :: 0 <= i < |units| ==> units[i] < 0x1_0000
    ensures Units(UnitBytes(units)) == units
  {
    if units != [] {
      var bs := UnitBytes(units);
      Widths();
      LERoundTrip(units[0], 2);
      UnitsRoundTrip(units[1..]);
      assert bs[..2] == ToLE(units[0], 2) && bs[2..] == UnitBytes(units[1..]);
    }
  }

  /** `UTF16ToString` stops at the first NUL. */
  function CutAtNul(units: seq<nat>): (text: seq<nat>)
    ensures text <= units && 0 !in text && (text == units || units[|text|] == 0)
  {
    if units == [] || units[0] == 0 then [] else [units[0]] + CutAtNul(units[1..])
  }

  lemma {:induction false} CutKeepsText(units: seq<nat>)
    requires forall i :: 0 <= i < |units| ==> units[i] != 0
    ensures CutAtNul(units) == units
  {
    if units != [] {
      CutKeepsText(units[1..]);
    }
  }

  // ---- Reading a record.

  /** What the scan takes from a record; the name is in UTF-16 units. */
  datatype Record = Record(fileId: nat, parentId: nat, usn: int, reason: nat, attributes: nat, name: seq<nat>)

  datatype Fault = BadLength | BadVersion | BadName
  datatype Look = Rec(rec: Record, length: nat) | Beyond | Broken(fault: Fault)

  const HEADER: nat := 60

  /** One record at `off`, with the source's checks in its order. */
  function LookAt(bs: seq<byte>, off: nat, bound: int): (look: Look)
    requires off + HEADER <= |bs|
    ensures look.Rec? ==> HEADER <= look.length && off + look.length <= |bs| && look.rec.usn < bound
  {
    var rl := Field(bs, off, 4);
    if rl < HEADER || off + rl > |bs| then Broken(BadLength)
    else if Field(bs, off + 4, 2) != 2 then Broken(BadVersion)
    else
      var usn := Signed(Field(bs, off + 24, 8));
      if usn >= bound then Beyond
      else
        var nameLen, nameOff := Field(bs, off + 56, 2), Field(bs, off + 58, 2);
        if nameOff < HEADER || nameOff + nameLen > rl || nameLen % 2 != 0 then Broken(BadName)
        else
          var name := CutAtNul(Units(bs[off + nameOff..off + nameOff + nameLen]));
          Rec(Record(Field(bs, off + 8, 8), Field(bs, off + 16, 8), usn, Field(bs, off + 40, 4),
                     Field(bs, off + 52, 4), name), rl)
  }

  datatype Stop = Drained | PastBound | Malformed(fault: Fault)
  datatype Parsed = Parsed(recs: seq<Record>, stop: Stop)

  /** Looking at any offset that leaves room for a header. */
  type Looker = nat -> Look

  function Lookup(bs: seq<byte>, bound: int): Looker {
    (off: nat) => if off + HEADER <= |bs| then LookAt(bs, off, bound) else Broken(BadLength)
  }

  /** The records of a reply of `size` bytes from `off` on, up to the bound, and why reading ended. */
  function Parse(look: Looker, size: nat, off: nat): Parsed
    decreases size - off
  {
    if off + HEADER > size then Parsed([], Drained)
    else
      match look(off)
      case Broken(fault) => Parsed([], Malformed(fault))
      case Beyond => Parsed([], PastBound)
      case Rec(rec, length) =>
        if length == 0 then Parsed([], Malformed(BadLength))  // no `LookAt` says this
        else
          var rest := Parse(look, size, off + length);
          Parsed([rec] + rest.recs, rest.stop)
  }

  lemma ParseStep(look: Looker, size: nat, off: nat, rec: Record, length: nat)
    requires off + HEADER <= size && look(off) == Rec(rec, length) && length > 0
    ensures Parse(look, size, off).recs == [rec] + Parse(look, size, off + length).recs
    ensures Parse(look, size, off).recs[1..] == Parse(look, size, off + length).recs
    ensures Parse(look, size, off).stop == Parse(look, size, off + length).stop
  {
  }

  // ---- Writing a record.

  /** The parts of a record that the scan skips: other fields, a gap before the name, padding after it. */
  datatype Other = Other(minor: nat, timeStamp: nat, sourceInfo: nat, securityId: nat, gap: seq<byte>, pad: seq<byte>)

  predicate AllUnits(units: seq<nat>) {
    forall i :: 0 <= i < |units| ==> units[i] < 0x1_0000
  }

  /** The parts fit their fields. */
  predicate Storable(rec: Record, o: Other) {
    && rec.fileId < 0x1_0000_0000_0000_0000 && rec.parentId < 0x1_0000_0000_0000_0000
    && -0x8000_0000_0000_0000 <= rec.usn < 0x8000_0000_0000_0000
    && rec.reason < 0x1_0000_0000 && rec.attributes < 0x1_0000_0000
    && AllUnits(rec.name)
    && 2 * |rec.name| < 0x1_0000 && HEADER + |o.gap| < 0x1_0000
    && RecordLength(rec, o) < 0x1_0000_0000
  }

  /** And the name has no NUL. */
  predicate Writable(rec: Record, o: Other) {
    Storable(rec, o) && forall i :: 0 <= i < |rec.name| ==> rec.name[i] != 0
  }

  function RecordLength(rec: Record, o: Other): nat {
    HEADER + |o.gap| + 2 * |rec.name| + |o.pad|
  }

  function Four(w: nat, a: nat, b: nat, c: nat, d: nat): (bs: seq<byte>)
    ensures |bs| == 4 * w
  {
    ToLE(a, w) + ToLE(b, w) + ToLE(c, w) + ToLE(d, w)
  }

  function Head(rec: Record, o: Other): (bs: seq<byte>)
    ensures |bs| == 8
  {
    ToLE(RecordLength(rec, o), 4) + ToLE(2, 2) + ToLE(o.minor, 2)
  }

  function NameSpan(rec: Record, o: Other): (bs: seq<byte>)
    ensures |bs| == 4
  {
    ToLE(2 * |rec.name|, 2) + ToLE(HEADER + |o.gap|, 2)
  }

  function Encode(rec: Record, o: Other): (bs: seq<byte>)
    requires Storable(rec, o)
    ensures |bs| == RecordLength(rec, o)
  {
    Head(rec, o)
    + Four(8, rec.fileId, rec.parentId, Unsigned(rec.usn), o.timeStamp)
    + Four(4, rec.reason, o.sourceInfo, o.securityId, rec.attributes)
    + NameSpan(rec, o)
    + o.gap + UnitBytes(rec.name) + o.pad
  }

  // ---- The round trip.

  lemma SliceWithin(pre: seq<byte>, mid: seq<byte>, post: seq<byte>, i: nat, j: nat)
    requires i <= j <= |mid|
    ensures (pre + mid + post)[|pre| + i..|pre| + j] == mid[i..j]
  {
  }

  lemma FourAt(w: nat, a: nat, b: nat, c: nat, d: nat)
    ensures Four(w, a, b, c, d)[..w] == ToLE(a, w)
    ensures Four(w, a, b, c, d)[w..2 * w] == ToLE(b, w)
    ensures Four(w, a, b, c, d)[2 * w..3 * w] == ToLE(c, w)
    ensures Four(w, a, b, c, d)[3 * w..] == ToLE(d, w)
  {
  }

  /** The bytes of an encoded record, part by part. */
  lemma EncodedParts(rec: Record, o: Other)
    requires Writable(rec, o)
    ensures var bs := Encode(rec, o);
            && bs[..8] == Head(rec, o)
            && bs[8..40] == Four(8, rec.fileId, rec.parentId, Unsigned(rec.usn), o.timeStamp)
            && bs[40..56] == Four(4, rec.reason, o.sourceInfo, o.securityId, rec.attributes)
            && bs[56..60] == NameSpan(rec, o)
            && bs[HEADER + |o.gap|..HEADER + |o.gap| + 2 * |rec.name|] == UnitBytes(rec.name)
  {
    Parts(Head(rec, o), Four(8, rec.fileId, rec.parentId, Unsigned(rec.usn), o.timeStamp),
          Four(4, rec.reason, o.sourceInfo, o.securityId, rec.attributes), NameSpan(rec, o),
          o.gap, UnitBytes(rec.name), o.pad);
  }

  lemma Parts(a: seq<byte>, b: seq<byte>, c: seq<byte>, d: seq<byte>, g: seq<byte>, u: seq<byte>, p: seq<byte>)
    ensures var bs, ab, abc := a + b + c + d + g + u + p, |a| + |b|, |a| + |b| + |c|;
            && bs[..|a|] == a && bs[|a|..ab] == b && bs[ab..abc] == c && bs[abc..abc + |d|] == d
            && bs[abc + |d| + |g|..abc + |d| + |g| + |u|] == u
  {
    var bs := a + b + c + d + g + u + p;
    assert bs[..|a|] == a;
    assert bs[|a|..|a| + |b|] == b;
    assert bs[|a| + |b|..|a| + |b| + |c|] == c;
    assert bs[|a| + |b| + |c|..|a| + |b| + |c| + |d|] == d;
    var k := |a| + |b| + |c| + |d| + |g|;
    assert bs[k..k + |u|] == u;
  }

  /** A sub-slice of a slice. */
  lemma SliceOfSlice(bs: seq<byte>, lo: nat, hi: nat, i: nat, j: nat)
    requires lo <= hi <= |bs| && i <= j <= hi - lo
    ensures bs[lo..hi][i..j] == bs[lo + i..lo + j]
  {
    var a, b := bs[lo..hi][i..j], bs[lo + i..lo + j];
    assert |a| == |b|;
    assert forall k :: 0 <= k < |a| ==> a[k] == bs[lo..hi][i + k] == bs[lo + i + k] == b[k];
  }

  lemma EncodedNumbers(rec: Record, o: Other)
    requires Writable(rec, o)
    ensures var bs := Encode(rec, o);
            && bs[0..4] == ToLE(RecordLength(rec, o), 4) && bs[4..6] == ToLE(2, 2)
            && bs[8..16] == ToLE(rec.fileId, 8) && bs[16..24] == ToLE(rec.parentId, 8)
            && bs[24..32] == ToLE(Unsigned(rec.usn), 8)
            && bs[40..44] == ToLE(rec.reason, 4) && bs[52..56] == ToLE(rec.attributes, 4)
            && bs[56..58] == ToLE(2 * |rec.name|, 2) && bs[58..60] == ToLE(HEADER + |o.gap|, 2)
  {
    var bs := Encode(rec, o);
    EncodedParts(rec, o);
    FourAt(8, rec.fileId, rec.parentId, Unsigned(rec.usn), o.timeStamp);
    FourAt(4, rec.reason, o.sourceInfo, o.securityId, rec.attributes);
    assert bs[..8] == bs[0..8];
    SliceOfSlice(bs, 0, 8, 0, 4);
    SliceOfSlice(bs, 0, 8, 4, 6);
    SliceOfSlice(bs, 8, 40, 0, 8);
    SliceOfSlice(bs, 8, 40, 8, 16);
    SliceOfSlice(bs, 8, 40, 16, 24);
    SliceOfSlice(bs, 40, 56, 0, 4);
    SliceOfSlice(bs, 40, 56, 12, 16);
    SliceOfSlice(bs, 56, 60, 0, 2);
    SliceOfSlice(bs, 56, 60, 2, 4);
  }

  lemma FieldOf(pre: seq<byte>, mid: seq<byte>, post: seq<byte>, i: nat, w: nat, x: nat)
    requires i + w <= |mid| && mid[i..i + w] == ToLE(x, w) && x < Pow256(w)
    ensures Field(pre + mid + post, |pre| + i, w) == x
  {
    SliceWithin(pre, mid, post, i, i + w);
    LERoundTrip(x, w);
  }

  /** What the bytes at `off` say, field by field. */
  ghost predicate Spells(bs: seq<byte>, off: nat, rec: Record, o: Other) {
    var nameAt := HEADER + |o.gap|;
    && off + RecordLength(rec, o) <= |bs|
    && Field(bs, off, 4) == RecordLength(rec, o) && Field(bs, off + 4, 2) == 2
    && Field(bs, off + 8, 8) == rec.fileId && Field(bs, off + 16, 8) == rec.parentId
    && -0x8000_0000_0000_0000 <= rec.usn && Field(bs, off + 24, 8) == Unsigned(rec.usn)
    && Field(bs, off + 40, 4) == rec.reason && Field(bs, off + 52, 4) == rec.attributes
    && Field(bs, off + 56, 2) == 2 * |rec.name| && Field(bs, off + 58, 2) == nameAt
    && bs[off + nameAt..off + nameAt + 2 * |rec.name|] == UnitBytes(rec.name)
  }

  lemma EncodedSpells(pre: seq<byte>, rec: Record, o: Other, post: seq<byte>)
    requires Writable(rec, o)
    ensures Spells(pre + Encode(rec, o) + post, |pre|, rec, o)
  {
    EncodedFront(pre, rec, o, post);
    EncodedIds(pre, rec, o, post);
    EncodedBack(pre, rec, o, post);
    EncodedParts(rec, o);
    SliceWithin(pre, Encode(rec, o), post, HEADER + |o.gap|, HEADER + |o.gap| + 2 * |rec.name|);
  }

  lemma EncodedFront(pre: seq<byte>, rec: Record, o: Other, post: seq<byte>)
    requires Writable(rec, o)
    ensures var bs, off := pre + Encode(rec, o) + post, |pre|;
            Field(bs, off, 4) == RecordLength(rec, o) && Field(bs, off + 4, 2) == 2
  {
    var mid := Encode(rec, o);
    EncodedNumbers(rec, o);
    Widths();
    FieldOf(pre, mid, post, 0, 4, RecordLength(rec, o));
    FieldOf(pre, mid, post, 4, 2, 2);
  }

  lemma EncodedIds(pre: seq<byte>, rec: Record, o: Other, post: seq<byte>)
    requires Writable(rec, o)
    ensures var bs, off := pre + Encode(rec, o) + post, |pre|;
            && Field(bs, off + 8, 8) == rec.fileId && Field(bs, off + 16, 8) == rec.parentId
            && Field(bs, off + 24, 8) == Unsigned(rec.usn)
  {
    var mid := Encode(rec, o);
    EncodedNumbers(rec, o);
    Widths();
    FieldOf(pre, mid, post, 8, 8, rec.fileId);
    FieldOf(pre, mid, post, 16, 8, rec.parentId);
    FieldOf(pre, mid, post, 24, 8, Unsigned(rec.usn));
  }

  lemma EncodedBack(pre: seq<byte>, rec: Record, o: Other, post: seq<byte>)
    requires Writable(rec, o)
    ensures var bs, off := pre + Encode(rec, o) + post, |pre|;
            && Field(bs, off + 40, 4) == rec.reason && Field(bs, off + 52, 4) == rec.attributes
            && Field(bs, off + 56, 2) == 2 * |rec.name| && Field(bs, off + 58, 2) == HEADER + |o.gap|
  {
    var mid := Encode(rec, o);
    EncodedNumbers(rec, o);
    Widths();
    FieldOf(pre, mid, post, 40, 4, rec.reason);
    FieldOf(pre, mid, post, 52, 4, rec.attributes);
    FieldOf(pre, mid, post, 56, 2, 2 * |rec.name|);
    FieldOf(pre, mid, post, 58, 2, HEADER + |o.gap|);
  }

  /** Reading where a record was written gives that record, or says it lies beyond the bound. */
  lemma LookAtEncoded(pre: seq<byte>, rec: Record, o: Other, post: seq<byte>, bound: int)
    requires Writable(rec, o)
    ensures var bs := pre + Encode(rec, o) + post;
            LookAt(bs, |pre|, bound) == if rec.usn >= bound then Beyond else Rec(rec, RecordLength(rec, o))
  {
    EncodedSpells(pre, rec, o, post);
    UnitsRoundTrip(rec.name);
    CutKeepsText(rec.name);
    LookAtSpelled(pre + Encode(rec, o) + post, |pre|, rec, o, bound);
  }

  lemma LookAtSpelled(bs: seq<byte>, off: nat, rec: Record, o: Other, bound: int)
    requires Spells(bs, off, rec, o)
    requires -0x8000_0000_0000_0000 <= rec.usn < 0x8000_0000_0000_0000
    requires CutAtNul(Units(UnitBytes(rec.name))) == rec.name
    ensures LookAt(bs, off, bound) == if rec.usn >= bound then Beyond else Rec(rec, RecordLength(rec, o))
  {
    assert Signed(Unsigned(rec.usn)) == rec.usn;
  }

  predicate AllWritable(recs: seq<Record>, os: seq<Other>) {
    |recs| == |os| && forall i :: 0 <= i < |recs| ==> Writable(recs[i], os[i])
  }

  function Encodings(recs: seq<Record>, os: seq<Other>): (chunks: seq<seq<byte>>)
    requires AllWritable(recs, os)
    ensures |chunks| == |recs|
    ensures forall i :: 0 <= i < |recs| ==> chunks[i] == Encode(recs[i], os[i])
  {
    seq(|recs|, i requires 0 <= i < |recs| => Encode(recs[i], os[i]))
  }

  function Concat(chunks: seq<seq<byte>>): seq<byte> {
    if chunks == [] then [] else chunks[0] + Concat(chunks[1..])
  }

  function EncodeAll(recs: seq<Record>, os: seq<Other>): seq<byte>
    requires AllWritable(recs, os)
  {
    Concat(Encodings(recs, os))
  }

  /** The records that precede the first one at or beyond the bound. */
  function Below(recs: seq<Record>, bound: int): seq<Record> {
    if recs == [] || recs[0].usn >= bound then [] else [recs[0]] + Below(recs[1..], bound)
  }

  /** Wherever in the reply these bytes stand, looking there finds this record. */
  ghost predicate ReadsAs(look: Looker, bs: seq<byte>, chunk: seq<byte>, rec: Record, bound: int) {
    && HEADER <= |chunk|
    && forall pre: seq<byte>, post: seq<byte> :: bs == pre + chunk + post ==>
         look(|pre|) == if rec.usn >= bound then Beyond else Rec(rec, |chunk|)
  }

  lemma EncodeReadsBack(rec: Record, o: Other, bound: int, bs: seq<byte>)
    requires Writable(rec, o)
    ensures ReadsAs(Lookup(bs, bound), bs, Encode(rec, o), rec, bound)
  {
    forall pre: seq<byte>, post: seq<byte> | bs == pre + Encode(rec, o) + post
      ensures Lookup(bs, bound)(|pre|) == if rec.usn >= bound then Beyond else Rec(rec, |Encode(rec, o)|)
    {
      LookAtEncoded(pre, rec, o, post, bound);
    }
  }

  lemma {:induction false} ChunksAreParsed(look: Looker, bs: seq<byte>, pre: seq<byte>, chunks: seq<seq<byte>>,
                                           recs: seq<Record>, bound: int)
    requires |chunks| == |recs| && bs == pre + Concat(chunks)
    requires forall i :: 0 <= i < |recs| ==> ReadsAs(look, bs, chunks[i], recs[i], bound)
    ensures Parse(look, |bs|, |pre|) ==
            Parsed(Below(recs, bound), if Below(recs, bound) == recs then Drained else PastBound)
    decreases |recs|
  {
    if recs != [] {
      assert bs == pre + chunks[0] + Concat(chunks[1..]);
      assert look(|pre|) == if recs[0].usn >= bound then Beyond else Rec(recs[0], |chunks[0]|);
      if recs[0].usn < bound {
        ChunksAreParsed(look, bs, pre + chunks[0], chunks[1..], recs[1..], bound);
        BelowStep(recs, bound);
      }
    }
  }

  lemma BelowStep(recs: seq<Record>, bound: int)
    requires recs != [] && recs[0].usn < bound
    ensures Below(recs, bound) == [recs[0]] + Below(recs[1..], bound)
    ensures Below(recs, bound) == recs <==> Below(recs[1..], bound) == recs[1..]
  {
    assert recs == [recs[0]] + recs[1..];
    assert Below(recs, bound)[1..] == Below(recs[1..], bound);
  }

  /**
    Record decode round trip.  Reading a buffer of encoded records gives them back, in order, up to the
    first one at or beyond the bound, and says which of the two ended it.
   */
  lemma ParseEncoded(pre: seq<byte>, recs: seq<Record>, os: seq<Other>, bound: int)
    requires AllWritable(recs, os)
    ensures var bs := pre + EncodeAll(recs, os);
            Parse(Lookup(bs, bound), |bs|, |pre|) ==
            Parsed(Below(recs, bound), if Below(recs, bound) == recs then Drained else PastBound)
  {
    var bs := pre + EncodeAll(recs, os);
    forall i | 0 <= i < |recs| ensures ReadsAs(Lookup(bs, bound), bs, Encodings(recs, os)[i], recs[i], bound) {
      EncodeReadsBack(recs[i], os[i], bound, bs);
    }
    ChunksAreParsed(Lookup(bs, bound), bs, pre, Encodings(recs, os), recs, bound);
  }

  // ---- What is accepted is a version-2 record.

  lemma {:induction false} ToFromLE(bs: seq<byte>)
    ensures ToLE(FromLE(bs), |bs|) == bs && FromLE(bs) < Pow256(|bs|)
  {
    if bs != [] {
      ToFromLE(bs[1..]);
      var x := FromLE(bs);
      assert x % 256 == bs[0] && x / 256 == FromLE(bs[1..]);
      assert bs == [bs[0]] + bs[1..];
    }
  }

  lemma {:induction false} UnitBytesOfUnits(bs: seq<byte>)
    requires |bs| % 2 == 0
    ensures UnitBytes(Units(bs)) == bs
    ensures forall i :: 0 <= i < |Units(bs)| ==> Units(bs)[i] < 0x1_0000
    decreases |bs|
  {
    if bs != [] {
      Widths();
      ToFromLE(bs[..2]);
      UnitBytesOfUnits(bs[2..]);
      assert bs == bs[..2] + bs[2..];
    }
  }

  lemma FieldBytes(bs: seq<byte>, off: nat, w: nat)
    requires off + w <= |bs|
    ensures ToLE(Field(bs, off, w), w) == bs[off..off + w] && Field(bs, off, w) < Pow256(w)
  {
    ToFromLE(bs[off..off + w]);
  }

  lemma UnsignedSigned(x: nat)
    requires x < 0x1_0000_0000_0000_0000
    ensures -0x8000_0000_0000_0000 <= Signed(x) < 0x8000_0000_0000_0000 && Unsigned(Signed(x)) == x
  {
  }

  lemma FourBytes(bs: seq<byte>, at: nat, w: nat, a: nat, b: nat, c: nat, d: nat)
    requires at + 4 * w <= |bs|
    requires a == Field(bs, at, w) && b == Field(bs, at + w, w)
    requires c == Field(bs, at + 2 * w, w) && d == Field(bs, at + 3 * w, w)
    ensures Four(w, a, b, c, d) == bs[at..at + 4 * w]
  {
    FieldBytes(bs, at, w);
    FieldBytes(bs, at + w, w);
    FieldBytes(bs, at + 2 * w, w);
    FieldBytes(bs, at + 3 * w, w);
    FourJoined(bs, at, w, ToLE(a, w), ToLE(b, w), ToLE(c, w), ToLE(d, w));
  }

  lemma FourJoined(bs: seq<byte>, at: nat, w: nat, p: seq<byte>, q: seq<byte>, r: seq<byte>, s: seq<byte>)
    requires at + 4 * w <= |bs| && p == bs[at..at + w] && q == bs[at + w..at + 2 * w]
    requires r == bs[at + 2 * w..at + 3 * w] && s == bs[at + 3 * w..at + 4 * w]
    ensures p + q + r + s == bs[at..at + 4 * w]
  {
    assert p + q == bs[at..at + 2 * w];
    assert p + q + r == bs[at..at + 3 * w];
  }

  /** The record and the other parts that these bytes spell. */
  function RawRecord(bs: seq<byte>, off: nat): Record
    requires off + HEADER <= |bs|
    requires off + Field(bs, off + 58, 2) + Field(bs, off + 56, 2) <= |bs|
  {
    var from := off + Field(bs, off + 58, 2);
    Record(Field(bs, off + 8, 8), Field(bs, off + 16, 8), Signed(Field(bs, off + 24, 8)), Field(bs, off + 40, 4),
           Field(bs, off + 52, 4), Units(bs[from..from + Field(bs, off + 56, 2)]))
  }

  function RawOther(bs: seq<byte>, off: nat, length: nat): Other
    requires off + HEADER <= |bs|
    requires HEADER <= Field(bs, off + 58, 2) && Field(bs, off + 58, 2) + Field(bs, off + 56, 2) <= length
    requires off + length <= |bs|
  {
    var nameAt, nameLen := Field(bs, off + 58, 2), Field(bs, off + 56, 2);
    Other(Field(bs, off + 6, 2), Field(bs, off + 32, 8), Field(bs, off + 44, 4), Field(bs, off + 48, 4),
          bs[off + HEADER..off + nameAt], bs[off + nameAt + nameLen..off + length])
  }

  lemma Fits(bs: seq<byte>, off: nat, w: nat, limit: nat)
    requires off + w <= |bs| && limit == Pow256(w)
    ensures Field(bs, off, w) < limit
  {
    FieldBytes(bs, off, w);
  }

  lemma RawNumbersFit(bs: seq<byte>, off: nat)
    requires off + HEADER <= |bs|
    ensures Field(bs, off + 8, 8) < 0x1_0000_0000_0000_0000 && Field(bs, off + 16, 8) < 0x1_0000_0000_0000_0000
    ensures Field(bs, off + 24, 8) < 0x1_0000_0000_0000_0000
    ensures Field(bs, off, 4) < 0x1_0000_0000
    ensures Field(bs, off + 40, 4) < 0x1_0000_0000 && Field(bs, off + 52, 4) < 0x1_0000_0000
    ensures Field(bs, off + 56, 2) < 0x1_0000 && Field(bs, off + 58, 2) < 0x1_0000
  {
    Widths();
    Fits(bs, off, 4, 0x1_0000_0000);
    Fits(bs, off + 8, 8, 0x1_0000_0000_0000_0000);
    Fits(bs, off + 16, 8, 0x1_0000_0000_0000_0000);
    Fits(bs, off + 24, 8, 0x1_0000_0000_0000_0000);
    Fits(bs, off + 40, 4, 0x1_0000_0000);
    Fits(bs, off + 52, 4, 0x1_0000_0000);
    Fits(bs, off + 56, 2, 0x1_0000);
    Fits(bs, off + 58, 2, 0x1_0000);
  }

  lemma RawName(bs: seq<byte>, from: nat, len: nat)
    requires from + len <= |bs| && len % 2 == 0
    ensures UnitBytes(Units(bs[from..from + len])) == bs[from..from + len]
    ensures 2 * |Units(bs[from..from + len])| == len
    ensures AllUnits(Units(bs[from..from + len]))
  {
    UnitBytesOfUnits(bs[from..from + len]);
  }

  /** The name and the parts around it have the lengths the fields say. */
  lemma RawLengths(bs: seq<byte>, off: nat, length: nat)
    requires off + HEADER <= |bs| && off + length <= |bs|
    requires HEADER <= Field(bs, off + 58, 2) && Field(bs, off + 58, 2) + Field(bs, off + 56, 2) <= length
    requires Field(bs, off + 56, 2) % 2 == 0
    ensures var raw, o := RawRecord(bs, off), RawOther(bs, off, length);
            && RecordLength(raw, o) == length && AllUnits(raw.name)
            && 2 * |raw.name| == Field(bs, off + 56, 2) && HEADER + |o.gap| == Field(bs, off + 58, 2)
            && UnitBytes(raw.name) == bs[off + HEADER + |o.gap|..off + HEADER + |o.gap| + 2 * |raw.name|]
  {
    var nameAt, nameLen := Field(bs, off + 58, 2), Field(bs, off + 56, 2);
    RawName(bs, off + nameAt, nameLen);
  }

  lemma RawIsStorable(bs: seq<byte>, off: nat, length: nat)
    requires off + HEADER <= |bs| && off + length <= |bs| && length == Field(bs, off, 4)
    requires HEADER <= Field(bs, off + 58, 2) && Field(bs, off + 58, 2) + Field(bs, off + 56, 2) <= length
    requires Field(bs, off + 56, 2) % 2 == 0
    ensures Storable(RawRecord(bs, off), RawOther(bs, off, length))
    ensures Unsigned(RawRecord(bs, off).usn) == Field(bs, off + 24, 8)
  {
    RawLengths(bs, off, length);
    RawNumbersFit(bs, off);
    UnsignedSigned(Field(bs, off + 24, 8));
  }

  // The parts of a record, and the bytes they are written as.

  ghost predicate HeadAt(bs: seq<byte>, off: nat, raw: Record, o: Other)
    requires off + HEADER <= |bs|
  {
    Head(raw, o) == bs[off..off + 8] && NameSpan(raw, o) == bs[off + 56..off + 60]
  }

  ghost predicate FoursAt(bs: seq<byte>, off: nat, raw: Record, o: Other)
    requires off + HEADER <= |bs| && -0x8000_0000_0000_0000 <= raw.usn
  {
    && Four(8, raw.fileId, raw.parentId, Unsigned(raw.usn), o.timeStamp) == bs[off + 8..off + 40]
    && Four(4, raw.reason, o.sourceInfo, o.securityId, raw.attributes) == bs[off + 40..off + 56]
  }

  ghost predicate BodyAt(bs: seq<byte>, off: nat, length: nat, raw: Record, o: Other)
    requires off + length <= |bs| && RecordLength(raw, o) == length
  {
    var name := off + HEADER + |o.gap|;
    && o.gap == bs[off + HEADER..name] && o.pad == bs[name + 2 * |raw.name|..off + length]
    && UnitBytes(raw.name) == bs[name..name + 2 * |raw.name|]
  }

  lemma HeadBytes(bs: seq<byte>, off: nat, raw: Record, o: Other)
    requires off + HEADER <= |bs| && RecordLength(raw, o) == Field(bs, off, 4)
    requires Field(bs, off + 4, 2) == 2 && o.minor == Field(bs, off + 6, 2)
    requires 2 * |raw.name| == Field(bs, off + 56, 2) && HEADER + |o.gap| == Field(bs, off + 58, 2)
    ensures HeadAt(bs, off, raw, o)
  {
    ThreeNumbers(bs, off, RecordLength(raw, o), 2, o.minor);
    TwoNumbers(bs, off + 56, 2 * |raw.name|, HEADER + |o.gap|);
  }

  lemma ThreeNumbers(bs: seq<byte>, at: nat, a: nat, b: nat, c: nat)
    requires at + 8 <= |bs|
    requires a == Field(bs, at, 4) && b == Field(bs, at + 4, 2) && c == Field(bs, at + 6, 2)
    ensures ToLE(a, 4) + ToLE(b, 2) + ToLE(c, 2) == bs[at..at + 8]
  {
    FieldBytes(bs, at, 4);
    FieldBytes(bs, at + 4, 2);
    FieldBytes(bs, at + 6, 2);
    assert bs[at..at + 8] == bs[at..at + 4] + bs[at + 4..at + 6] + bs[at + 6..at + 8];
  }

  lemma TwoNumbers(bs: seq<byte>, at: nat, a: nat, b: nat)
    requires at + 4 <= |bs| && a == Field(bs, at, 2) && b == Field(bs, at + 2, 2)
    ensures ToLE(a, 2) + ToLE(b, 2) == bs[at..at + 4]
  {
    FieldBytes(bs, at, 2);
    FieldBytes(bs, at + 2, 2);
    assert bs[at..at + 4] == bs[at..at + 2] + bs[at + 2..at + 4];
  }

  lemma Joined(bs: seq<byte>, a: nat, b: nat, c: nat, d: nat, e: nat, f: nat, g: nat, h: nat)
    requires a <= b <= c <= d <= e <= f <= g <= h <= |bs|
    ensures bs[a..b] + bs[b..c] + bs[c..d] + bs[d..e] + bs[e..f] + bs[f..g] + bs[g..h] == bs[a..h]
  {
    assert bs[a..b] + bs[b..c] == bs[a..c];
    assert bs[a..c] + bs[c..d] == bs[a..d];
    assert bs[a..d] + bs[d..e] == bs[a..e];
    assert bs[a..e] + bs[e..f] == bs[a..f];
    assert bs[a..f] + bs[f..g] == bs[a..g];
  }

  lemma AcceptedFields(bs: seq<byte>, off: nat, bound: int)
    requires off + HEADER <= |bs| && LookAt(bs, off, bound).Rec?
    ensures LookAt(bs, off, bound).length == Field(bs, off, 4) && off + Field(bs, off, 4) <= |bs|
    ensures Field(bs, off + 4, 2) == 2 && Field(bs, off + 56, 2) % 2 == 0
    ensures HEADER <= Field(bs, off + 58, 2) && Field(bs, off + 58, 2) + Field(bs, off + 56, 2) <= Field(bs, off, 4)
    ensures var raw := RawRecord(bs, off);
            LookAt(bs, off, bound).rec == raw.(name := CutAtNul(raw.name)) && raw.usn < bound
  {
    var nameLen, nameOff := Field(bs, off + 56, 2), Field(bs, off + 58, 2);
    assert off + nameOff + nameLen == off + (nameOff + nameLen);
  }

  /** The conditions on the fields of an accepted record. */
  predicate FieldsFit(bs: seq<byte>, off: nat, length: nat) {
    && off + HEADER <= |bs| && off + length <= |bs| && length == Field(bs, off, 4)
    && Field(bs, off + 4, 2) == 2 && Field(bs, off + 56, 2) % 2 == 0
    && HEADER <= Field(bs, off + 58, 2) && Field(bs, off + 58, 2) + Field(bs, off + 56, 2) <= length
  }

  lemma RawHead(bs: seq<byte>, off: nat, length: nat)
    requires FieldsFit(bs, off, length)
    ensures HeadAt(bs, off, RawRecord(bs, off), RawOther(bs, off, length))
  {
    RawLengths(bs, off, length);
    HeadBytes(bs, off, RawRecord(bs, off), RawOther(bs, off, length));
  }

  lemma RawFours(bs: seq<byte>, off: nat, length: nat)
    requires FieldsFit(bs, off, length)
    ensures -0x8000_0000_0000_0000 <= RawRecord(bs, off).usn
    ensures FoursAt(bs, off, RawRecord(bs, off), RawOther(bs, off, length))
  {
    var raw, o := RawRecord(bs, off), RawOther(bs, off, length);
    RawIsStorable(bs, off, length);
    FourBytes(bs, off + 8, 8, raw.fileId, raw.parentId, Unsigned(raw.usn), o.timeStamp);
    FourBytes(bs, off + 40, 4, raw.reason, o.sourceInfo, o.securityId, raw.attributes);
  }

  lemma RawBody(bs: seq<byte>, off: nat, length: nat)
    requires FieldsFit(bs, off, length)
    ensures RecordLength(RawRecord(bs, off), RawOther(bs, off, length)) == length
    ensures BodyAt(bs, off, length, RawRecord(bs, off), RawOther(bs, off, length))
  {
    RawLengths(bs, off, length);
  }

  lemma EncodedFromParts(bs: seq<byte>, off: nat, length: nat, raw: Record, o: Other)
    requires Storable(raw, o) && RecordLength(raw, o) == length && off + length <= |bs|
    requires HeadAt(bs, off, raw, o) && FoursAt(bs, off, raw, o) && BodyAt(bs, off, length, raw, o)
    ensures Encode(raw, o) == bs[off..off + length]
  {
    var name := off + HEADER + |o.gap|;
    JoinedParts(bs, off, off + 8, off + 40, off + 56, off + 60, name, name + 2 * |raw.name|, off + length, Head(raw, o),
                Four(8, raw.fileId, raw.parentId, Unsigned(raw.usn), o.timeStamp),
                Four(4, raw.reason, o.sourceInfo, o.securityId, raw.attributes), NameSpan(raw, o),
                o.gap, UnitBytes(raw.name), o.pad);
  }

  lemma JoinedParts(bs: seq<byte>, i: nat, j: nat, k: nat, l: nat, m: nat, n: nat, p: nat, q: nat,
                    a: seq<byte>, b: seq<byte>, c: seq<byte>, d: seq<byte>, e: seq<byte>, f: seq<byte>, g: seq<byte>)
    requires i <= j <= k <= l <= m <= n <= p <= q <= |bs|
    requires a == bs[i..j] && b == bs[j..k] && c == bs[k..l] && d == bs[l..m]
    requires e == bs[m..n] && f == bs[n..p] && g == bs[p..q]
    ensures a + b + c + d + e + f + g == bs[i..q]
  {
    Joined(bs, i, j, k, l, m, n, p, q);
  }

  /**
    Whatever is accepted is a version-2 record: its bytes are exactly those of writing one, and what is
    taken from it is that record, with its name cut at the first NUL.
   */
  lemma AcceptedIsWritten(bs: seq<byte>, off: nat, bound: int) returns (raw: Record, o: Other)
    requires off + HEADER <= |bs| && LookAt(bs, off, bound).Rec?
    ensures Storable(raw, o) && RecordLength(raw, o) == LookAt(bs, off, bound).length
    ensures bs[off..off + RecordLength(raw, o)] == Encode(raw, o)
    ensures LookAt(bs, off, bound).rec == raw.(name := CutAtNul(raw.name)) && raw.usn < bound
  {
    AcceptedFields(bs, off, bound);
    var length := Field(bs, off, 4);
    raw, o := RawRecord(bs, off), RawOther(bs, off, length);
    RawIsStorable(bs, off, length);
    RawHead(bs, off, length);
    RawFours(bs, off, length);
    RawBody(bs, off, length);
    EncodedFromParts(bs, off, length, raw, o);
  }

  /** The header's length fits the reply, and its version is 2. */
  predicate HeaderFits(bs: seq<byte>, off: nat)
    requires off + HEADER <= |bs|
  {
    HEADER <= FromLE(bs[off..off + 4]) <= |bs| - off && bs[off + 4] == 2 && bs[off + 5] == 0
  }

  /** The name lies after the header and within the record, in whole units. */
  predicate NameFits(bs: seq<byte>, off: nat)
    requires off + HEADER <= |bs|
  {
    var len, at := FromLE(bs[off + 56..off + 58]), FromLE(bs[off + 58..off + 60]);
    HEADER <= at && at + len <= FromLE(bs[off..off + 4]) && len % 2 == 0
  }

  /** A bad length or version is refused before the bound is looked at, a bad name only below it. */
  lemma RefusedIff(bs: seq<byte>, off: nat, bound: int)
    requires off + HEADER <= |bs|
    ensures var usn := Signed(FromLE(bs[off + 24..off + 32]));
            && (LookAt(bs, off, bound).Broken? <==> !HeaderFits(bs, off) || (usn < bound && !NameFits(bs, off)))
            && (LookAt(bs, off, bound).Beyond? <==> HeaderFits(bs, off) && usn >= bound)
  {
    var v := bs[off + 4..off + 6];
    assert v[1..] == [bs[off + 5]] && v[1..][1..] == [];
    assert FromLE(v[1..]) == bs[off + 5];
    var high: int := bs[off + 5];
    assert FromLE(v) == bs[off + 4] + 256 * high;
  }

  // ---- A malformed reply.

  /** Where reading from `off` ends. */
  function EndOf(look: Looker, size: nat, off: nat): nat
    decreases size - off
  {
    if off + HEADER > size || !look(off).Rec? || look(off).length == 0 then off
    else EndOf(look, size, off + look(off).length)
  }

  lemma {:induction false} StopAt(look: Looker, size: nat, off: nat)
    requires forall o: nat :: look(o).Rec? ==> 0 < look(o).length && o + look(o).length <= size
    requires off <= size
    ensures off <= EndOf(look, size, off) <= size
    ensures Parse(look, size, off).stop ==
            if EndOf(look, size, off) + HEADER > size then Drained
            else match look(EndOf(look, size, off))
                 case Beyond => PastBound
                 case Broken(fault) => Malformed(fault)
                 case Rec(_, _) => Drained
    ensures EndOf(look, size, off) + HEADER <= size ==> !look(EndOf(look, size, off)).Rec?
    decreases size - off
  {
    if off + HEADER <= size && look(off).Rec? {
      StopAt(look, size, off + look(off).length);
    }
  }

  /** Where each record read from `off` on starts, and where reading ends. */
  function Offsets(look: Looker, size: nat, off: nat): (offs: seq<nat>)
    ensures offs != [] && offs[0] == off
    decreases size - off
  {
    if off + HEADER > size || !look(off).Rec? || look(off).length == 0 then [off]
    else [off] + Offsets(look, size, off + look(off).length)
  }

  /** These records lie end to end from the first offset to the last. */
  ghost predicate Tiles(look: Looker, size: nat, recs: seq<Record>, offs: seq<nat>) {
    && |offs| == |recs| + 1
    && forall i :: 0 <= i < |recs| ==> TileAt(look, size, recs[i], offs[i], offs[i + 1])
  }

  predicate TileAt(look: Looker, size: nat, rec: Record, from: nat, to: nat) {
    from < to && from + HEADER <= size && look(from) == Rec(rec, to - from)
  }

  lemma TilesCons(look: Looker, size: nat, rec: Record, off: nat, recs: seq<Record>, offs: seq<nat>)
    requires Tiles(look, size, recs, offs) && TileAt(look, size, rec, off, offs[0])
    ensures Tiles(look, size, [rec] + recs, [off] + offs)
  {
  }

  lemma {:induction false} ParseTiles(look: Looker, size: nat, off: nat)
    ensures var offs := Offsets(look, size, off);
            Tiles(look, size, Parse(look, size, off).recs, offs) && offs[|offs| - 1] == EndOf(look, size, off)
    decreases size - off
  {
    if off + HEADER <= size && look(off).Rec? && look(off).length > 0 {
      var next := off + look(off).length;
      ParseTiles(look, size, next);
      ParseStep(look, size, off, look(off).rec, look(off).length);
      TilesCons(look, size, look(off).rec, off, Parse(look, size, next).recs, Offsets(look, size, next));
    }
  }

  /** The record passes every check where it starts, and fills the bytes up to `to`. */
  predicate ReadsFrom(bs: seq<byte>, bound: int, rec: Record, from: nat, to: nat) {
    from < to <= |bs| && from + HEADER <= |bs| && LookAt(bs, from, bound) == Rec(rec, to - from)
  }

  /**
    On arbitrary bytes: the records read lie end to end in the reply, each passing every check at its own
    offset, and reading ends right after the last of them, because fewer bytes than a header are left,
    at a record at or beyond the bound, or at one that fails the check reported.
   */
  lemma StopExplained(bs: seq<byte>, off: nat, bound: int) returns (offs: seq<nat>)
    requires off <= |bs|
    ensures var recs := Parse(Lookup(bs, bound), |bs|, off).recs;
            && |offs| == |recs| + 1 && offs[0] == off
            && forall i :: 0 <= i < |recs| ==> ReadsFrom(bs, bound, recs[i], offs[i], offs[i + 1])
    ensures var end := offs[|offs| - 1];
            end <= |bs| &&
            match Parse(Lookup(bs, bound), |bs|, off).stop
            case Drained => end + HEADER > |bs|
            case PastBound => end + HEADER <= |bs| && LookAt(bs, end, bound) == Beyond
            case Malformed(fault) => end + HEADER <= |bs| && LookAt(bs, end, bound) == Broken(fault)
  {
    var look := Lookup(bs, bound);
    offs := Offsets(look, |bs|, off);
    ParseTiles(look, |bs|, off);
    StopAt(look, |bs|, off);
    var recs, end := Parse(look, |bs|, off).recs, EndOf(look, |bs|, off);
    forall i | 0 <= i < |recs| ensures ReadsFrom(bs, bound, recs[i], offs[i], offs[i + 1]) {
      assert TileAt(look, |bs|, recs[i], offs[i], offs[i + 1]);
    }
    assert end + HEADER <= |bs| ==> look(end) == LookAt(bs, end, bound);
  }
}
