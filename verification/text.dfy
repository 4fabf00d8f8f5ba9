/** The optional value. */
module Options {
  datatype Option<+T> = None | Some(value: T)
}

/**
  Windows path text.

  A Go string is modelled by its sequence of runes.  `strings.ToUpper` maps rune by rune, so it is
  modelled by any rune map that fixes the path and wildcard metacharacters and sends no other rune to
  one of them.
 */
module WinText {

  /** The path separators, the drive colon, the wildcards and the dot. */
  predicate IsMeta(c: char) {
    c == '\\' || c == '/' || c == ':' || c == '*' || c == '?' || c == '.'
  }

  ghost predicate KeepsMeta(f: char -> char) {
    forall c {:trigger f(c)} :: if IsMeta(c) then f(c) == c else !IsMeta(f(c))
  }

  /** A rune-wise upper-casing. */
  type Fold = f: char -> char | KeepsMeta(f) witness (c: char) => c

  /** `strings.ToUpper`. */
  function Upper(up: Fold, s: string): (r: string)
    ensures |r| == |s|
    ensures forall i :: 0 <= i < |s| ==> r[i] == up(s[i])
  {
    seq(|s|, i requires 0 <= i < |s| => up(s[i]))
  }

  lemma UpperConcat(up: Fold, s: string, t: string)
    ensures Upper(up, s + t) == Upper(up, s) + Upper(up, t)
  {
  }

  /** `strings.ReplaceAll(s, "/", "\\")`. */
  function Backslashed(s: string): (r: string)
    ensures |r| == |s|
    ensures forall i :: 0 <= i < |s| ==> r[i] == if s[i] == '/' then '\\' else s[i]
  {
    seq(|s|, i requires 0 <= i < |s| => if s[i] == '/' then '\\' else s[i])
  }

  predicate EndsInSeparator(s: string) {
    s != "" && s[|s| - 1] == '\\'
  }

  /** The test `len(s) == 2 && s[1] == ':'`: it counts bytes, so the letter must be a one-byte rune. */
  predicate IsDrive(s: string) {
    |s| == 2 && s[0] < 0x80 as char && s[1] == ':'
  }

  /** `strings.LastIndexByte(s, '\\')`, or `-1`. */
  function LastSeparator(s: string): (i: int)
    ensures -1 <= i < |s|
    ensures i >= 0 ==> s[i] == '\\'
    ensures forall k :: i < k < |s| ==> s[k] != '\\'
  {
    if s == "" then -1
    else if s[|s| - 1] == '\\' then |s| - 1
    else LastSeparator(s[..|s| - 1])
  }

  /** Go's `<` on strings: lexicographic.  UTF-8 preserves the order of runes. */
  predicate Less(a: string, b: string) {
    b != "" && (a == "" || a[0] < b[0] || (a[0] == b[0] && Less(a[1..], b[1..])))
  }

  lemma {:induction false} LessIrreflexive(a: string)
    ensures !Less(a, a)
  {
    if a != "" {
      LessIrreflexive(a[1..]);
    }
  }

  lemma {:induction false} LessTransitive(a: string, b: string, c: string)
    requires Less(a, b) && Less(b, c)
    ensures Less(a, c)
  {
    if a != "" && a[0] == b[0] && b[0] == c[0] {
      LessTransitive(a[1..], b[1..], c[1..]);
    }
  }

  lemma {:induction false} LessTotal(a: string, b: string)
    ensures a == b || Less(a, b) || Less(b, a)
  {
    if a != "" && b != "" && a[0] == b[0] {
      LessTotal(a[1..], b[1..]);
      assert a == [a[0]] + a[1..] && b == [b[0]] + b[1..];
    }
  }

  /** `strings.Split(s, "\\")`: the segments between separators; never empty. */
  function Split(s: string): (segs: seq<string>)
    ensures segs != []
    ensures forall seg :: seg in segs ==> '\\' !in seg
    decreases |s|
  {
    var i := LastSeparator(s);
    if i < 0 then [s] else Split(s[..i]) + [s[i + 1..]]
  }

  lemma LastSeparatorIs(t: string, i: nat)
    requires i < |t| && t[i] == '\\' && forall k :: i < k < |t| ==> t[k] != '\\'
    ensures LastSeparator(t) == i
  {
  }

  lemma CutAtLastSeparator(dir: string, name: string)
    requires '\\' !in name
    ensures LastSeparator(dir + "\\" + name) == |dir|
    ensures (dir + "\\" + name)[..|dir|] == dir && (dir + "\\" + name)[|dir| + 1..] == name
  {
    var start := dir + "\\";
    assert (start + name)[..|start|] == start && (start + name)[|start|..] == name && start[..|dir|] == dir;
    forall k | |dir| < k < |start + name| ensures (start + name)[k] != '\\' {
      assert (start + name)[k] == name[k - |start|];
    }
    LastSeparatorIs(start + name, |dir|);
  }

  /** Appending a separator-free segment appends it to the split. */
  lemma SplitAppend(s: string, seg: string)
    requires '\\' !in seg
    ensures Split(s + "\\" + seg) == Split(s) + [seg]
  {
    CutAtLastSeparator(s, seg);
  }

  lemma {:induction false} SplitInjective(s: string, t: string)
    requires Split(s) == Split(t)
    ensures s == t
    decreases |s|
  {
    var i, j := LastSeparator(s), LastSeparator(t);
    if i >= 0 {
      if j >= 0 {
        var a, b := Split(s[..i]), Split(t[..j]);
        assert a == (a + [s[i + 1..]])[..|a|] && b == (b + [t[j + 1..]])[..|b|];
        assert |a| == |b|;
        SplitInjective(s[..i], t[..j]);
        assert s[i + 1..] == Split(s)[|a|] == t[j + 1..];
        assert s == s[..i] + "\\" + s[i + 1..] && t == t[..j] + "\\" + t[j + 1..];
      }
    }
  }

  /** Cutting a string at its last separator, `p` and a separator start it in one of two ways. */
  lemma PrefixAtLastSeparator(p: string, s: string)
    requires LastSeparator(s) >= 0
    ensures p + "\\" <= s <==> p == s[..LastSeparator(s)] || p + "\\" <= s[..LastSeparator(s)]
  {
    var i := LastSeparator(s);
    var q := p + "\\";
    if q <= s {
      assert s[|p|] == q[|p|];
      assert |p| <= i;
      if |p| < i { assert s[..|q|] == s[..i][..|q|]; } else { assert p == s[..i]; }
    }
    if p == s[..i] { assert s[..|q|] == q; }
  }

  /**
    A string starts with `p` and a separator exactly when `p`'s segments are a proper prefix of its
    own: the guard against `C:\TempX` being taken for something under `C:\Temp`.
   */
  lemma {:induction false} PrefixIsSegmentPrefix(p: string, s: string)
    ensures p + "\\" <= s <==> Split(p) < Split(s)
    decreases |s|
  {
    var i := LastSeparator(s);
    if i < 0 {
      NoSeparatorNoPrefix(p, s);
    } else {
      PrefixAtLastSeparator(p, s);
      PrefixIsSegmentPrefix(p, s[..i]);
      if Split(p) == Split(s[..i]) { SplitInjective(p, s[..i]); }
      ProperPrefixOfSnoc(Split(p), Split(s[..i]), s[i + 1..]);
    }
  }

  lemma NoSeparatorNoPrefix(p: string, s: string)
    requires LastSeparator(s) < 0
    ensures !(p + "\\" <= s)
  {
    var q := p + "\\";
    assert q[|p|] == '\\';
  }

  lemma ProperPrefixOfSnoc<T>(a: seq<T>, b: seq<T>, x: T)
    ensures a < b + [x] <==> a == b || a < b
  {
    if a < b + [x] {
      assert a == b[..|a|];
    }
  }

  lemma UpperLastSeparator(up: Fold, s: string)
    ensures LastSeparator(Upper(up, s)) == LastSeparator(s)
  {
    var u := Upper(up, s);
    assert forall k :: 0 <= k < |s| ==> (u[k] == '\\' <==> s[k] == '\\');
  }

  lemma UpperAllSnoc(up: Fold, segs: seq<string>, seg: string)
    ensures UpperAll(up, segs + [seg]) == UpperAll(up, segs) + [Upper(up, seg)]
  {
  }

  lemma {:induction false} UpperSplit(up: Fold, s: string)
    ensures Split(Upper(up, s)) == UpperAll(up, Split(s))
    decreases |s|
  {
    var i := LastSeparator(s);
    UpperLastSeparator(up, s);
    if i >= 0 {
      UpperSplit(up, s[..i]);
      UpperSplitAt(up, s, i);
    }
  }

  lemma SplitAt(s: string, i: nat)
    requires i < |s| && i == LastSeparator(s)
    ensures Split(s) == Split(s[..i]) + [s[i + 1..]]
  {
  }

  lemma UpperCut(up: Fold, s: string, i: nat)
    requires i < |s|
    ensures Upper(up, s)[..i] == Upper(up, s[..i]) && Upper(up, s)[i + 1..] == Upper(up, s[i + 1..])
  {
  }

  lemma UpperSplitAt(up: Fold, s: string, i: nat)
    requires i < |s| && i == LastSeparator(s) == LastSeparator(Upper(up, s))
    requires Split(Upper(up, s[..i])) == UpperAll(up, Split(s[..i]))
    ensures Split(Upper(up, s)) == UpperAll(up, Split(s))
  {
    SplitAt(s, i);
    SplitAt(Upper(up, s), i);
    UpperCut(up, s, i);
    UpperAllSnoc(up, Split(s[..i]), s[i + 1..]);
  }

  function UpperAll(up: Fold, segs: seq<string>): (r: seq<string>)
    ensures |r| == |segs|
    ensures forall i :: 0 <= i < |segs| ==> r[i] == Upper(up, segs[i])
  {
    seq(|segs|, i requires 0 <= i < |segs| => Upper(up, segs[i]))
  }
}
