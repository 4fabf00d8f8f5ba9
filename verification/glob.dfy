/**
  Wildcard matching of file names (exclude.go, `matchSpec`).
 */
module Glob {
  import opened WinText

  /**
    What a pattern means: `*` stands for any run of runes, `?` for exactly one, and any other rune for
    itself up to case.
   */
  ghost predicate Globs(up: Fold, p: string, n: string)
    decreases |p|
  {
    if p == "" then n == ""
    else if p[0] == '*' then exists k :: 0 <= k <= |n| && Globs(up, p[1..], n[k..])
    else n != "" && (p[0] == '?' || up(p[0]) == up(n[0])) && Globs(up, p[1..], n[1..])
  }

  /**
    The matcher's loop as a function of its four variables: pattern position, name position, position
    of the last star (or -1), and where in the name that star's run currently ends.
   */
  function Scan(p: string, n: string, pi: nat, ni: nat, star: int, mark: nat): bool
    requires pi <= |p| && mark <= ni <= |n| && -1 <= star < pi
    decreases |n| - mark, |p| - pi
  {
    if ni == |n| then AllStars(p[pi..])
    else if pi < |p| && (p[pi] == '?' || p[pi] == n[ni]) then Scan(p, n, pi + 1, ni + 1, star, mark)
    else if pi < |p| && p[pi] == '*' then Scan(p, n, pi + 1, ni, pi, ni)
    else if star >= 0 then Scan(p, n, star + 1, mark + 1, star, mark + 1)
    else false
  }

  predicate AllStars(p: string) {
    forall i :: 0 <= i < |p| ==> p[i] == '*'
  }

  function MatchSpec(up: Fold, pattern: string, name: string): bool {
    Scan(Upper(up, pattern), Upper(up, name), 0, 0, -1, 0)
  }

  /** `matchSpec`, with its main loop's iterations counted. */
  method MatchSpecLoop(up: Fold, pattern: string, name: string) returns (matched: bool, steps: nat)
    ensures matched == MatchSpec(up, pattern, name)
    ensures steps <= (|pattern| + 1) * (|name| + 1)
  {
    var p, n := Upper(up, pattern), Upper(up, name);
    matched, steps := ScanLoop(p, n);
    TimesIsProduct(|n| + 1, |p| + 1);
  }

  method ScanLoop(p: string, n: string) returns (matched: bool, steps: nat)
    ensures matched == Scan(p, n, 0, 0, -1, 0)
    ensures steps <= Times(|n| + 1, |p| + 1)
  {
    var pi, ni := 0, 0;
    var star, mark := -1, 0;
    steps := 0;
    while ni < |n|
      invariant pi <= |p| && mark <= ni <= |n| && -1 <= star < pi
      invariant Scan(p, n, 0, 0, -1, 0) == Scan(p, n, pi, ni, star, mark)
      invariant steps + Times(|n| - mark, |p| + 1) + (|p| - pi) <= Times(|n|, |p| + 1) + |p|
      decreases |n| - mark, |p| - pi
    {
      steps := steps + 1;
      if pi < |p| && (p[pi] == '?' || p[pi] == n[ni]) {
        pi := pi + 1;
        ni := ni + 1;
      } else if pi < |p| && p[pi] == '*' {
        TimesMonotone(|n| - ni, |n| - mark, |p| + 1);
        star, mark := pi, ni;
        pi := pi + 1;
      } else if star >= 0 {
        mark := mark + 1;
        pi, ni := star + 1, mark;
      } else {
        return false, steps;
      }
    }
    matched := TrailingStars(p, pi);
  }

  method TrailingStars(p: string, from: nat) returns (all: bool)
    requires from <= |p|
    ensures all == AllStars(p[from..])
  {
    var pi := from;
    while pi < |p| && p[pi] == '*'
      invariant from <= pi <= |p|
      invariant forall i :: from <= i < pi ==> p[i] == '*'
    {
      pi := pi + 1;
    }
    assert pi < |p| ==> p[from..][pi - from] != '*';
    return pi == |p|;
  }

  /** `a * w`, added up so that the loop's cost argument stays linear. */
  ghost function Times(a: nat, w: nat): nat {
    if a == 0 then 0 else w + Times(a - 1, w)
  }

  lemma TimesMonotone(a: nat, b: nat, w: nat)
    requires a <= b
    ensures Times(a, w) <= Times(b, w)
  {
  }

  lemma {:induction false} TimesIsProduct(a: nat, w: nat)
    ensures Times(a, w) == a * w
  {
    if a > 0 {
      TimesIsProduct(a - 1, w);
      assert a * w == (a - 1) * w + w;
    }
  }

  /** The fold for text that is already folded. */
  const SAME: Fold := (c: char) => c

  lemma {:induction false} GlobsFolded(up: Fold, p: string, n: string)
    ensures Globs(up, p, n) <==> Globs(SAME, Upper(up, p), Upper(up, n))
    decreases |p|
  {
    var foldedP, foldedN := Upper(up, p), Upper(up, n);
    if p != "" {
      assert foldedP[1..] == Upper(up, p[1..]);
      assert foldedP[0] == '*' <==> p[0] == '*';
      if p[0] == '*' {
        forall k | 0 <= k <= |n|
          ensures Globs(up, p[1..], n[k..]) <==> Globs(SAME, foldedP[1..], foldedN[k..])
        {
          GlobsFolded(up, p[1..], n[k..]);
          assert foldedN[k..] == Upper(up, n[k..]);
        }
      } else if n != "" {
        GlobsFolded(up, p[1..], n[1..]);
        assert foldedN[1..] == Upper(up, n[1..]);
      }
    }
  }

  // ---- Soundness: on every name, a match is a glob match.

  /** `Globs` of what is left from positions `i` and `j`. */
  ghost predicate At(p: string, n: string, i: nat, j: nat)
    requires i <= |p| && j <= |n|
  {
    Globs(SAME, p[i..], n[j..])
  }

  /** `Globs` of what is left of the pattern from `i`, and of the name from `lo` or later. */
  ghost predicate From(p: string, n: string, i: nat, lo: nat)
    requires i <= |p|
  {
    exists k :: lo <= k <= |n| && At(p, n, i, k)
  }

  lemma AtStep(p: string, n: string, i: nat, j: nat)
    requires i < |p| && j <= |n|
    ensures p[i] != '*' ==> (At(p, n, i, j) <==>
              j < |n| && (p[i] == '?' || p[i] == n[j]) && At(p, n, i + 1, j + 1))
    ensures p[i] == '*' ==> (At(p, n, i, j) <==> From(p, n, i + 1, j))
  {
    assert p[i..][1..] == p[i + 1..];
    if p[i] == '*' {
      if At(p, n, i, j) {
        var k :| 0 <= k <= |n[j..]| && Globs(SAME, p[i + 1..], n[j..][k..]);
        assert n[j..][k..] == n[j + k..];
        assert At(p, n, i + 1, j + k);
      }
      if From(p, n, i + 1, j) {
        var i' := i + 1;
        var k :| j <= k <= |n| && At(p, n, i', k);
        assert n[j..][k - j..] == n[k..];
      }
    } else if j < |n| {
      assert n[j..][1..] == n[j + 1..];
    }
  }

  lemma {:induction false} AllStarsGlobEmpty(p: string)
    ensures AllStars(p) <==> Globs(SAME, p, "")
  {
    if p != "" {
      AllStarsGlobEmpty(p[1..]);
      if p[0] == '*' {
        assert ""[0..] == "";
        assert AllStars(p) <==> AllStars(p[1..]);
      }
    }
  }

  lemma {:induction false} ScanSound(p: string, n: string, pi: nat, ni: nat, star: int, mark: nat)
    requires pi <= |p| && mark <= ni <= |n| && -1 <= star < pi
    requires Scan(p, n, pi, ni, star, mark)
    requires At(p, n, pi, ni) ==> Globs(SAME, p, n)
    requires star >= 0 && From(p, n, star + 1, mark) ==> Globs(SAME, p, n)
    ensures Globs(SAME, p, n)
    decreases |n| - mark, |p| - pi
  {
    if ni == |n| {
      AllStarsGlobEmpty(p[pi..]);
      assert n[ni..] == "";
    } else if pi < |p| && (p[pi] == '?' || p[pi] == n[ni]) {
      AtStep(p, n, pi, ni);
      ScanSound(p, n, pi + 1, ni + 1, star, mark);
    } else if pi < |p| && p[pi] == '*' {
      AtStep(p, n, pi, ni);
      ScanSound(p, n, pi + 1, ni, pi, ni);
    } else {
      ScanSound(p, n, star + 1, mark + 1, star, mark + 1);
    }
  }

  /** A rule never matches a name its pattern does not stand for, whatever the name contains. */
  lemma MatchSpecSound(up: Fold, pattern: string, name: string)
    requires MatchSpec(up, pattern, name)
    ensures Globs(up, pattern, name)
  {
    var p, n := Upper(up, pattern), Upper(up, name);
    assert p[0..] == p && n[0..] == n;
    ScanSound(p, n, 0, 0, -1, 0);
    GlobsFolded(up, pattern, name);
  }

  // ---- Completeness: on names without a star, forgetting all but the last star loses no match.

  /** A star-free stretch of pattern consumes exactly its own length. */
  lemma {:induction false} StarFreeConsumes(p: string, n: string, a: nat, b: nat, j: nat)
    requires a <= b <= |p| && j <= |n|
    requires forall t :: a <= t < b ==> p[t] != '*'
    requires At(p, n, a, j)
    ensures j + (b - a) <= |n| && At(p, n, b, j + (b - a))
    decreases b - a
  {
    if a < b {
      AtStep(p, n, a, j);
      StarFreeConsumes(p, n, a + 1, b, j + 1);
    }
  }

  lemma {:induction false} ScanComplete(p: string, n: string, pi: nat, ni: nat, star: int, mark: nat)
    requires '*' !in n
    requires pi <= |p| && mark <= ni <= |n| && -1 <= star < pi
    requires star >= 0 ==> pi - star - 1 == ni - mark && forall t :: star < t < pi ==> p[t] != '*'
    requires At(p, n, pi, ni) || (star >= 0 && From(p, n, star + 1, mark + 1))
    ensures Scan(p, n, pi, ni, star, mark)
    decreases |n| - mark, |p| - pi
  {
    if star >= 0 && !At(p, n, pi, ni) {
      var body := star + 1;
      var k :| mark < k <= |n| && At(p, n, body, k);
      StarFreeConsumes(p, n, star + 1, pi, k);
      if pi < |p| && p[pi] == '*' {
        AbsorbEarlierRun(p, n, pi, ni, k + (pi - star - 1));
      }
    }
    if ni == |n| {
      assert n[ni..] == "";
      AllStarsGlobEmpty(p[pi..]);
    } else if pi < |p| && (p[pi] == '?' || p[pi] == n[ni]) {
      assert p[pi] != '*';
      AtStep(p, n, pi, ni);
      ScanComplete(p, n, pi + 1, ni + 1, star, mark);
    } else if pi < |p| && p[pi] == '*' {
      AtStep(p, n, pi, ni);
      ScanComplete(p, n, pi + 1, ni, pi, ni);
    } else {
      if pi < |p| { AtStep(p, n, pi, ni); }
      ScanComplete(p, n, star + 1, mark + 1, star, mark + 1);
    }
  }

  /** What a star matches from a later position it also matches from an earlier one. */
  lemma AbsorbEarlierRun(p: string, n: string, i: nat, j: nat, later: nat)
    requires i < |p| && p[i] == '*' && j <= later <= |n|
    requires At(p, n, i, later)
    ensures At(p, n, i, j)
  {
    AtStep(p, n, i, later);
    AtStep(p, n, i, j);
  }

  /** On names without a star, single-star backtracking decides exactly the glob relation. */
  lemma MatchSpecExact(up: Fold, pattern: string, name: string)
    requires '*' !in name
    ensures MatchSpec(up, pattern, name) <==> Globs(up, pattern, name)
  {
    var p, n := Upper(up, pattern), Upper(up, name);
    assert p[0..] == p && n[0..] == n;
    GlobsFolded(up, pattern, name);
    if MatchSpec(up, pattern, name) { MatchSpecSound(up, pattern, name); }
    if Globs(SAME, p, n) { ScanComplete(p, n, 0, 0, -1, 0); }
  }

  // ---- The boundary: literal equality is tried before the star case.

  /** The pattern that goes wrong on a name with a star at `i`: that star is consumed as a literal. */
  function Misread(name: string, i: nat): string
    requires i < |name|
  {
    name[..i] + "*" + seq(|name| - i, _ => '?')
  }

  lemma {:induction false} QuestionsGlob(up: Fold, n: string)
    ensures Globs(up, seq(|n|, _ => '?'), n)
  {
    var q := seq(|n|, _ => '?');
    if n != "" {
      QuestionsGlob(up, n[1..]);
      assert q[1..] == seq(|n[1..]|, _ => '?');
    }
  }

  lemma {:induction false} LiteralThenRest(up: Fold, w: string, p: string, n: string)
    requires '*' !in w && Globs(up, p, n)
    ensures Globs(up, w + p, w + n)
  {
    if w == "" {
      assert w + p == p && w + n == n;
    } else {
      LiteralThenRest(up, w[1..], p, n);
      assert (w + p)[1..] == w[1..] + p && (w + n)[1..] == w[1..] + n;
    }
  }

  lemma {:induction false} LiteralRunLockstep(up: Fold, name: string, i: nat, at: nat)
    requires i < |name| && '*' !in name[..i] && name[i] == '*' && at <= |name|
    ensures !Scan(Upper(up, Misread(name, i)), Upper(up, name), at, at, -1, 0)
    decreases |name| - at
  {
    var p, foldedP, foldedN := Misread(name, i), Upper(up, Misread(name, i)), Upper(up, name);
    if at == |name| {
      assert foldedP[at..][0] == '?';
    } else {
      assert at <= i ==> foldedP[at] == foldedN[at];
      assert at > i ==> foldedP[at] == '?';
      LiteralRunLockstep(up, name, i, at + 1);
    }
  }

  lemma MisreadGlobs(up: Fold, name: string, i: nat)
    requires i < |name| && '*' !in name[..i]
    ensures Globs(up, Misread(name, i), name)
  {
    var w, rest := name[..i], name[i..];
    var q := seq(|rest|, _ => '?');
    QuestionsGlob(up, rest);
    assert rest[0..] == rest && ("*" + q)[1..] == q;
    assert Globs(up, "*" + q, rest);
    LiteralThenRest(up, w, "*" + q, rest);
    assert w + ("*" + q) == Misread(name, i) && w + rest == name;
  }

  /** The matcher agrees with the glob relation on every pattern exactly when the name has no star. */
  lemma StarFreeNamesAreTheBoundary(up: Fold, name: string)
    ensures (forall pattern :: MatchSpec(up, pattern, name) <==> Globs(up, pattern, name)) <==> '*' !in name
  {
    if '*' !in name {
      forall pattern ensures MatchSpec(up, pattern, name) <==> Globs(up, pattern, name) {
        MatchSpecExact(up, pattern, name);
      }
    } else {
      var i := FirstStar(name);
      MisreadGlobs(up, name, i);
      LiteralRunLockstep(up, name, i, 0);
      assert !MatchSpec(up, Misread(name, i), name) && Globs(up, Misread(name, i), name);
    }
  }

  function FirstStar(n: string): (i: nat)
    requires '*' in n
    ensures i < |n| && n[i] == '*' && '*' !in n[..i]
  {
    if n[0] == '*' then 0
    else
      var i := 1 + FirstStar(n[1..]);
      assert n[..i] == [n[0]] + n[1..][..i - 1];
      i
  }
}
