/**
  Exclusion rules: what one rule matches, and what lets a whole subtree be cut
  (exclude.go; walk.go, `specMatchesAll`, `matchExclude`, `subtreeExcluded`).
 */
module Exclude {
  import opened WinText
  import opened Options
  import Glob

  datatype ExcludeRule = ExcludeRule(writer: string, path: string, rawPath: string, fileSpec: string, recursive: bool)

  // ---- Path normalization.

  /** The guard of `normWinPath`'s loop: a trailing separator that is not a drive root's. */
  predicate Strippable(p: string) {
    |p| > 1 && EndsInSeparator(p) && !(|p| == 3 && IsDrive(p[..2]))
  }

  /** The longest prefix reached by stripping separators while that is allowed. */
  function Stripped(p: string): (r: string)
    ensures r <= p && !Strippable(r)
    ensures forall k :: |r| < k <= |p| ==> Strippable(p[..k])
  {
    if Strippable(p) then
      var r := Stripped(p[..|p| - 1]);
      assert forall k :: |r| < k < |p| ==> p[..|p| - 1][..k] == p[..k];
      assert p[..|p|] == p;
      r
    else
      assert p[..|p|] == p;
      p
  }

  function Norm(p: string): string {
    Stripped(Backslashed(p))
  }

  method NormWinPath(path: string) returns (p: string)
    ensures p == Norm(path)
  {
    p := Backslashed(path);
    while |p| > 1 && EndsInSeparator(p)
      invariant Stripped(p) == Norm(path)
    {
      if |p| == 3 && IsDrive(p[..2]) {
        break;
      }
      p := p[..|p| - 1];
    }
  }

  // ---- One rule against one path.

  predicate SpecMatchesAll(spec: string) {
    spec == "" || spec == "*" || spec == "*.*"
  }

  predicate SpecMatches(up: Fold, spec: string, name: string) {
    SpecMatchesAll(spec) || Glob.MatchSpec(up, spec, name)
  }

  function AsPrefix(scope: string): string {
    if EndsInSeparator(scope) then scope else scope + "\\"
  }

  /** Whether a rule scoped to `scope` reaches directory `dir`; both are folded and normalized. */
  predicate InScope(dir: string, scope: string, recursive: bool) {
    dir == scope || (recursive && AsPrefix(scope) <= dir)
  }

  /** `C:` becomes `C:\`, so that it compares equal to a root rule. */
  function ScopeDir(dir: string): string {
    if IsDrive(dir) then dir + "\\" else dir
  }

  predicate Matches(up: Fold, rule: ExcludeRule, path: string) {
    var full := Norm(path);
    var i := LastSeparator(full);
    i >= 0 && full[i + 1..] != "" && MatchesIn(up, rule, full[..i], full[i + 1..])
  }

  /** The rule covers directory `dir` and takes files called `name`. */
  predicate MatchesIn(up: Fold, rule: ExcludeRule, dir: string, name: string) {
    && Norm(rule.path) != ""
    && InScope(Upper(up, ScopeDir(dir)), Upper(up, Norm(rule.path)), rule.recursive)
    && SpecMatches(up, rule.fileSpec, name)
  }

  method RuleMatches(up: Fold, rule: ExcludeRule, path: string) returns (matched: bool)
    ensures matched == Matches(up, rule, path)
  {
    var full := NormWinPath(path);
    var i := LastSeparator(full);
    if i < 0 {
      return false;
    }
    var dir, name := full[..i], full[i + 1..];
    if name == "" {
      return false;
    }
    if IsDrive(dir) {
      dir := dir + "\\";
    }
    var rulePath := NormWinPath(rule.path);
    if rulePath == "" {
      return false;
    }
    var du, ru := Upper(up, dir), Upper(up, rulePath);
    var inScope := du == ru;
    if !inScope && rule.recursive {
      var prefix := ru;
      if !EndsInSeparator(prefix) {
        prefix := prefix + "\\";
      }
      inScope := prefix <= du;
    }
    if !inScope {
      return false;
    }
    if SpecMatchesAll(rule.fileSpec) {
      return true;
    }
    var steps;
    matched, steps := Glob.MatchSpecLoop(up, rule.fileSpec, name);
  }

  // ---- A list of rules: the first one that applies.

  function FirstMatch(up: Fold, rules: seq<ExcludeRule>, path: string): Option<nat> {
    if rules == [] then None
    else if Matches(up, rules[0], path) then Some(0)
    else Later(FirstMatch(up, rules[1..], path))
  }

  function Later(hit: Option<nat>): Option<nat> {
    match hit
    case None => None
    case Some(i) => Some(i + 1)
  }

  lemma {:induction false} FirstMatchAt(up: Fold, rules: seq<ExcludeRule>, path: string, n: nat)
    requires n <= |rules| && forall k :: 0 <= k < n ==> !Matches(up, rules[k], path)
    ensures n < |rules| && Matches(up, rules[n], path) ==> FirstMatch(up, rules, path) == Some(n)
    ensures n == |rules| ==> FirstMatch(up, rules, path) == None
  {
    if n > 0 {
      assert forall k :: 0 <= k < n - 1 ==> rules[1..][k] == rules[k + 1];
      assert !Matches(up, rules[0], path);
      FirstMatchAt(up, rules[1..], path, n - 1);
    }
  }

  /** The rule found is the first that matches; if none is found, none matches. */
  lemma {:induction false} FirstMatchIsFirst(up: Fold, rules: seq<ExcludeRule>, path: string)
    ensures match FirstMatch(up, rules, path)
            case None => forall i :: 0 <= i < |rules| ==> !Matches(up, rules[i], path)
            case Some(n) =>
              && n < |rules| && Matches(up, rules[n], path)
              && forall i :: 0 <= i < n ==> !Matches(up, rules[i], path)
  {
    if rules != [] && !Matches(up, rules[0], path) {
      FirstMatchIsFirst(up, rules[1..], path);
      assert forall i :: 0 < i < |rules| ==> rules[i] == rules[1..][i - 1];
    }
  }

  method MatchExclude(up: Fold, rules: seq<ExcludeRule>, path: string) returns (hit: Option<nat>)
    ensures hit == FirstMatch(up, rules, path)
  {
    for i := 0 to |rules|
      invariant forall k :: 0 <= k < i ==> !Matches(up, rules[k], path)
    {
      var matched := RuleMatches(up, rules[i], path);
      if matched {
        FirstMatchAt(up, rules, path, i);
        return Some(i);
      }
    }
    FirstMatchAt(up, rules, path, |rules|);
    return None;
  }

  /** The rule covers every file at or below the directory: recursive, match-all, and in scope. */
  predicate Prunes(up: Fold, rule: ExcludeRule, dir: string) {
    && Norm(dir) != ""
    && rule.recursive
    && SpecMatchesAll(rule.fileSpec)
    && Norm(rule.path) != ""
    && InScope(Upper(up, Norm(dir)), Upper(up, Norm(rule.path)), true)
  }

  function FirstPruning(up: Fold, rules: seq<ExcludeRule>, dir: string): Option<nat> {
    if rules == [] then None
    else if Prunes(up, rules[0], dir) then Some(0)
    else Later(FirstPruning(up, rules[1..], dir))
  }

  lemma {:induction false} FirstPruningAt(up: Fold, rules: seq<ExcludeRule>, dir: string, n: nat)
    requires n <= |rules| && forall k :: 0 <= k < n ==> !Prunes(up, rules[k], dir)
    ensures n < |rules| && Prunes(up, rules[n], dir) ==> FirstPruning(up, rules, dir) == Some(n)
    ensures n == |rules| ==> FirstPruning(up, rules, dir) == None
  {
    if n > 0 {
      assert forall k :: 0 <= k < n - 1 ==> rules[1..][k] == rules[k + 1];
      assert !Prunes(up, rules[0], dir);
      FirstPruningAt(up, rules[1..], dir, n - 1);
    }
  }

  lemma {:induction false} FirstPruningIsFirst(up: Fold, rules: seq<ExcludeRule>, dir: string)
    ensures match FirstPruning(up, rules, dir)
            case None => forall i :: 0 <= i < |rules| ==> !Prunes(up, rules[i], dir)
            case Some(n) =>
              && n < |rules| && Prunes(up, rules[n], dir)
              && forall i :: 0 <= i < n ==> !Prunes(up, rules[i], dir)
  {
    if rules != [] && !Prunes(up, rules[0], dir) {
      FirstPruningIsFirst(up, rules[1..], dir);
      assert forall i :: 0 < i < |rules| ==> rules[i] == rules[1..][i - 1];
    }
  }

  method SubtreeExcluded(up: Fold, rules: seq<ExcludeRule>, dir: string) returns (hit: Option<nat>)
    ensures hit == FirstPruning(up, rules, dir)
  {
    var normal := NormWinPath(dir);
    var d := Upper(up, normal);
    if d == "" {
      FirstPruningAt(up, rules, dir, |rules|);
      return None;
    }
    for i := 0 to |rules|
      invariant forall k :: 0 <= k < i ==> !Prunes(up, rules[k], dir)
    {
      var covers := RulePrunes(up, rules[i], dir, d);
      if covers {
        FirstPruningAt(up, rules, dir, i);
        return Some(i);
      }
    }
    FirstPruningAt(up, rules, dir, |rules|);
    return None;
  }

  /** The body of `subtreeExcluded`'s loop. */
  method RulePrunes(up: Fold, r: ExcludeRule, dir: string, d: string) returns (covers: bool)
    requires d == Upper(up, Norm(dir)) && d != ""
    ensures covers == Prunes(up, r, dir)
  {
    if !r.recursive || !SpecMatchesAll(r.fileSpec) {
      return false;
    }
    var rulePath := NormWinPath(r.path);
    var scope := Upper(up, rulePath);
    if scope == "" {
      return false;
    }
    if d == scope {
      return true;
    }
    var prefix := scope;
    if !EndsInSeparator(prefix) {
      prefix := prefix + "\\";
    }
    return prefix <= d;
  }

  // ---- Pruning is sound and goes down the tree.

  /** A name Windows can give a file. */
  predicate FileName(n: string) {
    n != "" && forall c :: c in n ==> c != '\\' && c != '/' && c != ':'
  }

  /** A path whose last rune belongs to a file name. */
  predicate EndsInName(p: string) {
    p != "" && p[|p| - 1] != '\\' && p[|p| - 1] != '/' && p[|p| - 1] != ':'
  }

  lemma ChildNorm(up: Fold, dir: string, name: string)
    requires EndsInName(dir) && FileName(name)
    ensures EndsInName(dir + "\\" + name)
    ensures Norm(dir) == Backslashed(dir)
    ensures Norm(dir + "\\" + name) == Norm(dir) + "\\" + name
    ensures Upper(up, Norm(dir + "\\" + name)) == Upper(up, Norm(dir)) + "\\" + Upper(up, name)
  {
    var path := dir + "\\" + name;
    var last := name[|name| - 1];
    assert last in name && path[|path| - 1] == last;
    assert forall i :: 0 <= i < |name| ==> name[i] in name;
    assert Backslashed(path) == Backslashed(dir) + "\\" + name;
    UpperConcat(up, Backslashed(dir) + "\\", name);
    UpperConcat(up, Backslashed(dir), "\\");
    assert Upper(up, "\\") == "\\";
  }

  /** A rule that prunes a directory prunes every directory in it. */
  lemma PruningGoesDown(up: Fold, rule: ExcludeRule, dir: string, name: string)
    requires EndsInName(dir) && FileName(name) && Prunes(up, rule, dir)
    ensures Prunes(up, rule, dir + "\\" + name)
  {
    ChildNorm(up, dir, name);
    var d, scope := Upper(up, Norm(dir)), Upper(up, Norm(rule.path));
    assert d[|d| - 1] == up(Backslashed(dir)[|dir| - 1]);
    if d != scope {
      assert d <= d + "\\" + Upper(up, name);
    }
  }

  /** A rule that prunes a directory matches every file in it. */
  lemma PruningMatchesFiles(up: Fold, rule: ExcludeRule, dir: string, name: string)
    requires EndsInName(dir) && FileName(name) && Prunes(up, rule, dir)
    ensures Matches(up, rule, dir + "\\" + name)
  {
    ChildNorm(up, dir, name);
    CutAtLastSeparator(Norm(dir), name);
    assert ScopeDir(Norm(dir)) == Norm(dir);
    assert MatchesIn(up, rule, Norm(dir), name);
  }

  lemma FirstPruningGoesDown(up: Fold, rules: seq<ExcludeRule>, dir: string, name: string)
    requires EndsInName(dir) && FileName(name)
    ensures FirstPruning(up, rules, dir).Some? ==> FirstPruning(up, rules, dir + "\\" + name).Some?
    ensures FirstPruning(up, rules, dir).Some? ==> FirstMatch(up, rules, dir + "\\" + name).Some?
  {
    var hit := FirstPruning(up, rules, dir);
    FirstPruningIsFirst(up, rules, dir);
    if hit.Some? {
      PruningGoesDown(up, rules[hit.value], dir, name);
      PruningMatchesFiles(up, rules[hit.value], dir, name);
      FirstPruningIsFirst(up, rules, dir + "\\" + name);
      FirstMatchIsFirst(up, rules, dir + "\\" + name);
    }
  }

  // ---- Scoping in terms of path segments.

  function TrimmedSeparators(p: string): (r: string)
    ensures r <= p && !EndsInSeparator(r)
    ensures forall k :: |r| <= k < |p| ==> p[k] == '\\'
  {
    if EndsInSeparator(p) then TrimmedSeparators(p[..|p| - 1]) else p
  }

  /** The segments of a path, whichever slash it uses and however many separators end it. */
  function Segments(p: string): seq<string> {
    Split(TrimmedSeparators(Backslashed(p)))
  }

  /** Drive-absolute, no doubled separator inside; a bare root has its separator. */
  predicate Canonical(p: string) {
    var segs := Segments(p);
    && IsDrive(segs[0])
    && (forall s :: s in segs ==> s != "")
    && (|segs| == 1 ==> EndsInSeparator(Backslashed(p)))
  }

  lemma {:induction false} StrippedBeyondRoot(p: string)
    requires |TrimmedSeparators(p)| > 3
    ensures Stripped(p) == TrimmedSeparators(p)
  {
    if EndsInSeparator(p) {
      StrippedBeyondRoot(p[..|p| - 1]);
    }
  }

  lemma {:induction false} StrippedRoot(p: string)
    requires IsDrive(TrimmedSeparators(p)) && EndsInSeparator(p)
    ensures Stripped(p) == TrimmedSeparators(p) + "\\"
  {
    var t := TrimmedSeparators(p);
    if |p| > 3 {
      assert p[|p| - 2] == '\\';
      StrippedRoot(p[..|p| - 1]);
    } else {
      assert p == t + "\\";
    }
  }

  lemma {:induction false} SplitLength(s: string)
    requires IsDrive(Split(s)[0]) && forall seg :: seg in Split(s) ==> seg != ""
    ensures s != "" && !EndsInSeparator(s)
    ensures if |Split(s)| == 1 then s == Split(s)[0] else |s| > 3
    decreases |s|
  {
    var i := LastSeparator(s);
    if i >= 0 {
      var a := Split(s[..i]);
      assert Split(s) == a + [s[i + 1..]];
      assert s[i + 1..] in Split(s);
      assert forall seg :: seg in a ==> seg in Split(s);
      assert a[0] == Split(s)[0];
      SplitLength(s[..i]);
    }
  }

  /** A root keeps its separator; every other directory has none at its end. */
  function RootText(s: string): string {
    if |Split(s)| == 1 then s + "\\" else s
  }

  lemma CanonicalNorm(p: string)
    requires Canonical(p)
    ensures Norm(p) == RootText(TrimmedSeparators(Backslashed(p)))
  {
    var b := Backslashed(p);
    SplitLength(TrimmedSeparators(b));
    if |Segments(p)| == 1 { StrippedRoot(b); } else { StrippedBeyondRoot(b); }
  }

  lemma ScopeBySegments(a: string, b: string, recursive: bool)
    requires a != "" && !EndsInSeparator(a) && b != "" && !EndsInSeparator(b)
    ensures InScope(RootText(a), RootText(b), recursive) <==>
            Split(a) == Split(b) || (recursive && Split(b) < Split(a))
  {
    if Split(a) == Split(b) { SplitInjective(a, b); }
    PrefixIsSegmentPrefix(b, a);
    SplitAppend(a, "");
    assert a + "\\" + "" == a + "\\";
    PrefixIsSegmentPrefix(b, a + "\\");
    ProperPrefixOfSnoc(Split(b), Split(a), "");
    if |Split(a)| == 1 {
      assert Split(b) < Split(a) ==> |Split(b)| == 0;
    }
  }

  lemma FoldedScopeBySegments(up: Fold, dir: string, s: string, recursive: bool)
    requires dir != "" && !EndsInSeparator(dir) && s != "" && !EndsInSeparator(s)
    ensures InScope(Upper(up, RootText(dir)), Upper(up, RootText(s)), recursive) <==>
            UpperAll(up, Split(s)) == UpperAll(up, Split(dir)) ||
            (recursive && UpperAll(up, Split(s)) < UpperAll(up, Split(dir)))
  {
    UpperRootText(up, dir);
    UpperRootText(up, s);
    ScopeBySegments(Upper(up, dir), Upper(up, s), recursive);
    UpperSplit(up, dir);
    UpperSplit(up, s);
  }

  lemma MatchesInBySegments(up: Fold, rule: ExcludeRule, dir: string, name: string)
    requires Canonical(rule.path)
    requires dir != "" && !EndsInSeparator(dir) && ScopeDir(dir) == RootText(dir)
    ensures MatchesIn(up, rule, dir, name) <==>
            var ds, rs := UpperAll(up, Split(dir)), UpperAll(up, Segments(rule.path));
            (rs == ds || (rule.recursive && rs < ds)) && SpecMatches(up, rule.fileSpec, name)
  {
    var s := TrimmedSeparators(Backslashed(rule.path));
    CanonicalNorm(rule.path);
    SplitLength(s);
    FoldedScopeBySegments(up, dir, s, rule.recursive);
  }

  /**
    On canonical paths a rule is in scope exactly by segments: its own segments are the file's
    directory, or a recursive rule's are a prefix of it, up to case.
   */
  lemma MatchesBySegments(up: Fold, rule: ExcludeRule, path: string)
    requires Canonical(path) && Canonical(rule.path)
    ensures Matches(up, rule, path) <==>
            var ps, rs := Segments(path), UpperAll(up, Segments(rule.path));
            && |ps| > 1
            && var ds := UpperAll(up, ps[..|ps| - 1]);
               && (rs == ds || (rule.recursive && rs < ds))
               && SpecMatches(up, rule.fileSpec, ps[|ps| - 1])
  {
    var t := TrimmedSeparators(Backslashed(path));
    CanonicalNorm(path);
    SplitLength(t);
    if |Segments(path)| == 1 {
      assert LastSeparator(t + "\\") == |t|;
    } else {
      var dir, name := t[..LastSeparator(t)], t[LastSeparator(t) + 1..];
      assert Split(t) == Split(dir) + [name];
      DirectoryText(dir, name, t);
      MatchesInBySegments(up, rule, dir, name);
      assert Segments(path)[..|Split(dir)|] == Split(dir);
    }
  }

  /**
    On canonical paths a rule covers a directory exactly if it is recursive, takes every file, and its own
    segments are the directory's or a prefix of them, up to case.
   */
  lemma PrunesBySegments(up: Fold, rule: ExcludeRule, dir: string)
    requires Canonical(dir) && Canonical(rule.path)
    ensures Prunes(up, rule, dir) <==>
            var ds, rs := UpperAll(up, Segments(dir)), UpperAll(up, Segments(rule.path));
            && rule.recursive && (rule.fileSpec == "" || rule.fileSpec == "*" || rule.fileSpec == "*.*")
            && (rs == ds || rs < ds)
  {
    var d, s := TrimmedSeparators(Backslashed(dir)), TrimmedSeparators(Backslashed(rule.path));
    CanonicalNorm(dir);
    CanonicalNorm(rule.path);
    SplitLength(d);
    SplitLength(s);
    FoldedScopeBySegments(up, d, s, true);
  }

  /** A rule without a path has no scope: it matches nothing and covers nothing. */
  lemma NoPathNoScope(up: Fold, rule: ExcludeRule, path: string)
    requires rule.path == ""
    ensures !Matches(up, rule, path) && !Prunes(up, rule, path)
  {
    assert Backslashed("") == "";
  }

  /** Only what lies in a directory can match: no rule takes a bare name, a root, or nothing. */
  lemma NothingToScope(up: Fold, rule: ExcludeRule, path: string)
    requires '\\' !in path && '/' !in path
    ensures !Matches(up, rule, path)
  {
    assert forall i :: 0 <= i < |path| ==> path[i] in path;
    assert Backslashed(path) == path && !EndsInSeparator(path);
    assert forall i :: 0 <= i < |path| ==> path[i] != '\\';
  }

  /** Three bytes make a drive root: a root keeps its separator exactly if its letter is one byte. */
  lemma DriveRootsAreThreeBytes(letter: char)
    requires letter != '\\' && letter != '/'
    ensures Norm([letter] + ":\\") == if letter < 0x80 as char then [letter] + ":\\" else [letter] + ":"
  {
    var root, bare := [letter] + ":\\", [letter] + ":";
    assert Backslashed(root) == root && root[..2] == bare;
    assert Stripped(bare) == bare;
  }

  /** With a file name free of stars, the pattern part is the glob relation. */
  lemma MatchesMeaning(up: Fold, rule: ExcludeRule, path: string)
    requires Canonical(path) && Canonical(rule.path) && '*' !in Segments(path)[|Segments(path)| - 1]
    ensures Matches(up, rule, path) <==>
            var ps, rs := Segments(path), UpperAll(up, Segments(rule.path));
            && |ps| > 1
            && var ds, name := UpperAll(up, ps[..|ps| - 1]), ps[|ps| - 1];
               && (rs == ds || (rule.recursive && rs < ds))
               && (rule.fileSpec == "" || rule.fileSpec == "*.*" || Glob.Globs(up, rule.fileSpec, name))
  {
    var name := Segments(path)[|Segments(path)| - 1];
    MatchesBySegments(up, rule, path);
    Glob.MatchSpecExact(up, rule.fileSpec, name);
    if rule.fileSpec == "*" {
      assert "*"[1..] == "" && Glob.Globs(up, "", name[|name|..]);
    }
  }

  lemma DirectoryText(dir: string, name: string, t: string)
    requires IsDrive(Split(t)[0]) && forall seg :: seg in Split(t) ==> seg != ""
    requires Split(t) == Split(dir) + [name]
    ensures dir != "" && !EndsInSeparator(dir)
    ensures ScopeDir(dir) == RootText(dir) && name != ""
  {
    assert Split(dir)[0] == Split(t)[0];
    assert forall seg :: seg in Split(dir) ==> seg in Split(t);
    assert name in Split(t);
    SplitLength(dir);
  }

  lemma UpperRootText(up: Fold, s: string)
    requires s != "" && !EndsInSeparator(s)
    ensures Upper(up, RootText(s)) == RootText(Upper(up, s))
    ensures Upper(up, s) != "" && !EndsInSeparator(Upper(up, s))
  {
    UpperSplit(up, s);
    UpperConcat(up, s, "\\");
    assert Upper(up, "\\") == "\\";
  }
}
