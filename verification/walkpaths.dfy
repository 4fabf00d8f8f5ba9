/**
  The paths a walk reports, and which of them can be handed back to `Walk`, `Open` or `FileExtents`.
 */
module WalkPaths {
  import opened WinText
  import opened Options
  import opened Exclude
  import opened Walk
  import opened WalkOrder
  import opened WalkReplay
  import opened RelativePath

  /** A name that enumerating a directory reports. */
  predicate EntryName(n: string) {
    FileName(n) && n != "." && n != ".." && '\0' !in n
  }

  ghost predicate EntryTree(dir: Node) {
    forall k :: k in dir.kids ==> EntryName(k.info.name) && EntryTree(k)
  }

  /** Proper names between single separators, none at either end. */
  predicate Clean(p: string) {
    && '\0' !in p && ':' !in p && '/' !in p
    && forall seg :: seg in Split(p) ==> ProperSegment(seg)
  }

  lemma CleanChild(rel: string, name: string)
    requires rel != "" && EntryName(name)
    ensures Clean(ChildPath(rel, name)) <==> Clean(rel)
    ensures !EndsInSeparator(ChildPath(rel, name))
  {
    var segs := Split(rel);
    SplitAppend(rel, name);
    assert name in segs + [name] && forall seg :: seg in segs ==> seg in segs + [name];
    assert forall c :: c in ChildPath(rel, name) <==> c in rel || c == '\\' || c in name;
    assert name[|name| - 1] in name;
  }

  lemma CleanName(name: string)
    requires EntryName(name)
    ensures Clean(name) && !EndsInSeparator(name)
  {
    assert forall i :: 0 <= i < |name| ==> name[i] in name;
    assert Split(name) == [name];
    assert name[|name| - 1] in name;
  }

  lemma ProperIffClean(p: string)
    requires '/' !in p && !EndsInSeparator(p)
    ensures Proper(p) <==> Clean(p)
  {
    assert forall i :: 0 <= i < |p| ==> p[i] in p;
    assert Backslashed(p) == p && TrimOne(p) == p;
  }

  /** An accepted path is clean unless it ends in the one separator that validation lets pass. */
  lemma AcceptedIsCleanIff(rel: string)
    requires Proper(rel)
    ensures '/' !in Backslashed(rel)
    ensures Clean(Backslashed(rel)) <==> !EndsInSeparator(Backslashed(rel))
  {
    var n := Backslashed(rel);
    ProperIsStable(rel);
    if EndsInSeparator(n) {
      var t := TrimOne(n);
      SplitAppend(t, "");
      assert t + "\\" + "" == n;
      assert "" in Split(t) + [""];
    } else {
      ProperIffClean(n);
    }
  }

  /** Below a directory, a reported path is acceptable exactly if the directory's own is clean. */
  lemma {:induction false} PathsBelow(cfg: Config, rel: string, at: seq<string>, dir: Node, e: Event)
    requires EntryTree(dir) && '/' !in rel && e in Full(cfg, rel, at, dir) && e.Visit?
    ensures Proper(e.entry.path) <==> rel == "" || Clean(rel)
    decreases dir, 1, 0
  {
    KidPathsBelow(cfg, rel, at, dir, Sorted(cfg.up, dir.kids), e);
  }

  lemma {:induction false} KidPathsBelow(cfg: Config, rel: string, at: seq<string>, dir: Node, ks: seq<Node>, e: Event)
    requires EntryTree(dir) && '/' !in rel && forall k :: k in ks ==> k in dir.kids
    requires e in FullKids(cfg, rel, at, dir, ks) && e.Visit?
    ensures Proper(e.entry.path) <==> rel == "" || Clean(rel)
    decreases dir, 0, |ks|
  {
    var k := ks[0];
    var path := ChildPath(rel, k.info.name);
    if e in FullKid(cfg, rel, at, dir, k) {
      if rel == "" { CleanName(k.info.name); } else { CleanChild(rel, k.info.name); }
      assert '/' !in path;
      if e == Visit(at + [k.info.name], Entry(path, k.info, Hit(cfg, path, k.info))) {
        ProperIffClean(path);
      } else {
        PathsBelow(cfg, path, at + [k.info.name], k, e);
      }
    } else {
      KidPathsBelow(cfg, rel, at, dir, ks[1..], e);
    }
  }

  /**
    The paths of a walk come back: under any callback, a path it reports is one that validation accepts
    exactly if the walk's own root was given without a separator at its end.
   */
  lemma ReportedPathsComeBack(cfg: Config, ask: Oracle, root: string, dir: Node, e: Event)
    requires root == "" || root == "." || Proper(root)
    requires DistinctTree(dir) && EntryTree(dir)
    requires e in RunDir(cfg, ask, if root == "." then "" else Backslashed(root), [], dir, []).log && e.Visit?
    ensures Proper(e.entry.path) <==> !EndsInSeparator(Backslashed(root))
  {
    var rel := if root == "." then "" else Backslashed(root);
    WalkStaysOnList(cfg, ask, rel, dir);
    if Proper(root) {
      AcceptedIsCleanIff(root);
      ProperIsStable(root);
    } else {
      assert rel == "";
    }
    PathsBelow(cfg, rel, [], dir, e);
  }

  /** Started at `a\`, a walk of a directory that holds `b` reports `a\\b`, which validation refuses. */
  lemma TrailingSeparatorDoubles(up: Fold, ask: Oracle, file: Info)
    requires file.name == "b" && !file.isDir && !ask([], Enter([], "a\\")).Abort?
    ensures var dir := Node(Info("a", true, 0, 0), None, [Node(file, None, [])]);
            var run := RunDir(Config(up, "", [], false), ask, "a\\", [], dir, []);
            && Proper("a\\") && Visit(["b"], Entry("a\\\\b", file, None)) in run.log && !Proper("a\\\\b")
  {
    OneSeparatorPasses();
    LoneFileIsLogged(Config(up, "", [], false), ask, "a\\", Node(Info("a", true, 0, 0), None, [Node(file, None, [])]));
    assert "a\\" + "\\" + "b" == "a\\\\b" && [] + ["b"] == ["b"];
  }

  lemma OneSeparatorPasses()
    ensures Proper("a\\") && !Proper("a\\\\b")
  {
    var a, b := "a", "a\\\\b";
    CleanName(a);
    assert Backslashed("a\\") == "a\\" && TrimOne("a\\") == a;
    assert Backslashed(b) == b && TrimOne(b) == b;
    SplitAppend("a\\", "b");
    SplitAppend(a, "");
    assert a + "\\" + "" == "a\\" && "a\\" + "\\" + "b" == b;
    assert Split(b) == Split(a) + [""] + ["b"];
    assert "" in Split(b);
  }

  /** The only entry of a directory is logged, whatever the callback says to it. */
  lemma LoneFileIsLogged(cfg: Config, ask: Oracle, rel: string, dir: Node)
    requires cfg.rules == [] && dir.fault.None? && |dir.kids| == 1 && !dir.kids[0].info.isDir
    requires !ask([], Enter([], rel)).Abort?
    ensures var file := dir.kids[0].info;
            var visit := Visit([] + [file.name], Entry(ChildPath(rel, file.name), file, None));
            visit in RunDir(cfg, ask, rel, [], dir, []).log
  {
    var k, enter := dir.kids[0], Enter([], rel);
    var visit := Visit([] + [k.info.name], Entry(ChildPath(rel, k.info.name), k.info, None));
    assert dir.kids == [k] && [k][1..] == [] && [k][..0] == [];
    assert Sorted(cfg.up, [k]) == [k];
    assert RunDir(cfg, ask, rel, [], dir, []) == RunKids(cfg, ask, rel, [], dir, [k], [] + [enter]);
    assert visit in [] + [enter] + [visit];
  }
}
