/**
  Walking a subdirectory: the calls are a contiguous block of the whole walk's calls, and that block is
  all the whole walk says about what lies beneath the subdirectory.
 */
module WalkSub {
  import opened Options
  import opened Exclude
  import opened Walk
  import opened WalkOrder
  import opened WalkReplay
  import opened WalkPrune

  /** `names` leads from `dir` to `sub` through readable directories, crossing no reparse point. */
  ghost predicate Reaches(dir: Node, names: seq<string>, sub: Node)
    decreases |names|
  {
    if names == [] then sub == dir
    else
      dir.fault.None? &&
      exists k :: k in dir.kids && k.info.name == names[0] && Descends(k.info) && Reaches(k, names[1..], sub)
  }

  function PathTo(rel: string, names: seq<string>): string
    decreases |names|
  {
    if names == [] then rel else PathTo(ChildPath(rel, names[0]), names[1..])
  }

  /** The events that are calls of the callback. */
  function Calls(es: seq<Event>): seq<Event> {
    Filter((e: Event) => !e.Enter?, es)
  }

  lemma CallsConcat(a: seq<Event>, b: seq<Event>)
    ensures Calls(a + b) == Calls(a) + Calls(b)
  {
    FilterConcat((e: Event) => !e.Enter?, a, b);
  }

  /** A directory covered by a pruning rule has nothing to show, even to a walk started inside it. */
  lemma {:induction false} PrunedShowsNothing(cfg: Config, rel: string, at: seq<string>, dir: Node, ks: seq<Node>)
    requires !cfg.includeExcluded && NamedTree(dir) && EndsInName(rel) && Pruned(cfg, rel)
    requires forall k :: k in ks ==> k in dir.kids
    ensures FullKids(cfg, rel, at, dir, ks) == []
    decreases |ks|
  {
    if ks != [] {
      PrunedGoesDown(cfg, rel, ks[0].info);
      PrunedShowsNothing(cfg, rel, at, dir, ks[1..]);
    }
  }

  /** Everything reached from a pruned directory is pruned. */
  lemma {:induction false} PrunedReachesPruned(cfg: Config, rel: string, dir: Node, names: seq<string>, sub: Node)
    requires NamedTree(dir) && EndsInName(rel) && Pruned(cfg, rel) && Reaches(dir, names, sub)
    ensures EndsInName(PathTo(rel, names)) && Pruned(cfg, PathTo(rel, names)) && NamedTree(sub)
    decreases |names|
  {
    if names != [] {
      var k :| k in dir.kids && k.info.name == names[0] && Reaches(k, names[1..], sub);
      PrunedGoesDown(cfg, rel, k.info);
      PrunedReachesPruned(cfg, ChildPath(rel, names[0]), k, names[1..], sub);
    }
  }

  lemma PrunedDirectoryIsSilent(cfg: Config, rel: string, at: seq<string>, dir: Node)
    requires !cfg.includeExcluded && NamedTree(dir) && EndsInName(rel) && Pruned(cfg, rel) && dir.fault.None?
    ensures Calls(Full(cfg, rel, at, dir)) == []
  {
    PrunedShowsNothing(cfg, rel, at, dir, Sorted(cfg.up, dir.kids));
    EmptyIsSilent(cfg, rel, at, dir);
  }

  lemma EmptyIsSilent(cfg: Config, rel: string, at: seq<string>, dir: Node)
    requires dir.fault.None? && FullKids(cfg, rel, at, dir, Sorted(cfg.up, dir.kids)) == []
    ensures Calls(Full(cfg, rel, at, dir)) == []
  {
    assert Full(cfg, rel, at, dir) == [Enter(at, rel)];
    FilterNone((e: Event) => !e.Enter?, [Enter(at, rel)]);
  }

  /** No event of the list is about something strictly beneath `at`. */
  ghost predicate Outside(es: seq<Event>, at: seq<string>) {
    forall e :: e in es ==> !(at < e.at)
  }

  /** `mid` is one block of `whole`, with nothing about what lies beneath `at` around it. */
  ghost predicate IsBlock(whole: seq<Event>, pre: seq<Event>, mid: seq<Event>, post: seq<Event>, at: seq<string>) {
    whole == pre + mid + post && Outside(pre, at) && Outside(post, at)
  }

  lemma BlockThenMore(whole: seq<Event>, pre: seq<Event>, mid: seq<Event>, post: seq<Event>, at: seq<string>,
                      more: seq<Event>)
    requires IsBlock(whole, pre, mid, post, at) && Outside(more, at)
    ensures IsBlock(whole + more, pre, mid, post + more, at)
  {
    assert pre + mid + post + more == pre + mid + (post + more);
  }

  lemma MoreThenBlock(more: seq<Event>, whole: seq<Event>, pre: seq<Event>, mid: seq<Event>, post: seq<Event>,
                      at: seq<string>)
    requires IsBlock(whole, pre, mid, post, at) && Outside(more, at)
    ensures IsBlock(more + whole, more + pre, mid, post, at)
  {
    assert more + (pre + mid + post) == more + pre + mid + post;
  }

  lemma {:induction false} SubWalkBlock(cfg: Config, rel: string, at: seq<string>, dir: Node,
                                        names: seq<string>, sub: Node)
    returns (pre: seq<Event>, post: seq<Event>)
    requires !cfg.includeExcluded && DistinctTree(dir) && NamedTree(dir)
    requires Reaches(dir, names, sub) && sub.fault.None?
    ensures IsBlock(Calls(Full(cfg, rel, at, dir)), pre, Calls(Full(cfg, PathTo(rel, names), at + names, sub)), post,
                    at + names)
    decreases dir, 2, 0
  {
    if names == [] {
      pre, post := [], [];
      assert at + [] == at;
    } else {
      var k :| k in dir.kids && k.info.name == names[0] && Descends(k.info) && Reaches(k, names[1..], sub);
      SortedIsOrdered(cfg.up, dir.kids);
      var ks := Sorted(cfg.up, dir.kids);
      pre, post := SubWalkKids(cfg, rel, at, dir, ks, k, names, sub);
      CallsConcat([Enter(at, rel)], FullKids(cfg, rel, at, dir, ks));
      assert Calls([Enter(at, rel)]) == [];
      assert Calls(Full(cfg, rel, at, dir)) == Calls(FullKids(cfg, rel, at, dir, ks));
    }
  }

  lemma {:induction false} SubWalkKids(cfg: Config, rel: string, at: seq<string>, dir: Node, ks: seq<Node>, k: Node,
                                       names: seq<string>, sub: Node)
    returns (pre: seq<Event>, post: seq<Event>)
    requires !cfg.includeExcluded && DistinctTree(dir) && NamedTree(dir)
    requires Distinct(ks) && (forall m :: m in ks ==> m in dir.kids) && k in ks
    requires names != [] && k.info.name == names[0] && Descends(k.info)
    requires Reaches(k, names[1..], sub) && sub.fault.None?
    ensures IsBlock(Calls(FullKids(cfg, rel, at, dir, ks)), pre, Calls(Full(cfg, PathTo(rel, names), at + names, sub)),
                    post, at + names)
    decreases dir, 1, |ks|
  {
    var head, tail := FullKid(cfg, rel, at, dir, ks[0]), FullKids(cfg, rel, at, dir, ks[1..]);
    var mid := Calls(Full(cfg, PathTo(rel, names), at + names, sub));
    CallsConcat(head, tail);
    if ks[0] == k {
      pre, post := SubWalkKid(cfg, rel, at, dir, k, names, sub);
      LaterSiblingsDiffer(ks);
      OtherSiblingsAreOutside(cfg, rel, at, dir, ks[1..], names);
      BlockThenMore(Calls(head), pre, mid, post, at + names, Calls(tail));
      post := post + Calls(tail);
    } else {
      assert k in ks[1..];
      pre, post := SubWalkKids(cfg, rel, at, dir, ks[1..], k, names, sub);
      OtherSiblingIsOutside(cfg, rel, at, dir, ks, k, names);
      MoreThenBlock(Calls(head), Calls(tail), pre, mid, post, at + names);
      pre := Calls(head) + pre;
    }
  }

  lemma LaterSiblingsDiffer(ks: seq<Node>)
    requires ks != [] && Distinct(ks)
    ensures forall m :: m in ks[1..] ==> m.info.name != ks[0].info.name
  {
    assert forall i :: 0 <= i < |ks[1..]| ==> ks[1..][i] == ks[i + 1];
  }

  lemma OtherSiblingIsOutside(cfg: Config, rel: string, at: seq<string>, dir: Node, ks: seq<Node>, k: Node,
                              names: seq<string>)
    requires Distinct(ks) && ks != [] && ks[0] in dir.kids && k in ks && ks[0] != k
    requires names != [] && k.info.name == names[0]
    ensures Outside(Calls(FullKid(cfg, rel, at, dir, ks[0])), at + names)
  {
    KidLiesBelow(cfg, rel, at, dir, ks[0]);
    forall e | e in Calls(FullKid(cfg, rel, at, dir, ks[0])) ensures !(at + names < e.at) {
      if at + names < e.at {
        AddressHead(at, names, e.at);
        DifferentSiblings(at, ks[0].info.name, names[0], e.at);
      }
    }
  }

  lemma OtherSiblingsAreOutside(cfg: Config, rel: string, at: seq<string>, dir: Node, ks: seq<Node>, names: seq<string>)
    requires forall m :: m in ks ==> m in dir.kids && names != [] && m.info.name != names[0]
    requires names != []
    ensures Outside(Calls(FullKids(cfg, rel, at, dir, ks)), at + names)
  {
    KidsLieBelow(cfg, rel, at, dir, ks);
    forall e | e in Calls(FullKids(cfg, rel, at, dir, ks)) ensures !(at + names < e.at) {
      var m :| m in ks && at + [m.info.name] <= e.at;
      if at + names < e.at {
        AddressHead(at, names, e.at);
        DifferentSiblings(at, m.info.name, names[0], e.at);
      }
    }
  }

  lemma AddressHead(at: seq<string>, names: seq<string>, deep: seq<string>)
    requires names != [] && at + names <= deep
    ensures at + [names[0]] <= deep
  {
    assert at + [names[0]] == (at + names)[..|at| + 1];
  }

  lemma {:induction false} SubWalkKid(cfg: Config, rel: string, at: seq<string>, dir: Node, k: Node,
                                      names: seq<string>, sub: Node)
    returns (pre: seq<Event>, post: seq<Event>)
    requires !cfg.includeExcluded && DistinctTree(dir) && NamedTree(dir) && k in dir.kids
    requires names != [] && k.info.name == names[0] && Descends(k.info)
    requires Reaches(k, names[1..], sub) && sub.fault.None?
    ensures IsBlock(Calls(FullKid(cfg, rel, at, dir, k)), pre, Calls(Full(cfg, PathTo(rel, names), at + names, sub)),
                    post, at + names)
    decreases dir, 0, 0
  {
    var path, here := ChildPath(rel, names[0]), at + [names[0]];
    assert here + names[1..] == at + names;
    var mid := Calls(Full(cfg, PathTo(rel, names), at + names, sub));
    if Hit(cfg, path, k.info).Some? {
      ChildEndsInName(rel, names[0]);
      PrunedReachesPruned(cfg, path, k, names[1..], sub);
      PrunedDirectoryIsSilent(cfg, PathTo(rel, names), at + names, sub);
      pre, post := [], [];
    } else {
      var visit := Visit(here, Entry(path, k.info, None));
      pre, post := SubWalkBlock(cfg, path, here, k, names[1..], sub);
      CallsConcat([visit], Full(cfg, path, here, k));
      assert Calls([visit]) == [visit];
      MoreThenBlock([visit], Calls(Full(cfg, path, here, k)), pre, mid, post, at + names);
      pre := [visit] + pre;
    }
  }

  // ---- The place a walk is labelled with does not matter to what the callback sees.

  /** What the callback is given. */
  datatype Seen = SawEntry(entry: Entry) | SawFault(rel: string, fault: int)

  function Reports(es: seq<Event>): seq<Seen> {
    if es == [] then []
    else
      (match es[0]
       case Enter(_, _) => []
       case Denied(_, rel, fault) => [SawFault(rel, fault)]
       case Visit(_, entry) => [SawEntry(entry)])
      + Reports(es[1..])
  }

  lemma {:induction false} ReportsConcat(a: seq<Event>, b: seq<Event>)
    ensures Reports(a + b) == Reports(a) + Reports(b)
  {
    if a == [] {
      assert a + b == b;
    } else {
      assert (a + b)[1..] == a[1..] + b;
      ReportsConcat(a[1..], b);
    }
  }

  lemma {:induction false} CallsReport(es: seq<Event>)
    ensures Reports(Calls(es)) == Reports(es)
  {
    if es != [] {
      var keep := (e: Event) => !e.Enter?;
      assert es == [es[0]] + es[1..];
      CallsConcat([es[0]], es[1..]);
      ReportsConcat(Calls([es[0]]), Calls(es[1..]));
      CallsReport(es[1..]);
      assert Calls([es[0]]) == if es[0].Enter? then [] else [es[0]];
    }
  }

  lemma {:induction false} LabelIsIrrelevant(cfg: Config, rel: string, a: seq<string>, b: seq<string>, dir: Node)
    ensures Reports(Full(cfg, rel, a, dir)) == Reports(Full(cfg, rel, b, dir))
    decreases dir, 1, 0
  {
    if dir.fault.None? {
      var ks := Sorted(cfg.up, dir.kids);
      ReportsConcat([Enter(a, rel)], FullKids(cfg, rel, a, dir, ks));
      ReportsConcat([Enter(b, rel)], FullKids(cfg, rel, b, dir, ks));
      KidLabelIsIrrelevant(cfg, rel, a, b, dir, ks);
    } else {
      ReportsConcat([Enter(a, rel)], [Denied(a, rel, dir.fault.value)]);
      ReportsConcat([Enter(b, rel)], [Denied(b, rel, dir.fault.value)]);
    }
  }

  lemma {:induction false} KidLabelIsIrrelevant(cfg: Config, rel: string, a: seq<string>, b: seq<string>, dir: Node,
                                                ks: seq<Node>)
    requires forall k :: k in ks ==> k in dir.kids
    ensures Reports(FullKids(cfg, rel, a, dir, ks)) == Reports(FullKids(cfg, rel, b, dir, ks))
    decreases dir, 0, |ks|
  {
    if ks != [] {
      var k := ks[0];
      var path, n := ChildPath(rel, k.info.name), k.info.name;
      var hit := Hit(cfg, path, k.info);
      assert k in dir.kids;
      LabelIsIrrelevant(cfg, path, a + [n], b + [n], k);
      KidLabelIsIrrelevant(cfg, rel, a, b, dir, ks[1..]);
      ReportsConcat(FullKid(cfg, rel, a, dir, k), FullKids(cfg, rel, a, dir, ks[1..]));
      ReportsConcat(FullKid(cfg, rel, b, dir, k), FullKids(cfg, rel, b, dir, ks[1..]));
      var inA := if Descends(k.info) && hit.None? then Full(cfg, path, a + [n], k) else [];
      var inB := if Descends(k.info) && hit.None? then Full(cfg, path, b + [n], k) else [];
      ReportsConcat([Visit(a + [n], Entry(path, k.info, hit))], inA);
      ReportsConcat([Visit(b + [n], Entry(path, k.info, hit))], inB);
    }
  }

  /**
    Sub-walk restriction.  A walk started at a readable subdirectory shows its callback exactly one
    block of what the whole walk shows, and outside that block the whole walk says nothing about
    anything beneath the subdirectory.  It holds when the subdirectory is itself cut from the whole
    walk, too: then both show nothing.
   */
  lemma SubWalkIsABlock(cfg: Config, ask: Oracle, dir: Node, names: seq<string>, sub: Node)
    returns (pre: seq<Event>, block: seq<Event>, post: seq<Event>)
    requires !cfg.includeExcluded && DistinctTree(dir) && NamedTree(dir) && Accepting(ask)
    requires Reaches(dir, names, sub) && sub.fault.None?
    ensures Calls(RunDir(cfg, ask, "", [], dir, []).log) == pre + block + post
    ensures Reports(block) == Reports(RunDir(cfg, ask, PathTo("", names), [], sub, []).log)
    ensures Outside(pre, names) && Outside(post, names)
    ensures forall e :: e in block ==> names < e.at
  {
    assert [] + names == names;
    pre, post := SubWalkBlock(cfg, "", [], dir, names, sub);
    var path := PathTo("", names);
    block := Calls(Full(cfg, path, names, sub));
    AcceptingRun(cfg, ask, "", dir);
    SubIsDistinct(dir, names, sub);
    AcceptingRun(cfg, ask, path, sub);
    CallsReport(Full(cfg, path, names, sub));
    LabelIsIrrelevant(cfg, path, names, [], sub);
    FullLiesBelow(cfg, path, names, sub);
    KidsAreDeeper(cfg, path, names, sub);
  }

  lemma KidsAreDeeper(cfg: Config, rel: string, at: seq<string>, dir: Node)
    requires dir.fault.None?
    ensures forall e :: e in Calls(Full(cfg, rel, at, dir)) ==> at < e.at
  {
    var ks := Sorted(cfg.up, dir.kids);
    KidsLieBelow(cfg, rel, at, dir, ks);
    forall e | e in Calls(Full(cfg, rel, at, dir)) ensures at < e.at {
      assert e in FullKids(cfg, rel, at, dir, ks);
      var k :| k in ks && at + [k.info.name] <= e.at;
      assert at < at + [k.info.name];
    }
  }

  lemma {:induction false} SubIsDistinct(dir: Node, names: seq<string>, sub: Node)
    requires DistinctTree(dir) && Reaches(dir, names, sub)
    ensures DistinctTree(sub)
    decreases |names|
  {
    if names != [] {
      var k :| k in dir.kids && k.info.name == names[0] && Descends(k.info) && Reaches(k, names[1..], sub);
      SubIsDistinct(k, names[1..], sub);
    }
  }
}
