/**
  Exclusion during the walk: cutting whole subtrees keeps exactly what the per-entry rules keep,
  annotating is dropping put off, and a walk of a subdirectory is a block of the whole walk.
 */
module WalkPrune {
  import opened Options
  import opened Exclude
  import opened Walk
  import opened WalkOrder
  import opened WalkReplay

  // ---- Filtering lists of events.

  function Filter(keep: Event -> bool, es: seq<Event>): (r: seq<Event>)
    ensures forall e :: e in r <==> e in es && keep(e)
  {
    if es == [] then []
    else (if keep(es[0]) then [es[0]] else []) + Filter(keep, es[1..])
  }

  lemma {:induction false} FilterConcat(keep: Event -> bool, a: seq<Event>, b: seq<Event>)
    ensures Filter(keep, a + b) == Filter(keep, a) + Filter(keep, b)
  {
    if a == [] {
      assert a + b == b;
    } else {
      assert (a + b)[1..] == a[1..] + b;
      FilterConcat(keep, a[1..], b);
    }
  }

  lemma {:induction false} FilterNone(keep: Event -> bool, es: seq<Event>)
    requires forall e :: e in es ==> !keep(e)
    ensures Filter(keep, es) == []
  {
    if es != [] {
      FilterNone(keep, es[1..]);
    }
  }

  // ---- The slow reading of the rules.

  /** Every name in the tree is one Windows can give. */
  ghost predicate NamedTree(dir: Node) {
    forall k :: k in dir.kids ==> FileName(k.info.name) && NamedTree(k)
  }

  predicate Pruned(cfg: Config, rel: string) {
    cfg.volRoot != "" && cfg.rules != [] && FirstPruning(cfg.up, cfg.rules, cfg.volRoot + rel).Some?
  }

  /** The rules taken one entry at a time; the directory the walk starts from is never asked about. */
  function Keeps(cfg: Config, start: nat): Event -> bool {
    (e: Event) =>
      match e
      case Visit(at, entry) => Hit(cfg, entry.path, entry.info).None?
      case Enter(at, rel) => |at| == start || !Pruned(cfg, rel)
      case Denied(at, rel, _) => |at| == start || !Pruned(cfg, rel)
  }

  function Unruled(cfg: Config): Config {
    cfg.(rules := [], includeExcluded := false)
  }

  lemma PrunedGoesDown(cfg: Config, rel: string, info: Info)
    requires EndsInName(rel) && FileName(info.name) && Pruned(cfg, rel)
    ensures EndsInName(ChildPath(rel, info.name))
    ensures Pruned(cfg, ChildPath(rel, info.name))
    ensures Hit(cfg, ChildPath(rel, info.name), info).Some?
  {
    var dir, path := cfg.volRoot + rel, ChildPath(rel, info.name);
    assert EndsInName(dir) by {
      assert dir[|dir| - 1] == rel[|rel| - 1];
    }
    assert cfg.volRoot + path == dir + "\\" + info.name;
    FirstPruningGoesDown(cfg.up, cfg.rules, dir, info.name);
    ChildEndsInName(rel, info.name);
  }

  lemma ChildEndsInName(rel: string, name: string)
    requires FileName(name)
    ensures EndsInName(ChildPath(rel, name))
  {
    assert name[|name| - 1] in name;
  }

  /** Nothing in a pruned directory survives the per-entry reading. */
  lemma {:induction false} NothingSurvivesPruning(cfg: Config, start: nat, rel: string, at: seq<string>, dir: Node)
    requires EndsInName(rel) && Pruned(cfg, rel) && NamedTree(dir) && start < |at|
    ensures forall e :: e in Full(Unruled(cfg), rel, at, dir) ==> !Keeps(cfg, start)(e)
    decreases dir, 1, 0
  {
    if dir.fault.None? {
      NoKidSurvivesPruning(cfg, start, rel, at, dir, Sorted(cfg.up, dir.kids));
    }
  }

  lemma {:induction false} NoKidSurvivesPruning(cfg: Config, start: nat, rel: string, at: seq<string>, dir: Node,
                                                ks: seq<Node>)
    requires EndsInName(rel) && Pruned(cfg, rel) && NamedTree(dir) && start < |at|
    requires forall k :: k in ks ==> k in dir.kids
    ensures forall e :: e in FullKids(Unruled(cfg), rel, at, dir, ks) ==> !Keeps(cfg, start)(e)
    decreases dir, 0, |ks|
  {
    if ks != [] {
      var k := ks[0];
      PrunedGoesDown(cfg, rel, k.info);
      NothingSurvivesPruning(cfg, start, ChildPath(rel, k.info.name), at + [k.info.name], k);
      NoKidSurvivesPruning(cfg, start, rel, at, dir, ks[1..]);
    }
  }

  lemma HeadsAreKept(cfg: Config, start: nat, rel: string, at: seq<string>, fault: int)
    requires start == |at| || !Pruned(cfg, rel)
    ensures Filter(Keeps(cfg, start), [Enter(at, rel)]) == [Enter(at, rel)]
    ensures var both := [Enter(at, rel), Denied(at, rel, fault)];
            Filter(Keeps(cfg, start), both) == both
  {
    var both := [Enter(at, rel), Denied(at, rel, fault)];
    assert both[1..] == [Denied(at, rel, fault)] && both[1..][1..] == [];
  }

  /**
    Pruning preserves meaning: the walk that cuts subtrees with the prefix test delivers the unpruned
    walk, filtered one entry at a time.
   */
  lemma {:induction false} PruningIsFiltering(cfg: Config, start: nat, rel: string, at: seq<string>, dir: Node)
    requires !cfg.includeExcluded && NamedTree(dir)
    requires start == |at| || !Pruned(cfg, rel)
    requires start <= |at|
    ensures Full(cfg, rel, at, dir) == Filter(Keeps(cfg, start), Full(Unruled(cfg), rel, at, dir))
    decreases dir, 2, 0
  {
    HeadsAreKept(cfg, start, rel, at, if dir.fault.Some? then dir.fault.value else 0);
    if dir.fault.None? {
      var ks := Sorted(cfg.up, dir.kids);
      FilterConcat(Keeps(cfg, start), [Enter(at, rel)], FullKids(Unruled(cfg), rel, at, dir, ks));
      KidsPruningIsFiltering(cfg, start, rel, at, dir, ks);
    }
  }

  lemma {:induction false} KidsPruningIsFiltering(cfg: Config, start: nat, rel: string, at: seq<string>, dir: Node,
                                                  ks: seq<Node>)
    requires !cfg.includeExcluded && NamedTree(dir) && start <= |at|
    requires forall k :: k in ks ==> k in dir.kids
    ensures FullKids(cfg, rel, at, dir, ks) == Filter(Keeps(cfg, start), FullKids(Unruled(cfg), rel, at, dir, ks))
    decreases dir, 1, |ks|
  {
    if ks != [] {
      FilterConcat(Keeps(cfg, start), FullKid(Unruled(cfg), rel, at, dir, ks[0]),
                   FullKids(Unruled(cfg), rel, at, dir, ks[1..]));
      KidPruningIsFiltering(cfg, start, rel, at, dir, ks[0]);
      KidsPruningIsFiltering(cfg, start, rel, at, dir, ks[1..]);
    }
  }

  lemma {:induction false} KidPruningIsFiltering(cfg: Config, start: nat, rel: string, at: seq<string>, dir: Node,
                                                 k: Node)
    requires !cfg.includeExcluded && NamedTree(dir) && start <= |at| && k in dir.kids
    ensures FullKid(cfg, rel, at, dir, k) == Filter(Keeps(cfg, start), FullKid(Unruled(cfg), rel, at, dir, k))
    decreases dir, 0, 0
  {
    var path := ChildPath(rel, k.info.name);
    var hit := Hit(cfg, path, k.info);
    var visit := Visit(at + [k.info.name], Entry(path, k.info, None));
    var inside := if Descends(k.info) then Full(Unruled(cfg), path, at + [k.info.name], k) else [];
    assert FullKid(Unruled(cfg), rel, at, dir, k) == [visit] + inside;
    FilterConcat(Keeps(cfg, start), [visit], inside);
    if Descends(k.info) {
      if hit.None? {
        PruningIsFiltering(cfg, start, path, at + [k.info.name], k);
      } else {
        ChildEndsInName(rel, k.info.name);
        NothingSurvivesPruning(cfg, start, path, at + [k.info.name], k);
        FilterNone(Keeps(cfg, start), inside);
      }
    }
  }

  /** A callback that never stops or skips anything. */
  ghost predicate Accepting(ask: Oracle) {
    forall log, e :: ask(log, e) == Continue
  }

  lemma AcceptingRun(cfg: Config, ask: Oracle, rel: string, dir: Node)
    requires DistinctTree(dir) && Accepting(ask)
    ensures RunDir(cfg, ask, rel, [], dir, []) == Ran(Full(cfg, rel, [], dir), Done)
  {
    WalkIsReplay(cfg, ask, rel, dir);
    ContinueDeliversAll(ask, Full(cfg, rel, [], dir), []);
    assert [] + Full(cfg, rel, [], dir) == Full(cfg, rel, [], dir);
  }

  /**
    A file (or anything else not descended) is in the manifest if and only if no rule matches its
    absolute path, although no rule was ever asked about files inside a pruned directory.
   */
  lemma DeliveredIffNoRuleMatches(cfg: Config, ask: Oracle, rel: string, dir: Node, file: Event)
    requires DistinctTree(dir) && NamedTree(dir) && Accepting(ask)
    requires !cfg.includeExcluded && cfg.volRoot != ""
    requires file in Full(Unruled(cfg), rel, [], dir) && file.Visit? && !Descends(file.entry.info)
    ensures file in RunDir(cfg, ask, rel, [], dir, []).log <==>
            FirstMatch(cfg.up, cfg.rules, cfg.volRoot + file.entry.path).None?
  {
    AcceptingRun(cfg, ask, rel, dir);
    PruningIsFiltering(cfg, 0, rel, [], dir);
  }

  // ---- Annotating.

  function Unmarked(): Event -> bool {
    (e: Event) => !(e.Visit? && e.entry.excludedBy.Some?)
  }

  lemma HeadsAreUnmarked(at: seq<string>, rel: string, fault: int)
    ensures Filter(Unmarked(), [Enter(at, rel)]) == [Enter(at, rel)]
    ensures Filter(Unmarked(), [Enter(at, rel), Denied(at, rel, fault)]) == [Enter(at, rel), Denied(at, rel, fault)]
  {
    var both := [Enter(at, rel), Denied(at, rel, fault)];
    assert both[1..] == [Denied(at, rel, fault)] && both[1..][1..] == [];
  }

  /** Annotated entries, dropped afterwards, leave the list without them. */
  lemma {:induction false} ListAnnotateThenDrop(cfg: Config, rel: string, at: seq<string>, dir: Node)
    ensures Filter(Unmarked(), Full(cfg.(includeExcluded := true), rel, at, dir))
         == Full(cfg.(includeExcluded := false), rel, at, dir)
    decreases dir, 2, 0
  {
    HeadsAreUnmarked(at, rel, if dir.fault.Some? then dir.fault.value else 0);
    if dir.fault.None? {
      var ks := Sorted(cfg.up, dir.kids);
      FilterConcat(Unmarked(), [Enter(at, rel)], FullKids(cfg.(includeExcluded := true), rel, at, dir, ks));
      AnnotateThenDropKids(cfg, rel, at, dir, ks);
    }
  }

  lemma {:induction false} AnnotateThenDropKids(cfg: Config, rel: string, at: seq<string>, dir: Node, ks: seq<Node>)
    requires forall k :: k in ks ==> k in dir.kids
    ensures Filter(Unmarked(), FullKids(cfg.(includeExcluded := true), rel, at, dir, ks))
         == FullKids(cfg.(includeExcluded := false), rel, at, dir, ks)
    decreases dir, 1, |ks|
  {
    if ks != [] {
      var full := cfg.(includeExcluded := true);
      var k := ks[0];
      var path := ChildPath(rel, k.info.name);
      var hit := Hit(cfg, path, k.info);
      var inside := if Descends(k.info) && hit.None? then Full(full, path, at + [k.info.name], k) else [];
      FilterConcat(Unmarked(), FullKid(full, rel, at, dir, k), FullKids(full, rel, at, dir, ks[1..]));
      FilterConcat(Unmarked(), [Visit(at + [k.info.name], Entry(path, k.info, hit))], inside);
      ListAnnotateThenDrop(cfg, path, at + [k.info.name], k);
      AnnotateThenDropKids(cfg, rel, at, dir, ks[1..]);
    }
  }

  /** Every entry of the list carries the first rule that applies to it, or none. */
  lemma {:induction false} ListMarkedByFirstRule(cfg: Config, rel: string, at: seq<string>, dir: Node, e: Event)
    requires e in Full(cfg, rel, at, dir) && e.Visit?
    ensures e.entry.excludedBy == Hit(cfg, e.entry.path, e.entry.info)
    decreases dir, 1, 0
  {
    KidsMarkedByFirstRule(cfg, rel, at, dir, Sorted(cfg.up, dir.kids), e);
  }

  lemma {:induction false} KidsMarkedByFirstRule(cfg: Config, rel: string, at: seq<string>, dir: Node, ks: seq<Node>,
                                                 e: Event)
    requires forall k :: k in ks ==> k in dir.kids
    requires e in FullKids(cfg, rel, at, dir, ks) && e.Visit?
    ensures e.entry.excludedBy == Hit(cfg, e.entry.path, e.entry.info)
    decreases dir, 0, |ks|
  {
    var k := ks[0];
    var path := ChildPath(rel, k.info.name);
    if e in FullKid(cfg, rel, at, dir, k) {
      if e != Visit(at + [k.info.name], Entry(path, k.info, Hit(cfg, path, k.info))) {
        ListMarkedByFirstRule(cfg, path, at + [k.info.name], k, e);
      }
    } else {
      KidsMarkedByFirstRule(cfg, rel, at, dir, ks[1..], e);
    }
  }

  /** An entry that must not be entered: excluded, or no directory, or a reparse point. */
  predicate Shut(e: Event) {
    e.Visit? && (e.entry.excludedBy.Some? || !e.entry.info.isDir || e.entry.info.attributes & 0x400 != 0)
  }

  /** Nothing at or below such an entry is listed besides the entry itself. */
  lemma {:induction false} ListShutHoldsNothing(cfg: Config, rel: string, at: seq<string>, dir: Node,
                                                  e: Event, f: Event)
    requires DistinctTree(dir)
    requires e in Full(cfg, rel, at, dir) && f in Full(cfg, rel, at, dir)
    requires Shut(e) && e.at <= f.at
    ensures f == e
    decreases dir, 2, 0
  {
    var ks := Sorted(cfg.up, dir.kids);
    SortedIsOrdered(cfg.up, dir.kids);
    KidsLieBelow(cfg, rel, at, dir, ks);
    ShutKidHoldsNothing(cfg, rel, at, dir, ks, e, f);
  }

  lemma {:induction false} ShutKidHoldsNothing(cfg: Config, rel: string, at: seq<string>, dir: Node, ks: seq<Node>,
                                                 e: Event, f: Event)
    requires DistinctTree(dir) && Distinct(ks) && forall k :: k in ks ==> k in dir.kids
    requires e in FullKids(cfg, rel, at, dir, ks) && f in FullKids(cfg, rel, at, dir, ks)
    requires Shut(e) && e.at <= f.at
    ensures f == e
    decreases dir, 1, |ks|
  {
    var k := ks[0];
    KidLiesBelow(cfg, rel, at, dir, k);
    KidsLieBelow(cfg, rel, at, dir, ks[1..]);
    var eHere, fHere := e in FullKid(cfg, rel, at, dir, k), f in FullKid(cfg, rel, at, dir, k);
    if eHere && fHere {
      ShutInsideKid(cfg, rel, at, dir, k, e, f);
    } else if !eHere && !fHere {
      ShutKidHoldsNothing(cfg, rel, at, dir, ks[1..], e, f);
    } else {
      var other := if eHere then f else e;
      var m :| m in ks[1..] && at + [m.info.name] <= other.at;
      DifferentSiblings(at, k.info.name, m.info.name, f.at);
    }
  }

  lemma {:induction false} ShutInsideKid(cfg: Config, rel: string, at: seq<string>, dir: Node, k: Node,
                                           e: Event, f: Event)
    requires DistinctTree(dir) && k in dir.kids
    requires e in FullKid(cfg, rel, at, dir, k) && f in FullKid(cfg, rel, at, dir, k)
    requires Shut(e) && e.at <= f.at
    ensures f == e
    decreases dir, 0, 0
  {
    var path, here := ChildPath(rel, k.info.name), at + [k.info.name];
    if e != Visit(here, Entry(path, k.info, Hit(cfg, path, k.info))) {
      FullLiesBelow(cfg, path, here, k);
      assert e in Full(cfg, path, here, k);
      assert |here| < |e.at| <= |f.at|;
      ListShutHoldsNothing(cfg, path, here, k, e, f);
    }
  }

  /** One address cannot lie below two siblings. */
  lemma DifferentSiblings(at: seq<string>, a: string, b: string, deep: seq<string>)
    requires at + [a] <= deep && at + [b] <= deep
    ensures a == b
  {
    assert (at + [a])[|at|] == deep[|at|] == (at + [b])[|at|];
  }

  // ---- Annotating walks.

  /** The annotated walk, with its excluded entries dropped afterwards, is the walk that drops them at once. */
  lemma AnnotateThenDrop(cfg: Config, ask: Oracle, rel: string, dir: Node)
    requires DistinctTree(dir) && Accepting(ask)
    ensures var annotated := RunDir(cfg.(includeExcluded := true), ask, rel, [], dir, []);
            var dropped := RunDir(cfg.(includeExcluded := false), ask, rel, [], dir, []);
            Filter(Unmarked(), annotated.log) == dropped.log && annotated.out == Done == dropped.out
  {
    AcceptingRun(cfg.(includeExcluded := true), ask, rel, dir);
    AcceptingRun(cfg.(includeExcluded := false), ask, rel, dir);
    ListAnnotateThenDrop(cfg, rel, [], dir);
  }

  /** The rule applies to the entry: it covers a directory to be entered, or matches anything else. */
  predicate Applies(cfg: Config, rule: ExcludeRule, entry: Entry) {
    if entry.info.isDir && entry.info.attributes & 0x400 == 0 then Prunes(cfg.up, rule, cfg.volRoot + entry.path)
    else Matches(cfg.up, rule, cfg.volRoot + entry.path)
  }

  /** The mark is the first rule that applies; there is none if none does, or if no root is known. */
  predicate MarkedFirst(cfg: Config, entry: Entry) {
    match entry.excludedBy
    case None => cfg.volRoot == "" || forall i :: 0 <= i < |cfg.rules| ==> !Applies(cfg, cfg.rules[i], entry)
    case Some(n) =>
      && cfg.volRoot != "" && n < |cfg.rules| && Applies(cfg, cfg.rules[n], entry)
      && forall i :: 0 <= i < n ==> !Applies(cfg, cfg.rules[i], entry)
  }

  /** Under any callback, every entry delivered carries the first rule that applies to it, or none. */
  lemma MarkedByFirstRule(cfg: Config, ask: Oracle, rel: string, dir: Node, e: Event)
    requires DistinctTree(dir) && e in RunDir(cfg, ask, rel, [], dir, []).log && e.Visit?
    ensures MarkedFirst(cfg, e.entry)
  {
    WalkStaysOnList(cfg, ask, rel, dir);
    ListMarkedByFirstRule(cfg, rel, [], dir, e);
    HitIsFirst(cfg, e.entry);
  }

  lemma HitIsFirst(cfg: Config, entry: Entry)
    requires entry.excludedBy == Hit(cfg, entry.path, entry.info)
    ensures MarkedFirst(cfg, entry)
  {
    if Descends(entry.info) {
      FirstPruningIsFirst(cfg.up, cfg.rules, cfg.volRoot + entry.path);
    } else {
      FirstMatchIsFirst(cfg.up, cfg.rules, cfg.volRoot + entry.path);
    }
  }

  /** Under any callback, nothing at or below an excluded entry is delivered besides the entry itself. */
  lemma MarkedIsNotEntered(cfg: Config, ask: Oracle, rel: string, dir: Node, e: Event, f: Event)
    requires DistinctTree(dir)
    requires e in RunDir(cfg, ask, rel, [], dir, []).log && f in RunDir(cfg, ask, rel, [], dir, []).log
    requires e.Visit? && e.entry.excludedBy.Some? && e.at <= f.at
    ensures f == e
  {
    WalkStaysOnList(cfg, ask, rel, dir);
    ListShutHoldsNothing(cfg, rel, [], dir, e, f);
  }

  /** Under any callback, nothing at or below a reparse point is delivered besides the reparse point itself. */
  lemma ReparsePointIsNotEntered(cfg: Config, ask: Oracle, rel: string, dir: Node, e: Event, f: Event)
    requires DistinctTree(dir)
    requires e in RunDir(cfg, ask, rel, [], dir, []).log && f in RunDir(cfg, ask, rel, [], dir, []).log
    requires e.Visit? && e.entry.info.attributes & 0x400 != 0 && e.at <= f.at
    ensures f == e
  {
    WalkStaysOnList(cfg, ask, rel, dir);
    ListShutHoldsNothing(cfg, rel, [], dir, e, f);
  }
}
