/**
  What a walk enters, what it shows of what it enters, and the paths it shows it under.
 */
module WalkEnter {
  import opened WinText
  import opened Options
  import opened Exclude
  import opened Walk
  import opened WalkOrder
  import opened WalkReplay
  import opened WalkPrune
  import opened WalkPaths

  // ---- A directory is entered exactly when it should be.

  /** The `j`-th event is a plain directory that is not excluded, and the callback said to go on. */
  predicate OpensAt(ask: Oracle, log: seq<Event>, j: nat)
    requires j < |log|
  {
    && log[j].Visit? && log[j].entry.info.isDir && log[j].entry.info.attributes & 0x400 == 0
    && log[j].entry.excludedBy.None? && ask(log[..j], log[j]).Continue?
  }

  predicate EntersAt(log: seq<Event>, j: nat) {
    j + 1 < |log| && log[j + 1].Enter?
  }

  predicate EntryOk(ask: Oracle, log: seq<Event>, j: nat)
    requires j < |log|
  {
    && (OpensAt(ask, log, j) <==> EntersAt(log, j))
    && (EntersAt(log, j) ==> log[j].Visit? && log[j + 1] == Enter(log[j].at, log[j].entry.path))
  }

  /** From `from` on, what is entered is what opens, at once, and under its own name. */
  ghost predicate EntersRight(ask: Oracle, from: nat, log: seq<Event>) {
    forall j :: from <= j < |log| ==> EntryOk(ask, log, j)
  }

  /** The log went on, with anything but an entering. */
  predicate GoesOn(log: seq<Event>, log': seq<Event>) {
    log <= log' && (|log| < |log'| ==> !log'[|log|].Enter?)
  }

  lemma GoesOnwards(log: seq<Event>, mid: seq<Event>, end: seq<Event>)
    requires GoesOn(log, mid) && GoesOn(mid, end)
    ensures GoesOn(log, end)
  {
  }

  lemma EntersOnwards(ask: Oracle, from: nat, mid: seq<Event>, log: seq<Event>)
    requires from <= |mid| && EntersRight(ask, from, mid) && GoesOn(mid, log) && EntersRight(ask, |mid|, log)
    ensures EntersRight(ask, from, log)
  {
    forall j | from <= j < |log| ensures EntryOk(ask, log, j) {
      if j < |mid| {
        assert EntryOk(ask, mid, j);
        assert mid[..j] == log[..j] && mid[j] == log[j];
      }
    }
  }

  lemma {:induction false} DirEnters(cfg: Config, ask: Oracle, rel: string, at: seq<string>, dir: Node, log: seq<Event>)
    ensures var ran := RunDir(cfg, ask, rel, at, dir, log);
            log + [Enter(at, rel)] <= ran.log && EntersRight(ask, |log|, ran.log)
    decreases dir, 2, 0
  {
    var log1 := log + [Enter(at, rel)];
    var ran := RunDir(cfg, ask, rel, at, dir, log);
    assert EntersRight(ask, |log|, log1);
    if !ask(log, Enter(at, rel)).Abort? {
      if dir.fault.None? {
        KidsEnter(cfg, ask, rel, at, dir, Sorted(cfg.up, dir.kids), log1);
      }
      EntersOnwards(ask, |log|, log1, ran.log);
    }
  }

  lemma {:induction false} KidsEnter(cfg: Config, ask: Oracle, rel: string, at: seq<string>, dir: Node, ks: seq<Node>,
                                     log: seq<Event>)
    requires forall k :: k in ks ==> k in dir.kids
    ensures var ran := RunKids(cfg, ask, rel, at, dir, ks, log);
            GoesOn(log, ran.log) && EntersRight(ask, |log|, ran.log)
    decreases dir, 1, |ks|
  {
    if ks != [] {
      KidEnters(cfg, ask, rel, at, dir, ks[0], log);
      match RunKid(cfg, ask, rel, at, dir, ks[0], log) {
        case Return(_) =>
        case Next(log') =>
          KidsEnter(cfg, ask, rel, at, dir, ks[1..], log');
          var end := RunKids(cfg, ask, rel, at, dir, ks[1..], log').log;
          assert RunKids(cfg, ask, rel, at, dir, ks, log).log == end;
          GoesOnwards(log, log', end);
          EntersOnwards(ask, |log|, log', end);
      }
    }
  }

  function LogOf(step: Step): seq<Event> {
    match step
    case Next(log) => log
    case Return(ran) => ran.log
  }

  lemma {:induction false} KidEnters(cfg: Config, ask: Oracle, rel: string, at: seq<string>, dir: Node, k: Node,
                                     log: seq<Event>)
    requires k in dir.kids
    ensures var log' := LogOf(RunKid(cfg, ask, rel, at, dir, k, log));
            GoesOn(log, log') && EntersRight(ask, |log|, log')
    decreases dir, 0, 0
  {
    var path, here := ChildPath(rel, k.info.name), at + [k.info.name];
    var hit := Hit(cfg, path, k.info);
    var visit := Visit(here, Entry(path, k.info, hit));
    if hit.None? || cfg.includeExcluded {
      if ask(log, visit).Continue? && Descends(k.info) && hit.None? {
        DirEnters(cfg, ask, path, here, k, log + [visit]);
        VisitThenEnter(ask, log, visit, RunDir(cfg, ask, path, here, k, log + [visit]).log);
      } else {
        LoneVisit(ask, log, visit);
      }
    }
  }

  lemma LoneVisit(ask: Oracle, log: seq<Event>, visit: Event)
    requires visit.Visit?
    requires !(visit.entry.info.isDir && visit.entry.info.attributes & 0x400 == 0 && visit.entry.excludedBy.None?
               && ask(log, visit).Continue?)
    ensures GoesOn(log, log + [visit]) && EntersRight(ask, |log|, log + [visit])
  {
    assert (log + [visit])[..|log|] == log;
  }

  lemma VisitThenEnter(ask: Oracle, log: seq<Event>, visit: Event, log': seq<Event>)
    requires visit.Visit? && log + [visit] + [Enter(visit.at, visit.entry.path)] <= log'
    requires visit.entry.info.isDir && visit.entry.info.attributes & 0x400 == 0
    requires visit.entry.excludedBy.None? && ask(log, visit).Continue?
    requires EntersRight(ask, |log| + 1, log')
    ensures GoesOn(log, log') && EntersRight(ask, |log|, log')
  {
    assert log'[|log|] == visit && log'[..|log|] == log && log'[|log| + 1] == Enter(visit.at, visit.entry.path);
  }

  /**
    Under any callback: right after an event the walk enters a directory if and only if that event was a
    plain directory, not a reparse point and not excluded, and the callback said to go on.
   */
  lemma EnteredIffPlainAndWanted(cfg: Config, ask: Oracle, rel: string, dir: Node, j: nat)
    requires j < |RunDir(cfg, ask, rel, [], dir, []).log|
    ensures var log := RunDir(cfg, ask, rel, [], dir, []).log;
            && (EntersAt(log, j) <==> OpensAt(ask, log, j))
            && (EntersAt(log, j) ==> log[j + 1] == Enter(log[j].at, log[j].entry.path))
  {
    DirEnters(cfg, ask, rel, [], dir, []);
    assert EntryOk(ask, RunDir(cfg, ask, rel, [], dir, []).log, j);
  }

  // ---- An annotated walk shows everything but what lies in covered directories.

  /** The event without its mark. */
  function Plain(e: Event): Event {
    if e.Visit? then e.(entry := e.entry.(excludedBy := None)) else e
  }

  function AllPlain(es: seq<Event>): seq<Event> {
    if es == [] then [] else [Plain(es[0])] + AllPlain(es[1..])
  }

  lemma {:induction false} AllPlainConcat(a: seq<Event>, b: seq<Event>)
    ensures AllPlain(a + b) == AllPlain(a) + AllPlain(b)
  {
    if a == [] {
      assert a + b == b;
    } else {
      assert (a + b)[1..] == a[1..] + b;
      AllPlainConcat(a[1..], b);
    }
  }

  /** The path of the directory an entry is in. */
  function ParentPath(entry: Entry): string {
    var p, n := entry.path, entry.info.name;
    if |n| < |p| then p[..|p| - |n| - 1] else ""
  }

  /** Everything but what lies strictly in a directory, other than the first, that a rule covers. */
  function Uncovered(cfg: Config, start: nat): Event -> bool {
    (e: Event) =>
      match e
      case Visit(at, entry) => |at| == start + 1 || !Pruned(cfg, ParentPath(entry))
      case Enter(at, rel) => |at| == start || !Pruned(cfg, rel)
      case Denied(at, rel, _) => |at| == start || !Pruned(cfg, rel)
  }

  lemma ParentOfChild(rel: string, info: Info, hit: Option<nat>)
    requires rel != ""
    ensures ParentPath(Entry(ChildPath(rel, info.name), info, hit)) == rel
  {
  }

  lemma {:induction false} CoveredHidesAll(cfg: Config, start: nat, rel: string, at: seq<string>, dir: Node)
    requires EndsInName(rel) && Pruned(cfg, rel) && NamedTree(dir) && start < |at|
    ensures forall e :: e in Full(Unruled(cfg), rel, at, dir) ==> !Uncovered(cfg, start)(e)
    decreases dir, 1, 0
  {
    if dir.fault.None? {
      CoveredHidesKids(cfg, start, rel, at, dir, Sorted(cfg.up, dir.kids));
    }
  }

  lemma {:induction false} CoveredHidesKids(cfg: Config, start: nat, rel: string, at: seq<string>, dir: Node,
                                            ks: seq<Node>)
    requires EndsInName(rel) && Pruned(cfg, rel) && NamedTree(dir) && start < |at|
    requires forall k :: k in ks ==> k in dir.kids
    ensures forall e :: e in FullKids(Unruled(cfg), rel, at, dir, ks) ==> !Uncovered(cfg, start)(e)
    decreases dir, 0, |ks|
  {
    if ks != [] {
      var k := ks[0];
      PrunedGoesDown(cfg, rel, k.info);
      ParentOfChild(rel, k.info, None);
      CoveredHidesAll(cfg, start, ChildPath(rel, k.info.name), at + [k.info.name], k);
      CoveredHidesKids(cfg, start, rel, at, dir, ks[1..]);
    }
  }

  lemma HeadsAreUncovered(cfg: Config, start: nat, rel: string, at: seq<string>, fault: int)
    requires start == |at| || !Pruned(cfg, rel)
    ensures AllPlain([Enter(at, rel)]) == [Enter(at, rel)] == Filter(Uncovered(cfg, start), [Enter(at, rel)])
    ensures var both := [Enter(at, rel), Denied(at, rel, fault)];
            AllPlain(both) == both == Filter(Uncovered(cfg, start), both)
  {
    var both := [Enter(at, rel), Denied(at, rel, fault)];
    assert both[1..] == [Denied(at, rel, fault)] && both[1..][1..] == [];
  }

  /** The directory at `rel` is where the walk starts, or is not covered. */
  predicate Shown(cfg: Config, start: nat, rel: string, at: seq<string>) {
    start == |at| || (start < |at| && rel != "" && !Pruned(cfg, rel))
  }

  lemma {:induction false} ListAnnotated(cfg: Config, start: nat, rel: string, at: seq<string>, dir: Node)
    requires cfg.includeExcluded && NamedTree(dir) && Shown(cfg, start, rel, at)
    ensures AllPlain(Full(cfg, rel, at, dir)) == Filter(Uncovered(cfg, start), Full(Unruled(cfg), rel, at, dir))
    decreases dir, 2, 0
  {
    HeadsAreUncovered(cfg, start, rel, at, if dir.fault.Some? then dir.fault.value else 0);
    if dir.fault.None? {
      var ks := Sorted(cfg.up, dir.kids);
      AllPlainConcat([Enter(at, rel)], FullKids(cfg, rel, at, dir, ks));
      FilterConcat(Uncovered(cfg, start), [Enter(at, rel)], FullKids(Unruled(cfg), rel, at, dir, ks));
      KidsAnnotated(cfg, start, rel, at, dir, ks);
    }
  }

  lemma {:induction false} KidsAnnotated(cfg: Config, start: nat, rel: string, at: seq<string>, dir: Node,
                                         ks: seq<Node>)
    requires cfg.includeExcluded && NamedTree(dir) && Shown(cfg, start, rel, at)
    requires forall k :: k in ks ==> k in dir.kids
    ensures AllPlain(FullKids(cfg, rel, at, dir, ks))
         == Filter(Uncovered(cfg, start), FullKids(Unruled(cfg), rel, at, dir, ks))
    decreases dir, 1, |ks|
  {
    if ks != [] {
      AllPlainConcat(FullKid(cfg, rel, at, dir, ks[0]), FullKids(cfg, rel, at, dir, ks[1..]));
      FilterConcat(Uncovered(cfg, start), FullKid(Unruled(cfg), rel, at, dir, ks[0]),
                   FullKids(Unruled(cfg), rel, at, dir, ks[1..]));
      KidAnnotated(cfg, start, rel, at, dir, ks[0]);
      KidsAnnotated(cfg, start, rel, at, dir, ks[1..]);
    }
  }

  lemma {:induction false} KidAnnotated(cfg: Config, start: nat, rel: string, at: seq<string>, dir: Node, k: Node)
    requires cfg.includeExcluded && NamedTree(dir) && Shown(cfg, start, rel, at) && k in dir.kids
    ensures AllPlain(FullKid(cfg, rel, at, dir, k))
         == Filter(Uncovered(cfg, start), FullKid(Unruled(cfg), rel, at, dir, k))
    decreases dir, 0, 0
  {
    var path, here := ChildPath(rel, k.info.name), at + [k.info.name];
    var hit, keep := Hit(cfg, path, k.info), Uncovered(cfg, start);
    var visit, plain := Visit(here, Entry(path, k.info, hit)), Visit(here, Entry(path, k.info, None));
    var inside := if Descends(k.info) then Full(Unruled(cfg), path, here, k) else [];
    var marked := if Descends(k.info) && hit.None? then Full(cfg, path, here, k) else [];
    if rel != "" { ParentOfChild(rel, k.info, None); }
    assert FullKid(Unruled(cfg), rel, at, dir, k) == [plain] + inside;
    assert FullKid(cfg, rel, at, dir, k) == [visit] + marked;
    FilterConcat(keep, [plain], inside);
    AllPlainConcat([visit], marked);
    assert keep(plain) && Filter(keep, [plain]) == [plain] == AllPlain([visit]);
    assert k in dir.kids && FileName(k.info.name);
    if Descends(k.info) {
      if hit.None? {
        ListAnnotated(cfg, start, path, here, k);
      } else {
        ChildEndsInName(rel, k.info.name);
        CoveredHidesAll(cfg, start, path, here, k);
        FilterNone(keep, inside);
      }
    }
  }

  /**
    The annotated walk, marks aside, is the walk without rules, less what lies strictly within covered
    directories: excluded entries are shown, and so are covered directories themselves.
   */
  lemma AnnotatedShowsTheRest(cfg: Config, ask: Oracle, rel: string, dir: Node)
    requires DistinctTree(dir) && NamedTree(dir) && Accepting(ask) && cfg.includeExcluded
    ensures AllPlain(RunDir(cfg, ask, rel, [], dir, []).log)
         == Filter(Uncovered(cfg, 0), RunDir(Unruled(cfg), ask, rel, [], dir, []).log)
  {
    AcceptingRun(cfg, ask, rel, dir);
    AcceptingRun(Unruled(cfg), ask, rel, dir);
    ListAnnotated(cfg, 0, rel, [], dir);
  }

  // ---- Without a volume root there are no absolute paths, and so no exclusion.

  lemma {:induction false} ListWithoutRoot(cfg: Config, rel: string, at: seq<string>, dir: Node)
    requires cfg.volRoot == ""
    ensures Full(cfg, rel, at, dir) == Full(Unruled(cfg), rel, at, dir)
    decreases dir, 1, 0
  {
    KidsWithoutRoot(cfg, rel, at, dir, Sorted(cfg.up, dir.kids));
  }

  lemma {:induction false} KidsWithoutRoot(cfg: Config, rel: string, at: seq<string>, dir: Node, ks: seq<Node>)
    requires cfg.volRoot == "" && forall k :: k in ks ==> k in dir.kids
    ensures FullKids(cfg, rel, at, dir, ks) == FullKids(Unruled(cfg), rel, at, dir, ks)
    decreases dir, 0, |ks|
  {
    if ks != [] {
      var k := ks[0];
      assert k in dir.kids;
      ListWithoutRoot(cfg, ChildPath(rel, k.info.name), at + [k.info.name], k);
      KidsWithoutRoot(cfg, rel, at, dir, ks[1..]);
    }
  }

  /** With no root known, the rules make no difference to any callback. */
  lemma NoRootNoExclusion(cfg: Config, ask: Oracle, rel: string, dir: Node)
    requires DistinctTree(dir) && cfg.volRoot == ""
    ensures RunDir(cfg, ask, rel, [], dir, []) == RunDir(Unruled(cfg), ask, rel, [], dir, [])
  {
    WalkIsReplay(cfg, ask, rel, dir);
    WalkIsReplay(Unruled(cfg), ask, rel, dir);
    ListWithoutRoot(cfg, rel, [], dir);
  }

  // ---- Paths.

  /** `at` spells the path: segment by segment, or it is the volume root's. */
  predicate Spelled(rel: string, at: seq<string>) {
    if rel == "" then at == [] else Split(rel) == at
  }

  lemma SpelledChild(rel: string, at: seq<string>, name: string)
    requires Spelled(rel, at) && EntryName(name)
    ensures Spelled(ChildPath(rel, name), at + [name]) && ChildPath(rel, name) != ""
  {
    assert forall i :: 0 <= i < |name| ==> name[i] in name;
    if rel == "" {
      assert Split(name) == [name];
    } else {
      SplitAppend(rel, name);
    }
  }

  lemma {:induction false} ListSpells(cfg: Config, rel: string, at: seq<string>, dir: Node, e: Event)
    requires EntryTree(dir) && Spelled(rel, at) && e in Full(cfg, rel, at, dir) && e.Visit?
    ensures Split(e.entry.path) == e.at && |e.at| > 0 && e.at[|e.at| - 1] == e.entry.info.name
    decreases dir, 1, 0
  {
    KidsSpell(cfg, rel, at, dir, Sorted(cfg.up, dir.kids), e);
  }

  lemma {:induction false} KidsSpell(cfg: Config, rel: string, at: seq<string>, dir: Node, ks: seq<Node>, e: Event)
    requires EntryTree(dir) && Spelled(rel, at) && forall k :: k in ks ==> k in dir.kids
    requires e in FullKids(cfg, rel, at, dir, ks) && e.Visit?
    ensures Split(e.entry.path) == e.at && |e.at| > 0 && e.at[|e.at| - 1] == e.entry.info.name
    decreases dir, 0, |ks|
  {
    var k := ks[0];
    var path := ChildPath(rel, k.info.name);
    if e in FullKid(cfg, rel, at, dir, k) {
      SpelledChild(rel, at, k.info.name);
      if e != Visit(at + [k.info.name], Entry(path, k.info, Hit(cfg, path, k.info))) {
        ListSpells(cfg, path, at + [k.info.name], k, e);
      }
    } else {
      KidsSpell(cfg, rel, at, dir, ks[1..], e);
    }
  }

  /** In a walk of the whole volume, a path's segments are the names that lead to the entry, its own last. */
  lemma PathsSpellTheWay(cfg: Config, ask: Oracle, dir: Node, e: Event)
    requires DistinctTree(dir) && EntryTree(dir) && e in RunDir(cfg, ask, "", [], dir, []).log && e.Visit?
    ensures Split(e.entry.path) == e.at && |e.at| > 0 && e.at[|e.at| - 1] == e.entry.info.name
  {
    WalkStaysOnList(cfg, ask, "", dir);
    ListSpells(cfg, "", [], dir, e);
  }
}
