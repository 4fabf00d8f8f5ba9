/**
  What a callback's verdicts mean.

  The recursive walk is shown to be a replay of one flat list: everything there is, in pre-order.  An
  event is left out exactly when an earlier `SkipDir` covers it, and the first abort ends the list.
 */
module WalkReplay {
  import opened WinText
  import opened Options
  import opened Walk
  import opened WalkOrder

  // ---- Everything there is, in pre-order.

  function Full(cfg: Config, rel: string, at: seq<string>, dir: Node): seq<Event>
    decreases dir, 2, 0
  {
    if dir.fault.Some? then [Enter(at, rel), Denied(at, rel, dir.fault.value)]
    else [Enter(at, rel)] + FullKids(cfg, rel, at, dir, Sorted(cfg.up, dir.kids))
  }

  function FullKids(cfg: Config, rel: string, at: seq<string>, dir: Node, ks: seq<Node>): seq<Event>
    requires forall k :: k in ks ==> k in dir.kids
    decreases dir, 1, |ks|
  {
    if ks == [] then []
    else FullKid(cfg, rel, at, dir, ks[0]) + FullKids(cfg, rel, at, dir, ks[1..])
  }

  /** One sibling: nothing if a rule drops it, else itself and, if it is descended, what it holds. */
  function FullKid(cfg: Config, rel: string, at: seq<string>, dir: Node, k: Node): seq<Event>
    requires k in dir.kids
    decreases dir, 0, 0
  {
    var path := ChildPath(rel, k.info.name);
    var hit := Hit(cfg, path, k.info);
    if hit.Some? && !cfg.includeExcluded then []
    else
      [Visit(at + [k.info.name], Entry(path, k.info, hit))] +
      if Descends(k.info) && hit.None? then Full(cfg, path, at + [k.info.name], k) else []
  }

  // ---- The reference: replaying a flat list against the callback.

  /** The directory whose remaining contents a `SkipDir` for this event gives up. */
  function Base(d: Event): seq<string> {
    if d.Visit? && !d.entry.info.isDir && |d.at| > 0 then d.at[..|d.at| - 1] else d.at
  }

  /** The event belongs to what lies in the directory at `base`. */
  predicate Beneath(base: seq<string>, e: Event) {
    if e.Visit? then base < e.at else base <= e.at
  }

  /** The callback answered the `j`-th event of the log with `SkipDir`, for an entry. */
  predicate SkippedAt(ask: Oracle, log: seq<Event>, j: nat)
    requires j < |log|
  {
    log[j].Visit? && ask(log[..j], log[j]).SkipDir?
  }

  ghost predicate Muted(ask: Oracle, log: seq<Event>, e: Event) {
    exists j :: 0 <= j < |log| && SkippedAt(ask, log, j) && Beneath(Base(log[j]), e)
  }

  ghost function Replay(ask: Oracle, todo: seq<Event>, log: seq<Event>): Ran
    decreases |todo|
  {
    if todo == [] then Ran(log, Done)
    else if Muted(ask, log, todo[0]) then Replay(ask, todo[1..], log)
    else
      match ask(log, todo[0])
      case Abort(err) => Ran(log + [todo[0]], Failed(err))
      case SkipDir =>
        // A directory that could not be read is not an entry: its SkipDir goes all the way up.
        if todo[0].Denied? then Ran(log + [todo[0]], Skipped)
        else Replay(ask, todo[1..], log + [todo[0]])
      case Continue => Replay(ask, todo[1..], log + [todo[0]])
  }

  // ---- The walk is the replay.

  /** No skip so far gives up anything at `at`. */
  ghost predicate Open(ask: Oracle, log: seq<Event>, at: seq<string>) {
    forall j :: 0 <= j < |log| && SkippedAt(ask, log, j) ==> !(Base(log[j]) <= at) && !(at <= Base(log[j]))
  }

  /** The log grew, and the skips it gained only give up things at or below `at`. */
  ghost predicate Grew(ask: Oracle, log: seq<Event>, log': seq<Event>, at: seq<string>) {
    && log <= log'
    && forall j :: |log| <= j < |log'| && SkippedAt(ask, log', j) ==> at <= Base(log'[j])
  }

  lemma SkipsPersist(ask: Oracle, log: seq<Event>, log': seq<Event>, j: nat)
    requires log <= log' && j < |log|
    ensures log'[j] == log[j] && SkippedAt(ask, log', j) == SkippedAt(ask, log, j)
  {
    assert log'[..j] == log[..j];
  }

  lemma GrewTransitive(ask: Oracle, a: seq<Event>, b: seq<Event>, c: seq<Event>, at: seq<string>)
    requires Grew(ask, a, b, at) && Grew(ask, b, c, at)
    ensures Grew(ask, a, c, at)
  {
    forall j | |a| <= j < |c| && SkippedAt(ask, c, j) ensures at <= Base(c[j]) {
      if j < |b| { SkipsPersist(ask, b, c, j); }
    }
  }

  lemma GrewByOne(ask: Oracle, log: seq<Event>, e: Event, at: seq<string>)
    requires e.Visit? && ask(log, e).SkipDir? ==> at <= Base(e)
    ensures Grew(ask, log, log + [e], at)
  {
    assert (log + [e])[..|log|] == log;
  }

  lemma GrewAbove(ask: Oracle, log: seq<Event>, log': seq<Event>, at: seq<string>, above: seq<string>)
    requires Grew(ask, log, log', at) && above <= at
    ensures Grew(ask, log, log', above)
  {
  }

  /** Work at one place leaves another, unrelated place open. */
  lemma StaysOpen(ask: Oracle, log: seq<Event>, log': seq<Event>, at: seq<string>, other: seq<string>)
    requires Open(ask, log, other) && Grew(ask, log, log', at)
    requires |at| == |other| && at != other
    ensures Open(ask, log', other)
  {
    forall j | 0 <= j < |log'| && SkippedAt(ask, log', j)
      ensures !(Base(log'[j]) <= other) && !(other <= Base(log'[j]))
    {
      if j < |log| { SkipsPersist(ask, log, log', j); }
    }
  }

  lemma PrefixesCompare<T>(a: seq<T>, b: seq<T>, c: seq<T>)
    requires a <= c && b <= c
    ensures a <= b || b <= a
  {
    assert if |a| <= |b| then a == b[..|a|] else b == a[..|b|];
  }

  lemma OpenIsNotMuted(ask: Oracle, log: seq<Event>, e: Event, at: seq<string>)
    requires Open(ask, log, at) && at <= e.at
    ensures !Muted(ask, log, e)
  {
    forall j | 0 <= j < |log| && SkippedAt(ask, log, j)
      ensures !Beneath(Base(log[j]), e)
    {
      if Base(log[j]) <= e.at { PrefixesCompare(Base(log[j]), at, e.at); }
    }
  }

  lemma OpenBelow(ask: Oracle, log: seq<Event>, at: seq<string>, below: seq<string>)
    requires Open(ask, log, at) && at <= below
    ensures Open(ask, log, below)
  {
    forall j | 0 <= j < |log| && SkippedAt(ask, log, j)
      ensures !(Base(log[j]) <= below) && !(below <= Base(log[j]))
    {
      if Base(log[j]) <= below { PrefixesCompare(Base(log[j]), at, below); }
    }
  }

  /** Events already given up are passed over. */
  lemma {:induction false} ReplayPassesMuted(ask: Oracle, gone: seq<Event>, rest: seq<Event>, log: seq<Event>)
    requires forall e :: e in gone ==> Muted(ask, log, e)
    ensures Replay(ask, gone + rest, log) == Replay(ask, rest, log)
    decreases |gone|
  {
    if gone == [] {
      assert gone + rest == rest;
    } else {
      assert gone[0] in gone;
      assert (gone + rest)[1..] == gone[1..] + rest;
      ReplayPassesMuted(ask, gone[1..], rest, log);
    }
  }

  lemma {:induction false} FullLiesBelow(cfg: Config, rel: string, at: seq<string>, dir: Node)
    ensures forall e :: e in Full(cfg, rel, at, dir) ==> Beneath(at, e)
    decreases dir, 2, 0
  {
    if dir.fault.None? {
      KidsLieBelow(cfg, rel, at, dir, Sorted(cfg.up, dir.kids));
    }
  }

  lemma {:induction false} KidsLieBelow(cfg: Config, rel: string, at: seq<string>, dir: Node, ks: seq<Node>)
    requires forall k :: k in ks ==> k in dir.kids
    ensures forall e :: e in FullKids(cfg, rel, at, dir, ks) ==>
              exists k :: k in ks && at + [k.info.name] <= e.at
    ensures forall e :: e in FullKids(cfg, rel, at, dir, ks) ==> Beneath(at, e)
    decreases dir, 1, |ks|
  {
    if ks != [] {
      KidLiesBelow(cfg, rel, at, dir, ks[0]);
      KidsLieBelow(cfg, rel, at, dir, ks[1..]);
      forall e | e in FullKids(cfg, rel, at, dir, ks)
        ensures Beneath(at, e) && exists k :: k in ks && at + [k.info.name] <= e.at
      {
        if e in FullKid(cfg, rel, at, dir, ks[0]) {
          assert ks[0] in ks;
        } else {
          assert e in FullKids(cfg, rel, at, dir, ks[1..]);
          var k :| k in ks[1..] && at + [k.info.name] <= e.at;
          assert k in ks;
        }
      }
    }
  }

  lemma {:induction false} KidLiesBelow(cfg: Config, rel: string, at: seq<string>, dir: Node, k: Node)
    requires k in dir.kids
    ensures forall e :: e in FullKid(cfg, rel, at, dir, k) ==> at + [k.info.name] <= e.at && Beneath(at, e)
    decreases dir, 0, 0
  {
    var path := ChildPath(rel, k.info.name);
    FullLiesBelow(cfg, path, at + [k.info.name], k);
    forall e | e in FullKid(cfg, rel, at, dir, k) ensures at + [k.info.name] <= e.at && Beneath(at, e) {
      assert e in Full(cfg, path, at + [k.info.name], k) || e.at == at + [k.info.name];
      assert at < at + [k.info.name];
    }
  }

  /** One event delivered while nothing mutes it. */
  lemma ReplayDelivers(ask: Oracle, e: Event, rest: seq<Event>, log: seq<Event>)
    requires !Muted(ask, log, e)
    ensures Replay(ask, [e] + rest, log) ==
            match ask(log, e)
            case Abort(err) => Ran(log + [e], Failed(err))
            case SkipDir => if e.Denied? then Ran(log + [e], Skipped) else Replay(ask, rest, log + [e])
            case Continue => Replay(ask, rest, log + [e])
  {
    assert ([e] + rest)[1..] == rest;
  }

  /** What the replay of a block does, given what the walk did: go on after it, or end the same way. */
  ghost predicate Agrees(ask: Oracle, block: seq<Event>, rest: seq<Event>, log: seq<Event>, ran: Ran) {
    Replay(ask, block + rest, log) == if ran.out == Done then Replay(ask, rest, ran.log) else ran
  }

  lemma {:induction false} DirIsReplay(cfg: Config, ask: Oracle, rel: string, at: seq<string>, dir: Node,
                                       log: seq<Event>, rest: seq<Event>)
    requires DistinctTree(dir) && Open(ask, log, at)
    ensures Agrees(ask, Full(cfg, rel, at, dir), rest, log, RunDir(cfg, ask, rel, at, dir, log))
    ensures Grew(ask, log, RunDir(cfg, ask, rel, at, dir, log).log, at)
    decreases dir, 2, 0
  {
    var enter := Enter(at, rel);
    var full := Full(cfg, rel, at, dir);
    OpenIsNotMuted(ask, log, enter, at);
    GrewByOne(ask, log, enter, at);
    assert full + rest == [enter] + (full[1..] + rest);
    ReplayDelivers(ask, enter, full[1..] + rest, log);
    if !ask(log, enter).Abort? {
      var log1 := log + [enter];
      OpenAfterEnter(ask, log, enter, at);
      if dir.fault.Some? {
        var denied := Denied(at, rel, dir.fault.value);
        OpenIsNotMuted(ask, log1, denied, at);
        assert full[1..] + rest == [denied] + rest;
        ReplayDelivers(ask, denied, rest, log1);
        GrewByOne(ask, log1, denied, at);
        GrewTransitive(ask, log, log1, log1 + [denied], at);
      } else {
        var ks := Sorted(cfg.up, dir.kids);
        SortedIsOrdered(cfg.up, dir.kids);
        forall m | m in ks ensures Open(ask, log1, at + [m.info.name]) {
          OpenBelow(ask, log1, at, at + [m.info.name]);
        }
        KidsAreReplay(cfg, ask, rel, at, dir, ks, log1, rest);
        assert full[1..] == FullKids(cfg, rel, at, dir, ks);
        GrewTransitive(ask, log, log1, RunKids(cfg, ask, rel, at, dir, ks, log1).log, at);
      }
    }
  }

  lemma OpenAfterEnter(ask: Oracle, log: seq<Event>, enter: Event, at: seq<string>)
    requires Open(ask, log, at) && enter.Enter?
    ensures Open(ask, log + [enter], at)
  {
    forall j | 0 <= j < |log + [enter]| && SkippedAt(ask, log + [enter], j)
      ensures !(Base((log + [enter])[j]) <= at) && !(at <= Base((log + [enter])[j]))
    {
      SkipsPersist(ask, log, log + [enter], j);
    }
  }

  /** Every one of the siblings is still open. */
  ghost predicate KidsOpen(ask: Oracle, log: seq<Event>, at: seq<string>, ks: seq<Node>) {
    forall k :: k in ks ==> Open(ask, log, at + [k.info.name])
  }

  lemma LaterKidsStayOpen(ask: Oracle, log: seq<Event>, log': seq<Event>, at: seq<string>, ks: seq<Node>)
    requires ks != [] && Distinct(ks) && KidsOpen(ask, log, at, ks)
    requires Grew(ask, log, log', at + [ks[0].info.name])
    ensures KidsOpen(ask, log', at, ks[1..])
  {
    forall m | m in ks[1..] ensures Open(ask, log', at + [m.info.name]) {
      var i :| 0 <= i < |ks[1..]| && ks[1..][i] == m;
      assert ks[i + 1] == m;
      assert (at + [ks[0].info.name])[|at|] != (at + [m.info.name])[|at|];
      StaysOpen(ask, log, log', at + [ks[0].info.name], at + [m.info.name]);
    }
  }

  lemma Reassociate(a: seq<Event>, b: seq<Event>, c: seq<Event>)
    ensures (a + b) + c == a + (b + c)
  {
  }

  lemma {:induction false} KidsAreReplay(cfg: Config, ask: Oracle, rel: string, at: seq<string>, dir: Node,
                                         ks: seq<Node>, log: seq<Event>, rest: seq<Event>)
    requires DistinctTree(dir) && Distinct(ks) && forall k :: k in ks ==> k in dir.kids
    requires KidsOpen(ask, log, at, ks)
    ensures Agrees(ask, FullKids(cfg, rel, at, dir, ks), rest, log, RunKids(cfg, ask, rel, at, dir, ks, log))
    ensures Grew(ask, log, RunKids(cfg, ask, rel, at, dir, ks, log).log, at)
    decreases dir, 1, |ks|
  {
    if ks == [] {
      assert [] + rest == rest;
    } else {
      var k, tail := ks[0], FullKids(cfg, rel, at, dir, ks[1..]);
      KidIsReplay(cfg, ask, rel, at, dir, k, log, tail + rest);
      assert FullKids(cfg, rel, at, dir, ks) + rest == FullKid(cfg, rel, at, dir, k) + (tail + rest) by {
        Reassociate(FullKid(cfg, rel, at, dir, k), tail, rest);
      }
      var ran := RunKids(cfg, ask, rel, at, dir, ks, log);
      match RunKid(cfg, ask, rel, at, dir, k, log) {
        case Next(log') =>
          LaterKidsStayOpen(ask, log, log', at, ks);
          KidsAreReplay(cfg, ask, rel, at, dir, ks[1..], log', rest);
          assert ran == RunKids(cfg, ask, rel, at, dir, ks[1..], log');
          GrewAbove(ask, log, log', at + [k.info.name], at);
          GrewTransitive(ask, log, log', ran.log, at);
        case Return(_) =>
          if ran.out == Done {
            SkippedFileGivesUpDirectory(cfg, ask, rel, at, dir, k, ks[1..], log, rest);
          }
      }
    }
  }

  /** A file's SkipDir gives up every later sibling. */
  lemma SkippedFileGivesUpDirectory(cfg: Config, ask: Oracle, rel: string, at: seq<string>, dir: Node, k: Node,
                                    later: seq<Node>, log: seq<Event>, rest: seq<Event>)
    requires k in dir.kids && forall m :: m in later ==> m in dir.kids
    requires RunKid(cfg, ask, rel, at, dir, k, log).Return? && RunKid(cfg, ask, rel, at, dir, k, log).ran.out == Done
    ensures var log' := RunKid(cfg, ask, rel, at, dir, k, log).ran.log;
            Replay(ask, FullKids(cfg, rel, at, dir, later) + rest, log') == Replay(ask, rest, log')
  {
    var log' := RunKid(cfg, ask, rel, at, dir, k, log).ran.log;
    KidsLieBelow(cfg, rel, at, dir, later);
    assert log'[..|log|] == log && SkippedAt(ask, log', |log|);
    assert Base(log'[|log|]) == at;
    ReplayPassesMuted(ask, FullKids(cfg, rel, at, dir, later), rest, log');
  }

  lemma {:induction false} KidIsReplay(cfg: Config, ask: Oracle, rel: string, at: seq<string>, dir: Node, k: Node,
                                       log: seq<Event>, rest: seq<Event>)
    requires DistinctTree(dir) && k in dir.kids && Open(ask, log, at + [k.info.name])
    ensures var ran := match RunKid(cfg, ask, rel, at, dir, k, log)
                       case Next(log') => Ran(log', Done)
                       case Return(r) => r;
            Agrees(ask, FullKid(cfg, rel, at, dir, k), rest, log, ran) &&
            Grew(ask, log, ran.log, if RunKid(cfg, ask, rel, at, dir, k, log).Next? then at + [k.info.name] else at)
    decreases dir, 0, 0
  {
    var here := at + [k.info.name];
    var path := ChildPath(rel, k.info.name);
    var hit := Hit(cfg, path, k.info);
    if hit.Some? && !cfg.includeExcluded {
      assert [] + rest == rest;
    } else {
      var visit := Visit(here, Entry(path, k.info, hit));
      var inside := if Descends(k.info) && hit.None? then Full(cfg, path, here, k) else [];
      OpenIsNotMuted(ask, log, visit, here);
      assert FullKid(cfg, rel, at, dir, k) + rest == [visit] + (inside + rest);
      ReplayDelivers(ask, visit, inside + rest, log);
      assert here[..|here| - 1] == at;
      GrewByOne(ask, log, visit, at);
      var log1 := log + [visit];
      match ask(log, visit) {
        case Abort(_) =>
        case SkipDir =>
          if k.info.isDir {
            GrewByOne(ask, log, visit, here);
            FullLiesBelow(cfg, path, here, k);
            assert log1[..|log|] == log && SkippedAt(ask, log1, |log|);
            ReplayPassesMuted(ask, inside, rest, log1);
          } else {
            assert inside == [] && [] + rest == rest;
          }
        case Continue =>
          GrewByOne(ask, log, visit, here);
          if inside == [] {
            assert [] + rest == rest;
          } else {
            OpenAfterVisit(ask, log, visit, here);
            DirIsReplay(cfg, ask, path, here, k, log1, rest);
            var ran := RunDir(cfg, ask, path, here, k, log1);
            GrewTransitive(ask, log, log1, ran.log, here);
            GrewAbove(ask, log, ran.log, here, at);
          }
      }
    }
  }

  lemma OpenAfterVisit(ask: Oracle, log: seq<Event>, visit: Event, at: seq<string>)
    requires Open(ask, log, at) && ask(log, visit).Continue?
    ensures Open(ask, log + [visit], at)
  {
    var log1 := log + [visit];
    assert log1[..|log|] == log;
    forall j | 0 <= j < |log1| && SkippedAt(ask, log1, j)
      ensures !(Base(log1[j]) <= at) && !(at <= Base(log1[j]))
    {
      SkipsPersist(ask, log, log1, j);
    }
  }

  /**
    Callback semantics.  For every callback, the walk delivers the pre-order list of everything there
    is, minus the contents of directories it skipped, minus what follows a file it skipped in that
    file's directory, cut at the first abort, with that abort's error.
   */
  lemma WalkIsReplay(cfg: Config, ask: Oracle, rel: string, dir: Node)
    requires DistinctTree(dir)
    ensures RunDir(cfg, ask, rel, [], dir, []) == Replay(ask, Full(cfg, rel, [], dir), [])
  {
    DirIsReplay(cfg, ask, rel, [], dir, [], []);
    assert Full(cfg, rel, [], dir) + [] == Full(cfg, rel, [], dir);
  }

  /** A callback that always continues is shown everything. */
  lemma {:induction false} ContinueDeliversAll(ask: Oracle, todo: seq<Event>, log: seq<Event>)
    requires forall l, e :: ask(l, e) == Continue
    ensures Replay(ask, todo, log) == Ran(log + todo, Done)
    decreases |todo|
  {
    if todo != [] {
      ContinueDeliversAll(ask, todo[1..], log + [todo[0]]);
      assert log + [todo[0]] + todo[1..] == log + todo;
    } else {
      assert log + todo == log;
    }
  }

  /** A replay delivers nothing that is not on the list. */
  lemma {:induction false} ReplayInvents(ask: Oracle, todo: seq<Event>, log: seq<Event>)
    ensures forall e :: e in Replay(ask, todo, log).log ==> e in log || e in todo
    decreases |todo|
  {
    if todo != [] {
      ReplayInvents(ask, todo[1..], log);
      ReplayInvents(ask, todo[1..], log + [todo[0]]);
    }
  }

  /** Under any callback, everything a walk does is on the list of everything there is. */
  lemma WalkStaysOnList(cfg: Config, ask: Oracle, rel: string, dir: Node)
    requires DistinctTree(dir)
    ensures forall e :: e in RunDir(cfg, ask, rel, [], dir, []).log ==> e in Full(cfg, rel, [], dir)
  {
    WalkIsReplay(cfg, ask, rel, dir);
    ReplayInvents(ask, Full(cfg, rel, [], dir), []);
  }

  // ---- A read error answered with SkipDir.

  /** The documented reading: `SkipDir` for an unreadable directory only means not to descend into it. */
  ghost function DocumentedReplay(ask: Oracle, todo: seq<Event>, log: seq<Event>): Ran
    decreases |todo|
  {
    if todo == [] then Ran(log, Done)
    else if Muted(ask, log, todo[0]) then DocumentedReplay(ask, todo[1..], log)
    else
      match ask(log, todo[0])
      case Abort(err) => Ran(log + [todo[0]], Failed(err))
      case _ => DocumentedReplay(ask, todo[1..], log + [todo[0]])
  }

  /** The `j`-th event is an unreadable directory that the callback answered with `SkipDir`. */
  predicate DeniedSkipped(ask: Oracle, log: seq<Event>, j: nat)
    requires j < |log|
  {
    log[j].Denied? && ask(log[..j], log[j]).SkipDir?
  }

  lemma {:induction false} DocumentedGrows(ask: Oracle, todo: seq<Event>, log: seq<Event>)
    ensures log <= DocumentedReplay(ask, todo, log).log
    ensures DocumentedReplay(ask, todo, log).log == log ==> DocumentedReplay(ask, todo, log).out == Done
    decreases |todo|
  {
    if todo != [] {
      DocumentedGrows(ask, todo[1..], log);
      DocumentedGrows(ask, todo[1..], log + [todo[0]]);
    }
  }

  /** The replay falls short of the documented one by what follows the first such answer, if anything does. */
  ghost predicate FallsShortAt(ask: Oracle, from: nat, run: Ran, doc: Ran) {
    && run.log <= doc.log
    && (run.log == doc.log <==> forall j :: from <= j < |doc.log| - 1 ==> !DeniedSkipped(ask, doc.log, j))
    && (run.log == doc.log ==> run.out == doc.out || (run.out == Skipped && doc.out == Done))
    && (run.log != doc.log ==>
          && run.out == Skipped && from < |run.log| && DeniedSkipped(ask, doc.log, |run.log| - 1)
          && forall j :: from <= j < |run.log| - 1 ==> !DeniedSkipped(ask, doc.log, j))
  }

  lemma {:induction false} DeniedSkipEndsTheReplay(ask: Oracle, todo: seq<Event>, log: seq<Event>)
    ensures FallsShortAt(ask, |log|, Replay(ask, todo, log), DocumentedReplay(ask, todo, log))
    decreases |todo|
  {
    DocumentedGrows(ask, todo, log);
    if todo != [] && !Muted(ask, log, todo[0]) {
      var e := todo[0];
      var log1 := log + [e];
      DocumentedGrows(ask, todo[1..], log1);
      var doc := DocumentedReplay(ask, todo, log);
      assert doc.log[..|log|] == log1[..|log|] == log && doc.log[|log|] == e;
      if ask(log, e).SkipDir? && e.Denied? {
        assert DeniedSkipped(ask, doc.log, |log|);
      } else if !ask(log, e).Abort? {
        DeniedSkipEndsTheReplay(ask, todo[1..], log1);
      }
    } else if todo != [] {
      DeniedSkipEndsTheReplay(ask, todo[1..], log);
    }
  }

  lemma {:induction false} WithoutDeniedSkipsReplay(ask: Oracle, todo: seq<Event>, log: seq<Event>)
    requires forall l, e: Event :: e.Denied? ==> !ask(l, e).SkipDir?
    ensures Replay(ask, todo, log) == DocumentedReplay(ask, todo, log)
    decreases |todo|
  {
    if todo != [] {
      WithoutDeniedSkipsReplay(ask, todo[1..], log);
      WithoutDeniedSkipsReplay(ask, todo[1..], log + [todo[0]]);
    }
  }

  /** The walk as documented. */
  ghost function DocumentedWalk(cfg: Config, ask: Oracle, rel: string, dir: Node): Ran {
    DocumentedReplay(ask, Full(cfg, rel, [], dir), [])
  }

  /**
    The walk falls short of the documented one exactly when some read error was answered with `SkipDir`
    and anything was left to deliver after it; it then stops at the first such answer, without an error.
   */
  lemma DeniedSkipEndsTheWalk(cfg: Config, ask: Oracle, rel: string, dir: Node)
    requires DistinctTree(dir)
    ensures FallsShortAt(ask, 0, RunDir(cfg, ask, rel, [], dir, []), DocumentedWalk(cfg, ask, rel, dir))
    ensures var run := RunDir(cfg, ask, rel, [], dir, []);
            run.log != DocumentedWalk(cfg, ask, rel, dir).log ==> AnswerFor(run.out) == Nil
  {
    WalkIsReplay(cfg, ask, rel, dir);
    DeniedSkipEndsTheReplay(ask, Full(cfg, rel, [], dir), []);
  }

  /** A callback that never answers a read error with `SkipDir` gets the documented walk. */
  lemma WithoutDeniedSkips(cfg: Config, ask: Oracle, rel: string, dir: Node)
    requires DistinctTree(dir) && forall l, e: Event :: e.Denied? ==> !ask(l, e).SkipDir?
    ensures RunDir(cfg, ask, rel, [], dir, []) == DocumentedWalk(cfg, ask, rel, dir)
  {
    WalkIsReplay(cfg, ask, rel, dir);
    WithoutDeniedSkipsReplay(ask, Full(cfg, rel, [], dir), []);
  }

  /** A callback that skips what it cannot read. */
  function SkipUnreadable(log: seq<Event>, e: Event): Verdict {
    if e.Denied? then SkipDir else Continue
  }

  /** The root of a volume that holds an unreadable directory and a file. */
  function LockedAndFile(locked: Info, fault: int, file: Info): Node {
    Node(Info("", true, 0, 0), None, [Node(locked, Some(fault), []), Node(file, None, [])])
  }

  /** The unreadable directory is visited, entered, and ends the walk. */
  lemma LockedReturns(cfg: Config, dir: Node, locked: Node, log: seq<Event>)
    requires cfg.rules == [] && locked in dir.kids && Descends(locked.info) && locked.fault.Some?
    ensures var name := locked.info.name;
            RunKid(cfg, SkipUnreadable, "", [], dir, locked, log)
            == Return(Ran(log + [Visit([name], Entry(name, locked.info, None))] + [Enter([name], name)]
                              + [Denied([name], name, locked.fault.value)], Skipped))
  {
    var name := locked.info.name;
    assert [] + [name] == [name];
    var log1 := log + [Visit([name], Entry(name, locked.info, None))];
    assert RunDir(cfg, SkipUnreadable, name, [name], locked, log1)
        == Ran(log1 + [Enter([name], name)] + [Denied([name], name, locked.fault.value)], Skipped);
  }

  /** What a walk makes of the two entries: the one that comes second is not shown. */
  lemma LockedKids(cfg: Config, dir: Node, locked: Node, file: Node, log: seq<Event>)
    requires cfg.rules == [] && locked in dir.kids && file in dir.kids
    requires Descends(locked.info) && locked.fault.Some? && !file.info.isDir && locked.info.name != file.info.name
    requires forall e :: e in log ==> e.Enter?
    ensures var visit := Visit([file.info.name], Entry(file.info.name, file.info, None));
            var a := RunKids(cfg, SkipUnreadable, "", [], dir, [file, locked], log);
            var b := RunKids(cfg, SkipUnreadable, "", [], dir, [locked, file], log);
            a.out == Skipped == b.out && visit in a.log && visit !in b.log
  {
    var visit := Visit([file.info.name], Entry(file.info.name, file.info, None));
    LockedReturns(cfg, dir, locked, log);
    LockedReturns(cfg, dir, locked, log + [visit]);
    assert [] + [file.info.name] == [file.info.name];
    assert RunKid(cfg, SkipUnreadable, "", [], dir, file, log) == Next(log + [visit]);
    assert [file, locked][1..] == [locked];
    assert RunKids(cfg, SkipUnreadable, "", [], dir, [file, locked], log)
        == RunKids(cfg, SkipUnreadable, "", [], dir, [locked], log + [visit]);
  }

  /**
    A volume with an unreadable directory and a file: skipping what cannot be read, the walk ends with
    nil, and shows the file exactly if its name comes first.  The documented walk always shows it.
   */
  lemma DeniedSkipLosesASibling(up: Fold, locked: Info, fault: int, file: Info)
    requires Descends(locked) && !file.isDir && locked.name != file.name
    ensures var cfg, dir := Config(up, "", [], false), LockedAndFile(locked, fault, file);
            var run := RunDir(cfg, SkipUnreadable, "", [], dir, []);
            var visit := Visit([file.name], Entry(file.name, file, None));
            && AnswerFor(run.out) == Nil
            && (visit in run.log <==> Before(up, file.name, locked.name))
            && visit in DocumentedWalk(cfg, SkipUnreadable, "", dir).log
  {
    var cfg, dir := Config(up, "", [], false), LockedAndFile(locked, fault, file);
    BeforeIsStrictTotalOrder(up, locked.name, file.name, locked.name);
    LockedRun(cfg, dir, dir.kids[0], dir.kids[1]);
    DocumentedShowsAll(Full(cfg, "", [], dir), []);
    assert [] + Full(cfg, "", [], dir) == Full(cfg, "", [], dir);
    FileIsListed(cfg, dir, dir.kids[0], dir.kids[1]);
  }

  lemma LockedRun(cfg: Config, dir: Node, locked: Node, file: Node)
    requires cfg.rules == [] && dir.fault.None? && dir.kids == [locked, file]
    requires Descends(locked.info) && locked.fault.Some? && !file.info.isDir && locked.info.name != file.info.name
    ensures var run := RunDir(cfg, SkipUnreadable, "", [], dir, []);
            && run.out == Skipped
            && (Visit([file.info.name], Entry(file.info.name, file.info, None)) in run.log <==>
                Before(cfg.up, file.info.name, locked.info.name))
  {
    SortedPair(cfg.up, locked, file);
    EntersRoot(cfg, dir);
    LockedKids(cfg, dir, locked, file, [Enter([], "")]);
  }

  lemma EntersRoot(cfg: Config, dir: Node)
    requires dir.fault.None?
    ensures RunDir(cfg, SkipUnreadable, "", [], dir, [])
         == RunKids(cfg, SkipUnreadable, "", [], dir, Sorted(cfg.up, dir.kids), [Enter([], "")])
  {
    var enter: Event := Enter([], "");
    assert [] + [enter] == [enter];
  }

  lemma SortedPair(up: Fold, a: Node, b: Node)
    requires a.info.name != b.info.name
    ensures Sorted(up, [a, b]) == if Before(up, b.info.name, a.info.name) then [b, a] else [a, b]
  {
    assert [a, b][..1] == [a] && [a][..0] == [];
    assert Sorted(up, [a]) == Insert(up, a, []) == [a];
    assert [a] + [b] == [a, b];
  }

  lemma FileIsListed(cfg: Config, dir: Node, locked: Node, file: Node)
    requires cfg.rules == [] && dir.fault.None? && dir.kids == [locked, file] && !file.info.isDir
    requires locked.info.name != file.info.name
    ensures Visit([file.info.name], Entry(file.info.name, file.info, None)) in Full(cfg, "", [], dir)
  {
    var ks := Sorted(cfg.up, dir.kids);
    var visit := Visit([file.info.name], Entry(file.info.name, file.info, None));
    SortedPair(cfg.up, locked, file);
    assert [] + [file.info.name] == [file.info.name];
    assert visit in FullKid(cfg, "", [], dir, file);
    if ks == [file, locked] {
      assert visit in FullKids(cfg, "", [], dir, ks);
    } else {
      assert ks[1..] == [file];
      assert visit in FullKids(cfg, "", [], dir, [file]);
    }
  }

  lemma {:induction false} DocumentedShowsAll(todo: seq<Event>, log: seq<Event>)
    requires forall j :: 0 <= j < |log| ==> !SkippedAt(SkipUnreadable, log, j)
    ensures DocumentedReplay(SkipUnreadable, todo, log).log == log + todo
    decreases |todo|
  {
    if todo == [] {
      assert log + todo == log;
    } else {
      var log1 := log + [todo[0]];
      forall j | 0 <= j < |log1| ensures !SkippedAt(SkipUnreadable, log1, j) {
        assert log1[..|log|] == log;
        if j < |log| { SkipsPersist(SkipUnreadable, log, log1, j); }
      }
      DocumentedShowsAll(todo[1..], log1);
      assert log1 + todo[1..] == log + todo;
    }
  }
}
