/**
  The manifest walk (walk_windows.go).

  The snapshot is a tree of directory entries.  The callback and the context are one oracle that may
  look at everything the walk did so far: any stateful callback and any moment of cancellation is such
  a function of the history.
 */
module Walk {
  import opened WinText
  import opened Options
  import opened Exclude
  import RelativePath

  datatype Info = Info(name: string, isDir: bool, attributes: bv32, size: int)

  /** A directory entry; `kids` is what enumerating it yields, in raw order, unless it has a fault. */
  datatype Node = Node(info: Info, fault: Option<int>, kids: seq<Node>)

  datatype Entry = Entry(path: string, info: Info, excludedBy: Option<nat>)

  /**
    What the walk does, in order: it enters a directory (and polls the context), reports that it cannot
    read it, or visits an entry.  `at` is the list of names leading there from the start.
   */
  datatype Event =
    | Enter(at: seq<string>, rel: string)
    | Denied(at: seq<string>, rel: string, fault: int)
    | Visit(at: seq<string>, entry: Entry)

  datatype Verdict = Continue | SkipDir | Abort(err: int)
  type Oracle = (seq<Event>, Event) -> Verdict

  datatype Outcome = Done | Skipped | Failed(err: int)
  datatype Ran = Ran(log: seq<Event>, out: Outcome)

  datatype Config = Config(up: Fold, volRoot: string, rules: seq<ExcludeRule>, includeExcluded: bool)

  predicate IsReparsePoint(info: Info) {
    info.attributes & 0x400 != 0
  }

  predicate Descends(info: Info) {
    info.isDir && !IsReparsePoint(info)
  }

  function ChildPath(rel: string, name: string): string {
    if rel != "" then rel + "\\" + name else name
  }

  /** The rule applied to an entry: a pruning rule for a directory to descend, else a matching rule. */
  function Hit(cfg: Config, path: string, info: Info): Option<nat> {
    if cfg.volRoot == "" || cfg.rules == [] then None
    else if Descends(info) then FirstPruning(cfg.up, cfg.rules, cfg.volRoot + path)
    else FirstMatch(cfg.up, cfg.rules, cfg.volRoot + path)
  }

  // ---- Sibling order.

  /** The comparator: upper-cased names first, raw names to break ties. */
  predicate Before(up: Fold, a: string, b: string) {
    if Upper(up, a) == Upper(up, b) then Less(a, b) else Less(Upper(up, a), Upper(up, b))
  }

  lemma BeforeIsStrictTotalOrder(up: Fold, a: string, b: string, c: string)
    ensures !Before(up, a, a)
    ensures a == b || Before(up, a, b) || Before(up, b, a)
    ensures Before(up, a, b) && Before(up, b, c) ==> Before(up, a, c)
  {
    var upA, upB, upC := Upper(up, a), Upper(up, b), Upper(up, c);
    LessIrreflexive(a);
    LessTotal(a, b);
    LessTotal(upA, upB);
    if Before(up, a, b) && Before(up, b, c) {
      if upA == upB && upB == upC { LessTransitive(a, b, c); }
      if upA != upB && upB != upC {
        LessTransitive(upA, upB, upC);
        LessIrreflexive(upA);
        if upA == upC {
          LessTransitive(upA, upB, upA);
        }
      }
    }
  }

  /** `a` comes before `b` as words do: at the first rune in which they differ, or by ending there. */
  ghost predicate Alphabetical(a: string, b: string) {
    exists k :: 0 <= k <= |a| && k < |b| && a[..k] == b[..k] && (k == |a| || a[k] < b[k])
  }

  lemma {:induction false} LessIsAlphabetical(a: string, b: string)
    ensures Less(a, b) <==> Alphabetical(a, b)
  {
    assert a[..0] == b[..0];
    if a != "" && b != "" {
      forall k | 0 < k <= |a| && k < |b| && a[..k] == b[..k] ensures a[0] == b[0] {
        assert a[..k][0] == a[0] && b[..k][0] == b[0];
      }
      if a[0] == b[0] {
        LessIsAlphabetical(a[1..], b[1..]);
        SameHeadAlphabetical(a, b);
      }
    }
  }

  lemma SameHeadAlphabetical(a: string, b: string)
    requires a != "" && b != "" && a[0] == b[0]
    ensures Alphabetical(a, b) <==> Alphabetical(a[1..], b[1..])
  {
    var c, d := a[1..], b[1..];
    if Alphabetical(c, d) {
      var k :| 0 <= k <= |c| && k < |d| && c[..k] == d[..k] && (k == |c| || c[k] < d[k]);
      assert a[..k + 1] == [a[0]] + c[..k] && b[..k + 1] == [b[0]] + d[..k];
    }
    if Alphabetical(a, b) {
      var k :| 0 <= k <= |a| && k < |b| && a[..k] == b[..k] && (k == |a| || a[k] < b[k]);
      assert k > 0;
      assert a[1..k] == b[1..k] by { assert a[..k][1..] == a[1..k] && b[..k][1..] == b[1..k]; }
      assert c[..k - 1] == a[1..k] && d[..k - 1] == b[1..k];
    }
  }

  /** Siblings are in alphabetical order whatever their case; it only tells apart names that differ in nothing else. */
  lemma OrderIgnoresCase(up: Fold, a: string, b: string)
    ensures Upper(up, a) != Upper(up, b) ==> (Before(up, a, b) <==> Alphabetical(Upper(up, a), Upper(up, b)))
    ensures Upper(up, a) == Upper(up, b) ==> (Before(up, a, b) <==> Alphabetical(a, b))
  {
    LessIsAlphabetical(a, b);
    LessIsAlphabetical(Upper(up, a), Upper(up, b));
  }

  ghost predicate InOrder(up: Fold, ks: seq<Node>) {
    forall i, j :: 0 <= i < j < |ks| ==> !Before(up, ks[j].info.name, ks[i].info.name)
  }

  function Insert(up: Fold, k: Node, ks: seq<Node>): (r: seq<Node>)
    ensures multiset(r) == multiset(ks) + multiset{k}
  {
    if ks == [] || Before(up, k.info.name, ks[0].info.name) then [k] + ks
    else
      assert ks == [ks[0]] + ks[1..];
      [ks[0]] + Insert(up, k, ks[1..])
  }

  /** The siblings in order: what any correct sort leaves when names are distinct (`SortIsUnique`). */
  function Sorted(up: Fold, ks: seq<Node>): (r: seq<Node>)
    ensures multiset(r) == multiset(ks)
    ensures forall k :: k in r <==> k in ks
  {
    if ks == [] then []
    else
      assert ks == ks[..|ks| - 1] + [ks[|ks| - 1]];
      var r := Insert(up, ks[|ks| - 1], Sorted(up, ks[..|ks| - 1]));
      assert forall k :: k in r <==> k in multiset(r);
      assert forall k :: k in ks <==> k in multiset(ks);
      r
  }

  method ReadDir(up: Fold, raw: seq<Node>) returns (out: seq<Node>)
    ensures out == Sorted(up, raw)
  {
    out := [];
    for i := 0 to |raw|
      invariant out == Sorted(up, raw[..i])
    {
      assert raw[..i + 1][..i] == raw[..i];
      out := Insert(up, raw[i], out);
    }
    assert raw[..|raw|] == raw;
  }

  // ---- The walk as a function of the history so far.

  function OutcomeOf(v: Verdict): Outcome {
    match v
    case Continue => Done
    case SkipDir => Skipped
    case Abort(err) => Failed(err)
  }

  /** What one sibling contributes: go on with the next one, or return from the directory. */
  datatype Step = Next(log: seq<Event>) | Return(ran: Ran)

  function RunDir(cfg: Config, ask: Oracle, rel: string, at: seq<string>, dir: Node, log: seq<Event>): Ran
    decreases dir, 2, 0
  {
    var enter := Enter(at, rel);
    var v := ask(log, enter);
    if v.Abort? then Ran(log + [enter], Failed(v.err))
    else if dir.fault.Some? then
      var denied := Denied(at, rel, dir.fault.value);
      Ran(log + [enter] + [denied], OutcomeOf(ask(log + [enter], denied)))
    else RunKids(cfg, ask, rel, at, dir, Sorted(cfg.up, dir.kids), log + [enter])
  }

  function RunKids(cfg: Config, ask: Oracle, rel: string, at: seq<string>, dir: Node, ks: seq<Node>,
                   log: seq<Event>): Ran
    requires forall k :: k in ks ==> k in dir.kids
    decreases dir, 1, |ks|
  {
    if ks == [] then Ran(log, Done)
    else
      match RunKid(cfg, ask, rel, at, dir, ks[0], log)
      case Next(log') => RunKids(cfg, ask, rel, at, dir, ks[1..], log')
      case Return(ran) => ran
  }

  function RunKid(cfg: Config, ask: Oracle, rel: string, at: seq<string>, dir: Node, k: Node, log: seq<Event>): Step
    requires k in dir.kids
    decreases dir, 0, 0
  {
    var path := ChildPath(rel, k.info.name);
    var hit := Hit(cfg, path, k.info);
    if hit.Some? && !cfg.includeExcluded then Next(log)
    else
      var visit := Visit(at + [k.info.name], Entry(path, k.info, hit));
      match ask(log, visit)
      case Abort(err) => Return(Ran(log + [visit], Failed(err)))
      case SkipDir => if k.info.isDir then Next(log + [visit]) else Return(Ran(log + [visit], Done))
      case Continue =>
        if Descends(k.info) && hit.None? then
          var sub := RunDir(cfg, ask, path, at + [k.info.name], k, log + [visit]);
          if sub.out == Done then Next(sub.log) else Return(sub)
        else Next(log + [visit])
  }

  class Walker {
    const cfg: Config
    const ask: Oracle
    var log: seq<Event>

    constructor (cfg: Config, ask: Oracle)
      ensures this.cfg == cfg && this.ask == ask && log == []
    {
      this.cfg := cfg;
      this.ask := ask;
      this.log := [];
    }

    method Call(event: Event) returns (v: Verdict)
      modifies this`log
      ensures v == ask(old(log), event) && log == old(log) + [event]
    {
      v := ask(log, event);
      log := log + [event];
    }

    method RuleFor(path: string, info: Info) returns (hit: Option<nat>)
      ensures hit == Hit(cfg, path, info)
    {
      hit := None;
      if cfg.volRoot != "" && |cfg.rules| > 0 {
        if Descends(info) {
          hit := SubtreeExcluded(cfg.up, cfg.rules, cfg.volRoot + path);
        } else {
          hit := MatchExclude(cfg.up, cfg.rules, cfg.volRoot + path);
        }
      }
    }

    method WalkDir(rel: string, at: seq<string>, dir: Node) returns (out: Outcome)
      modifies this`log
      ensures Ran(log, out) == RunDir(cfg, ask, rel, at, dir, old(log))
      decreases dir, 1
    {
      var v := Call(Enter(at, rel));
      if v.Abort? {
        return Failed(v.err);
      }
      if dir.fault.Some? {
        v := Call(Denied(at, rel, dir.fault.value));
        return OutcomeOf(v);
      }
      var entries := ReadDir(cfg.up, dir.kids);
      ghost var goal := RunDir(cfg, ask, rel, at, dir, old(log));
      assert entries[0..] == entries;
      for i := 0 to |entries|
        invariant goal == RunKids(cfg, ask, rel, at, dir, entries[i..], log)
      {
        assert entries[i..][0] == entries[i] && entries[i..][1..] == entries[i + 1..];
        var stop := WalkEntry(rel, at, dir, entries[i]);
        if stop.Some? {
          return stop.value;
        }
      }
      return Done;
    }

    /** The body of `walkDir`'s loop. */
    method WalkEntry(rel: string, at: seq<string>, dir: Node, k: Node) returns (stop: Option<Outcome>)
      requires k in dir.kids
      modifies this`log
      ensures RunKid(cfg, ask, rel, at, dir, k, old(log)) ==
              if stop.None? then Next(log) else Return(Ran(log, stop.value))
      decreases dir, 0
    {
      var e := Entry(ChildPath(rel, k.info.name), k.info, None);
      var descend := Descends(k.info);
      var hit := RuleFor(e.path, k.info);
      if hit.Some? {
        if !cfg.includeExcluded {
          return None;
        }
        e := e.(excludedBy := hit);
        descend := false;
      }
      var v := Call(Visit(at + [k.info.name], e));
      if v.SkipDir? {
        return if e.info.isDir then None else Some(Done);
      } else if v.Abort? {
        return Some(Failed(v.err));
      }
      if descend && e.excludedBy.None? {
        var out := WalkDir(e.path, at + [k.info.name], k);
        if out != Done {
          return Some(out);
        }
      }
      return None;
    }
  }

  /** What `Walk` was asked for, and what it can end with. */
  datatype Request = Request(device: string, volumePath: string, root: string, rulesRoot: string,
                             rules: seq<ExcludeRule>, includeExcluded: bool)
  datatype Answer = NoDevice | BadRoot(fault: RelativePath.Fault) | Nil | Err(err: int)

  /** Only an abort is an error: a `SkipDir` that comes all the way up ends the walk with nil. */
  function AnswerFor(out: Outcome): Answer {
    match out
    case Done => Nil
    case Skipped => Nil
    case Failed(err) => Err(err)
  }

  function VolumeRoot(req: Request): (r: string)
    ensures req.rulesRoot != "" ==> req.rulesRoot <= r
    ensures req.rulesRoot == "" ==> req.volumePath <= r
    ensures |r| <= |if req.rulesRoot != "" then req.rulesRoot else req.volumePath| + 1
    ensures r == "" <==> req.rulesRoot == "" && req.volumePath == ""
    ensures r != "" ==> EndsInSeparator(r)
  {
    var r := if req.rulesRoot == "" then req.volumePath else req.rulesRoot;
    if r != "" && !EndsInSeparator(r) then r + "\\" else r
  }

  /**
    `Walk`.  `open` is the directory that enumerating a validated relative path reaches.  A `SkipDir`
    that comes all the way up ends the walk without an error.
   */
  method WalkSnapshot(up: Fold, req: Request, open: string -> Node, ask: Oracle) returns (ans: Answer, log: seq<Event>)
    ensures req.device == "" <==> ans == NoDevice
    ensures ans.NoDevice? || ans.BadRoot? ==> log == []
    ensures req.device != "" ==>
              (ans.BadRoot? <==> !(req.root == "" || req.root == "." || RelativePath.Proper(req.root)))
    ensures ans.Nil? || ans.Err? ==>
              var rel := if req.root == "." then "" else Backslashed(req.root);
              var cfg := Config(up, VolumeRoot(req), req.rules, req.includeExcluded);
              var ran := RunDir(cfg, ask, rel, [], open(rel), []);
              && log == ran.log
              && ans == if ran.out.Failed? then Err(ran.out.err) else Nil
  {
    if req.device == "" {
      return NoDevice, [];
    }
    var checked := RelativePath.Validate(req.root);
    if checked.Rejected? {
      return BadRoot(checked.fault), [];
    }
    var w := new Walker(Config(up, VolumeRoot(req), req.rules, req.includeExcluded), ask);
    var out := w.WalkDir(checked.path, [], open(checked.path));
    return AnswerFor(out), w.log;
  }
}
