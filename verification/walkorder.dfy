/**
  The order of siblings, and why a walk does not depend on how directories were enumerated.
 */
module WalkOrder {
  import opened WinText
  import opened Walk

  /** No two siblings share a name: what a file system guarantees of one directory. */
  ghost predicate Distinct(ks: seq<Node>) {
    forall i, j :: 0 <= i < j < |ks| ==> ks[i].info.name != ks[j].info.name
  }

  ghost predicate DistinctTree(dir: Node) {
    Distinct(dir.kids) && forall k :: k in dir.kids ==> DistinctTree(k)
  }

  /** Each sibling strictly before every later one. */
  ghost predicate StrictlyOrdered(up: Fold, ks: seq<Node>) {
    forall i, j :: 0 <= i < j < |ks| ==> Before(up, ks[i].info.name, ks[j].info.name)
  }

  lemma {:induction false} InsertKeepsOrder(up: Fold, k: Node, ks: seq<Node>)
    requires StrictlyOrdered(up, ks)
    requires forall x :: x in ks ==> x.info.name != k.info.name
    ensures StrictlyOrdered(up, Insert(up, k, ks))
    ensures forall x :: x in Insert(up, k, ks) <==> x == k || x in ks
  {
    if ks == [] {
    } else if Before(up, k.info.name, ks[0].info.name) {
      forall j | 0 < j < |ks| ensures Before(up, k.info.name, ks[j].info.name) {
        BeforeIsStrictTotalOrder(up, k.info.name, ks[0].info.name, ks[j].info.name);
      }
    } else {
      var rest := ks[1..];
      assert forall i :: 0 <= i < |rest| ==> rest[i] == ks[i + 1];
      InsertKeepsOrder(up, k, rest);
      assert ks[0] in ks;
      BeforeIsStrictTotalOrder(up, ks[0].info.name, k.info.name, k.info.name);
      var r := Insert(up, k, rest);
      assert forall j :: 0 <= j < |r| ==> r[j] in r;
    }
  }

  lemma {:induction false} SortedIsOrdered(up: Fold, ks: seq<Node>)
    requires Distinct(ks)
    ensures StrictlyOrdered(up, Sorted(up, ks)) && Distinct(Sorted(up, ks))
  {
    if ks != [] {
      var n := |ks| - 1;
      SortedIsOrdered(up, ks[..n]);
      forall x | x in Sorted(up, ks[..n]) ensures x.info.name != ks[n].info.name {
        assert x in ks[..n];
      }
      InsertKeepsOrder(up, ks[n], Sorted(up, ks[..n]));
    }
    OrderedIsDistinct(up, Sorted(up, ks));
  }

  lemma OrderedIsDistinct(up: Fold, ks: seq<Node>)
    requires StrictlyOrdered(up, ks)
    ensures Distinct(ks)
  {
    forall i, j | 0 <= i < j < |ks| ensures ks[i].info.name != ks[j].info.name {
      var a := ks[i].info.name;
      BeforeIsStrictTotalOrder(up, a, a, a);
    }
  }

  function Names(ks: seq<Node>): (r: seq<string>)
    ensures |r| == |ks|
    ensures forall i :: 0 <= i < |ks| ==> r[i] == ks[i].info.name
  {
    seq(|ks|, i requires 0 <= i < |ks| => ks[i].info.name)
  }

  ghost predicate SameNames(a: seq<Node>, b: seq<Node>) {
    forall n :: n in Names(a) <==> n in Names(b)
  }

  ghost predicate Asymmetric<T(!new)>(lt: (T, T) -> bool) {
    forall x, y :: !(lt(x, y) && lt(y, x))
  }

  ghost predicate Chain<T>(lt: (T, T) -> bool, s: seq<T>) {
    forall i, j :: 0 <= i < j < |s| ==> lt(s[i], s[j])
  }

  /** Two chains of one asymmetric relation with the same members are the same chain. */
  lemma {:induction false} ChainsAgree<T(!new)>(lt: (T, T) -> bool, a: seq<T>, b: seq<T>)
    requires Asymmetric(lt) && Chain(lt, a) && Chain(lt, b)
    requires forall x :: x in a <==> x in b
    ensures a == b
  {
    assert |b| > 0 ==> b[0] in b;
    if a != [] {
      assert a[0] in a && a[0] in b;
      var i :| 0 <= i < |b| && b[i] == a[0];
      assert b[0] in b && b[0] in a;
      var j :| 0 <= j < |a| && a[j] == b[0];
      assert a[0] == b[0];
      ChainTail(lt, a);
      ChainTail(lt, b);
      ChainsAgree(lt, a[1..], b[1..]);
      assert a == [a[0]] + a[1..] && b == [b[0]] + b[1..];
    }
  }

  lemma ChainTail<T(!new)>(lt: (T, T) -> bool, a: seq<T>)
    requires Asymmetric(lt) && Chain(lt, a) && a != []
    ensures Chain(lt, a[1..]) && forall x :: x in a[1..] <==> x in a && x != a[0]
  {
    assert a == [a[0]] + a[1..];
    forall x | x in a[1..] ensures x != a[0] {
      var i :| 0 <= i < |a[1..]| && a[1..][i] == x;
      assert lt(a[0], a[i + 1]);
    }
  }

  /** Two strictly ordered listings of the same names agree position by position. */
  lemma OrderedListingsAgree(up: Fold, a: seq<Node>, b: seq<Node>)
    requires StrictlyOrdered(up, a) && StrictlyOrdered(up, b) && SameNames(a, b)
    ensures Names(a) == Names(b)
  {
    var lt := (x: string, y: string) => Before(up, x, y);
    forall x, y ensures !(lt(x, y) && lt(y, x)) {
      BeforeIsStrictTotalOrder(up, x, y, x);
    }
    ChainsAgree(lt, Names(a), Names(b));
  }

  lemma SameMembersSameNames(a: seq<Node>, b: seq<Node>)
    requires forall k :: k in a <==> k in b
    ensures SameNames(a, b)
  {
    forall n | n in Names(a) ensures n in Names(b) {
      var i :| 0 <= i < |a| && Names(a)[i] == n;
      assert a[i] in b;
      var j :| 0 <= j < |b| && b[j] == a[i];
      assert Names(b)[j] == n;
    }
    forall n | n in Names(b) ensures n in Names(a) {
      var i :| 0 <= i < |b| && Names(b)[i] == n;
      assert b[i] in a;
      var j :| 0 <= j < |a| && a[j] == b[i];
      assert Names(a)[j] == n;
    }
  }

  /** Listings with the same members and the same names position by position are the same. */
  lemma NamesFixListing(a: seq<Node>, b: seq<Node>)
    requires Names(a) == Names(b) && Distinct(b) && forall k :: k in a ==> k in b
    ensures a == b
  {
    assert |a| == |Names(a)| == |b|;
    forall i | 0 <= i < |b| ensures a[i] == b[i] {
      assert a[i] in b;
      var j :| 0 <= j < |b| && b[j] == a[i];
      assert Names(b)[i] == Names(a)[i] == Names(b)[j];
    }
  }

  /**
    Whatever algorithm sorts a directory, stable or not, it leaves this list: a rearrangement that no
    comparison contradicts is unique.
   */
  lemma SortIsUnique(up: Fold, raw: seq<Node>, sorted: seq<Node>)
    requires Distinct(raw) && Distinct(sorted)
    requires (forall k :: k in sorted <==> k in raw) && InOrder(up, sorted)
    ensures sorted == Sorted(up, raw)
  {
    SortedIsOrdered(up, raw);
    forall i, j | 0 <= i < j < |sorted|
      ensures Before(up, sorted[i].info.name, sorted[j].info.name)
    {
      BeforeIsStrictTotalOrder(up, sorted[i].info.name, sorted[j].info.name, sorted[i].info.name);
    }
    SameMembersSameNames(sorted, Sorted(up, raw));
    OrderedListingsAgree(up, sorted, Sorted(up, raw));
    NamesFixListing(sorted, Sorted(up, raw));
  }

  // ---- Determinism.

  /** The same tree, with every directory enumerated in possibly another order. */
  ghost predicate SameTree(a: Node, b: Node)
    decreases a
  {
    && a.info == b.info && a.fault == b.fault
    && Distinct(a.kids) && Distinct(b.kids) && SameNames(a.kids, b.kids)
    && forall x, y :: x in a.kids && y in b.kids && x.info.name == y.info.name ==> SameTree(x, y)
  }

  /**
    A walk is determined by the tree: under any callback, two enumerations of the same snapshot give
    the same calls in the same order and the same result.
   */
  lemma {:induction false} EnumerationOrderIsIrrelevant(cfg: Config, ask: Oracle, rel: string, at: seq<string>,
                                                        a: Node, b: Node, log: seq<Event>)
    requires SameTree(a, b)
    ensures RunDir(cfg, ask, rel, at, a, log) == RunDir(cfg, ask, rel, at, b, log)
    decreases a, 1, 0
  {
    var s, t := Sorted(cfg.up, a.kids), Sorted(cfg.up, b.kids);
    SortedIsOrdered(cfg.up, a.kids);
    SortedIsOrdered(cfg.up, b.kids);
    SameMembersSameNames(a.kids, s);
    SameMembersSameNames(b.kids, t);
    OrderedListingsAgree(cfg.up, s, t);
    assert |s| == |Names(s)| == |t|;
    forall i | 0 <= i < |s|
      ensures s[i] in a.kids && t[i] in b.kids && SameTree(s[i], t[i])
    {
      assert Names(s)[i] == Names(t)[i];
    }
    SameKids(cfg, ask, rel, at, a, b, s, t, log + [Enter(at, rel)]);
  }

  lemma {:induction false} SameKids(cfg: Config, ask: Oracle, rel: string, at: seq<string>, a: Node, b: Node,
                                    s: seq<Node>, t: seq<Node>, log: seq<Event>)
    requires |s| == |t|
    requires forall i :: 0 <= i < |s| ==> s[i] in a.kids && t[i] in b.kids && SameTree(s[i], t[i])
    ensures RunKids(cfg, ask, rel, at, a, s, log) == RunKids(cfg, ask, rel, at, b, t, log)
    decreases a, 0, |s|
  {
    if s != [] {
      var path := ChildPath(rel, s[0].info.name);
      var visit := Visit(at + [s[0].info.name], Entry(path, s[0].info, Hit(cfg, path, s[0].info)));
      EnumerationOrderIsIrrelevant(cfg, ask, path, at + [s[0].info.name], s[0], t[0], log + [visit]);
      var step := RunKid(cfg, ask, rel, at, a, s[0], log);
      assert step == RunKid(cfg, ask, rel, at, b, t[0], log);
      if step.Next? {
        SameKids(cfg, ask, rel, at, a, b, s[1..], t[1..], step.log);
      }
    }
  }
}
