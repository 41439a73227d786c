/** Enumerating the routes of a tree (iterate in gin.go), as a value. */
module RouteTable {
  import opened Bytes
  import opened RouteTree
  import opened RouteInsert
  import opened RouteMatch
  import opened RouteLookup

  /** handler is the last of the chain, the one the listing names. */
  datatype RouteInfo = RouteInfo(verb: bytes, path: bytes, handler: nat)

  function IterateTree(path: bytes, verb: bytes, t: Tree): seq<RouteInfo>
    decreases t, 0
  {
    var here := path + t.path;
    (if |t.handlers| > 0 then [RouteInfo(verb, here, t.handlers[|t.handlers|-1])] else [])
    + IterateAll(here, verb, t.children)
  }

  function IterateAll(path: bytes, verb: bytes, cs: seq<Tree>): seq<RouteInfo>
    decreases cs, 1
  {
    if cs == [] then [] else IterateAll(path, verb, cs[..|cs|-1]) + IterateTree(path, verb, cs[|cs|-1])
  }

  ghost predicate OnePerPath(rs: seq<RouteInfo>) { forall i, j :: 0 <= i < j < |rs| ==> rs[i].path != rs[j].path }

  /** `r` lists the route `r.path` of `t`, whose routes are all below `path`. */
  ghost predicate Lists(path: bytes, verb: bytes, t: Tree, r: RouteInfo) {
    && r.verb == verb && path <= r.path
    && var h := Get(t, r.path[|path|..]);
       h != [] && r.handler == h[|h|-1]
  }

  /** A route listed by a child goes on with the child's first byte. */
  lemma ListedHead(path: bytes, verb: bytes, t: Tree, pre: bytes, r: RouteInfo)
    requires Formed(t, pre) && Lists(path, verb, t, r)
    ensures |r.path| > |path| && r.path[|path|] == Head(t)
  {
    GetHead(t, pre, r.path[|path|..]);
  }

  /** `r` is listed by one of the first `n` children of `t`. */
  ghost predicate ListsBelow(path: bytes, verb: bytes, t: Tree, n: nat, r: RouteInfo)
    requires n <= |t.children|
  {
    exists k :: 0 <= k < n && Lists(path + t.path, verb, t.children[k], r)
  }

  /** The listing has exactly the registered routes, each once. */
  lemma {:induction false} IterateLists(path: bytes, verb: bytes, t: Tree, pre: bytes)
    requires Formed(t, pre) || EmptyRoot(t)
    ensures var rs := IterateTree(path, verb, t);
      && (forall r :: r in rs <==> Lists(path, verb, t, r)) && OnePerPath(rs)
    decreases t, |t.children| + 1
  {
    var rs := IterateTree(path, verb, t);
    IterateChildren(path, verb, t, pre, |t.children|);
    assert t.children[..|t.children|] == t.children;
    var below := IterateAll(path + t.path, verb, t.children);
    hide Lists;
    forall r ensures r in rs <==> Lists(path, verb, t, r) { ListsOwnOrBelow(path, verb, t, pre, r); }
    forall r | r in below ensures |r.path| > |path + t.path| { BelowLonger(path, verb, t, pre, |t.children|, r); }
    assert forall i :: 0 <= i < |below| ==> below[i] in below;
  }

  lemma BelowLonger(path: bytes, verb: bytes, t: Tree, pre: bytes, n: nat, r: RouteInfo)
    requires (Formed(t, pre) || EmptyRoot(t)) && n <= |t.children| && ListsBelow(path, verb, t, n, r)
    ensures |r.path| > |path + t.path|
  {
    var k :| 0 <= k < n && Lists(path + t.path, verb, t.children[k], r);
    assert WF(t.children[k], pre + t.path);
    ListedHead(path + t.path, verb, t.children[k], pre + t.path, r);
  }

  lemma ListsOwnOrBelow(path: bytes, verb: bytes, t: Tree, pre: bytes, r: RouteInfo)
    requires Formed(t, pre) || EmptyRoot(t)
    ensures Lists(path, verb, t, r) <==>
      || (t.handlers != [] && r == RouteInfo(verb, path + t.path, t.handlers[|t.handlers|-1]))
      || ListsBelow(path, verb, t, |t.children|, r)
  {
    if Lists(path, verb, t, r) {
      var q := r.path[|path|..];
      PrefixSplit(path, r.path);
      if q != t.path { ListedBelow(path, verb, t, r); }
    }
    if k :| 0 <= k < |t.children| && Lists(path + t.path, verb, t.children[k], r) {
      BelowListed(path, verb, t, pre, k, r);
    }
    if t.handlers != [] && r == RouteInfo(verb, path + t.path, t.handlers[|t.handlers|-1]) {
      assert r.path[|path|..] == t.path;
    }
  }

  lemma ListedBelow(path: bytes, verb: bytes, t: Tree, r: RouteInfo)
    requires Lists(path, verb, t, r) && r.path[|path|..] != t.path
    ensures ListsBelow(path, verb, t, |t.children|, r)
  {
    var q := r.path[|path|..];
    var u := q[|t.path|..];
    PrefixSplit(path, r.path); PrefixSplit(t.path, q);
    assert r.path == (path + t.path) + u && r.path[|path + t.path|..] == u;
    assert Lists(path + t.path, verb, t.children[ChildFor(t.children, u[0])], r);
  }

  lemma BelowListed(path: bytes, verb: bytes, t: Tree, pre: bytes, k: nat, r: RouteInfo)
    requires Formed(t, pre) && k < |t.children| && Lists(path + t.path, verb, t.children[k], r)
    ensures Lists(path, verb, t, r)
  {
    var u := r.path[|path + t.path|..];
    PrefixSplit(path + t.path, r.path);
    assert r.path == path + (t.path + u) && r.path[|path|..] == t.path + u;
    GetBelow(t, pre, k, u);
  }

  lemma {:induction false} IterateChildren(path: bytes, verb: bytes, t: Tree, pre: bytes, n: nat)
    requires (Formed(t, pre) || EmptyRoot(t)) && n <= |t.children|
    ensures var rs := IterateAll(path + t.path, verb, t.children[..n]);
      && (forall r :: r in rs <==> ListsBelow(path, verb, t, n, r)) && OnePerPath(rs)
    decreases t, n
  {
    if n > 0 {
      var here := path + t.path;
      var cs := t.children[..n];
      assert cs[..n-1] == t.children[..n-1] && cs[n-1] == t.children[n-1];
      var xs, ys := IterateAll(here, verb, t.children[..n-1]), IterateTree(here, verb, t.children[n-1]);
      assert IterateAll(here, verb, cs) == xs + ys;
      IterateChildren(path, verb, t, pre, n - 1);
      assert WF(t.children[n-1], pre + t.path);
      IterateLists(here, verb, t.children[n-1], pre + t.path);
      JoinListings(path, verb, t, pre, n - 1, xs, ys);
    }
  }

  lemma JoinListings(path: bytes, verb: bytes, t: Tree, pre: bytes, n: nat, xs: seq<RouteInfo>, ys: seq<RouteInfo>)
    requires Formed(t, pre) && n < |t.children| && OnePerPath(xs) && OnePerPath(ys)
    requires forall r :: r in xs <==> ListsBelow(path, verb, t, n, r)
    requires forall r :: r in ys <==> Lists(path + t.path, verb, t.children[n], r)
    ensures forall r :: r in xs + ys <==> ListsBelow(path, verb, t, n + 1, r)
    ensures OnePerPath(xs + ys)
  {
    hide Lists, Formed;
    forall i, j | 0 <= i < |xs| && 0 <= j < |ys| ensures xs[i].path != ys[j].path {
      assert xs[i] in xs && ys[j] in ys;
      OtherChildOtherPath(path, verb, t, pre, n, xs[i], ys[j]);
    }
  }

  lemma OtherChildOtherPath(path: bytes, verb: bytes, t: Tree, pre: bytes, n: nat, x: RouteInfo, y: RouteInfo)
    requires Formed(t, pre) && n < |t.children| && ListsBelow(path, verb, t, n, x)
    requires Lists(path + t.path, verb, t.children[n], y)
    ensures x.path != y.path
  {
    var k :| 0 <= k < n && Lists(path + t.path, verb, t.children[k], x);
    assert WF(t.children[k], pre + t.path) && WF(t.children[n], pre + t.path);
    ListedHead(path + t.path, verb, t.children[k], pre + t.path, x);
    ListedHead(path + t.path, verb, t.children[n], pre + t.path, y);
    ShapeDistinctHeads(t);
  }
}
