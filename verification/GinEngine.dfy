/** The routing table of an engine (gin.go): one tree a method, and what a run of registrations binds. */
module GinEngine {
  import opened Bytes
  import opened RouteTree
  import opened RouteInsert
  import opened RouteMatch
  import opened RouteLookup
  import opened RouteClash
  import opened RoutePanics
  import opened RouteReach
  import opened RouteSearch
  import opened RouteSlash
  import opened RouteExact
  import opened RouteAnswers
  import opened RouteTable
  import opened Router
  import opened RouterLookup

  datatype MethodTree = MethodTree(verb: bytes, root: Node)

  const MAX_UINT16 := 65535

  function CountByte(s: bytes, c: byte): (n: nat)
    ensures n <= |s|
  {
    if s == [] then 0 else (if s[0] == c then 1 else 0) + CountByte(s[1..], c)
  }

  function safeUint16(n: nat): nat { if n > MAX_UINT16 then MAX_UINT16 else n }

  function countParams(path: bytes): nat { safeUint16(CountByte(path, COLON) + CountByte(path, STAR)) }

  function countSections(path: bytes): nat { safeUint16(CountByte(path, SLASH)) }

  /** A route pattern is matched with at most as many bindings as it has wildcard marks. */
  lemma {:induction false} MatchesCount(pat: bytes, ps: seq<Binding>, req: bytes)
    requires Matches(pat, ps, req)
    ensures |ps| <= CountByte(pat, COLON) + CountByte(pat, STAR)
    decreases |pat|
  {
    if pat == [] {
    } else if pat[0] == COLON {
      var k := 1 + SegEnd(pat[1..]);
      MatchesCount(pat[k..], ps[1..], req[|ps[0].value|..]);
      CountSplit(pat, k, COLON); CountSplit(pat, k, STAR);
    } else if |pat| >= 2 && pat[0] == SLASH && pat[1] == STAR {
    } else {
      MatchesCount(pat[1..], ps, req[1..]);
    }
  }

  lemma {:induction false} CountSplit(s: bytes, k: nat, c: byte)
    requires 0 < k <= |s|
    ensures CountByte(s, c) >= (if s[0] == c then 1 else 0) + CountByte(s[k..], c)
  {
    if k > 1 {
      assert s[k..] == s[1..][k-1..];
      CountSplit(s[1..], k - 1, c);
    }
  }

  type Registry = map<(bytes, bytes), Handlers>

  ghost predicate AtMostOne(ts: seq<MethodTree>) {
    forall i, j :: 0 <= i < j < |ts| ==> ts[i].verb != ts[j].verb && ts[i].root != ts[j].root
  }

  /** The tree of a method is at most one, a root, and in order. */
  ghost predicate TreesOK(ts: seq<MethodTree>, G: Tags) {
    && AtMostOne(ts)
    && forall i :: 0 <= i < |ts| ==> ts[i].root in G && G[ts[i].root].parent == null && RootOK(G[ts[i].root].tree)
  }

  /** The trees bind exactly what was registered. */
  ghost predicate Binds(ts: seq<MethodTree>, G: Tags, reg: Registry)
    requires TreesOK(ts, G)
  {
    && (forall k :: k in reg ==> reg[k] != [] && exists i :: 0 <= i < |ts| && ts[i].verb == k.0)
    && forall i, p :: 0 <= i < |ts| ==>
         Get(G[ts[i].root].tree, p) == if (ts[i].verb, p) in reg then reg[(ts[i].verb, p)] else []
  }

  /** `n` is the largest value of `f` on the registered paths, 0 if there are none. */
  ghost predicate IsMax(reg: Registry, f: bytes -> nat, n: nat) {
    && (forall k :: k in reg ==> f(k.1) <= n)
    && (n > 0 ==> exists k :: k in reg && f(k.1) == n)
  }

  const EMPTY_ROOT := Tree([], [], false, Static, 0, [], [], [SLASH])

  lemma EmptyBinds(t: Tree)
    requires EmptyRoot(t)
    ensures forall p :: Get(t, p) == []
  {
  }

  /** Appending an empty tree for a method that has none yet. */
  lemma NewTree(ts: seq<MethodTree>, G: Tags, reg: Registry, m: MethodTree)
    requires ValidBut(G, null) && TreesOK(ts, G) && Binds(ts, G, reg) && m.root !in G
    requires forall i :: 0 <= i < |ts| ==> ts[i].verb != m.verb
    requires m.root.Shows(EMPTY_ROOT, map[])
    ensures var H := G[m.root := Tag(EMPTY_ROOT, null)];
      ValidBut(H, null) && TreesOK(ts + [m], H) && Binds(ts + [m], H, reg)
  {
    var H := G[m.root := Tag(EMPTY_ROOT, null)];
    forall n | n in G
      ensures n.Shows(G[n].tree, H)
    {
      ExtendKids(n, n.children, G[n].tree.children, G, m.root, H[m.root]);
    }
    EmptyBinds(EMPTY_ROOT);
    assert TreesOK(ts + [m], H);
    forall k | k in reg ensures exists i :: 0 <= i < |ts + [m]| && (ts + [m])[i].verb == k.0 {
      var i :| 0 <= i < |ts| && ts[i].verb == k.0;
      assert (ts + [m])[i].verb == k.0;
    }
  }

  /** One tree gained a route; the others kept their tags. */
  lemma RouteBound(ts: seq<MethodTree>, G: Tags, H: Tags, reg: Registry, j: nat, path: bytes, h: Handlers)
    requires TreesOK(ts, G) && Binds(ts, G, reg) && j < |ts| && h != []
    requires path != [] && path[0] == SLASH && AddRoute(G[ts[j].root].tree, path, h).ok
    requires Keeps(G[ts[j].root := Tag(AddRoute(G[ts[j].root].tree, path, h).tree, null)], H, ts[j].root)
    ensures (ts[j].verb, path) !in reg && TreesOK(ts, H) && Binds(ts, H, reg[(ts[j].verb, path) := h])
  {
    var v, t := ts[j].verb, G[ts[j].root].tree;
    var u := AddRoute(t, path, h).tree;
    AddRouteAdds(t, path, h);
    forall i | 0 <= i < |ts| ensures H[ts[i].root] == Tag(if i == j then u else G[ts[i].root].tree, null) { }
    OneTreeAdds(ts, G, H, reg, j, u, path, h);
  }

  lemma OneTreeAdds(ts: seq<MethodTree>, G: Tags, H: Tags, reg: Registry, j: nat, u: Tree, path: bytes, h: Handlers)
    requires TreesOK(ts, G) && Binds(ts, G, reg) && j < |ts| && h != []
    requires forall i ::
      0 <= i < |ts| ==> ts[i].root in H && H[ts[i].root] == Tag(if i == j then u else G[ts[i].root].tree, null)
    requires RootOK(u) && Adds(G[ts[j].root].tree, u, path, h)
    ensures (ts[j].verb, path) !in reg && TreesOK(ts, H) && Binds(ts, H, reg[(ts[j].verb, path) := h])
  {
    hide RootOK, Get;
    var v, t := ts[j].verb, G[ts[j].root].tree;
    var reg' := reg[(v, path) := h];
    assert Get(t, path) == [];
    forall i, p | 0 <= i < |ts|
      ensures Get(H[ts[i].root].tree, p) == if (ts[i].verb, p) in reg' then reg'[(ts[i].verb, p)] else []
    {
      if i == j { assert Get(u, p) == if p == path then h else Get(t, p); }
    }
  }

  /** `path` clashes with no route of the method. */
  ghost predicate Clear(reg: Registry, verb: bytes, path: bytes) {
    forall k :: k in reg && k.0 == verb ==> !Clash(k.1, path)
  }

  /** The registered patterns are well formed, and no two of a method clash. */
  ghost predicate Apart(reg: Registry) {
    && (forall k :: k in reg ==> WellFormed(k.1))
    && forall j, k :: j in reg && k in reg && j != k && j.0 == k.0 ==> !Clash(j.1, k.1)
  }

  lemma ApartMore(reg: Registry, verb: bytes, path: bytes, h: Handlers)
    requires Apart(reg) && WellFormed(path) && Clear(reg, verb, path)
    ensures Apart(reg[(verb, path) := h])
  {
    hide Clash, WellFormed;
    forall k | k in reg && k.0 == verb ensures !Clash(path, k.1) { ClashSymmetric(path, k.1); }
  }

  /** A path is clear of a method's tree if and only if it is clear of what is registered for the method. */
  lemma ClearOfTree(ts: seq<MethodTree>, G: Tags, reg: Registry, i: nat, path: bytes)
    requires TreesOK(ts, G) && Binds(ts, G, reg) && i < |ts|
    ensures Clear(reg, ts[i].verb, path) <==> forall q :: Get(G[ts[i].root].tree, q) != [] ==> !Clash(q, path)
  {
    hide RootOK, Get, Clash;
    var v, t := ts[i].verb, G[ts[i].root].tree;
    assert forall q :: Get(t, q) != [] <==> (v, q) in reg;
  }

  /** `path` is registered for the method, or lies under a catch-all that is. */
  ghost predicate TakenBy(reg: Registry, verb: bytes, path: bytes) {
    (verb, path) in reg || exists p :: (verb, p) in reg && Over(p, path)
  }

  /** Without wildcards, a path is clear if and only if it is not taken. */
  lemma PlainClear(reg: Registry, verb: bytes, path: bytes)
    requires Apart(reg) && Plain(path)
    ensures Clear(reg, verb, path) <==> !TakenBy(reg, verb, path)
  {
    hide Clash, Over, WellFormed;
    forall k | k in reg && k.0 == verb
      ensures Clash(k.1, path) <==> k.1 == path || Over(k.1, path)
    {
      PlainClashes(k.1, path);
    }
  }

  /** No two routes of the method fork. */
  ghost predicate Unforked(reg: Registry, verb: bytes) {
    forall p, q :: (verb, p) in reg && (verb, q) in reg ==> !Forks(p, q)
  }

  /** Some route of the method matches the request, with a non-empty value for a final param. */
  ghost predicate Matched(reg: Registry, verb: bytes, req: bytes) {
    exists p, ps :: (verb, p) in reg && Matches(p, ps, req) && Filled(p, ps)
  }

  ghost function PathsOf(reg: Registry, verb: bytes): iset<bytes> { iset p | (verb, p) in reg }

  /** The request is not registered for the method, but is with a slash more or less. */
  ghost predicate NearMiss(reg: Registry, verb: bytes, req: bytes) {
    && (verb, req) !in reg
    && ((verb, req + [SLASH]) in reg
        || (req != [] && req[|req|-1] == SLASH && (verb, req[..|req|-1]) in reg))
  }

  ghost predicate OnlyPlain(reg: Registry, verb: bytes) { forall k :: k in reg && k.0 == verb ==> Plain(k.1) }

  lemma NearMissTree(ts: seq<MethodTree>, G: Tags, reg: Registry, i: nat, req: bytes)
    requires TreesOK(ts, G) && Binds(ts, G, reg) && i < |ts|
    ensures var t := G[ts[i].root].tree;
      && (OnlyPlain(reg, ts[i].verb) ==> PlainRoutes(t))
      && (NearMiss(reg, ts[i].verb, req) ==> SlashAway(t, req))
  {
    hide RootOK, Get;
    var v, t := ts[i].verb, G[ts[i].root].tree;
    assert forall q :: Get(t, q) != [] <==> (v, q) in reg;
  }

  lemma UnforkedTree(ts: seq<MethodTree>, G: Tags, reg: Registry, i: nat, req: bytes)
    requires TreesOK(ts, G) && Binds(ts, G, reg) && i < |ts|
    ensures var t := G[ts[i].root].tree;
      && (Unforked(reg, ts[i].verb) ==> Forkless(t))
      && (HasMatch(t, req) <==> Matched(reg, ts[i].verb, req))
      && RoutesOf(t) == PathsOf(reg, ts[i].verb)
  {
    hide RootOK, Get, Matches, Filled, Forks;
    var v, t := ts[i].verb, G[ts[i].root].tree;
    assert forall q :: Get(t, q) != [] <==> (v, q) in reg;
    RootFormed(t);
    if !EmptyRoot(t) { ForklessIs(t, []); }
  }

  lemma Unmatched(ts: seq<MethodTree>, G: Tags, reg: Registry, verb: bytes, req: bytes)
    requires TreesOK(ts, G) && Binds(ts, G, reg) && forall i :: 0 <= i < |ts| ==> ts[i].verb != verb
    ensures !Matched(reg, verb, req)
    ensures Exactly(PathsOf(reg, verb), req, Result([], [], false, [])) && !NearMiss(reg, verb, req)
  {
    hide Accepts, DeadEnds, Unslashed;
    assert PathsOf(reg, verb) == iset{};
  }

  lemma MaxGrows(reg: Registry, f: bytes -> nat, n: nat, k: (bytes, bytes), h: Handlers)
    requires IsMax(reg, f, n)
    ensures IsMax(reg[k := h], f, if f(k.1) > n then f(k.1) else n)
  {
    var reg' := reg[k := h];
    assert k in reg';
    if n > 0 {
      var w :| w in reg && f(w.1) == n;
      assert w in reg';
    }
  }

  lemma Shown(G: Tags, n: Node)
    requires n in G && ValidBut(G, null)
    ensures n.Shows(G[n].tree, G) && |n.children| == |G[n].tree.children|
  {
  }

  lemma ChildIn(G: Tags, n: Node, k: nat)
    requires n in G && n.Shows(G[n].tree, G) && k < |n.children| && k < |G[n].tree.children|
    ensures n.children[k] in G && G[n.children[k]].tree == G[n].tree.children[k]
    ensures NodeSize(G[n.children[k]].tree) < NodeSize(G[n].tree)
  {
  }

  lemma AllMore(path: bytes, verb: bytes, cs: seq<Tree>, i: nat)
    requires i < |cs|
    ensures IterateAll(path, verb, cs[..i+1]) == IterateAll(path, verb, cs[..i]) + IterateTree(path, verb, cs[i])
  {
    hide IterateTree;
    assert cs[..i+1][..i] == cs[..i];
  }

  /** iterate: appends the routes below `root` to those collected so far. */
  method iterate(path: bytes, verb: bytes, routes: seq<RouteInfo>, root: Node, ghost G: Tags)
    returns (r: seq<RouteInfo>)
    requires root in G && ValidBut(G, null)
    ensures r == routes + IterateTree(path, verb, G[root].tree)
    decreases NodeSize(G[root].tree)
  {
    hide NodeSize, Kids, ValidBut, IterateAll;
    ghost var t := G[root].tree;
    Shown(G, root);
    var here := path + root.path;
    r := routes;
    if |root.handlers| > 0 {
      r := r + [RouteInfo(verb, here, root.handlers[|root.handlers|-1])];
    }
    ghost var own := if |root.handlers| > 0 then [RouteInfo(verb, here, root.handlers[|root.handlers|-1])] else [];
    assert r == routes + own;
    var i := 0;
    NoneYet(here, verb, t.children);
    while i < |root.children|
      invariant i <= |root.children| && r == routes + own + IterateAll(here, verb, t.children[..i])
    {
      AllMore(here, verb, t.children, i);
      ChildIn(G, root, i);
      r := iterate(here, verb, r, root.children[i], G);
      i := i + 1;
    }
    assert t.children[..i] == t.children;
  }

  lemma NoneYet(path: bytes, verb: bytes, cs: seq<Tree>)
    ensures IterateAll(path, verb, cs[..0]) == []
  {
  }

  ghost predicate Listed(reg: Registry, r: RouteInfo) {
    (r.verb, r.path) in reg && var h := reg[(r.verb, r.path)]; h != [] && r.handler == h[|h|-1]
  }

  ghost predicate EachOnce(rs: seq<RouteInfo>) {
    forall i, j :: 0 <= i < j < |rs| ==> rs[i].verb != rs[j].verb || rs[i].path != rs[j].path
  }

  lemma ListedHasTree(ts: seq<MethodTree>, G: Tags, reg: Registry, r: RouteInfo)
    requires TreesOK(ts, G) && Binds(ts, G, reg) && Listed(reg, r)
    ensures exists i :: 0 <= i < |ts| && ts[i].verb == r.verb
  {
  }

  lemma RootFormed(t: Tree)
    requires RootOK(t)
    ensures Formed(t, []) || EmptyRoot(t)
  {
  }

  /** The listing of one tree, in terms of the registry. */
  lemma TreeListing(ts: seq<MethodTree>, G: Tags, reg: Registry, i: nat)
    requires TreesOK(ts, G) && Binds(ts, G, reg) && i < |ts|
    ensures var rs := IterateTree([], ts[i].verb, G[ts[i].root].tree);
      && (forall r :: r in rs <==> r.verb == ts[i].verb && Listed(reg, r))
      && EachOnce(rs)
  {
    hide Get, IterateTree, RootOK, Formed;
    var v, t := ts[i].verb, G[ts[i].root].tree;
    RootFormed(t);
    IterateLists([], v, t, []);
    forall r ensures Lists([], v, t, r) <==> r.verb == v && Listed(reg, r) {
      assert r.path[0..] == r.path;
      assert Get(t, r.path) == if (v, r.path) in reg then reg[(v, r.path)] else [];
    }
  }

  class Engine {
    var trees: seq<MethodTree>
    var maxParams: nat
    var maxSections: nat
    ghost var G: Tags
    ghost var Registered: Registry

    ghost predicate Valid()
      reads this, G.Keys
    {
      && ValidBut(G, null) && TreesOK(trees, G) && Binds(trees, G, Registered) && Apart(Registered)
      && IsMax(Registered, countParams, maxParams) && IsMax(Registered, countSections, maxSections)
    }

    constructor ()
      ensures Valid() && Registered == map[] && G == map[]
    {
      trees, maxParams, maxSections, G, Registered := [], 0, 0, map[], map[];
    }

    /** methodTrees.get: the position of the tree of `verb`, or their number. */
    method get(verb: bytes) returns (i: nat)
      ensures i <= |trees| && (i < |trees| ==> trees[i].verb == verb)
      ensures forall j :: 0 <= j < i ==> trees[j].verb != verb
    {
      i := 0;
      while i < |trees| && trees[i].verb != verb
        invariant i <= |trees| && forall j :: 0 <= j < i ==> trees[j].verb != verb
      {
        i := i + 1;
      }
    }

    /** What the tree of `verb` was before the call, new or not. */
    ghost function TreeOf(verb: bytes): Tree
      requires TreesOK(trees, G)
      reads this
    {
      if exists i :: 0 <= i < |trees| && trees[i].verb == verb then
        var i :| 0 <= i < |trees| && trees[i].verb == verb; G[trees[i].root].tree
      else EMPTY_ROOT
    }

    /** The tree of `verb`, made if there is none. */
    method treeFor(verb: bytes) returns (i: nat)
      requires Valid()
      modifies this
      ensures Valid() && i < |trees| && trees[i].verb == verb && G[trees[i].root].tree == old(TreeOf(verb))
      ensures Registered == old(Registered) && maxParams == old(maxParams) && maxSections == old(maxSections)
      ensures old(G.Keys) <= G.Keys && fresh(G.Keys - old(G.Keys))
    {
      hide ValidBut, IsMax, RootOK, Binds;
      i := get(verb);
      if i == |trees| {
        var root := new Node([], false, Static, 0, [], [SLASH]);
        NewTree(trees, G, Registered, MethodTree(verb, root));
        G := G[root := Tag(EMPTY_ROOT, null)];
        trees := trees + [MethodTree(verb, root)];
      }
    }

    /** Registers a route; false where the original panics. */
    method addRoute(verb: bytes, path: bytes, handlers: Handlers) returns (ok: bool)
      requires Valid() && NoEscape(path)
      modifies this, G.Keys
      ensures ok <==>
        && path != [] && path[0] == SLASH && verb != [] && |handlers| > 0
        && WellFormed(path) && Clear(old(Registered), verb, path)
      ensures Plain(path) ==>
        (ok <==>
          path != [] && path[0] == SLASH && verb != [] && |handlers| > 0 && !TakenBy(old(Registered), verb, path))
      ensures ok ==>
        Valid() && (verb, path) !in old(Registered) && Registered == old(Registered)[(verb, path) := handlers]
      ensures fresh(G.Keys - old(G.Keys))
    {
      hide ValidBut, IsMax, RootOK, Binds, Keeps, Apart, Clear, TakenBy, WellFormed;
      if path == [] || path[0] != SLASH || verb == [] || |handlers| == 0 { return false; }
      var i := treeFor(verb);
      var root := trees[i].root;
      ghost var H, reg := G, Registered;
      AddRouteOk(G[root].tree, path, handlers);
      ClearOfTree(trees, G, reg, i, path);
      if Plain(path) { PlainWellFormed(path); PlainClear(reg, verb, path); }
      ok, G := root.addRoute(path, handlers, H);
      if !ok { return; }
      RouteBound(trees, H, G, reg, i, path, handlers);
      ApartMore(reg, verb, path, handlers);
      Registered := Registered[(verb, path) := handlers];
      count(verb, path, handlers, reg);
    }

    /** Updates maxParams and maxSections for a new route. */
    method count(verb: bytes, path: bytes, ghost handlers: Handlers, ghost reg: Registry)
      requires IsMax(reg, countParams, maxParams) && IsMax(reg, countSections, maxSections)
      modifies this`maxParams, this`maxSections
      ensures var now := reg[(verb, path) := handlers];
        IsMax(now, countParams, maxParams) && IsMax(now, countSections, maxSections)
    {
      hide IsMax;
      MaxGrows(reg, countParams, maxParams, (verb, path), handlers);
      MaxGrows(reg, countSections, maxSections, (verb, path), handlers);
      if countParams(path) > maxParams { maxParams := countParams(path); }
      if countSections(path) > maxSections { maxSections := countSections(path); }
    }

    /** The listing names every registered route once, and nothing else. */
    method Routes() returns (routes: seq<RouteInfo>)
      requires Valid()
      ensures forall r :: r in routes <==> Listed(Registered, r)
      ensures EachOnce(routes)
    {
      hide ValidBut, IsMax, RootOK, Listed;
      routes := [];
      var i := 0;
      while i < |trees|
        invariant i <= |trees| && EachOnce(routes)
        invariant forall r ::
          r in routes <==> Listed(Registered, r) && exists j :: 0 <= j < i && trees[j].verb == r.verb
      {
        TreeListing(trees, G, Registered, i);
        routes := iterate([], trees[i].verb, routes, trees[i].root, G);
        i := i + 1;
      }
      forall r | Listed(Registered, r) ensures r in routes { ListedHasTree(trees, G, Registered, r); }
    }

    /** The part of handleHTTPRequest that finds the handlers of a request. */
    method find(verb: bytes, req: bytes) returns (r: Result)
      requires Valid()
      ensures r.handlers != [] ==>
        && (verb, r.fullPath) in Registered && Registered[(verb, r.fullPath)] == r.handlers
        && Matches(r.fullPath, r.params, req)
      ensures r.handlers != [] && CountByte(r.fullPath, COLON) + CountByte(r.fullPath, STAR) <= MAX_UINT16 ==>
        |r.params| <= maxParams
      ensures Plain(req) && (verb, req) in Registered ==>
        r.handlers == Registered[(verb, req)] && r.fullPath == req && r.params == []
      ensures OnlyPlain(Registered, verb) ==>
        (r.handlers != [] <==> (verb, req) in Registered) && (NearMiss(Registered, verb, req) ==> r.tsr)
      ensures Unforked(Registered, verb) ==> (r.handlers != [] <==> Matched(Registered, verb, req))
      ensures Exactly(PathsOf(Registered, verb), req, r)
    {
      hide Forkless, HasMatch, Unforked, Matched, Exactly, PathsOf, RoutesOf, Search, NearMiss, SlashAway,
        PlainRoutes;
      r := Result([], [], false, []);
      var i := get(verb);
      if i == |trees| {
        Unmatched(trees, G, Registered, verb, req);
      } else {
        UnforkedTree(trees, G, Registered, i, req);
        NearMissTree(trees, G, Registered, i, req);
        r := getValue(trees[i].root, req, G);
        if r.handlers != [] {
          MatchesCount(r.fullPath, r.params, req);
          assert countParams(r.fullPath) <= maxParams;
          if Plain(r.fullPath) { PlainMatches(r.fullPath, r.params, req); }
        }
      }
    }
  }
}
