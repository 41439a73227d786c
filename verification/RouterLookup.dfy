/** node.getValue (tree.go): the lookup loop with its stack of skipped wildcard branches. */
module RouterLookup {
  import opened Bytes
  import opened RouteTree
  import opened RouteInsert
  import opened RouteMatch
  import opened RouteReach
  import opened RouteSearch
  import opened RouteAnswers
  import opened Router

  /** A copy, without indices, of a node whose wildcard child was passed over. */
  datatype Skipped = Skipped(path: bytes, node: Node, paramsCount: nat)

  /** Where a lookup stands: the tree node, its pattern prefix and the bindings taken on the way. */
  datatype Spot = Spot(m: Node, pre: bytes, ps: seq<Binding>)

  /** `n` is the tree node `m`, or a copy of it without indices. */
  ghost predicate View(n: Node, m: Node, G: Tags)
    reads n
  {
    && m in G
    && var t := G[m].tree;
    && n.path == t.path && n.wildChild == t.wildChild && n.nType == t.nType && n.handlers == t.handlers
    && n.fullPath == t.fullPath && Kids(m, n.children, t.children, G)
    && (n.indices == t.indices || n.indices == [])
  }

  ghost predicate At(G: Tags, s: Spot, n: Node, path: bytes)
    reads n
  {
    View(n, s.m, G) && Stands(G[s.m].tree, s.pre, path)
  }

  ghost predicate EntryOK(G: Tags, k: Skipped, s: Spot)
    reads k.node
  {
    && At(G, s, k.node, k.path) && |s.ps| == k.paramsCount && k.node.indices == []
    && var t := G[s.m].tree;
    t.wildChild && t.indices != [] && t.path < k.path
  }

  /** The paths left at the skipped nodes end in what is left now, and each in those of the nodes above it. */
  ghost predicate StackOK(G: Tags, skipped: seq<Skipped>, spots: seq<Spot>, ps: seq<Binding>, path: bytes)
    reads set k | k in skipped :: k.node
  {
    && |skipped| == |spots|
    && (forall i :: 0 <= i < |skipped| ==>
          EntryOK(G, skipped[i], spots[i]) && spots[i].ps <= ps && HasSuffix(skipped[i].path, path))
    && (forall i, j :: 0 <= i < j < |spots| ==>
          spots[i].ps <= spots[j].ps && HasSuffix(skipped[i].path, skipped[j].path))
  }

  /** What is left to search below a node: everything, or for a copy the wildcard child only. */
  ghost function Below(t: Tree, copied: bool): nat {
    if copied && t.children != [] then NodeSize(t.children[|t.children|-1]) else NodeSize(t)
  }

  ghost function StackSize(G: Tags, spots: seq<Spot>): nat
    requires forall s :: s in spots ==> s.m in G
  {
    if spots == [] then 0 else StackSize(G, spots[..|spots|-1]) + Below(G[spots[|spots|-1].m].tree, true)
  }

  /** The wildcard child of `t`, with `path` left before the path of `t` is taken off. */
  function WildAt(t: Tree, path: bytes, ps: seq<Binding>): Lookup {
    Wild(t, if t.path <= path then path[|t.path|..] else [], ps)
  }

  /** What the lookup comes to: `l`, or what the skipped nodes make of it from the last on. */
  ghost function Settle(G: Tags, l: Lookup, skipped: seq<Skipped>, spots: seq<Spot>): Result
    requires |skipped| == |spots| && forall s :: s in spots ==> s.m in G
    decreases |skipped|
  {
    if l.Back? && skipped != [] then
      var i := |skipped| - 1;
      Settle(G, WildAt(G[spots[i].m].tree, skipped[i].path, spots[i].ps), skipped[..i], spots[..i])
    else l.r
  }

  /** Pops skipped nodes until one whose path ends in `path`. */
  method backtrack(skipped: seq<Skipped>, path: bytes) returns (found: bool, rest: seq<Skipped>)
    ensures rest <= skipped && (found ==> |rest| < |skipped| && HasSuffix(skipped[|rest|].path, path))
    ensures !found ==> rest == []
    ensures forall i :: |rest| + (if found then 1 else 0) <= i < |skipped| ==> !HasSuffix(skipped[i].path, path)
  {
    rest := skipped;
    while |rest| > 0
      invariant rest <= skipped
      invariant forall i :: |rest| <= i < |skipped| ==> !HasSuffix(skipped[i].path, path)
    {
      var top := rest[|rest|-1];
      rest := rest[..|rest|-1];
      if HasSuffix(top.path, path) { return true, rest; }
    }
    return false, rest;
  }

  /** Everything a turn of the loop changes. */
  datatype Turn = Turn(n: Node, path: bytes, count: nat, hasParams: bool, params: seq<Binding>, skipped: seq<Skipped>)

  /** `x` is a turn of the loop at `s`; a copy is one of a node that has a wildcard child. */
  ghost predicate Looking(G: Tags, x: Turn, s: Spot, spots: seq<Spot>)
    reads x.n, set k | k in x.skipped :: k.node
  {
    && At(G, s, x.n, x.path) && StackOK(G, x.skipped, spots, s.ps, x.path)
    && x.params == s.ps && x.count == |s.ps| && (!x.hasParams ==> s.ps == [])
    && (forall k :: k in spots ==> k.m in G)
    && var t := G[s.m].tree;
    x.n.indices != t.indices ==> t.wildChild && t.path < x.path
  }

  /** `answer` is what the lookup will come to, and `size` what is left to search. */
  ghost predicate GoingOn(G: Tags, x: Turn, s: Spot, spots: seq<Spot>, size: nat, answer: Result)
    reads x.n, set k | k in x.skipped :: k.node
  {
    && Looking(G, x, s, spots)
    && var t, copied := G[s.m].tree, x.n.indices != G[s.m].tree.indices;
    && size == StackSize(G, spots) + Below(t, copied)
    && answer ==
       Settle(G, if copied then WildAt(t, x.path, s.ps) else Search(t, x.path, s.ps), x.skipped, spots)
  }

  /** The lookup at this turn comes to `l`, if no skipped node is to be asked. */
  ghost predicate Comes(G: Tags, x: Turn, spots: seq<Spot>, l: Lookup, answer: Result) {
    |x.skipped| == |spots| && (forall k :: k in spots ==> k.m in G) && answer == Settle(G, l, x.skipped, spots)
  }

  // ---------------------------------------------------------------- back to a skipped node

  lemma SuffixTwice(a: bytes, b: bytes, c: bytes)
    requires HasSuffix(a, b) && HasSuffix(b, c)
    ensures HasSuffix(a, c)
  {
    assert a[|a| - |c|..] == a[|a| - |b|..][|b| - |c|..];
  }

  lemma StackPrefix(G: Tags, skipped: seq<Skipped>, spots: seq<Spot>, ps: seq<Binding>, path: bytes, k: nat)
    requires StackOK(G, skipped, spots, ps, path) && k < |skipped|
    ensures StackOK(G, skipped[..k], spots[..k], spots[k].ps, skipped[k].path)
    ensures EntryOK(G, skipped[k], spots[k])
    ensures skipped[k].paramsCount <= |ps| && spots[k].ps == ps[..skipped[k].paramsCount]
  {
    hide At, HasSuffix;
  }

  lemma BelowPositive(t: Tree, b: bool)
    ensures Below(t, b) >= 1
  {
  }

  /** `y` stands at the last node skipped by `x`, as the lookup did when it came there. */
  predicate TakesUp(x: Turn, y: Turn) {
    && x.skipped != []
    && var top := x.skipped[|x.skipped|-1];
    && y.skipped == x.skipped[..|x.skipped|-1] && y.n == top.node && y.path == top.path && y.count == top.paramsCount
    && y.hasParams == x.hasParams && y.count <= |x.params| && y.params == x.params[..y.count]
  }

  /** The last skipped node is stood at again, as if the lookup had just come to it. */
  lemma Resumed(G: Tags, x: Turn, s: Spot, spots: seq<Spot>, size: nat, b: Result, answer: Result, y: Turn)
    returns (s': Spot, spots': seq<Spot>, size': nat)
    requires GoingOn(G, x, s, spots, size, answer) && Comes(G, x, spots, Back(b), answer) && TakesUp(x, y)
    ensures GoingOn(G, y, s', spots', size', answer) && size' < size
  {
    hide Stands, Kids, Below, Wild, StackOK, HasSuffix, WildAt;
    var k := |x.skipped| - 1;
    assert |spots| == k + 1 by { StackMany(G, x.skipped, spots, s.ps, x.path); }
    StackPrefix(G, x.skipped, spots, s.ps, x.path, k);
    s', spots' := spots[k], spots[..k];
    size' := StackSize(G, spots') + Below(G[s'.m].tree, true);
    BelowPositive(G[s.m].tree, x.n.indices != G[s.m].tree.indices);
  }

  lemma StackMany(G: Tags, skipped: seq<Skipped>, spots: seq<Spot>, ps: seq<Binding>, path: bytes)
    requires StackOK(G, skipped, spots, ps, path)
    ensures |skipped| == |spots|
  {
  }

  lemma SuffixAll(G: Tags, x: Turn, s: Spot, spots: seq<Spot>, rest: bytes)
    requires Looking(G, x, s, spots) && HasSuffix(x.path, rest)
    ensures forall i :: 0 <= i < |x.skipped| ==> HasSuffix(x.skipped[i].path, rest)
  {
    forall i | 0 <= i < |x.skipped| ensures HasSuffix(x.skipped[i].path, rest) {
      SuffixTwice(x.skipped[i].path, x.path, rest);
    }
  }

  /** What is left ends the paths of all skipped nodes, and the bindings they had seen are there to be kept. */
  lemma AllSkipped(G: Tags, x: Turn, s: Spot, spots: seq<Spot>, size: nat, b: Result, answer: Result, rest: bytes)
    requires GoingOn(G, x, s, spots, size, answer) && HasSuffix(x.path, rest) && Comes(G, x, spots, Back(b), answer)
    ensures forall i ::
      0 <= i < |x.skipped| ==> HasSuffix(x.skipped[i].path, rest) && x.skipped[i].paramsCount <= |x.params|
    ensures x.skipped == [] ==> answer == b
    ensures !x.hasParams ==> x.params == []
  {
    hide At, HasSuffix, Below, StackSize, Search, WildAt;
    SuffixAll(G, x, s, spots, rest);
  }

  /** Back to the last skipped node whose path ends in what is left: the last one of all. */
  method resume(x: Turn, rest: bytes, ghost b: Result, ghost G: Tags, ghost s: Spot, ghost spots: seq<Spot>,
          ghost size: nat, ghost answer: Result)
    returns (found: bool, y: Turn, ghost s': Spot, ghost spots': seq<Spot>, ghost size': nat)
    requires GoingOn(G, x, s, spots, size, answer) && HasSuffix(x.path, rest) && Comes(G, x, spots, Back(b), answer)
    ensures found <==> x.skipped != []
    ensures found ==> GoingOn(G, y, s', spots', size', answer) && size' < size && TakesUp(x, y)
    ensures !found ==> y == x && s' == s && answer == b
  {
    hide GoingOn, Comes;
    AllSkipped(G, x, s, spots, size, b, answer, rest);
    assert x.skipped != [] ==> HasSuffix(x.skipped[|x.skipped|-1].path, rest);
    y, s', spots', size' := x, s, spots, size;
    var left;
    found, left := backtrack(x.skipped, rest);
    if found {
      assert |left| == |x.skipped| - 1 && left == x.skipped[..|left|];
      var top := x.skipped[|left|];
      var ps := if x.hasParams then x.params[..top.paramsCount] else x.params;
      y := Turn(top.node, top.path, top.paramsCount, x.hasParams, ps, left);
      s', spots', size' := Resumed(G, x, s, spots, size, b, answer, y);
    }
  }

  // ---------------------------------------------------------------- into a static child

  lemma ChildOf(G: Tags, n: Node, m: Node, k: nat)
    requires View(n, m, G) && ValidBut(G, null) && k < |n.children|
    ensures var c := n.children[k];
      && c in G && |n.children| == |G[m].tree.children| && G[c].tree == G[m].tree.children[k] && View(c, c, G)
      && c.indices == G[c].tree.indices
  {
    var c := n.children[k];
    assert c.Shows(G[c].tree, G);
  }

  lemma ForestTwo(cs: seq<Tree>, i: nat, j: nat)
    requires i < j < |cs|
    ensures NodeSize(cs[i]) + NodeSize(cs[j]) <= ForestSize(cs)
  {
    var front := cs[..|cs|-1];
    if j == |cs| - 1 {
      assert front[i] == cs[i];
    } else {
      ForestTwo(front, i, j);
      assert front[i] == cs[i] && front[j] == cs[j];
    }
  }

  lemma BelowShrinks(t: Tree, i: nat)
    requires i < |t.children|
    ensures Below(t.children[i], false) < Below(t, false)
    ensures i < |t.children| - 1 ==> Below(t.children[i], false) + Below(t, true) < Below(t, false)
  {
    if i < |t.children| - 1 { ForestTwo(t.children, i, |t.children| - 1); }
  }

  /** The copy of a node that goes on the stack. */
  method withoutIndices(n: Node, ghost G: Tags, ghost skipped: seq<Skipped>, ghost spots: seq<Spot>,
          ghost ps: seq<Binding>, ghost path: bytes)
    returns (c: Node)
    requires StackOK(G, skipped, spots, ps, path)
    ensures fresh(c) && c.path == n.path && c.wildChild == n.wildChild && c.nType == n.nType && c.priority == n.priority
    ensures c.handlers == n.handlers && c.fullPath == n.fullPath && c.children == n.children && c.indices == []
    ensures StackOK(G, skipped, spots, ps, path)
  {
    c := new Node(n.path, n.wildChild, n.nType, n.priority, n.handlers, n.fullPath);
    c.children := n.children;
    forall i | 0 <= i < |skipped| ensures EntryOK(G, skipped[i], spots[i]) {
      assert old(EntryOK(G, skipped[i], spots[i]));
    }
  }

  /** What is left gets shorter from the front. */
  lemma StackShorter(G: Tags, skipped: seq<Skipped>, spots: seq<Spot>, ps: seq<Binding>, path: bytes, qs: seq<Binding>,
          rest: bytes)
    requires StackOK(G, skipped, spots, ps, path) && ps <= qs && HasSuffix(path, rest)
    ensures StackOK(G, skipped, spots, qs, rest)
  {
    hide EntryOK, HasSuffix;
    forall i | 0 <= i < |skipped| ensures HasSuffix(skipped[i].path, rest) {
      SuffixTwice(skipped[i].path, path, rest);
    }
  }

  lemma StackMore(G: Tags, skipped: seq<Skipped>, spots: seq<Spot>, k: Skipped, s: Spot)
    requires StackOK(G, skipped, spots, s.ps, k.path) && EntryOK(G, k, s) && forall x :: x in spots ==> x.m in G
    ensures StackOK(G, skipped + [k], spots + [s], s.ps, k.path)
    ensures StackSize(G, spots + [s]) == StackSize(G, spots) + Below(G[s.m].tree, true)
  {
    hide At;
    assert (spots + [s])[..|spots|] == spots;
    assert HasSuffix(k.path, k.path);
  }

  /** A child that goes back leaves it to the copy of its node. */
  lemma SettleMore(G: Tags, l: Lookup, skipped: seq<Skipped>, spots: seq<Spot>, k: Skipped, s: Spot)
    requires |skipped| == |spots| && (forall x :: x in spots ==> x.m in G) && s.m in G
    ensures Settle(G, l, skipped + [k], spots + [s]) ==
      Settle(G, if l.Back? then WildAt(G[s.m].tree, k.path, s.ps) else l, skipped, spots)
  {
    assert (skipped + [k])[..|skipped|] == skipped && (spots + [s])[..|spots|] == spots;
  }

  /** The step of the lookup into the child for the next byte. */
  lemma SearchChild(t: Tree, pre: bytes, path: bytes, ps: seq<Binding>)
    requires Stands(t, pre, path) && t.path < path && path[|t.path|] in t.indices
    ensures |t.indices| <= |t.children|
    ensures var rest := path[|t.path|..];
      var l := Search(t.children[IndexOf(t.indices, rest[0])], rest, ps);
      Search(t, path, ps) == if l.Back? && t.wildChild then WildAt(t, path, ps) else l
  {
    hide Wild;
    StaticChild(t, pre, path);
  }

  lemma RestSuffix(path: bytes, k: nat)
    requires k <= |path|
    ensures HasSuffix(path, path[k..])
  {
  }

  /** Into the child for the next byte, remembering the wildcard child it passes over. */
  method intoStatic(x: Turn, i: nat, ghost G: Tags, ghost s: Spot, ghost spots: seq<Spot>, ghost size: nat,
          ghost answer: Result)
    returns (y: Turn, ghost s': Spot, ghost spots': seq<Spot>, ghost size': nat)
    requires GoingOn(G, x, s, spots, size, answer) && ValidBut(G, null)
    requires x.n.path < x.path && i < |x.n.indices| && x.path[|x.n.path|] in x.n.indices
    requires IndexOf(x.n.indices, x.path[|x.n.path|]) == i
    ensures GoingOn(G, y, s', spots', size', answer) && size' < size
    ensures i < |x.n.children| && y.n == x.n.children[i] && y.path == x.path[|x.n.path|..] && y.params == x.params
    ensures y.skipped == x.skipped || (x.n.wildChild && |y.skipped| == |x.skipped| + 1 && x.skipped <= y.skipped)
    ensures y.skipped == x.skipped ==> !x.n.wildChild
  {
    hide Stands, Kids, Below, StackSize, StackOK, Settle, Search, WildAt, HasSuffix, IndexOf, NodeSize, Formed;
    ghost var t := G[s.m].tree;
    StaticChild(t, s.pre, x.path);
    SearchChild(t, s.pre, x.path, s.ps);
    KidsMany(s.m, x.n.children, t.children, G);
    ChildOf(G, x.n, s.m, i);
    BelowShrinks(t, i);
    var rest := x.path[|x.n.path|..];
    RestSuffix(x.path, |x.n.path|);
    var skipped := x.skipped;
    spots' := spots;
    s' := Spot(x.n.children[i], s.pre + x.n.path, s.ps);
    if x.n.wildChild {
      var copy := withoutIndices(x.n, G, skipped, spots, s.ps, x.path);
      PrefixSplit(x.n.path, x.path);
      var entry := Skipped(x.n.path + rest, copy, x.count);
      StackMore(G, skipped, spots, entry, s);
      SettleMore(G, Search(t.children[i], rest, s.ps), skipped, spots, entry, s);
      skipped, spots' := skipped + [entry], spots + [s];
    }
    StackShorter(G, skipped, spots', s.ps, x.path, s.ps, rest);
    y := Turn(x.n.children[i], rest, x.count, x.hasParams, x.params, skipped);
    size' := StackSize(G, spots') + Below(G[s'.m].tree, false);
  }

  // ---------------------------------------------------------------- into the wildcard child

  /** A param reaches to the next slash. */
  method paramEnd(path: bytes) returns (end: nat)
    ensures end == SegEnd(path)
  {
    end := 0;
    while end < |path| && path[end] != SLASH
      invariant end <= |path| && SegEnd(path) == end + SegEnd(path[end..])
    {
      assert path[end..][1..] == path[end+1..];
      end := end + 1;
    }
  }

  /** An answer without a way back. */
  lemma Settled(G: Tags, x: Turn, spots: seq<Spot>, l: Lookup, answer: Result)
    requires Comes(G, x, spots, l, answer) && !l.Back?
    ensures answer == l.r
  {
  }

  /** What a lookup knows when it enters the wildcard child `n`, `rest` being what is left of the request. */
  ghost predicate AtWild(G: Tags, x: Turn, s: Spot, spots: seq<Spot>, size: nat, answer: Result, n: Node, rest: bytes)
    reads x.n, n, set k | k in x.skipped :: k.node
  {
    && GoingOn(G, x, s, spots, size, answer) && x.n.path < x.path && rest == x.path[|x.n.path|..]
    && n in G && View(n, n, G) && |n.path| >= 2
    && var t := G[s.m].tree;
    && t.children != [] && G[n].tree == t.children[|t.children|-1] && Comes(G, x, spots, Wild(t, rest, s.ps), answer)
    && Formed(G[n].tree, s.pre + t.path)
  }

  lemma ToWild(G: Tags, x: Turn, s: Spot, spots: seq<Spot>, size: nat, answer: Result)
    requires GoingOn(G, x, s, spots, size, answer) && ValidBut(G, null)
    requires x.n.path < x.path && x.n.wildChild && x.path[|x.n.path|] !in x.n.indices
    ensures |x.n.children| > 0
    ensures AtWild(G, x, s, spots, size, answer, x.n.children[|x.n.children|-1], x.path[|x.n.path|..])
  {
    hide Stands, Formed, Wild, StackOK, Below, StackSize, Settle, Kids;
    var t := G[s.m].tree;
    WildKind(t, s.pre, x.path);
    KidsMany(s.m, x.n.children, t.children, G);
    ChildOf(G, x.n, s.m, |x.n.children| - 1);
    StackMany(G, x.skipped, spots, s.ps, x.path);
  }

  lemma KidsMany(m: Node, ns: seq<Node>, cs: seq<Tree>, G: Tags)
    requires Kids(m, ns, cs, G)
    ensures |ns| == |cs|
  {
  }

  lemma BelowParam(t: Tree, copied: bool)
    requires t.children != [] && t.children[|t.children|-1].children != []
    ensures Below(t.children[|t.children|-1].children[0], false) < Below(t, copied)
  {
    var c := t.children[|t.children|-1];
    assert NodeSize(c.children[0]) < NodeSize(c) < NodeSize(t);
  }

  /** Past a param with more of the request to come. */
  lemma PastParam(G: Tags, x: Turn, s: Spot, spots: seq<Spot>, size: nat, answer: Result, n: Node, rest: bytes)
    returns (s': Spot, size': nat)
    requires AtWild(G, x, s, spots, size, answer, n, rest) && ValidBut(G, null) && n.nType == Param
    requires SegEnd(rest) < |rest| && |n.children| > 0
    ensures size' < size
    ensures var e := SegEnd(rest); var params := x.params + [Binding(n.path[1..], rest[..e])];
      GoingOn(G, Turn(n.children[0], rest[e..], x.count + 1, true, params, x.skipped), s', spots, size', answer)
  {
    hide Stands, Formed, Kids, StackSize, StackOK, Search, Settle;
    var t, e := G[s.m].tree, SegEnd(rest);
    var c := G[n].tree;
    ChildOf(G, n, n, 0);
    BehindParam(c, s.pre + t.path, rest);
    StopStands(c.children[0], s.pre + t.path + c.path, rest[e..]);
    var params := x.params + [Binding(n.path[1..], rest[..e])];
    s' := Spot(n.children[0], s.pre + t.path + c.path, params);
    size' := StackSize(G, spots) + Below(c.children[0], false);
    assert rest[e..] == x.path[|x.n.path| + e..];
    RestSuffix(x.path, |x.n.path| + e);
    StackShorter(G, x.skipped, spots, s.ps, x.path, params, rest[e..]);
    BelowParam(t, x.n.indices != t.indices);
  }

  /** The answer of a param that nothing follows. */
  method inParam(x: Turn, n: Node, path: bytes, end: nat, ghost G: Tags, ghost s: Spot, ghost spots: seq<Spot>,
    ghost size: nat, ghost answer: Result) returns (r: Result)
    requires AtWild(G, x, s, spots, size, answer, n, path) && ValidBut(G, null) && n.nType == Param
    requires end == SegEnd(path) && (end < |path| ==> n.children == [])
    ensures r == answer
  {
    hide Formed, Stands, StackOK, Settle, Search, Below, StackSize;
    Settled(G, x, spots, Wild(G[s.m].tree, path, s.ps), answer);
    var tsr := false;
    if end < |path| {
      tsr := |path| == end + 1;
    } else if n.handlers == [] && |n.children| == 1 {
      ChildOf(G, n, n, 0);
      var c := n.children[0];
      tsr := (c.path == [SLASH] && c.handlers != []) || (c.path == [] && c.indices == [SLASH]);
    }
    var params := x.params + [Binding(n.path[1..], path[..end])];
    if end == |path| && n.handlers != [] { return Result(n.handlers, params, tsr, n.fullPath); }
    r := Result([], params, tsr, []);
  }

  /** The wildcard child: bind its value, and either answer or go on behind it. */
  method intoWildcard(x: Turn, ghost G: Tags, ghost s: Spot, ghost spots: seq<Spot>, ghost size: nat,
          ghost answer: Result)
    returns (done: bool, r: Result, y: Turn, ghost s': Spot, ghost size': nat)
    requires GoingOn(G, x, s, spots, size, answer) && ValidBut(G, null)
    requires x.n.path < x.path && x.n.wildChild && x.path[|x.n.path|] !in x.n.indices
    ensures done ==> r == answer
    ensures !done ==> GoingOn(G, y, s', spots, size', answer) && size' < size
  {
    ToWild(G, x, s, spots, size, answer);
    hide GoingOn, ValidBut;
    y, s', size' := x, s, size;
    var path := x.path[|x.n.path|..];
    var n := x.n.children[|x.n.children|-1];
    if n.nType == Param {
      hide Comes;
      var end := paramEnd(path);
      if end < |path| && |n.children| > 0 {
        s', size' := PastParam(G, x, s, spots, size, answer, n, path);
        var params := x.params + [Binding(n.path[1..], path[..end])];
        return false, Result([], [], false, []), Turn(n.children[0], path[end..], x.count + 1, true, params, x.skipped),
            s', size';
      }
      r := inParam(x, n, path, end, G, s, spots, size, answer);
      return true, r, y, s', size';
    }
    Settled(G, x, spots, Wild(G[s.m].tree, path, s.ps), answer);
    return true, Result(n.handlers, x.params + [Binding(n.path[2..], path)], false, n.fullPath), y, s', size';
  }

  // ---------------------------------------------------------------- one turn

  /** The last part of the exact-length case: would the path with a slash more have a route? */
  method slashChild(n: Node, ghost G: Tags, ghost s: Spot, ghost path: bytes) returns (tsr: bool)
    requires ValidBut(G, null) && At(G, s, n, path) && n.indices == G[s.m].tree.indices && !(n.path < path)
    ensures tsr == SlashBelow(G[s.m].tree)
  {
    hide Stands;
    tsr := false;
    var i := n.indexOf(SLASH);
    Indexed(G[s.m].tree, s.pre, path);
    if i < |n.indices| {
      KidsMany(s.m, n.children, G[s.m].tree.children, G);
      ChildOf(G, n, s.m, i);
      var c := n.children[i];
      MidHasChild(G[s.m].tree, s.pre, path, i);
      KidsMany(c, c.children, G[c].tree.children, G);
      if c.nType == CatchAll { ChildOf(G, c, c, 0); }
      tsr := (|c.path| == 1 && c.handlers != []) || (c.nType == CatchAll && c.children[0].handlers != []);
    }
  }

  lemma Indexed(t: Tree, pre: bytes, path: bytes)
    requires Stands(t, pre, path) && !(t.path < path)
    ensures |t.indices| <= |t.children|
  {
    StandsStop(t, pre, path);
    StopInner(t, pre);
  }

  lemma MidHasChild(t: Tree, pre: bytes, path: bytes, k: nat)
    requires Stands(t, pre, path) && !(t.path < path) && k < |t.indices| && k < |t.children|
    ensures t.children[k].nType == CatchAll ==> |t.children[k].children| > 0
  {
    StandsStop(t, pre, path);
    assert StaticShape(t);
    assert WF(t.children[k], pre + t.path);
    assert Formed(t.children[k], pre + t.path);
  }

  /** The node stood at is no copy where the request does not go past it. */
  lemma NoCopy(G: Tags, x: Turn, s: Spot, spots: seq<Spot>, size: nat, answer: Result)
    requires GoingOn(G, x, s, spots, size, answer) && !(x.n.path < x.path)
    ensures s.m in G && At(G, s, x.n, x.path) && x.n.indices == G[s.m].tree.indices && x.n.path == G[s.m].tree.path
    ensures x.n.handlers == G[s.m].tree.handlers && x.n.wildChild == G[s.m].tree.wildChild && x.params == s.ps
    ensures x.n.nType == G[s.m].tree.nType && x.n.fullPath == G[s.m].tree.fullPath
    ensures Comes(G, x, spots, Search(G[s.m].tree, x.path, s.ps), answer)
  {
    hide Stands, Search, Settle, Kids, Below, StackSize;
  }

  /** A turn at a node where the request ends. */
  method atEnd(x: Turn, ghost G: Tags, ghost s: Spot, ghost spots: seq<Spot>, ghost size: nat, ghost answer: Result)
    returns (done: bool, r: Result, y: Turn, ghost s': Spot, ghost spots': seq<Spot>, ghost size': nat)
    requires GoingOn(G, x, s, spots, size, answer) && ValidBut(G, null) && x.path == x.n.path
    ensures done ==> r == answer
    ensures !done ==> GoingOn(G, y, s', spots', size', answer) && size' < size
  {
    hide GoingOn, At, Comes, SlashBelow, SlashMore, Search;
    NoCopy(G, x, s, spots, size, answer);
    RestSuffix(x.path, 0);
    assert x.path[0..] == x.path;
    ghost var t, l := G[s.m].tree, Search(G[s.m].tree, x.path, s.ps);
    SearchHere(t, s.ps);
    var n, path := x.n, x.path;
    r, y, s', spots', size' := Result([], x.params, false, []), x, s, spots, size;
    if n.handlers == [] && path != [SLASH] {
      var found;
      found, y, s', spots', size' := resume(x, path, l.r, G, s, spots, size, answer);
      if found { return false, r, y, s', spots', size'; }
    } else {
      Settled(G, x, spots, l, answer);
    }
    if n.handlers != [] {
      r := Result(n.handlers, x.params, false, n.fullPath);
    } else if path == [SLASH] && ((n.wildChild && n.nType != Root) || n.nType == Static) {
      r := Result([], x.params, true, []);
    } else {
      var tsr := slashChild(n, G, s, path);
      r := Result([], x.params, tsr, []);
    }
    done := true;
  }

  /** Is the request the node's path without its last slash, or a lone slash? */
  predicate OneSlashMore(prefix: bytes, path: bytes, handlers: Handlers) {
    || path == [SLASH]
    || (|prefix| == |path| + 1 && prefix[|path|] == SLASH && path == prefix[..|prefix|-1] && handlers != [])
  }

  lemma SearchHere(t: Tree, ps: seq<Binding>)
    ensures Search(t, t.path, ps) ==
      if t.handlers != [] then Hit(Result(t.handlers, ps, false, t.fullPath))
      else if t.path != [SLASH] then Back(Result([], ps, SlashBelow(t), []))
      else Miss(Result([], ps, (t.wildChild && t.nType != Root) || t.nType == Static || SlashBelow(t), []))
  {
  }

  lemma SearchAside(t: Tree, path: bytes, ps: seq<Binding>)
    requires !(t.path <= path)
    ensures var r := Result([], ps, OneSlashMore(t.path, path, t.handlers), []);
      Search(t, path, ps) == if r.tsr then Miss(r) else Back(r)
    ensures path == [SLASH] ==> OneSlashMore(t.path, path, t.handlers)
  {
    if |t.path| == |path| + 1 { assert t.path == t.path[..|path|] + [t.path[|path|]]; }
  }

  /** A turn at a node the request reaches but does not pass: the last two parts of the loop body. */
  method atNode(x: Turn, ghost G: Tags, ghost s: Spot, ghost spots: seq<Spot>, ghost size: nat, ghost answer: Result)
    returns (done: bool, r: Result, y: Turn, ghost s': Spot, ghost spots': seq<Spot>, ghost size': nat)
    requires GoingOn(G, x, s, spots, size, answer) && ValidBut(G, null)
    requires !(|x.path| > |x.n.path| && x.path[..|x.n.path|] == x.n.path)
    ensures done ==> r == answer
    ensures !done ==> GoingOn(G, y, s', spots', size', answer) && size' < size
  {
    hide GoingOn, At, Comes, SlashMore, ValidBut, OneSlashMore, Search;
    var n, path, prefix := x.n, x.path, x.n.path;
    if path == prefix {
      done, r, y, s', spots', size' := atEnd(x, G, s, spots, size, answer);
      return;
    }
    NoCopy(G, x, s, spots, size, answer);
    RestSuffix(x.path, 0);
    assert x.path[0..] == x.path;
    ghost var t, l := G[s.m].tree, Search(G[s.m].tree, x.path, s.ps);
    r, y, s', spots', size' := Result([], x.params, false, []), x, s, spots, size;
    var tsr := OneSlashMore(prefix, path, n.handlers);
    SearchAside(t, path, s.ps);
    if !tsr && path != [SLASH] {
      var found;
      found, y, s', spots', size' := resume(x, path, l.r, G, s, spots, size, answer);
      if found { return false, r, y, s', spots', size'; }
    } else {
      Settled(G, x, spots, l, answer);
    }
    done, r := true, Result([], x.params, tsr, []);
  }

  /** Where the node has no child for the next byte and no wildcard child. */
  lemma Nowhere(G: Tags, x: Turn, s: Spot, spots: seq<Spot>, size: nat, answer: Result)
    requires GoingOn(G, x, s, spots, size, answer)
    requires x.n.path < x.path && !x.n.wildChild && x.path[|x.n.path|] !in x.n.indices
    ensures var rest := x.path[|x.n.path|..];
      Comes(G, x, spots, if rest == [SLASH] then Miss(Result([], x.params, x.n.handlers != [], []))
                         else Back(Result([], x.params, false, [])), answer)
  {
    hide Stands, Settle, Kids, Below, StackSize;
  }

  /** A turn at a node whose path the request passes: into a child, or back to a node passed over. */
  method passNode(x: Turn, i: nat, ghost G: Tags, ghost s: Spot, ghost spots: seq<Spot>, ghost size: nat,
          ghost answer: Result)
    returns (done: bool, r: Result, y: Turn, ghost s': Spot, ghost spots': seq<Spot>, ghost size': nat)
    requires GoingOn(G, x, s, spots, size, answer) && ValidBut(G, null)
    requires x.n.path < x.path && i <= |x.n.indices|
    requires && if i < |x.n.indices| then x.path[|x.n.path|] in x.n.indices
      && IndexOf(x.n.indices, x.path[|x.n.path|]) == i
             else x.path[|x.n.path|] !in x.n.indices
    ensures done ==> r == answer
    ensures !done ==> GoingOn(G, y, s', spots', size', answer) && size' < size
  {
    hide GoingOn, ValidBut;
    var n := x.n;
    var rest := x.path[|n.path|..];
    done, r, y, s', spots', size' := false, Result([], [], false, []), x, s, spots, size;
    if i < |n.indices| {
      y, s', spots', size' := intoStatic(x, i, G, s, spots, size, answer);
    } else if !n.wildChild {
      var found := false;
      Nowhere(G, x, s, spots, size, answer);
      hide Comes;
      if rest != [SLASH] {
        RestSuffix(x.path, |n.path|);
        found, y, s', spots', size' := resume(x, rest, Result([], x.params, false, []), G, s, spots, size, answer);
      } else {
        Settled(G, x, spots, Miss(Result([], x.params, n.handlers != [], [])), answer);
      }
      if !found {
        var tsr := rest == [SLASH] && n.handlers != [];
        done, r := true, Result([], x.params, tsr, []);
      }
    } else {
      done, r, y, s', size' := intoWildcard(x, G, s, spots, size, answer);
    }
  }

  /** The loop body. */
  method turn(x: Turn, ghost G: Tags, ghost s: Spot, ghost spots: seq<Spot>, ghost size: nat, ghost answer: Result)
    returns (done: bool, r: Result, y: Turn, ghost s': Spot, ghost spots': seq<Spot>, ghost size': nat)
    requires GoingOn(G, x, s, spots, size, answer) && ValidBut(G, null)
    ensures done ==> r == answer
    ensures !done ==> GoingOn(G, y, s', spots', size', answer) && size' < size
  {
    if |x.path| > |x.n.path| && x.path[..|x.n.path|] == x.n.path {
      var i := x.n.indexOf(x.path[|x.n.path|]);
      done, r, y, s', spots', size' := passNode(x, i, G, s, spots, size, answer);
    } else {
      done, r, y, s', spots', size' := atNode(x, G, s, spots, size, answer);
    }
  }

  /**
    node.getValue with params given and unescape off, starting from empty params and an empty stack. It comes to what
    the lookup by recursion does.
   */
  method getValue(root: Node, req: bytes, ghost G: Tags) returns (r: Result)
    requires root in G && ValidBut(G, null) && RootOK(G[root].tree)
    ensures r == Search(G[root].tree, req, []).r
    ensures Answers(G[root].tree, req, r)
  {
    hide GoingOn, Answers, Search;
    SearchAnswers(G[root].tree, req);
    ghost var rt := G[root].tree;
    ghost var answer := Search(rt, req, []).r;
    var x := Turn(root, req, 0, false, [], []);
    ghost var s, spots: seq<Spot>, size: nat := Spot(root, [], []), [], StackSize(G, []) + Below(rt, false);
    StartsGoing(root, req, G);
    while true
      invariant ValidBut(G, null) && GoingOn(G, x, s, spots, size, answer)
      decreases size
    {
      var done;
      done, r, x, s, spots, size := turn(x, G, s, spots, size, answer);
      if done { return; }
    }
  }

  lemma StartsGoing(root: Node, req: bytes, G: Tags)
    requires root in G && ValidBut(G, null) && RootOK(G[root].tree)
    ensures GoingOn(G, Turn(root, req, 0, false, [], []), Spot(root, [], []), [],
      StackSize(G, []) + Below(G[root].tree, false), Search(G[root].tree, req, []).r)
  {
    hide Search, Stands, Formed, Stop, Below;
    var rt := G[root].tree;
    assert root.Shows(rt, G);
    RootStop(rt);
    StopStands(rt, [], req);
  }
}
