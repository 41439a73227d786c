/**
  Gin's routing tree (tree.go) as mutable nodes. A ghost map gives every node of a set of trees the
  value of its subtree and its parent. Validity is local: a node's fields, with the values of its
  children, make up its own value. A node that is being rewritten is given its final value first and
  is brought in line with it by the end of the operation.
 */
module Router {
  import opened Bytes
  import opened RouteTree
  import opened RouteInsert

  /** Routes with `\\:` escapes are not modelled. */
  predicate NoEscape(path: bytes) { BACKSLASH !in path }

  datatype Tag = Tag(tree: Tree, parent: Node?)

  type Tags = map<Node, Tag>

  /** Every node except `x` shows its value. */
  ghost predicate ValidBut(G: Tags, x: Node?)
    reads G.Keys
  {
    forall n :: n in G && n != x ==> n.Shows(G[n].tree, G)
  }

  /** `H` tags more nodes than `G` and agrees with it on those of `G`. */
  ghost predicate Extends(G: Tags, H: Tags) {
    G.Keys <= H.Keys && forall n :: n in G ==> H[n] == G[n]
  }

  lemma ExtendsOn(G: Tags, H: Tags, I: Tags)
    requires Extends(G, H) && Extends(H, I)
    ensures Extends(G, I) && I.Keys - G.Keys == (H.Keys - G.Keys) + (I.Keys - H.Keys)
  {
  }

  lemma ExtendsSelf(G: Tags)
    ensures Extends(G, G)
  {
  }

  lemma ExtendsOne(G: Tags, H: Tags, c: Node, tag: Tag)
    requires Extends(G, H) && c !in H
    ensures Extends(G, H[c := tag]) && H[c := tag].Keys - G.Keys == (H.Keys - G.Keys) + {c}
  {
  }

  lemma ShowsPath(n: Node, t: Tree, G: Tags)
    requires n.Shows(t, G)
    ensures n.path == t.path
  {
  }

  /** A node without children joins the others. */
  lemma NewestValid(G: Tags, p: Node, c: Node, H: Tags)
    requires ValidBut(G, p) && c !in G && c != p && c in H && H == G[c := H[c]] && c.Shows(H[c].tree, H)
    ensures ValidBut(H, p)
  {
    hide Kids;
    forall n | n in G && n != p
      ensures n.Shows(G[n].tree, H)
    {
      ExtendKids(n, n.children, G[n].tree.children, G, c, H[c]);
    }
  }

  lemma ShowsFields(n: Node, t: Tree, G: Tags)
    requires n.Shows(t, G)
    ensures n.path == t.path && n.indices == t.indices && n.wildChild == t.wildChild && n.nType == t.nType
    ensures n.handlers == t.handlers
    ensures |n.children| == |t.children| && forall k :: k in n.children ==> k in G && G[k].parent == n && k != n
  {
    KidsTagged(n, n.children, t.children, G);
  }

  lemma SettleAt(G: Tags, n: Node, t: Tree)
    requires ValidBut(G, n) && n in G && G[n].tree == t && n.Shows(t, G)
    ensures ValidBut(G, null)
  {
  }

  lemma Settle(G: Tags, n: Node)
    requires ValidBut(G, n) && n in G && n.Shows(G[n].tree, G)
    ensures ValidBut(G, null)
  {
  }

  lemma InsertCases(t: Tree, path: bytes, full: bytes, h: Handlers)
    ensures var r := InsertChild(t, path, full, h); match FindWildcard(path)
      case NoWildcard => r == Outcome(true, t.(path := path, handlers := h, fullPath := full))
      case Wildcard(w, i, valid) =>
        if !valid || |w| < 2 then r == Outcome(false, t)
        else if w[0] == COLON then
          var u := if i > 0 then t.(path := path[..i]) else t;
          var sub := ParamChild(w, path[i..], full, h);
          r == Outcome(sub.ok, AddChild(u, sub.tree).(wildChild := true))
        else if i + |w| != |path| || (t.path != [] && t.path[|t.path|-1] == SLASH) || i == 0 || path[i-1] != SLASH then
          r == Outcome(false, t)
        else
          r == Outcome(true, AddChild(t.(path := path[..i-1]), CatchAllNode(path[i-1..], full, h)).(indices := [SLASH]))
  {
  }

  lemma ParamCases(w: bytes, path: bytes, full: bytes, h: Handlers)
    requires 0 < |w| <= |path|
    ensures var r := ParamChild(w, path, full, h);
      if |w| < |path| then
        var sub := InsertChild(Fresh(full), path[|w|..], full, h);
        r == Outcome(sub.ok, ParamNode(w, full).(children := [sub.tree]))
      else r == Outcome(true, ParamNode(w, full).(handlers := h))
  {
  }

  lemma SwapMoved<T>(s: seq<T>, pos: nat, k: nat)
    requires 0 < k <= pos < |s|
    ensures var m := Moved(s, pos, k); m[k-1] == s[k-1] && m[k-1 := m[k]][k := m[k-1]] == Moved(s, pos, k - 1)
  {
    MovedAll(s, pos, k); MovedAll(s, pos, k - 1);
    var m := Moved(s, pos, k);
    var sw, mv := m[k-1 := m[k]][k := m[k-1]], Moved(s, pos, k - 1);
    assert forall i :: 0 <= i < |s| ==> sw[i] == mv[i];
  }

  lemma IncPrioParts(t: Tree, pos: nat)
    requires pos < |t.children| && pos < |t.indices|
    ensures var cs := t.children[pos := Bump(t.children[pos])]; var to := RestPos(cs, pos, cs[pos].priority);
      && IncPrio(t, pos).0 == t.(children := Moved(cs, pos, to), indices := Moved(t.indices, pos, to))
      && IncPrio(t, pos).1 == to
      && Moved(cs, pos, to)[to] == cs[pos]
  {
  }

  lemma MovedString(s: bytes, pos: nat, to: nat)
    requires to <= pos < |s|
    ensures Moved(s, pos, to) == s[..to] + s[pos..pos+1] + s[to..pos] + s[pos+1..]
    ensures to == pos ==> Moved(s, pos, to) == s
  {
  }

  method longestCommonPrefix(a: bytes, b: bytes) returns (i: nat)
    ensures i == Lcp(a, b)
  {
    i := 0;
    var max := if |a| < |b| then |a| else |b|;
    while i < max && a[i] == b[i]
      invariant i <= max && Lcp(a, b) == i + Lcp(a[i..], b[i..])
    {
      i := i + 1;
    }
  }

  /** The inner loop of findWildcard: where the name ends, and whether it holds another wildcard. */
  method wildcardEnd(tail: bytes) returns (end: nat, valid: bool)
    ensures end == SegEnd(tail) && (valid <==> Plain(tail[..end]))
  {
    hide Plain;
    assert Plain(tail[..0]) by { PlainStep(tail, 0); }
    end, valid := 0, true;
    while end < |tail| && tail[end] != SLASH
      invariant end <= |tail| && SegEnd(tail) == end + SegEnd(tail[end..])
      invariant valid <==> Plain(tail[..end])
    {
      if tail[end] == COLON || tail[end] == STAR { valid := false; }
      PlainStep(tail, end);
      end := end + 1;
    }
  }

  lemma PlainStep(s: bytes, i: nat)
    requires i <= |s|
    ensures i == 0 ==> Plain(s[..i])
    ensures i < |s| ==> (Plain(s[..i+1]) <==> Plain(s[..i]) && !Mark(s[i]))
  {
    if i < |s| { assert s[..i+1] == s[..i] + [s[i]]; assert s[..i+1][i] == s[i]; }
  }

  /** The first wildcard segment of `path`; -1 as its index if there is none. */
  method findWildcard(path: bytes) returns (wildcard: bytes, i: int, valid: bool)
    requires NoEscape(path)
    ensures i < 0 <==> FindWildcard(path).NoWildcard?
    ensures i >= 0 ==> FindWildcard(path) == Wildcard(wildcard, i, valid)
  {
    hide FirstMark, FindWildcard;
    var start := 0;
    while start < |path|
      invariant start <= |path| && FirstMark(path) == start + FirstMark(path[start..])
    {
      MarkStep(path, start);
      if path[start] == COLON || path[start] == STAR {
        var end;
        end, valid := wildcardEnd(path[start+1..]);
        WildcardFound(path, start, end, valid);
        return path[start..start+1+end], start, valid;
      }
      start := start + 1;
    }
    NoWildcardLeft(path);
    return [], -1, false;
  }

  lemma WildcardFound(path: bytes, start: nat, end: nat, valid: bool)
    requires start < |path| && FirstMark(path) == start && end == SegEnd(path[start+1..])
    requires valid <==> Plain(path[start+1..][..end])
    ensures FindWildcard(path) == Wildcard(path[start..start+1+end], start, valid)
  {
    hide FirstMark, Plain, SegEnd;
    assert path[start+1..][..end] == path[start+1..start+1+end];
  }

  lemma NoWildcardLeft(path: bytes)
    requires FirstMark(path) == |path|
    ensures FindWildcard(path).NoWildcard?
  {
    hide FirstMark;
  }

  lemma MarkStep(path: bytes, start: nat)
    requires start < |path|
    ensures FirstMark(path[start..]) == if Mark(path[start]) then 0 else 1 + FirstMark(path[start+1..])
  {
    assert path[start..][1..] == path[start+1..];
  }

  /** The children `ns` of `p` have the values `ts`. */
  ghost predicate Kids(p: Node, ns: seq<Node>, ts: seq<Tree>, G: Tags) {
    && |ns| == |ts|
    && (forall i :: 0 <= i < |ns| ==> ns[i] in G && ns[i] != p && G[ns[i]] == Tag(ts[i], p))
    && (forall i, j :: 0 <= i < j < |ns| ==> ns[i] != ns[j])
  }

  lemma MovedKids(p: Node, ns: seq<Node>, ts: seq<Tree>, G: Tags, pos: nat, to: nat)
    requires Kids(p, ns, ts, G) && to <= pos < |ns|
    ensures Kids(p, Moved(ns, pos, to), Moved(ts, pos, to), G) && Moved(ns, pos, to)[to] == ns[pos]
  {
    MovedAll(ns, pos, to); MovedAll(ts, pos, to);
  }

  lemma AppendKids(p: Node, ns: seq<Node>, t: Tree, c: Node, G: Tags)
    requires Kids(p, ns, t.children, G) && c in G && c != p && G[c].parent == p && c !in ns
    ensures Kids(p, ns + [c], t.children + [G[c].tree], G)
    ensures |ns| > 0 ==>
      Kids(p, ns[..|ns|-1] + [c, ns[|ns|-1]], t.children[..|ns|-1] + [G[c].tree, t.children[|ns|-1]], G)
  {
  }

  /** Giving the child `c` of `p` a new value disturbs no other node. */
  lemma RetagKids(n: Node, ns: seq<Node>, ts: seq<Tree>, G: Tags, p: Node, c: Node, t: Tree)
    requires Kids(n, ns, ts, G) && n != p && c in G && G[c].parent == p
    ensures Kids(n, ns, ts, G[c := Tag(t, p)])
  {
  }

  lemma RetagKid(p: Node, ns: seq<Node>, ts: seq<Tree>, G: Tags, k: nat, t: Tree)
    requires Kids(p, ns, ts, G) && k < |ns|
    ensures Kids(p, ns, ts[k := t], G[ns[k] := Tag(t, p)])
  {
  }

  lemma NoKids(p: Node, G: Tags)
    ensures Kids(p, [], [], G)
  {
  }

  lemma OneKid(p: Node, c: Node, t: Tree, G: Tags)
    requires c != p
    ensures Kids(p, [c], [t], G[c := Tag(t, p)])
  {
  }

  lemma ExtendKids(n: Node, ns: seq<Node>, ts: seq<Tree>, G: Tags, c: Node, tag: Tag)
    requires Kids(n, ns, ts, G) && c !in G
    ensures Kids(n, ns, ts, G[c := tag])
  {
  }

  /** A new node `c` under `p`, which by now shows its value with `c` as a child. */
  lemma ExtendValid(G: Tags, p: Node, c: Node, tag: Tag)
    requires ValidBut(G, p) && c !in G && p in G && p.Shows(G[p].tree, G[c := tag])
    ensures ValidBut(G[c := tag], c)
  {
    forall n | n in G && n != p ensures n.Shows(G[n].tree, G[c := tag]) {
      ExtendKids(n, n.children, G[n].tree.children, G, c, tag);
    }
  }

  /** A node without a parent can be given any value without disturbing another node. */
  lemma RetagRoot(G: Tags, r: Node, t: Tree)
    requires r in G && G[r].parent == null && ValidBut(G, r)
    ensures ValidBut(G[r := Tag(t, null)], r)
    ensures forall u :: r.Shows(u, G) ==> r.Shows(u, G[r := Tag(t, null)])
  {
    forall n | n in G && n != r ensures n.Shows(G[n].tree, G[r := Tag(t, null)]) {
      assert forall i :: 0 <= i < |n.children| ==> n.children[i] != r;
    }
    forall u | r.Shows(u, G) ensures r.Shows(u, G[r := Tag(t, null)]) {
      assert forall i :: 0 <= i < |r.children| ==> r.children[i] != r;
    }
  }

  /** Giving the child `c` of `p` its final value `t`, where `c` currently shows `b`. */
  lemma RetagChild(G: Tags, p: Node, c: Node, b: Tree, t: Tree)
    requires p in G && c in G && c != p && G[c] == Tag(b, p) && ValidBut(G, p)
    requires p.Shows(G[p].tree, G[c := Tag(t, p)])
    ensures ValidBut(G[c := Tag(t, p)], c) && c.Shows(b, G[c := Tag(t, p)])
  {
    var H := G[c := Tag(t, p)];
    forall n | n in G && n != p
      ensures n.Shows(G[n].tree, H)
    {
      RetagKids(n, n.children, G[n].tree.children, G, p, c, t);
    }
  }

  /** The tags after the children of `p` moved below its new child `c` with value `t`. */
  ghost function Reparented(G: Tags, p: Node, kids: seq<Node>, c: Node, t: Tree): Tags
    requires forall k :: k in kids ==> k in G
  {
    map n | n in G.Keys + {c} :: if n == c then Tag(t, p) else if n in kids then Tag(G[n].tree, c) else G[n]
  }

  lemma ReparentKids(G: Tags, p: Node, kids: seq<Node>, c: Node, t: Tree, n: Node, ns: seq<Node>, ts: seq<Tree>)
    requires (forall k :: k in kids ==> k in G && G[k].parent == p) && c !in G
    requires Kids(n, ns, ts, G) && n != p
    ensures Kids(n, ns, ts, Reparented(G, p, kids, c, t))
  {
  }

  lemma ReparentedKids(G: Tags, p: Node, kids: seq<Node>, c: Node, t: Tree)
    requires Kids(p, kids, t.children, G) && c !in G && c != p
    ensures var H := Reparented(G, p, kids, c, t); Kids(c, kids, t.children, H) && Kids(p, [c], [t], H)
  {
  }

  lemma KidsTagged(p: Node, ns: seq<Node>, ts: seq<Tree>, G: Tags)
    requires Kids(p, ns, ts, G)
    ensures |ns| == |ts| && forall k :: k in ns ==> k in G && G[k].parent == p && k != p
  {
  }

  lemma ReparentedValid(G: Tags, p: Node, kids: seq<Node>, c: Node, t: Tree)
    requires (forall k :: k in kids ==> k in G && G[k].parent == p) && c !in G && ValidBut(G, p)
    requires c.Shows(t, Reparented(G, p, kids, c, t))
    ensures ValidBut(Reparented(G, p, kids, c, t), p)
  {
    forall n | n in G && n != p ensures n.Shows(G[n].tree, Reparented(G, p, kids, c, t)) {
      ReparentKids(G, p, kids, c, t, n, n.children, G[n].tree.children);
    }
  }

  /** The new node `c` took over the children of `p`, which will show it as its only child. */
  lemma SplitTags(G: Tags, p: Node, c: Node, ts: seq<Tree>, t: Tree) returns (H: Tags)
    requires Kids(p, p.children, ts, G) && ValidBut(G, p) && c !in G && c != p && p in G
    requires c.children == p.children && t.children == ts
    requires c.path == t.path && c.indices == t.indices && c.wildChild == t.wildChild && c.nType == t.nType
    requires c.priority == t.priority && c.handlers == t.handlers && c.fullPath == t.fullPath
    ensures H.Keys == G.Keys + {c} && ValidBut(H, p) && Kids(p, [c], [t], H)
    ensures forall n :: n in G && G[n].parent != p ==> H[n] == G[n]
    ensures forall n :: n in G && G[n].parent == p ==> H[n].parent != null
    ensures H[p].tree == G[p].tree
  {
    H := Reparented(G, p, p.children, c, t);
    ReparentedKids(G, p, p.children, c, t);
    assert c.Shows(t, H);
    ReparentedValid(G, p, p.children, c, t);
    ReparentedTags(G, p, p.children, c, t);
  }

  lemma ReparentedTags(G: Tags, p: Node, kids: seq<Node>, c: Node, t: Tree)
    requires (forall k :: k in kids ==> k in G && G[k].parent == p) && c !in G
    ensures var H := Reparented(G, p, kids, c, t);
      && H.Keys == G.Keys + {c} && H[c] == Tag(t, p)
      && (forall n :: n in G && n !in kids ==> H[n] == G[n])
      && (forall n :: n in kids ==> H[n] == Tag(G[n].tree, c))
  {
  }

  /** What newChild relies on: where the new child is, and what raising it makes of the parent. */
  lemma NewChildSteps(t: Tree, rest: bytes, full: bytes, h: Handlers)
    requires rest != [] && |t.children| == |t.indices| + (if t.wildChild then 1 else 0)
    ensures var m := AddChild(t.(indices := t.indices + [rest[0]]), Fresh(full).(priority := 0));
      && |t.indices| < |m.children| && |t.indices| < |m.indices|
      && m.children[|t.indices|] == Fresh(full).(priority := 0) && Bump(m.children[|t.indices|]) == Fresh(full)
      && var (m', k) := IncPrio(m, |t.indices|); var sub := InsertChild(Fresh(full), rest, full, h);
      && NewChild(t, rest, full, h) == Outcome(sub.ok, m'.(children := m'.children[k := sub.tree]))
  {
  }

  lemma SplitWalkBelow(n: Tree, rest: bytes, full: bytes, off: nat, h: Handlers)
    requires off + |rest| <= |full| && off + |n.path| + |rest| <= |full|
    requires n.nType != Param && !n.wildChild && (rest != [] ==> rest[0] !in n.indices)
    ensures WalkAfterSplit(n, rest, full, h) == WalkBelow(n, rest, full, off, h)
  {
  }

  /** The walk may go on in `b` with `rest`. */
  ghost predicate NextWalk(t: Tree, b: Tree, pre: bytes, rest: bytes) {
    rest != [] && Raised(b, pre + t.path) && Walkable(b, rest) && NodeSize(b) < NodeSize(t)
  }

  lemma NextWalkChild(t: Tree, k: nat, pre: bytes, rest: bytes)
    requires Raised(t, pre) && k < |t.children| && rest != [] && Walkable(Bump(t.children[k]), rest)
    ensures NextWalk(t, Bump(t.children[k]), pre, rest)
  {
    assert WF(t.children[k], pre + t.path);
    BumpRaises(t.children[k], pre + t.path);
    assert NodeSize(Bump(t.children[k])) == NodeSize(t.children[k]);
  }

  /** The walk below a well-formed node, case by case. */
  lemma BelowCases(t: Tree, rest: bytes, full: bytes, off: nat, h: Handlers, pre: bytes)
    requires Raised(t, pre) && Walkable(t, t.path + rest) && off + |t.path + rest| <= |full|
    ensures var r := WalkBelow(t, rest, full, off, h);
      if rest == [] then r == SetHandlers(t, full, h)
      else if t.nType == Param && rest[0] == SLASH && |t.children| == 1 then
        var b := Bump(t.children[0]); var sub := Walk(b, rest, full, off + |t.path|, h);
        NextWalk(t, b, pre, rest) && r == Outcome(sub.ok, t.(children := t.children[0 := sub.tree]))
      else if rest[0] in t.indices then
        var k := IndexOf(t.indices, rest[0]);
        && k < |t.children|
        && var (m, j) := IncPrio(t, k); var b := Bump(t.children[k]); var sub := Walk(b, rest, full, off + |t.path|, h);
        && NextWalk(t, b, pre, rest) && r == Outcome(sub.ok, m.(children := m.children[j := sub.tree]))
      else if !Mark(rest[0]) && t.nType != CatchAll then
        |t.children| == |t.indices| + (if t.wildChild then 1 else 0) && r == NewChild(t, rest, full, h)
      else if t.wildChild then
        && |t.children| > 0
        && var last := |t.children| - 1; var b := Bump(t.children[last]);
        if WildcardMatches(b, rest) then
          var sub := Walk(b, rest, full, off, h);
          NextWalk(t, b, pre, rest) && r == Outcome(sub.ok, t.(children := t.children[last := sub.tree]))
        else r == Outcome(false, t.(children := t.children[last := b]))
      else r == InsertChild(t, rest, full, h)
  {
    hide Raised, NewChild, InsertChild, NextWalk, NodeSize, Shape, IncPrio;
    RaisedShape(t, pre);
    WalkableBelow(t, rest);
    if rest == [] {
    } else if t.nType == Param && rest[0] == SLASH && |t.children| == 1 {
      ParamsChild(t, pre, rest);
      NextWalkChild(t, 0, pre, rest);
      var x := Walk(Bump(t.children[0]), rest, full, off + |t.path|, h).tree;
      assert t.children[0 := x] == [x];
    } else if rest[0] in t.indices {
      var k := IndexOf(t.indices, rest[0]);
      IndexedChild(t, k, pre, rest);
      NextWalkChild(t, k, pre, rest);
    } else if !Mark(rest[0]) && t.nType != CatchAll {
      Lockstep(t);
    } else if t.wildChild {
      if WildcardMatches(Bump(t.children[|t.children|-1]), rest) {
        WildcardChild(t, pre, rest);
        NextWalkChild(t, |t.children| - 1, pre, rest);
      }
    }
  }

  lemma Lockstep(t: Tree)
    requires Shape(t) && t.nType != CatchAll && (t.nType == Param ==> |t.children| != 1)
    ensures |t.children| == |t.indices| + (if t.wildChild then 1 else 0)
  {
  }

  /**
    From `G` to `H` nodes are only added, `x` and the other roots keep their tags, and no other node becomes a root.
   */
  ghost predicate Keeps(G: Tags, H: Tags, x: Node) {
    && G.Keys <= H.Keys && x in G && H[x] == G[x]
    && (forall n :: n in G && G[n].parent == null ==> H[n] == G[n])
    && (forall n :: n in G && G[n].parent != null ==> H[n].parent != null)
  }

  lemma KeepsTag(G: Tags, x: Node, c: Node, t: Tree, p: Node)
    requires x in G && c in G && c != x && G[c].parent == p
    ensures Keeps(G, G[c := Tag(t, p)], x) && G[c := Tag(t, p)].Keys == G.Keys
  {
  }

  lemma KeepsExtends(G: Tags, H: Tags, x: Node)
    requires x in G && Extends(G, H)
    ensures Keeps(G, H, x) && G.Keys <= H.Keys
  {
  }

  lemma KeepsOn(G: Tags, H: Tags, I: Tags, x: Node, n: Node)
    requires Keeps(G, H, x) && Keeps(H, I, n) && G[x].parent == null
    ensures Keeps(G, I, x) && I.Keys - G.Keys == (H.Keys - G.Keys) + (I.Keys - H.Keys)
  {
  }

  lemma KeepsSplit(G: Tags, H: Tags, n: Node)
    requires G.Keys <= H.Keys && n in G && G[n].parent != n
    requires forall m :: m in G && G[m].parent != n ==> H[m] == G[m]
    requires forall m :: m in G && G[m].parent == n ==> H[m].parent != null
    ensures Keeps(G, H, n)
  {
  }

  /** One turn of the walk: after a split, or at a node whose path is consumed. */
  lemma WalkCases(t: Tree, path: bytes, full: bytes, off: nat, pre: bytes, h: Handlers)
    requires Raised(t, pre) && Walkable(t, path) && full == pre + path && off + |path| <= |full|
    ensures var i := Lcp(path, t.path); var rest := path[i..];
      && (i < |t.path| ==> t.priority > 0)
      && var n := if i < |t.path| then Split(t, i, full[..off + i]) else t;
      && path == n.path + rest && Raised(n, pre) && Walkable(n, path)
      && Walk(t, path, full, off, h) == WalkBelow(n, rest, full, off, h)
      && (i < |t.path| ==> n.nType != Param && !n.wildChild && (rest != [] ==> rest[0] !in n.indices))
  {
    hide WalkBelow, WalkAfterSplit, NodeSize, Shape;
    var i := Lcp(path, t.path);
    RaisedShape(t, pre);
    LcpAtLeast(t, path);
    PrefixSplit(path[..i], path);
    if i < |t.path| {
      var n := Split(t, i, full[..off + i]);
      SplitRaised(t, i, full[..off + i], pre);
      SplitWalkBelow(n, path[i..], full, off, h);
    }
  }

  lemma KeepsThen(G: Tags, H: Tags, I: Tags, x: Node)
    requires Keeps(G, H, x) && Keeps(H, I, x)
    ensures Keeps(G, I, x) && I.Keys - G.Keys == (H.Keys - G.Keys) + (I.Keys - H.Keys)
  {
  }

  lemma KeepsSelf(G: Tags, x: Node)
    requires x in G
    ensures Keeps(G, G, x)
  {
  }

  lemma WalkableRoot(t: Tree, path: bytes)
    requires WF(t, []) && t.nType == Root && Head(t) == SLASH && path != [] && path[0] == SLASH
    ensures Walkable(Bump(t), path)
  {
  }

  lemma KeepsRetag(G: Tags, H: Tags, x: Node, t: Tree, u: Tree)
    requires Keeps(G, H, x) && G[x] == Tag(t, null)
    ensures Keeps(G[x := Tag(u, null)], H[x := Tag(u, null)], x) && H[x := Tag(u, null)].Keys == H.Keys
  {
  }

  lemma RootEmpty(t: Tree)
    requires RootOK(t)
    ensures t.path == [] && t.children == [] <==> EmptyRoot(t)
    ensures !EmptyRoot(t) ==> WF(t, []) && t.nType == Root && Head(t) == SLASH
  {
    if !EmptyRoot(t) { assert Formed(t, []); assert StaticShape(t); }
  }

  class Node {
    var path: bytes
    var indices: bytes
    var wildChild: bool
    var nType: NodeType
    var priority: nat
    var children: seq<Node>
    var handlers: Handlers
    var fullPath: bytes

    constructor (path: bytes, wildChild: bool, nType: NodeType, priority: nat, handlers: Handlers, fullPath: bytes)
      ensures this.path == path && this.wildChild == wildChild && this.nType == nType && this.priority == priority
      ensures this.handlers == handlers && this.fullPath == fullPath && indices == [] && children == []
    {
      this.path, this.wildChild, this.nType, this.priority := path, wildChild, nType, priority;
      this.handlers, this.fullPath, indices, children := handlers, fullPath, [], [];
    }

    /** The lower half of a split node: the fields of `n` from byte `i` of its path on. */
    constructor Lower(n: Node, i: nat)
      requires i <= |n.path| && n.priority > 0
      ensures path == n.path[i..] && wildChild == n.wildChild && nType == Static && priority == n.priority - 1
      ensures handlers == n.handlers && fullPath == n.fullPath && indices == n.indices && children == n.children
    {
      path, wildChild, nType, priority := n.path[i..], n.wildChild, Static, n.priority - 1;
      handlers, fullPath, indices, children := n.handlers, n.fullPath, n.indices, n.children;
    }

    /** The fields of this node, with the values of its children, are those of `t`. */
    ghost predicate Shows(t: Tree, G: Tags)
      reads this
    {
      && path == t.path && indices == t.indices && wildChild == t.wildChild && nType == t.nType
      && priority == t.priority && handlers == t.handlers && fullPath == t.fullPath
      && Kids(this, children, t.children, G)
    }

    method addChild(child: Node, ghost G: Tags, ghost t: Tree)
      requires Shows(t, G) && child in G && child != this && G[child].parent == this && child !in children
      modifies `children
      ensures Shows(AddChild(t, G[child].tree), G) && |children| == |old(children)| + 1
      ensures children[if wildChild && |old(children)| > 0 then |old(children)| - 1 else |old(children)|] == child
    {
      AppendKids(this, children, t, child, G);
      if wildChild && |children| > 0 {
        var wildcardChild := children[|children|-1];
        children := children[..|children|-1] + [child, wildcardChild];
      } else {
        children := children + [child];
      }
    }

    /** addChild for a node that is not tagged yet and gets the value `v`. */
    method adopt(child: Node, ghost G: Tags, ghost t: Tree, ghost v: Tree)
      requires Shows(t, G) && child !in G && child != this
      modifies `children
      ensures Shows(AddChild(t, v), G[child := Tag(v, this)]) && |children| == |old(children)| + 1
      ensures children[if wildChild && |old(children)| > 0 then |old(children)| - 1 else |old(children)|] == child
    {
      assert Kids(this, children, t.children, G[child := Tag(v, this)]);
      addChild(child, G[child := Tag(v, this)], t);
    }

    /** `children[pos].priority++`, with the value of that child. */
    method raise(pos: nat, ghost G: Tags, ghost t: Tree) returns (ghost G': Tags)
      requires Shows(t, G) && ValidBut(G, this) && pos < |children|
      modifies children[pos]
      ensures G' == G[children[pos] := Tag(Bump(t.children[pos]), this)]
      ensures children == old(children) && Shows(t.(children := t.children[pos := Bump(t.children[pos])]), G')
      ensures ValidBut(G', this)
    {
      var c := children[pos];
      assert c.Shows(G[c].tree, G);
      c.priority := c.priority + 1;
      ghost var b := Bump(t.children[pos]);
      G' := G[c := Tag(b, this)];
      RetagKid(this, children, t.children, G, pos, b);
      forall n | n in G && n != this ensures n.Shows(G'[n].tree, G') {
        RetagKids(n, n.children, if n == c then b.children else G[n].tree.children, G, this, c, b);
      }
    }

    /** The swap loop of incrementChildPrio. */
    static method moveForward(cs: seq<Node>, pos: nat, ghost ts: seq<Tree>) returns (moved: seq<Node>, newPos: nat)
      requires pos < |cs| && |ts| == |cs| && forall i :: 0 <= i < |cs| ==> cs[i].priority == ts[i].priority
      ensures newPos == RestPos(ts, pos, ts[pos].priority) && moved == Moved(cs, pos, newPos)
    {
      hide Moved;
      var prio := cs[pos].priority;
      moved, newPos := cs, pos;
      MovedInPlace(cs, pos);
      while newPos > 0 && moved[newPos-1].priority < prio
        invariant newPos <= pos && |moved| == |cs| && moved == Moved(cs, pos, newPos)
        invariant newPos > 0 ==> moved[newPos-1] == cs[newPos-1]
        invariant RestPos(ts, newPos, prio) == RestPos(ts, pos, prio)
      {
        SwapMoved(cs, pos, newPos);
        moved := moved[newPos-1 := moved[newPos]][newPos := moved[newPos-1]];
        newPos := newPos - 1;
        if newPos > 0 { SwapMoved(cs, pos, newPos); }
      }
    }

    method incrementChildPrio(pos: nat, ghost G: Tags, ghost t: Tree) returns (newPos: nat, ghost G': Tags)
      requires Shows(t, G) && ValidBut(G, this) && pos < |indices| && pos < |children|
      modifies this, children[pos]
      ensures G' == G[old(children[pos]) := Tag(Bump(t.children[pos]), this)]
      ensures Shows(IncPrio(t, pos).0, G') && newPos == IncPrio(t, pos).1 && ValidBut(G', this)
      ensures newPos < |children| && children[newPos] == old(children[pos])
    {
      hide IncPrio, Moved, Bump, RestPos;
      ghost var u := IncPrio(t, pos).0;
      ghost var ts := t.children[pos := Bump(t.children[pos])];
      IncPrioParts(t, pos);
      G' := raise(pos, G, t);
      assert forall i :: 0 <= i < |children| ==> children[i].Shows(ts[i], G');
      hide Kids;
      var cs;
      cs, newPos := moveForward(children, pos, ts);
      MovedKids(this, children, ts, G', pos, newPos);
      children := cs;
      if newPos != pos {
        indices := indices[..newPos] + indices[pos..pos+1] + indices[newPos..pos] + indices[pos+1..];
      }
      assert indices == u.indices by { MovedString(t.indices, pos, newPos); }
    }

    /** A param child for wildcard `w` at the front of `path`; it still lacks what follows `w`. */
    method insertParam(w: bytes, path: bytes, fullPath: bytes, ghost h: Handlers, ghost G: Tags, ghost t: Tree)
      returns (child: Node, ghost G': Tags)
      requires 0 < |w| <= |path| && this in G && Shows(t, G) && ValidBut(G, this)
      requires G[this].tree == AddChild(t, ParamChild(w, path, fullPath, h).tree).(wildChild := true)
      modifies this
      ensures child !in G && fresh(child) && G' == G[child := Tag(ParamChild(w, path, fullPath, h).tree, this)]
      ensures child.Shows(ParamNode(w, fullPath), G') && ValidBut(G', child)
    {
      hide Kids, AddChild, ParamChild;
      child := new Node(w, false, Param, 0, [], fullPath);
      G' := G[child := Tag(ParamChild(w, path, fullPath, h).tree, this)];
      adopt(child, G, t, G'[child].tree);
      wildChild := true;
      child.priority := child.priority + 1;
      NoKids(child, G');
      ExtendValid(G, this, child, G'[child]);
    }

    /** The empty static child behind a param node. */
    method insertEmpty(fullPath: bytes, ghost v: Tree, ghost G: Tags, ghost t: Tree)
      returns (child: Node, ghost G': Tags)
      requires this in G && Shows(t, G) && ValidBut(G, this) && !t.wildChild && t.children == []
      requires G[this].tree == t.(children := [v])
      modifies this
      ensures child !in G && fresh(child) && G' == G[child := Tag(v, this)]
      ensures child.Shows(Fresh(fullPath), G') && ValidBut(G', child)
    {
      hide Kids;
      child := new Node([], false, Static, 1, [], fullPath);
      G' := G[child := Tag(v, this)];
      assert [] + [v] == [v];
      adopt(child, G, t, v);
      NoKids(child, G');
      ExtendValid(G, this, child, G'[child]);
    }

    /** The first catch-all node, with an empty path; it still lacks its child. */
    method insertMid(fullPath: bytes, ghost v: Tree, ghost G: Tags, ghost t: Tree)
      returns (child: Node, ghost G': Tags)
      requires this in G && Shows(t, G) && ValidBut(G, this) && G[this].tree == AddChild(t, v).(indices := [SLASH])
      modifies this
      ensures child !in G && fresh(child) && G' == G[child := Tag(v, this)]
      ensures child.Shows(Tree([], [], true, CatchAll, 1, [], [], fullPath), G') && ValidBut(G', child)
    {
      hide Kids, AddChild;
      child := new Node([], true, CatchAll, 0, [], fullPath);
      G' := G[child := Tag(v, this)];
      adopt(child, G, t, v);
      indices := [SLASH];
      child.priority := child.priority + 1;
      NoKids(child, G');
      ExtendValid(G, this, child, G'[child]);
    }

    /** The second catch-all node, holding the variable. */
    method insertLeaf(path: bytes, fullPath: bytes, handlers: Handlers, ghost G: Tags, ghost t: Tree)
      returns (leaf: Node, ghost G': Tags)
      requires this in G && Shows(t, G) && ValidBut(G, this)
      requires var v := Tree(path, [], false, CatchAll, 1, [], handlers, fullPath); G[this].tree == t.(children := [v])
      modifies this
      ensures leaf !in G && fresh(leaf)
      ensures G' == G[leaf := Tag(Tree(path, [], false, CatchAll, 1, [], handlers, fullPath), this)]
      ensures ValidBut(G', null)
    {
      leaf := new Node(path, false, CatchAll, 1, handlers, fullPath);
      children := [leaf];
      ghost var v := Tree(path, [], false, CatchAll, 1, [], handlers, fullPath);
      G' := G[leaf := Tag(v, this)];
      OneKid(this, leaf, v, G);
      ExtendValid(G, this, leaf, G'[leaf]);
      NoKids(leaf, G');
      Settle(G', leaf);
    }

    /** `n.path = prefix`. */
    method trim(prefix: bytes, ghost G: Tags, ghost t: Tree)
      requires Shows(t, G) && ValidBut(G, this)
      modifies `path
      ensures path == prefix && Shows(t.(path := prefix), G) && ValidBut(G, this)
    {
      path := prefix;
    }

    /** The end of insertChild: path, handlers and fullPath of the last node. */
    method bind(path: bytes, handlers: Handlers, fullPath: bytes, ghost G: Tags, ghost t: Tree)
      requires Shows(t, G) && ValidBut(G, this) && this in G
      requires G[this].tree == t.(path := path, handlers := handlers, fullPath := fullPath)
      modifies this
      ensures ValidBut(G, null)
    {
      this.path, this.handlers, this.fullPath := path, handlers, fullPath;
      Settle(G, this);
    }

    /** The branch of insertChild for a `:` wildcard: returns the node that takes the rest of `path`. */
    method insertParams(w: bytes, path: bytes, fullPath: bytes, handlers: Handlers, ghost G: Tags, ghost t: Tree)
      returns (n: Node, ghost G': Tags)
      requires 0 < |w| <= |path| && this in G && Shows(t, G) && ValidBut(G, this)
      requires G[this].tree == AddChild(t, ParamChild(w, path, fullPath, handlers).tree).(wildChild := true)
      modifies this
      ensures Extends(G, G') && fresh(G'.Keys - G.Keys) && fresh(n) && n in G'
      ensures |w| < |path| ==>
        && ValidBut(G', n) && n.Shows(Fresh(fullPath), G')
        && G'[n].tree == InsertChild(Fresh(fullPath), path[|w|..], fullPath, handlers).tree
      ensures |w| == |path| ==> ValidBut(G', null)
    {
      hide Kids, AddChild, Extends, InsertChild, ParamChild;
      ParamCases(w, path, fullPath, handlers);
      ExtendsSelf(G);
      n, G' := insertParam(w, path, fullPath, handlers, G, t);
      ExtendsOne(G, G, n, G'[n]);
      if |w| < |path| {
        ghost var H := G';
        var child;
        child, G' := n.insertEmpty(fullPath, InsertChild(Fresh(fullPath), path[|w|..], fullPath, handlers).tree, H,
            ParamNode(w, fullPath));
        ExtendsOne(G, H, child, G'[child]);
        n := child;
      } else {
        n.handlers := handlers;
        Settle(G', n);
      }
    }

    /** The branch of insertChild for a `*` wildcard. */
    method insertCatchAll(path: bytes, fullPath: bytes, handlers: Handlers, ghost G: Tags, ghost t: Tree)
      returns (ghost G': Tags)
      requires this in G && Shows(t, G) && ValidBut(G, this)
      requires G[this].tree == AddChild(t, CatchAllNode(path, fullPath, handlers)).(indices := [SLASH])
      modifies this
      ensures Extends(G, G') && fresh(G'.Keys - G.Keys) && ValidBut(G', null)
    {
      hide Kids, AddChild, Extends;
      ghost var mid := CatchAllNode(path, fullPath, handlers);
      ExtendsSelf(G);
      var child, leaf;
      child, G' := insertMid(fullPath, mid, G, t);
      ExtendsOne(G, G, child, G'[child]);
      ghost var H := G';
      leaf, G' := child.insertLeaf(path, fullPath, handlers, H, mid.(children := []));
      ExtendsOne(G, H, leaf, G'[leaf]);
    }

    /** The end of insertChild where the first wildcard of `path` is a `*`: a catch-all, if it is well placed. */
    method insertStar(wildcard: bytes, i0: nat, path: bytes, fullPath: bytes, handlers: Handlers, ghost G: Tags,
            ghost t: Tree)
      returns (ok: bool, ghost G': Tags)
      requires FindWildcard(path) == Wildcard(wildcard, i0, true) && |wildcard| >= 2 && wildcard[0] != COLON
      requires this in G && Shows(t, G) && ValidBut(G, this)
      requires G[this].tree == InsertChild(t, path, fullPath, handlers).tree
      modifies this
      ensures ok == InsertChild(t, path, fullPath, handlers).ok
      ensures Extends(G, G') && fresh(G'.Keys - G.Keys) && ValidBut(G', null)
    {
      hide AddChild, Extends, InsertChild, Node.Shows, ValidBut, FindWildcard;
      InsertCases(t, path, fullPath, handlers);
      ExtendsSelf(G);
      var i: int := i0;
      if i + |wildcard| != |path| { SettleAt(G, this, t); return false, G; }
      assert this.path == t.path by { ShowsPath(this, t, G); }
      if |this.path| > 0 && this.path[|this.path|-1] == SLASH { SettleAt(G, this, t); return false, G; }
      i := i - 1;
      if i < 0 || path[i] != SLASH { SettleAt(G, this, t); return false, G; }
      trim(path[..i], G, t);
      G' := insertCatchAll(path[i..], fullPath, handlers, G, t.(path := path[..i]));
      return true, G';
    }

    /**
      Fills this node with `route`: `t` is what it shows on entry, and its value already is what
      insertChild makes of `t`. The result says whether the original returns instead of panicking.
     */
    method insertChild(route: bytes, fullPath: bytes, handlers: Handlers, ghost G: Tags, ghost t: Tree)
      returns (ok: bool, ghost G': Tags)
      requires NoEscape(route) && this in G && Shows(t, G) && ValidBut(G, this)
      requires G[this].tree == InsertChild(t, route, fullPath, handlers).tree
      modifies this
      ensures ok == InsertChild(t, route, fullPath, handlers).ok
      ensures Extends(G, G') && fresh(G'.Keys - G.Keys)
      ensures ValidBut(G', null)
    {
      hide AddChild, Extends, InsertChild, ParamChild, Node.Shows, ValidBut, FindWildcard;
      var n, path := this, route;
      ghost var cur := t;
      G' := G;
      ExtendsSelf(G);
      while true
        invariant NoEscape(path) && n in G' && n.Shows(cur, G') && ValidBut(G', n)
        invariant n == this || fresh(n)
        invariant Extends(G, G') && fresh(G'.Keys - G.Keys)
        invariant InsertChild(cur, path, fullPath, handlers) ==
          Outcome(InsertChild(t, route, fullPath, handlers).ok, G'[n].tree)
        decreases |path|
      {
        ghost var H := G';
        InsertCases(cur, path, fullPath, handlers);
        var wildcard, i, valid := findWildcard(path);
        if i < 0 { break; }
        if !valid || |wildcard| < 2 { SettleAt(G', n, cur); return false, G'; }
        if wildcard[0] == COLON {
          if i > 0 {
            n.trim(path[..i], H, cur);
            cur := cur.(path := path[..i]);
            path := path[i..];
          }
          ParamCases(wildcard, path, fullPath, handlers);
          n, G' := n.insertParams(wildcard, path, fullPath, handlers, H, cur);
          ExtendsOn(G, H, G');
          if |wildcard| < |path| {
            path, cur := path[|wildcard|..], Fresh(fullPath);
            continue;
          }
          return true, G';
        }
        ok, G' := n.insertStar(wildcard, i, path, fullPath, handlers, H, cur);
        ExtendsOn(G, H, G');
        return ok, G';
      }
      InsertCases(cur, path, fullPath, handlers);
      n.bind(path, handlers, fullPath, G', cur);
      return true, G';
    }

    /** Into child `pos`, whose priority rises and whose final value is `sub`. */
    method enter(pos: nat, ghost sub: Tree, ghost G: Tags, ghost t: Tree) returns (child: Node, ghost G': Tags)
      requires this in G && Shows(t, G) && ValidBut(G, this) && pos < |children|
      requires G[this].tree == t.(children := t.children[pos := sub])
      modifies children[pos]
      ensures child == children[pos] && child in G && child != this && G[child].parent == this
      ensures G' == G[child := Tag(sub, this)] && child.Shows(Bump(t.children[pos]), G') && ValidBut(G', child)
    {
      child := children[pos];
      ghost var b := Bump(t.children[pos]);
      ghost var H := raise(pos, G, t);
      RetagKid(this, children, t.children[pos := b], H, pos, sub);
      assert t.children[pos := b][pos := sub] == t.children[pos := sub];
      RetagChild(H, this, child, b, sub);
      G' := H[child := Tag(sub, this)];
      assert G' == G[child := Tag(sub, this)];
    }

    /** The same through incrementChildPrio, which may move the child. */
    method enterIndexed(pos: nat, ghost sub: Tree, ghost G: Tags, ghost t: Tree) returns (child: Node, ghost G': Tags)
      requires this in G && Shows(t, G) && ValidBut(G, this) && pos < |indices| && pos < |children|
      requires var (m, j) := IncPrio(t, pos); G[this].tree == m.(children := m.children[j := sub])
      modifies this, children[pos]
      ensures child == old(children[pos]) && child in G && child != this && G[child].parent == this
      ensures G' == G[child := Tag(sub, this)] && child.Shows(Bump(t.children[pos]), G') && ValidBut(G', child)
    {
      hide IncPrio;
      child := children[pos];
      ghost var b := Bump(t.children[pos]);
      ghost var m := IncPrio(t, pos).0;
      var newPos;
      ghost var H;
      newPos, H := incrementChildPrio(pos, G, t);
      RetagKid(this, children, m.children, H, newPos, sub);
      RetagChild(H, this, child, b, sub);
      G' := H[child := Tag(sub, this)];
      assert G' == G[child := Tag(sub, this)];
    }

    twostate lemma OthersUnchanged(G: Tags)
      requires old(ValidBut(G, this))
      requires forall n :: n in G && n != this ==> unchanged(n)
      ensures ValidBut(G, this)
    {
    }

    /** This node keeps the first `i` bytes of its path, and `child` as its only child. */
    method becomeUpper(i: nat, full: bytes, child: Node, ghost G: Tags)
      requires i < |path| && ValidBut(G, this)
      modifies this
      ensures path == old(path)[..i] && indices == [old(path)[i]] && children == [child] && handlers == [] && !wildChild
      ensures fullPath == full
      ensures nType == old(nType) && priority == old(priority)
      ensures ValidBut(G, this)
    {
      children, indices := [child], [path[i]];
      path, handlers, wildChild, fullPath := path[..i], [], false, full;
      OthersUnchanged(G);
    }

    /** Splits the edge into this node after `i` bytes. */
    method splitEdge(i: nat, full: bytes, ghost G: Tags, ghost t: Tree) returns (ghost G': Tags)
      requires this in G && Shows(t, G) && ValidBut(G, this) && i < |path| && priority > 0
      modifies this
      ensures G.Keys <= G'.Keys && fresh(G'.Keys - G.Keys) && Shows(Split(t, i, full), G') && ValidBut(G', this)
      ensures forall n :: n in G && G[n].parent != this ==> G'[n] == G[n]
      ensures forall n :: n in G && G[n].parent == this ==> G'[n].parent != null
    {
      hide Kids, ValidBut;
      ghost var c := t.(path := t.path[i..], nType := Static, priority := t.priority - 1);
      ghost var u := Split(t, i, full);
      assert u == Tree(t.path[..i], [t.path[i]], false, t.nType, t.priority, [c], [], full);
      var child := new Node.Lower(this, i);
      G' := SplitTags(G, this, child, t.children, c);
      hide Split;
      becomeUpper(i, full, child, G');
      assert Kids(this, children, u.children, G');
    }

    /** A new child for the first byte of `rest`; what insertChild makes of it is its value. */
    method newChild(rest: bytes, full: bytes, ghost h: Handlers, ghost G: Tags, ghost t: Tree)
      returns (child: Node, ghost G': Tags)
      requires this in G && Shows(t, G) && ValidBut(G, this) && rest != []
      requires |t.children| == |t.indices| + (if t.wildChild then 1 else 0)
      requires G[this].tree == NewChild(t, rest, full, h).tree
      modifies this
      ensures child !in G && fresh(child) && G' == G[child := Tag(InsertChild(Fresh(full), rest, full, h).tree, this)]
      ensures child.Shows(Fresh(full), G') && ValidBut(G', child)
    {
      hide AddChild, IncPrio, InsertChild, NewChild;
      NewChildSteps(t, rest, full, h);
      indices := indices + [rest[0]];
      child := new Node([], false, Static, 0, [], full);
      ghost var z := Fresh(full).(priority := 0);
      ghost var H := G[child := Tag(z, this)];
      ghost var u := t.(indices := indices);
      adopt(child, G, u, z);
      NewestValid(G, this, child, H);
      child, G' := enterIndexed(|indices| - 1, InsertChild(Fresh(full), rest, full, h).tree, H, AddChild(u, z));
    }

    /** Handlers and full path of a node whose path ends the new route. */
    method setHandlers(h: Handlers, full: bytes, ghost G: Tags, ghost t: Tree)
      requires Shows(t, G) && ValidBut(G, this) && this in G && G[this].tree == t.(handlers := h, fullPath := full)
      modifies this
      ensures ValidBut(G, null)
    {
      handlers, fullPath := h, full;
      Settle(G, this);
    }

    /** A new child for the first byte of `rest`, filled by insertChild. */
    method insertNew(rest: bytes, full: bytes, h: Handlers, ghost G: Tags, ghost t: Tree)
      returns (ok: bool, ghost G': Tags)
      requires this in G && Shows(t, G) && ValidBut(G, this) && rest != [] && NoEscape(rest)
      requires |t.children| == |t.indices| + (if t.wildChild then 1 else 0)
      requires G[this].tree == NewChild(t, rest, full, h).tree
      modifies this
      ensures ok == NewChild(t, rest, full, h).ok && Extends(G, G') && fresh(G'.Keys - G.Keys) && ValidBut(G', null)
    {
      hide AddChild, IncPrio, InsertChild, NewChild, Kids, Node.Shows, ValidBut;
      NewChildSteps(t, rest, full, h);
      var child;
      child, G' := newChild(rest, full, h, G, t);
      ghost var H := G';
      ok, G' := child.insertChild(rest, full, h, H, Fresh(full));
      ExtendsOn(G, H, G');
    }

    /** Into the existing wildcard child; the walk may go on there only if it is the same wildcard. */
    method enterWildcard(rest: bytes, full: bytes, off: nat, ghost h: Handlers, ghost G: Tags, ghost t: Tree)
      returns (matches: bool, next: Node, ghost G': Tags)
      requires this in G && Shows(t, G) && ValidBut(G, this) && |t.children| > 0 && off + |rest| <= |full|
      requires var last := |t.children| - 1; var b := Bump(t.children[last]);
        G[this].tree ==
          t.(children := t.children[last := if WildcardMatches(b, rest) then Walk(b, rest, full, off, h).tree else b])
      modifies this, children
      ensures var b := Bump(t.children[|t.children|-1]);
        && matches == WildcardMatches(b, rest)
        && next in G && next != this && G[next].parent == this
        && G' == G[next := Tag(if matches then Walk(b, rest, full, off, h).tree else b, this)]
        && (matches ==> next.Shows(b, G') && ValidBut(G', next))
        && (!matches ==> ValidBut(G', null))
    {
      var k := |children| - 1;
      ghost var b := Bump(t.children[k]);
      next, G' := enter(k, if WildcardMatches(b, rest) then Walk(b, rest, full, off, h).tree else b, G, t);
      matches := |rest| >= |next.path| && next.path == rest[..|next.path|] && next.nType != CatchAll
        && (|next.path| >= |rest| || rest[|next.path|] == SLASH);
      if !matches { Settle(G', next); }
    }

    /** The position of `c` in `indices`, or their length. */
    method indexOf(c: byte) returns (k: nat)
      ensures k <= |indices| && (k < |indices| ==> c in indices && IndexOf(indices, c) == k)
      ensures k == |indices| ==> c !in indices
    {
      k := 0;
      while k < |indices| && c != indices[k]
        invariant k <= |indices| && c !in indices[..k]
      {
        k := k + 1;
      }
      if k < |indices| { IndexFirst(indices, c, k); } else { assert indices[..k] == indices; }
    }

    /**
      The part of the walk below this node's own path, `rest` of the new path being left. Either the
      insertion is over (`done`, with `ok` false where the original panics), or it goes on in `next`,
      which shows `b`, with parentFullPathIndex `off'`.
     */
    method addBelow(rest: bytes, full: bytes, off: nat, h: Handlers, ghost G: Tags, ghost t: Tree, ghost pre: bytes)
      returns (done: bool, ok: bool, next: Node, off': nat, ghost b: Tree, ghost G': Tags)
      requires this in G && Shows(t, G) && ValidBut(G, this) && NoEscape(rest) && h != []
      requires Raised(t, pre) && Walkable(t, t.path + rest) && full == pre + (t.path + rest)
      requires off + |t.path + rest| <= |full|
      requires G[this].tree == WalkBelow(t, rest, full, off, h).tree
      modifies G.Keys
      ensures Keeps(G, G', this) && G.Keys <= G'.Keys && fresh(G'.Keys - G.Keys)
      ensures done ==> ok == WalkBelow(t, rest, full, off, h).ok && ValidBut(G', null)
      ensures t.nType != Param && !t.wildChild && (rest != [] ==> rest[0] !in t.indices) ==> done
      ensures !done ==>
        && next in G && next.Shows(b, G') && ValidBut(G', next) && G'[next].parent == this && next != this
        && rest != [] && Raised(b, pre + t.path) && Walkable(b, rest) && off' + |rest| <= |full|
        && full == (pre + t.path) + rest
        && G'[next].tree == Walk(b, rest, full, off', h).tree
        && WalkBelow(t, rest, full, off, h).ok == Walk(b, rest, full, off', h).ok
        && NodeSize(b) < NodeSize(t)
    {
      hide Raised, IncPrio, InsertChild, NewChild, AddChild, Walkable, NodeSize, Kids, WalkBelow, ValidBut, Keeps,
        Extends, Walk, WildcardMatches, Node.Shows;
      BelowCases(t, rest, full, off, h, pre);
      ShowsFields(this, t, G);
      ExtendsSelf(G); KeepsExtends(G, G, this);
      done, ok, next, off', b, G' := true, false, this, off, t, G;
      if rest == [] {
        if this.handlers != [] { SettleAt(G', this, t); return; }
        setHandlers(h, full, G, t);
        return true, true, this, off, t, G;
      }
      var c := rest[0];
      if nType == Param && c == SLASH && |children| == 1 {
        off' := off + |path|;
        b := Bump(t.children[0]);
        next, G' := enter(0, Walk(b, rest, full, off', h).tree, G, t);
        KeepsTag(G, this, next, G'[next].tree, this);
        return false, true, next, off', b, G';
      }
      var k := indexOf(c);
      if k < |indices| {
        off' := off + |path|;
        b := Bump(t.children[k]);
        next, G' := enterIndexed(k, Walk(b, rest, full, off', h).tree, G, t);
        KeepsTag(G, this, next, G'[next].tree, this);
        return false, true, next, off', b, G';
      }
      if c != COLON && c != STAR && nType != CatchAll {
        ok, G' := insertNew(rest, full, h, G, t);
        KeepsExtends(G, G', this);
        return true, ok, this, off, t, G';
      } else if wildChild {
        b := Bump(t.children[|t.children|-1]);
        ok, next, G' := enterWildcard(rest, full, off, h, G, t);
        KeepsTag(G, this, next, G'[next].tree, this);
        return !ok, ok, next, off, b, G';
      }
      ok, G' := insertChild(rest, full, h, G, t);
      KeepsExtends(G, G', this);
      return true, ok, this, off, t, G';
    }

    /** One turn of the walk: the common prefix, the split it may call for, and what lies below. */
    method walkTurn(path: bytes, full: bytes, off: nat, h: Handlers, ghost G: Tags, ghost t: Tree, ghost pre: bytes)
      returns (done: bool, ok: bool, next: Node, rest: bytes, off': nat, ghost b: Tree, ghost G': Tags)
      requires this in G && Shows(t, G) && ValidBut(G, this) && G[this].parent != this && NoEscape(path) && h != []
      requires Raised(t, pre) && Walkable(t, path) && full == pre + path && off + |path| <= |full|
      requires G[this].tree == Walk(t, path, full, off, h).tree
      modifies G.Keys
      ensures Keeps(G, G', this) && G.Keys <= G'.Keys && fresh(G'.Keys - G.Keys)
      ensures done ==> ok == Walk(t, path, full, off, h).ok && ValidBut(G', null)
      ensures !done ==>
        && next in G' && next.Shows(b, G') && ValidBut(G', next) && G'[next].parent == this && next != this
        && |rest| <= |path| && NoEscape(rest) && full == full[..|full| - |rest|] + rest
        && Raised(b, full[..|full| - |rest|]) && Walkable(b, rest) && off' + |rest| <= |full|
        && G'[next].tree == Walk(b, rest, full, off', h).tree
        && Walk(t, path, full, off, h).ok == Walk(b, rest, full, off', h).ok
        && NodeSize(b) < NodeSize(t)
    {
      hide ValidBut, Keeps, Kids, Walk, InsertChild, WalkBelow, WalkAfterSplit, Walkable, Raised, Split, WF;
      ghost var H, u := G, t;
      var i := longestCommonPrefix(path, this.path);
      WalkCases(t, path, full, off, pre, h);
      KeepsSelf(G, this);
      if i < |this.path| {
        H := splitEdge(i, full[..off+i], G, t);
        u := Split(t, i, full[..off+i]);
        KeepsSplit(G, H, this);
      }
      rest := path[i..];
      done, ok, next, off', b, G' := addBelow(rest, full, off, h, H, u, pre);
      KeepsThen(G, H, G', this);
      assert (pre + u.path) + rest == full && full[..|full| - |rest|] == pre + u.path;
    }

    /** `n.priority++` at the root. */
    method raiseRoot(ghost G: Tags)
      requires ValidBut(G, null) && this in G
      modifies this
      ensures ValidBut(G, this) && Shows(Bump(G[this].tree), G)
      ensures |children| == |G[this].tree.children|
    {
      assert Shows(G[this].tree, G);
      priority := priority + 1;
    }

    /** `n.nType = root`. */
    method makeRoot(ghost G: Tags) returns (ghost G': Tags)
      requires ValidBut(G, null) && this in G && G[this].parent == null
      modifies this
      ensures G' == G[this := Tag(G[this].tree.(nType := Root), null)] && ValidBut(G', null)
    {
      assert Shows(G[this].tree, G);
      ghost var u := G[this].tree.(nType := Root);
      nType := Root;
      RetagRoot(G, this, u);
      G' := G[this := Tag(u, null)];
      Settle(G', this);
    }

    /** The first route of an empty tree. */
    method addFirst(route: bytes, handlers: Handlers, ghost G: Tags) returns (ok: bool, ghost G': Tags)
      requires this in G && ValidBut(G, this) && G[this].parent == null && Shows(Bump(G[this].tree), G)
      requires EmptyRoot(G[this].tree) && NoEscape(route)
      modifies this
      ensures var r := AddRoute(G[this].tree, route, handlers);
        && ok == r.ok && Keeps(G[this := Tag(r.tree, null)], G', this)
      ensures G.Keys <= G'.Keys && fresh(G'.Keys - G.Keys) && ValidBut(G', null)
    {
      hide Kids, InsertChild, ValidBut, Extends, Keeps;
      ghost var t := G[this].tree;
      ghost var r := InsertChild(Bump(t), route, route, handlers);
      RetagRoot(G, this, r.tree);
      ghost var H := G[this := Tag(r.tree, null)];
      ok, G' := insertChild(route, route, handlers, H, Bump(t));
      KeepsExtends(H, G', this);
      if ok {
        ghost var I := G';
        G' := makeRoot(I);
        KeepsRetag(H, I, this, r.tree, r.tree.(nType := Root));
        assert H[this := G'[this]] == G[this := G'[this]];
      }
    }

    /** Inserts a route into the tree whose root this is; false where the original panics. */
    method addRoute(route: bytes, handlers: Handlers, ghost G: Tags) returns (ok: bool, ghost G': Tags)
      requires this in G && ValidBut(G, null) && G[this].parent == null && RootOK(G[this].tree)
      requires NoEscape(route) && route != [] && route[0] == SLASH && handlers != []
      modifies G.Keys
      ensures var r := AddRoute(G[this].tree, route, handlers);
        && ok == r.ok && Keeps(G[this := Tag(r.tree, null)], G', this)
      ensures fresh(G'.Keys - G.Keys) && ValidBut(G', null)
    {
      hide ValidBut, Keeps, Kids, Walk, InsertChild, WalkBelow, WalkAfterSplit, Walkable, Raised, Split, WF;
      ghost var t := G[this].tree;
      var fullPath := route;
      raiseRoot(G);
      RootEmpty(t);
      if |path| == 0 && |children| == 0 {
        ok, G' := addFirst(route, handlers, G);
        return;
      }
      var n: Node, path: bytes, off: nat := this, route, 0;
      ghost var cur, pre := Bump(t), [];
      ghost var H := G[this := Tag(Walk(cur, route, route, 0, handlers).tree, null)];
      BumpRaises(t, []);
      RetagRoot(G, this, H[this].tree);
      G' := H;
      KeepsSelf(H, this);
      assert [] + route == route;
      assert Walkable(cur, route) by { WalkableRoot(t, route); }
      while true
        invariant Keeps(H, G', this) && H.Keys <= G'.Keys && fresh(G'.Keys - G.Keys)
        invariant n in G' && n.Shows(cur, G') && ValidBut(G', n) && G'[n].parent != n
        invariant NoEscape(path) && Raised(cur, pre) && Walkable(cur, path) && fullPath == pre + path
        invariant off + |path| <= |fullPath|
        invariant G'[n].tree == Walk(cur, path, fullPath, off, handlers).tree
        invariant Walk(cur, path, fullPath, off, handlers).ok == AddRoute(t, route, handlers).ok
        decreases NodeSize(cur)
      {
        ghost var I, b, n0 := G', cur, n;
        var done, rest;
        done, ok, n, rest, off, b, G' := n.walkTurn(path, fullPath, off, handlers, I, cur, pre);
        KeepsOn(H, I, G', this, n0);
        if done { return; }
        path, pre, cur := rest, fullPath[..|fullPath| - |rest|], b;
      }
    }
  }

  lemma IndexFirst(s: bytes, c: byte, k: nat)
    requires k < |s| && s[k] == c && c !in s[..k]
    ensures IndexOf(s, c) == k
  {
    var j := IndexOf(s, c);
    InPrefix(s, j, k); InPrefix(s, k, j);
  }

  lemma InPrefix(s: bytes, j: nat, k: nat)
    requires j < |s| && k <= |s|
    ensures j < k ==> s[j] in s[..k]
  {
    if j < k { assert s[..k][j] == s[j]; }
  }
}
