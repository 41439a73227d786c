/** What a lookup knows about the node it stands at, and what one step makes of it. */
module RouteLookup {
  import opened Bytes
  import opened RouteTree
  import opened RouteInsert
  import opened RouteMatch

  /** `fullPath` is registered for `h`, and with the bindings `ps` it spells `req`. */
  ghost predicate Found(root: Tree, fullPath: bytes, h: Handlers, ps: seq<Binding>, req: bytes) {
    Get(root, fullPath) == h && Matches(fullPath, ps, req)
  }

  /**
    `t` is the subtree of `root` at the pattern prefix `pre`, which `ps` has matched with `used`,
    the part of the request consumed so far.
   */
  ghost predicate Located(root: Tree, t: Tree, pre: bytes, ps: seq<Binding>, used: bytes) {
    && (Formed(t, pre) || EmptyRoot(t))
    && (forall q :: Get(t, q) != [] ==> Get(root, pre + q) == Get(t, q))
    && STAR !in pre && (Open(pre) ==> Head(t) == SLASH)
    && Matches(pre, ps, used)
  }

  lemma GetHead(t: Tree, pre: bytes, q: bytes)
    requires Formed(t, pre) && Get(t, q) != []
    ensures q != [] && q[0] == Head(t)
  {
    if t.path == [] && q != [] {
      assert t.path + q == q;
      if t.nType == CatchAll { CatchAllHead(t.children[0], pre + t.path); }
    }
  }

  lemma CatchAllHead(t: Tree, pre: bytes)
    requires WF(t, pre) && t.nType == CatchAll
    ensures Head(t) == SLASH
  {
    assert Formed(t, pre);
  }

  lemma OpenJoin(pre: bytes, s: bytes)
    requires Plain(s) && Open(pre + s)
    ensures Open(pre) && SLASH !in s
  {
    var p := pre + s;
    var i :| 0 <= i < |p| && p[i] == COLON && SLASH !in p[i..];
    assert forall j :: |pre| <= j < |p| ==> p[j] == s[j - |pre|];
    assert p[i..] == pre[i..] + s;
    assert pre[i] == COLON && SLASH !in pre[i..];
  }

  /** Into a child below a node whose path the request spelled out. */
  lemma LocatedChild(root: Tree, t: Tree, pre: bytes, ps: seq<Binding>, used: bytes, k: nat)
    requires Located(root, t, pre, ps, used) && k < |t.children| && t.nType != Param && !IsLeaf(t)
    ensures Located(root, t.children[k], pre + t.path, ps, used + t.path)
  {
    hide Matches, Open;
    assert WF(t.children[k], pre + t.path) && Shape(t);
    LocatedPath(t, pre, ps, used);
    BoundBelow(root, t, pre, k);
    if Open(pre + t.path) {
      OpenJoin(pre, t.path);
      OpenChild(t, pre, k);
    }
  }

  lemma BoundBelow(root: Tree, t: Tree, pre: bytes, k: nat)
    requires Formed(t, pre) && k < |t.children|
    requires forall q :: Get(t, q) != [] ==> Get(root, pre + q) == Get(t, q)
    ensures forall q :: Get(t.children[k], q) != [] ==> Get(root, pre + t.path + q) == Get(t.children[k], q)
  {
    hide Get;
    forall q | Get(t.children[k], q) != [] ensures Get(root, pre + t.path + q) == Get(t.children[k], q) {
      GetBelow(t, pre, k, q);
      assert pre + t.path + q == pre + (t.path + q);
    }
  }

  lemma GetBelow(t: Tree, pre: bytes, k: nat, q: bytes)
    requires Formed(t, pre) && k < |t.children| && Get(t.children[k], q) != []
    ensures Get(t, t.path + q) == Get(t.children[k], q)
  {
    assert WF(t.children[k], pre + t.path);
    ShapeDistinctHeads(t);
    GetHead(t.children[k], pre + t.path, q);
    GetVia(t, k, q);
  }

  /** Every subtree holds a route. */
  lemma {:induction false} SomeRoute(t: Tree, pre: bytes) returns (p: bytes)
    requires Formed(t, pre) && Count(t) >= 1
    ensures Get(t, p) != [] && t.path <= p
    decreases t
  {
    if t.handlers != [] {
      p := t.path;
    } else {
      assert CountAll(t.children) >= 1;
      var q := SomeRoute(t.children[0], pre + t.path);
      GetBelow(t, pre, 0, q);
      p := t.path + q;
    }
  }

  lemma OpenChild(t: Tree, pre: bytes, k: nat)
    requires Formed(t, pre) && t.nType != Param && !IsLeaf(t) && Head(t) == SLASH && SLASH !in t.path
    requires k < |t.children|
    ensures Head(t.children[k]) == SLASH
  {
    assert WF(t.children[k], pre + t.path);
    assert t.path == [];
    if t.children[k].nType == CatchAll { CatchAllHead(t.children[k], pre + t.path); }
  }

  lemma LocatedPath(t: Tree, pre: bytes, ps: seq<Binding>, used: bytes)
    requires Shape(t) && t.nType != Param && !IsLeaf(t)
    requires STAR !in pre && (Open(pre) ==> Head(t) == SLASH) && Matches(pre, ps, used)
    ensures Matches(pre + t.path, ps, used + t.path) && STAR !in t.path && Plain(t.path)
  {
    PlainMatches(t.path, [], t.path);
    MatchesJoin(pre, t.path, ps, [], used, t.path);
    assert ps + [] == ps;
  }

  lemma FoundHere(root: Tree, t: Tree, pre: bytes, ps: seq<Binding>, used: bytes)
    requires Located(root, t, pre, ps, used) && t.nType != Param && t.nType != CatchAll && t.handlers != []
    ensures Found(root, t.fullPath, t.handlers, ps, used + t.path)
  {
    LocatedPath(t, pre, ps, used);
    assert Get(t, t.path) == t.handlers;
  }

  /** Past a param child: its value is a stretch without slashes. */
  lemma LocatedParam(root: Tree, t: Tree, pre: bytes, ps: seq<Binding>, used: bytes, val: bytes)
    requires Located(root, t, pre, ps, used) && t.nType == Param && SLASH !in val
    ensures var qs := ps + [Binding(t.path[1..], val)];
      && (|t.children| > 0 ==> Located(root, t.children[0], pre + t.path, qs, used + val))
      && (t.handlers != [] ==> Found(root, t.fullPath, t.handlers, qs, used + val))
  {
    var qs := ps + [Binding(t.path[1..], val)];
    hide Open;
    assert Matches(pre + t.path, qs, used + val) && STAR !in t.path by {
      ParamPath(t, pre, ps, used, val);
    }
    if |t.children| > 0 {
      assert WF(t.children[0], pre + t.path);
      BoundBelow(root, t, pre, 0);
    }
    if t.handlers != [] { assert Get(t, t.path) == t.handlers; }
  }

  lemma ParamPath(t: Tree, pre: bytes, ps: seq<Binding>, used: bytes, val: bytes)
    requires ParamShape(t) && SLASH !in val
    requires STAR !in pre && (Open(pre) ==> Head(t) == SLASH) && Matches(pre, ps, used)
    ensures Matches(pre + t.path, ps + [Binding(t.path[1..], val)], used + val) && STAR !in t.path
  {
    var b := Binding(t.path[1..], val);
    SegEndAll(t.path[1..]);
    assert t.path[|t.path|..] == [] && [b][1..] == [] && val[|val|..] == [];
    assert Matches(t.path, [b], val);
    assert forall i :: 1 <= i < |t.path| ==> t.path[i] == t.path[1..][i-1];
    MatchesJoin(pre, t.path, ps, [b], used, val);
  }

  lemma SegEndAll(s: bytes)
    requires SLASH !in s
    ensures SegEnd(s) == |s|
  {
  }

  /** The variable of a catch-all takes the rest of the request. */
  lemma FoundCatchAll(root: Tree, t: Tree, pre: bytes, ps: seq<Binding>, used: bytes, val: bytes)
    requires Located(root, t, pre, ps, used) && IsLeaf(t) && val != [] && val[0] == SLASH
    ensures Found(root, t.fullPath, t.handlers, ps + [Binding(t.path[2..], val)], used + val)
  {
    var b := Binding(t.path[2..], val);
    assert Matches(t.path, [b], val);
    MatchesJoin(pre, t.path, ps, [b], used, val);
    assert Get(t, t.path) == t.handlers;
  }

  /** A registered wildcard-free route is found among the static children, whatever wildcards there are. */
  lemma PlainChild(t: Tree, pre: bytes, q: bytes, k: nat)
    requires Formed(t, pre) && (t.nType == Static || t.nType == Root) && q != [] && Plain(q)
    requires Get(t, t.path + q) != []
    ensures q[0] in t.indices
    ensures k < |t.indices| && t.indices[k] == q[0] ==>
      t.children[k].nType == Static && Get(t.children[k], q) == Get(t, t.path + q)
  {
    ShapeDistinctHeads(t);
    if forall i :: 0 <= i < |t.children| ==> Head(t.children[i]) != q[0] { GetNowhere(t, q); }
    var j :| 0 <= j < |t.children| && Head(t.children[j]) == q[0];
    GetVia(t, j, q);
    StaticHead(t, j, q[0]);
    hide Get;
    assert WF(t.children[j], pre + t.path);
    if IsMid(t.children[j]) { MidMarks(t.children[j], pre + t.path, q); }
    if k < |t.indices| && t.indices[k] == q[0] { SameIndex(t, j, k); }
  }

  lemma StaticHead(t: Tree, j: nat, c: byte)
    requires Shape(t) && (t.nType == Static || t.nType == Root) && j < |t.children| && Head(t.children[j]) == c
    requires !Mark(c)
    ensures j < |t.indices| && t.indices[j] == c && (t.children[j].nType == Static || IsMid(t.children[j]))
  {
    assert StaticShape(t);
  }

  lemma SameIndex(t: Tree, j: nat, k: nat)
    requires Shape(t) && (t.nType == Static || t.nType == Root)
    requires j < |t.indices| && k < |t.indices| && t.indices[j] == t.indices[k]
    ensures j == k
  {
    assert StaticShape(t);
  }

  lemma MidMarks(t: Tree, pre: bytes, q: bytes)
    requires WF(t, pre) && IsMid(t) && Get(t, q) != []
    ensures !Plain(q)
  {
    assert Formed(t, pre);
    var leaf := t.children[0];
    assert WF(leaf, pre + t.path);
    assert Formed(leaf, pre + t.path);
    assert t.path + q == q;
    assert leaf.path <= q && Mark(q[1]);
  }
}
