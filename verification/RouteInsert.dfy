/** What addRoute does to the map a tree stands for, and to its shape. */
module RouteInsert {
  import opened Bytes
  import opened RouteTree

  // ---------------------------------------------------------------- counting

  lemma CountAllAppend(a: seq<Tree>, b: seq<Tree>)
    ensures CountAll(a + b) == CountAll(a) + CountAll(b)
  {
    if b == [] {
      assert a + b == a;
    } else {
      var k := |b| - 1;
      assert (a + b)[..|a + b| - 1] == a + b[..k];
      CountAllAppend(a, b[..k]);
    }
  }

  lemma CountAllOne(c: Tree)
    ensures CountAll([c]) == Count(c)
  {
    assert [c][..0] == [];
  }

  lemma CountAllThree(a: seq<Tree>, c: Tree, b: seq<Tree>)
    ensures CountAll(a + [c] + b) == CountAll(a) + Count(c) + CountAll(b)
  {
    CountAllAppend(a + [c], b);
    CountAllAppend(a, [c]);
    CountAllOne(c);
  }

  lemma CountAllUpdate(cs: seq<Tree>, k: nat, c: Tree)
    requires k < |cs|
    ensures CountAll(cs[k := c]) == CountAll(cs) - Count(cs[k]) + Count(c)
  {
    var a, b := cs[..k], cs[k+1..];
    assert cs == a + [cs[k]] + b;
    assert cs[k := c] == a + [c] + b;
    CountAllThree(a, c, b);
    CountAllThree(a, cs[k], b);
  }

  lemma MovedParts<T>(s: seq<T>, pos: nat, to: nat)
    requires to <= pos < |s|
    ensures s == (s[..to] + s[to..pos]) + [s[pos]] + s[pos+1..]
    ensures Moved(s, pos, to) == s[..to] + [s[pos]] + (s[to..pos] + s[pos+1..])
  {
  }

  lemma CountAllMoved(cs: seq<Tree>, pos: nat, to: nat)
    requires to <= pos < |cs|
    ensures CountAll(Moved(cs, pos, to)) == CountAll(cs)
  {
    MovedParts(cs, pos, to);
    var a, c, m, b := cs[..to], cs[pos], cs[to..pos], cs[pos+1..];
    CountAllThree(a + m, c, b);
    CountAllAppend(a, m);
    assert CountAll(cs) == CountAll(a) + CountAll(m) + Count(c) + CountAll(b);
    CountAllThree(a, c, m + b);
    CountAllAppend(m, b);
  }

  // ---------------------------------------------------------------- the map, child by child

  predicate DistinctHeads(cs: seq<Tree>) {
    forall i, j :: 0 <= i < j < |cs| ==> Head(cs[i]) != Head(cs[j])
  }

  lemma ShapeDistinctHeads(t: Tree)
    requires Shape(t)
    ensures DistinctHeads(t.children)
  {
    if t.nType == Static || t.nType == Root {
      assert StaticShape(t);
    }
  }

  lemma GetVia(t: Tree, k: nat, q: bytes)
    requires DistinctHeads(t.children)
    requires k < |t.children| && q != [] && Head(t.children[k]) == q[0]
    ensures Get(t, t.path + q) == Get(t.children[k], q)
  {
    assert (t.path + q)[|t.path|..] == q;
    assert ChildFor(t.children, q[0]) == k;
  }

  lemma GetNowhere(t: Tree, q: bytes)
    requires q != [] && forall i :: 0 <= i < |t.children| ==> Head(t.children[i]) != q[0]
    ensures Get(t, t.path + q) == []
  {
    assert (t.path + q)[|t.path|..] == q;
  }

  lemma PrefixSplit(p: bytes, q: bytes)
    requires p <= q
    ensures q == p + q[|p|..]
  {
  }

  /** `u` binds the fresh route `path` to `h` and is `t` everywhere else. */
  ghost predicate Adds(t: Tree, u: Tree, path: bytes, h: Handlers) {
    && Get(t, path) == []
    && forall p :: Get(u, p) == if p == path then h else Get(t, p)
  }

  /** Replacing child `k` by a child that gained a route, in any order of the children. */
  lemma ReplaceAdds(t: Tree, u: Tree, k: nat, j: nat, rest: bytes, h: Handlers)
    requires t.path == u.path && t.handlers == u.handlers
    requires DistinctHeads(t.children) && DistinctHeads(u.children)
    requires k < |t.children| && j < |u.children| && rest != []
    requires Head(t.children[k]) == Head(u.children[j]) == rest[0]
    requires forall i :: 0 <= i < |t.children| && i != k ==> t.children[i] in u.children
    requires forall i :: 0 <= i < |u.children| && i != j ==> u.children[i] in t.children
    requires Adds(t.children[k], u.children[j], rest, h)
    ensures Adds(t, u, t.path + rest, h)
  {
    GetVia(t, k, rest);
    forall i | 0 <= i < |u.children| && Head(u.children[i]) != rest[0] ensures u.children[i] in t.children { }
    forall p ensures Get(u, p) == if p == t.path + rest then h else Get(t, p) {
      if t.path <= p && |p| > |t.path| {
        var q := p[|t.path|..];
        PrefixSplit(t.path, p);
        if q[0] == rest[0] {
          GetVia(t, k, q);
          GetVia(u, j, q);
        } else {
          SameElsewhere(t, u, rest[0], q);
        }
      }
    }
  }

  /** Nodes that differ only in the child for `c` have the same routes under other bytes. */
  lemma SameElsewhere(t: Tree, u: Tree, c: byte, q: bytes)
    requires t.path == u.path && q != [] && q[0] != c && DistinctHeads(t.children) && DistinctHeads(u.children)
    requires forall i :: 0 <= i < |t.children| && Head(t.children[i]) != c ==> t.children[i] in u.children
    requires forall i :: 0 <= i < |u.children| && Head(u.children[i]) != c ==> u.children[i] in t.children
    ensures Get(u, t.path + q) == Get(t, t.path + q)
  {
    if i :| 0 <= i < |t.children| && Head(t.children[i]) == q[0] {
      var i' :| 0 <= i' < |u.children| && u.children[i'] == t.children[i];
      GetVia(t, i, q);
      GetVia(u, i', q);
    } else {
      GetNowhere(t, q);
      forall i | 0 <= i < |u.children| ensures Head(u.children[i]) != q[0] {
        if Head(u.children[i]) != c { assert u.children[i] in t.children; }
      }
      GetNowhere(u, q);
    }
  }

  /** Adding a child under a head that was free. */
  lemma NewChildAdds(t: Tree, u: Tree, j: nat, rest: bytes, h: Handlers)
    requires t.path == u.path && t.handlers == u.handlers && rest != []
    requires DistinctHeads(t.children) && DistinctHeads(u.children)
    requires j < |u.children| && Head(u.children[j]) == rest[0]
    requires forall i :: 0 <= i < |t.children| ==> t.children[i] in u.children && Head(t.children[i]) != rest[0]
    requires forall i :: 0 <= i < |u.children| && i != j ==> u.children[i] in t.children
    requires forall p :: Get(u.children[j], p) == if p == rest then h else []
    ensures Adds(t, u, t.path + rest, h)
  {
    GetNowhere(t, rest);
    forall i | 0 <= i < |u.children| && Head(u.children[i]) != rest[0] ensures u.children[i] in t.children { }
    forall p ensures Get(u, p) == if p == t.path + rest then h else Get(t, p) {
      if t.path <= p && |p| > |t.path| {
        var q := p[|t.path|..];
        PrefixSplit(t.path, p);
        if q[0] == rest[0] {
          GetNowhere(t, q);
          GetVia(u, j, q);
        } else {
          SameElsewhere(t, u, rest[0], q);
        }
      }
    }
  }

  // ---------------------------------------------------------------- insertChild

  ghost predicate OnlyRoute(t: Tree, path: bytes, h: Handlers) {
    forall p :: Get(t, p) == if p == path then h else []
  }

  lemma CatchAllNodeWF(path: bytes, pre: bytes, h: Handlers)
    requires h != [] && |path| >= 3 && path[0] == SLASH && path[1] == STAR && Name(path[2..])
    ensures WF(CatchAllNode(path, pre + path, h), pre) && Count(CatchAllNode(path, pre + path, h)) == 1
    ensures OnlyRoute(CatchAllNode(path, pre + path, h), path, h)
  {
    var mid := CatchAllNode(path, pre + path, h);
    var leaf := mid.children[0];
    assert mid.children == [leaf];
    CountAllOne(leaf);
    assert CountAll(leaf.children) == 0;
    assert pre + mid.path == pre;
    assert WF(leaf, pre);
    forall p ensures Get(mid, p) == if p == path then h else [] {
      if p != [] {
        assert mid.path + p == p;
        if p[0] == SLASH {
          GetVia(mid, 0, p);
          if leaf.path <= p && p != path { GetNowhere(leaf, p[|path|..]); PrefixSplit(path, p); }
        } else { GetNowhere(mid, p); }
      }
    }
  }

  /** insertChild on a node just created: the whole chain of nodes for `path`. */
  lemma InsertFresh(path: bytes, pre: bytes, f: bytes, h: Handlers)
    requires path != [] && !Mark(path[0]) && h != []
    requires InsertChild(Fresh(f), path, pre + path, h).ok
    ensures var t := InsertChild(Fresh(f), path, pre + path, h).tree;
      && WF(t, pre) && Count(t) == 1 && t.nType == Static && Head(t) == path[0] && OnlyRoute(t, path, h)
    decreases |path|, 1
  {
    var full := pre + path;
    match FindWildcard(path)
    case NoWildcard =>
      var t := InsertChild(Fresh(f), path, full, h).tree;
      assert CountAll(t.children) == 0;
      forall p ensures Get(t, p) == if p == path then h else [] {
        if path <= p && p != path { PrefixSplit(path, p); GetNowhere(t, p[|path|..]); }
      }
    case Wildcard(w, i, valid) =>
      if w[0] == COLON { InsertFreshParam(path, pre, f, h); } else { InsertFreshCatchAll(path, pre, f, h); }
  }

  lemma InsertFreshParam(path: bytes, pre: bytes, f: bytes, h: Handlers)
    requires path != [] && !Mark(path[0]) && h != []
    requires FindWildcard(path).Wildcard? && FindWildcard(path).name[0] == COLON
    requires InsertChild(Fresh(f), path, pre + path, h).ok
    ensures var t := InsertChild(Fresh(f), path, pre + path, h).tree;
      && WF(t, pre) && Count(t) == 1 && t.nType == Static && Head(t) == path[0] && OnlyRoute(t, path, h)
    decreases |path|, 0
  {
    var full := pre + path;
    var t := InsertChild(Fresh(f), path, full, h).tree;
    var Wildcard(w, i, valid) := FindWildcard(path);
    var rest := path[i..];
    PrefixSplit(path[..i], path);
    assert full == (pre + path[..i]) + rest;
    assert Plain(path[..i]) && i > 0;
    InsertParam(w, rest, pre + path[..i], h);
    var sub := ParamChild(w, rest, full, h).tree;
    assert t == Fresh(f).(path := path[..i], children := [sub], wildChild := true);
    hide FindWildcard, InsertChild, ParamChild;
    ParamBelow(t, sub, path[..i], pre, f);
    SingleChild(t, sub, path[..i], rest, h);
  }

  /** A static node above a param node. */
  lemma ParamBelow(t: Tree, sub: Tree, a: bytes, pre: bytes, f: bytes)
    requires t == Fresh(f).(path := a, children := [sub], wildChild := true) && a != [] && Plain(a)
    requires WF(sub, pre + a) && Count(sub) == 1 && sub.nType == Param && Head(sub) == COLON
    ensures WF(t, pre) && Count(t) == 1 && t.nType == Static && Head(t) == a[0]
  {
    CountAllOne(sub);
  }

  lemma InsertFreshCatchAll(path: bytes, pre: bytes, f: bytes, h: Handlers)
    requires path != [] && h != []
    requires FindWildcard(path).Wildcard? && FindWildcard(path).name[0] == STAR
    requires InsertChild(Fresh(f), path, pre + path, h).ok
    ensures var t := InsertChild(Fresh(f), path, pre + path, h).tree;
      && WF(t, pre) && Count(t) == 1 && t.nType == Static && Head(t) == path[0] && OnlyRoute(t, path, h)
  {
    var i := FindWildcard(path).at - 1;
    var a, rest := path[..i], path[i..];
    PrefixSplit(a, path);
    assert rest[2..] == FindWildcard(path).name[1..];
    assert a == path[..i + 1][..i];
    CatchAllBranch(a, rest, pre, f, h);
  }

  lemma CatchAllBranch(a: bytes, rest: bytes, pre: bytes, f: bytes, h: Handlers)
    requires Plain(a) && h != []
    requires |rest| >= 3 && rest[0] == SLASH && rest[1] == STAR && Name(rest[2..])
    ensures var full := pre + (a + rest);
      var t := Fresh(f).(path := a, children := [CatchAllNode(rest, full, h)], indices := [SLASH]);
      && WF(t, pre) && Count(t) == 1 && OnlyRoute(t, a + rest, h)
  {
    var full := pre + (a + rest);
    assert full == (pre + a) + rest;
    CatchAllNodeWF(rest, pre + a, h);
    var mid := CatchAllNode(rest, full, h);
    CountAllOne(mid);
    SingleChild(Fresh(f).(path := a, children := [mid], indices := [SLASH]), mid, a, rest, h);
  }

  lemma SingleChild(t: Tree, c: Tree, a: bytes, rest: bytes, h: Handlers)
    requires t.children == [c] && t.path == a && t.handlers == []
    requires rest != [] && Head(c) == rest[0] && OnlyRoute(c, rest, h)
    ensures OnlyRoute(t, a + rest, h)
  {
    forall p ensures Get(t, p) == if p == a + rest then h else [] {
      if a <= p && p != a {
        PrefixSplit(a, p);
        var q := p[|a|..];
        if q[0] == rest[0] { GetVia(t, 0, q); } else { GetNowhere(t, q); }
      }
    }
  }

  lemma InsertParam(w: bytes, path: bytes, pre: bytes, h: Handlers)
    requires h != [] && |w| >= 2 && w[0] == COLON && Name(w[1..])
    requires w <= path && (|w| < |path| ==> path[|w|] == SLASH)
    requires ParamChild(w, path, pre + path, h).ok
    ensures var t := ParamChild(w, path, pre + path, h).tree;
      && WF(t, pre) && Count(t) == 1 && t.nType == Param && Head(t) == COLON && OnlyRoute(t, path, h)
    decreases |path|, 0
  {
    var full := pre + path;
    var t := ParamChild(w, path, full, h).tree;
    if |w| < |path| {
      var rest := path[|w|..];
      PrefixSplit(w, path);
      assert full == (pre + w) + rest;
      InsertFresh(rest, pre + w, full, h);
      CountAllOne(t.children[0]);
      SingleChild(t, t.children[0], w, rest, h);
    } else {
      assert path == w;
      assert CountAll(t.children) == 0;
      forall p ensures Get(t, p) == if p == path then h else [] {
        if path <= p && p != path { PrefixSplit(path, p); GetNowhere(t, p[|path|..]); }
      }
    }
  }

  // ---------------------------------------------------------------- the walk

  /** A well-formed tree whose priority already counts the route being added. */
  ghost predicate Raised(t: Tree, pre: bytes) {
    Formed(t, pre) && t.priority == Count(t) + 1 && Count(t) >= 1
  }

  /** The paths with which the walk arrives at a node. */
  ghost predicate Walkable(t: Tree, path: bytes) {
    && path != []
    && match t.nType
       case Static => path[0] == Head(t)
       case Root => path[0] == Head(t)
       case Param => t.path <= path && (|path| == |t.path| || path[|t.path|] == SLASH)
       case CatchAll => IsMid(t) && path[0] == SLASH
  }

  /** `u` is a well-formed successor of `t` that can take its place under the same parent. */
  ghost predicate Grown(t: Tree, u: Tree, pre: bytes) {
    WF(u, pre) && Count(u) == Count(t) + 1 && u.nType == t.nType && Head(u) == Head(t) && (IsMid(t) ==> IsMid(u))
  }

  lemma BumpRaises(t: Tree, pre: bytes)
    requires WF(t, pre)
    ensures Raised(Bump(t), pre) && Count(Bump(t)) == Count(t)
    ensures forall p :: Get(Bump(t), p) == Get(t, p)
  {
  }

  lemma SplitRaised(t: Tree, i: nat, full: bytes, pre: bytes)
    requires Raised(t, pre) && 0 < i < |t.path| && (t.nType == Static || t.nType == Root)
    ensures Raised(Split(t, i, full), pre) && Count(Split(t, i, full)) == Count(t)
    ensures forall p :: Get(Split(t, i, full), p) == Get(t, p)
  {
    hide Get;
    var u := Split(t, i, full);
    var c := u.children[0];
    CountAllOne(c);
    PrefixSplit(u.path, t.path);
    assert (pre + u.path) + c.path == pre + t.path;
    assert Formed(c, pre + u.path);
    assert WF(c, pre + u.path);
    forall p ensures Get(u, p) == Get(t, p) { SplitGet(t, i, full, p); }
  }

  lemma SplitGet(t: Tree, i: nat, full: bytes, p: bytes)
    requires 0 < i < |t.path|
    ensures Get(Split(t, i, full), p) == Get(t, p)
  {
    var u := Split(t, i, full);
    var c := u.children[0];
    assert t.path == u.path + c.path;
    if u.path <= p && p != u.path {
      var q := p[i..];
      PrefixSplit(u.path, p);
      if c.path <= q {
        GetVia(u, 0, q);
        assert p[|t.path|..] == q[|c.path|..];
      } else {
        if q[0] == c.path[0] { GetVia(u, 0, q); } else { GetNowhere(u, q); }
        assert p == u.path + q;
      }
    }
  }

  lemma SetHandlersGrows(t: Tree, pre: bytes, h: Handlers)
    requires Raised(t, pre) && t.handlers == [] && h != [] && t.path != [] && t.nType != CatchAll
    ensures var u := t.(handlers := h, fullPath := pre + t.path);
      Grown(t, u, pre) && Adds(t, u, t.path, h)
  {
  }

  /** Replacing one child by its grown form. */
  lemma ChildGrows(t: Tree, k: nat, c: Tree, pre: bytes, rest: bytes, h: Handlers)
    requires Raised(t, pre) && k < |t.children|
    requires Grown(t.children[k], c, pre + t.path) && rest != [] && Head(c) == rest[0]
    requires Adds(t.children[k], c, rest, h)
    requires (t.nType == Static || t.nType == Root) ==> k == |t.indices|
    requires t.nType != CatchAll
    ensures var u := t.(children := t.children[k := c]);
      Grown(t, u, pre) && Adds(t, u, t.path + rest, h)
  {
    hide Get;
    var u := t.(children := t.children[k := c]);
    CountAllUpdate(t.children, k, c);
    assert WF(t.children[k], pre + t.path);
    ChildShape(t, k, c);
    AllMembersWF(t, pre, u.children, c);
    GrownFromChildren(t, u, pre);
    ShapeDistinctHeads(t); ShapeDistinctHeads(u);
    forall i | 0 <= i < |t.children| && i != k
      ensures t.children[i] in u.children
    {
      assert u.children[i] == t.children[i];
    }
    ReplaceAdds(t, u, k, k, rest, h);
  }

  lemma ChildShape(t: Tree, k: nat, c: Tree)
    requires Shape(t) && k < |t.children| && t.nType != CatchAll
    requires (t.nType == Static || t.nType == Root) ==> k == |t.indices|
    requires c.nType == t.children[k].nType && Head(c) == Head(t.children[k])
    ensures Shape(t.(children := t.children[k := c]))
  {
    var u := t.(children := t.children[k := c]);
    if t.nType == Param {
      assert ParamShape(u);
    } else {
      assert StaticShape(t);
      assert forall i :: 0 <= i < |t.indices| ==> u.children[i] == t.children[i];
      assert StaticShape(u);
    }
  }

  lemma MovedAt<T>(s: seq<T>, pos: nat, to: nat, i: nat)
    requires to <= pos < |s| && i < |s|
    ensures Moved(s, pos, to)[i] == if i < to || i > pos then s[i] else if i == to then s[pos] else s[i-1]
  {
  }

  ghost predicate MovedItems<T>(s: seq<T>, x: T, r: seq<T>, k: nat, j: nat)
    requires j <= k < |s| && |r| == |s|
  {
    forall i {:trigger r[i]} :: 0 <= i < |s| ==> r[i] == if i < j || i > k then s[i] else if i == j then x else s[i-1]
  }

  /** The children and indices after child `k` was raised, moved and replaced by `c`. */
  lemma MovedChildItems(t: Tree, k: nat, c: Tree)
    requires k < |t.indices| <= |t.children|
    ensures var (m, j) := IncPrio(t, k); var cs := m.children[j := c];
      && cs == Moved(t.children[k := c], k, j) && m == t.(children := m.children, indices := m.indices)
      && MovedItems(t.children, c, cs, k, j)
      && MovedItems(t.indices, t.indices[k], m.indices, k, j)
      && (forall i :: j <= i < k ==> t.children[i].priority <= t.children[k].priority)
      && (j > 0 ==> t.children[j-1].priority > t.children[k].priority)
  {
    var b := Bump(t.children[k]);
    var (m, j) := IncPrio(t, k);
    MovedUpdate(t.children, b, c, k, j);
    MovedAll(t.indices, k, j);
    assert t.indices[k := t.indices[k]] == t.indices;
    assert forall i :: j <= i < k ==> t.children[k := b][i] == t.children[i];
  }

  lemma MovedAll<T>(s: seq<T>, k: nat, j: nat)
    requires j <= k < |s|
    ensures MovedItems(s, s[k], Moved(s, k, j), k, j)
  {
    forall i | 0 <= i < |s|
      ensures Moved(s, k, j)[i] == if i < j || i > k then s[i] else if i == j then s[k] else s[i-1]
    {
      MovedAt(s, k, j, i);
    }
  }

  lemma MovedUpdate<T>(s: seq<T>, b: T, c: T, k: nat, j: nat)
    requires j <= k < |s|
    ensures Moved(s[k := b], k, j)[j := c] == Moved(s[k := c], k, j)
    ensures MovedItems(s, c, Moved(s[k := c], k, j), k, j)
  {
    MovedAll(s[k := b], k, j); MovedAll(s[k := c], k, j);
    var x, y := Moved(s[k := b], k, j)[j := c], Moved(s[k := c], k, j);
    assert forall i :: 0 <= i < |s| ==> x[i] == y[i];
  }

  lemma MovedChildShape(t: Tree, k: nat, c: Tree)
    requires Shape(t) && k < |t.indices| && (t.nType == Static || t.nType == Root)
    requires c.priority == t.children[k].priority + 1 && Head(c) == Head(t.children[k])
    requires c.nType == t.children[k].nType && (IsMid(t.children[k]) ==> IsMid(c))
    ensures var (m, j) := IncPrio(t, k); Shape(m.(children := m.children[j := c]))
  {
    var (m, j) := IncPrio(t, k);
    var u := m.(children := m.children[j := c]);
    MovedChildItems(t, k, c);
    assert StaticShape(t);
    MovedStaticShape(t, u, k, c, j);
  }

  lemma MovedStaticShape(t: Tree, u: Tree, k: nat, c: Tree, j: nat)
    requires StaticShape(t) && j <= k < |t.indices|
    requires u == t.(children := u.children, indices := u.indices)
    requires |u.children| == |t.children| && |u.indices| == |t.indices|
    requires MovedItems(t.children, c, u.children, k, j) && MovedItems(t.indices, t.indices[k], u.indices, k, j)
    requires c.priority == t.children[k].priority + 1 && Head(c) == Head(t.children[k])
    requires c.nType == t.children[k].nType && (IsMid(t.children[k]) ==> IsMid(c))
    requires forall i :: j <= i < k ==> t.children[i].priority <= t.children[k].priority
    requires j > 0 ==> t.children[j-1].priority > t.children[k].priority
    ensures StaticShape(u)
  {
    var n := |t.indices|;
    MovedDistinct(t.indices, u.indices, k, j);
    forall i | 0 <= i < n
      ensures Head(u.children[i]) == u.indices[i] && (u.children[i].nType == Static || IsMid(u.children[i]))
    {
      var o := if i < j || i > k then i else if i == j then k else i - 1;
      assert t.indices[o] == u.indices[i];
    }
    assert t.wildChild ==> u.children[n] == t.children[n];
    forall a, b | 0 <= a < b < n ensures u.children[a].priority >= u.children[b].priority {
      MovedSorted(t.children[..n], u.children[..n], c, k, j, a, b);
    }
  }

  lemma MovedDistinct(s: bytes, r: bytes, k: nat, j: nat)
    requires j <= k < |s| && |r| == |s| && MovedItems(s, s[k], r, k, j)
    requires Plain(s) && Distinct(s)
    ensures Plain(r) && Distinct(r)
  {
  }

  lemma MovedSorted(s: seq<Tree>, r: seq<Tree>, c: Tree, k: nat, j: nat, x: nat, y: nat)
    requires x < y < |r| && j <= k < |s| && |r| == |s| && MovedItems(s, c, r, k, j)
    requires forall a, b :: 0 <= a < b < |s| ==> s[a].priority >= s[b].priority
    requires c.priority == s[k].priority + 1
    requires forall i :: j <= i < k ==> s[i].priority <= s[k].priority
    requires j > 0 ==> s[j-1].priority > s[k].priority
    ensures r[x].priority >= r[y].priority
  {
  }

  /** The part of growing that does not depend on how the children changed. */
  lemma GrownFromChildren(t: Tree, u: Tree, pre: bytes)
    requires Raised(t, pre) && Shape(u)
    requires u.path == t.path && u.handlers == t.handlers && u.fullPath == t.fullPath
    requires u.priority == t.priority && u.nType == t.nType && (t.wildChild ==> u.wildChild)
    requires Head(u) == Head(t)
    requires CountAll(u.children) == CountAll(t.children) + 1
    requires forall c :: c in u.children ==> WF(c, pre + t.path)
    ensures Grown(t, u, pre)
  {
    forall i | 0 <= i < |u.children| ensures WF(u.children[i], pre + u.path) { assert u.children[i] in u.children; }
  }

  lemma MovedChildGrows(t: Tree, k: nat, c: Tree, pre: bytes, rest: bytes, h: Handlers)
    requires Raised(t, pre) && k < |t.indices| && (t.nType == Static || t.nType == Root)
    requires Grown(t.children[k], c, pre + t.path) && rest != [] && Head(c) == rest[0]
    requires Adds(t.children[k], c, rest, h)
    ensures var (m, j) := IncPrio(t, k); var u := m.(children := m.children[j := c]);
      Grown(t, u, pre) && Adds(t, u, t.path + rest, h)
  {
    var (m, j) := IncPrio(t, k);
    var u := m.(children := m.children[j := c]);
    MovedChildItems(t, k, c);
    hide IncPrio, Get;
    MovedMembers(t.children, u.children, k, j, c);
    assert Shape(u) by { assert WF(t.children[k], pre + t.path); MovedChildShape(t, k, c); }
    assert Grown(t, u, pre) by {
      CountAllUpdate(t.children, k, c);
      CountAllMoved(t.children[k := c], k, j);
      AllMembersWF(t, pre, u.children, c);
      GrownFromChildren(t, u, pre);
    }
    ShapeDistinctHeads(t); ShapeDistinctHeads(u);
    ReplaceAdds(t, u, k, j, rest, h);
  }

  lemma AllMembersWF(t: Tree, pre: bytes, ds: seq<Tree>, c: Tree)
    requires Formed(t, pre) && WF(c, pre + t.path)
    requires forall d :: d in ds ==> d == c || d in t.children
    ensures forall d :: d in ds ==> WF(d, pre + t.path)
  {
  }

  lemma MovedMembers(cs: seq<Tree>, ds: seq<Tree>, k: nat, j: nat, c: Tree)
    requires j <= k < |cs| && |ds| == |cs| && MovedItems(cs, c, ds, k, j)
    ensures ds[j] == c
    ensures forall i :: 0 <= i < |cs| && i != k ==> cs[i] in ds
    ensures forall i :: 0 <= i < |ds| && i != j ==> ds[i] in cs
    ensures forall d :: d in ds ==> d == c || d in cs
  {
    forall i | 0 <= i < |cs| && i != k ensures cs[i] in ds {
      assert cs[i] == ds[if i < j || i > k then i else i + 1];
    }
  }

  /** A node created for a byte no child starts with. */
  lemma NewChildGrows(t: Tree, c: Tree, pre: bytes, rest: bytes, h: Handlers)
    requires Raised(t, pre) && t.nType != CatchAll && rest != [] && t.path != []
    requires t.nType == Param ==> t.children == [] && rest[0] == SLASH
    requires !Mark(rest[0]) && rest[0] !in t.indices
    requires WF(c, pre + t.path) && Count(c) == 1 && c.nType == Static && Head(c) == rest[0]
    requires OnlyRoute(c, rest, h)
    ensures var u := AddChild(t, c).(indices := t.indices + [rest[0]]);
      Grown(t, u, pre) && Adds(t, u, t.path + rest, h)
  {
    var n := |t.indices|;
    var u := AddChild(t, c).(indices := t.indices + [rest[0]]);
    var a, w := AddChildParts(t, c);
    InsertedMembers(a, c, w);
    AllMembersWF(t, pre, u.children, c);
    assert c.priority == 1;
    PrioritiesPositive(t, pre);
    NewChildShape(t, c, rest[0]);
    InsertedGrows(t, u, pre, a, c, w);
    NewStaticChildAdds(t, u, |a|, rest, h);
  }

  lemma PrioritiesPositive(t: Tree, pre: bytes)
    requires Formed(t, pre)
    ensures forall d :: d in t.children ==> d.priority >= 1
  {
    assert forall i :: 0 <= i < |t.children| ==> WF(t.children[i], pre + t.path);
  }

  lemma InsertedGrows(t: Tree, u: Tree, pre: bytes, a: seq<Tree>, c: Tree, w: seq<Tree>)
    requires Raised(t, pre) && Shape(u)
    requires u == t.(children := a + [c] + w, indices := u.indices, wildChild := u.wildChild)
    requires t.children == a + w && (t.wildChild ==> u.wildChild) && Count(c) == 1
    requires forall d :: d in u.children ==> WF(d, pre + t.path)
    ensures Grown(t, u, pre)
  {
    CountAllThree(a, c, w);
    CountAllAppend(a, w);
    GrownFromChildren(t, u, pre);
  }

  lemma NewStaticChildAdds(t: Tree, u: Tree, j: nat, rest: bytes, h: Handlers)
    requires Shape(t) && Shape(u) && t.nType != CatchAll && t.path == u.path && t.handlers == u.handlers
    requires t.nType == Param ==> t.children == []
    requires rest != [] && !Mark(rest[0]) && rest[0] !in t.indices
    requires j < |u.children| && Head(u.children[j]) == rest[0] && OnlyRoute(u.children[j], rest, h)
    requires forall i :: 0 <= i < |t.children| ==> t.children[i] in u.children
    requires forall i :: 0 <= i < |u.children| && i != j ==> u.children[i] in t.children
    ensures Adds(t, u, t.path + rest, h)
  {
    ShapeDistinctHeads(t); ShapeDistinctHeads(u);
    HeadsAvoid(t, rest[0]);
    NewChildAdds(t, u, j, rest, h);
  }

  lemma AddChildParts(t: Tree, c: Tree) returns (a: seq<Tree>, w: seq<Tree>)
    ensures t.children == a + w && AddChild(t, c).children == a + [c] + w
    ensures |a| == if t.wildChild && |t.children| > 0 then |t.children| - 1 else |t.children|
  {
    if t.wildChild && |t.children| > 0 {
      a, w := t.children[..|t.children|-1], [t.children[|t.children|-1]];
    } else {
      a, w := t.children, [];
    }
  }

  lemma HeadsAvoid(t: Tree, b: byte)
    requires Shape(t) && t.nType != CatchAll && !Mark(b) && b !in t.indices
    requires t.nType == Param ==> t.children == []
    ensures forall i :: 0 <= i < |t.children| ==> Head(t.children[i]) != b
  {
    if t.nType != Param { assert StaticShape(t); }
  }

  lemma InsertedMembers(a: seq<Tree>, c: Tree, w: seq<Tree>)
    ensures var u, t := a + [c] + w, a + w;
      && u[|a|] == c
      && (forall i :: 0 <= i < |t| ==> t[i] in u)
      && (forall i :: 0 <= i < |u| && i != |a| ==> u[i] in t)
      && (forall d :: d in u ==> d == c || d in t)
  {
    var u, t := a + [c] + w, a + w;
    forall i | 0 <= i < |t| ensures t[i] in u { assert t[i] == u[if i < |a| then i else i + 1]; }
    forall i | 0 <= i < |u| && i != |a| ensures u[i] in t { assert u[i] == t[if i < |a| then i else i - 1]; }
  }

  lemma NewChildShape(t: Tree, c: Tree, b: byte)
    requires Shape(t) && t.nType != CatchAll && t.path != []
    requires t.nType == Param ==> t.children == [] && b == SLASH
    requires !Mark(b) && b !in t.indices && c.nType == Static && Head(c) == b && c.priority == 1
    requires forall d :: d in t.children ==> d.priority >= 1
    ensures Shape(AddChild(t, c).(indices := t.indices + [b]))
  {
    var u := AddChild(t, c).(indices := t.indices + [b]);
    if t.nType == Param {
      assert u.children == [c];
      assert ParamShape(u);
    } else {
      var n := |t.indices|;
      assert forall i :: 0 <= i < n ==> u.children[i] == t.children[i] && u.children[i] in t.children;
      NewStaticShape(t, u, c, b);
    }
  }

  lemma NewStaticShape(t: Tree, u: Tree, c: Tree, b: byte)
    requires StaticShape(t) && t.path != [] && !Mark(b) && b !in t.indices
    requires c.nType == Static && Head(c) == b && c.priority == 1
    requires u == t.(children := u.children, indices := t.indices + [b]) && |u.children| == |t.children| + 1
    requires var n := |t.indices|;
      && (forall i :: 0 <= i < n ==> u.children[i] == t.children[i] && t.children[i].priority >= 1)
      && u.children[n] == c && (t.wildChild ==> u.children[n+1] == t.children[n])
    ensures StaticShape(u)
  {
    assert forall i :: 0 <= i < |t.indices| ==> u.indices[i] == t.indices[i] && t.indices[i] != b;
  }

  /** The first wildcard child of a static node. */
  lemma ParamChildGrows(t: Tree, c: Tree, pre: bytes, rest: bytes, h: Handlers)
    requires Raised(t, pre) && (t.nType == Static || t.nType == Root) && t.path != [] && !t.wildChild
    requires WF(c, pre + t.path) && Count(c) == 1 && c.nType == Param && Head(c) == COLON
    requires rest != [] && rest[0] == COLON && OnlyRoute(c, rest, h)
    ensures var u := AddChild(t, c).(wildChild := true);
      Grown(t, u, pre) && Adds(t, u, t.path + rest, h)
  {
    var u := AddChild(t, c).(wildChild := true);
    var a, w := AddChildParts(t, c);
    assert w == [] && a == t.children;
    InsertedMembers(a, c, w);
    AllMembersWF(t, pre, u.children, c);
    ParamChildShape(t, c);
    InsertedGrows(t, u, pre, a, c, w);
    ShapeDistinctHeads(t); ShapeDistinctHeads(u);
    NewChildAdds(t, u, |a|, rest, h);
  }

  lemma ParamChildShape(t: Tree, c: Tree)
    requires (t.nType == Static || t.nType == Root) && Shape(t) && !t.wildChild && t.path != []
    requires c.nType == Param && Head(c) == COLON
    ensures Shape(AddChild(t, c).(wildChild := true))
    ensures forall i :: 0 <= i < |t.children| ==> Head(t.children[i]) != COLON
  {
    var u := AddChild(t, c).(wildChild := true);
    assert StaticShape(t);
    assert forall i :: 0 <= i < |t.children| ==> u.children[i] == t.children[i];
    assert StaticShape(u);
  }

  /**
    A successful walk adds exactly one route, keeps every other, and leaves a well-formed tree;
    the route was not there before. `pre` is the part of `full` consumed above `t`.
   */
  lemma WalkAdds(t: Tree, path: bytes, full: bytes, off: nat, pre: bytes, h: Handlers)
    requires Raised(t, pre) && Walkable(t, path) && full == pre + path && off + |path| <= |full| && h != []
    requires Walk(t, path, full, off, h).ok
    ensures var u := Walk(t, path, full, off, h).tree; Grown(t, u, pre) && Adds(t, u, path, h)
    decreases NodeSize(t), 4
  {
    hide Raised, Grown, Adds, WalkAfterSplit, WalkBelow, NodeSize, Shape;
    var i := Lcp(path, t.path);
    RaisedShape(t, pre);
    LcpAtLeast(t, path);
    PrefixSplit(path[..i], path);
    if i < |t.path| {
      var n := Split(t, i, full[..off + i]);
      SplitRaised(t, i, full[..off + i], pre);
      SplitWalk(n, path[i..], full, pre, h);
      SameGetSameAdds(t, n, WalkAfterSplit(n, path[i..], full, h).tree, pre, path, h);
    } else {
      assert path == t.path + path[i..];
      WalkBelowAdds(t, path[i..], full, off, pre, h);
    }
  }

  lemma SameGetSameAdds(t: Tree, n: Tree, u: Tree, pre: bytes, path: bytes, h: Handlers)
    requires (forall p :: Get(n, p) == Get(t, p)) && Adds(n, u, path, h)
    requires Grown(n, u, pre) && Count(n) == Count(t) && n.nType == t.nType && Head(n) == Head(t) && t.nType != CatchAll
    ensures Adds(t, u, path, h) && Grown(t, u, pre)
  {
    hide Get, WF, Count;
  }

  lemma BumpedGrows(t: Tree, u: Tree, pre: bytes, path: bytes, h: Handlers)
    requires Grown(Bump(t), u, pre) && Adds(Bump(t), u, path, h)
    ensures Grown(t, u, pre) && Adds(t, u, path, h)
  {
  }

  lemma RaisedShape(t: Tree, pre: bytes)
    requires Raised(t, pre)
    ensures Shape(t)
  {
  }

  lemma LcpAtLeast(t: Tree, path: bytes)
    requires Shape(t) && Walkable(t, path)
    ensures t.path != [] ==> Lcp(path, t.path) > 0
    ensures t.nType == Param ==> Lcp(path, t.path) == |t.path|
    ensures t.nType == CatchAll ==> t.path == []
    ensures Lcp(path, t.path) == |path| ==> t.nType != CatchAll && t.path != []
  {
  }

  /** The walk at a node whose own path is consumed, with `rest` to go. */
  lemma WalkBelowAdds(t: Tree, rest: bytes, full: bytes, off: nat, pre: bytes, h: Handlers)
    requires Raised(t, pre) && Walkable(t, t.path + rest) && full == pre + (t.path + rest)
    requires off + |t.path + rest| <= |full| && h != []
    requires WalkBelow(t, rest, full, off, h).ok
    ensures var u := WalkBelow(t, rest, full, off, h).tree; Grown(t, u, pre) && Adds(t, u, t.path + rest, h)
    decreases NodeSize(t), 3
  {
    hide Raised, Grown, Adds, InsertChild, IncPrio, AddChild, NodeSize, NewChild, Shape;
    RaisedShape(t, pre);
    assert full == (pre + t.path) + rest;
    WalkableBelow(t, rest);
    if rest == [] {
      assert t.path + rest == t.path;
      SetHandlersGrows(t, pre, h);
    } else if t.nType == Param && rest[0] == SLASH && |t.children| == 1 {
      ParamsChild(t, pre, rest);
      WalkChild(t, 0, rest, full, off + |t.path|, pre, h);
      var c := Walk(Bump(t.children[0]), rest, full, off + |t.path|, h).tree;
      assert t.children[0 := c] == [c];
    } else if rest[0] in t.indices {
      WalkIndexed(t, rest, full, off, pre, h);
    } else if !Mark(rest[0]) && t.nType != CatchAll {
      WalkNew(t, rest, full, pre, h);
    } else if t.wildChild {
      WalkWildcard(t, rest, full, off, pre, h);
    } else {
      WalkFirstParam(t, rest, full, pre, h);
    }
  }

  lemma WalkableBelow(t: Tree, rest: bytes)
    requires Shape(t) && Walkable(t, t.path + rest)
    ensures rest == [] ==> t.nType != CatchAll && t.path != []
    ensures t.path == [] ==> rest != [] && ((t.nType == CatchAll && t.indices == []) || rest[0] in t.indices)
    ensures t.nType == Param && rest != [] ==>
      rest[0] == SLASH && |t.children| <= 1 && (t.children == [] ==> t.indices == [])
    ensures t.nType == CatchAll ==> t.indices == [] && t.wildChild
    ensures t.nType == Static || t.nType == Root ==> |t.indices| <= |t.children|
    ensures t.wildChild ==> |t.children| > 0 && t.nType != Param
  {
    assert (t.path + rest)[|t.path|..] == rest;
  }

  lemma ParamsChild(t: Tree, pre: bytes, rest: bytes)
    requires Raised(t, pre) && t.nType == Param && |t.children| == 1 && rest != [] && rest[0] == SLASH
    ensures Walkable(Bump(t.children[0]), rest) && Head(t.children[0]) == rest[0]
  {
  }

  lemma SplitWalk(n: Tree, rest: bytes, full: bytes, pre: bytes, h: Handlers)
    requires Raised(n, pre) && (n.nType == Static || n.nType == Root) && n.path != [] && n.handlers == []
    requires !n.wildChild
    requires full == pre + (n.path + rest) && h != [] && (rest != [] ==> rest[0] !in n.indices)
    requires WalkAfterSplit(n, rest, full, h).ok
    ensures var u := WalkAfterSplit(n, rest, full, h).tree; Grown(n, u, pre) && Adds(n, u, n.path + rest, h)
  {
    hide Raised, Grown, Adds, InsertChild, NewChild;
    assert full == (pre + n.path) + rest;
    if rest == [] {
      assert n.path + rest == n.path;
      SetHandlersGrows(n, pre, h);
    } else if !Mark(rest[0]) {
      WalkNew(n, rest, full, pre, h);
    } else {
      WalkFirstParam(n, rest, full, pre, h);
    }
  }

  lemma WalkChild(t: Tree, k: nat, rest: bytes, full: bytes, off: nat, pre: bytes, h: Handlers)
    requires Raised(t, pre) && k < |t.children| && t.nType != CatchAll
    requires (t.nType == Static || t.nType == Root) ==> k == |t.indices|
    requires Walkable(Bump(t.children[k]), rest) && full == (pre + t.path) + rest && off + |rest| <= |full| && h != []
    requires Head(t.children[k]) == rest[0]
    requires Walk(Bump(t.children[k]), rest, full, off, h).ok
    ensures var c := Walk(Bump(t.children[k]), rest, full, off, h).tree; var u := t.(children := t.children[k := c]);
      Grown(t, u, pre) && Adds(t, u, t.path + rest, h)
    decreases NodeSize(t), 1
  {
    var b := Bump(t.children[k]);
    assert WF(t.children[k], pre + t.path);
    BumpRaises(t.children[k], pre + t.path);
    assert NodeSize(b) < NodeSize(t);
    WalkAdds(b, rest, full, off, pre + t.path, h);
    BumpedGrows(t.children[k], Walk(b, rest, full, off, h).tree, pre + t.path, rest, h);
    ChildGrows(t, k, Walk(b, rest, full, off, h).tree, pre, rest, h);
  }

  lemma WalkIndexed(t: Tree, rest: bytes, full: bytes, off: nat, pre: bytes, h: Handlers)
    requires Raised(t, pre) && (t.nType == Static || t.nType == Root) && rest != [] && rest[0] in t.indices
    requires full == (pre + t.path) + rest && off + |t.path| + |rest| <= |full| && h != []
    requires |t.indices| <= |t.children|
    requires Walk(Bump(t.children[IndexOf(t.indices, rest[0])]), rest, full, off + |t.path|, h).ok
    ensures var (m, j) := IncPrio(t, IndexOf(t.indices, rest[0]));
      var u := m.(children := m.children[j := Walk(m.children[j], rest, full, off + |t.path|, h).tree]);
      Grown(t, u, pre) && Adds(t, u, t.path + rest, h)
    decreases NodeSize(t), 2
  {
    hide Raised, Adds, Walkable, Formed, Count;
    var k := IndexOf(t.indices, rest[0]);
    var b := Bump(t.children[k]);
    IndexedChild(t, k, pre, rest);
    BumpRaises(t.children[k], pre + t.path);
    assert NodeSize(b) < NodeSize(t);
    WalkAdds(b, rest, full, off + |t.path|, pre + t.path, h);
    BumpedGrows(t.children[k], Walk(b, rest, full, off + |t.path|, h).tree, pre + t.path, rest, h);
    MovedChildGrows(t, k, Walk(b, rest, full, off + |t.path|, h).tree, pre, rest, h);
  }

  lemma IndexedChild(t: Tree, k: nat, pre: bytes, rest: bytes)
    requires Raised(t, pre) && (t.nType == Static || t.nType == Root) && k < |t.indices|
    requires rest != [] && rest[0] == t.indices[k]
    ensures WF(t.children[k], pre + t.path) && Walkable(Bump(t.children[k]), rest) && Head(t.children[k]) == rest[0]
  {
    assert StaticShape(t);
    var c := t.children[k];
    assert WF(c, pre + t.path);
    assert Formed(c, pre + t.path);
    assert IsMid(c) ==> CatchAllShape(c);
  }

  lemma WalkWildcard(t: Tree, rest: bytes, full: bytes, off: nat, pre: bytes, h: Handlers)
    requires Raised(t, pre) && t.nType != Param && t.wildChild && rest != []
    requires full == (pre + t.path) + rest && off + |t.path + rest| <= |full| && h != []
    requires WildcardMatches(Bump(t.children[|t.children|-1]), rest)
    requires Walk(Bump(t.children[|t.children|-1]), rest, full, off, h).ok
    ensures var k := |t.children| - 1; var c := Walk(Bump(t.children[k]), rest, full, off, h).tree;
      var u := t.(children := t.children[k := c]);
      Grown(t, u, pre) && Adds(t, u, t.path + rest, h)
    decreases NodeSize(t), 2
  {
    var k := |t.children| - 1;
    WildcardChild(t, pre, rest);
    WalkChild(t, k, rest, full, off, pre, h);
  }

  lemma WildcardChild(t: Tree, pre: bytes, rest: bytes)
    requires Raised(t, pre) && t.nType != Param && t.wildChild && rest != []
    requires WildcardMatches(Bump(t.children[|t.children|-1]), rest)
    ensures t.nType != CatchAll && |t.children| - 1 == |t.indices|
    ensures var c := t.children[|t.children|-1]; Walkable(Bump(c), rest) && Head(c) == rest[0]
  {
    assert WF(t.children[|t.children|-1], pre + t.path);
    assert t.nType != CatchAll ==> StaticShape(t);
  }

  lemma WalkNew(n: Tree, rest: bytes, full: bytes, pre: bytes, h: Handlers)
    requires Raised(n, pre) && n.nType != CatchAll && n.path != [] && rest != [] && h != []
    requires n.nType == Param ==> n.children == [] && rest[0] == SLASH
    requires !Mark(rest[0]) && rest[0] !in n.indices && full == (pre + n.path) + rest
    requires NewChild(n, rest, full, h).ok
    ensures var u := NewChild(n, rest, full, h).tree; Grown(n, u, pre) && Adds(n, u, n.path + rest, h)
  {
    var c := InsertChild(Fresh(full), rest, full, h).tree;
    assert Formed(n, pre);
    PrioritiesPositive(n, pre);
    NewChildStays(n, rest[0], full, c);
    InsertFresh(rest, pre + n.path, full, h);
    NewChildGrows(n, c, pre, rest, h);
  }

  /** A new child has the lowest priority, so raising it does not move it. */
  lemma NewChildStays(n: Tree, b: byte, full: bytes, c: Tree)
    requires Shape(n) && n.nType != CatchAll && (n.nType == Param ==> n.children == [])
    requires forall d :: d in n.children ==> d.priority >= 1
    ensures var m := AddChild(n.(indices := n.indices + [b]), Fresh(full).(priority := 0));
      && |n.indices| < |m.children| && |n.indices| < |m.indices|
      && var (m', k) := IncPrio(m, |n.indices|);
      && k == |n.indices| && m'.children[k] == Fresh(full)
      && m'.(children := m'.children[k := c]) == AddChild(n, c).(indices := n.indices + [b])
  {
    hide AddChild, Shape, RestPos, Moved;
    var z := Fresh(full).(priority := 0);
    var m := AddChild(n.(indices := n.indices + [b]), z);
    var k := |n.indices|;
    NewChildParts(n, b, z, c);
    var cs := m.children[k := Bump(z)];
    assert k > 0 ==> cs[k-1] == n.children[k-1] && n.children[k-1] in n.children;
    RestsLast(cs, k);
    MovedInPlace(cs, k);
    MovedInPlace(m.indices, k);
    assert cs[k := c] == m.children[k := c];
  }

  lemma RestsLast(cs: seq<Tree>, k: nat)
    requires k < |cs| && (k > 0 ==> cs[k-1].priority >= 1)
    ensures RestPos(cs, k, 1) == k
  {
  }

  lemma NewChildParts(n: Tree, b: byte, z: Tree, c: Tree)
    requires Shape(n) && n.nType != CatchAll && (n.nType == Param ==> n.children == [])
    ensures var m := AddChild(n.(indices := n.indices + [b]), z); var k := |n.indices|;
      && k < |m.children| && m.children[k] == z && m.children[k := c] == AddChild(n, c).children
      && k <= |n.children| && (forall i :: 0 <= i < k ==> m.children[i] == n.children[i])
      && m.indices == n.indices + [b] && m == n.(children := m.children, indices := m.indices)
      && AddChild(n, c) == n.(children := AddChild(n, c).children)
  {
  }

  lemma MovedInPlace<T>(s: seq<T>, k: nat)
    requires k < |s|
    ensures Moved(s, k, k) == s
  {
  }

  lemma WalkFirstParam(t: Tree, rest: bytes, full: bytes, pre: bytes, h: Handlers)
    requires Raised(t, pre) && t.nType != CatchAll && t.nType != Param && !t.wildChild && t.path != []
    requires rest != [] && Mark(rest[0]) && h != [] && full == (pre + t.path) + rest
    requires InsertChild(t, rest, full, h).ok
    ensures var u := InsertChild(t, rest, full, h).tree; Grown(t, u, pre) && Adds(t, u, t.path + rest, h)
  {
    var Wildcard(w, i, valid) := FindWildcard(rest);
    assert i == FirstMark(rest) == 0;
    assert rest[0..] == rest;
    InsertParam(w, rest, pre + t.path, h);
    ParamChildGrows(t, ParamChild(w, rest, full, h).tree, pre, rest, h);
  }

  // ---------------------------------------------------------------- addRoute on a whole tree

  predicate EmptyRoot(t: Tree) {
    && t.path == [] && t.indices == [] && !t.wildChild && t.nType == Static && t.priority == 0 && t.children == []
    && t.handlers == []
  }

  /** The invariant of a method's tree, from new(node) on. */
  ghost predicate RootOK(t: Tree) {
    EmptyRoot(t) || (WF(t, []) && t.nType == Root && Head(t) == SLASH)
  }

  /** The value of a tree after node.addRoute(path, h). */
  function AddRoute(t: Tree, path: bytes, h: Handlers): Outcome {
    if t.path == [] && t.children == [] then
      var r := InsertChild(Bump(t), path, path, h);
      if r.ok then Outcome(true, r.tree.(nType := Root)) else r
    else Walk(Bump(t), path, path, 0, h)
  }

  /** Every registration that returns adds exactly its own route and keeps the tree's invariant. */
  lemma AddRouteAdds(t: Tree, path: bytes, h: Handlers)
    requires RootOK(t) && path != [] && path[0] == SLASH && h != [] && AddRoute(t, path, h).ok
    ensures RootOK(AddRoute(t, path, h).tree) && Adds(t, AddRoute(t, path, h).tree, path, h)
  {
    assert [] + path == path;
    if EmptyRoot(t) {
      EmptyRootAdds(t, path, h);
    } else {
      assert Formed(t, []);
      assert StaticShape(t);
      assert !(t.path == [] && t.children == []);
      BumpRaises(t, []);
      WalkAdds(Bump(t), path, path, 0, [], h);
      BumpedGrows(t, Walk(Bump(t), path, path, 0, h).tree, [], path, h);
    }
  }

  lemma EmptyRootAdds(t: Tree, path: bytes, h: Handlers)
    requires EmptyRoot(t) && path != [] && path[0] == SLASH && h != []
    requires InsertChild(Bump(t), path, path, h).ok
    ensures var u := InsertChild(Bump(t), path, path, h).tree.(nType := Root);
      RootOK(u) && Adds(t, u, path, h)
  {
    assert [] + path == path;
    assert Bump(t) == Fresh(t.fullPath);
    InsertFresh(path, [], t.fullPath, h);
    RetypeRoot(InsertChild(Bump(t), path, path, h).tree);
  }

  lemma RetypeRoot(v: Tree)
    requires WF(v, []) && v.nType == Static
    ensures WF(v.(nType := Root), []) && Head(v.(nType := Root)) == Head(v)
    ensures forall p :: Get(v.(nType := Root), p) == Get(v, p)
  {
    assert Formed(v, []);
  }
}
