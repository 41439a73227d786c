/** When addRoute panics: exactly on a malformed pattern, or on one that clashes with a registered route. */
module RoutePanics {
  import opened Bytes
  import opened RouteTree
  import opened RouteInsert
  import opened RouteLookup
  import opened RouteClash

  /** Some route of `t` clashes with `path`. */
  ghost predicate Conflicts(t: Tree, path: bytes) { exists q :: Get(t, q) != [] && Clash(q, path) }

  /** What makes a route below `t` clash with a path through `t` only where it clashes below. */
  predicate Inner(t: Tree) {
    && DistinctHeads(t.children)
    && (forall i :: 0 <= i < |t.children| ==> Head(t.children[i]) != STAR)
    && (Plain(t.path) || (ParamName(t.path) && forall i :: 0 <= i < |t.children| ==> Head(t.children[i]) == SLASH))
  }

  lemma ShapeInner(t: Tree)
    requires Shape(t) && t.nType != CatchAll
    ensures Inner(t)
  {
    ShapeDistinctHeads(t);
    if t.nType == Param { assert ParamShape(t); } else { assert StaticShape(t); }
  }

  /** Where a route below `t` goes on. */
  lemma RouteBelow(t: Tree, p: bytes) returns (q: bytes)
    requires Inner(t) && Get(t, p) != []
    ensures p == t.path + q && Fits(t.path, q) && !StarFirst(q)
    ensures if q == [] then t.handlers != [] else exists j :: 0 <= j < |t.children| && Head(t.children[j]) == q[0]
  {
    PrefixSplit(t.path, p);
    q := p[|t.path|..];
    if q != [] {
      if forall j :: 0 <= j < |t.children| ==> Head(t.children[j]) != q[0] { GetNowhere(t, q); }
    }
  }

  /** A route of `t` that clashes with a path through `t` goes on with the path's next byte. */
  lemma ClashBelow(t: Tree, p: bytes, rest: bytes) returns (q: bytes)
    requires Inner(t) && Fits(t.path, rest) && !StarFirst(rest) && Get(t, p) != [] && Clash(p, t.path + rest)
    ensures p == t.path + q && Clash(q, rest)
    ensures if rest == [] then q == [] && t.handlers != []
      else q != [] && q[0] == rest[0] && exists j :: 0 <= j < |t.children| && Head(t.children[j]) == q[0]
  {
    hide Clash;
    q := RouteBelow(t, p);
    ClashVia(t.path, q, rest);
    if q == [] || rest == [] || q[0] != rest[0] { ClashApart(q, rest); }
  }

  lemma ConflictsVia(t: Tree, pre: bytes, k: nat, rest: bytes)
    requires Formed(t, pre) && t.nType != CatchAll && Fits(t.path, rest) && k < |t.children| && rest != []
    requires Head(t.children[k]) == rest[0]
    ensures Conflicts(t, t.path + rest) <==> Conflicts(t.children[k], rest)
  {
    hide Clash, Fits;
    ShapeInner(t);
    if p :| Get(t, p) != [] && Clash(p, t.path + rest) {
      var q := ClashBelow(t, p, rest);
      GetVia(t, k, q);
    }
    if q :| Get(t.children[k], q) != [] && Clash(q, rest) {
      ChildRoute(t, pre, k, q);
      ClashVia(t.path, q, rest);
      assert Get(t, t.path + q) != [];
    }
  }

  lemma ChildRoute(t: Tree, pre: bytes, k: nat, q: bytes)
    requires Formed(t, pre) && t.nType != CatchAll && k < |t.children| && Get(t.children[k], q) != []
    ensures Get(t, t.path + q) != [] && Fits(t.path, q)
  {
    ShapeInner(t);
    GetBelow(t, pre, k, q);
    assert WF(t.children[k], pre + t.path);
    GetHead(t.children[k], pre + t.path, q);
  }

  /** No child starts with the next byte, or there is none: only the node's own route can clash. */
  lemma ConflictsHere(t: Tree, rest: bytes)
    requires Inner(t) && Fits(t.path, rest) && !StarFirst(rest)
    requires rest != [] ==> forall j :: 0 <= j < |t.children| ==> Head(t.children[j]) != rest[0]
    ensures Conflicts(t, t.path + rest) <==> rest == [] && t.handlers != []
  {
    hide Clash, Fits;
    if p :| Get(t, p) != [] && Clash(p, t.path + rest) { var q := ClashBelow(t, p, rest); }
    if rest == [] && t.handlers != [] {
      assert t.path + [] == t.path && Get(t, t.path) == t.handlers;
      ClashSelf(t.path);
    }
  }

  lemma ClashSelf(p: bytes)
    ensures Clash(p, p)
  {
  }

  /** The path leaves the path of `t` part of the way along it. */
  lemma FreeInside(t: Tree, path: bytes)
    requires Plain(t.path) && Lcp(path, t.path) < |t.path| && !StarFirst(path[Lcp(path, t.path)..])
    ensures !Conflicts(t, path)
  {
    var i := Lcp(path, t.path);
    if p :| Get(t, p) != [] && Clash(p, path) {
      var a := t.path[..i];
      assert p == a + p[i..] && path == a + path[i..];
      assert p[i] == t.path[i];
      assert Plain(a);
      ClashVia(a, p[i..], path[i..]);
      ClashApart(p[i..], path[i..]);
    }
  }

  /** A `*` where the routes of a node go on otherwise. */
  lemma StarConflicts(t: Tree, pre: bytes, path: bytes, i: nat)
    requires Formed(t, pre) && Count(t) >= 1 && t.nType != CatchAll && Plain(t.path)
    requires i <= |t.path| && t.path[..i] <= path && StarFirst(path[i..])
    ensures Conflicts(t, path)
  {
    var p := SomeRoute(t, pre);
    ShapeInner(t);
    var q := RouteBelow(t, p);
    var a, r := t.path[..i], path[i..];
    assert p == a + p[i..] && path == a + r;
    assert p[i..] == t.path[i..] + q;
    assert !StarFirst(p[i..]);
    ClashVia(a, p[i..], r);
    ClashApart(p[i..], r);
  }

  /** Every well-formed path that starts with a slash clashes with a catch-all right behind the slash. */
  lemma StarClash(p: bytes, path: bytes)
    requires |p| >= 3 && p[0] == SLASH && p[1] == STAR && Name(p[2..]) && path != [] && path[0] == SLASH
    requires WellFormed(path)
    ensures Clash(p, path)
  {
    var d := Lcp(p, path);
    assert d >= 1;
    if d == 1 {
      assert StarFirst(p[1..]);
    } else {
      assert forall k :: 2 <= k < |p| ==> p[k] == p[2..][k-2] && p[k] != SLASH;
      assert p[..d][1] == STAR && SLASH !in p[..d][1..];
      assert InName(p[..d]);
      if d == |p| && d < |path| {
        assert path[1] == path[..d][1] && MarkOK(path, 1);
        assert path[1..][d-1] == path[d];
      }
    }
  }

  lemma LeafOf(t: Tree, pre: bytes) returns (leaf: Tree)
    requires Formed(t, pre) && IsMid(t)
    ensures t.path == [] && t.children == [leaf] && leaf.nType == CatchAll && IsLeaf(leaf) && CatchAllShape(leaf)
  {
    leaf := t.children[0];
    assert CatchAllShape(t);
    assert WF(leaf, pre + t.path);
    assert Formed(leaf, pre + t.path);
  }

  lemma LeafRoute(leaf: Tree)
    requires IsLeaf(leaf) && CatchAllShape(leaf)
    ensures Get(leaf, leaf.path) == leaf.handlers != []
  {
  }

  /** The one route of a catch-all. */
  lemma CatchAllRoute(t: Tree, pre: bytes) returns (leaf: Tree)
    requires Formed(t, pre) && IsMid(t)
    ensures t.children == [leaf] && Get(t, leaf.path) != []
    ensures |leaf.path| >= 3 && leaf.path[0] == SLASH && leaf.path[1] == STAR && Name(leaf.path[2..])
  {
    leaf := LeafOf(t, pre);
    LeafRoute(leaf);
    assert t.path + leaf.path == leaf.path;
    GetVia(t, 0, leaf.path);
  }

  lemma MidConflicts(t: Tree, pre: bytes, path: bytes)
    requires Formed(t, pre) && IsMid(t) && path != [] && path[0] == SLASH && WellFormed(path)
    ensures Conflicts(t, path)
  {
    var leaf := CatchAllRoute(t, pre);
    StarClash(leaf.path, path);
  }

  /** Below one param name, a path with another. */
  lemma NameClash(w: bytes, q: bytes, rest: bytes)
    requires ParamName(w) && AtEnd(q) && rest != [] && rest[0] == COLON
    requires !(w <= rest && (|w| >= |rest| || rest[|w|] == SLASH))
    ensures Clash(w + q, rest)
  {
    var p := w + q;
    var d := Lcp(p, rest);
    assert d >= 1;
    assert forall k :: 1 <= k < |w| ==> p[k] == w[1..][k-1] && p[k] != SLASH;
    if d < |w| {
      assert p[..d][0] == COLON && InName(p[..d]);
      assert !AtEnd(p[d..]);
    } else {
      assert p[..|w|] == w && rest[..|w|] == rest[..d][..|w|] == p[..d][..|w|];
      assert d == |w|;
      assert p[..d] == w && w[0..] == w && InName(p[..d]);
      assert !AtEnd(rest[d..]);
    }
  }

  lemma NameConflicts(t: Tree, pre: bytes, rest: bytes)
    requires Formed(t, pre) && t.nType != CatchAll && t.wildChild && rest != [] && rest[0] == COLON
    requires |t.children| > 0 && !WildcardMatches(t.children[|t.children|-1], rest)
    ensures Conflicts(t, t.path + rest)
  {
    var k := |t.children| - 1;
    var c := t.children[k];
    assert StaticShape(t);
    assert WF(c, pre + t.path);
    assert Formed(c, pre + t.path);
    var p := SomeRoute(c, pre + t.path);
    ShapeInner(c);
    var q := RouteBelow(c, p);
    NameClash(c.path, q, rest);
    ConflictsVia(t, pre, k, rest);
  }

  // ---------------------------------------------------------------- the walk

  lemma NewChildOk(n: Tree, rest: bytes, full: bytes, h: Handlers, pre: bytes)
    requires Formed(n, pre) && n.nType != CatchAll && (n.nType == Param ==> n.children == [])
    requires rest != [] && !StarFirst(rest)
    ensures NewChild(n, rest, full, h).ok <==> WellFormed(rest)
  {
    hide InsertChild, WellFormed, AddChild, IncPrio;
    PrioritiesPositive(n, pre);
    NewChildStays(n, rest[0], full, n);
    InsertOk(Fresh(full), rest, full, h);
  }

  /** insertChild wants a slash before the `*` of a catch-all in the path it is given. */
  lemma StarFails(n: Tree, rest: bytes, full: bytes, h: Handlers)
    requires StarFirst(rest)
    ensures !InsertChild(n, rest, full, h).ok
  {
  }

  lemma AfterSplitOk(n: Tree, rest: bytes, full: bytes, pre: bytes, h: Handlers)
    requires Raised(n, pre) && (n.nType == Static || n.nType == Root) && n.handlers == []
    ensures WalkAfterSplit(n, rest, full, h).ok <==> !StarFirst(rest) && WellFormed(rest)
  {
    hide NewChild, InsertChild;
    if rest != [] {
      if StarFirst(rest) {
        StarFails(n, rest, full, h);
      } else if rest[0] == COLON {
        InsertOk(n, rest, full, h);
      } else {
        NewChildOk(n, rest, full, h, pre);
      }
    }
  }

  lemma RaisedFormed(t: Tree, pre: bytes)
    requires Raised(t, pre)
    ensures Formed(t, pre) && Count(t) >= 1
  {
  }

  /** Splitting the edge: the path clashes with no route below unless it goes on with a `*`. */
  lemma SplitOk(t: Tree, path: bytes, full: bytes, off: nat, pre: bytes, h: Handlers)
    requires Raised(t, pre) && (t.nType == Static || t.nType == Root) && 0 < Lcp(path, t.path) < |t.path|
    requires off + |path| <= |full|
    ensures var i := Lcp(path, t.path);
      WalkAfterSplit(Split(t, i, full[..off + i]), path[i..], full, h).ok <==> WellFormed(path) && !Conflicts(t, path)
  {
    hide Raised, Formed, Conflicts, WalkAfterSplit, WellFormed, Count, Shape, Get, Split, Lcp, Plain, StarFirst;
    var i := Lcp(path, t.path);
    SplitEnds(t, i, full[..off + i], path[i..], full, pre, h);
    RaisedFormed(t, pre);
    PlainPath(t, pre);
    LeavesInside(t, path, pre);
  }

  lemma SplitFields(t: Tree, i: nat, full: bytes)
    requires i < |t.path|
    ensures Split(t, i, full).nType == t.nType && Split(t, i, full).handlers == []
  {
  }

  lemma SplitEnds(t: Tree, i: nat, above: bytes, rest: bytes, full: bytes, pre: bytes, h: Handlers)
    requires Raised(t, pre) && (t.nType == Static || t.nType == Root) && 0 < i < |t.path|
    ensures WalkAfterSplit(Split(t, i, above), rest, full, h).ok <==> !StarFirst(rest) && WellFormed(rest)
  {
    hide Raised, Formed, WalkAfterSplit, WellFormed, Count, Shape, Get, Split;
    SplitRaised(t, i, above, pre);
    SplitFields(t, i, above);
    AfterSplitOk(Split(t, i, above), rest, full, pre, h);
  }

  lemma LeavesInside(t: Tree, path: bytes, pre: bytes)
    requires Formed(t, pre) && Count(t) >= 1 && t.nType != CatchAll && Plain(t.path) && Lcp(path, t.path) < |t.path|
    ensures var rest := path[Lcp(path, t.path)..];
      !StarFirst(rest) && WellFormed(rest) <==> WellFormed(path) && !Conflicts(t, path)
  {
    hide Formed, Conflicts, WellFormed, Count;
    var i := Lcp(path, t.path);
    assert path == path[..i] + path[i..] && path[..i] == t.path[..i];
    if StarFirst(path[i..]) {
      StarConflicts(t, pre, path, i);
    } else {
      FreeInside(t, path);
      WellFormedVia(path[..i], path[i..]);
    }
  }

  lemma PlainPath(t: Tree, pre: bytes)
    requires Formed(t, pre) && (t.nType == Static || t.nType == Root)
    ensures Plain(t.path)
  {
    assert StaticShape(t);
  }

  /** The walk succeeds on exactly the well-formed paths that clash with no route below. */
  lemma WalkOk(t: Tree, path: bytes, full: bytes, off: nat, pre: bytes, h: Handlers)
    requires Raised(t, pre) && Walkable(t, path) && full == pre + path && off + |path| <= |full|
    ensures Walk(t, path, full, off, h).ok <==> WellFormed(path) && !Conflicts(t, path)
    decreases NodeSize(t), 2
  {
    hide Raised, Conflicts, WellFormed, WalkAfterSplit, WalkBelow, NodeSize, Shape;
    var i := Lcp(path, t.path);
    RaisedShape(t, pre);
    LcpAtLeast(t, path);
    if i < |t.path| {
      SplitOk(t, path, full, off, pre, h);
    } else {
      PrefixSplit(t.path, path);
      WalkBelowOk(t, path[i..], full, off, pre, h);
    }
  }

  lemma WalkBelowOk(t: Tree, rest: bytes, full: bytes, off: nat, pre: bytes, h: Handlers)
    requires Raised(t, pre) && Walkable(t, t.path + rest)
    requires full == pre + (t.path + rest) && off + |t.path + rest| <= |full|
    ensures WalkBelow(t, rest, full, off, h).ok <==> WellFormed(t.path + rest) && !Conflicts(t, t.path + rest)
    decreases NodeSize(t), 1
  {
    hide Raised, Conflicts, WellFormed, NewChild, InsertChild, NodeSize, Shape, Walk;
    RaisedShape(t, pre);
    RaisedFormed(t, pre);
    WalkableBelow(t, rest);
    if t.nType == CatchAll {
      MidOk(t, rest, full, off, pre, h);
    } else if StarFirst(rest) {
      StarOk(t, rest, full, off, pre, h);
    } else {
      FitsBelow(t, rest);
      WellFormedVia(t.path, rest);
      ShapeInner(t);
      if rest == [] {
        ConflictsHere(t, rest);
        EmptyWellFormed();
      } else if rest[0] in t.indices && t.nType != Param {
        IndexedOk(t, rest, full, off, pre, h);
      } else if t.nType == Param && |t.children| == 1 {
        ParamsChildOk(t, rest, full, off, pre, h);
      } else if rest[0] == COLON {
        WildcardOk(t, rest, full, off, pre, h);
      } else {
        HeadsAvoid(t, rest[0]);
        ConflictsHere(t, rest);
        NewChildOk(t, rest, full, h, pre);
      }
    }
  }

  lemma EmptyWellFormed()
    ensures WellFormed([])
  {
  }

  lemma FitsBelow(t: Tree, rest: bytes)
    requires Shape(t) && t.nType != CatchAll && (t.nType == Param && rest != [] ==> rest[0] == SLASH)
    ensures Fits(t.path, rest)
  {
    if t.nType == Param { assert ParamShape(t); } else { assert StaticShape(t); }
  }

  /** Everything under a catch-all is taken. */
  lemma MidOk(t: Tree, rest: bytes, full: bytes, off: nat, pre: bytes, h: Handlers)
    requires Raised(t, pre) && t.nType == CatchAll && Walkable(t, t.path + rest) && off + |t.path + rest| <= |full|
    ensures !WalkBelow(t, rest, full, off, h).ok
    ensures !WellFormed(t.path + rest) || Conflicts(t, t.path + rest)
  {
    hide Walk, Conflicts, WellFormed;
    assert Formed(t, pre) && CatchAllShape(t);
    assert t.path + rest == rest;
    assert WF(t.children[0], pre + t.path);
    if WellFormed(rest) { MidConflicts(t, pre, rest); }
  }

  lemma StarOk(t: Tree, rest: bytes, full: bytes, off: nat, pre: bytes, h: Handlers)
    requires Raised(t, pre) && t.nType != CatchAll && Walkable(t, t.path + rest) && off + |t.path + rest| <= |full|
    requires StarFirst(rest)
    ensures !WalkBelow(t, rest, full, off, h).ok && Conflicts(t, t.path + rest)
  {
    hide Walk, Conflicts, InsertChild;
    assert Formed(t, pre);
    assert (t.path + rest)[|t.path|..] == rest;
    assert StaticShape(t);
    StarConflicts(t, pre, t.path + rest, |t.path|);
    StarFails(t, rest, full, h);
    if t.wildChild { assert Head(t.children[|t.children|-1]) == COLON; }
  }

  lemma IndexedOk(t: Tree, rest: bytes, full: bytes, off: nat, pre: bytes, h: Handlers)
    requires Raised(t, pre) && (t.nType == Static || t.nType == Root) && rest != [] && rest[0] in t.indices
    requires Fits(t.path, rest) && full == pre + (t.path + rest) && off + |t.path + rest| <= |full|
    ensures WalkBelow(t, rest, full, off, h).ok <==> WellFormed(rest) && !Conflicts(t, t.path + rest)
    decreases NodeSize(t), 0
  {
    hide Raised, Conflicts, WellFormed, NewChild, InsertChild, NodeSize, Shape, Walk, Formed, IncPrio, IndexOf, WF,
      Walkable, Fits, Get;
    RaisedFormed(t, pre);
    RaisedShape(t, pre);
    IndicesFit(t);
    var k := IndexOf(t.indices, rest[0]);
    IndexedChild(t, k, pre, rest);
    ConflictsVia(t, pre, k, rest);
    BumpSize(t, k);
    BelowOk(t.children[k], rest, full, off + |t.path|, pre + t.path, h);
  }

  lemma IndicesFit(t: Tree)
    requires Shape(t) && (t.nType == Static || t.nType == Root)
    ensures |t.indices| <= |t.children|
  {
    assert StaticShape(t);
  }

  /** The walk into a child, which is raised first. */
  lemma BelowOk(c: Tree, rest: bytes, full: bytes, off: nat, pre: bytes, h: Handlers)
    requires WF(c, pre) && Walkable(Bump(c), rest) && full == pre + rest && off + |rest| <= |full|
    ensures Walk(Bump(c), rest, full, off, h).ok <==> WellFormed(rest) && !Conflicts(c, rest)
    decreases NodeSize(c), 3
  {
    hide Raised, WellFormed, NodeSize, Shape, Walk, WF;
    BumpRaises(c, pre);
    assert NodeSize(Bump(c)) == NodeSize(c) by { SameSize(c); }
    WalkOk(Bump(c), rest, full, off, pre, h);
    SameConflicts(c, Bump(c), rest);
  }

  lemma SameSize(c: Tree)
    ensures NodeSize(Bump(c)) == NodeSize(c)
  {
  }

  lemma BumpSize(t: Tree, k: nat)
    requires k < |t.children|
    ensures NodeSize(t.children[k]) < NodeSize(t)
  {
  }

  lemma SameConflicts(t: Tree, u: Tree, path: bytes)
    requires forall p :: Get(u, p) == Get(t, p)
    ensures Conflicts(u, path) <==> Conflicts(t, path)
  {
  }

  lemma ParamsChildOk(t: Tree, rest: bytes, full: bytes, off: nat, pre: bytes, h: Handlers)
    requires Raised(t, pre) && t.nType == Param && |t.children| == 1 && rest != [] && rest[0] == SLASH
    requires Fits(t.path, rest) && full == pre + (t.path + rest) && off + |t.path + rest| <= |full|
    ensures WalkBelow(t, rest, full, off, h).ok <==> WellFormed(rest) && !Conflicts(t, t.path + rest)
    decreases NodeSize(t), 0
  {
    hide Conflicts, WellFormed, NodeSize, Shape, Walk;
    ParamsChild(t, pre, rest);
    ConflictsVia(t, pre, 0, rest);
    BumpSize(t, 0);
    BelowOk(t.children[0], rest, full, off + |t.path|, pre + t.path, h);
  }

  lemma WildcardOk(t: Tree, rest: bytes, full: bytes, off: nat, pre: bytes, h: Handlers)
    requires Raised(t, pre) && (t.nType == Static || t.nType == Root) && rest != [] && rest[0] == COLON
    requires Fits(t.path, rest) && full == pre + (t.path + rest) && off + |t.path + rest| <= |full|
    ensures WalkBelow(t, rest, full, off, h).ok <==> WellFormed(rest) && !Conflicts(t, t.path + rest)
    decreases NodeSize(t), 0
  {
    hide Raised, Conflicts, WellFormed, NodeSize, Walk, InsertChild, Formed;
    RaisedFormed(t, pre);
    RaisedShape(t, pre);
    assert StaticShape(t);
    ShapeInner(t);
    if !t.wildChild {
      ConflictsHere(t, rest);
      InsertOk(t, rest, full, h);
    } else {
      var k := |t.children| - 1;
      if WildcardMatches(Bump(t.children[k]), rest) {
        WildcardChild(t, pre, rest);
        ChildFormed(t, pre, k);
        ConflictsVia(t, pre, k, rest);
        BumpSize(t, k);
        BelowOk(t.children[k], rest, full, off, pre + t.path, h);
      } else {
        NameConflicts(t, pre, rest);
      }
    }
  }

  lemma ChildFormed(t: Tree, pre: bytes, k: nat)
    requires Formed(t, pre) && k < |t.children|
    ensures WF(t.children[k], pre + t.path)
  {
  }

  /** addRoute panics if and only if the pattern is malformed or clashes with a registered route. */
  lemma AddRouteOk(t: Tree, path: bytes, h: Handlers)
    requires RootOK(t) && path != [] && path[0] == SLASH
    ensures AddRoute(t, path, h).ok <==> WellFormed(path) && forall q :: Get(t, q) != [] ==> !Clash(q, path)
  {
    assert [] + path == path;
    if EmptyRoot(t) {
      assert forall p :: Get(t, p) == [];
      InsertOk(Bump(t), path, path, h);
    } else {
      assert Formed(t, []);
      assert StaticShape(t);
      BelowOk(t, path, path, 0, [], h);
    }
  }
}
