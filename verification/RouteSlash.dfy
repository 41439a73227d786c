/** The recommendation of a redirect by a trailing slash more or less, among routes without wildcards. */
module RouteSlash {
  import opened Bytes
  import opened RouteTree
  import opened RouteInsert
  import opened RouteMatch
  import opened RouteLookup
  import opened RouteClash
  import opened RoutePanics
  import opened RouteReach
  import opened RouteSearch

  ghost predicate PlainRoutes(t: Tree) { forall p :: Get(t, p) != [] ==> Plain(p) }

  /** The request is no route, but is one with a slash more or less. */
  ghost predicate SlashAway(t: Tree, path: bytes) {
    && Get(t, path) == []
    && (Get(t, path + [SLASH]) != []
        || (path != [] && path[|path|-1] == SLASH && Get(t, path[..|path|-1]) != []))
  }

  /** No node has a wildcard child. */
  lemma NoWildChild(t: Tree, pre: bytes)
    requires Formed(t, pre) && (t.nType == Static || t.nType == Root) && PlainRoutes(t)
    ensures !t.wildChild && |t.children| == |t.indices| && t.path != [] && Plain(t.indices)
    ensures forall k :: 0 <= k < |t.children| ==>
      && Head(t.children[k]) == t.indices[k] && t.children[k].nType == Static && Formed(t.children[k], pre + t.path)
      && PlainRoutes(t.children[k])
  {
    hide Get, PlainRoutes;
    assert StaticShape(t);
    forall k | 0 <= k < |t.children|
      ensures Formed(t.children[k], pre + t.path) && PlainRoutes(t.children[k])
      ensures !IsMid(t.children[k]) && t.children[k].nType != Param
    {
      ChildPlain(t, pre, k);
    }
  }

  lemma ChildPlain(t: Tree, pre: bytes, k: nat)
    requires Formed(t, pre) && (t.nType == Static || t.nType == Root) && PlainRoutes(t) && k < |t.children|
    ensures Formed(t.children[k], pre + t.path) && PlainRoutes(t.children[k])
    ensures !IsMid(t.children[k]) && t.children[k].nType != Param
  {
    hide Get;
    var c := t.children[k];
    assert StaticShape(t);
    assert WF(c, pre + t.path);
    forall p | Get(c, p) != [] ensures Plain(p) {
      GetBelow(t, pre, k, p);
      assert Plain(t.path + p);
      assert forall i :: 0 <= i < |p| ==> (t.path + p)[|t.path| + i] == p[i];
    }
    if IsMid(c) {
      var leaf := CatchAllRoute(c, pre + t.path);
      MidMarks(c, pre + t.path, leaf.path);
    }
    if c.nType == Param {
      var p := SomeRoute(c, pre + t.path);
      GetHead(c, pre + t.path, p);
      ParamMarked(c);
    }
  }

  lemma ParamMarked(c: Tree)
    requires Shape(c) && c.nType == Param
    ensures Mark(Head(c))
  {
  }

  /** What is registered below a node is registered below the child for its next byte. */
  lemma ViaChild(t: Tree, pre: bytes, q: bytes, k: nat)
    requires Formed(t, pre) && (t.nType == Static || t.nType == Root) && PlainRoutes(t) && q != []
    requires k < |t.indices| && t.indices[k] == q[0]
    ensures k < |t.children| && Get(t.children[k], q) == Get(t, t.path + q)
  {
    NoWildChild(t, pre);
    ShapeDistinctHeads(t);
    GetVia(t, k, q);
  }

  lemma Indexed(t: Tree, pre: bytes, q: bytes)
    requires Formed(t, pre) && (t.nType == Static || t.nType == Root) && PlainRoutes(t) && q != []
    requires Get(t, t.path + q) != []
    ensures q[0] in t.indices
  {
    NoWildChild(t, pre);
    if q[0] !in t.indices { GetNowhere(t, q); }
  }

  /** A redirect is recommended wherever a slash more or less makes the request a route. */
  lemma {:induction false} SlashFound(t: Tree, pre: bytes, path: bytes, ps: seq<Binding>)
    requires Stop(t, pre) && PlainRoutes(t) && SlashAway(t, path)
    ensures Search(t, path, ps).r.tsr && Search(t, path, ps).r.handlers == []
    decreases NodeSize(t)
  {
    hide Get, Formed, PlainRoutes, Plain;
    if EmptyRoot(t) {
      NoneRegistered(t, path);
    } else {
      NoWildChild(t, pre);
      if t.path < path {
        SlashBeyond(t, pre, path);
        var rest := path[|t.path|..];
        if rest[0] in t.indices {
          var k := IndexOf(t.indices, rest[0]);
          if SlashAway(t.children[k], rest) {
            SlashFound(t.children[k], pre + t.path, rest, ps);
          } else {
            NoWildChild(t.children[k], pre + t.path);
            SlashAlone(t.children[k], pre + t.path, ps);
          }
        }
      } else {
        SlashHere(t, pre, path);
      }
    }
  }

  lemma NoneRegistered(t: Tree, path: bytes)
    requires EmptyRoot(t)
    ensures !SlashAway(t, path)
  {
  }

  /** The rest of the request is a slash away from a route below the child, or the slash too much itself. */
  lemma SlashBeyond(t: Tree, pre: bytes, path: bytes)
    requires Formed(t, pre) && (t.nType == Static || t.nType == Root) && PlainRoutes(t) && SlashAway(t, path)
    requires t.path < path
    ensures var rest := path[|t.path|..];
      if rest[0] in t.indices then
        var k := IndexOf(t.indices, rest[0]);
        && k < |t.children|
        && (SlashAway(t.children[k], rest) || (rest == [SLASH] && Get(t.children[k], rest) == []))
      else rest == [SLASH] && t.handlers != []
  {
    hide Get, Formed, PlainRoutes;
    var rest := path[|t.path|..];
    PrefixSplit(t.path, path);
    var more, less := rest + [SLASH], rest[..|rest|-1];
    assert path + [SLASH] == t.path + more;
    assert path[|path|-1] == rest[|rest|-1] && path[..|path|-1] == t.path + less;
    if rest[0] in t.indices {
      var k := IndexOf(t.indices, rest[0]);
      ViaChild(t, pre, rest, k);
      ViaChild(t, pre, more, k);
      if less != [] { ViaChild(t, pre, less, k); } else { assert rest == [rest[0]]; }
    } else {
      if Get(t, t.path + more) != [] { Indexed(t, pre, more); }
      if less != [] && Get(t, t.path + less) != [] { Indexed(t, pre, less); }
      assert less == [] ==> rest == [rest[0]] && t.path + less == t.path;
      OwnRoute(t);
    }
  }

  lemma OwnRoute(t: Tree)
    ensures Get(t, t.path) == t.handlers
  {
  }

  /** A slash that is left at a node it is no route of. */
  lemma SlashAlone(t: Tree, pre: bytes, ps: seq<Binding>)
    requires Formed(t, pre) && t.nType == Static && t.path != [] && Head(t) == SLASH && Get(t, [SLASH]) == []
    ensures Search(t, [SLASH], ps).r.tsr && Search(t, [SLASH], ps).r.handlers == []
  {
    OwnRoute(t);
    assert !(t.path < [SLASH]);
    assert t.path == [SLASH] ==> t.handlers == [];
  }

  /** The request ends at the node, or within its path. */
  lemma SlashHere(t: Tree, pre: bytes, path: bytes)
    requires Formed(t, pre) && (t.nType == Static || t.nType == Root) && PlainRoutes(t) && SlashAway(t, path)
    requires !(t.path < path)
    ensures if path == t.path then t.handlers == [] && SlashBelow(t) else SlashMore(t, path)
  {
    hide Formed, PlainRoutes, Get;
    Within(t, path);
    NoWildChild(t, pre);
    OwnRoute(t);
    if path == t.path {
      Indexed(t, pre, [SLASH]);
      var k := IndexOf(t.indices, SLASH);
      ViaChild(t, pre, [SLASH], k);
      NoWildChild(t.children[k], pre + t.path);
      OneSlash(t.children[k]);
    }
  }

  /** Only a route that goes through the node's path can be meant. */
  lemma Within(t: Tree, path: bytes)
    requires SlashAway(t, path) && !(t.path < path)
    ensures if path == t.path then Get(t, t.path + [SLASH]) != [] else t.path == path + [SLASH] && Get(t, t.path) != []
  {
    assert t.path <= path + [SLASH] && Get(t, path + [SLASH]) != [];
    if t.path != path { Longest(t.path, path); }
  }

  lemma OneSlash(c: Tree)
    requires Get(c, [SLASH]) != [] && c.path != []
    ensures c.path == [SLASH] && c.handlers != []
  {
  }

  lemma Longest(a: bytes, path: bytes)
    requires a <= path + [SLASH] && !(a <= path)
    ensures a == path + [SLASH]
  {
  }
}
