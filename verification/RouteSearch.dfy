/**
  The lookup of a request by plain recursion (tree.go): static children first, and where they come to nothing the
  wildcard child. `RouterLookup.getValue` does the same with a loop and a stack.
 */
module RouteSearch {
  import opened Bytes
  import opened RouteTree
  import opened RouteInsert
  import opened RouteMatch
  import opened RouteLookup
  import opened RouteClash
  import opened RoutePanics
  import opened RouteReach

  datatype Result = Result(handlers: Handlers, params: seq<Binding>, tsr: bool, fullPath: bytes)

  /** An answer with handlers, one without, or one without unless a wildcard child passed over has another. */
  datatype Lookup = Hit(r: Result) | Miss(r: Result) | Back(r: Result)

  /** Would the request with a slash more be answered below `t`, which it reaches? */
  function SlashBelow(t: Tree): bool {
    SLASH in t.indices && |t.indices| <= |t.children| &&
    var c := t.children[IndexOf(t.indices, SLASH)];
    (|c.path| == 1 && c.handlers != []) || (c.nType == CatchAll && c.children != [] && c.children[0].handlers != [])
  }

  /** The same where the request ends in the value of the param `c`. */
  function SlashBehind(c: Tree): bool {
    |c.children| == 1 &&
    var d := c.children[0];
    (d.path == [SLASH] && d.handlers != []) || (d.path == [] && d.indices == [SLASH])
  }

  /** Where the request leaves the path of `t`, which may be the request and a slash. */
  function SlashMore(t: Tree, path: bytes): bool {
    path == [SLASH] || (t.path == path + [SLASH] && t.handlers != [])
  }

  function Search(t: Tree, path: bytes, ps: seq<Binding>): Lookup
    decreases NodeSize(t), 1
  {
    if t.path < path then
      var rest := path[|t.path|..];
      if rest[0] in t.indices && |t.indices| <= |t.children| then
        var l := Search(t.children[IndexOf(t.indices, rest[0])], rest, ps);
        if l.Back? && t.wildChild then Wild(t, rest, ps) else l
      else if t.wildChild then Wild(t, rest, ps)
      else if rest == [SLASH] then Miss(Result([], ps, t.handlers != [], []))
      else Back(Result([], ps, false, []))
    else if path == t.path then
      if t.handlers != [] then Hit(Result(t.handlers, ps, false, t.fullPath))
      else if path != [SLASH] then Back(Result([], ps, SlashBelow(t), []))
      else Miss(Result([], ps, (t.wildChild && t.nType != Root) || t.nType == Static || SlashBelow(t), []))
    else if SlashMore(t, path) then Miss(Result([], ps, true, []))
    else Back(Result([], ps, false, []))
  }

  /** The wildcard child, with `rest` ahead. */
  function Wild(t: Tree, rest: bytes, ps: seq<Binding>): Lookup
    decreases NodeSize(t), 0
  {
    if t.children == [] || |t.children[|t.children|-1].path| < 2 then Miss(Result([], ps, false, []))
    else
      var c := t.children[|t.children|-1];
      if c.nType != Param then Hit(Result(c.handlers, ps + [Binding(c.path[2..], rest)], false, c.fullPath))
      else
        var e := SegEnd(rest);
        var qs := ps + [Binding(c.path[1..], rest[..e])];
        if e < |rest| then
          if c.children != [] then Search(c.children[0], rest[e..], qs)
          else Miss(Result([], qs, |rest| == e + 1, []))
        else if c.handlers != [] then Hit(Result(c.handlers, qs, false, c.fullPath))
        else Miss(Result([], qs, SlashBehind(c), []))
  }

  // ---------------------------------------------------------------- what is found is registered

  /** `t` is a node that a lookup with `path` ahead can stand at. */
  ghost predicate Stands(t: Tree, pre: bytes, path: bytes) {
    Stop(t, pre) || (Formed(t, pre) && IsMid(t) && path != [] && path[0] == SLASH)
  }

  ghost predicate Sound(root: Tree, req: bytes, l: Lookup) {
    && (l.Hit? <==> l.r.handlers != [])
    && (l.Hit? ==> Found(root, l.r.fullPath, l.r.handlers, l.r.params, req))
  }

  /** The child for the next byte. */
  lemma StaticChild(t: Tree, pre: bytes, path: bytes)
    requires Stands(t, pre, path) && t.path < path && path[|t.path|] in t.indices
    ensures |t.indices| <= |t.children| && Formed(t, pre) && t.nType != CatchAll
    ensures var k := IndexOf(t.indices, path[|t.path|]);
      && k < |t.children| && Stands(t.children[k], pre + t.path, path[|t.path|..])
      && Head(t.children[k]) == path[|t.path|] && (t.wildChild ==> k < |t.children| - 1)
  {
    var k := IndexOf(t.indices, path[|t.path|]);
    assert IsMid(t) ==> CatchAllShape(t);
    assert StaticShape(t);
    var c := t.children[k];
    assert WF(c, pre + t.path);
    if IsMid(c) { CatchAllHead(c, pre + t.path); }
  }

  /** The wildcard child: a param node, or the second catch-all node. */
  lemma WildKind(t: Tree, pre: bytes, path: bytes)
    requires Stands(t, pre, path) && t.path < path && t.wildChild
    ensures t.children != [] && Formed(t, pre)
    ensures var c := t.children[|t.children|-1];
      && Formed(c, pre + t.path) && Count(c) >= 1 && |c.path| >= 2
      && if IsMid(t) then t.path == [] && IsLeaf(c) && t.children == [c]
         else c.nType == Param && |t.children| == |t.indices| + 1 && Head(c) == COLON
  {
    var c := t.children[|t.children|-1];
    assert !IsMid(t) ==> StaticShape(t);
    assert IsMid(t) ==> CatchAllShape(t);
    assert WF(c, pre + t.path);
    assert Formed(c, pre + t.path);
  }

  /** Behind a param. */
  lemma BehindParam(c: Tree, pre: bytes, rest: bytes)
    requires Formed(c, pre) && c.nType == Param && c.children != []
    ensures Stop(c.children[0], pre + c.path)
  {
    assert WF(c.children[0], pre + c.path);
  }

  lemma {:induction false} SearchSound(root: Tree, t: Tree, pre: bytes, ps: seq<Binding>, used: bytes, path: bytes)
    requires Located(root, t, pre, ps, used) && Stands(t, pre, path)
    ensures Sound(root, used + path, Search(t, path, ps))
    decreases NodeSize(t), 1
  {
    hide Located, Found, Stands, Stop, Formed;
    if t.path < path {
      var rest := path[|t.path|..];
      PrefixSplit(t.path, path);
      assert used + t.path + rest == used + path;
      if rest[0] in t.indices {
        StaticChild(t, pre, path);
        var k := IndexOf(t.indices, rest[0]);
        LocatedNode(t, pre, path);
        LocatedChild(root, t, pre, ps, used, k);
        SearchSound(root, t.children[k], pre + t.path, ps, used + t.path, rest);
      }
      if t.wildChild { WildSound(root, t, pre, ps, used, path); }
    } else if path == t.path && t.handlers != [] {
      StandsStop(t, pre, path);
      FoundHere(root, t, pre, ps, used);
    }
  }

  lemma LocatedNode(t: Tree, pre: bytes, path: bytes)
    requires Stands(t, pre, path)
    ensures t.nType != Param && !IsLeaf(t)
  {
  }

  lemma StandsStop(t: Tree, pre: bytes, path: bytes)
    requires Stands(t, pre, path) && !(t.path < path)
    ensures Stop(t, pre) && t.nType != CatchAll && t.nType != Param
  {
    assert IsMid(t) ==> CatchAllShape(t);
  }

  lemma {:induction false} WildSound(root: Tree, t: Tree, pre: bytes, ps: seq<Binding>, used: bytes, path: bytes)
    requires Located(root, t, pre, ps, used) && Stands(t, pre, path) && t.path < path && t.wildChild
    ensures Sound(root, used + path, Wild(t, path[|t.path|..], ps))
    decreases NodeSize(t), 0
  {
    hide Located, Found, Stands, Stop, Formed;
    var rest := path[|t.path|..];
    PrefixSplit(t.path, path);
    assert used + t.path + rest == used + path;
    WildKind(t, pre, path);
    LocatedNode(t, pre, path);
    LocatedChild(root, t, pre, ps, used, |t.children| - 1);
    var c := t.children[|t.children|-1];
    if c.nType == Param {
      var e := SegEnd(rest);
      NoSlashBefore(rest);
      LocatedParam(root, c, pre + t.path, ps, used + t.path, rest[..e]);
      assert used + t.path + rest[..e] + rest[e..] == used + t.path + rest;
      if e < |rest| {
        if c.children != [] {
          BehindParam(c, pre + t.path, rest);
          StopStands(c.children[0], pre + t.path + c.path, rest[e..]);
          var qs := ps + [Binding(c.path[1..], rest[..e])];
          SearchSound(root, c.children[0], pre + t.path + c.path, qs, used + t.path + rest[..e], rest[e..]);
        }
      } else {
        assert rest[..e] == rest;
      }
    } else {
      MidHead(t, pre, path);
      LeafHandlers(c, pre + t.path);
      FoundCatchAll(root, c, pre + t.path, ps, used + t.path, rest);
    }
  }

  lemma StopStands(t: Tree, pre: bytes, path: bytes)
    requires Stop(t, pre)
    ensures Stands(t, pre, path)
  {
  }

  lemma NoSlashBefore(rest: bytes)
    ensures SLASH !in rest[..SegEnd(rest)]
  {
  }

  lemma MidHead(t: Tree, pre: bytes, path: bytes)
    requires Stands(t, pre, path) && IsMid(t) && t.path == []
    ensures path != [] && path[|t.path|..] == path && path[0] == SLASH
  {
  }

  lemma LeafHandlers(c: Tree, pre: bytes)
    requires Formed(c, pre) && IsLeaf(c)
    ensures c.handlers != []
  {
  }

  // ---------------------------------------------------------------- requests that are routes

  /** A registered wildcard-free route is found as it is, whatever else is in the tree. */
  lemma {:induction false} SearchDirect(t: Tree, pre: bytes, path: bytes, ps: seq<Binding>)
    requires Stop(t, pre) && Plain(path) && Get(t, path) != []
    ensures var l := Search(t, path, ps); l.Hit? && l.r.handlers == Get(t, path) && l.r.params == ps
    decreases NodeSize(t)
  {
    if t.path < path {
      var rest := path[|t.path|..];
      PrefixSplit(t.path, path);
      assert forall i :: 0 <= i < |rest| ==> rest[i] == path[|t.path| + i];
      PlainChild(t, pre, rest, 0);
      StaticChild(t, pre, path);
      var k := IndexOf(t.indices, rest[0]);
      PlainChild(t, pre, rest, k);
      assert WF(t.children[k], pre + t.path);
      SearchDirect(t.children[k], pre + t.path, rest, ps);
    }
  }

  // ---------------------------------------------------------------- trees that leave no choice

  lemma {:induction false} SearchForkless(t: Tree, pre: bytes, path: bytes, ps: seq<Binding>)
    requires Stands(t, pre, path) && Forkless(t)
    ensures Search(t, path, ps).Hit? <==> HasMatch(t, path)
    decreases NodeSize(t), 1
  {
    hide HasMatch;
    if !(t.path < path) {
      StandsStop(t, pre, path);
      StopInner(t, pre);
      if path == t.path { MatchHere(t); } else { NoMatchAside(t, path); }
    } else if path[|t.path|] in t.indices {
      StaticChild(t, pre, path);
      var k := IndexOf(t.indices, path[|t.path|]);
      StopVia(t, pre, path, k);
      SearchForkless(t.children[k], pre + t.path, path[|t.path|..], ps);
    } else if t.wildChild {
      WildForkless(t, pre, path, ps);
    } else {
      assert Stop(t, pre) by { MidWild(t, pre, path); }
      StopNowhere(t, pre, path);
    }
  }

  lemma MidWild(t: Tree, pre: bytes, path: bytes)
    requires Stands(t, pre, path) && !t.wildChild
    ensures Stop(t, pre)
  {
  }

  lemma {:induction false} WildForkless(t: Tree, pre: bytes, path: bytes, ps: seq<Binding>)
    requires Stands(t, pre, path) && Forkless(t) && t.path < path && t.wildChild
    ensures Wild(t, path[|t.path|..], ps).Hit? <==> HasMatch(t, path)
    decreases NodeSize(t), 0
  {
    hide HasMatch;
    WildKind(t, pre, path);
    if IsMid(t) {
      MatchMid(t, pre, path);
    } else {
      StopWild(t, pre, path);
      var c, rest := t.children[0], path[|t.path|..];
      var e := SegEnd(rest);
      MatchParam(c, pre + t.path, rest, e);
      if e < |rest| && c.children != [] {
        BehindParam(c, pre + t.path, rest);
        SearchForkless(c.children[0], pre + t.path + c.path, rest[e..], ps + [Binding(c.path[1..], rest[..e])]);
      }
    }
  }
}
