/** Which requests some route of a tree matches, where the descent has no choice to make. */
module RouteReach {
  import opened Bytes
  import opened RouteTree
  import opened RouteInsert
  import opened RouteMatch
  import opened RouteLookup
  import opened RouteClash
  import opened RoutePanics

  /** A param at the end of a pattern took something. */
  predicate Filled(pat: bytes, ps: seq<Binding>) { Open(pat) ==> ps != [] && ps[|ps|-1].value != [] }

  /** Some route of `t` matches `path`, with a non-empty value for a final param. */
  ghost predicate HasMatch(t: Tree, path: bytes) {
    exists q, ps :: Get(t, q) != [] && Matches(q, ps, path) && Filled(q, ps)
  }

  /** No node of `t` has both static children and a param child. */
  predicate Forkless(t: Tree)
    decreases t
  {
    && (t.nType == Static || t.nType == Root ==> t.indices == [] || !t.wildChild)
    && forall i :: 0 <= i < |t.children| ==> Forkless(t.children[i])
  }

  // ---------------------------------------------------------------- patterns

  lemma {:induction false} MatchesPast(a: bytes, q: bytes, ps: seq<Binding>, path: bytes)
    requires Plain(a) && !StarFirst(q)
    ensures Matches(a + q, ps, path) <==> a <= path && Matches(q, ps, path[|a|..])
    decreases |a|
  {
    if a == [] {
      assert a + q == q && path[0..] == path;
    } else {
      var p := a + q;
      assert p[1..] == a[1..] + q;
      assert !Mark(a[0]) && (|a| >= 2 ==> !Mark(a[1]));
      assert |p| >= 2 ==> p[1] == if |a| >= 2 then a[1] else q[0];
      LiteralMatches(p, ps, path);
      if path != [] {
        MatchesPast(a[1..], q, ps, path[1..]);
        assert a <= path <==> a[0] == path[0] && a[1..] <= path[1..] by { PrefixTail(a, path); }
        assert a <= path ==> path[1..][|a|-1..] == path[|a|..];
      }
    }
  }

  lemma PrefixTail(a: bytes, b: bytes)
    requires a != [] && b != []
    ensures a <= b <==> a[0] == b[0] && a[1..] <= b[1..]
  {
    if a[0] == b[0] && a[1..] <= b[1..] {
      assert a == [a[0]] + a[1..] && b == [b[0]] + b[1..];
    }
    if a <= b {
      assert b[..|a|][1..] == b[1..][..|a|-1];
    }
  }

  lemma FilledPast(w: bytes, q: bytes, ps: seq<Binding>)
    requires Plain(w) || (q != [] && q[0] == SLASH)
    ensures Filled(w + q, ps) <==> Filled(q, ps)
  {
    var p := w + q;
    if q != [] && q[0] == SLASH {
      forall k | 0 <= k <= |w| ensures SLASH in p[k..] { SlashBehind(w, q, k); }
    }
    if Open(p) {
      var i :| 0 <= i < |p| && p[i] == COLON && SLASH !in p[i..];
      assert p[i] == q[i - |w|] && p[i..] == q[i - |w|..];
    }
    if Open(q) { assert p[|w|..] == q; OpenTail(p, |w|); }
  }

  lemma SlashBehind(w: bytes, q: bytes, i: nat)
    requires i <= |w| && q != [] && q[0] == SLASH
    ensures SLASH in (w + q)[i..]
  {
    assert (w + q)[i..][|w| - i] == SLASH;
  }

  lemma MatchesHead(q: bytes, ps: seq<Binding>, path: bytes)
    requires Matches(q, ps, path) && q != [] && q[0] != COLON
    ensures path != [] && path[0] == q[0]
  {
  }

  /** Nothing but a final param with an empty value matches the empty rest. */
  lemma MatchesEmpty(q: bytes, ps: seq<Binding>)
    requires Matches(q, ps, []) && Filled(q, ps)
    ensures q == []
  {
    if q != [] && q[0] == COLON { ParamOnEmpty(q, ps); }
  }

  lemma ParamOnEmpty(q: bytes, ps: seq<Binding>)
    requires Matches(q, ps, []) && q != [] && q[0] == COLON
    ensures Open(q) && |ps| == 1 && ps[0].value == []
  {
    var k := 1 + SegEnd(q[1..]);
    assert k < |q| ==> q[k] == q[1..][k-1];
    TailOnEmpty(q[k..], ps[1..]);
    assert q[0..] == [COLON] + q[1..];
  }

  lemma TailOnEmpty(q: bytes, ps: seq<Binding>)
    requires Matches(q, ps, []) && AtEnd(q)
    ensures q == [] && ps == []
  {
    if q != [] { MatchesHead(q, ps, []); }
  }

  /** A param followed by `q`. */
  lemma MatchesParam(w: bytes, q: bytes, ps: seq<Binding>, rest: bytes)
    requires ParamName(w) && AtEnd(q)
    ensures Matches(w + q, ps, rest) <==>
      && ps != [] && ps[0].key == w[1..] && SLASH !in ps[0].value && ps[0].value <= rest
      && Matches(q, ps[1..], rest[|ps[0].value|..])
  {
    var p := w + q;
    SegEndAll(w[1..]);
    SegEndJoin(w[1..], q);
    assert p[1..] == w[1..] + q && p[1..|w|] == w[1..] && p[|w|..] == q;
    ParamMatches(p, ps, rest);
  }

  // ---------------------------------------------------------------- the steps of a descent

  /** A match below `t` in terms of what follows its path. */
  lemma MatchBelow(t: Tree, p: bytes, ps: seq<Binding>, path: bytes) returns (q: bytes)
    requires Inner(t) && Plain(t.path) && Get(t, p) != [] && Matches(p, ps, path) && Filled(p, ps)
    ensures p == t.path + q && t.path <= path && Matches(q, ps, path[|t.path|..]) && Filled(q, ps)
    ensures if q == [] then t.handlers != [] else exists j :: 0 <= j < |t.children| && Head(t.children[j]) == q[0]
  {
    hide Matches, Filled;
    q := RouteBelow(t, p);
    MatchesPast(t.path, q, ps, path);
    FilledPast(t.path, q, ps);
  }

  lemma NoMatchAside(t: Tree, path: bytes)
    requires Inner(t) && Plain(t.path) && !(t.path <= path)
    ensures !HasMatch(t, path)
  {
    hide Matches, Filled;
    if p, ps :| Get(t, p) != [] && Matches(p, ps, path) && Filled(p, ps) { var q := MatchBelow(t, p, ps, path); }
  }

  lemma MatchHere(t: Tree)
    requires Inner(t) && Plain(t.path)
    ensures HasMatch(t, t.path) <==> t.handlers != []
  {
    if p, ps :| Get(t, p) != [] && Matches(p, ps, t.path) && Filled(p, ps) {
      var q := MatchBelow(t, p, ps, t.path);
      MatchesEmpty(q, ps);
    }
    if t.handlers != [] {
      PlainMatches(t.path, [], t.path);
      assert Get(t, t.path) == t.handlers && Filled(t.path, []);
    }
  }

  lemma NoMatchBelow(t: Tree, path: bytes)
    requires Inner(t) && Plain(t.path) && t.path <= path && |path| > |t.path|
    requires forall j :: 0 <= j < |t.children| ==> Head(t.children[j]) !in [COLON, path[|t.path|]]
    ensures !HasMatch(t, path)
  {
    hide Matches, Filled;
    if p, ps :| Get(t, p) != [] && Matches(p, ps, path) && Filled(p, ps) {
      var q := MatchBelow(t, p, ps, path);
      NothingLeft(q, ps, path[|t.path|..]);
      MatchesHead(q, ps, path[|t.path|..]);
    }
  }

  lemma NothingLeft(q: bytes, ps: seq<Binding>, rest: bytes)
    requires Matches(q, ps, rest) && rest != []
    ensures q != []
  {
  }

  /** Where every route that can match goes on in child `k`. */
  lemma MatchVia(t: Tree, pre: bytes, k: nat, path: bytes)
    requires Formed(t, pre) && t.nType != CatchAll && Plain(t.path) && t.path <= path && |path| > |t.path|
    requires k < |t.children|
    requires
      || |t.children| == 1
      || (Head(t.children[k]) == path[|t.path|] && forall j :: 0 <= j < |t.children| ==> Head(t.children[j]) != COLON)
    ensures HasMatch(t, path) <==> HasMatch(t.children[k], path[|t.path|..])
  {
    hide Matches, Filled, Formed;
    ShapeInner(t) by { FormedShape(t, pre); }
    var rest := path[|t.path|..];
    if p, ps :| Get(t, p) != [] && Matches(p, ps, path) && Filled(p, ps) {
      var q := MatchBelow(t, p, ps, path);
      NothingLeft(q, ps, rest);
      if |t.children| > 1 { MatchesHead(q, ps, rest); }
      GetVia(t, k, q);
    }
    if q, ps :| Get(t.children[k], q) != [] && Matches(q, ps, rest) && Filled(q, ps) {
      ChildRoute(t, pre, k, q);
      RouteStar(t, q);
      MatchesPast(t.path, q, ps, path);
      FilledPast(t.path, q, ps);
      assert Get(t, t.path + q) != [];
    }
  }

  lemma FormedShape(t: Tree, pre: bytes)
    requires Formed(t, pre)
    ensures Shape(t)
  {
  }

  lemma RouteStar(t: Tree, q: bytes)
    requires Inner(t) && Get(t, t.path + q) != []
    ensures !StarFirst(q)
  {
    var r := RouteBelow(t, t.path + q);
    assert q == (t.path + q)[|t.path|..] == r;
  }

  /** Past a param, whose value reaches to the next slash. */
  lemma MatchParam(c: Tree, pre: bytes, rest: bytes, e: nat)
    requires Formed(c, pre) && c.nType == Param && rest != [] && e <= |rest| && SLASH !in rest[..e]
    requires e < |rest| ==> rest[e] == SLASH
    ensures HasMatch(c, rest) <==>
      if e == |rest| then c.handlers != [] else c.children != [] && HasMatch(c.children[0], rest[e..])
  {
    hide Matches, Filled, Formed, Get;
    ShapeInner(c) by { FormedShape(c, pre); }
    ParamParts(c, pre);
    if p, ps :| Get(c, p) != [] && Matches(p, ps, rest) && Filled(p, ps) { PastParam(c, pre, p, ps, rest, e); }
    var b := Binding(c.path[1..], rest[..e]);
    if e == |rest| {
      if c.handlers != [] { EndInParam(c, b, rest); }
    } else if c.children != [] {
      if q, ps :| Get(c.children[0], q) != [] && Matches(q, ps, rest[e..]) && Filled(q, ps) {
        ThroughParam(c, pre, q, ps, b, rest, e);
      }
    }
  }

  lemma ParamParts(c: Tree, pre: bytes)
    requires Formed(c, pre) && c.nType == Param
    ensures ParamName(c.path) && |c.children| <= 1 && Inner(c)
    ensures c.children != [] ==> Head(c.children[0]) == SLASH && c.children[0].nType == Static
  {
    ShapeInner(c);
  }

  lemma PastParam(c: Tree, pre: bytes, p: bytes, ps: seq<Binding>, rest: bytes, e: nat)
    requires Formed(c, pre) && c.nType == Param && rest != [] && e <= |rest| && SLASH !in rest[..e]
    requires e < |rest| ==> rest[e] == SLASH
    requires Get(c, p) != [] && Matches(p, ps, rest) && Filled(p, ps)
    ensures if e == |rest| then c.handlers != [] else c.children != [] && HasMatch(c.children[0], rest[e..])
  {
    hide Matches, Filled, Formed, Get;
    ParamParts(c, pre);
    var q := RouteBelow(c, p);
    assert AtEnd(q) by { ParamFits(c.path, q); }
    MatchesParam(c.path, q, ps, rest);
    var v := ps[0].value;
    assert forall i :: 0 <= i < |v| ==> v[i] == rest[i];
    assert |v| < e ==> rest[..e][|v|] == rest[|v|] && rest[|v|] != SLASH;
    if q == [] {
      NothingMatches(ps[1..], rest[|v|..]);
    } else {
      MatchesHead(q, ps[1..], rest[|v|..]);
      FilledPast(c.path, q, ps);
      FilledTail(q, ps, rest[|v|..]);
      GetVia(c, 0, q);
    }
  }

  lemma ParamFits(w: bytes, q: bytes)
    requires ParamName(w) && Fits(w, q)
    ensures AtEnd(q)
  {
    assert Mark(w[0]);
  }

  lemma NothingMatches(ps: seq<Binding>, rest: bytes)
    requires Matches([], ps, rest)
    ensures rest == []
  {
  }

  /** A pattern that starts with a slash does not look at a binding before its own. */
  lemma FilledTail(q: bytes, ps: seq<Binding>, rest: bytes)
    requires ps != [] && Matches(q, ps[1..], rest) && Filled(q, ps)
    ensures Filled(q, ps[1..])
  {
    if Open(q) && ps[1..] == [] { NoBindingsNoParams(q, rest); }
  }

  lemma {:induction false} NoBindingsNoParams(q: bytes, rest: bytes)
    requires Matches(q, [], rest)
    ensures COLON !in q
    decreases |q|
  {
    if q != [] {
      NoBindingsNoParams(q[1..], rest[1..]);
      assert q == [q[0]] + q[1..];
    }
  }

  lemma EndInParam(c: Tree, b: Binding, rest: bytes)
    requires ParamName(c.path) && c.handlers != [] && rest != [] && SLASH !in rest
    requires b == Binding(c.path[1..], rest[..|rest|])
    ensures HasMatch(c, rest)
  {
    assert rest[..|rest|] == rest;
    MatchesParam(c.path, [], [b], rest);
    assert c.path + [] == c.path && [b][1..] == [] && rest[|rest|..] == [];
    assert Get(c, c.path) == c.handlers && Filled(c.path, [b]);
  }

  lemma ThroughParam(c: Tree, pre: bytes, q: bytes, ps: seq<Binding>, b: Binding, rest: bytes, e: nat)
    requires Formed(c, pre) && c.nType == Param && c.children != [] && e < |rest| && rest[e] == SLASH
    requires SLASH !in rest[..e]
    requires Get(c.children[0], q) != [] && Matches(q, ps, rest[e..]) && Filled(q, ps)
    requires b == Binding(c.path[1..], rest[..e])
    ensures HasMatch(c, rest)
  {
    hide Matches, Formed, Get;
    ParamParts(c, pre);
    ChildRoute(c, pre, 0, q);
    ParamFits(c.path, q);
    NothingLeft(q, ps, rest[e..]);
    var qs := [b] + ps;
    assert qs[1..] == ps && rest[|b.value|..] == rest[e..];
    MatchesParam(c.path, q, qs, rest);
    FilledPast(c.path, q, qs);
    assert Filled(q, qs) by { assert Open(q) ==> qs[|qs|-1] == ps[|ps|-1]; }
    assert Get(c, c.path + q) != [];
  }

  /** A catch-all matches whatever starts with a slash. */
  lemma MatchMid(t: Tree, pre: bytes, path: bytes)
    requires Formed(t, pre) && IsMid(t) && path != [] && path[0] == SLASH
    ensures HasMatch(t, path)
  {
    var leaf := CatchAllRoute(t, pre);
    assert Matches(leaf.path, [Binding(leaf.path[2..], path)], path);
    assert Filled(leaf.path, [Binding(leaf.path[2..], path)]);
  }

  // ---------------------------------------------------------------- trees without a choice

  /** A node that a lookup can stand at, with its own path ahead. */
  ghost predicate Stop(t: Tree, pre: bytes) {
    (Formed(t, pre) && (t.nType == Static || t.nType == Root)) || EmptyRoot(t)
  }

  lemma StopInner(t: Tree, pre: bytes)
    requires Stop(t, pre)
    ensures Inner(t) && Plain(t.path)
    ensures forall j ::
      0 <= j < |t.children| ==> Head(t.children[j]) in t.indices || (t.wildChild && Head(t.children[j]) == COLON)
    ensures |t.children| == |t.indices| + (if t.wildChild then 1 else 0)
  {
    if !EmptyRoot(t) {
      ShapeInner(t);
      assert StaticShape(t);
    }
  }

  lemma StopNowhere(t: Tree, pre: bytes, path: bytes)
    requires Stop(t, pre) && !t.wildChild && t.path <= path && |path| > |t.path| && path[|t.path|] !in t.indices
    ensures !HasMatch(t, path)
  {
    hide Stop, HasMatch;
    StopInner(t, pre);
    StopPlain(t, pre);
    NoMatchBelow(t, path);
  }

  lemma StopPlain(t: Tree, pre: bytes)
    requires Stop(t, pre)
    ensures Plain(t.indices)
  {
    if !EmptyRoot(t) { assert StaticShape(t); }
  }

  lemma StopVia(t: Tree, pre: bytes, path: bytes, k: nat)
    requires Stop(t, pre) && Forkless(t) && t.path <= path && |path| > |t.path|
    requires k < |t.indices| && t.indices[k] == path[|t.path|]
    ensures !t.wildChild && k < |t.children| && Forkless(t.children[k])
    ensures HasMatch(t, path) <==> HasMatch(t.children[k], path[|t.path|..])
  {
    hide HasMatch;
    assert StaticShape(t);
    MatchVia(t, pre, k, path);
  }

  lemma StopWild(t: Tree, pre: bytes, path: bytes)
    requires Formed(t, pre) && (t.nType == Static || t.nType == Root) && t.wildChild && Forkless(t)
    requires t.path <= path && |path| > |t.path|
    ensures |t.children| == 1 && Forkless(t.children[0])
    ensures HasMatch(t, path) <==> HasMatch(t.children[0], path[|t.path|..])
  {
    hide HasMatch;
    assert StaticShape(t);
    MatchVia(t, pre, 0, path);
  }

  // ---------------------------------------------------------------- which routes leave no choice

  /** Where the two patterns first differ one has a param and the other goes on otherwise. */
  predicate Forks(p: bytes, q: bytes) {
    var d := Lcp(p, q);
    d < |p| && d < |q| && (p[d] == COLON || q[d] == COLON)
  }

  ghost predicate NoForks(t: Tree) { forall p, q :: Get(t, p) != [] && Get(t, q) != [] ==> !Forks(p, q) }

  lemma ForksVia(w: bytes, p: bytes, q: bytes)
    ensures Forks(w + p, w + q) <==> Forks(p, q)
  {
    LcpShift(w, p, q);
  }

  lemma ForksHere(p: bytes, q: bytes)
    requires p != [] && q != [] && p[0] != q[0]
    ensures Forks(p, q) <==> p[0] == COLON || q[0] == COLON
  {
    assert Lcp(p, q) == 0;
  }

  lemma NoForkSelf(p: bytes)
    ensures !Forks(p, p)
  {
    LcpIs(p, p, |p|);
  }

  /** Routes that fork at `t` itself. */
  lemma ForkAt(t: Tree, pre: bytes)
    requires Formed(t, pre) && t.nType != CatchAll && t.nType != Param && t.wildChild && t.indices != []
    ensures !NoForks(t)
  {
    hide Forks, Get;
    var k := |t.indices|;
    assert StaticShape(t);
    assert WF(t.children[0], pre + t.path) && WF(t.children[k], pre + t.path);
    var p := SomeRoute(t.children[0], pre + t.path);
    var q := SomeRoute(t.children[k], pre + t.path);
    GetHead(t.children[0], pre + t.path, p);
    GetHead(t.children[k], pre + t.path, q);
    GetBelow(t, pre, 0, p);
    GetBelow(t, pre, k, q);
    ForksHere(p, q);
    ForksVia(t.path, p, q);
  }

  lemma ForkBelow(t: Tree, pre: bytes, k: nat)
    requires Formed(t, pre) && k < |t.children| && !NoForks(t.children[k])
    ensures !NoForks(t)
  {
    hide Forks, Get;
    var p, q :| Get(t.children[k], p) != [] && Get(t.children[k], q) != [] && Forks(p, q);
    GetBelow(t, pre, k, p);
    GetBelow(t, pre, k, q);
    ForksVia(t.path, p, q);
  }

  /** Two routes fork at a node with a choice, or below one of its children. */
  lemma ForkFrom(t: Tree, pre: bytes, p: bytes, q: bytes) returns (k: nat)
    requires Formed(t, pre) && t.nType != CatchAll && Get(t, p) != [] && Get(t, q) != [] && Forks(p, q)
    requires t.nType == Static || t.nType == Root ==> t.indices == [] || !t.wildChild
    ensures k < |t.children| && !NoForks(t.children[k])
  {
    hide Forks, Get;
    ShapeInner(t);
    var a := RouteBelow(t, p);
    var b := RouteBelow(t, q);
    ForksVia(t.path, a, b);
    ForksLong(a, b);
    var i :| 0 <= i < |t.children| && Head(t.children[i]) == a[0];
    var j :| 0 <= j < |t.children| && Head(t.children[j]) == b[0];
    if i != j {
      OneKind(t, i, j);
      ForksHere(a, b);
    }
    GetVia(t, i, a);
    GetVia(t, i, b);
    k := i;
  }

  lemma ForksLong(a: bytes, b: bytes)
    requires Forks(a, b)
    ensures a != [] && b != []
  {
  }

  /** A node without a choice has no param child beside another. */
  lemma OneKind(t: Tree, i: nat, j: nat)
    requires Shape(t) && t.nType != CatchAll
    requires t.nType == Static || t.nType == Root ==> t.indices == [] || !t.wildChild
    requires i < |t.children| && j < |t.children| && i != j
    ensures Head(t.children[i]) != Head(t.children[j]) && Head(t.children[i]) != COLON && Head(t.children[j]) != COLON
  {
    ShapeDistinctHeads(t);
    assert t.nType != Param ==> StaticShape(t);
  }

  /** A tree leaves no choice if and only if no two of its routes fork. */
  lemma {:induction false} ForklessIs(t: Tree, pre: bytes)
    requires Formed(t, pre)
    ensures Forkless(t) <==> NoForks(t)
    decreases t
  {
    hide NoForks, Forks, Get;
    forall k | 0 <= k < |t.children| ensures Forkless(t.children[k]) <==> NoForks(t.children[k]) {
      assert WF(t.children[k], pre + t.path);
      ForklessIs(t.children[k], pre + t.path);
    }
    if t.nType == CatchAll {
      CatchAllForkless(t, pre);
    } else if !Forkless(t) {
      if k :| 0 <= k < |t.children| && !Forkless(t.children[k]) { ForkBelow(t, pre, k); } else { ForkAt(t, pre); }
    } else if !NoForks(t) {
      var p, q := TwoForks(t);
      var k := ForkFrom(t, pre, p, q);
    }
  }

  lemma TwoForks(t: Tree) returns (p: bytes, q: bytes)
    requires !NoForks(t)
    ensures Get(t, p) != [] && Get(t, q) != [] && Forks(p, q)
  {
    p, q :| Get(t, p) != [] && Get(t, q) != [] && Forks(p, q);
  }

  lemma CatchAllForkless(t: Tree, pre: bytes)
    requires Formed(t, pre) && t.nType == CatchAll
    ensures Forkless(t) && NoForks(t)
  {
    hide Forks;
    var leaf := t;
    if IsMid(t) { leaf := LeafOf(t, pre); }
    forall p | Get(t, p) != [] ensures p == leaf.path { OneRoute(t, leaf, pre, p); }
    NoForkSelf(leaf.path);
  }

  lemma OneRoute(t: Tree, leaf: Tree, pre: bytes, p: bytes)
    requires Formed(t, pre) && Get(t, p) != [] && IsLeaf(leaf) && CatchAllShape(leaf)
    requires t == leaf || (t.path == [] && t.children == [leaf] && t.handlers == [])
    ensures p == leaf.path
  {
    if t != leaf {
      assert t.path + p == p;
      GetHead(t, pre, p);
    }
    if leaf.path <= p { PrefixSplit(leaf.path, p); }
  }
}
