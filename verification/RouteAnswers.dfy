/** A lookup answers exactly where some route matches and no dead end is ahead of it. */
module RouteAnswers {
  import opened Bytes
  import opened RouteTree
  import opened RouteInsert
  import opened RouteMatch
  import opened RouteLookup
  import opened RouteClash
  import opened RoutePanics
  import opened RouteReach
  import opened RouteSearch
  import opened RouteExact
  import opened RouteSlash

  // ---------------------------------------------------------------- where the descent ends

  lemma AcceptsEmpty(q: bytes)
    requires Accepts(q, [])
    ensures q == []
  {
    var ps :| Matches(q, ps, []) && Filled(q, ps);
    MatchesEmpty(q, ps);
  }

  lemma AcceptsItself(p: bytes)
    requires Plain(p)
    ensures Accepts(p, p)
  {
    PlainMatches(p, [], p);
    assert Filled(p, []);
  }

  /** A request that does not go past the path of a node. */
  lemma EndsAtNode(t: Tree, path: bytes)
    requires Inner(t) && Plain(t.path) && !(t.path < path)
    ensures DeadEnds(RoutesOf(t), path) == iset{}
    ensures Accepting(RoutesOf(t), path) == if path == t.path && t.handlers != [] then iset{path} else iset{}
  {
    hide Accepts, TakesPart, DeadEnd, GoesOn, Inner;
    var R := RoutesOf(t);
    forall b | b in DeadEnds(R, path) ensures false {
      DeadStem(R, b, path);
      var c := StemBelow(t, b);
      DeadPast(t, b, c, path);
    }
    forall p | p in Accepting(R, path) ensures p == path == t.path && t.handlers != [] {
      var q := RouteBelow(t, p);
      AcceptsPast(t.path, q, path);
      assert t.path == path && path[|t.path|..] == [];
      AcceptsEmpty(q);
    }
    if path == t.path && t.handlers != [] {
      AcceptsItself(path);
      assert Get(t, path) == t.handlers;
    }
  }

  lemma DeadPast(t: Tree, b: bytes, c: bytes, path: bytes)
    requires Plain(t.path) && DeadEnd(RoutesOf(t), b, path) && b == t.path + c && c != [] && !StarFirst(c)
    ensures t.path < path
  {
    hide Accepts, TakesPart, GoesOn;
    AcceptsPast(t.path, c, path);
    TakesPast(t.path, c, path);
    if t.path == path {
      assert path[|t.path|..] == [];
      NothingTaken(c);
      AcceptsEmpty(c);
    }
  }

  lemma NothingTaken(c: bytes)
    ensures !TakesPart(c, [])
  {
  }

  /** A tree without routes. */
  lemma NoRoutes(R: iset<bytes>, path: bytes)
    requires R == iset{}
    ensures Accepting(R, path) == iset{} && DeadEnds(R, path) == iset{}
  {
  }

  // ---------------------------------------------------------------- the slash that is not there

  lemma UnslashedChild(t: Tree, pre: bytes, k: nat, path: bytes)
    requires Formed(t, pre) && t.nType != CatchAll && Plain(t.path) && t.path < path && k < |t.children|
    requires Unslashed(RoutesOf(t), path)
    ensures Unslashed(RoutesOf(t.children[k]), path[|t.path|..])
  {
    hide Matches, Formed, Get;
    var rest := path[|t.path|..];
    forall r, ps | r in RoutesOf(t.children[k]) && r != [] && r[|r|-1] == SLASH
      ensures !Matches(r, ps, rest + [SLASH])
    {
      RouteUp(t, pre, k, r);
      assert (t.path + r)[|t.path + r|-1] == SLASH;
      MatchesPast(t.path, r, ps, path + [SLASH]);
      assert t.path == (path + [SLASH])[..|t.path|];
      assert (path + [SLASH])[|t.path|..] == rest + [SLASH];
    }
  }

  lemma UnslashedParam(c: Tree, pre: bytes, rest: bytes, e: nat)
    requires Formed(c, pre) && c.nType == Param && c.children != []
    requires e < |rest| && SLASH !in rest[..e] && rest[e] == SLASH
    requires Unslashed(RoutesOf(c), rest)
    ensures Unslashed(RoutesOf(c.children[0]), rest[e..])
  {
    hide Matches, Formed, Get;
    ParamParts(c, pre);
    forall r, ps | r in RoutesOf(c.children[0]) && r != [] && r[|r|-1] == SLASH
      ensures !Matches(r, ps, rest[e..] + [SLASH])
    {
      RouteUp(c, pre, 0, r);
      ParamFits(c.path, r);
      assert (c.path + r)[|c.path + r|-1] == SLASH;
      var b := Binding(c.path[1..], rest[..e]);
      var qs := [b] + ps;
      assert qs[1..] == ps && b.value <= rest + [SLASH] && (rest + [SLASH])[e..] == rest[e..] + [SLASH];
      MatchesParam(c.path, r, qs, rest + [SLASH]);
    }
  }

  lemma SlashMoreNot(t: Tree, path: bytes)
    requires Plain(t.path) && Unslashed(RoutesOf(t), path)
    ensures !SlashMore(t, path)
  {
    if t.path == path + [SLASH] && t.handlers != [] {
      assert Get(t, t.path) == t.handlers;
      PlainMatches(t.path, [], t.path);
    }
  }

  // ---------------------------------------------------------------- a param

  lemma AcceptsParam(w: bytes, q: bytes, rest: bytes, e: nat)
    requires ParamName(w) && q != [] && q[0] == SLASH
    requires e < |rest| && SLASH !in rest[..e] && rest[e] == SLASH
    ensures Accepts(w + q, rest) <==> Accepts(q, rest[e..])
  {
    hide Matches, Filled;
    if ps :| Matches(w + q, ps, rest) && Filled(w + q, ps) {
      MatchesParam(w, q, ps, rest);
      ValueEnds(w, q, ps, rest, e);
      FilledPast(w, q, ps);
      FilledTail(q, ps, rest[e..]);
    }
    if ps :| Matches(q, ps, rest[e..]) && Filled(q, ps) {
      var b := Binding(w[1..], rest[..e]);
      var qs := [b] + ps;
      assert qs[1..] == ps;
      MatchesParam(w, q, qs, rest);
      FilledPast(w, q, qs);
      FilledMore(q, b, ps, rest[e..]);
    }
  }

  /** The value of a param ends at the next slash. */
  lemma ValueEnds(w: bytes, q: bytes, ps: seq<Binding>, rest: bytes, e: nat)
    requires ps != [] && SLASH !in ps[0].value && ps[0].value <= rest && q != [] && q[0] == SLASH
    requires Matches(q, ps[1..], rest[|ps[0].value|..])
    requires e <= |rest| && SLASH !in rest[..e] && (e < |rest| ==> rest[e] == SLASH)
    ensures |ps[0].value| == e && e < |rest|
  {
    var v := ps[0].value;
    MatchesHead(q, ps[1..], rest[|v|..]);
    assert rest[|v|] == SLASH;
    assert forall i :: 0 <= i < |v| ==> v[i] == rest[i];
    assert |v| >= e;
  }

  lemma FilledMore(q: bytes, b: Binding, ps: seq<Binding>, rest: bytes)
    requires Matches(q, ps, rest) && Filled(q, ps)
    ensures Filled(q, [b] + ps)
  {
  }

  lemma TakesParam(w: bytes, q: bytes, rest: bytes, e: nat)
    requires ParamName(w) && q != [] && q[0] == SLASH
    requires e < |rest| && SLASH !in rest[..e] && rest[e] == SLASH
    ensures TakesPart(w + q, rest) <==> TakesPart(q, rest[e..])
  {
    hide Matches;
    if ps, j :| 0 <= j < |rest| && rest[j] == SLASH && Matches(w + q, ps, rest[..j]) {
      MatchesParam(w, q, ps, rest[..j]);
      assert j >= e;
      assert rest[..j][..e] == rest[..e];
      ValueEnds(w, q, ps, rest[..j], e);
      assert rest[..j][e..] == rest[e..][..j - e] && rest[e..][j - e] == SLASH;
    }
    if ps, j :| 0 <= j < |rest[e..]| && rest[e..][j] == SLASH && Matches(q, ps, rest[e..][..j]) {
      var b := Binding(w[1..], rest[..e]);
      var qs := [b] + ps;
      assert qs[1..] == ps && rest[..e + j][e..] == rest[e..][..j] && rest[..e] <= rest[..e + j];
      MatchesParam(w, q, qs, rest[..e + j]);
      assert rest[e + j] == SLASH;
    }
  }

  lemma OpenPastParam(w: bytes, q: bytes)
    requires q != [] && q[0] == SLASH
    ensures Open(w + q) <==> Open(q)
  {
    var p := w + q;
    forall k | 0 <= k <= |w| ensures SLASH in p[k..] { RouteReach.SlashBehind(w, q, k); }
    if Open(p) {
      var i :| 0 <= i < |p| && p[i] == COLON && SLASH !in p[i..];
      assert p[i] == q[i - |w|] && p[i..] == q[i - |w|..];
    }
    if Open(q) { assert p[|w|..] == q; OpenTail(p, |w|); }
  }

  /** The param by itself. */
  lemma ParamAlone(w: bytes, rest: bytes, e: nat)
    requires ParamName(w) && rest != [] && e <= |rest| && SLASH !in rest[..e] && (e < |rest| ==> rest[e] == SLASH)
    ensures Accepts(w, rest) <==> e == |rest|
    ensures e < |rest| ==> TakesPart(w, rest)
    ensures e == |rest| ==> !TakesPart(w, rest)
    ensures Open(w)
  {
    hide Matches;
    assert w + [] == w;
    if ps: seq<Binding> :| Matches(w, ps, rest) && Filled(w, ps) {
      MatchesParam(w, [], ps, rest);
      NothingMatches(ps[1..], rest[|ps[0].value|..]);
      assert ps[0].value == rest;
    }
    var b := Binding(w[1..], rest[..e]);
    assert [b][1..] == [] && rest[..e][e..] == [];
    MatchesNothing();
    MatchesParam(w, [], [b], rest[..e]);
    if e == |rest| {
      assert rest[..e] == rest;
      assert Filled(w, [b]);
    }
    assert w[0..] == [COLON] + w[1..];
  }

  lemma MatchesNothing()
    ensures Matches([], [], [])
  {
  }

  /** A request that ends in the value of the param. */
  lemma ParamEnds(c: Tree, pre: bytes, rest: bytes)
    requires Formed(c, pre) && c.nType == Param && Count(c) >= 1 && rest != [] && SLASH !in rest
    ensures var A, D := Accepting(RoutesOf(c), rest), DeadEnds(RoutesOf(c), rest);
      if c.handlers != [] then A == iset{c.path} && D == iset{} else A == iset{} && D == iset{c.path}
  {
    hide Accepts, TakesPart, Formed, Get, GoesOn;
    ParamParts(c, pre);
    var R := RoutesOf(c);
    assert rest[..|rest|] == rest;
    ParamAlone(c.path, rest, |rest|);
    ParamItself(c, pre);
    forall p | p in Accepting(R, rest) ensures p == c.path {
      var q := RouteBelow(c, p);
      ParamFits(c.path, q);
      if q != [] { NoSlashNoMatch(c.path, q, rest); }
      assert q == [] ==> p == c.path;
    }
    forall b | b in DeadEnds(R, rest) ensures b == c.path {
      var q := StemOfParam(c, pre, b);
      if q != [] { NoSlashNoMatch(c.path, q, rest); }
      assert q == [] ==> b == c.path;
      assert !TakesPart(b, rest) by { NoSlashNoPart(b, rest); }
    }
  }

  lemma NoSlashNoMatch(w: bytes, q: bytes, rest: bytes)
    requires ParamName(w) && q != [] && q[0] == SLASH && SLASH !in rest
    ensures !Accepts(w + q, rest)
  {
    hide Matches;
    if ps :| Matches(w + q, ps, rest) && Filled(w + q, ps) {
      MatchesParam(w, q, ps, rest);
      assert rest[..|rest|] == rest;
      ValueEnds(w, q, ps, rest, |rest|);
    }
  }

  lemma NoSlashNoPart(b: bytes, rest: bytes)
    requires SLASH !in rest
    ensures !TakesPart(b, rest)
  {
  }

  /** Is the beginning of a route that ends in a param that of `c` itself, or does it go beyond? */
  lemma StemOfParam(c: Tree, pre: bytes, b: bytes) returns (q: bytes)
    requires Formed(c, pre) && c.nType == Param && Open(b) && (b in RoutesOf(c) || GoesOn(RoutesOf(c), b))
    ensures b == c.path + q && (q != [] ==> q[0] == SLASH)
  {
    hide Formed, Get;
    ParamParts(c, pre);
    var r := b;
    if b !in RoutesOf(c) { r :| r in RoutesOf(c) && b + [SLASH] <= r; }
    var s := RouteBelow(c, r);
    ParamFits(c.path, s);
    assert b == r[..|b|];
    assert forall i :: 1 <= i < |c.path| ==> r[i] == c.path[1..][i - 1];
    assert b != [] && (|b| < |r| && r != b ==> r[|b|] == SLASH);
    q := b[|c.path|..];
    assert b == c.path + q;
    if q != [] { assert q[0] == r[|c.path|] == s[0]; }
  }

  /** Something goes on behind a param if it has a child, and it has routes. */
  lemma ParamItself(c: Tree, pre: bytes)
    requires Formed(c, pre) && c.nType == Param && Count(c) >= 1
    ensures c.path in RoutesOf(c) <==> c.handlers != []
    ensures GoesOn(RoutesOf(c), c.path) <==> c.children != []
    ensures c.handlers != [] || c.children != []
  {
    hide Formed, Get;
    ParamParts(c, pre);
    ParamOwn(c);
    if c.children != [] { ParamChild(c, pre); }
    if r :| r in RoutesOf(c) && c.path + [SLASH] <= r { var q := RouteBelow(c, r); }
  }

  lemma ParamOwn(c: Tree)
    ensures Get(c, c.path) == c.handlers
    ensures Count(c) >= 1 ==> c.handlers != [] || c.children != []
  {
    assert Count(c) == Own(c) + CountAll(c.children);
  }

  lemma ParamChild(c: Tree, pre: bytes)
    requires Formed(c, pre) && c.nType == Param && c.children != []
    ensures GoesOn(RoutesOf(c), c.path)
  {
    hide Formed, Get, Count;
    var d := c.children[0];
    ParamHead(c, pre);
    var q := SomeRoute(d, pre + c.path);
    RouteUp(c, pre, 0, q);
    assert q == [SLASH] + q[1..];
    assert c.path + q == c.path + [SLASH] + q[1..];
    assert c.path + q in RoutesOf(c) && c.path + [SLASH] <= c.path + q;
  }

  lemma ParamHead(c: Tree, pre: bytes)
    requires Formed(c, pre) && c.nType == Param && c.children != []
    ensures var d := c.children[0]; Formed(d, pre + c.path) && Count(d) >= 1 && Head(d) == SLASH
  {
    assert WF(c.children[0], pre + c.path);
  }

  /** A request that goes on behind the param, and nothing does. */
  lemma ParamStops(c: Tree, pre: bytes, rest: bytes, e: nat)
    requires Formed(c, pre) && c.nType == Param && Count(c) >= 1 && c.children == []
    requires e < |rest| && SLASH !in rest[..e] && rest[e] == SLASH
    ensures c.path in DeadEnds(RoutesOf(c), rest) && Accepting(RoutesOf(c), rest) == iset{}
  {
    hide Accepts, TakesPart, Formed, Get, GoesOn;
    ParamParts(c, pre);
    ParamAlone(c.path, rest, e);
    ParamItself(c, pre);
    assert c.path + [] == c.path;
    forall p | p in Accepting(RoutesOf(c), rest) ensures false {
      var q := RouteBelow(c, p);
    }
  }

  /** A request that goes on behind the param, and so do routes. */
  lemma ParamPasses(c: Tree, pre: bytes, rest: bytes, e: nat)
    requires Formed(c, pre) && c.nType == Param && Count(c) >= 1 && c.children != []
    requires e < |rest| && SLASH !in rest[..e] && rest[e] == SLASH
    ensures Accepting(RoutesOf(c), rest) == Prefixed(c.path, Accepting(RoutesOf(c.children[0]), rest[e..]))
    ensures DeadEnds(RoutesOf(c), rest) == Prefixed(c.path, DeadEnds(RoutesOf(c.children[0]), rest[e..]))
  {
    hide Accepts, DeadEnd, Formed, Get;
    ParamParts(c, pre);
    ParamAlone(c.path, rest, e);
    ParamItself(c, pre);
    var R, S := RoutesOf(c), RoutesOf(c.children[0]);
    forall p | p in Accepting(R, rest) ensures c.path <= p && p[|c.path|..] in Accepting(S, rest[e..]) {
      var q := RouteBelow(c, p);
      assert p[|c.path|..] == q && (q == [] ==> p == c.path);
      ParamFits(c.path, q);
      AcceptsParam(c.path, q, rest, e);
      GetVia(c, 0, q);
    }
    forall p | c.path <= p && p[|c.path|..] in Accepting(S, rest[e..]) ensures p in Accepting(R, rest) {
      PrefixSplit(c.path, p);
      RouteUp(c, pre, 0, p[|c.path|..]);
      AcceptsParam(c.path, p[|c.path|..], rest, e);
    }
    forall b | b in DeadEnds(R, rest) ensures c.path <= b && b[|c.path|..] in DeadEnds(S, rest[e..]) {
      DeadStem(R, b, rest);
      var q := StemOfParam(c, pre, b);
      assert b[|c.path|..] == q;
      if q == [] { assert b == c.path; DeadAlone(R, b, rest); }
      DeadBehind(c, pre, q, rest, e);
    }
    forall b | c.path <= b && b[|c.path|..] in DeadEnds(S, rest[e..]) ensures b in DeadEnds(R, rest) {
      PrefixSplit(c.path, b);
      DeadHead(c, pre, 0, b[|c.path|..], rest[e..]);
      DeadBehind(c, pre, b[|c.path|..], rest, e);
    }
  }

  lemma DeadAlone(R: iset<bytes>, b: bytes, rest: bytes)
    requires DeadEnd(R, b, rest) && GoesOn(R, b)
    ensures Accepts(b, rest)
  {
  }

  lemma DeadBehind(c: Tree, pre: bytes, q: bytes, rest: bytes, e: nat)
    requires Formed(c, pre) && c.nType == Param && c.children != [] && q != [] && q[0] == SLASH
    requires e < |rest| && SLASH !in rest[..e] && rest[e] == SLASH
    ensures DeadEnd(RoutesOf(c), c.path + q, rest) <==> DeadEnd(RoutesOf(c.children[0]), q, rest[e..])
  {
    hide Formed, Accepts, TakesPart, GoesOn, Open, Get;
    ParamParts(c, pre);
    OpenPastParam(c.path, q);
    AcceptsParam(c.path, q, rest, e);
    TakesParam(c.path, q, rest, e);
    GoesOnVia(c, pre, 0, q);
  }

  // ---------------------------------------------------------------- the lookup

  ghost function AcceptingAt(t: Tree, k: int, rest: bytes): iset<bytes> {
    if 0 <= k < |t.children| then Accepting(RoutesOf(t.children[k]), rest) else iset{}
  }

  ghost function DeadAt(t: Tree, k: int, rest: bytes): iset<bytes> {
    if 0 <= k < |t.children| then DeadEnds(RoutesOf(t.children[k]), rest) else iset{}
  }

  /** Of the children only two can matter: the one for the next byte and the param child. */
  lemma OnlyTwo(t: Tree, pre: bytes, path: bytes, i: int, j: int)
    requires Formed(t, pre) && t.nType != CatchAll && Plain(t.path) && t.path < path
    requires forall k ::
      0 <= k < |t.children| && k != i && k != j ==> Head(t.children[k]) !in [path[|t.path|], COLON]
    ensures var rest, R := path[|t.path|..], RoutesOf(t);
      && Accepting(R, path) == Prefixed(t.path, AcceptingAt(t, i, rest) + AcceptingAt(t, j, rest))
      && DeadEnds(R, path) == Prefixed(t.path, DeadAt(t, i, rest) + DeadAt(t, j, rest))
  {
    hide Formed, Get, Accepting, DeadEnds;
    var rest := path[|t.path|..];
    AcceptingNode(t, pre, path);
    DeadNode(t, pre, path);
    forall k | 0 <= k < |t.children| && k != i && k != j
      ensures Accepting(RoutesOf(t.children[k]), rest) == iset{} && DeadEnds(RoutesOf(t.children[k]), rest) == iset{}
    {
      NothingAside(t, pre, k, rest);
    }
    assert (iset q, k | 0 <= k < |t.children| && q in Accepting(RoutesOf(t.children[k]), rest) :: q) ==
      AcceptingAt(t, i, rest) + AcceptingAt(t, j, rest);
    assert (iset q, k | 0 <= k < |t.children| && q in DeadEnds(RoutesOf(t.children[k]), rest) :: q) ==
      DeadAt(t, i, rest) + DeadAt(t, j, rest);
  }

  lemma HeadsOf(t: Tree, pre: bytes, k: nat, rest: bytes)
    requires Formed(t, pre) && t.nType != CatchAll && k < |t.children|
    ensures AllFrom(AcceptingAt(t, k, rest), Head(t.children[k])) && AllFrom(DeadAt(t, k, rest), Head(t.children[k]))
  {
    hide Formed, Get, DeadEnd, Accepts;
    forall q | q in AcceptingAt(t, k, rest) ensures q != [] && q[0] == Head(t.children[k]) { RouteUp(t, pre, k, q); }
    forall q | q in DeadAt(t, k, rest) ensures q != [] && q[0] == Head(t.children[k]) { DeadHead(t, pre, k, q, rest); }
  }

  /** The children of a node by the byte they start with. */
  lemma StaticKinds(t: Tree, pre: bytes, c: byte) returns (i: int, j: int)
    requires Formed(t, pre) && (t.nType == Static || t.nType == Root)
    ensures Plain(t.path) && |t.indices| <= |t.children|
    ensures if c in t.indices then i == IndexOf(t.indices, c) && 0 <= i < |t.children| && c != COLON else i == -1
    ensures if t.wildChild then j == |t.children| - 1 && j >= 0 && Head(t.children[j]) == COLON else j == -1
    ensures i >= 0 ==> Head(t.children[i]) == c && i != j
    ensures forall k :: 0 <= k < |t.children| && k != i && k != j ==> Head(t.children[k]) !in [c, COLON]
  {
    assert StaticShape(t);
    i, j := if c in t.indices then IndexOf(t.indices, c) else -1, if t.wildChild then |t.children| - 1 else -1;
    assert forall k :: 0 <= k < |t.indices| ==> !Mark(t.indices[k]) && (k != i ==> t.indices[k] != c);
  }

  lemma {:induction false} SearchExact(t: Tree, pre: bytes, path: bytes, ps: seq<Binding>, u: bool)
    requires Stands(t, pre, path) && (u ==> Unslashed(RoutesOf(t), path))
    ensures Exact(pre, u, Accepting(RoutesOf(t), path), DeadEnds(RoutesOf(t), path), Search(t, path, ps))
    decreases NodeSize(t), 1
  {
    hide Accepting, DeadEnds, Formed, Get, Exact, Unslashed, Search;
    if !(t.path < path) {
      ExactHere(t, pre, path, ps, u);
    } else if IsMid(t) {
      ExactMid(t, pre, path, ps, u);
    } else if EmptyRoot(t) {
      ExactEmpty(t, pre, path, ps, u);
    } else {
      var rest := path[|t.path|..];
      StandsFormed(t, pre, path);
      var i, j := StaticKinds(t, pre, rest[0]);
      OnlyTwo(t, pre, path, i, j);
      if i >= 0 {
        StaticChild(t, pre, path);
        if u { UnslashedChild(t, pre, i, path); }
        SearchExact(t.children[i], pre + t.path, rest, ps, u);
      }
      if j >= 0 { WildExact(t, pre, path, ps, u); }
      ExactNode(t, pre, path, ps, u, i, j);
      PrefixedExact(pre, t.path, u, AcceptingAt(t, i, rest) + AcceptingAt(t, j, rest),
        DeadAt(t, i, rest) + DeadAt(t, j, rest), Search(t, path, ps));
    }
  }

  lemma StandsFormed(t: Tree, pre: bytes, path: bytes)
    requires Stands(t, pre, path) && !IsMid(t) && !EmptyRoot(t)
    ensures Formed(t, pre) && (t.nType == Static || t.nType == Root)
  {
  }

  /** First the child for the next byte, then the param child. */
  lemma ExactNode(t: Tree, pre: bytes, path: bytes, ps: seq<Binding>, u: bool, i: int, j: int)
    requires Formed(t, pre) && (t.nType == Static || t.nType == Root) && t.path < path
    requires u ==> Unslashed(RoutesOf(t), path)
    requires if path[|t.path|] in t.indices then i == IndexOf(t.indices, path[|t.path|]) && path[|t.path|] != COLON
             else i == -1
    requires if t.wildChild then j == |t.children| - 1 && j >= 0 && Head(t.children[j]) == COLON else j == -1
    requires i >= 0 ==> |t.indices| <= |t.children| && i < |t.children| && Head(t.children[i]) == path[|t.path|]
    requires var rest := path[|t.path|..];
      && (i >= 0 ==> Exact(pre + t.path, u, AcceptingAt(t, i, rest), DeadAt(t, i, rest),
                           Search(t.children[i], rest, ps)))
      && (j >= 0 ==> Exact(pre + t.path, u, AcceptingAt(t, j, rest), DeadAt(t, j, rest), Wild(t, rest, ps)))
    ensures var rest := path[|t.path|..];
      Exact(pre + t.path, u, AcceptingAt(t, i, rest) + AcceptingAt(t, j, rest), DeadAt(t, i, rest) + DeadAt(t, j, rest),
        Search(t, path, ps))
  {
    hide Accepting, DeadEnds, Formed, Get, Wild, First, Stopped;
    var rest := path[|t.path|..];
    var A, D, A2, D2 := AcceptingAt(t, i, rest), DeadAt(t, i, rest), AcceptingAt(t, j, rest), DeadAt(t, j, rest);
    if i >= 0 && j >= 0 {
      hide Exact;
      HeadsOf(t, pre, i, rest);
      HeadsOf(t, pre, j, rest);
      FirstThen(pre + t.path, u, A, D, Search(t.children[i], rest, ps), A2, D2, Wild(t, rest, ps), rest[0]);
    } else {
      assert A + A2 == if i >= 0 then A else A2;
      assert D + D2 == if i >= 0 then D else D2;
      assert u ==> rest != [SLASH] by { assert rest[|rest|-1] == path[|path|-1]; }
    }
  }

  /** The request does not go past the path of the node. */
  lemma ExactHere(t: Tree, pre: bytes, path: bytes, ps: seq<Binding>, u: bool)
    requires Stands(t, pre, path) && !(t.path < path) && (u ==> Unslashed(RoutesOf(t), path))
    ensures Exact(pre, u, Accepting(RoutesOf(t), path), DeadEnds(RoutesOf(t), path), Search(t, path, ps))
  {
    hide Accepting, DeadEnds, Get, Stands, Stop;
    StandsStop(t, pre, path);
    StopInner(t, pre);
    EndsAtNode(t, path);
    if path == t.path && t.handlers != [] {
      FullPathHere(t, pre);
      assert t.fullPath[|pre|..] == path;
      assert !Ahead(path, path);
    }
    if u { SlashMoreNot(t, path); }
  }

  lemma FullPathHere(t: Tree, pre: bytes)
    requires Stop(t, pre) && t.handlers != []
    ensures t.fullPath == pre + t.path
  {
  }

  lemma ExactEmpty(t: Tree, pre: bytes, path: bytes, ps: seq<Binding>, u: bool)
    requires EmptyRoot(t) && t.path < path && (u ==> Unslashed(RoutesOf(t), path))
    ensures Exact(pre, u, Accepting(RoutesOf(t), path), DeadEnds(RoutesOf(t), path), Search(t, path, ps))
  {
    hide Accepting, DeadEnds;
    assert RoutesOf(t) == iset{};
    NoRoutes(RoutesOf(t), path);
    assert u ==> path != [SLASH];
    assert path[0..] == path;
  }

  /** A catch-all takes whatever is left. */
  lemma ExactMid(t: Tree, pre: bytes, path: bytes, ps: seq<Binding>, u: bool)
    requires Formed(t, pre) && IsMid(t) && path != [] && path[0] == SLASH
    ensures Exact(pre, u, Accepting(RoutesOf(t), path), DeadEnds(RoutesOf(t), path), Search(t, path, ps))
  {
    var leaf := CatchAllRoute(t, pre);
    OnlyLeaf(t, leaf, pre);
    LeafEnds(RoutesOf(t), leaf.path, path);
    MidFound(t, pre, path, ps);
    assert !Ahead(leaf.path, leaf.path);
    assert (pre + leaf.path)[|pre|..] == leaf.path;
  }
  lemma OnlyLeaf(t: Tree, leaf: Tree, pre: bytes)
    requires Formed(t, pre) && IsMid(t) && t.children == [leaf] && Get(t, leaf.path) != []
    ensures RoutesOf(t) == iset{leaf.path}
  {
    var l := LeafOf(t, pre);
    assert CatchAllShape(t);
    forall p | p in RoutesOf(t) ensures p == leaf.path { OneRoute(t, leaf, pre, p); }
  }

  lemma LeafEnds(R: iset<bytes>, w: bytes, path: bytes)
    requires R == iset{w} && |w| >= 3 && w[0] == SLASH && w[1] == STAR && Name(w[2..])
    requires path != [] && path[0] == SLASH
    ensures Accepting(R, path) == iset{w} && DeadEnds(R, path) == iset{}
  {
    assert forall i :: 2 <= i < |w| ==> w[i] == w[2..][i - 2];
    assert COLON !in w;
    var ps := [Binding(w[2..], path)];
    assert Matches(w, ps, path) && Filled(w, ps);
    hide Accepts, TakesPart;
    assert Accepts(w, path) by { AcceptsBy(w, ps, path); }
    forall b | b in DeadEnds(R, path) ensures false {
      DeadStem(R, b, path);
      NoStem(R, w, b);
    }
  }

  lemma NoStem(R: iset<bytes>, w: bytes, b: bytes)
    requires R == iset{w} && COLON !in w
    ensures Open(b) ==> b !in R && !GoesOn(R, b)
  {
    assert b <= w ==> forall i :: 0 <= i < |b| ==> b[i] == w[i];
    assert b + [SLASH] <= w ==> b <= w by { assert b == (b + [SLASH])[..|b|]; }
  }

  lemma AcceptsBy(p: bytes, ps: seq<Binding>, path: bytes)
    requires Matches(p, ps, path) && Filled(p, ps)
    ensures Accepts(p, path)
  {
  }

  lemma MidFound(t: Tree, pre: bytes, path: bytes, ps: seq<Binding>)
    requires Formed(t, pre) && IsMid(t) && path != [] && path[0] == SLASH
    ensures t.children != []
    ensures var l := Search(t, path, ps); l.Hit? && l.r.fullPath == pre + t.children[0].path
  {
    var leaf := LeafOf(t, pre);
    assert CatchAllShape(t) && t.path < path && path[|t.path|..] == path;
    assert WF(leaf, pre + t.path);
    assert Formed(leaf, pre + t.path);
  }

  /** The param child, whose value reaches to the next slash. */
  lemma {:induction false} WildExact(t: Tree, pre: bytes, path: bytes, ps: seq<Binding>, u: bool)
    requires Formed(t, pre) && (t.nType == Static || t.nType == Root) && t.path < path && t.wildChild
    requires u ==> Unslashed(RoutesOf(t), path)
    ensures var rest, j := path[|t.path|..], |t.children| - 1;
      Exact(pre + t.path, u, AcceptingAt(t, j, rest), DeadAt(t, j, rest), Wild(t, rest, ps))
    decreases NodeSize(t), 0
  {
    hide Accepting, DeadEnds, Formed, Get, Exact, Unslashed, Search;
    var rest, j, above := path[|t.path|..], |t.children| - 1, pre + t.path;
    StopStands(t, pre, path) by { assert Stop(t, pre); }
    WildKind(t, pre, path);
    var c := t.children[j];
    if u { UnslashedChild(t, pre, j, path) by { PlainPath(t, pre); } }
    var e := SegEnd(rest);
    NoSlashBefore(rest);
    var qs := ps + [Binding(c.path[1..], rest[..e])];
    if e == |rest| {
      assert rest[..e] == rest;
      ParamEnds(c, above, rest);
      ExactEnd(c, above, rest, qs, u);
    } else if c.children == [] {
      ParamStops(c, above, rest, e);
      ExactStop(above, u, Accepting(RoutesOf(c), rest), DeadEnds(RoutesOf(c), rest), c.path,
        Miss(Result([], qs, |rest| == e + 1, [])));
    } else {
      ParamPasses(c, above, rest, e);
      if u { UnslashedParam(c, above, rest, e); }
      BehindParam(c, above, rest);
      StopStands(c.children[0], above + c.path, rest[e..]);
      SearchExact(c.children[0], above + c.path, rest[e..], qs, u);
      PrefixedExact(above, c.path, u, Accepting(RoutesOf(c.children[0]), rest[e..]),
        DeadEnds(RoutesOf(c.children[0]), rest[e..]), Search(c.children[0], rest[e..], qs));
    }
  }

  lemma PlainPath(t: Tree, pre: bytes)
    requires Formed(t, pre) && (t.nType == Static || t.nType == Root)
    ensures Plain(t.path)
  {
    assert StaticShape(t);
  }

  lemma ExactStop(pre: bytes, u: bool, A: iset<bytes>, D: iset<bytes>, b: bytes, l: Lookup)
    requires A == iset{} && b in D && l.Miss?
    ensures Exact(pre, u, A, D, l)
  {
  }

  lemma ExactEnd(c: Tree, pre: bytes, rest: bytes, qs: seq<Binding>, u: bool)
    requires Formed(c, pre)
    requires var A, D := Accepting(RoutesOf(c), rest), DeadEnds(RoutesOf(c), rest);
      if c.handlers != [] then A == iset{c.path} && D == iset{} else A == iset{} && D == iset{c.path}
    ensures Exact(pre, u, Accepting(RoutesOf(c), rest), DeadEnds(RoutesOf(c), rest),
      if c.handlers != [] then Hit(Result(c.handlers, qs, false, c.fullPath))
      else Miss(Result([], qs, RouteSearch.SlashBehind(c), [])))
  {
    hide Accepting, DeadEnds;
    if c.handlers != [] {
      assert c.fullPath == pre + c.path;
      assert c.fullPath[|pre|..] == c.path;
      assert !Ahead(c.path, c.path);
    } else {
      assert c.path in DeadEnds(RoutesOf(c), rest);
    }
  }
  // ---------------------------------------------------------------- a whole tree

  lemma RootStop(t: Tree)
    requires RootOK(t)
    ensures Stop(t, []) && Located(t, t, [], [], [])
  {
    assert forall q: bytes :: [] + q == q;
  }

  /** What a lookup from the root comes to is what the registered routes make of the request. */
  lemma SearchExactly(t: Tree, req: bytes)
    requires RootOK(t)
    ensures Exactly(RoutesOf(t), req, Search(t, req, []).r)
  {
    hide Accepting, DeadEnds, Search, Unslashed;
    var R, l := RoutesOf(t), Search(t, req, []);
    RootStop(t);
    StopStands(t, [], req);
    SearchSound(t, t, [], [], [], req);
    assert [] + req == req;
    SearchExact(t, [], req, [], Unslashed(R, req));
    assert l.r.fullPath[0..] == l.r.fullPath;
  }

  /**
    Where no route that is ahead of `p` has a param past the fork from `p`, a lookup comes back to `p`: every request
    that `p` matches is answered, unless it takes a slash more.
   */
  lemma ComesBack(R: iset<bytes>, p: bytes, req: bytes)
    requires p in R && WellFormed(p) && Accepts(p, req) && NoParamAhead(R, p)
    ensures Answered(Accepting(R, req), DeadEnds(R, req))
  {
    hide Accepts, DeadEnd, WellFormed;
    forall b | b in DeadEnds(R, req) ensures !Ahead(b, p) {
      DeadStem(R, b, req);
      if Ahead(b, p) {
        var r := b;
        if b !in R { r :| r in R && b + [SLASH] <= r; }
        NoParamPast(b, r, p);
      }
    }
    assert p in Accepting(R, req);
  }

  lemma NoParamPast(b: bytes, r: bytes, p: bytes)
    requires Ahead(b, p) && Open(b) && (r == b || b + [SLASH] <= r) && WellFormed(p)
    ensures Ahead(r, p) && COLON in r[Lcp(r, p)..]
  {
    var d := Lcp(b, p);
    assert b == r[..|b|];
    assert r[..d] == b[..d];
    LcpIs(r, p, d);
    var i :| 0 <= i < |b| && b[i] == COLON && SLASH !in b[i..];
    assert forall k :: 0 <= k < d ==> p[k] == p[..d][k] == b[..d][k] == b[k];
    assert i >= d;
    assert r[d..][i - d] == COLON;
  }
  /** The request is itself a registered wildcard-free route. */
  ghost predicate Direct(root: Tree, req: bytes) { Plain(req) && Get(root, req) != [] }

  /** What is promised of the answer `r` to a request. */
  ghost predicate Answers(root: Tree, req: bytes, r: Result) {
    && (r.handlers != [] ==> Found(root, r.fullPath, r.handlers, r.params, req))
    && (Direct(root, req) ==> r.handlers == Get(root, req) && r.fullPath == req && r.params == [])
    && (Forkless(root) ==> (r.handlers != [] <==> HasMatch(root, req)))
    && Exactly(RoutesOf(root), req, r)
    && (PlainRoutes(root) && SlashAway(root, req) ==> r.tsr)
  }

  /** A pattern matched without bindings is the request itself. */
  lemma {:induction false} NoBindings(pat: bytes, req: bytes)
    requires Matches(pat, [], req)
    ensures pat == req
    decreases |pat|
  {
    if pat != [] {
      NoBindings(pat[1..], req[1..]);
      assert pat == [pat[0]] + pat[1..] && req == [req[0]] + req[1..];
    }
  }

  /** The lookup by recursion keeps all of these promises. */
  lemma SearchAnswers(t: Tree, req: bytes)
    requires RootOK(t)
    ensures Answers(t, req, Search(t, req, []).r)
  {
    hide HasMatch, Search, Exactly, Located, Stop, SlashAway;
    var l := Search(t, req, []);
    RootStop(t);
    StopStands(t, [], req);
    SearchSound(t, t, [], [], [], req);
    assert [] + req == req;
    if Direct(t, req) {
      SearchDirect(t, [], req, []);
      NoBindings(l.r.fullPath, req);
    }
    if Forkless(t) { SearchForkless(t, [], req, []); }
    SearchExactly(t, req);
    if PlainRoutes(t) && SlashAway(t, req) { SlashFound(t, [], req, []); }
  }
}
