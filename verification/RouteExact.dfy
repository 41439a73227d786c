/** Which requests a lookup answers, in terms of the registered routes alone. */
module RouteExact {
  import opened Bytes
  import opened RouteTree
  import opened RouteInsert
  import opened RouteMatch
  import opened RouteLookup
  import opened RouteClash
  import opened RoutePanics
  import opened RouteReach
  import opened RouteSearch

  /** `p` matches `path`, with a non-empty value for a final param. */
  ghost predicate Accepts(p: bytes, path: bytes) { exists ps :: Matches(p, ps, path) && Filled(p, ps) }

  ghost function RoutesOf(t: Tree): iset<bytes> { iset p | Get(t, p) != [] }

  ghost predicate GoesOn(R: iset<bytes>, b: bytes) { exists r :: r in R && b + [SLASH] <= r }

  /**
    The beginning `b` of some route ends in a param where a lookup stops for good: the request ends in its value and
    `b` is no route, or the request goes on and no route does.
   */
  ghost predicate DeadEnd(R: iset<bytes>, b: bytes, path: bytes) {
    && Open(b)
    && if b in R then !GoesOn(R, b) && TakesPart(b, path) else GoesOn(R, b) && Accepts(b, path)
  }

  /** `b` matches the request as far as some slash. */
  ghost predicate TakesPart(b: bytes, path: bytes) {
    exists ps, j :: 0 <= j < |path| && path[j] == SLASH && Matches(b, ps, path[..j])
  }

  /** Where the two first differ `b` goes on without a param and `p` with one: a lookup comes to `b` first. */
  predicate Ahead(b: bytes, p: bytes) {
    var d := Lcp(b, p);
    d < |b| && d < |p| && b[d] != COLON && p[d] == COLON
  }

  ghost function Accepting(R: iset<bytes>, path: bytes): iset<bytes> { iset p | p in R && Accepts(p, path) }

  ghost function DeadEnds(R: iset<bytes>, path: bytes): iset<bytes> { iset b | DeadEnd(R, b, path) }

  /** Some route matches, and no dead end is ahead of it. */
  ghost predicate Answered(A: iset<bytes>, D: iset<bytes>) { exists p :: p in A && forall b :: b in D ==> !Ahead(b, p) }

  /** Some dead end is ahead of all routes that match. */
  ghost predicate Stopped(A: iset<bytes>, D: iset<bytes>) { exists b :: b in D && forall p :: p in A ==> Ahead(b, p) }

  /** A route that matches, with no dead end and no other match ahead of it. */
  ghost predicate First(A: iset<bytes>, D: iset<bytes>, p: bytes) {
    && p in A
    && (forall b :: b in D ==> !Ahead(b, p))
    && (forall q :: q in A ==> !Ahead(q, p))
  }

  /** What a lookup below the pattern prefix `pre` makes of the matches and the dead ends there. */
  ghost predicate Exact(pre: bytes, u: bool, A: iset<bytes>, D: iset<bytes>, l: Lookup) {
    match l
    case Hit(r) => pre <= r.fullPath && First(A, D, r.fullPath[|pre|..])
    case Miss(_) => u ==> Stopped(A, D)
    case Back(_) => A == iset{} && D == iset{}
  }

  /** The request does not end in a slash, and with one more it is not taken literally by a route that does. */
  ghost predicate Unslashed(R: iset<bytes>, path: bytes) {
    && path != [] && path[|path|-1] != SLASH
    && forall r, ps :: r in R && r != [] && r[|r|-1] == SLASH ==> !Matches(r, ps, path + [SLASH])
  }

  /** Of the routes ahead of `p` none has a param past the fork from `p`. */
  ghost predicate NoParamAhead(R: iset<bytes>, p: bytes) {
    forall r :: r in R && Ahead(r, p) ==> COLON !in r[Lcp(r, p)..]
  }

  /**
    Only a route that matches is found, and none that a lookup comes to earlier; and for a request that takes no slash
    more something is found if and only if some route matches with no dead end ahead of it.
   */
  ghost predicate Exactly(R: iset<bytes>, req: bytes, r: Result) {
    && (r.handlers != [] ==> First(Accepting(R, req), DeadEnds(R, req), r.fullPath))
    && (Unslashed(R, req) ==> (r.handlers != [] <==> Answered(Accepting(R, req), DeadEnds(R, req))))
  }

  ghost function Prefixed(a: bytes, S: iset<bytes>): iset<bytes> { iset p | a <= p && p[|a|..] in S }

  lemma AheadVia(a: bytes, b: bytes, p: bytes)
    ensures Ahead(a + b, a + p) <==> Ahead(b, p)
  {
    LcpShift(a, b, p);
  }

  lemma PrefixedExact(pre: bytes, a: bytes, u: bool, A: iset<bytes>, D: iset<bytes>, l: Lookup)
    requires Exact(pre + a, u, A, D, l)
    ensures Exact(pre, u, Prefixed(a, A), Prefixed(a, D), l)
  {
    hide Ahead;
    forall b, p | a <= b && a <= p ensures Ahead(b, p) <==> Ahead(b[|a|..], p[|a|..]) {
      PrefixSplit(a, b);
      PrefixSplit(a, p);
      AheadVia(a, b[|a|..], p[|a|..]);
    }
    if l.Hit? {
      var f := l.r.fullPath;
      PrefixSplit(pre + a, f);
      assert f == pre + (a + f[|pre + a|..]);
      assert f[|pre|..] == a + f[|pre + a|..];
      assert f[|pre|..][|a|..] == f[|pre + a|..];
    } else if l.Miss? && u {
      var b :| b in D && forall p :: p in A ==> Ahead(b, p);
      assert (a + b)[|a|..] == b;
      assert a + b in Prefixed(a, D);
    }
  }

  ghost predicate AllFrom(S: iset<bytes>, c: byte) { forall p :: p in S ==> p != [] && p[0] == c }

  lemma AheadHere(b: bytes, p: bytes)
    requires b != [] && p != [] && b[0] != p[0]
    ensures Ahead(b, p) <==> b[0] != COLON && p[0] == COLON
  {
    assert Lcp(b, p) == 0;
  }

  /** First the static child, then the param child. */
  lemma FirstThen(pre: bytes, u: bool, A: iset<bytes>, D: iset<bytes>, l: Lookup, A2: iset<bytes>, D2: iset<bytes>,
          l2: Lookup, c: byte)
    requires Exact(pre, u, A, D, l) && AllFrom(A, c) && AllFrom(D, c) && c != COLON
    requires Exact(pre, u, A2, D2, l2) && AllFrom(A2, COLON) && AllFrom(D2, COLON)
    ensures Exact(pre, u, A + A2, D + D2, if l.Back? then l2 else l)
  {
    hide Ahead;
    forall b, p | (b in D || b in A) && p in A2 ensures Ahead(b, p) { AheadHere(b, p); }
    forall b, p | (b in D2 || b in A2) && p in A ensures !Ahead(b, p) { AheadHere(b, p); }
    if l.Miss? && u {
      var b :| b in D && forall p :: p in A ==> Ahead(b, p);
      assert b in D + D2;
    } else if l.Back? {
      assert A + A2 == A2 && D + D2 == D2;
    }
  }

  // ---------------------------------------------------------------- below a node

  lemma AcceptsPast(a: bytes, q: bytes, path: bytes)
    requires Plain(a) && !StarFirst(q)
    ensures Accepts(a + q, path) <==> a <= path && Accepts(q, path[|a|..])
  {
    hide Matches, Filled;
    forall ps
      ensures Matches(a + q, ps, path) && Filled(a + q, ps) <==>
        a <= path && Matches(q, ps, path[|a|..]) && Filled(q, ps)
    {
      MatchesPast(a, q, ps, path);
      FilledPast(a, q, ps);
    }
  }

  lemma AcceptsHead(q: bytes, rest: bytes)
    requires Accepts(q, rest) && rest != []
    ensures q != [] && (q[0] != COLON ==> q[0] == rest[0])
  {
    var ps :| Matches(q, ps, rest) && Filled(q, ps);
    if q != [] && q[0] != COLON { MatchesHead(q, ps, rest); }
  }

  /** The routes of a child, from above. */
  lemma RouteUp(t: Tree, pre: bytes, k: nat, q: bytes)
    requires Formed(t, pre) && t.nType != CatchAll && k < |t.children| && q in RoutesOf(t.children[k])
    ensures t.path + q in RoutesOf(t) && q != [] && q[0] == Head(t.children[k]) && !StarFirst(q) && Fits(t.path, q)
  {
    ShapeInner(t);
    ChildRoute(t, pre, k, q);
    RouteStar(t, q);
    assert WF(t.children[k], pre + t.path);
    GetHead(t.children[k], pre + t.path, q);
  }

  lemma AcceptingNode(t: Tree, pre: bytes, path: bytes)
    requires Formed(t, pre) && t.nType != CatchAll && Plain(t.path) && t.path < path
    ensures var rest := path[|t.path|..];
      Accepting(RoutesOf(t), path) ==
        Prefixed(t.path, iset q, k | 0 <= k < |t.children| && q in Accepting(RoutesOf(t.children[k]), rest) :: q)
  {
    hide Accepts, Formed;
    ShapeInner(t) by { FormedShape(t, pre); }
    var rest := path[|t.path|..];
    forall p | p in Accepting(RoutesOf(t), path)
      ensures t.path <= p
        && exists k :: 0 <= k < |t.children| && p[|t.path|..] in Accepting(RoutesOf(t.children[k]), rest)
    {
      var q := RouteBelow(t, p);
      AcceptsPast(t.path, q, path);
      AcceptsHead(q, rest);
      var k :| 0 <= k < |t.children| && Head(t.children[k]) == q[0];
      GetVia(t, k, q);
      assert p[|t.path|..] == q;
      assert q in Accepting(RoutesOf(t.children[k]), rest);
    }
    forall p, k | t.path <= p && 0 <= k < |t.children| && p[|t.path|..] in Accepting(RoutesOf(t.children[k]), rest)
      ensures p in Accepting(RoutesOf(t), path)
    {
      PrefixSplit(t.path, p);
      RouteUp(t, pre, k, p[|t.path|..]);
      AcceptsPast(t.path, p[|t.path|..], path);
    }
  }

  lemma TakesPast(a: bytes, q: bytes, path: bytes)
    requires Plain(a) && !StarFirst(q)
    ensures TakesPart(a + q, path) <==> a <= path && TakesPart(q, path[|a|..])
  {
    hide Matches;
    if ps, j :| 0 <= j < |path| && path[j] == SLASH && Matches(a + q, ps, path[..j]) {
      MatchesPast(a, q, ps, path[..j]);
      assert a == path[..j][..|a|] == path[..|a|];
      assert path[..j][|a|..] == path[|a|..][..j - |a|];
      assert path[|a|..][j - |a|] == SLASH;
    }
    if a <= path {
      var rest := path[|a|..];
      if ps, j :| 0 <= j < |rest| && rest[j] == SLASH && Matches(q, ps, rest[..j]) {
        assert path[..|a| + j][|a|..] == rest[..j] && a <= path[..|a| + j];
        MatchesPast(a, q, ps, path[..|a| + j]);
        assert path[|a| + j] == SLASH;
      }
    }
  }

  lemma TakesHead(q: bytes, rest: bytes)
    requires TakesPart(q, rest) && q != [] && q[0] != COLON
    ensures rest != [] && q[0] == rest[0]
  {
    var ps, j :| 0 <= j < |rest| && rest[j] == SLASH && Matches(q, ps, rest[..j]);
    MatchesHead(q, ps, rest[..j]);
  }

  /** The beginning of a route that ends in a param goes beyond a path without wildcards. */
  lemma StemBelow(t: Tree, b: bytes) returns (c: bytes)
    requires Inner(t) && Plain(t.path) && Open(b) && (b in RoutesOf(t) || GoesOn(RoutesOf(t), b))
    ensures b == t.path + c && c != [] && !StarFirst(c)
    ensures exists k :: 0 <= k < |t.children| && Head(t.children[k]) == c[0]
  {
    var r := b;
    if b !in RoutesOf(t) { r :| r in RoutesOf(t) && b + [SLASH] <= r; }
    var q := RouteBelow(t, r);
    assert b == r[..|b|];
    OpenBeyond(t.path, b, q);
    c := b[|t.path|..];
    assert b == t.path + c;
    assert c[0] == r[|t.path|] == q[0];
  }

  lemma OpenBeyond(a: bytes, b: bytes, q: bytes)
    requires Plain(a) && Open(b) && |b| <= |a + q| && b == (a + q)[..|b|]
    ensures |a| < |b| && a <= b
  {
    assert forall j :: 0 <= j < |b| && j < |a| ==> b[j] == a[j];
    var i :| 0 <= i < |b| && b[i] == COLON && SLASH !in b[i..];
  }

  lemma OpenPast(a: bytes, c: bytes)
    requires Plain(a)
    ensures Open(a + c) <==> Open(c)
  {
    if Open(a + c) {
      var i :| 0 <= i < |a + c| && (a + c)[i] == COLON && SLASH !in (a + c)[i..];
      assert (a + c)[i..] == c[i - |a|..];
    }
    if Open(c) {
      assert (a + c)[|a|..] == c;
      OpenTail(a + c, |a|);
    }
  }

  lemma GoesOnVia(t: Tree, pre: bytes, k: nat, c: bytes)
    requires Formed(t, pre) && t.nType != CatchAll && k < |t.children| && c != [] && Head(t.children[k]) == c[0]
    ensures GoesOn(RoutesOf(t), t.path + c) <==> GoesOn(RoutesOf(t.children[k]), c)
    ensures t.path + c in RoutesOf(t) <==> c in RoutesOf(t.children[k])
  {
    hide Formed, GoesOn, Get;
    ShapeInner(t) by { FormedShape(t, pre); }
    GetVia(t, k, c);
    if GoesOn(RoutesOf(t), t.path + c) { GoesDown(t, k, c); }
    if GoesOn(RoutesOf(t.children[k]), c) { GoesUp(t, pre, k, c); }
  }

  lemma GoesDown(t: Tree, k: nat, c: bytes)
    requires Inner(t) && k < |t.children| && c != [] && Head(t.children[k]) == c[0] && GoesOn(RoutesOf(t), t.path + c)
    ensures GoesOn(RoutesOf(t.children[k]), c)
  {
    hide Get;
    var r :| r in RoutesOf(t) && t.path + c + [SLASH] <= r;
    assert t.path + c <= r by { assert r[..|t.path + c|] == t.path + c; }
    var q := RouteBelow(t, r);
    SlashTail(t.path, c, q);
    GetVia(t, k, q);
    assert q in RoutesOf(t.children[k]) && c + [SLASH] <= q;
  }

  lemma GoesUp(t: Tree, pre: bytes, k: nat, c: bytes)
    requires Formed(t, pre) && t.nType != CatchAll && k < |t.children| && GoesOn(RoutesOf(t.children[k]), c)
    ensures GoesOn(RoutesOf(t), t.path + c)
  {
    hide Formed, Get;
    var q :| q in RoutesOf(t.children[k]) && c + [SLASH] <= q;
    RouteUp(t, pre, k, q);
    SlashTail(t.path, c, q);
  }

  lemma SlashTail(a: bytes, c: bytes, q: bytes)
    ensures a + c + [SLASH] <= a + q <==> c + [SLASH] <= q
    ensures c != [] && c + [SLASH] <= q ==> q != [] && q[0] == c[0]
  {
    assert a + c + [SLASH] == a + (c + [SLASH]);
    if a + c + [SLASH] <= a + q {
      assert (a + (c + [SLASH]))[|a|..] == c + [SLASH];
      assert (a + q)[..|a + c| + 1][|a|..] == q[..|c| + 1];
    }
    if c + [SLASH] <= q {
      assert q == c + [SLASH] + q[|c| + 1..];
      assert a + q == a + c + [SLASH] + q[|c| + 1..];
    }
  }

  lemma DeadVia(t: Tree, pre: bytes, k: nat, c: bytes, path: bytes)
    requires Formed(t, pre) && t.nType != CatchAll && Plain(t.path) && t.path < path
    requires k < |t.children| && c != [] && Head(t.children[k]) == c[0] && !StarFirst(c)
    ensures DeadEnd(RoutesOf(t), t.path + c, path) <==> DeadEnd(RoutesOf(t.children[k]), c, path[|t.path|..])
  {
    hide Formed, Accepts, TakesPart, GoesOn, Open;
    OpenPast(t.path, c);
    AcceptsPast(t.path, c, path);
    TakesPast(t.path, c, path);
    GoesOnVia(t, pre, k, c);
  }

  lemma DeadNode(t: Tree, pre: bytes, path: bytes)
    requires Formed(t, pre) && t.nType != CatchAll && Plain(t.path) && t.path < path
    ensures var rest := path[|t.path|..];
      DeadEnds(RoutesOf(t), path) ==
        Prefixed(t.path, iset c, k | 0 <= k < |t.children| && c in DeadEnds(RoutesOf(t.children[k]), rest) :: c)
  {
    hide DeadEnd, Formed;
    ShapeInner(t) by { FormedShape(t, pre); }
    var rest := path[|t.path|..];
    forall b | b in DeadEnds(RoutesOf(t), path)
      ensures t.path <= b
      ensures exists k :: 0 <= k < |t.children| && b[|t.path|..] in DeadEnds(RoutesOf(t.children[k]), rest)
    {
      DeadStem(RoutesOf(t), b, path);
      var c := StemBelow(t, b);
      var k :| 0 <= k < |t.children| && Head(t.children[k]) == c[0];
      DeadVia(t, pre, k, c, path);
      assert b[|t.path|..] == c;
    }
    forall b, k | t.path <= b && 0 <= k < |t.children| && b[|t.path|..] in DeadEnds(RoutesOf(t.children[k]), rest)
      ensures b in DeadEnds(RoutesOf(t), path)
    {
      PrefixSplit(t.path, b);
      DeadHead(t, pre, k, b[|t.path|..], rest);
      DeadVia(t, pre, k, b[|t.path|..], path);
    }
  }

  lemma DeadStem(R: iset<bytes>, b: bytes, path: bytes)
    requires DeadEnd(R, b, path)
    ensures Open(b) && (b in R || GoesOn(R, b))
  {
  }

  /** The dead ends below a child start as its routes do. */
  lemma DeadHead(t: Tree, pre: bytes, k: nat, c: bytes, rest: bytes)
    requires Formed(t, pre) && t.nType != CatchAll && k < |t.children| && DeadEnd(RoutesOf(t.children[k]), c, rest)
    ensures c != [] && c[0] == Head(t.children[k]) && !StarFirst(c)
  {
    hide Formed;
    var r := c;
    if c !in RoutesOf(t.children[k]) { r :| r in RoutesOf(t.children[k]) && c + [SLASH] <= r; }
    RouteUp(t, pre, k, r);
    assert c != [] by { assert Open(c); }
    assert c[0] == r[0];
  }

  /** Below a child for another byte nothing matches, and there is no dead end. */
  lemma NothingAside(t: Tree, pre: bytes, k: nat, rest: bytes)
    requires Formed(t, pre) && t.nType != CatchAll && k < |t.children| && rest != []
    requires Head(t.children[k]) !in [rest[0], COLON]
    ensures Accepting(RoutesOf(t.children[k]), rest) == iset{} && DeadEnds(RoutesOf(t.children[k]), rest) == iset{}
  {
    hide Formed, Accepts, DeadEnd;
    forall q | q in Accepting(RoutesOf(t.children[k]), rest) ensures false {
      RouteUp(t, pre, k, q);
      AcceptsHead(q, rest);
    }
    forall c | c in DeadEnds(RoutesOf(t.children[k]), rest) ensures false {
      DeadHead(t, pre, k, c, rest);
      DeadTakes(RoutesOf(t.children[k]), c, rest);
    }
  }

  lemma DeadTakes(R: iset<bytes>, c: bytes, rest: bytes)
    requires DeadEnd(R, c, rest) && rest != [] && c != [] && c[0] != COLON
    ensures c[0] == rest[0]
  {
    hide Accepts, TakesPart;
    if c in R { TakesHead(c, rest); } else { AcceptsHead(c, rest); }
  }
}
