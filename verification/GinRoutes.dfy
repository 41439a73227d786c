/** Whole lists of routes, registered in any order and then looked up or listed. */
module GinRoutes {
  import opened Bytes
  import opened RouteTree
  import opened RouteLookup
  import opened RouteClash
  import opened RouteMatch
  import opened RouteReach
  import opened RouteSearch
  import opened RouteExact
  import opened RouteAnswers
  import opened RouteTable
  import opened Router
  import opened RouterLookup
  import opened GinEngine

  datatype Route = Route(verb: bytes, path: bytes, handlers: Handlers)

  /** What the engine asks of a route by itself. */
  predicate Acceptable(r: Route) {
    r.path != [] && r.path[0] == SLASH && r.verb != [] && |r.handlers| > 0 && WellFormed(r.path)
  }

  predicate Collide(r: Route, s: Route) { r.verb == s.verb && Clash(r.path, s.path) }

  /** No two routes of one method clash. */
  predicate Compatible(routes: seq<Route>) {
    forall i, j :: 0 <= i < j < |routes| ==> !Collide(routes[i], routes[j])
  }

  /** The lists of routes that are registered without a panic. */
  predicate Accepted(routes: seq<Route>) {
    (forall i :: 0 <= i < |routes| ==> Acceptable(routes[i])) && Compatible(routes)
  }

  function Key(r: Route): (bytes, bytes) { (r.verb, r.path) }

  /** No two routes have the same method and path. */
  predicate Unlike(routes: seq<Route>) { forall i, j :: 0 <= i < j < |routes| ==> Key(routes[i]) != Key(routes[j]) }

  predicate AllPlain(routes: seq<Route>) { forall i :: 0 <= i < |routes| ==> Plain(routes[i].path) }

  function Table(routes: seq<Route>): Registry {
    if routes == [] then map[] else Table(routes[..|routes|-1])[Key(routes[|routes|-1]) := routes[|routes|-1].handlers]
  }

  predicate Among(routes: seq<Route>, k: (bytes, bytes)) { exists i :: 0 <= i < |routes| && Key(routes[i]) == k }

  lemma AmongMore(routes: seq<Route>, k: (bytes, bytes))
    requires routes != []
    ensures Among(routes, k) <==> Among(routes[..|routes|-1], k) || k == Key(routes[|routes|-1])
  {
    var front := routes[..|routes|-1];
    if Among(front, k) {
      var i :| 0 <= i < |front| && Key(front[i]) == k;
      assert Key(routes[i]) == k;
    }
    if Among(routes, k) {
      var i :| 0 <= i < |routes| && Key(routes[i]) == k;
      assert i < |front| ==> front[i] == routes[i];
    }
  }

  lemma {:induction false} TableKeys(routes: seq<Route>)
    ensures forall k :: k in Table(routes) <==> Among(routes, k)
    ensures Unlike(routes) ==>
      forall i ::
        0 <= i < |routes| ==> Key(routes[i]) in Table(routes) && Table(routes)[Key(routes[i])] == routes[i].handlers
  {
    if routes != [] {
      var front := routes[..|routes|-1];
      TableKeys(front);
      forall k ensures k in Table(routes) <==> Among(routes, k) { AmongMore(routes, k); }
      assert forall i :: 0 <= i < |front| ==> front[i] == routes[i];
    }
  }

  lemma CompatibleUnlike(routes: seq<Route>)
    requires Compatible(routes)
    ensures Unlike(routes)
  {
    forall i, j | 0 <= i < j < |routes|
      ensures Key(routes[i]) != Key(routes[j])
    {
      assert !Collide(routes[i], routes[j]);
    }
  }

  /** Of wildcard-free routes, two are told apart by method and path. */
  lemma PlainAccepted(routes: seq<Route>)
    requires AllPlain(routes)
    ensures Compatible(routes) <==> Unlike(routes)
  {
    hide Clash;
    forall i, j | 0 <= i < j < |routes| ensures Collide(routes[i], routes[j]) <==> Key(routes[i]) == Key(routes[j]) {
      PlainClash(routes[i].path, routes[j].path);
    }
  }

  /** The next route is compatible with those before it if and only if it is clear of what they register. */
  lemma ClearMore(routes: seq<Route>, n: nat)
    requires n < |routes| && Compatible(routes[..n])
    ensures Clear(Table(routes[..n]), routes[n].verb, routes[n].path) <==> Compatible(routes[..n+1])
  {
    hide Clash, Table;
    var front, longer := routes[..n], routes[..n+1];
    TableKeys(front);
    assert forall i :: 0 <= i < n ==> longer[i] == front[i];
    if Clear(Table(front), routes[n].verb, routes[n].path) {
      forall i | 0 <= i < n ensures !Collide(longer[i], longer[n]) { assert Among(front, Key(front[i])); }
    }
    if Compatible(longer) {
      forall k | k in Table(front) && k.0 == routes[n].verb ensures !Clash(k.1, routes[n].path) {
        var i :| 0 <= i < n && Key(front[i]) == k;
        assert !Collide(longer[i], longer[n]);
      }
    }
  }

  lemma CompatibleFront(routes: seq<Route>, n: nat)
    requires n <= |routes| && Compatible(routes)
    ensures Compatible(routes[..n])
  {
    assert forall i :: 0 <= i < n ==> routes[..n][i] == routes[i];
  }

  /** The `n`th of the routes, those before being registered. */
  method registerNext(e: Engine, routes: seq<Route>, n: nat) returns (ok: bool)
    requires n < |routes| && NoEscape(routes[n].path)
    requires e.Valid() && e.Registered == Table(routes[..n]) && Compatible(routes[..n])
    modifies e, e.G.Keys
    ensures fresh(e.G.Keys - old(e.G.Keys))
    ensures ok <==> Acceptable(routes[n]) && Compatible(routes[..n+1])
    ensures ok ==> e.Valid() && e.Registered == Table(routes[..n+1])
  {
    hide Engine.Valid, Compatible, Clear, TakenBy, Table;
    var r := routes[n];
    ClearMore(routes, n);
    TableMore(routes, n);
    ok := e.addRoute(r.verb, r.path, r.handlers);
  }

  /**
    Registers the routes on a new engine; false where one of them panics. They are accepted if and only if each is
    acceptable and no two of a method clash.
   */
  method registerAll(routes: seq<Route>) returns (e: Engine, ok: bool)
    requires forall i :: 0 <= i < |routes| ==> NoEscape(routes[i].path)
    ensures fresh(e) && (ok <==> Accepted(routes))
    ensures ok ==> e.Valid() && e.Registered == Table(routes) && Unlike(routes)
    ensures AllPlain(routes) ==> (ok <==> (forall i :: 0 <= i < |routes| ==> Acceptable(routes[i])) && Unlike(routes))
  {
    hide Engine.Valid, AllPlain, Acceptable, Compatible, Unlike, Table;
    e := new Engine();
    var n := 0;
    NoneYet(routes);
    if AllPlain(routes) { PlainAccepted(routes); }
    while n < |routes|
      invariant n <= |routes| && fresh(e) && fresh(e.G.Keys) && e.Valid() && e.Registered == Table(routes[..n])
      invariant Compatible(routes[..n]) && forall i :: 0 <= i < n ==> Acceptable(routes[i])
    {
      ok := registerNext(e, routes, n);
      if !ok {
        if Compatible(routes) { CompatibleFront(routes, n + 1); }
        return;
      }
      n := n + 1;
    }
    assert routes[..n] == routes;
    CompatibleUnlike(routes);
    ok := true;
  }

  lemma NoneYet(routes: seq<Route>)
    ensures Compatible(routes[..0]) && Table(routes[..0]) == map[]
  {
  }

  lemma TableMore(routes: seq<Route>, n: nat)
    requires n < |routes|
    ensures Table(routes[..n+1]) == Table(routes[..n])[Key(routes[n]) := routes[n].handlers]
  {
    assert routes[..n+1][..n] == routes[..n];
  }

  lemma ElsewhereToo(routes: seq<Route>, r: Route, i: nat)
    requires i < |routes| && routes[i] == r && multiset(routes)[r] > 1
    ensures exists j :: 0 <= j < |routes| && j != i && routes[j] == r
  {
    var front, back := routes[..i], routes[i+1..];
    assert routes == front + [r] + back;
    if r in front {
      var j :| 0 <= j < |front| && front[j] == r;
      assert routes[j] == r;
    } else {
      assert r in multiset(back);
      var j :| 0 <= j < |back| && back[j] == r;
      assert routes[i + 1 + j] == r;
    }
  }

  lemma TwiceIn(routes: seq<Route>, i: nat, j: nat)
    requires i < j < |routes| && routes[i] == routes[j]
    ensures multiset(routes)[routes[i]] > 1
  {
    assert routes == routes[..i] + [routes[i]] + routes[i+1..];
    assert routes[i+1..][j-i-1] == routes[j];
    assert routes[j] in multiset(routes[i+1..]);
  }

  /** Wherever in the list two routes that collide stand. */
  lemma CollideAnyOrder(routes: seq<Route>, others: seq<Route>)
    requires multiset(routes) == multiset(others) && Compatible(routes)
    ensures Compatible(others)
  {
    hide Clash;
    forall i, j | 0 <= i < j < |others| ensures !Collide(others[i], others[j]) {
      var r, s := others[i], others[j];
      assert r in multiset(others) && s in multiset(others);
      var k :| 0 <= k < |routes| && routes[k] == r;
      var l :| 0 <= l < |routes| && routes[l] == s;
      if r == s {
        TwiceIn(others, i, j);
        ElsewhereToo(routes, r, k);
        l :| 0 <= l < |routes| && l != k && routes[l] == r;
      }
      assert !Collide(routes[if k < l then k else l], routes[if k < l then l else k]);
      ClashSymmetric(r.path, s.path);
    }
  }

  lemma AcceptedAnyOrder(routes: seq<Route>, others: seq<Route>)
    requires multiset(routes) == multiset(others) && Accepted(routes)
    ensures Accepted(others)
  {
    hide Compatible, Acceptable;
    CollideAnyOrder(routes, others);
    forall i | 0 <= i < |others| ensures Acceptable(others[i]) {
      assert others[i] in multiset(routes);
      var k :| 0 <= k < |routes| && routes[k] == others[i];
    }
  }

  /** Whether a list of routes is accepted does not depend on their order. */
  lemma AnyOrder(routes: seq<Route>, others: seq<Route>)
    requires multiset(routes) == multiset(others)
    ensures Accepted(routes) <==> Accepted(others)
  {
    if Accepted(routes) { AcceptedAnyOrder(routes, others); }
    if Accepted(others) { AcceptedAnyOrder(others, routes); }
  }

  predicate Registers(routes: seq<Route>, verb: bytes, path: bytes, h: Handlers) {
    exists i :: 0 <= i < |routes| && Key(routes[i]) == (verb, path) && routes[i].handlers == h
  }

  /** Among the routes of the method, no two fork. */
  predicate Straight(routes: seq<Route>, verb: bytes) {
    forall i, j :: 0 <= i < |routes| && 0 <= j < |routes| && routes[i].verb == routes[j].verb == verb ==>
      !Forks(routes[i].path, routes[j].path)
  }

  ghost predicate MatchedBy(r: Route, req: bytes) { exists ps :: Matches(r.path, ps, req) && Filled(r.path, ps) }

  ghost function PathsIn(routes: seq<Route>, verb: bytes): iset<bytes> { iset p | Among(routes, (verb, p)) }

  /** Some route of the method matches, and of those a lookup tries before it none has a param past the fork. */
  ghost predicate Awaited(routes: seq<Route>, verb: bytes, req: bytes) {
    exists i ::
      0 <= i < |routes| && routes[i].verb == verb && MatchedBy(routes[i], req)
      && NoParamAhead(PathsIn(routes, verb), routes[i].path)
  }

  lemma AwaitedAnswered(routes: seq<Route>, verb: bytes, req: bytes)
    requires Accepted(routes) && Awaited(routes, verb, req)
    ensures var R := PathsIn(routes, verb); Answered(Accepting(R, req), DeadEnds(R, req))
  {
    hide NoParamAhead, Compatible, WellFormed, Answered, Accepting, DeadEnds, Matches, Filled;
    var i :|
      0 <= i < |routes| && routes[i].verb == verb && MatchedBy(routes[i], req)
      && NoParamAhead(PathsIn(routes, verb), routes[i].path);
    assert Among(routes, (verb, routes[i].path)) by { assert Key(routes[i]) == (verb, routes[i].path); }
    assert Acceptable(routes[i]);
    ComesBack(PathsIn(routes, verb), routes[i].path, req);
  }

  lemma TablePaths(routes: seq<Route>, verb: bytes)
    ensures PathsOf(Table(routes), verb) == PathsIn(routes, verb)
  {
    hide Table;
    TableKeys(routes);
  }

  /** The request is no route of the method, but is one with a slash more or less. */
  predicate AlmostAmong(routes: seq<Route>, verb: bytes, req: bytes) {
    && !Among(routes, (verb, req))
    && (Among(routes, (verb, req + [SLASH]))
        || (req != [] && req[|req|-1] == SLASH && Among(routes, (verb, req[..|req|-1]))))
  }

  lemma TableNear(routes: seq<Route>, verb: bytes, req: bytes)
    ensures NearMiss(Table(routes), verb, req) <==> AlmostAmong(routes, verb, req)
  {
    hide Table, Among;
    TableKeys(routes);
  }

  lemma TableMatched(routes: seq<Route>, verb: bytes, req: bytes)
    ensures Straight(routes, verb) ==> Unforked(Table(routes), verb)
    ensures Matched(Table(routes), verb, req) <==>
      exists i :: 0 <= i < |routes| && routes[i].verb == verb && MatchedBy(routes[i], req)
  {
    hide Forks, Matches, Filled, Table;
    TableKeys(routes);
    if p, ps :| (verb, p) in Table(routes) && Matches(p, ps, req) && Filled(p, ps) {
      var i :| 0 <= i < |routes| && Key(routes[i]) == (verb, p);
      assert MatchedBy(routes[i], req);
    }
    if i :| 0 <= i < |routes| && routes[i].verb == verb && MatchedBy(routes[i], req) {
      var ps :| Matches(routes[i].path, ps, req) && Filled(routes[i].path, ps);
      assert Among(routes, Key(routes[i]));
    }
  }

  /**
    Routes in any order, and a request: what is found is one of the routes, and its bindings spell the request; a
    request that is a wildcard-free route finds that one; among wildcard-free routes nothing else is found, and a
    redirect is recommended to one that lacks a slash or has one too many; where no two routes of the method fork,
    something is found if and only if a route matches; whatever forks, what is found is the first match, and something
    is found if and only if some route matches with no dead end ahead of it, as it is where no route tried earlier has a
    param past the fork: the lookup goes back to the wildcard it passed over.
   */
  method lookUp(routes: seq<Route>, verb: bytes, req: bytes) returns (r: Result, ok: bool)
    requires forall i :: 0 <= i < |routes| ==> NoEscape(routes[i].path)
    ensures ok <==> Accepted(routes)
    ensures ok && r.handlers != [] ==>
      Registers(routes, verb, r.fullPath, r.handlers) && Matches(r.fullPath, r.params, req)
    ensures ok && Plain(req) ==> forall i :: 0 <= i < |routes| && Key(routes[i]) == (verb, req) ==>
      r.handlers == routes[i].handlers && r.fullPath == req && r.params == []
    ensures ok && AllPlain(routes) ==>
      (r.handlers != [] <==> Among(routes, (verb, req))) && (AlmostAmong(routes, verb, req) ==> r.tsr)
    ensures ok && Straight(routes, verb) ==>
      (r.handlers != [] <==> exists i :: 0 <= i < |routes| && routes[i].verb == verb && MatchedBy(routes[i], req))
    ensures ok ==> Exactly(PathsIn(routes, verb), req, r)
    ensures ok && Unslashed(PathsIn(routes, verb), req) && Awaited(routes, verb, req) ==> r.handlers != []
  {
    hide Engine.Valid, Accepted, Unlike, Table, Matches, Matched, Unforked, Straight, MatchedBy, PathsOf, PathsIn;
    hide Awaited, First, Answered, Unslashed, NearMiss, AlmostAmong;
    var e;
    e, ok := registerAll(routes);
    r := Result([], [], false, []);
    if ok {
      TableKeys(routes);
      if AllPlain(routes) { PlainKeys(routes); }
      TableMatched(routes, verb, req);
      TablePaths(routes, verb);
      TableNear(routes, verb, req);
      if Awaited(routes, verb, req) { AwaitedAnswered(routes, verb, req); }
      r := e.find(verb, req);
    }
  }

  lemma PlainKeys(routes: seq<Route>)
    requires AllPlain(routes)
    ensures forall k :: k in Table(routes) ==> Plain(k.1)
  {
    TableKeys(routes);
    forall k | k in Table(routes) ensures Plain(k.1) {
      var i :| 0 <= i < |routes| && Key(routes[i]) == k;
      assert Plain(routes[i].path);
    }
  }

  function Info(r: Route): RouteInfo
    requires r.handlers != []
  {
    RouteInfo(r.verb, r.path, r.handlers[|r.handlers|-1])
  }

  /** Whatever routes were registered, wildcards and all, the listing is of exactly those, each once. */
  method listAll(routes: seq<Route>) returns (rs: seq<RouteInfo>, ok: bool)
    requires forall i :: 0 <= i < |routes| ==> NoEscape(routes[i].path)
    ensures ok ==> EachOnce(rs) && (forall i :: 0 <= i < |routes| ==> routes[i].handlers != [] && Info(routes[i]) in rs)
    ensures ok ==>
      forall x :: x in rs ==> exists i :: 0 <= i < |routes| && routes[i].handlers != [] && x == Info(routes[i])
    ensures ok <==> Accepted(routes)
  {
    hide Engine.Valid, Accepted, Unlike, Table;
    var e;
    e, ok := registerAll(routes);
    rs := [];
    if ok {
      rs := e.Routes();
      TableKeys(routes);
      Chains(e);
      forall x | x in rs ensures exists i :: 0 <= i < |routes| && routes[i].handlers != [] && x == Info(routes[i]) {
        assert Listed(Table(routes), x);
        var i :| 0 <= i < |routes| && Key(routes[i]) == (x.verb, x.path);
        assert x == Info(routes[i]);
      }
      forall i | 0 <= i < |routes| ensures routes[i].handlers != [] && Info(routes[i]) in rs {
        assert Key(routes[i]) in e.Registered;
        assert Listed(e.Registered, Info(routes[i]));
      }
    }
  }

  lemma Chains(e: Engine)
    requires e.Valid()
    ensures forall k :: k in e.Registered ==> e.Registered[k] != []
  {
  }
}
