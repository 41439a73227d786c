/** What it means for a request path to match a route pattern, apart from any tree. */
module RouteMatch {
  import opened Bytes
  import opened RouteTree
  import opened RouteInsert

  datatype Binding = Binding(key: bytes, value: bytes)

  /**
    Substituting the values of `ps`, in order, for the wildcards of `pat` gives `req`. A `:name`
    stands for a stretch without a slash, a final `/` `*name` for a rest that starts with a slash.
   */
  predicate Matches(pat: bytes, ps: seq<Binding>, req: bytes)
    decreases |pat|
  {
    if pat == [] then ps == [] && req == []
    else if pat[0] == COLON then
      var k := 1 + SegEnd(pat[1..]);
      && ps != [] && ps[0].key == pat[1..k] && SLASH !in ps[0].value && ps[0].value <= req
      && Matches(pat[k..], ps[1..], req[|ps[0].value|..])
    else if |pat| >= 2 && pat[0] == SLASH && pat[1] == STAR then
      |ps| == 1 && ps[0] == Binding(pat[2..], req) && req != [] && req[0] == SLASH
    else req != [] && req[0] == pat[0] && Matches(pat[1..], ps, req[1..])
  }

  /** A wildcard-free route matches itself only. */
  lemma PlainMatches(pat: bytes, ps: seq<Binding>, req: bytes)
    requires Plain(pat)
    ensures Matches(pat, ps, req) <==> ps == [] && req == pat
    decreases |pat|
  {
    if pat != [] {
      assert !Mark(pat[0]) && (|pat| >= 2 ==> !Mark(pat[1]));
      if req != [] {
        PlainMatches(pat[1..], ps, req[1..]);
        assert req == [req[0]] + req[1..] && pat == [pat[0]] + pat[1..];
      }
    }
  }

  /** A catch-all takes all of a request that starts with a slash. */
  lemma CatchAllMatches(name: bytes, ps: seq<Binding>, req: bytes)
    ensures Matches([SLASH, STAR] + name, ps, req) <==>
      ps == [Binding(name, req)] && req != [] && req[0] == SLASH
  {
    var pat := [SLASH, STAR] + name;
    assert pat[2..] == name;
    assert |ps| == 1 ==> ps == [ps[0]];
  }

  /** `pre` ends inside the name of a `:` wildcard. */
  predicate Open(pre: bytes) { exists i :: 0 <= i < |pre| && pre[i] == COLON && SLASH !in pre[i..] }

  /** Patterns that can be told apart again after concatenation. */
  predicate Joinable(pre: bytes, tail: bytes) {
    STAR !in pre && (tail == [] || (tail[0] != STAR && (Open(pre) ==> tail[0] == SLASH)))
  }

  lemma {:induction false} SegEndJoin(s: bytes, tail: bytes)
    requires SegEnd(s) < |s| || tail == [] || tail[0] == SLASH
    ensures SegEnd(s + tail) == SegEnd(s)
  {
    if s == [] {
      assert s + tail == tail;
    } else if s[0] != SLASH {
      assert (s + tail)[1..] == s[1..] + tail;
      SegEndJoin(s[1..], tail);
    }
  }

  lemma OpenTail(pre: bytes, k: nat)
    requires k <= |pre| && Open(pre[k..])
    ensures Open(pre)
  {
    var i :| 0 <= i < |pre[k..]| && pre[k..][i] == COLON && SLASH !in pre[k..][i..];
    assert pre[k + i] == COLON && pre[k + i..] == pre[k..][i..];
  }

  lemma JoinableTail(pre: bytes, k: nat, tail: bytes)
    requires Joinable(pre, tail) && k <= |pre|
    ensures Joinable(pre[k..], tail)
  {
    if Open(pre[k..]) { OpenTail(pre, k); }
  }

  lemma {:induction false} MatchesJoin(pre: bytes, tail: bytes, ps: seq<Binding>, qs: seq<Binding>, r: bytes, s: bytes)
    requires Matches(pre, ps, r) && Matches(tail, qs, s) && Joinable(pre, tail)
    ensures Matches(pre + tail, ps + qs, r + s)
    decreases |pre|
  {
    if pre == [] {
      assert pre + tail == tail && ps + qs == qs && r + s == s;
    } else if pre[0] == COLON {
      var k := 1 + SegEnd(pre[1..]);
      var v := ps[0].value;
      JoinableTail(pre, k, tail);
      MatchesJoin(pre[k..], tail, ps[1..], qs, r[|v|..], s);
      ParamJoin(pre, tail, ps, qs, r, s);
    } else {
      JoinableTail(pre, 1, tail);
      MatchesJoin(pre[1..], tail, ps, qs, r[1..], s);
      LiteralJoin(pre, tail, ps, qs, r, s);
    }
  }

  lemma LiteralMatches(pat: bytes, ps: seq<Binding>, req: bytes)
    requires pat != [] && pat[0] != COLON && (pat[0] == SLASH && |pat| >= 2 ==> pat[1] != STAR)
    ensures Matches(pat, ps, req) <==> req != [] && req[0] == pat[0] && Matches(pat[1..], ps, req[1..])
  {
  }

  lemma LiteralJoin(pre: bytes, tail: bytes, ps: seq<Binding>, qs: seq<Binding>, r: bytes, s: bytes)
    requires pre != [] && pre[0] != COLON && Matches(pre, ps, r) && Joinable(pre, tail) && r != []
    requires Matches(pre[1..] + tail, ps + qs, r[1..] + s)
    ensures Matches(pre + tail, ps + qs, r + s)
  {
    hide Matches, Open;
    JoinSlices(pre, tail, 1); JoinSlices(r, s, 1);
    assert |pre| >= 2 ==> pre[1] != STAR;
    assert |pre| == 1 ==> (pre + tail)[1..] == tail;
    LiteralMatches(pre, ps, r);
    LiteralMatches(pre + tail, ps + qs, r + s);
  }

  lemma ParamMatches(pat: bytes, ps: seq<Binding>, req: bytes)
    requires pat != [] && pat[0] == COLON
    ensures Matches(pat, ps, req) <==>
      var k := 1 + SegEnd(pat[1..]);
      && ps != [] && ps[0].key == pat[1..k] && SLASH !in ps[0].value && ps[0].value <= req
      && Matches(pat[k..], ps[1..], req[|ps[0].value|..])
  {
  }

  lemma ParamJoin(pre: bytes, tail: bytes, ps: seq<Binding>, qs: seq<Binding>, r: bytes, s: bytes)
    requires pre != [] && pre[0] == COLON && Matches(pre, ps, r) && Joinable(pre, tail)
    requires var k := 1 + SegEnd(pre[1..]); Matches(pre[k..] + tail, ps[1..] + qs, r[|ps[0].value|..] + s)
    ensures Matches(pre + tail, ps + qs, r + s)
  {
    hide Joinable, Matches;
    ParamMatches(pre, ps, r); ParamMatches(pre + tail, ps + qs, r + s);
    var k := 1 + SegEnd(pre[1..]);
    var v := ps[0].value;
    assert k < |pre| || tail == [] || tail[0] == SLASH by { if k == |pre| { OpenToEnd(pre, tail); } }
    SegEndJoin(pre[1..], tail);
    JoinSlices(pre, tail, 1); JoinSlices(pre, tail, k); JoinSlices(ps, qs, 1); JoinSlices(r, s, |v|);
  }

  lemma JoinSlices<T>(a: seq<T>, b: seq<T>, k: nat)
    requires k <= |a|
    ensures (a + b)[..k] == a[..k] && (a + b)[k..] == a[k..] + b
    ensures k > 0 ==> (a + b)[1..k] == a[1..k] && (a + b)[0] == a[0]
  {
  }

  lemma OpenToEnd(pre: bytes, tail: bytes)
    requires pre != [] && pre[0] == COLON && Joinable(pre, tail) && 1 + SegEnd(pre[1..]) == |pre|
    ensures tail == [] || tail[0] == SLASH
  {
    assert pre[0..] == [COLON] + pre[1..];
    assert Open(pre);
  }
}
