/** Which route patterns are well formed by themselves, and which two cannot be registered for one method. */
module RouteClash {
  import opened Bytes
  import opened RouteTree

  /** `s` ends inside a wildcard's name. */
  predicate InName(s: bytes) { exists i :: 0 <= i < |s| && Mark(s[i]) && SLASH !in s[i..] }

  /** A wildcard before `s` ends where `s` begins. */
  predicate AtEnd(s: bytes) { s == [] || s[0] == SLASH }

  predicate StarFirst(s: bytes) { s != [] && s[0] == STAR }

  /**
    Two patterns clash if they are equal, if one has a `*` where they first differ, or if they first differ inside
    a wildcard's name and do not both end there or go on with a slash.
   */
  predicate Clash(p: bytes, q: bytes) {
    var d := Lcp(p, q);
    || p == q
    || StarFirst(p[d..]) || StarFirst(q[d..])
    || (InName(p[..d]) && !(AtEnd(p[d..]) && AtEnd(q[d..])))
  }

  /** The wildcard that starts at `i` has a name, is alone in its segment, and is last behind a slash if it is a `*`. */
  predicate MarkOK(path: bytes, i: nat)
    requires i < |path|
  {
    && i + 1 < |path| && path[i+1] != SLASH
    && (forall j :: i < j < |path| && Mark(path[j]) ==> SLASH in path[i..j])
    && (path[i] == STAR ==> i > 0 && path[i-1] == SLASH && SLASH !in path[i..])
  }

  predicate WellFormed(path: bytes) { forall i :: 0 <= i < |path| && Mark(path[i]) ==> MarkOK(path, i) }

  // ---------------------------------------------------------------- a common beginning

  predicate ParamName(w: bytes) { |w| >= 2 && w[0] == COLON && Name(w[1..]) }

  /** What can follow `w` in a pattern as far as the name of a wildcard goes. */
  predicate Fits(w: bytes, rest: bytes) { Plain(w) || (ParamName(w) && AtEnd(rest)) }

  lemma LcpIs(p: bytes, q: bytes, n: nat)
    requires n <= |p| && n <= |q| && p[..n] == q[..n] && (n < |p| && n < |q| ==> p[n] != q[n])
    ensures Lcp(p, q) == n
  {
    var d := Lcp(p, q);
    assert forall k :: 0 <= k < n ==> p[k] == p[..n][k] == q[..n][k] == q[k];
    assert forall k :: 0 <= k < d ==> p[k] == p[..d][k] == q[..d][k] == q[k];
  }

  lemma LcpShift(w: bytes, p: bytes, q: bytes)
    ensures Lcp(w + p, w + q) == |w| + Lcp(p, q)
  {
    var d := Lcp(p, q);
    assert (w + p)[..|w| + d] == w + p[..d] && (w + q)[..|w| + d] == w + q[..d];
    LcpIs(w + p, w + q, |w| + d);
  }

  lemma ClashSymmetric(p: bytes, q: bytes)
    ensures Clash(p, q) <==> Clash(q, p)
  {
    LcpIs(q, p, Lcp(p, q));
  }

  lemma InNameShift(w: bytes, s: bytes)
    requires Fits(w, s) && (s != [] || Plain(w))
    ensures InName(w + s) <==> InName(s)
  {
    assert s != [] ==> forall k :: 0 <= k <= |w| ==> (w + s)[k..][|w| - k] == s[0];
    if InName(w + s) {
      var i :| 0 <= i < |w + s| && Mark((w + s)[i]) && SLASH !in (w + s)[i..];
      assert (w + s)[i..] == s[i - |w|..];
    }
    if InName(s) {
      var i :| 0 <= i < |s| && Mark(s[i]) && SLASH !in s[i..];
      assert (w + s)[|w| + i..] == s[i..] && (w + s)[|w| + i] == s[i];
    }
  }

  /** A common beginning that ends outside, or at the end of, a wildcard's name changes nothing. */
  lemma ClashVia(w: bytes, p: bytes, q: bytes)
    requires Fits(w, p) && Fits(w, q)
    ensures Clash(w + p, w + q) <==> Clash(p, q)
  {
    var d := Lcp(p, q);
    LcpShift(w, p, q);
    assert (w + p)[|w| + d..] == p[d..] && (w + q)[|w| + d..] == q[d..];
    assert (w + p)[..|w| + d] == w + p[..d];
    assert w + p == w + q ==> p == (w + p)[|w|..] == (w + q)[|w|..] == q;
    if d > 0 || Plain(w) { InNameShift(w, p[..d]); }
  }

  /** Patterns with different first bytes, or of which one is empty. */
  lemma ClashApart(p: bytes, q: bytes)
    requires p != [] && q != [] ==> p[0] != q[0]
    ensures Clash(p, q) <==> (p == q || StarFirst(p) || StarFirst(q))
  {
    assert Lcp(p, q) == 0;
  }

  lemma MarkShift(w: bytes, rest: bytes, i: nat)
    requires i < |rest| && (i > 0 || rest[0] != STAR)
    ensures MarkOK(w + rest, |w| + i) <==> MarkOK(rest, i)
  {
    var path, k := w + rest, |w| + i;
    assert path[k..] == rest[i..];
    assert forall j :: i <= j < |rest| ==> path[|w| + j] == rest[j] && path[k..|w| + j] == rest[i..j];
    if MarkOK(rest, i) {
      forall j | k < j < |path| && Mark(path[j]) ensures SLASH in path[k..j] { assert path[j] == rest[j - |w|]; }
    }
    if MarkOK(path, k) {
      forall j | i < j < |rest| && Mark(rest[j]) ensures SLASH in rest[i..j] { assert Mark(path[|w| + j]); }
    }
  }

  lemma WellFormedVia(w: bytes, rest: bytes)
    requires Fits(w, rest) && !StarFirst(rest)
    ensures WellFormed(w + rest) <==> WellFormed(rest)
  {
    var path := w + rest;
    if WellFormed(path) {
      forall i | 0 <= i < |rest| && Mark(rest[i]) ensures MarkOK(rest, i) {
        assert path[|w| + i] == rest[i];
        MarkShift(w, rest, i);
      }
    }
    if WellFormed(rest) {
      forall i | 0 <= i < |path| && Mark(path[i]) ensures MarkOK(path, i) {
        if i < |w| { ParamMark(w, rest, i); } else { MarkShift(w, rest, i - |w|); }
      }
    }
  }

  lemma ParamMark(w: bytes, rest: bytes, i: nat)
    requires Fits(w, rest) && i < |w| && Mark(w[i])
    ensures MarkOK(w + rest, i)
  {
    var path := w + rest;
    assert forall k :: 1 <= k < |w| ==> w[k] == w[1..][k-1] && !Mark(w[k]);
    assert path[1] == w[1..][0];
    forall j | 0 < j < |path| && Mark(path[j]) ensures SLASH in path[0..j] {
      assert |w| <= j;
      assert path[0..j][|w|] == rest[0];
    }
  }

  /** insertChild returns on exactly the well-formed patterns. */
  lemma InsertOk(t: Tree, path: bytes, full: bytes, h: Handlers)
    requires t.path == [] || (path != [] && path[0] == COLON)
    ensures InsertChild(t, path, full, h).ok <==> WellFormed(path)
    decreases |path|
  {
    match FindWildcard(path)
    case NoWildcard =>
    case Wildcard(w, i, valid) =>
      hide WellFormed;
      if !valid || |w| < 2 {
        BadName(path, i, w);
      } else if w[0] == COLON {
        assert path[i..][|w|..] == path[i + |w|..];
        AfterParam(path, i, w);
        if i + |w| < |path| { InsertOk(Fresh(full), path[i + |w|..], full, h); }
      } else {
        StarMark(path, i, w);
      }
  }

  lemma AfterParam(path: bytes, i: nat, w: bytes)
    requires ParamName(w) && i + |w| <= |path| && w == path[i..i + |w|] && Plain(path[..i])
    requires i + |w| < |path| ==> path[i + |w|] == SLASH
    ensures WellFormed(path) <==> i + |w| == |path| || WellFormed(path[i + |w|..])
  {
    var tail := path[i + |w|..];
    assert path[i..] == w + tail && path == path[..i] + path[i..];
    WellFormedVia(path[..i], w + tail);
    WellFormedVia(w, tail);
  }

  lemma BadName(path: bytes, i: nat, w: bytes)
    requires w != [] && i + |w| <= |path| && w == path[i..i + |w|] && SLASH !in w && Mark(w[0])
    requires i + |w| < |path| ==> path[i + |w|] == SLASH
    requires |w| < 2 || !Plain(w[1..])
    ensures !WellFormed(path)
  {
    assert path[i] == w[0];
    if |w| >= 2 {
      var j :| 0 <= j < |w[1..]| && Mark(w[1..][j]);
      assert path[i + 1 + j] == w[1 + j] && path[i..i + 1 + j] == w[..1 + j];
    }
    assert !MarkOK(path, i);
  }

  lemma StarMark(path: bytes, i: nat, w: bytes)
    requires |w| >= 2 && i + |w| <= |path| && w == path[i..i + |w|] && SLASH !in w && w[0] == STAR
    requires Plain(path[..i]) && Plain(w[1..])
    requires i + |w| < |path| ==> path[i + |w|] == SLASH
    ensures WellFormed(path) <==> i + |w| == |path| && i > 0 && path[i-1] == SLASH
  {
    assert path[i] == w[0] && path[i+1] == w[1];
    if i + |w| < |path| {
      assert path[i..][|w|] == SLASH;
      assert !MarkOK(path, i);
    } else {
      assert w == path[i..];
      assert forall k :: 0 <= k < i ==> path[k] == path[..i][k] && !Mark(path[k]);
      assert forall k :: i < k < |path| ==> path[k] == w[1..][k - i - 1] && !Mark(path[k]);
      assert WellFormed(path) <==> MarkOK(path, i);
    }
  }

  // ---------------------------------------------------------------- patterns without wildcards

  lemma PlainWellFormed(path: bytes)
    requires Plain(path)
    ensures WellFormed(path)
  {
  }

  /** Two patterns without wildcards clash only if they are equal. */
  lemma PlainClash(p: bytes, q: bytes)
    requires Plain(p) && Plain(q)
    ensures Clash(p, q) <==> p == q
  {
  }

  predicate OverAt(p: bytes, path: bytes, k: nat) {
    k < |path| && k + 1 < |p| && p[..k+1] == path[..k+1] && p[k] == SLASH && p[k+1] == STAR
  }

  /** The catch-all route `p` covers `path`: they agree through the slash before its `*`. */
  ghost predicate Over(p: bytes, path: bytes) { exists k: nat :: OverAt(p, path, k) }

  /** A route clashes with a path without wildcards only if it is that path or a catch-all above it. */
  lemma PlainClashes(p: bytes, path: bytes)
    requires WellFormed(p) && Plain(path)
    ensures Clash(p, path) <==> p == path || Over(p, path)
  {
    var d := Lcp(p, path);
    assert forall k :: 0 <= k < d ==> p[k] == p[..d][k] == path[..d][k] == path[k];
    if d < |p| && p[d] == STAR {
      assert MarkOK(p, d);
      assert OverAt(p, path, d - 1);
    }
    if k: nat :| OverAt(p, path, k) {
      assert p[k+1] == STAR;
      LcpIs(p, path, k + 1);
    }
  }
}
