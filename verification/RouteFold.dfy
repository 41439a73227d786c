/** Routes equal to a path up to ASCII case, as a question about the value of a tree. */
module RouteFold {
  import opened Bytes
  import opened RouteTree
  import opened RouteInsert
  import opened RouteLookup

  predicate Ascii(s: bytes) { forall i :: 0 <= i < |s| ==> s[i] < 128 }

  function ToLower(c: byte): byte { if 65 <= c <= 90 then c + 32 else c }

  function ToUpper(c: byte): byte { if 97 <= c <= 122 then c - 32 else c }

  /** strings.EqualFold on ASCII strings. */
  predicate EqualFold(a: bytes, b: bytes) {
    |a| == |b| && forall i :: 0 <= i < |a| ==> ToLower(a[i]) == ToLower(b[i])
  }

  const CAPITALS: string := "ABCDEFGHIJKLMNOPQRSTUVWXYZ"
  const SMALLS: string := "abcdefghijklmnopqrstuvwxyz"

  lemma LetterCodes(k: nat)
    requires k < 26
    ensures |CAPITALS| == |SMALLS| == 26 && CAPITALS[k] as int == 65 + k && SMALLS[k] as int == 97 + k
  {
  }

  /** The two bytes are the two cases of a letter. */
  predicate Cases(c: byte, d: byte) {
    exists k :: 0 <= k < |CAPITALS| && k < |SMALLS| && {c, d} == {CAPITALS[k] as int, SMALLS[k] as int}
  }

  /** Strings are equal up to case if and only if they differ at most in the cases of letters. */
  lemma FoldIs(a: bytes, b: bytes)
    ensures EqualFold(a, b) <==> |a| == |b| && forall i :: 0 <= i < |a| ==> a[i] == b[i] || Cases(a[i], b[i])
  {
    if |a| == |b| {
      forall i | 0 <= i < |a| ensures ToLower(a[i]) == ToLower(b[i]) <==> a[i] == b[i] || Cases(a[i], b[i]) {
        FoldByte(a[i], b[i]);
      }
    }
  }

  lemma FoldByte(c: byte, d: byte)
    ensures ToLower(c) == ToLower(d) <==> c == d || Cases(c, d)
  {
    if Cases(c, d) {
      var k :| 0 <= k < |CAPITALS| && k < |SMALLS| && {c, d} == {CAPITALS[k] as int, SMALLS[k] as int};
      LetterCodes(k);
      assert c in {c, d} && d in {c, d};
      assert 65 + k in {c, d} && 97 + k in {c, d};
    }
    if c != d && ToLower(c) == ToLower(d) {
      var k := (if c < d then c else d) - 65;
      LetterCodes(k);
      assert {c, d} == {CAPITALS[k] as int, SMALLS[k] as int};
    }
  }

  lemma SameFold(a: byte, b: byte)
    requires ToLower(a) == ToLower(b)
    ensures a == ToLower(b) || a == ToUpper(b)
  {
  }

  /** A tree without wildcards, all of whose paths are ASCII. */
  ghost predicate PlainTree(t: Tree)
    decreases t
  {
    && (t.nType == Static || t.nType == Root) && !t.wildChild && Ascii(t.path)
    && forall i :: 0 <= i < |t.children| ==> PlainTree(t.children[i])
  }

  /** Some route of `t` equals `path` up to case. */
  ghost predicate HasFold(t: Tree, path: bytes) {
    exists p :: Get(t, p) != [] && EqualFold(p, path)
  }

  lemma FoldPath(t: Tree, path: bytes)
    requires HasFold(t, path)
    ensures |path| >= |t.path| && EqualFold(t.path, path[..|t.path|])
  {
    var p :| Get(t, p) != [] && EqualFold(p, path);
    assert forall i :: 0 <= i < |t.path| ==> t.path[i] == p[i];
  }

  lemma FoldHere(t: Tree, path: bytes)
    requires EqualFold(t.path, path)
    ensures HasFold(t, path) <==> t.handlers != []
  {
    if t.handlers != [] { assert Get(t, t.path) == t.handlers; }
    if p :| Get(t, p) != [] && EqualFold(p, path) { assert p == t.path; }
  }

  /** A route through child `k`. */
  lemma FoldUp(t: Tree, pre: bytes, path: bytes, k: nat, q: bytes)
    requires Formed(t, pre) && k < |t.children| && |path| > |t.path| && EqualFold(t.path, path[..|t.path|])
    requires Get(t.children[k], q) != [] && EqualFold(q, path[|t.path|..])
    ensures Get(t, t.path + q) == Get(t.children[k], q) && EqualFold(t.path + q, path)
  {
    GetBelow(t, pre, k, q);
    var p, rest := t.path + q, path[|t.path|..];
    forall i | 0 <= i < |path| ensures ToLower(p[i]) == ToLower(path[i]) {
      if i < |t.path| { assert path[..|t.path|][i] == path[i]; } else { assert rest[i - |t.path|] == path[i]; }
    }
  }

  /** A longer path is continued in the child for the lower-case or the upper-case form of its next byte. */
  lemma FoldDown(t: Tree, pre: bytes, path: bytes)
    requires Formed(t, pre) && PlainTree(t) && |path| > |t.path| && HasFold(t, path)
    ensures var c, rest := path[|t.path|], path[|t.path|..];
      exists k ::
        0 <= k < |t.children| && HasFold(t.children[k], rest) && Head(t.children[k]) in [ToLower(c), ToUpper(c)]
  {
    var p :| Get(t, p) != [] && EqualFold(p, path);
    var q := p[|t.path|..];
    var k := ChildFor(t.children, q[0]);
    assert Get(t.children[k], q) == Get(t, p);
    assert EqualFold(q, path[|t.path|..]) by {
      forall i | 0 <= i < |q| ensures ToLower(q[i]) == ToLower(path[|t.path|..][i]) { assert q[i] == p[|t.path| + i]; }
    }
    assert q[0] == p[|t.path|];
    SameFold(q[0], path[|t.path|]);
    assert HasFold(t.children[k], path[|t.path|..]);
  }

  /** A route through a wildcard node is not wildcard-free. */
  lemma WildMarks(t: Tree, pre: bytes, p: bytes)
    requires WF(t, pre) && (t.nType == Param || t.nType == CatchAll) && Get(t, p) != []
    ensures !Plain(p)
  {
    assert Formed(t, pre);
    if IsMid(t) {
      MidMarks(t, pre, p);
    } else {
      assert t.path <= p;
      assert Mark(p[if t.nType == Param then 0 else 1]);
    }
  }

  lemma WildChildRoute(t: Tree, pre: bytes) returns (r: bytes)
    requires Formed(t, pre) && (t.nType == Static || t.nType == Root) && t.wildChild
    ensures Get(t, r) != [] && !Plain(r)
  {
    var k := |t.indices|;
    assert StaticShape(t);
    var q := SomeRoute(t.children[k], pre + t.path);
    WildMarks(t.children[k], pre + t.path, q);
    GetBelow(t, pre, k, q);
    r := t.path + q;
    var i :| 0 <= i < |q| && Mark(q[i]);
    assert r[|t.path| + i] == q[i];
  }

  /** If all routes of a tree are wildcard-free and ASCII, so are all its nodes. */
  lemma {:induction false} PlainRoutesPlainTree(t: Tree, pre: bytes)
    requires WF(t, pre) && forall p :: Get(t, p) != [] ==> Plain(p) && Ascii(p)
    ensures PlainTree(t)
    decreases t
  {
    var p := SomeRoute(t, pre);
    assert forall i :: 0 <= i < |t.path| ==> p[i] == t.path[i];
    if t.nType == Param || t.nType == CatchAll {
      WildMarks(t, pre, p);
    } else if t.wildChild {
      p := WildChildRoute(t, pre);
    }
    forall k | 0 <= k < |t.children| ensures PlainTree(t.children[k]) {
      forall q | Get(t.children[k], q) != [] ensures Plain(q) && Ascii(q) {
        GetBelow(t, pre, k, q);
        var r := t.path + q;
        assert forall i :: 0 <= i < |q| ==> r[|t.path| + i] == q[i];
      }
      PlainRoutesPlainTree(t.children[k], pre + t.path);
    }
  }
}
