/** cleanPath (path.go): the canonical form of a URL path, computed in one pass with a lazily made buffer. */
module CleanPath {
  import opened Bytes
  import opened RouteTree

  const DOT: byte := 46
  const STACK_BUF_SIZE := 128

  // ---------------------------------------------------------------- the specification

  function Split(s: bytes): (r: seq<bytes>)
    ensures r != []
    decreases |s|
  {
    var k := SegEnd(s);
    if k == |s| then [s] else [s[..k]] + Split(s[k+1..])
  }

  /** One path element: "" and "." change nothing, ".." drops the element before. */
  function Enter(stack: seq<bytes>, e: bytes): seq<bytes> {
    if e == [] || e == [DOT] then stack
    else if e == [DOT, DOT] then (if stack == [] then [] else stack[..|stack|-1])
    else stack + [e]
  }

  function Resolve(stack: seq<bytes>, es: seq<bytes>): seq<bytes>
    decreases |es|
  {
    if es == [] then stack else Resolve(Enter(stack, es[0]), es[1..])
  }

  function Render(stack: seq<bytes>): bytes {
    if stack == [] then [] else Render(stack[..|stack|-1]) + [SLASH] + stack[|stack|-1]
  }

  /** The path is to end in a slash: it does so itself, or its last element is ".". */
  predicate Trailing(p: bytes) {
    var es := Split(p);
    p != [] && (p[|p|-1] == SLASH || es[|es|-1] == [DOT])
  }

  function Clean(p: bytes): bytes {
    var stack := Resolve([], Split(p));
    if stack == [] then [SLASH] else Render(stack) + if Trailing(p) then [SLASH] else []
  }

  // ---------------------------------------------------------------- elements

  /** What can be on the stack. */
  predicate Element(e: bytes) { e != [] && SLASH !in e && e != [DOT] && e != [DOT, DOT] }

  predicate Elements(stack: seq<bytes>) { forall i :: 0 <= i < |stack| ==> Element(stack[i]) }

  lemma {:induction false} SplitPlain(s: bytes)
    ensures forall i :: 0 <= i < |Split(s)| ==> SLASH !in Split(s)[i]
    decreases |s|
  {
    var k := SegEnd(s);
    if k < |s| { SplitPlain(s[k+1..]); }
  }

  lemma {:induction false} ResolveElements(stack: seq<bytes>, es: seq<bytes>)
    requires Elements(stack) && forall i :: 0 <= i < |es| ==> SLASH !in es[i]
    ensures Elements(Resolve(stack, es))
    decreases |es|
  {
    if es != [] { ResolveElements(Enter(stack, es[0]), es[1..]); }
  }

  lemma {:induction false} ResolveJoin(stack: seq<bytes>, es: seq<bytes>, fs: seq<bytes>)
    ensures Resolve(stack, es + fs) == Resolve(Resolve(stack, es), fs)
    decreases |es|
  {
    if es == [] {
      assert es + fs == fs;
    } else {
      assert (es + fs)[1..] == es[1..] + fs;
      ResolveJoin(Enter(stack, es[0]), es[1..], fs);
    }
  }

  /** Elements resolve to themselves. */
  lemma {:induction false} ResolveClean(stack: seq<bytes>, es: seq<bytes>)
    requires Elements(es)
    ensures Resolve(stack, es) == stack + es
    decreases |es|
  {
    if es == [] {
      assert stack + es == stack;
    } else {
      ResolveClean(stack + [es[0]], es[1..]);
      assert stack + [es[0]] + es[1..] == stack + es;
    }
  }

  lemma {:induction false} SegEndOf(e: bytes, s: bytes)
    requires SLASH !in e && (s == [] || s[0] == SLASH)
    ensures SegEnd(e + s) == |e|
  {
    if e == [] {
      assert e + s == s;
    } else {
      assert (e + s)[1..] == e[1..] + s;
      SegEndOf(e[1..], s);
    }
  }

  lemma SplitHead(e: bytes, s: bytes)
    requires SLASH !in e
    ensures Split(e + [SLASH] + s) == [e] + Split(s)
  {
    assert e + [SLASH] + s == e + ([SLASH] + s);
    SegEndOf(e, [SLASH] + s);
    assert (e + [SLASH] + s)[..|e|] == e && (e + [SLASH] + s)[|e| + 1..] == s;
  }

  lemma SplitOne(e: bytes)
    requires SLASH !in e
    ensures Split(e) == [e]
  {
    SegEndOf(e, []);
    assert e + [] == e;
  }

  /** Splitting what starts with a slash. */
  lemma SplitSlash(s: bytes)
    requires s != [] && s[0] == SLASH
    ensures Split(s) == [[]] + Split(s[1..])
  {
    assert s == [] + [SLASH] + s[1..];
    SplitHead([], s[1..]);
  }

  lemma SplitLast(e: bytes, s: bytes)
    requires SLASH !in e && (s == [] || s[0] == SLASH)
    ensures Split([SLASH] + e + s) == [[], e] + Split(s)[1..]
  {
    hide Split;
    var t := [SLASH] + e + s;
    SplitSlash(t);
    assert t[1..] == e + s;
    if s == [] {
      assert e + s == e;
      SplitOne(e);
      SplitOne(s);
    } else {
      assert e + s == e + [SLASH] + s[1..];
      SplitHead(e, s[1..]);
      SplitSlash(s);
    }
  }

  /** Splitting what Render puts together. */
  lemma {:induction false} SplitRender(stack: seq<bytes>, s: bytes)
    requires Elements(stack) && stack != [] && (s == [] || s[0] == SLASH)
    ensures Split(Render(stack) + s) == [[]] + stack + Split(s)[1..]
    decreases |stack|
  {
    hide Split;
    var front, e := stack[..|stack|-1], stack[|stack|-1];
    var t := [SLASH] + e + s;
    assert Render(stack) + s == Render(front) + t;
    SplitLast(e, s);
    if front == [] {
      assert Render(front) + t == t;
      assert stack == [e];
    } else {
      SplitRender(front, t);
      assert Split(t)[1..] == [e] + Split(s)[1..];
      assert stack == front + [e];
    }
  }

  /** Cleaning a clean path changes nothing. */
  lemma Idempotent(p: bytes)
    ensures Clean(Clean(p)) == Clean(p)
  {
    hide Split;
    var stack := Resolve([], Split(p));
    SplitPlain(p);
    ResolveElements([], Split(p));
    var root: bytes := [SLASH];
    SplitSlash(root);
    SplitOne([]);
    assert root[1..] == [];
    if stack == [] {
      var es: seq<bytes> := [[]];
      assert Split([SLASH]) == es + es;
      ResolveJoin([], es, es);
    } else {
      var s := if Trailing(p) then [SLASH] else [];
      var q := Render(stack) + s;
      SplitRender(stack, s);
      assert Split(q) == [[]] + stack + (if s == [] then [] else [[]]);
      CleanAgain(stack, s, q);
    }
  }

  lemma CleanAgain(stack: seq<bytes>, s: bytes, q: bytes)
    requires stack != [] && Elements(stack) && q == Render(stack) + s && (s == [] || s == [SLASH])
    requires Split(q) == [[]] + stack + (if s == [] then [] else [[]])
    ensures Clean(q) == q
  {
    hide Split, Resolve, Elements, Render;
    ResolveAgain(stack, if s == [] then [] else [[]]);
    if s == [] { PlainEnd(stack, q); }
  }

  /** Between empty elements a resolved stack resolves to itself. */
  lemma ResolveAgain(stack: seq<bytes>, last: seq<bytes>)
    requires Elements(stack) && (last == [] || last == [[]])
    ensures Resolve([], [[]] + stack + last) == stack
  {
    ResolveJoin([], [[]] + stack, last);
    ResolveJoin([], [[]], stack);
    ResolveClean([], stack);
    assert [] + stack == stack;
  }

  lemma PlainEnd(stack: seq<bytes>, q: bytes)
    requires stack != [] && Elements(stack) && q == Render(stack) && Split(q) == [[]] + stack
    ensures q != [] && !Trailing(q)
  {
    hide Split;
    var e := stack[|stack|-1];
    assert Element(e);
    assert Split(q)[|Split(q)|-1] == e;
    assert q[|q|-1] == e[|e|-1];
  }

  // ---------------------------------------------------------------- the rules of cleaning

  lemma {:induction false} SplitJoin(p: bytes, q: bytes)
    ensures Split(p + [SLASH] + q) == Split(p) + Split(q)
    decreases |p|
  {
    var k := SegEnd(p);
    if k == |p| {
      SplitHead(p, q);
    } else {
      var rest := p[k+1..];
      assert p == p[..k] + [SLASH] + rest;
      assert p + [SLASH] + q == p[..k] + [SLASH] + (rest + [SLASH] + q);
      SplitHead(p[..k], rest + [SLASH] + q);
      SplitJoin(rest, q);
    }
  }

  /** Whether a path is to end in a slash is told from what follows any of its slashes. */
  lemma TrailingJoin(p: bytes, q: bytes)
    ensures Trailing(p + [SLASH] + q) <==> q == [] || Trailing(q)
  {
    hide Split;
    SplitJoin(p, q);
    var es := Split(p) + Split(q);
    assert es[|es|-1] == Split(q)[|Split(q)|-1];
    assert q != [] ==> (p + [SLASH] + q)[|p + [SLASH] + q| - 1] == q[|q|-1];
    if q == [] { SplitOne([]); }
  }

  /** Cleaning sees what is before a slash only through the elements it leaves. */
  lemma CleanJoin(p: bytes, q: bytes, x: bytes)
    requires Resolve(Resolve([], Split(p)), Split(q)) == Resolve(Resolve([], Split(p)), Split(x))
    requires (q == [] || Trailing(q)) <==> (x == [] || Trailing(x))
    ensures Clean(p + [SLASH] + q) == Clean(p + [SLASH] + x)
  {
    hide Split, Trailing, Resolve, Render;
    SplitJoin(p, q);
    SplitJoin(p, x);
    TrailingJoin(p, q);
    TrailingJoin(p, x);
    ResolveJoin([], Split(p), Split(q));
    ResolveJoin([], Split(p), Split(x));
  }

  /** Slashes in a row are one. */
  lemma SlashesAreOne(p: bytes, q: bytes)
    ensures Clean(p + [SLASH, SLASH] + q) == Clean(p + [SLASH] + q)
  {
    hide Split, Trailing, Resolve, Clean;
    var x := [SLASH] + q;
    NoneBefore(q);
    EnterNone(Resolve([], Split(p)), x);
    TrailingJoin([], q);
    CleanJoin(p, x, q);
    Between(p, [SLASH], q, [SLASH, SLASH]);
  }

  lemma NoneBefore(q: bytes)
    ensures [] + [SLASH] + q == [SLASH] + q && ([SLASH] + q)[1..] == q
  {
  }

  lemma Between(p: bytes, m: bytes, q: bytes, all: bytes)
    requires all == [SLASH] + m
    ensures p + [SLASH] + (m + q) == p + all + q
  {
  }

  lemma ElementJoin(stack: seq<bytes>, e: bytes, q: bytes)
    requires SLASH !in e
    ensures Resolve(stack, Split(e + [SLASH] + q)) == Resolve(Enter(stack, e), Split(q))
    ensures e + [SLASH] + q != [] && (Trailing(e + [SLASH] + q) <==> q == [] || Trailing(q))
  {
    hide Split, Trailing;
    EnterStep(stack, e, q);
    TrailingJoin(e, q);
  }

  /** An element "." goes. */
  lemma DotGoes(p: bytes, q: bytes)
    ensures Clean(p + [SLASH, DOT, SLASH] + q) == Clean(p + [SLASH] + q)
  {
    hide Split, Trailing, Resolve, Clean;
    var x := [DOT] + [SLASH] + q;
    ElementJoin(Resolve([], Split(p)), [DOT], q);
    CleanJoin(p, x, q);
    assert [DOT] + [SLASH] == [DOT, SLASH];
    Between(p, [DOT, SLASH], q, [SLASH, DOT, SLASH]);
  }

  /** An element ".." goes together with the element before it. */
  lemma DotDotGoes(p: bytes, e: bytes, q: bytes)
    requires Element(e)
    ensures Clean(p + [SLASH] + e + [SLASH, DOT, DOT, SLASH] + q) == Clean(p + [SLASH] + q)
  {
    hide Split, Trailing, Resolve, Clean;
    var stack := Resolve([], Split(p));
    var y := [DOT, DOT] + [SLASH] + q;
    var x := e + [SLASH] + y;
    ElementJoin(stack, e, y);
    ElementJoin(stack + [e], [DOT, DOT], q);
    assert Enter(stack + [e], [DOT, DOT]) == stack;
    CleanJoin(p, x, q);
    assert y == [DOT, DOT, SLASH] + q;
    Between(e, [DOT, DOT, SLASH], q, [SLASH, DOT, DOT, SLASH]);
    Associates(p + [SLASH], e, [SLASH, DOT, DOT, SLASH], q);
  }

  lemma Associates(a: bytes, b: bytes, c: bytes, d: bytes)
    ensures a + (b + c + d) == a + b + c + d
  {
  }

  /** Above the root there is nothing. */
  lemma RootStays(q: bytes)
    ensures Clean([SLASH, DOT, DOT, SLASH] + q) == Clean([SLASH] + q)
  {
    hide Split, Trailing, Resolve, Clean;
    var x := [DOT, DOT] + [SLASH] + q;
    SplitOne([]);
    assert Resolve([], [[]]) == [] by { EnterStep([], [], []); }
    ElementJoin([], [DOT, DOT], q);
    CleanJoin([], x, q);
    NoneBefore(x);
    NoneBefore(q);
    assert [SLASH] + x == [SLASH, DOT, DOT, SLASH] + q;
  }

  /** A path is taken from the root. */
  lemma RootedAlike(p: bytes)
    ensures Clean([SLASH] + p) == Clean(p)
  {
    hide Split, Resolve, Trailing;
    EnterNone([], [SLASH] + p);
    TrailingJoin([], p);
    assert [] + [SLASH] + p == [SLASH] + p;
    if p == [] {
      SplitOne([]);
      EnterStep([], [], []);
    }
  }

  /** At the end "." leaves a slash, and ".." after an element leaves none. */
  lemma DotsAtEnd(p: bytes, e: bytes)
    requires Element(e)
    ensures Clean(p + [SLASH, DOT]) == Clean(p + [SLASH])
    ensures !Trailing(p) ==> Clean(p + [SLASH] + e + [SLASH, DOT, DOT]) == Clean(p)
  {
    hide Split, Resolve;
    var stack, up := Resolve([], Split(p)), [DOT, DOT];
    SplitOne([DOT]);
    EnterStep(stack, [DOT], []);
    CleanJoin(p, [DOT], []);
    assert p + [SLASH] + [DOT] == p + [SLASH, DOT] && p + [SLASH] + [] == p + [SLASH];
    var x := e + [SLASH] + up;
    ElementJoin(stack, e, up);
    EnterStep(stack + [e], up, []);
    SplitOne(up);
    SplitJoin(p, x);
    ResolveJoin([], Split(p), Split(x));
    TrailingJoin(p, x);
    assert x == e + [SLASH, DOT, DOT];
    assert p + [SLASH] + x == p + [SLASH] + e + [SLASH, DOT, DOT];
    assert Enter(stack + [e], up) == stack;
  }

  /** A path of proper elements after slashes, with or without one at the end, is clean. */
  lemma CanonicalStays(stack: seq<bytes>, slash: bool)
    requires Elements(stack) && stack != []
    ensures var q := Render(stack) + if slash then [SLASH] else []; Clean(q) == q
  {
    hide Split;
    var s := if slash then [SLASH] else [];
    var root: bytes := [SLASH];
    SplitSlash(root);
    SplitOne([]);
    assert root[1..] == [];
    SplitRender(stack, s);
    assert Split(Render(stack) + s) == [[]] + stack + (if s == [] then [] else [[]]);
    CleanAgain(stack, s, Render(stack) + s);
  }

  /** A clean path starts with a slash, and has no element "", "." or ".." but for the end after a last slash. */
  lemma CleanForm(p: bytes)
    ensures var es := Split(Clean(p));
      && |es| >= 2 && es[0] == [] && (forall i :: 0 < i < |es| - 1 ==> Element(es[i]))
      && (es[|es|-1] == [] || Element(es[|es|-1]))
  {
    hide Split;
    var stack := Resolve([], Split(p));
    SplitPlain(p);
    ResolveElements([], Split(p));
    var root: bytes := [SLASH];
    SplitSlash(root);
    SplitOne([]);
    assert root[1..] == [];
    if stack != [] {
      var s := if Trailing(p) then [SLASH] else [];
      SplitRender(stack, s);
      assert Split(Clean(p)) == [[]] + stack + (if s == [] then [] else [[]]);
    }
  }

  // ---------------------------------------------------------------- the program

  /** The buffer: nil in effect while `len` is 0, for then the output is still a prefix of the path. */
  datatype Lazy = Lazy(a: array<byte>, len: nat)

  /** The first `w` bytes of the output. */
  ghost function Out(b: Lazy, p: bytes, w: nat): bytes
    reads b.a
  {
    if b.len == 0 && w <= |p| then p[..w] else if w <= b.a.Length then b.a[..w] else []
  }

  /** The buffer holds a byte for each of the path, and one more where a slash had to be put before it. */
  predicate Fits(b: Lazy, p: bytes, d: nat) {
    b.len <= b.a.Length && if d == 1 then b.len == |p| + 1 else d == 0 && b.len in [0, |p|]
  }

  /** bufApp: writes `c` at `w`, making the buffer if the path differs there. */
  method bufApp(b: Lazy, p: bytes, w: nat, c: byte, ghost d: nat) returns (r: Lazy)
    requires Fits(b, p, d) && w < |p| + d
    modifies b.a
    ensures (r.a == b.a || fresh(r.a)) && Fits(r, p, d)
    ensures Out(r, p, w + 1) == old(Out(b, p, w)) + [c]
    ensures if b.len == 0 then r.len == (if p[w] == c then 0 else |p|) else r == b
  {
    r := b;
    if b.len == 0 {
      if p[w] == c {
        return;
      }
      if |p| > b.a.Length {
        var a := new byte[|p|];
        r := Lazy(a, |p|);
      } else {
        r := Lazy(b.a, |p|);
      }
      forall i | 0 <= i < w { r.a[i] := p[i]; }
      assert r.a[..w] == p[..w];
    }
    ghost var before := r.a[..w];
    r.a[w] := c;
    assert r.a[..w+1] == before + [c];
  }

  ghost function Shown(stack: seq<bytes>): bytes { if stack == [] then [SLASH] else Render(stack) }

  lemma EnterStep(stack: seq<bytes>, e: bytes, s: bytes)
    requires SLASH !in e
    ensures Resolve(stack, Split(e + [SLASH] + s)) == Resolve(Enter(stack, e), Split(s))
    ensures Resolve(stack, Split(e)) == Enter(stack, e)
    ensures Resolve(stack, Split([])) == stack
  {
    hide Split;
    SplitHead(e, s);
    SplitOne(e);
    SplitOne([]);
    assert ([e] + Split(s))[1..] == Split(s);
  }

  /** At a slash, an empty element ends. */
  lemma EnterNone(stack: seq<bytes>, s: bytes)
    requires s != [] && s[0] == SLASH
    ensures Resolve(stack, Split(s)) == Resolve(stack, Split(s[1..]))
  {
    EnterStep(stack, [], s[1..]);
    assert s == [] + [SLASH] + s[1..];
  }

  /** The loops of the ".." case: back to a slash, or to the root, of the output `out`. */
  method rewind(b: Lazy, p: bytes, w0: nat, ghost out: bytes, ghost low: nat) returns (w: nat)
    requires 1 <= w0 < |out| && low <= w0 && low < |out| && out[low] == SLASH
    requires if b.len == 0 then |out| <= |p| && out == p[..|out|] else |out| <= b.a.Length && out == b.a[..|out|]
    ensures 1 <= w <= w0 && low <= w && (w == 1 || out[w] == SLASH)
  {
    w := w0;
    if b.len == 0 {
      while w > 1 && p[w] != SLASH
        invariant 1 <= w <= w0 && low <= w
      {
        assert out[w] == p[w];
        w := w - 1;
      }
      assert out[w] == p[w];
    } else {
      while w > 1 && b.a[w] != SLASH
        invariant 1 <= w <= w0 && low <= w
      {
        assert out[w] == b.a[w];
        w := w - 1;
      }
      assert out[w] == b.a[w];
    }
  }

  /** Back over the last element. */
  method backtrack(b: Lazy, p: bytes, w0: nat, ghost d: nat, ghost stack: seq<bytes>) returns (w: nat)
    requires Fits(b, p, d) && w0 <= |p| + d && Elements(stack) && Out(b, p, w0) == Shown(stack)
    ensures w <= w0 && Out(b, p, w) == Shown(Enter(stack, [DOT, DOT])) && w == |Shown(Enter(stack, [DOT, DOT]))|
    ensures w0 >= 1 ==> w >= 1
  {
    hide Elements;
    w := w0;
    if w > 1 {
      ghost var front, e := Render(stack[..|stack|-1]), stack[|stack|-1];
      ghost var out := Out(b, p, w0);
      assert out == front + [SLASH] + e;
      LastNotEmpty(stack);
      w := rewind(b, p, w - 1, out, |front|);
      RenderAt(stack, w);
      assert Out(b, p, w) == out[..w];
    }
  }

  lemma LastNotEmpty(stack: seq<bytes>)
    requires Elements(stack) && stack != []
    ensures stack[|stack|-1] != []
  {
  }

  /** Where the last element starts: at its slash, or after the root. */
  lemma RenderAt(stack: seq<bytes>, w: nat)
    requires Elements(stack) && stack != [] && |Render(stack[..|stack|-1])| <= w < |Render(stack)| && w >= 1
    requires w == 1 || Render(stack)[w] == SLASH
    ensures Render(stack)[..w] == Shown(stack[..|stack|-1])
  {
    var front, e := stack[..|stack|-1], stack[|stack|-1];
    var k := |Render(front)|;
    assert w > k ==> Render(stack)[w] == e[w - k - 1];
    if front != [] { RenderLong(front); }
  }

  lemma RenderLong(stack: seq<bytes>)
    requires Elements(stack) && stack != []
    ensures |Render(stack)| >= 2 && Render(stack)[0] == SLASH
    decreases |stack|
  {
    if |stack| > 1 { RenderLong(stack[..|stack|-1]); }
  }

  /** Copies the element at `r0`. */
  method copyElement(b0: Lazy, p: bytes, r0: nat, w0: nat, ghost d: nat) returns (b: Lazy, r: nat, w: nat)
    requires r0 < |p| && p[r0] != SLASH && Fits(b0, p, d) && w0 <= r0 + d
    modifies b0.a
    ensures (b.a == b0.a || fresh(b.a)) && Fits(b, p, d) && r0 < r <= |p| && w <= r + d
    ensures SLASH !in p[r0..r] && (r < |p| ==> p[r] == SLASH)
    ensures Out(b, p, w) == old(Out(b0, p, w0)) + p[r0..r]
  {
    hide Fits, Out;
    b, r, w := b0, r0, w0;
    ghost var before := Out(b0, p, w0);
    assert before + p[r0..r0] == before;
    while r < |p| && p[r] != SLASH
      invariant r0 <= r <= |p| && (b.a == b0.a || fresh(b.a)) && Fits(b, p, d) && w <= r + d && SLASH !in p[r0..r]
      invariant Out(b, p, w) == before + p[r0..r]
    {
      b := bufApp(b, p, w, p[r], d);
      assert p[r0..r+1] == p[r0..r] + [p[r]];
      w := w + 1;
      r := r + 1;
    }
  }

  /** Appends a slash if needed, and the element at `r0`. */
  method addElement(b0: Lazy, p: bytes, r0: nat, w0: nat, ghost d: nat, ghost stack: seq<bytes>)
    returns (b: Lazy, r: nat, w: nat)
    requires r0 < |p| && p[r0] != SLASH && Fits(b0, p, d) && w0 <= r0 + d && (w0 > 1 ==> w0 + 1 <= r0 + d)
    requires Elements(stack) && Out(b0, p, w0) == Shown(stack)
    modifies b0.a
    ensures (b.a == b0.a || fresh(b.a)) && Fits(b, p, d) && r0 < r <= |p| && w <= r + d
    ensures SLASH !in p[r0..r] && (r < |p| ==> p[r] == SLASH)
    ensures Out(b, p, w) == Shown(stack + [p[r0..r]]) && w == |Shown(stack + [p[r0..r]])| && w >= 1
  {
    hide Fits;
    b, w := b0, w0;
    if stack != [] { RenderLong(stack); }
    ghost var front := if stack == [] then [] else Render(stack);
    if w > 1 {
      b := bufApp(b, p, w, SLASH, d);
      w := w + 1;
    }
    assert Out(b, p, w) == front + [SLASH];
    b, r, w := copyElement(b, p, r0, w, d);
    assert (stack + [p[r0..r]])[..|stack|] == stack;
    assert Render(stack + [p[r0..r]]) == front + [SLASH] + p[r0..r];
  }

  /** The path ends in an element ".". */
  predicate EndsInDot(p: bytes) {
    p != [] && p[|p|-1] == DOT && (|p| == 1 || p[|p|-2] == SLASH)
  }

  lemma SplitEnd(p: bytes)
    requires SegEnd(p) < |p|
    ensures Split(p)[|Split(p)|-1] == Split(p[SegEnd(p)+1..])[|Split(p[SegEnd(p)+1..])|-1]
  {
  }

  lemma DotBehind(p: bytes, k: nat)
    requires k < |p| && p[k] == SLASH && SLASH !in p[..k]
    ensures EndsInDot(p) <==> EndsInDot(p[k+1..])
  {
  }

  lemma {:induction false} TrailingIs(p: bytes)
    ensures Split(p)[|Split(p)|-1] == [DOT] <==> EndsInDot(p)
    ensures Trailing(p) <==> p != [] && (p[|p|-1] == SLASH || EndsInDot(p))
    decreases |p|
  {
    var k := SegEnd(p);
    if k < |p| {
      SplitEnd(p);
      DotBehind(p, k);
      hide Split, EndsInDot;
      TrailingIs(p[k+1..]);
    } else {
      assert Split(p) == [p];
    }
  }

  function Rest(p: bytes, r: nat): bytes { if r <= |p| then p[r..] else [] }

  /** Where the scan stands: `stack` is what came before `r`, shown in the first `w` bytes of the output. */
  ghost predicate Scanning(p: bytes, r: nat, w: nat, d: nat, trailing: bool, stack: seq<bytes>) {
    && p != [] && Elements(stack) && Resolve(stack, Split(Rest(p, r))) == Resolve([], Split(p))
    && 1 <= w <= r + d && w <= |p| + d && w == |Shown(stack)|
    && (r < |p| && p[r] != SLASH ==> (r == 0 || p[r-1] == SLASH) && (w > 1 ==> w + 1 <= r + d))
    && (r >= |p| && trailing && w > 1 ==> w + 1 <= |p| + d)
    && (trailing ==> p[|p|-1] == SLASH || (r >= |p| && EndsInDot(p)))
    && (|p| > 1 && p[|p|-1] == SLASH ==> trailing) && (EndsInDot(p) ==> r < |p| || trailing)
  }

  lemma ScanSlash(p: bytes, r: nat, w: nat, d: nat, trailing: bool, stack: seq<bytes>)
    requires Scanning(p, r, w, d, trailing, stack) && r < |p| && p[r] == SLASH
    ensures Scanning(p, r + 1, w, d, trailing, stack)
  {
    hide Split, Resolve, Shown, Elements;
    EnterNone(stack, p[r..]);
    assert p[r..][1..] == p[r+1..];
  }

  lemma DotResolves(p: bytes, r: nat, stack: seq<bytes>)
    requires r < |p| && p[r] == DOT && (r + 1 == |p| || p[r+1] == SLASH)
    ensures Resolve(stack, Split(Rest(p, r))) == Resolve(stack, Split(Rest(p, r + 1 + if r + 1 == |p| then 0 else 1)))
  {
    hide Split, Resolve;
    assert Enter(stack, [DOT]) == stack;
    if r + 1 == |p| {
      assert p[r..] == [DOT];
      EnterStep(stack, [DOT], []);
      assert Rest(p, r + 1) == [];
    } else {
      assert p[r..] == [DOT] + [SLASH] + p[r+2..];
      EnterStep(stack, [DOT], p[r+2..]);
    }
  }

  lemma ScanDotEnd(p: bytes, r: nat, w: nat, d: nat, trailing: bool, stack: seq<bytes>)
    requires Scanning(p, r, w, d, trailing, stack) && r + 1 == |p| && p[r] == DOT
    ensures Scanning(p, r + 1, w, d, true, stack)
  {
    hide Split, Resolve, Shown, Elements, Rest;
    DotResolves(p, r, stack);
  }

  lemma ScanDot(p: bytes, r: nat, w: nat, d: nat, trailing: bool, stack: seq<bytes>)
    requires Scanning(p, r, w, d, trailing, stack) && r + 1 < |p| && p[r] == DOT && p[r+1] == SLASH
    ensures Scanning(p, r + 2, w, d, trailing, stack)
  {
    hide Split, Resolve, Shown, Elements, Rest;
    DotResolves(p, r, stack);
  }

  lemma DotDotResolves(p: bytes, r: nat, stack: seq<bytes>)
    requires r + 1 < |p| && p[r] == DOT && p[r+1] == DOT && (r + 2 == |p| || p[r+2] == SLASH)
    ensures Resolve(stack, Split(Rest(p, r))) == Resolve(Enter(stack, [DOT, DOT]), Split(Rest(p, r + 3)))
  {
    hide Split, Resolve, Enter;
    if r + 2 == |p| {
      assert p[r..] == [DOT, DOT];
      EnterStep(stack, [DOT, DOT], []);
      EnterStep(Enter(stack, [DOT, DOT]), [], []);
    } else {
      assert p[r..] == [DOT, DOT] + [SLASH] + p[r+3..];
      EnterStep(stack, [DOT, DOT], p[r+3..]);
    }
  }

  lemma ScanDotDot(p: bytes, r: nat, w: nat, d: nat, trailing: bool, stack: seq<bytes>, x: nat)
    requires Scanning(p, r, w, d, trailing, stack) && r + 1 < |p| && p[r] == DOT && p[r+1] == DOT
    requires r + 2 == |p| || p[r+2] == SLASH
    requires 1 <= x <= w && x == |Shown(Enter(stack, [DOT, DOT]))|
    ensures Scanning(p, r + 3, x, d, trailing, Enter(stack, [DOT, DOT]))
  {
    hide Split, Resolve, Shown, Rest;
    DotDotResolves(p, r, stack);
  }

  lemma ElementResolves(p: bytes, r: nat, stack: seq<bytes>, q: nat)
    requires Elements(stack) && r < q <= |p| && p[r] != SLASH && SLASH !in p[r..q] && (q < |p| ==> p[q] == SLASH)
    requires !(p[r] == DOT && (q == r + 1 || (q == r + 2 && p[r+1] == DOT)))
    ensures Elements(stack + [p[r..q]])
    ensures Resolve(stack, Split(Rest(p, r))) == Resolve(stack + [p[r..q]], Split(Rest(p, q)))
  {
    hide Split, Resolve;
    var e := p[r..q];
    assert e[0] == p[r] && (|e| == 2 ==> e[1] == p[r+1]);
    assert Enter(stack, e) == stack + [e];
    if q == |p| {
      assert p[r..] == e;
      EnterStep(stack, e, []);
      EnterStep(stack + [e], [], []);
    } else {
      assert p[r..] == e + [SLASH] + p[q+1..];
      EnterStep(stack, e, p[q+1..]);
      EnterNone(stack + [e], p[q..]);
      assert p[q..][1..] == p[q+1..];
    }
  }

  /** The element at `r` ends at `q`. */
  lemma ScanElement(p: bytes, r: nat, w: nat, d: nat, trailing: bool, stack: seq<bytes>, q: nat, x: nat)
    requires Scanning(p, r, w, d, trailing, stack) && r < q <= |p| && p[r] != SLASH && SLASH !in p[r..q]
    requires q < |p| ==> p[q] == SLASH
    requires !(p[r] == DOT && (q == r + 1 || (q == r + 2 && p[r+1] == DOT)))
    requires 1 <= x <= q + d && x == |Shown(stack + [p[r..q]])|
    ensures Scanning(p, q, x, d, trailing, stack + [p[r..q]])
  {
    hide Split, Resolve, Shown, Elements;
    ElementResolves(p, r, stack, q);
    var e := p[r..q];
    assert p[q-1] == e[|e|-1] && (q >= r + 2 ==> p[q-2] == e[|e|-2]);
  }

  lemma StartScan(p: bytes)
    requires p != []
    ensures var rooted := p[0] == SLASH;
      Scanning(p, if rooted then 1 else 0, 1, if rooted then 0 else 1, |p| > 1 && p[|p|-1] == SLASH, [])
  {
    hide Split;
    if p[0] == SLASH { EnterNone([], p); }
    assert p[0..] == p;
  }

  /** At the end the stack is what the whole path resolves to. */
  lemma EndResolves(p: bytes, r: nat, w: nat, d: nat, trailing: bool, stack: seq<bytes>)
    requires Scanning(p, r, w, d, trailing, stack) && r >= |p|
    ensures Resolve([], Split(p)) == stack
  {
    hide Split, Resolve, Render, Elements;
    EnterStep(stack, [], []);
    assert Rest(p, r) == [];
  }

  lemma SlashAlone(p: bytes)
    requires |p| == 1 && p[0] == SLASH
    ensures Resolve([], Split(p)) == []
  {
    hide Split, Resolve;
    EnterNone([], p);
    EnterStep([], [], []);
    assert p[1..] == [];
  }

  lemma EndScan(p: bytes, r: nat, w: nat, d: nat, trailing: bool, stack: seq<bytes>)
    requires Scanning(p, r, w, d, trailing, stack) && r >= |p|
    ensures Clean(p) == Shown(stack) + if trailing && w > 1 then [SLASH] else []
  {
    EndResolves(p, r, w, d, trailing, stack);
    hide Split, Trailing, Resolve, Render;
    TrailingIs(p);
    if stack != [] { RenderLong(stack); }
    if |p| == 1 && p[0] == SLASH { SlashAlone(p); }
  }

  lemma EmptyClean()
    ensures Clean([]) == [SLASH]
  {
    SplitOne([]);
  }

  /** What the scan guarantees to the program. */
  lemma ScanRange(p: bytes, r: nat, w: nat, d: nat, trailing: bool, stack: seq<bytes>)
    requires Scanning(p, r, w, d, trailing, stack)
    ensures Elements(stack) && 1 <= w <= r + d && w <= |p| + d && w == |Shown(stack)|
    ensures r < |p| && p[r] != SLASH && w > 1 ==> w + 1 <= r + d
    ensures r >= |p| && trailing && w > 1 ==> w + 1 <= |p| + d
  {
  }

  /** A buffer of `size` bytes that starts with a slash. */
  method prefixSlash(b: Lazy, size: nat) returns (r: Lazy)
    requires size > 0
    modifies b.a
    ensures (r.a == b.a || fresh(r.a)) && r.len == size <= r.a.Length && r.a[..1] == [SLASH]
  {
    if size > b.a.Length {
      var a := new byte[size];
      r := Lazy(a, size);
    } else {
      r := Lazy(b.a, size);
    }
    r.a[0] := SLASH;
  }

  /** Starts the output with a slash where the path does not. */
  method start(a: array<byte>, p: bytes) returns (b: Lazy, r: nat, ghost d: nat)
    requires p != [] && a.Length == STACK_BUF_SIZE
    modifies a
    ensures (b.a == a || fresh(b.a)) && Fits(b, p, d) && Out(b, p, 1) == Shown([])
    ensures r == (if p[0] == SLASH then 1 else 0) && d == if p[0] == SLASH then 0 else 1
  {
    b, r, d := Lazy(a, 0), 1, 0;
    if p[0] != SLASH {
      r := 0;
      b := prefixSlash(b, |p| + 1);
      d := 1;
    }
  }

  method cleanPath(p: bytes) returns (s: bytes)
    ensures s == Clean(p)
  {
    hide Scanning, Elements, Resolve, Clean, Enter, Shown, Fits, Out;
    if p == [] {
      EmptyClean();
      return [SLASH];
    }
    var a := new byte[STACK_BUF_SIZE];
    var n := |p|;
    var b, r, d := start(a, p);
    var w: nat := 1;
    ghost var stack: seq<bytes> := [];
    var trailing := n > 1 && p[n-1] == SLASH;
    StartScan(p);
    while r < n
      invariant Scanning(p, r, w, d, trailing, stack) && Fits(b, p, d) && fresh(b.a) && Out(b, p, w) == Shown(stack)
      decreases n - r
    {
      ScanRange(p, r, w, d, trailing, stack);
      if p[r] == SLASH {
        ScanSlash(p, r, w, d, trailing, stack);
        r := r + 1;
      } else if p[r] == DOT && r + 1 == n {
        ScanDotEnd(p, r, w, d, trailing, stack);
        trailing := true;
        r := r + 1;
      } else if p[r] == DOT && p[r+1] == SLASH {
        ScanDot(p, r, w, d, trailing, stack);
        r := r + 2;
      } else if p[r] == DOT && p[r+1] == DOT && (r + 2 == n || p[r+2] == SLASH) {
        var x := backtrack(b, p, w, d, stack);
        ScanDotDot(p, r, w, d, trailing, stack, x);
        r := r + 3;
        stack, w := Enter(stack, [DOT, DOT]), x;
      } else {
        var q, x;
        b, q, x := addElement(b, p, r, w, d, stack);
        ScanElement(p, r, w, d, trailing, stack, q, x);
        stack, r, w := stack + [p[r..q]], q, x;
      }
    }
    EndScan(p, r, w, d, trailing, stack);
    ScanRange(p, r, w, d, trailing, stack);
    if trailing && w > 1 {
      b := bufApp(b, p, w, SLASH, d);
      w := w + 1;
    }
    s := taken(b, p, w, d);
  }

  /** p[:w], or the buffer's. */
  method taken(b: Lazy, p: bytes, w: nat, ghost d: nat) returns (s: bytes)
    requires Fits(b, p, d) && w <= |p| + d
    ensures s == Out(b, p, w)
  {
    if b.len == 0 { return p[..w]; }
    return b.a[..w];
  }
}
