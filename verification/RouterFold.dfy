/** findCaseInsensitivePath (tree.go) without trailing-slash fixing, on wildcard-free ASCII trees. */
module RouterFold {
  import opened Bytes
  import opened RouteTree
  import opened RouteInsert
  import opened RouteLookup
  import opened RouteFold
  import opened Router
  import opened RouterLookup

  datatype Fixed = NotFound | Fixed(path: bytes)

  /** utf8.RuneStart. */
  predicate RuneStart(b: byte) { !(128 <= b < 192) }

  function shiftNRuneBytes(rb: bytes, n: nat): (r: bytes)
    requires |rb| == 4
    ensures |r| == 4
  {
    if n == 0 then rb
    else if n == 1 then [rb[1], rb[2], rb[3], 0]
    else if n == 2 then [rb[2], rb[3], 0, 0]
    else if n == 3 then [rb[3], 0, 0, 0]
    else [0, 0, 0, 0]
  }

  method equalFold(a: bytes, b: bytes) returns (r: bool)
    ensures r == EqualFold(a, b)
  {
    if |a| != |b| { return false; }
    var i := 0;
    while i < |a|
      invariant i <= |a| && forall j :: 0 <= j < i ==> ToLower(a[j]) == ToLower(b[j])
    {
      if ToLower(a[i]) != ToLower(b[i]) { return false; }
      i := i + 1;
    }
    return true;
  }

  /** `out` is the answer for `path` in `t` behind the prefix `ci`: a route equal up to case, if there is one. */
  ghost predicate FoldAnswer(t: Tree, ci: bytes, path: bytes, out: Fixed) {
    && (out.NotFound? <==> !HasFold(t, path))
    && (out.Fixed? ==> exists p :: Get(t, p) != [] && EqualFold(p, path) && out.path == ci + p)
  }

  /** The byte at `npLen`, read from the start of its rune, and how far back that start is. */
  method runeAt(oldPath: bytes, npLen: nat) returns (rv: byte, off: nat)
    requires npLen < |oldPath|
    ensures npLen == 0 ==> rv == 0 && off == 0
    ensures npLen > 0 && RuneStart(oldPath[npLen]) ==> rv == oldPath[npLen] && off == 0
  {
    rv, off := 0, 0;
    var max := if npLen < 3 then npLen else 3;
    while off < max
      invariant off <= max && rv == 0
      invariant off > 0 ==> !RuneStart(oldPath[npLen])
    {
      var i := npLen - off;
      if RuneStart(oldPath[i]) { return oldPath[i], off; }
      off := off + 1;
    }
  }

  lemma ChildShown(G: Tags, n: Node, k: nat)
    requires n in G && n.Shows(G[n].tree, G) && ValidBut(G, null) && k < |n.children|
    ensures |n.children| == |G[n].tree.children|
    ensures var c := n.children[k];
      && c in G && G[c].tree == G[n].tree.children[k] && c.Shows(G[c].tree, G)
  {
  }

  /** An ASCII byte is its own rune. */
  lemma NextByte(oldPath: bytes, npLen: nat, rv: byte, off: nat)
    requires npLen < |oldPath| && Ascii(oldPath)
    requires npLen == 0 ==> rv == 0 && off == 0
    requires npLen > 0 && RuneStart(oldPath[npLen]) ==> rv == oldPath[npLen] && off == 0
    ensures off == 0 && (npLen > 0 ==> rv == oldPath[npLen])
    ensures ToLower(ToLower(rv)) == ToLower(rv) == ToLower(ToUpper(rv))
  {
  }

  /** Where the search stands in `n`, `rb` holding at most the byte that led here. */
  ghost predicate Searching(G: Tags, n: Node, path: bytes, rb: bytes, pre: bytes)
    reads n
  {
    && n in G && n.Shows(G[n].tree, G)
    && var t := G[n].tree;
    && (Formed(t, pre) || EmptyRoot(t)) && PlainTree(t) && Ascii(path)
    && path != [] && ToLower(path[0]) == ToLower(Head(t))
    && |rb| == 4 && rb[1..] == [0, 0, 0] && (t.path == [] ==> rb[0] == 0 && EmptyRoot(t))
  }

  /** An answer of the child for `c`, the lower-case or upper-case form of the next byte. */
  lemma ChildAnswers(t: Tree, pre: bytes, ci: bytes, path: bytes, k: nat, out: Fixed)
    requires Formed(t, pre) && k < |t.children| && |path| > |t.path| && EqualFold(t.path, path[..|t.path|])
    requires out.Fixed? && FoldAnswer(t.children[k], ci + t.path, path[|t.path|..], out)
    ensures FoldAnswer(t, ci, path, out)
  {
    var q :| Get(t.children[k], q) != [] && EqualFold(q, path[|t.path|..]) && out.path == ci + t.path + q;
    FoldUp(t, pre, path, k, q);
    assert out.path == ci + (t.path + q);
  }

  /** No child for either form of the next byte has an answer. */
  lemma NoChildAnswers(t: Tree, pre: bytes, path: bytes)
    requires Formed(t, pre) && PlainTree(t) && |path| > |t.path|
    requires forall k ::
      0 <= k < |t.children| && Head(t.children[k]) in [ToLower(path[|t.path|]), ToUpper(path[|t.path|])] ==>
      !HasFold(t.children[k], path[|t.path|..])
    ensures !HasFold(t, path)
  {
    if HasFold(t, path) { FoldDown(t, pre, path); }
  }

  /** The only child that can answer is `k`: the other form of the byte has none. */
  lemma OnlyChildAnswers(t: Tree, pre: bytes, ci: bytes, path: bytes, k: nat, out: Fixed)
    requires Formed(t, pre) && PlainTree(t) && k < |t.children| && |path| > |t.path|
    requires EqualFold(t.path, path[..|t.path|])
    requires forall j ::
      0 <= j < |t.children| && j != k && Head(t.children[j]) in [ToLower(path[|t.path|]), ToUpper(path[|t.path|])] ==>
      !HasFold(t.children[j], path[|t.path|..])
    requires FoldAnswer(t.children[k], ci + t.path, path[|t.path|..], out)
    ensures FoldAnswer(t, ci, path, out)
  {
    if out.Fixed? { ChildAnswers(t, pre, ci, path, k, out); } else { NoChildAnswers(t, pre, path); }
  }

  /** What the search finds at the child for index `k`. */
  lemma IntoFoldChild(G: Tags, n: Node, path: bytes, rb: bytes, pre: bytes, k: nat, b: byte)
    requires ValidBut(G, null) && Searching(G, n, path, rb, pre) && |path| > |n.path| && k < |n.indices|
    requires n.indices[k] == b
    requires ToLower(b) == ToLower(path[|n.path|])
    ensures k < |n.children| && |n.children| == |G[n].tree.children| && Formed(G[n].tree, pre)
    ensures var c := n.children[k]; var t := G[n].tree;
      && c in G && G[c].tree == t.children[k] && NodeSize(G[c].tree) < NodeSize(t) && Head(t.children[k]) == b
      && Searching(G, c, path[|n.path|..], [b, 0, 0, 0], pre + n.path)
      && (forall j :: 0 <= j < |t.children| && Head(t.children[j]) == b ==> j == k)
  {
    var t := G[n].tree;
    assert Formed(t, pre) && StaticShape(t);
    ChildShown(G, n, k);
    assert WF(t.children[k], pre + t.path);
    assert PlainTree(t.children[k]);
    PlainNonEmpty(t.children[k], pre + t.path);
  }

  lemma PlainNonEmpty(t: Tree, pre: bytes)
    requires Formed(t, pre) && PlainTree(t)
    ensures t.path != []
  {
    assert StaticShape(t);
    assert forall i :: 0 <= i < |t.children| ==> PlainTree(t.children[i]);
  }

  /** No child carries the byte `b`. */
  lemma NoSuchChild(G: Tags, n: Node, path: bytes, rb: bytes, pre: bytes, b: byte)
    requires Searching(G, n, path, rb, pre) && b !in n.indices
    ensures forall j :: 0 <= j < |G[n].tree.children| ==> Head(G[n].tree.children[j]) != b
  {
    var t := G[n].tree;
    if !EmptyRoot(t) { assert StaticShape(t); }
  }

  /** An answer for `path` in `t` is one for `path0` in `t0`. */
  ghost predicate Settles(t: Tree, ci: bytes, path: bytes, t0: Tree, ci0: bytes, path0: bytes) {
    forall o :: FoldAnswer(t, ci, path, o) ==> FoldAnswer(t0, ci0, path0, o)
  }

  lemma SettledBelow(t: Tree, pre: bytes, ci: bytes, path: bytes, k: nat, t0: Tree, ci0: bytes, path0: bytes)
    requires Formed(t, pre) && PlainTree(t) && k < |t.children| && |path| > |t.path|
    requires EqualFold(t.path, path[..|t.path|])
    requires forall j ::
      0 <= j < |t.children| && j != k && Head(t.children[j]) in [ToLower(path[|t.path|]), ToUpper(path[|t.path|])] ==>
      !HasFold(t.children[j], path[|t.path|..])
    requires Settles(t, ci, path, t0, ci0, path0)
    ensures Settles(t.children[k], ci + t.path, path[|t.path|..], t0, ci0, path0)
  {
    forall o | FoldAnswer(t.children[k], ci + t.path, path[|t.path|..], o) ensures FoldAnswer(t0, ci0, path0, o) {
      OnlyChildAnswers(t, pre, ci, path, k, o);
    }
  }

  /** The recursion into the child for the lower-case form of the next byte. */
  method tryLower(n: Node, oldPath: bytes, path: bytes, ciPath: bytes, rb: bytes,
                  ghost G: Tags, ghost pre: bytes, ghost was: bytes, ghost lo: byte, ghost ci: bytes)
    returns (out: Fixed)
    requires ValidBut(G, null) && Searching(G, n, oldPath, was, pre) && |oldPath| > |n.path|
    requires path == oldPath[|n.path|..] && ciPath == ci + n.path && rb == [lo, 0, 0, 0]
    requires n.path != [] ==> lo == ToLower(oldPath[|n.path|])
    requires EqualFold(n.path, oldPath[..|n.path|])
    ensures out.Fixed? ==> FoldAnswer(G[n].tree, ci, oldPath, out)
    ensures out.NotFound? ==>
      forall k ::
        0 <= k < |G[n].tree.children| && Head(G[n].tree.children[k]) == lo ==> !HasFold(G[n].tree.children[k], path)
    decreases NodeSize(G[n].tree), 0
  {
    hide NodeSize, Kids, Formed, EqualFold, HasFold, PlainTree;
    var i := n.indexOf(rb[0]);
    if i < |n.indices| {
      IntoFoldChild(G, n, oldPath, was, pre, i, lo);
      out := findRec(n.children[i], path, ciPath, rb, G, pre + n.path);
      if out.Fixed? { ChildAnswers(G[n].tree, pre, ci, oldPath, i, out); }
    } else {
      NoSuchChild(G, n, oldPath, was, pre, lo);
      out := NotFound;
    }
  }

  /**
    One turn of the loop of findRec: an answer, or the child for the upper-case form of the next byte to go on with.
   */
  method foldTurn(n: Node, path0: bytes, ci: bytes, rb0: bytes, ghost G: Tags, ghost pre: bytes)
    returns (done: bool, out: Fixed, next: Node, path: bytes, ciPath: bytes, rb: bytes)
    requires ValidBut(G, null) && Searching(G, n, path0, rb0, pre) && |path0| >= |n.path|
    ensures done ==> FoldAnswer(G[n].tree, ci, path0, out)
    ensures !done ==>
      && next in G && Searching(G, next, path, rb, pre + n.path) && NodeSize(G[next].tree) < NodeSize(G[n].tree)
      && Settles(G[next].tree, ciPath, path, G[n].tree, ci, path0)
    decreases NodeSize(G[n].tree), 1
  {
    hide NodeSize, Kids, Formed, EqualFold, HasFold, PlainTree, FoldAnswer, ToLower, ToUpper, RuneStart, Settles,
      Searching, ValidBut, Node.Shows;
    SearchingIn(G, n, path0, rb0, pre);
    ghost var t := G[n].tree;
    done, out, next, path, ciPath, rb := true, NotFound, n, path0, ci, rb0;
    var npLen := |n.path|;
    if npLen > 0 {
      var same := equalFold(path[1..npLen], n.path[1..]);
      if !same { FoldMismatch(t, ci, path); return; }
    }
    FoldFromHead(t.path, path);
    path := path[npLen..];
    ciPath := ciPath + n.path;
    if path == [] {
      assert path0[..npLen] == path0;
      FoldHereAnswer(t, ci, path0);
      if n.handlers != [] { out := Fixed(ciPath); }
      return;
    }
    rb := shiftNRuneBytes(rb, npLen);
    assert rb[0] == 0;
    var rv, off := runeAt(path0, npLen);
    var lo, up := ToLower(rv), ToUpper(rv);
    NextByte(path0, npLen, rv, off);
    rb := shiftNRuneBytes([lo] + rb[1..], off);
    out := tryLower(n, path0, path, ciPath, rb, G, pre, rb0, lo, ci);
    if out.Fixed? { return; }
    if up == lo {
      FoldMissing(t, pre, ci, path0, lo, up);
      return;
    }
    rb := shiftNRuneBytes([up] + rb[1..], off);
    assert rb == [up, 0, 0, 0];
    var i := n.indexOf(rb[0]);
    if i == |n.indices| {
      NoSuchChild(G, n, path0, rb0, pre, up);
      FoldMissing(t, pre, ci, path0, lo, up);
      return;
    }
    IntoFoldChild(G, n, path0, rb0, pre, i, up);
    SettlesSelf(t, ci, path0);
    SettledBelow(t, pre, ci, path0, i, t, ci, path0);
    done, next := false, n.children[i];
  }

  lemma SettlesSelf(t: Tree, ci: bytes, path: bytes)
    ensures Settles(t, ci, path, t, ci, path)
  {
  }

  lemma SettlesOn(t: Tree, ci: bytes, path: bytes, t1: Tree, ci1: bytes, path1: bytes, t0: Tree, ci0: bytes,
          path0: bytes)
    requires Settles(t, ci, path, t1, ci1, path1) && Settles(t1, ci1, path1, t0, ci0, path0)
    ensures Settles(t, ci, path, t0, ci0, path0)
  {
    hide FoldAnswer;
  }

  /** The recursion for the lower-case form of the next byte, the iteration for its upper-case form. */
  method findRec(n0: Node, path0: bytes, ciPath0: bytes, rb0: bytes, ghost G: Tags, ghost pre0: bytes)
    returns (out: Fixed)
    requires ValidBut(G, null) && Searching(G, n0, path0, rb0, pre0)
    ensures FoldAnswer(G[n0].tree, ciPath0, path0, out)
    decreases NodeSize(G[n0].tree), 2
  {
    hide NodeSize, Kids, Formed, EqualFold, HasFold, PlainTree, FoldAnswer, Searching;
    var n, path, ciPath, rb := n0, path0, ciPath0, rb0;
    SearchingIn(G, n0, path0, rb0, pre0);
    ghost var pre, t0 := pre0, G[n0].tree;
    SettlesSelf(t0, ciPath, path);
    while |path| >= |n.path|
      invariant ValidBut(G, null) && n in G && Searching(G, n, path, rb, pre) && NodeSize(G[n].tree) <= NodeSize(t0)
      invariant Settles(G[n].tree, ciPath, path, t0, ciPath0, path0)
      decreases NodeSize(G[n].tree)
    {
      ghost var n1, path1, ci1 := n, path, ciPath;
      var done;
      done, out, n, path, ciPath, rb := foldTurn(n, path, ciPath, rb, G, pre);
      if done { return; }
      SettlesOn(G[n].tree, ciPath, path, G[n1].tree, ci1, path1, t0, ciPath0, path0);
      pre := pre + n1.path;
    }
    SearchingIn(G, n, path, rb, pre);
    FoldTooShort(G[n].tree, ciPath, path);
    return NotFound;
  }

  lemma SearchingIn(G: Tags, n: Node, path: bytes, rb: bytes, pre: bytes)
    requires Searching(G, n, path, rb, pre) && ValidBut(G, null)
    ensures n in G && var t := G[n].tree;
      && n.path == t.path && n.indices == t.indices && n.handlers == t.handlers && path != []
      && ToLower(path[0]) == ToLower(Head(t)) && Ascii(path)
      && (Formed(t, pre) || EmptyRoot(t)) && PlainTree(t) && |rb| == 4 && rb[1..] == [0, 0, 0]
      && (t.path == [] ==> rb[0] == 0 && EmptyRoot(t))
  {
    hide NodeSize, Kids, Formed, PlainTree, ToLower;
  }

  lemma FoldMismatch(t: Tree, ci: bytes, path: bytes)
    requires 0 < |t.path| <= |path| && !EqualFold(path[1..|t.path|], t.path[1..])
    ensures FoldAnswer(t, ci, path, NotFound)
  {
    if HasFold(t, path) { FoldPath(t, path); }
  }

  lemma FoldTooShort(t: Tree, ci: bytes, path: bytes)
    requires |path| < |t.path|
    ensures FoldAnswer(t, ci, path, NotFound)
  {
  }

  lemma FoldHereAnswer(t: Tree, ci: bytes, path: bytes)
    requires EqualFold(t.path, path)
    ensures FoldAnswer(t, ci, path, if t.handlers != [] then Fixed(ci + t.path) else NotFound)
  {
    FoldHere(t, path);
    if t.handlers != [] { assert Get(t, t.path) == t.handlers; }
  }

  lemma FoldMissing(t: Tree, pre: bytes, ci: bytes, path: bytes, lo: byte, up: byte)
    requires (Formed(t, pre) && PlainTree(t)) || EmptyRoot(t)
    requires |path| > |t.path| && (t.path != [] ==> lo == ToLower(path[|t.path|]) && up == ToUpper(path[|t.path|]))
    requires t.path == [] ==> EmptyRoot(t)
    requires forall k ::
      0 <= k < |t.children| && Head(t.children[k]) in [lo, up] ==> !HasFold(t.children[k], path[|t.path|..])
    ensures FoldAnswer(t, ci, path, NotFound)
  {
    if t.path != [] { NoChildAnswers(t, pre, path); }
  }

  lemma FoldFromHead(a: bytes, path: bytes)
    requires |path| >= |a| && (a != [] ==> ToLower(path[0]) == ToLower(a[0]) && EqualFold(path[1..|a|], a[1..]))
    ensures EqualFold(a, path[..|a|])
  {
    forall i | 0 <= i < |a| ensures ToLower(a[i]) == ToLower(path[..|a|][i]) {
      if i > 0 { assert path[1..|a|][i-1] == path[i] && a[1..][i-1] == a[i]; }
    }
  }

  /**
    On a method's tree all of whose routes are wildcard-free and ASCII: some route equals `path` up to case, and such
    a one is returned.
   */
  method findCaseInsensitivePath(root: Node, path: bytes, ghost G: Tags) returns (out: Fixed)
    requires ValidBut(G, null) && root in G && RootOK(G[root].tree)
    requires path != [] && path[0] == SLASH && Ascii(path)
    requires forall p :: Get(G[root].tree, p) != [] ==> Plain(p) && Ascii(p)
    ensures out.Fixed? <==> exists p :: Get(G[root].tree, p) != [] && EqualFold(p, path)
    ensures out.Fixed? ==> Get(G[root].tree, out.path) != [] && EqualFold(out.path, path)
  {
    ghost var t := G[root].tree;
    assert root.Shows(t, G);
    if !EmptyRoot(t) {
      PlainRoutesPlainTree(t, []);
      PlainNonEmpty(t, []);
    }
    out := findRec(root, path, [], [0, 0, 0, 0], G, []);
    assert forall p: bytes :: [] + p == p;
  }
}
