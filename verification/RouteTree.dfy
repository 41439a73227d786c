/**
  The value of Gin's routing tree (tree.go) and what its operations do to that value.
  `Router.Node` is the mutable node; it carries one of these values as its model.
 */
module RouteTree {
  import opened Bytes

  datatype NodeType = Static | Root | Param | CatchAll

  /** A handler chain; nil is the empty chain, which the engine refuses to register. */
  type Handlers = seq<nat>

  datatype Tree = Tree(
    path: bytes, indices: bytes, wildChild: bool, nType: NodeType, priority: nat,
    children: seq<Tree>, handlers: Handlers, fullPath: bytes)

  /** What an insertion leaves behind, and whether it returned instead of panicking. */
  datatype Outcome = Outcome(ok: bool, tree: Tree)

  // ---------------------------------------------------------------- scanning paths

  function Lcp(a: bytes, b: bytes): (n: nat)
    ensures n <= |a| && n <= |b| && a[..n] == b[..n]
    ensures n < |a| && n < |b| ==> a[n] != b[n]
  {
    if a == [] || b == [] || a[0] != b[0] then 0
    else
      assert forall k :: 0 < k <= |a| ==> a[..k] == [a[0]] + a[1..][..k-1];
      assert forall k :: 0 < k <= |b| ==> b[..k] == [b[0]] + b[1..][..k-1];
      1 + Lcp(a[1..], b[1..])
  }

  /** Length of the path segment at the front of `s`. */
  function SegEnd(s: bytes): (n: nat)
    ensures n <= |s| && (n < |s| ==> s[n] == SLASH)
    ensures forall i :: 0 <= i < n ==> s[i] != SLASH
  {
    if s == [] || s[0] == SLASH then 0 else 1 + SegEnd(s[1..])
  }

  predicate Mark(c: byte) { c == COLON || c == STAR }

  predicate Plain(s: bytes) { forall i :: 0 <= i < |s| ==> !Mark(s[i]) }

  /** A wildcard's name. */
  predicate Name(s: bytes) { |s| >= 1 && Plain(s) && SLASH !in s }

  function FirstMark(s: bytes): (n: nat)
    ensures n <= |s| && Plain(s[..n]) && (n < |s| ==> Mark(s[n]))
  {
    if s == [] || Mark(s[0]) then 0
    else
      assert forall k :: 0 < k <= |s| ==> s[..k] == [s[0]] + s[1..][..k-1];
      1 + FirstMark(s[1..])
  }

  datatype Wildcard = NoWildcard | Wildcard(name: bytes, at: nat, valid: bool)

  /** findWildcard on a path without backslash escapes. */
  function FindWildcard(path: bytes): (w: Wildcard)
    ensures w.NoWildcard? <==> Plain(path)
    ensures w.Wildcard? ==>
      && w.at + |w.name| <= |path| && |w.name| >= 1
      && w.name == path[w.at..w.at + |w.name|] && Mark(w.name[0]) && Plain(path[..w.at])
      && SLASH !in w.name
      && (w.at + |w.name| < |path| ==> path[w.at + |w.name|] == SLASH)
      && (w.valid <==> Plain(w.name[1..]))
  {
    var i := FirstMark(path);
    if i == |path| then assert path[..i] == path; NoWildcard
    else
      assert Mark(path[i]);
      var end := i + 1 + SegEnd(path[i+1..]);
      Wildcard(path[i..end], i, Plain(path[i+1..end]))
  }

  // ---------------------------------------------------------------- shape of a tree

  /** The byte every route below `t` starts with. */
  function Head(t: Tree): byte { if t.path != [] then t.path[0] else SLASH }

  predicate Distinct(s: bytes) { forall i, j :: 0 <= i < j < |s| ==> s[i] != s[j] }

  predicate IsMid(t: Tree) { t.nType == CatchAll && t.wildChild }

  predicate IsLeaf(t: Tree) { t.nType == CatchAll && !t.wildChild }

  predicate StaticShape(t: Tree) {
    && Plain(t.path)
    && |t.children| == |t.indices| + (if t.wildChild then 1 else 0)
    && Plain(t.indices)
    && Distinct(t.indices)
    && (forall i :: 0 <= i < |t.indices| ==>
          Head(t.children[i]) == t.indices[i] && (t.children[i].nType == Static || IsMid(t.children[i])))
    && (forall i, j :: 0 <= i < j < |t.indices| ==> t.children[i].priority >= t.children[j].priority)
    && (t.wildChild ==> t.children[|t.indices|].nType == Param && Head(t.children[|t.indices|]) == COLON)
    && (t.path == [] ==> t.handlers == [] && t.indices == [SLASH] && !t.wildChild && IsMid(t.children[0]))
  }

  predicate ParamShape(t: Tree) {
    && |t.path| >= 2 && t.path[0] == COLON && Name(t.path[1..])
    && !t.wildChild
    && |t.children| <= 1
    && (|t.children| == 1 ==> t.children[0].nType == Static && Head(t.children[0]) == SLASH)
    && (t.indices == [] || (t.indices == [SLASH] && |t.children| == 1))
  }

  predicate CatchAllShape(t: Tree) {
    && t.indices == []
    && if t.wildChild then t.path == [] && t.handlers == [] && |t.children| == 1 && IsLeaf(t.children[0])
       else
         && |t.path| >= 3 && t.path[0] == SLASH && t.path[1] == STAR && Name(t.path[2..])
         && t.children == [] && t.handlers != []
  }

  /**
    Lockstep of `indices` and the non-wildcard children, children in descending priority, wildcard
    child last, a param node with at most one child, a catch-all behind an empty-path node.
   */
  predicate Shape(t: Tree) {
    match t.nType
    case Static => StaticShape(t)
    case Root => StaticShape(t)
    case Param => ParamShape(t)
    case CatchAll => CatchAllShape(t)
  }

  function Own(t: Tree): nat { if t.handlers == [] then 0 else 1 }

  /** The number of routes registered in a subtree. */
  function Count(t: Tree): nat
    decreases t, 0
  {
    Own(t) + CountAll(t.children)
  }

  function CountAll(cs: seq<Tree>): nat
    decreases cs, 1
  {
    if cs == [] then 0 else CountAll(cs[..|cs|-1]) + Count(cs[|cs|-1])
  }

  /** `Formed` leaves the priority of `t` itself open; `pre` is the path above `t`. */
  ghost predicate Formed(t: Tree, pre: bytes)
    decreases t, 0
  {
    && Shape(t)
    && (t.handlers != [] ==> t.fullPath == pre + t.path)
    && forall i :: 0 <= i < |t.children| ==> WF(t.children[i], pre + t.path)
  }

  ghost predicate WF(t: Tree, pre: bytes)
    decreases t, 1
  {
    Formed(t, pre) && t.priority == Count(t) && Count(t) >= 1
  }

  // ---------------------------------------------------------------- the map a tree stands for

  ghost function ChildFor(cs: seq<Tree>, c: byte): (k: int)
    ensures -1 <= k < |cs|
    ensures k >= 0 ==> Head(cs[k]) == c
    ensures k < 0 ==> forall i :: 0 <= i < |cs| ==> Head(cs[i]) != c
  {
    if exists k :: 0 <= k < |cs| && Head(cs[k]) == c then
      var k :| 0 <= k < |cs| && Head(cs[k]) == c; k
    else -1
  }

  /** The chain registered in `t` for the route `p` (relative to `t`), nil if there is none. */
  ghost function Get(t: Tree, p: bytes): Handlers
    decreases t
  {
    if !(t.path <= p) then []
    else
      var q := p[|t.path|..];
      if q == [] then t.handlers
      else
        var k := ChildFor(t.children, q[0]);
        if k < 0 then [] else Get(t.children[k], q)
  }

  // ---------------------------------------------------------------- insertion

  function Bump(t: Tree): Tree { t.(priority := t.priority + 1) }

  function Fresh(full: bytes): Tree { Tree([], [], false, Static, 1, [], [], full) }

  function AddChild(t: Tree, c: Tree): Tree {
    if t.wildChild && |t.children| > 0
    then t.(children := t.children[..|t.children|-1] + [c, t.children[|t.children|-1]])
    else t.(children := t.children + [c])
  }

  function Moved<T>(s: seq<T>, pos: nat, to: nat): (r: seq<T>)
    requires to <= pos < |s|
    ensures |r| == |s|
  {
    s[..to] + [s[pos]] + s[to..pos] + s[pos+1..]
  }

  /** Where a child of priority `prio` that stands at `pos` comes to rest. */
  function RestPos(cs: seq<Tree>, pos: nat, prio: nat): (r: nat)
    requires pos <= |cs|
    ensures r <= pos
    ensures forall i :: r <= i < pos ==> cs[i].priority < prio
    ensures r > 0 ==> cs[r-1].priority >= prio
  {
    if pos > 0 && cs[pos-1].priority < prio then RestPos(cs, pos - 1, prio) else pos
  }

  /** The new position and value after incrementChildPrio(pos). */
  function IncPrio(t: Tree, pos: nat): (r: (Tree, nat))
    requires pos < |t.children| && pos < |t.indices|
    ensures r.1 <= pos && |r.0.children| == |t.children| && |r.0.indices| == |t.indices|
    ensures r.0.children[r.1] == Bump(t.children[pos])
    ensures r.0 == t.(children := r.0.children, indices := r.0.indices)
  {
    var cs := t.children[pos := Bump(t.children[pos])];
    var to := RestPos(cs, pos, cs[pos].priority);
    (t.(children := Moved(cs, pos, to), indices := Moved(t.indices, pos, to)), to)
  }

  function ParamNode(name: bytes, full: bytes): Tree { Tree(name, [], false, Param, 1, [], [], full) }

  function CatchAllNode(path: bytes, full: bytes, h: Handlers): Tree {
    Tree([], [], true, CatchAll, 1, [Tree(path, [], false, CatchAll, 1, [], h, full)], [], full)
  }

  function InsertChild(t: Tree, path: bytes, full: bytes, h: Handlers): Outcome
    decreases |path|, 1
  {
    match FindWildcard(path)
    case NoWildcard => Outcome(true, t.(path := path, handlers := h, fullPath := full))
    case Wildcard(w, i, valid) =>
      if !valid || |w| < 2 then Outcome(false, t)
      else if w[0] == COLON then
        var u := if i > 0 then t.(path := path[..i]) else t;
        var sub := ParamChild(w, path[i..], full, h);
        Outcome(sub.ok, AddChild(u, sub.tree).(wildChild := true))
      else if i + |w| != |path| then Outcome(false, t)
      else if t.path != [] && t.path[|t.path|-1] == SLASH then Outcome(false, t)
      else if i == 0 || path[i-1] != SLASH then Outcome(false, t)
      else
        var u := AddChild(t.(path := path[..i-1]), CatchAllNode(path[i-1..], full, h));
        Outcome(true, u.(indices := [SLASH]))
  }

  /** The param node for wildcard `w` at the front of `path`, with all that follows it. */
  function ParamChild(w: bytes, path: bytes, full: bytes, h: Handlers): Outcome
    requires 0 < |w| <= |path|
    decreases |path|, 0
  {
    if |w| < |path| then
      var sub := InsertChild(Fresh(full), path[|w|..], full, h);
      Outcome(sub.ok, ParamNode(w, full).(children := [sub.tree]))
    else Outcome(true, ParamNode(w, full).(handlers := h))
  }

  function Split(t: Tree, i: nat, full: bytes): Tree
    requires i < |t.path|
  {
    var child := t.(path := t.path[i..], nType := Static, priority := if t.priority > 0 then t.priority - 1 else 0);
    Tree(t.path[..i], [t.path[i]], false, t.nType, t.priority, [child], [], full)
  }

  function IndexOf(s: bytes, c: byte): (k: nat)
    requires c in s
    ensures k < |s| && s[k] == c && c !in s[..k]
  {
    if s[0] == c then 0
    else
      var k := 1 + IndexOf(s[1..], c);
      assert s[..k] == [s[0]] + s[1..][..k-1];
      k
  }

  /** When the walk may continue into the existing wildcard node `w` with `path` left. */
  predicate WildcardMatches(w: Tree, path: bytes) {
    w.path <= path && w.nType != CatchAll && (|w.path| >= |path| || path[|w.path|] == SLASH)
  }

  function NodeSize(t: Tree): (n: nat)
    ensures n >= 1
    ensures forall i :: 0 <= i < |t.children| ==> NodeSize(t.children[i]) < n
    decreases t, 0
  {
    1 + ForestSize(t.children)
  }

  function ForestSize(cs: seq<Tree>): (n: nat)
    ensures forall i :: 0 <= i < |cs| ==> NodeSize(cs[i]) <= n
    decreases cs, 1
  {
    if cs == [] then 0 else ForestSize(cs[..|cs|-1]) + NodeSize(cs[|cs|-1])
  }

  /** The loop of addRoute from a node whose priority is already raised; `off` is parentFullPathIndex. */
  function Walk(t: Tree, path: bytes, full: bytes, off: nat, h: Handlers): Outcome
    requires off + |path| <= |full|
    decreases NodeSize(t), 1
  {
    var i := Lcp(path, t.path);
    if i < |t.path| then WalkAfterSplit(Split(t, i, full[..off + i]), path[i..], full, h)
    else WalkBelow(t, path[i..], full, off, h)
  }

  /** The walk just after the edge into `n` was split: `n` has one child, which `rest` does not enter. */
  function WalkAfterSplit(n: Tree, rest: bytes, full: bytes, h: Handlers): Outcome {
    if rest == [] then SetHandlers(n, full, h)
    else if !Mark(rest[0]) && n.nType != CatchAll then NewChild(n, rest, full, h)
    else InsertChild(n, rest, full, h)
  }

  /** The walk at a node whose own path is consumed. */
  function WalkBelow(n: Tree, rest: bytes, full: bytes, off: nat, h: Handlers): Outcome
    requires off + |rest| <= |full| && off + |n.path| + |rest| <= |full|
    decreases NodeSize(n), 0
  {
    if rest == [] then SetHandlers(n, full, h)
    else if n.nType == Param && rest[0] == SLASH && |n.children| == 1 then
      var sub := Walk(Bump(n.children[0]), rest, full, off + |n.path|, h);
      Outcome(sub.ok, n.(children := [sub.tree]))
    else if rest[0] in n.indices && |n.indices| <= |n.children| then
      var (m, k) := IncPrio(n, IndexOf(n.indices, rest[0]));
      assert NodeSize(m.children[k]) < NodeSize(n);
      var sub := Walk(m.children[k], rest, full, off + |n.path|, h);
      Outcome(sub.ok, m.(children := m.children[k := sub.tree]))
    else if !Mark(rest[0]) && n.nType != CatchAll then NewChild(n, rest, full, h)
    else if n.wildChild && |n.children| > 0 then
      var last := |n.children| - 1;
      var child := Bump(n.children[last]);
      if WildcardMatches(child, rest) then
        var sub := Walk(child, rest, full, off, h);
        Outcome(sub.ok, n.(children := n.children[last := sub.tree]))
      else Outcome(false, n.(children := n.children[last := child]))
    else InsertChild(n, rest, full, h)
  }

  function SetHandlers(n: Tree, full: bytes, h: Handlers): Outcome {
    if n.handlers != [] then Outcome(false, n) else Outcome(true, n.(handlers := h, fullPath := full))
  }

  /** A new child for the first byte of `rest`, filled by insertChild. */
  function NewChild(n: Tree, rest: bytes, full: bytes, h: Handlers): Outcome
    requires rest != []
  {
    var m := AddChild(n.(indices := n.indices + [rest[0]]), Fresh(full).(priority := 0));
    if |n.indices| >= |m.children| then Outcome(false, m)
    else
      var (m', k) := IncPrio(m, |n.indices|);
      var sub := InsertChild(m'.children[k], rest, full, h);
      Outcome(sub.ok, m'.(children := m'.children[k := sub.tree]))
  }
}
