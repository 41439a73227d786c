/** What every step of the cancellation protocol keeps. */
module ContextSafety {
  import opened Options
  import opened ContextTree
  import opened ContextCancel

  // ---------------------------------------------------------------- the invariant

  /** The node whose mutex a frame holds. */
  function Holds(f: Frame): Option<nat> {
    match f
    case CancelFrame(c, _, _, _, _, pc) => if pc.Entry? then None else Some(c)
    case LinkFrame(_, p, Check) => Some(p)
    case LinkFrame(_, p, Canceling(held)) => if held then Some(p) else None
    case LinkFrame(_, p, Finish(held)) => if held then Some(p) else None
    case _ => None
  }

  /** The error and cause are those of the context above. */
  predicate Inherited(s: State, c: nat, err: Option<Error>, cause: Option<Error>)
    requires Ids(s) && c < |s.ctxs| && Cancelable(s.ctxs[c])
  {
    && cause.Some? && err.Some?
    && var p := Above(s.ctxs, c); p.Some? && s.nodes[p.value].err == err && s.nodes[p.value].cause == cause
  }

  /** `g` is the call child.cancel(false, err, cause) on `k`. */
  predicate Callee(g: Frame, k: nat, err: Option<Error>, cause: Option<Error>) {
    (g.CancelFrame? || g.TimerFrame?) && g.c == k && !g.remove && !g.direct && g.err == err && g.cause == cause
  }

  predicate CancelOK(s: State, t: nat, i: nat)
    requires Ids(s) && t < |s.stacks| && i < |s.stacks[t]| && s.stacks[t][i].CancelFrame?
  {
    var f := s.stacks[t][i];
    var top := i == |s.stacks[t]| - 1;
    var n := s.nodes[f.c];
    match f.cpc
    case Entry => top
    case Locked => top && f.cause.Some?
    case Stored => top && f.cause.Some? && n.err == f.err && n.cause.None? && n.direct == f.direct
    case Loop(rest) => top && f.cause.Some? && n.err == f.err && n.cause == f.cause && rest <= n.children
    case Calling(rest, k) =>
      && !top && f.cause.Some? && n.err == f.err && n.cause == f.cause && rest <= n.children && k in rest
      && Callee(s.stacks[t][i+1], k, f.err, f.cause)
  }

  predicate TimerOK(s: State, t: nat, i: nat)
    requires Ids(s) && t < |s.stacks| && i < |s.stacks[t]| && s.stacks[t][i].TimerFrame?
  {
    var f := s.stacks[t][i];
    var top := i == |s.stacks[t]| - 1;
    var n := s.nodes[f.c];
    match f.tpc
    case TEntry => top
    case TCalling =>
      !top && var g := s.stacks[t][i+1]; g.CancelFrame? && g.c == f.c && !g.remove && g.direct == f.direct
    case TRemove => top && n.err.Some?
    case TRemoving =>
      !top && f.remove && n.err.Some? && var g := s.stacks[t][i+1]; (g.RemoveFrame? || g.DeleteFrame?) && g.c == f.c
    case TStop => top && n.err.Some?
  }

  predicate LinkOK(s: State, t: nat, i: nat)
    requires Ids(s) && t < |s.stacks| && i < |s.stacks[t]| && s.stacks[t][i].LinkFrame?
  {
    var f := s.stacks[t][i];
    var top := i == |s.stacks[t]| - 1;
    var n := s.nodes[f.p];
    match f.lpc
    case Select => top && !n.done.Unmade?
    case GetErr => top && Closed(n.done)
    case GetCause(e) => top && Closed(n.done) && e.Some? && n.err == e
    case Find => top && n.done.Own?
    case Lock => top
    case Check => top
    case Canceling(_) => !top && n.err.Some? && n.cause.Some? && Callee(s.stacks[t][i+1], f.c, n.err, n.cause)
    case Finish(_) => top && (s.nodes[f.c].err.Some? || s.nodes[f.c].linked)
    case Watch => false
  }

  /** Each frame of a stack is where its caller and the nodes say; a frame that is not on top is in a call. */
  predicate FrameOK(s: State, t: nat, i: nat)
    requires Ids(s) && t < |s.stacks| && i < |s.stacks[t]|
  {
    var f := s.stacks[t][i];
    && FrameIds(s.ctxs, f)
    && (Holds(f).Some? ==> s.nodes[Holds(f).value].lock == Some(Holder(t, i)))
    && (f.CancelFrame? || f.TimerFrame? ==>
          && f.err.Some? && (f.remove ==> i == 0)
          && (!f.direct ==> Inherited(s, f.c, f.err, f.cause)))
    && (f.CancelFrame? ==> CancelOK(s, t, i))
    && (f.TimerFrame? ==> s.ctxs[f.c].Timer? && TimerOK(s, t, i))
    && (f.RemoveFrame? || f.DeleteFrame? ==>
          i == |s.stacks[t]| - 1 && s.nodes[f.c].err.Some? && (i > 0 ==> i == 1 && s.stacks[t][0].TimerFrame?))
    && (f.LinkStart? || f.ErrLoad? ==> i == 0 && |s.stacks[t]| == 1)
    && (f.LinkFrame? ==> i == 0 && LinkOK(s, t, i))
    && (f.ErrWait? ==> i == 0 && |s.stacks[t]| == 1 && s.nodes[f.c].err == Some(f.e))
  }

  /** The frame that holds the mutex of `c`. */
  predicate Owned(s: State, c: nat)
    requires c < |s.nodes|
  {
    var l := s.nodes[c].lock;
    && l.Some? && l.value.t < |s.stacks| && l.value.i < |s.stacks[l.value.t]|
    && Holds(s.stacks[l.value.t][l.value.i]) == Some(c)
  }

  function Owner(s: State, c: nat): Frame
    requires c < |s.nodes| && Owned(s, c)
  {
    s.stacks[s.nodes[c].lock.value.t][s.nodes[c].lock.value.i]
  }

  /** The cancellation of `p` that is under way still has `c` before it. */
  predicate Pending(s: State, p: nat, c: nat)
    requires p < |s.nodes|
  {
    Owned(s, p) && Owner(s, p).CancelFrame? &&
    match Owner(s, p).cpc
    case Stored => c in s.nodes[p].children
    case Loop(rest) => c in rest
    case Calling(rest, _) => c in rest
    case _ => false
  }

  predicate Reaches(s: State, c: nat)
    requires Ids(s) && c < |s.ctxs| && Cancelable(s.ctxs[c])
  {
    var n, p := s.nodes[c], Above(s.ctxs, c);
    n.linked && n.err.None? && p.Some? ==>
      if s.nodes[p.value].err.None? then c in s.nodes[p.value].children else Pending(s, p.value, c)
  }

  predicate CoreOK(s: State, c: nat)
    requires Ids(s) && c < |s.ctxs| && Cancelable(s.ctxs[c])
  {
    var n := s.nodes[c];
    && (n.lock.Some? ==> Owned(s, c))
    && (n.cause.Some? <==> Closed(n.done)) && (n.cause.Some? ==> n.err.Some?)
    && (n.err.Some? && n.cause.None? ==> Owned(s, c) && Owner(s, c).CancelFrame? && Owner(s, c).cpc.Stored?)
    && (n.err.Some? && n.children != {} ==> Owned(s, c) && Owner(s, c).CancelFrame? && !Owner(s, c).cpc.Locked?)
    && (forall k :: k in n.children ==> k < |s.ctxs| && Cancelable(s.ctxs[k]) && Above(s.ctxs, k) == Some(c))
    && (n.err.Some? && !n.direct ==>
          var p := Above(s.ctxs, c);
          && p.Some? && s.nodes[p.value].err == n.err && s.nodes[p.value].cause.Some?
          && (n.cause.Some? ==> s.nodes[p.value].cause == n.cause))
  }

  predicate NodeOK(s: State, c: nat)
    requires Ids(s) && c < |s.ctxs| && Cancelable(s.ctxs[c])
  {
    CoreOK(s, c) && Reaches(s, c)
  }

  predicate SeenOK(s: State) {
    forall x :: x in s.seen ==> x.0 < |s.nodes| && s.nodes[x.0].err == Some(x.1) && Closed(s.nodes[x.0].done)
  }

  predicate FramesOK(s: State)
    requires Ids(s)
  {
    forall t, i :: 0 <= t < |s.stacks| && 0 <= i < |s.stacks[t]| ==> FrameOK(s, t, i)
  }

  predicate NodesOK(s: State)
    requires Ids(s)
  {
    forall c :: 0 <= c < |s.ctxs| && Cancelable(s.ctxs[c]) ==> NodeOK(s, c)
  }

  predicate Inv(s: State) {
    Ids(s) && !s.panicked && FramesOK(s) && NodesOK(s) && SeenOK(s)
  }

  lemma FrameAt(s: State, t: nat, i: nat)
    requires Inv(s) && t < |s.stacks| && i < |s.stacks[t]|
    ensures FrameOK(s, t, i)
  {
  }

  lemma NodeAt(s: State, c: nat)
    requires Inv(s) && c < |s.ctxs| && Cancelable(s.ctxs[c])
    ensures CoreOK(s, c) && Reaches(s, c)
  {
    assert NodeOK(s, c);
  }

  // ---------------------------------------------------------------- what a step leaves alone

  /** What is written once stays. */
  predicate Grows(n: Node, m: Node) {
    && (n.err.Some? ==> m.err == n.err && m.direct == n.direct) && (n.cause.Some? ==> m.cause == n.cause)
    && (Closed(n.done) ==> Closed(m.done)) && (!n.done.Unmade? ==> !m.done.Unmade?) && (n.done.Own? ==> m.done.Own?)
    && (n.linked ==> m.linked)
  }

  /** The same call, perhaps further on. */
  predicate SameCall(f: Frame, g: Frame) {
    match f
    case CancelFrame(c, r, e, u, d, _) =>
      g.CancelFrame? && g == f.(cpc := g.cpc, cause := if u.None? then g.cause else u)
    case TimerFrame(c, r, e, u, d, _) => g.TimerFrame? && g == f.(tpc := g.tpc)
    case LinkFrame(c, p, _) => g.LinkFrame? && g == f.(lpc := g.lpc)
    case RemoveFrame(c) => g == f || (g.DeleteFrame? && g.c == c)
    case _ => g == f
  }

  /**
    From `s` to `u` only the top frame of `t`, its caller and what it calls moved; a node whose mutex another frame
    holds is as it was.
   */
  predicate Moves(s: State, u: State, t: nat)
    requires Ids(s) && Ids(u)
  {
    && t < |s.stacks| == |u.stacks| && s.stacks[t] != [] && u.ctxs == s.ctxs
    && var top := |s.stacks[t]| - 1;
    && (forall c :: 0 <= c < |s.nodes| ==> Grows(s.nodes[c], u.nodes[c]))
    && (forall c :: 0 <= c < |s.nodes| ==>
          s.nodes[c].lock in [None, Some(Holder(t, top))] || u.nodes[c] == s.nodes[c].(linked := u.nodes[c].linked))
    && (forall r :: 0 <= r < |s.stacks| && r != t ==> u.stacks[r] == s.stacks[r])
    && |u.stacks[t]| >= top
    && (forall i :: 0 <= i < top - 1 ==> u.stacks[t][i] == s.stacks[t][i])
    && (top > 0 ==> SameCall(s.stacks[t][top-1], u.stacks[t][top-1]))
  }

  /** A frame away from the moving one, and the nodes it relies on. */
  predicate Aside(s: State, u: State, r: nat, i: nat)
    requires Ids(s) && Ids(u)
  {
    && u.ctxs == s.ctxs
    && r < |s.stacks| == |u.stacks| && i < |s.stacks[r]| && i < |u.stacks[r]| && u.stacks[r][i] == s.stacks[r][i]
    && (i == |s.stacks[r]| - 1 <==> i == |u.stacks[r]| - 1)
    && (i < |s.stacks[r]| - 1 ==> SameCall(s.stacks[r][i+1], u.stacks[r][i+1]))
    && (forall c :: 0 <= c < |s.nodes| ==> Grows(s.nodes[c], u.nodes[c]))
    && (forall c ::
          0 <= c < |s.nodes| && s.nodes[c].lock == Some(Holder(r, i)) ==>
            u.nodes[c] == s.nodes[c].(linked := u.nodes[c].linked))
  }

  lemma MovesAside(s: State, u: State, t: nat, r: nat, i: nat)
    requires Ids(s) && Ids(u) && Moves(s, u, t)
    requires r < |s.stacks| && i < |s.stacks[r]| && (r == t ==> i + 2 < |s.stacks[t]|)
    ensures Aside(s, u, r, i)
  {
    hide Ids, Grows;
  }

  lemma CancelStays(s: State, u: State, r: nat, i: nat)
    requires Ids(s) && Ids(u) && Aside(s, u, r, i) && s.stacks[r][i].CancelFrame? && CancelOK(s, r, i)
    requires Holds(s.stacks[r][i]).Some? ==> s.nodes[Holds(s.stacks[r][i]).value].lock == Some(Holder(r, i))
    ensures CancelOK(u, r, i)
  {
    hide Grows, Above;
    assert u.stacks[r][i].c < |s.nodes|;
  }

  lemma TimerStays(s: State, u: State, r: nat, i: nat)
    requires Ids(s) && Ids(u) && Aside(s, u, r, i) && s.stacks[r][i].TimerFrame? && TimerOK(s, r, i)
    ensures TimerOK(u, r, i)
  {
    assert Grows(s.nodes[u.stacks[r][i].c], u.nodes[u.stacks[r][i].c]);
  }

  lemma LinkStays(s: State, u: State, r: nat, i: nat)
    requires Ids(s) && Ids(u) && Aside(s, u, r, i) && s.stacks[r][i].LinkFrame? && LinkOK(s, r, i)
    ensures LinkOK(u, r, i)
  {
    assert Grows(s.nodes[u.stacks[r][i].c], u.nodes[u.stacks[r][i].c]);
    assert Grows(s.nodes[u.stacks[r][i].p], u.nodes[u.stacks[r][i].p]);
  }

  lemma AsideStays(s: State, u: State, r: nat, i: nat)
    requires Ids(s) && Ids(u) && Aside(s, u, r, i) && FrameOK(s, r, i)
    requires s.stacks[r][i].RemoveFrame? || s.stacks[r][i].DeleteFrame? ==>
      i > 0 ==> SameCall(s.stacks[r][0], u.stacks[r][0])
    ensures FrameOK(u, r, i)
  {
    hide CancelOK, TimerOK, LinkOK;
    var f := s.stacks[r][i];
    if f.CancelFrame? { CancelStays(s, u, r, i); }
    if f.TimerFrame? { TimerStays(s, u, r, i); }
    if f.LinkFrame? { LinkStays(s, u, r, i); }
    assert Grows(s.nodes[f.c], u.nodes[f.c]);
    if (f.CancelFrame? || f.TimerFrame?) && !f.direct {
      var p := Above(s.ctxs, f.c).value;
      assert Grows(s.nodes[p], u.nodes[p]);
    }
  }

  /** Every frame away from the moving one stays as it should be. */
  lemma OthersStay(s: State, u: State, t: nat, r: nat, i: nat)
    requires Inv(s) && Ids(u) && Moves(s, u, t)
    requires r < |s.stacks| && i < |s.stacks[r]| && (r == t ==> i + 2 < |s.stacks[t]|)
    ensures i < |u.stacks[r]| && FrameOK(u, r, i)
  {
    hide FrameOK, Moves, NodesOK, SeenOK, Grows;
    MovesAside(s, u, t, r, i);
    assert FrameOK(s, r, i);
    if i > 0 && (s.stacks[r][i].RemoveFrame? || s.stacks[r][i].DeleteFrame?) {
      assert SameCall(s.stacks[r][0], u.stacks[r][0]) by { RemoveOnTop(s, r, i); MovesFirst(s, u, t, r); }
    }
    AsideStays(s, u, r, i);
  }

  lemma RemoveOnTop(s: State, r: nat, i: nat)
    requires Ids(s) && r < |s.stacks| && i < |s.stacks[r]| && FrameOK(s, r, i)
    requires s.stacks[r][i].RemoveFrame? || s.stacks[r][i].DeleteFrame?
    ensures i == |s.stacks[r]| - 1
  {
  }

  lemma MovesFirst(s: State, u: State, t: nat, r: nat)
    requires Ids(s) && Ids(u) && Moves(s, u, t) && r < |s.stacks| && |s.stacks[r]| >= 2
    ensures u.stacks[r] != [] && SameCall(s.stacks[r][0], u.stacks[r][0])
  {
  }

  // ---------------------------------------------------------------- putting a step together

  /** A step of `t` that changes no node but `x`, and no frame but the top one, its caller and its callee. */
  predicate Steps(s: State, u: State, t: nat, x: nat)
    requires Ids(s) && Ids(u)
  {
    && Moves(s, u, t)
    && var top := |s.stacks[t]| - 1;
    && Holds(s.stacks[t][top]) in [None, Some(x)]
    && (forall c :: 0 <= c < |s.nodes| && c != x ==> u.nodes[c] == s.nodes[c].(linked := u.nodes[c].linked))
    && (top > 0 ==>
          u.stacks[t][top-1] == (if |u.stacks[t]| == top then Resume(s.stacks[t][top-1]) else s.stacks[t][top-1]))
    && (|u.stacks[t]| == top > 0 ==> u.nodes[s.stacks[t][top].c].err.Some?)
  }

  lemma CallerStays(s: State, u: State, t: nat)
    requires Inv(s) && Ids(u) && Moves(s, u, t) && |s.stacks[t]| >= 2 && |u.stacks[t]| >= |s.stacks[t]|
    requires var top := |s.stacks[t]| - 1;
      u.stacks[t][top-1] == s.stacks[t][top-1] && SameCall(s.stacks[t][top], u.stacks[t][top])
    ensures FrameOK(u, t, |s.stacks[t]| - 2)
  {
    hide FrameOK, NodesOK, SeenOK, Grows;
    assert FrameOK(s, t, |s.stacks[t]| - 2);
    RemoveIsTop(s, t, |s.stacks[t]| - 2);
    AsideStays(s, u, t, |s.stacks[t]| - 2);
  }

  lemma RemoveIsTop(s: State, t: nat, i: nat)
    requires Ids(s) && t < |s.stacks| && i < |s.stacks[t]| - 1 && FrameOK(s, t, i)
    ensures !s.stacks[t][i].RemoveFrame? && !s.stacks[t][i].DeleteFrame?
  {
  }

  /** What the caller relies on when its call, which canceled `k`, returns. */
  predicate Returns(s: State, u: State, t: nat, f: Frame, k: nat)
    requires Ids(s) && Ids(u)
  {
    && Moves(s, u, t) && |s.stacks[t]| >= 2 && f == s.stacks[t][|s.stacks[t]|-2] && k == s.stacks[t][|s.stacks[t]|-1].c
    && |u.stacks[t]| == |s.stacks[t]| - 1 && u.stacks[t][|u.stacks[t]|-1] == Resume(f)
    && k < |u.nodes| && u.nodes[k].err.Some?
  }

  lemma CancelResumes(s: State, u: State, t: nat, f: Frame, k: nat)
    requires Ids(s) && Ids(u) && Returns(s, u, t, f, k) && f.CancelFrame? && FrameOK(s, t, |s.stacks[t]| - 2)
    ensures CancelOK(u, t, |s.stacks[t]| - 2)
  {
    hide Grows, Above;
    var i := |s.stacks[t]| - 2;
    assert FrameIds(s.ctxs, f);
    assert s.nodes[f.c].lock == Some(Holder(t, i));
    assert u.nodes[f.c] == s.nodes[f.c].(linked := u.nodes[f.c].linked);
  }

  lemma TimerResumes(s: State, u: State, t: nat, f: Frame, k: nat)
    requires Ids(s) && Ids(u) && Returns(s, u, t, f, k) && f.TimerFrame? && FrameOK(s, t, |s.stacks[t]| - 2)
    ensures TimerOK(u, t, |s.stacks[t]| - 2)
  {
    hide Above, FrameIds;
    assert Grows(s.nodes[f.c], u.nodes[f.c]);
  }

  lemma LinkResumes(s: State, u: State, t: nat, f: Frame, k: nat)
    requires Ids(s) && Ids(u) && Returns(s, u, t, f, k) && f.LinkFrame? && FrameOK(s, t, |s.stacks[t]| - 2)
    ensures LinkOK(u, t, |s.stacks[t]| - 2)
  {
    hide Above, FrameIds;
  }

  /** What a frame inherits and holds is not taken from it. */
  lemma KeepsHold(s: State, u: State, t: nat, i: nat)
    requires Ids(s) && Ids(u) && Moves(s, u, t) && i + 1 < |s.stacks[t]| && FrameOK(s, t, i)
    ensures var f := s.stacks[t][i];
      && (Holds(f).Some? ==> u.nodes[Holds(f).value].lock == Some(Holder(t, i)))
      && ((f.CancelFrame? || f.TimerFrame?) && !f.direct ==> Inherited(u, f.c, f.err, f.cause))
  {
    hide CancelOK, TimerOK, LinkOK;
    var f := s.stacks[t][i];
    assert Grows(s.nodes[f.c], u.nodes[f.c]);
    if Holds(f).Some? { assert Grows(s.nodes[Holds(f).value], u.nodes[Holds(f).value]); }
    if (f.CancelFrame? || f.TimerFrame?) && !f.direct {
      var p := Above(s.ctxs, f.c).value;
      assert Grows(s.nodes[p], u.nodes[p]);
    }
  }

  lemma CallerResumes(s: State, u: State, t: nat, f: Frame, k: nat)
    requires Inv(s) && Ids(u) && Returns(s, u, t, f, k)
    ensures FrameOK(u, t, |s.stacks[t]| - 2)
  {
    hide NodesOK, FramesOK, SeenOK, CancelOK, TimerOK, LinkOK, Grows, Inherited;
    var top := |s.stacks[t]| - 1;
    FrameAt(s, t, top - 1);
    assert FrameIds(u.ctxs, u.stacks[t][top-1]);
    KeepsHold(s, u, t, top - 1);
    if f.CancelFrame? { CancelResumes(s, u, t, f, k); }
    if f.TimerFrame? { TimerResumes(s, u, t, f, k); }
    if f.LinkFrame? { LinkResumes(s, u, t, f, k); }
  }

  /** The owner of a mutex away from `x`. */
  lemma OwnerStays(s: State, u: State, t: nat, x: nat, c: nat)
    requires Inv(s) && Ids(u) && Steps(s, u, t, x) && c < |s.nodes| && c != x && Owned(s, c)
    ensures Owned(u, c) && (Owner(u, c) == Owner(s, c) || (Owner(u, c) == Resume(Owner(s, c)) && Resumed(s, u, c)))
  {
    hide FrameOK, NodesOK, SeenOK, Grows, FrameIds;
    var h := s.nodes[c].lock.value;
    var top := |s.stacks[t]| - 1;
    assert u.nodes[c].lock == Some(h);
    if top > 0 && h == Holder(t, top - 1) && |u.stacks[t]| == top {
      assert FrameOK(s, t, top - 1);
      CalleeIsNext(s, t, top - 1);
    }
  }

  lemma CalleeIsNext(s: State, t: nat, i: nat)
    requires Ids(s) && t < |s.stacks| && i < |s.stacks[t]| && FrameOK(s, t, i)
    ensures var f := s.stacks[t][i];
      f.CancelFrame? && f.cpc.Calling? ==> i + 1 < |s.stacks[t]| && s.stacks[t][i+1].c == f.cpc.k && f.cpc.k < |s.nodes|
  {
    var f := s.stacks[t][i];
    if f.CancelFrame? && f.cpc.Calling? {
      assert FrameIds(s.ctxs, s.stacks[t][i+1]);
    }
  }

  /** The call that the owner of `c` was in returned, having canceled its child. */
  predicate Resumed(s: State, u: State, c: nat)
    requires c < |s.nodes| && Owned(s, c)
  {
    var f := Owner(s, c);
    f.CancelFrame? && f.cpc.Calling? ==> f.cpc.k < |u.nodes| && u.nodes[f.cpc.k].err.Some?
  }

  lemma CoreStays(s: State, u: State, t: nat, x: nat, c: nat)
    requires Inv(s) && Ids(u) && Steps(s, u, t, x) && c < |s.nodes| && c != x && Cancelable(s.ctxs[c])
    ensures CoreOK(u, c)
  {
    hide FrameOK, SeenOK, FrameIds, Resumed;
    assert NodeOK(s, c);
    if s.nodes[c].lock.Some? { OwnerStays(s, u, t, x, c); }
    if s.nodes[c].err.Some? && !s.nodes[c].direct {
      var p := Above(s.ctxs, c).value;
      assert Grows(s.nodes[p], u.nodes[p]);
    }
  }

  lemma ReachesStays(s: State, u: State, t: nat, x: nat, c: nat)
    requires Inv(s) && Ids(u) && Steps(s, u, t, x) && c < |s.nodes| && Cancelable(s.ctxs[c])
    requires u.nodes[c].linked == s.nodes[c].linked && Above(s.ctxs, c) != Some(x)
    ensures Reaches(u, c)
  {
    hide FrameOK, SeenOK, FrameIds, CoreOK;
    assert NodeOK(s, c);
    var p := Above(s.ctxs, c);
    if p.Some? && Pending(s, p.value, c) { OwnerStays(s, u, t, x, p.value); }
  }

  /** No child of `x` is forgotten. */
  predicate BelowOK(s: State, u: State, x: nat)
    requires Ids(s) && Ids(u) && u.ctxs == s.ctxs
  {
    forall c :: 0 <= c < |s.nodes| && Cancelable(s.ctxs[c]) && Above(s.ctxs, c) == Some(x) ==> Reaches(u, c)
  }

  /** The invariant after a step, from its truth about what the step touched: the node `x` and the top frames. */
  lemma Assemble(s: State, u: State, t: nat, x: nat, y: nat)
    requires Inv(s) && Ids(u) && Steps(s, u, t, x) && !u.panicked && SeenOK(u)
    requires var top := |s.stacks[t]| - 1;
      && |u.stacks[t]| <= top + 2 && (top > 0 ==> FrameOK(u, t, top - 1))
      && (|u.stacks[t]| > top ==> FrameOK(u, t, top)) && (|u.stacks[t]| > top + 1 ==> FrameOK(u, t, top + 1))
    requires (x < |s.nodes| ==> Cancelable(s.ctxs[x]) && CoreOK(u, x)) && BelowOK(s, u, x)
    requires forall c :: 0 <= c < |s.nodes| && c != y ==> u.nodes[c].linked == s.nodes[c].linked
    requires y < |s.nodes| && Cancelable(s.ctxs[y]) && u.nodes[y].linked != s.nodes[y].linked ==> Reaches(u, y)
    ensures Inv(u)
  {
    hide FrameOK, SeenOK, FrameIds, Grows, CoreOK, Reaches;
    forall r, i | 0 <= r < |u.stacks| && 0 <= i < |u.stacks[r]| ensures FrameOK(u, r, i) {
      if r != t || i + 2 < |s.stacks[t]| { OthersStay(s, u, t, r, i); }
    }
    forall c | 0 <= c < |u.ctxs| && Cancelable(u.ctxs[c]) ensures NodeOK(u, c) {
      if c != x { CoreStays(s, u, t, x, c); }
      if u.nodes[c].linked == s.nodes[c].linked && Above(s.ctxs, c) != Some(x) { ReachesStays(s, u, t, x, c); }
    }
  }

  lemma SeenStays(s: State, u: State)
    requires SeenOK(s) && u.seen == s.seen && |u.nodes| == |s.nodes|
    requires forall c :: 0 <= c < |s.nodes| ==> Grows(s.nodes[c], u.nodes[c])
    ensures SeenOK(u)
  {
    forall x | x in u.seen ensures x.0 < |u.nodes| && u.nodes[x.0].err == Some(x.1) && Closed(u.nodes[x.0].done) {
      assert Grows(s.nodes[x.0], u.nodes[x.0]);
    }
  }
}
