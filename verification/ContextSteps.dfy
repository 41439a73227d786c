/** Every step of every call keeps the invariant of the cancellation protocol. */
module ContextSteps {
  import opened Options
  import opened ContextTree
  import opened ContextCancel
  import opened ContextSafety

  /** `f` is the frame of `t` that runs. */
  predicate Top(s: State, t: nat, f: Frame) {
    t < |s.stacks| && s.stacks[t] != [] && f == s.stacks[t][|s.stacks[t]|-1]
  }

  /** A node may become `m` at the hands of `t`. */
  predicate May(s: State, t: nat, x: nat, m: Node) {
    && t < |s.stacks| && s.stacks[t] != [] && x < |s.nodes|
    && Grows(s.nodes[x], m) && (m == s.nodes[x] || s.nodes[x].lock in [None, Some(Holder(t, |s.stacks[t]| - 1))])
    && Holds(s.stacks[t][|s.stacks[t]|-1]) in [None, Some(x)]
  }

  /** The running frame moves on. */
  lemma TopMoves(s: State, t: nat, f: Frame, g: Frame, x: nat, m: Node)
    requires Inv(s) && Top(s, t, f) && May(s, t, x, m) && FrameIds(s.ctxs, g) && (SameCall(f, g) || |s.stacks[t]| == 1)
    ensures var u := SetTop(SetNode(s, x, m), t, g);
      && Ids(u) && Steps(s, u, t, x) && SeenOK(u) && u.nodes[x] == m
      && (|s.stacks[t]| >= 2 ==> FrameOK(u, t, |s.stacks[t]| - 2))
  {
    hide FrameOK, FramesOK, NodesOK, SeenOK, FrameIds, Holds;
    var u := SetTop(SetNode(s, x, m), t, g);
    assert Steps(s, u, t, x);
    SeenStays(s, u);
    if |s.stacks[t]| >= 2 { CallerStays(s, u, t); }
  }

  /** The running frame moves on into a call. */
  lemma TopCalls(s: State, t: nat, f: Frame, g: Frame, h: Frame, x: nat)
    requires Inv(s) && Top(s, t, f) && x < |s.nodes| && May(s, t, x, s.nodes[x]) && FrameIds(s.ctxs, g)
    requires FrameIds(s.ctxs, h) && SameCall(f, g)
    ensures var u := Call(s, t, g, h);
      && Ids(u) && Steps(s, u, t, x) && SeenOK(u)
      && (|s.stacks[t]| >= 2 ==> FrameOK(u, t, |s.stacks[t]| - 2))
  {
    hide FrameOK, FramesOK, NodesOK, SeenOK, FrameIds, Holds;
    var u := Call(s, t, g, h);
    assert Steps(s, u, t, x);
    SeenStays(s, u);
    if |s.stacks[t]| >= 2 { CallerStays(s, u, t); }
  }

  lemma ReturnIds(s: State, t: nat, f: Frame, x: nat, m: Node)
    requires Ids(s) && Top(s, t, f) && x < |s.nodes|
    ensures f.c < |s.nodes| && Ids(Return(SetNode(s, x, m), t))
  {
    hide Resume;
    assert FrameIds(s.ctxs, f);
    if |s.stacks[t]| >= 2 { ResumeIds(s.ctxs, s.stacks[t][|s.stacks[t]|-2]); }
  }

  /** The running frame returns. */
  lemma TopReturns(s: State, t: nat, f: Frame, x: nat, m: Node)
    requires Inv(s) && Top(s, t, f) && May(s, t, x, m) && f.c < |s.nodes|
    requires |s.stacks[t]| >= 2 ==> (if f.c == x then m else s.nodes[f.c]).err.Some?
    ensures var u := Return(SetNode(s, x, m), t);
      && Ids(u) && Steps(s, u, t, x) && SeenOK(u) && u.nodes[x] == m
      && (|s.stacks[t]| >= 2 ==> FrameOK(u, t, |s.stacks[t]| - 2))
  {
    hide FrameOK, FramesOK, NodesOK, SeenOK, Holds, Resume, FrameIds, SameCall, Grows;
    var u := Return(SetNode(s, x, m), t);
    ReturnIds(s, t, f, x, m);
    ReturnSteps(s, t, f, x, m);
    SeenStays(s, u);
    if |s.stacks[t]| >= 2 { CallerResumes(s, u, t, s.stacks[t][|s.stacks[t]|-2], f.c); }
  }

  lemma ReturnSteps(s: State, t: nat, f: Frame, x: nat, m: Node)
    requires Ids(s) && Top(s, t, f) && May(s, t, x, m) && f.c < |s.nodes| && Ids(Return(SetNode(s, x, m), t))
    requires |s.stacks[t]| >= 2 ==> (if f.c == x then m else s.nodes[f.c]).err.Some?
    ensures Steps(s, Return(SetNode(s, x, m), t), t, x)
  {
    hide Holds, Resume, FrameIds, SameCall;
    if |s.stacks[t]| >= 2 {
      assert FrameIds(s.ctxs, s.stacks[t][|s.stacks[t]|-2]);
      ResumeIds(s.ctxs, s.stacks[t][|s.stacks[t]|-2]);
    }
  }

  /** A step that changes no node. */
  lemma Unmoved(s: State, u: State, t: nat, x: nat)
    requires Inv(s) && Ids(u) && Steps(s, u, t, x) && x < |s.nodes| && Holds(s.stacks[t][|s.stacks[t]|-1]).None?
    requires u.nodes[x] == s.nodes[x].(linked := u.nodes[x].linked)
    ensures Steps(s, u, t, |s.nodes|) && BelowOK(s, u, |s.nodes|)
  {
    hide FrameOK, FramesOK, NodesOK, SeenOK, FrameIds, Grows, Reaches;
  }

  lemma TopShifts(s: State, t: nat, f: Frame, g: Frame)
    requires Inv(s) && Top(s, t, f) && Holds(f).None? && FrameIds(s.ctxs, g) && (SameCall(f, g) || |s.stacks[t]| == 1)
    ensures var u := SetTop(s, t, g);
      && Ids(u) && Steps(s, u, t, |s.nodes|) && BelowOK(s, u, |s.nodes|) && SeenOK(u)
      && (|s.stacks[t]| >= 2 ==> FrameOK(u, t, |s.stacks[t]| - 2))
  {
    hide FrameOK, FramesOK, NodesOK, SeenOK, Holds, BelowOK, Steps;
    assert FrameIds(s.ctxs, f);
    assert SetNode(s, f.c, s.nodes[f.c]) == s;
    TopMoves(s, t, f, g, f.c, s.nodes[f.c]);
    Unmoved(s, SetTop(s, t, g), t, f.c);
  }

  lemma TopEnds(s: State, t: nat, f: Frame)
    requires Inv(s) && Top(s, t, f) && Holds(f).None? && f.c < |s.nodes|
    requires |s.stacks[t]| >= 2 ==> s.nodes[f.c].err.Some?
    ensures var u := Return(s, t);
      && Ids(u) && Steps(s, u, t, |s.nodes|) && BelowOK(s, u, |s.nodes|) && SeenOK(u)
      && (|s.stacks[t]| >= 2 ==> FrameOK(u, t, |s.stacks[t]| - 2))
  {
    hide FrameOK, FramesOK, NodesOK, SeenOK, Holds, BelowOK, Steps;
    assert SetNode(s, f.c, s.nodes[f.c]) == s;
    TopReturns(s, t, f, f.c, s.nodes[f.c]);
    Unmoved(s, Return(s, t), t, f.c);
  }

  lemma ResumeIds(cs: seq<Ctx>, f: Frame)
    requires Rooted(cs) && FrameIds(cs, f)
    ensures FrameIds(cs, Resume(f)) && SameCall(f, Resume(f))
  {
  }
  /** `k` is among the children of `x`, or before the cancel of `x` that is under way. */
  predicate Awaited(s: State, x: nat, k: nat)
    requires x < |s.nodes|
  {
    if s.nodes[x].err.None? then k in s.nodes[x].children else Pending(s, x, k)
  }

  /** No live child of `x` is forgotten. */
  predicate Kept(s: State, u: State, x: nat)
    requires x < |s.nodes| == |u.nodes|
  {
    forall k: nat :: k < |u.nodes| && u.nodes[k].err.None? && Awaited(s, x, k) ==> Awaited(u, x, k)
  }

  lemma KeptBelow(s: State, u: State, t: nat, x: nat)
    requires Inv(s) && Ids(u) && Steps(s, u, t, x) && x < |s.nodes| && Kept(s, u, x)
    requires forall c :: 0 <= c < |s.nodes| ==> u.nodes[c].linked == s.nodes[c].linked
    ensures BelowOK(s, u, x)
  {
    hide FrameOK, FramesOK, SeenOK, FrameIds, CoreOK, Pending;
    forall c | 0 <= c < |s.nodes| && Cancelable(s.ctxs[c]) && Above(s.ctxs, c) == Some(x) ensures Reaches(u, c) {
      assert NodeOK(s, c);
      assert Grows(s.nodes[c], u.nodes[c]) && Grows(s.nodes[x], u.nodes[x]);
    }
  }

  /** The running frame moved on, changing `x`. */
  lemma FinishTop(s: State, t: nat, f: Frame, g: Frame, x: nat, m: Node)
    requires Inv(s) && Top(s, t, f) && May(s, t, x, m) && FrameIds(s.ctxs, g) && (SameCall(f, g) || |s.stacks[t]| == 1)
    requires Cancelable(s.ctxs[x]) && m.linked == s.nodes[x].linked
    requires var u := SetTop(SetNode(s, x, m), t, g);
      Ids(u) && FrameOK(u, t, |s.stacks[t]| - 1) && CoreOK(u, x) && Kept(s, u, x)
    ensures Inv(SetTop(SetNode(s, x, m), t, g))
  {
    hide SeenOK, NodesOK, FramesOK, FrameOK, CoreOK, Pending, Steps, Reaches, BelowOK, FrameIds, Return;
    TopMoves(s, t, f, g, x, m);
    var u := SetTop(SetNode(s, x, m), t, g);
    KeptBelow(s, u, t, x);
    Assemble(s, u, t, x, 0);
  }

  lemma FinishCall(s: State, t: nat, f: Frame, g: Frame, h: Frame, x: nat)
    requires Inv(s) && Top(s, t, f) && x < |s.nodes| && May(s, t, x, s.nodes[x]) && FrameIds(s.ctxs, g)
    requires FrameIds(s.ctxs, h) && SameCall(f, g)
    requires Cancelable(s.ctxs[x])
    requires var u := Call(s, t, g, h);
      Ids(u) && FrameOK(u, t, |s.stacks[t]| - 1) && FrameOK(u, t, |s.stacks[t]|) && CoreOK(u, x) && Kept(s, u, x)
    ensures Inv(Call(s, t, g, h))
  {
    hide SeenOK, NodesOK, FramesOK, FrameOK, CoreOK, Pending, Steps, Reaches, BelowOK, FrameIds, Return;
    TopCalls(s, t, f, g, h, x);
    var u := Call(s, t, g, h);
    KeptBelow(s, u, t, x);
    Assemble(s, u, t, x, 0);
  }

  lemma FinishReturn(s: State, t: nat, f: Frame, x: nat, m: Node)
    requires Inv(s) && Top(s, t, f) && May(s, t, x, m) && f.c < |s.nodes|
    requires |s.stacks[t]| >= 2 ==> (if f.c == x then m else s.nodes[f.c]).err.Some?
    requires Cancelable(s.ctxs[x]) && m.linked == s.nodes[x].linked
    requires var u := Return(SetNode(s, x, m), t);
      Ids(u) && CoreOK(u, x) && Kept(s, u, x)
    ensures Inv(Return(SetNode(s, x, m), t))
  {
    hide SeenOK, NodesOK, FramesOK, FrameOK, CoreOK, Pending, Steps, Reaches, BelowOK, FrameIds;
    TopReturns(s, t, f, x, m);
    var u := Return(SetNode(s, x, m), t);
    KeptBelow(s, u, t, x);
    Assemble(s, u, t, x, 0);
  }

  lemma TopIds(s: State, t: nat, f: Frame, g: Frame, x: nat, m: Node)
    requires Ids(s) && Top(s, t, f) && x < |s.nodes| && FrameIds(s.ctxs, g)
    ensures Ids(SetTop(SetNode(s, x, m), t, g))
  {
    hide FrameIds;
  }

  lemma CallIds(s: State, t: nat, f: Frame, g: Frame, h: Frame)
    requires Ids(s) && Top(s, t, f) && FrameIds(s.ctxs, g) && FrameIds(s.ctxs, h)
    ensures Ids(Call(s, t, g, h))
  {
    hide FrameIds;
  }

  lemma FreeNotPending(s: State, x: nat)
    requires x < |s.nodes| && s.nodes[x].lock.None?
    ensures forall c: nat :: !Pending(s, x, c)
  {
  }

  // ---------------------------------------------------------------- cancelCtx.cancel

  /** The step of a cancel is possible, and keeps the invariant. */
  predicate CancelGoes(s: State, t: nat, pick: nat) {
    && Ids(s) && t < |s.stacks| && s.stacks[t] != [] && s.stacks[t][|s.stacks[t]|-1].CancelFrame?
    && CancelStep(s, t, pick).Some? && Inv(CancelStep(s, t, pick).value)
  }

  /** The same of a step of propagateCancel. */
  predicate LinkGoes(s: State, t: nat) {
    && Ids(s) && t < |s.stacks| && s.stacks[t] != []
    && (s.stacks[t][|s.stacks[t]|-1].LinkStart? || s.stacks[t][|s.stacks[t]|-1].LinkFrame?)
    && LinkStep(s, t).Some? && Inv(LinkStep(s, t).value)
  }

  lemma EntryKeeps(s: State, t: nat, f: Frame, pick: nat)
    requires Top(s, t, f) && f.CancelFrame? && f.cpc.Entry? && f.c < |s.nodes| && s.nodes[f.c].lock.None?
    requires Inv(s)
    ensures CancelGoes(s, t, pick)
  {
    hide SeenOK, NodesOK, FramesOK, Pending, TimerOK, LinkOK;
    var i, n := |s.stacks[t]| - 1, s.nodes[f.c];
    FrameAt(s, t, i);
    NodeAt(s, f.c);
    var m := n.(lock := Some(Holder(t, i)));
    var g := f.(cause := if f.cause.None? then f.err else f.cause, cpc := Locked);
    TopIds(s, t, f, g, f.c, m);
    FreeNotPending(s, f.c);
    FinishTop(s, t, f, g, f.c, m);
  }

  /** Already canceled. */
  lemma SecondKeeps(s: State, t: nat, f: Frame, pick: nat)
    requires Top(s, t, f) && f.CancelFrame? && f.cpc.Locked? && f.c < |s.nodes| && s.nodes[f.c].err.Some?
    requires Inv(s)
    ensures CancelGoes(s, t, pick)
  {
    hide SeenOK, NodesOK, FramesOK, Pending, TimerOK, LinkOK;
    var i, n := |s.stacks[t]| - 1, s.nodes[f.c];
    FrameAt(s, t, i);
    NodeAt(s, f.c);
    var m := n.(lock := None);
    ReturnIds(s, t, f, f.c, m);
    NotPending(s, t, f, f.c);
    FinishReturn(s, t, f, f.c, m);
  }

  /** The error is stored: what was below is now before this cancel. */
  lemma LockedKeeps(s: State, t: nat, f: Frame, pick: nat)
    requires Top(s, t, f) && f.CancelFrame? && f.cpc.Locked? && f.c < |s.nodes| && s.nodes[f.c].err.None?
    requires Inv(s)
    ensures CancelGoes(s, t, pick)
  {
    hide SeenOK, NodesOK, FramesOK, Pending, TimerOK, LinkOK;
    var i, n := |s.stacks[t]| - 1, s.nodes[f.c];
    FrameAt(s, t, i);
    NodeAt(s, f.c);
    var m := n.(err := f.err, direct := f.direct);
    var g := f.(cpc := Stored);
    TopIds(s, t, f, g, f.c, m);
    PendingAll(SetTop(SetNode(s, f.c, m), t, g), t, g);
    FinishTop(s, t, f, g, f.c, m);
  }

  lemma PendingAll(u: State, t: nat, g: Frame)
    requires Top(u, t, g) && g.CancelFrame? && g.cpc.Stored? && g.c < |u.nodes|
    requires u.nodes[g.c].lock == Some(Holder(t, |u.stacks[t]| - 1))
    ensures forall k: nat :: k in u.nodes[g.c].children ==> Pending(u, g.c, k)
  {
  }

  lemma StoredKeeps(s: State, t: nat, f: Frame, pick: nat)
    requires Top(s, t, f) && f.CancelFrame? && f.cpc.Stored?
    requires Inv(s)
    ensures CancelGoes(s, t, pick)
  {
    hide SeenOK, NodesOK, FramesOK, Pending, TimerOK, LinkOK;
    var i, n := |s.stacks[t]| - 1, s.nodes[f.c];
    FrameAt(s, t, i);
    NodeAt(s, f.c);
    var m := n.(cause := f.cause, done := if n.done.Unmade? then Shared else Own(true));
    var g := f.(cpc := Loop(n.children));
    TopIds(s, t, f, g, f.c, m);
    PendingMoves(s, SetTop(SetNode(s, f.c, m), t, g), t, f, g);
    FinishTop(s, t, f, g, f.c, m);
  }

  lemma PendingMoves(s: State, u: State, t: nat, f: Frame, g: Frame)
    requires Top(s, t, f) && f.CancelFrame? && g.CancelFrame? && g.c == f.c < |s.nodes| == |u.nodes| && !f.cpc.Entry?
    requires |u.stacks| == |s.stacks| && |u.stacks[t]| >= |s.stacks[t]| && u.stacks[t][|s.stacks[t]|-1] == g
    requires s.nodes[f.c].lock == u.nodes[f.c].lock == Some(Holder(t, |s.stacks[t]| - 1))
    requires match g.cpc
      case Loop(rest) => f.cpc.Stored? && rest == s.nodes[f.c].children
      case Calling(rest, _) => f.cpc == Loop(rest)
      case _ => false
    ensures forall c: nat :: Pending(s, f.c, c) ==> Pending(u, f.c, c)
  {
  }

  /** The children left are called one by one. */
  lemma LoopKeeps(s: State, t: nat, f: Frame, pick: nat)
    requires Top(s, t, f) && f.CancelFrame? && f.cpc.Loop? && pick in f.cpc.rest
    requires Inv(s)
    ensures CancelGoes(s, t, pick)
  {
    hide SeenOK, NodesOK, FramesOK, Pending, LinkOK;
    var i, n := |s.stacks[t]| - 1, s.nodes[f.c];
    FrameAt(s, t, i);
    NodeAt(s, f.c);
    var g := f.(cpc := Calling(f.cpc.rest, pick));
    var h := CancelCall(s.ctxs, pick, false, f.err, f.cause, false);
    CallIds(s, t, f, g, h);
    CalleeInherits(Call(s, t, g, h), pick, f);
    PendingMoves(s, Call(s, t, g, h), t, f, g);
    FinishCall(s, t, f, g, h, f.c);
  }

  lemma CalleeInherits(u: State, k: nat, f: Frame)
    requires Ids(u) && k < |u.ctxs| && Cancelable(u.ctxs[k]) && Above(u.ctxs, k) == Some(f.c) && f.CancelFrame?
    requires u.nodes[f.c].err == f.err && u.nodes[f.c].cause == f.cause && f.err.Some? && f.cause.Some?
    ensures Inherited(u, k, f.err, f.cause)
  {
  }

  lemma LoopEndKeeps(s: State, t: nat, f: Frame, pick: nat)
    requires Top(s, t, f) && f.CancelFrame? && f.cpc.Loop? && f.cpc.rest == {}
    requires Inv(s)
    ensures CancelGoes(s, t, pick)
  {
    hide SeenOK, NodesOK, FramesOK, Pending, TimerOK, LinkOK;
    var i, n := |s.stacks[t]| - 1, s.nodes[f.c];
    FrameAt(s, t, i);
    NodeAt(s, f.c);
    var m := n.(children := {}, lock := None);
    NotPending(s, t, f, f.c);
    if f.remove {
      TopIds(s, t, f, RemoveFrame(f.c), f.c, m);
      FinishTop(s, t, f, RemoveFrame(f.c), f.c, m);
    } else {
      ReturnIds(s, t, f, f.c, m);
      FinishReturn(s, t, f, f.c, m);
    }
  }

  /** No child waits for a frame that is not canceling, or has none left. */
  lemma NotPending(s: State, t: nat, f: Frame, x: nat)
    requires Top(s, t, f) && x < |s.nodes| && s.nodes[x].lock == Some(Holder(t, |s.stacks[t]| - 1))
    requires f.CancelFrame? ==> f.cpc.Locked? || f.cpc == Loop({})
    ensures forall c: nat :: !Pending(s, x, c)
  {
  }

  lemma CancelKeeps(s: State, t: nat, f: Frame, pick: nat)
    requires Inv(s) && Top(s, t, f) && f.CancelFrame? && CancelStep(s, t, pick).Some?
    ensures Inv(CancelStep(s, t, pick).value)
  {
    FrameAt(s, t, |s.stacks[t]| - 1);
    match f.cpc
    case Entry => EntryKeeps(s, t, f, pick);
    case Locked => if s.nodes[f.c].err.Some? { SecondKeeps(s, t, f, pick); } else { LockedKeeps(s, t, f, pick); }
    case Stored => StoredKeeps(s, t, f, pick);
    case Loop(rest) => if pick in rest { LoopKeeps(s, t, f, pick); } else { LoopEndKeeps(s, t, f, pick); }
    case Calling(_, _) =>
  }

  /** The running frame moved on, changing no node. */
  lemma FinishShift(s: State, t: nat, f: Frame, g: Frame)
    requires Inv(s) && Top(s, t, f) && Holds(f).None? && FrameIds(s.ctxs, g) && (SameCall(f, g) || |s.stacks[t]| == 1)
    requires var u := SetTop(s, t, g);
      Ids(u) && FrameOK(u, t, |s.stacks[t]| - 1)
    ensures Inv(SetTop(s, t, g))
  {
    hide SeenOK, NodesOK, FramesOK, FrameOK, CoreOK, Pending, Steps, Reaches, BelowOK, FrameIds, Return;
    TopShifts(s, t, f, g);
    Assemble(s, SetTop(s, t, g), t, |s.nodes|, 0);
  }

  lemma FinishEnd(s: State, t: nat, f: Frame)
    requires Inv(s) && Top(s, t, f) && Holds(f).None? && f.c < |s.nodes|
    requires |s.stacks[t]| >= 2 ==> s.nodes[f.c].err.Some?
    ensures Inv(Return(s, t))
  {
    hide SeenOK, NodesOK, FramesOK, FrameOK, CoreOK, Pending, Steps, Reaches, BelowOK, FrameIds;
    TopEnds(s, t, f);
    Assemble(s, Return(s, t), t, |s.nodes|, 0);
  }

  /** The running frame calls, holding no mutex. */
  lemma FinishEnter(s: State, t: nat, f: Frame, g: Frame, h: Frame)
    requires Inv(s) && Top(s, t, f) && Holds(f).None? && FrameIds(s.ctxs, g) && FrameIds(s.ctxs, h) && SameCall(f, g)
    requires var u := Call(s, t, g, h);
      Ids(u) && FrameOK(u, t, |s.stacks[t]| - 1) && FrameOK(u, t, |s.stacks[t]|)
    ensures Inv(Call(s, t, g, h))
  {
    hide SeenOK, NodesOK, FramesOK, FrameOK, CoreOK, Pending, Steps, Reaches, BelowOK;
    assert FrameIds(s.ctxs, f);
    TopCalls(s, t, f, g, h, f.c);
    Unmoved(s, Call(s, t, g, h), t, f.c);
    Assemble(s, Call(s, t, g, h), t, |s.nodes|, 0);
  }

  lemma ShiftIds(s: State, t: nat, f: Frame, g: Frame)
    requires Ids(s) && Top(s, t, f) && FrameIds(s.ctxs, g)
    ensures Ids(SetTop(s, t, g))
  {
    hide FrameIds;
  }

  // ---------------------------------------------------------------- timerCtx.cancel and removeChild

  lemma TimerKeeps(s: State, t: nat, f: Frame)
    requires Inv(s) && Top(s, t, f) && f.TimerFrame? && TimerStep(s, t).Some?
    ensures Inv(TimerStep(s, t).value)
  {
    hide SeenOK, NodesOK, FramesOK, Pending, CancelOK, LinkOK;
    FrameAt(s, t, |s.stacks[t]| - 1);
    match f.tpc
    case TEntry => TimerEnters(s, t, f);
    case TRemove =>
      if f.remove {
        var g, h := f.(tpc := TRemoving), RemoveFrame(f.c);
        CallIds(s, t, f, g, h);
        assert FrameOK(Call(s, t, g, h), t, |s.stacks[t]|);
        FinishEnter(s, t, f, g, h);
      } else {
        ShiftIds(s, t, f, f.(tpc := TStop));
        FinishShift(s, t, f, f.(tpc := TStop));
      }
    case TStop => FinishEnd(s, t, f);
    case TCalling =>
    case TRemoving =>
  }

  lemma TimerEnters(s: State, t: nat, f: Frame)
    requires Inv(s) && Top(s, t, f) && f.TimerFrame? && f.tpc.TEntry?
    ensures Inv(TimerStep(s, t).value)
  {
    hide SeenOK, NodesOK, FramesOK, Pending, LinkOK;
    FrameAt(s, t, |s.stacks[t]| - 1);
    var g, h := f.(tpc := TCalling), CancelFrame(f.c, false, f.err, f.cause, f.direct, Entry);
    CallIds(s, t, f, g, h);
    assert FrameOK(Call(s, t, g, h), t, |s.stacks[t]|);
    FinishEnter(s, t, f, g, h);
  }

  lemma RemoveKeeps(s: State, t: nat, f: Frame)
    requires Inv(s) && Top(s, t, f) && f.RemoveFrame? && RemoveStep(s, t).Some?
    ensures Inv(RemoveStep(s, t).value)
  {
    hide SeenOK, NodesOK, FramesOK, Pending, CancelOK, LinkOK;
    FrameAt(s, t, |s.stacks[t]| - 1);
    match Above(s.ctxs, f.c)
    case None => FinishEnd(s, t, f);
    case Some(p) =>
      var n := s.nodes[p];
      var g := DeleteFrame(f.c, p);
      if n.done.Shared? {
        FinishEnd(s, t, f);
      } else if n.done.Unmade? {
        MakesDone(s, t, f, g, p);
      } else {
        ShiftIds(s, t, f, g);
        FinishShift(s, t, f, g);
      }
  }

  /** The done channel of `p` is made on the way. */
  lemma MakesDone(s: State, t: nat, f: Frame, g: Frame, p: nat)
    requires Inv(s) && Top(s, t, f) && Holds(f).None? && FrameIds(s.ctxs, g) && (SameCall(f, g) || |s.stacks[t]| == 1)
    requires p < |s.nodes| && Cancelable(s.ctxs[p]) && s.nodes[p].done.Unmade? && s.nodes[p].lock.None?
    requires g.c == f.c
    requires (g.DeleteFrame? && f.RemoveFrame?) || (g.LinkFrame? && g.lpc.Select? && |s.stacks[t]| == 1 && p == g.p)
    ensures Inv(SetTop(SetNode(s, p, s.nodes[p].(done := Own(false))), t, g))
  {
    hide SeenOK, NodesOK, FramesOK, Pending, CancelOK, TimerOK;
    FrameAt(s, t, |s.stacks[t]| - 1);
    NodeAt(s, p);
    var m := s.nodes[p].(done := Own(false));
    TopIds(s, t, f, g, p, m);
    FreeNotPending(s, p);
    FinishTop(s, t, f, g, p, m);
  }

  lemma DeleteKeeps(s: State, t: nat, f: Frame)
    requires Inv(s) && Top(s, t, f) && f.DeleteFrame? && RemoveStep(s, t).Some?
    ensures Inv(RemoveStep(s, t).value)
  {
    hide SeenOK, NodesOK, FramesOK, Pending, CancelOK, LinkOK;
    FrameAt(s, t, |s.stacks[t]| - 1);
    NodeAt(s, f.p);
    var m := s.nodes[f.p].(children := s.nodes[f.p].children - {f.c});
    ReturnIds(s, t, f, f.p, m);
    FreeNotPending(s, f.p);
    FinishReturn(s, t, f, f.p, m);
  }

  // ---------------------------------------------------------------- Err

  lemma ErrKeeps(s: State, t: nat, f: Frame)
    requires Inv(s) && Top(s, t, f) && (f.ErrLoad? || f.ErrWait?) && ErrStep(s, t).Some?
    ensures Inv(ErrStep(s, t).value)
  {
    hide NodesOK, FramesOK, Pending, CancelOK, LinkOK, TimerOK;
    FrameAt(s, t, |s.stacks[t]| - 1);
    NodeAt(s, f.c);
    match f
    case ErrLoad(c) =>
      var n := s.nodes[c];
      if n.err.Some? {
        ShiftIds(s, t, f, ErrWait(c, n.err.value));
        FinishShift(s, t, f, ErrWait(c, n.err.value));
      } else {
        FinishEnd(s, t, f);
      }
    case ErrWait(c, e) =>
      FinishEnd(s, t, f);
      SeeMore(Return(s, t), c, e);
      assert ErrStep(s, t).value == Return(s, t).(seen := s.seen + {(c, e)});
  }

  lemma SeeMore(s: State, c: nat, e: Error)
    requires Inv(s) && c < |s.nodes| && s.nodes[c].err == Some(e) && Closed(s.nodes[c].done)
    ensures Inv(s.(seen := s.seen + {(c, e)}))
  {
    var u := s.(seen := s.seen + {(c, e)});
    forall t, i | 0 <= t < |u.stacks| && 0 <= i < |u.stacks[t]| ensures FrameOK(u, t, i) { assert FrameOK(s, t, i); }
    forall k | 0 <= k < |u.ctxs| && Cancelable(u.ctxs[k]) ensures NodeOK(u, k) { assert NodeOK(s, k); }
  }

  // ---------------------------------------------------------------- propagateCancel

  lemma LinkStartKeeps(s: State, t: nat, f: Frame)
    requires Inv(s) && Top(s, t, f) && f.LinkStart? && LinkStep(s, t).Some?
    ensures Inv(LinkStep(s, t).value)
  {
    hide SeenOK, NodesOK, FramesOK, Pending, CancelOK, TimerOK;
    FrameAt(s, t, |s.stacks[t]| - 1);
    match Above(s.ctxs, f.c)
    case None => LinksNothing(s, t, f);
    case Some(p) =>
      var g := LinkFrame(f.c, p, Select);
      if s.nodes[p].done.Unmade? {
        MakesDone(s, t, f, g, p);
      } else {
        ShiftIds(s, t, f, g);
        FinishShift(s, t, f, g);
      }
  }

  /** A step of propagateCancel that ends it or registers the child, `x` being the parent or no node. */
  lemma FinishLink(s: State, u: State, t: nat, x: nat, y: nat)
    requires Inv(s) && Ids(u) && Steps(s, u, t, x) && SeenOK(u) && !u.panicked && |s.stacks[t]| == 1
    requires |u.stacks[t]| <= 1
    requires |u.stacks[t]| == 1 ==> FrameOK(u, t, 0)
    requires x < |s.nodes| ==> Cancelable(s.ctxs[x]) && CoreOK(u, x) && Kept(s, u, x)
    requires y < |s.nodes| && Cancelable(s.ctxs[y]) && (u.nodes[y].linked != s.nodes[y].linked ==> Reaches(u, y))
    requires forall c :: 0 <= c < |s.nodes| && c != y ==> u.nodes[c].linked == s.nodes[c].linked
    ensures Inv(u)
  {
    hide SeenOK, FramesOK, FrameOK, CoreOK, Pending, FrameIds;
    forall c | 0 <= c < |s.nodes| && Cancelable(s.ctxs[c]) && Above(s.ctxs, c) == Some(x) ensures Reaches(u, c) {
      if u.nodes[c].linked == s.nodes[c].linked {
        NodeAt(s, c);
        assert Grows(s.nodes[c], u.nodes[c]) && Grows(s.nodes[x], u.nodes[x]);
      }
    }
    assert BelowOK(s, u, x);
    Assemble(s, u, t, x, y);
  }

  lemma LinksNothing(s: State, t: nat, f: Frame)
    requires Inv(s) && Top(s, t, f) && f.LinkStart? && Above(s.ctxs, f.c).None?
    ensures Inv(LinkStep(s, t).value)
  {
    hide NodesOK, FramesOK, Pending, CancelOK, TimerOK, LinkOK, SeenOK, CoreOK, Above;
    FrameAt(s, t, |s.stacks[t]| - 1);
    var u := LinkStep(s, t).value;
    LinksNothingStep(s, t, f);
    SeenStays(s, u);
    FinishLink(s, u, t, |s.nodes|, f.c);
  }

  lemma LinksNothingStep(s: State, t: nat, f: Frame)
    requires Ids(s) && Top(s, t, f) && f.LinkStart? && Above(s.ctxs, f.c).None? && |s.stacks[t]| == 1
    ensures var u := LinkStep(s, t).value;
      Ids(u) && Steps(s, u, t, |s.nodes|) && u.seen == s.seen && u.panicked == s.panicked && u.stacks[t] == []
    ensures var u := LinkStep(s, t).value; f.c < |s.nodes| && u.nodes == s.nodes[f.c := s.nodes[f.c].(linked := true)]
  {
    assert FrameIds(s.ctxs, f);
  }

  lemma LinkShiftKeeps(s: State, t: nat, f: Frame)
    requires Top(s, t, f) && f.LinkFrame? && (f.lpc.Select? || f.lpc.GetErr? || f.lpc.Find?)
    requires Inv(s)
    ensures LinkGoes(s, t)
  {
    hide SeenOK, NodesOK, FramesOK, Pending, CancelOK, TimerOK;
    FrameAt(s, t, |s.stacks[t]| - 1);
    NodeAt(s, f.p);
    var n := s.nodes[f.p];
    var g := LinkFrame(f.c, f.p, match f.lpc
      case Select => if Closed(n.done) then GetErr else Find
      case GetErr => GetCause(n.err)
      case _ => Lock);
    ShiftIds(s, t, f, g);
    FinishShift(s, t, f, g);
  }

  /** The parent was canceled before: its error and cause are passed on. */
  lemma LinkCauseKeeps(s: State, t: nat, f: Frame)
    requires Top(s, t, f) && f.LinkFrame? && f.lpc.GetCause? && f.p < |s.nodes| && s.nodes[f.p].lock.None?
    requires Inv(s)
    ensures LinkGoes(s, t)
  {
    hide SeenOK, NodesOK, FramesOK, Pending;
    FrameAt(s, t, |s.stacks[t]| - 1);
    NodeAt(s, f.p);
    var n := s.nodes[f.p];
    var g, h := LinkFrame(f.c, f.p, Canceling(false)), CancelCall(s.ctxs, f.c, false, n.err, n.cause, false);
    CallIds(s, t, f, g, h);
    assert FrameOK(Call(s, t, g, h), t, |s.stacks[t]|);
    FinishEnter(s, t, f, g, h);
  }

  lemma LinkLockKeeps(s: State, t: nat, f: Frame)
    requires Top(s, t, f) && f.LinkFrame? && f.lpc.Lock? && f.p < |s.nodes| && s.nodes[f.p].lock.None?
    requires Inv(s)
    ensures LinkGoes(s, t)
  {
    hide SeenOK, NodesOK, FramesOK, Pending, CancelOK, TimerOK;
    FrameAt(s, t, |s.stacks[t]| - 1);
    NodeAt(s, f.p);
    var m := s.nodes[f.p].(lock := Some(Holder(t, |s.stacks[t]| - 1)));
    var g := LinkFrame(f.c, f.p, Check);
    TopIds(s, t, f, g, f.p, m);
    FreeNotPending(s, f.p);
    FinishTop(s, t, f, g, f.p, m);
  }

  /** The parent was canceled in the meantime. */
  lemma LinkLateKeeps(s: State, t: nat, f: Frame)
    requires Top(s, t, f) && f.LinkFrame? && f.lpc.Check? && f.p < |s.nodes| && s.nodes[f.p].err.Some?
    requires Inv(s)
    ensures LinkGoes(s, t)
  {
    hide SeenOK, NodesOK, FramesOK, Pending;
    FrameAt(s, t, |s.stacks[t]| - 1);
    NodeAt(s, f.p);
    var n := s.nodes[f.p];
    var g, h := LinkFrame(f.c, f.p, Canceling(true)), CancelCall(s.ctxs, f.c, false, n.err, n.cause, false);
    CallIds(s, t, f, g, h);
    NotPending(s, t, f, f.p);
    assert FrameOK(Call(s, t, g, h), t, |s.stacks[t]|);
    FinishCall(s, t, f, g, h, f.p);
  }

  /** The child is registered with its live parent. */
  lemma LinkRegisterKeeps(s: State, t: nat, f: Frame)
    requires Top(s, t, f) && f.LinkFrame? && f.lpc.Check? && f.p < |s.nodes| && s.nodes[f.p].err.None?
    requires Inv(s)
    ensures LinkGoes(s, t)
  {
    hide NodesOK, FramesOK, Pending, CancelOK, TimerOK, SeenOK, CoreOK, Steps, Kept, Ids, Reaches, Above;
    FrameAt(s, t, |s.stacks[t]| - 1);
    RegisterSteps(s, t, f);
    var u := LinkStep(s, t).value;
    RegisterCore(s, u, t, f);
    FinishLink(s, u, t, f.p, f.c);
  }

  lemma RegisterSteps(s: State, t: nat, f: Frame)
    requires Top(s, t, f) && f.LinkFrame? && f.lpc.Check? && f.p < |s.nodes| && s.nodes[f.p].err.None?
    requires Inv(s) && FrameOK(s, t, |s.stacks[t]| - 1)
    ensures LinkStep(s, t).Some?
    ensures var u := LinkStep(s, t).value;
      && Ids(u) && Steps(s, u, t, f.p) && SeenOK(u) && !u.panicked && f.c < |s.nodes| && Cancelable(s.ctxs[f.c])
      && |s.stacks[t]| == 1 && |u.stacks[t]| == 1 && FrameOK(u, t, 0) && Reaches(u, f.c)
      && forall c :: 0 <= c < |s.nodes| && c != f.c ==> u.nodes[c].linked == s.nodes[c].linked
  {
    hide NodesOK, FramesOK, Pending, CancelOK, TimerOK, SeenOK, CoreOK;
    var u := LinkStep(s, t).value;
    assert Ids(u);
    SeenStays(s, u);
  }

  lemma RegisterCore(s: State, u: State, t: nat, f: Frame)
    requires f.LinkFrame? && f.lpc.Check? && f.p < |s.nodes| && s.nodes[f.p].err.None?
    requires Inv(s) && Top(s, t, f)
    requires LinkStep(s, t) == Some(u) && Ids(u) && FrameOK(s, t, |s.stacks[t]| - 1)
    ensures CoreOK(u, f.p) && Kept(s, u, f.p)
  {
    hide NodesOK, FramesOK, CancelOK, TimerOK, SeenOK;
    NodeAt(s, f.p);
  }

  lemma LinkFinishKeeps(s: State, t: nat, f: Frame)
    requires Top(s, t, f) && f.LinkFrame? && f.lpc == Finish(false)
    requires Inv(s)
    ensures LinkGoes(s, t)
  {
    hide NodesOK, FramesOK, Pending, CancelOK, TimerOK, Above;
    FrameAt(s, t, |s.stacks[t]| - 1);
    var u := LinkStep(s, t).value;
    assert Ids(u);
    SeenStays(s, u);
    assert Steps(s, u, t, |s.nodes|);
    FinishLink(s, u, t, |s.nodes|, f.c);
  }

  lemma LinkUnlockKeeps(s: State, t: nat, f: Frame)
    requires Top(s, t, f) && f.LinkFrame? && f.lpc == Finish(true)
    requires Inv(s)
    ensures LinkGoes(s, t)
  {
    hide NodesOK, FramesOK, Pending, CancelOK, TimerOK, Above, SeenOK, CoreOK;
    FrameAt(s, t, |s.stacks[t]| - 1);
    var u := LinkStep(s, t).value;
    assert Ids(u);
    SeenStays(s, u);
    assert Steps(s, u, t, f.p);
    UnlockCore(s, u, t, f);
    FinishLink(s, u, t, f.p, f.c);
  }

  lemma UnlockCore(s: State, u: State, t: nat, f: Frame)
    requires Inv(s) && Top(s, t, f) && f.LinkFrame? && f.lpc == Finish(true)
    requires LinkStep(s, t) == Some(u) && Ids(u) && FrameOK(s, t, |s.stacks[t]| - 1)
    ensures CoreOK(u, f.p) && Kept(s, u, f.p)
  {
    hide NodesOK, FramesOK, Pending, CancelOK, TimerOK, SeenOK;
    NodeAt(s, f.p);
    NotPending(s, t, f, f.p);
  }

  lemma LinkKeeps(s: State, t: nat, f: Frame)
    requires Inv(s) && Top(s, t, f) && f.LinkFrame? && LinkStep(s, t).Some?
    ensures Inv(LinkStep(s, t).value)
  {
    FrameAt(s, t, |s.stacks[t]| - 1);
    match f.lpc
    case Select => LinkShiftKeeps(s, t, f);
    case GetErr => LinkShiftKeeps(s, t, f);
    case Find => LinkShiftKeeps(s, t, f);
    case GetCause(_) => LinkCauseKeeps(s, t, f);
    case Lock => LinkLockKeeps(s, t, f);
    case Check => if s.nodes[f.p].err.Some? { LinkLateKeeps(s, t, f); } else { LinkRegisterKeeps(s, t, f); }
    case Finish(held) => if held { LinkUnlockKeeps(s, t, f); } else { LinkFinishKeeps(s, t, f); }
    case Canceling(_) =>
    case Watch =>
  }
}
