/** What callers of the context package may rely on, over every run and every interleaving. */
module ContextResults {
  import opened Options
  import opened ContextTree
  import opened ContextChain
  import opened ContextCancel
  import opened ContextSafety
  import opened ContextSteps
  import opened ContextRuns

  // ---------------------------------------------------------------- written once

  predicate AllGrow(s: State, u: State) {
    |s.nodes| <= |u.nodes| && s.ctxs <= u.ctxs && forall c :: 0 <= c < |s.nodes| ==> Grows(s.nodes[c], u.nodes[c])
  }

  lemma InvIds(s: State)
    requires Inv(s)
    ensures Ids(s)
  {
  }

  lemma CancelFacts(s: State, t: nat, f: Frame)
    requires Inv(s) && Top(s, t, f) && f.CancelFrame?
    ensures f.c < |s.nodes| && (f.cpc.Stored? ==> s.nodes[f.c].cause.None?)
  {
    hide FramesOK, NodesOK, SeenOK, TimerOK, LinkOK, Above;
    FrameAt(s, t, |s.stacks[t]| - 1);
  }

  lemma CancelGrows(s: State, t: nat, f: Frame, pick: nat)
    requires Inv(s) && Top(s, t, f) && f.CancelFrame? && CancelStep(s, t, pick).Some?
    ensures AllGrow(s, CancelStep(s, t, pick).value)
  {
    hide Ids, NodesOK, FramesOK, SeenOK, Return;
    CancelFacts(s, t, f);
    ReturnNodes(s, t, f.c);
  }

  lemma ReturnNodes(s: State, t: nat, c: nat)
    requires t < |s.stacks| && s.stacks[t] != [] && c < |s.nodes|
    ensures forall m ::
      Return(SetNode(s, c, m), t).nodes == s.nodes[c := m] && Return(SetNode(s, c, m), t).ctxs == s.ctxs
  {
  }

  lemma LinkStartGrows(s: State, t: nat, f: Frame)
    requires Inv(s) && Top(s, t, f) && f.LinkStart? && LinkStep(s, t).Some?
    ensures AllGrow(s, LinkStep(s, t).value)
  {
    hide NodesOK, FramesOK, SeenOK, FrameIds;
    LinkIds(s, f);
  }

  lemma LinkGrows(s: State, t: nat, f: Frame)
    requires Inv(s) && Top(s, t, f) && f.LinkFrame? && LinkStep(s, t).Some?
    ensures AllGrow(s, LinkStep(s, t).value)
  {
    hide Inv, Ids, AllGrow;
    InvIds(s);
    if f.lpc.Check? || f.lpc.Finish? { LinkEndGrows(s, t, f); } else { LinkOnGrows(s, t, f); }
  }

  lemma LinkEndGrows(s: State, t: nat, f: Frame)
    requires Ids(s) && Top(s, t, f) && f.LinkFrame? && (f.lpc.Check? || f.lpc.Finish?) && LinkStep(s, t).Some?
    ensures AllGrow(s, LinkStep(s, t).value)
  {
    hide FrameIds, Above;
    LinkIds(s, f);
  }

  lemma LinkOnGrows(s: State, t: nat, f: Frame)
    requires Ids(s) && Top(s, t, f) && f.LinkFrame? && !f.lpc.Check? && !f.lpc.Finish? && LinkStep(s, t).Some?
    ensures AllGrow(s, LinkStep(s, t).value)
  {
    hide FrameIds, Above;
    LinkIds(s, f);
  }

  lemma LinkIds(s: State, f: Frame)
    requires Ids(s) && FrameIds(s.ctxs, f)
    ensures f.c < |s.nodes| && (f.LinkFrame? ==> f.p < f.c)
  {
  }

  lemma OtherGrows(s: State, t: nat, f: Frame)
    requires Inv(s) && Top(s, t, f) && (f.TimerFrame? || f.RemoveFrame? || f.DeleteFrame? || f.ErrLoad? || f.ErrWait?)
    requires Next(s, t, 0).Some?
    ensures AllGrow(s, Next(s, t, 0).value)
  {
    hide NodesOK, FramesOK, SeenOK, CancelStep, LinkStep;
  }

  lemma NextGrows(s: State, t: nat, pick: nat)
    requires Inv(s) && Next(s, t, pick).Some?
    ensures AllGrow(s, Next(s, t, pick).value)
  {
    hide Inv, AllGrow, CancelStep, LinkStep, TimerStep, RemoveStep, ErrStep;
    var f := s.stacks[t][|s.stacks[t]|-1];
    if f.CancelFrame? {
      CancelGrows(s, t, f, pick);
    } else if f.LinkStart? {
      LinkStartGrows(s, t, f);
    } else if f.LinkFrame? {
      LinkGrows(s, t, f);
    } else {
      OtherGrows(s, t, f);
    }
  }

  lemma DoGrows(s: State, a: Action)
    requires Inv(s) && Do(s, a).Some?
    ensures AllGrow(s, Do(s, a).value)
  {
    hide NodesOK, FramesOK, SeenOK, Next;
    if a.Go? { NextGrows(s, a.t, a.pick); }
  }

  lemma GrowsSelf(s: State)
    ensures AllGrow(s, s)
  {
  }

  lemma GrowsOn(s: State, u: State, v: State)
    requires AllGrow(s, u) && AllGrow(u, v)
    ensures AllGrow(s, v)
  {
    forall c | 0 <= c < |s.nodes| ensures Grows(s.nodes[c], v.nodes[c]) {
      assert Grows(s.nodes[c], u.nodes[c]) && Grows(u.nodes[c], v.nodes[c]);
    }
  }

  /** Err, cause, and a closed done channel are for good, whatever happens after. */
  lemma {:induction false} WrittenOnce(run: seq<Action>, more: seq<Action>)
    requires After(run + more).Some?
    ensures After(run).Some? && AllGrow(After(run).value, After(run + more).value)
  {
    hide Inv, Ids, Do, AllGrow;
    if more == [] {
      assert run + more == run;
      GrowsSelf(After(run).value);
    } else {
      var last := |more| - 1;
      assert (run + more)[..|run + more| - 1] == run + more[..last];
      WrittenOnce(run, more[..last]);
      var u := After(run + more[..last]).value;
      DoGrows(u, more[last]);
      GrowsOn(After(run).value, u, After(run + more).value);
    }
  }

  // ---------------------------------------------------------------- closure

  /** Every context's parent was finished before it was derived. */
  predicate Grounded(s: State) {
    Ids(s) && forall c :: 0 <= c < |s.ctxs| && !s.ctxs[c].Background? ==> s.nodes[s.ctxs[c].parent].linked
  }

  lemma {:induction false} RunGrounded(run: seq<Action>)
    requires After(run).Some?
    ensures Grounded(After(run).value)
  {
    if run != [] {
      var s := After(run[..|run|-1]).value;
      RunGrounded(run[..|run|-1]);
      DoGrounded(s, run[|run|-1]);
    }
  }

  lemma DoGrounded(s: State, a: Action)
    requires Inv(s) && Grounded(s) && Do(s, a).Some?
    ensures Grounded(Do(s, a).value)
  {
    hide NodesOK, FramesOK, SeenOK, Next;
    var u := Do(s, a).value;
    DoKeeps(s, a);
    DoGrows(s, a);
    if a.Go? { NextTree(s, a.t, a.pick); }
    forall c | 0 <= c < |u.ctxs| && !u.ctxs[c].Background? ensures u.nodes[u.ctxs[c].parent].linked {
      if c < |s.ctxs| { assert Grows(s.nodes[s.ctxs[c].parent], u.nodes[s.ctxs[c].parent]); }
    }
  }

  lemma NextTree(s: State, t: nat, pick: nat)
    requires Ids(s) && Next(s, t, pick).Some?
    ensures Next(s, t, pick).value.ctxs == s.ctxs
  {
    hide Ids;
  }

  lemma {:induction false} NearestLinked(s: State, c: nat)
    requires Grounded(s) && c < |s.ctxs| && s.nodes[c].linked
    ensures Nearest(s.ctxs, c).Some? ==> s.nodes[Nearest(s.ctxs, c).value].linked
  {
    if s.ctxs[c].Value? { NearestLinked(s, s.ctxs[c].parent); }
  }

  predicate Quiet(s: State) {
    forall t, i :: 0 <= t < |s.stacks| && 0 <= i < |s.stacks[t]| ==> !s.stacks[t][i].CancelFrame?
  }

  lemma RegisteredAbove(run: seq<Action>, c: nat)
    requires After(run).Some?
    requires var s := After(run).value; Quiet(s) && Usable(s, c) && s.nodes[c].err.None? && Above(s.ctxs, c).Some?
    ensures var s := After(run).value; var p := s.nodes[Above(s.ctxs, c).value];
      p.err.None? && c in p.children
  {
    hide NodesOK, FramesOK, SeenOK;
    NodeAt(After(run).value, c);
  }

  lemma ClosureUnder(run: seq<Action>, d: nat, a: nat)
    requires After(run).Some?
    requires var s := After(run).value;
      Quiet(s) && Usable(s, d) && a <= d && Under(s.ctxs, d, a) && s.nodes[a].err.Some?
    ensures After(run).value.nodes[d].err.Some?
    decreases d
  {
    var s := After(run).value;
    if d != a {
      var p := Above(s.ctxs, d).value;
      RunGrounded(run);
      NearestLinked(s, s.ctxs[d].parent);
      UnderIsCancel(s.ctxs, p, a);
      ClosureUnder(run, p, a);
      if s.nodes[d].err.None? { RegisteredAbove(run, d); }
    }
  }

  /**
    While no cancel is in progress, a live context is registered in the cancelCtx above it, whatever values are
    between, and that one is live.
   */
  lemma Registered(run: seq<Action>, c: nat, p: nat)
    requires After(run).Some?
    requires var s := After(run).value; Quiet(s) && Usable(s, c) && s.nodes[c].err.None? && FedBy(s.ctxs, c, p)
    ensures var s := After(run).value; p < |s.nodes| && s.nodes[p].err.None? && c in s.nodes[p].children
  {
    hide NodesOK, FramesOK, SeenOK;
    AboveIs(After(run).value.ctxs, c, p);
    RegisteredAbove(run, c);
  }

  /** While no cancel is in progress, all that is derived from a canceled context without WithoutCancel is canceled. */
  lemma Closure(run: seq<Action>, d: nat, a: nat)
    requires After(run).Some?
    requires var s := After(run).value;
      Quiet(s) && Usable(s, d) && DerivedFrom(s.ctxs, d, a) && a < |s.nodes| && s.nodes[a].err.Some?
    ensures After(run).value.nodes[d].err.Some?
  {
    hide NodesOK, FramesOK, SeenOK;
    var s := After(run).value;
    UnderIs(s.ctxs, d, a);
    UnderIsCancel(s.ctxs, d, a);
    ClosureUnder(run, d, a);
  }

  // ---------------------------------------------------------------- causes

  /** A canceled context has the error and cause of one at or above it whose own cancel was called. */
  lemma {:induction false} CauseFromAbove(s: State, c: nat) returns (a: nat)
    requires Inv(s) && c < |s.ctxs| && Cancelable(s.ctxs[c]) && s.nodes[c].cause.Some?
    ensures Under(s.ctxs, c, a) && DerivedFrom(s.ctxs, c, a) && a < |s.nodes| && s.nodes[a].direct
    ensures s.nodes[a].err == s.nodes[c].err && s.nodes[a].cause == s.nodes[c].cause
    decreases c
  {
    hide FramesOK, SeenOK;
    NodeAt(s, c);
    if s.nodes[c].direct {
      a := c;
    } else {
      a := CauseFromAbove(s, Above(s.ctxs, c).value);
    }
    UnderIs(s.ctxs, c, a);
  }

  /** The run has a call of the cancel function, or a timer, of `c` with these arguments; no cause means the error. */
  predicate Called(run: seq<Action>, c: nat, err: Option<Error>, cause: Option<Error>) {
    exists i :: 0 <= i < |run| && run[i].CallCancel? && run[i].c == c && err == Some(run[i].err) &&
      (cause == run[i].cause || (run[i].cause.None? && cause == err))
  }

  predicate FramesCalled(run: seq<Action>, s: State) {
    forall t, i :: 0 <= t < |s.stacks| && 0 <= i < |s.stacks[t]| ==>
      var f := s.stacks[t][i];
      (f.CancelFrame? || f.TimerFrame?) && f.direct ==> Called(run, f.c, f.err, f.cause)
  }

  predicate NodesCalled(run: seq<Action>, s: State)
    requires Ids(s)
  {
    forall c ::
      0 <= c < |s.nodes| && Cancelable(s.ctxs[c]) && s.nodes[c].direct && s.nodes[c].cause.Some? ==>
        Called(run, c, s.nodes[c].err, s.nodes[c].cause)
  }

  lemma CalledLonger(run: seq<Action>, a: Action)
    ensures forall c, e, u :: Called(run, c, e, u) ==> Called(run + [a], c, e, u)
  {
    forall c, e, u | Called(run, c, e, u) ensures Called(run + [a], c, e, u) {
      var i :| 0 <= i < |run| && run[i].CallCancel? && run[i].c == c && e == Some(run[i].err)
        && (u == run[i].cause || (run[i].cause.None? && u == e));
      assert (run + [a])[i] == run[i];
    }
  }

  /** `g` is the call `f`, further on or through cancelCtx.cancel, or no direct cancel at all. */
  predicate Derived(f: Frame, g: Frame) {
    (g.CancelFrame? || g.TimerFrame?) && g.direct ==>
      && (f.CancelFrame? || f.TimerFrame?) && f.direct && f.c == g.c && f.err == g.err
      && (g.cause == f.cause || (f.cause.None? && g.cause == f.err))
  }

  predicate AllDerived(s: State, u: State, t: nat) {
    && t < |s.stacks| == |u.stacks| && s.stacks[t] != [] && |u.stacks[t]| <= |s.stacks[t]| + 1
    && (forall r :: 0 <= r < |s.stacks| && r != t ==> u.stacks[r] == s.stacks[r])
    && (forall i :: 0 <= i < |u.stacks[t]| && i < |s.stacks[t]| ==> Derived(s.stacks[t][i], u.stacks[t][i]))
    && (|u.stacks[t]| > |s.stacks[t]| ==> Derived(s.stacks[t][|s.stacks[t]|-1], u.stacks[t][|s.stacks[t]|]))
  }

  /** How a step leaves the stack of its goroutine: as it was, with a new top, with a call on top, or returned from. */
  lemma StillDerived(s: State, u: State, t: nat)
    requires t < |s.stacks| && s.stacks[t] != [] && u.stacks == s.stacks
    ensures AllDerived(s, u, t)
  {
  }

  lemma TopDerived(s: State, u: State, t: nat, f: Frame, g: Frame)
    requires Top(s, t, f) && u.stacks == SetTop(s, t, g).stacks && Derived(f, g)
    ensures AllDerived(s, u, t)
  {
  }

  lemma CallDerived(s: State, u: State, t: nat, f: Frame, g: Frame, h: Frame)
    requires Top(s, t, f) && u.stacks == Call(s, t, g, h).stacks && Derived(f, g) && Derived(f, h)
    ensures AllDerived(s, u, t)
  {
  }

  lemma ReturnDerived(s: State, u: State, t: nat)
    requires t < |s.stacks| && s.stacks[t] != [] && u.stacks == Return(s, t).stacks
    ensures AllDerived(s, u, t)
  {
  }

  lemma CancelDerived(s: State, t: nat, f: Frame, pick: nat)
    requires Ids(s) && Top(s, t, f) && f.CancelFrame? && CancelStep(s, t, pick).Some?
    ensures AllDerived(s, CancelStep(s, t, pick).value, t)
  {
    hide Above, Closed, AllDerived, CancelCall;
    var u := CancelStep(s, t, pick).value;
    assert FrameIds(s.ctxs, f);
    var n := s.nodes[f.c];
    match f.cpc
    case Entry =>
      if f.err.None? { StillDerived(s, u, t); }
      else { TopDerived(s, u, t, f, f.(cause := if f.cause.None? then f.err else f.cause, cpc := Locked)); }
    case Locked =>
      if n.err.Some? { ReturnDerived(s, u, t); } else { TopDerived(s, u, t, f, f.(cpc := Stored)); }
    case Stored =>
      if n.done == Own(true) || n.done.Shared? {
        StillDerived(s, u, t);
      } else {
        TopDerived(s, u, t, f, f.(cpc := Loop(n.children)));
      }
    case Loop(rest) => LoopDerived(s, t, f, pick);
  }

  lemma LoopDerived(s: State, t: nat, f: Frame, pick: nat)
    requires Ids(s) && Top(s, t, f) && f.CancelFrame? && f.cpc.Loop? && CancelStep(s, t, pick).Some?
    ensures AllDerived(s, CancelStep(s, t, pick).value, t)
  {
    hide Above, Closed, AllDerived;
    var u := CancelStep(s, t, pick).value;
    assert FrameIds(s.ctxs, f);
    var rest := f.cpc.rest;
    if pick in rest {
      CallDerived(s, u, t, f, f.(cpc := Calling(rest, pick)), CancelCall(s.ctxs, pick, false, f.err, f.cause, false));
    } else if f.remove {
      TopDerived(s, u, t, f, RemoveFrame(f.c));
    } else {
      ReturnDerived(s, u, t);
    }
  }

  lemma TimerDerived(s: State, t: nat, f: Frame)
    requires Ids(s) && Top(s, t, f) && f.TimerFrame? && TimerStep(s, t).Some?
    ensures AllDerived(s, TimerStep(s, t).value, t)
  {
    hide Ids, FrameIds, Above, Closed;
  }

  lemma RemoveDerived(s: State, t: nat, f: Frame)
    requires Ids(s) && Top(s, t, f) && (f.RemoveFrame? || f.DeleteFrame?) && RemoveStep(s, t).Some?
    ensures AllDerived(s, RemoveStep(s, t).value, t)
  {
    hide AllDerived, Return;
    assert FrameIds(s.ctxs, f);
    var u := RemoveStep(s, t).value;
    var p := Above(s.ctxs, f.c);
    if f.DeleteFrame? || p.None? || s.nodes[p.value].done.Shared? {
      RemoveReturns(s, t, f);
      ReturnDerived(s, u, t);
    } else {
      TopDerived(s, u, t, f, DeleteFrame(f.c, p.value));
    }
  }

  lemma RemoveReturns(s: State, t: nat, f: Frame)
    requires Ids(s) && Top(s, t, f) && (f.RemoveFrame? || f.DeleteFrame?) && RemoveStep(s, t).Some?
    requires FrameIds(s.ctxs, f)
    requires f.DeleteFrame? || Above(s.ctxs, f.c).None? || s.nodes[Above(s.ctxs, f.c).value].done.Shared?
    ensures RemoveStep(s, t).value.stacks == Return(s, t).stacks
  {
    hide Above;
  }

  lemma LinkStartDerived(s: State, t: nat, f: Frame)
    requires Ids(s) && Top(s, t, f) && f.LinkStart? && LinkStep(s, t).Some?
    ensures AllDerived(s, LinkStep(s, t).value, t)
  {
    hide Ids, FrameIds, Above, Closed;
  }

  lemma LinkCallDerived(s: State, t: nat, f: Frame)
    requires Ids(s) && Top(s, t, f) && f.LinkFrame? && (f.lpc.GetCause? || f.lpc.Check? || f.lpc.Finish?)
    requires LinkStep(s, t).Some?
    ensures AllDerived(s, LinkStep(s, t).value, t)
  {
    hide Ids, FrameIds, Above, Closed;
  }

  lemma LinkDerived(s: State, t: nat, f: Frame)
    requires Ids(s) && Top(s, t, f) && f.LinkFrame? && LinkStep(s, t).Some?
    ensures AllDerived(s, LinkStep(s, t).value, t)
  {
    hide Ids, FrameIds, Above, Closed;
    if f.lpc.GetCause? || f.lpc.Check? || f.lpc.Finish? { LinkCallDerived(s, t, f); }
  }

  lemma ErrDerived(s: State, t: nat, f: Frame)
    requires Ids(s) && Top(s, t, f) && (f.ErrLoad? || f.ErrWait?) && ErrStep(s, t).Some?
    ensures AllDerived(s, ErrStep(s, t).value, t)
  {
    hide Ids, FrameIds, Above, Closed;
  }

  lemma NextDerived(s: State, t: nat, pick: nat)
    requires Ids(s) && Next(s, t, pick).Some?
    ensures AllDerived(s, Next(s, t, pick).value, t)
  {
    hide Ids, AllDerived, CancelStep, LinkStep, TimerStep, RemoveStep, ErrStep;
    var f := s.stacks[t][|s.stacks[t]|-1];
    match f
    case CancelFrame(_, _, _, _, _, _) => CancelDerived(s, t, f, pick);
    case TimerFrame(_, _, _, _, _, _) => TimerDerived(s, t, f);
    case RemoveFrame(_) => RemoveDerived(s, t, f);
    case DeleteFrame(_, _) => RemoveDerived(s, t, f);
    case LinkStart(_) => LinkStartDerived(s, t, f);
    case LinkFrame(_, _, _) => LinkDerived(s, t, f);
    case ErrLoad(_) => ErrDerived(s, t, f);
    case ErrWait(_, _) => ErrDerived(s, t, f);
  }

  lemma GoFramesCalled(run: seq<Action>, s: State, u: State, t: nat)
    requires FramesCalled(run, s) && AllDerived(s, u, t)
    ensures FramesCalled(run, u)
  {
    forall r, i | 0 <= r < |u.stacks| && 0 <= i < |u.stacks[r]|
        && (u.stacks[r][i].CancelFrame? || u.stacks[r][i].TimerFrame?) && u.stacks[r][i].direct
      ensures Called(run, u.stacks[r][i].c, u.stacks[r][i].err, u.stacks[r][i].cause)
    {
      var g := u.stacks[r][i];
      var f := s.stacks[r][if i < |s.stacks[r]| then i else |s.stacks[r]| - 1];
      assert Called(run, f.c, f.err, f.cause);
    }
  }

  /** A cause is set in one place only. */
  predicate CausesFrom(s: State, u: State, f: Frame) {
    && |u.nodes| == |s.nodes|
    && forall c :: 0 <= c < |s.nodes| && u.nodes[c].cause.Some? && s.nodes[c].cause.None? ==>
      && f.CancelFrame? && f.cpc.Stored? && c == f.c
      && u.nodes[c] == s.nodes[c].(cause := f.cause, done := u.nodes[c].done)
  }

  lemma CancelCauses(s: State, t: nat, f: Frame, pick: nat)
    requires Ids(s) && Top(s, t, f) && f.CancelFrame? && CancelStep(s, t, pick).Some? && f.c < |s.nodes|
    ensures CausesFrom(s, CancelStep(s, t, pick).value, f)
  {
    hide Ids, FrameIds, Closed, Return;
    ReturnNodes(s, t, f.c);
  }

  lemma OtherCauses(s: State, t: nat, f: Frame)
    requires Ids(s) && Top(s, t, f) && !f.CancelFrame? && Next(s, t, 0).Some?
    ensures CausesFrom(s, Next(s, t, 0).value, f)
  {
    hide CancelStep, LinkStep;
    if f.LinkStart? || f.LinkFrame? { LinkCauses(s, t, f); }
  }

  lemma LinkCauses(s: State, t: nat, f: Frame)
    requires Ids(s) && Top(s, t, f) && (f.LinkStart? || f.LinkFrame?) && LinkStep(s, t).Some?
    ensures CausesFrom(s, LinkStep(s, t).value, f)
  {
    hide Ids;
    if f.LinkStart? {
      LinkStartCauses(s, t, f);
    } else if f.lpc.Check? || f.lpc.Finish? {
      LinkEndCauses(s, t, f);
    } else {
      LinkOnCauses(s, t, f);
    }
  }

  lemma LinkStartCauses(s: State, t: nat, f: Frame)
    requires Ids(s) && Top(s, t, f) && f.LinkStart? && LinkStep(s, t).Some?
    ensures CausesFrom(s, LinkStep(s, t).value, f)
  {
    hide FrameIds;
    LinkIds(s, f);
  }

  lemma LinkEndCauses(s: State, t: nat, f: Frame)
    requires Ids(s) && Top(s, t, f) && f.LinkFrame? && (f.lpc.Check? || f.lpc.Finish?) && LinkStep(s, t).Some?
    ensures CausesFrom(s, LinkStep(s, t).value, f)
  {
    hide FrameIds, Above;
    LinkIds(s, f);
  }

  lemma LinkOnCauses(s: State, t: nat, f: Frame)
    requires Ids(s) && Top(s, t, f) && f.LinkFrame? && !f.lpc.Check? && !f.lpc.Finish? && LinkStep(s, t).Some?
    ensures CausesFrom(s, LinkStep(s, t).value, f)
  {
    hide FrameIds, Above;
    LinkIds(s, f);
  }

  lemma GoNodesCalled(run: seq<Action>, s: State, t: nat, pick: nat)
    requires Inv(s) && Next(s, t, pick).Some? && FramesCalled(run, s) && NodesCalled(run, s)
    ensures Ids(Next(s, t, pick).value) && NodesCalled(run, Next(s, t, pick).value)
  {
    hide NodesOK, FramesOK, SeenOK, CancelStep, LinkStep, TimerStep, RemoveStep, ErrStep, Called, AllGrow, CausesFrom,
      FramesCalled, FrameIds;
    GoKeeps(s, t, pick);
    var f := s.stacks[t][|s.stacks[t]|-1];
    var u := Next(s, t, pick).value;
    NextGrows(s, t, pick);
    if f.CancelFrame? { CancelFacts(s, t, f); CancelCauses(s, t, f, pick); } else { OtherCauses(s, t, f); }
    NextTree(s, t, pick);
    forall c | 0 <= c < |u.nodes| && Cancelable(u.ctxs[c]) && u.nodes[c].direct && u.nodes[c].cause.Some?
      ensures Called(run, c, u.nodes[c].err, u.nodes[c].cause)
    {
      NodeCalled(run, s, u, t, f, c);
    }
  }

  lemma NodeCalled(run: seq<Action>, s: State, u: State, t: nat, f: Frame, c: nat)
    requires Inv(s) && Top(s, t, f) && AllGrow(s, u) && CausesFrom(s, u, f) && FramesCalled(run, s)
    requires NodesCalled(run, s)
    requires c < |u.nodes| && Cancelable(s.ctxs[c]) && u.nodes[c].direct && u.nodes[c].cause.Some?
    ensures Called(run, c, u.nodes[c].err, u.nodes[c].cause)
  {
    hide SeenOK, Called, TimerOK, LinkOK, FramesOK, NodesOK;
    FrameAt(s, t, |s.stacks[t]| - 1);
    if s.nodes[c].cause.Some? { CauseHasErr(s, c); }
  }

  lemma CauseHasErr(s: State, c: nat)
    requires Inv(s) && c < |s.nodes| && Cancelable(s.ctxs[c]) && s.nodes[c].cause.Some?
    ensures s.nodes[c].err.Some?
  {
    NodeAt(s, c);
  }

  lemma NoneCalled()
    ensures FramesCalled([], START) && NodesCalled([], START)
  {
  }

  lemma {:induction false} RunCalled(run: seq<Action>)
    requires After(run).Some?
    ensures FramesCalled(run, After(run).value) && NodesCalled(run, After(run).value)
  {
    hide Inv, Do, FramesCalled, NodesCalled;
    if run == [] {
      NoneCalled();
    } else {
      var before, a := run[..|run|-1], run[|run|-1];
      assert run == before + [a];
      RunCalled(before);
      DoCalled(before, After(before).value, a);
    }
  }

  lemma DoCalled(run: seq<Action>, s: State, a: Action)
    requires Inv(s) && Do(s, a).Some? && FramesCalled(run, s) && NodesCalled(run, s)
    ensures Ids(Do(s, a).value) && FramesCalled(run + [a], Do(s, a).value) && NodesCalled(run + [a], Do(s, a).value)
  {
    hide NodesOK, FramesOK, SeenOK, Next, Called, AllDerived;
    var u := Do(s, a).value;
    DoKeeps(s, a);
    CalledLonger(run, a);
    if a.Go? {
      NextDerived(s, a.t, a.pick);
      GoFramesCalled(run, s, u, a.t);
      GoNodesCalled(run, s, a.t, a.pick);
    } else if a.CallCancel? {
      CallIsCalled(run, a);
    }
  }

  lemma CallIsCalled(run: seq<Action>, a: Action)
    requires a.CallCancel?
    ensures Called(run + [a], a.c, Some(a.err), a.cause)
  {
    assert (run + [a])[|run|] == a;
  }

  lemma DoPasses(s: State, a: Action)
    requires Ids(s) && a.CallCancel? && Do(s, a).Some?
    ensures a.c < |s.ctxs| && Do(s, a).value.ctxs == s.ctxs && Passes(s.ctxs[a.c], a.err, a.cause)
  {
  }

  /** A cancel is called with what was settled when its context was derived. */
  lemma CallsPass(run: seq<Action>, c: nat, err: Option<Error>, cause: Option<Error>)
    requires After(run).Some? && Called(run, c, err, cause) && cause.Some?
    ensures var s := After(run).value; c < |s.ctxs| && OwnOutcome(s.ctxs[c], Outcome(err, cause))
  {
    hide Inv, Ids, Do, Passes;
    var i :| 0 <= i < |run| && run[i].CallCancel? && run[i].c == c && err == Some(run[i].err)
      && (cause == run[i].cause || (run[i].cause.None? && cause == err));
    var front, more := run[..i+1], run[i+1..];
    assert front + more == run && front[..|front|-1] == run[..i];
    WrittenOnce(front, more);
    InvIds(After(run[..i]).value);
    DoPasses(After(run[..i]).value, run[i]);
  }

  /**
    A canceled context's error and cause are the arguments of a cancel called on it or on a context above it, and
    such as the context called can end with.
   */
  lemma CauseCalled(run: seq<Action>, c: nat) returns (a: nat)
    requires After(run).Some? && var s := After(run).value;
      c < |s.ctxs| && Cancelable(s.ctxs[c]) && s.nodes[c].cause.Some?
    ensures var s := After(run).value; DerivedFrom(s.ctxs, c, a) && Called(run, a, s.nodes[c].err, s.nodes[c].cause)
    ensures var s := After(run).value; a < |s.ctxs| && OwnOutcome(s.ctxs[a], Outcome(s.nodes[c].err, s.nodes[c].cause))
  {
    a := CauseFromAbove(After(run).value, c);
    RunCalled(run);
    UnderIsCancel(After(run).value.ctxs, c, a);
    UnderIs(After(run).value.ctxs, c, a);
    CallsPass(run, a, After(run).value.nodes[c].err, After(run).value.nodes[c].cause);
  }

  lemma OwnOrAbove(run: seq<Action>, c: nat)
    requires After(run).Some?
    requires var s := After(run).value; c < |s.ctxs| && Cancelable(s.ctxs[c]) && s.nodes[c].cause.Some?
    ensures var s := After(run).value; var p := Above(s.ctxs, c);
      || Called(run, c, s.nodes[c].err, s.nodes[c].cause)
      || (p.Some? && s.nodes[c].err == s.nodes[p.value].err && s.nodes[c].cause == s.nodes[p.value].cause)
  {
    hide FramesOK, SeenOK;
    RunCalled(run);
    NodeAt(After(run).value, c);
  }

  /** A canceled context has the error and cause of a cancel called on it, or those of the cancelCtx above it. */
  lemma OwnOrParents(run: seq<Action>, c: nat)
    requires After(run).Some?
    requires var s := After(run).value; c < |s.ctxs| && Cancelable(s.ctxs[c]) && s.nodes[c].cause.Some?
    ensures var s := After(run).value;
      || Called(run, c, s.nodes[c].err, s.nodes[c].cause)
      || exists p ::
           && 0 <= p < |s.nodes| && FedBy(s.ctxs, c, p)
           && s.nodes[c].err == s.nodes[p].err && s.nodes[c].cause == s.nodes[p].cause
  {
    hide NodesOK, FramesOK, SeenOK, Called;
    OwnOrAbove(run, c);
    var s := After(run).value;
    if Above(s.ctxs, c).Some? { AboveIs(s.ctxs, c, Above(s.ctxs, c).value); }
  }

  /**
    A context that is canceled before any cancel is called on it has the error and cause of the cancelCtx above it for
    good, whatever is called later.
   */
  lemma TakesParents(run: seq<Action>, more: seq<Action>, c: nat) returns (p: nat)
    requires After(run + more).Some? && After(run).Some?
    requires var s := After(run).value; c < |s.ctxs| && Cancelable(s.ctxs[c]) && s.nodes[c].cause.Some?
    requires forall i :: 0 <= i < |run| && run[i].CallCancel? ==> run[i].c != c
    ensures var s, u := After(run).value, After(run + more).value;
      && FedBy(s.ctxs, c, p) && p < |u.nodes| && c < |u.nodes| && s.ctxs <= u.ctxs
      && u.nodes[c].cause.Some? && u.nodes[c].err == u.nodes[p].err && u.nodes[c].cause == u.nodes[p].cause
  {
    hide FramesOK, SeenOK, Above;
    OwnOrAbove(run, c);
    WrittenOnce(run, more);
    var s, u := After(run).value, After(run + more).value;
    p := Above(s.ctxs, c).value;
    AboveIs(s.ctxs, c, p);
    NodeAt(s, c);
    assert Grows(s.nodes[c], u.nodes[c]) && Grows(s.nodes[p], u.nodes[p]);
  }
}
