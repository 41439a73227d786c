/** Canceled contexts are let go: no live context keeps one among its children when the calls have returned. */
module ContextLeaks {
  import opened Options
  import opened ContextTree
  import opened ContextChain
  import opened ContextCancel
  import opened ContextSafety
  import opened ContextSteps
  import opened ContextRuns
  import opened ContextResults
  import opened ContextEnds

  // ---------------------------------------------------------------- what a step does to stacks and nodes

  /** What becomes of the running frame: it stays, moves on, calls, or returns. */
  datatype Effect = Stay | To(g: Frame) | Into(g: Frame, h: Frame) | Back

  function Stacked(st: seq<Frame>, e: Effect): seq<Frame>
    requires st != []
  {
    var front := st[..|st|-1];
    match e
    case Stay => st
    case To(g) => front + [g]
    case Into(g, h) => front + [g, h]
    case Back => if front == [] then [] else front[..|front|-1] + [Resume(front[|front|-1])]
  }

  predicate Did(s: State, u: State, t: nat, e: Effect) {
    t < |s.stacks| && s.stacks[t] != [] && u.ctxs == s.ctxs && u.stacks == s.stacks[t := Stacked(s.stacks[t], e)]
  }

  /** A call that does not take its context from its parent. */
  predicate Passed(h: Frame, c: nat) { (h.CancelFrame? || h.TimerFrame?) && !h.direct && h.c == c }

  /** The steps of each kind of call. */
  predicate Legal(f: Frame, e: Effect) {
    match f
    case CancelFrame(c, remove, _, _, _, pc) =>
      (match pc
       case Entry => e.To? && e.g.CancelFrame? && e.g == f.(cpc := Locked, cause := e.g.cause)
       case Locked => e.Back? || e == To(f.(cpc := Stored))
       case Stored => e.To? && e.g.CancelFrame? && e.g.cpc.Loop? && e.g == f.(cpc := e.g.cpc)
       case Loop(rest) =>
         || (e.Into? && e.g.CancelFrame? && e.g.cpc.Calling? && e.g == f.(cpc := e.g.cpc)
             && e.g.cpc.k in rest && Passed(e.h, e.g.cpc.k))
         || (if remove then e == To(RemoveFrame(c)) else e.Back?)
       case Calling(_, _) => false)
    case TimerFrame(c, remove, err, cause, direct, pc) =>
      (match pc
       case TEntry => e == Into(f.(tpc := TCalling), CancelFrame(c, false, err, cause, direct, Entry))
       case TRemove => e == if remove then Into(f.(tpc := TRemoving), RemoveFrame(c)) else To(f.(tpc := TStop))
       case TStop => e.Back?
       case _ => false)
    case RemoveFrame(c) => e.Back? || (e.To? && e.g.DeleteFrame? && e.g.c == c)
    case DeleteFrame(_, _) => e.Back?
    case LinkStart(c) => e.Back? || (e.To? && e.g.LinkFrame? && e.g.c == c && e.g.lpc.Select?)
    case LinkFrame(c, p, pc) =>
      if pc.Finish? then e.Back?
      else
        !pc.Canceling? && (
        || (e.To? && e.g.LinkFrame? && e.g.c == c && !e.g.lpc.Canceling? && (e.g.lpc.Finish? ==> pc.Check?))
        || (e.Into? && e.g.LinkFrame? && e.g.c == c && e.g.lpc.Canceling? && Passed(e.h, c)))
    case ErrLoad(_) => e.Back? || (e.To? && e.g.ErrWait?)
    case ErrWait(_, _) => e.Stay? || e.Back?
  }

  /** Only the cancel that holds the mutex sets an error, only propagateCancel adds a child, and as a linked one. */
  predicate NodesMove(s: State, u: State, f: Frame, e: Effect) {
    && |u.nodes| == |s.nodes| && f.c < |s.nodes|
    && (forall c :: 0 <= c < |s.nodes| ==>
          && (u.nodes[c].err != s.nodes[c].err ==>
                c == f.c && f.CancelFrame? && f.cpc.Locked? && s.nodes[c].err.None? && e.To?)
          && (s.nodes[c].linked ==> u.nodes[c].linked)
          && (u.nodes[c].linked != s.nodes[c].linked ==>
                c == f.c && LinkCall(f) && (e.Back? || (e.To? && e.g.LinkFrame? && e.g.lpc.Finish?)))
          && (forall k :: k in u.nodes[c].children && k !in s.nodes[c].children ==>
                f.LinkFrame? && f.lpc.Check? && k == f.c && u.nodes[k].linked))
    && (f.DeleteFrame? ==> f.p < |s.nodes| && f.c !in u.nodes[f.p].children)
  }

  lemma DidTo(s: State, w: State, t: nat, g: Frame)
    requires t < |s.stacks| && s.stacks[t] != [] && w.stacks == s.stacks && w.ctxs == s.ctxs
    ensures Did(s, SetTop(w, t, g), t, To(g))
  {
  }

  lemma DidInto(s: State, t: nat, g: Frame, h: Frame)
    requires t < |s.stacks| && s.stacks[t] != []
    ensures Did(s, Call(s, t, g, h), t, Into(g, h))
  {
  }

  lemma DidBack(s: State, w: State, t: nat)
    requires t < |s.stacks| && s.stacks[t] != [] && w.stacks == s.stacks && w.ctxs == s.ctxs
    ensures Did(s, Return(w, t), t, Back) && Return(w, t).nodes == w.nodes
  {
    hide Resume;
  }

  lemma CancelEffect(s: State, t: nat, f: Frame, pick: nat) returns (e: Effect)
    requires Inv(s) && Top(s, t, f) && f.CancelFrame? && CancelStep(s, t, pick).Some?
    ensures var u := CancelStep(s, t, pick).value; Did(s, u, t, e) && Legal(f, e) && NodesMove(s, u, f, e)
  {
    hide Inv, Ids, Did, Legal, NodesMove, CancelStep;
    InvIds(s);
    CancelFacts(s, t, f);
    match f.cpc
    case Entry => e := EntryEffect(s, t, f, pick);
    case Locked => e := LockedEffect(s, t, f, pick);
    case Stored => e := StoredEffect(s, t, f, pick);
    case Loop(_) => e := LoopEffect(s, t, f, pick);
    case Calling(_, _) => NeverCalling(s, t, f, pick);
  }

  lemma NeverCalling(s: State, t: nat, f: Frame, pick: nat)
    requires Ids(s) && Top(s, t, f) && f.CancelFrame? && f.cpc.Calling?
    ensures CancelStep(s, t, pick).None?
  {
  }

  lemma EntryEffect(s: State, t: nat, f: Frame, pick: nat) returns (e: Effect)
    requires Inv(s) && Top(s, t, f) && f.CancelFrame? && f.cpc.Entry? && CancelStep(s, t, pick).Some?
    ensures var u := CancelStep(s, t, pick).value; Did(s, u, t, e) && Legal(f, e) && NodesMove(s, u, f, e)
  {
    hide NodesOK, SeenOK, FramesOK, CancelOK, Inherited, Did, Ids, FrameIds;
    FrameAt(s, t, |s.stacks[t]| - 1);
    CancelFacts(s, t, f);
    var g := f.(cause := if f.cause.None? then f.err else f.cause, cpc := Locked);
    e := To(g);
    DidTo(s, SetNode(s, f.c, s.nodes[f.c].(lock := Some(Holder(t, |s.stacks[t]| - 1)))), t, g);
  }

  lemma LockedEffect(s: State, t: nat, f: Frame, pick: nat) returns (e: Effect)
    requires Inv(s) && Top(s, t, f) && f.CancelFrame? && f.cpc.Locked? && CancelStep(s, t, pick).Some?
    ensures var u := CancelStep(s, t, pick).value; Did(s, u, t, e) && Legal(f, e) && NodesMove(s, u, f, e)
  {
    hide NodesOK, SeenOK, FramesOK, Did, Ids, Resume;
    CancelFacts(s, t, f);
    var n := s.nodes[f.c];
    if n.err.Some? {
      e := Back;
      DidBack(s, SetNode(s, f.c, n.(lock := None)), t);
    } else {
      e := To(f.(cpc := Stored));
      DidTo(s, SetNode(s, f.c, n.(err := f.err, direct := f.direct)), t, f.(cpc := Stored));
    }
  }

  lemma StoredEffect(s: State, t: nat, f: Frame, pick: nat) returns (e: Effect)
    requires Inv(s) && Top(s, t, f) && f.CancelFrame? && f.cpc.Stored? && CancelStep(s, t, pick).Some?
    ensures var u := CancelStep(s, t, pick).value; Did(s, u, t, e) && Legal(f, e) && NodesMove(s, u, f, e)
  {
    hide NodesOK, SeenOK, FramesOK, Did;
    CancelFacts(s, t, f);
    assert FrameIds(s.ctxs, f);
    NotClosed(s, f.c);
    var n := s.nodes[f.c];
    e := To(f.(cpc := Loop(n.children)));
    DidTo(s, SetNode(s, f.c, n.(cause := f.cause, done := if n.done.Unmade? then Shared else Own(true))), t, e.g);
  }

  lemma NotClosed(s: State, c: nat)
    requires Inv(s) && c < |s.nodes| && Cancelable(s.ctxs[c]) && s.nodes[c].cause.None?
    ensures !Closed(s.nodes[c].done)
  {
    NodeAt(s, c);
  }

  lemma LoopEffect(s: State, t: nat, f: Frame, pick: nat) returns (e: Effect)
    requires Inv(s) && Top(s, t, f) && f.CancelFrame? && f.cpc.Loop? && CancelStep(s, t, pick).Some? && f.c < |s.nodes|
    ensures var u := CancelStep(s, t, pick).value; Did(s, u, t, e) && Legal(f, e) && NodesMove(s, u, f, e)
  {
    hide NodesOK, SeenOK, FramesOK, TimerOK, LinkOK, Inherited, Above, Resume, Did;
    assert FrameIds(s.ctxs, f);
    var n, rest := s.nodes[f.c], f.cpc.rest;
    if pick in rest {
      var g, h := f.(cpc := Calling(rest, pick)), CancelCall(s.ctxs, pick, false, f.err, f.cause, false);
      e := Into(g, h);
      DidInto(s, t, g, h);
    } else {
      var w := SetNode(s, f.c, n.(children := {}, lock := None));
      e := if f.remove then To(RemoveFrame(f.c)) else Back;
      if f.remove { DidTo(s, w, t, RemoveFrame(f.c)); } else { DidBack(s, w, t); }
    }
  }

  lemma TimerEffect(s: State, t: nat, f: Frame) returns (e: Effect)
    requires Ids(s) && Top(s, t, f) && f.TimerFrame? && TimerStep(s, t).Some?
    ensures var u := TimerStep(s, t).value; Did(s, u, t, e) && Legal(f, e) && NodesMove(s, u, f, e)
  {
    hide Above, Resume, Did;
    assert FrameIds(s.ctxs, f);
    if f.tpc.TEntry? {
      var g, h := f.(tpc := TCalling), CancelFrame(f.c, false, f.err, f.cause, f.direct, Entry);
      e := Into(g, h);
      DidInto(s, t, g, h);
    } else if f.tpc.TRemove? && f.remove {
      e := Into(f.(tpc := TRemoving), RemoveFrame(f.c));
      DidInto(s, t, f.(tpc := TRemoving), RemoveFrame(f.c));
    } else if f.tpc.TRemove? {
      e := To(f.(tpc := TStop));
      DidTo(s, s, t, f.(tpc := TStop));
    } else {
      e := Back;
      DidBack(s, s, t);
    }
  }

  /** Where removeChild takes nothing away there is nothing to be taken away. */
  lemma RemoveEffect(s: State, t: nat, f: Frame) returns (e: Effect)
    requires Inv(s) && Top(s, t, f) && (f.RemoveFrame? || f.DeleteFrame?) && RemoveStep(s, t).Some?
    ensures var u := RemoveStep(s, t).value; Did(s, u, t, e) && Legal(f, e) && NodesMove(s, u, f, e)
    ensures f.c < |s.ctxs| && Cancelable(s.ctxs[f.c])
    ensures f.RemoveFrame? && e.Back? && Above(s.ctxs, f.c).Some? ==> s.nodes[Above(s.ctxs, f.c).value].done.Shared?
    ensures f.DeleteFrame? ==> Above(s.ctxs, f.c) == Some(f.p)
  {
    hide NodesOK, SeenOK, FramesOK, TimerOK, LinkOK, CancelOK, Inherited, Above, Resume, Did;
    assert FrameIds(s.ctxs, f);
    if f.DeleteFrame? {
      var n := s.nodes[f.p];
      e := Back;
      DidBack(s, SetNode(s, f.p, n.(children := n.children - {f.c})), t);
    } else {
      var p := Above(s.ctxs, f.c);
      if p.None? || s.nodes[p.value].done.Shared? {
        e := Back;
        DidBack(s, s, t);
      } else {
        var n := s.nodes[p.value];
        e := To(DeleteFrame(f.c, p.value));
        DidTo(s, if n.done.Unmade? then SetNode(s, p.value, n.(done := Own(false))) else s, t, e.g);
      }
    }
  }

  lemma LinkStartEffect(s: State, t: nat, f: Frame) returns (e: Effect)
    requires Ids(s) && Top(s, t, f) && f.LinkStart? && LinkStep(s, t).Some?
    ensures var u := LinkStep(s, t).value; Did(s, u, t, e) && Legal(f, e) && NodesMove(s, u, f, e)
  {
    hide Above, Resume, Did;
    assert FrameIds(s.ctxs, f);
    var p := Above(s.ctxs, f.c);
    if p.None? {
      e := Back;
      DidBack(s, SetNode(s, f.c, s.nodes[f.c].(linked := true)), t);
    } else {
      var n, g := s.nodes[p.value], LinkFrame(f.c, p.value, Select);
      e := To(g);
      DidTo(s, if n.done.Unmade? then SetNode(s, p.value, n.(done := Own(false))) else s, t, g);
    }
  }

  lemma LinkEffect(s: State, t: nat, f: Frame) returns (e: Effect)
    requires Ids(s) && Top(s, t, f) && f.LinkFrame? && LinkStep(s, t).Some?
    ensures var u := LinkStep(s, t).value; Did(s, u, t, e) && Legal(f, e) && NodesMove(s, u, f, e)
  {
    hide Ids, Did, Legal, NodesMove, FrameIds;
    LinkIds(s, f) by { FrameIdsAt(s, t, f); }
    if f.lpc.Check? {
      e := CheckEffect(s, t, f);
    } else if f.lpc.Finish? || f.lpc.Lock? {
      e := LinkLockEffect(s, t, f);
    } else {
      e := LinkShiftEffect(s, t, f);
    }
  }

  lemma FrameIdsAt(s: State, t: nat, f: Frame)
    requires Ids(s) && Top(s, t, f)
    ensures FrameIds(s.ctxs, f)
  {
  }

  lemma LinkLockEffect(s: State, t: nat, f: Frame) returns (e: Effect)
    requires Ids(s) && Top(s, t, f) && f.LinkFrame? && (f.lpc.Finish? || f.lpc.Lock?) && LinkStep(s, t).Some?
    requires f.p < f.c < |s.nodes|
    ensures var u := LinkStep(s, t).value; Did(s, u, t, e) && Legal(f, e) && NodesMove(s, u, f, e)
  {
    hide Above, Resume, Did;
    var c, p, n := f.c, f.p, s.nodes[f.p];
    if f.lpc.Lock? {
      e := To(LinkFrame(c, p, Check));
      DidTo(s, SetNode(s, p, n.(lock := Some(Holder(t, |s.stacks[t]| - 1)))), t, e.g);
    } else {
      e := Back;
      var w := if f.lpc.held then SetNode(s, p, n.(lock := None)) else s;
      DidBack(s, SetNode(w, c, w.nodes[c].(linked := true)), t);
    }
  }

  lemma LinkShiftEffect(s: State, t: nat, f: Frame) returns (e: Effect)
    requires Ids(s) && Top(s, t, f) && f.LinkFrame? && !f.lpc.Finish? && !f.lpc.Lock? && !f.lpc.Check?
    requires LinkStep(s, t).Some? && f.p < f.c < |s.nodes|
    ensures var u := LinkStep(s, t).value; Did(s, u, t, e) && Legal(f, e) && NodesMove(s, u, f, e)
  {
    hide Above, Did, CancelCall;
    var c, p, n := f.c, f.p, s.nodes[f.p];
    if f.lpc.GetCause? {
      var cause := if n.cause.Some? then n.cause else n.err;
      e := Into(LinkFrame(c, p, Canceling(false)), CancelCall(s.ctxs, c, false, f.lpc.err, cause, false));
      CallPassed(s.ctxs, c, f.lpc.err, cause);
      DidInto(s, t, e.g, e.h);
    } else {
      e := To(LinkFrame(c, p,
        if f.lpc.Select? then (if Closed(n.done) then GetErr else Find)
        else if f.lpc.GetErr? then GetCause(n.err)
        else if n.done.Shared? then Watch else LinkPc.Lock));
      DidTo(s, s, t, e.g);
    }
  }

  lemma CallPassed(cs: seq<Ctx>, c: nat, err: Option<Error>, cause: Option<Error>)
    requires c < |cs|
    ensures Passed(CancelCall(cs, c, false, err, cause, false), c)
  {
  }

  lemma CheckEffect(s: State, t: nat, f: Frame) returns (e: Effect)
    requires Ids(s) && Top(s, t, f) && f.LinkFrame? && f.lpc.Check? && LinkStep(s, t).Some? && f.c < |s.nodes|
    requires f.p < f.c
    ensures var u := LinkStep(s, t).value; Did(s, u, t, e) && Legal(f, e) && NodesMove(s, u, f, e)
  {
    hide Above, Resume, Did, CancelCall;
    var c, p, n := f.c, f.p, s.nodes[f.p];
    if n.err.Some? {
      e := Into(LinkFrame(c, p, Canceling(true)), CancelCall(s.ctxs, c, false, n.err, n.cause, false));
      CallPassed(s.ctxs, c, n.err, n.cause);
      DidInto(s, t, e.g, e.h);
    } else {
      var w := SetNode(s, p, n.(children := n.children + {c}));
      e := To(LinkFrame(c, p, Finish(true)));
      DidTo(s, SetNode(w, c, w.nodes[c].(linked := true)), t, e.g);
    }
  }

  lemma ErrEffect(s: State, t: nat, f: Frame) returns (e: Effect)
    requires Ids(s) && Top(s, t, f) && (f.ErrLoad? || f.ErrWait?) && ErrStep(s, t).Some?
    ensures var u := ErrStep(s, t).value; Did(s, u, t, e) && Legal(f, e) && NodesMove(s, u, f, e)
  {
    hide Above, Resume;
    assert FrameIds(s.ctxs, f);
    var n := s.nodes[f.c];
    match f
    case ErrLoad(c) =>
      if n.err.Some? {
        e := To(ErrWait(c, n.err.value));
        DidTo(s, s, t, e.g);
      } else {
        e := Back;
        DidBack(s, s, t);
      }
    case ErrWait(c, x) =>
      e := if Closed(n.done) then Back else Stay;
      if Closed(n.done) { DidBack(s, s.(seen := s.seen + {(c, x)}), t); }
  }
  lemma NextEffect(s: State, t: nat, f: Frame, pick: nat) returns (e: Effect)
    requires Inv(s) && Top(s, t, f) && Next(s, t, pick).Some?
    ensures var u := Next(s, t, pick).value; Did(s, u, t, e) && Legal(f, e) && NodesMove(s, u, f, e)
    ensures f.RemoveFrame? || f.DeleteFrame? ==> f.c < |s.ctxs| && Cancelable(s.ctxs[f.c])
    ensures f.RemoveFrame? && e.Back? && Above(s.ctxs, f.c).Some? ==> s.nodes[Above(s.ctxs, f.c).value].done.Shared?
    ensures f.DeleteFrame? ==> Above(s.ctxs, f.c) == Some(f.p)
  {
    hide Inv, Ids, Did, Legal, NodesMove, CancelStep, LinkStep, TimerStep, RemoveStep, ErrStep, Above;
    InvIds(s);
    match f
    case CancelFrame(_, _, _, _, _, _) => e := CancelEffect(s, t, f, pick);
    case TimerFrame(_, _, _, _, _, _) => e := TimerEffect(s, t, f);
    case RemoveFrame(_) => e := RemoveEffect(s, t, f);
    case DeleteFrame(_, _) => e := RemoveEffect(s, t, f);
    case LinkStart(_) => e := LinkStartEffect(s, t, f);
    case LinkFrame(_, _, _) => e := LinkEffect(s, t, f);
    case ErrLoad(_) => e := ErrEffect(s, t, f);
    case ErrWait(_, _) => e := ErrEffect(s, t, f);
  }

  // ---------------------------------------------------------------- what is kept

  /** The call cancels a context that its caller has just derived. */
  predicate Links(f: Frame, c: nat) { f.LinkFrame? && f.c == c && f.lpc.Canceling? }

  /** propagateCancel of `c` before it has found the parent canceled or registered `c`. */
  predicate Early(f: Frame, c: nat) {
    f.c == c && (f.LinkStart? || (f.LinkFrame? && !f.lpc.Canceling? && !f.lpc.Finish?))
  }

  predicate LinkCall(f: Frame) { f.LinkStart? || f.LinkFrame? }

  /** The cancel of a context its caller has, or of one being derived; a direct one is to let go of it afterwards. */
  predicate CallTidy(ns: seq<Node>, st: seq<Frame>, i: nat)
    requires i < |st|
  {
    var f := st[i];
    f.CancelFrame? || f.TimerFrame? ==>
      && f.c < |ns| && (ns[f.c].linked || Links(st[0], f.c))
      && (f.direct ==>
            || (i == 0 && f.remove)
            || (i == 1 && f.CancelFrame? && st[0].TimerFrame? && st[0].c == f.c && st[0].remove))
  }

  predicate StackTidy(ns: seq<Node>, st: seq<Frame>) { forall i :: 0 <= i < |st| ==> CallTidy(ns, st, i) }

  /** What `f`, at the bottom of its stack, has yet to take from the parent's children. */
  predicate LetsGo(f: Frame, k: nat) {
    && f.c == k
    && (|| (f.CancelFrame? && f.remove && !f.cpc.Entry? && !f.cpc.Locked?)
        || (f.TimerFrame? && f.remove && !f.tpc.TStop?)
        || f.RemoveFrame? || f.DeleteFrame?)
  }

  ghost predicate LettingGo(s: State, k: nat) {
    exists t :: 0 <= t < |s.stacks| && s.stacks[t] != [] && LetsGo(s.stacks[t][0], k)
  }

  ghost predicate Stacks(s: State) {
    && (forall t :: 0 <= t < |s.stacks| ==> StackTidy(s.nodes, s.stacks[t]))
    && (forall t :: 0 <= t < |s.stacks| && s.stacks[t] != [] && LinkCall(s.stacks[t][0]) ==>
          s.stacks[t][0].c < |s.nodes|)
    && (forall t, c: nat :: 0 <= t < |s.stacks| && s.stacks[t] != [] && c < |s.nodes| && Early(s.stacks[t][0], c) ==>
          s.nodes[c].err.None? && !s.nodes[c].linked)
    && (forall t, r ::
          && 0 <= t < r < |s.stacks| && s.stacks[t] != [] && s.stacks[r] != []
          && LinkCall(s.stacks[t][0]) && LinkCall(s.stacks[r][0]) ==>
            s.stacks[t][0].c != s.stacks[r][0].c)
  }

  /** A child is linked; one that is canceled while its parent is not is about to be let go. */
  ghost predicate ChildOK(s: State, p: nat, k: nat) {
    && p < |s.nodes| && k < |s.nodes| && s.nodes[k].linked
    && (s.nodes[p].err.None? && s.nodes[k].err.Some? ==> LettingGo(s, k))
  }

  ghost predicate Children(s: State)
    requires Ids(s)
  {
    forall p: nat, k: nat :: p < |s.nodes| && Cancelable(s.ctxs[p]) && k in s.nodes[p].children ==> ChildOK(s, p, k)
  }

  // ---------------------------------------------------------------- stacks

  lemma TidyLater(ns: seq<Node>, ms: seq<Node>, st: seq<Frame>)
    requires StackTidy(ns, st) && |ns| == |ms| && forall c :: 0 <= c < |ns| && ns[c].linked ==> ms[c].linked
    ensures StackTidy(ms, st)
  {
    forall i | 0 <= i < |st| ensures CallTidy(ms, st, i) { assert CallTidy(ns, st, i); }
  }

  /** The stack that moved. */
  lemma TidyMoved(ns: seq<Node>, ms: seq<Node>, st: seq<Frame>, e: Effect)
    requires st != [] && StackTidy(ns, st) && Legal(st[|st|-1], e)
    requires |ns| == |ms| && forall c :: 0 <= c < |ns| && ns[c].linked ==> ms[c].linked
    requires forall i :: 0 < i < |st| ==> !LinkCall(st[i])
    requires e.Into? && !st[|st|-1].TimerFrame? ==> e.h.c < |ns| && (ns[e.h.c].linked || Links(e.g, e.h.c))
    ensures StackTidy(ms, Stacked(st, e))
  {
    var f, last := st[|st|-1], |st| - 1;
    var w := Stacked(st, e);
    assert CallTidy(ns, st, last) && CallTidy(ns, st, 0);
    forall i | 0 <= i < |w| ensures CallTidy(ms, w, i) {
      if i < |st| { assert CallTidy(ns, st, i); }
    }
  }
  /** The bottom of the stack that moved. */
  lemma BottomMoved(st: seq<Frame>, e: Effect)
    requires st != [] && Legal(st[|st|-1], e) && Stacked(st, e) != []
    ensures var b, d := st[0], Stacked(st, e)[0];
      && (LinkCall(d) ==> LinkCall(b) && d.c == b.c)
      && (forall c: nat :: Early(d, c) ==> Early(b, c))
  {
  }

  lemma BottomLinks(s: State, t: nat, f: Frame)
    requires Inv(s) && Top(s, t, f)
    ensures LinkCall(f) ==> |s.stacks[t]| == 1
    ensures forall i :: 0 < i < |s.stacks[t]| ==> !LinkCall(s.stacks[t][i])
  {
    hide NodesOK, SeenOK, CancelOK, TimerOK;
    forall i | 0 < i < |s.stacks[t]| ensures !LinkCall(s.stacks[t][i]) { FrameAt(s, t, i); }
    FrameAt(s, t, |s.stacks[t]| - 1);
  }

  /** The context a call passes a cancel on to is linked, or being derived. */
  lemma IntoLinked(s: State, t: nat, f: Frame, e: Effect)
    requires Inv(s) && Children(s) && Top(s, t, f) && Legal(f, e) && e.Into? && !f.TimerFrame?
    ensures e.h.c < |s.nodes| && (s.nodes[e.h.c].linked || Links(e.g, e.h.c))
  {
    hide NodesOK, SeenOK, LinkOK, TimerOK, LettingGo;
    FrameAt(s, t, |s.stacks[t]| - 1);
    LinkIds(s, f);
    assert f.CancelFrame? ==> e.h.c in s.nodes[f.c].children;
  }

  lemma StacksGo(s: State, u: State, t: nat, f: Frame, e: Effect)
    requires Inv(s) && Stacks(s) && Children(s) && Top(s, t, f) && Did(s, u, t, e) && Legal(f, e)
    requires NodesMove(s, u, f, e)
    ensures Stacks(u)
  {
    hide Inv, Children, Legal, StackTidy;
    BottomLinks(s, t, f);
    if e.Into? && !f.TimerFrame? { IntoLinked(s, t, f, e); }
    forall r | 0 <= r < |u.stacks| ensures StackTidy(u.nodes, u.stacks[r]) {
      if r == t {
        TidyMoved(s.nodes, u.nodes, s.stacks[t], e);
      } else {
        TidyLater(s.nodes, u.nodes, s.stacks[r]);
      }
    }
    if u.stacks[t] != [] { BottomMoved(s.stacks[t], e); }
    forall r, c: nat | 0 <= r < |u.stacks| && u.stacks[r] != [] && c < |u.nodes| && Early(u.stacks[r][0], c)
      ensures u.nodes[c].err.None? && !u.nodes[c].linked
    {
      assert Early(s.stacks[r][0], c);
      EarlyStays(s, u, t, f, e, r, c);
    }
  }

  /** While `c` is being derived, nobody else links or cancels it. */
  lemma EarlyStays(s: State, u: State, t: nat, f: Frame, e: Effect, r: nat, c: nat)
    requires Stacks(s) && Top(s, t, f) && Did(s, u, t, e) && NodesMove(s, u, f, e)
    requires LinkCall(f) ==> |s.stacks[t]| == 1
    requires r < |u.stacks| && s.stacks[r] != [] && c < |s.nodes| && Early(s.stacks[r][0], c)
    requires u.stacks[r] != [] && Early(u.stacks[r][0], c)
    ensures u.nodes[c].err.None? && !u.nodes[c].linked
  {
    assert CallTidy(s.nodes, s.stacks[t], |s.stacks[t]| - 1);
    assert LinkCall(s.stacks[r][0]);
  }

  // ---------------------------------------------------------------- children

  /** Who is letting go of `k` still is, unless it has just done so. */
  lemma BottomLets(st: seq<Frame>, e: Effect, k: nat)
    requires st != [] && Legal(st[|st|-1], e) && LetsGo(st[0], k)
    requires st[0].TimerFrame? && st[0].tpc.TRemoving? ==>
      |st| == 2 && (st[1].RemoveFrame? || st[1].DeleteFrame?) && st[1].c == k
    requires st[0].TimerFrame? && |st| > 1 ==> st[0].tpc.TCalling? || st[0].tpc.TRemoving?
    requires st[0].CancelFrame? && |st| > 1 ==> st[0].cpc.Calling?
    ensures
      || (Stacked(st, e) != [] && LetsGo(Stacked(st, e)[0], k))
      || (e.Back? && (st[|st|-1].RemoveFrame? || st[|st|-1].DeleteFrame?) && st[|st|-1].c == k)
  {
  }
  /** Where the frames of `t` are that let go of `k`. */
  lemma LetsAt(s: State, t: nat, k: nat)
    requires Inv(s) && t < |s.stacks| && s.stacks[t] != [] && LetsGo(s.stacks[t][0], k)
    ensures var st := s.stacks[t];
      && (st[0].TimerFrame? && st[0].tpc.TRemoving? ==>
            |st| == 2 && (st[1].RemoveFrame? || st[1].DeleteFrame?) && st[1].c == k)
      && (st[0].TimerFrame? && |st| > 1 ==> st[0].tpc.TCalling? || st[0].tpc.TRemoving?)
      && (st[0].CancelFrame? && |st| > 1 ==> st[0].cpc.Calling?)
  {
    hide NodesOK, SeenOK, LinkOK, Inherited;
    FrameAt(s, t, 0);
    if |s.stacks[t]| > 1 { FrameAt(s, t, 1); }
  }

  /** A live parent keeps `k` only while somebody is letting go of it. */
  lemma LetsOn(s: State, u: State, t: nat, f: Frame, e: Effect, p: nat, k: nat)
    requires Inv(s) && Top(s, t, f) && Did(s, u, t, e) && Legal(f, e) && NodesMove(s, u, f, e)
    requires p < |s.nodes| && Cancelable(s.ctxs[p]) && k in s.nodes[p].children && k in u.nodes[p].children
    requires u.nodes[p].err.None?
    requires f.RemoveFrame? && e.Back? && f.c < |s.ctxs| && Cancelable(s.ctxs[f.c]) && Above(s.ctxs, f.c).Some? ==>
      s.nodes[Above(s.ctxs, f.c).value].done.Shared?
    requires f.DeleteFrame? ==> f.c < |s.ctxs| && Cancelable(s.ctxs[f.c]) && Above(s.ctxs, f.c) == Some(f.p)
    requires LettingGo(s, k)
    ensures LettingGo(u, k)
  {
    hide Ids, FramesOK, NodesOK, SeenOK, Legal, Stacked;
    var r :| 0 <= r < |s.stacks| && s.stacks[r] != [] && LetsGo(s.stacks[r][0], k);
    if r == t {
      LetsAt(s, t, k);
      BottomLets(s.stacks[t], e, k);
      ChildOfLive(s, p, k);
      assert !(e.Back? && (f.RemoveFrame? || f.DeleteFrame?) && f.c == k);
      assert u.stacks[t] != [] && LetsGo(u.stacks[t][0], k);
    } else {
      assert u.stacks[r] == s.stacks[r];
    }
  }

  lemma ChildOfLive(s: State, p: nat, k: nat)
    requires Inv(s) && p < |s.nodes| && Cancelable(s.ctxs[p]) && k in s.nodes[p].children
    ensures k < |s.ctxs| && Cancelable(s.ctxs[k]) && Above(s.ctxs, k) == Some(p)
    ensures s.nodes[p].err.None? ==> !s.nodes[p].done.Shared?
  {
    hide FramesOK, SeenOK;
    NodeAt(s, p);
  }
  /** A cancel that has just set an error of its own lets go of its context when it is done. */
  lemma LetsBegin(s: State, u: State, t: nat, f: Frame, e: Effect, p: nat)
    requires Inv(s) && Stacks(s) && Top(s, t, f) && Did(s, u, t, e) && Legal(f, e) && NodesMove(s, u, f, e)
    requires p < |s.nodes| && Cancelable(s.ctxs[p]) && f.c in s.nodes[p].children && u.nodes[p].err.None?
    requires f.c < |s.nodes| && u.nodes[f.c].err != s.nodes[f.c].err
    ensures LettingGo(u, f.c)
  {
    hide Ids, FramesOK, NodesOK, SeenOK, CancelOK;
    var last := |s.stacks[t]| - 1;
    ChildOfLive(s, p, f.c);
    FrameAt(s, t, last);
    assert CallTidy(s.nodes, s.stacks[t], last);
    if last == 1 { FrameAt(s, t, 0); }
    assert u.stacks[t] != [] && LetsGo(u.stacks[t][0], f.c);
  }

  lemma ChildrenGo(s: State, u: State, t: nat, f: Frame, e: Effect)
    requires Inv(s) && Stacks(s) && Children(s) && Top(s, t, f) && Did(s, u, t, e) && Legal(f, e) && Ids(u)
    requires NodesMove(s, u, f, e)
    requires f.RemoveFrame? || f.DeleteFrame? ==> f.c < |s.ctxs| && Cancelable(s.ctxs[f.c])
    requires f.RemoveFrame? && e.Back? && Above(s.ctxs, f.c).Some? ==>
      s.nodes[Above(s.ctxs, f.c).value].done.Shared?
    requires f.DeleteFrame? ==> Above(s.ctxs, f.c) == Some(f.p)
    ensures Children(u)
  {
    hide FrameIds, FramesOK, NodesOK, SeenOK, Legal, NodesMove, Stacks, LettingGo, Above;
    assert |u.nodes| == |s.nodes| by { SameCount(s, u, f, e); }
    forall p: nat, k: nat | p < |u.nodes| && Cancelable(u.ctxs[p]) && k in u.nodes[p].children
      ensures ChildOK(u, p, k)
    {
      ChildGoes(s, u, t, f, e, p, k);
    }
  }

  lemma SameCount(s: State, u: State, f: Frame, e: Effect)
    requires NodesMove(s, u, f, e)
    ensures |u.nodes| == |s.nodes|
  {
  }

  lemma ChildGoes(s: State, u: State, t: nat, f: Frame, e: Effect, p: nat, k: nat)
    requires Inv(s) && Stacks(s) && Children(s) && Top(s, t, f) && Did(s, u, t, e) && Legal(f, e) && Ids(u)
    requires NodesMove(s, u, f, e)
    requires f.RemoveFrame? || f.DeleteFrame? ==> f.c < |s.ctxs| && Cancelable(s.ctxs[f.c])
    requires f.RemoveFrame? && e.Back? && Above(s.ctxs, f.c).Some? ==>
      s.nodes[Above(s.ctxs, f.c).value].done.Shared?
    requires f.DeleteFrame? ==> Above(s.ctxs, f.c) == Some(f.p)
    requires p < |u.nodes| && Cancelable(u.ctxs[p]) && k in u.nodes[p].children
    ensures ChildOK(u, p, k)
  {
    hide FrameIds, FramesOK, NodesOK, SeenOK, Legal, Stacks, LettingGo, Above, Stacked;
    if k !in s.nodes[p].children {
      BottomLinks(s, t, f);
      NewChild(s, t, f);
    } else {
      ChildLinked(s, p, k);
    }
    if k in s.nodes[p].children && u.nodes[p].err.None? && u.nodes[k].err.Some? {
      if s.nodes[k].err.Some? { LetsOn(s, u, t, f, e, p, k); } else { LetsBegin(s, u, t, f, e, p); }
    }
  }

  lemma ChildLinked(s: State, p: nat, k: nat)
    requires Ids(s) && Children(s) && p < |s.nodes| && Cancelable(s.ctxs[p]) && k in s.nodes[p].children
    ensures ChildOK(s, p, k)
  {
  }

  /** A context that is being registered is not canceled. */
  lemma NewChild(s: State, t: nat, f: Frame)
    requires Stacks(s) && Top(s, t, f) && |s.stacks[t]| == 1 && f.LinkFrame? && f.lpc.Check?
    ensures f.c < |s.nodes| && s.nodes[f.c].err.None?
  {
    assert LinkCall(s.stacks[t][0]);
    assert Early(s.stacks[t][0], f.c);
  }
  // ---------------------------------------------------------------- over whole runs

  lemma GoTidy(s: State, t: nat, pick: nat)
    requires Inv(s) && Stacks(s) && Children(s) && Next(s, t, pick).Some?
    ensures var u := Next(s, t, pick).value; Ids(u) && Stacks(u) && Children(u)
  {
    hide Inv, Ids, Stacks, Children, Next, Legal, NodesMove, Did;
    InvIds(s);
    NextTop(s, t, pick);
    var f := s.stacks[t][|s.stacks[t]|-1];
    var e := NextEffect(s, t, f, pick);
    GoKeeps(s, t, pick);
    var u := Next(s, t, pick).value;
    InvIds(u);
    StacksGo(s, u, t, f, e);
    ChildrenGo(s, u, t, f, e);
  }

  lemma NextTop(s: State, t: nat, pick: nat)
    requires Ids(s) && Next(s, t, pick).Some?
    ensures t < |s.stacks| && s.stacks[t] != []
  {
  }

  /** Calls that begin: a cancel is of a linked context and lets go of it, and what is derived is new. */
  lemma BeginTidy(s: State, a: Action)
    requires Inv(s) && Stacks(s) && Children(s) && Do(s, a).Some? && !a.Go?
    ensures var u := Do(s, a).value; Ids(u) && Stacks(u) && Children(u)
  {
    hide Inv, Ids, Stacks, Children;
    InvIds(s);
    DoKeeps(s, a);
    InvIds(Do(s, a).value);
    BeginStacks(s, a);
    BeginChildren(s, a);
  }

  lemma BeginStacks(s: State, a: Action)
    requires Inv(s) && Stacks(s) && Do(s, a).Some? && !a.Go?
    ensures Stacks(Do(s, a).value)
  {
    hide Inv, Ids, Do, Stacks;
    InvIds(s);
    if a.Derive? { DeriveStacks(s, a); } else { CallStacks(s, a); }
  }

  /** A stack that was empty may have got a call that derives nothing, or be new. */
  lemma MoreStacks(s: State, u: State)
    requires Stacks(s) && |s.stacks| <= |u.stacks| && |u.nodes| == |s.nodes|
    requires forall c :: 0 <= c < |s.nodes| ==>
      u.nodes[c].err == s.nodes[c].err && u.nodes[c].linked == s.nodes[c].linked
    requires forall t :: 0 <= t < |u.stacks| ==>
      || (t < |s.stacks| && u.stacks[t] == s.stacks[t])
      || (StackTidy(u.nodes, u.stacks[t]) && (u.stacks[t] != [] ==> !LinkCall(u.stacks[t][0])))
    ensures Stacks(u)
  {
    hide StackTidy;
    forall t | 0 <= t < |u.stacks| ensures StackTidy(u.nodes, u.stacks[t]) {
      if t < |s.stacks| && u.stacks[t] == s.stacks[t] { TidyMore(s.nodes, u.nodes, s.stacks[t]); }
    }
  }

  lemma CallStacks(s: State, a: Action)
    requires Ids(s) && Stacks(s) && Do(s, a).Some? && !a.Go? && !a.Derive?
    ensures Stacks(Do(s, a).value)
  {
    hide Next, FrameIds, Above, Passes, Stacks;
    MoreStacks(s, Do(s, a).value);
  }

  lemma DeriveStacks(s: State, a: Action)
    requires Ids(s) && Stacks(s) && Do(s, a).Some? && a.Derive?
    ensures Stacks(Do(s, a).value)
  {
    hide Next, FrameIds, Above, Derivable;
    var u := Do(s, a).value;
    forall t | 0 <= t < |u.stacks| ensures StackTidy(u.nodes, u.stacks[t]) {
      if u.stacks[t] == s.stacks[t] { TidyMore(s.nodes, u.nodes, s.stacks[t]); }
    }
  }

  /** No call begins anything with the nodes but the done channel. */
  lemma BeginNodes(s: State, a: Action)
    requires Ids(s) && Do(s, a).Some? && !a.Go?
    ensures var u := Do(s, a).value;
      && |s.nodes| <= |u.nodes| && s.ctxs <= u.ctxs && |s.stacks| <= |u.stacks|
      && (forall c :: 0 <= c < |s.nodes| ==>
            u.nodes[c].err == s.nodes[c].err && u.nodes[c].linked == s.nodes[c].linked
            && u.nodes[c].children == s.nodes[c].children)
      && (forall c :: |s.nodes| <= c < |u.nodes| ==> u.nodes[c].children == {})
      && (forall t :: 0 <= t < |s.stacks| && s.stacks[t] != [] ==> u.stacks[t] == s.stacks[t])
  {
    hide FrameIds, Next;
  }

  lemma BeginChildren(s: State, a: Action)
    requires Inv(s) && Children(s) && Do(s, a).Some? && !a.Go? && Ids(Do(s, a).value)
    ensures Children(Do(s, a).value)
  {
    hide FramesOK, NodesOK, SeenOK, FrameIds, LettingGo, Do;
    BeginNodes(s, a);
    var u := Do(s, a).value;
    forall p: nat, k: nat | p < |u.nodes| && Cancelable(u.ctxs[p]) && k in u.nodes[p].children
      ensures ChildOK(u, p, k)
    {
      ChildLinked(s, p, k);
      if s.nodes[p].err.None? && s.nodes[k].err.Some? { LetsStay(s, u, k); }
    }
  }

  lemma TidyMore(ns: seq<Node>, ms: seq<Node>, st: seq<Frame>)
    requires StackTidy(ns, st) && |ns| <= |ms| && forall c :: 0 <= c < |ns| ==> ms[c].linked == ns[c].linked
    ensures StackTidy(ms, st)
  {
    forall i | 0 <= i < |st| ensures CallTidy(ms, st, i) { assert CallTidy(ns, st, i); }
  }

  lemma LetsStay(s: State, u: State, k: nat)
    requires LettingGo(s, k) && |s.stacks| <= |u.stacks|
    requires forall t :: 0 <= t < |s.stacks| && s.stacks[t] != [] ==> u.stacks[t] == s.stacks[t]
    ensures LettingGo(u, k)
  {
    var t :| 0 <= t < |s.stacks| && s.stacks[t] != [] && LetsGo(s.stacks[t][0], k);
    assert LetsGo(u.stacks[t][0], k);
  }

  lemma {:induction false} RunTidy(run: seq<Action>)
    requires After(run).Some?
    ensures var s := After(run).value; Ids(s) && Stacks(s) && Children(s)
  {
    hide Inv, Ids, Do, Stacks, Children;
    if run == [] {
      StartTidy();
    } else {
      var s, a := After(run[..|run|-1]).value, run[|run|-1];
      RunTidy(run[..|run|-1]);
      InvIds(s);
      if a.Go? {
        IsGo(s, a);
        GoTidy(s, a.t, a.pick);
      } else {
        BeginTidy(s, a);
      }
    }
  }

  lemma IsGo(s: State, a: Action)
    requires Ids(s) && a.Go?
    ensures Do(s, a) == Next(s, a.t, a.pick)
  {
  }

  lemma StartTidy()
    ensures Ids(START) && Stacks(START) && Children(START)
  {
  }

  /**
    When no call is running, the children of a live context are exactly the live contexts that it feeds: a cancel
    releases its context.
   */
  lemma NoLeaks(run: seq<Action>, p: nat, c: nat)
    requires After(run).Some? && AllIdle(After(run).value)
    requires var s := After(run).value; Usable(s, p) && s.nodes[p].err.None?
    ensures var s := After(run).value;
      c in s.nodes[p].children <==> Usable(s, c) && FedBy(s.ctxs, c, p) && s.nodes[c].err.None?
  {
    hide Inv, Stacks, Children, FrameIds, Above;
    var s := After(run).value;
    RunTidy(run);
    if c in s.nodes[p].children {
      ChildLinked(s, p, c);
      NobodyLets(s, c);
      ChildOfLive(s, p, c);
      AboveIs(s.ctxs, c, p);
    }
    if Usable(s, c) && FedBy(s.ctxs, c, p) && s.nodes[c].err.None? { Registered(run, c, p); }
  }

  lemma NobodyLets(s: State, k: nat)
    requires AllIdle(s)
    ensures !LettingGo(s, k)
  {
  }
}
