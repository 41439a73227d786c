/** Every call on contexts returns, whatever the order of the steps; then all below a canceled context is canceled. */
module ContextEnds {
  import opened Options
  import opened ContextTree
  import opened ContextChain
  import opened ContextCancel
  import opened ContextSafety
  import opened ContextSteps
  import opened ContextRuns
  import opened ContextResults
  import opened ContextProgress

  // ---------------------------------------------------------------- a bound on the steps a call has left

  /** The cancels of the contexts from `k` on, of `n`, each of which may cancel all that come after it. */
  function BelowCost(n: nat, k: nat): nat
    decreases n - k
  {
    if k >= n then 0 else 1 + 7 + BelowCost(n, k + 1) + BelowCost(n, k + 1)
  }

  /** A cancel passed down to `c`, be it of a timer or not. */
  function CallCost(n: nat, c: nat): nat { 7 + BelowCost(n, c + 1) }

  /** The cancels of the contexts of `rest` from `k` on. */
  function RestCost(n: nat, rest: set<nat>, k: nat): nat
    decreases n - k
  {
    if k >= n then 0 else (if k in rest then 1 + CallCost(n, k) else 0) + RestCost(n, rest, k + 1)
  }

  function Rank(n: nat, f: Frame): (r: nat)
    ensures f.LinkFrame? && f.lpc.Watch? <==> r == 0
  {
    match f
    case CancelFrame(c, remove, _, _, _, pc) =>
      (if remove then 3 else 1) +
      (match pc
       case Entry => 3 + BelowCost(n, c + 1)
       case Locked => 2 + BelowCost(n, c + 1)
       case Stored => 1 + BelowCost(n, c + 1)
       case Loop(rest) => RestCost(n, rest, 0)
       case Calling(rest, k) => RestCost(n, rest - {k}, 0))
    case TimerFrame(c, remove, _, _, _, pc) =>
      (match pc
       case TEntry => (if remove then 9 else 7) + BelowCost(n, c + 1)
       case TCalling => if remove then 4 else 2
       case TRemove => if remove then 4 else 2
       case TRemoving => 1
       case TStop => 1)
    case RemoveFrame(_) => 2
    case DeleteFrame(_, _) => 1
    case LinkStart(c) => 6 + CallCost(n, c)
    case LinkFrame(c, _, pc) =>
      (match pc
       case Select => 5 + CallCost(n, c)
       case GetErr => 3 + CallCost(n, c)
       case GetCause(_) => 2 + CallCost(n, c)
       case Find => 4 + CallCost(n, c)
       case Lock => 3 + CallCost(n, c)
       case Check => 2 + CallCost(n, c)
       case Canceling(_) => 1
       case Finish(_) => 1
       case Watch => 0)
    case ErrLoad(_) => 2
    case ErrWait(_, _) => 1
  }

  function StackWork(n: nat, st: seq<Frame>): nat {
    if st == [] then 0 else StackWork(n, st[..|st|-1]) + Rank(n, st[|st|-1])
  }

  function AllWork(n: nat, sts: seq<seq<Frame>>): nat {
    if sts == [] then 0 else AllWork(n, sts[..|sts|-1]) + StackWork(n, sts[|sts|-1])
  }

  /** The contexts whose done channel is not yet made. */
  function Unmade(ns: seq<Node>): nat {
    if ns == [] then 0 else Unmade(ns[..|ns|-1]) + if ns[|ns|-1].done.Unmade? then 1 else 0
  }

  function Work(s: State): nat { AllWork(|s.ctxs|, s.stacks) + Unmade(s.nodes) }

  lemma {:induction false} AllWorkUpdate(n: nat, sts: seq<seq<Frame>>, t: nat, st: seq<Frame>)
    requires t < |sts|
    ensures AllWork(n, sts[t := st]) == AllWork(n, sts) - StackWork(n, sts[t]) + StackWork(n, st)
    decreases |sts|
  {
    hide StackWork;
    var us, last := sts[t := st], |sts| - 1;
    if t == last {
      assert us[..last] == sts[..last];
    } else {
      AllWorkUpdate(n, sts[..last], t, st);
      assert us[..last] == sts[..last][t := st];
    }
  }

  lemma {:induction false} UnmadeFalls(ns: seq<Node>, ms: seq<Node>)
    requires |ns| == |ms| && forall c :: 0 <= c < |ns| && !ns[c].done.Unmade? ==> !ms[c].done.Unmade?
    ensures Unmade(ms) <= Unmade(ns)
    ensures (exists c :: 0 <= c < |ns| && ns[c].done.Unmade? && !ms[c].done.Unmade?) ==> Unmade(ms) < Unmade(ns)
  {
    if ns != [] {
      var last := |ns| - 1;
      UnmadeFalls(ns[..last], ms[..last]);
      if c :| 0 <= c < |ns| && ns[c].done.Unmade? && !ms[c].done.Unmade? {
        assert c < last ==> ns[..last][c].done.Unmade? && !ms[..last][c].done.Unmade?;
      }
    }
  }

  // ---------------------------------------------------------------- the children left

  lemma {:induction false} RestWithout(n: nat, rest: set<nat>, pick: nat, k: nat)
    requires pick in rest && pick < n
    ensures RestCost(n, rest, k) == RestCost(n, rest - {pick}, k) + if k <= pick then 1 + CallCost(n, pick) else 0
    decreases n - k
  {
    hide CallCost;
    if k < n { RestWithout(n, rest, pick, k + 1); }
  }

  lemma {:induction false} RestIsBelow(n: nat, rest: set<nat>, c: nat, k: nat)
    requires forall x :: x in rest ==> x > c
    ensures RestCost(n, rest, k) <= BelowCost(n, if k <= c then c + 1 else k)
    decreases n - k
  {
    if k < n { RestIsBelow(n, rest, c, k + 1); }
  }

  // ---------------------------------------------------------------- one step

  /** The stack of `t` alone changed, and has less to do; a call that called others is still there. */
  predicate Lighter(s: State, u: State, t: nat) {
    && t < |s.stacks| == |u.stacks| && u.stacks == s.stacks[t := u.stacks[t]]
    && StackWork(|s.ctxs|, u.stacks[t]) < StackWork(|s.ctxs|, s.stacks[t])
    && (|s.stacks[t]| >= 2 ==> u.stacks[t] != [] && u.stacks[t][0] in [s.stacks[t][0], Resume(s.stacks[t][0])])
  }

  lemma WorkMore(n: nat, st: seq<Frame>, f: Frame)
    ensures StackWork(n, st + [f]) == StackWork(n, st) + Rank(n, f)
  {
    hide Rank;
    assert (st + [f])[..|st|] == st;
  }

  lemma FrontTop(s: State, t: nat, f: Frame)
    requires Top(s, t, f)
    ensures s.stacks[t] == s.stacks[t][..|s.stacks[t]|-1] + [f]
  {
  }

  lemma TopLighter(s: State, u: State, t: nat, f: Frame, g: Frame)
    requires Top(s, t, f) && u.stacks == SetTop(s, t, g).stacks && Rank(|s.ctxs|, g) < Rank(|s.ctxs|, f)
    ensures Lighter(s, u, t)
  {
    hide Rank, StackWork;
    var front := s.stacks[t][..|s.stacks[t]|-1];
    FrontTop(s, t, f);
    WorkMore(|s.ctxs|, front, f);
    WorkMore(|s.ctxs|, front, g);
  }

  lemma CallLighter(s: State, u: State, t: nat, f: Frame, g: Frame, h: Frame)
    requires Top(s, t, f) && u.stacks == Call(s, t, g, h).stacks
    requires Rank(|s.ctxs|, g) + Rank(|s.ctxs|, h) < Rank(|s.ctxs|, f)
    ensures Lighter(s, u, t)
  {
    hide Rank, StackWork;
    var front := s.stacks[t][..|s.stacks[t]|-1];
    FrontTop(s, t, f);
    WorkMore(|s.ctxs|, front, f);
    WorkMore(|s.ctxs|, front, g);
    WorkMore(|s.ctxs|, front + [g], h);
    assert u.stacks[t] == front + [g] + [h];
  }

  lemma ResumeRank(n: nat, f: Frame)
    ensures Rank(n, Resume(f)) <= Rank(n, f)
  {
  }

  lemma ReturnLighter(s: State, u: State, t: nat, f: Frame)
    requires Top(s, t, f) && u.stacks == Return(s, t).stacks && Rank(|s.ctxs|, f) > 0
    ensures Lighter(s, u, t)
  {
    hide Rank, Resume, StackWork;
    var st := s.stacks[t][..|s.stacks[t]|-1];
    FrontTop(s, t, f);
    WorkMore(|s.ctxs|, st, f);
    if st != [] {
      var g := st[|st|-1];
      ResumeRank(|s.ctxs|, g);
      assert st == st[..|st|-1] + [g];
      WorkMore(|s.ctxs|, st[..|st|-1], g);
      WorkMore(|s.ctxs|, st[..|st|-1], Resume(g));
    }
  }

  lemma CancelLighter(s: State, t: nat, f: Frame, pick: nat)
    requires Inv(s) && Top(s, t, f) && f.CancelFrame? && CancelStep(s, t, pick).Some?
    ensures Lighter(s, CancelStep(s, t, pick).value, t)
  {
    hide Above, Closed, Lighter, CancelCall, NodesOK, FramesOK, SeenOK, TimerOK, LinkOK, Inherited, BelowCost, RestCost;
    FrameAt(s, t, |s.stacks[t]| - 1);
    var u, n := CancelStep(s, t, pick).value, s.nodes[f.c];
    match f.cpc
    case Entry => TopLighter(s, u, t, f, f.(cause := if f.cause.None? then f.err else f.cause, cpc := Locked));
    case Locked =>
      if n.err.Some? { ReturnLighter(s, u, t, f); } else { TopLighter(s, u, t, f, f.(cpc := Stored)); }
    case Stored => StoredLighter(s, t, f, pick);
    case Loop(rest) => LoopLighter(s, t, f, pick);
  }

  lemma StoredLighter(s: State, t: nat, f: Frame, pick: nat)
    requires Inv(s) && Top(s, t, f) && f.CancelFrame? && f.cpc.Stored? && CancelStep(s, t, pick).Some?
    ensures Lighter(s, CancelStep(s, t, pick).value, t)
  {
    hide Above, Closed, Lighter, NodesOK, FramesOK, SeenOK, TimerOK, LinkOK, Inherited, BelowCost, RestCost;
    FrameAt(s, t, |s.stacks[t]| - 1);
    NodeAt(s, f.c);
    var n := s.nodes[f.c];
    forall k | k in n.children ensures k > f.c { ChildAbove(s, f.c, k); }
    RestIsBelow(|s.ctxs|, n.children, f.c, 0);
    StoredKeeps(s, t, f, pick);
    PanicFree(CancelStep(s, t, pick).value);
    TopLighter(s, CancelStep(s, t, pick).value, t, f, f.(cpc := Loop(n.children)));
  }

  lemma PanicFree(s: State)
    requires Inv(s)
    ensures !s.panicked
  {
  }

  lemma LoopLighter(s: State, t: nat, f: Frame, pick: nat)
    requires Inv(s) && Top(s, t, f) && f.CancelFrame? && f.cpc.Loop? && CancelStep(s, t, pick).Some?
    ensures Lighter(s, CancelStep(s, t, pick).value, t)
  {
    hide Above, Closed, Lighter, NodesOK, FramesOK, SeenOK, TimerOK, LinkOK, Inherited, BelowCost, RestCost;
    FrameAt(s, t, |s.stacks[t]| - 1);
    var u, rest := CancelStep(s, t, pick).value, f.cpc.rest;
    if pick in rest {
      RestWithout(|s.ctxs|, rest, pick, 0);
      var g, h := f.(cpc := Calling(rest, pick)), CancelCall(s.ctxs, pick, false, f.err, f.cause, false);
      CallLighter(s, u, t, f, g, h);
    } else if f.remove {
      TopLighter(s, u, t, f, RemoveFrame(f.c));
    } else {
      ReturnLighter(s, u, t, f);
    }
  }

  lemma TimerLighter(s: State, t: nat, f: Frame)
    requires Ids(s) && Top(s, t, f) && f.TimerFrame? && TimerStep(s, t).Some?
    ensures Lighter(s, TimerStep(s, t).value, t)
  {
    hide Ids, Lighter, BelowCost;
    var u := TimerStep(s, t).value;
    match f.tpc
    case TEntry =>
      CallLighter(s, u, t, f, f.(tpc := TCalling), CancelFrame(f.c, false, f.err, f.cause, f.direct, Entry));
    case TRemove =>
      if f.remove { CallLighter(s, u, t, f, f.(tpc := TRemoving), RemoveFrame(f.c)); }
      else { TopLighter(s, u, t, f, f.(tpc := TStop)); }
    case TStop => ReturnLighter(s, u, t, f);
  }

  lemma RemoveLighter(s: State, t: nat, f: Frame)
    requires Ids(s) && Top(s, t, f) && (f.RemoveFrame? || f.DeleteFrame?) && RemoveStep(s, t).Some?
    ensures Lighter(s, RemoveStep(s, t).value, t)
  {
    hide Lighter, Return;
    assert FrameIds(s.ctxs, f);
    var u := RemoveStep(s, t).value;
    var p := Above(s.ctxs, f.c);
    if f.DeleteFrame? || p.None? || s.nodes[p.value].done.Shared? {
      RemoveReturns(s, t, f);
      ReturnLighter(s, u, t, f);
    } else {
      TopLighter(s, u, t, f, DeleteFrame(f.c, p.value));
    }
  }

  lemma LinkStartLighter(s: State, t: nat, f: Frame)
    requires Ids(s) && Top(s, t, f) && f.LinkStart? && LinkStep(s, t).Some?
    ensures Lighter(s, LinkStep(s, t).value, t)
  {
    hide Lighter, CallCost;
    assert FrameIds(s.ctxs, f);
    var u := LinkStep(s, t).value;
    match Above(s.ctxs, f.c)
    case None =>
      LinksNothingStacks(s, t, f);
      ReturnLighter(s, u, t, f);
    case Some(p) => TopLighter(s, u, t, f, LinkFrame(f.c, p, Select));
  }

  lemma LinksNothingStacks(s: State, t: nat, f: Frame)
    requires Ids(s) && Top(s, t, f) && f.LinkStart? && f.c < |s.nodes| && Cancelable(s.ctxs[f.c])
    requires Above(s.ctxs, f.c).None?
    ensures LinkStep(s, t).Some? && LinkStep(s, t).value.stacks == Return(s, t).stacks
  {
    hide Above;
  }

  lemma LinkLighter(s: State, t: nat, f: Frame)
    requires Inv(s) && Top(s, t, f) && f.LinkFrame? && LinkStep(s, t).Some?
    ensures Lighter(s, LinkStep(s, t).value, t)
  {
    hide Lighter, CallCost, BelowCost, NodesOK, FramesOK, SeenOK, CancelOK, TimerOK, Above, Closed;
    FrameAt(s, t, |s.stacks[t]| - 1);
    var u, n := LinkStep(s, t).value, s.nodes[f.p];
    match f.lpc
    case Select => TopLighter(s, u, t, f, f.(lpc := if Closed(n.done) then GetErr else Find));
    case GetErr => TopLighter(s, u, t, f, f.(lpc := GetCause(n.err)));
    case GetCause(e) => LinkCallLighter(s, t, f);
    case Find => TopLighter(s, u, t, f, f.(lpc := Lock));
    case Lock => TopLighter(s, u, t, f, f.(lpc := Check));
    case Check =>
      if n.err.Some? { LinkCallLighter(s, t, f); } else { TopLighter(s, u, t, f, f.(lpc := Finish(true))); }
    case Finish(held) => LinkEndLighter(s, t, f);
  }

  lemma LinkCallLighter(s: State, t: nat, f: Frame)
    requires Ids(s) && Top(s, t, f) && f.LinkFrame? && LinkStep(s, t).Some?
    requires f.lpc.GetCause? || (f.lpc.Check? && s.nodes[f.p].err.Some?)
    ensures Lighter(s, LinkStep(s, t).value, t)
  {
    hide Lighter, BelowCost, Above, Closed;
    LinkIds(s, f);
    var u, n := LinkStep(s, t).value, s.nodes[f.p];
    if f.lpc.Check? {
      CallLighter(s, u, t, f, f.(lpc := Canceling(true)), CancelCall(s.ctxs, f.c, false, n.err, n.cause, false));
    } else {
      var cause := if n.cause.Some? then n.cause else n.err;
      CallLighter(s, u, t, f, f.(lpc := Canceling(false)), CancelCall(s.ctxs, f.c, false, f.lpc.err, cause, false));
    }
  }

  lemma LinkEndLighter(s: State, t: nat, f: Frame)
    requires Ids(s) && Top(s, t, f) && f.LinkFrame? && f.lpc.Finish? && LinkStep(s, t).Some?
    ensures Lighter(s, LinkStep(s, t).value, t)
  {
    hide Ids, Lighter, BelowCost, Above, Closed;
    ReturnLighter(s, LinkStep(s, t).value, t, f);
  }

  /** A step brings its goroutine on, or makes a done channel. */
  predicate BringsOn(s: State, u: State, t: nat) {
    || Lighter(s, u, t)
    || (u.stacks == s.stacks && |u.nodes| == |s.nodes| &&
        exists c :: 0 <= c < |s.nodes| && s.nodes[c].done.Unmade? && !u.nodes[c].done.Unmade?)
  }

  lemma ErrBringsOn(s: State, t: nat, f: Frame)
    requires Ids(s) && Top(s, t, f) && (f.ErrLoad? || f.ErrWait?) && ErrStep(s, t).Some?
    ensures BringsOn(s, ErrStep(s, t).value, t)
  {
    hide Lighter;
    assert FrameIds(s.ctxs, f);
    var u, n := ErrStep(s, t).value, s.nodes[f.c];
    if f.ErrLoad? && n.err.Some? {
      TopLighter(s, u, t, f, ErrWait(f.c, n.err.value));
    } else if f.ErrLoad? || Closed(n.done) {
      ReturnLighter(s, u, t, f);
    } else {
      assert s.nodes[f.c].done.Unmade? && !u.nodes[f.c].done.Unmade?;
    }
  }

  lemma NextBringsOn(s: State, t: nat, pick: nat)
    requires Inv(s) && Next(s, t, pick).Some?
    ensures BringsOn(s, Next(s, t, pick).value, t)
  {
    hide Inv, Ids, Lighter, CancelStep, LinkStep, TimerStep, RemoveStep, ErrStep;
    InvIds(s);
    var f := s.stacks[t][|s.stacks[t]|-1];
    match f
    case CancelFrame(_, _, _, _, _, _) => CancelLighter(s, t, f, pick);
    case TimerFrame(_, _, _, _, _, _) => TimerLighter(s, t, f);
    case RemoveFrame(_) => RemoveLighter(s, t, f);
    case DeleteFrame(_, _) => RemoveLighter(s, t, f);
    case LinkStart(_) => LinkStartLighter(s, t, f);
    case LinkFrame(_, _, _) => LinkLighter(s, t, f);
    case ErrLoad(_) => ErrBringsOn(s, t, f);
    case ErrWait(_, _) => ErrBringsOn(s, t, f);
  }

  /** Every step of a running call uses up work. */
  lemma WorkFalls(s: State, t: nat, pick: nat)
    requires Inv(s) && Next(s, t, pick).Some?
    ensures Work(Next(s, t, pick).value) < Work(s)
  {
    hide Inv, Ids, Next, AllWork, StackWork, Unmade;
    InvIds(s);
    var u := Next(s, t, pick).value;
    NextBringsOn(s, t, pick);
    NextGrows(s, t, pick);
    NextTree(s, t, pick);
    GoKeeps(s, t, pick);
    SameLength(s, u);
    assert forall c :: 0 <= c < |s.nodes| ==> Grows(s.nodes[c], u.nodes[c]);
    UnmadeFalls(s.nodes, u.nodes);
    if Lighter(s, u, t) { AllWorkUpdate(|s.ctxs|, s.stacks, t, u.stacks[t]); }
  }

  lemma SameLength(s: State, u: State)
    requires Inv(s) && Inv(u) && u.ctxs == s.ctxs
    ensures |u.nodes| == |s.nodes|
  {
  }

  // ---------------------------------------------------------------- every call returns

  predicate AllGo(more: seq<Action>) { forall i :: 0 <= i < |more| ==> more[i].Go? }

  /** While no new call is made, there are no more steps than there is work. */
  lemma {:induction false} StepsAreFew(run: seq<Action>, more: seq<Action>)
    requires After(run + more).Some? && AllGo(more)
    ensures After(run).Some? && |more| + Work(After(run + more).value) <= Work(After(run).value)
  {
    hide Inv, Ids, Next, Work;
    if more == [] {
      assert run + more == run;
    } else {
      var last := |more| - 1;
      assert (run + more)[..|run + more| - 1] == run + more[..last];
      StepsAreFew(run, more[..last]);
      WorkFalls(After(run + more[..last]).value, more[last].t, more[last].pick);
    }
  }

  /** No goroutine can take a step. */
  ghost predicate Ended(s: State)
    requires Ids(s)
  {
    forall t, pick :: Next(s, t, pick).None?
  }

  predicate AllIdle(s: State) { forall t :: 0 <= t < |s.stacks| ==> s.stacks[t] == [] }

  /** Steps of the running calls in any order come to an end, and when no more is possible every call has returned. */
  lemma AllReturn(run: seq<Action>, more: seq<Action>)
    requires After(run + more).Some? && AllGo(more)
    ensures After(run).Some? && |more| <= Work(After(run).value)
    ensures Ended(After(run + more).value) ==> AllIdle(After(run + more).value)
  {
    hide NodesOK, FramesOK, SeenOK, Next, Work;
    StepsAreFew(run, more);
    var u := After(run + more).value;
    if Ended(u) {
      forall t | 0 <= t < |u.stacks| ensures u.stacks[t] == [] {
        if u.stacks[t] != [] { var r, pick := Progress(run + more, t); }
      }
    }
  }

  /** So they can all be brought to return. */
  lemma {:induction false} CanReturn(run: seq<Action>) returns (more: seq<Action>)
    requires After(run).Some?
    ensures AllGo(more) && After(run + more).Some? && AllIdle(After(run + more).value)
    decreases Work(After(run).value)
  {
    hide Inv, Ids, Next, Work;
    var s := After(run).value;
    if t0 :| 0 <= t0 < |s.stacks| && s.stacks[t0] != [] {
      var t, pick := Progress(run, t0);
      InvIds(s);
      WorkFalls(s, t, pick);
      var a := Go(t, pick);
      assert (run + [a])[..|run|] == run;
      var rest := CanReturn(run + [a]);
      more := [a] + rest;
      assert run + [a] + rest == run + more;
    } else {
      more := [];
      assert run + more == run;
    }
  }

  // ---------------------------------------------------------------- a cancel called is a context canceled

  predicate CancelOf(f: Frame, c: nat) { (f.CancelFrame? || f.TimerFrame?) && f.c == c }

  /** `c` is canceled, or a goroutine is about to. */
  predicate Doing(s: State, c: nat) {
    && c < |s.nodes|
    && (s.nodes[c].err.Some? || exists t :: 0 <= t < |s.stacks| && s.stacks[t] != [] && CancelOf(s.stacks[t][0], c))
  }

  /** A cancel that called no other does not end before its context is canceled. */
  lemma CancelLasts(s: State, t: nat, f: Frame, pick: nat)
    requires Inv(s) && Top(s, t, f) && f.CancelFrame? && |s.stacks[t]| == 1 && CancelStep(s, t, pick).Some?
    ensures var u := CancelStep(s, t, pick).value;
      && f.c < |s.nodes|
      && (s.nodes[f.c].err.Some? || (t < |u.stacks| && u.stacks[t] != [] && CancelOf(u.stacks[t][0], f.c)))
  {
    hide NodesOK, FramesOK, SeenOK, Ids, Inherited, TimerOK, LinkOK;
    FrameAt(s, t, 0);
    LinkIds(s, f);
  }

  lemma TimerLasts(s: State, t: nat, f: Frame)
    requires Inv(s) && Top(s, t, f) && f.TimerFrame? && |s.stacks[t]| == 1 && TimerStep(s, t).Some?
    ensures var u := TimerStep(s, t).value;
      && f.c < |s.nodes|
      && (s.nodes[f.c].err.Some? || (t < |u.stacks| && u.stacks[t] != [] && CancelOf(u.stacks[t][0], f.c)))
  {
    hide NodesOK, FramesOK, SeenOK, Ids, Inherited, CancelOK, LinkOK;
    FrameAt(s, t, 0);
    LinkIds(s, f);
  }

  lemma GoDoing(s: State, t: nat, pick: nat, c: nat)
    requires Inv(s) && Next(s, t, pick).Some? && Doing(s, c)
    ensures Doing(Next(s, t, pick).value, c)
  {
    hide Inv, CancelStep, LinkStep, TimerStep, RemoveStep, ErrStep;
    InvIds(s);
    NextGrows(s, t, pick);
    var u := Next(s, t, pick).value;
    assert Grows(s.nodes[c], u.nodes[c]);
    if s.nodes[c].err.None? {
      var r :| 0 <= r < |s.stacks| && s.stacks[r] != [] && CancelOf(s.stacks[r][0], c);
      NextBringsOn(s, t, pick);
      if r == t && |s.stacks[t]| == 1 {
        var f := s.stacks[t][0];
        if f.CancelFrame? { CancelLasts(s, t, f, pick); } else { TimerLasts(s, t, f); }
      } else {
        assert CancelOf(u.stacks[r][0], c);
      }
    }
  }

  lemma DoDoing(s: State, a: Action, c: nat)
    requires Inv(s) && Do(s, a).Some? && (Doing(s, c) || (a.CallCancel? && a.c == c))
    ensures Doing(Do(s, a).value, c)
  {
    hide NodesOK, FramesOK, SeenOK, Next;
    var u := Do(s, a).value;
    if a.Go? {
      GoDoing(s, a.t, a.pick, c);
    } else if Doing(s, c) {
      DoGrows(s, a);
      assert Grows(s.nodes[c], u.nodes[c]);
      if r :| 0 <= r < |s.stacks| && s.stacks[r] != [] && CancelOf(s.stacks[r][0], c) {
        assert CancelOf(u.stacks[r][0], c);
      }
    } else {
      assert CancelOf(u.stacks[a.t][0], c);
    }
  }

  lemma {:induction false} CalledDoing(run: seq<Action>, i: nat)
    requires After(run).Some? && i < |run| && run[i].CallCancel?
    ensures Doing(After(run).value, run[i].c)
  {
    hide Inv, Do, Doing;
    var last := |run| - 1;
    if i < last { CalledDoing(run[..last], i); }
    DoDoing(After(run[..last]).value, run[last], run[i].c);
  }

  /**
    Once no call is running, a context whose cancel was called is canceled, and with it all that a caller can have
    derived from it.
   */
  lemma CancelIsDone(run: seq<Action>, i: nat, d: nat)
    requires After(run).Some? && AllIdle(After(run).value) && i < |run| && run[i].CallCancel?
    requires var s := After(run).value; Usable(s, d) && DerivedFrom(s.ctxs, d, run[i].c)
    ensures After(run).value.nodes[d].err.Some?
  {
    hide NodesOK, FramesOK, SeenOK;
    CalledDoing(run, i);
    Closure(run, d, run[i].c);
  }
}
