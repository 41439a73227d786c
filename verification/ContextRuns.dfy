/** Cancellation over whole runs: closure, causes, the done channel, and progress. */
module ContextRuns {
  import opened Options
  import opened ContextTree
  import opened ContextCancel
  import opened ContextSafety
  import opened ContextSteps

  // ---------------------------------------------------------------- every action keeps the invariant

  /**
    From `s` to `u` calls may have begun on idle goroutines and contexts been added; no running call moved and no node
    lost anything.
   */
  predicate Extends(s: State, u: State) {
    && Ids(s) && Ids(u) && |u.stacks| >= |s.stacks| && s.ctxs <= u.ctxs
    && (forall t :: 0 <= t < |s.stacks| && s.stacks[t] != [] ==> u.stacks[t] == s.stacks[t])
    && (forall c :: 0 <= c < |s.nodes| ==> u.nodes[c] == s.nodes[c])
    && (forall c :: 0 <= c < |s.ctxs| && Cancelable(s.ctxs[c]) ==> Above(u.ctxs, c) == Above(s.ctxs, c))
  }

  lemma ExtendFrame(s: State, u: State, t: nat, i: nat)
    requires Extends(s, u) && t < |s.stacks| && i < |s.stacks[t]| && FrameOK(s, t, i)
    ensures FrameOK(u, t, i)
  {
    hide Above;
    assert FrameIds(u.ctxs, u.stacks[t][i]);
    if s.stacks[t][i].CancelFrame? { assert CancelOK(u, t, i); }
    if s.stacks[t][i].TimerFrame? { assert TimerOK(u, t, i); }
    if s.stacks[t][i].LinkFrame? { assert LinkOK(u, t, i); }
  }

  lemma ExtendNode(s: State, u: State, c: nat)
    requires Extends(s, u) && c < |s.ctxs| && Cancelable(s.ctxs[c]) && NodeOK(s, c)
    ensures NodeOK(u, c)
  {
    hide FrameOK, FramesOK;
    assert Owned(s, c) ==> Owned(u, c) && Owner(u, c) == Owner(s, c);
    var p := Above(s.ctxs, c);
    if p.Some? {
      assert Owned(s, p.value) ==> Owned(u, p.value) && Owner(u, p.value) == Owner(s, p.value);
    }
  }

  lemma ExtendKeeps(s: State, u: State)
    requires Inv(s) && Extends(s, u) && u.seen == s.seen && !u.panicked
    requires forall t ::
      0 <= t < |u.stacks| && (t >= |s.stacks| || s.stacks[t] == []) ==>
        |u.stacks[t]| <= 1 && (|u.stacks[t]| == 1 ==> FrameOK(u, t, 0))
    requires forall c :: |s.ctxs| <= c < |u.ctxs| && Cancelable(u.ctxs[c]) ==> u.nodes[c] == BLANK
    ensures Inv(u)
  {
    hide FrameOK, CoreOK, Reaches;
    forall t, i | 0 <= t < |u.stacks| && 0 <= i < |u.stacks[t]| ensures FrameOK(u, t, i) {
      if t < |s.stacks| && s.stacks[t] != [] {
        FrameAt(s, t, i);
        ExtendFrame(s, u, t, i);
      }
    }
    forall c | 0 <= c < |u.ctxs| && Cancelable(u.ctxs[c]) ensures NodeOK(u, c) {
      if c < |s.ctxs| {
        NodeAt(s, c);
        ExtendNode(s, u, c);
      } else {
        BlankOK(u, c);
      }
    }
  }

  lemma BlankOK(u: State, c: nat)
    requires Ids(u) && c < |u.ctxs| && Cancelable(u.ctxs[c]) && u.nodes[c] == BLANK
    ensures NodeOK(u, c)
  {
  }

  lemma StartKeeps(s: State, t: nat, f: Frame)
    requires Inv(s) && Idle(s, t) && FrameIds(s.ctxs, f)
    requires
      || f.ErrLoad?
      || (&& (f.CancelFrame? || f.TimerFrame?) && f.err.Some?
          && f == CancelCall(s.ctxs, f.c, f.remove, Some(f.err.value), f.cause, true))
    ensures Inv(s.(stacks := s.stacks[t := [f]]))
  {
    hide NodesOK, FramesOK, SeenOK;
    var u := s.(stacks := s.stacks[t := [f]]);
    assert Ids(u);
    assert FrameOK(u, t, 0);
    ExtendKeeps(s, u);
  }

  lemma DeriveKeeps(s: State, t: nat, x: Ctx)
    requires Inv(s) && Idle(s, t) && Derivable(s, x)
    ensures Do(s, Derive(t, x)).Some? && Inv(Do(s, Derive(t, x)).value)
  {
    hide NodesOK, FramesOK, SeenOK;
    var u := Do(s, Derive(t, x)).value;
    assert Rooted(s.ctxs + [x]);
    AbovePrefix(s.ctxs, s.ctxs + [x]);
    DeriveIds(s, u, t, x);
    if Cancelable(x) { assert FrameOK(u, t, 0); }
    ExtendKeeps(s, u);
  }

  lemma DeriveIds(s: State, u: State, t: nat, x: Ctx)
    requires Inv(s) && Idle(s, t) && Derivable(s, x) && Rooted(s.ctxs + [x]) && Do(s, Derive(t, x)) == Some(u)
    requires forall c :: 0 <= c < |s.ctxs| && Cancelable(s.ctxs[c]) ==> Above(s.ctxs + [x], c) == Above(s.ctxs, c)
    ensures Ids(u)
  {
    forall r, i | 0 <= r < |u.stacks| && 0 <= i < |u.stacks[r]| ensures FrameIds(u.ctxs, u.stacks[r][i]) {
      if r != t || !Cancelable(x) { assert FrameIds(s.ctxs, s.stacks[r][i]); }
    }
  }

  /** A caller asks for the done channel. */
  lemma DoneKeeps(s: State, c: nat)
    requires Inv(s) && Usable(s, c) && s.nodes[c].done.Unmade? && s.nodes[c].lock.None?
    ensures Inv(SetNode(s, c, s.nodes[c].(done := Own(false))))
  {
    hide FrameOK, SeenOK;
    var u := SetNode(s, c, s.nodes[c].(done := Own(false)));
    assert forall k :: 0 <= k < |s.nodes| ==> Grows(s.nodes[k], u.nodes[k]);
    SeenStays(s, u);
    NodeAt(s, c);
    forall t, i | 0 <= t < |u.stacks| && 0 <= i < |u.stacks[t]| ensures FrameOK(u, t, i) {
      FrameAt(s, t, i);
      AsideStays(s, u, t, i);
    }
    forall k | 0 <= k < |u.ctxs| && Cancelable(u.ctxs[k]) ensures NodeOK(u, k) {
      NodeAt(s, k);
      SameOwners(s, u, k);
    }
  }

  lemma SameOwners(s: State, u: State, k: nat)
    requires Ids(s) && Ids(u) && u.stacks == s.stacks && u.ctxs == s.ctxs && k < |s.ctxs| && Cancelable(s.ctxs[k])
    requires NodeOK(s, k)
    requires forall c :: 0 <= c < |s.nodes| ==> u.nodes[c] == s.nodes[c].(done := u.nodes[c].done)
    requires Closed(u.nodes[k].done) <==> Closed(s.nodes[k].done)
    ensures NodeOK(u, k)
  {
    assert Owned(s, k) ==> Owned(u, k) && Owner(u, k) == Owner(s, k);
    var p := Above(s.ctxs, k);
    if p.Some? { assert Owned(s, p.value) ==> Owned(u, p.value) && Owner(u, p.value) == Owner(s, p.value); }
  }

  lemma GoKeeps(s: State, t: nat, pick: nat)
    requires Inv(s) && Next(s, t, pick).Some?
    ensures Inv(Next(s, t, pick).value)
  {
    hide Inv, CancelStep, TimerStep, RemoveStep, LinkStep, ErrStep;
    var f := s.stacks[t][|s.stacks[t]|-1];
    match f
    case CancelFrame(_, _, _, _, _, _) => CancelKeeps(s, t, f, pick);
    case TimerFrame(_, _, _, _, _, _) => TimerKeeps(s, t, f);
    case RemoveFrame(_) => RemoveKeeps(s, t, f);
    case DeleteFrame(_, _) => DeleteKeeps(s, t, f);
    case LinkStart(_) => LinkStartKeeps(s, t, f);
    case LinkFrame(_, _, _) => LinkKeeps(s, t, f);
    case ErrLoad(_) => ErrKeeps(s, t, f);
    case ErrWait(_, _) => ErrKeeps(s, t, f);
  }

  lemma SpawnKeeps(s: State)
    requires Inv(s)
    ensures Inv(s.(stacks := s.stacks + [[]]))
  {
    hide NodesOK, FramesOK, SeenOK;
    ExtendKeeps(s, s.(stacks := s.stacks + [[]]));
  }

  lemma DoKeeps(s: State, a: Action)
    requires Inv(s) && Do(s, a).Some?
    ensures Inv(Do(s, a).value)
  {
    hide NodesOK, FramesOK, SeenOK, Next;
    match a
    case Go(t, pick) => GoKeeps(s, t, pick);
    case Spawn => SpawnKeeps(s);
    case CallCancel(t, c, err, cause) => StartKeeps(s, t, CancelCall(s.ctxs, c, true, Some(err), cause, true));
    case CallErr(t, c) => StartKeeps(s, t, ErrLoad(c));
    case CallDone(c) => DoneKeeps(s, c);
    case Derive(t, x) => DeriveKeeps(s, t, x);
  }

  /** The state after a run from the start, if the run can happen. */
  function After(run: seq<Action>): (r: Option<State>)
    ensures r.Some? ==> Inv(r.value)
  {
    if run == [] then Some(START)
    else
      match After(run[..|run|-1])
      case None => None
      case Some(s) =>
        var r := Do(s, run[|run|-1]);
        if r.Some? then DoKeeps(s, run[|run|-1]); r else None
  }
}
