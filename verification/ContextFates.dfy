/** What error and cause a context will end with: settled once a cancel holds its mutex, and open until then. */
module ContextFates {
  import opened Options
  import opened ContextTree
  import opened ContextChain
  import opened ContextCancel
  import opened ContextSafety
  import opened ContextSteps
  import opened ContextRuns
  import opened ContextResults

  /** The cancel that holds the mutex of `c`, and has not yet set its cause, if there is one. */
  predicate Held(s: State, c: nat)
    requires c < |s.nodes|
  {
    Owned(s, c) && Owner(s, c).CancelFrame?
  }

  /** How `c` ended, or will end for the cancel that holds its mutex. */
  function Fate(s: State, c: nat): Option<Outcome>
    requires c < |s.nodes|
  {
    if s.nodes[c].cause.Some? then Some(Outcome(s.nodes[c].err, s.nodes[c].cause))
    else if Held(s, c) then Some(Outcome(Owner(s, c).err, Owner(s, c).cause))
    else None
  }

  // ---------------------------------------------------------------- a fate is final

  /** A node whose mutex another goroutine holds is as it was, but for `linked`. */
  predicate LeavesLocked(s: State, u: State, t: nat) {
    && |u.nodes| == |s.nodes|
    && forall c :: 0 <= c < |s.nodes| && s.nodes[c].lock.Some? && s.nodes[c].lock.value.t != t ==>
      u.nodes[c] == s.nodes[c].(linked := u.nodes[c].linked)
  }

  lemma CancelLeaves(s: State, t: nat, f: Frame, pick: nat)
    requires Inv(s) && Top(s, t, f) && f.CancelFrame? && CancelStep(s, t, pick).Some?
    ensures LeavesLocked(s, CancelStep(s, t, pick).value, t)
  {
    hide NodesOK, FramesOK, SeenOK, Ids, Return, Closed, CancelOK, TimerOK, LinkOK;
    FrameAt(s, t, |s.stacks[t]| - 1);
    CancelFacts(s, t, f);
    ReturnNodes(s, t, f.c);
  }

  lemma LinkStartLeaves(s: State, t: nat, f: Frame)
    requires Inv(s) && Top(s, t, f) && f.LinkStart? && LinkStep(s, t).Some?
    ensures LeavesLocked(s, LinkStep(s, t).value, t)
  {
    hide NodesOK, FramesOK, SeenOK, CancelOK, TimerOK, LinkOK;
    FrameAt(s, t, |s.stacks[t]| - 1);
  }

  lemma LinkLeaves(s: State, t: nat, f: Frame)
    requires Inv(s) && Top(s, t, f) && f.LinkFrame? && LinkStep(s, t).Some?
    ensures LeavesLocked(s, LinkStep(s, t).value, t)
  {
    hide NodesOK, FramesOK, SeenOK, CancelOK, TimerOK, LinkOK, Above, LeavesLocked, Ids;
    FrameAt(s, t, |s.stacks[t]| - 1);
    if f.lpc.Check? || f.lpc.Finish? { LinkEndLeaves(s, t, f); } else { LinkOnLeaves(s, t, f); }
  }

  lemma LinkEndLeaves(s: State, t: nat, f: Frame)
    requires Ids(s) && Top(s, t, f) && f.LinkFrame? && (f.lpc.Check? || f.lpc.Finish?) && LinkStep(s, t).Some?
    requires FrameOK(s, t, |s.stacks[t]| - 1)
    ensures LeavesLocked(s, LinkStep(s, t).value, t)
  {
    hide CancelOK, TimerOK, LinkOK, Above;
    LinkIds(s, f);
  }

  lemma LinkOnLeaves(s: State, t: nat, f: Frame)
    requires Ids(s) && Top(s, t, f) && f.LinkFrame? && !f.lpc.Check? && !f.lpc.Finish? && LinkStep(s, t).Some?
    ensures LeavesLocked(s, LinkStep(s, t).value, t)
  {
    hide FrameIds, Above;
    LinkIds(s, f);
  }

  lemma OtherLeaves(s: State, t: nat, f: Frame)
    requires Inv(s) && Top(s, t, f) && !f.CancelFrame? && !f.LinkStart? && !f.LinkFrame? && Next(s, t, 0).Some?
    ensures LeavesLocked(s, Next(s, t, 0).value, t)
  {
    hide NodesOK, FramesOK, SeenOK, CancelStep, LinkStep;
  }

  lemma NextLeaves(s: State, t: nat, pick: nat)
    requires Inv(s) && Next(s, t, pick).Some?
    ensures LeavesLocked(s, Next(s, t, pick).value, t)
  {
    hide Inv, LeavesLocked, CancelStep, LinkStep, TimerStep, RemoveStep, ErrStep;
    var f := s.stacks[t][|s.stacks[t]|-1];
    if f.CancelFrame? {
      CancelLeaves(s, t, f, pick);
    } else if f.LinkStart? {
      LinkStartLeaves(s, t, f);
    } else if f.LinkFrame? {
      LinkLeaves(s, t, f);
    } else {
      OtherLeaves(s, t, f);
    }
  }

  /** A cancel that holds a mutex and has not set the cause is at one of two places. */
  lemma HeldFrame(s: State, c: nat) returns (t: nat, f: Frame)
    requires Inv(s) && c < |s.ctxs| && Cancelable(s.ctxs[c]) && s.nodes[c].cause.None? && Held(s, c)
    ensures Top(s, t, f) && f == Owner(s, c) && f.CancelFrame? && f.c == c
    ensures s.nodes[c].lock == Some(Holder(t, |s.stacks[t]| - 1))
    ensures f.err.Some? && f.cause.Some? && !Closed(s.nodes[c].done)
    ensures if s.nodes[c].err.Some? then f.cpc.Stored? && s.nodes[c].err == f.err else f.cpc.Locked?
  {
    hide NodesOK, FramesOK, SeenOK, TimerOK, LinkOK;
    var h := s.nodes[c].lock.value;
    t, f := h.t, s.stacks[h.t][h.i];
    FrameAt(s, h.t, h.i);
    NodeAt(s, c);
  }

  /** The next step of that cancel. */
  lemma HeldGo(s: State, t: nat, f: Frame, c: nat)
    requires Inv(s) && Top(s, t, f) && f.CancelFrame? && f.c == c < |s.nodes|
    requires s.nodes[c].lock == Some(Holder(t, |s.stacks[t]| - 1))
    requires s.nodes[c].cause.None? && !Closed(s.nodes[c].done) && f.cause.Some?
    requires if s.nodes[c].err.Some? then f.cpc.Stored? && s.nodes[c].err == f.err else f.cpc.Locked?
    ensures forall pick :: Next(s, t, pick) == Next(s, t, 0)
    ensures Next(s, t, 0).Some? && var u := Next(s, t, 0).value; |u.nodes| == |s.nodes| && u.nodes[c].err == f.err
    ensures var u := Next(s, t, 0).value;
      if f.cpc.Stored? then u.nodes[c].cause == f.cause
      else
        && u.nodes[c].cause.None? && u.nodes[c].lock == s.nodes[c].lock
        && |u.stacks| == |s.stacks| && |u.stacks[t]| == |s.stacks[t]| && Top(u, t, f.(cpc := Stored))
  {
    hide NodesOK, FramesOK, SeenOK, Ids;
    assert s.nodes[c].done != Own(true) && !s.nodes[c].done.Shared?;
  }

  lemma FateGo(s: State, t: nat, pick: nat, c: nat)
    requires Inv(s) && Next(s, t, pick).Some? && c < |s.ctxs| && Cancelable(s.ctxs[c]) && s.nodes[c].cause.None?
    requires Held(s, c)
    ensures var u := Next(s, t, pick).value; c < |u.nodes| && Fate(u, c) == Fate(s, c)
  {
    hide Inv, Next, CancelStep, LinkStep;
    InvIds(s);
    var u := Next(s, t, pick).value;
    var r, f := HeldFrame(s, c);
    if r == t {
      HeldGo(s, t, f, c);
    } else {
      NextLeaves(s, t, pick);
      NextDerived(s, t, pick);
      assert u.stacks[r] == s.stacks[r];
    }
  }

  lemma FateDo(s: State, a: Action, c: nat)
    requires Inv(s) && Do(s, a).Some? && c < |s.ctxs| && Cancelable(s.ctxs[c]) && Fate(s, c).Some?
    ensures var u := Do(s, a).value; c < |u.nodes| && c < |u.ctxs| && u.ctxs[c] == s.ctxs[c] && Fate(u, c) == Fate(s, c)
  {
    hide NodesOK, FramesOK, SeenOK, Next;
    var u := Do(s, a).value;
    DoGrows(s, a);
    assert Grows(s.nodes[c], u.nodes[c]);
    if s.nodes[c].cause.Some? {
      NodeHasErr(s, c);
    } else if a.Go? {
      FateGo(s, a.t, a.pick, c);
    } else {
      var r, f := HeldFrame(s, c);
      assert u.nodes[c] == s.nodes[c] && u.stacks[r] == s.stacks[r];
    }
  }

  lemma NodeHasErr(s: State, c: nat)
    requires Inv(s) && c < |s.ctxs| && Cancelable(s.ctxs[c]) && s.nodes[c].cause.Some?
    ensures s.nodes[c].err.Some?
  {
    NodeAt(s, c);
  }

  /** A fate is never changed, whatever happens after. */
  lemma {:induction false} FateStays(run: seq<Action>, more: seq<Action>, c: nat)
    requires After(run + more).Some? && After(run).Some?
    requires var s := After(run).value; c < |s.ctxs| && Cancelable(s.ctxs[c]) && Fate(s, c).Some?
    ensures var s, u := After(run).value, After(run + more).value;
      c < |u.ctxs| && u.ctxs[c] == s.ctxs[c] && Fate(u, c) == Fate(s, c)
  {
    hide NodesOK, FramesOK, SeenOK, Do, Fate;
    if more == [] {
      assert run + more == run;
    } else {
      var last := |more| - 1;
      assert (run + more)[..|run + more| - 1] == run + more[..last];
      FateStays(run, more[..last], c);
      FateDo(After(run + more[..last]).value, more[last], c);
    }
  }

  // ---------------------------------------------------------------- what can happen next

  lemma Extend(run: seq<Action>, a: Action)
    requires After(run).Some? && Do(After(run).value, a).Some?
    ensures After(run + [a]) == Do(After(run).value, a)
  {
    assert (run + [a])[..|run|] == run;
  }

  /** Where a fate is settled it can come about. */
  lemma Fulfil(run: seq<Action>, c: nat) returns (more: seq<Action>)
    requires After(run).Some? && var s := After(run).value; c < |s.ctxs| && Cancelable(s.ctxs[c]) && Fate(s, c).Some?
    ensures After(run + more).Some? && var s, u := After(run).value, After(run + more).value;
      c < |u.nodes| && u.nodes[c].cause.Some? && Some(Outcome(u.nodes[c].err, u.nodes[c].cause)) == Fate(s, c)
  {
    hide NodesOK, FramesOK, SeenOK, Next;
    var s := After(run).value;
    if s.nodes[c].cause.Some? {
      more := [];
      assert run + more == run;
    } else {
      var t, f := HeldFrame(s, c);
      HeldGo(s, t, f, c);
      Extend(run, Go(t, 0));
      more := [Go(t, 0)];
      if f.cpc.Locked? {
        var u := After(run + more).value;
        Blank(run, Go(t, 0), c);
        HeldGo(u, t, f.(cpc := Stored), c);
        Extend(run + more, Go(t, 0));
        assert run + more + [Go(t, 0)] == run + (more + [Go(t, 0)]);
        more := more + [Go(t, 0)];
      }
    }
  }

  /** While the cause is not set the channel is open. */
  lemma Blank(run: seq<Action>, a: Action, c: nat)
    requires After(run).Some? && After(run + [a]).Some? && var s, u := After(run).value, After(run + [a]).value;
      c < |s.ctxs| && Cancelable(s.ctxs[c]) && c < |u.nodes| && u.nodes[c].cause.None?
    ensures !Closed(After(run + [a]).value.nodes[c].done)
  {
    hide NodesOK, FramesOK, SeenOK, Do;
    WrittenOnce(run, [a]);
    NodeAt(After(run + [a]).value, c);
  }

  // ---------------------------------------------------------------- without a fate anything can happen

  /** A live context whose mutex is free. */
  predicate Free(s: State, c: nat) {
    && c < |s.nodes| == |s.ctxs| && Cancelable(s.ctxs[c]) && s.nodes[c].linked && s.nodes[c].err.None?
    && s.nodes[c].cause.None? && s.nodes[c].lock.None?
  }

  /** The mutex of a context without a fate is free, or held for the registration of a child, in one of two places. */
  lemma NoFate(s: State, c: nat) returns (t: nat, f: Frame)
    requires Inv(s) && c < |s.ctxs| && Usable(s, c) && Fate(s, c).None?
    ensures s.nodes[c].err.None? && s.nodes[c].cause.None?
    ensures s.nodes[c].lock.Some? ==>
      && Top(s, t, f) && |s.stacks[t]| == 1 && f.LinkFrame? && f.p == c && c < f.c < |s.nodes|
      && (f.lpc.Check? || f.lpc == Finish(true))
  {
    hide NodesOK, FramesOK, SeenOK, TimerOK, CancelOK;
    NodeAt(s, c);
    t, f := 0, ErrLoad(0);
    if s.nodes[c].lock.Some? {
      var h := s.nodes[c].lock.value;
      t, f := h.t, s.stacks[h.t][h.i];
      FrameAt(s, h.t, h.i);
    }
  }

  /** A registration in progress ends. */
  lemma RegisterGo(s: State, t: nat, f: Frame, c: nat)
    requires Inv(s) && Top(s, t, f) && |s.stacks[t]| == 1 && f.LinkFrame? && f.p == c && c < f.c < |s.nodes|
    requires s.nodes[c].err.None?
    requires f.lpc.Check? || f.lpc == Finish(true)
    ensures Next(s, t, 0).Some? && var u := Next(s, t, 0).value;
      && u.ctxs == s.ctxs && |u.nodes| == |s.nodes| && |u.stacks| == |s.stacks|
      && u.nodes[c] == s.nodes[c].(lock := u.nodes[c].lock, children := u.nodes[c].children)
      && if f.lpc.Check? then
           u.nodes[c].lock == s.nodes[c].lock && |u.stacks[t]| == 1 && Top(u, t, f.(lpc := Finish(true)))
         else u.nodes[c].lock.None?
  {
    hide NodesOK, FramesOK, SeenOK, Ids;
  }

  lemma FreeUp(run: seq<Action>, c: nat) returns (more: seq<Action>)
    requires After(run).Some? && var s := After(run).value; c < |s.ctxs| && Usable(s, c) && Fate(s, c).None?
    ensures After(run + more).Some? && Free(After(run + more).value, c)
    ensures After(run + more).value.ctxs == After(run).value.ctxs
  {
    hide NodesOK, FramesOK, SeenOK, Next, Ids;
    var s := After(run).value;
    InvIds(s);
    var t, f := NoFate(s, c);
    more := [];
    assert run + more == run;
    if s.nodes[c].lock.Some? {
      RegisterGo(s, t, f, c);
      Extend(run, Go(t, 0));
      more := [Go(t, 0)];
      if f.lpc.Check? {
        var u := After(run + more).value;
        InvIds(u);
        RegisterGo(u, t, f.(lpc := Finish(true)), c);
        Extend(run + more, Go(t, 0));
        assert run + more + [Go(t, 0)] == run + (more + [Go(t, 0)]);
        more := more + [Go(t, 0)];
      }
      InvIds(After(run + more).value);
      IdsLengths(After(run + more).value);
    } else {
      IdsLengths(s);
    }
  }

  lemma IdsLengths(s: State)
    requires Ids(s)
    ensures |s.nodes| == |s.ctxs| && Rooted(s.ctxs)
  {
  }

  /** The cause with which a cancel is called that is to leave `o`. */
  function Argument(x: Ctx, o: Outcome): (r: Option<Error>)
    requires OwnOutcome(x, o)
    ensures Passes(x, o.err.value, r) && (r == o.cause || (r.None? && o.cause == o.err))
  {
    if Passes(x, o.err.value, o.cause) then o.cause else None
  }

  /** A new goroutine calls the cancel of `c`. */
  lemma CallOwn(run: seq<Action>, c: nat, e: Error, x: Option<Error>) returns (more: seq<Action>, t: nat)
    requires After(run).Some? && Free(After(run).value, c) && Passes(After(run).value.ctxs[c], e, x)
    ensures After(run + more).Some? && var u := After(run + more).value;
      && Free(u, c) && t < |u.stacks| && u.stacks[t] == [CancelCall(u.ctxs, c, true, Some(e), x, true)]
  {
    hide NodesOK, FramesOK, SeenOK, Next, FrameIds, Passes;
    var s := After(run).value;
    t := |s.stacks|;
    Extend(run, Spawn);
    var call := CallCancel(t, c, e, x);
    Extend(run + [Spawn], call);
    more := [Spawn, call];
    assert run + [Spawn] + [call] == run + more;
  }

  /** A timer's cancel calls that of its cancelCtx. */
  lemma TimerGo(s: State, t: nat, c: nat, e: Error, x: Option<Error>)
    requires Inv(s) && Free(s, c) && s.ctxs[c].Timer?
    requires t < |s.stacks| && s.stacks[t] == [CancelCall(s.ctxs, c, true, Some(e), x, true)]
    ensures Next(s, t, 0).Some? && var u := Next(s, t, 0).value;
      && Free(u, c) && t < |u.stacks| && Top(u, t, CancelFrame(c, false, Some(e), x, true, Entry))
  {
    hide NodesOK, FramesOK, SeenOK, Ids;
  }

  /** With the mutex free the cancel takes it. */
  lemma EntryGo(s: State, t: nat, c: nat, e: Error, x: Option<Error>, remove: bool)
    requires Inv(s) && Free(s, c) && Top(s, t, CancelFrame(c, remove, Some(e), x, true, Entry))
    ensures Next(s, t, 0).Some? && var u := Next(s, t, 0).value;
      && c < |u.ctxs| && u.ctxs == s.ctxs && c < |u.nodes|
      && Fate(u, c) == Some(Outcome(Some(e), if x.None? then Some(e) else x))
  {
    hide NodesOK, FramesOK, SeenOK, Ids;
  }

  /**
    A live context whose mutex no cancel holds can still end as any cancel of its own leaves it, whatever its parent's
    end.
   */
  lemma AnyEnd(run: seq<Action>, c: nat, o: Outcome) returns (more: seq<Action>)
    requires After(run).Some? && var s := After(run).value;
      c < |s.ctxs| && Usable(s, c) && Fate(s, c).None? && OwnOutcome(s.ctxs[c], o)
    ensures After(run + more).Some? && var u := After(run + more).value;
      c < |u.nodes| && u.nodes[c].err == o.err && u.nodes[c].cause == o.cause && o.cause.Some?
  {
    hide Inv, After, Fate, Usable, Free, Passes, CancelCall;
    var x := Argument(After(run).value.ctxs[c], o);
    var m0 := FreeUp(run, c);
    var m1, t := CallOwn(run + m0, c, o.err.value, x);
    var m := m0 + m1;
    assert run + m0 + m1 == run + m;
    var m2 := OwnTakes(run + m, t, c, o.err.value, x);
    var m3 := Fulfil(run + m + m2, c);
    more := m + m2 + m3;
    assert run + m + m2 + m3 == run + more;
  }

  lemma OwnTakes(run: seq<Action>, t: nat, c: nat, e: Error, x: Option<Error>) returns (more: seq<Action>)
    requires After(run).Some? && var s := After(run).value;
      Free(s, c) && t < |s.stacks| && s.stacks[t] == [CancelCall(s.ctxs, c, true, Some(e), x, true)]
    ensures After(run + more).Some? && var u := After(run + more).value;
      && c < |u.ctxs| && c < |u.nodes| && Cancelable(u.ctxs[c])
      && Fate(u, c) == Some(Outcome(Some(e), if x.None? then Some(e) else x))
  {
    hide NodesOK, FramesOK, SeenOK, Next, Ids, Fate;
    var s := After(run).value;
    more := [];
    assert run + more == run;
    if s.ctxs[c].Timer? {
      TimerGo(s, t, c, e, x);
      Extend(run, Go(t, 0));
      more := [Go(t, 0)];
    }
    var u := After(run + more).value;
    EntryGo(u, t, c, e, x, !s.ctxs[c].Timer?);
    Extend(run + more, Go(t, 0));
    assert run + more + [Go(t, 0)] == run + (more + [Go(t, 0)]);
    more := more + [Go(t, 0)];
  }

  // ---------------------------------------------------------------- a child and its canceled parent

  /** In every continuation in which both have a cause, `c` has the error and cause of `p`. */
  ghost predicate AlwaysTakes(run: seq<Action>, c: nat, p: nat) {
    forall more :: After(run + more).Some? ==> var u := After(run + more).value;
      c < |u.nodes| && p < |u.nodes| && u.nodes[c].cause.Some? && u.nodes[p].cause.Some? ==>
        u.nodes[c].err == u.nodes[p].err && u.nodes[c].cause == u.nodes[p].cause
  }

  /** A canceled context has a fate. */
  lemma CanceledHasFate(s: State, p: nat)
    requires Inv(s) && p < |s.ctxs| && Cancelable(s.ctxs[p]) && s.nodes[p].err.Some?
    ensures Fate(s, p).Some?
  {
    hide NodesOK, FramesOK, SeenOK;
    NodeAt(s, p);
  }

  lemma FateIsEnd(s: State, c: nat)
    requires c < |s.nodes| && s.nodes[c].cause.Some?
    ensures Fate(s, c) == Some(Outcome(s.nodes[c].err, s.nodes[c].cause))
  {
  }

  /** Every end that a cancel of its own can give `c` is `o`. */
  ghost predicate OnlyEnd(x: Ctx, o: Option<Outcome>) { forall own :: OwnOutcome(x, own) ==> o == Some(own) }

  /** That is so of a context of WithCancel, which ends as Canceled without a cause, and of a timer that began late. */
  lemma OnlyEndIs(x: Ctx, o: Outcome)
    requires Cancelable(x)
    ensures OnlyEnd(x, Some(o)) <==>
      || (x.Cancel? && !x.causes && o == Outcome(Some(CANCELED), Some(CANCELED)))
      || (&& x.Timer? && x.late
          && o == Outcome(Some(DEADLINE_EXCEEDED), if x.cause.Some? then x.cause else Some(DEADLINE_EXCEEDED)))
  {
    if x.Cancel? {
      assert OwnOutcome(x, Outcome(Some(CANCELED), Some(CANCELED)));
      assert x.causes ==> OwnOutcome(x, Outcome(Some(CANCELED), Some(DEADLINE_EXCEEDED)));
    } else {
      var cause := if x.cause.Some? then x.cause else Some(DEADLINE_EXCEEDED);
      assert OwnOutcome(x, Outcome(Some(DEADLINE_EXCEEDED), cause));
      assert !x.late ==> OwnOutcome(x, Outcome(Some(CANCELED), Some(CANCELED)));
    }
  }

  /**
    A child is sure to take its canceled parent's error and cause if and only if it already has them, or a cancel with
    that error and cause holds its mutex, or no cancel holds it and its own cancels all bring that error and cause.
   */
  lemma TakesExactly(run: seq<Action>, c: nat, p: nat)
    requires After(run).Some? && var s := After(run).value;
      c < |s.ctxs| && Usable(s, c) && FedBy(s.ctxs, c, p) && p < |s.nodes| && s.nodes[p].err.Some?
    ensures Fate(After(run).value, p).Some?
    ensures var s := After(run).value;
      AlwaysTakes(run, c, p) <==> Fate(s, c) == Fate(s, p) || (Fate(s, c).None? && OnlyEnd(s.ctxs[c], Fate(s, p)))
  {
    hide NodesOK, FramesOK, SeenOK, Ids, Above, AlwaysTakes;
    var s := After(run).value;
    FedAbove(s, c, p);
    CanceledHasFate(s, p);
    if Fate(s, c) == Fate(s, p) {
      SameFate(run, c, p);
    } else if Fate(s, c).None? && OnlyEnd(s.ctxs[c], Fate(s, p)) {
      SameEnds(run, c, p);
    } else {
      OtherFate(run, c, p);
    }
  }

  lemma FedAbove(s: State, c: nat, p: nat)
    requires Inv(s) && Usable(s, c) && FedBy(s.ctxs, c, p)
    ensures p < |s.ctxs| && Cancelable(s.ctxs[p]) && Above(s.ctxs, c) == Some(p)
  {
    hide NodesOK, FramesOK, SeenOK;
    AboveIs(s.ctxs, c, p);
  }

  /** A cancel passed down from above that holds the mutex of `c` brings it its parent's error and cause. */
  lemma PassedDown(s: State, c: nat, p: nat)
    requires Inv(s) && c < |s.ctxs| && Cancelable(s.ctxs[c]) && s.nodes[c].cause.None? && Held(s, c)
    requires !Owner(s, c).direct
    requires FedBy(s.ctxs, c, p)
    ensures p < |s.nodes| && Fate(s, c) == Fate(s, p) && s.nodes[p].cause.Some?
  {
    hide NodesOK, FramesOK, SeenOK, TimerOK, LinkOK;
    AboveIs(s.ctxs, c, p);
    var t, f := HeldFrame(s, c);
    FrameAt(s, t, |s.stacks[t]| - 1);
  }

  lemma SameFate(run: seq<Action>, c: nat, p: nat)
    requires After(run).Some? && var s := After(run).value;
      && c < |s.ctxs| && Cancelable(s.ctxs[c]) && p < |s.ctxs| && Cancelable(s.ctxs[p]) && Fate(s, p).Some?
      && Fate(s, c) == Fate(s, p)
    ensures AlwaysTakes(run, c, p)
  {
    hide Inv, Fate;
    forall more | After(run + more).Some?
      ensures var u := After(run + more).value;
        c < |u.nodes| && p < |u.nodes| && u.nodes[c].cause.Some? && u.nodes[p].cause.Some? ==>
          u.nodes[c].err == u.nodes[p].err && u.nodes[c].cause == u.nodes[p].cause
    {
      var u := After(run + more).value;
      FateStays(run, more, c);
      FateStays(run, more, p);
      if c < |u.nodes| && p < |u.nodes| && u.nodes[c].cause.Some? && u.nodes[p].cause.Some? {
        FateIsEnd(u, c);
        FateIsEnd(u, p);
      }
    }
  }

  /** Whichever cancel comes first, of the child or passed down, brings the same. */
  lemma SameEnds(run: seq<Action>, c: nat, p: nat)
    requires After(run).Some? && var s := After(run).value;
      && c < |s.ctxs| && Cancelable(s.ctxs[c]) && Above(s.ctxs, c) == Some(p) && Fate(s, p).Some?
      && OnlyEnd(s.ctxs[c], Fate(s, p))
    ensures AlwaysTakes(run, c, p)
  {
    hide Inv, Fate, OwnOutcome, Called;
    var s := After(run).value;
    forall more | After(run + more).Some?
      ensures var u := After(run + more).value;
        c < |u.nodes| && p < |u.nodes| && u.nodes[c].cause.Some? && u.nodes[p].cause.Some? ==>
          u.nodes[c].err == u.nodes[p].err && u.nodes[c].cause == u.nodes[p].cause
    {
      var u := After(run + more).value;
      FateStays(run, more, p);
      WrittenOnce(run, more);
      if c < |u.nodes| && p < |u.nodes| && u.nodes[c].cause.Some? && u.nodes[p].cause.Some? {
        FateIsEnd(u, p);
        InvIds(s);
        InvIds(u);
        AbovePrefix(s.ctxs, u.ctxs);
        OwnOrAbove(run + more, c);
        if Called(run + more, c, u.nodes[c].err, u.nodes[c].cause) {
          CallsPass(run + more, c, u.nodes[c].err, u.nodes[c].cause);
        }
      }
    }
  }

  lemma OtherFate(run: seq<Action>, c: nat, p: nat)
    requires After(run).Some? && var s := After(run).value;
      && c < |s.ctxs| && Usable(s, c) && p < |s.ctxs| && Cancelable(s.ctxs[p]) && Fate(s, p).Some?
      && Fate(s, c) != Fate(s, p)
    requires var s := After(run).value; Fate(s, c).None? ==> !OnlyEnd(s.ctxs[c], Fate(s, p))
    ensures !AlwaysTakes(run, c, p)
  {
    hide NodesOK, FramesOK, SeenOK, Fate, AlwaysTakes, After;
    var s := After(run).value;
    var o := Fate(s, p).value;
    var first;
    if Fate(s, c).Some? {
      first := Fulfil(run, c);
    } else {
      var own :| OwnOutcome(s.ctxs[c], own) && own != o;
      first := AnyEnd(run, c, own);
    }
    var u := After(run + first).value;
    FateStays(run, first, p);
    var then_ := Fulfil(run + first, p);
    var v := After(run + first + then_).value;
    WrittenOnce(run, first);
    WrittenOnce(run + first, then_);
    NodeHasErr(u, c);
    assert Grows(u.nodes[c], v.nodes[c]);
    assert run + first + then_ == run + (first + then_);
    Differs(run, first + then_, c, p);
  }

  lemma Differs(run: seq<Action>, more: seq<Action>, c: nat, p: nat)
    requires After(run + more).Some? && var u := After(run + more).value;
      c < |u.nodes| && p < |u.nodes| && u.nodes[c].cause.Some? && u.nodes[p].cause.Some?
      && (u.nodes[c].err != u.nodes[p].err || u.nodes[c].cause != u.nodes[p].cause)
    ensures !AlwaysTakes(run, c, p)
  {
  }
}
