/**
  A child live when its parent is canceled need not take the parent's cause: a cancel of its own can come in between.
 */
module ContextRace {
  import opened Options
  import opened ContextTree
  import opened ContextCancel
  import opened ContextSafety
  import opened ContextRuns

  /** Equality of states, field by field. */
  predicate Same(r: State, u: State) {
    && r.ctxs == u.ctxs && r.nodes == u.nodes && r.seen == u.seen && r.panicked == u.panicked
    && |r.stacks| == |u.stacks| && forall t :: 0 <= t < |r.stacks| ==> r.stacks[t] == u.stacks[t]
  }

  lemma Then(run: seq<Action>, s: State, a: Action, u: State) returns (longer: seq<Action>)
    requires After(run) == Some(s) && Ids(s) && Do(s, a).Some? && Same(Do(s, a).value, u)
    ensures longer == run + [a] && After(longer) == Some(u) && Ids(u)
  {
    assert (run + [a])[..|run + [a]| - 1] == run;
    assert Do(s, a).value.stacks == u.stacks;
    longer := run + [a];
  }

  lemma Begin()
    ensures After([]) == Some(START) && Ids(START)
  {
  }

  const LINKED := BLANK.(linked := true)

  /** A background context, a parent 1 and a child 2, used by two goroutines. */
  function Pair(parent: Node, child: Node, left: seq<Frame>, right: seq<Frame>): State {
    State([Background, Cancel(0, true), Cancel(1, true)], [LINKED, parent, child], [left, right], {}, false)
  }

  lemma Spawned() returns (run: seq<Action>)
    ensures After(run) == Some(State([], [], [[], []], {}, false)) && Ids(State([], [], [[], []], {}, false))
  {
    hide After, Inv, FrameIds, Next;
    Begin();
    run := Then([], START, Spawn, State([], [], [[]], {}, false));
    run := Then(run, State([], [], [[]], {}, false), Spawn, State([], [], [[], []], {}, false));
  }

  /** The parent is being derived. */
  lemma Parented() returns (run: seq<Action>)
    ensures var u := State([Background, Cancel(0, true)], [LINKED, BLANK], [[LinkStart(1)], []], {}, false);
      After(run) == Some(u) && Ids(u)
  {
    hide After, Inv, FrameIds, Next;
    var two := State([], [], [[], []], {}, false);
    run := Spawned();
    var top := State([Background], [LINKED], [[], []], {}, false);
    run := Then(run, two, Derive(0, Background), top);
    run := Then(run, top, Derive(0, Cancel(0, true)),
      State([Background, Cancel(0, true)], [LINKED, BLANK], [[LinkStart(1)], []], {}, false));
  }

  lemma Derived() returns (run: seq<Action>)
    ensures After(run) == Some(Pair(LINKED, BLANK, [LinkStart(2)], [])) && Ids(Pair(LINKED, BLANK, [LinkStart(2)], []))
  {
    hide After, Inv, FrameIds, TimerStep, RemoveStep, ErrStep, CancelStep;
    var one := State([Background, Cancel(0, true)], [LINKED, BLANK], [[LinkStart(1)], []], {}, false);
    run := Parented();
    var ready := State([Background, Cancel(0, true)], [LINKED, LINKED], [[], []], {}, false);
    run := Then(run, one, Go(0, 0), ready);
    run := Then(run, ready, Derive(0, Cancel(1, true)), Pair(LINKED, BLANK, [LinkStart(2)], []));
  }

  lemma Locking() returns (run: seq<Action>)
    ensures var u := Pair(LINKED.(done := Own(false), lock := Some(Holder(0, 0))), BLANK, [LinkFrame(2, 1, Check)], []);
      After(run) == Some(u) && Ids(u)
  {
    hide After, Inv, FrameIds, TimerStep, RemoveStep, ErrStep, CancelStep;
    var p := LINKED.(done := Own(false));
    run := Derived();
    run := Then(run, Pair(LINKED, BLANK, [LinkStart(2)], []), Go(0, 0), Pair(p, BLANK, [LinkFrame(2, 1, Select)], []));
    run := Then(run, Pair(p, BLANK, [LinkFrame(2, 1, Select)], []), Go(0, 0),
      Pair(p, BLANK, [LinkFrame(2, 1, Find)], []));
    run := Then(run, Pair(p, BLANK, [LinkFrame(2, 1, Find)], []), Go(0, 0),
      Pair(p, BLANK, [LinkFrame(2, 1, Lock)], []));
    var q := p.(lock := Some(Holder(0, 0)));
    run := Then(run, Pair(p, BLANK, [LinkFrame(2, 1, Lock)], []), Go(0, 0),
      Pair(q, BLANK, [LinkFrame(2, 1, Check)], []));
  }

  lemma Linked() returns (run: seq<Action>)
    ensures var u := Pair(LINKED.(done := Own(false), children := {2}), LINKED, [], []); After(run) == Some(u) && Ids(u)
  {
    hide After, Inv, FrameIds, TimerStep, RemoveStep, ErrStep, CancelStep;
    var q := LINKED.(done := Own(false), lock := Some(Holder(0, 0)));
    run := Locking();
    var r := q.(children := {2});
    assert q.children + {2} == {2};
    run := Then(run, Pair(q, BLANK, [LinkFrame(2, 1, Check)], []), Go(0, 0),
      Pair(r, LINKED, [LinkFrame(2, 1, Finish(true))], []));
    run := Then(run, Pair(r, LINKED, [LinkFrame(2, 1, Finish(true))], []), Go(0, 0),
      Pair(r.(lock := None), LINKED, [], []));
  }

  function Own2(cause: nat, c: nat, pc: CancelPc): Frame { CancelFrame(c, true, Some(CANCELED), Some(cause), true, pc) }

  /** The parent, its error stored and its child not yet canceled. */
  const HIT := LINKED.(
    done := Own(false), children := {2}, lock := Some(Holder(0, 0)), err := Some(CANCELED), direct := true)

  /** The child, canceled on its own as far as its cause. */
  const ENDED := LINKED.(
    lock := Some(Holder(1, 0)), err := Some(CANCELED), direct := true, cause := Some(9), done := Shared)

  /** The parent's error is stored, the child still live. */
  lemma Hit() returns (run: seq<Action>)
    ensures var u := Pair(HIT, LINKED, [Own2(7, 1, Stored)], []); After(run) == Some(u) && Ids(u)
  {
    hide After, Inv, FrameIds, Above, LinkStep, TimerStep, RemoveStep, ErrStep;
    var p := LINKED.(done := Own(false), children := {2});
    run := Linked();
    run := Then(run, Pair(p, LINKED, [], []), CallCancel(0, 1, CANCELED, Some(7)),
      Pair(p, LINKED, [Own2(7, 1, Entry)], []));
    var q := p.(lock := Some(Holder(0, 0)));
    run := Then(run, Pair(p, LINKED, [Own2(7, 1, Entry)], []), Go(0, 0), Pair(q, LINKED, [Own2(7, 1, Locked)], []));
    run := Then(run, Pair(q, LINKED, [Own2(7, 1, Locked)], []), Go(0, 0),
      Pair(q.(err := Some(CANCELED), direct := true), LINKED, [Own2(7, 1, Stored)], []));
  }

  /** From there the child is canceled on its own, as far as its cause. */
  lemma OwnCause(hit: seq<Action>, p: Node, left: seq<Frame>) returns (run: seq<Action>)
    requires After(hit) == Some(Pair(p, LINKED, left, [])) && Ids(Pair(p, LINKED, left, [])) && left != []
    ensures |hit| <= |run| && run[..|hit|] == hit
    ensures var u := Pair(p, ENDED, left, [Own2(9, 2, Loop({}))]);
      After(run) == Some(u) && Ids(u)
  {
    hide After, Inv, FrameIds, Above, LinkStep, TimerStep, RemoveStep, ErrStep;
    run := Then(hit, Pair(p, LINKED, left, []), CallCancel(1, 2, CANCELED, Some(9)),
      Pair(p, LINKED, left, [Own2(9, 2, Entry)]));
    var c := LINKED.(lock := Some(Holder(1, 0)));
    run := Then(run, Pair(p, LINKED, left, [Own2(9, 2, Entry)]), Go(1, 0), Pair(p, c, left, [Own2(9, 2, Locked)]));
    var d := c.(err := Some(CANCELED), direct := true);
    run := Then(run, Pair(p, c, left, [Own2(9, 2, Locked)]), Go(1, 0), Pair(p, d, left, [Own2(9, 2, Stored)]));
    var e := d.(cause := Some(9), done := Shared);
    run := Then(run, Pair(p, d, left, [Own2(9, 2, Stored)]), Go(1, 0), Pair(p, e, left, [Own2(9, 2, Loop({}))]));
  }

  /** In a run that can happen, a child live when its parent's error was stored ends with a cause of its own. */
  lemma CauseRace() returns (hit: seq<Action>, more: seq<Action>)
    ensures After(hit).Some? && After(hit + more).Some?
    ensures var s, u := After(hit).value, After(hit + more).value;
      && |s.nodes| == |u.nodes| == 3 && u.ctxs == [Background, Cancel(0, true), Cancel(1, true)]
      && s.nodes[1].err.Some? && s.nodes[2].err.None?
      && u.nodes[1].cause.Some? && u.nodes[2].cause.Some? && u.nodes[1].cause != u.nodes[2].cause
  {
    hide After, Inv, FrameIds, Above, LinkStep, TimerStep, RemoveStep, ErrStep;
    hit := Hit();
    var p := HIT;
    var left := [Own2(7, 1, Stored)];
    var run := OwnCause(hit, p, left);
    var e := ENDED;
    assert run == hit + run[|hit|..];
    var q := p.(cause := Some(7), done := Own(true));
    run := Then(run, Pair(p, e, left, [Own2(9, 2, Loop({}))]), Go(0, 0),
      Pair(q, e, [Own2(7, 1, Loop({2}))], [Own2(9, 2, Loop({}))]));
    more := run[|hit|..];
    assert hit + more == run;
  }
}
