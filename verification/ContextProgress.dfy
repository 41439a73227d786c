/** The mutexes of the cancellation protocol cannot deadlock; what Err and the done channel promise. */
module ContextProgress {
  import opened Options
  import opened ContextTree
  import opened ContextCancel
  import opened ContextSafety
  import opened ContextSteps
  import opened ContextRuns

  /**
    No done channel is closed twice, no cancel is called without an error, the watcher goroutine is never needed, and
    Err waits for done.
   */
  lemma Safe(run: seq<Action>)
    requires After(run).Some?
    ensures var s := After(run).value;
      && !s.panicked
      && (forall t, i ::
            0 <= t < |s.stacks| && 0 <= i < |s.stacks[t]| ==> !(s.stacks[t][i].LinkFrame? && s.stacks[t][i].lpc.Watch?))
      && (forall x :: x in s.seen ==> x.0 < |s.nodes| && s.nodes[x.0].err == Some(x.1) && Closed(s.nodes[x.0].done))
  {
    hide FrameOK;
    var s := After(run).value;
    forall t, i | 0 <= t < |s.stacks| && 0 <= i < |s.stacks[t]|
      ensures !(s.stacks[t][i].LinkFrame? && s.stacks[t][i].lpc.Watch?)
    {
      FrameAt(s, t, i);
      NoWatch(s, t, i);
    }
  }

  lemma NoWatch(s: State, t: nat, i: nat)
    requires Ids(s) && t < |s.stacks| && i < |s.stacks[t]| && FrameOK(s, t, i)
    ensures !(s.stacks[t][i].LinkFrame? && s.stacks[t][i].lpc.Watch?)
  {
  }

  /** A frame in a call, and the frame it called. */
  lemma CalledBelow(s: State, t: nat, i: nat)
    requires Inv(s) && t < |s.stacks| && i + 1 < |s.stacks[t]|
    ensures var f, g := s.stacks[t][i], s.stacks[t][i+1];
      && (Holds(f).Some? ==> (g.CancelFrame? || g.TimerFrame?) && !g.remove && g.c > Holds(f).value)
      && (f.TimerFrame? && !f.remove ==> g.CancelFrame? && !g.remove && g.c == f.c)
  {
    hide NodesOK, FramesOK, SeenOK, CoreOK, Reaches, Inherited;
    FrameAt(s, t, i);
    FrameAt(s, t, i + 1);
    var f := s.stacks[t][i];
    if f.CancelFrame? && f.cpc.Calling? {
      NodeAt(s, f.c);
      ChildAbove(s, f.c, f.cpc.k);
    }
  }

  lemma ChildAbove(s: State, c: nat, k: nat)
    requires Ids(s) && c < |s.ctxs| && Cancelable(s.ctxs[c]) && CoreOK(s, c) && k in s.nodes[c].children
    ensures k > c
  {
  }

  /** Above a frame that holds a mutex run only cancels of contexts further down. */
  lemma {:induction false} AboveHolder(s: State, t: nat, i: nat, j: nat)
    requires Inv(s) && t < |s.stacks| && i < j < |s.stacks[t]| && Holds(s.stacks[t][i]).Some?
    ensures var g := s.stacks[t][j];
      (g.CancelFrame? || g.TimerFrame?) && !g.remove && g.c > Holds(s.stacks[t][i]).value
    decreases j
  {
    hide Inv, FrameOK;
    CalledBelow(s, t, j - 1);
    if j - 1 > i {
      AboveHolder(s, t, i, j - 1);
      if s.stacks[t][j-1].CancelFrame? { CancelHolds(s, t, j - 1); }
    }
  }

  lemma CancelHolds(s: State, t: nat, i: nat)
    requires Inv(s) && t < |s.stacks| && i + 1 < |s.stacks[t]| && s.stacks[t][i].CancelFrame?
    ensures Holds(s.stacks[t][i]) == Some(s.stacks[t][i].c)
  {
    hide NodesOK, FramesOK, SeenOK;
    FrameAt(s, t, i);
  }

  /** Where the mutex of `c` is held, some goroutine can run: its holder, or one that holds a mutex further down. */
  lemma HolderRuns(s: State, c: nat) returns (t: nat, pick: nat)
    requires Inv(s) && c < |s.nodes| && Cancelable(s.ctxs[c]) && s.nodes[c].lock.Some?
    ensures Next(s, t, pick).Some?
    decreases |s.nodes| - c
  {
    hide NodesOK, FramesOK, SeenOK, FrameOK, Reaches, Next;
    NodeAt(s, c);
    var i := s.nodes[c].lock.value.i;
    t := s.nodes[c].lock.value.t;
    var top := |s.stacks[t]| - 1;
    if i == top {
      pick := TopHolderRuns(s, t, c);
    } else {
      AboveHolder(s, t, i, top);
      var g := s.stacks[t][top];
      if s.nodes[g.c].lock.Some? && (g.TimerFrame? || g.cpc.Entry?) {
        t, pick := HolderRuns(s, g.c);
      } else {
        pick := TopCancelRuns(s, t);
      }
    }
  }

  lemma TopHolderRuns(s: State, t: nat, c: nat) returns (pick: nat)
    requires Inv(s) && t < |s.stacks| && s.stacks[t] != [] && Holds(s.stacks[t][|s.stacks[t]|-1]) == Some(c)
    ensures Next(s, t, pick).Some?
  {
    hide NodesOK, FramesOK, SeenOK, Inherited, TimerOK;
    var f := s.stacks[t][|s.stacks[t]|-1];
    FrameAt(s, t, |s.stacks[t]| - 1);
    pick := if f.CancelFrame? && f.cpc.Loop? then Any(f.cpc.rest) else 0;
  }

  lemma TopCancelRuns(s: State, t: nat) returns (pick: nat)
    requires Inv(s) && t < |s.stacks| && s.stacks[t] != []
    requires var f := s.stacks[t][|s.stacks[t]|-1];
      (f.CancelFrame? || f.TimerFrame?) && (s.nodes[f.c].lock.Some? ==> f.CancelFrame? && !f.cpc.Entry?)
    ensures Next(s, t, pick).Some?
  {
    hide NodesOK, FramesOK, SeenOK, Inherited, LinkOK;
    var f := s.stacks[t][|s.stacks[t]|-1];
    FrameAt(s, t, |s.stacks[t]| - 1);
    pick := if f.CancelFrame? && f.cpc.Loop? then Any(f.cpc.rest) else 0;
  }

  ghost function Any(r: set<nat>): (k: nat)
    ensures r != {} ==> k in r
  {
    if r != {} then var k :| k in r; k else 0
  }

  /** While any call is in progress, some goroutine can take a step. */
  lemma Progress(run: seq<Action>, t0: nat) returns (t: nat, pick: nat)
    requires After(run).Some? && var s := After(run).value; t0 < |s.stacks| && s.stacks[t0] != []
    ensures Next(After(run).value, t, pick).Some?
  {
    hide NodesOK, FramesOK, SeenOK, FrameOK, Next;
    var s := After(run).value;
    var f := s.stacks[t0][|s.stacks[t0]|-1];
    FrameAt(s, t0, |s.stacks[t0]| - 1);
    var c := Awaits(s, t0);
    if c.Some? && s.nodes[c.value].lock.Some? {
      t, pick := HolderRuns(s, c.value);
    } else {
      t := t0;
      pick := TopRuns(s, t0);
    }
  }

  /** The node whose mutex the next step of a goroutine needs. */
  function Awaits(s: State, t: nat): (r: Option<nat>)
    requires Inv(s) && t < |s.stacks| && s.stacks[t] != []
    ensures r.Some? ==> r.value < |s.ctxs| && Cancelable(s.ctxs[r.value])
  {
    var f := s.stacks[t][|s.stacks[t]|-1];
    assert FrameIds(s.ctxs, f);
    match f
    case CancelFrame(c, _, _, _, _, pc) => if pc.Entry? then Some(c) else None
    case TimerFrame(c, _, _, _, _, pc) => if pc.TStop? then Some(c) else None
    case RemoveFrame(c) => Above(s.ctxs, c)
    case DeleteFrame(c, p) => Some(p)
    case LinkStart(c) => Above(s.ctxs, c)
    case LinkFrame(_, p, pc) => if pc.GetCause? || pc.Lock? then Some(p) else None
    case ErrLoad(_) => None
    case ErrWait(c, _) => Some(c)
  }

  lemma TopRuns(s: State, t: nat) returns (pick: nat)
    requires Inv(s) && t < |s.stacks| && s.stacks[t] != []
    requires Awaits(s, t).Some? ==> s.nodes[Awaits(s, t).value].lock.None?
    ensures Next(s, t, pick).Some?
  {
    hide NodesOK, FramesOK, SeenOK, Inherited, Reaches;
    var f := s.stacks[t][|s.stacks[t]|-1];
    FrameAt(s, t, |s.stacks[t]| - 1);
    pick := 0;
    if f.CancelFrame? {
      pick := if f.cpc.Loop? then Any(f.cpc.rest) else 0;
    } else if f.ErrWait? {
      NodeAt(s, f.c);
    }
  }
}
