/** Every call on a pipe that was closed returns, whatever the order of the steps. */
module PipeEnds {
  import opened Options
  import opened Pipe
  import opened PipeRuns
  import opened PipeResults

  /** A bound on the steps a call has left, apart from those of a write that wait for reads. */
  function Rank(c: Call): nat {
    match c
    case Reader(_, pc) =>
      (match pc
       case RStart => 4
       case RSelect => 3
       case RGot(_) => 2
       case RErr => 2
       case RSend(_) => 1
       case RErr2(_) => 1
       case RDone(_, _) => 0)
    case Writer(_, _, _, pc) =>
      (match pc
       case WStart => 5
       case WLock => 4
       case WSelect => 3
       case WAwait => 3
       case WErr => 2
       case WErr2(_) => 1
       case WDone(_) => 0)
    case Closer(_, _, pc) => if pc.CStore? then 2 else if pc.CClose? then 1 else 0
  }

  function Work(cs: seq<Call>): nat { if cs == [] then 0 else Work(cs[..|cs|-1]) + Rank(cs[|cs|-1]) }

  lemma {:induction false} WorkUpdate(cs: seq<Call>, i: nat, c: Call)
    requires i < |cs|
    ensures Work(cs[i := c]) == Work(cs) - Rank(cs[i]) + Rank(c)
    decreases |cs|
  {
    hide Rank;
    var ds, last := cs[i := c], |cs| - 1;
    if i == last {
      assert ds[..last] == cs[..last];
    } else {
      WorkUpdate(cs[..last], i, c);
      assert ds[..last] == cs[..last][i := c];
    }
  }

  /** A step of call `i` alone, which uses up work. */
  predicate BringsOn(s: State, u: State, i: nat) {
    i < |s.calls| == |u.calls| && u.calls == s.calls[i := u.calls[i]] && Rank(u.calls[i]) < Rank(s.calls[i])
  }

  lemma SetBringsOn(s: State, u: State, i: nat, c: Call)
    requires i < |s.calls| && u.calls == s.calls[i := c] && Rank(c) < Rank(s.calls[i])
    ensures BringsOn(s, u, i)
  {
  }

  lemma WriterStep(s: State, i: nat)
    requires i < |s.calls| && s.calls[i].Writer? && Step(s, i).Some?
    ensures BringsOn(s, Step(s, i).value, i)
  {
    hide BringsOn;
    var u := Step(s, i).value;
    SetBringsOn(s, u, i, u.calls[i]);
  }

  lemma StepCall(s: State, i: nat)
    requires i < |s.calls| && Step(s, i).Some?
    ensures BringsOn(s, Step(s, i).value, i)
  {
    hide BringsOn;
    var u := Step(s, i).value;
    if s.calls[i].Writer? { WriterStep(s, i); } else { SetBringsOn(s, u, i, u.calls[i]); }
  }

  /** A handoff and its acknowledgement bring the read on, and leave the write no further back. */
  lemma PairCalls(s: State, a: Action)
    requires Inv(s) && (a.Meet? || a.Ack?) && Do(s, a).Some?
    ensures a.r < |s.calls| && a.w < |s.calls| && a.r != a.w
    ensures var u := Do(s, a).value;
      && |u.calls| == |s.calls| && u.calls == s.calls[a.r := u.calls[a.r]][a.w := u.calls[a.w]]
      && Rank(u.calls[a.r]) < Rank(s.calls[a.r]) && Rank(u.calls[a.w]) <= Rank(s.calls[a.w])
  {
    hide Inv;
    var u := Do(s, a).value;
    if a.Ack? { AckKeeps(s, a.r, a.w); PanicFree(u); }
  }

  lemma PanicFree(s: State)
    requires Inv(s)
    ensures !s.panicked
  {
  }

  /** Every step of a running call uses up work. */
  lemma WorkFalls(s: State, a: Action)
    requires Inv(s) && Internal(a) && Do(s, a).Some?
    ensures Work(Do(s, a).value.calls) < Work(s.calls)
  {
    hide Inv, Rank, Work, Step;
    if a.Go? {
      StepCall(s, a.i);
      WorkUpdate(s.calls, a.i, Do(s, a).value.calls[a.i]);
    } else {
      PairCalls(s, a);
      var u := Do(s, a).value;
      WorkUpdate(s.calls, a.r, u.calls[a.r]);
      WorkUpdate(s.calls[a.r := u.calls[a.r]], a.w, u.calls[a.w]);
    }
  }

  predicate AllInternal(more: seq<Action>) { forall i :: 0 <= i < |more| ==> Internal(more[i]) }

  /** While no new call is made, there are no more steps than there is work. */
  lemma {:induction false} StepsAreFew(run: seq<Action>, more: seq<Action>)
    requires After(run + more).Some? && AllInternal(more)
    ensures After(run).Some? && |more| + Work(After(run + more).value.calls) <= Work(After(run).value.calls)
  {
    hide Inv, Do, Work;
    if more == [] {
      assert run + more == run;
    } else {
      var last := |more| - 1;
      assert (run + more)[..|run + more| - 1] == run + more[..last];
      StepsAreFew(run, more[..last]);
      WorkFalls(After(run + more[..last]).value, more[last]);
    }
  }

  /**
    After a close, steps of the running calls in any order come to an end, and when no more is possible every call has
    returned.
   */
  lemma AllReturn(run: seq<Action>, more: seq<Action>)
    requires After(run + more).Some? && After(run).Some? && After(run).value.done && AllInternal(more)
    ensures |more| <= Work(After(run).value.calls)
    ensures (forall a :: Internal(a) ==> Do(After(run + more).value, a).None?) ==>
      forall i :: 0 <= i < |After(run + more).value.calls| ==> !Unfinished(After(run + more).value.calls[i])
  {
    hide Inv, Do, Work, Unfinished;
    StepsAreFew(run, more);
    StoredOnce(run, more);
    var u := After(run + more).value;
    if forall a :: Internal(a) ==> Do(u, a).None? {
      forall i | 0 <= i < |u.calls| ensures !Unfinished(u.calls[i]) {
        if Unfinished(u.calls[i]) { var a := Progress(run + more, i, i); }
      }
    }
  }

  /** So they can all be brought to return. */
  lemma {:induction false} CanReturn(run: seq<Action>) returns (more: seq<Action>)
    requires After(run).Some? && After(run).value.done
    ensures AllInternal(more) && After(run + more).Some?
    ensures forall i :: 0 <= i < |After(run + more).value.calls| ==> !Unfinished(After(run + more).value.calls[i])
    decreases Work(After(run).value.calls)
  {
    hide Inv, Do, Work, Unfinished;
    var s := After(run).value;
    if i :| 0 <= i < |s.calls| && Unfinished(s.calls[i]) {
      var a := Progress(run, i, i);
      assert (run + [a])[..|run|] == run;
      WorkFalls(s, a);
      StoredOnce(run, [a]);
      var rest := CanReturn(run + [a]);
      more := [a] + rest;
      assert run + [a] + rest == run + more;
    } else {
      more := [];
      assert run + more == run;
    }
  }
}
