/** Which errors the ends of a pipe give out: those it was closed with, and ErrClosedPipe to an end's own calls. */
module PipeErrors {
  import opened Bytes
  import opened Options
  import opened Pipe
  import opened PipeRuns
  import opened PipeResults

  // ---------------------------------------------------------------- the errors of the closes

  /** The run has a call that closes the write end with `e`; io.EOF is for a close without an error. */
  predicate WriteClosed(run: seq<Action>, e: Error) {
    exists i :: 0 <= i < |run| && (run[i] == CloseWrite(Some(e)) || (run[i] == CloseWrite(None) && e == EOF))
  }

  /** The run has a call that closes the read end with `e`; ErrClosedPipe is for a close without an error. */
  predicate ReadClosed(run: seq<Action>, e: Error) {
    exists i :: 0 <= i < |run| && (run[i] == CloseRead(Some(e)) || (run[i] == CloseRead(None) && e == ERR_CLOSED_PIPE))
  }

  predicate ErrorsFrom(run: seq<Action>, s: State) {
    && (s.werr.Some? ==> WriteClosed(run, s.werr.value))
    && (s.rerr.Some? ==> ReadClosed(run, s.rerr.value))
    && forall i :: 0 <= i < |s.calls| && s.calls[i].Closer? ==>
         if s.calls[i].read then ReadClosed(run, s.calls[i].err) else WriteClosed(run, s.calls[i].err)
  }

  lemma ClosedLonger(run: seq<Action>, a: Action)
    ensures forall e :: WriteClosed(run, e) ==> WriteClosed(run + [a], e)
    ensures forall e :: ReadClosed(run, e) ==> ReadClosed(run + [a], e)
  {
    assert forall i :: 0 <= i < |run| ==> (run + [a])[i] == run[i];
  }

  lemma ClosedNow(run: seq<Action>, a: Action, e: Error)
    ensures a == CloseWrite(Some(e)) || (a == CloseWrite(None) && e == EOF) ==> WriteClosed(run + [a], e)
    ensures a == CloseRead(Some(e)) || (a == CloseRead(None) && e == ERR_CLOSED_PIPE) ==> ReadClosed(run + [a], e)
  {
    assert (run + [a])[|run|] == a;
  }

  /** A close keeps its error, and what gets stored is that of a close. */
  predicate ErrorsKept(s: State, u: State) {
    && |s.calls| <= |u.calls|
    && (u.werr != s.werr ==> u.werr.Some? && exists i ::
          0 <= i < |s.calls| && s.calls[i].Closer? && !s.calls[i].read && u.werr.value == s.calls[i].err)
    && (u.rerr != s.rerr ==> u.rerr.Some? && exists i ::
          0 <= i < |s.calls| && s.calls[i].Closer? && s.calls[i].read && u.rerr.value == s.calls[i].err)
    && (forall i :: 0 <= i < |s.calls| && u.calls[i].Closer? ==>
          s.calls[i].Closer? && u.calls[i].read == s.calls[i].read && u.calls[i].err == s.calls[i].err)
  }

  /** A close that begins has its error from its caller. */
  predicate ErrorOf(c: Call, a: Action) {
    c.Closer? ==>
      if c.read then a == CloseRead(Some(c.err)) || (a == CloseRead(None) && c.err == ERR_CLOSED_PIPE)
      else a == CloseWrite(Some(c.err)) || (a == CloseWrite(None) && c.err == EOF)
  }

  lemma StepErrors(s: State, i: nat)
    requires i < |s.calls| && Step(s, i).Some?
    ensures ErrorsKept(s, Step(s, i).value) && |Step(s, i).value.calls| == |s.calls|
  {
    StepShape(s, i);
    if s.calls[i].Closer? { CloserErrors(s, i); } else { NoErrors(s, i); }
  }

  lemma CloserErrors(s: State, i: nat)
    requires i < |s.calls| && s.calls[i].Closer? && Step(s, i).Some?
    ensures ErrorsKept(s, Step(s, i).value)
  {
  }

  lemma NoErrors(s: State, i: nat)
    requires i < |s.calls| && !s.calls[i].Closer? && Step(s, i).Some?
    ensures ErrorsKept(s, Step(s, i).value)
  {
  }

  lemma DoErrors(s: State, a: Action)
    requires Do(s, a).Some?
    ensures ErrorsKept(s, Do(s, a).value)
    ensures forall i :: |s.calls| <= i < |Do(s, a).value.calls| ==> ErrorOf(Do(s, a).value.calls[i], a)
  {
    hide Step;
    if a.Go? { StepErrors(s, a.i); }
  }

  /** What is stored, and what a close is about to store, is the error of a close in the run. */
  lemma {:induction false} RunErrors(run: seq<Action>)
    requires After(run).Some?
    ensures ErrorsFrom(run, After(run).value)
  {
    hide Inv, Do, WriteClosed, ReadClosed;
    if run != [] {
      var before, a := run[..|run|-1], run[|run|-1];
      var s, u := After(before).value, After(run).value;
      assert run == before + [a];
      RunErrors(before);
      DoErrors(s, a);
      ClosedLonger(before, a);
      forall i | 0 <= i < |u.calls| && u.calls[i].Closer?
        ensures if u.calls[i].read then ReadClosed(run, u.calls[i].err) else WriteClosed(run, u.calls[i].err)
      {
        if i >= |s.calls| { assert ErrorOf(u.calls[i], a); }
        ClosedNow(before, a, u.calls[i].err);
      }
    }
  }

  /**
    The error of a failed read is one the write end was closed with, or ErrClosedPipe where the read end was closed.
   */
  lemma ReadFails(run: seq<Action>, r: nat)
    requires After(run).Some? && var s := After(run).value;
      r < |s.calls| && s.calls[r].Reader? && s.calls[r].rpc.RDone? && s.calls[r].rpc.err.Some?
    ensures var e := After(run).value.calls[r].rpc.err.value;
      WriteClosed(run, e) || (e == ERR_CLOSED_PIPE && exists d :: ReadClosed(run, d))
  {
    hide Inv, WriteClosed, ReadClosed;
    ReadReturns(run, r);
    RunErrors(run);
  }

  /** The error of a failed write is one the read end was closed with, or ErrClosedPipe where the write end was. */
  lemma WriteFails(run: seq<Action>, w: nat)
    requires After(run).Some? && var s := After(run).value;
      w < |s.calls| && s.calls[w].Writer? && s.calls[w].wpc.WDone? && s.calls[w].wpc.err.Some?
    ensures var e := After(run).value.calls[w].wpc.err.value;
      ReadClosed(run, e) || (e == ERR_CLOSED_PIPE && exists d :: WriteClosed(run, d))
  {
    hide Inv, WriteClosed, ReadClosed;
    WriteReturns(run, w);
    RunErrors(run);
  }

  /** Where the pipe is only ever closed by the writer, and without an error, a read that fails is at the end. */
  lemma EndOfFile(run: seq<Action>, r: nat)
    requires After(run).Some? && var s := After(run).value;
      r < |s.calls| && s.calls[r].Reader? && s.calls[r].rpc.RDone? && s.calls[r].rpc.err.Some?
    requires forall i :: 0 <= i < |run| ==> !run[i].CloseRead? && (run[i].CloseWrite? ==> run[i] == CloseWrite(None))
    ensures After(run).value.calls[r].rpc.err == Some(EOF)
  {
    hide Inv;
    ReadFails(run, r);
  }

  // ---------------------------------------------------------------- calls on a closed end

  /** A close that has returned has stored an error for its end, and the pipe is done. */
  predicate ClosesDone(s: State) {
    forall i :: 0 <= i < |s.calls| && s.calls[i].Closer? && s.calls[i].cpc.CDone? ==>
      s.done && if s.calls[i].read then s.rerr.Some? else s.werr.Some?
  }

  lemma DoClosesDone(s: State, a: Action)
    requires Inv(s) && ClosesDone(s) && Do(s, a).Some?
    ensures ClosesDone(Do(s, a).value)
  {
    hide Inv, Step;
    if a.Go? {
      CallAt(s, a.i);
      StepShape(s, a.i);
      StepClosesDone(s, a.i);
    }
  }

  lemma StepClosesDone(s: State, i: nat)
    requires ClosesDone(s) && i < |s.calls| && Step(s, i).Some? && CallOK(s, i)
    ensures ClosesDone(Step(s, i).value)
  {
    hide WriterOK, ReaderOK;
  }

  lemma {:induction false} RunClosesDone(run: seq<Action>)
    requires After(run).Some?
    ensures ClosesDone(After(run).value)
  {
    hide Inv, Do, ClosesDone;
    if run == [] {
      assert ClosesDone(START) by { NoneDone(); }
    } else {
      RunClosesDone(run[..|run|-1]);
      DoClosesDone(After(run[..|run|-1]).value, run[|run|-1]);
    }
  }

  lemma NoneDone()
    ensures ClosesDone(START)
  {
  }

  /** A read on a closed read end, or a write on a closed write end. */
  predicate TooLate(s: State, i: nat, read: bool) {
    && s.done && i < |s.calls| && (if read then s.rerr.Some? else s.werr.Some?)
    && match s.calls[i]
       case Reader(_, pc) => read && (
         match pc
         case RStart => true
         case RErr => true
         case RErr2(rerr) => rerr.Some?
         case RDone(got, err) => got == [] && err == Some(ERR_CLOSED_PIPE)
         case _ => false)
       case Writer(_, _, n, pc) => !read && n == 0 && (
         match pc
         case WStart => true
         case WErr => true
         case WErr2(werr) => werr.Some?
         case WDone(err) => err == Some(ERR_CLOSED_PIPE)
         case _ => false)
       case Closer(_, _, _) => false
  }

  lemma StepTooLate(s: State, i: nat, read: bool)
    requires TooLate(s, i, read) && Step(s, i).Some?
    ensures TooLate(Step(s, i).value, i, read)
  {
  }

  lemma OtherTooLate(s: State, u: State, i: nat, read: bool)
    requires TooLate(s, i, read) && Stored(s, u) && i < |u.calls| && u.calls[i] == s.calls[i]
    ensures TooLate(u, i, read)
  {
  }

  lemma DoTooLate(s: State, a: Action, i: nat, read: bool)
    requires TooLate(s, i, read) && Do(s, a).Some?
    ensures TooLate(Do(s, a).value, i, read)
  {
    hide Step;
    DoStores(s, a);
    if a.Go? { StepShape(s, a.i); }
    if a == Go(i) { StepTooLate(s, i, read); } else { OtherTooLate(s, Do(s, a).value, i, read); }
  }

  lemma {:induction false} RunTooLate(run: seq<Action>, more: seq<Action>, i: nat, read: bool)
    requires After(run + more).Some? && After(run).Some? && TooLate(After(run).value, i, read)
    ensures TooLate(After(run + more).value, i, read)
  {
    hide Inv, Do, TooLate;
    if more == [] {
      assert run + more == run;
    } else {
      var last := |more| - 1;
      assert (run + more)[..|run + more| - 1] == run + more[..last];
      RunTooLate(run, more[..last], i, read);
      DoTooLate(After(run + more[..last]).value, more[last], i, read);
    }
  }

  /** The call `k` closed the read or the write end, and has returned. */
  predicate Shut(s: State, k: nat, read: bool) {
    k < |s.calls| && s.calls[k].Closer? && s.calls[k].read == read && s.calls[k].cpc.CDone?
  }

  /** A read begun after a close of the read end returned ends with no bytes and ErrClosedPipe, whatever came first. */
  lemma ReadAfterClose(run: seq<Action>, k: nat, cap: nat, more: seq<Action>)
    requires After(run).Some? && Shut(After(run).value, k, true) && After(run + [Read(cap)] + more).Some?
    ensures var r, u := |After(run).value.calls|, After(run + [Read(cap)] + more).value;
      && r < |u.calls| && u.calls[r].Reader?
      && (u.calls[r].rpc.RDone? ==> u.calls[r].rpc == RDone([], Some(ERR_CLOSED_PIPE)))
  {
    hide Inv;
    RunClosesDone(run);
    assert (run + [Read(cap)])[..|run|] == run;
    RunTooLate(run + [Read(cap)], more, |After(run).value.calls|, true);
  }

  /** A write begun after a close of the write end returned writes nothing and ends with ErrClosedPipe. */
  lemma WriteAfterClose(run: seq<Action>, k: nat, data: bytes, more: seq<Action>)
    requires After(run).Some? && Shut(After(run).value, k, false) && After(run + [Write(data)] + more).Some?
    ensures var w, u := |After(run).value.calls|, After(run + [Write(data)] + more).value;
      && w < |u.calls| && u.calls[w].Writer? && u.calls[w].n == 0
      && (u.calls[w].wpc.WDone? ==> u.calls[w].wpc.err == Some(ERR_CLOSED_PIPE))
  {
    hide Inv;
    RunClosesDone(run);
    assert (run + [Write(data)])[..|run|] == run;
    RunTooLate(run + [Write(data)], more, |After(run).value.calls|, false);
  }
}
