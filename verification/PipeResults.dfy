/** What readers and writers of a pipe may rely on, over every run. */
module PipeResults {
  import opened Bytes
  import opened Options
  import opened Pipe
  import opened PipeRuns

  // ---------------------------------------------------------------- which write a byte came from

  /** The bytes handed over by write call `w`. */
  function From(log: seq<Handoff>, w: nat): bytes {
    if log == [] then []
    else From(log[..|log|-1], w) + if log[|log|-1].w == w then log[|log|-1].chunk else []
  }

  /** Handoffs come grouped by write, in the order the writes took the mutex. */
  predicate Grouped(s: State) {
    && (forall k :: 0 <= k < |s.log| ==> s.log[k].w in s.order)
    && (forall j, k, a, b ::
          && 0 <= j < k < |s.log| && 0 <= a < |s.order| && 0 <= b < |s.order| && s.order[a] == s.log[j].w
          && s.order[b] == s.log[k].w ==>
            a <= b)
  }

  predicate Attributed(s: State) {
    forall w ::
      0 <= w < |s.calls| && s.calls[w].Writer? ==>
        Taken(s, w) <= |s.calls[w].data| && From(s.log, w) == s.calls[w].data[..Taken(s, w)]
  }

  lemma FromMore(log: seq<Handoff>, h: Handoff, w: nat)
    ensures From(log + [h], w) == From(log, w) + if h.w == w then h.chunk else []
  {
    assert (log + [h])[..|log|] == log;
  }

  lemma {:induction false} FromNone(log: seq<Handoff>, w: nat)
    requires forall k :: 0 <= k < |log| ==> log[k].w != w
    ensures From(log, w) == []
  {
    if log != [] { FromNone(log[..|log|-1], w); }
  }

  /** A step of one call moves no bytes. */
  lemma StepShape(s: State, i: nat)
    requires i < |s.calls| && Step(s, i).Some?
    ensures var u := Step(s, i).value;
      && |u.calls| == |s.calls| && u.log == s.log && u.open == s.open
      && (forall j :: 0 <= j < |s.calls| && j != i ==> u.calls[j] == s.calls[j])
      && (s.calls[i].Writer? <==> u.calls[i].Writer?)
      && (s.calls[i].Writer? ==> u.calls[i].data == s.calls[i].data && u.calls[i].n == s.calls[i].n)
  {
  }

  /** What a step does to an earlier write, apart from handing bytes over. */
  predicate WriteKept(s: State, u: State, w: nat)
    requires w < |s.calls|
  {
    && |s.calls| <= |u.calls| && (u.calls[w].Writer? <==> s.calls[w].Writer?)
    && (s.calls[w].Writer? ==> u.calls[w].data == s.calls[w].data)
  }

  lemma DoKeepsWrite(s: State, a: Action, w: nat)
    requires Do(s, a).Some? && w < |s.calls|
    ensures WriteKept(s, Do(s, a).value, w)
  {
    hide Step;
    if a.Go? { StepShape(s, a.i); }
  }

  lemma DoAttributed(s: State, a: Action)
    requires Inv(s) && Attributed(s) && Do(s, a).Some?
    ensures Attributed(Do(s, a).value)
  {
    hide Inv, Do, From;
    var u := Do(s, a).value;
    DoKeeps(s, a);
    forall w | 0 <= w < |u.calls| && u.calls[w].Writer?
      ensures Taken(u, w) <= |u.calls[w].data| && From(u.log, w) == u.calls[w].data[..Taken(u, w)]
    {
      TakenFits(u, w);
      if w >= |s.calls| {
        NewWrite(s, a, w);
      } else {
        DoKeepsWrite(s, a, w);
        if a.Meet? { MeetAttributed(s, u, a.r, a.w, w); } else { TakenSame(s, a, w); }
      }
    }
  }

  lemma TakenFits(s: State, w: nat)
    requires Inv(s) && w < |s.calls| && s.calls[w].Writer?
    ensures Taken(s, w) <= |s.calls[w].data|
  {
    hide LogOK, OrderOK, Received, Prefixes;
    CallAt(s, w);
  }

  lemma NewWrite(s: State, a: Action, w: nat)
    requires Inv(s) && Do(s, a).Some? && |s.calls| <= w < |Do(s, a).value.calls| && Do(s, a).value.calls[w].Writer?
    ensures From(Do(s, a).value.log, w) == [] && Taken(Do(s, a).value, w) == 0
  {
    hide Inv, Step;
    if a.Go? { StepShape(s, a.i); }
    NewHasNone(s, w);
  }

  lemma NewHasNone(s: State, w: nat)
    requires Inv(s) && w == |s.calls|
    ensures From(s.log, w) == [] && (s.open.Some? ==> s.open.value.w != w)
  {
    forall k | 0 <= k < |s.log| ensures s.log[k].w != w { assert HandoffOK(s, k); }
    FromNone(s.log, w);
  }

  lemma MeetAttributed(s: State, u: State, r: nat, w: nat, x: nat)
    requires Inv(s) && Do(s, Meet(r, w)) == Some(u) && x < |s.calls| && s.calls[x].Writer? && WriteKept(s, u, x)
    requires Attributed(s) && Taken(u, x) <= |u.calls[x].data|
    ensures From(u.log, x) == u.calls[x].data[..Taken(u, x)]
  {
    hide CallsOK, LogOK, OpenOK, Received, Prefixes;
    MeetFree(s, r, w);
    MeetCounts(s, u, r, w);
    var h := u.log[|s.log|];
    assert u.log == s.log + [h];
    FromMore(s.log, h, x);
    if x == w {
      assert s.calls[w].data[..Taken(s, w)] + h.chunk == s.calls[w].data[..Taken(u, w)];
    } else {
      MeetElsewhere(s, u, r, w, x);
    }
  }

  lemma MeetFree(s: State, r: nat, w: nat)
    requires Inv(s) && Do(s, Meet(r, w)).Some?
    ensures s.open.None? && CallOK(s, w) && s.order != [] && s.order[|s.order|-1] == w
  {
    hide LogOK, Received, Prefixes;
    CallAt(s, w);
  }

  lemma MeetElsewhere(s: State, u: State, r: nat, w: nat, x: nat)
    requires Do(s, Meet(r, w)) == Some(u) && s.open.None? && x < |s.calls| && s.calls[x].Writer? && x != w
    ensures u.calls[x] == s.calls[x] && Taken(u, x) == Taken(s, x)
  {
  }

  lemma TakenSame(s: State, a: Action, w: nat)
    requires Inv(s) && Do(s, a).Some? && !a.Meet? && w < |s.calls| && s.calls[w].Writer?
    requires WriteKept(s, Do(s, a).value, w)
    ensures Taken(Do(s, a).value, w) == Taken(s, w) && Do(s, a).value.log == s.log
  {
    hide Inv, Step;
    if a.Go? { StepShape(s, a.i); }
    if a.Ack? { AckKeeps(s, a.r, a.w); }
  }

  lemma DoGrouped(s: State, a: Action)
    requires Inv(s) && Grouped(s) && Do(s, a).Some?
    ensures Grouped(Do(s, a).value)
  {
    hide Inv;
    var u := Do(s, a).value;
    if a.Meet? {
      var before := LastInOrder(s, a.r, a.w);
    } else if a.Go? && u.order != s.order {
      NotInOrder(s, a.i);
      assert forall k :: 0 <= k < |s.log| ==> s.log[k].w in s.order;
    }
  }

  lemma NotInOrder(s: State, i: nat)
    requires Inv(s) && i < |s.calls| && s.calls[i].Writer? && s.calls[i].wpc.WLock?
    ensures i !in s.order
  {
    CallAt(s, i);
  }

  /** The write that hands over is the last to have taken the mutex. */
  lemma LastInOrder(s: State, r: nat, w: nat) returns (last: nat)
    requires Inv(s) && Do(s, Meet(r, w)).Some?
    ensures s.order != [] && last == |s.order| - 1 && s.order[last] == w
    ensures forall j :: 0 <= j < last ==> s.order[j] != w
  {
    CallAt(s, w);
    last := |s.order| - 1;
  }

  lemma {:induction false} RunAttributed(run: seq<Action>)
    requires After(run).Some?
    ensures Attributed(After(run).value) && Grouped(After(run).value)
  {
    if run != [] {
      RunAttributed(run[..|run|-1]);
      DoAttributed(After(run[..|run|-1]).value, run[|run|-1]);
      DoGrouped(After(run[..|run|-1]).value, run[|run|-1]);
    }
  }

  // ---------------------------------------------------------------- results

  /** What a write that returned had delivered, and when its error is nil. */
  lemma WriteReturns(run: seq<Action>, w: nat)
    requires After(run).Some? && var s := After(run).value; w < |s.calls| && s.calls[w].Writer? && s.calls[w].wpc.WDone?
    ensures var s := After(run).value; var c := s.calls[w];
      && c.n <= |c.data| && From(s.log, w) == c.data[..c.n]
      && (c.wpc.err.None? ==> c.n == |c.data|)
      && (c.wpc.err.Some? ==>
            && s.done && (c.n < |c.data| || c.data == [])
            && (c.wpc.err == s.rerr || (c.wpc.err == Some(ERR_CLOSED_PIPE) && s.werr.Some?)))
  {
    RunAttributed(run);
    CallAt(After(run).value, w);
  }

  /** What a read that returned got. */
  lemma ReadReturns(run: seq<Action>, r: nat)
    requires After(run).Some? && var s := After(run).value; r < |s.calls| && s.calls[r].Reader? && s.calls[r].rpc.RDone?
    ensures var s := After(run).value; var c := s.calls[r];
      && |c.rpc.got| <= c.cap
      && (c.rpc.err.None? ==> exists k :: 0 <= k < |s.log| && s.log[k].r == r && s.log[k].chunk == c.rpc.got)
      && (c.rpc.err.Some? ==>
            s.done && c.rpc.got == [] && (c.rpc.err == s.werr || (c.rpc.err == Some(ERR_CLOSED_PIPE) && s.rerr.Some?)))
  {
    var s := After(run).value;
    CallAt(s, r);
    if s.calls[r].rpc.err.None? {
      var k :| 0 <= k < |s.log| && s.log[k].r == r;
      HandoffAt(s, k);
      assert s.log[k].chunk == s.calls[r].rpc.got by { assert ReaderOK(s, r); }
    }
  }

  lemma HandoffAt(s: State, k: nat)
    requires Inv(s) && k < |s.log|
    ensures HandoffOK(s, k) && OpenOK(s)
  {
  }

  /** What came out, in handoff order, is what went in, write after write. */
  lemma Conservation(run: seq<Action>)
    requires After(run).Some? && After(run).value.open.None?
    ensures var s := After(run).value; Fits(s, s.order) && Received(s.log) == Prefixes(s, s.order)
    ensures var s := After(run).value; forall k :: 0 <= k < |s.log| ==>
      s.log[k].r < |s.calls| && s.calls[s.log[k].r].Reader? && s.calls[s.log[k].r].rpc == RDone(s.log[k].chunk, None)
    ensures var s := After(run).value; forall j, k :: 0 <= j < k < |s.log| ==> s.log[j].r != s.log[k].r
  {
    var s := After(run).value;
    OrderFits(s);
    forall k | 0 <= k < |s.log|
      ensures s.log[k].r < |s.calls| && s.calls[s.log[k].r].Reader?
      ensures s.calls[s.log[k].r].rpc == RDone(s.log[k].chunk, None)
    {
      HandoffAt(s, k);
    }
  }

  predicate Stored(s: State, u: State) {
    (s.rerr.Some? ==> u.rerr == s.rerr) && (s.werr.Some? ==> u.werr == s.werr) && (s.done ==> u.done)
  }

  lemma DoStores(s: State, a: Action)
    requires Do(s, a).Some?
    ensures Stored(s, Do(s, a).value)
  {
  }

  /** Once set, the close errors and the done channel stay. */
  lemma {:induction false} StoredOnce(run: seq<Action>, more: seq<Action>)
    requires After(run + more).Some?
    ensures After(run).Some? && Stored(After(run).value, After(run + more).value)
  {
    hide Do, Inv;
    if more == [] {
      assert run + more == run;
    } else {
      var last := |more| - 1;
      assert (run + more)[..|run + more| - 1] == run + more[..last];
      StoredOnce(run, more[..last]);
      DoStores(After(run + more[..last]).value, more[last]);
    }
  }

  // ---------------------------------------------------------------- progress

  predicate Unfinished(c: Call) {
    match c
    case Reader(_, pc) => !pc.RDone?
    case Writer(_, _, _, pc) => !pc.WDone?
    case Closer(_, _, pc) => !pc.CDone?
  }

  predicate Internal(a: Action) { a.Go? || a.Meet? || a.Ack? }

  /** A call that is not waiting for another can go on; an open handoff can be acknowledged. */
  lemma GoesOn(s: State, i: nat) returns (a: Action)
    requires Inv(s) && i < |s.calls| && Unfinished(s.calls[i])
    requires match s.calls[i]
      case Reader(_, pc) => pc.RSelect? ==> s.done
      case Writer(_, _, _, pc) => (pc.WSelect? ==> s.done) && (pc.WLock? ==> s.mutex.None?)
      case Closer(_, _, _) => true
    ensures Internal(a) && Do(s, a).Some?
  {
    hide CallsOK, LogOK, OrderOK, Received, Prefixes;
    CallAt(s, i);
    a := Go(i);
    if s.open.Some? && (s.open.value.r == i || s.open.value.w == i) {
      var h := s.open.value;
      CallAt(s, h.r);
      CallAt(s, h.w);
      a := if s.calls[h.r].rpc.RGot? then Go(h.r) else Ack(h.r, h.w);
    }
  }

  /** Where a write waits for the mutex, its holder is a write that has not returned. */
  lemma HolderUnfinished(s: State, w: nat) returns (h: nat)
    requires Inv(s) && w < |s.calls| && s.calls[w].Writer? && Unfinished(s.calls[w])
    ensures h < |s.calls| && s.calls[h].Writer? && Unfinished(s.calls[h]) && (s.calls[h].wpc.WLock? ==> s.mutex.None?)
  {
    hide LogOK, OpenOK, Received, Prefixes;
    h := if s.calls[w].wpc.WLock? && s.mutex.Some? then s.mutex.value else w;
    CallAt(s, h);
  }

  /**
    No deadlock: after a close every call can be brought to its end, and before it a read and a write serve each
    other.
   */
  lemma Progress(run: seq<Action>, i: nat, j: nat) returns (a: Action)
    requires After(run).Some?
    requires var s := After(run).value;
      i < |s.calls| && Unfinished(s.calls[i]) && j < |s.calls| && Unfinished(s.calls[j])
    requires var s := After(run).value; s.done || (s.calls[i].Reader? && s.calls[j].Writer?)
    ensures Internal(a) && Do(After(run).value, a).Some?
  {
    hide Inv;
    var s := After(run).value;
    var w := if s.calls[i].Writer? then i else j;
    if s.calls[w].Writer? {
      w := HolderUnfinished(s, w);
      if !s.done && s.calls[i].rpc.RSelect? && s.calls[w].wpc.WSelect? {
        a := Meet(i, w);
      } else if s.done || !s.calls[w].wpc.WSelect? {
        a := GoesOn(s, w);
      } else {
        a := GoesOn(s, i);
      }
    } else {
      a := GoesOn(s, i);
    }
  }
}
