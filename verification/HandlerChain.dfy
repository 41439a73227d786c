/** Gin's handler chain (context.go, routergroup.go): Next, Abort and the int8 cursor between them. */
module HandlerChain {

  const MAX_INT8 := 127

  /** math.MaxInt8 >> 1 */
  const ABORT_INDEX := 63

  type int8 = x: int | -128 <= x < 128

  /** What a handler does with the chain, in the order it does it. */
  datatype Op = CallNext | CallAbort

  datatype Handler = Nil | Handler(script: seq<Op>)

  predicate CallsNextOnce(script: seq<Op>) {
    forall i, j :: 0 <= i < j < |script| ==> script[i].CallAbort? || script[j].CallAbort?
  }

  /** Chains that combineHandlers accepts, of handlers that call Next at most once each. */
  predicate Chain(hs: seq<Handler>) {
    |hs| < ABORT_INDEX && forall i :: 0 <= i < |hs| && hs[i].Handler? ==> CallsNextOnce(hs[i].script)
  }

  datatype Event = Started(i: nat) | Aborted

  /** Handlers start in order, none twice, and none once the chain is aborted. */
  predicate InOrder(log: seq<Event>) {
    forall a, b :: 0 <= a < b < |log| && log[b].Started? ==> log[a].Started? && log[a].i < log[b].i
  }

  predicate UpTo(log: seq<Event>, k: int) { forall a :: 0 <= a < |log| && log[a].Started? ==> log[a].i <= k }

  /** Every handler after `i` has started. */
  predicate AllAfter(hs: seq<Handler>, log: seq<Event>, i: int) {
    forall j :: 0 <= j < |hs| && i < j && hs[j].Handler? ==> Started(j) in log
  }

  /** Every handler between has started. */
  predicate AllBetween(hs: seq<Handler>, log: seq<Event>, i: int, k: int) {
    forall j :: 0 <= j < |hs| && i < j < k && hs[j].Handler? ==> Started(j) in log
  }

  lemma BetweenThen(hs: seq<Handler>, a: seq<Event>, e: int, p: nat, b: seq<Event>)
    requires AllBetween(hs, a, e, p) && a + [Started(p)] <= b
    ensures AllBetween(hs, b, e, p + 1) && (AllAfter(hs, b, p) ==> AllAfter(hs, b, e))
  {
    assert b[|a|] == Started(p);
    forall j | 0 <= j < |hs| && e < j < p + 1 && hs[j].Handler? ensures Started(j) in b {
      if j < p {
        var k :| 0 <= k < |a| && a[k] == Started(j);
        assert b[k] == Started(j);
      }
    }
  }

  /** After `i` every handler calls Next, but that the last aborts first. */
  predicate Deepest(hs: seq<Handler>, i: int) {
    0 < |hs| && i < |hs| - 1 && hs[|hs|-1] == Handler([CallAbort, CallNext])
    && forall j :: 0 <= j < |hs| - 1 && i < j ==> hs[j] == Handler([CallNext])
  }

  /** After `i` every handler calls Next and nothing else. */
  predicate AllNested(hs: seq<Handler>, i: int) {
    forall j :: 0 <= j < |hs| && i < j ==> hs[j] == Handler([CallNext])
  }

  predicate Has(h: Handler, op: Op) { h.Handler? && op in h.script }

  /** How many handlers after `i` call Next. */
  function Callers(hs: seq<Handler>, i: int): (n: nat)
    requires -1 <= i
    ensures n <= if i < |hs| then |hs| - 1 - i else 0
    decreases |hs| - i
  {
    if i + 1 >= |hs| then 0 else (if Has(hs[i + 1], CallNext) then 1 else 0) + Callers(hs, i + 1)
  }

  /** Some handler after `i` calls Abort. */
  predicate Aborts(hs: seq<Handler>, i: int) { exists j :: 0 <= j < |hs| && i < j && Has(hs[j], CallAbort) }

  predicate AbortsBetween(hs: seq<Handler>, i: int, k: int) {
    exists j :: 0 <= j < |hs| && i < j < k && Has(hs[j], CallAbort)
  }

  lemma AbortsMore(hs: seq<Handler>, e: int, p: nat)
    requires p < |hs| && e < p
    ensures AbortsBetween(hs, e, p + 1) <==> AbortsBetween(hs, e, p) || Has(hs[p], CallAbort)
    ensures AbortsBetween(hs, e, p) || Has(hs[p], CallAbort) || Aborts(hs, p) <==> Aborts(hs, e)
    ensures p + 1 == |hs| ==> !Aborts(hs, p)
  {
  }

  lemma {:induction false} NestedCallers(hs: seq<Handler>, i: int)
    requires -1 <= i < |hs| && AllNested(hs, i)
    ensures Callers(hs, i) == |hs| - 1 - i && !Aborts(hs, i)
    decreases |hs| - i
  {
    if i + 1 < |hs| { NestedCallers(hs, i + 1); }
  }

  function safeInt8(n: nat): int8 { if n > MAX_INT8 then MAX_INT8 else n }

  /** combineHandlers: the group's handlers, then the route's; false where it panics. */
  method combineHandlers(group: seq<Handler>, handlers: seq<Handler>) returns (merged: seq<Handler>, ok: bool)
    ensures ok <==> |group| + |handlers| < ABORT_INDEX
    ensures ok ==> merged == group + handlers
  {
    var finalSize := |group| + |handlers|;
    if !(finalSize < ABORT_INDEX) { return [], false; }
    var out := new Handler[finalSize](_ => Nil);
    forall i | 0 <= i < |group| { out[i] := group[i]; }
    forall i | 0 <= i < |handlers| { out[|group| + i] := handlers[i]; }
    assert out[..] == group + handlers;
    return out[..], true;
  }

  class Context {
    var handlers: seq<Handler>
    var index: int8
    ghost var log: seq<Event>

    /** reset, and the chain a request was routed to. */
    constructor (hs: seq<Handler>)
      ensures handlers == hs && index == -1 && log == []
    {
      handlers, index, log := hs, -1, [];
    }

    predicate IsAborted()
      reads this
    {
      index >= ABORT_INDEX
    }

    method Abort()
      modifies this`index, this`log
      ensures index == ABORT_INDEX && log == old(log) + [Aborted]
    {
      index := ABORT_INDEX;
      log := log + [Aborted];
    }

    /** What holds while the chain stands at `index`. */
    ghost predicate At()
      reads this
    {
      && Chain(handlers) && -1 <= index && InOrder(log)
      && (Aborted !in log ==> index < |handlers| && UpTo(log, index)) && (Aborted in log <==> IsAborted())
    }

    /** How far the cursor can get from `i`. */
    function Most(i: int): int
      reads this
    {
      ABORT_INDEX + |handlers| - i
    }

    /** Runs the handlers after the present one. */
    method Next()
      requires At() && index <= ABORT_INDEX
      modifies this`index, this`log
      ensures InOrder(log) && old(log) <= log && (Aborted in log ==> IsAborted())
      ensures old(Aborted in log) ==> log == old(log) && index == old(index) + 1
      ensures !old(Aborted in log) ==> index <= Most(old(index))
      ensures Aborted !in log ==>
        index >= |handlers| && AllAfter(handlers, log, old(index)) && UpTo(log, |handlers| - 1)
      ensures !old(Aborted in log) && Deepest(handlers, old(index)) ==> index == Most(old(index))
      ensures !old(Aborted in log) ==> (Aborted in log <==> Aborts(handlers, old(index)))
      ensures Aborted !in log ==> index == |handlers| + Callers(handlers, old(index))
      decreases if |handlers| > index then |handlers| - index else 0, 0
    {
      hide InOrder, UpTo, AllAfter, Deepest, Aborts, Callers, Turning;
      ghost var e := index;
      index := index + 1;
      if Aborted !in log { TurnsFrom(e); }
      while index < safeInt8(|handlers|)
        invariant old(log) <= log && (Aborted in log ==> IsAborted()) && InOrder(log)
        invariant if old(Aborted in log) then log == old(log) && index == e + 1 else Turning(e)
        decreases |handlers| - index
      {
        turn(e);
      }
      if !old(Aborted in log) { Turned(e); }
    }

    /** The state at the head of the loop of Next that began at `e`. */
    ghost predicate Turning(e: int)
      requires -1 <= e
      reads this
    {
      && e < index <= Most(e) && InOrder(log) && (Aborted in log ==> IsAborted()) && Chain(handlers)
      && (Aborted !in log ==> UpTo(log, index - 1) && UpTo(log, |handlers| - 1))
      && (Aborted !in log ==>
            if index < |handlers| then AllBetween(handlers, log, e, index) else AllAfter(handlers, log, e))
      && (index < |handlers| && Deepest(handlers, e) ==> index == e + 1)
      && (index >= |handlers| && Deepest(handlers, e) ==> index == Most(e))
      && (Aborted in log <==> if index < |handlers| then AbortsBetween(handlers, e, index) else Aborts(handlers, e))
      && (Aborted !in log ==>
            if index < |handlers| then Callers(handlers, e) == Callers(handlers, index - 1)
            else index == |handlers| + Callers(handlers, e))
    }

    lemma TurnsFrom(e: int)
      requires -1 <= e < |handlers| && index == e + 1 && Aborted !in log && InOrder(log) && UpTo(log, e)
      requires Chain(handlers)
      ensures Turning(e)
    {
    }

    lemma Turned(e: int)
      requires -1 <= e && Turning(e) && index >= |handlers|
      ensures index <= Most(e) && (Deepest(handlers, e) ==> index == Most(e))
      ensures Aborted in log <==> Aborts(handlers, e)
      ensures Aborted !in log ==>
        AllAfter(handlers, log, e) && UpTo(log, |handlers| - 1) && index == |handlers| + Callers(handlers, e)
    {
      hide InOrder, UpTo, AllAfter, Deepest, Aborts, Callers;
    }

    /** One turn of that loop. */
    method turn(ghost e: int)
      requires -1 <= e && Turning(e) && 0 <= index < |handlers|
      modifies this`index, this`log
      ensures Turning(e) && index > old(index) && old(log) <= log && InOrder(log) && (Aborted in log ==> IsAborted())
      decreases |handlers| - index, 3
    {
      hide InOrder, Deepest, Aborts, AbortsBetween;
      AbortsMore(handlers, e, index);
      start(e);
      index := index + 1;
    }

    /** Starts the handler at the cursor, if there is one; `e` is where the loop that does so began. */
    method start(ghost e: int)
      requires At() && Aborted !in log && e < index && 0 <= index < |handlers| && UpTo(log, index - 1)
      requires AllBetween(handlers, log, e, index)
      modifies this`index, this`log
      ensures InOrder(log) && old(log) <= log && (Aborted in log ==> IsAborted())
      ensures old(index) <= index <= Most(old(index))
      ensures Aborted !in log ==> UpTo(log, |handlers| - 1)
      ensures Aborted !in log ==>
        if index < |handlers| then index == old(index) && AllBetween(handlers, log, e, index + 1) && UpTo(log, index)
        else AllAfter(handlers, log, e)
      ensures Deepest(handlers, e) && old(index) == e + 1 ==>
        index == if old(index) == |handlers| - 1 then ABORT_INDEX + 1 else Most(old(index))
      ensures Aborted in log ==> Has(handlers[old(index)], CallAbort) || Aborts(handlers, old(index))
      ensures Aborted !in log ==> !Has(handlers[old(index)], CallAbort)
      ensures Aborted !in log ==>
        if Has(handlers[old(index)], CallNext) then
          !Aborts(handlers, old(index)) && index == |handlers| + Callers(handlers, old(index))
        else index == old(index)
      ensures Aborted in log ==> index >= |handlers|
      ensures Aborted in log && !Has(handlers[old(index)], CallNext) ==> Has(handlers[old(index)], CallAbort)
      decreases |handlers| - index, 2
    {
      ghost var before, p := log, index;
      if handlers[index].Handler? {
        log := log + [Started(index)];
        run(handlers[index].script);
        BetweenThen(handlers, before, e, p, log);
      }
    }

    /** A handler at work: what it does with the chain. */
    method run(script: seq<Op>)
      requires At() && CallsNextOnce(script) && Aborted !in log && 0 <= index < |handlers|
      modifies this`index, this`log
      ensures InOrder(log) && old(log) <= log && (Aborted in log ==> IsAborted())
      ensures old(index) <= index <= Most(old(index))
      ensures Aborted !in log ==> UpTo(log, |handlers| - 1)
      ensures Aborted !in log ==>
        if CallNext in script then index >= |handlers| && AllAfter(handlers, log, old(index))
        else index == old(index) && log == old(log)
      ensures script == [CallNext] && Deepest(handlers, old(index)) ==> index == Most(old(index))
      ensures script == [CallAbort, CallNext] ==> index == ABORT_INDEX + 1
      ensures Aborted in log ==> CallAbort in script || (CallNext in script && Aborts(handlers, old(index)))
      ensures Aborted !in log ==> CallAbort !in script
      ensures Aborted !in log && CallNext in script ==>
        !Aborts(handlers, old(index)) && index == |handlers| + Callers(handlers, old(index))
      decreases |handlers| - index, 1
    {
      ghost var i := index;
      var k := 0;
      while k < |script|
        invariant k <= |script| && InOrder(log) && old(log) <= log && (Aborted in log ==> IsAborted())
        invariant i <= index <= Most(i)
        invariant Aborted !in log ==> UpTo(log, |handlers| - 1)
        invariant k == 0 ==> Aborted !in log
        invariant CallNext !in script[..k] ==>
          if Aborted in log then index == ABORT_INDEX else index == i && log == old(log)
        invariant CallNext in script[..k] && Aborted !in log ==> index >= |handlers| && AllAfter(handlers, log, i)
        invariant k == 1 && script == [CallNext] && Deepest(handlers, i) ==> index == Most(i)
        invariant Aborted in log ==> CallAbort in script[..k] || (CallNext in script[..k] && Aborts(handlers, i))
        invariant Aborted !in log ==> CallAbort !in script[..k]
        invariant Aborted !in log && CallNext in script[..k] ==>
          !Aborts(handlers, i) && index == |handlers| + Callers(handlers, i)
        invariant script == [CallAbort, CallNext] ==>
          (k == 1 ==> index == ABORT_INDEX && Aborted in log) && (k == 2 ==> index == ABORT_INDEX + 1)
      {
        hide Aborts, Callers;
        assert script[..k+1] == script[..k] + [script[k]];
        if script[k].CallNext? {
          assert CallNext !in script[..k];
          Next();
        } else {
          Abort();
        }
        k := k + 1;
      }
      assert script[..k] == script;
    }
  }

  /** A request served: every handler starts, in order, unless one aborts; the cursor stays below 127. */
  method serve(group: seq<Handler>, own: seq<Handler>) returns (c: Context, ok: bool)
    requires forall i :: 0 <= i < |group + own| && (group + own)[i].Handler? ==> CallsNextOnce((group + own)[i].script)
    ensures ok <==> |group| + |own| < ABORT_INDEX
    ensures ok ==> c.handlers == group + own && InOrder(c.log) && c.index <= 126 && (Aborted in c.log ==> c.IsAborted())
    ensures ok && Aborted !in c.log ==>
      forall j :: 0 <= j < |c.handlers| && c.handlers[j].Handler? ==> Started(j) in c.log
    ensures ok ==> (Aborted in c.log <==> Aborts(group + own, -1))
    ensures ok ==>
      (c.IsAborted() <==> Aborts(group + own, -1) || |group + own| + Callers(group + own, -1) >= ABORT_INDEX)
    ensures ok && AllNested(group + own, -1) ==>
      Aborted !in c.log && (c.IsAborted() <==> 2 * |group + own| >= ABORT_INDEX)
    ensures ok && |group + own| == ABORT_INDEX - 1 && Deepest(group + own, -1) ==> c.index == 126
  {
    var merged;
    merged, ok := combineHandlers(group, own);
    c := new Context(merged);
    if ok {
      c.Next();
      if AllNested(merged, -1) { NestedCallers(merged, -1); }
    }
  }

  /**
    IsAborted says whether Abort was called if and only if it was, or the handlers and those that call Next are fewer
    than 63 together.
   */
  method abortedIsAborted(group: seq<Handler>, own: seq<Handler>) returns (c: Context, ok: bool)
    requires forall i :: 0 <= i < |group + own| && (group + own)[i].Handler? ==> CallsNextOnce((group + own)[i].script)
    ensures ok <==> |group| + |own| < ABORT_INDEX
    ensures ok ==> ((c.IsAborted() <==> Aborted in c.log) <==>
      Aborts(group + own, -1) || |group + own| + Callers(group + own, -1) < ABORT_INDEX)
  {
    c, ok := serve(group, own);
  }

  /** One handler that calls Next, before 61 that do nothing, is enough for IsAborted without an abort. */
  method loneCaller() returns (c: Context, ok: bool)
    ensures ok && Aborted !in c.log && c.IsAborted()
  {
    var first := [Handler([CallNext])];
    var rest := seq(61, _ => Handler([]));
    c, ok := serve(first, rest);
    assert Has((first + rest)[0], CallNext);
  }
}
