/**
  Every interleaving of reads, writes and closes of a pipe delivers each write whole, in order, and acknowledges it to
  its writer.
 */
module PipeRuns {
  import opened Bytes
  import opened Options
  import opened Pipe

  /** Prefixes depends only on the writes in `order` and what was taken of them. */
  lemma {:induction false} PrefixesSame(s: State, u: State, order: seq<nat>)
    requires Fits(s, order) && |s.calls| <= |u.calls|
    requires forall j ::
      0 <= j < |order| ==>
        && u.calls[order[j]].Writer? && Taken(u, order[j]) == Taken(s, order[j])
        && u.calls[order[j]].data == s.calls[order[j]].data
    ensures Fits(u, order) && Prefixes(u, order) == Prefixes(s, order)
  {
    if order != [] { PrefixesSame(s, u, order[..|order|-1]); }
  }

  /** A step that hands nothing over keeps the conservation of bytes. */
  lemma Conserves(s: State, u: State)
    requires Inv(s) && Base(u) && u.log == s.log && u.order == s.order && |s.calls| <= |u.calls|
    requires forall w :: 0 <= w < |s.calls| && s.calls[w].Writer? ==>
      u.calls[w].Writer? && Taken(u, w) == Taken(s, w) && u.calls[w].data == s.calls[w].data
    ensures Inv(u)
  {
    hide Base, Taken;
    OrderFits(s);
    OrderFits(u);
    PrefixesSame(s, u, s.order);
  }

  /** What the invariant of a call depends on besides that call. */
  predicate Around(s: State, u: State, i: nat) {
    && u.order == s.order && u.mutex == s.mutex && u.open == s.open && u.log == s.log
    && (s.done ==> u.done) && (s.rerr.Some? ==> u.rerr == s.rerr) && (s.werr.Some? ==> u.werr == s.werr)
    && |s.calls| <= |u.calls| && (forall j :: 0 <= j < |s.calls| && j != i ==> u.calls[j] == s.calls[j])
  }

  lemma OtherCalls(s: State, u: State, i: nat)
    requires CallsOK(s) && Around(s, u, i)
    ensures forall j :: 0 <= j < |s.calls| && j != i && s.calls[j].Writer? ==> WriterOK(u, j)
    ensures forall j :: 0 <= j < |s.calls| && j != i && s.calls[j].Reader? ==> ReaderOK(u, j)
  {
    forall j | 0 <= j < |s.calls| && j != i && s.calls[j].Writer? ensures WriterOK(u, j) { assert WriterOK(s, j); }
    forall j | 0 <= j < |s.calls| && j != i && s.calls[j].Reader? ensures ReaderOK(u, j) { assert ReaderOK(s, j); }
  }

  /** Nothing about a call that the handoffs rely on has changed. */
  predicate Alike(c: Call, d: Call) {
    match c
    case Reader(cap, pc) =>
      && d.Reader? && d.cap == cap && (pc.RDone? || pc.RGot? ==> d.rpc == pc || (pc.RGot? && d.rpc.RSend?))
      && (d.rpc.RGot? ==> pc == d.rpc)
    case Writer(data, b, n, _) => d.Writer? && d.data == data && d.b == b && d.n == n
    case Closer(_, _, _) => d.Closer?
  }

  lemma SameLog(s: State, u: State, i: nat)
    requires LogOK(s) && OpenOK(s) && OrderOK(s) && Around(s, u, i) && (i < |s.calls| ==> Alike(s.calls[i], u.calls[i]))
    ensures LogOK(u) && OpenOK(u) && OrderOK(u)
  {
    forall k | 0 <= k < |u.log| ensures HandoffOK(u, k) { assert HandoffOK(s, k); }
  }

  /** The call `i` is as it should be. */
  predicate CallOK(s: State, i: nat)
    requires i < |s.calls|
  {
    match s.calls[i]
    case Reader(_, _) => ReaderOK(s, i)
    case Writer(_, _, _, _) => WriterOK(s, i)
    case Closer(read, _, pc) => pc.CStore? || (if read then s.rerr.Some? else s.werr.Some?)
  }

  /** A step of call `i`, or its beginning, that leaves mutex, order and handoffs alone. */
  lemma OneCall(s: State, u: State, i: nat)
    requires Inv(s) && Around(s, u, i) && i < |u.calls| <= |s.calls| + 1
    requires (i < |s.calls| ==> Alike(s.calls[i], u.calls[i])) && (i == |s.calls| || |u.calls| == |s.calls|)
    requires CallOK(u, i) && !u.panicked && (u.done ==> u.rerr.Some? || u.werr.Some?)
    ensures Inv(u)
  {
    hide WriterOK, ReaderOK, HandoffOK;
    OtherCalls(s, u, i);
    SameLog(s, u, i);
    assert CallsOK(u);
    Conserves(s, u);
  }

  lemma BeginKeeps(s: State, c: Call)
    requires Inv(s) && (c.Reader? ==> c.rpc.RStart?) && (c.Writer? ==> c.wpc.WStart? && c.b == c.data && c.n == 0)
    requires c.Closer? ==> c.cpc.CStore?
    ensures Inv(Begin(s, c))
  {
    hide CallsOK, Received, Prefixes;
    OneCall(s, Begin(s, c), |s.calls|);
  }

  lemma CallAt(s: State, i: nat)
    requires Inv(s) && i < |s.calls|
    ensures CallOK(s, i)
  {
  }

  lemma ReaderKeeps(s: State, i: nat)
    requires Inv(s) && i < |s.calls| && s.calls[i].Reader? && Step(s, i).Some?
    ensures Inv(Step(s, i).value)
  {
    hide CallsOK, LogOK, OrderOK, Received, Prefixes;
    CallAt(s, i);
    OneCall(s, Step(s, i).value, i);
  }

  lemma CloserKeeps(s: State, i: nat)
    requires Inv(s) && i < |s.calls| && s.calls[i].Closer? && Step(s, i).Some?
    ensures Inv(Step(s, i).value)
  {
    hide CallsOK, LogOK, OrderOK, Received, Prefixes;
    CallAt(s, i);
    OneCall(s, Step(s, i).value, i);
  }

  lemma WriterKeeps(s: State, i: nat)
    requires Inv(s) && i < |s.calls| && s.calls[i].Writer? && !s.calls[i].wpc.WLock? && !s.calls[i].wpc.WErr2?
    requires Step(s, i).Some?
    ensures Inv(Step(s, i).value)
  {
    hide CallsOK, LogOK, OrderOK, Received, Prefixes;
    CallAt(s, i);
    OneCall(s, Step(s, i).value, i);
  }

  // ---------------------------------------------------------------- taking and releasing the mutex

  /** What the invariants of the calls other than `i` and `k` depend on. */
  ghost predicate Apart(s: State, u: State, i: nat, k: nat) {
    && |u.calls| == |s.calls| && (forall j :: 0 <= j < |s.calls| && j != i && j != k ==> u.calls[j] == s.calls[j])
    && (s.done ==> u.done) && (s.rerr.Some? ==> u.rerr == s.rerr) && (s.werr.Some? ==> u.werr == s.werr)
    && s.log <= u.log
    && (forall j: nat :: j != i && j != k ==> Untouched(s, u, j))
  }

  /** The mutex and the handoffs are to call `j` as they were. */
  predicate Untouched(s: State, u: State, j: nat) {
    && (j in u.order <==> j in s.order) && (u.mutex == Some(j) <==> s.mutex == Some(j))
    && (u.open.Some? && u.open.value.w == j <==> s.open.Some? && s.open.value.w == j)
    && (u.open.Some? && u.open.value.r == j <==> s.open.Some? && s.open.value.r == j)
    && (s.open.Some? && s.open.value.r == j ==> u.open == s.open)
  }

  lemma ApartWriter(s: State, u: State, i: nat, k: nat, j: nat)
    requires Apart(s, u, i, k) && j < |s.calls| && j != i && j != k && s.calls[j].Writer? && WriterOK(s, j)
    ensures WriterOK(u, j)
  {
    assert Untouched(s, u, j);
  }

  lemma ApartReader(s: State, u: State, i: nat, k: nat, j: nat)
    requires Apart(s, u, i, k) && j < |s.calls| && j != i && j != k && s.calls[j].Reader? && ReaderOK(s, j)
    ensures ReaderOK(u, j)
  {
    assert Untouched(s, u, j);
    if s.calls[j].rpc.RDone? && s.calls[j].rpc.err.None? {
      var n :| 0 <= n < |s.log| && s.log[n].r == j;
      assert u.log[n].r == j;
    }
  }

  lemma ApartCalls(s: State, u: State, i: nat, k: nat)
    requires CallsOK(s) && Apart(s, u, i, k) && |u.calls| == |s.calls| && i < |s.calls| && k < |s.calls| && CallOK(u, i)
    requires CallOK(u, k)
    ensures CallsOK(u)
  {
    hide WriterOK, ReaderOK, Apart;
    forall j | 0 <= j < |u.calls| && u.calls[j].Writer? ensures WriterOK(u, j) {
      if j != i && j != k { SameElsewhere(s, u, i, k, j); ApartWriter(s, u, i, k, j); }
    }
    forall j | 0 <= j < |u.calls| && u.calls[j].Reader? ensures ReaderOK(u, j) {
      if j != i && j != k { SameElsewhere(s, u, i, k, j); ApartReader(s, u, i, k, j); }
    }
    forall j | 0 <= j < |u.calls| && u.calls[j].Closer? && !u.calls[j].cpc.CStore?
      ensures if u.calls[j].read then u.rerr.Some? else u.werr.Some?
    {
      if j != i && j != k { SameElsewhere(s, u, i, k, j); }
    }
  }

  lemma SameElsewhere(s: State, u: State, i: nat, k: nat, j: nat)
    requires Apart(s, u, i, k) && j < |s.calls| && j != i && j != k
    ensures |u.calls| == |s.calls| && u.calls[j] == s.calls[j] && (s.rerr.Some? ==> u.rerr.Some?)
    ensures s.werr.Some? ==> u.werr.Some?
  {
  }

  lemma LockKeeps(s: State, i: nat)
    requires Inv(s) && i < |s.calls| && s.calls[i].Writer? && s.calls[i].wpc.WLock? && Step(s, i).Some?
    ensures Inv(Step(s, i).value)
  {
    hide CallsOK, HandoffOK, Received, Prefixes;
    var u := Step(s, i).value;
    CallAt(s, i);
    assert i !in s.order && s.calls[i].n == 0;
    ApartCalls(s, u, i, i);
    SameHandoffs(s, u, i);
    LockOrder(s, u, i);
    OrderFits(s);
    PrefixesSame(s, u, s.order);
    PrefixesMore(u, s.order, i);
  }

  lemma LockOrder(s: State, u: State, i: nat)
    requires OrderOK(s) && i < |s.calls| && s.calls[i].Writer? && i !in s.order && u.order == s.order + [i]
    requires u.mutex == Some(i)
    requires |u.calls| == |s.calls| && forall j :: 0 <= j < |s.calls| ==> (s.calls[j].Writer? <==> u.calls[j].Writer?)
    ensures OrderOK(u)
  {
  }

  lemma SameHandoffs(s: State, u: State, i: nat)
    requires LogOK(s) && u.log == s.log && u.open == s.open && |u.calls| == |s.calls| && i < |s.calls|
    requires Alike(s.calls[i], u.calls[i])
    requires forall j :: 0 <= j < |s.calls| && j != i ==> u.calls[j] == s.calls[j]
    ensures LogOK(u)
  {
    forall k | 0 <= k < |u.log| ensures HandoffOK(u, k) { assert HandoffOK(s, k); }
  }

  lemma PrefixesMore(u: State, order: seq<nat>, w: nat)
    requires Fits(u, order) && w < |u.calls| && u.calls[w].Writer? && Taken(u, w) <= |u.calls[w].data|
    ensures Fits(u, order + [w]) && Prefixes(u, order + [w]) == Prefixes(u, order) + u.calls[w].data[..Taken(u, w)]
  {
    assert (order + [w])[..|order|] == order;
  }

  /** A write returns with an error. */
  lemma FailKeeps(s: State, i: nat)
    requires Inv(s) && i < |s.calls| && s.calls[i].Writer? && s.calls[i].wpc.WErr2?
    ensures Step(s, i).Some? && Inv(Step(s, i).value)
  {
    hide CallsOK, HandoffOK, Received, Prefixes;
    var u := Step(s, i).value;
    CallAt(s, i);
    ApartCalls(s, u, i, i);
    SameHandoffs(s, u, i);
    Conserves(s, u);
  }

  // ---------------------------------------------------------------- the handoff and its acknowledgement

  lemma MeetKeeps(s: State, r: nat, w: nat)
    requires Inv(s) && Do(s, Meet(r, w)).Some?
    ensures Inv(Do(s, Meet(r, w)).value)
  {
    hide CallsOK, HandoffOK, LogOK, Received, Prefixes;
    var u := Do(s, Meet(r, w)).value;
    CallAt(s, r);
    CallAt(s, w);
    assert s.open.None?;
    MeetCalls(s, u, r, w);
    ApartCalls(s, u, r, w);
    MeetLog(s, u, r, w);
    MeetBytes(s, u, r, w);
  }

  /** What the handoff did to the counts. */
  lemma MeetCounts(s: State, u: State, r: nat, w: nat)
    requires Base(s) && Do(s, Meet(r, w)) == Some(u) && s.open.None? && CallOK(s, w)
    requires s.order != [] && s.order[|s.order|-1] == w
    ensures |u.calls| == |s.calls| && u.order == s.order && |u.log| == |s.log| + 1 && u.log[..|s.log|] == s.log
    ensures s.calls[w].Writer? && u.calls[w].Writer? && u.calls[w].data == s.calls[w].data && u.log[|s.log|].w == w
    ensures Taken(s, w) <= Taken(u, w) <= |s.calls[w].data|
    ensures u.log[|s.log|].chunk == s.calls[w].data[Taken(s, w)..Taken(u, w)]
    ensures forall j :: 0 <= j < |s.order| - 1 ==>
      && s.order[j] < |s.calls| && s.calls[s.order[j]].Writer? && u.calls[s.order[j]] == s.calls[s.order[j]]
      && Taken(u, s.order[j]) == Taken(s, s.order[j])
  {
    hide CallsOK, LogOK, OpenOK;
  }

  lemma MeetBytes(s: State, u: State, r: nat, w: nat)
    requires Inv(s) && Do(s, Meet(r, w)) == Some(u) && s.open.None? && Base(u)
    requires s.order != [] && s.order[|s.order|-1] == w && CallOK(s, w)
    ensures Inv(u)
  {
    hide Base, Do, CallOK, Taken, Received, Prefixes;
    MeetCounts(s, u, r, w);
    var h := u.log[|s.log|];
    var before := s.order[..|s.order|-1];
    assert s.order == before + [w];
    OrderFits(s);
    OrderFits(u);
    assert Fits(s, before);
    PrefixesSame(s, u, before);
    PrefixesMore(s, before, w);
    PrefixesMore(u, before, w);
    assert s.calls[w].data[..Taken(s, w)] + h.chunk == s.calls[w].data[..Taken(u, w)];
    assert u.log == s.log + [h];
    ReceivedMore(s.log, h);
  }

  lemma MeetCalls(s: State, u: State, r: nat, w: nat)
    requires Inv(s) && Do(s, Meet(r, w)) == Some(u) && s.open.None? && CallOK(s, r) && CallOK(s, w)
    ensures Apart(s, u, r, w) && CallOK(u, r) && CallOK(u, w)
  {
    hide CallsOK, LogOK, Received, Prefixes;
  }

  lemma MeetLog(s: State, u: State, r: nat, w: nat)
    requires Inv(s) && Do(s, Meet(r, w)) == Some(u) && s.open.None?
    ensures LogOK(u)
  {
    hide CallsOK, OrderOK, Received, Prefixes;
    forall k | 0 <= k < |u.log| ensures HandoffOK(u, k) && (k < |s.log| ==> u.log[k].r != r) {
      if k < |s.log| { assert HandoffOK(s, k); }
    }
  }

  lemma ReceivedMore(log: seq<Handoff>, h: Handoff)
    ensures Received(log + [h]) == Received(log) + h.chunk
  {
    assert (log + [h])[..|log|] == log;
  }

  /** The acknowledgement reaches the write that made the handoff. */
  lemma AckKeeps(s: State, r: nat, w: nat)
    requires Inv(s) && Do(s, Ack(r, w)).Some?
    ensures s.open.Some? && s.open.value.r == r && s.open.value.w == w && s.open.value.chunk == s.calls[r].rpc.got
    ensures Inv(Do(s, Ack(r, w)).value)
  {
    hide CallsOK, HandoffOK, LogOK, Received, Prefixes;
    var u := Do(s, Ack(r, w)).value;
    CallAt(s, r);
    CallAt(s, w);
    LastRead(s);
    AckCalls(s, u, r, w);
    ApartCalls(s, u, r, w);
    AckLog(s, u, r, w);
    Conserves(s, u);
  }

  lemma LastRead(s: State)
    requires Inv(s) && s.open.Some?
    ensures s.log != [] && HandoffOK(s, |s.log| - 1)
  {
  }

  lemma AckCalls(s: State, u: State, r: nat, w: nat)
    requires Inv(s) && Do(s, Ack(r, w)) == Some(u) && CallOK(s, r) && CallOK(s, w) && s.log != []
    requires HandoffOK(s, |s.log| - 1)
    ensures !u.panicked && Apart(s, u, r, w) && CallOK(u, r) && CallOK(u, w)
  {
    hide CallsOK, LogOK, Received, Prefixes;
    assert s.log[|s.log|-1].r == r;
  }

  lemma AckLog(s: State, u: State, r: nat, w: nat)
    requires Inv(s) && Do(s, Ack(r, w)) == Some(u) && !u.panicked && s.open.Some? && s.open.value.r == r
    requires s.open.value.w == w
    requires s.open.value.chunk == s.calls[r].rpc.got
    ensures LogOK(u) && OpenOK(u) && OrderOK(u)
  {
    hide CallsOK, Received, Prefixes;
    forall k | 0 <= k < |u.log| ensures HandoffOK(u, k) { assert HandoffOK(s, k); }
  }

  // ---------------------------------------------------------------- runs

  lemma DoKeeps(s: State, a: Action)
    requires Inv(s) && Do(s, a).Some?
    ensures Inv(Do(s, a).value)
  {
    hide Inv, Step;
    match a
    case Read(cap) => BeginKeeps(s, Reader(cap, RStart));
    case Write(data) => BeginKeeps(s, Writer(data, data, 0, WStart));
    case CloseRead(err) => BeginKeeps(s, Closer(true, if err.Some? then err.value else ERR_CLOSED_PIPE, CStore));
    case CloseWrite(err) => BeginKeeps(s, Closer(false, if err.Some? then err.value else EOF, CStore));
    case Go(i) =>
      if s.calls[i].Reader? {
        ReaderKeeps(s, i);
      } else if s.calls[i].Closer? {
        CloserKeeps(s, i);
      } else if s.calls[i].wpc.WLock? {
        LockKeeps(s, i);
      } else if s.calls[i].wpc.WErr2? {
        FailKeeps(s, i);
      } else {
        WriterKeeps(s, i);
      }
    case Meet(r, w) => MeetKeeps(s, r, w);
    case Ack(r, w) => AckKeeps(s, r, w);
  }

  /** The state after a run from the start, if the run can happen. */
  function After(run: seq<Action>): (r: Option<State>)
    ensures r.Some? ==> Inv(r.value)
  {
    if run == [] then Some(START)
    else
      match After(run[..|run|-1])
      case None => None
      case Some(s) =>
        var r := Do(s, run[|run|-1]);
        if r.Some? then DoKeeps(s, run[|run|-1]); r else None
  }
}
