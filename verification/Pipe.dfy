/**
  The synchronous pipe (go/src/io/pipe.go) as steps of concurrent calls. A send and the receive it meets
  on an unbuffered channel are one step; everything else is a step of one call.
 */
module Pipe {
  import opened Bytes
  import opened Options

  type Error = nat

  /** ErrClosedPipe and io.EOF. */
  const ERR_CLOSED_PIPE: Error := 0
  const EOF: Error := 1

  datatype ReadPc =
    | RStart | RSelect
    | RGot(bw: bytes)                      // received from wrCh, not yet copied
    | RSend(got: bytes)                    // copied, sending the count on rdCh
    | RErr | RErr2(rerr: Option<Error>)    // readCloseError, between its two loads
    | RDone(got: bytes, err: Option<Error>)

  datatype WritePc =
    | WStart | WLock
    | WSelect | WAwait                     // sending on wrCh, receiving from rdCh
    | WErr | WErr2(werr: Option<Error>)    // writeCloseError, between its two loads
    | WDone(err: Option<Error>)

  datatype ClosePc = CStore | CClose | CDone

  /**
    A call of read with a buffer of `cap` bytes, of write (`b` is what is left of `data`), of closeRead or closeWrite.
   */
  datatype Call =
    | Reader(cap: nat, rpc: ReadPc)
    | Writer(data: bytes, b: bytes, n: nat, wpc: WritePc)
    | Closer(read: bool, err: Error, cpc: ClosePc)

  /** A handoff: `chunk` went from write call `w` to read call `r`. */
  datatype Handoff = Handoff(w: nat, r: nat, chunk: bytes)

  /**
    `log` lists the handoffs, `order` the write calls that took wrMu, both as they happened; `open` is the
    handoff not yet acknowledged.
   */
  datatype State = State(calls: seq<Call>, mutex: Option<nat>, done: bool, rerr: Option<Error>, werr: Option<Error>,
                         log: seq<Handoff>, order: seq<nat>, open: Option<Handoff>, panicked: bool)

  const START := State([], None, false, None, None, [], [], None, false)

  datatype Action =
    | Read(cap: nat) | Write(data: bytes) | CloseRead(rerr: Option<Error>) | CloseWrite(werr: Option<Error>)
    | Go(i: nat)
    | Meet(r: nat, w: nat)     // p.wrCh <- b meets bw := <-p.wrCh
    | Ack(r: nat, w: nat)      // p.rdCh <- nr meets nw := <-p.rdCh

  function Set(s: State, i: nat, c: Call): State
    requires i < |s.calls|
  {
    s.(calls := s.calls[i := c])
  }

  function Begin(s: State, c: Call): State { s.(calls := s.calls + [c]) }

  /** onceError.Store */
  function StoreOnce(e: Option<Error>, err: Error): Option<Error> { if e.Some? then e else Some(err) }

  /** One step of a call of its own; None while it waits. */
  function Step(s: State, i: nat): Option<State>
    requires i < |s.calls|
  {
    match s.calls[i]
    case Reader(cap, pc) =>
      (match pc
       case RStart => Some(Set(s, i, Reader(cap, if s.done then RErr else RSelect)))
       case RSelect => if s.done then Some(Set(s, i, Reader(cap, RErr))) else None
       case RGot(bw) => Some(Set(s, i, Reader(cap, RSend(bw[..Min(cap, |bw|)]))))
       case RErr => Some(Set(s, i, Reader(cap, RErr2(s.rerr))))
       case RErr2(rerr) =>
         Some(Set(s, i,
           Reader(cap, RDone([], Some(if rerr.None? && s.werr.Some? then s.werr.value else ERR_CLOSED_PIPE)))))
       case _ => None)
    case Writer(data, b, n, pc) =>
      (match pc
       case WStart => Some(Set(s, i, Writer(data, b, n, if s.done then WErr else WLock)))
       case WLock =>
         if s.mutex.Some? then None
         else Some(Set(s, i, Writer(data, b, n, WSelect)).(mutex := Some(i), order := s.order + [i]))
       case WSelect => if s.done then Some(Set(s, i, Writer(data, b, n, WErr))) else None
       case WErr => Some(Set(s, i, Writer(data, b, n, WErr2(s.werr))))
       case WErr2(werr) =>
         Some(Finish(s, i, Some(if werr.None? && s.rerr.Some? then s.rerr.value else ERR_CLOSED_PIPE)))
       case _ => None)
    case Closer(read, err, pc) =>
      (match pc
       case CStore =>
         var u := if read then s.(rerr := StoreOnce(s.rerr, err)) else s.(werr := StoreOnce(s.werr, err));
         Some(Set(u, i, Closer(read, err, CClose)))
       case CClose => Some(Set(s.(done := true), i, Closer(read, err, CDone)))
       case CDone => None)
  }

  function Min(a: nat, b: nat): nat { if a < b then a else b }

  /** A write returns, and its deferred Unlock runs if it had locked. */
  function Finish(s: State, i: nat, err: Option<Error>): State
    requires i < |s.calls| && s.calls[i].Writer?
  {
    var c := s.calls[i];
    Set(s, i, c.(wpc := WDone(err))).(mutex := if s.mutex == Some(i) then None else s.mutex)
  }

  function Do(s: State, a: Action): Option<State> {
    match a
    case Read(cap) => Some(Begin(s, Reader(cap, RStart)))
    case Write(data) => Some(Begin(s, Writer(data, data, 0, WStart)))
    case CloseRead(err) => Some(Begin(s, Closer(true, if err.Some? then err.value else ERR_CLOSED_PIPE, CStore)))
    case CloseWrite(err) => Some(Begin(s, Closer(false, if err.Some? then err.value else EOF, CStore)))
    case Go(i) => if i < |s.calls| then Step(s, i) else None
    case Meet(r, w) =>
      if && r < |s.calls| && s.calls[r].Reader? && s.calls[r].rpc.RSelect?
         && w < |s.calls| && s.calls[w].Writer? && s.calls[w].wpc.WSelect? then
        var b := s.calls[w].b;
        var h := Handoff(w, r, b[..Min(s.calls[r].cap, |b|)]);
        var u := Set(Set(s, r, s.calls[r].(rpc := RGot(b))), w, s.calls[w].(wpc := WAwait));
        Some(u.(log := s.log + [h], open := Some(h)))
      else None
    case Ack(r, w) =>
      if && r < |s.calls| && s.calls[r].Reader? && s.calls[r].rpc.RSend?
         && w < |s.calls| && s.calls[w].Writer? && s.calls[w].wpc.WAwait? then
        var got := s.calls[r].rpc.got;
        var c := s.calls[w];
        if |got| > |c.b| then Some(s.(panicked := true))
        else
          var u := Set(s, r, s.calls[r].(rpc := RDone(got, None))).(open := None);
          var d := Writer(c.data, c.b[|got|..], c.n + |got|, WSelect);
          Some(if |d.b| > 0 then Set(u, w, d) else Finish(Set(u, w, d), w, None))
      else None
  }

  // ---------------------------------------------------------------- the invariant

  /** How much of write call `w` has gone to readers, acknowledged or not. */
  function Taken(s: State, w: nat): (k: nat)
    requires w < |s.calls| && s.calls[w].Writer?
  {
    s.calls[w].n + if s.open.Some? && s.open.value.w == w then |s.open.value.chunk| else 0
  }

  predicate WriterOK(s: State, w: nat)
    requires w < |s.calls| && s.calls[w].Writer?
  {
    var c := s.calls[w];
    && c.n + |c.b| == |c.data| && c.b == c.data[c.n..]
    && (c.wpc.WStart? || c.wpc.WLock? ==> w !in s.order) && (c.wpc.WSelect? || c.wpc.WAwait? ==> w in s.order)
    && (w !in s.order ==> c.n == 0)
    && (s.mutex == Some(w) <==> w in s.order && !c.wpc.WDone?)
    && (c.wpc.WAwait? <==> s.open.Some? && s.open.value.w == w)
    && (c.wpc.WSelect? || c.wpc.WErr? || c.wpc.WErr2? ==> c.b != [] || c.data == [])
    && (c.wpc.WErr? || c.wpc.WErr2? ==> s.done)
    && (c.wpc.WErr2? ==> if c.wpc.werr.Some? then s.werr == c.wpc.werr else s.rerr.Some?)
    && (c.wpc.WDone? ==> WriteResult(s, c))
  }

  /**
    nil only when everything was delivered; otherwise the error the read end was closed with, or ErrClosedPipe once
    the write end is closed.
   */
  predicate WriteResult(s: State, c: Call)
    requires c.Writer? && c.wpc.WDone?
  {
    match c.wpc.err
    case None => c.n == |c.data|
    case Some(e) =>
      s.done && (c.n < |c.data| || c.data == []) && (s.rerr == Some(e) || (e == ERR_CLOSED_PIPE && s.werr.Some?))
  }

  predicate ReaderOK(s: State, r: nat)
    requires r < |s.calls| && s.calls[r].Reader?
  {
    var c := s.calls[r];
    && (c.rpc.RGot? || c.rpc.RSend? <==> s.open.Some? && s.open.value.r == r)
    && (c.rpc.RGot? ==> s.open.value.chunk == c.rpc.bw[..Min(c.cap, |c.rpc.bw|)])
    && (c.rpc.RSend? ==> s.open.value.chunk == c.rpc.got)
    && (c.rpc.RErr? || c.rpc.RErr2? ==> s.done)
    && (c.rpc.RErr2? ==> if c.rpc.rerr.Some? then s.rerr == c.rpc.rerr else s.werr.Some?)
    && (c.rpc.RDone? ==> ReadResult(s, c))
    && (c.rpc.RDone? && c.rpc.err.None? ==> exists k :: 0 <= k < |s.log| && s.log[k].r == r)
  }

  /** Bytes, or the error the write end was closed with, or ErrClosedPipe once the read end is closed. */
  predicate ReadResult(s: State, c: Call)
    requires c.Reader? && c.rpc.RDone?
  {
    match c.rpc.err
    case None => |c.rpc.got| <= c.cap
    case Some(e) => s.done && c.rpc.got == [] && (s.werr == Some(e) || (e == ERR_CLOSED_PIPE && s.rerr.Some?))
  }

  /** Handoff `k` is the open one, or the reader has returned its bytes. */
  predicate HandoffOK(s: State, k: nat)
    requires k < |s.log|
  {
    var h := s.log[k];
    && h.w < |s.calls| && s.calls[h.w].Writer? && h.r < |s.calls| && s.calls[h.r].Reader?
    && |h.chunk| <= s.calls[h.r].cap
    && (if s.open == Some(h) && k == |s.log| - 1 then true else s.calls[h.r].rpc == RDone(h.chunk, None))
  }

  /** The open handoff is the last; it took a prefix of what its writer still has. */
  predicate OpenOK(s: State) {
    s.open.Some? ==>
      var h := s.open.value;
      && s.log != [] && s.log[|s.log|-1] == h && s.mutex == Some(h.w)
      && h.w < |s.calls| && s.calls[h.w].Writer? && h.r < |s.calls| && s.calls[h.r].Reader?
      && h.chunk <= s.calls[h.w].b && (s.calls[h.r].rpc.RGot? ==> s.calls[h.r].rpc.bw == s.calls[h.w].b)
  }

  predicate OrderOK(s: State) {
    && (forall j :: 0 <= j < |s.order| ==> s.order[j] < |s.calls| && s.calls[s.order[j]].Writer?)
    && (forall j, k :: 0 <= j < k < |s.order| ==> s.order[j] != s.order[k])
    && (s.mutex.Some? ==> s.order != [] && s.order[|s.order|-1] == s.mutex.value)
  }

  function Received(log: seq<Handoff>): bytes {
    if log == [] then [] else Received(log[..|log|-1]) + log[|log|-1].chunk
  }

  predicate Fits(s: State, order: seq<nat>) {
    forall j ::
      0 <= j < |order| ==>
        order[j] < |s.calls| && s.calls[order[j]].Writer? && Taken(s, order[j]) <= |s.calls[order[j]].data|
  }

  /** The delivered prefixes of the write calls, in the order they took the mutex. */
  function Prefixes(s: State, order: seq<nat>): bytes
    requires Fits(s, order)
  {
    if order == [] then []
    else
      var w := order[|order|-1];
      Prefixes(s, order[..|order|-1]) + s.calls[w].data[..Taken(s, w)]
  }

  predicate CallsOK(s: State) {
    && (forall w :: 0 <= w < |s.calls| && s.calls[w].Writer? ==> WriterOK(s, w))
    && (forall r :: 0 <= r < |s.calls| && s.calls[r].Reader? ==> ReaderOK(s, r))
    && (forall i ::
          0 <= i < |s.calls| && s.calls[i].Closer? && !s.calls[i].cpc.CStore? ==>
            if s.calls[i].read then s.rerr.Some? else s.werr.Some?)
  }

  predicate LogOK(s: State) {
    && (forall k :: 0 <= k < |s.log| ==> HandoffOK(s, k))
    && (forall j, k :: 0 <= j < k < |s.log| ==> s.log[j].r != s.log[k].r)
  }

  predicate Base(s: State) {
    && !s.panicked && CallsOK(s) && LogOK(s) && OpenOK(s) && OrderOK(s)
    && (s.done ==> s.rerr.Some? || s.werr.Some?)
  }

  lemma OrderFits(s: State)
    requires Base(s)
    ensures Fits(s, s.order)
  {
    forall j | 0 <= j < |s.order|
      ensures Taken(s, s.order[j]) <= |s.calls[s.order[j]].data|
    {
      assert WriterOK(s, s.order[j]);
    }
  }

  /** Bytes arrive, in handoff order, as the delivered prefixes of the writes one after another. */
  predicate Inv(s: State) {
    Base(s) && (OrderFits(s); Received(s.log) == Prefixes(s, s.order))
  }
}
