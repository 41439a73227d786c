/**
  bufio.Writer (go/src/bufio/bufio.go): every byte it reports as accepted is in the sink or in the buffer, in order.
 */
module BufWriter {
  import opened Bytes
  import opened Options

  type Error = nat

  const ERR_SHORT_WRITE: Error := 0
  const DEFAULT_BUF_SIZE := 4096

  /**
    An io.Writer: it takes any part of what it is given, and says why when it takes less than all; `failures` are its
    errors so far.
   */
  class Sink {
    var got: bytes
    var failures: seq<Error>
    const stringWriter: bool

    constructor (stringWriter: bool)
      ensures got == [] && failures == []
    {
      got, failures, this.stringWriter := [], [], stringWriter;
    }

    method Write(p: bytes) returns (n: nat, err: Option<Error>)
      modifies this
      ensures n <= |p| && got == old(got) + p[..n] && (n < |p| ==> err.Some?)
      ensures failures == old(failures) + if err.Some? then [err.value] else []
    {
      n := |p|;
      err := None;
      if * {
        var k: nat, e: Error :| k <= |p|;
        n, err := k, Some(e);
        failures := failures + [e];
      }
      got := got + p[..n];
    }
  }

  lemma Rest(all: bytes, k: nat)
    requires k <= |all|
    ensures all == all[..k] + all[k..] && (k == 0 ==> all[k..] == all) && (k == |all| ==> all[k..] == [])
  {
  }

  /** An error comes from the sink, and nothing is asked of the sink after one. */
  predicate Sticks(before: Option<Error>, was: seq<Error>, now: Option<Error>, failures: seq<Error>) {
    if before.Some? then now == before && failures == was
    else failures == was + if now.Some? then [now.value] else []
  }

  class Writer {
    var err: Option<Error>
    const buf: array<byte>
    var n: nat
    const wr: Sink

    ghost predicate Valid()
      reads this
    {
      n <= buf.Length && buf.Length > 0
    }

    /** All that was accepted so far: what the sink has, then what is buffered. */
    ghost function Accepted(): bytes
      requires Valid()
      reads this, buf, wr
    {
      wr.got + buf[..n]
    }

    /** NewWriterSize, on a sink that is not itself a Writer. */
    constructor (wr: Sink, size: int)
      ensures Valid() && fresh(buf) && this.wr == wr && err.None? && n == 0 && Accepted() == wr.got
    {
      err, n, this.wr := None, 0, wr;
      buf := new byte[if size <= 0 then DEFAULT_BUF_SIZE else size];
    }

    function Available(): nat
      requires Valid()
      reads this
    {
      buf.Length - n
    }

    /** copy(b.buf[0:b.n-k], b.buf[k:b.n]) */
    method slide(k: nat)
      requires Valid() && k <= n
      modifies buf
      ensures buf[..n - k] == old(buf[..n])[k..]
    {
      ghost var all := buf[..n];
      var m := n - k;
      forall i | 0 <= i < m { buf[i] := buf[k + i]; }
      assert forall i :: 0 <= i < m ==> buf[i] == all[k + i];
    }

    /** Flush: on an error what the sink did not take stays buffered. */
    method Flush() returns (e: Option<Error>)
      requires Valid()
      modifies this`err, this`n, buf, wr
      ensures Valid() && Accepted() == old(Accepted()) && e == err && n <= old(n)
      ensures old(err).Some? ==> err == old(err) && n == old(n) && wr.got == old(wr.got)
      ensures e.None? ==> n == 0 && wr.got == old(Accepted())
      ensures Sticks(old(err), old(wr.failures), err, wr.failures)
    {
      if err.Some? { return err; }
      if n == 0 { return None; }
      ghost var all := buf[..n];
      var k;
      k, e := wr.Write(buf[..n]);
      if k < n && e.None? { e := Some(ERR_SHORT_WRITE); }
      if e.Some? {
        if k > 0 && k < n { slide(k); }
        Rest(all, k);
        n := n - k;
        err := e;
        return;
      }
      n := 0;
    }

    /** copy(b.buf[b.n:], p): as much as fits. */
    method fillFrom(p: bytes) returns (k: nat)
      requires Valid()
      modifies this`n, buf
      ensures Valid() && k == (if |p| < old(Available()) then |p| else old(Available())) && n == old(n) + k
      ensures Accepted() == old(Accepted()) + p[..k]
    {
      k := if |p| < buf.Length - n then |p| else buf.Length - n;
      ghost var before := buf[..n];
      forall i | 0 <= i < k { buf[n + i] := p[i]; }
      assert buf[..n + k] == before + p[..k];
      n := n + k;
    }

    /** One turn of the write loops: straight to the sink, or through the buffer. */
    method push(p: bytes, direct: bool) returns (k: nat)
      requires Valid() && err.None? && |p| > buf.Length - n && (direct ==> n == 0)
      modifies this`err, this`n, buf, wr
      ensures Valid() && k <= |p| && Accepted() == old(Accepted()) + p[..k]
      ensures err.None? ==> k > 0 || n < old(n)
      ensures Sticks(old(err), old(wr.failures), err, wr.failures)
    {
      ghost var all := Accepted();
      if direct {
        k, err := wr.Write(p);
        assert Accepted() == all + p[..k];
      } else {
        k := fillFrom(p);
        var _ := Flush();
      }
    }

    method Write(p0: bytes) returns (nn: nat, e: Option<Error>)
      requires Valid()
      modifies this`err, this`n, buf, wr
      ensures Valid() && nn <= |p0| && Accepted() == old(Accepted()) + p0[..nn]
      ensures e == err && (nn < |p0| ==> e.Some?) && Sticks(old(err), old(wr.failures), err, wr.failures)
      ensures |p0| <= old(Available()) ==> wr.got == old(wr.got)
      ensures old(err).Some? ==> nn == 0 && err == old(err) && n == old(n) && wr.got == old(wr.got)
    {
      var p := p0;
      nn := 0;
      while |p| > buf.Length - n && err.None?
        invariant Valid() && nn <= |p0| && p == p0[nn..] && Accepted() == old(Accepted()) + p0[..nn]
        invariant old(err).Some? ==> nn == 0 && err == old(err) && n == old(n) && wr.got == old(wr.got)
        invariant Sticks(old(err), old(wr.failures), err, wr.failures)
        invariant |p0| <= old(Available()) ==> nn == 0 && n == old(n) && wr.got == old(wr.got)
        decreases if err.None? then 1 else 0, |p|, n
      {
        var k := push(p, n == 0);
        assert p0[..nn] + p[..k] == p0[..nn + k];
        nn := nn + k;
        p := p[k..];
      }
      if err.Some? { return nn, err; }
      var k := fillFrom(p);
      assert p0[..nn] + p[..k] == p0[..nn + k];
      nn := nn + k;
      return nn, None;
    }

    method WriteByte(c: byte) returns (e: Option<Error>)
      requires Valid()
      modifies this`err, this`n, buf, wr
      ensures Valid() && e == err && Accepted() == if e.None? then old(Accepted()) + [c] else old(Accepted())
      ensures old(err).Some? ==> err == old(err) && n == old(n) && wr.got == old(wr.got)
      ensures Sticks(old(err), old(wr.failures), err, wr.failures)
      ensures old(Available()) > 0 ==> wr.got == old(wr.got)
    {
      if err.Some? { return err; }
      if buf.Length - n <= 0 {
        var f := Flush();
        if f.Some? { return err; }
      }
      ghost var before := buf[..n];
      buf[n] := c;
      assert buf[..n+1] == before + [c];
      n := n + 1;
      return None;
    }

    /** WriteString: as Write, but what goes past the buffer goes to the sink only if that takes strings. */
    method WriteString(s0: bytes) returns (nn: nat, e: Option<Error>)
      requires Valid()
      modifies this`err, this`n, buf, wr
      ensures Valid() && nn <= |s0| && Accepted() == old(Accepted()) + s0[..nn]
      ensures e == err && (nn < |s0| ==> e.Some?) && Sticks(old(err), old(wr.failures), err, wr.failures)
      ensures |s0| <= old(Available()) ==> wr.got == old(wr.got)
      ensures old(err).Some? ==> nn == 0 && err == old(err) && n == old(n) && wr.got == old(wr.got)
    {
      var s := s0;
      var sw, tryStringWriter := false, true;
      nn := 0;
      while |s| > buf.Length - n && err.None?
        invariant Valid() && nn <= |s0| && s == s0[nn..] && Accepted() == old(Accepted()) + s0[..nn]
        invariant old(err).Some? ==> nn == 0 && err == old(err) && n == old(n) && wr.got == old(wr.got)
        invariant Sticks(old(err), old(wr.failures), err, wr.failures)
        invariant |s0| <= old(Available()) ==> nn == 0 && n == old(n) && wr.got == old(wr.got)
        decreases if err.None? then 1 else 0, |s|, n
      {
        if n == 0 && !sw && tryStringWriter {
          sw := wr.stringWriter;
          tryStringWriter := sw;
        }
        var k := push(s, n == 0 && tryStringWriter);
        assert s0[..nn] + s[..k] == s0[..nn + k];
        nn := nn + k;
        s := s[k..];
      }
      if err.Some? { return nn, err; }
      var k := fillFrom(s);
      assert s0[..nn] + s[..k] == s0[..nn + k];
      nn := nn + k;
      return nn, None;
    }
  }

  // ---------------------------------------------------------------- sequences of calls

  datatype Op = OpWrite(p: bytes) | OpWriteString(p: bytes) | OpWriteByte(c: byte) | OpFlush

  function Payload(op: Op): bytes {
    match op
    case OpWrite(p) => p
    case OpWriteString(p) => p
    case OpWriteByte(c) => [c]
    case OpFlush => []
  }

  function Payloads(ops: seq<Op>): bytes {
    if ops == [] then [] else Payloads(ops[..|ops|-1]) + Payload(ops[|ops|-1])
  }

  /** Any calls in any order: what they report as accepted is what went in, and all of it as long as no error came. */
  method runAll(w: Writer, ops: seq<Op>) returns (accepted: bytes)
    requires w.Valid()
    modifies w, w.buf, w.wr
    ensures w.Valid() && w.Accepted() == old(w.Accepted()) + accepted
    ensures w.err.None? ==> accepted == Payloads(ops)
    ensures Sticks(old(w.err), old(w.wr.failures), w.err, w.wr.failures)
    ensures w.err.None? && ops != [] && ops[|ops|-1].OpFlush? ==> w.wr.got == old(w.Accepted()) + Payloads(ops)
  {
    accepted := [];
    var i := 0;
    while i < |ops|
      invariant i <= |ops| && w.Valid() && w.Accepted() == old(w.Accepted()) + accepted
      invariant w.err.None? ==> accepted == Payloads(ops[..i])
      invariant Sticks(old(w.err), old(w.wr.failures), w.err, w.wr.failures)
      invariant w.err.None? && i > 0 && ops[i-1].OpFlush? ==> w.wr.got == old(w.Accepted()) + accepted
    {
      assert ops[..i+1][..i] == ops[..i];
      var k := runOne(w, ops[i]);
      accepted := accepted + Payload(ops[i])[..k];
      i := i + 1;
    }
    assert ops[..i] == ops;
  }

  method runOne(w: Writer, op: Op) returns (k: nat)
    requires w.Valid()
    modifies w, w.buf, w.wr
    ensures w.Valid() && k <= |Payload(op)| && w.Accepted() == old(w.Accepted()) + Payload(op)[..k]
    ensures w.err.None? ==> old(w.err).None? && k == |Payload(op)| && (op.OpFlush? ==> w.wr.got == w.Accepted())
    ensures Sticks(old(w.err), old(w.wr.failures), w.err, w.wr.failures)
  {
    match op
    case OpWrite(p) =>
      var e;
      k, e := w.Write(p);
    case OpWriteString(p) =>
      var e;
      k, e := w.WriteString(p);
    case OpWriteByte(c) =>
      var e := w.WriteByte(c);
      k := if e.None? then 1 else 0;
    case OpFlush =>
      var e := w.Flush();
      k := 0;
  }
}
