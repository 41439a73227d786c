/**
  What an io.Reader may do (go/src/io/io.go): a stream of bytes and errors, handed out in pieces of the
  reader's choosing, with empty reads in between and the rest of the buffer used as scratch space.
 */
module IoReader {
  import opened Bytes
  import opened Options

  type Error = nat

  const EOF: Error := 0

  datatype Item = Data(b: byte) | Fail(e: Error)

  const MAX_CONSECUTIVE_EMPTY_READS := 100

  /** `s` is what the stream holds from `p` on. */
  predicate Holds(stream: nat -> Item, p: nat, s: bytes) {
    forall i :: 0 <= i < |s| ==> stream(p + i) == Data(s[i])
  }

  /** Nothing but io.EOF comes from `end` on. */
  ghost predicate Ends(stream: nat -> Item, end: nat) {
    forall i :: end <= i ==> stream(i) == Fail(EOF)
  }

  class Source {
    const stream: nat -> Item
    ghost const end: nat
    var pos: nat
    var empties: nat

    /** The input ends, and the reader makes progress: it never returns 100 empty reads in a row. */
    ghost predicate Valid()
      reads this
    {
      empties < MAX_CONSECUTIVE_EMPTY_READS && Ends(stream, end)
    }

    constructor (stream: nat -> Item, ghost end: nat)
      requires Ends(stream, end)
      ensures Valid() && this.stream == stream && this.end == end && pos == 0
    {
      this.stream, this.end, pos, empties := stream, end, 0, 0;
    }

    /** Read(buf[lo..hi]): any piece of what comes next, with or without the error that follows it. */
    method Read(buf: array<byte>, lo: nat, hi: nat) returns (n: nat, err: Option<Error>)
      requires Valid() && lo < hi <= buf.Length
      modifies this, buf
      ensures Valid() && lo + n <= hi
      ensures Holds(stream, old(pos), buf[lo..lo+n])
      ensures match err
        case None => pos == old(pos) + n
        case Some(e) => stream(old(pos) + n) == Fail(e) && pos == old(pos) + n + 1
      ensures n == 0 && err.None? ==> empties == old(empties) + 1
      ensures forall i :: 0 <= i < lo || hi <= i < buf.Length ==> buf[i] == old(buf[i])
    {
      forall i | lo <= i < hi { buf[i] := *; }
      n := 0;
      while lo + n < hi && stream(pos).Data?
        invariant lo + n <= hi && pos == old(pos) + n && Holds(stream, old(pos), buf[lo..lo+n]) && Valid()
        invariant empties == old(empties)
        invariant forall i :: 0 <= i < lo || hi <= i < buf.Length ==> buf[i] == old(buf[i])
        decreases hi - lo - n
      {
        if * { break; }
        buf[lo + n] := stream(pos).b;
        n, pos := n + 1, pos + 1;
      }
      err := None;
      if stream(pos).Fail? {
        if * { err := Some(stream(pos).e); pos := pos + 1; }
      }
      if n == 0 && err.None? && empties + 1 < MAX_CONSECUTIVE_EMPTY_READS {
        empties := empties + 1;
      } else {
        if n == 0 && err.None? {
          if stream(pos).Data? {
            buf[lo] := stream(pos).b;
            n := 1;
          } else {
            err := Some(stream(pos).e);
          }
          pos := pos + 1;
        }
        empties := 0;
      }
    }
  }

  // ---------------------------------------------------------------- the stream up to its next error

  /** The place of the next error. */
  ghost function Stop(stream: nat -> Item, end: nat, p: nat): (q: nat)
    requires Ends(stream, end)
    ensures p <= q && stream(q).Fail? && forall i :: p <= i < q ==> stream(i).Data?
    decreases end - p
  {
    if stream(p).Fail? then p else Stop(stream, end, p + 1)
  }

  ghost function Between(stream: nat -> Item, p: nat, q: nat): (s: bytes)
    requires p <= q && forall i :: p <= i < q ==> stream(i).Data?
    ensures |s| == q - p && Holds(stream, p, s)
  {
    seq(q - p, i requires 0 <= i < q - p => stream(p + i).b)
  }

  /** The bytes from `p` up to the next error. */
  ghost function Ahead(stream: nat -> Item, end: nat, p: nat): bytes
    requires Ends(stream, end)
  {
    Between(stream, p, Stop(stream, end, p))
  }

  lemma AheadSplits(stream: nat -> Item, end: nat, p: nat, s: bytes)
    requires Ends(stream, end) && Holds(stream, p, s)
    ensures Stop(stream, end, p) == Stop(stream, end, p + |s|)
    ensures Ahead(stream, end, p) == s + Ahead(stream, end, p + |s|)
  {
    forall i | p <= i < p + |s| ensures stream(i).Data? { assert stream(p + (i - p)) == Data(s[i - p]); }
    SameStop(stream, end, p, p + |s|);
    var a, b := Ahead(stream, end, p), s + Ahead(stream, end, p + |s|);
    forall i | 0 <= i < |a| ensures a[i] == b[i] {
      assert stream(p + i) == Data(a[i]);
      if i >= |s| { assert stream(p + |s| + (i - |s|)) == Data(b[i]); }
    }
  }

  lemma {:induction false} SameStop(stream: nat -> Item, end: nat, p: nat, r: nat)
    requires Ends(stream, end) && p <= r && forall i :: p <= i < r ==> stream(i).Data?
    ensures Stop(stream, end, p) == Stop(stream, end, r)
    decreases r - p
  {
    if p < r { SameStop(stream, end, p + 1, r); }
  }

  lemma BeforeEnd(stream: nat -> Item, end: nat, p: nat, more: bytes)
    requires Ends(stream, end) && Holds(stream, p, more) && more != []
    ensures p + |more| <= end
  {
    assert stream(p + (|more| - 1)) == Data(more[|more|-1]);
  }
}
