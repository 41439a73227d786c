/** bufio.Reader (go/src/bufio/bufio.go): a sliding buffer over a reader, which refines the plain stream. */
module BufReader {
  import opened Bytes
  import opened Options
  import opened IoReader

  const MIN_READ_BUFFER_SIZE := 16
  const NEWLINE: byte := 10
  const CARRIAGE_RETURN: byte := 13

  const ERR_BUFFER_FULL: Error := 1
  const ERR_NEGATIVE_COUNT: Error := 2
  const ERR_INVALID_UNREAD_BYTE: Error := 3

  // ---------------------------------------------------------------- the unread stream

  /** What a reader has yet to hand out: buffered bytes, a pending error, then the source's stream from `p` on. */
  datatype View = View(front: bytes, err: Option<Error>, stream: nat -> Item, p: nat)

  function At(v: View, i: nat): Item {
    if i < |v.front| then Data(v.front[i])
    else if v.err.None? then v.stream(v.p + (i - |v.front|))
    else if i == |v.front| then Fail(v.err.value)
    else v.stream(v.p + (i - |v.front| - 1))
  }

  /** `u` is `v` without its first `n` items. */
  ghost predicate Drops(v: View, n: nat, u: View) {
    forall i: nat :: At(u, i) == At(v, i + n)
  }

  /** `v` begins with the bytes `s`. */
  predicate Begins(v: View, s: bytes) {
    forall i :: 0 <= i < |s| ==> At(v, i) == Data(s[i])
  }

  lemma DropNone(v: View)
    ensures Drops(v, 0, v) && Begins(v, v.front) && Begins(v, [])
    ensures v.err.Some? ==> At(v, |v.front|) == Fail(v.err.value)
  {
  }

  lemma DropThen(v: View, n: nat, u: View, m: nat, x: View)
    requires Drops(v, n, u) && Drops(u, m, x)
    ensures Drops(v, n + m, x) && At(u, m) == At(v, n + m) && At(u, 0) == At(v, n)
  {
    forall i: nat ensures At(x, i) == At(v, i + (n + m)) { assert At(x, i) == At(u, i + m); }
  }

  lemma DropFront(v: View, n: nat)
    requires n <= |v.front|
    ensures Drops(v, n, v.(front := v.front[n..])) && Begins(v, v.front[..n])
  {
  }

  lemma DropErr(v: View)
    requires v.front == [] && v.err.Some?
    ensures Drops(v, 1, v.(err := None)) && At(v, 0) == Fail(v.err.value)
  {
  }

  /** Bytes and an error read move from the source to the buffer. */
  lemma Fetch(v: View, more: bytes, e: Option<Error>)
    requires v.err.None? && Holds(v.stream, v.p, more) && (e.Some? ==> v.stream(v.p + |more|) == Fail(e.value))
    ensures Drops(v, 0, View(v.front + more, e, v.stream, v.p + |more| + (if e.Some? then 1 else 0)))
  {
    var u := View(v.front + more, e, v.stream, v.p + |more| + (if e.Some? then 1 else 0));
    forall i: nat ensures At(u, i) == At(v, i + 0) {
      if |v.front| <= i < |u.front| { assert v.stream(v.p + (i - |v.front|)) == Data(more[i - |v.front|]); }
    }
  }

  /** A byte put back where it was taken. */
  lemma PutBack(v: View, u: View, c: byte)
    requires At(v, 0) == Data(c) && Drops(v, 1, u)
    ensures Drops(v, 0, u.(front := [c] + u.front))
  {
    var x := u.(front := [c] + u.front);
    forall i: nat ensures At(x, i) == At(v, i + 0) {
      if i > 0 { assert At(u, i - 1) == At(v, i - 1 + 1); }
    }
  }

  /** Bytes and an error read past an empty buffer. */
  lemma DirectRead(v: View, s: bytes, e: Option<Error>)
    requires v.front == [] && v.err.None? && Holds(v.stream, v.p, s)
    requires e.Some? ==> v.stream(v.p + |s|) == Fail(e.value)
    ensures Begins(v, s) && (e.Some? ==> At(v, |s|) == Fail(e.value))
    ensures Drops(v, if e.Some? then |s| + 1 else |s|, v.(p := v.p + |s| + (if e.Some? then 1 else 0)))
  {
  }

  lemma BeginsSame(v: View, u: View, s: bytes)
    requires Drops(v, 0, u) && Begins(u, s)
    ensures Begins(v, s) && At(v, |s|) == At(u, |s|)
  {
    forall i | 0 <= i < |s| ensures At(v, i) == Data(s[i]) { assert At(u, i) == At(v, i + 0); }
    assert At(u, |s|) == At(v, |s| + 0);
  }

  /** The source never fails with ErrBufferFull itself, which callers of ReadSlice would take for their own. */
  ghost predicate NeverFull(stream: nat -> Item) {
    forall i :: stream(i) != Fail(ERR_BUFFER_FULL)
  }

  lemma SlicePart(s: bytes, o: nat, n: nat, l: nat)
    requires o + n <= l <= |s|
    ensures s[o..l][n..] == s[o + n..l] && s[o..l][..n] == s[o..o + n]
  {
  }

  class Reader {
    const buf: array<byte>
    const rd: Source
    var r: nat
    var w: nat
    var err: Option<Error>
    var lastByte: Option<byte>

    ghost predicate Valid()
      reads this, rd
    {
      && rd.Valid() && r <= w <= buf.Length && buf.Length >= MIN_READ_BUFFER_SIZE && err != Some(ERR_BUFFER_FULL)
      && NeverFull(rd.stream)
    }

    /** The abstract value of the reader. */
    ghost function Now(): View
      requires r <= w <= buf.Length
      reads this, buf, rd
    {
      View(buf[r..w], err, rd.stream, rd.pos)
    }

    ghost function Ahead(): nat
      reads rd
    {
      if rd.end > rd.pos then rd.end - rd.pos else 0
    }

    /** How many bytes there can still be. */
    ghost function Left(): nat
      requires r <= w
      reads this, rd
    {
      Ahead() + (w - r)
    }

    /** NewReaderSize */
    constructor (rd: Source, size: int)
      requires rd.Valid() && NeverFull(rd.stream)
      ensures Valid() && fresh(buf) && this.rd == rd && Now() == View([], None, rd.stream, rd.pos)
    {
      this.rd, r, w, err, lastByte := rd, 0, 0, None, None;
      buf := new byte[if size > MIN_READ_BUFFER_SIZE then size else MIN_READ_BUFFER_SIZE];
    }

    /** Moves the unread bytes to the front of the buffer. */
    method slide()
      requires Valid()
      modifies this`r, this`w, buf
      ensures Valid() && r == 0 && w == old(w - r) && Now() == old(Now())
    {
      if r > 0 {
        ghost var data := buf[r..w];
        var n, from := w - r, r;
        forall i | 0 <= i < n { buf[i] := buf[from + i]; }
        w, r := n, 0;
        assert buf[r..w] == data;
      }
    }

    /** One read behind the buffered bytes; `err` is written only if the read failed. */
    method readOnce() returns (n: nat, e: Option<Error>)
      requires Valid() && w < buf.Length
      modifies this`w, this`err, buf, rd
      ensures Valid() && w == old(w) + n && err == if e.Some? then e else old(err)
      ensures Drops(old(Now()).(err := None), 0, Now().(err := e)) && Now().front[..old(w - r)] == old(buf[r..w])
      ensures e.None? && n > 0 ==> old(rd.pos) < rd.pos <= rd.end
      ensures Left() <= old(Left())
      ensures e.None? && n == 0 ==> rd.pos == old(rd.pos) && rd.empties == old(rd.empties) + 1 && Now() == old(Now())
    {
      hide Drops, Holds, Ends;
      ghost var v := Now();
      n, e := rd.Read(buf, w, buf.Length);
      ghost var more := buf[w..w+n];
      assert buf[r..w] == v.front;
      assert buf[r..w+n] == v.front + more;
      Fetch(v.(err := None), more, e);
      if n > 0 { BeforeEnd(rd.stream, rd.end, v.p, more); }
      w := w + n;
      if e.Some? { err := e; }
    }

    /**
      fill: slides, then reads until something comes. Called while an error is pending, it forgets that
      error if the read fails too, and otherwise leaves it behind the bytes that came after it.
     */
    method fill() returns (ghost got: Option<Error>)
      requires Valid() && w - r < buf.Length
      modifies this`r, this`w, this`err, buf, rd
      ensures Valid() && w - r >= old(w - r) && Now().front[..old(w - r)] == old(buf[r..w])
      ensures Drops(old(Now()).(err := None), 0, Now().(err := got)) && err == if got.Some? then got else old(err)
      ensures Left() <= old(Left()) && (got.None? ==> Ahead() < old(Ahead()) && w - r > old(w - r))
    {
      hide Drops, Ends;
      DropNone(Now().(err := None));
      slide();
      if w >= buf.Length {
        assert false;
      }
      var i := MAX_CONSECUTIVE_EMPTY_READS;
      while i > 0
        invariant Valid() && err == old(err) && w < buf.Length && Now() == old(Now()) && rd.pos == old(rd.pos)
        invariant Left() == old(Left())
        invariant MAX_CONSECUTIVE_EMPTY_READS - i <= rd.empties
      {
        var n, e := readOnce();
        got := e;
        if e.Some? { return; }
        if n > 0 { return; }
        i := i - 1;
      }
      assert false;
    }

    /** fill where no error is pending: nothing is lost or moved. */
    method fillClean()
      requires Valid() && err.None? && w - r < buf.Length
      modifies this`r, this`w, this`err, buf, rd
      ensures Valid() && Drops(old(Now()), 0, Now()) && w - r >= old(w - r)
      ensures Now().front[..old(w - r)] == old(buf[r..w])
      ensures Left() <= old(Left()) && (err.None? ==> Ahead() < old(Ahead()))
    {
      hide Drops, Ends;
      var got := fill();
      assert Now().(err := got) == Now();
    }

    /** readErr */
    method readErr() returns (e: Option<Error>)
      requires Valid()
      modifies this`err
      ensures Valid() && e == old(err) && err.None?
      ensures r == w && e.Some? ==> Drops(old(Now()), 1, Now()) && At(old(Now()), 0) == Fail(e.value)
      ensures Now() == old(Now()).(err := None) && (e.None? ==> Now() == old(Now()))
    {
      hide Drops;
      if r == w && err.Some? { DropErr(Now()); }
      e := err;
      err := None;
    }

    /** Takes `n` buffered bytes. */
    method take(n: nat) returns (s: bytes)
      requires Valid() && n <= w - r
      modifies this`r
      ensures Valid() && r == old(r) + n && s == buf[old(r)..r] && Drops(old(Now()), n, Now()) && Begins(old(Now()), s)
    {
      hide Drops, Begins;
      DropFront(Now(), n);
      SlicePart(buf[..], r, n, w);
      s := buf[r..r+n];
      r := r + n;
    }

    /**
      Read: the next bytes, from the buffer or one read of the source, which goes straight into a large `p`. Nothing
      comes back only if nothing was asked for, or that read was an empty one.
     */
    method Read(p: array<byte>) returns (n: nat, e: Option<Error>)
      requires Valid() && p != buf
      modifies this`r, this`w, this`err, this`lastByte, buf, rd, p
      ensures Valid() && n <= p.Length && Begins(old(Now()), p[..n])
      ensures e.None? ==> Drops(old(Now()), n, Now())
      ensures e.Some? ==> At(old(Now()), n) == Fail(e.value) && Drops(old(Now()), n + 1, Now())
      ensures n > 0 ==> lastByte == Some(p[n-1])
      ensures old(w - r) > 0 ==>
        n == (if p.Length < old(w - r) then p.Length else old(w - r)) && e.None? && rd.pos == old(rd.pos)
      ensures p.Length > 0 && n == 0 && e.None? ==> rd.empties == old(rd.empties) + 1
      ensures p.Length == 0 && old(w - r) == 0 ==> e == old(err)
    {
      hide Drops, Begins, At, Ends, NeverFull, Holds;
      DropNone(Now());
      assert p[..0] == [];
      n, e := p.Length, None;
      if n == 0 {
        if w - r > 0 { return 0, None; }
        e := readErr();
        return;
      }
      if r == w {
        if err.Some? {
          e := readErr();
          return 0, e;
        }
        if p.Length >= buf.Length {
          n, e := readDirect(p);
          return;
        }
        ghost var v := Now();
        n := readFront();
        if n == 0 {
          ghost var x := Now();
          e := readErr();
          if e.Some? { DropThen(v, 0, x, 1, Now()); }
          return;
        }
      }
      n := copyOut(p, old(Now()));
    }

    /** One read into the empty buffer. */
    method readFront() returns (n: nat)
      requires Valid() && r == w && err.None?
      modifies this`r, this`w, this`err, buf, rd
      ensures Valid() && r == 0 && w == n && Drops(old(Now()), 0, Now())
      ensures n == 0 && err.None? ==> rd.empties == old(rd.empties) + 1
    {
      hide Drops;
      ghost var v := Now();
      r, w := 0, 0;
      assert buf[r..w] == v.front;
      var e;
      n, e := readOnce();
      assert v.(err := None) == v && Now().(err := e) == Now();
    }

    /** Copies as much of the buffered bytes as `p` holds. */
    method copyOut(p: array<byte>, ghost v: View) returns (n: nat)
      requires Valid() && p != buf && r < w && p.Length > 0 && Drops(v, 0, Now())
      modifies this`r, this`lastByte, p
      ensures Valid() && 0 < n <= p.Length && Begins(v, p[..n]) && Drops(v, n, Now()) && lastByte == Some(p[n-1])
      ensures n == if p.Length < old(w - r) then p.Length else old(w - r)
    {
      hide Drops, Begins, At, Ends, NeverFull;
      n := if p.Length < w - r then p.Length else w - r;
      var s := takeSince(n, v);
      ghost var u := Now();
      forall i | 0 <= i < n { p[i] := s[i]; }
      assert p[..n] == s;
      assert p[n-1] == s[n-1] == buf[r-1];
      lastByte := Some(buf[r-1]);
      assert buf[r..w] == u.front;
    }

    /** A read straight into `p`, nothing being buffered. */
    method readDirect(p: array<byte>) returns (n: nat, e: Option<Error>)
      requires Valid() && p != buf && r == w && err.None? && p.Length > 0
      modifies this`err, this`lastByte, rd, p
      ensures Valid() && n <= p.Length && Begins(old(Now()), p[..n]) && err.None?
      ensures e.None? ==> Drops(old(Now()), n, Now())
      ensures e.Some? ==> At(old(Now()), n) == Fail(e.value) && Drops(old(Now()), n + 1, Now())
      ensures n > 0 ==> lastByte == Some(p[n-1])
      ensures n == 0 && e.None? ==> rd.empties == old(rd.empties) + 1
    {
      hide Ends, NeverFull;
      ghost var v := Now();
      n, e := rd.Read(p, 0, p.Length);
      assert p[0..n] == p[..n];
      DirectRead(v, p[..n], e);
      if n > 0 { lastByte := Some(p[n-1]); }
    }

    method ReadByte() returns (c: byte, e: Option<Error>)
      requires Valid()
      modifies this`r, this`w, this`err, this`lastByte, buf, rd
      ensures Valid()
      ensures e.None? ==> At(old(Now()), 0) == Data(c) && Drops(old(Now()), 1, Now()) && lastByte == Some(c) && r > 0
      ensures e.Some? ==> At(old(Now()), 0) == Fail(e.value) && Drops(old(Now()), 1, Now())
    {
      hide Drops;
      DropNone(Now());
      c := 0;
      while r == w
        invariant Valid() && Drops(old(Now()), 0, Now())
        decreases if err.None? then 1 else 0, Ahead()
      {
        ghost var v := Now();
        if err.Some? {
          e := readErr();
          DropThen(old(Now()), 0, v, 1, Now());
          return;
        }
        fillClean();
        DropThen(old(Now()), 0, v, 0, Now());
      }
      ghost var v := Now();
      var s := take(1);
      DropThen(old(Now()), 0, v, 1, Now());
      BeginsSame(old(Now()), v, s);
      c := s[0];
      lastByte := Some(c);
      e := None;
    }

    method UnreadByte() returns (e: Option<Error>)
      requires Valid()
      modifies this`r, this`w, this`lastByte, buf
      ensures Valid() && (e.Some? <==> old(lastByte).None? || (old(r) == 0 && old(w) > 0))
      ensures e.Some? ==> e == Some(ERR_INVALID_UNREAD_BYTE) && Now() == old(Now())
      ensures e.None? ==> Now() == old(Now()).(front := [old(lastByte).value] + old(Now()).front) && lastByte.None?
    {
      if lastByte.None? || (r == 0 && w > 0) { return Some(ERR_INVALID_UNREAD_BYTE); }
      ghost var front := buf[r..w];
      if r > 0 {
        r := r - 1;
      } else {
        w := 1;
      }
      buf[r] := lastByte.value;
      assert buf[r..w] == [lastByte.value] + front;
      lastByte := None;
      e := None;
    }

    /** UnreadByte after a successful ReadByte gives back what was there. */
    method peekByte() returns (c: byte, e: Option<Error>)
      requires Valid()
      modifies this`r, this`w, this`err, this`lastByte, buf, rd
      ensures Valid()
      ensures e.None? ==> At(old(Now()), 0) == Data(c) && Drops(old(Now()), 0, Now())
    {
      hide Drops;
      c, e := ReadByte();
      if e.None? {
        PutBack(old(Now()), Now(), c);
        e := UnreadByte();
      }
    }

    /** Takes `n` bytes of what has been the unread stream since it was `v`. */
    method takeSince(n: nat, ghost v: View) returns (s: bytes)
      requires Valid() && n <= w - r && Drops(v, 0, Now())
      modifies this`r
      ensures Valid() && r == old(r) + n && s == old(buf[r..w])[..n] && Drops(v, n, Now()) && Begins(v, s)
    {
      hide Drops, Begins;
      s := take(n);
      assert old(buf[r..w])[..n] == s;
      DropThen(v, 0, old(Now()), n, Now());
      BeginsSame(v, old(Now()), s);
    }

    /** Takes what is left before the pending error, and the error. */
    method takeErr(ghost v: View) returns (s: bytes, e: Option<Error>)
      requires Valid() && err.Some? && Drops(v, 0, Now())
      modifies this`r, this`err
      ensures Valid() && s == old(buf[r..w]) && e == old(err) && Begins(v, s) && At(v, |s|) == Fail(e.value)
      ensures Drops(v, |s| + 1, Now())
      ensures r == old(w) && err.None?
    {
      hide Drops, Begins;
      s := takeSince(w - r, v);
      ghost var u := Now();
      e := readErr();
      DropThen(v, |s|, u, 1, Now());
    }

    /** Searches the buffer for `delim`, filling it until there is one, or an error, or no room. */
    method search(delim: byte) returns (i: int)
      requires Valid()
      modifies this`r, this`w, this`err, buf, rd
      ensures Valid() && Drops(old(Now()), 0, Now()) && Left() <= old(Left())
      ensures i >= 0 ==> i < w - r && Now().front[i] == delim && delim !in Now().front[..i]
      ensures i < 0 ==> delim !in Now().front && (err.Some? || w - r == buf.Length)
    {
      hide Drops, Ends, At, NeverFull, IndexByte;
      ghost var v0, left := Now(), Left();
      DropNone(v0);
      var s: nat := 0;
      while true
        invariant Valid() && s <= w - r && delim !in buf[r..w][..s] && Drops(v0, 0, Now()) && Left() <= left
        decreases if err.None? then 1 else 0, Ahead()
      {
        ghost var v := Now();
        assert buf[r+s..w] == v.front[s..];
        i := IndexByte(buf[r+s..w], delim);
        if i >= 0 {
          FirstAt(v.front, s, i, delim);
          i := i + s;
          return;
        }
        NotIn(v.front, s, delim);
        if err.Some? || w - r >= buf.Length { return; }
        s := w - r;
        fillClean();
        DropThen(v0, 0, v, 0, Now());
      }
    }

    /** ReadSlice: through the first `delim`, or up to the error, or a full buffer. */
    method ReadSlice(delim: byte) returns (line: bytes, e: Option<Error>)
      requires Valid()
      modifies this`r, this`w, this`err, this`lastByte, buf, rd
      ensures Valid() && Begins(old(Now()), line) && Left() + |line| <= old(Left())
      ensures e != Some(ERR_BUFFER_FULL) ==> Reads(old(Now()), delim, line, e, Now())
      ensures e == Some(ERR_BUFFER_FULL) ==>
        delim !in line && |line| == buf.Length && Drops(old(Now()), |line|, Now()) && r == w && buf[..r] == line
      ensures |line| <= r && (line != [] ==> lastByte == Some(line[|line|-1]))
    {
      hide Drops, Begins, At, NeverFull, Ends;
      ghost var v0 := Now();
      e := None;
      var i := search(delim);
      ghost var v := Now();
      if i >= 0 {
        line := takeSince(i + 1, v0);
        assert line[..|line|-1] == v.front[..i];
      } else if err.Some? {
        line, e := takeErr(v0);
      } else {
        line := takeSince(w - r, v0);
        e := Some(ERR_BUFFER_FULL);
      }
      remember(line);
    }

    method remember(line: bytes)
      modifies this`lastByte
      ensures lastByte == if line != [] then Some(line[|line|-1]) else old(lastByte)
    {
      if line != [] { lastByte := Some(line[|line|-1]); }
    }

    /** One more fragment after the `fullBuffers` read since `v0`. */
    method readFragment(delim: byte, ghost v0: View, ghost fullBuffers: seq<bytes>)
      returns (frag: bytes, e: Option<Error>)
      requires Valid() && Begins(v0, Concat(fullBuffers)) && delim !in Concat(fullBuffers)
      requires Drops(v0, |Concat(fullBuffers)|, Now())
      modifies this`r, this`w, this`err, this`lastByte, buf, rd
      ensures Valid() && |frag| <= buf.Length && (e == Some(ERR_BUFFER_FULL) ==> |frag| == buf.Length)
      ensures e != Some(ERR_BUFFER_FULL) ==> Reads(v0, delim, Concat(fullBuffers) + frag, e, Now())
      ensures e == Some(ERR_BUFFER_FULL) ==> var all := Concat(fullBuffers + [frag]);
        && Begins(v0, all) && delim !in all && |all| == |Concat(fullBuffers)| + |frag| && Drops(v0, |all|, Now())
        && Left() < old(Left())
    {
      hide Drops, Begins, At, NeverFull, Reads, Concat;
      ghost var v, before := Now(), Concat(fullBuffers);
      frag, e := ReadSlice(delim);
      if e != Some(ERR_BUFFER_FULL) {
        ReadsAfter(v0, before, v, delim, frag, e, Now());
      } else {
        BeginsThen(v0, before, v, frag);
        DropThen(v0, |before|, v, |frag|, Now());
        ConcatMore(fullBuffers, frag);
      }
    }

    /** collectFragments: full buffers until the first `delim` or an error. */
    method collectFragments(delim: byte) returns (fullBuffers: seq<bytes>, frag: bytes, totalLen: nat, e: Option<Error>)
      requires Valid()
      modifies this`r, this`w, this`err, this`lastByte, buf, rd
      ensures Valid() && totalLen == |Concat(fullBuffers) + frag|
      ensures |frag| <= buf.Length && forall k :: 0 <= k < |fullBuffers| ==> |fullBuffers[k]| == buf.Length
      ensures Reads(old(Now()), delim, Concat(fullBuffers) + frag, e, Now())
    {
      hide Drops, Begins, At, NeverFull, Reads, Concat;
      ghost var v0 := Now();
      DropNone(v0);
      ConcatNone();
      fullBuffers, totalLen, e := [], 0, None;
      while true
        invariant Valid() && Begins(v0, Concat(fullBuffers)) && delim !in Concat(fullBuffers)
        invariant totalLen == |Concat(fullBuffers)| && Drops(v0, totalLen, Now())
        invariant forall k :: 0 <= k < |fullBuffers| ==> |fullBuffers[k]| == buf.Length
        decreases Left()
      {
        var err1;
        frag, err1 := readFragment(delim, v0, fullBuffers);
        if err1 != Some(ERR_BUFFER_FULL) {
          e := err1;
          break;
        }
        fullBuffers := fullBuffers + [frag];
        totalLen := totalLen + |frag|;
      }
      totalLen := totalLen + |frag|;
    }

    /** ReadBytes: exactly the unread stream through the first `delim`, or all of it up to the error, and the error. */
    method ReadBytes(delim: byte) returns (line: bytes, e: Option<Error>)
      requires Valid()
      modifies this`r, this`w, this`err, this`lastByte, buf, rd
      ensures Valid() && Reads(old(Now()), delim, line, e, Now())
    {
      hide Reads, NeverFull;
      var full, frag, n;
      full, frag, n, e := collectFragments(delim);
      var out := new byte[n];
      n := 0;
      var i := 0;
      while i < |full|
        invariant i <= |full| && n == |Concat(full[..i])| && n <= out.Length && out[..n] == Concat(full[..i])
        invariant fresh(out) && out.Length == |Concat(full) + frag|
        modifies out
      {
        ConcatPrefix(full, i);
        forall j | 0 <= j < |full[i]| { out[n + j] := full[i][j]; }
        assert out[..n + |full[i]|] == Concat(full[..i]) + full[i];
        n := n + |full[i]|;
        i := i + 1;
      }
      assert full[..i] == full;
      forall j | 0 <= j < |frag| { out[n + j] := frag[j]; }
      assert out[..] == Concat(full) + frag;
      line := out[..];
    }

    /** ReadLine: a line without its end, a part of one too long for the buffer, or the error. */
    method ReadLine() returns (line: bytes, isPrefix: bool, e: Option<Error>)
      requires Valid()
      modifies this`r, this`w, this`err, this`lastByte, buf, rd
      ensures Valid() && Begins(old(Now()), line) && (isPrefix || line != [] ==> e.None?)
      ensures isPrefix ==>
        NEWLINE !in line && Drops(old(Now()), |line|, Now()) && buf.Length - 1 <= |line| <= buf.Length
      ensures isPrefix && |line| < buf.Length ==> At(old(Now()), |line|) == Data(CARRIAGE_RETURN)
      ensures isPrefix && |line| == buf.Length ==> line[|line|-1] != CARRIAGE_RETURN
      ensures !isPrefix && e.None? ==> NEWLINE !in line && LineEnds(old(Now()), line, Now())
      ensures e.Some? ==> line == [] && At(old(Now()), 0) == Fail(e.value) && Drops(old(Now()), 1, Now())
    {
      hide Drops, Begins, NeverFull;
      line, e := ReadSlice(NEWLINE);
      ghost var v, u := old(Now()), Now();
      isPrefix := false;
      if e == Some(ERR_BUFFER_FULL) {
        if |line| > 0 && line[|line|-1] == CARRIAGE_RETURN {
          if r == 0 {
            assert false;
          }
          r := r - 1;
          assert buf[r..w] == [CARRIAGE_RETURN];
          GiveBack(v, line, u);
          line := line[..|line|-1];
        }
        return line, true, None;
      }
      if |line| == 0 { return; }
      ghost var all, error := line, e;
      e := None;
      if line[|line|-1] == NEWLINE {
        var drop := 1;
        if |line| > 1 && line[|line|-2] == CARRIAGE_RETURN { drop := 2; }
        line := line[..|line|-drop];
        BeginsPart(v, all, |line|);
        assert all == line + (if drop == 1 then [NEWLINE] else [CARRIAGE_RETURN, NEWLINE]);
        assert forall i :: 0 <= i < |line| ==> line[i] == all[..|all|-1][i];
      }
    }

    /** fill, counted from an earlier `v0`. */
    method fillFrom(ghost v0: View)
      requires Valid() && err.None? && w - r < buf.Length && Drops(v0, 0, Now())
      modifies this`r, this`w, this`err, buf, rd
      ensures Valid() && Drops(v0, 0, Now()) && (err.None? ==> Ahead() < old(Ahead()))
    {
      hide Drops, Ends, NeverFull;
      ghost var v := Now();
      fillClean();
      DropThen(v0, 0, v, 0, Now());
    }

    /** What Peek shows once it has filled. */
    method show(n0: nat, ghost v0: View) returns (s: bytes, e: Option<Error>)
      requires Valid() && n0 <= buf.Length && Drops(v0, 0, Now()) && (w - r >= n0 || err.Some?)
      modifies this`err
      ensures Valid() && Begins(v0, s) && |s| <= n0 && e != Some(ERR_BUFFER_FULL)
      ensures e.None? ==> |s| == n0 && Drops(v0, 0, Now())
      ensures e.Some? ==> |s| < n0 && At(v0, |s|) == Fail(e.value) && Misses(v0, |s|, Now())
    {
      hide Drops, Begins, NeverFull, At, Misses;
      ghost var v := Now();
      DropNone(v);
      BeginsSame(v0, v, v.front);
      var n: nat, avail := n0, w - r;
      e := None;
      if avail < n {
        n := avail;
        MissErr(v0, v);
        e := readErr();
      }
      s := buf[r..r+n];
      assert s == v.front[..n];
      BeginsPart(v0, v.front, n);
    }

    /** Peek: the next `n` bytes, or as many as there are and why there are no more. */
    method Peek(n0: int) returns (s: bytes, e: Option<Error>)
      requires Valid()
      modifies this`r, this`w, this`err, this`lastByte, buf, rd
      ensures Valid() && (n0 < 0 ==> e == Some(ERR_NEGATIVE_COUNT) && Now() == old(Now()))
      ensures n0 >= 0 ==> Begins(old(Now()), s) && |s| <= n0 && lastByte.None?
      ensures n0 >= 0 && e.None? ==> |s| == n0 && Drops(old(Now()), 0, Now())
      ensures n0 >= 0 && e == Some(ERR_BUFFER_FULL) ==>
        n0 > buf.Length && Drops(old(Now()), 0, Now()) && (|s| == buf.Length || At(old(Now()), |s|).Fail?)
      ensures n0 >= 0 && e.Some? && e.value != ERR_BUFFER_FULL ==>
        |s| < n0 <= buf.Length && At(old(Now()), |s|) == Fail(e.value) && Misses(old(Now()), |s|, Now())
    {
      hide Drops, Begins, NeverFull, Ends, At, Misses;
      ghost var v0 := Now();
      if n0 < 0 { return [], Some(ERR_NEGATIVE_COUNT); }
      lastByte := None;
      DropNone(v0);
      while w - r < n0 && w - r < buf.Length && err.None?
        invariant Valid() && Drops(v0, 0, Now()) && lastByte.None?
        decreases if err.None? then 1 else 0, Ahead()
      {
        fillFrom(v0);
      }
      if n0 > buf.Length {
        PeekEnd(v0, Now());
        return buf[r..w], Some(ERR_BUFFER_FULL);
      }
      s, e := show(n0, v0);
    }

    /**
      The body of Discard's loop: skips what is buffered, filling an empty buffer first. `k` is how many bytes
      there were to skip from.
     */
    method skipBuffered(remain: nat) returns (skip: nat, ghost k: nat, ghost got: Option<Error>)
      requires Valid() && remain > 0
      modifies this`r, this`w, this`err, buf, rd
      ensures Valid() && skip == (if k < remain then k else remain) && w - r == k - skip && (err.None? ==> skip > 0)
      ensures Chunk(Fresh(old(Now())), k, got) && Drops(Fresh(old(Now())), skip, Now().(err := got))
      ensures err == if Stale(old(Now())) && got.None? then old(err) else got
      ensures Stale(old(Now())) && got.None? ==> k > 0
    {
      hide Drops, Begins, NeverFull, Ends, AllData, At;
      ghost var v := Fresh(Now());
      DropNone(v);
      got := err;
      skip := w - r;
      if skip == 0 {
        got := fill();
        skip := w - r;
      }
      k := skip;
      ghost var x := Now();
      FrontChunk(v, x.(err := got));
      if skip > remain { skip := remain; }
      SkipFront(v, x.(err := got), skip);
      assert buf[r+skip..w] == x.front[skip..];
      r := r + skip;
    }

    /** Discard: skips `n` bytes, or as many as there are. */
    method Discard(n: int) returns (discarded: int, e: Option<Error>)
      requires Valid()
      modifies this`r, this`w, this`err, this`lastByte, buf, rd
      ensures Valid() && (n < 0 ==> discarded == 0 && e == Some(ERR_NEGATIVE_COUNT) && Now() == old(Now()))
      ensures n == 0 ==> discarded == 0 && e.None? && Now() == old(Now())
      ensures n >= 0 ==> 0 <= discarded <= n && (e.None? <==> discarded == n)
      ensures n > 0 ==> Discards(old(Now()), n, discarded, e, Now())
    {
      hide Drops, Begins, NeverFull, Ends, AllData, Discards, At, Chunk, Stale, StaleDiscards;
      if n < 0 { return 0, Some(ERR_NEGATIVE_COUNT); }
      if n == 0 { return 0, None; }
      lastByte := None;
      var remain := n;
      ghost var v := Now();
      ghost var gone: nat := 0;
      DropNone(v);
      NoData(v);
      while true
        invariant Valid() && 0 < remain <= n && gone == n - remain && (Stale(v) ==> remain == n && Now() == v)
        invariant !Stale(v) ==>
          AllData(v, gone) && Drops(v, gone, Now()) && (remain < n ==> err.None?) && (remain == n ==> Now() == v)
        decreases remain
      {
        ghost var x := Now();
        NotStale(x);
        var skip, k, got := skipBuffered(remain);
        ghost var y := Now();
        if !Stale(v) {
          FreshSame(x);
          ChunkData(x, k, skip, got);
          SkipThen(v, gone, x, skip, y);
        }
        gone := gone + skip;
        remain := remain - skip;
        if remain == 0 {
          if Stale(v) { StaleEnds(v, n, k, got, y, None, y); } else { DiscardEnds(v, n, gone, y, None, y); }
          return n, None;
        }
        if err.Some? {
          e := readErr();
          if Stale(v) { StaleEnds(v, n, k, got, y, e, Now()); } else { DiscardEnds(v, n, gone, y, e, Now()); }
          return n - remain, e;
        }
      }
    }

    /**
      With an error pending, nothing buffered, and a byte next at the source, Discard skips that byte and reports no
      error.
     */
    method discardPastError() returns (discarded: int, e: Option<Error>)
      requires Valid() && Stale(Now()) && At(Fresh(Now()), 0).Data?
      modifies this`r, this`w, this`err, this`lastByte, buf, rd
      ensures discarded == 1 && e.None? && !StreamOrder(old(Now()), 1, 1, e)
    {
      hide Discards, Drops, At, Fresh, Stale, StreamOrder, NeverFull;
      ghost var v := Now();
      discarded, e := Discard(1);
      PastError(v, discarded, e, Now());
    }
  }

  /** Buffer empty, error pending: the one state in which Discard reads on without reporting the error first. */
  predicate Stale(v: View) { v.front == [] && v.err.Some? }

  /** `v`, the stale error passed over. */
  function Fresh(v: View): View { if Stale(v) then v.(err := None) else v }

  /** A read brought `k` bytes, and the error `got` behind them. */
  ghost predicate Chunk(v: View, k: nat, got: Option<Error>) {
    AllData(v, k) && (got.Some? ==> At(v, k) == Fail(got.value))
  }

  /**
    Discard of `n0` bytes where an error is stale and one read of the source brings `k` bytes and perhaps the
    error `got`: `n` of those bytes are skipped. A new error takes the place of the stale one, which is otherwise
    reported behind the bytes of that read, or left behind them.
   */
  ghost predicate StaleDiscards(v: View, n0: nat, n: nat, e: Option<Error>, u: View, k: nat, got: Option<Error>) {
    && Chunk(Fresh(v), k, got) && (got.None? ==> k > 0)
    && n == (if k < n0 then k else n0)
    && var pending := if got.Some? then got else v.err;
       if k < n0 then
         e == pending && u.front == [] && u.err.None? && Drops(Fresh(v), if got.Some? then k + 1 else k, u)
       else
         e.None? && |u.front| == k - n0 && u.err == pending && Drops(Fresh(v), n0, u.(err := got))
  }

  /** Of `n0` bytes of `v` to be skipped `n` are, with the error `e`; `u` is what follows. */
  ghost predicate Discards(v: View, n0: nat, n: int, e: Option<Error>, u: View) {
    && n >= 0
    && if Stale(v) then exists k, got :: StaleDiscards(v, n0, n, e, u, k, got)
       else StreamOrder(v, n0, n, e) && Drops(v, if e.Some? then n + 1 else n, u)
  }

  /** The result of skipping in the order of the stream: all bytes asked for, or those before the next error, and it. */
  ghost predicate StreamOrder(v: View, n0: nat, n: nat, e: Option<Error>) {
    AllData(v, n) && if e.None? then n == n0 else n < n0 && At(v, n) == Fail(e.value)
  }

  lemma ChunkEmpty(v: View, k: nat, got: Option<Error>)
    requires Chunk(v, k, got) && At(v, 0).Fail?
    ensures k == 0
  {
  }

  /**
    Discard keeps to the order of the stream if and only if no error is stale, or the source's next item is that same
    error.
   */
  lemma DiscardKeepsOrder(v: View, n0: nat, n: nat, e: Option<Error>, u: View)
    requires n0 > 0 && Discards(v, n0, n, e, u)
    ensures StreamOrder(v, n0, n, e) <==> !Stale(v) || At(Fresh(v), 0) == At(v, 0)
  {
    if Stale(v) {
      var k, got :| StaleDiscards(v, n0, n, e, u, k, got);
      if At(Fresh(v), 0).Fail? { ChunkEmpty(Fresh(v), k, got); }
    }
  }

  lemma PastError(v: View, n: int, e: Option<Error>, u: View)
    requires Discards(v, 1, n, e, u) && Stale(v) && At(Fresh(v), 0).Data?
    ensures n == 1 && e.None? && !StreamOrder(v, 1, 1, e)
  {
    assert !At(v, 0).Data?;
  }

  /** In the second case the two errors are reported as one. */
  lemma ErrorsMerge(v: View, n0: nat, n: nat, e: Option<Error>, u: View)
    requires n0 > 0 && Discards(v, n0, n, e, u) && Stale(v) && At(Fresh(v), 0) == At(v, 0)
    ensures n == 0 && e == v.err && Drops(v, 2, u)
  {
    var k, got :| StaleDiscards(v, n0, n, e, u, k, got);
    ChunkEmpty(Fresh(v), k, got);
    forall i: nat ensures At(u, i) == At(v, i + 2) { assert At(u, i) == At(Fresh(v), i + 1); }
  }

  lemma NotStale(v: View)
    ensures Stale(v) ==> v.err.Some?
  {
  }

  lemma FreshSame(v: View)
    requires !Stale(v)
    ensures Fresh(v) == v
  {
  }

  lemma FrontChunk(v: View, x: View)
    requires Drops(v, 0, x)
    ensures Chunk(v, |x.front|, x.err)
  {
    forall i: nat | i < |x.front| ensures At(v, i).Data? { assert At(x, i) == At(v, i + 0); }
    assert At(x, |x.front|) == At(v, |x.front| + 0);
  }

  lemma ChunkData(v: View, k: nat, n: nat, got: Option<Error>)
    requires Chunk(v, k, got) && n <= k
    ensures AllData(v, n)
  {
  }

  lemma DiscardEnds(v: View, n0: nat, n: nat, y: View, e: Option<Error>, u: View)
    requires !Stale(v) && AllData(v, n) && Drops(v, n, y) && n <= n0
    requires
      (e.None? && u == y && n == n0) || (e.Some? && n < n0 && e == y.err && y.front == [] && u == y.(err := None))
    ensures Discards(v, n0, n, e, u)
  {
    if e.Some? {
      DropErr(y);
      DropThen(v, n, y, 1, u);
      assert At(y, 0) == At(v, 0 + n);
    }
  }

  lemma StaleEnds(v: View, n0: nat, k: nat, got: Option<Error>, y: View, e: Option<Error>, u: View)
    requires Stale(v) && Chunk(Fresh(v), k, got) && (got.None? ==> k > 0)
    requires var n := if k < n0 then k else n0;
      |y.front| == k - n && Drops(Fresh(v), n, y.(err := got)) && y.err == (if got.None? then v.err else got)
    requires if k < n0 then e == y.err && u == y.(err := None) else e.None? && u == y
    ensures Discards(v, n0, if k < n0 then k else n0, e, u)
  {
    var n := if k < n0 then k else n0;
    if k < n0 && got.Some? {
      assert y.(err := got) == y;
      DropErr(y);
      DropThen(Fresh(v), k, y, 1, u);
    }
    assert y.(err := None).(err := None) == y.(err := None);
    assert StaleDiscards(v, n0, n, e, u, k, got);
  }

  ghost predicate AllData(v: View, n: nat) {
    forall i: nat :: i < n ==> At(v, i).Data?
  }

  lemma SkipFront(v: View, x: View, skip: nat)
    requires Drops(v, 0, x) && skip <= |x.front|
    ensures AllData(v, skip) && Drops(v, skip, x.(front := x.front[skip..]))
  {
    hide Drops, Begins, AllData;
    DropFront(x, skip);
    BeginsSame(v, x, x.front[..skip]);
    BeginsData(v, x.front[..skip]);
    DropThen(v, 0, x, skip, x.(front := x.front[skip..]));
  }

  lemma SkipThen(v: View, n: nat, x: View, m: nat, y: View)
    requires AllData(v, n) && Drops(v, n, x) && AllData(x, m) && Drops(x, m, y)
    ensures AllData(v, n + m) && Drops(v, n + m, y)
  {
    hide Drops, AllData;
    DropThen(v, n, x, m, y);
    DataThen(v, n, x, m);
  }

  lemma NoData(v: View)
    ensures AllData(v, 0)
  {
  }

  lemma DataThen(v: View, n: nat, u: View, m: nat)
    requires AllData(v, n) && Drops(v, n, u) && AllData(u, m)
    ensures AllData(v, n + m)
  {
    forall i: nat | i < n + m ensures At(v, i).Data? {
      if i >= n { assert At(u, i - n) == At(v, i - n + n); }
    }
  }

  /**
    The line ended in a newline, with or without a carriage return before it, or at the error, which is then dropped.
   */
  ghost predicate LineEnds(v: View, line: bytes, u: View) {
    || (Begins(v, line + [NEWLINE]) && Drops(v, |line| + 1, u) && (line == [] || line[|line|-1] != CARRIAGE_RETURN))
    || (Begins(v, line + [CARRIAGE_RETURN, NEWLINE]) && Drops(v, |line| + 2, u))
    || (line != [] && At(v, |line|).Fail? && Drops(v, |line| + 1, u))
  }

  /** `u` is `v` without the item at `n`. */
  ghost predicate Misses(v: View, n: nat, u: View) {
    forall i: nat :: At(u, i) == At(v, if i < n then i else i + 1)
  }

  lemma MissErr(v: View, u: View)
    requires Drops(v, 0, u) && u.err.Some?
    ensures Misses(v, |u.front|, u.(err := None)) && At(v, |u.front|) == Fail(u.err.value)
  {
    var x := u.(err := None);
    forall i: nat ensures At(x, i) == At(v, if i < |u.front| then i else i + 1) {
      assert At(u, i) == At(v, i + 0) && At(u, i + 1) == At(v, i + 1 + 0);
    }
    assert At(u, |u.front|) == At(v, |u.front| + 0);
  }

  lemma PeekEnd(v: View, u: View)
    requires Drops(v, 0, u)
    ensures Begins(v, u.front) && (u.err.Some? ==> At(v, |u.front|).Fail?)
  {
    hide Begins, Drops;
    DropNone(u);
    BeginsSame(v, u, u.front);
  }

  lemma BeginsPart(v: View, s: bytes, n: nat)
    requires Begins(v, s) && n <= |s|
    ensures Begins(v, s[..n])
  {
  }

  lemma BeginsData(v: View, s: bytes)
    requires Begins(v, s)
    ensures AllData(v, |s|)
  {
  }

  /** The last byte of a full buffer is given back. */
  lemma GiveBack(v: View, line: bytes, u: View)
    requires Begins(v, line) && line != [] && Drops(v, |line|, u) && u.front == []
    ensures var c := line[|line|-1];
      Begins(v, line[..|line|-1]) && At(v, |line| - 1) == Data(c) && Drops(v, |line| - 1, u.(front := [c]))
  {
    var c := line[|line|-1];
    var x := u.(front := [c]);
    forall i: nat ensures At(x, i) == At(v, i + (|line| - 1)) {
      if i == 0 { assert At(v, |line| - 1) == Data(c); } else { assert At(u, i - 1) == At(v, i - 1 + |line|); }
    }
  }

  /** `line` is `v` through the first `delim`, or up to the error `e`; `u` is what follows. */
  ghost predicate Reads(v: View, delim: byte, line: bytes, e: Option<Error>, u: View) {
    && Begins(v, line)
    && match e
       case None => line != [] && line[|line|-1] == delim && delim !in line[..|line|-1] && Drops(v, |line|, u)
       case Some(x) => delim !in line && At(v, |line|) == Fail(x) && Drops(v, |line| + 1, u)
  }

  lemma ReadsAfter(v: View, before: bytes, w: View, delim: byte, frag: bytes, e: Option<Error>, u: View)
    requires Begins(v, before) && delim !in before && Drops(v, |before|, w) && Reads(w, delim, frag, e, u)
    ensures Reads(v, delim, before + frag, e, u)
  {
    hide Drops, Begins;
    BeginsThen(v, before, w, frag);
    if e.None? {
      DropThen(v, |before|, w, |frag|, u);
      assert (before + frag)[..|before + frag| - 1] == before + frag[..|frag|-1];
    } else {
      DropThen(v, |before|, w, |frag| + 1, u);
    }
  }

  /** The error is non-nil exactly when the data does not end in `delim`. */
  lemma ErrIffNotEnded(v: View, delim: byte, line: bytes, e: Option<Error>, u: View)
    requires Reads(v, delim, line, e, u)
    ensures e.Some? <==> line == [] || line[|line|-1] != delim
  {
  }

  predicate Stops(x: Item, delim: byte) { x.Fail? || x.b == delim }

  function Taken(line: bytes, e: Option<Error>): nat { if e.Some? then |line| + 1 else |line| }

  /** The last item taken is the first that is an error or the delimiter. */
  lemma TakesToFirstStop(v: View, delim: byte, line: bytes, e: Option<Error>, u: View)
    requires Reads(v, delim, line, e, u)
    ensures var n := Taken(line, e);
      && n > 0 && Stops(At(v, n - 1), delim) && (forall i :: 0 <= i < n - 1 ==> !Stops(At(v, i), delim))
      && Drops(v, n, u)
      && (At(v, n - 1).Fail? <==> e.Some?) && (e.Some? ==> At(v, n - 1) == Fail(e.value))
  {
    var n := Taken(line, e);
    forall i | 0 <= i < n - 1 ensures !Stops(At(v, i), delim) {
      assert At(v, i) == Data(line[i]);
      if e.None? { assert line[..|line|-1][i] == line[i]; }
    }
    if e.None? { assert At(v, n - 1) == Data(line[n - 1]); }
  }

  /** Whatever the chunks and the buffer size, the line, the error and the rest of the stream are the same. */
  lemma ReadsOnce(v: View, delim: byte, a: bytes, d: Option<Error>, x: View, b: bytes, e: Option<Error>, y: View)
    requires Reads(v, delim, a, d, x) && Reads(v, delim, b, e, y)
    ensures a == b && d == e && Drops(x, 0, y)
  {
    TakesToFirstStop(v, delim, a, d, x);
    TakesToFirstStop(v, delim, b, e, y);
    var n := Taken(a, d);
    assert n == Taken(b, e);
    forall i | 0 <= i < |a| ensures a[i] == b[i] { assert At(v, i) == Data(a[i]) && At(v, i) == Data(b[i]); }
    forall i: nat ensures At(y, i) == At(x, i + 0) { assert At(y, i) == At(v, i + n) && At(x, i) == At(v, i + n); }
  }

  function Concat(parts: seq<bytes>): bytes {
    if parts == [] then [] else Concat(parts[..|parts|-1]) + parts[|parts|-1]
  }

  lemma ConcatNone()
    ensures Concat([]) == []
  {
  }

  lemma ConcatMore(parts: seq<bytes>, s: bytes)
    ensures Concat(parts + [s]) == Concat(parts) + s
  {
    assert (parts + [s])[..|parts|] == parts;
  }

  lemma {:induction false} ConcatPrefix(parts: seq<bytes>, i: nat)
    requires i < |parts|
    ensures Concat(parts[..i+1]) == Concat(parts[..i]) + parts[i]
    ensures |Concat(parts[..i+1])| <= |Concat(parts)|
    decreases |parts|
  {
    assert parts[..i+1][..i] == parts[..i];
    if i + 1 < |parts| {
      var front := parts[..|parts|-1];
      ConcatPrefix(front, i);
      assert front[..i+1] == parts[..i+1];
    } else {
      assert parts[..i+1] == parts;
    }
  }

  /** Bytes, then bytes from where those left off. */
  lemma BeginsThen(v: View, s: bytes, u: View, t: bytes)
    requires Begins(v, s) && Drops(v, |s|, u) && Begins(u, t)
    ensures Begins(v, s + t) && At(u, |t|) == At(v, |s + t|)
  {
    forall i | 0 <= i < |s + t| ensures At(v, i) == Data((s + t)[i]) {
      if i >= |s| { assert At(u, i - |s|) == At(v, i - |s| + |s|); }
    }
    assert At(u, |t|) == At(v, |t| + |s|);
  }

  lemma NotIn(front: bytes, s: nat, delim: byte)
    requires s <= |front| && delim !in front[..s] && delim !in front[s..]
    ensures delim !in front
  {
    assert front == front[..s] + front[s..];
  }

  /** The first `delim` after a part without any. */
  lemma FirstAt(front: bytes, s: nat, i: nat, delim: byte)
    requires s <= |front| && delim !in front[..s] && s + i < |front| && front[s..][i] == delim
    requires delim !in front[s..][..i]
    ensures front[s + i] == delim && delim !in front[..s + i]
  {
    assert front[..s + i] == front[..s] + front[s..][..i];
  }
}
