/** bufio.Scanner with ScanLines (go/src/bufio/scan.go). */
module Scanner {
  import opened Bytes
  import opened Options
  import opened IoReader

  const NEWLINE: byte := 10
  const CARRIAGE_RETURN: byte := 13
  const MAX_SCAN_TOKEN_SIZE := 65536
  const START_BUF_SIZE := 4096
  const MAX_INT := 0x7fff_ffff_ffff_ffff

  const ERR_TOO_LONG: Error := 1
  const ERR_NEGATIVE_ADVANCE: Error := 2
  const ERR_ADVANCE_TOO_FAR: Error := 3

  // ---------------------------------------------------------------- lines

  function DropCR(s: bytes): bytes {
    if |s| > 0 && s[|s|-1] == CARRIAGE_RETURN then s[..|s|-1] else s
  }

  /** The first line with its newline, or all of `s`. */
  function LineEnd(s: bytes): (n: nat)
    ensures n <= |s| && (s != [] ==> n > 0)
  {
    var i := IndexByte(s, NEWLINE);
    if i >= 0 then i + 1 else |s|
  }

  /** What a scan makes of the first line: no newline, and no carriage return before it. */
  function Token(s: bytes): bytes {
    var i := IndexByte(s, NEWLINE);
    DropCR(if i >= 0 then s[..i] else s)
  }

  /** The tokens of an input. */
  function Lines(s: bytes): seq<bytes>
    decreases |s|
  {
    if s == [] then [] else [Token(s)] + Lines(s[LineEnd(s)..])
  }

  datatype Split = Split(advance: int, token: Option<bytes>)

  function ScanLines(data: bytes, atEOF: bool): Split {
    if atEOF && data == [] then Split(0, None)
    else
      var i := IndexByte(data, NEWLINE);
      if i >= 0 then Split(i + 1, Some(DropCR(data[..i])))
      else if atEOF then Split(|data|, Some(DropCR(data)))
      else Split(0, None)
  }

  /** A full line in the data is the first line whatever follows; with nothing to follow, so is an unfinished one. */
  lemma SplitIsLine(data: bytes, more: bytes, atEOF: bool)
    requires atEOF ==> more == []
    ensures var r := ScanLines(data, atEOF);
      && (r.token.Some? ==>
            data + more != [] && r.token == Some(Token(data + more)) && r.advance == LineEnd(data + more) <= |data|)
      && (r.token.None? ==> r.advance == 0 && (if atEOF then data == [] else NEWLINE !in data))
  {
    if NEWLINE in data {
      IndexJoin(data, more, NEWLINE);
      var i := IndexByte(data, NEWLINE);
      assert (data + more)[..i] == data[..i];
    } else if atEOF {
      assert data + more == data;
    }
  }

  // ---------------------------------------------------------------- the buffer limit

  function NextSize(size: nat, max: int): (r: nat)
    requires size < max && size <= MAX_INT / 2
    ensures size < r <= max
  {
    var n := if size == 0 then START_BUF_SIZE else size * 2;
    if n < max then n else max
  }

  /** The size at which a buffer of `size` bytes stops growing. */
  function Limit(size: nat, max: int): (r: nat)
    ensures r >= size
    decreases max - size
  {
    if size >= max || size > MAX_INT / 2 then size else Limit(NextSize(size, max), max)
  }

  /** Short of the guard against overflow, a buffer grows to the greater of its size and `max`. */
  lemma {:induction false} LimitIs(size: nat, max: int)
    requires max <= MAX_INT / 2
    ensures Limit(size, max) == if size >= max then size else max
    decreases max - size
  {
    if size < max { LimitIs(NextSize(size, max), max); }
  }

  /** The first line does not fit in `limit` bytes: it would need more, or it fills them with no newline to end it. */
  predicate TooLong(s: bytes, limit: nat) {
    |s| >= limit && NEWLINE !in s[..limit]
  }

  class Scanner {
    const r: Source
    const maxTokenSize: int
    var token: Option<bytes>
    var buf: array<byte>
    var start: nat
    var end: nat
    var err: Option<Error>
    var empties: nat

    /** Between the calls: the data not yet turned into tokens is in buf[start..end]. */
    ghost predicate Valid()
      reads this, buf, r
    {
      && r.Valid() && start <= end <= buf.Length && empties == 0
      && (err.None? ==> end - start <= r.pos && Holds(r.stream, r.pos - (end - start), buf[start..end]))
    }

    /** NewScanner, with a buffer and limit as set by Buffer. */
    constructor (r: Source, buf: array<byte>, max: int)
      requires r.Valid()
      ensures Valid() && this.r == r && this.buf == buf && maxTokenSize == max && err.None? && token.None?
      ensures start == end == 0
    {
      this.r, this.buf, maxTokenSize := r, buf, max;
      token, start, end, err, empties := None, 0, 0, None, 0;
    }

    /** The input still to come as tokens, up to its error. */
    ghost function Rest(): bytes
      requires Valid()
      reads this, buf, r
    {
      if err.Some? then buf[start..end] else Ahead(r.stream, r.end, r.pos - (end - start))
    }

    /** The error at which the input ends. */
    ghost function Final(): Error
      requires Valid()
      reads this, buf, r
    {
      if err.Some? then err.value else r.stream(Stop(r.stream, r.end, r.pos)).e
    }

    /** setErr */
    method setErr(e: Error)
      modifies this`err
      ensures err == if old(err).None? || old(err) == Some(EOF) then Some(e) else old(err)
    {
      if err.None? || err == Some(EOF) { err := Some(e); }
    }

    /** advance */
    method advance(n: int) returns (ok: bool)
      requires Valid()
      modifies this`start, this`err
      ensures ok <==> 0 <= n <= old(end - start)
      ensures ok ==>
        && start == old(start) + n && err == old(err) && Valid() && n <= |old(Rest())| && Rest() == old(Rest())[n..]
        && Final() == old(Final())
    {
      hide Stop, Ahead, Between, Holds, Ends;
      if n < 0 {
        setErr(ERR_NEGATIVE_ADVANCE);
        return false;
      }
      if n > end - start {
        setErr(ERR_ADVANCE_TOO_FAR);
        return false;
      }
      ghost var data := buf[start..end];
      if err.None? { Drops(r.stream, r.end, r.pos - |data|, data, n); }
      start := start + n;
      assert buf[start..end] == data[n..];
      return true;
    }

    /** Moves the data to the front of the buffer if there is much empty space before it, or space is needed. */
    method shift()
      requires Valid() && err.None?
      modifies this`start, this`end, buf
      ensures Valid() && Rest() == old(Rest()) && Final() == old(Final()) && buf[start..end] == old(buf[start..end])
      ensures start == 0 || end < buf.Length
    {
      hide Stop, Ahead, Between, Ends;
      if start > 0 && (end == buf.Length || start > buf.Length / 2) {
        ghost var data := buf[start..end];
        var n, from := end - start, start;
        forall i | 0 <= i < n { buf[i] := buf[from + i]; }
        end, start := n, 0;
        assert buf[start..end] == data;
      }
    }

    /** Makes room in a full buffer; false where it may not grow. */
    method grow() returns (ok: bool)
      requires Valid() && err.None? && (start == 0 || end < buf.Length)
      modifies this`start, this`end, this`buf
      ensures Valid() && Rest() == old(Rest()) && Final() == old(Final()) && buf[start..end] == old(buf[start..end])
      ensures ok ==> end < buf.Length
      ensures Limit(buf.Length, maxTokenSize) == old(Limit(buf.Length, maxTokenSize)) && (buf == old(buf) || fresh(buf))
      ensures !ok ==> end == buf.Length == Limit(buf.Length, maxTokenSize) && buf == old(buf) && start == 0
    {
      hide Stop, Ahead, Between, Holds, Ends;
      ok := true;
      if end == buf.Length {
        if buf.Length >= maxTokenSize || buf.Length > MAX_INT / 2 { return false; }
        var newBuf := new byte[NextSize(buf.Length, maxTokenSize)];
        ghost var data := buf[start..end];
        assert Holds(r.stream, r.pos - |data|, data);
        forall i | start <= i < end { newBuf[i - start] := buf[i]; }
        assert newBuf[..end - start] == data;
        buf := newBuf;
        end, start := end - start, 0;
        assert buf[start..end] == data;
      }
    }

    /** s.r.Read(s.buf[s.end:]), which leaves the data alone. */
    method fetch() returns (n: nat, e: Option<Error>, ghost more: bytes)
      requires Valid() && end < buf.Length
      modifies buf, r
      ensures r.Valid() && end + n <= buf.Length && |more| == n
      ensures buf[start..end] == old(buf[start..end]) && buf[start..end+n] == old(buf[start..end]) + more
      ensures Holds(r.stream, old(r.pos), more)
      ensures match e
        case None => r.pos == old(r.pos) + n && (n == 0 ==> r.empties == old(r.empties) + 1)
        case Some(x) => r.stream(old(r.pos) + n) == Fail(x)
    {
      hide Ends;
      ghost var data := buf[start..end];
      n, e := r.Read(buf, end, buf.Length);
      more := buf[end..end+n];
      assert buf[start..end] == data;
      assert buf[start..end+n] == data + more;
    }

    /** One read behind the data. */
    method readOnce() returns (n: nat, e: Option<Error>)
      requires Valid() && err.None? && end < buf.Length
      modifies this`end, buf, r
      ensures r.Valid() && end == old(end) + n <= buf.Length
      ensures e.None? ==> Valid() && Rest() == old(Rest()) && Final() == old(Final())
      ensures e.None? && n > 0 ==> old(r.pos) < r.pos <= r.end
      ensures e.None? && n == 0 ==> r.pos == old(r.pos) && r.empties == old(r.empties) + 1
      ensures e.Some? ==> buf[start..end] == old(Rest()) && e.value == old(Final())
    {
      hide Stop, Ahead, Between, Holds, Ends;
      ghost var data, p := buf[start..end], r.pos;
      ghost var more;
      n, e, more := fetch();
      Takes(r.stream, r.end, p - |data|, data, more);
      if e.Some? { AtStop(r.stream, r.end, p + n); }
      if n > 0 { BeforeEnd(r.stream, r.end, p, more); }
      end := end + n;
    }

    /** Reads until something comes: some bytes, or the error. */
    method readMore()
      requires Valid() && err.None? && end < buf.Length
      modifies this`end, this`err, this`empties, buf, r
      ensures Valid() && Rest() == old(Rest()) && Final() == old(Final())
      ensures err.None? ==> old(r.pos) < r.pos <= r.end
    {
      hide Stop, Ahead, Between, Holds, Ends;
      var loop := 0;
      while true
        invariant Valid() && Rest() == old(Rest()) && Final() == old(Final()) && err.None? && end < buf.Length
        invariant r.pos == old(r.pos) && loop <= r.empties
        decreases MAX_CONSECUTIVE_EMPTY_READS - r.empties
      {
        var n, e := readOnce();
        if e.Some? {
          setErr(e.value);
          return;
        }
        if n > 0 {
          empties := 0;
          return;
        }
        loop := loop + 1;
        if loop > MAX_CONSECUTIVE_EMPTY_READS {
          assert false;
        }
      }
    }

    /** Tries the split function on the data there is. */
    method trySplit() returns (found: bool)
      requires Valid() && (end > start || err.Some?)
      modifies this`token, this`start, this`err, this`empties
      ensures Valid() && Final() == old(Final()) && err == old(err)
      ensures found ==>
        && old(Rest()) != [] && token == Some(Token(old(Rest())))
        && LineEnd(old(Rest())) <= buf.Length && Rest() == old(Rest())[LineEnd(old(Rest()))..]
      ensures !found ==>
        Rest() == old(Rest()) && start == old(start) && if err.Some? then Rest() == [] else NEWLINE !in buf[start..end]
    {
      hide Stop, Ahead, Between, Holds, Ends, Token, LineEnd, ScanLines;
      var split := ScanLines(buf[start..end], err.Some?);
      RestSplits();
      SplitIsLine(buf[start..end], AfterData(), err.Some?);
      var fine := advance(split.advance);
      token := split.token;
      found := token.Some?;
      if found {
        if err.None? || split.advance > 0 {
          empties := 0;
        } else {
          assert false;
        }
      }
    }

    /** Makes room and reads; false where the buffer is full of a line that has not ended. */
    method refill() returns (ok: bool)
      requires Valid() && err.None? && NEWLINE !in buf[start..end]
      modifies this`buf, this`start, this`end, this`err, this`empties, buf, r
      ensures Valid() && (buf == old(buf) || fresh(buf))
      ensures Limit(buf.Length, maxTokenSize) == old(Limit(buf.Length, maxTokenSize))
      ensures ok ==> Rest() == old(Rest()) && Final() == old(Final()) && (err.None? ==> old(r.pos) < r.pos <= r.end)
      ensures !ok ==> err == Some(ERR_TOO_LONG) && TooLong(old(Rest()), Limit(buf.Length, maxTokenSize))
    {
      hide Stop, Ahead, Between, Holds, Ends, Limit;
      shift();
      ok := grow();
      if !ok {
        RestSplits();
        NoLine(buf[start..end], AfterData());
        setErr(ERR_TOO_LONG);
        return;
      }
      readMore();
    }

    /** Turns the next line into the token; false at the end of the input, or at a line too long for the buffer. */
    method Scan() returns (ok: bool)
      requires Valid()
      modifies this`token, this`buf, this`start, this`end, this`err, this`empties, buf, r
      ensures Valid() && (buf == old(buf) || fresh(buf))
      ensures Limit(buf.Length, maxTokenSize) == old(Limit(buf.Length, maxTokenSize))
      ensures ok ==>
        && old(Rest()) != [] && token == Some(Token(old(Rest()))) && Final() == old(Final())
        && Rest() == old(Rest())[LineEnd(old(Rest()))..] && LineEnd(old(Rest())) <= Limit(buf.Length, maxTokenSize)
      ensures !ok ==>
        || (old(Rest()) == [] && Rest() == [] && err == Some(old(Final())))
        || (old(err).None? && err == Some(ERR_TOO_LONG) && TooLong(old(Rest()), Limit(buf.Length, maxTokenSize)))
    {
      hide Stop, Ahead, Between, Holds, Ends, Limit, Token, LineEnd, TooLong;
      ghost var rest, final, limit := Rest(), Final(), Limit(buf.Length, maxTokenSize);
      while true
        invariant Valid() && Rest() == rest && Final() == final && (buf == old(buf) || fresh(buf))
        invariant Limit(buf.Length, maxTokenSize) == limit
        invariant old(err).Some? ==> err.Some?
        decreases if err.None? then 1 else 0, if r.end > r.pos then r.end - r.pos else 0
      {
        if end > start || err.Some? {
          var found := trySplit();
          if found { return true; }
        }
        if err.Some? {
          start, end := 0, 0;
          return false;
        }
        var room := refill();
        if !room { return false; }
      }
    }

    /** Err */
    method Err() returns (e: Option<Error>)
      ensures e == if err == Some(EOF) then None else err
    {
      if err == Some(EOF) { return None; }
      return err;
    }

    ghost function AfterData(): (more: bytes)
      requires Valid()
      reads this, buf, r
    {
      if err.Some? then [] else Ahead(r.stream, r.end, r.pos)
    }

    /** The input to come is the data, then what the source still has. */
    lemma RestSplits()
      requires Valid()
      ensures Rest() == buf[start..end] + AfterData()
    {
      hide Stop, Ahead, Between, Holds, Ends;
      if err.None? {
        var data := buf[start..end];
        AheadSplits(r.stream, r.end, r.pos - |data|, data);
      }
    }
  }

  lemma NoLine(data: bytes, more: bytes)
    requires NEWLINE !in data
    ensures TooLong(data + more, |data|)
  {
    assert (data + more)[..|data|] == data;
  }

  /** What is left when `n` bytes of the data are dropped. */
  lemma Drops(stream: nat -> Item, end: nat, p: nat, data: bytes, n: nat)
    requires Ends(stream, end) && Holds(stream, p, data) && n <= |data|
    ensures Holds(stream, p + n, data[n..]) && n <= |Ahead(stream, end, p)|
    ensures Ahead(stream, end, p + n) == Ahead(stream, end, p)[n..]
  {
    assert Holds(stream, p, data[..n]);
    AheadSplits(stream, end, p, data[..n]);
    forall i | 0 <= i < |data[n..]|
      ensures stream(p + n + i) == Data(data[n..][i])
    {
      assert stream(p + (n + i)) == Data(data[n + i]);
    }
  }

  lemma HoldsJoin(stream: nat -> Item, p: nat, data: bytes, more: bytes)
    requires Holds(stream, p, data) && Holds(stream, p + |data|, more)
    ensures Holds(stream, p, data + more)
  {
    forall i | 0 <= i < |data + more| ensures stream(p + i) == Data((data + more)[i]) {
      if i >= |data| { assert stream(p + |data| + (i - |data|)) == Data(more[i - |data|]); }
    }
  }

  /** Bytes in the buffer, then bytes read, are what the stream holds. */
  lemma Takes(stream: nat -> Item, end: nat, p: nat, data: bytes, more: bytes)
    requires Ends(stream, end) && Holds(stream, p, data) && Holds(stream, p + |data|, more)
    ensures Holds(stream, p, data + more)
    ensures Ahead(stream, end, p) == data + more + Ahead(stream, end, p + |data| + |more|)
    ensures Stop(stream, end, p + |data|) == Stop(stream, end, p + |data| + |more|)
  {
    hide Ends, Holds, Ahead, Stop;
    AheadSplits(stream, end, p, data);
    AheadSplits(stream, end, p + |data|, more);
    HoldsJoin(stream, p, data, more);
  }

  /** At an error nothing is ahead. */
  lemma AtStop(stream: nat -> Item, end: nat, p: nat)
    requires Ends(stream, end) && stream(p).Fail?
    ensures Ahead(stream, end, p) == [] && Stop(stream, end, p) == p
  {
  }

  // ---------------------------------------------------------------- a whole input

  /** No line of the input is too long for a buffer of `limit` bytes. */
  predicate AllFit(s: bytes, limit: nat)
    decreases |s|
  {
    !TooLong(s, limit) && (s == [] || AllFit(s[LineEnd(s)..], limit))
  }

  /** Every line is, with its newline, shorter than `max`. */
  predicate AllShorter(s: bytes, max: int)
    decreases |s|
  {
    s == [] || (LineEnd(s) < max && AllShorter(s[LineEnd(s)..], max))
  }

  lemma {:induction false} ShorterFit(s: bytes, max: int, limit: nat)
    requires AllShorter(s, max) && max <= limit && 0 < limit
    ensures AllFit(s, limit)
    decreases |s|
  {
    if s != [] {
      var i := IndexByte(s, NEWLINE);
      if i >= 0 && limit <= |s| { assert s[..limit][i] == NEWLINE; }
      ShorterFit(s[LineEnd(s)..], max, limit);
    }
  }

  lemma LinesFirst(done: seq<bytes>, s: bytes)
    requires s != []
    ensures done + Lines(s) == done + [Token(s)] + Lines(s[LineEnd(s)..])
  {
  }

  /** for s.Scan() { lines = append(lines, s.Text()) }: the lines of the input, however it was cut into reads. */
  method scanAll(s: Scanner) returns (lines: seq<bytes>)
    requires s.Valid() && s.err.None?
    modifies s, s.buf, s.r
    ensures s.Valid() && lines <= Lines(old(s.Rest()))
    ensures AllFit(old(s.Rest()), old(Limit(s.buf.Length, s.maxTokenSize))) ==>
      lines == Lines(old(s.Rest())) && s.err == Some(old(s.Final()))
  {
    hide Limit, Lines, Token, LineEnd, TooLong, Stop, Ahead, Ends, Between;
    ghost var limit := Limit(s.buf.Length, s.maxTokenSize);
    lines := [];
    while true
      invariant s.Valid() && (s.buf == old(s.buf) || fresh(s.buf)) && Limit(s.buf.Length, s.maxTokenSize) == limit
      invariant lines + Lines(s.Rest()) == Lines(old(s.Rest()))
      invariant s.Final() == old(s.Final())
      invariant AllFit(old(s.Rest()), limit) ==> AllFit(s.Rest(), limit)
      decreases |s.Rest()|
    {
      ghost var rest := s.Rest();
      var ok := s.Scan();
      if !ok {
        NoLines();
        return;
      }
      LinesFirst(lines, rest);
      LineEndPositive(rest);
      lines := lines + [s.token.value];
    }
  }

  lemma NoLines()
    ensures Lines([]) == []
  {
  }

  lemma LineEndPositive(s: bytes)
    requires s != []
    ensures 0 < LineEnd(s) <= |s|
  {
  }

  // ---------------------------------------------------------------- what the lines of an input are

  /** A newline, or a carriage return and a newline. */
  function LineBreak(cr: bool): bytes { if cr then [CARRIAGE_RETURN, NEWLINE] else [NEWLINE] }

  /** The lines one after another, each with a line break of its own kind. */
  function Written(lines: seq<bytes>, crs: seq<bool>): bytes
    requires |lines| == |crs|
  {
    if lines == [] then [] else lines[0] + LineBreak(crs[0]) + Written(lines[1..], crs[1..])
  }

  predicate EndsInReturn(line: bytes) { line != [] && line[|line|-1] == CARRIAGE_RETURN }

  /** A carriage return at the end of a line is one more than that of its line break, if it has one. */
  predicate Plainly(lines: seq<bytes>, crs: seq<bool>)
    requires |lines| == |crs|
  {
    forall i :: 0 <= i < |lines| ==> NEWLINE !in lines[i] && (EndsInReturn(lines[i]) ==> crs[i])
  }

  /** A line before its newline, or with none. */
  function Tail(last: bytes, cr: bool): bytes { if cr then last + [CARRIAGE_RETURN] else last }

  /** What comes before the first newline is a line, without one carriage return at its end. */
  lemma FirstLine(line: bytes, cr: bool, more: bytes)
    requires NEWLINE !in line && (EndsInReturn(line) ==> cr)
    ensures Lines(line + LineBreak(cr) + more) == [line] + Lines(more)
  {
    hide Token, LineEnd, LineBreak;
    FirstToken(line, cr, more);
  }

  lemma FirstToken(line: bytes, cr: bool, more: bytes)
    requires NEWLINE !in line && (EndsInReturn(line) ==> cr)
    ensures var s := line + LineBreak(cr) + more;
      s != [] && Token(s) == line && LineEnd(s) <= |s| && s[LineEnd(s)..] == more
  {
    hide IndexByte, DropCR, LineBreak;
    var front := Tail(line, cr);
    BreakAt(line, cr, more);
    DropsOne(line, cr);
    IndexAfter(front, more);
  }

  /** Where the first newline is, and what is around it. */
  lemma BreakAt(line: bytes, cr: bool, more: bytes)
    requires NEWLINE !in line
    ensures var s, front := line + LineBreak(cr) + more, Tail(line, cr);
      && s == front + ([NEWLINE] + more) && NEWLINE !in front && |s| > |front|
      && s[..|front|] == front && s[|front| + 1..] == more
  {
  }

  lemma DropsOne(line: bytes, cr: bool)
    requires EndsInReturn(line) ==> cr
    ensures DropCR(Tail(line, cr)) == line
  {
    assert cr ==> Tail(line, cr)[..|Tail(line, cr)|-1] == line;
  }

  lemma {:induction false} IndexAfter(front: bytes, more: bytes)
    requires NEWLINE !in front
    ensures IndexByte(front + ([NEWLINE] + more), NEWLINE) == |front|
    decreases |front|
  {
    var s := front + ([NEWLINE] + more);
    if front != [] {
      assert s[1..] == front[1..] + ([NEWLINE] + more);
      IndexAfter(front[1..], more);
    }
  }

  /** Lines written with any mix of line breaks come back as they are, before whatever follows. */
  lemma {:induction false} LinesWritten(lines: seq<bytes>, crs: seq<bool>, more: bytes)
    requires |lines| == |crs| && Plainly(lines, crs)
    ensures Lines(Written(lines, crs) + more) == lines + Lines(more)
    decreases |lines|
  {
    hide Lines;
    if lines == [] {
      assert Written(lines, crs) + more == more;
    } else {
      assert Written(lines, crs) + more == lines[0] + LineBreak(crs[0]) + (Written(lines[1..], crs[1..]) + more);
      FirstLine(lines[0], crs[0], Written(lines[1..], crs[1..]) + more);
      LinesWritten(lines[1..], crs[1..], more);
      assert lines == [lines[0]] + lines[1..];
    }
  }

  /** A last line needs no newline, and loses one carriage return; after a line break nothing is left. */
  lemma LastLine(line: bytes, cr: bool)
    requires NEWLINE !in line && (EndsInReturn(line) ==> cr)
    ensures Lines(Tail(line, cr)) == if line == [] && !cr then [] else [line]
  {
    var s := Tail(line, cr);
    if s != [] {
      assert IndexByte(s, NEWLINE) == -1 && s[|s|..] == [];
      DropsOne(line, cr);
      NoLines();
    }
  }

  /** What is left of `s` when its first line is taken off. */
  lemma TakeLine(s: bytes) returns (cr: bool)
    requires NEWLINE in s
    ensures var line := Token(s);
      && NEWLINE !in line && (EndsInReturn(line) ==> cr) && s == line + LineBreak(cr) + s[LineEnd(s)..]
  {
    var i := IndexByte(s, NEWLINE);
    cr := EndsInReturn(s[..i]);
    assert s == s[..i] + [NEWLINE] + s[i+1..];
    assert cr ==> s[..i] == Token(s) + [CARRIAGE_RETURN];
  }

  /** The line that what is behind the last newline makes. */
  function TailLines(last: bytes, cr: bool): seq<bytes> { if last == [] && !cr then [] else [last] }

  /** `s` is the lines with line breaks, and maybe a last line without one. */
  predicate Spells(s: bytes, lines: seq<bytes>, crs: seq<bool>, last: bytes, cr: bool) {
    && |crs| <= |lines| && Plainly(lines[..|crs|], crs) && NEWLINE !in last && (EndsInReturn(last) ==> cr)
    && s == Written(lines[..|crs|], crs) + Tail(last, cr) && lines[|crs|..] == TailLines(last, cr)
  }

  lemma SpellsMore(line: bytes, first: bool, s: bytes, lines: seq<bytes>, crs: seq<bool>, last: bytes, cr: bool)
    requires Spells(s, lines, crs, last, cr) && NEWLINE !in line && (EndsInReturn(line) ==> first)
    ensures Spells(line + LineBreak(first) + s, [line] + lines, [first] + crs, last, cr)
  {
    hide Written, Plainly, Tail, TailLines, EndsInReturn, LineBreak;
    var all, breaks := [line] + lines, [first] + crs;
    assert all[..|breaks|] == [line] + lines[..|crs|] && all[|breaks|..] == lines[|crs|..];
    OneMore(line, first, lines[..|crs|], crs);
    Joins(line + LineBreak(first), Written(lines[..|crs|], crs), Tail(last, cr));
  }

  lemma Joins(a: bytes, b: bytes, c: bytes)
    ensures a + (b + c) == a + b + c
  {
  }

  lemma OneMore(line: bytes, first: bool, lines: seq<bytes>, crs: seq<bool>)
    requires |lines| == |crs| && Plainly(lines, crs) && NEWLINE !in line && (EndsInReturn(line) ==> first)
    ensures Plainly([line] + lines, [first] + crs)
    ensures Written([line] + lines, [first] + crs) == line + LineBreak(first) + Written(lines, crs)
  {
    assert ([line] + lines)[1..] == lines && ([first] + crs)[1..] == crs;
  }

  lemma SpellsLast(s: bytes) returns (last: bytes, cr: bool)
    requires NEWLINE !in s
    ensures Spells(s, Lines(s), [], last, cr)
  {
    cr := EndsInReturn(s);
    last := if cr then s[..|s|-1] else s;
    LastLine(last, cr);
    assert Lines(s)[..0] == [] && Lines(s)[0..] == Lines(s);
  }

  /** Every input is its lines, written with some line breaks, and maybe a last line without one. */
  lemma {:induction false} AnyInput(s: bytes) returns (crs: seq<bool>, last: bytes, cr: bool)
    ensures Spells(s, Lines(s), crs, last, cr)
    decreases |s|
  {
    hide Token, LineEnd, Spells, IndexByte, LineBreak;
    if NEWLINE in s {
      var first := TakeLine(s);
      LineEndPositive(s);
      var rest := s[LineEnd(s)..];
      crs, last, cr := AnyInput(rest);
      SpellsMore(Token(s), first, rest, Lines(rest), crs, last, cr);
      crs := [first] + crs;
    } else {
      crs := [];
      last, cr := SpellsLast(s);
    }
  }
}
