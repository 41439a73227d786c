/** bytes.Buffer (go/src/bytes/buffer.go): a growing, sliding slice that refines a byte queue. */
module ByteBuffer {
  import opened Bytes

  const MAX_INT := 0x7fff_ffff_ffff_ffff
  const SMALL_BUFFER_SIZE := 64
  const RUNE_SELF := 128

  /** lastRead: a rune's width, or one of these. */
  const OP_READ := -1
  const OP_INVALID := 0

  /** A rune and its width; utf8.DecodeRune is a parameter. */
  type Decoder = bytes -> (nat, nat)

  ghost predicate Decodes(f: Decoder) {
    forall s: bytes :: s != [] ==> 1 <= f(s).1 <= 4 && f(s).1 <= |s|
  }

  lemma SliceDrop(s: bytes, o: nat, n: nat, l: nat)
    requires o + n <= l <= |s|
    ensures s[o..l][n..] == s[o + n..l] && (n > 0 ==> s[o..l][n - 1] == s[o + n - 1])
  {
  }

  lemma SliceTake(s: bytes, o: nat, n: nat, l: nat)
    requires o + n <= l <= |s|
    ensures s[o..l][..n] == s[o..o + n]
  {
  }

  class Buffer {
    /** The slice: its backing array (null for a nil slice), whose length is the capacity, and its length. */
    var data: array?<byte>
    var len: nat
    var off: nat
    var lastRead: int

    ghost predicate Valid()
      reads this
    {
      && off <= len && (if data == null then len == 0 else len <= data.Length)
      && OP_READ <= lastRead <= 4
    }

    /** The queue: the unread bytes. */
    ghost function Contents(): bytes
      requires Valid()
      reads this, data
    {
      if data == null then [] else data[off..len]
    }

    function Cap(): nat
      reads this
    {
      if data == null then 0 else data.Length
    }

    /** The zero value. */
    constructor ()
      ensures Valid() && Contents() == []
    {
      data, len, off, lastRead := null, 0, 0, OP_INVALID;
    }

    method Reset()
      requires Valid()
      modifies this`len, this`off, this`lastRead
      ensures Valid() && Contents() == [] && off == len == 0 && lastRead == OP_INVALID
    {
      len, off, lastRead := 0, 0, OP_INVALID;
    }

    /** Truncate; false where it panics. */
    method Truncate(n: int) returns (ok: bool)
      requires Valid()
      modifies this`len, this`off, this`lastRead
      ensures Valid() && lastRead == OP_INVALID && (ok <==> 0 <= n <= |old(Contents())|)
      ensures Contents() == if ok then old(Contents())[..n] else old(Contents())
    {
      if n == 0 {
        Reset();
        return true;
      }
      lastRead := OP_INVALID;
      if n < 0 || n > len - off { return false; }
      SliceTake(data[..], off, n, len);
      len := off + n;
      return true;
    }

    method tryGrowByReslice(n: nat) returns (i: nat, ok: bool)
      requires Valid()
      modifies this`len
      ensures Valid() && (ok <==> n <= Cap() - old(len))
      ensures if ok then i == old(len) && len == old(len) + n else len == old(len)
    {
      var l := len;
      if n <= Cap() - l {
        len := l + n;
        return l, true;
      }
      return 0, false;
    }

    /**
      grow: room for `n` more bytes behind the unread ones, at index `i`; false where it panics with
      ErrTooLarge. By a reset, a reslice, a small allocation, a slide, or a new array.
     */
    method grow(n: nat) returns (i: nat, ok: bool)
      requires Valid()
      modifies this`data, this`len, this`off, this`lastRead, data
      ensures Valid() && (data == old(data) || fresh(data)) && lastRead in {old(lastRead), OP_INVALID}
      ensures ok ==> data == null || off <= i <= i + n == len <= data.Length
      ensures ok ==> (data == null ==> n == 0 && i == 0) && (data != null ==> data[off..i] == old(Contents()))
      ensures !ok ==> Contents() == old(Contents()) && n > 0 && 2 * old(Cap()) + n > MAX_INT
      ensures ok && |old(Contents())| == 0 ==>
        off == 0 && lastRead == if old(off) != 0 then OP_INVALID else old(lastRead)
      ensures ok && |old(Contents())| > 0 ==>
        lastRead == old(lastRead) && off == if n <= old(Cap() - len) then old(off) else 0
      ensures ok && |old(Contents())| > 0 && n <= old(Cap() - len) ==>
        data == old(data) && (data != null ==> data[..] == old(data[..]))
    {
      ghost var queue := Contents();
      var m := len - off;
      if m == 0 && off != 0 {
        Reset();
      }
      i, ok := tryGrowByReslice(n);
      if ok { return; }
      if data == null && n <= SMALL_BUFFER_SIZE {
        data, len := new byte[SMALL_BUFFER_SIZE], n;
        return 0, true;
      }
      var c := Cap();
      if n <= c / 2 - m {
        var from := off;
        forall k | 0 <= k < m { data[k] := data[from + k]; }
        assert data[..m] == queue;
      } else if c > MAX_INT - c - n {
        return 0, false;
      } else {
        growSlice(off + n);
      }
      off, len := 0, m + n;
      return m, true;
    }

    /** growSlice(b.buf[b.off:], n): the unread bytes at the front of a new array, with room for `n` more. */
    method growSlice(n: nat)
      requires Valid() && n > 0
      modifies this`data, this`len, this`off
      ensures data != null && fresh(data) && len == old(len - off) && len + n <= data.Length
      ensures off == 0 && data[..len] == old(Contents()) && Valid()
    {
      ghost var queue := Contents();
      var m, room := len - off, Cap() - off;
      var c := m + n;
      if c < 2 * room { c := 2 * room; }
      var rounded: nat :| c <= rounded;
      var b2 := new byte[rounded];
      forall k | 0 <= k < m { b2[k] := data[off + k]; }
      data, len, off := b2, m, 0;
      assert data[..len] == queue;
    }

    /** Grow; false where it panics. */
    method Grow(n: int) returns (ok: bool)
      requires Valid()
      modifies this`data, this`len, this`off, this`lastRead, data
      ensures Valid() && (data == old(data) || fresh(data)) && Contents() == old(Contents())
      ensures ok ==> n >= 0 && Cap() - len >= n
      ensures !ok ==> n < 0 || 2 * old(Cap()) + n > MAX_INT
      ensures ok && |old(Contents())| == 0 ==>
        off == 0 && lastRead == if old(off) != 0 then OP_INVALID else old(lastRead)
      ensures ok && |old(Contents())| > 0 ==>
        lastRead == old(lastRead) && off == if n <= old(Cap() - len) then old(off) else 0
      ensures ok && |old(Contents())| > 0 && n <= old(Cap() - len) ==>
        data == old(data) && (data != null ==> data[..] == old(data[..]))
    {
      if n < 0 { return false; }
      var m;
      m, ok := grow(n);
      if ok { len := m; }
    }

    /** The first lines of every write: a reslice if there is room, or else grow. */
    method room(n: nat) returns (m: nat, ok: bool)
      requires Valid() && lastRead == OP_INVALID
      modifies this`data, this`len, this`off, this`lastRead, data
      ensures Valid() && (data == old(data) || fresh(data)) && lastRead == OP_INVALID
      ensures ok ==> (data == null ==> n == 0 && old(Contents()) == [])
      ensures ok && data != null ==> off <= m <= m + n == len <= data.Length && data[off..m] == old(Contents())
      ensures !ok ==> Contents() == old(Contents()) && n > 0 && 2 * old(Cap()) + n > MAX_INT
    {
      m, ok := tryGrowByReslice(n);
      if !ok {
        m, ok := grow(n);
      }
    }

    /** copy(b.buf[m:], p) */
    method store(m: nat, p: bytes)
      requires Valid() && data != null && off <= m && m + |p| == len
      modifies data
      ensures Valid() && Contents() == old(data[off..m]) + p
    {
      ghost var queue := data[off..m];
      forall i | 0 <= i < |p| { data[m + i] := p[i]; }
      assert data[off..m] == queue;
      assert data[m..len] == p;
      assert data[off..len] == data[off..m] + data[m..len];
    }

    /** Write; false where growing panics. */
    method Write(p: bytes) returns (n: nat, ok: bool)
      requires Valid()
      modifies this, data
      ensures Valid() && (data == old(data) || fresh(data)) && lastRead == OP_INVALID
      ensures Contents() == if ok then old(Contents()) + p else old(Contents())
      ensures if ok then n == |p| else p != [] && 2 * old(Cap()) + |p| > MAX_INT
    {
      lastRead := OP_INVALID;
      var m;
      m, ok := room(|p|);
      if !ok { return 0, false; }
      n := |p|;
      if data != null { store(m, p); }
    }

    /** WriteByte; false where growing panics. */
    method WriteByte(c: byte) returns (ok: bool)
      requires Valid()
      modifies this, data
      ensures Valid() && (data == old(data) || fresh(data)) && lastRead == OP_INVALID
      ensures Contents() == if ok then old(Contents()) + [c] else old(Contents())
      ensures !ok ==> 2 * old(Cap()) + 1 > MAX_INT
    {
      lastRead := OP_INVALID;
      var m;
      m, ok := room(1);
      if !ok { return false; }
      store(m, [c]);
    }

    predicate empty()
      reads this
    {
      len <= off
    }

    /** copy(p, b.buf[b.off:]) of `n` bytes. */
    method copyOut(p: array<byte>, n: nat)
      requires Valid() && p != data && n <= p.Length && n <= len - off
      modifies p
      ensures p[..n] == Contents()[..n] && p[n..] == old(p[n..]) && Contents() == old(Contents())
    {
      ghost var queue := Contents();
      if data != null {
        forall i | 0 <= i < n { p[i] := data[off + i]; }
        assert forall k :: 0 <= k < n ==> p[k] == queue[k];
        assert Contents() == queue;
      }
    }

    /** b.off += n */
    method skip(n: nat)
      requires Valid() && n <= len - off
      modifies this`off
      ensures Valid() && off == old(off) + n && Contents() == old(Contents())[n..]
      ensures n > 0 ==> data != null && data[off - 1] == old(Contents())[n - 1]
    {
      if data != null { SliceDrop(data[..], off, n, len); }
      off := off + n;
    }

    /** Read: the next bytes; `eof` only where there are none and some were asked for. */
    method Read(p: array<byte>) returns (n: nat, eof: bool)
      requires Valid() && p != data
      modifies this`len, this`off, this`lastRead, p
      ensures Valid() && n == (if |old(Contents())| < p.Length then |old(Contents())| else p.Length)
      ensures p[..n] == old(Contents())[..n] && p[n..] == old(p[n..]) && Contents() == old(Contents())[n..]
      ensures (eof <==> old(Contents()) == [] && p.Length > 0) && (lastRead == OP_READ <==> n > 0)
    {
      lastRead := OP_INVALID;
      if empty() {
        Reset();
        return 0, p.Length > 0;
      }
      ghost var queue := Contents();
      n := if len - off < p.Length then len - off else p.Length;
      copyOut(p, n);
      skip(n);
      if n > 0 { lastRead := OP_READ; }
      eof := false;
    }

    /** Next; false where the slice bounds panic. */
    method Next(n0: int) returns (s: bytes, ok: bool)
      requires Valid()
      modifies this`off, this`lastRead
      ensures Valid() && (ok <==> n0 >= 0)
      ensures ok ==>
        var n := if n0 > |old(Contents())| then |old(Contents())| else n0;
        s == old(Contents())[..n] && Contents() == old(Contents())[n..] && (lastRead == OP_READ <==> n > 0)
      ensures !ok ==> Contents() == old(Contents())
    {
      lastRead := OP_INVALID;
      var n, m := n0, len - off;
      if n > m { n := m; }
      if n < 0 { return [], false; }
      s := if data == null then [] else data[off..off+n];
      off := off + n;
      if n > 0 { lastRead := OP_READ; }
      ok := true;
    }

    method ReadByte() returns (c: byte, eof: bool)
      requires Valid()
      modifies this`len, this`off, this`lastRead
      ensures Valid() && (eof <==> old(Contents()) == [])
      ensures eof ==> Contents() == [] && lastRead == OP_INVALID
      ensures !eof ==>
        old(Contents()) == [c] + Contents() && lastRead == OP_READ && off == old(off) + 1 && len == old(len)
    {
      if empty() {
        Reset();
        return 0, true;
      }
      c := data[off];
      off := off + 1;
      lastRead := OP_READ;
      eof := false;
    }

    method ReadRune(decode: Decoder) returns (r: nat, size: nat, eof: bool)
      requires Valid() && Decodes(decode)
      modifies this`len, this`off, this`lastRead
      ensures Valid() && (eof <==> old(Contents()) == [])
      ensures eof ==> Contents() == [] && lastRead == OP_INVALID
      ensures !eof ==>
        && 1 <= size <= 4 && size <= |old(Contents())| && Contents() == old(Contents())[size..] && lastRead == size
        && off == old(off) + size && len == old(len)
        && (r, size) == (if old(Contents())[0] < RUNE_SELF then (old(Contents())[0], 1) else decode(old(Contents())))
    {
      if empty() {
        Reset();
        return 0, 0, true;
      }
      ghost var queue := Contents();
      eof := false;
      var c := data[off];
      if c < RUNE_SELF {
        off := off + 1;
        lastRead := 1;
        r, size := c, 1;
      } else {
        var rune := decode(data[off..len]);
        r, size := rune.0, rune.1;
        off := off + size;
        lastRead := size;
      }
      assert data[off..len] == queue[size..];
    }

    /** UnreadRune; false where the last operation was no successful ReadRune. */
    method UnreadRune() returns (ok: bool)
      requires Valid()
      modifies this`off, this`lastRead
      ensures Valid() && (ok <==> old(lastRead) > 0) && lastRead == (if ok then OP_INVALID else old(lastRead))
      ensures len == old(len)
      ensures off == if ok && old(off) >= old(lastRead) then old(off) - old(lastRead) else old(off)
    {
      if lastRead <= OP_INVALID { return false; }
      if off >= lastRead { off := off - lastRead; }
      lastRead := OP_INVALID;
      return true;
    }

    /** UnreadByte; false where the last operation was no read. */
    method UnreadByte() returns (ok: bool)
      requires Valid()
      modifies this`off, this`lastRead
      ensures Valid() && (ok <==> old(lastRead) != OP_INVALID) && lastRead == OP_INVALID && len == old(len)
      ensures off == if ok && old(off) > 0 then old(off) - 1 else old(off)
      ensures if ok && old(off) > 0 then data != null && Contents() == [data[off]] + old(Contents())
        else Contents() == old(Contents())
    {
      if lastRead == OP_INVALID { return false; }
      lastRead := OP_INVALID;
      if off > 0 { off := off - 1; }
      return true;
    }

    /** b.buf[b.off:end], where `end` is past the first `delim`, or the end. */
    method through(delim: byte) returns (line: bytes, eof: bool)
      requires Valid()
      ensures |line| <= len - off && line == Contents()[..|line|]
      ensures eof ==> delim !in line && |line| == len - off
      ensures !eof ==> line != [] && line[|line|-1] == delim && delim !in line[..|line|-1]
    {
      hide IndexByte;
      var unread := if data == null then [] else data[off..len];
      var i := IndexByte(unread, delim);
      var end := off + i + 1;
      eof := false;
      if i < 0 {
        end := len;
        eof := true;
      }
      line := unread[..end - off];
      SlicedLine(unread, i, delim, line);
    }

    /** readSlice, and ReadBytes: through the first `delim`, or everything and io.EOF. */
    method readSlice(delim: byte) returns (line: bytes, eof: bool)
      requires Valid()
      modifies this`off, this`lastRead
      ensures Valid() && old(Contents()) == line + Contents() && lastRead == OP_READ && len == old(len)
      ensures off == old(off) + |line|
      ensures eof ==> delim !in line && Contents() == []
      ensures !eof ==> line != [] && line[|line|-1] == delim && delim !in line[..|line|-1]
      ensures line != [] ==> data != null && off <= data.Length && data[off-1] == line[|line|-1]
    {
      ghost var queue := Contents();
      line, eof := through(delim);
      skip(|line|);
      lastRead := OP_READ;
      Cut(queue, line, Contents());
    }
  }

  /** ReadRune and UnreadRune, right after it, leave the queue as it was. */
  method peekRune(b: Buffer, decode: Decoder) returns (r: nat, size: nat, eof: bool)
    requires b.Valid() && Decodes(decode)
    modifies b
    ensures b.Valid() && b.Contents() == old(b.Contents())
  {
    r, size, eof := b.ReadRune(decode);
    if !eof {
      var ok := b.UnreadRune();
      assert ok;
    }
  }

  /** So do ReadByte and UnreadByte. */
  method peekByte(b: Buffer) returns (c: byte, eof: bool)
    requires b.Valid()
    modifies b
    ensures b.Valid() && b.Contents() == old(b.Contents())
  {
    c, eof := b.ReadByte();
    if !eof {
      var ok := b.UnreadByte();
      assert ok;
    }
  }

  lemma Cut(queue: bytes, line: bytes, rest: bytes)
    requires |line| <= |queue| && line == queue[..|line|] && rest == queue[|line|..]
    ensures queue == line + rest && (line != [] ==> line[|line|-1] == queue[|line|-1])
  {
  }

  lemma SlicedLine(queue: bytes, i: int, delim: byte, line: bytes)
    requires i == IndexByte(queue, delim) && line == queue[..if i < 0 then |queue| else i + 1]
    ensures queue == line + queue[|line|..]
    ensures i < 0 ==> delim !in line && queue[|line|..] == []
    ensures i >= 0 ==> line != [] && line[|line|-1] == delim && delim !in line[..|line|-1]
  {
    if i >= 0 { assert line[..i] == queue[..i]; }
  }

  lemma AfterLine(queue: bytes, line: bytes, rest: bytes, delim: byte, eof: bool)
    requires queue == line + rest && (eof ==> delim !in line && rest == [])
    requires !eof ==> line != [] && line[|line|-1] == delim
    ensures rest == queue[|line|..] && (eof <==> delim !in queue) && (line == [] <==> queue == [])
  {
    if !eof { assert queue[|line|-1] == delim; }
  }

  /**
    UnreadByte after a read to a delimiter. It always succeeds, where its documentation has it fail after a read of
    no bytes, and after a read that returned an error: so the two agree if and only if there was something to read,
    and the delimiter in it.
   */
  method unreadAfterSlice(b: Buffer, delim: byte) returns (line: bytes, eof: bool, unread: bool)
    requires b.Valid()
    modifies b
    ensures b.Valid() && unread
    ensures (unread <==> line != []) <==> old(b.Contents()) != []
    ensures (unread <==> !eof) <==> delim in old(b.Contents())
    ensures |line| <= |old(b.Contents())|
    ensures line != [] ==> b.Contents() == [line[|line|-1]] + old(b.Contents())[|line|..]
    ensures line == [] ==> |b.Contents()| == if old(b.off) > 0 then 1 else 0
  {
    ghost var queue := b.Contents();
    line, eof := b.readSlice(delim);
    AfterLine(queue, line, b.Contents(), delim, eof);
    unread := b.UnreadByte();
  }

  /**
    A read up to a delimiter that found nothing to read still lets UnreadByte bring back a byte read before, if there
    was one.
   */
  method unreadAfterNothing(b: Buffer, delim: byte) returns (unread: bool)
    requires b.Valid() && b.Contents() == []
    modifies b
    ensures b.Valid() && unread && |b.Contents()| == if old(b.off) > 0 then 1 else 0
  {
    var line, eof;
    line, eof, unread := unreadAfterSlice(b, delim);
  }

  /**
    ReadByte, a Grow that does not panic, UnreadByte. With more than one byte to begin with UnreadByte succeeds, and
    restores the byte if and only if the spare capacity was enough; with one byte it fails, whatever the Grow.
   */
  method growBetween(b: Buffer, n: nat) returns (c: byte, grown: bool, unread: bool)
    requires b.Valid() && b.Contents() != []
    modifies b, b.data
    ensures b.Valid() && c == old(b.Contents())[0]
    ensures b.Contents() ==
      if grown && |old(b.Contents())| > 1 && n <= old(b.Cap() - b.len) then old(b.Contents())
      else old(b.Contents())[1..]
    ensures grown ==> (unread <==> |old(b.Contents())| > 1)
    ensures grown ==> (b.Contents() == old(b.Contents()) <==> |old(b.Contents())| > 1 && n <= old(b.Cap() - b.len))
    ensures !grown ==> 2 * old(b.Cap()) + n > MAX_INT
  {
    ghost var queue := b.Contents();
    var eof;
    c, eof := b.ReadByte();
    ghost var left := b.Contents();
    assert queue == [c] + left && left == queue[1..];
    grown := b.Grow(n);
    unread := false;
    if !grown { return; }
    unread := b.UnreadByte();
  }
}
