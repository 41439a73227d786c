/** The unescaper itself (go/src/html/escape.go): it rewrites the text in place, and never what it has yet to read. */
module HtmlUnescape {
  import opened Bytes
  import opened Html

  /** Everything but b[dst..src1] is as it was, and b[dst..dst1] is `out`. */
  twostate predicate Wrote(b: array<byte>, dst: nat, dst1: nat, src1: nat, out: bytes)
    requires dst <= dst1 <= src1 <= b.Length
    reads b
  {
    b[dst..dst1] == out && b[..dst] == old(b[..dst]) && b[src1..] == old(b[src1..])
  }

  /** utf8.EncodeRune(b[dst:], x) */
  method encodeRune(b: array<byte>, dst: nat, x: int) returns (n: nat)
    requires dst + |EncodeRune(x)| <= b.Length
    modifies b
    ensures n == |EncodeRune(x)| && Wrote(b, dst, dst + n, dst + n, EncodeRune(x))
  {
    var r := EncodeRune(x);
    n := |r|;
    forall i | 0 <= i < n { b[dst + i] := r[i]; }
    assert b[dst..dst+n] == r;
  }

  /** encodeRune where the reference read, up to `src1`, is no shorter than what is written for it. */
  method replace(b: array<byte>, dst: nat, src1: nat, x: int) returns (dst1: nat)
    requires dst + |EncodeRune(x)| <= src1 <= b.Length
    modifies b
    ensures dst1 == dst + |EncodeRune(x)| && Wrote(b, dst, dst1, src1, EncodeRune(x))
  {
    hide EncodeRune;
    ghost var s0 := b[..];
    var n := encodeRune(b, dst, x);
    dst1 := dst + n;
    DropDrop(b[..], dst1, src1);
    DropDrop(s0, dst1, src1);
  }

  /** The digits of a numeric reference. */
  method scanNumber(b: array<byte>, src: nat, i0: nat, hex: bool) returns (i: nat, x: int)
    requires src + i0 <= b.Length
    ensures (i, x) == ScanNumber(b[src..], i0, hex, 0)
  {
    ghost var s := b[src..];
    i, x := i0, 0;
    while src + i < b.Length
      invariant src + i <= b.Length && ScanNumber(s, i, hex, x) == ScanNumber(s, i0, hex, 0)
    {
      var c := b[src + i];
      assert s[i] == c;
      i := i + 1;
      if hex {
        if 48 <= c <= 57 {
          x := Wrap32(16 * x + (c - 48));
          continue;
        } else if 97 <= c <= 102 {
          x := Wrap32(16 * x + (c - 97 + 10));
          continue;
        } else if 65 <= c <= 70 {
          x := Wrap32(16 * x + (c - 65 + 10));
          continue;
        }
      } else if 48 <= c <= 57 {
        x := Wrap32(10 * x + (c - 48));
        continue;
      }
      if c != SEMICOLON { i := i - 1; }
      return;
    }
  }

  method scanName(b: array<byte>, src: nat) returns (i: nat)
    requires src + 1 <= b.Length
    ensures i == ScanName(b[src..], 1)
  {
    ghost var s := b[src..];
    i := 1;
    while src + i < b.Length
      invariant 1 <= i && src + i <= b.Length && ScanName(s, i) == ScanName(s, 1)
    {
      var c := b[src + i];
      assert s[i] == c;
      i := i + 1;
      if Alphanumeric(c) { continue; }
      if c != SEMICOLON { i := i - 1; }
      return;
    }
  }

  method longestPrefix(t: Tables, name: bytes) returns (j: nat)
    requires name != []
    ensures j == LongestPrefix(t, name, MaxLen(name))
  {
    var k := MaxLen(name);
    while k > 1
      invariant k <= MaxLen(name) && LongestPrefix(t, name, MaxLen(name)) == LongestPrefix(t, name, k)
    {
      if One(t, name[..k]) != 0 { return k; }
      k := k - 1;
    }
    return 0;
  }

  /** unescapeEntity: the reference at `src` is read, and what it stands for written at `dst`. */
  method unescapeEntity(b: array<byte>, dst: nat, src: nat, t: Tables) returns (dst1: nat, src1: nat)
    requires TablesOK(t) && dst <= src < b.Length && b[src] == AMP
    modifies b
    ensures var ref := Reference(t, old(b[src..]));
      && src1 == src + ref.used && dst1 == dst + |ref.out| && dst1 <= src1 <= b.Length
      && Wrote(b, dst, dst1, src1, ref.out)
  {
    hide TablesOK, ScanNumber, ScanName, EncodeRune, FixRune, LongestPrefix;
    ghost var s := b[src..];
    ReferenceShrinks(t, s);
    if b.Length - src <= 1 {
      dst1, src1 := keep(b, dst, src);
      return;
    }
    assert s[1] == b[src + 1];
    if b[src + 1] == HASH {
      dst1, src1 := unescapeNumber(b, dst, src);
    } else {
      dst1, src1 := unescapeName(b, dst, src, t);
    }
  }

  /** b[dst] = b[src] */
  method keep(b: array<byte>, dst: nat, src: nat) returns (dst1: nat, src1: nat)
    requires dst <= src < b.Length && b[src] == AMP
    modifies b
    ensures dst1 == dst + 1 && src1 == src + 1 && Wrote(b, dst, dst1, src1, [AMP])
  {
    b[dst] := b[src];
    return dst + 1, src + 1;
  }

  method unescapeNumber(b: array<byte>, dst: nat, src: nat) returns (dst1: nat, src1: nat)
    requires dst <= src && src + 1 < b.Length && b[src] == AMP && b[src+1] == HASH
    requires |NumericRef(b[src..]).out| <= NumericRef(b[src..]).used
    modifies b
    ensures var ref := NumericRef(old(b[src..]));
      && src1 == src + ref.used && dst1 == dst + |ref.out| && dst1 <= src1 <= b.Length
      && Wrote(b, dst, dst1, src1, ref.out)
  {
    hide ScanNumber, EncodeRune, FixRune;
    ghost var s := b[src..];
    if b.Length - src <= 3 {
      dst1, src1 := keep(b, dst, src);
      return;
    }
    var c := b[src + 2];
    assert s[2] == c;
    var hex := false;
    var i := 2;
    if c == 120 || c == 88 {
      hex := true;
      i := i + 1;
    }
    var x;
    i, x := scanNumber(b, src, i, hex);
    if i <= 3 {
      dst1, src1 := keep(b, dst, src);
      return;
    }
    x := FixRune(x);
    dst1 := replace(b, dst, src + i, x);
    src1 := src + i;
  }

  method unescapeName(b: array<byte>, dst: nat, src: nat, t: Tables) returns (dst1: nat, src1: nat)
    requires dst <= src && src + 1 < b.Length && b[src] == AMP
    requires |NamedRef(t, b[src..]).out| <= NamedRef(t, b[src..]).used
    modifies b
    ensures var ref := NamedRef(t, old(b[src..]));
      && src1 == src + ref.used && dst1 == dst + |ref.out| && dst1 <= src1 <= b.Length
      && Wrote(b, dst, dst1, src1, ref.out)
  {
    hide ScanName, EncodeRune, LongestPrefix, One, Two;
    ghost var s := b[src..];
    var i := scanName(b, src);
    var entityName := b[src+1..src+i];
    assert entityName == s[1..i];
    if |entityName| == 0 {
    } else if One(t, entityName) != 0 {
      dst1 := replace(b, dst, src + i, One(t, entityName));
      return dst1, src + i;
    } else if Two(t, entityName).0 != 0 {
      dst1 := replaceTwo(b, dst, src + i, Two(t, entityName));
      return dst1, src + i;
    } else {
      var j := longestPrefix(t, entityName);
      if j != 0 {
        dst1 := replace(b, dst, src + j + 1, One(t, entityName[..j]));
        return dst1, src + j + 1;
      }
    }
    dst1, src1 := copyDown(b, dst, src, i);
  }

  /** Two runes one after the other. */
  method encodeTwo(b: array<byte>, dst: nat, xs: (int, int)) returns (n: nat)
    requires dst + |EncodeRune(xs.0)| + |EncodeRune(xs.1)| <= b.Length
    modifies b
    ensures n == |EncodeRune(xs.0)| + |EncodeRune(xs.1)|
    ensures Wrote(b, dst, dst + n, dst + n, EncodeRune(xs.0) + EncodeRune(xs.1))
  {
    hide EncodeRune;
    ghost var s0 := b[..];
    var k := encodeRune(b, dst, xs.0);
    ghost var s1 := b[..];
    var m := encodeRune(b, dst + k, xs.1);
    n := k + m;
    WroteTwice(s0, s1, b[..], dst, k, m, EncodeRune(xs.0), EncodeRune(xs.1));
  }

  lemma WroteTwice(s0: bytes, s1: bytes, s2: bytes, dst: nat, k: nat, m: nat, x: bytes, y: bytes)
    requires |s0| == |s1| == |s2| && dst + k + m <= |s0|
    requires s1[dst..dst+k] == x && s1[..dst] == s0[..dst] && s1[dst+k..] == s0[dst+k..]
    requires s2[dst+k..dst+k+m] == y && s2[..dst+k] == s1[..dst+k] && s2[dst+k+m..] == s1[dst+k+m..]
    ensures s2[dst..dst+k+m] == x + y && s2[..dst] == s0[..dst] && s2[dst+k+m..] == s0[dst+k+m..]
  {
    assert s2[dst..dst+k+m] == s2[..dst+k][dst..] + s2[dst+k..dst+k+m];
    assert s2[..dst] == s2[..dst+k][..dst];
    DropDrop(s1, dst + k, dst + k + m);
    DropDrop(s0, dst + k, dst + k + m);
  }

  lemma DropDrop(s: bytes, i: nat, j: nat)
    requires i <= j <= |s|
    ensures s[i..][j - i..] == s[j..]
  {
  }

  method replaceTwo(b: array<byte>, dst: nat, src1: nat, xs: (int, int)) returns (dst1: nat)
    requires dst + |EncodeRune(xs.0)| + |EncodeRune(xs.1)| <= src1 <= b.Length
    modifies b
    ensures dst1 == dst + |EncodeRune(xs.0)| + |EncodeRune(xs.1)|
    ensures Wrote(b, dst, dst1, src1, EncodeRune(xs.0) + EncodeRune(xs.1))
  {
    hide EncodeRune;
    ghost var s0 := b[..];
    var n := encodeTwo(b, dst, xs);
    dst1 := dst + n;
    DropDrop(b[..], dst1, src1);
    DropDrop(s0, dst1, src1);
  }

  /** copy(b[dst:dst+n], b[src:src+n]) */
  method copyDown(b: array<byte>, dst: nat, src: nat, n: nat) returns (dst1: nat, src1: nat)
    requires dst <= src && src + n <= b.Length
    modifies b
    ensures dst1 == dst + n && src1 == src + n && Wrote(b, dst, dst1, src1, old(b[src..])[..n])
  {
    dst1, src1 := dst + n, src + n;
    ghost var s := b[src..];
    assert b[src..src1] == s[..n];
    forall k | 0 <= k < n { b[dst + k] := b[src + k]; }
    assert b[dst..dst1] == s[..n];
  }

  // ---------------------------------------------------------------- UnescapeString

  lemma {:induction false} UnescapedPlain(t: Tables, pre: bytes, rest: bytes)
    requires AMP !in pre
    ensures Unescaped(t, pre + rest) == pre + Unescaped(t, rest)
    decreases |pre|
  {
    hide Unescaped, Reference;
    var u := Unescaped(t, rest);
    if pre == [] {
      assert pre + rest == rest && pre + u == u;
    } else {
      UnescapedPlain(t, pre[1..], rest);
      UnescapedByte(t, pre[0], pre[1..] + rest);
      assert pre + rest == [pre[0]] + (pre[1..] + rest) && pre + u == [pre[0]] + (pre[1..] + u);
    }
  }

  lemma UnescapedByte(t: Tables, c: byte, s: bytes)
    requires c != AMP
    ensures Unescaped(t, [c] + s) == [c] + Unescaped(t, s)
  {
    hide Reference;
    assert ([c] + s)[1..] == s;
  }

  /** Plain text is copied up to the next reference, and that is replaced. */
  lemma UnescapedStep(t: Tables, s: bytes, i: nat)
    requires i < |s| && AMP !in s[..i] && s[i] == AMP
    ensures var ref := Reference(t, s[i..]); Unescaped(t, s) == s[..i] + ref.out + Unescaped(t, s[i + ref.used..])
  {
    UnescapedPlain(t, s[..i], s[i..]);
    assert s == s[..i] + s[i..];
    assert s[i..][Reference(t, s[i..]).used..] == s[i + Reference(t, s[i..]).used..];
  }

  /** One turn of the loop: the plain text before the reference at `src` + `i`, and the reference. */
  method turn(b: array<byte>, dst: nat, src: nat, i: nat, t: Tables, ghost s: bytes) returns (dst1: nat, src1: nat)
    requires TablesOK(t) && dst <= src && src + i < b.Length && b[src..] == s && AMP !in s[..i] && s[i] == AMP
    modifies b
    ensures dst1 <= src1 <= b.Length && src < src1 && b[src1..] == s[src1 - src..]
    ensures b[..dst1] + Unescaped(t, b[src1..]) == old(b[..dst]) + Unescaped(t, s)
  {
    hide TablesOK, Reference, Unescaped;
    ghost var b0 := b[..];
    var d, r := copyDown(b, dst, src, i);
    ghost var b1 := b[..];
    DropDrop(b0, src, r);
    assert b1[r..] == b0[r..] == s[i..];
    UnescapedStep(t, s, i);
    dst1, src1 := unescapeEntity(b, d, r, t);
    ghost var ref := Reference(t, s[i..]);
    Turned(b0, b1, b[..], dst, d, r, dst1, src1, s, i, ref);
    ghost var rest := Unescaped(t, s[i + ref.used..]);
    JoinFour(b0[..dst], s[..i], ref.out, rest);
  }

  lemma JoinFour(a: bytes, b: bytes, c: bytes, d: bytes)
    ensures a + b + c + d == a + (b + c + d)
  {
  }

  lemma Turned(b0: bytes, b1: bytes, b2: bytes, dst: nat, d: nat, r: nat, dst1: nat, src1: nat, s: bytes, i: nat,
          ref: Ref)
    requires |b0| == |b1| == |b2| && dst <= d <= dst1 <= src1 <= |b0| && d <= r && src1 == r + ref.used
    requires i <= |s| && b1[..dst] == b0[..dst] && b1[dst..d] == s[..i] && b1[r..] == s[i..]
    requires b2[..d] == b1[..d] && b2[d..dst1] == ref.out && b2[src1..] == b1[src1..]
    ensures i + ref.used <= |s| && b2[..dst1] == b0[..dst] + s[..i] + ref.out && b2[src1..] == s[i + ref.used..]
  {
    TakeParts(b2, d, dst1);
    TakeParts(b1, dst, d);
    DropDrop(b1, r, src1);
    DropDrop(s, i, i + ref.used);
  }

  lemma TakeParts(s: bytes, i: nat, j: nat)
    requires i <= j <= |s|
    ensures s[..j] == s[..i] + s[i..j]
  {
  }

  method UnescapeString(s: bytes, t: Tables) returns (r: bytes)
    requires TablesOK(t)
    ensures r == Unescaped(t, s)
  {
    hide TablesOK, Reference, Unescaped;
    var i := IndexByte(s, AMP);
    if i < 0 {
      NoReference(t, s);
      return s;
    }
    var b := new byte[|s|];
    forall k | 0 <= k < |s| { b[k] := s[k]; }
    assert b[..] == s && b[0..] == s && b[..0] == [];
    var dst: nat, src: nat := turn(b, 0, 0, i, t, s);
    while src < |s|
      invariant dst <= src <= |s| == b.Length && b[src..] == s[src..]
      invariant b[..dst] + Unescaped(t, s[src..]) == Unescaped(t, s)
    {
      ghost var rest := s[src..];
      if s[src] == AMP {
        i := 0;
      } else {
        i := IndexByte(s[src..], AMP);
      }
      if i < 0 {
        NoReference(t, rest);
        dst := copyRest(b, dst, src, rest);
        return b[..dst];
      }
      dst, src := turn(b, dst, src, i, t, rest);
      assert b[src..] == s[src..];
    }
    assert s[src..] == [];
    NoReference(t, []);
    r := b[..dst];
  }

  /** dst += copy(b[dst:], s[src:]) */
  method copyRest(b: array<byte>, dst: nat, src: nat, ghost rest: bytes) returns (end: nat)
    requires dst <= src <= b.Length && b[src..] == rest
    modifies b
    ensures end == dst + |rest| <= b.Length && b[..end] == old(b[..dst]) + rest
  {
    ghost var done := b[..dst];
    var s;
    end, s := copyDown(b, dst, src, b.Length - src);
    assert b[..end] == done + rest;
  }

  lemma NoReference(t: Tables, s: bytes)
    requires AMP !in s
    ensures Unescaped(t, s) == s
  {
    UnescapedPlain(t, s, []);
    assert s + [] == s;
  }

  /** What EscapeString wrote, UnescapeString reads back. */
  method escapeAndBack(s: bytes, t: Tables) returns (r: bytes)
    requires TablesOK(t)
    ensures r == s
  {
    RoundTrip(t, s);
    r := UnescapeString(EscapeString(s), t);
  }
}
