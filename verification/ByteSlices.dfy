/** Splitting, joining and replacing byte slices (go/src/bytes/bytes.go), for separators that are not empty. */
module ByteSlices {
  import opened Bytes

  const MAX_INT := 0x7fff_ffff_ffff_ffff

  predicate At(s: bytes, sep: bytes, i: int) { 0 <= i <= |s| - |sep| && s[i..i+|sep|] == sep }

  /** Index: the first instance of `sep`, or -1. */
  function Index(s: bytes, sep: bytes): (i: int)
    ensures -1 <= i && (i >= 0 ==> i + |sep| <= |s|)
  {
    if At(s, sep, 0) then 0
    else if s == [] then -1
    else
      var i := Index(s[1..], sep);
      if i < 0 then -1 else i + 1
  }

  lemma AtTail(s: bytes, sep: bytes, j: int)
    requires s != [] && j >= 1
    ensures At(s, sep, j) <==> At(s[1..], sep, j - 1)
  {
    if |sep| <= |s| - j { assert s[1..][j-1..j-1+|sep|] == s[j..j+|sep|]; }
  }

  lemma {:induction false} IndexIsFirst(s: bytes, sep: bytes)
    ensures var i := Index(s, sep);
      && (i >= 0 ==> At(s, sep, i) && forall j :: 0 <= j < i ==> !At(s, sep, j))
      && (i < 0 ==> forall j :: !At(s, sep, j))
  {
    if !At(s, sep, 0) && s != [] {
      IndexIsFirst(s[1..], sep);
      forall j | j >= 1 ensures At(s, sep, j) <==> At(s[1..], sep, j - 1) { AtTail(s, sep, j); }
    }
  }

  /** Count */
  function Count(s: bytes, sep: bytes): (n: nat)
    requires sep != []
    ensures n <= |s|
    decreases |s|
  {
    var i := Index(s, sep);
    if i < 0 then 0 else 1 + Count(s[i+|sep|..], sep)
  }

  /** At most `n` pieces, each with the first `save` bytes of the separator behind it. */
  function SplitN(s: bytes, sep: bytes, save: nat, n: nat): (r: seq<bytes>)
    requires sep != [] && save <= |sep| && n >= 1
    ensures 1 <= |r| <= n
    decreases |s|
  {
    var m := Index(s, sep);
    if n == 1 || m < 0 then [s] else [s[..m+save]] + SplitN(s[m+|sep|..], sep, save, n - 1)
  }

  /** All pieces. */
  function SplitAll(s: bytes, sep: bytes, save: nat): (r: seq<bytes>)
    requires sep != [] && save <= |sep|
    ensures |r| >= 1
    decreases |s|
  {
    var m := Index(s, sep);
    if m < 0 then [s] else [s[..m+save]] + SplitAll(s[m+|sep|..], sep, save)
  }

  function Joined(parts: seq<bytes>, sep: bytes): bytes {
    if parts == [] then [] else if |parts| == 1 then parts[0] else parts[0] + sep + Joined(parts[1..], sep)
  }

  function Concat(parts: seq<bytes>): bytes { if parts == [] then [] else parts[0] + Concat(parts[1..]) }

  // ---------------------------------------------------------------- laws

  lemma {:induction false} EnoughIsAll(s: bytes, sep: bytes, save: nat, n: nat)
    requires sep != [] && save <= |sep| && n > Count(s, sep)
    ensures SplitN(s, sep, save, n) == SplitAll(s, sep, save) && |SplitAll(s, sep, save)| == Count(s, sep) + 1
    decreases |s|
  {
    hide Index;
    var m := Index(s, sep);
    if m >= 0 { EnoughIsAll(s[m+|sep|..], sep, save, n - 1); }
  }

  lemma AroundFirst(s: bytes, sep: bytes)
    requires Index(s, sep) >= 0
    ensures var m := Index(s, sep); s == s[..m] + sep + s[m+|sep|..]
  {
    hide Index;
    IndexIsFirst(s, sep);
    var m := Index(s, sep);
    assert s == s[..m] + s[m..m+|sep|] + s[m+|sep|..];
  }

  /** Joining the pieces gives back the whole, however many pieces there are. */
  lemma {:induction false} JoinSplit(s: bytes, sep: bytes, n: nat)
    requires sep != [] && n >= 1
    ensures Joined(SplitN(s, sep, 0, n), sep) == s
    decreases |s|
  {
    hide Index;
    var m := Index(s, sep);
    if n > 1 && m >= 0 {
      var rest := s[m+|sep|..];
      JoinSplit(rest, sep, n - 1);
      assert SplitN(s, sep, 0, n)[1..] == SplitN(rest, sep, 0, n - 1);
      AroundFirst(s, sep);
    }
  }

  /** Pieces that keep their separators join by themselves. */
  lemma {:induction false} ConcatSplitAfter(s: bytes, sep: bytes, n: nat)
    requires sep != [] && n >= 1
    ensures Concat(SplitN(s, sep, |sep|, n)) == s
    decreases |s|
  {
    hide Index;
    var m := Index(s, sep);
    if n > 1 && m >= 0 {
      var rest := s[m+|sep|..];
      ConcatSplitAfter(rest, sep, n - 1);
      assert SplitN(s, sep, |sep|, n)[1..] == SplitN(rest, sep, |sep|, n - 1);
      assert s == s[..m+|sep|] + rest;
    }
  }

  lemma NotBefore(s: bytes, sep: bytes)
    requires sep != [] && Index(s, sep) >= 0
    ensures Index(s[..Index(s, sep)], sep) < 0
  {
    var m := Index(s, sep);
    var i := Index(s[..m], sep);
    IndexIsFirst(s, sep);
    IndexIsFirst(s[..m], sep);
    if i >= 0 { WithinPrefix(s, m, i, i + |sep|); }
    assert i >= 0 ==> At(s, sep, i);
  }

  lemma WithinPrefix(s: bytes, m: nat, i: nat, j: nat)
    requires i <= j <= m <= |s|
    ensures s[..m][i..j] == s[i..j]
  {
  }

  /** No piece contains the separator. */
  lemma {:induction false} PiecesClean(s: bytes, sep: bytes)
    requires sep != []
    ensures forall k :: 0 <= k < |SplitAll(s, sep, 0)| ==> Index(SplitAll(s, sep, 0)[k], sep) < 0
    decreases |s|
  {
    hide Index;
    var m := Index(s, sep);
    if m >= 0 {
      NotBefore(s, sep);
      PiecesClean(s[m+|sep|..], sep);
    }
  }

  /** One piece more than there are instances, but no more than `n`. */
  lemma {:induction false} PieceCount(s: bytes, sep: bytes, save: nat, n: nat)
    requires sep != [] && save <= |sep| && n >= 1
    ensures |SplitN(s, sep, save, n)| == if n <= Count(s, sep) then n else Count(s, sep) + 1
    decreases |s|
  {
    hide Index;
    var m := Index(s, sep);
    if n > 1 && m >= 0 { PieceCount(s[m+|sep|..], sep, save, n - 1); }
  }

  /** `piece` is what comes before the separator at its first instance, with the first `save` bytes of it. */
  predicate UpTo(piece: bytes, sep: bytes, save: nat)
    requires save <= |sep|
  {
    |piece| >= save && var x := piece[..|piece| - save];
    piece == x + sep[..save] && Index(x + sep, sep) == |x|
  }

  /** The first instance is the one with none before it. */
  lemma FirstIs(s: bytes, sep: bytes, m: nat)
    requires At(s, sep, m) && forall j :: 0 <= j < m ==> !At(s, sep, j)
    ensures Index(s, sep) == m
  {
    IndexIsFirst(s, sep);
  }

  lemma FirstPiece(s: bytes, sep: bytes, save: nat)
    requires sep != [] && save <= |sep| && Index(s, sep) >= 0
    ensures UpTo(s[..Index(s, sep) + save], sep, save)
  {
    hide Index;
    var m := Index(s, sep);
    IndexIsFirst(s, sep);
    var x := s[..m];
    assert s[..m + |sep|] == x + s[m..m + |sep|];
    assert x + sep == s[..m + |sep|] && s[..m + save] == x + sep[..save];
    forall j | 0 <= j <= m ensures At(x + sep, sep, j) <==> At(s, sep, j) { WithinPrefix(s, m + |sep|, j, j + |sep|); }
    FirstIs(x + sep, sep, m);
    assert s[..m + save][..m] == x;
  }

  /**
    All pieces but the last reach to the separator at its first instance; the last has none, unless it is the `n`th.
   */
  lemma {:induction false} PiecesReach(s: bytes, sep: bytes, save: nat, n: nat)
    requires sep != [] && save <= |sep| && n >= 1
    ensures var r := SplitN(s, sep, save, n);
      && (forall k :: 0 <= k < |r| - 1 ==> UpTo(r[k], sep, save))
      && (|r| < n ==> Index(r[|r|-1], sep) < 0)
    decreases |s|
  {
    hide Index, UpTo;
    var m := Index(s, sep);
    if n > 1 && m >= 0 {
      FirstPiece(s, sep, save);
      PiecesReach(s[m+|sep|..], sep, save, n - 1);
    }
  }

  // ---------------------------------------------------------------- the programs

  method count(s0: bytes, sep: bytes) returns (n: nat)
    requires sep != []
    ensures n == Count(s0, sep)
  {
    hide Index;
    var s := s0;
    n := 0;
    while true
      invariant n + Count(s, sep) == Count(s0, sep)
      decreases |s|
    {
      var i := Index(s, sep);
      if i == -1 { return; }
      n := n + 1;
      s := s[i+|sep|..];
    }
  }

  /** genSplit */
  method genSplit(s0: bytes, sep: bytes, sepSave: nat, n0: int) returns (r: seq<bytes>)
    requires sep != [] && sepSave <= |sep|
    ensures n0 == 0 ==> r == []
    ensures n0 > 0 ==> r == SplitN(s0, sep, sepSave, n0)
    ensures n0 < 0 ==> r == SplitAll(s0, sep, sepSave)
  {
    var n := n0;
    if n == 0 { return []; }
    if n < 0 {
      n := count(s0, sep);
      n := n + 1;
    }
    if n > |s0| + 1 { n := |s0| + 1; }
    if n != n0 {
      EnoughIsAll(s0, sep, sepSave, n);
      if n0 > 0 { EnoughIsAll(s0, sep, sepSave, n0); }
    }
    r := cut(s0, sep, sepSave, n);
  }

  lemma NextPiece(s: bytes, sep: bytes, save: nat, n: nat)
    requires sep != [] && save <= |sep| && n > 1 && Index(s, sep) >= 0
    ensures var m := Index(s, sep); SplitN(s, sep, save, n) == [s[..m+save]] + SplitN(s[m+|sep|..], sep, save, n - 1)
  {
  }

  lemma LastPiece(s: bytes, sep: bytes, save: nat, n: nat)
    requires sep != [] && save <= |sep| && n >= 1 && (n == 1 || Index(s, sep) < 0)
    ensures SplitN(s, sep, save, n) == [s]
  {
  }

  /** The loop of genSplit, with `n` places for pieces. */
  method cut(s0: bytes, sep: bytes, sepSave: nat, n0: nat) returns (r: seq<bytes>)
    requires sep != [] && sepSave <= |sep| && n0 >= 1
    ensures r == SplitN(s0, sep, sepSave, n0)
  {
    hide Index, SplitN;
    var a := new bytes[n0];
    ghost var all := SplitN(s0, sep, sepSave, n0);
    var n := n0 - 1;
    var s, i := s0, 0;
    while i < n
      invariant 0 <= i <= n && a[..i] + SplitN(s, sep, sepSave, n0 - i) == all
    {
      var m := Index(s, sep);
      if m < 0 { break; }
      ghost var done := a[..i];
      NextPiece(s, sep, sepSave, n0 - i);
      a[i] := s[..m+sepSave];
      s := s[m+|sep|..];
      assert a[..i+1] == done + [a[i]];
      i := i + 1;
    }
    LastPiece(s, sep, sepSave, n0 - i);
    ghost var done := a[..i];
    a[i] := s;
    assert a[..i+1] == done + [s];
    return a[..i+1];
  }

  // ---------------------------------------------------------------- Join

  /** Where Join panics: an estimate for the separators, then the sum, would pass the largest int. */
  predicate Overflows(parts: seq<bytes>, sep: bytes) {
    |parts| > 1 && ((|sep| > 0 && |sep| >= MAX_INT / (|parts| - 1)) || |Joined(parts, sep)| > MAX_INT)
  }

  function Sum(parts: seq<bytes>): nat { if parts == [] then 0 else Sum(parts[..|parts|-1]) + |parts[|parts|-1]| }

  lemma {:induction false} JoinedMore(parts: seq<bytes>, x: bytes, sep: bytes)
    requires parts != []
    ensures Joined(parts + [x], sep) == Joined(parts, sep) + sep + x
    decreases |parts|
  {
    if |parts| == 1 {
      assert (parts + [x])[1..] == [x];
    } else {
      assert (parts + [x])[1..] == parts[1..] + [x];
      JoinedMore(parts[1..], x, sep);
    }
  }

  lemma {:induction false} JoinedLength(parts: seq<bytes>, sep: bytes)
    requires parts != []
    ensures |Joined(parts, sep)| == Sum(parts) + |sep| * (|parts| - 1)
    decreases |parts|
  {
    if |parts| > 1 {
      var front := parts[..|parts|-1];
      JoinedLength(front, sep);
      JoinedMore(front, parts[|parts|-1], sep);
      assert parts == front + [parts[|parts|-1]];
    }
  }

  /** copy(b[bp:], p) */
  method write(b: array<byte>, bp: nat, p: bytes) returns (n: nat)
    requires bp + |p| <= b.Length
    modifies b
    ensures n == bp + |p| && b[..n] == old(b[..bp]) + p
  {
    ghost var done := b[..bp];
    forall k | 0 <= k < |p| { b[bp + k] := p[k]; }
    n := bp + |p|;
    assert b[..n] == done + p;
  }

  /** Join; false where it panics. */
  method Join(s: seq<bytes>, sep: bytes) returns (r: bytes, ok: bool)
    ensures ok <==> !Overflows(s, sep)
    ensures ok ==> r == Joined(s, sep)
  {
    if |s| == 0 { return [], true; }
    if |s| == 1 { return s[0], true; }
    JoinedLength(s, sep);
    var n := 0;
    if |sep| > 0 {
      if |sep| >= MAX_INT / (|s| - 1) { return [], false; }
      n := |sep| * (|s| - 1);
    }
    ghost var base := n;
    var i := 0;
    while i < |s|
      invariant 0 <= i <= |s| && n == base + Sum(s[..i]) && (i > 0 ==> n <= MAX_INT)
    {
      SumGrows(s, i);
      if |s[i]| > MAX_INT - n { return [], false; }
      n := n + |s[i]|;
      i := i + 1;
    }
    assert s[..i] == s;
    r := joinInto(s, sep, n);
    ok := true;
  }

  lemma {:induction false} SumGrows(s: seq<bytes>, i: nat)
    requires i < |s|
    ensures Sum(s[..i+1]) == Sum(s[..i]) + |s[i]| && Sum(s[..i+1]) <= Sum(s)
    decreases |s|
  {
    assert s[..i+1][..i] == s[..i];
    if i + 1 < |s| {
      SumGrows(s[..|s|-1], i);
      assert s[..|s|-1][..i+1] == s[..i+1];
    } else {
      assert s[..i+1] == s;
    }
  }

  method joinInto(s: seq<bytes>, sep: bytes, n: nat) returns (r: bytes)
    requires |s| > 1 && n == |Joined(s, sep)|
    ensures r == Joined(s, sep)
  {
    var b := new byte[n];
    JoinedPrefix(s, sep, 1);
    assert s[..1] == [s[0]];
    var bp: nat := write(b, 0, s[0]);
    var i := 1;
    while i < |s|
      invariant 1 <= i <= |s| && bp <= n && b[..bp] == Joined(s[..i], sep)
    {
      JoinedPrefix(s, sep, i + 1);
      assert s[..i+1] == s[..i] + [s[i]];
      JoinedMore(s[..i], s[i], sep);
      bp := write(b, bp, sep);
      bp := write(b, bp, s[i]);
      i := i + 1;
    }
    assert s[..i] == s && |b[..bp]| == n;
    r := b[..];
  }

  lemma {:induction false} JoinedPrefix(s: seq<bytes>, sep: bytes, i: nat)
    requires 1 <= i <= |s|
    ensures |Joined(s[..i], sep)| <= |Joined(s, sep)|
    decreases |s|
  {
    if i == |s| {
      assert s[..i] == s;
    } else {
      var front := s[..|s|-1];
      JoinedPrefix(front, sep, i);
      assert front[..i] == s[..i] && s == front + [s[|s|-1]];
      JoinedMore(front, s[|s|-1], sep);
    }
  }

  // ---------------------------------------------------------------- Replace

  /** Replacing in all but the last of `n` + 1 pieces. */
  lemma {:induction false} JoinedAround(s: bytes, sep: bytes, new_: bytes, n: nat)
    requires sep != [] && n >= 1 && Index(s, sep) >= 0
    ensures var m := Index(s, sep);
      Joined(SplitN(s, sep, 0, n + 1), new_) == s[..m] + new_ + Joined(SplitN(s[m+|sep|..], sep, 0, n), new_)
  {
    hide Index;
    var m := Index(s, sep);
    var rest := SplitN(s[m+|sep|..], sep, 0, n);
    assert SplitN(s, sep, 0, n + 1) == [s[..m]] + rest;
    assert ([s[..m]] + rest)[1..] == rest;
  }

  /** The length that Replace computes beforehand. */
  lemma {:induction false} ReplacedLength(s: bytes, sep: bytes, new_: bytes, n: nat)
    requires sep != [] && n <= Count(s, sep)
    ensures |Joined(SplitN(s, sep, 0, n + 1), new_)| == |s| + n * (|new_| - |sep|)
    decreases n
  {
    hide Index, SplitN, Joined, Count;
    if n == 0 {
      Last(s, sep, new_);
    } else {
      var m, d := Index(s, sep), |new_| - |sep|;
      Found(s, sep);
      ReplacedLength(s[m+|sep|..], sep, new_, n - 1);
      JoinedAround(s, sep, new_, n);
      assert n * d == (n - 1) * d + d;
    }
  }

  /** Replace, where `old` is not empty: the first `n` instances, or all. */
  method Replace(s: bytes, old_: bytes, new_: bytes, n0: int) returns (r: bytes)
    requires old_ != []
    ensures n0 >= 0 ==> r == Joined(SplitN(s, old_, 0, n0 + 1), new_)
    ensures n0 < 0 ==> r == Joined(SplitAll(s, old_, 0), new_)
  {
    var n, m := n0, 0;
    if n != 0 { m := count(s, old_); }
    if m == 0 {
      if n != 0 { EnoughIsAll(s, old_, 0, if n > 0 then n + 1 else 1); }
      NoneLeft(s, old_);
      return s;
    }
    if n < 0 || m < n { n := m; }
    if n == m {
      EnoughIsAll(s, old_, 0, m + 1);
      if n0 > 0 { EnoughIsAll(s, old_, 0, n0 + 1); }
    }
    r := replaceFirst(s, old_, new_, n);
  }

  lemma NoneLeft(s: bytes, sep: bytes)
    requires sep != []
    ensures Count(s, sep) == 0 ==> SplitAll(s, sep, 0) == [s]
    ensures SplitN(s, sep, 0, 1) == [s]
  {
    hide Index;
  }

  /** The replacement loop, into a buffer of exactly the length needed. */
  method replaceFirst(s: bytes, old_: bytes, new_: bytes, n: nat) returns (r: bytes)
    requires old_ != [] && 0 < n <= Count(s, old_)
    ensures r == Joined(SplitN(s, old_, 0, n + 1), new_)
  {
    hide Index, SplitN, Joined;
    ReplacedLength(s, old_, new_, n);
    var t := new byte[|s| + n * (|new_| - |old_|)];
    var w: nat, start: nat, k: nat := 0, 0, 0;
    ghost var whole := Joined(SplitN(s, old_, 0, n + 1), new_);
    assert s[start..] == s && t[..w] + whole == whole;
    while k < n
      invariant k <= n && start <= |s| && w <= t.Length && n - k <= Count(s[start..], old_) && |whole| == t.Length
      invariant t[..w] + Joined(SplitN(s[start..], old_, 0, n - k + 1), new_) == whole
    {
      w, start := replaceNext(t, w, s, start, old_, new_, n - k);
      k := k + 1;
    }
    Last(s[start..], old_, new_);
    w := write(t, w, s[start..]);
    assert |t[..w]| == t.Length;
    return t[..w];
  }

  /** One turn of that loop: what is before the next instance, and its replacement. */
  method replaceNext(t: array<byte>, w0: nat, s: bytes, start0: nat, old_: bytes, new_: bytes, ghost n: nat)
    returns (w: nat, start: nat)
    requires old_ != [] && start0 <= |s| && 0 < n <= Count(s[start0..], old_) && w0 <= t.Length
    requires w0 + |Joined(SplitN(s[start0..], old_, 0, n + 1), new_)| <= t.Length
    modifies t
    ensures w <= t.Length && start <= |s| && n - 1 <= Count(s[start..], old_)
    ensures t[..w] + Joined(SplitN(s[start..], old_, 0, n), new_) ==
      old(t[..w0]) + Joined(SplitN(s[start0..], old_, 0, n + 1), new_)
  {
    hide Index, SplitN, Joined, Count;
    NextInstance(s, start0, old_, new_, n);
    ghost var before := t[..w0];
    var j := start0 + Index(s[start0..], old_);
    w := write(t, w0, s[start0..j]);
    w := write(t, w, new_);
    start := j + |old_|;
    assert t[..w] == before + s[start0..j] + new_;
  }

  /** Up to the next instance, its replacement, and the rest. */
  lemma NextInstance(s: bytes, start: nat, old_: bytes, new_: bytes, n: nat)
    requires old_ != [] && start <= |s| && 0 < n <= Count(s[start..], old_)
    ensures var j := start + Index(s[start..], old_);
      && start <= j && j + |old_| <= |s| && n - 1 <= Count(s[j+|old_|..], old_)
      && Joined(SplitN(s[start..], old_, 0, n + 1), new_) ==
           s[start..j] + new_ + Joined(SplitN(s[j+|old_|..], old_, 0, n), new_)
  {
    hide Index, SplitN, Joined, Count;
    var rest := s[start..];
    var j := start + Index(rest, old_);
    Found(rest, old_);
    JoinedAround(rest, old_, new_, n);
    assert rest[..j - start] == s[start..j] && rest[j - start + |old_|..] == s[j+|old_|..];
  }

  lemma Found(s: bytes, sep: bytes)
    requires sep != [] && Count(s, sep) > 0
    ensures Index(s, sep) >= 0 && Count(s[Index(s, sep) + |sep|..], sep) == Count(s, sep) - 1
  {
    hide Index;
  }

  lemma Last(s: bytes, sep: bytes, new_: bytes)
    requires sep != []
    ensures Joined(SplitN(s, sep, 0, 1), new_) == s
  {
  }
}
