/**
  Escaping and unescaping of HTML text (go/src/html/escape.go). Numeric references follow section 13.2.5.80
  of the WHATWG HTML standard, runes are written as in section 3 of RFC 3629.
 */
module Html {
  import opened Bytes

  const AMP: byte := 38
  const HASH: byte := 35
  const SEMICOLON: byte := 59
  const RUNE_ERROR := 0xFFFD
  const LONGEST_ENTITY_WITHOUT_SEMICOLON := 6

  // ---------------------------------------------------------------- runes

  predicate Surrogate(x: int) { 0xD800 <= x <= 0xDFFF }

  /** utf8.EncodeRune; what is no scalar value is written as U+FFFD. */
  function EncodeRune(x: int): (r: bytes)
    ensures 1 <= |r| <= 4
  {
    if 0 <= x < 0x80 then [x]
    else if 0 <= x < 0x800 then [0xC0 + x / 64, 0x80 + x % 64]
    else if x < 0 || Surrogate(x) || x > 0x10FFFF then [0xEF, 0xBF, 0xBD]
    else if x < 0x10000 then [0xE0 + x / 4096, 0x80 + x / 64 % 64, 0x80 + x % 64]
    else [0xF0 + x / 262144, 0x80 + x / 4096 % 64, 0x80 + x / 64 % 64, 0x80 + x % 64]
  }

  /** The number whose bits the bytes of an encoded rune carry. */
  function RuneOf(r: bytes): int
    requires 1 <= |r| <= 4
  {
    if |r| == 1 then r[0]
    else if |r| == 2 then (r[0] as int - 0xC0) * 64 + (r[1] as int - 0x80)
    else if |r| == 3 then (r[0] as int - 0xE0) * 4096 + (r[1] as int - 0x80) * 64 + (r[2] as int - 0x80)
    else (r[0] as int - 0xF0) * 262144 + (r[1] as int - 0x80) * 4096 + (r[2] as int - 0x80) * 64 + (r[3] as int - 0x80)
  }

  /**
    A scalar value can be read back from its encoding, whose later bytes are all continuation bytes; anything else
    reads as U+FFFD.
   */
  lemma EncodedReadsBack(x: int)
    ensures RuneOf(EncodeRune(x)) == if 0 <= x <= 0x10FFFF && !Surrogate(x) then x else RUNE_ERROR
    ensures forall i :: 1 <= i < |EncodeRune(x)| ==> 0x80 <= EncodeRune(x)[i] < 0xC0
  {
    assert x / 4096 == x / 64 / 64 && x / 262144 == x / 64 / 64 / 64;
  }

  /** int32 arithmetic. */
  function Wrap32(x: int): int { (x + 0x8000_0000) % 0x1_0000_0000 - 0x8000_0000 }

  /** What 0x80 to 0x9F stand for, as in Windows-1252. */
  const REPLACEMENT_TABLE: seq<int> := [
    0x20AC, 0x0081, 0x201A, 0x0192, 0x201E, 0x2026, 0x2020, 0x2021,
    0x02C6, 0x2030, 0x0160, 0x2039, 0x0152, 0x008D, 0x017D, 0x008F,
    0x0090, 0x2018, 0x2019, 0x201C, 0x201D, 0x2022, 0x2013, 0x2014,
    0x02DC, 0x2122, 0x0161, 0x203A, 0x0153, 0x009D, 0x017E, 0x0178
  ]

  function FixRune(x: int): int {
    if 0x80 <= x <= 0x9F then REPLACEMENT_TABLE[x - 0x80]
    else if x == 0 || Surrogate(x) || x > 0x10FFFF then RUNE_ERROR
    else x
  }

  /** The value of a digit, or -1. */
  function Digit(c: byte, hex: bool): (d: int)
    ensures -1 <= d < if hex then 16 else 10
  {
    if 48 <= c <= 57 then c - 48
    else if hex && 97 <= c <= 102 then c - 97 + 10
    else if hex && 65 <= c <= 70 then c - 65 + 10
    else -1
  }

  // ---------------------------------------------------------------- what a reference stands for

  /** The named references; a table gives 0 for a name it does not have. */
  datatype Tables = Tables(entity: map<bytes, int>, entity2: map<bytes, (int, int)>)

  function One(t: Tables, name: bytes): int { if name in t.entity then t.entity[name] else 0 }

  function Two(t: Tables, name: bytes): (int, int) { if name in t.entity2 then t.entity2[name] else (0, 0) }

  /** No replacement is longer than "&" and its name, and the names the escaper writes mean what they should. */
  ghost predicate TablesOK(t: Tables) {
    && (forall name :: name in t.entity && t.entity[name] != 0 ==> |EncodeRune(t.entity[name])| <= 1 + |name|)
    && (forall name :: name in t.entity2 && t.entity2[name].0 != 0 ==>
          |EncodeRune(t.entity2[name].0)| + |EncodeRune(t.entity2[name].1)| <= 1 + |name|)
    && One(t, LT_NAME) == 60 && One(t, GT_NAME) == 62 && One(t, AMP_NAME) == 38
  }

  const LT_NAME: bytes := [108, 116, 59]
  const GT_NAME: bytes := [103, 116, 59]
  const AMP_NAME: bytes := [97, 109, 112, 59]

  /** A table of the escaper's own names meets the assumptions. */
  lemma SmallTables() returns (t: Tables)
    ensures TablesOK(t)
  {
    t := Tables(map[LT_NAME := 60, GT_NAME := 62, AMP_NAME := 38], map[]);
    assert |EncodeRune(60)| == |EncodeRune(62)| == |EncodeRune(38)| == 1;
  }

  /** A reference at the front of a text: what it stands for, and its length. */
  datatype Ref = Ref(out: bytes, used: nat)

  /** The end of a numeric reference whose digits go on at `i`, and its value so far being `x`. */
  function ScanNumber(s: bytes, i: nat, hex: bool, x: int): (r: (nat, int))
    requires i <= |s|
    ensures i <= r.0 <= |s|
    decreases |s| - i
  {
    if i == |s| then (i, x)
    else if Digit(s[i], hex) >= 0 then
      ScanNumber(s, i + 1, hex, Wrap32((if hex then 16 else 10) * x + Digit(s[i], hex)))
    else if s[i] == SEMICOLON then (i + 1, x)
    else (i, x)
  }

  predicate Alphanumeric(c: byte) { 97 <= c <= 122 || 65 <= c <= 90 || 48 <= c <= 57 }

  /** The end of a name that goes on at `i`, with its semicolon. */
  function ScanName(s: bytes, i: nat): (r: nat)
    requires i <= |s|
    ensures i <= r <= |s|
    decreases |s| - i
  {
    if i == |s| then i
    else if Alphanumeric(s[i]) then ScanName(s, i + 1)
    else if s[i] == SEMICOLON then i + 1
    else i
  }

  /** The longest name among the prefixes of `name` of 2 to `j` bytes, or 0. */
  function LongestPrefix(t: Tables, name: bytes, j: int): (r: nat)
    requires j <= |name|
    ensures r != 0 ==> 1 < r <= j && One(t, name[..r]) != 0
    ensures forall k :: r < k <= j && k > 1 ==> One(t, name[..k]) == 0
    decreases j
  {
    if j <= 1 then 0 else if One(t, name[..j]) != 0 then j else LongestPrefix(t, name, j - 1)
  }

  function NumericRef(s: bytes): (r: Ref)
    requires |s| > 1
    ensures 0 < r.used <= |s|
  {
    if |s| <= 3 then Ref([AMP], 1)
    else
      var hex := s[2] == 120 || s[2] == 88;
      var (i, x) := ScanNumber(s, if hex then 3 else 2, hex, 0);
      if i <= 3 then Ref([AMP], 1) else Ref(EncodeRune(FixRune(x)), i)
  }

  function NamedRef(t: Tables, s: bytes): (r: Ref)
    requires |s| > 1
    ensures 0 < r.used <= |s|
  {
    var i := ScanName(s, 1);
    var name := s[1..i];
    if name == [] then Ref(s[..i], i)
    else if One(t, name) != 0 then Ref(EncodeRune(One(t, name)), i)
    else if Two(t, name).0 != 0 then Ref(EncodeRune(Two(t, name).0) + EncodeRune(Two(t, name).1), i)
    else
      var j := LongestPrefix(t, name, MaxLen(name));
      if j != 0 then Ref(EncodeRune(One(t, name[..j])), j + 1) else Ref(s[..i], i)
  }

  function MaxLen(name: bytes): int {
    if |name| - 1 > LONGEST_ENTITY_WITHOUT_SEMICOLON then LONGEST_ENTITY_WITHOUT_SEMICOLON else |name| - 1
  }

  function Reference(t: Tables, s: bytes): (r: Ref)
    requires s != [] && s[0] == AMP
    ensures 0 < r.used <= |s|
  {
    if |s| <= 1 then Ref([AMP], 1)
    else if s[1] == HASH then NumericRef(s)
    else NamedRef(t, s)
  }

  /** A text with every reference replaced by what it stands for. */
  function Unescaped(t: Tables, s: bytes): bytes
    decreases |s|
  {
    if s == [] then []
    else if s[0] == AMP then Reference(t, s).out + Unescaped(t, s[Reference(t, s).used..])
    else [s[0]] + Unescaped(t, s[1..])
  }

  /** No reference stands for more bytes than it has, so that the rewrite can be done in place. */
  lemma ReferenceShrinks(t: Tables, s: bytes)
    requires TablesOK(t) && s != [] && s[0] == AMP
    ensures |Reference(t, s).out| <= Reference(t, s).used
  {
  }

  // ---------------------------------------------------------------- escaping

  function EscapeByte(c: byte): bytes {
    if c == 38 then [AMP] + AMP_NAME
    else if c == 39 then [AMP, HASH, 51, 57, SEMICOLON]
    else if c == 60 then [AMP] + LT_NAME
    else if c == 62 then [AMP] + GT_NAME
    else if c == 34 then [AMP, HASH, 51, 52, SEMICOLON]
    else [c]
  }

  /** EscapeString: the replacer works byte by byte. */
  function EscapeString(s: bytes): bytes {
    if s == [] then [] else EscapeByte(s[0]) + EscapeString(s[1..])
  }

  // ---------------------------------------------------------------- names

  /** What can be scanned as the name of a reference: letters and digits, and maybe a semicolon behind them. */
  predicate NameRun(name: bytes) {
    && name != [] && (forall k :: 0 <= k < |name| - 1 ==> Alphanumeric(name[k]))
    && (Alphanumeric(name[|name|-1]) || name[|name|-1] == SEMICOLON)
  }

  /** A name goes no further than this. */
  predicate EndsName(name: bytes, rest: bytes)
    requires name != []
  {
    name[|name|-1] == SEMICOLON || rest == [] || (!Alphanumeric(rest[0]) && rest[0] != SEMICOLON)
  }

  lemma {:induction false} NameScanned(s: bytes, i: nat, name: bytes, rest: bytes)
    requires i <= |s| && s[i..] == name + rest && NameRun(name) && EndsName(name, rest)
    ensures ScanName(s, i) == i + |name|
    decreases |name|
  {
    assert s[i] == s[i..][0] == name[0];
    if |name| > 1 {
      assert s[i+1..] == s[i..][1..];
      NameScanned(s, i + 1, name[1..], rest);
    } else {
      assert s[i+1..] == rest;
      assert rest != [] ==> s[i+1] == rest[0];
    }
  }

  lemma NameFound(t: Tables, name: bytes, rest: bytes)
    requires NameRun(name) && EndsName(name, rest)
    ensures var s := [AMP] + name + rest;
      |s| > 1 && Reference(t, s) == NamedRef(t, s) && ScanName(s, 1) == 1 + |name| && s[1..1 + |name|] == name
    ensures ([AMP] + name + rest)[..1 + |name|] == [AMP] + name
  {
    var s := [AMP] + name + rest;
    NameScanned(s, 1, name, rest);
    assert s[1] == name[0];
  }

  /** "&" and a name the table has are read as one reference, whatever follows a semicolon. */
  lemma NameReads(t: Tables, name: bytes, rest: bytes)
    requires NameRun(name) && EndsName(name, rest) && One(t, name) != 0
    ensures Reference(t, [AMP] + name + rest) == Ref(EncodeRune(One(t, name)), 1 + |name|)
  {
    hide ScanName, EncodeRune;
    NameFound(t, name, rest);
  }

  predicate Continuation(c: byte) { 0x80 <= c < 0xC0 }

  predicate Scalar(x: int) { 0 <= x <= 0x10FFFF && !Surrogate(x) }

  lemma EncodedParts(x: int, y: int)
    ensures var r, k := EncodeRune(x) + EncodeRune(y), |EncodeRune(x)|;
      && r[..k] == EncodeRune(x) && r[k..] == EncodeRune(y)
      && (forall i :: 0 <= i < k ==> (Continuation(r[i]) <==> i > 0)) && !Continuation(r[k])
  {
    EncodedReadsBack(x);
    var r, k := EncodeRune(x) + EncodeRune(y), |EncodeRune(x)|;
    forall i | 0 <= i < k ensures Continuation(r[i]) <==> i > 0 { assert r[i] == EncodeRune(x)[i]; }
    assert r[k] == EncodeRune(y)[0];
  }

  /**
    A name of the second table that the first has not is read as one reference. What it stands for is the encoding of
    the table's first rune and, from the second byte `k` on that is no continuation byte, that of its second.
   */
  lemma TwoRead(t: Tables, name: bytes, rest: bytes) returns (k: nat)
    requires NameRun(name) && EndsName(name, rest) && One(t, name) == 0 && Two(t, name).0 != 0
    requires Scalar(Two(t, name).0) && Scalar(Two(t, name).1)
    ensures var r := Reference(t, [AMP] + name + rest);
      && r.used == 1 + |name| && 1 <= k <= 4 && 1 <= |r.out| - k <= 4
      && RuneOf(r.out[..k]) == Two(t, name).0 && RuneOf(r.out[k..]) == Two(t, name).1
      && (forall i :: 0 <= i < k ==> (Continuation(r.out[i]) <==> i > 0)) && !Continuation(r.out[k])
  {
    hide ScanName, EncodeRune, RuneOf, Surrogate, Continuation, One, Two;
    NameFound(t, name, rest);
    var x, y := Two(t, name).0, Two(t, name).1;
    k := |EncodeRune(x)|;
    EncodedParts(x, y);
    EncodedReadsBack(x);
    EncodedReadsBack(y);
  }

  /** The prefix of a name with `j` bytes is the longest of those of 2 to 6 that are known by themselves. */
  predicate KnownPrefix(t: Tables, name: bytes, j: nat) {
    && 2 <= j <= 6 && j < |name| && One(t, name[..j]) != 0
    && forall k :: j < k <= 6 && k < |name| ==> One(t, name[..k]) == 0
  }

  /** Of an unknown name the longest known prefix is read, and what follows it is text. */
  lemma PrefixReads(t: Tables, name: bytes, rest: bytes, j: nat)
    requires NameRun(name) && EndsName(name, rest) && One(t, name) == 0 && Two(t, name).0 == 0
    requires KnownPrefix(t, name, j)
    ensures Reference(t, [AMP] + name + rest) == Ref(EncodeRune(One(t, name[..j])), 1 + j)
  {
    hide ScanName, EncodeRune, One, Two;
    NameFound(t, name, rest);
    var r := LongestPrefix(t, name, MaxLen(name));
    assert r == j;
  }

  /** An unknown name without a known prefix is kept as it stands. */
  lemma UnknownKept(t: Tables, name: bytes, rest: bytes)
    requires NameRun(name) && EndsName(name, rest) && One(t, name) == 0 && Two(t, name).0 == 0
    requires forall j :: 2 <= j <= 6 && j < |name| ==> One(t, name[..j]) == 0
    ensures Reference(t, [AMP] + name + rest) == Ref([AMP] + name, 1 + |name|)
  {
    hide ScanName, EncodeRune, One, Two;
    NameFound(t, name, rest);
  }

  /** An "&" with neither a name nor a number behind it is kept. */
  lemma LoneKept(t: Tables, rest: bytes)
    requires rest == [] || (!Alphanumeric(rest[0]) && rest[0] != SEMICOLON && rest[0] != HASH)
    ensures Reference(t, [AMP] + rest) == Ref([AMP], 1)
  {
    var s := [AMP] + rest;
    assert s[..1] == [AMP];
    if rest != [] { assert s[1] == rest[0] && s[1..1] == []; }
  }

  // ---------------------------------------------------------------- numeric references

  predicate DigitRun(ds: bytes, hex: bool) { forall k :: 0 <= k < |ds| ==> Digit(ds[k], hex) >= 0 }

  /** The number that a run of digits writes, with leading zeros or without. */
  function Amount(ds: bytes, hex: bool): nat
    requires DigitRun(ds, hex)
  {
    if ds == [] then 0 else Base(hex) * Amount(ds[..|ds|-1], hex) + Digit(ds[|ds|-1], hex)
  }

  function Base(hex: bool): nat { if hex then 16 else 10 }

  /** Wrapping around on the way does not change where a sum wraps to. */
  lemma WrapStep(base: nat, a: int, d: int)
    requires base == 10 || base == 16
    ensures Wrap32(base * Wrap32(a) + d) == Wrap32(base * a + d)
  {
    var q := (a + 0x8000_0000) / 0x1_0000_0000;
    assert Wrap32(a) == a - 0x1_0000_0000 * q;
    if base == 10 { WrapTimes(10 * a + d, 10 * q); } else { WrapTimes(16 * a + d, 16 * q); }
  }

  lemma WrapTimes(x: int, k: int)
    ensures Wrap32(x - 0x1_0000_0000 * k) == Wrap32(x)
  {
  }

  lemma DigitScanned(s: bytes, j: nat, hex: bool, a: nat)
    requires j < |s| && Digit(s[j], hex) >= 0
    ensures ScanNumber(s, j, hex, Wrap32(a)) == ScanNumber(s, j + 1, hex, Wrap32(Base(hex) * a + Digit(s[j], hex)))
  {
    hide Wrap32;
    WrapStep(Base(hex), a, Digit(s[j], hex));
  }

  /** A run of digits is scanned to its end, and to its amount in 32 bits. */
  lemma {:induction false} RunScanned(s: bytes, i: nat, hex: bool, ds: bytes, rest: bytes)
    requires i <= |s| && s[i..] == ds + rest && DigitRun(ds, hex)
    ensures i + |ds| <= |s| && ScanNumber(s, i, hex, 0) == ScanNumber(s, i + |ds|, hex, Wrap32(Amount(ds, hex)))
    decreases |ds|
  {
    assert Wrap32(0) == 0;
    hide ScanNumber, Wrap32, Base;
    if ds != [] {
      var front, c := ds[..|ds|-1], ds[|ds|-1];
      assert ds == front + [c];
      var j := DigitPlace(s, i, front, c, rest);
      RunScanned(s, i, hex, front, [c] + rest);
      DigitScanned(s, j, hex, Amount(front, hex));
    }
  }

  /** The digit behind `front`. */
  lemma DigitPlace(s: bytes, i: nat, front: bytes, c: byte, rest: bytes) returns (j: nat)
    requires i <= |s| && s[i..] == front + [c] + rest
    ensures j == i + |front| < |s| && s[j] == c && s[i..] == front + ([c] + rest)
  {
    j := i + |front|;
    assert s[j] == s[i..][|front|];
  }

  /** What is before the digits; either case of the letter will do. */
  function Opening(hex: bool, upper: bool): bytes {
    if !hex then [AMP, HASH] else if upper then [AMP, HASH, 88] else [AMP, HASH, 120]
  }

  /** The scan of a numeric reference, and the branch it takes. */
  lemma NumberScanned(t: Tables, ds: bytes, hex: bool, upper: bool, rest: bytes)
    requires ds != [] && DigitRun(ds, hex)
    ensures var s := Opening(hex, upper) + ds + rest; var i := |Opening(hex, upper)|;
      && s[i + |ds|..] == rest && |s| > 2 && s[0] == AMP && s[1] == HASH && (s[2] in [120, 88] <==> hex)
      && ScanNumber(s, i, hex, 0) == ScanNumber(s, i + |ds|, hex, Wrap32(Amount(ds, hex)))
  {
    hide ScanNumber, Wrap32;
    var s := Opening(hex, upper) + ds + rest;
    var i := |Opening(hex, upper)|;
    assert s[i..] == ds + rest;
    RunScanned(s, i, hex, ds, rest);
    assert s[2] == if hex then Opening(hex, upper)[2] else ds[0];
  }

  /**
    A numeric reference in decimal or hexadecimal stands for its value in 32 bits, but for what the standard replaces.
   */
  lemma NumberReads(t: Tables, ds: bytes, hex: bool, upper: bool, rest: bytes)
    requires ds != [] && DigitRun(ds, hex)
    ensures Reference(t, Opening(hex, upper) + ds + [SEMICOLON] + rest) ==
      Ref(EncodeRune(FixRune(Wrap32(Amount(ds, hex)))), |Opening(hex, upper)| + |ds| + 1)
  {
    hide FixRune, EncodeRune, Surrogate, Wrap32, Amount;
    var more := [SEMICOLON] + rest;
    assert Opening(hex, upper) + ds + [SEMICOLON] + rest == Opening(hex, upper) + ds + more;
    var s := Opening(hex, upper) + ds + more;
    NumberScanned(t, ds, hex, upper, more);
    assert s[|Opening(hex, upper)| + |ds|] == more[0];
  }

  /** Without a semicolon it is read if and only if it is hexadecimal or has two digits. */
  lemma UnendedReads(t: Tables, ds: bytes, hex: bool, upper: bool, rest: bytes)
    requires ds != [] && DigitRun(ds, hex)
    requires rest == [] || (Digit(rest[0], hex) < 0 && rest[0] != SEMICOLON)
    ensures Reference(t, Opening(hex, upper) + ds + rest) ==
      if hex || |ds| >= 2 then Ref(EncodeRune(FixRune(Wrap32(Amount(ds, hex)))), |Opening(hex, upper)| + |ds|)
      else Ref([AMP], 1)
  {
    hide FixRune, EncodeRune, Surrogate, Wrap32, Amount;
    var s := Opening(hex, upper) + ds + rest;
    NumberScanned(t, ds, hex, upper, rest);
    assert rest != [] ==> s[|Opening(hex, upper)| + |ds|] == rest[0];
  }

  /** The code points up to U+10FFFF that are replaced: 0, the surrogates, and 27 of the 32 from U+0080. */
  predicate Replaced(x: int) {
    x == 0 || Surrogate(x) || (0x80 <= x <= 0x9F && x !in [0x81, 0x8D, 0x8F, 0x90, 0x9D])
  }

  lemma FixedRunes(x: nat)
    requires x <= 0x10FFFF
    ensures FixRune(x) != x <==> Replaced(x)
  {
  }

  /** Decoding what the reference to a code point stands for gives that code point if and only if it is not replaced. */
  lemma NumberKept(t: Tables, ds: bytes, hex: bool, upper: bool, rest: bytes)
    requires ds != [] && DigitRun(ds, hex) && Amount(ds, hex) <= 0x10FFFF
    ensures var x := Amount(ds, hex);
      RuneOf(Reference(t, Opening(hex, upper) + ds + [SEMICOLON] + rest).out) == x <==> !Replaced(x)
  {
    hide Reference, EncodeRune, RuneOf, FixRune, Amount, Wrap32, Surrogate, Replaced;
    var x := Amount(ds, hex);
    NumberReads(t, ds, hex, upper, rest);
    WrapSmall(x);
    FixedRunes(x);
    FixedIsScalar(x);
    EncodedReadsBack(FixRune(x));
  }

  lemma FixedIsScalar(x: nat)
    requires x <= 0x10FFFF
    ensures 0 < FixRune(x) <= 0x10FFFF && !Surrogate(FixRune(x))
  {
  }

  /**
    A number past U+10FFFF, which the standard replaces by U+FFFD, is so replaced if and only if it does not wrap
    around in 32 bits to another character.
   */
  lemma NumberOverflows(t: Tables, ds: bytes, hex: bool, upper: bool, rest: bytes)
    requires ds != [] && DigitRun(ds, hex) && Amount(ds, hex) > 0x10FFFF
    ensures var w := Amount(ds, hex) % 0x1_0000_0000;
      RuneOf(Reference(t, Opening(hex, upper) + ds + [SEMICOLON] + rest).out) == RUNE_ERROR <==>
        w == 0 || w > 0x10FFFF || Surrogate(w) || w == RUNE_ERROR
  {
    hide Reference, EncodeRune, RuneOf, FixRune, Amount, Wrap32, Surrogate;
    var x := Amount(ds, hex);
    NumberReads(t, ds, hex, upper, rest);
    WrappedFix(x);
    EncodedReadsBack(FixRune(Wrap32(x)));
  }

  lemma WrappedFix(x: nat)
    ensures var w, y := x % 0x1_0000_0000, FixRune(Wrap32(x));
      && (w == 0 || w > 0x10FFFF || Surrogate(w) || w == RUNE_ERROR <==> y == RUNE_ERROR || y < 0)
      && y <= 0x10FFFF && !Surrogate(y)
  {
    var w := x % 0x1_0000_0000;
    assert Wrap32(x) == if w < 0x8000_0000 then w else w - 0x1_0000_0000 by { WrapTimes(x, x / 0x1_0000_0000); }
    hide Wrap32;
    if w <= 0x10FFFF { FixedIsScalar(w); }
  }

  lemma WrapSmall(x: nat)
    requires x < 0x8000_0000
    ensures Wrap32(x) == x
  {
  }

  // ---------------------------------------------------------------- round trip

  /** No byte that could end a text or an attribute, or open a tag, is left. */
  lemma {:induction false} EscapedSafe(s: bytes)
    ensures forall c :: c in [34, 39, 60, 62] ==> c !in EscapeString(s)
    decreases |s|
  {
    if s != [] {
      EscapedSafe(s[1..]);
      assert forall c :: c in [34, 39, 60, 62] ==> c !in EscapeByte(s[0]);
    }
  }

  /** A text without the five bytes is left alone. */
  lemma {:induction false} EscapedSame(s: bytes)
    requires forall i :: 0 <= i < |s| ==> s[i] !in [34, 38, 39, 60, 62]
    ensures EscapeString(s) == s
    decreases |s|
  {
    if s != [] {
      EscapedSame(s[1..]);
      assert s == [s[0]] + s[1..];
    }
  }

  lemma QuoteReads(t: Tables, c: byte, rest: bytes)
    requires c == 34 || c == 39
    ensures Reference(t, EscapeByte(c) + rest) == Ref([c], |EscapeByte(c)|)
  {
    hide Reference, Wrap32;
    var ds := [51, 48 + c % 10];
    assert ds[..1] == [51] && ds[..1][..0] == [];
    assert Amount([51], false) == 3 && Amount(ds, false) == c as nat;
    NumberReads(t, ds, false, false, rest);
    WrapSmall(c);
    assert Opening(false, false) + ds + [SEMICOLON] == EscapeByte(c);
  }

  lemma EscapedReads(t: Tables, c: byte, rest: bytes)
    requires TablesOK(t) && c in [38, 39, 60, 62, 34]
    ensures EscapeByte(c) != [] && EscapeByte(c)[0] == AMP
    ensures Reference(t, EscapeByte(c) + rest) == Ref([c], |EscapeByte(c)|)
  {
    if c == 38 {
      NameReads(t, AMP_NAME, rest);
    } else if c == 60 {
      NameReads(t, LT_NAME, rest);
    } else if c == 62 {
      NameReads(t, GT_NAME, rest);
    } else {
      QuoteReads(t, c, rest);
    }
  }

  /** UnescapeString(EscapeString(s)) == s. */
  lemma {:induction false} RoundTrip(t: Tables, s: bytes)
    requires TablesOK(t)
    ensures Unescaped(t, EscapeString(s)) == s
    decreases |s|
  {
    if s != [] {
      var c, rest := s[0], EscapeString(s[1..]);
      var e := EscapeByte(c) + rest;
      RoundTrip(t, s[1..]);
      if c in [38, 39, 60, 62, 34] {
        EscapedReads(t, c, rest);
        assert e[|EscapeByte(c)|..] == rest;
      } else {
        assert e[1..] == rest;
      }
      assert s == [c] + s[1..];
    }
  }

  /**
    A numeric reference without digits is read, and then as one to 0, if and only if it is hexadecimal and ends in a
    semicolon.
   */
  lemma NoDigits(t: Tables, s: bytes, hex: bool)
    requires |s| >= 2 && s[0] == AMP && s[1] == HASH && (|s| > 2 && s[2] in [120, 88] <==> hex)
    requires var i := if hex then 3 else 2; |s| > i ==> Digit(s[i], hex) < 0
    ensures Reference(t, s) ==
      if hex && |s| > 3 && s[3] == SEMICOLON then Ref(EncodeRune(RUNE_ERROR), 4) else Ref([AMP], 1)
  {
    hide EncodeRune;
  }
}
