/** Formatting integers into a fixed buffer, right to left (go/src/fmt/format.go). */
module FmtInteger {
  import opened Bytes
  import opened Html

  const INTBUF_SIZE := 68
  const UTF_MAX := 4
  const MAX_RUNE := 0x10FFFF
  const TWO_64 := 0x1_0000_0000_0000_0000
  const ZERO: byte := 48
  const SPACE: byte := 32
  const PLUS: byte := 43
  const MINUS: byte := 45
  const QUOTE: byte := 39

  /** ldigits and udigits */
  const LDIGITS: bytes := [48, 49, 50, 51, 52, 53, 54, 55, 56, 57, 97, 98, 99, 100, 101, 102, 120]
  const UDIGITS: bytes := [48, 49, 50, 51, 52, 53, 54, 55, 56, 57, 65, 66, 67, 68, 69, 70, 88]

  predicate IsBase(b: nat) { b in [2, 8, 10, 16] }

  // ---------------------------------------------------------------- numerals

  function Digits(u: nat, base: nat, digits: bytes): (r: bytes)
    requires IsBase(base) && |digits| == 17
    ensures |r| >= 1
    decreases u
  {
    (if u < base then [] else Digits(u / base, base, digits)) + [digits[u % base]]
  }

  /** The value of a digit in either case. */
  function DigitValue(c: byte): nat {
    if 48 <= c <= 57 then c - 48 else if 97 <= c <= 102 then c - 97 + 10 else if 65 <= c <= 70 then c - 65 + 10 else 0
  }

  /** What a run of digits amounts to. */
  function Evaluate(s: bytes, base: nat): nat {
    if s == [] then 0 else Evaluate(s[..|s|-1], base) * base + DigitValue(s[|s|-1])
  }

  function Fill(n: int, c: byte): (r: bytes)
    ensures |r| == if n > 0 then n else 0
  {
    if n <= 0 then [] else Fill(n - 1, c) + [c]
  }

  lemma DigitAt(digits: bytes, d: nat)
    requires digits in [LDIGITS, UDIGITS] && d < 16
    ensures |digits| == 17 && DigitValue(digits[d]) == d
  {
  }

  lemma Divided(u: nat, base: nat)
    requires IsBase(base)
    ensures u / base * base + u % base == u && u % base < base && u / base <= u / 2 && (u < base ==> u / base == 0)
  {
    if base == 2 {
    } else if base == 8 {
    } else if base == 10 {
    } else {
    }
  }

  lemma {:induction false} DigitsEvaluate(u: nat, base: nat, digits: bytes)
    requires IsBase(base) && digits in [LDIGITS, UDIGITS]
    ensures Evaluate(Digits(u, base, digits), base) == u
    decreases u
  {
    hide DigitValue;
    var front := if u < base then [] else Digits(u / base, base, digits);
    var q, d := u / base, u % base;
    assert Digits(u, base, digits)[..|front|] == front;
    DigitAt(digits, d);
    Divided(u, base);
    if u >= base { DigitsEvaluate(q, base, digits); }
    assert Evaluate(front, base) == q;
  }

  lemma {:induction false} ZerosAlone(n: int, base: nat)
    ensures Evaluate(Fill(n, ZERO), base) == 0
  {
    if n > 0 {
      ZerosAlone(n - 1, base);
      assert Fill(n, ZERO)[..|Fill(n, ZERO)|-1] == Fill(n - 1, ZERO);
    }
  }

  lemma {:induction false} ZerosEvaluate(n: int, s: bytes, base: nat)
    ensures Evaluate(Fill(n, ZERO) + s, base) == Evaluate(s, base)
    decreases |s|
  {
    hide Fill;
    var zeros := Fill(n, ZERO);
    if s == [] {
      assert zeros + s == zeros;
      ZerosAlone(n, base);
    } else {
      assert (zeros + s)[..|zeros + s| - 1] == zeros + s[..|s|-1];
      ZerosEvaluate(n, s[..|s|-1], base);
    }
  }

  function Pow2(k: nat): nat { if k == 0 then 1 else 2 * Pow2(k - 1) }

  lemma {:induction false} DigitsFit(u: nat, base: nat, digits: bytes, k: nat)
    requires IsBase(base) && |digits| == 17 && u < Pow2(k) && k >= 1
    ensures |Digits(u, base, digits)| <= k
    decreases k
  {
    if u >= base {
      assert u / base <= u / 2;
      DigitsFit(u / base, base, digits, k - 1);
    }
  }

  lemma Pow2Plus8(k: nat)
    ensures Pow2(k + 8) == 256 * Pow2(k)
  {
    assert Pow2(k + 4) == 16 * Pow2(k) by { assert Pow2(k + 2) == 4 * Pow2(k); }
    assert Pow2(k + 6) == 4 * Pow2(k + 4);
  }

  lemma Pow64()
    ensures Pow2(64) == TWO_64
  {
    Pow2Plus8(0); Pow2Plus8(8); Pow2Plus8(16); Pow2Plus8(24);
    Pow2Plus8(32); Pow2Plus8(40); Pow2Plus8(48); Pow2Plus8(56);
  }

  /** A uint64 has at most 64 digits. */
  lemma AtMost64(u: nat, base: nat, digits: bytes)
    requires IsBase(base) && |digits| == 17 && u < TWO_64
    ensures |Digits(u, base, digits)| <= 64
  {
    Pow64();
    DigitsFit(u, base, digits, 64);
  }

  // ---------------------------------------------------------------- what is to be written

  datatype Flags = Flags(
    widPresent: bool, precPresent: bool, minus: bool, plus: bool, sharp: bool, space: bool, zero: bool)

  /** utf8.RuneCount, of text in UTF-8. */
  function RuneCount(s: bytes): (n: nat)
    ensures n <= |s|
  {
    if s == [] then 0 else RuneCount(s[..|s|-1]) + if 0x80 <= s[|s|-1] < 0xC0 then 0 else 1
  }

  /** The text in its field: blanks before it, or after it with the minus flag. */
  function Padded(f: Flags, wid: nat, s: bytes, c: byte): bytes {
    if !f.widPresent || wid == 0 then s
    else if f.minus then s + Fill(wid - RuneCount(s), c)
    else Fill(wid - RuneCount(s), c) + s
  }

  function Magnitude(u: nat, isSigned: bool): nat
    requires u < TWO_64
  {
    if isSigned && u >= TWO_64 / 2 then TWO_64 - u else u
  }

  function Sign(f: Flags, negative: bool): bytes {
    if negative then [MINUS] else if f.plus then [PLUS] else if f.space then [SPACE] else []
  }

  /** How many digits there are to be at least: %.3d, or %03d where a sign needs a place. */
  function Precision(f: Flags, wid: nat, prec: nat, negative: bool): int {
    if f.precPresent then prec
    else if f.zero && !f.minus && f.widPresent then (if negative || f.plus || f.space then wid - 1 else wid)
    else 0
  }

  function Body(u: nat, base: nat, digits: bytes, prec: int): (r: bytes)
    requires IsBase(base) && |digits| == 17
    ensures |r| >= 1
  {
    Fill(prec - |Digits(u, base, digits)|, ZERO) + Digits(u, base, digits)
  }

  function Prefix(f: Flags, base: nat, digits: bytes, body: bytes): (r: bytes)
    requires |digits| == 17 && body != []
  {
    if !f.sharp then []
    else if base == 2 then [ZERO, 98]
    else if base == 8 then (if body[0] != ZERO then [ZERO] else [])
    else if base == 16 then [ZERO, digits[16]]
    else []
  }

  function Octal(verbO: bool): bytes { if verbO then [ZERO, 111] else [] }

  function IntegerText(f: Flags, wid: nat, prec: nat, u: nat, base: nat, isSigned: bool, verbO: bool,
          digits: bytes): bytes
    requires IsBase(base) && |digits| == 17 && u < TWO_64
  {
    var negative := isSigned && u >= TWO_64 / 2;
    var body := Body(Magnitude(u, isSigned), base, digits, Precision(f, wid, prec, negative));
    Sign(f, negative) + Octal(verbO) + Prefix(f, base, digits, body) + body
  }

  /** strconv.IsPrint, which is false of surrogates. */
  ghost predicate Printing(isPrint: int -> bool) { forall x :: isPrint(x) ==> 0 <= x <= MAX_RUNE && !Surrogate(x) }

  /** " 'x'" after the number, for what can be printed. */
  function Quoted(f: Flags, u: nat, isPrint: int -> bool): bytes {
    if f.sharp && u <= MAX_RUNE && isPrint(u) then [SPACE, QUOTE] + EncodeRune(u) + [QUOTE] else []
  }

  function UnicodePrecision(f: Flags, prec: nat): nat { if f.precPresent && prec > 4 then prec else 4 }

  function UnicodeText(f: Flags, prec: nat, u: nat, isPrint: int -> bool): bytes {
    [85, PLUS] + Body(u, 16, UDIGITS, UnicodePrecision(f, prec)) + Quoted(f, u, isPrint)
  }

  /** The digits read back as the magnitude, leading zeros and all. */
  lemma BodyReadsBack(u: nat, base: nat, digits: bytes, prec: int)
    requires IsBase(base) && digits in [LDIGITS, UDIGITS]
    ensures Evaluate(Body(u, base, digits, prec), base) == u
  {
    hide Digits, Fill, Evaluate;
    DigitsEvaluate(u, base, digits);
    ZerosEvaluate(prec - |Digits(u, base, digits)|, Digits(u, base, digits), base);
  }

  // ---------------------------------------------------------------- what the text says

  predicate IsDigit(c: byte, base: nat, digits: bytes)
    requires IsBase(base) && |digits| == 17
  {
    c in digits[..base]
  }

  /** The digits are those of the base, and the first is no zero unless it is alone. */
  lemma {:induction false} DigitsPlain(u: nat, base: nat, digits: bytes)
    requires IsBase(base) && digits in [LDIGITS, UDIGITS]
    ensures var d := Digits(u, base, digits);
      && (forall i :: 0 <= i < |d| ==> IsDigit(d[i], base, digits))
      && (if u == 0 then d == [ZERO] else d[0] != ZERO)
    decreases u
  {
    Divided(u, base);
    assert digits[u % base] == digits[..base][u % base];
    assert digits[u % base] == ZERO <==> u % base == 0 by { DigitAt(digits, u % base); }
    if u >= base { DigitsPlain(u / base, base, digits); }
  }

  lemma {:induction false} FillAll(n: int, c: byte)
    ensures forall i :: 0 <= i < |Fill(n, c)| ==> Fill(n, c)[i] == c
  {
    if n > 0 { FillAll(n - 1, c); }
  }

  /** Zeros are put before the digits for the precision only. */
  lemma BodyPlain(u: nat, base: nat, digits: bytes, prec: int)
    requires IsBase(base) && digits in [LDIGITS, UDIGITS]
    ensures var b := Body(u, base, digits, prec);
      && (forall i :: 0 <= i < |b| ==> IsDigit(b[i], base, digits)) && |b| >= prec
      && (|b| > prec && b[0] == ZERO ==> b == [ZERO])
  {
    hide Digits, Fill;
    var n := prec - |Digits(u, base, digits)|;
    DigitsPlain(u, base, digits);
    FillAll(n, ZERO);
    assert ZERO == digits[..base][0];
  }

  /** Where the digits start: after the sign, "0o", and "0x" or "0b". */
  function DigitsAt(f: Flags, negative: bool, base: nat, verbO: bool): nat {
    SignWidth(f, negative) + (if verbO then 2 else 0) + if f.sharp && base in [2, 16] then 2 else 0
  }

  function SignWidth(f: Flags, negative: bool): nat { if negative || f.plus || f.space then 1 else 0 }

  /** The first byte tells the sign: a minus, or with the flags a plus, or else a blank. */
  lemma SignByte(f: Flags, wid: nat, prec: nat, u: nat, base: nat, isSigned: bool, verbO: bool, digits: bytes)
    requires IsBase(base) && digits in [LDIGITS, UDIGITS] && u < TWO_64
    ensures var t, negative := IntegerText(f, wid, prec, u, base, isSigned, verbO, digits), isSigned && u >= TWO_64 / 2;
      && |t| > SignWidth(f, negative) && (t[0] == MINUS <==> negative) && (t[0] == PLUS <==> !negative && f.plus)
      && (t[0] == SPACE <==> !negative && !f.plus && f.space)
  {
    hide Body, Digits;
    var negative := isSigned && u >= TWO_64 / 2;
    var p := Precision(f, wid, prec, negative);
    var body := Body(Magnitude(u, isSigned), base, digits, p);
    BodyPlain(Magnitude(u, isSigned), base, digits, p);
    assert forall c :: c in digits[..base] ==> c !in [MINUS, PLUS, SPACE] by { NoSigns(base, digits); }
    assert IsDigit(body[0], base, digits);
    assert IntegerText(f, wid, prec, u, base, isSigned, verbO, digits)[0] ==
      (Sign(f, negative) + Octal(verbO) + Prefix(f, base, digits, body) + body)[0];
  }

  lemma NoSigns(base: nat, digits: bytes)
    requires IsBase(base) && digits in [LDIGITS, UDIGITS]
    ensures forall c :: c in digits[..base] ==> c !in [MINUS, PLUS, SPACE]
  {
    assert forall i :: 0 <= i < |digits| ==> digits[i] !in [MINUS, PLUS, SPACE];
  }

  /** The text is the sign, what names the base, and the digits, with one more zero for the sharp flag in octal. */
  lemma TextParts(f: Flags, wid: nat, prec: nat, u: nat, base: nat, isSigned: bool, verbO: bool, digits: bytes)
    returns (front: bytes, names: bytes, d: bytes)
    requires IsBase(base) && |digits| == 17 && u < TWO_64
    ensures IntegerText(f, wid, prec, u, base, isSigned, verbO, digits) == front + names + d
    ensures var negative := isSigned && u >= TWO_64 / 2;
      && |front| == SignWidth(f, negative) && |front + names| == DigitsAt(f, negative, base, verbO)
      && names == Octal(verbO) + (if f.sharp && base == 2 then [ZERO, 98] else [])
                  + (if f.sharp && base == 16 then [ZERO, digits[16]] else [])
      && var body := Body(Magnitude(u, isSigned), base, digits, Precision(f, wid, prec, negative));
      d == (if f.sharp && base == 8 && body[0] != ZERO then [ZERO] else []) + body
  {
    hide Body, Octal;
    var negative := isSigned && u >= TWO_64 / 2;
    var body := Body(Magnitude(u, isSigned), base, digits, Precision(f, wid, prec, negative));
    front := Sign(f, negative);
    names := Octal(verbO) + (if f.sharp && base == 2 then [ZERO, 98] else [])
      + if f.sharp && base == 16 then [ZERO, digits[16]] else [];
    d := (if f.sharp && base == 8 && body[0] != ZERO then [ZERO] else []) + body;
    NamesAre(f, base, verbO, digits, body, front);
  }

  lemma NamesAre(f: Flags, base: nat, verbO: bool, digits: bytes, body: bytes, front: bytes)
    requires IsBase(base) && |digits| == 17 && body != []
    ensures var names := Octal(verbO) + (if f.sharp && base == 2 then [ZERO, 98] else [])
      + (if f.sharp && base == 16 then [ZERO, digits[16]] else []);
      && |names| == (if verbO then 2 else 0) + (if f.sharp && base in [2, 16] then 2 else 0)
      && front + Octal(verbO) + Prefix(f, base, digits, body) + body ==
           front + names + ((if f.sharp && base == 8 && body[0] != ZERO then [ZERO] else []) + body)
  {
    var a, b := Octal(verbO), if f.sharp && base == 2 then [ZERO, 98] else [];
    var c := if f.sharp && base == 16 then [ZERO, digits[16]] else [];
    var z := if f.sharp && base == 8 && body[0] != ZERO then [ZERO] else [];
    assert Prefix(f, base, digits, body) == b + c + z;
    hide Prefix, Octal;
    Regroup(front, a, b + c, z, body);
    assert a + b + c == a + (b + c);
  }

  lemma Regroup(a: bytes, b: bytes, c: bytes, d: bytes, e: bytes)
    ensures a + b + (c + d) + e == a + (b + c) + (d + e)
  {
  }

  /** After the sign comes "0o" for the verb, then with the sharp flag what names the base. */
  lemma BaseBytes(f: Flags, wid: nat, prec: nat, u: nat, base: nat, isSigned: bool, verbO: bool, digits: bytes)
    requires IsBase(base) && digits in [LDIGITS, UDIGITS] && u < TWO_64
    ensures var t, negative := IntegerText(f, wid, prec, u, base, isSigned, verbO, digits), isSigned && u >= TWO_64 / 2;
      var i, j := SignWidth(f, negative), DigitsAt(f, negative, base, verbO);
      && i <= j < |t| && t[i..j] ==
           (if verbO then [ZERO, 111] else [])
           + (if f.sharp && base == 2 then [ZERO, 98] else [])
           + (if f.sharp && base == 16 then [ZERO, if digits == LDIGITS then 120 else 88] else [])
  {
    hide Body, IntegerText;
    var front, names, d := TextParts(f, wid, prec, u, base, isSigned, verbO, digits);
    assert (front + names + d)[|front|..|front + names|] == names;
  }

  /**
    `d` says `m` in digits of the base, at least `p` of them, with no zeros in front for more, but for one where it is
    to be known by it as octal.
   */
  predicate Says(d: bytes, m: nat, base: nat, digits: bytes, p: int, octal: bool)
    requires IsBase(base) && |digits| == 17
  {
    && d != [] && Evaluate(d, base) == m && |d| >= p && (forall i :: 0 <= i < |d| ==> IsDigit(d[i], base, digits))
    && (octal ==> d[0] == ZERO)
    && (|d| > p && |d| > 1 ==> d[if octal then 1 else 0] != ZERO)
  }

  lemma BodySays(u: nat, base: nat, digits: bytes, p: int)
    requires IsBase(base) && digits in [LDIGITS, UDIGITS]
    ensures Says(Body(u, base, digits, p), u, base, digits, p, false)
    ensures Body(u, base, digits, p)[0] == ZERO ==> Says(Body(u, base, digits, p), u, base, digits, p, true)
    ensures Body(u, base, digits, p)[0] != ZERO ==> Says([ZERO] + Body(u, base, digits, p), u, base, digits, p, true)
  {
    hide Body, Evaluate, Digits;
    var body := Body(u, base, digits, p);
    BodyReadsBack(u, base, digits, p);
    BodyPlain(u, base, digits, p);
    OneZero();
    ZerosEvaluate(1, body, base);
    assert ZERO == digits[..base][0];
  }

  /** The digits say the magnitude. */
  lemma DigitsSay(f: Flags, wid: nat, prec: nat, u: nat, base: nat, isSigned: bool, verbO: bool, digits: bytes)
    requires IsBase(base) && digits in [LDIGITS, UDIGITS] && u < TWO_64
    ensures var t, negative := IntegerText(f, wid, prec, u, base, isSigned, verbO, digits), isSigned && u >= TWO_64 / 2;
      var j, m := DigitsAt(f, negative, base, verbO), if negative then TWO_64 - u else u;
      j < |t| && Says(t[j..], m, base, digits, Precision(f, wid, prec, negative), f.sharp && base == 8)
  {
    hide Body, IntegerText, Says;
    var negative := isSigned && u >= TWO_64 / 2;
    var p := Precision(f, wid, prec, negative);
    var front, names, d := TextParts(f, wid, prec, u, base, isSigned, verbO, digits);
    assert (front + names + d)[|front + names|..] == d;
    BodySays(Magnitude(u, isSigned), base, digits, p);
    var body := Body(Magnitude(u, isSigned), base, digits, p);
    assert [] + body == body;
  }

  /**
    The zero flag fills the width with zeros behind the sign and what names the base; those of "0o", "0x" and "0b" come
    on top of the width.
   */
  lemma ZeroWidth(f: Flags, wid: nat, prec: nat, u: nat, base: nat, isSigned: bool, verbO: bool, digits: bytes)
    requires IsBase(base) && digits in [LDIGITS, UDIGITS] && u < TWO_64
    requires f.zero && f.widPresent && !f.minus && !f.precPresent
    ensures var t, negative := IntegerText(f, wid, prec, u, base, isSigned, verbO, digits), isSigned && u >= TWO_64 / 2;
      var bare := IntegerText(f.(zero := false), wid, prec, u, base, isSigned, verbO, digits);
      var full := wid + DigitsAt(f, negative, base, verbO) - SignWidth(f, negative);
      |t| == if |bare| < full then full else |bare|
  {
    hide IntegerText, Body;
    var negative, m := isSigned && u >= TWO_64 / 2, Magnitude(u, isSigned);
    var g := f.(zero := false);
    var front, names, d := TextParts(f, wid, prec, u, base, isSigned, verbO, digits);
    var front', names', d' := TextParts(g, wid, prec, u, base, isSigned, verbO, digits);
    ZerosInFront(m, base, digits, Precision(f, wid, prec, negative));
  }

  lemma ZerosInFront(m: nat, base: nat, digits: bytes, p: int)
    requires IsBase(base) && digits in [LDIGITS, UDIGITS]
    ensures var b, b0 := Body(m, base, digits, p), Body(m, base, digits, 0);
      if |b0| < p then |b| == p && b[0] == ZERO else b == b0
  {
    hide Digits;
    FillAll(p - |Digits(m, base, digits)|, ZERO);
  }

  lemma OneZero()
    ensures Fill(1, ZERO) == [ZERO]
  {
    assert Fill(0, ZERO) == [];
  }

  lemma {:induction false} CountJoin(s: bytes, t: bytes)
    ensures RuneCount(s + t) == RuneCount(s) + RuneCount(t)
    decreases |t|
  {
    if t == [] {
      assert s + t == s;
    } else {
      assert (s + t)[..|s + t| - 1] == s + t[..|t|-1];
      CountJoin(s, t[..|t|-1]);
    }
  }

  lemma {:induction false} CountFill(n: int, c: byte)
    requires c < 0x80
    ensures RuneCount(Fill(n, c)) == |Fill(n, c)|
  {
    if n > 0 {
      CountFill(n - 1, c);
      assert Fill(n, c)[..|Fill(n, c)|-1] == Fill(n - 1, c);
    }
  }

  /** The text fills its field, with the padding behind it for the minus flag and before it otherwise. */
  lemma PadSides(f: Flags, wid: nat, s: bytes, c: byte)
    requires c < 0x80
    ensures var p := Padded(f, wid, s, c);
      && RuneCount(p) == (if f.widPresent && wid > RuneCount(s) then wid else RuneCount(s))
      && |p| >= |s| && (if f.minus then s <= p else HasSuffix(p, s))
      && forall i :: 0 <= i < |p| && (if f.minus then i >= |s| else i < |p| - |s|) ==> p[i] == c
  {
    var pads := Fill(wid - RuneCount(s), c);
    CountFill(wid - RuneCount(s), c);
    FillAll(wid - RuneCount(s), c);
    CountJoin(s, pads);
    CountJoin(pads, s);
  }

  // ---------------------------------------------------------------- the program

  /** i--; buf[i] = c */
  method prepend(buf: array<byte>, i0: nat, c: byte) returns (i: nat)
    requires 0 < i0 <= buf.Length
    modifies buf
    ensures i == i0 - 1 && buf[i..] == [c] + old(buf[i0..])
  {
    ghost var s := buf[i0..];
    i := i0 - 1;
    buf[i] := c;
    assert buf[i..] == [c] + s;
  }

  /** The digit loops; the source has one for each base. */
  method putDigits(buf: array<byte>, u0: nat, base: nat, digits: bytes) returns (i: nat)
    requires IsBase(base) && |digits| == 17 && |Digits(u0, base, digits)| <= buf.Length
    modifies buf
    ensures i == buf.Length - |Digits(u0, base, digits)| && buf[i..] == Digits(u0, base, digits)
  {
    hide Digits;
    var u: nat := u0;
    i := buf.Length;
    while u >= base
      invariant |Digits(u, base, digits)| <= i <= buf.Length
      invariant Digits(u, base, digits) + buf[i..] == Digits(u0, base, digits)
    {
      ghost var rest := buf[i..];
      var next := u / base;
      i := prepend(buf, i, digits[u % base]);
      DigitStep(u, base, digits, rest);
      Divided(u, base);
      u := next;
    }
    LastDigit(u, base, digits);
    i := prepend(buf, i, digits[u]);
  }

  lemma DigitStep(u: nat, base: nat, digits: bytes, rest: bytes)
    requires IsBase(base) && |digits| == 17 && u >= base
    ensures |Digits(u, base, digits)| == |Digits(u / base, base, digits)| + 1
    ensures Digits(u, base, digits) + rest == Digits(u / base, base, digits) + ([digits[u % base]] + rest)
  {
    var d := Digits(u / base, base, digits);
    assert Digits(u, base, digits) == d + [digits[u % base]];
    hide Digits;
    assert d + [digits[u % base]] + rest == d + ([digits[u % base]] + rest);
  }

  lemma LastDigit(u: nat, base: nat, digits: bytes)
    requires IsBase(base) && |digits| == 17 && u < base
    ensures u < 17 && Digits(u, base, digits) == [digits[u]]
  {
    Small(u, base);
  }

  lemma Small(u: nat, base: nat)
    requires IsBase(base) && u < base
    ensures u % base == u && u < 17
  {
  }

  /** Zeros in front until there are `prec` digits. */
  method putZeros(buf: array<byte>, i0: nat, prec: int) returns (i: nat)
    requires i0 <= buf.Length && prec <= buf.Length
    modifies buf
    ensures i <= i0 && buf[i..] == Fill(prec - (buf.Length - i0), ZERO) + old(buf[i0..])
  {
    hide Fill;
    ghost var s := buf[i0..];
    i := i0;
    assert Fill(0, ZERO) + s == s;
    while i > 0 && prec > buf.Length - i
      invariant i <= i0 && buf[i..] == Fill(i0 - i, ZERO) + s && (i < i0 ==> buf.Length - i <= prec)
    {
      ZeroBefore(i0 - i + 1, s);
      i := prepend(buf, i, ZERO);
    }
    assert Fill(prec - (buf.Length - i0), ZERO) == Fill(i0 - i, ZERO);
  }

  lemma ZeroBefore(n: int, s: bytes)
    requires n >= 1
    ensures [ZERO] + (Fill(n - 1, ZERO) + s) == Fill(n, ZERO) + s
  {
    hide Fill;
    ZeroFirst(n);
  }

  lemma {:induction false} ZeroFirst(n: int)
    requires n >= 1
    ensures Fill(n, ZERO) == [ZERO] + Fill(n - 1, ZERO)
    decreases n
  {
    if n > 1 { ZeroFirst(n - 1); }
  }

  lemma Joins(a: bytes, b: bytes, c: bytes, d: bytes)
    ensures a + (b + (c + d)) == a + b + c + d
  {
  }

  /** The prefix and a sign still fit. */
  lemma RoomLeft(f: Flags, wid: nat, prec: nat, u: nat, base: nat, digits: bytes, p: int, verbO: bool, size: nat)
    requires IsBase(base) && |digits| == 17 && |Digits(u, base, digits)| <= 64 && (verbO ==> base == 8)
    requires size >= INTBUF_SIZE && (p > 0 ==> size >= 3 + p)
    ensures var body := Body(u, base, digits, p); |body| + |Prefix(f, base, digits, body)| + |Octal(verbO)| + 1 <= size
  {
    var n := p - |Digits(u, base, digits)|;
    if n > 0 {
      ZeroFirst(n);
      assert Body(u, base, digits, p)[0] == ZERO;
    }
  }

  class Fmt {
    var buf: bytes
    var flags: Flags
    var wid: nat
    var prec: nat
    const intbuf: array<byte>

    constructor (flags: Flags, wid: nat, prec: nat)
      ensures buf == [] && this.flags == flags && this.wid == wid && this.prec == prec && intbuf.Length == INTBUF_SIZE
      ensures fresh(intbuf)
    {
      this.flags, this.wid, this.prec, buf := flags, wid, prec, [];
      intbuf := new byte[INTBUF_SIZE];
    }

    function PadByte(): byte
      reads this
    {
      if flags.zero && !flags.minus then ZERO else SPACE
    }

    method writePadding(n: int)
      modifies this`buf
      ensures buf == old(buf) + Fill(n, PadByte())
    {
      if n <= 0 { return; }
      var padByte := SPACE;
      if flags.zero && !flags.minus { padByte := ZERO; }
      var i := 0;
      while i < n
        invariant 0 <= i <= n && buf == old(buf) + Fill(i, padByte)
      {
        buf := buf + [padByte];
        i := i + 1;
      }
    }

    method pad(b: bytes)
      modifies this`buf
      ensures buf == old(buf) + Padded(flags, wid, b, PadByte())
    {
      hide Fill, RuneCount;
      if !flags.widPresent || wid == 0 {
        buf := buf + b;
        return;
      }
      var width := wid - RuneCount(b);
      if !flags.minus {
        writePadding(width);
        buf := buf + b;
      } else {
        buf := buf + b;
        writePadding(width);
      }
    }

    /** The end of both formatters: padded with blanks, whatever the zero flag says. */
    method padBlank(b: bytes)
      modifies this`buf, this`flags
      ensures buf == old(buf) + Padded(flags, wid, b, SPACE) && flags == old(flags)
    {
      var oldZero := flags.zero;
      flags := flags.(zero := false);
      ghost var f := flags;
      pad(b);
      assert Padded(f, wid, b, SPACE) == Padded(f.(zero := oldZero), wid, b, SPACE);
      flags := flags.(zero := oldZero);
    }

    /** The buffer for an integer: the small one, or a large enough one. */
    method room() returns (b: array<byte>)
      requires intbuf.Length == INTBUF_SIZE
      ensures b == intbuf || fresh(b)
      ensures b.Length >= INTBUF_SIZE && ((flags.widPresent || flags.precPresent) ==> b.Length >= 3 + wid + prec)
    {
      b := intbuf;
      if flags.widPresent || flags.precPresent {
        var width := 3 + wid + prec;
        if width > b.Length { b := new byte[width]; }
      }
    }

    /** fmtInteger; `verbO` where the verb is 'O', which is for base 8. */
    method fmtInteger(u0: nat, base: nat, isSigned: bool, verbO: bool, digits: bytes)
      requires u0 < TWO_64 && IsBase(base) && |digits| == 17 && (verbO ==> base == 8) && intbuf.Length == INTBUF_SIZE
      modifies this`buf, this`flags, intbuf
      ensures flags == old(flags)
      ensures buf == old(buf) +
        if flags.precPresent && prec == 0 && u0 == 0 then Fill(wid, SPACE)
        else Padded(flags, wid, IntegerText(flags, wid, prec, u0, base, isSigned, verbO, digits), SPACE)
    {
      hide Digits, Fill, Padded, Body, Prefix;
      var negative := isSigned && u0 >= TWO_64 / 2;
      var u := if negative then TWO_64 - u0 else u0;
      var b := room();
      var p: int := 0;
      if flags.precPresent {
        p := prec;
        if p == 0 && u == 0 {
          var oldZero := flags.zero;
          flags := flags.(zero := false);
          writePadding(wid);
          flags := flags.(zero := oldZero);
          return;
        }
      } else if flags.zero && !flags.minus && flags.widPresent {
        p := wid;
        if negative || flags.plus || flags.space { p := p - 1; }
      }
      assert p == Precision(flags, wid, prec, negative);
      var i := putInteger(b, u, negative, p, base, verbO, digits);
      padBlank(b[i..]);
    }

    /** Everything but the padding, from the right end of the buffer. */
    method putInteger(b: array<byte>, u: nat, negative: bool, p: int, base: nat, verbO: bool, digits: bytes)
      returns (i: nat)
      requires u < TWO_64 && IsBase(base) && |digits| == 17 && (verbO ==> base == 8)
      requires b.Length >= INTBUF_SIZE && (p > 0 ==> b.Length >= 3 + p)
      modifies b
      ensures var body := Body(u, base, digits, p);
        i <= b.Length && b[i..] == Sign(flags, negative) + Octal(verbO) + Prefix(flags, base, digits, body) + body
    {
      hide Body, Prefix, Sign;
      i := putBody(b, u, p, base, digits);
      ghost var body, pre := Body(u, base, digits, p), Prefix(flags, base, digits, Body(u, base, digits, p));
      RoomLeft(flags, wid, prec, u, base, digits, p, verbO, b.Length);
      i := putPrefix(b, i, base, digits);
      if verbO { i := putTwo(b, i, ZERO, 111); }
      assert b[i..] == Octal(verbO) + (pre + body);
      i := putSign(b, i, negative);
      Joins(Sign(flags, negative), Octal(verbO), pre, body);
    }

    /** The digits, and the zeros before them. */
    method putBody(b: array<byte>, u: nat, p: int, base: nat, digits: bytes) returns (i: nat)
      requires u < TWO_64 && IsBase(base) && |digits| == 17 && b.Length >= INTBUF_SIZE && p <= b.Length
      modifies b
      ensures |Digits(u, base, digits)| <= 64 && i == b.Length - |Body(u, base, digits, p)|
      ensures b[i..] == Body(u, base, digits, p)
    {
      hide Digits, Fill;
      AtMost64(u, base, digits);
      i := putDigits(b, u, base, digits);
      i := putZeros(b, i, p);
      assert |b[i..]| == b.Length - i;
    }

    /** 0x, 0b, and the like. */
    method putPrefix(b: array<byte>, i0: nat, base: nat, digits: bytes) returns (i: nat)
      requires i0 < b.Length && IsBase(base) && |digits| == 17 && i0 >= |Prefix(flags, base, digits, b[i0..])|
      modifies b
      ensures i == i0 - |Prefix(flags, base, digits, old(b[i0..]))|
      ensures b[i..] == Prefix(flags, base, digits, old(b[i0..])) + old(b[i0..])
    {
      ghost var body := b[i0..];
      assert body[0] == b[i0];
      i := i0;
      if flags.sharp {
        if base == 2 {
          i := putTwo(b, i, ZERO, 98);
        } else if base == 8 {
          if b[i] != ZERO { i := prepend(b, i, ZERO); }
        } else if base == 16 {
          i := putTwo(b, i, ZERO, digits[16]);
        }
      }
    }

    method putTwo(b: array<byte>, i0: nat, c: byte, d: byte) returns (i: nat)
      requires 2 <= i0 <= b.Length
      modifies b
      ensures i == i0 - 2 && b[i..] == [c, d] + old(b[i0..])
    {
      i := prepend(b, i0, d);
      i := prepend(b, i, c);
    }

    method putSign(b: array<byte>, i0: nat, negative: bool) returns (i: nat)
      requires 1 <= i0 <= b.Length
      modifies b
      ensures i <= i0 && b[i..] == Sign(flags, negative) + old(b[i0..])
    {
      i := i0;
      if negative {
        i := prepend(b, i, MINUS);
      } else if flags.plus {
        i := prepend(b, i, PLUS);
      } else if flags.space {
        i := prepend(b, i, SPACE);
      }
    }

    /** The quoted character, from the right end of the buffer; the rune's width is that of its encoding. */
    method putQuoted(b: array<byte>, u: nat, isPrint: int -> bool) returns (i: nat)
      requires Printing(isPrint) && b.Length >= 3 + UTF_MAX
      modifies b
      ensures i <= b.Length && b[i..] == Quoted(flags, u, isPrint)
    {
      i := b.Length;
      if flags.sharp && u <= MAX_RUNE && isPrint(u) {
        i := prepend(b, i, QUOTE);
        var r := EncodeRune(u);
        var j := i - |r|;
        forall k | 0 <= k < |r| { b[j + k] := r[k]; }
        assert b[j..] == r + [QUOTE];
        i := j;
        i := prepend(b, i, QUOTE);
        i := prepend(b, i, SPACE);
        assert [SPACE] + ([QUOTE] + (r + [QUOTE])) == [SPACE, QUOTE] + r + [QUOTE];
      }
    }

    /** Hexadecimal digits before what is already in the buffer; `prec` counts them down. */
    method putHexDigits(b: array<byte>, i0: nat, u0: nat, prec0: int) returns (i: nat, prec: int)
      requires i0 <= b.Length && |Digits(u0, 16, UDIGITS)| <= i0
      modifies b
      ensures i == i0 - |Digits(u0, 16, UDIGITS)| && prec == prec0 - |Digits(u0, 16, UDIGITS)|
      ensures b[i..] == Digits(u0, 16, UDIGITS) + old(b[i0..])
    {
      hide Digits;
      ghost var s, n := b[i0..], |Digits(u0, 16, UDIGITS)|;
      var u: nat := u0;
      i, prec := i0, prec0;
      while u >= 16
        invariant |Digits(u, 16, UDIGITS)| + (i0 - i) == n && i <= i0 && prec == prec0 - (i0 - i)
        invariant Digits(u, 16, UDIGITS) + b[i..] == Digits(u0, 16, UDIGITS) + s
      {
        ghost var rest := b[i..];
        i := prepend(b, i, UDIGITS[u % 16]);
        DigitStep(u, 16, UDIGITS, rest);
        prec := prec - 1;
        u := u / 16;
      }
      LastDigit(u, 16, UDIGITS);
      i := prepend(b, i, UDIGITS[u]);
      prec := prec - 1;
    }

    /** `n` zeros before what is already in the buffer. */
    method putFill(b: array<byte>, i0: nat, n: int) returns (i: nat)
      requires i0 <= b.Length && n <= i0
      modifies b
      ensures i == i0 - |Fill(n, ZERO)| && b[i..] == Fill(n, ZERO) + old(b[i0..])
    {
      hide Fill;
      ghost var s := b[i0..];
      var p := n;
      i := i0;
      assert Fill(0, ZERO) + s == s;
      while p > 0
        invariant i <= i0 && p == n - (i0 - i) && (p >= 0 || i == i0) && b[i..] == Fill(i0 - i, ZERO) + s
        decreases p
      {
        ZeroBefore(i0 - i + 1, s);
        i := prepend(b, i, ZERO);
        p := p - 1;
      }
      assert Fill(n, ZERO) == Fill(i0 - i, ZERO);
    }

    /** The number, with zeros before it until the precision is reached. */
    method putNumber(b: array<byte>, i0: nat, u: nat, p0: int) returns (i: nat)
      requires i0 <= b.Length && |Body(u, 16, UDIGITS, p0)| <= i0
      modifies b
      ensures i == i0 - |Body(u, 16, UDIGITS, p0)| && b[i..] == Body(u, 16, UDIGITS, p0) + old(b[i0..])
    {
      hide Digits, Fill;
      ghost var s := b[i0..];
      var p;
      i, p := putHexDigits(b, i0, u, p0);
      i := putFill(b, i, p);
      assert Fill(p, ZERO) + (Digits(u, 16, UDIGITS) + s) == Fill(p, ZERO) + Digits(u, 16, UDIGITS) + s;
    }

    /** fmtUnicode */
    method fmtUnicode(u: nat, isPrint: int -> bool)
      requires u < TWO_64 && Printing(isPrint) && intbuf.Length == INTBUF_SIZE
      modifies this`buf, this`flags, intbuf
      ensures flags == old(flags) && buf == old(buf) + Padded(flags, wid, UnicodeText(flags, prec, u, isPrint), SPACE)
    {
      hide Body, Padded, Quoted, Printing;
      var b := intbuf;
      var p := 4;
      if flags.precPresent && prec > 4 {
        p := prec;
        var width := 2 + p + 2 + UTF_MAX + 1;
        if width > b.Length { b := new byte[width]; }
      }
      UnicodeFits(flags, u, p, isPrint, b.Length);
      var i := putQuoted(b, u, isPrint);
      ghost var quoted := b[i..];
      assert |quoted| == b.Length - i;
      i := putNumber(b, i, u, p);
      i := putTwo(b, i, 85, PLUS);
      assert [85, PLUS] + (Body(u, 16, UDIGITS, p) + quoted) == [85, PLUS] + Body(u, 16, UDIGITS, p) + quoted;
      padBlank(b[i..]);
    }
  }

  function Pow16(k: nat): nat { if k == 0 then 1 else 16 * Pow16(k - 1) }

  lemma {:induction false} HexAtMost(u: nat, k: nat)
    requires k >= 1 && u < Pow16(k)
    ensures |Digits(u, 16, UDIGITS)| <= k
    decreases k
  {
    if u >= 16 { HexAtMost(u / 16, k - 1); }
  }

  /** Sixteen hexadecimal digits at most, and no more than six for a code point. */
  lemma HexFits(u: nat)
    requires u < TWO_64
    ensures |Digits(u, 16, UDIGITS)| <= 16 && (u <= MAX_RUNE ==> |Digits(u, 16, UDIGITS)| <= 6)
  {
    Pow16Plus4(0);
    Pow16Plus4(2);
    Pow16Plus4(4);
    Pow16Plus4(8);
    Pow16Plus4(12);
    HexAtMost(u, 16);
    if u <= MAX_RUNE { HexAtMost(u, 6); }
  }

  lemma Pow16Plus4(k: nat)
    ensures Pow16(k + 4) == 0x1_0000 * Pow16(k)
  {
    assert Pow16(k + 2) == 256 * Pow16(k);
  }

  /** The cursor of fmtUnicode never passes 0. */
  lemma UnicodeFits(f: Flags, u: nat, p: nat, isPrint: int -> bool, size: nat)
    requires u < TWO_64 && Printing(isPrint) && size >= INTBUF_SIZE && (p > 4 ==> size >= p + 9)
    ensures 2 + |Body(u, 16, UDIGITS, p)| + |Quoted(f, u, isPrint)| <= size
  {
    HexFits(u);
  }

  /** With %#U and a four-byte character, `prec` + 9 bytes are needed. */
  lemma UnicodeTight(f: Flags, u: nat, p: nat, isPrint: int -> bool)
    requires f.sharp && 0x10000 <= u <= MAX_RUNE && Printing(isPrint) && isPrint(u) && f.precPresent && p >= 6
    ensures |UnicodeText(f, p, u, isPrint)| == p + 9
  {
    HexFits(u);
  }
}
