/** Byte strings, the currency of every component modelled here. */
module Bytes {
  type byte = x: int | 0 <= x < 256

  type bytes = seq<byte>

  const SLASH: byte := 47
  const COLON: byte := 58
  const STAR: byte := 42
  const BACKSLASH: byte := 92

  /** strings.HasSuffix. */
  predicate HasSuffix(s: bytes, suffix: bytes) {
    |suffix| <= |s| && s[|s| - |suffix|..] == suffix
  }

  /** bytes.IndexByte. */
  function IndexByte(s: bytes, c: byte): (i: int)
    ensures -1 <= i < |s|
    ensures i >= 0 ==> s[i] == c && c !in s[..i]
    ensures i < 0 <==> c !in s
  {
    if s == [] then -1
    else if s[0] == c then 0
    else
      var i := IndexByte(s[1..], c);
      assert i >= 0 ==> s[..i+1] == [s[0]] + s[1..][..i];
      if i < 0 then -1 else i + 1
  }

  lemma {:induction false} IndexJoin(s: bytes, t: bytes, c: byte)
    requires c in s
    ensures IndexByte(s + t, c) == IndexByte(s, c)
  {
    if s[0] != c {
      assert (s + t)[1..] == s[1..] + t;
      IndexJoin(s[1..], t, c);
    }
  }
}
