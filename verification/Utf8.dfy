/**
 UTF-8 as section 4 of RFC 3629 defines it, the decoder the program uses on it, and the
 test that decides whether the first bytes of a file look like text.
 */
module Utf8 {
  import opened Common

  const RUNE_ERROR := 0xFFFD

  // --------------------------------------------------- the grammar of RFC 3629

  predicate Tail(b: Byte) {
    0x80 <= b <= 0xBF
  }

  /** UTF8-char: exactly one well-formed encoded character. */
  predicate Utf8Char(c: Bytes) {
    || (|c| == 1 && c[0] <= 0x7F)
    || (|c| == 2 && 0xC2 <= c[0] <= 0xDF && Tail(c[1]))
    || (|c| == 3 && c[0] == 0xE0 && 0xA0 <= c[1] <= 0xBF && Tail(c[2]))
    || (|c| == 3 && 0xE1 <= c[0] <= 0xEC && Tail(c[1]) && Tail(c[2]))
    || (|c| == 3 && c[0] == 0xED && 0x80 <= c[1] <= 0x9F && Tail(c[2]))
    || (|c| == 3 && 0xEE <= c[0] <= 0xEF && Tail(c[1]) && Tail(c[2]))
    || (|c| == 4 && c[0] == 0xF0 && 0x90 <= c[1] <= 0xBF && Tail(c[2]) && Tail(c[3]))
    || (|c| == 4 && 0xF1 <= c[0] <= 0xF3 && Tail(c[1]) && Tail(c[2]) && Tail(c[3]))
    || (|c| == 4 && c[0] == 0xF4 && 0x80 <= c[1] <= 0x8F && Tail(c[2]) && Tail(c[3]))
  }

  /** UTF8-octets: a sequence of characters. */
  predicate ValidUtf8(s: Bytes)
    decreases |s|
  {
    || s == []
    || (|s| >= 1 && Utf8Char(s[..1]) && ValidUtf8(s[1..]))
    || (|s| >= 2 && Utf8Char(s[..2]) && ValidUtf8(s[2..]))
    || (|s| >= 3 && Utf8Char(s[..3]) && ValidUtf8(s[3..]))
    || (|s| >= 4 && Utf8Char(s[..4]) && ValidUtf8(s[4..]))
  }

  // --------------------------------------------------------------- the decoder

  /** The length a first byte announces; 0 when it cannot start a character. */
  function Announced(b: Byte): nat {
    if b < 0x80 then 1
    else if b < 0xC2 then 0
    else if b < 0xE0 then 2
    else if b < 0xF0 then 3
    else if b < 0xF5 then 4
    else 0
  }

  function SecondLow(b: Byte): Byte {
    if b == 0xE0 then 0xA0 else if b == 0xF0 then 0x90 else 0x80
  }

  function SecondHigh(b: Byte): Byte {
    if b == 0xED then 0x9F else if b == 0xF4 then 0x8F else 0xBF
  }

  predicate SecondAccepted(b: Byte, second: Byte) {
    SecondLow(b) <= second <= SecondHigh(b)
  }

  /** Six more payload bits. */
  function Append6(rune: int, bits: int): int {
    rune * 64 + bits
  }

  /** The rune at the start and its width; an error is RUNE_ERROR with width 1 (0 at the end). */
  function Decode(s: Bytes): (int, nat) {
    if s == [] then (RUNE_ERROR, 0)
    else
      var w := Announced(s[0]);
      if w == 1 then (s[0], 1)
      else if w == 0 || |s| < w || !SecondAccepted(s[0], s[1]) then (RUNE_ERROR, 1)
      else if w == 2 then (Append6(s[0] - 0xC0, s[1] - 0x80), 2)
      else if !Tail(s[2]) then (RUNE_ERROR, 1)
      else if w == 3 then (Append6(Append6(s[0] - 0xE0, s[1] - 0x80), s[2] - 0x80), 3)
      else if !Tail(s[3]) then (RUNE_ERROR, 1)
      else (Append6(Append6(Append6(s[0] - 0xF0, s[1] - 0x80), s[2] - 0x80), s[3] - 0x80), 4)
  }

  predicate DecodeFails(s: Bytes) {
    Decode(s).0 == RUNE_ERROR && Decode(s).1 <= 1
  }

  /** Whether the bytes start with a whole rune or an encoding error that is already certain. */
  predicate FullRune(s: Bytes) {
    && s != []
    && var w := Announced(s[0]);
       || |s| >= (if w == 0 then 1 else w)
       || (|s| > 1 && !SecondAccepted(s[0], s[1]))
       || (|s| > 2 && !Tail(s[2]))
  }

  /** The decoder accepts exactly the characters of the grammar, and reports their width. */
  lemma DecodeExact(s: Bytes, k: nat)
    requires k <= |s|
    ensures Utf8Char(s[..k]) <==> !DecodeFails(s) && Decode(s).1 == k
  {
  }

  lemma ValidSplits(s: Bytes)
    requires s != []
    ensures ValidUtf8(s) <==> !DecodeFails(s) && Decode(s).1 <= |s| && ValidUtf8(s[Decode(s).1..])
    ensures !DecodeFails(s) ==> 1 <= Decode(s).1 <= |s|
  {
    var k := Decode(s).1;
    if |s| >= 1 { DecodeExact(s, 1); }
    if |s| >= 2 { DecodeExact(s, 2); }
    if |s| >= 3 { DecodeExact(s, 3); }
    if |s| >= 4 { DecodeExact(s, 4); }
  }

  /** Decoding looks no further than the rune it reports. */
  lemma DecodePrefix(s: Bytes, t: Bytes)
    requires FullRune(s)
    ensures Decode(s + t) == Decode(s)
  {
  }

  lemma {:induction false} ValidConcat(a: Bytes, b: Bytes)
    requires ValidUtf8(a) && ValidUtf8(b)
    ensures ValidUtf8(a + b)
    decreases |a|
  {
    if a == [] {
      assert a + b == b;
    } else {
      ValidSplits(a);
      var k := Decode(a).1;
      ValidConcat(a[k..], b);
      DropOfConcat(a, b, k);
      assert FullRune(a);
      DecodePrefix(a, b);
      ValidSplits(a + b);
    }
  }

  // ----------------------------------------------------------------- text heads

  /** Some continuation turns the bytes into well-formed UTF-8. */
  ghost predicate Extensible(s: Bytes) {
    exists t: Bytes :: ValidUtf8(s + t)
  }

  /** Bytes that announce a rune and do not contradict it can be completed. */
  lemma IncompleteRuneExtends(s: Bytes)
    requires !FullRune(s)
    ensures Extensible(s)
  {
    if s == [] {
      assert ValidUtf8(s + []);
    } else {
      var w := Announced(s[0]);
      var second: Bytes := if |s| > 1 then [] else [SecondLow(s[0])];
      var fill: Bytes := if w == 2 then [] else if w == 3 || |s| == 3 then [0x80] else [0x80, 0x80];
      var t := second + fill;
      assert Utf8Char((s + t)[..w]);
      assert (s + t)[w..] == [];
      assert ValidUtf8(s + t);
    }
  }

  lemma ExtensibleStep(s: Bytes)
    requires FullRune(s)
    ensures DecodeFails(s) ==> !Extensible(s)
    ensures !DecodeFails(s) ==> 1 <= Decode(s).1 <= |s| && (Extensible(s) <==> Extensible(s[Decode(s).1..]))
  {
    var k := Decode(s).1;
    ValidSplits(s);
    forall t: Bytes
      ensures ValidUtf8(s + t) <==> !DecodeFails(s) && ValidUtf8(s[k..] + t)
    {
      DecodePrefix(s, t);
      ValidSplits(s + t);
      if !DecodeFails(s) {
        DropOfConcat(s, t, k);
      }
    }
  }

  /** The head test accepts a byte string exactly when some suffix makes it well-formed. */
  method ValidTextHead(bytes: Bytes) returns (ok: bool)
    ensures ok <==> Extensible(bytes)
  {
    var head := bytes;
    while |head| > 0
      invariant Extensible(bytes) <==> Extensible(head)
      decreases |head|
    {
      if !FullRune(head) {
        IncompleteRuneExtends(head);
        return true;
      }
      ExtensibleStep(head);
      var rune := Decode(head);
      if rune.0 == RUNE_ERROR && rune.1 == 1 {
        return false;
      }
      head := head[rune.1..];
    }
    IncompleteRuneExtends(head);
    ok := true;
  }
}
