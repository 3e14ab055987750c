/**
 * Well-formed UTF-8 as defined in sections 3 and 4 of RFC 3629: the byte
 * sequences `std::str::from_utf8` accepts. Overlong forms, surrogates
 * (U+D800..U+DFFF) and code points above U+10FFFF are rejected.
 */
module Utf8 {
  import opened Common

  predicate IsTail(b: u8)
  {
    0x80 <= b <= 0xBF
  }

  /**
   * The length of the well-formed UTF-8 character at the start of `s`
   * (the UTF8-char rule of RFC 3629 section 4), or 0 if `s` does not start
   * with one.
   */
  function CharWidth(s: Bytes): (w: nat)
    ensures w <= 4 && w <= |s|
    ensures |s| > 0 && s[0] < 0x80 ==> w == 1
    ensures |s| > 0 && IsTail(s[0]) ==> w == 0
  {
    if |s| == 0 then 0
    else
      var b0 := s[0];
      if b0 <= 0x7F then 1
      else if 0xC2 <= b0 <= 0xDF then
        (if |s| >= 2 && IsTail(s[1]) then 2 else 0)
      else if b0 == 0xE0 then
        (if |s| >= 3 && 0xA0 <= s[1] <= 0xBF && IsTail(s[2]) then 3 else 0)
      else if 0xE1 <= b0 <= 0xEC || 0xEE <= b0 <= 0xEF then
        (if |s| >= 3 && IsTail(s[1]) && IsTail(s[2]) then 3 else 0)
      else if b0 == 0xED then
        (if |s| >= 3 && 0x80 <= s[1] <= 0x9F && IsTail(s[2]) then 3 else 0)
      else if b0 == 0xF0 then
        (if |s| >= 4 && 0x90 <= s[1] <= 0xBF && IsTail(s[2]) && IsTail(s[3]) then 4 else 0)
      else if 0xF1 <= b0 <= 0xF3 then
        (if |s| >= 4 && IsTail(s[1]) && IsTail(s[2]) && IsTail(s[3]) then 4 else 0)
      else if b0 == 0xF4 then
        (if |s| >= 4 && 0x80 <= s[1] <= 0x8F && IsTail(s[2]) && IsTail(s[3]) then 4 else 0)
      else 0
  }

  /** `s` is a sequence of well-formed UTF-8 characters (the UTF8-octets rule). */
  predicate ValidUtf8(s: Bytes)
    decreases |s|
  {
    |s| == 0 || (CharWidth(s) > 0 && ValidUtf8(s[CharWidth(s)..]))
  }

  /** A Rust `String`/`&str`: bytes that are well-formed UTF-8. */
  type Utf8String = s: Bytes | ValidUtf8(s) witness []

  /** The width of a character depends only on its own bytes, not on what follows them. */
  lemma CharWidthPrefix(a: Bytes, b: Bytes)
    requires CharWidth(a) > 0
    ensures CharWidth(a + b) == CharWidth(a)
  {
    assert forall i :: 0 <= i < |a| ==> (a + b)[i] == a[i];
  }

  /** Well-formed strings are closed under concatenation. */
  lemma {:induction false} ConcatValid(a: Bytes, b: Bytes)
    requires ValidUtf8(a) && ValidUtf8(b)
    ensures ValidUtf8(a + b)
  {
    if |a| > 0 {
      var w := CharWidth(a);
      CharWidthPrefix(a, b);
      assert (a + b)[w..] == a[w..] + b;
      ConcatValid(a[w..], b);
    } else {
      assert a + b == b;
    }
  }

  /** Every ASCII string is well-formed. */
  lemma {:induction false} AsciiValid(s: Bytes)
    requires forall i :: 0 <= i < |s| ==> s[i] < 0x80
    ensures ValidUtf8(s)
  {
    if |s| > 0 {
      AsciiValid(s[1..]);
    }
  }

  /** A string that starts with a continuation byte, such as 0xFF or 0x80, is rejected. */
  lemma LeadingTailInvalid(s: Bytes)
    requires |s| > 0 && (IsTail(s[0]) || s[0] >= 0xF5 || s[0] == 0xC0 || s[0] == 0xC1)
    ensures !ValidUtf8(s)
  {
  }
}
