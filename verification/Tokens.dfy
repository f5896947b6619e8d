/** The token estimate: a CJK character counts as one token, four other bytes of
    UTF-8 as one, rounded up. */
module Tokens {

  predicate IsCjk(c: char) {
    || 0x4E00 <= c as int <= 0x9FFF
    || 0x3040 <= c as int <= 0x309F
    || 0x30A0 <= c as int <= 0x30FF
  }

  function Utf8Width(c: char): nat {
    var r := c as int;
    if r < 0x80 then 1 else if r < 0x800 then 2 else if r < 0x10000 then 3 else 4
  }

  function ByteLength(s: string): (n: nat)
    ensures n >= |s|
  {
    if s == [] then 0 else Utf8Width(s[0]) + ByteLength(s[1..])
  }

  function CjkCount(s: string): (n: nat)
    ensures n <= |s|
  {
    if s == [] then 0 else (if IsCjk(s[0]) then 1 else 0) + CjkCount(s[1..])
  }

  function EstimateTokens(s: string): nat {
    (ByteLength(s) - CjkCount(s) + 3) / 4 + CjkCount(s)
  }

  lemma {:induction false} CountsConcat(a: string, b: string)
    ensures ByteLength(a + b) == ByteLength(a) + ByteLength(b)
    ensures CjkCount(a + b) == CjkCount(a) + CjkCount(b)
  {
    if a == [] {
      assert a + b == b;
    } else {
      assert (a + b)[1..] == a[1..] + b;
      CountsConcat(a[1..], b);
    }
  }

  /** Cutting a text in two changes its estimate by at most one token, and only
      non-empty texts cost any. */
  lemma EstimateSplits(a: string, b: string)
    ensures EstimateTokens(a + b) <= EstimateTokens(a) + EstimateTokens(b) <= EstimateTokens(a + b) + 1
    ensures EstimateTokens(a) == 0 <==> a == ""
  {
    CountsConcat(a, b);
  }

  /** An ASCII character. */
  predicate IsAscii(c: char) {
    c as int < 0x80
  }

  lemma {:induction false} AsciiCounts(s: string)
    requires forall i :: 0 <= i < |s| ==> IsAscii(s[i])
    ensures ByteLength(s) == |s| && CjkCount(s) == 0
  {
    if s != "" {
      AsciiCounts(s[1..]);
    }
  }

  /** Chinese ideographs, hiragana and katakana. */
  predicate IsIdeographOrKana(c: char) {
    0x4E00 <= c as int <= 0x9FFF || 0x3040 <= c as int <= 0x30FF
  }

  lemma {:induction false} CjkCounts(s: string)
    requires forall i :: 0 <= i < |s| ==> IsIdeographOrKana(s[i])
    ensures ByteLength(s) == 3 * |s| && CjkCount(s) == |s|
  {
    if s != "" {
      CjkCounts(s[1..]);
    }
  }

  /** Four ASCII characters make a token.  An ideograph or kana makes one too, but two of
      its three bytes are counted again as if they were other text. */
  lemma EstimateIs(ascii: string, cjk: string)
    requires forall i :: 0 <= i < |ascii| ==> IsAscii(ascii[i])
    requires forall i :: 0 <= i < |cjk| ==> IsIdeographOrKana(cjk[i])
    ensures var n := EstimateTokens(ascii + cjk) - |cjk|; 4 * n - 3 <= |ascii| + 2 * |cjk| <= 4 * n
  {
    CountsConcat(ascii, cjk);
    AsciiCounts(ascii);
    CjkCounts(cjk);
  }
}
