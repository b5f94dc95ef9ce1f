/**
 * The string formatting the sender performs itself: `"%d"` of a status code,
 * replacing double quotes in an exception message, and the lower-case hex
 * digest of a hash, together with substring occurrence.
 */
module Text {

  type byte = b: int | 0 <= b < 256

  /** A SHA-256 digest: exactly 32 bytes. */
  type Digest = s: seq<byte> | |s| == 32 witness seq(32, _ => 0)

  predicate IsDigit(c: char) {
    '0' <= c <= '9'
  }

  predicate IsHexDigit(c: char) {
    '0' <= c <= '9' || 'a' <= c <= 'f'
  }

  // ---------------------------------------------------------------------------
  // Decimal rendering, as Python's "%d" does it

  function DigitChar(d: int): (c: char)
    requires 0 <= d < 10
    ensures IsDigit(c)
  {
    ('0' as int + d) as char
  }

  function DigitValue(c: char): (d: int)
    requires IsDigit(c)
    ensures 0 <= d < 10
  {
    c as int - '0' as int
  }

  /** The shortest decimal numeral of `n`, most significant digit first. */
  function NatToDecimal(n: nat): (s: string)
    ensures |s| > 0
    ensures forall i :: 0 <= i < |s| ==> IsDigit(s[i])
    ensures |s| > 1 ==> s[0] != '0'
  {
    if n < 10 then [DigitChar(n)]
    else NatToDecimal(n / 10) + [DigitChar(n % 10)]
  }

  /** Reads back a string of digits. */
  function ParseNat(s: string): nat
    requires forall i :: 0 <= i < |s| ==> IsDigit(s[i])
  {
    if |s| == 0 then 0
    else ParseNat(s[..|s| - 1]) * 10 + DigitValue(s[|s| - 1])
  }

  /** `"%d" % i`: an optional minus sign followed by the digits of `|i|`. */
  function Decimal(i: int): (s: string)
    ensures |s| > 0
    ensures i < 0 <==> s[0] == '-'
  {
    if i < 0 then "-" + NatToDecimal(-i) else NatToDecimal(i)
  }

  function ParseDecimal(s: string): int
    requires |s| > 0
    requires forall k :: (if s[0] == '-' then 1 else 0) <= k < |s| ==> IsDigit(s[k])
  {
    if s[0] == '-' then -(ParseNat(s[1..]) as int) else ParseNat(s)
  }

  lemma {:induction false} ParseNatOfDecimal(n: nat)
    ensures ParseNat(NatToDecimal(n)) == n
    decreases n
  {
    if n >= 10 {
      var s := NatToDecimal(n);
      var front := NatToDecimal(n / 10);
      assert s == front + [DigitChar(n % 10)];
      assert s[..|s| - 1] == front;
      ParseNatOfDecimal(n / 10);
    }
  }

  /** Rendering a status code with "%d" loses nothing: the numeral reads back to the code. */
  lemma DecimalRoundTrip(i: int)
    ensures ParseDecimal(Decimal(i)) == i
  {
    if i < 0 {
      var s := Decimal(i);
      assert s[1..] == NatToDecimal(-i);
      ParseNatOfDecimal(-i);
    } else {
      ParseNatOfDecimal(i);
    }
  }

  // ---------------------------------------------------------------------------
  // Quote replacement, as `str(ex).replace('"', "'")`

  /** Every double quote replaced by a single quote, every other character kept. */
  function ReplaceQuotes(s: string): (r: string)
    ensures |r| == |s|
    ensures forall i :: 0 <= i < |r| ==> r[i] != '"'
  {
    if |s| == 0 then ""
    else [if s[0] == '"' then '\'' else s[0]] + ReplaceQuotes(s[1..])
  }

  /** The replacement touches only double quotes: every other position is unchanged. */
  lemma {:induction false} ReplaceQuotesKeepsOthers(s: string)
    ensures forall i :: 0 <= i < |s| && s[i] != '"' ==> ReplaceQuotes(s)[i] == s[i]
    ensures forall i :: 0 <= i < |s| && s[i] == '"' ==> ReplaceQuotes(s)[i] == '\''
  {
    if |s| > 0 {
      ReplaceQuotesKeepsOthers(s[1..]);
      var r := ReplaceQuotes(s);
      assert forall i :: 1 <= i < |s| ==> r[i] == ReplaceQuotes(s[1..])[i - 1];
    }
  }

  /** A message without double quotes comes through unchanged. */
  lemma {:induction false} ReplaceQuotesFixesQuoteFree(s: string)
    requires forall i :: 0 <= i < |s| ==> s[i] != '"'
    ensures ReplaceQuotes(s) == s
  {
    if |s| > 0 {
      ReplaceQuotesFixesQuoteFree(s[1..]);
    }
  }

  /** Replacing twice is replacing once. */
  lemma ReplaceQuotesIdempotent(s: string)
    ensures ReplaceQuotes(ReplaceQuotes(s)) == ReplaceQuotes(s)
  {
    ReplaceQuotesFixesQuoteFree(ReplaceQuotes(s));
  }

  // ---------------------------------------------------------------------------
  // Lower-case hexadecimal, as `hexdigest()`

  function HexChar(d: int): (c: char)
    requires 0 <= d < 16
    ensures IsHexDigit(c)
  {
    if d < 10 then ('0' as int + d) as char else ('a' as int + d - 10) as char
  }

  function HexValue(c: char): (d: int)
    requires IsHexDigit(c)
    ensures 0 <= d < 16
    ensures HexChar(d) == c
  {
    if c <= '9' then c as int - '0' as int else c as int - 'a' as int + 10
  }

  /** Two lower-case hex digits per byte, high nibble first. */
  function Hex(bs: seq<byte>): (h: string)
    ensures |h| == 2 * |bs|
    ensures forall i :: 0 <= i < |h| ==> IsHexDigit(h[i])
  {
    if |bs| == 0 then ""
    else [HexChar(bs[0] / 16), HexChar(bs[0] % 16)] + Hex(bs[1..])
  }

  function UnHex(h: string): (bs: seq<byte>)
    requires |h| % 2 == 0
    requires forall i :: 0 <= i < |h| ==> IsHexDigit(h[i])
  {
    if |h| == 0 then []
    else [HexValue(h[0]) * 16 + HexValue(h[1])] + UnHex(h[2..])
  }

  /** The hex rendering of a digest is faithful: reading it back yields the digest. */
  lemma {:induction false} UnHexHex(bs: seq<byte>)
    ensures UnHex(Hex(bs)) == bs
  {
    if |bs| > 0 {
      var h := Hex(bs);
      assert h[2..] == Hex(bs[1..]);
      assert HexValue(h[0]) == bs[0] / 16;
      assert HexValue(h[1]) == bs[0] % 16;
      UnHexHex(bs[1..]);
    }
  }

  /** `needle` appears in `hay` starting at position `i`. */
  predicate OccursAt(needle: string, hay: string, i: int) {
    0 <= i <= |hay| - |needle| && hay[i..i + |needle|] == needle
  }

  /** Python's `needle in hay` for strings. */
  ghost predicate IsInfix(needle: string, hay: string) {
    exists i :: OccursAt(needle, hay, i)
  }
}
