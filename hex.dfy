/** Python's `bytes.hex()`: two lower-case hexadecimal digits per byte, and its inverse. */
module Hex {
  import opened Octets

  const Digits: string := "0123456789abcdef"

  predicate IsLowerHexDigit(c: char)
  {
    ('0' <= c <= '9') || ('a' <= c <= 'f')
  }

  /** The lower-case digit for a value below 16. */
  function DigitChar(d: nat): (c: char)
    requires d < 16
    ensures IsLowerHexDigit(c)
    ensures DigitValue(c) == Some(d)
  {
    Digits[d]
  }

  /** The value of a hexadecimal digit of either case (JSON's `\u` escapes accept both). */
  function DigitValue(c: char): Option<nat>
  {
    if '0' <= c <= '9' then Some(c as int - '0' as int)
    else if 'a' <= c <= 'f' then Some(c as int - 'a' as int + 10)
    else if 'A' <= c <= 'F' then Some(c as int - 'A' as int + 10)
    else None
  }

  /** The two digits of one byte, high nibble first. */
  function ByteHex(b: byte): string
  {
    [DigitChar(b as int / 16), DigitChar(b as int % 16)]
  }

  /** `bytes.hex()`. */
  function ToHex(bs: Bytes): (s: string)
    ensures |s| == 2 * |bs|
    ensures forall i :: 0 <= i < |s| ==> IsLowerHexDigit(s[i])
  {
    if bs == [] then [] else ByteHex(bs[0]) + ToHex(bs[1..])
  }

  /** Reads back what `ToHex` writes: pairs of lower-case digits. */
  function FromHex(s: string): Option<Bytes>
    decreases |s|
  {
    if s == [] then Some([])
    else if |s| == 1 || !IsLowerHexDigit(s[0]) || !IsLowerHexDigit(s[1]) then None
    else
      var hi, lo := DigitValue(s[0]).value, DigitValue(s[1]).value;
      match FromHex(s[2..])
      case None => None
      case Some(rest) => Some([(hi * 16 + lo) as byte] + rest)
  }

  /** The two digits of a byte read back as the byte. */
  lemma ByteHexValue(b: byte)
    ensures DigitValue(ByteHex(b)[0]).value * 16 + DigitValue(ByteHex(b)[1]).value == b as int
  {
  }

  lemma {:induction false} FromToHex(bs: Bytes)
    ensures FromHex(ToHex(bs)) == Some(bs)
  {
    if bs != [] {
      var s := ToHex(bs);
      assert s[..2] == ByteHex(bs[0]) && s[2..] == ToHex(bs[1..]);
      ByteHexValue(bs[0]);
      FromToHex(bs[1..]);
      assert [bs[0]] + bs[1..] == bs;
    }
  }

  /** Comparing two hex renderings is comparing the bytes they render. */
  lemma ToHexInjective(a: Bytes, b: Bytes)
    ensures ToHex(a) == ToHex(b) <==> a == b
  {
    if ToHex(a) == ToHex(b) {
      FromToHex(a);
      FromToHex(b);
    }
  }
}
