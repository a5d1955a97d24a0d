/** UTF-8, as `str.encode("utf-8")` writes it and as `json.loads` reads it back from `bytes`. */
module Utf8 {
  import opened Octets

  /** A Unicode scalar value: a code point that is not a surrogate. */
  predicate IsScalar(n: int)
  {
    (0 <= n < 0xD800) || (0xE000 <= n < 0x11_0000)
  }

  /** The bytes of one character: 1 to 4 of them, by the size of its code point. */
  function EncodeChar(c: char): (bs: Bytes)
    ensures 1 <= |bs| <= 4
  {
    var n := c as int;
    if n < 0x80 then [n as byte]
    else
      var r1 := n / 64;
      if n < 0x800 then [(0xC0 + r1) as byte, (0x80 + n % 64) as byte]
      else
        var r2 := r1 / 64;
        if n < 0x1_0000 then [(0xE0 + r2) as byte, (0x80 + r1 % 64) as byte, (0x80 + n % 64) as byte]
        else
          [(0xF0 + r2 / 64) as byte, (0x80 + r2 % 64) as byte, (0x80 + r1 % 64) as byte, (0x80 + n % 64) as byte]
  }

  /** `s.encode("utf-8")`. */
  function Encode(s: string): (bs: Bytes)
    ensures |s| <= |bs| <= 4 * |s|
  {
    if s == [] then [] else EncodeChar(s[0]) + Encode(s[1..])
  }

  predicate IsContinuation(b: byte)
  {
    0x80 <= b < 0xC0
  }

  /** Reads one character from the front of `bs`: the character and the number of bytes it took.
      Overlong forms, surrogates and code points past U+10FFFF are refused, as a strict decoder does. */
  function DecodeChar(bs: Bytes): (r: Option<(char, nat)>)
    ensures r.Some? ==> 1 <= r.value.1 <= |bs|
  {
    if bs == [] then None
    else
      var b0 := bs[0] as int;
      if b0 < 0x80 then Some((b0 as char, 1))
      else if 0xC0 <= b0 < 0xE0 && |bs| >= 2 && IsContinuation(bs[1]) then
        var n := (b0 - 0xC0) * 64 + (bs[1] as int - 0x80);
        if 0x80 <= n then Some((n as char, 2)) else None
      else if 0xE0 <= b0 < 0xF0 && |bs| >= 3 && IsContinuation(bs[1]) && IsContinuation(bs[2]) then
        var n := ((b0 - 0xE0) * 64 + (bs[1] as int - 0x80)) * 64 + (bs[2] as int - 0x80);
        if 0x800 <= n && IsScalar(n) then Some((n as char, 3)) else None
      else if 0xF0 <= b0 < 0xF8 && |bs| >= 4 && IsContinuation(bs[1]) && IsContinuation(bs[2]) && IsContinuation(bs[3]) then
        var n := (((b0 - 0xF0) * 64 + (bs[1] as int - 0x80)) * 64 + (bs[2] as int - 0x80)) * 64 + (bs[3] as int - 0x80);
        if 0x1_0000 <= n && IsScalar(n) then Some((n as char, 4)) else None
      else None
  }

  /** `bs.decode("utf-8")`, or None where that raises. */
  function Decode(bs: Bytes): Option<string>
    decreases |bs|
  {
    if bs == [] then Some([])
    else match DecodeChar(bs)
      case None => None
      case Some((c, k)) =>
        match Decode(bs[k..])
        case None => None
        case Some(rest) => Some([c] + rest)
  }

  lemma DecodeEncodeChar(c: char, rest: Bytes)
    ensures DecodeChar(EncodeChar(c) + rest) == Some((c, |EncodeChar(c)|))
  {
    var n := c as int;
    var bs := EncodeChar(c) + rest;
    var r1 := n / 64;
    var r2 := r1 / 64;
    assert n == r1 * 64 + n % 64;
    assert r1 == r2 * 64 + r1 % 64;
    assert r2 == (r2 / 64) * 64 + r2 % 64;
    if n < 0x80 {
    } else if n < 0x800 {
      assert r1 < 32;
    } else if n < 0x1_0000 {
      assert r2 < 16;
    } else {
      assert r2 / 64 < 8;
    }
  }

  /** What `Encode` writes, `Decode` reads back. */
  lemma {:induction false} DecodeEncode(s: string)
    ensures Decode(Encode(s)) == Some(s)
  {
    if s != [] {
      var bs := Encode(s);
      var k := |EncodeChar(s[0])|;
      DecodeEncodeChar(s[0], Encode(s[1..]));
      assert bs[k..] == Encode(s[1..]);
      DecodeEncode(s[1..]);
      assert [s[0]] + s[1..] == s;
    }
  }

  /** Two strings with the same UTF-8 bytes are the same string. */
  lemma EncodeInjective(s: string, t: string)
    ensures Encode(s) == Encode(t) <==> s == t
  {
    if Encode(s) == Encode(t) {
      DecodeEncode(s);
      DecodeEncode(t);
    }
  }
}
