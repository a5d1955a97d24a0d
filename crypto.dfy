/** `sha256d`, `hmac_sha256` and `Transaction.txid`. SHA-256 itself (FIPS 180-4) is not modelled:
    every definition here takes the hash function as a parameter and holds for any function
    from bytes to 32-byte digests. HMAC is built on it as RFC 2104 describes. */
module Crypto {
  import opened Octets
  import Hex
  import Tx

  /** A SHA-256 implementation: some function from bytes to a 32-byte digest. */
  type HashFn = Bytes -> Digest

  /** Two different inputs with the same digest. */
  predicate Collision(h: HashFn, x: Bytes, y: Bytes)
  {
    x != y && h(x) == h(y)
  }

  /** `sha256d`: the digest of the digest. */
  function Sha256d(h: HashFn, b: Bytes): Digest
  {
    h(h(b))
  }

  /** SHA-256 works on 64-byte blocks; HMAC pads its key to one block. */
  const BlockSize: nat := 64
  const InnerPad: byte := 0x36
  const OuterPad: byte := 0x5c

  /** The key as HMAC uses it: hashed first when longer than a block, then zero-filled to a block. */
  function KeyBlock(h: HashFn, key: Bytes): (kb: Bytes)
    ensures |kb| == BlockSize
    ensures |key| <= BlockSize ==> kb[..|key|] == key
    ensures |key| <= BlockSize ==> forall i :: |key| <= i < BlockSize ==> kb[i] == 0
    ensures |key| > BlockSize ==> kb[..32] == h(key)
    ensures |key| > BlockSize ==> forall i :: 32 <= i < BlockSize ==> kb[i] == 0
  {
    var k := if |key| > BlockSize then h(key) else key;
    k + Zeros(BlockSize - |k|)
  }

  /** Each byte of `kb` xor-ed with `pad`. */
  function XorPad(kb: Bytes, pad: byte): (r: Bytes)
    ensures |r| == |kb|
    ensures forall i :: 0 <= i < |kb| ==> r[i] == Xor(kb[i], pad)
  {
    seq(|kb|, i requires 0 <= i < |kb| => Xor(kb[i], pad))
  }

  /** `hmac_sha256(key, msg)`: H((K xor opad) || H((K xor ipad) || msg)). */
  function Hmac(h: HashFn, key: Bytes, msg: Bytes): Digest
  {
    var kb := KeyBlock(h, key);
    h(XorPad(kb, OuterPad) + h(XorPad(kb, InnerPad) + msg))
  }

  /** `hmac_sha256(key, msg).hex()`, the signature as the session stores it. */
  function SignatureHex(h: HashFn, key: Bytes, msg: Bytes): (sig: string)
    ensures |sig| == 64
    ensures forall i :: 0 <= i < |sig| ==> Hex.IsLowerHexDigit(sig[i])
  {
    Hex.ToHex(Hmac(h, key, msg))
  }

  /** `Transaction.txid`: the double hash of the serialization, as 64 lower-case hex digits. */
  function Txid(h: HashFn, tx: Tx.Transaction): (id: string)
    ensures |id| == 64
    ensures forall i :: 0 <= i < |id| ==> Hex.IsLowerHexDigit(id[i])
  {
    Hex.ToHex(Sha256d(h, Tx.Serialize(tx)))
  }

  /** The txid reads back as the double hash of the serialization. */
  lemma TxidDigest(h: HashFn, tx: Tx.Transaction)
    ensures var d: Bytes := Sha256d(h, Tx.Serialize(tx)); Hex.FromHex(Txid(h, tx)) == Some(d)
  {
    Hex.FromToHex(Sha256d(h, Tx.Serialize(tx)));
  }

  /** Comparing signatures as hex strings is comparing the HMAC digests. */
  lemma SignatureHexCompare(h: HashFn, key: Bytes, a: Bytes, b: Bytes)
    ensures SignatureHex(h, key, a) == SignatureHex(h, key, b) <==> Hmac(h, key, a) == Hmac(h, key, b)
  {
    Hex.ToHexInjective(Hmac(h, key, a), Hmac(h, key, b));
  }

  lemma XorPadTwice(kb: Bytes, pad: byte)
    ensures XorPad(XorPad(kb, pad), pad) == kb
  {
    forall i | 0 <= i < |kb| ensures XorPad(XorPad(kb, pad), pad)[i] == kb[i] {
      XorTwice(kb[i], pad);
    }
  }

  /** Keys of one length up to a block (the session's keys have 32 bytes) give different
      padded blocks, and so different inner and outer pads, exactly when they differ. */
  lemma KeyPadsInjective(h: HashFn, k1: Bytes, k2: Bytes, pad: byte)
    requires |k1| == |k2| <= BlockSize
    ensures XorPad(KeyBlock(h, k1), pad) == XorPad(KeyBlock(h, k2), pad) <==> k1 == k2
  {
    var b1, b2 := KeyBlock(h, k1), KeyBlock(h, k2);
    if XorPad(b1, pad) == XorPad(b2, pad) {
      XorPadTwice(b1, pad);
      XorPadTwice(b2, pad);
      assert b1[..|k1|] == k1 && b2[..|k2|] == k2;
    }
  }

  /** A signature made under one session key does not check under another key of the same
      length: one message with one HMAC under two such keys exhibits a SHA-256 collision, on
      the outer hash, whose inputs begin with the two different outer pads. */
  lemma HmacKeyClash(h: HashFn, k1: Bytes, k2: Bytes, m: Bytes) returns (x: Bytes, y: Bytes)
    requires |k1| == |k2| <= BlockSize && k1 != k2 && Hmac(h, k1, m) == Hmac(h, k2, m)
    ensures Collision(h, x, y)
  {
    var b1, b2 := KeyBlock(h, k1), KeyBlock(h, k2);
    x := XorPad(b1, OuterPad) + h(XorPad(b1, InnerPad) + m);
    y := XorPad(b2, OuterPad) + h(XorPad(b2, InnerPad) + m);
    KeyPadsInjective(h, k1, k2, OuterPad);
    assert x[..BlockSize] == XorPad(b1, OuterPad) && y[..BlockSize] == XorPad(b2, OuterPad);
  }

  /** Two different records with one txid exhibit a SHA-256 collision, on the serializations
      or on their digests. */
  lemma TxidClash(h: HashFn, a: Tx.Transaction, b: Tx.Transaction) returns (x: Bytes, y: Bytes)
    requires a != b && Txid(h, a) == Txid(h, b)
    ensures Collision(h, x, y)
  {
    var sa, sb := Tx.Serialize(a), Tx.Serialize(b);
    Tx.SerializeInjective(a, b);
    Hex.ToHexInjective(Sha256d(h, sa), Sha256d(h, sb));
    if h(sa) == h(sb) {
      x, y := sa, sb;
    } else {
      x, y := h(sa), h(sb);
    }
  }

  /** Two different messages with one HMAC under one key exhibit a SHA-256 collision, on the
      inner or on the outer hash. */
  lemma HmacClash(h: HashFn, key: Bytes, m1: Bytes, m2: Bytes) returns (x: Bytes, y: Bytes)
    requires m1 != m2 && Hmac(h, key, m1) == Hmac(h, key, m2)
    ensures Collision(h, x, y)
  {
    var kb := KeyBlock(h, key);
    var i1, i2 := XorPad(kb, InnerPad) + m1, XorPad(kb, InnerPad) + m2;
    if h(i1) == h(i2) {
      assert i1[|kb|..] == m1 && i2[|kb|..] == m2;
      x, y := i1, i2;
    } else {
      x, y := XorPad(kb, OuterPad) + h(i1), XorPad(kb, OuterPad) + h(i2);
      assert x[|kb|..] == h(i1) && y[|kb|..] == h(i2);
    }
  }
}
