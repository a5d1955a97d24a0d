/** Bytes, digests and the optional values used throughout the model. */
module Octets {

  /** One octet, as Python's `bytes` holds them. */
  newtype byte = b: int | 0 <= b < 256

  type Bytes = seq<byte>

  /** A SHA-256 digest: exactly 32 bytes. */
  type Digest = d: Bytes | |d| == 32 witness seq(32, _ => 0)

  datatype Option<T> = None | Some(value: T) {
    predicate IsFailure() {
      None?
    }

    function PropagateFailure<U>(): Option<U>
      requires None?
    {
      None
    }

    function Extract(): T
      requires Some?
    {
      value
    }
  }

  /** `n` zero bytes. */
  function Zeros(n: nat): (z: Bytes)
    ensures |z| == n
    ensures forall i :: 0 <= i < n ==> z[i] == 0
  {
    seq(n, _ => 0)
  }

  function Pow2(k: nat): nat
  {
    if k == 0 then 1 else 2 * Pow2(k - 1)
  }

  /** Bitwise exclusive or of two naturals, one bit at a time from the lowest. */
  function XorBits(a: nat, b: nat): nat
    decreases a + b
  {
    if a == 0 && b == 0 then 0
    else 2 * XorBits(a / 2, b / 2) + (if a % 2 == b % 2 then 0 else 1)
  }

  lemma {:induction false} XorBitsBound(a: nat, b: nat, k: nat)
    requires a < Pow2(k) && b < Pow2(k)
    ensures XorBits(a, b) < Pow2(k)
    decreases k
  {
    if !(a == 0 && b == 0) {
      XorBitsBound(a / 2, b / 2, k - 1);
    }
  }

  /** Bitwise exclusive or of two octets (Python's `^` on the values of a `bytes`). */
  function Xor(a: byte, b: byte): byte
  {
    XorBitsBound(a as nat, b as nat, 8);
    XorBits(a as nat, b as nat) as byte
  }

  lemma {:induction false} XorBitsZero(a: nat)
    ensures XorBits(a, 0) == a
  {
    if a != 0 {
      XorBitsZero(a / 2);
    }
  }

  lemma {:induction false} XorBitsTwice(a: nat, p: nat)
    ensures XorBits(XorBits(a, p), p) == a
    decreases a + p
  {
    if p == 0 {
      XorBitsZero(a);
    } else {
      var y := XorBits(a, p);
      var x := XorBits(a / 2, p / 2);
      var bit := if a % 2 == p % 2 then 0 else 1;
      assert y == 2 * x + bit;
      assert y / 2 == x && y % 2 == bit;
      XorBitsTwice(a / 2, p / 2);
      assert XorBits(y, p) == 2 * (a / 2) + (if bit == p % 2 then 0 else 1);
    }
  }

  /** Xor-ing twice with the same octet gives back the original octet. */
  lemma XorTwice(a: byte, p: byte)
    ensures Xor(Xor(a, p), p) == a
  {
    XorBitsTwice(a as nat, p as nat);
  }
}
