/** Bytes as numbers and as bits. */
module Bytes {

  type byte = x: int | 0 <= x < 256

  /** One bit of a byte, in its place. */
  function Bit(set_: bool, place: bv8): bv8 {
    if set_ then place else 0
  }

  function Packed(a: bool, b: bool, c: bool, d: bool, e: bool, f: bool, g: bool, h: bool): bv8 {
    Bit(a, 1) | Bit(b, 2) | Bit(c, 4) | Bit(d, 8) | Bit(e, 16) | Bit(f, 32) | Bit(g, 64) | Bit(h, 128)
  }

  function Odd(n: nat): bool {
    n % 2 == 1
  }

  /** `n` without its `k` lowest bits. */
  function Shifted(n: nat, k: nat): nat {
    if k == 0 then n else Shifted(n, k - 1) / 2
  }

  function BitAt(n: nat, k: nat): bool {
    Odd(Shifted(n, k))
  }

  /** The eight bits of a byte. */
  function Bits(x: byte): bv8 {
    Packed(BitAt(x, 0), BitAt(x, 1), BitAt(x, 2), BitAt(x, 3), BitAt(x, 4), BitAt(x, 5), BitAt(x, 6), BitAt(x, 7))
  }

  lemma PackedInjective(a: bool, b: bool, c: bool, d: bool, e: bool, f: bool, g: bool, h: bool,
                     a': bool, b': bool, c': bool, d': bool, e': bool, f': bool, g': bool, h': bool)
    requires Packed(a, b, c, d, e, f, g, h) == Packed(a', b', c', d', e', f', g', h')
    ensures a == a' && b == b' && c == c' && d == d' && e == e' && f == f' && g == g' && h == h'
  {
  }

  lemma {:induction false} SameFrom(x: byte, y: byte, k: nat)
    requires k <= 8 && forall i | k <= i < 8 :: BitAt(x, i) == BitAt(y, i)
    ensures Shifted(x, k) == Shifted(y, k)
    decreases 8 - k
  {
    if k == 8 {
      Gone(x);
      Gone(y);
    } else {
      SameFrom(x, y, k + 1);
      assert BitAt(x, k) == BitAt(y, k);
    }
  }

  lemma Gone(x: byte)
    ensures Shifted(x, 8) == 0
  {
    assert Shifted(x, 1) < 128;
    assert Shifted(x, 2) < 64;
    assert Shifted(x, 3) < 32;
    assert Shifted(x, 4) < 16;
    assert Shifted(x, 5) < 8;
    assert Shifted(x, 6) < 4;
    assert Shifted(x, 7) < 2;
  }

  ghost predicate Agree(x: byte, y: byte) {
    forall i | 0 <= i < 8 :: BitAt(x, i) == BitAt(y, i)
  }

  lemma BitsAgree(x: byte, y: byte)
    ensures Bits(x) == Bits(y) ==> Agree(x, y)
  {
    hide Packed, BitAt;
    if Bits(x) == Bits(y) {
      PackedInjective(
        BitAt(x, 0), BitAt(x, 1), BitAt(x, 2), BitAt(x, 3), BitAt(x, 4), BitAt(x, 5), BitAt(x, 6), BitAt(x, 7),
        BitAt(y, 0), BitAt(y, 1), BitAt(y, 2), BitAt(y, 3), BitAt(y, 4), BitAt(y, 5), BitAt(y, 6), BitAt(y, 7));
    }
  }

  /** Different bytes have different bits. */
  lemma BitsInjective(x: byte, y: byte)
    ensures Bits(x) == Bits(y) ==> x == y
  {
    hide Bits, BitAt;
    BitsAgree(x, y);
    if Agree(x, y) {
      SameFrom(x, y, 0);
    }
  }

  lemma XorZero(x: byte, y: byte)
    ensures Bits(x) ^ Bits(y) == 0 <==> x == y
  {
    hide Bits;
    BitsXorZero(Bits(x), Bits(y));
    BitsInjective(x, y);
  }

  lemma BitsXorZero(x: bv8, y: bv8)
    ensures x ^ y == 0 <==> x == y
  {
  }

  lemma BitsOrZero(x: bv8, y: bv8)
    ensures x | y == 0 <==> x == 0 && y == 0
  {
  }
}
