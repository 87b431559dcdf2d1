/**
 Circular comparison of wrapping sequence numbers (16-bit packet and message
 numbers, 32-bit ticks).  The wire carries only residues; the lemmas below say
 when comparing residues is the same as comparing the numbers they stand for.
 */
module Sequence {

  type u16 = x: int | 0 <= x < 0x1_0000
  type u32 = x: int | 0 <= x < 0x1_0000_0000

  /** The 16-bit field that carries the unbounded number `n`. */
  function Wrap(n: int): u16 {
    n % 0x1_0000
  }

  /** `static_cast<u16>(a - b)`: how far `a` is ahead of `b`, modulo 2^16. */
  function Ahead(a: u16, b: u16): u16 {
    (a - b) % 0x1_0000
  }

  /** Is `a` newer than `b`?  The distance 2^15 is settled by numeric order. */
  predicate Greater(a: u16, b: u16) {
    (a > b && a - b <= 32768) || (a < b && b - a > 32768)
  }

  /** The same comparison on 32-bit ticks. */
  predicate Greater32(a: u32, b: u32) {
    (a > b && a - b <= 2147483648) || (a < b && b - a > 2147483648)
  }

  /** Comparing residues is comparing numbers exactly while they are less than
      half the ring apart. */
  lemma GreaterIsOrder(m: int, n: int)
    requires -32768 < m - n < 32768
    ensures Greater(Wrap(m), Wrap(n)) <==> m > n
  {
    var q, r := m / 0x1_0000, n / 0x1_0000;
    assert m == 0x1_0000 * q + Wrap(m) && n == 0x1_0000 * r + Wrap(n);
    assert -1 <= q - r <= 1;
  }

  /** Of two distinct residues exactly one is newer, the distance 2^15 included
      (section 3.2 of RFC 1982 leaves that distance undefined). */
  lemma GreaterIsTotal(a: u16, b: u16)
    requires a != b
    ensures Greater(a, b) <==> !Greater(b, a)
    ensures Greater(a, b) ==> 1 <= Ahead(a, b) <= 32768
    ensures Greater(b, a) ==> 32768 <= Ahead(a, b)
  {
    assert Ahead(a, b) == if a > b then a - b else a - b + 0x1_0000;
  }

  /** Residues give back differences that are smaller than the ring. */
  lemma AheadIsDifference(m: int, n: int)
    requires 0 <= m - n < 0x1_0000
    ensures Ahead(Wrap(m), Wrap(n)) == m - n
  {
    var q, r := m / 0x1_0000, n / 0x1_0000;
    assert m == 0x1_0000 * q + Wrap(m) && n == 0x1_0000 * r + Wrap(n);
    assert 0 <= q - r <= 1;
  }

  /** Two numbers less than a ring apart with the same residue are equal. */
  lemma WrapInjective(m: int, n: int)
    requires Wrap(m) == Wrap(n)
    requires -0x1_0000 < m - n < 0x1_0000
    ensures m == n
  {
    var q, r := m / 0x1_0000, n / 0x1_0000;
    assert m == 0x1_0000 * q + Wrap(m) && n == 0x1_0000 * r + Wrap(n);
  }

  lemma WrapSuccessor(n: int)
    ensures Wrap(n + 1) == Wrap(Wrap(n) + 1)
  {
    var q := n / 0x1_0000;
    assert n == 0x1_0000 * q + Wrap(n);
  }

  lemma WrapShift(n: int, d: int)
    ensures Wrap(n - d) == Wrap(Wrap(n) - d)
  {
    var q := n / 0x1_0000;
    assert n == 0x1_0000 * q + Wrap(n);
  }
}
