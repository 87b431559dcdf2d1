/**
 The FNV-1a checksum over bytes, and why it catches every change of one byte: each
 step is injective, both in the hash so far and in the byte.
 */
module Checksums {
  import opened Sequence
  import opened Bits

  const MODULUS: nat := 0x1_0000_0000
  const PRIME: nat := 16777619
  const BASIS: nat := 2166136261

  /** Exclusive or, bit by bit. */
  function Xor(a: nat, b: nat): (c: nat)
    decreases a + b
  {
    if a == 0 && b == 0 then 0 else (a + b) % 2 + 2 * Xor(a / 2, b / 2)
  }

  lemma {:induction false} XorStep(a: nat, b: nat)
    ensures Xor(a, b) % 2 == (a + b) % 2 && Xor(a, b) / 2 == Xor(a / 2, b / 2)
  {
    Halves((a + b) % 2, Xor(a / 2, b / 2));
  }

  lemma Halves(low: nat, rest: nat)
    requires low < 2
    ensures (low + 2 * rest) % 2 == low && (low + 2 * rest) / 2 == rest
  {
  }

  lemma {:induction false} XorInjective(a: nat, b: nat, c: nat, d: nat)
    requires Xor(a, b) == Xor(c, d)
    ensures a == c <==> b == d
    decreases a + b + c + d
  {
    hide Xor;
    if a + b + c + d > 0 {
      XorStep(a, b);
      XorStep(c, d);
      XorInjective(a / 2, b / 2, c / 2, d / 2);
      SameParity(a, b, c, d);
    }
  }

  lemma SameParity(a: nat, b: nat, c: nat, d: nat)
    requires (a + b) % 2 == (c + d) % 2 && (a / 2 == c / 2 <==> b / 2 == d / 2)
    ensures a == c <==> b == d
  {
    OtherParity(a, b, d);
    OtherParity(b, a, c);
  }

  lemma OtherParity(a: nat, b: nat, d: nat)
    ensures (a + b) % 2 == (a + d) % 2 && b / 2 == d / 2 ==> b == d
  {
  }

  lemma {:induction false} XorBounded(a: nat, b: nat, n: nat)
    requires a < Pow2(n) && b < Pow2(n)
    ensures Xor(a, b) < Pow2(n)
  {
    if n > 0 {
      XorBounded(a / 2, b / 2, n - 1);
    }
  }

  lemma XorWord(h: u32, x: byte)
    ensures Xor(h, x) < MODULUS
  {
    Pow2Values();
    XorBounded(h, x, 32);
  }

  function Multiply(a: nat): u32 {
    (a * PRIME) % MODULUS
  }

  function Mix(h: u32, x: byte): u32 {
    Multiply(Xor(h, x))
  }

  function Checksum(data: seq<byte>): u32 {
    if data == [] then BASIS else Mix(Checksum(data[..|data| - 1]), data[|data| - 1])
  }

  /** The prime is odd, so it has an inverse. */
  lemma MultiplyInjective(a: u32, b: u32)
    requires Multiply(a) == Multiply(b)
    ensures a == b
  {
    var inverse, turns := 899433627, 3513497;
    assert PRIME * inverse == 1 + turns * MODULUS;
    var d, q := a - b, (a * PRIME) / MODULUS - (b * PRIME) / MODULUS;
    assert d * PRIME == q * MODULUS;
    Unwind(d, q, PRIME, inverse, turns, MODULUS);
    NoMultiple(d, q * inverse - d * turns, MODULUS);
  }

  lemma Unwind(d: int, q: int, p: int, inverse: int, turns: int, m: int)
    requires d * p == q * m && p * inverse == 1 + turns * m
    ensures d == (q * inverse - d * turns) * m
  {
    calc {
      d;
      d * (1 + turns * m) - d * (turns * m);
      d * (p * inverse) - d * (turns * m);
      { assert d * (p * inverse) == (d * p) * inverse; }
      (q * m) * inverse - d * (turns * m);
      (q * inverse - d * turns) * m;
    }
  }

  lemma NoMultiple(d: int, k: int, m: int)
    requires d == k * m && -m < d < m
    ensures d == 0
  {
    if k > 0 { AtLeastOnce(k, m); }
    if k < 0 { AtLeastOnce(-k, m); }
  }

  lemma AtLeastOnce(k: int, m: int)
    requires k > 0 && m > 0
    ensures k * m >= m
  {
    assert (k - 1) * m >= 0;
  }

  lemma MixInjective(h: u32, x: byte, g: u32, y: byte)
    requires Mix(h, x) == Mix(g, y)
    ensures h == g <==> x == y
  {
    hide Xor, Multiply;
    XorWord(h, x);
    XorWord(g, y);
    MultiplyInjective(Xor(h, x), Xor(g, y));
    XorInjective(h, x, g, y);
  }

  /** Changing exactly one byte changes the checksum. */
  lemma {:induction false} OneByteChanges(data: seq<byte>, i: nat, x: byte)
    requires i < |data| && x != data[i]
    ensures Checksum(data[i := x]) != Checksum(data)
    decreases |data|
  {
    hide Mix;
    var last := |data| - 1;
    var changed := data[i := x];
    if i == last {
      assert changed[..last] == data[..last];
      if Checksum(changed) == Checksum(data) {
        MixInjective(Checksum(data[..last]), x, Checksum(data[..last]), data[last]);
      }
    } else {
      assert changed[..last] == data[..last][i := x];
      OneByteChanges(data[..last], i, x);
      if Checksum(changed) == Checksum(data) {
        MixInjective(Checksum(changed[..last]), data[last], Checksum(data[..last]), data[last]);
      }
    }
  }

  method ComputeChecksum(data: seq<byte>) returns (hash: u32)
    ensures hash == Checksum(data)
  {
    hash := BASIS;
    for i := 0 to |data|
      invariant hash == Checksum(data[..i])
    {
      assert data[..i + 1][..i] == data[..i];
      hash := Mix(hash, data[i]);
    }
    assert data[..|data|] == data;
  }

  lemma {:induction false} XorZero(a: nat)
    ensures Xor(a, 0) == a
  {
    if a > 0 { XorZero(a / 2); }
  }

  lemma XorNext(a: nat, b: nat, p: nat, q: nat, c: nat)
    requires p < 2 && q < 2 && Xor(a, b) == c
    ensures Xor(2 * a + p, 2 * b + q) == (p + q) % 2 + 2 * c
  {
    hide Xor;
    XorUnfolds(2 * a + p, 2 * b + q);
    HalfOf(a, p);
    HalfOf(b, q);
    ParityOf(a + b, p + q);
  }

  lemma XorUnfolds(a: nat, b: nat)
    ensures Xor(a, b) == (a + b) % 2 + 2 * Xor(a / 2, b / 2)
  {
  }

  lemma HalfOf(a: nat, p: nat)
    requires p < 2
    ensures (2 * a + p) / 2 == a
  {
  }

  lemma ParityOf(a: nat, p: nat)
    ensures (2 * a + p) % 2 == p % 2
  {
  }

  lemma XorBasis(a: nat)
    requires a == 16922939
    ensures Xor(128 * a + 69, 97) == 128 * a + 36
  {
    hide Xor;
    XorZero(a);
    XorNext(a, 0, 1, 1, a);
    XorNext(2 * a + 1, 1, 0, 1, 2 * a);
    XorNext(4 * a + 2, 3, 0, 0, 4 * a + 1);
    XorNext(8 * a + 4, 6, 0, 0, 8 * a + 2);
    XorNext(16 * a + 8, 12, 1, 0, 16 * a + 4);
    XorNext(32 * a + 17, 24, 0, 0, 32 * a + 9);
    XorNext(64 * a + 34, 48, 1, 1, 64 * a + 18);
  }

  /** The value that the definition of FNV-1a gives for one byte, the letter a. */
  lemma KnownValue(data: seq<byte>)
    requires data == [97]
    ensures Checksum(data) == 0xe40c292c
  {
    hide Xor;
    assert data[..0] == [];
    assert Checksum(data[..0]) == 0x811c9dc5;
    XorBasis(16922939);
  }
}
