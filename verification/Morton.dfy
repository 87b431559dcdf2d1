/**
 Z-order codes.  The bit tricks work on 32-bit words; `Interleave` says in plain
 arithmetic what the code of a cell is, and the codes of an n-by-n grid of a power
 of two tile the first n * n numbers.
 */
module Morton {
  import opened Bits

  // ---------------------------------------------------------------------------
  // The words

  function SpreadBits(value: bv32): bv32 {
    var a := (value | (value << 8)) & 0x00ff00ff;
    var b := (a | (a << 4)) & 0x0f0f0f0f;
    var c := (b | (b << 2)) & 0x33333333;
    (c | (c << 1)) & 0x55555555
  }

  function CompactBits(value: bv32): bv32 {
    var a := value & 0x55555555;
    var b := (a | (a >> 1)) & 0x33333333;
    var c := (b | (b >> 2)) & 0x0f0f0f0f;
    var d := (c | (c >> 4)) & 0x00ff00ff;
    (d | (d >> 8)) & 0x0000ffff
  }

  function Encode(x: bv32, y: bv32): bv32 {
    SpreadBits(x) | (SpreadBits(y) << 1)
  }

  function Decode(code: bv32): (bv32, bv32) {
    (CompactBits(code), CompactBits(code >> 1))
  }

  /** Encoding and decoding are inverse to each other, on all 16-bit coordinates
      and all 32-bit codes. */
  lemma EncodeDecode(x: bv32, y: bv32)
    requires x <= 0xffff && y <= 0xffff
    ensures Decode(Encode(x, y)) == (x, y)
  {
  }

  lemma DecodeEncode(code: bv32)
    ensures var (x, y) := Decode(code); x <= 0xffff && y <= 0xffff && Encode(x, y) == code
  {
  }

  // ---------------------------------------------------------------------------
  // Words as numbers

  function Bit(value: bv32): (r: nat)
    ensures r < 2
  {
    if value & 1 == 1 then 1 else 0
  }

  /** The number in the lowest `width` bits of a word. */
  function Value(value: bv32, width: nat): nat {
    if width == 0 then 0 else Bit(value) + 2 * Value(value >> 1, width - 1)
  }

  function Word(n: nat): bv32 {
    if n == 0 then 0 else Joined(n % 2 == 1, Word(n / 2))
  }

  function Joined(odd: bool, rest: bv32): bv32 {
    (if odd then 1 else 0) | (rest << 1)
  }

  function Ones(width: nat): bv32 {
    if width == 0 then 0 else (Ones(width - 1) << 1) | 1
  }

  lemma {:induction false} WordFits(n: nat, width: nat)
    requires n < Pow2(width)
    ensures Word(n) | Ones(width) == Ones(width)
  {
    if n > 0 { WordFits(n / 2, width - 1); }
  }

  lemma WordIs16(n: nat)
    requires n < 0x1_0000
    ensures Word(n) <= 0xffff
  {
    Pow2Values();
    WordFits(n, 16);
    assert Ones(4) == 0xf;
    assert Ones(8) == 0xff;
    assert Ones(12) == 0xfff;
    assert Ones(16) == 0xffff;
  }

  lemma {:induction false} ValueOfWord(n: nat, width: nat)
    requires n < Pow2(width) && n < 0x1_0000
    ensures Value(Word(n), width) == n
  {
    hide Value, Word, Joined, Pow2;
    HalfFits(n, width);
    if width > 0 {
      ValueOfWord(n / 2, width - 1);
      WordIs16(n / 2);
      WordNext(n);
      ValueJoined(n % 2 == 1, Word(n / 2), width - 1);
    } else {
      ValueNone(Word(n));
    }
  }

  lemma ValueJoined(odd: bool, rest: bv32, width: nat)
    requires rest <= 0xffff
    ensures Value(Joined(odd, rest), width + 1) == (if odd then 1 else 0) + 2 * Value(rest, width)
  {
    hide Value, Joined, Bit;
    ShiftBack(odd, rest);
    ValueNext(Joined(odd, rest), width + 1);
  }

  lemma HalfFits(n: nat, width: nat)
    requires n < Pow2(width)
    ensures if width == 0 then n == 0 else n / 2 < Pow2(width - 1)
  {
  }

  lemma ValueNext(value: bv32, width: nat)
    requires width > 0
    ensures Value(value, width) == Bit(value) + 2 * Value(value >> 1, width - 1)
  {
    hide Bit;
  }

  lemma ValueNone(value: bv32)
    ensures Value(value, 0) == 0
  {
  }

  lemma WordNext(n: nat)
    ensures Word(n) == Joined(n % 2 == 1, Word(n / 2))
  {
  }

  lemma ShiftBack(odd: bool, rest: bv32)
    requires rest <= 0xffff
    ensures Joined(odd, rest) >> 1 == rest && Bit(Joined(odd, rest)) == if odd then 1 else 0
  {
  }

  // ---------------------------------------------------------------------------
  // What a code is

  /** The number whose even bits are those of `x` and whose odd bits those of `y`. */
  function Interleave(x: nat, y: nat): nat
    decreases x + y
  {
    if x == 0 && y == 0 then 0 else x % 2 + 2 * (y % 2) + 4 * Interleave(x / 2, y / 2)
  }

  /** The even bits of a code. */
  function Evens(code: nat): nat {
    if code == 0 then 0 else code % 2 + 2 * Evens(code / 4)
  }

  lemma InterleaveStep(x: nat, y: nat)
    ensures Interleave(x, y) == x % 2 + 2 * (y % 2) + 4 * Interleave(x / 2, y / 2)
  {
  }

  lemma InterleaveZero()
    ensures Interleave(0, 0) == 0
  {
  }

  lemma ValueTwo(code: bv32, width: nat)
    requires width >= 2
    ensures Value(code, width) == Bit(code) + 2 * Bit(code >> 1) + 4 * Value(code >> 2, width - 2)
  {
    assert code >> 1 >> 1 == code >> 2;
  }

  lemma ValueStep(value: bv32, width: nat)
    requires width >= 1
    ensures Value(value, width) % 2 == Bit(value) && Value(value, width) / 2 == Value(value >> 1, width - 1)
  {
  }

  lemma {:induction false} EncodeBits(x: bv32, y: bv32, width: nat)
    requires x <= 0xffff && y <= 0xffff
    ensures Value(Encode(x, y), 2 * width) == Interleave(Value(x, width), Value(y, width))
  {
    hide *;
    if width == 0 {
      NoWidth(x, y, Encode(x, y));
    } else {
      EncodeStep(x, y);
      var code, a, b := Encode(x, y), x >> 1, y >> 1;
      EncodeBits(a, b, width - 1);
      EqualBits(code, x);
      EqualBits(code >> 1, y);
      JoinBits(code, Encode(a, b), x, y, width);
    }
  }

  lemma NoWidth(x: bv32, y: bv32, code: bv32)
    ensures Value(code, 0) == Interleave(Value(x, 0), Value(y, 0))
  {
  }

  lemma JoinBits(code: bv32, rest: bv32, x: bv32, y: bv32, width: nat)
    requires width > 0 && Bit(code) == Bit(x) && Bit(code >> 1) == Bit(y) && code >> 2 == rest
    requires Value(rest, 2 * (width - 1)) == Interleave(Value(x >> 1, width - 1), Value(y >> 1, width - 1))
    ensures Value(code, 2 * width) == Interleave(Value(x, width), Value(y, width))
  {
    hide *;
    ValueTwo(code, 2 * width);
    ValueStep(x, width);
    ValueStep(y, width);
    InterleaveStep(Value(x, width), Value(y, width));
  }

  lemma EqualBits(a: bv32, b: bv32)
    requires a & 1 == b & 1
    ensures Bit(a) == Bit(b)
  {
  }

  /** Spreading moves the lowest bit nowhere and each next one two places on. */
  lemma SpreadStep(x: bv32)
    requires x <= 0xffff
    ensures SpreadBits(x) >> 2 == SpreadBits(x >> 1) && SpreadBits(x) & 1 == x & 1 && SpreadBits(x) & 0xaaaaaaaa == 0
    ensures x >> 1 <= 0xffff
  {
  }

  /** The lowest two bits of a code are those of its coordinates, and the rest is
      the code of the rest. */
  lemma EncodeStep(x: bv32, y: bv32)
    requires x <= 0xffff && y <= 0xffff
    ensures Encode(x, y) & 1 == x & 1 && (Encode(x, y) >> 1) & 1 == y & 1
    ensures Encode(x, y) >> 2 == Encode(x >> 1, y >> 1) && x >> 1 <= 0xffff && y >> 1 <= 0xffff
  {
    hide SpreadBits;
    SpreadStep(x);
    SpreadStep(y);
    Merge(SpreadBits(x), SpreadBits(y));
  }

  lemma Merge(a: bv32, b: bv32)
    requires a & 0xaaaaaaaa == 0 && b & 0xaaaaaaaa == 0
    ensures (a | (b << 1)) & 1 == a & 1 && ((a | (b << 1)) >> 1) & 1 == b & 1
    ensures (a | (b << 1)) >> 2 == (a >> 2) | ((b >> 2) << 1)
  {
  }

  /** The bit tricks compute the interleaving of the two coordinates. */
  lemma EncodeIsInterleave(x: nat, y: nat)
    requires x < 0x1_0000 && y < 0x1_0000
    ensures Value(Encode(Word(x), Word(y)), 32) == Interleave(x, y)
  {
    hide Encode, Word, Value, Interleave;
    WordIs16(x);
    WordIs16(y);
    EncodeBits(Word(x), Word(y), 16);
    Pow2Values();
    ValueOfWord(x, 16);
    ValueOfWord(y, 16);
  }

  /** Interleaving loses nothing. */
  lemma {:induction false} InterleaveInverse(x: nat, y: nat)
    ensures Evens(Interleave(x, y)) == x && Evens(Interleave(x, y) / 2) == y
    decreases x + y
  {
    hide Interleave, Evens;
    if x + y == 0 {
      InterleaveZero();
      EvensZero();
    } else {
      InterleaveInverse(x / 2, y / 2);
      var rest := Interleave(x / 2, y / 2);
      InterleaveStep(x, y);
      EvensStep(Interleave(x, y));
      EvensStep(Interleave(x, y) / 2);
      QuarterOf(x % 2, y % 2, rest, Interleave(x, y));
    }
  }

  lemma EvensStep(code: nat)
    ensures Evens(code) == code % 2 + 2 * Evens(code / 4)
  {
  }

  lemma QuarterOf(a: nat, b: nat, rest: nat, code: nat)
    requires a < 2 && b < 2 && code == a + 2 * b + 4 * rest
    ensures code % 2 == a && code / 4 == rest && (code / 2) % 2 == b && code / 2 / 4 == rest / 2
    ensures code / 4 / 2 == rest / 2
  {
    HalfOf(a, b + 2 * rest, code);
    HalfOf(b, rest, code / 2);
    assert code / 2 / 2 == rest;
  }

  lemma {:induction false} InterleaveOf(code: nat)
    ensures Interleave(Evens(code), Evens(code / 2)) == code
    decreases code
  {
    hide Interleave, Evens;
    if code == 0 {
      EvensZero();
      InterleaveZero();
    } else {
      InterleaveOf(code / 4);
      EvensStep(code);
      EvensStep(code / 2);
      InterleaveStep(Evens(code), Evens(code / 2));
      assert code / 2 / 4 == code / 4 / 2;
      HalfOf(code % 2, Evens(code / 4), Evens(code));
      HalfOf(code / 2 % 2, Evens(code / 4 / 2), Evens(code / 2));
    }
  }

  lemma EvensZero()
    ensures Evens(0) == 0
  {
  }

  lemma HalfOf(a: nat, rest: nat, n: nat)
    requires a < 2 && n == a + 2 * rest
    ensures n % 2 == a && n / 2 == rest
  {
  }

  lemma InterleaveInjective(x: nat, y: nat, u: nat, v: nat)
    requires Interleave(x, y) == Interleave(u, v)
    ensures x == u && y == v
  {
    InterleaveInverse(x, y);
    InterleaveInverse(u, v);
  }

  /** The codes of an n-by-n grid, for n a power of two, tile [0, n * n) exactly:
      every cell has its own code there and every number there is a cell's code. */
  lemma {:induction false} CodesBelow(x: nat, y: nat, k: nat)
    ensures x < Pow2(k) && y < Pow2(k) <==> Interleave(x, y) < Pow2(2 * k)
    decreases k
  {
    hide Interleave, Pow2;
    TwoDown(k);
    InterleaveStep(x, y);
    if k > 0 {
      CodesBelow(x / 2, y / 2, k - 1);
    } else {
      InterleaveInverse(x, y);
      InterleaveInverse(0, 0);
    }
  }

  lemma TwoDown(k: nat)
    ensures k == 0 ==> Pow2(k) == 1 && Pow2(2 * k) == 1
    ensures k > 0 ==> Pow2(k) == 2 * Pow2(k - 1) && Pow2(2 * k) == 4 * Pow2(2 * (k - 1))
  {
    if k > 0 { assert Pow2(2 * k) == 2 * Pow2(2 * k - 1) == 4 * Pow2(2 * k - 2); }
  }

  lemma CodesTile(k: nat, code: nat)
    requires code < Pow2(k) * Pow2(k)
    ensures exists x, y | 0 <= x < Pow2(k) && 0 <= y < Pow2(k) ::
              Interleave(x, y) == code && forall u: nat, v: nat | Interleave(u, v) == code :: u == x && v == y
  {
    hide *;
    var x, y := Evens(code), Evens(code / 2);
    InterleaveOf(code);
    Pow2Add(k, k);
    CodesBelow(x, y, k);
    forall u: nat, v: nat | Interleave(u, v) == code ensures u == x && v == y {
      InterleaveInjective(u, v, x, y);
    }
  }
}
