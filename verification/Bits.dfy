/**
 Bit strings, least significant bit first, and the two value-level views of a
 bit stream: `Pen`, what a writer has put down, and `Cursor`, what a reader still
 has before it.  Both latch an overflow flag instead of passing the end.
 */
module Bits {

  function Pow2(n: nat): (p: nat)
    ensures p >= 1
  {
    if n == 0 then 1 else 2 * Pow2(n - 1)
  }

  lemma {:induction false} Pow2Add(m: nat, n: nat)
    ensures Pow2(m + n) == Pow2(m) * Pow2(n)
  {
    if m > 0 {
      Pow2Add(m - 1, n);
      assert Pow2(m + n) == 2 * Pow2(m - 1 + n);
      assert 2 * (Pow2(m - 1) * Pow2(n)) == (2 * Pow2(m - 1)) * Pow2(n);
    }
  }

  lemma Pow2Values()
    ensures Pow2(1) == 2 && Pow2(2) == 4 && Pow2(7) == 128 && Pow2(8) == 256 && Pow2(12) == 4096
    ensures Pow2(16) == 0x1_0000 && Pow2(32) == 0x1_0000_0000
  {
    ByteFits();
    hide Pow2;
    Pow2Add(8, 4);
    Pow2Add(8, 8);
    Pow2Add(16, 16);
  }

  lemma Pow2Step(n: nat)
    ensures Pow2(n + 1) == 2 * Pow2(n)
  {
  }

  lemma ByteFits()
    ensures Pow2(1) == 2 && Pow2(2) == 4 && Pow2(4) == 16 && Pow2(7) == 128 && Pow2(8) == 256
  {
  }

  lemma MulAssoc(a: int, b: int, c: int)
    ensures a * (b * c) == (a * b) * c
  {
  }

  lemma DivMod(v: nat, p: nat)
    requires p >= 1
    ensures v == v % p + p * (v / p) && 0 <= v % p < p
  {
  }

  lemma DivNonNegative(v: nat, p: nat)
    requires p >= 1
    ensures v / p >= 0
  {
  }

  lemma DivLess(v: nat, p: nat, q: nat)
    requires p >= 1 && v < p * q
    ensures 0 <= v / p < q
  {
    DivMod(v, p);
    if v / p >= q {
      MulLeft(p, q, v / p);
    }
  }

  lemma MulLeft(p: nat, a: int, b: int)
    requires a <= b
    ensures p * a <= p * b
  {
  }

  /** The `n` low bits of `v`. */
  function FromNat(v: nat, n: nat): (b: seq<bool>)
    ensures |b| == n
  {
    if n == 0 then [] else [v % 2 == 1] + FromNat(v / 2, n - 1)
  }

  function ToNat(b: seq<bool>): (v: nat)
    ensures v < Pow2(|b|)
  {
    if b == [] then 0 else (if b[0] then 1 else 0) + 2 * ToNat(b[1..])
  }

  lemma {:induction false} ToFrom(v: nat, n: nat)
    requires v < Pow2(n)
    ensures ToNat(FromNat(v, n)) == v
  {
    if n > 0 { ToFrom(v / 2, n - 1); }
  }

  lemma {:induction false} FromTo(b: seq<bool>)
    ensures FromNat(ToNat(b), |b|) == b
  {
    if b != [] { FromTo(b[1..]); }
  }

  lemma {:induction false} ToNatConcat(a: seq<bool>, b: seq<bool>)
    ensures ToNat(a + b) == ToNat(a) + Pow2(|a|) * ToNat(b)
  {
    if a == [] {
      assert a + b == b;
    } else {
      assert (a + b)[1..] == a[1..] + b;
      ToNatConcat(a[1..], b);
      MulAssoc(2, Pow2(|a| - 1), ToNat(b));
      hide Pow2;
      assert ToNat(a + b) == (if a[0] then 1 else 0) + 2 * ToNat(a[1..] + b);
    }
  }

  /** Appending a field above the bits already pending. */
  lemma FromNatConcat(u: nat, m: nat, v: nat, n: nat)
    requires u < Pow2(m) && v < Pow2(n)
    ensures u + Pow2(m) * v < Pow2(m + n)
    ensures FromNat(u + Pow2(m) * v, m + n) == FromNat(u, m) + FromNat(v, n)
  {
    var a, b := FromNat(u, m), FromNat(v, n);
    ToFrom(u, m);
    ToFrom(v, n);
    ToNatConcat(a, b);
    FromTo(a + b);
  }

  /** Splitting off the low bits. */
  lemma FromNatSplit(v: nat, m: nat, n: nat)
    requires v < Pow2(m + n)
    ensures v % Pow2(m) < Pow2(m) && 0 <= v / Pow2(m) < Pow2(n)
    ensures FromNat(v, m + n) == FromNat(v % Pow2(m), m) + FromNat(v / Pow2(m), n)
  {
    Pow2Add(m, n);
    hide Pow2, FromNat;
    DivMod(v, Pow2(m));
    DivLess(v, Pow2(m), Pow2(n));
    FromNatConcat(v % Pow2(m), m, v / Pow2(m), n);
  }

  /** `value & ((1 << n) - 1)` */
  function Mask(value: nat, n: nat): (v: nat)
    ensures v < Pow2(n)
    ensures value < Pow2(n) ==> v == value
  {
    MaskSmall(value, Pow2(n));
    value % Pow2(n)
  }

  lemma MaskSmall(value: nat, p: nat)
    requires p >= 1
    ensures 0 <= value % p < p && (value < p ==> value % p == value)
  {
  }

  /** `value >> n` */
  function Shift(value: nat, n: nat): (v: nat) {
    DivNonNegative(value, Pow2(n));
    value / Pow2(n)
  }

  lemma MaskShift(value: nat, m: nat, n: nat)
    requires value < Pow2(m + n)
    ensures Shift(value, m) < Pow2(n)
    ensures FromNat(value, m + n) == FromNat(Mask(value, m), m) + FromNat(Shift(value, m), n)
  {
    FromNatSplit(value, m, n);
  }

  function BitLength(range: nat): (n: nat) {
    if range == 0 then 0 else 1 + BitLength(range / 2)
  }

  /** Bits needed for a value in a range of this width; at least one. */
  function BitsRequired(range: nat): (n: nat)
    ensures n >= 1
  {
    if range == 0 then 1 else BitLength(range)
  }

  /** The width is enough, and no narrower one is. */
  lemma {:induction false} BitLengthExact(range: nat)
    ensures range < Pow2(BitLength(range))
    ensures range > 0 ==> Pow2(BitLength(range) - 1) <= range
  {
    if range > 1 { BitLengthExact(range / 2); }
  }

  lemma {:induction false} OnesLength(n: nat)
    ensures BitLength(Pow2(n) - 1) == n
  {
    if n > 0 {
      OnesLength(n - 1);
      assert (2 * Pow2(n - 1) - 1) / 2 == Pow2(n - 1) - 1;
    }
  }

  lemma RangeFits(value: nat, range: nat)
    requires value <= range
    ensures value < Pow2(BitsRequired(range))
  {
    BitLengthExact(range);
  }

  function Clamp(value: int, min: int, max: int): (v: int)
    requires min <= max
    ensures min <= v <= max && (min <= value <= max ==> v == value)
  {
    if value < min then min else if value > max then max else value
  }

  // ---------------------------------------------------------------------------
  // Bytes

  type byte = x: int | 0 <= x < 256

  function BytesBits(bytes: seq<byte>): (b: seq<bool>)
    ensures |b| == 8 * |bytes|
  {
    if bytes == [] then [] else BytesBits(bytes[..|bytes| - 1]) + FromNat(bytes[|bytes| - 1], 8)
  }

  lemma BytesBitsAppend(bytes: seq<byte>, x: byte)
    ensures BytesBits(bytes + [x]) == BytesBits(bytes) + FromNat(x, 8)
  {
    assert (bytes + [x])[..|bytes|] == bytes;
  }

  lemma {:induction false} BytesBitsConcat(a: seq<byte>, b: seq<byte>)
    ensures BytesBits(a + b) == BytesBits(a) + BytesBits(b)
  {
    hide FromNat;
    if b == [] {
      assert a + b == a;
    } else {
      var c, x := b[..|b| - 1], b[|b| - 1];
      BytesBitsConcat(a, c);
      assert a + b == (a + c) + [x] && b == c + [x];
      BytesBitsAppend(a + c, x);
      BytesBitsAppend(c, x);
      hide BytesBits;
      assert BytesBits(a) + BytesBits(c) + FromNat(x, 8) == BytesBits(a) + (BytesBits(c) + FromNat(x, 8));
    }
  }

  lemma SubSlice<T>(s: seq<T>, a: nat, b: nat, from: nat, to: nat)
    requires a <= b <= |s| && from <= to <= b - a
    ensures s[a..b][from..to] == s[a + from..a + to]
  {
    forall k | 0 <= k < to - from ensures s[a..b][from..to][k] == s[a + from..a + to][k] {
      assert s[a..b][from + k] == s[a + (from + k)];
    }
  }

  lemma BytesBitsAt(bytes: seq<byte>, i: nat)
    requires i < |bytes|
    ensures BytesBits(bytes)[8 * i..8 * i + 8] == FromNat(bytes[i], 8)
  {
    hide *;
    var before, x, after := bytes[..i], bytes[i], bytes[i + 1..];
    AroundOne(bytes, i);
    BytesBitsConcat(before + [x], after);
    BytesBitsAppend(before, x);
    Middle(BytesBits(before), FromNat(x, 8), BytesBits(after));
  }

  lemma Chain3(a: seq<bool>, b: seq<bool>, c: seq<bool>)
    ensures a + b + c == a + (b + c)
  {
  }

  lemma AroundOne<T>(s: seq<T>, i: nat)
    requires i < |s|
    ensures s == s[..i] + [s[i]] + s[i + 1..]
  {
  }

  lemma Middle<T>(a: seq<T>, b: seq<T>, c: seq<T>)
    ensures (a + b + c)[|a|..|a| + |b|] == b
  {
  }

  // ---------------------------------------------------------------------------
  // Writing

  /** `ink` is everything written; a field that does not fit is dropped and the
      flag latched. */
  datatype Pen = Pen(ink: seq<bool>, capacity: nat, overflow: bool) {

    predicate Fits() {
      |ink| <= capacity
    }

    function Put(v: nat, n: nat): (p: Pen)
      requires v < Pow2(n)
    {
      if n == 0 then this
      else if |ink| + n > capacity then this.(overflow := true)
      else this.(ink := ink + FromNat(v, n))
    }

    function PutU8(v: byte): Pen {
      Pow2Values();
      Put(v, 8)
    }

    function PutU32(v: nat): Pen
      requires v < 0x1_0000_0000
    {
      Pow2Values();
      Put(v, 32)
    }

    function PutU64(v: nat): Pen
      requires v < 0x1_0000_0000_0000_0000
    {
      PutU32(v % 0x1_0000_0000).PutU32(v / 0x1_0000_0000)
    }

    function PutRanged(value: int, min: int, max: int): Pen
      requires min <= max
    {
      RangeFits(Clamp(value, min, max) - min, max - min);
      Put(Clamp(value, min, max) - min, BitsRequired(max - min))
    }

    /** 7 payload bits per byte, the high bit continues. */
    function PutVarint(v: nat): Pen
      decreases v
    {
      if v >= 128 then PutU8(v % 128 + 128).PutVarint(v / 128) else PutU8(v)
    }

    /** One byte at a time. */
    function PutEach(bytes: seq<byte>): Pen
      decreases |bytes|
    {
      if bytes == [] then this else PutEach(bytes[..|bytes| - 1]).PutU8(bytes[|bytes| - 1])
    }

    /** A block: bytewise when unaligned, otherwise one copy or nothing. */
    function PutBytes(bytes: seq<byte>): Pen {
      if |ink| % 8 != 0 then PutEach(bytes)
      else if |ink| + 8 * |bytes| > capacity then this.(overflow := true)
      else this.(ink := ink + BytesBits(bytes))
    }

    function PutString(s: seq<byte>): Pen {
      var t := Truncated(s);
      PutVarint(|t|).PutEach(t)
    }

    function Align(): Pen {
      if |ink| % 8 == 0 then this else ZeroFits(8 - |ink| % 8); Put(0, 8 - |ink| % 8)
    }
  }

  lemma ZeroFits(n: nat)
    ensures 0 < Pow2(n)
  {
  }

  function VarintBits(v: nat): seq<bool> {
    if v >= 128 then FromNat(v % 128 + 128, 8) + VarintBits(v / 128) else FromNat(v, 8)
  }

  /** From `p` to `q` exactly `chunk` was written, or the flag is up. */
  ghost predicate Wrote(p: Pen, q: Pen, chunk: seq<bool>) {
    && q.capacity == p.capacity
    && (q.overflow <==> p.overflow || |p.ink| + |chunk| > p.capacity)
    && (!q.overflow ==> q.ink == p.ink + chunk)
    && |p.ink| <= |q.ink| && q.Fits()
  }

  lemma WroteThen(p: Pen, q: Pen, r: Pen, a: seq<bool>, b: seq<bool>)
    requires Wrote(p, q, a) && Wrote(q, r, b)
    ensures Wrote(p, r, a + b)
  {
    if !r.overflow { assert p.ink + a + b == p.ink + (a + b); }
  }

  lemma WroteNothing(p: Pen)
    requires p.Fits()
    ensures Wrote(p, p, [])
  {
    assert p.ink + [] == p.ink;
  }

  lemma PutWrote(p: Pen, v: nat, n: nat)
    requires v < Pow2(n) && p.Fits()
    ensures Wrote(p, p.Put(v, n), FromNat(v, n))
    ensures p.Put(v, n).Fits()
  {
    if n == 0 { WroteNothing(p); }
  }

  lemma {:induction false} PutVarintWrote(p: Pen, v: nat)
    requires p.Fits()
    ensures Wrote(p, p.PutVarint(v), VarintBits(v))
    ensures p.PutVarint(v).Fits()
    decreases v
  {
    ByteFits();
    hide Wrote, FromNat, Pow2, Pen.Put;
    if v >= 128 {
      var q := p.PutU8(v % 128 + 128);
      PutWrote(p, v % 128 + 128, 8);
      PutVarintWrote(q, v / 128);
      WroteThen(p, q, p.PutVarint(v), FromNat(v % 128 + 128, 8), VarintBits(v / 128));
    } else {
      PutWrote(p, v, 8);
    }
  }

  lemma {:induction false} PutEachWrote(p: Pen, bytes: seq<byte>)
    requires p.Fits()
    ensures Wrote(p, p.PutEach(bytes), BytesBits(bytes))
    ensures p.PutEach(bytes).Fits()
    decreases |bytes|
  {
    ByteFits();
    hide Wrote, FromNat, Pow2, Pen.Put;
    if bytes == [] {
      WroteNothing(p);
    } else {
      var head, x := bytes[..|bytes| - 1], bytes[|bytes| - 1];
      var q := p.PutEach(head);
      PutEachWrote(p, head);
      PutWrote(q, x, 8);
      WroteThen(p, q, p.PutEach(bytes), BytesBits(head), FromNat(x, 8));
    }
  }

  /** The block copy and the bytewise path write the same bits, and overflow on
      the same inputs. */
  lemma PutBytesWrote(p: Pen, bytes: seq<byte>)
    requires p.Fits()
    ensures Wrote(p, p.PutBytes(bytes), BytesBits(bytes))
    ensures !p.PutBytes(bytes).overflow ==> p.PutBytes(bytes) == p.PutEach(bytes)
  {
    PutEachWrote(p, bytes);
  }

  function Truncated(s: seq<byte>): seq<byte> {
    if |s| > 1023 then s[..1023] else s
  }

  function StringBits(s: seq<byte>): seq<bool> {
    VarintBits(|Truncated(s)|) + BytesBits(Truncated(s))
  }

  lemma PutStringWrote(p: Pen, s: seq<byte>)
    requires p.Fits()
    ensures Wrote(p, p.PutString(s), StringBits(s))
  {
    hide Wrote;
    var t := Truncated(s);
    var q := p.PutVarint(|t|);
    PutVarintWrote(p, |t|);
    PutEachWrote(q, t);
    WroteThen(p, q, q.PutEach(t), VarintBits(|t|), BytesBits(t));
  }

  // ---------------------------------------------------------------------------
  // Reading

  datatype Cursor = Cursor(bits: seq<bool>, pos: nat, overflow: bool) {

    /** Reads past the end give zero and latch the flag. */
    function Take(n: nat): (r: (nat, Cursor))
      ensures r.0 < Pow2(n)
      ensures r.1.bits == bits
    {
      if n == 0 then (0, this)
      else if pos + n > |bits| then (0, this.(overflow := true))
      else (ToNat(bits[pos..pos + n]), this.(pos := pos + n))
    }

    function TakeBool(): (bool, Cursor) {
      var (v, c) := Take(1);
      (v != 0, c)
    }

    function TakeU8(): (byte, Cursor) {
      Pow2Values();
      Take(8)
    }

    function TakeU16(): (r: (nat, Cursor))
      ensures r.0 < 0x1_0000
    {
      Pow2Values();
      Take(16)
    }

    function TakeU32(): (r: (nat, Cursor))
      ensures r.0 < 0x1_0000_0000
    {
      Pow2Values();
      Take(32)
    }

    function TakeRanged(min: int, max: int): (int, Cursor)
      requires min <= max
    {
      var (v, c) := Take(BitsRequired(max - min));
      (v + min, c)
    }

    function TakeU64(): (nat, Cursor) {
      var (low, c) := TakeU32();
      var (high, d) := c.TakeU32();
      (low + 0x1_0000_0000 * high, d)
    }

    /** At most `rounds` groups of 7 payload bits, low group first. */
    function TakeGroups(rounds: nat): (r: (nat, Cursor))
      decreases rounds
    {
      if rounds == 0 then (0, this)
      else
        var (x, c) := TakeU8();
        if x < 128 then (x, c)
        else
          var (high, d) := c.TakeGroups(rounds - 1);
          (x - 128 + 128 * high, d)
    }

    /** Five groups at most; bits past the 32nd are lost. */
    function TakeVarint(): (r: (nat, Cursor))
      ensures r.0 < 0x1_0000_0000
    {
      var (v, c) := TakeGroups(5);
      (v % 0x1_0000_0000, c)
    }

    function TakeEach(n: nat): (r: (seq<byte>, Cursor))
      ensures |r.0| == n
    {
      if n == 0 then ([], this)
      else
        var (head, c) := TakeEach(n - 1);
        var (x, d) := c.TakeU8();
        (head + [x], d)
    }

    /** A block into `target`: bytewise when unaligned, otherwise one copy or, past
        the end, nothing. */
    function TakeBytes(target: seq<byte>): (r: (seq<byte>, Cursor))
      ensures |r.0| == |target|
    {
      if pos % 8 != 0 then TakeEach(|target|)
      else if pos + 8 * |target| > |bits| then (target, this.(overflow := true))
      else (TakeEach(|target|).0, this.(pos := pos + 8 * |target|))
    }

    function TakeString(): (r: (seq<byte>, Cursor))
      ensures |r.0| <= 1023
    {
      var (n, c) := TakeVarint();
      if n > 1023 then ([], c.(overflow := true)) else c.TakeEach(n)
    }

    function Align(): Cursor {
      if pos % 8 == 0 then this else Take(8 - pos % 8).1
    }

    function Skip(n: nat): Cursor {
      this.(pos := pos + n)
    }
  }

  /** The reader stands before `chunk`. */
  ghost predicate Before(c: Cursor, chunk: seq<bool>) {
    !c.overflow && c.pos + |chunk| <= |c.bits| && c.bits[c.pos..c.pos + |chunk|] == chunk
  }

  lemma BeforeSplit(c: Cursor, a: seq<bool>, b: seq<bool>)
    requires Before(c, a + b)
    ensures Before(c, a) && Before(c.Skip(|a|), b)
  {
    assert c.bits[c.pos..c.pos + |a|] == (a + b)[..|a|];
    assert c.bits[c.pos + |a|..c.pos + |a| + |b|] == (a + b)[|a|..];
  }

  lemma TakeBefore(c: Cursor, v: nat, n: nat)
    requires v < Pow2(n) && Before(c, FromNat(v, n))
    ensures c.Take(n) == (v, c.Skip(n))
  {
    ToFrom(v, n);
    NoneFits(v);
    hide Pow2, ToNat, FromNat;
  }

  lemma NoneFits(v: nat)
    ensures v < Pow2(0) ==> v == 0
  {
  }

  lemma GroupFits(v: nat, rounds: nat)
    requires 0 < rounds && v < Pow2(7 * rounds)
    ensures v / 128 < Pow2(7 * (rounds - 1))
    ensures rounds == 1 ==> v < 128
  {
    ByteFits();
    Pow2Add(7, 7 * (rounds - 1));
    hide Pow2;
    DivLess(v, 128, Pow2(7 * (rounds - 1)));
  }

  lemma {:induction false} TakeGroupsBefore(c: Cursor, rounds: nat, v: nat)
    requires Before(c, VarintBits(v))
    requires 0 < rounds && v < Pow2(7 * rounds)
    ensures c.TakeGroups(rounds) == (v, c.Skip(|VarintBits(v)|))
    decreases rounds
  {
    hide Pow2, FromNat, Before, Cursor.TakeU8;
    if v < 128 {
      ByteBefore(c, v);
    } else {
      var x, w := v % 128, v / 128;
      GroupFits(v, rounds);
      BeforeSplit(c, FromNat(x + 128, 8), VarintBits(w));
      TakeGroupsBefore(c.Skip(8), rounds - 1, w);
      TakeGroupStep(c, rounds, x, w, |VarintBits(w)|);
    }
  }

  lemma TakeGroupStep(c: Cursor, rounds: nat, x: nat, w: nat, n: nat)
    requires rounds > 0 && x < 128 && Before(c, FromNat(x + 128, 8))
    requires c.Skip(8).TakeGroups(rounds - 1) == (w, c.Skip(8).Skip(n))
    ensures c.TakeGroups(rounds) == (x + 128 * w, c.Skip(8 + n))
  {
    ByteFits();
    hide Pow2, FromNat, Before, Cursor.Take;
    TakeBefore(c, x + 128, 8);
  }

  lemma FiveGroups()
    ensures Pow2(35) > 0x1_0000_0000
  {
    Pow2Values();
    hide Pow2;
    Pow2Step(32);
    Pow2Step(33);
    Pow2Step(34);
  }

  /** A varint of a 32-bit value reads back. */
  lemma VarintBefore(c: Cursor, v: nat)
    requires v < 0x1_0000_0000 && Before(c, VarintBits(v))
    ensures c.TakeVarint() == (v, c.Skip(|VarintBits(v)|))
  {
    hide Pow2, VarintBits, Before, Cursor.TakeGroups;
    FiveGroups();
    TakeGroupsBefore(c, 5, v);
  }

  lemma {:induction false} TakeEachBefore(c: Cursor, bytes: seq<byte>)
    requires Before(c, BytesBits(bytes))
    ensures c.TakeEach(|bytes|) == (bytes, c.Skip(8 * |bytes|))
    decreases |bytes|
  {
    hide FromNat, BytesBits, Before, Cursor.TakeU8, Cursor.TakeEach;
    TakeEachLast(c, |bytes|);
    if bytes != [] {
      var head, x := bytes[..|bytes| - 1], bytes[|bytes| - 1];
      assert head + [x] == bytes;
      BytesBitsAppend(head, x);
      BeforeSplit(c, BytesBits(head), FromNat(x, 8));
      TakeEachBefore(c, head);
      ByteBefore(c.Skip(8 * |head|), x);
    }
  }

  lemma TakeEachLast(c: Cursor, n: nat)
    ensures n == 0 ==> c.TakeEach(n) == ([], c)
    ensures n > 0 ==>
              var (head, d) := c.TakeEach(n - 1);
              c.TakeEach(n) == (head + [d.TakeU8().0], d.TakeU8().1)
  {
    hide Cursor.TakeU8;
  }

  lemma NotOverflowed(c: Cursor, chunk: seq<bool>)
    requires Before(c, chunk)
    ensures !c.overflow
  {
  }

  lemma U16Before(c: Cursor, v: nat)
    requires v < 0x1_0000 && Before(c, FromNat(v, 16))
    ensures c.TakeU16() == (v, c.Skip(16))
  {
    Pow2Values();
    hide Pow2, FromNat, Before, Cursor.Take;
    TakeBefore(c, v, 16);
  }

  lemma U32Before(c: Cursor, v: nat)
    requires v < 0x1_0000_0000 && Before(c, FromNat(v, 32))
    ensures c.TakeU32() == (v, c.Skip(32))
  {
    Pow2Values();
    hide Pow2, FromNat, Before, Cursor.Take;
    TakeBefore(c, v, 32);
  }

  lemma ByteBefore(c: Cursor, x: byte)
    requires Before(c, FromNat(x, 8))
    ensures c.TakeU8() == (x, c.Skip(8))
  {
    ByteFits();
    hide Pow2, FromNat, Before, Cursor.Take;
    TakeBefore(c, x, 8);
  }

  function Zeros(n: nat): (bytes: seq<byte>)
    ensures |bytes| == n
  {
    seq(n, _ => 0)
  }

  lemma {:induction false} TakeBytesBefore(c: Cursor, bytes: seq<byte>, target: seq<byte>)
    requires Before(c, BytesBits(bytes)) && |target| == |bytes|
    ensures c.TakeBytes(target) == (bytes, c.Skip(8 * |bytes|))
  {
    hide Cursor.TakeEach, BytesBits;
    TakeEachBefore(c, bytes);
  }

  lemma StringBefore(c: Cursor, s: seq<byte>)
    requires |s| <= 1023 && Before(c, StringBits(s))
    ensures c.TakeString() == (s, c.Skip(|StringBits(s)|))
  {
    hide Before, VarintBits, BytesBits, Cursor.TakeVarint, Cursor.TakeEach;
    BeforeSplit(c, VarintBits(|s|), BytesBits(s));
    VarintBefore(c, |s|);
    TakeEachBefore(c.Skip(|VarintBits(|s|)|), s);
  }

  // ---------------------------------------------------------------------------
  // What was read was there

  /** From `c` to `d` at least `n` bits were read, all of them there. */
  ghost predicate Reads(c: Cursor, d: Cursor, n: nat) {
    !d.overflow ==> !c.overflow && d.bits == c.bits && c.pos + n <= d.pos && (n > 0 ==> d.pos <= |d.bits|)
  }

  lemma ReadsBoth(c: Cursor, d: Cursor, e: Cursor, m: nat, n: nat)
    requires Reads(c, d, m) && Reads(d, e, n)
    requires n == 0 ==> e.pos == d.pos
    ensures Reads(c, e, m + n)
  {
  }

  lemma TakeReads(c: Cursor, n: nat)
    ensures Reads(c, c.Take(n).1, n)
  {
    hide ToNat, Pow2;
  }

  lemma {:induction false} GroupsRead(c: Cursor, rounds: nat)
    requires rounds > 0
    ensures Reads(c, c.TakeGroups(rounds).1, 8)
    decreases rounds
  {
    hide Cursor.Take;
    TakeReads(c, 8);
    var (x, d) := c.TakeU8();
    if x >= 128 && rounds > 1 { GroupsRead(d, rounds - 1); }
  }

  lemma VarintReads(c: Cursor)
    ensures Reads(c, c.TakeVarint().1, 8)
  {
    hide Cursor.TakeGroups;
    GroupsRead(c, 5);
  }

  lemma {:induction false} EachReads(c: Cursor, n: nat)
    ensures Reads(c, c.TakeEach(n).1, 8 * n) && (n == 0 ==> c.TakeEach(n).1 == c)
  {
    hide Cursor.Take;
    if n > 0 {
      EachReads(c, n - 1);
      TakeReads(c.TakeEach(n - 1).1, 8);
    }
  }

  lemma StringReads(c: Cursor)
    ensures Reads(c, c.TakeString().1, 8 + 8 * |c.TakeString().0|)
  {
    hide Cursor.TakeVarint, Cursor.TakeEach;
    VarintReads(c);
    var (n, d) := c.TakeVarint();
    if n <= 1023 {
      EachReads(d, n);
      ReadsBoth(c, d, d.TakeEach(n).1, 8, 8 * n);
    }
  }

  lemma WideReads(c: Cursor)
    ensures Reads(c, c.TakeU64().1, 64)
  {
    hide Cursor.Take;
    TakeReads(c, 32);
    var (low, d) := c.TakeU32();
    TakeReads(d, 32);
    ReadsBoth(c, d, d.TakeU32().1, 32, 32);
  }
}
