/**
 The bit writer, which gathers bits in an accumulator and flushes whole bytes,
 and the bit reader, which walks the bytes.  Each refines its view in `Bits`.
 */
module BitStream {
  import opened Bits

  class BitWriter {
    const buffer: array<byte>
    const capacity: nat
    var bitPos: nat
    var accumulator: nat
    var pendingBits: nat
    var flushedBytes: nat
    var overflow: bool

    ghost predicate Valid()
      reads this, buffer
    {
      && bitPos == 8 * flushedBytes + pendingBits <= 8 * capacity && capacity <= buffer.Length
      && pendingBits < 8 && accumulator < Pow2(pendingBits)
    }

    ghost function View(): (p: Pen)
      requires Valid()
      reads this, buffer
      ensures p.Fits() && |p.ink| == bitPos && p.overflow == overflow && p.capacity == 8 * capacity
    {
      Pen(Ink(), 8 * capacity, overflow)
    }

    /** The bytes that a writer never touches. */
    ghost function Beyond(): seq<byte>
      requires capacity <= buffer.Length
      reads buffer
    {
      buffer[capacity..]
    }

    constructor (target: array<byte>, size: nat)
      requires size <= target.Length
      ensures buffer == target && capacity == size
      ensures Valid() && View() == Pen([], 8 * size, false)
    {
      buffer, capacity := target, size;
      bitPos, accumulator, pendingBits, flushedBytes, overflow := 0, 0, 0, 0, false;
    }

    /** As `Valid`, but with whole bytes still in the accumulator. */
    ghost predicate Unflushed()
      reads this, buffer
    {
      && bitPos == 8 * flushedBytes + pendingBits <= 8 * capacity && capacity <= buffer.Length
      && accumulator < Pow2(pendingBits)
    }

    ghost function Ink(): seq<bool>
      requires flushedBytes <= buffer.Length
      reads this, buffer
    {
      BytesBits(buffer[..flushedBytes]) + FromNat(accumulator, pendingBits)
    }

    method Flush()
      requires Unflushed()
      modifies this, buffer
      ensures Valid()
      ensures Ink() == old(Ink()) && overflow == old(overflow) && bitPos == old(bitPos)
      ensures Beyond() == old(Beyond())
    {
      hide Pow2, FromNat, BytesBits;
      while pendingBits >= 8
        invariant Unflushed() && Beyond() == old(Beyond())
        invariant Ink() == old(Ink()) && overflow == old(overflow) && bitPos == old(bitPos)
        decreases pendingBits
      {
        FlushStep(buffer[..flushedBytes], accumulator, pendingBits);
        ghost var before := buffer[..flushedBytes];
        buffer[flushedBytes] := accumulator % 256;
        assert buffer[..flushedBytes + 1] == before + [accumulator % 256];
        accumulator := accumulator / 256;
        flushedBytes := flushedBytes + 1;
        pendingBits := pendingBits - 8;
      }
    }

    method WriteBits(value: nat, bits: nat)
      requires Valid() && bits <= 32
      modifies this, buffer
      ensures Valid()
      ensures View() == old(View()).Put(Mask(value, bits), bits)
      ensures Beyond() == old(Beyond())
    {
      hide Pow2, FromNat, BytesBits, Mask;
      if bits == 0 { return; }
      if bitPos + bits > 8 * capacity { overflow := true; return; }
      var masked := Mask(value, bits);
      FromNatConcat(accumulator, pendingBits, masked, bits);
      ghost var ink := Ink();
      accumulator := accumulator + Pow2(pendingBits) * masked;
      pendingBits := pendingBits + bits;
      bitPos := bitPos + bits;
      assert Ink() == ink + FromNat(masked, bits);
      Flush();
    }

    method WriteU8(value: byte)
      requires Valid()
      modifies this, buffer
      ensures Valid()
      ensures View() == old(View()).PutU8(value)
      ensures Beyond() == old(Beyond())
    {
      Pow2Values();
      WriteBits(value, 8);
    }

    method WriteU32(value: nat)
      requires Valid() && value < 0x1_0000_0000
      modifies this, buffer
      ensures Valid()
      ensures View() == old(View()).PutU32(value)
      ensures Beyond() == old(Beyond())
    {
      Pow2Values();
      WriteBits(value, 32);
    }

    method WriteRanged(value: int, min: int, max: int)
      requires Valid() && min <= max && max - min < 0x1_0000_0000
      modifies this, buffer
      ensures Valid()
      ensures View() == old(View()).PutRanged(value, min, max)
      ensures Beyond() == old(Beyond())
    {
      hide Valid, View, Pow2, BitLength;
      var bits := CountBits(max - min);
      RangeFits(Clamp(value, min, max) - min, max - min);
      WriteBits(Clamp(value, min, max) - min, bits);
    }

    lemma Inside()
      requires Valid()
      ensures capacity <= buffer.Length
    {
    }

    method WriteVarint(value: nat)
      requires Valid() && value < 0x1_0000_0000
      modifies this, buffer
      ensures Valid()
      ensures View() == old(View()).PutVarint(value)
      ensures Beyond() == old(Beyond())
    {
      hide Pen.PutU8, Valid, View, Beyond;
      Inside();
      var rest := value;
      while rest >= 128
        invariant Valid() && Beyond() == old(Beyond())
        invariant View().PutVarint(rest) == old(View()).PutVarint(value)
      {
        WriteU8(rest % 128 + 128);
        rest := rest / 128;
      }
      WriteU8(rest);
    }

    /** Bytewise when bits are pending, otherwise a block copy. */
    method WriteBytes(data: seq<byte>)
      requires Valid()
      modifies this, buffer
      ensures Valid()
      ensures View() == old(View()).PutBytes(data)
      ensures Beyond() == old(Beyond())
    {
      hide BytesBits, Pow2, FromNat, Beyond, Pen.PutEach;
      if pendingBits != 0 {
        WriteEach(data);
        return;
      }
      if bitPos + 8 * |data| > 8 * capacity { overflow := true; return; }
      WriteBlock(data);
    }

    /** Whole bytes at a byte boundary, where they fit. */
    method WriteBlock(data: seq<byte>)
      requires Valid() && pendingBits == 0 && bitPos + 8 * |data| <= 8 * capacity
      modifies this, buffer
      ensures Valid()
      ensures View() == old(View()).(ink := old(View()).ink + BytesBits(data))
      ensures Beyond() == old(Beyond())
    {
      hide BytesBits, Pow2, FromNat, Beyond;
      ghost var before, ink := buffer[..flushedBytes], Ink();
      BytesBitsConcat(before, data);
      CopyIn(data);
      flushedBytes := flushedBytes + |data|;
      bitPos := bitPos + 8 * |data|;
      assert FromNat(accumulator, pendingBits) == [];
      assert BytesBits(before) + BytesBits(data) + [] == BytesBits(before) + [] + BytesBits(data);
    }

    /** Block copy behind the flushed bytes. */
    method CopyIn(data: seq<byte>)
      requires flushedBytes + |data| <= capacity <= buffer.Length
      modifies buffer
      ensures buffer[..flushedBytes + |data|] == old(buffer[..flushedBytes]) + data
      ensures Beyond() == old(Beyond())
    {
      forall i | 0 <= i < |data| { buffer[flushedBytes + i] := data[i]; }
    }

    method WriteEach(data: seq<byte>)
      requires Valid()
      modifies this, buffer
      ensures Valid()
      ensures View() == old(View()).PutEach(data)
      ensures Beyond() == old(Beyond())
    {
      ByteFits();
      for i := 0 to |data|
        invariant Valid() && Beyond() == old(Beyond())
        invariant View() == old(View()).PutEach(data[..i])
      {
        assert data[..i + 1][..i] == data[..i];
        WriteU8(data[i]);
      }
      assert data[..|data|] == data;
    }

    method WriteString(s: seq<byte>)
      requires Valid()
      modifies this, buffer
      ensures Valid()
      ensures View() == old(View()).PutString(s)
      ensures Beyond() == old(Beyond())
    {
      var len := if |s| > 1023 then 1023 else |s|;
      WriteVarint(len);
      assert s[..len] == Truncated(s);
      WriteEach(s[..len]);
    }

    method Align()
      requires Valid()
      modifies this, buffer
      ensures Valid()
      ensures View() == old(View()).Align()
      ensures Beyond() == old(Beyond())
    {
      hide Valid, View, Pow2, Mask;
      var rem := bitPos % 8;
      if rem != 0 {
        ZeroFits(8 - rem);
        WriteBits(0, 8 - rem);
      }
    }

    /** Completes the trailing partial byte with zeros.  What was written stays
        as it is, and writing can go on. */
    method BytesWritten() returns (size: nat)
      requires Valid()
      modifies buffer
      ensures Valid() && View() == old(View())
      ensures size <= capacity && bitPos <= 8 * size < bitPos + 8
      ensures BytesBits(buffer[..size]) == View().ink + FromNat(0, 8 * size - bitPos)
      ensures Beyond() == old(Beyond())
    {
      hide Pow2, FromNat, BytesBits;
      if pendingBits > 0 {
        PadByte(accumulator, pendingBits);
        ghost var before := buffer[..flushedBytes];
        buffer[flushedBytes] := accumulator;
        assert buffer[..flushedBytes] == before;
        assert buffer[..flushedBytes + 1] == before + [accumulator];
        BytesBitsAppend(before, accumulator);
        size := flushedBytes + 1;
      } else {
        size := flushedBytes;
        EmptyBits();
        assert Ink() + FromNat(0, 0) == BytesBits(buffer[..flushedBytes]);
      }
    }
  }

  lemma EmptyBits()
    ensures forall v: nat :: FromNat(v, 0) == []
  {
  }

  /** Halves the range until nothing is left. */
  method CountBits(range: nat) returns (bits: nat)
    requires range < 0x1_0000_0000
    ensures bits == BitsRequired(range) && bits <= 32
  {
    var rest := range;
    bits := 0;
    while rest > 0
      invariant bits + BitLength(rest) == BitLength(range)
    {
      bits := bits + 1;
      rest := rest / 2;
    }
    BitLengthExact(range);
    Pow2Values();
    if bits > 32 { Pow2Monotone(32, bits - 1); }
    if bits == 0 { bits := 1; }
  }

  lemma Pow2Monotone(m: nat, n: nat)
    requires m <= n
    ensures Pow2(m) <= Pow2(n)
  {
    Pow2Add(m, n - m);
    MulLeft(Pow2(m), 1, Pow2(n - m));
  }

  /** Moving the low byte of the accumulator to the buffer keeps the bits. */
  lemma FlushStep(bytes: seq<byte>, accumulator: nat, pending: nat)
    requires pending >= 8 && accumulator < Pow2(pending)
    ensures accumulator / 256 < Pow2(pending - 8)
    ensures BytesBits(bytes + [accumulator % 256]) + FromNat(accumulator / 256, pending - 8)
         == BytesBits(bytes) + FromNat(accumulator, pending)
  {
    hide *;
    LowByte(accumulator, pending - 8);
    BytesBitsAppend(bytes, accumulator % 256);
    Chain3(BytesBits(bytes), FromNat(accumulator % 256, 8), FromNat(accumulator / 256, pending - 8));
  }

  lemma LowByte(v: nat, n: nat)
    requires v < Pow2(8 + n)
    ensures v / 256 < Pow2(n) && FromNat(v, 8 + n) == FromNat(v % 256, 8) + FromNat(v / 256, n)
  {
    ByteFits();
    hide *;
    FromNatSplit(v, 8, n);
  }

  lemma PadByte(accumulator: nat, pending: nat)
    requires 0 < pending < 8 && accumulator < Pow2(pending)
    ensures accumulator < 256
    ensures FromNat(accumulator, 8) == FromNat(accumulator, pending) + FromNat(0, 8 - pending)
  {
    ByteFits();
    hide *;
    assert Pow2(pending) * 0 == 0;
    FromNatConcat(accumulator, pending, 0, 8 - pending);
  }

  /** Part of one byte, as the reader extracts it. */
  lemma ChunkAt(buffer: seq<byte>, i: nat, offset: nat, take: nat)
    requires i < |buffer| && offset + take <= 8
    ensures ToNat(BytesBits(buffer)[8 * i + offset..8 * i + offset + take]) == Mask(Shift(buffer[i], offset), take)
  {
    hide *;
    ByteIsAt(buffer, i);
    ChunkFrom(BytesBits(buffer), 8 * i, buffer[i], offset, take);
  }

  /** The bits from `a` on are those of byte `x`. */
  ghost predicate ByteAt(all: seq<bool>, a: nat, x: byte) {
    a + 8 <= |all| && all[a..a + 8] == FromNat(x, 8)
  }

  lemma ByteIsAt(buffer: seq<byte>, i: nat)
    requires i < |buffer|
    ensures ByteAt(BytesBits(buffer), 8 * i, buffer[i])
  {
    BytesBitsAt(buffer, i);
    hide BytesBits, FromNat;
  }

  lemma ChunkFrom(all: seq<bool>, a: nat, x: byte, offset: nat, take: nat)
    requires offset + take <= 8 && ByteAt(all, a, x)
    ensures a + 8 <= |all| && ToNat(all[a + offset..a + offset + take]) == Mask(Shift(x, offset), take)
  {
    hide FromNat, ToNat, Mask, Shift;
    ChunkOf(x, offset, take);
    PartOf(all, a, FromNat(x, 8), offset, take);
  }

  lemma PartOf(all: seq<bool>, a: nat, slice: seq<bool>, offset: nat, take: nat)
    requires a + 8 <= |all| && offset + take <= 8 && all[a..a + 8] == slice
    ensures all[a + offset..a + offset + take] == slice[offset..offset + take]
  {
    SubSlice(all, a, a + 8, offset, offset + take);
  }

  lemma NothingRead(all: seq<bool>, start: nat)
    requires start <= |all|
    ensures ToNat(all[start..start]) == 0
  {
  }

  /** One step of the reader: what it has so far, with the next chunk on top. */
  lemma ReadStep(buffer: seq<byte>, start: nat, pos: nat, take: nat)
    requires start <= pos && pos / 8 < |buffer| && pos % 8 + take <= 8
    ensures pos + take <= 8 * |buffer|
    ensures ToNat(BytesBits(buffer)[start..pos + take])
         == ToNat(BytesBits(buffer)[start..pos]) + Pow2(pos - start) * Mask(Shift(buffer[pos / 8], pos % 8), take)
  {
    hide *;
    assert pos == 8 * (pos / 8) + pos % 8;
    ChunkAt(buffer, pos / 8, pos % 8, take);
    JoinChunks(BytesBits(buffer), start, pos, take);
  }

  lemma ChunkOf(x: byte, offset: nat, take: nat)
    requires offset + take <= 8
    ensures FromNat(x, 8)[offset..offset + take] == FromNat(Mask(Shift(x, offset), take), take)
    ensures ToNat(FromNat(x, 8)[offset..offset + take]) == Mask(Shift(x, offset), take)
  {
    ByteFits();
    hide *;
    var high := Shift(x, offset);
    MaskShift(x, offset, 8 - offset);
    MaskShift(high, take, 8 - offset - take);
    ToFrom(Mask(high, take), take);
  }

  lemma JoinChunks(all: seq<bool>, start: nat, pos: nat, take: nat)
    requires start <= pos && pos + take <= |all|
    ensures ToNat(all[start..pos + take]) == ToNat(all[start..pos]) + Pow2(pos - start) * ToNat(all[pos..pos + take])
  {
    assert all[start..pos + take] == all[start..pos] + all[pos..pos + take];
    ToNatConcat(all[start..pos], all[pos..pos + take]);
  }

  /** `low | (high << shift)` for a `low` below the shift. */
  function Above(low: nat, shift: nat, high: nat): nat {
    low + Pow2(shift) * high
  }

  /** One group of a varint added above the groups already read. */
  lemma GroupStep(result: nat, shift: nat, c: Cursor, rounds: nat)
    requires rounds > 0 && result < Pow2(shift)
    ensures var (x, d) := c.TakeU8();
            var sum := Above(result, shift, x % 128);
            && sum < Pow2(shift + 7)
            && (x < 128 ==> c.TakeGroups(rounds) == (x, d))
            && (x >= 128 ==> c.TakeGroups(rounds).1 == d.TakeGroups(rounds - 1).1
                             && Above(result, shift, c.TakeGroups(rounds).0)
                                == Above(sum, shift + 7, d.TakeGroups(rounds - 1).0))
  {
    ByteFits();
    hide Pow2, Cursor.Take, Cursor.TakeU8;
    Pow2Add(shift, 7);
    var (x, d) := c.TakeU8();
    var p, high := Pow2(shift), d.TakeGroups(rounds - 1).0;
    GroupArithmetic(result, p, x % 128, high);
  }

  lemma GroupsBegin(high: nat)
    ensures Above(0, 0, high) == high && 0 < Pow2(0)
  {
  }

  lemma GroupsEnd(c: Cursor, result: nat, shift: nat)
    ensures c.TakeGroups(0) == (0, c) && Above(result, shift, 0) == result
  {
  }

  lemma GroupArithmetic(result: nat, p: nat, x: nat, high: nat)
    requires result < p && x < 128
    ensures result + p * x < p * 128
    ensures result + p * (x + 128 * high) == result + p * x + (p * 128) * high
  {
    MulLeft(p, x, 127);
    MulAssoc(p, 128, high);
    assert p * (x + 128 * high) == p * x + p * (128 * high);
  }

  class BitReader {
    const buffer: seq<byte>
    var bitPos: nat
    var overflow: bool

    ghost predicate Valid()
      reads this
    {
      bitPos <= 8 * |buffer|
    }

    ghost function View(): (c: Cursor)
      reads this
    {
      Cursor(BytesBits(buffer), bitPos, overflow)
    }

    constructor (data: seq<byte>)
      ensures buffer == data
      ensures Valid() && View() == Cursor(BytesBits(data), 0, false)
    {
      buffer, bitPos, overflow := data, 0, false;
    }

    method ReadBits(bits: nat) returns (result: nat)
      requires Valid() && bits <= 32
      modifies this
      ensures Valid()
      ensures (result, View()) == old(View()).Take(bits)
    {
      hide Pow2, ToNat, BytesBits, Mask, Shift;
      if bits == 0 { return 0; }
      if bitPos + bits > 8 * |buffer| { overflow := true; return 0; }
      result := 0;
      var written, remaining := 0, bits;
      ghost var start, all := bitPos, BytesBits(buffer);
      NothingRead(all, start);
      while remaining > 0
        invariant 0 <= written && 0 <= remaining && written + remaining == bits
        invariant bitPos == start + written && start + bits <= 8 * |buffer|
        invariant result == ToNat(all[start..bitPos]) && overflow == old(overflow)
      {
        var index, offset := bitPos / 8, bitPos % 8;
        var take := if remaining < 8 - offset then remaining else 8 - offset;
        var chunk := Mask(Shift(buffer[index], offset), take);
        ReadStep(buffer, start, bitPos, take);
        result := result + Pow2(written) * chunk;
        written, remaining, bitPos := written + take, remaining - take, bitPos + take;
      }
    }

    method ReadU8() returns (result: byte)
      requires Valid()
      modifies this
      ensures Valid()
      ensures (result, View()) == old(View()).TakeU8()
    {
      ByteFits();
      result := ReadBits(8);
    }

    method ReadBool() returns (result: bool)
      requires Valid()
      modifies this
      ensures Valid()
      ensures (result, View()) == old(View()).TakeBool()
    {
      var v := ReadBits(1);
      result := v != 0;
    }

    method ReadU16() returns (result: nat)
      requires Valid()
      modifies this
      ensures Valid() && result < 0x1_0000
      ensures (result, View()) == old(View()).TakeU16()
    {
      Pow2Values();
      hide Valid, View, Pow2, Cursor.Take;
      result := ReadBits(16);
    }

    method ReadU32() returns (result: nat)
      requires Valid()
      modifies this
      ensures Valid() && result < 0x1_0000_0000
      ensures (result, View()) == old(View()).TakeU32()
    {
      Pow2Values();
      hide Valid, View, Pow2, Cursor.Take;
      result := ReadBits(32);
    }

    method ReadRanged(min: int, max: int) returns (result: int)
      requires Valid() && min <= max && max - min < 0x1_0000_0000
      modifies this
      ensures Valid()
      ensures (result, View()) == old(View()).TakeRanged(min, max)
    {
      hide Valid, View, Pow2, BitLength;
      var bits := CountBits(max - min);
      var v := ReadBits(bits);
      result := v + min;
    }

    method ReadVarint() returns (result: nat)
      requires Valid()
      modifies this
      ensures Valid()
      ensures (result, View()) == old(View()).TakeVarint()
    {
      hide Valid, View, Pow2, Above, Cursor.Take, Cursor.TakeGroups, Cursor.TakeU8;
      result := 0;
      var shift, i := 0, 0;
      ghost var c := View();
      GroupsBegin(c.TakeGroups(5).0);
      while i < 5
        invariant 0 <= i <= 5 && shift == 7 * i
        invariant Valid() && result < Pow2(shift)
        invariant c.TakeGroups(5).1 == View().TakeGroups(5 - i).1
        invariant c.TakeGroups(5).0 == Above(result, shift, View().TakeGroups(5 - i).0)
      {
        GroupStep(result, shift, View(), 5 - i);
        var x := ReadU8();
        result := Above(result, shift, x % 128);
        if x < 128 { break; }
        shift := shift + 7;
        i := i + 1;
      }
      GroupsEnd(View(), result, shift);
      result := result % 0x1_0000_0000;
    }
  
    method ReadEach(count: nat) returns (data: seq<byte>)
      requires Valid()
      modifies this
      ensures Valid()
      ensures (data, View()) == old(View()).TakeEach(count)
    {
      ByteFits();
      data := [];
      for i := 0 to count
        invariant Valid()
        invariant (data, View()) == old(View()).TakeEach(i)
      {
        var x := ReadU8();
        data := data + [x];
      }
    }

    /** Fills the caller's buffer, which holds `target` before: bytewise when unaligned,
        otherwise as a block copy. */
    method ReadBytes(target: seq<byte>) returns (data: seq<byte>)
      requires Valid()
      modifies this
      ensures Valid()
      ensures (data, View()) == old(View()).TakeBytes(target)
    {
      hide BytesBits, Cursor.TakeEach;
      var count := |target|;
      if bitPos % 8 != 0 {
        data := ReadEach(count);
        return;
      }
      if bitPos + 8 * count > 8 * |buffer| {
        overflow := true;
        return target;
      }
      data := buffer[bitPos / 8..bitPos / 8 + count];
      BlockIsEach(View(), buffer, bitPos / 8, count);
      bitPos := bitPos + 8 * count;
    }

    method ReadString() returns (s: seq<byte>)
      requires Valid()
      modifies this
      ensures Valid()
      ensures (s, View()) == old(View()).TakeString()
    {
      var len := ReadVarint();
      if len > 1023 {
        overflow := true;
        return [];
      }
      s := ReadEach(len);
    }

    method Align()
      requires Valid()
      modifies this
      ensures Valid()
      ensures View() == old(View()).Align()
    {
      var rem := bitPos % 8;
      if rem != 0 {
        var _ := ReadBits(8 - rem);
      }
    }
  }

  lemma ReadByte(c: Cursor, buffer: seq<byte>, at: nat)
    requires c.bits == BytesBits(buffer) && c.pos == 8 * at && at < |buffer|
    ensures c.TakeU8() == (buffer[at], c.(pos := 8 * at + 8))
  {
    ByteFits();
    hide BytesBits, ToNat, FromNat, Pow2;
    BytesBitsAt(buffer, at);
    ToFrom(buffer[at], 8);
  }

  /** Copying whole bytes is reading them one at a time. */
  lemma {:induction false} BlockIsEach(c: Cursor, buffer: seq<byte>, first: nat, count: nat)
    requires c.bits == BytesBits(buffer) && c.pos == 8 * first && first + count <= |buffer|
    ensures c.TakeEach(count) == (buffer[first..first + count], c.(pos := 8 * (first + count)))
  {
    hide BytesBits, Cursor.TakeU8;
    if count == 0 {
      assert buffer[first..first + count] == [];
    } else {
      var at := first + count - 1;
      BlockIsEach(c, buffer, first, count - 1);
      var mid := c.(pos := 8 * at);
      ReadByte(mid, buffer, at);
      assert buffer[first..first + (count - 1)] + [buffer[at]] == buffer[first..first + count];
    }
  }
}
