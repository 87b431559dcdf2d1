/**
 Writing with the bits put down so far: each step extends `ink`, everything
 written since `start`.
 */
module Emission {
  import opened Bits
  import opened BitStream

  method Emit(w: BitWriter, value: nat, n: nat, ghost start: Pen, ghost ink: seq<bool>) returns (ghost ink': seq<bool>)
    requires w.Valid() && n <= 32 && value < Pow2(n) && Wrote(start, w.View(), ink)
    modifies w, w.buffer
    ensures w.Valid() && ink' == ink + FromNat(value, n) && Wrote(start, w.View(), ink')
    ensures w.Beyond() == old(w.Beyond())
  {
    hide Wrote, Pow2, FromNat;
    ghost var p := w.View();
    w.WriteBits(value, n);
    PutWrote(p, value, n);
    WroteThen(start, p, w.View(), ink, FromNat(value, n));
    ink' := ink + FromNat(value, n);
  }

  method EmitVarint(w: BitWriter, value: nat, ghost start: Pen, ghost ink: seq<bool>) returns (ghost ink': seq<bool>)
    requires w.Valid() && Wrote(start, w.View(), ink) && value < 0x1_0000_0000
    modifies w, w.buffer
    ensures w.Valid() && ink' == ink + VarintBits(value) && Wrote(start, w.View(), ink')
    ensures w.Beyond() == old(w.Beyond())
  {
    hide Wrote, VarintBits;
    ghost var p := w.View();
    w.WriteVarint(value);
    PutVarintWrote(p, value);
    WroteThen(start, p, w.View(), ink, VarintBits(value));
    ink' := ink + VarintBits(value);
  }

  method EmitBytes(w: BitWriter, data: seq<byte>, ghost start: Pen, ghost ink: seq<bool>)
    returns (ghost ink': seq<bool>)
    requires w.Valid() && Wrote(start, w.View(), ink)
    modifies w, w.buffer
    ensures w.Valid() && ink' == ink + BytesBits(data) && Wrote(start, w.View(), ink')
    ensures w.Beyond() == old(w.Beyond())
  {
    hide Wrote, BytesBits;
    ghost var p := w.View();
    w.WriteBytes(data);
    PutBytesWrote(p, data);
    WroteThen(start, p, w.View(), ink, BytesBits(data));
    ink' := ink + BytesBits(data);
  }

  method EmitString(w: BitWriter, text: seq<byte>, ghost start: Pen, ghost ink: seq<bool>)
    returns (ghost ink': seq<bool>)
    requires w.Valid() && Wrote(start, w.View(), ink)
    modifies w, w.buffer
    ensures w.Valid() && ink' == ink + StringBits(text) && Wrote(start, w.View(), ink')
    ensures w.Beyond() == old(w.Beyond())
  {
    hide Wrote, StringBits;
    ghost var p := w.View();
    w.WriteString(text);
    PutStringWrote(p, text);
    WroteThen(start, p, w.View(), ink, StringBits(text));
    ink' := ink + StringBits(text);
  }

  /** The bits of a 64-bit number: the low word, then the high word. */
  function WideBits(value: nat): seq<bool> {
    FromNat(value % 0x1_0000_0000, 32) + FromNat(value / 0x1_0000_0000, 32)
  }

  method EmitWide(w: BitWriter, value: nat, ghost start: Pen, ghost ink: seq<bool>) returns (ghost ink': seq<bool>)
    requires w.Valid() && Wrote(start, w.View(), ink) && value < 0x1_0000_0000_0000_0000
    modifies w, w.buffer
    ensures w.Valid() && ink' == ink + WideBits(value) && Wrote(start, w.View(), ink')
    ensures w.Beyond() == old(w.Beyond())
  {
    Pow2Values();
    hide Wrote, Pow2, FromNat, BitWriter.Valid, BitWriter.View, BitWriter.Beyond;
    ink' := Emit(w, value % 0x1_0000_0000, 32, start, ink);
    ink' := Emit(w, value / 0x1_0000_0000, 32, start, ink');
    Chain3(ink, FromNat(value % 0x1_0000_0000, 32), FromNat(value / 0x1_0000_0000, 32));
  }

  lemma Chain4(a: seq<bool>, b: seq<bool>, c: seq<bool>, d: seq<bool>)
    ensures a + b + c + d == a + (b + (c + d))
  {
  }

  lemma Chain5(a: seq<bool>, b: seq<bool>, c: seq<bool>, d: seq<bool>, e: seq<bool>)
    ensures a + b + c + d + e == a + (b + (c + (d + e)))
  {
  }
}
