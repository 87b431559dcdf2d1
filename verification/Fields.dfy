/**
 Whole streams: any list of fields that fits is read back identically by the
 mirrored reads, through the bytes the writer leaves in its buffer.
 */
module Fields {
  import opened Bits
  import opened BitStream

  datatype Value =
    | Number(value: nat, width: nat)
    | Wide(value: nat)
    | Varint(value: nat)
    | Ranged(number: int, min: int, max: int)
    | Text(text: seq<byte>)
    | Block(bytes: seq<byte>)
    | Padding

  /** What a mirrored read knows of a field before reading it. */
  datatype Shape =
    | NumberOf(width: nat) | AWide | AVarint | RangedOf(min: int, range: nat) | AText | BlockOf(size: nat) | APadding

  /** Values that the writer takes; ranges are 32-bit. */
  type Input = f: Value | Writable(f) witness Padding

  /** Those that it takes without loss. */
  type Field = f: Value | FieldOk(f) witness Padding

  predicate Writable(f: Value) {
    match f
    case Number(_, n) => n <= 32
    case Wide(v) => v < 0x1_0000_0000_0000_0000
    case Varint(v) => v < 0x1_0000_0000
    case Ranged(_, min, max) => min <= max < min + 0x1_0000_0000
    case Text(_) => true
    case Block(_) => true
    case Padding => true
  }

  predicate FieldOk(f: Value) {
    Writable(f) && Kept(f) == f
  }

  /** What reading back gives: the bits that fit a field, a number brought into its
      range, and the first 1023 bytes of a text. */
  function Kept(f: Value): Value {
    match f
    case Number(v, n) => Number(v % Pow2(n), n)
    case Ranged(v, min, max) => Ranged(if v < min then min else if max < v then max else v, min, max)
    case Text(s) => Text(if |s| > 1023 then s[..1023] else s)
    case _ => f
  }

  function ShapeOf(f: Input): Shape
  {
    match f
    case Number(_, n) => NumberOf(n)
    case Wide(_) => AWide
    case Varint(_) => AVarint
    case Ranged(_, min, max) => RangedOf(min, max - min)
    case Text(_) => AText
    case Block(b) => BlockOf(|b|)
    case Padding => APadding
  }

  function PutField(p: Pen, f: Input): Pen
  {
    match f
    case Number(v, n) => p.Put(Mask(v, n), n)
    case Wide(v) => p.PutU64(v)
    case Varint(v) => p.PutVarint(v)
    case Ranged(v, min, max) => p.PutRanged(v, min, max)
    case Text(s) => p.PutString(s)
    case Block(b) => p.PutBytes(b)
    case Padding => p.Align()
  }

  function TakeField(c: Cursor, s: Shape): (r: (Value, Cursor)) {
    match s
    case NumberOf(n) => var (v, d) := c.Take(n); (Number(v, n), d)
    case AWide => var (v, d) := c.TakeU64(); (Wide(v), d)
    case AVarint => var (v, d) := c.TakeVarint(); (Varint(v), d)
    case RangedOf(min, range) => var (v, d) := c.TakeRanged(min, min + range); (Ranged(v, min, min + range), d)
    case AText => var (s, d) := c.TakeString(); (Text(s), d)
    case BlockOf(n) => var (b, d) := c.TakeBytes(Zeros(n)); (Block(b), d)
    case APadding => (Padding, c.Align())
  }

  /** The bits of one field that starts at bit `pos`. */
  ghost function FieldBits(f: Field, pos: nat): seq<bool>
  {
    match f
    case Number(v, n) => FromNat(v, n)
    case Wide(v) => FromNat(v % 0x1_0000_0000, 32) + FromNat(v / 0x1_0000_0000, 32)
    case Varint(v) => VarintBits(v)
    case Ranged(v, min, max) => FromNat(v - min, BitsRequired(max - min))
    case Text(s) => StringBits(s)
    case Block(b) => BytesBits(b)
    case Padding => FromNat(0, if pos % 8 == 0 then 0 else 8 - pos % 8)
  }

  lemma FieldWrote(p: Pen, f: Field)
    requires p.Fits()
    ensures Wrote(p, PutField(p, f), FieldBits(f, |p.ink|))
  {
    hide Wrote, Pow2, FromNat, BitsRequired, VarintBits, StringBits, BytesBits, Pen.Put, Pen.PutVarint, Pen.PutString,
      Pen.PutBytes;
    match f
    case Number(v, n) => PutWrote(p, v, n);
    case Wide(v) =>
      Pow2Values();
      var q := p.PutU32(v % 0x1_0000_0000);
      PutWrote(p, v % 0x1_0000_0000, 32);
      PutWrote(q, v / 0x1_0000_0000, 32);
      WroteThen(p, q, p.PutU64(v), FromNat(v % 0x1_0000_0000, 32), FromNat(v / 0x1_0000_0000, 32));
    case Varint(v) => PutVarintWrote(p, v);
    case Ranged(v, min, max) =>
      RangeFits(v - min, max - min);
      PutWrote(p, v - min, BitsRequired(max - min));
    case Text(s) => PutStringWrote(p, s);
    case Block(b) => PutBytesWrote(p, b);
    case Padding =>
      if |p.ink| % 8 == 0 {
        EmptyBits();
        WroteNothing(p);
      } else {
        ZeroFits(8 - |p.ink| % 8);
        PutWrote(p, 0, 8 - |p.ink| % 8);
      }
  }

  lemma FieldReadBack(c: Cursor, f: Field)
    requires Before(c, FieldBits(f, c.pos))
    ensures TakeField(c, ShapeOf(f)) == (f, c.Skip(|FieldBits(f, c.pos)|))
  {
    hide Before, Pow2, FromNat, BitsRequired, VarintBits, StringBits, BytesBits, Cursor.Take, Cursor.TakeU64,
      Cursor.TakeVarint, Cursor.TakeRanged, Cursor.TakeString, Cursor.TakeBytes, Cursor.Align;
    match f
    case Number(v, n) => TakeBefore(c, v, n);
    case Wide(v) => WideBefore(c, v);
    case Varint(v) => VarintBefore(c, v);
    case Ranged(v, min, max) => RangedReadBack(c, v, min, max);
    case Text(s) => StringBefore(c, s);
    case Block(b) => TakeBytesBefore(c, b, Zeros(|b|));
    case Padding => PaddingReadBack(c);
  }

  lemma RangedReadBack(c: Cursor, v: int, min: int, max: int)
    requires min <= v <= max && Before(c, FromNat(v - min, BitsRequired(max - min)))
    ensures c.TakeRanged(min, max) == (v, c.Skip(BitsRequired(max - min)))
  {
    hide Before, Pow2, FromNat, BitsRequired, Cursor.Take;
    RangeFits(v - min, max - min);
    TakeBefore(c, v - min, BitsRequired(max - min));
  }

  lemma PaddingReadBack(c: Cursor)
    requires Before(c, FromNat(0, if c.pos % 8 == 0 then 0 else 8 - c.pos % 8))
    ensures c.Align() == c.Skip(if c.pos % 8 == 0 then 0 else 8 - c.pos % 8)
  {
    hide Before, Pow2, FromNat, Cursor.Take;
    if c.pos % 8 != 0 {
      ZeroFits(8 - c.pos % 8);
      TakeBefore(c, 0, 8 - c.pos % 8);
    }
  }

  lemma WideBefore(c: Cursor, v: nat)
    requires v < 0x1_0000_0000_0000_0000
    requires Before(c, FromNat(v % 0x1_0000_0000, 32) + FromNat(v / 0x1_0000_0000, 32))
    ensures c.TakeU64() == (v, c.Skip(64))
  {
    hide *;
    WideParts(c, v % 0x1_0000_0000, v / 0x1_0000_0000);
  }

  lemma WideParts(c: Cursor, low: nat, high: nat)
    requires low < 0x1_0000_0000 && high < 0x1_0000_0000 && Before(c, FromNat(low, 32) + FromNat(high, 32))
    ensures c.TakeU64() == (low + 0x1_0000_0000 * high, c.Skip(64))
  {
    Pow2Values();
    hide Before, Pow2, FromNat, Cursor.Take;
    BeforeSplit(c, FromNat(low, 32), FromNat(high, 32));
    TakeBefore(c, low, 32);
    TakeBefore(c.Skip(32), high, 32);
  }

  // ---------------------------------------------------------------------------
  // Lists of fields

  function PutFields(p: Pen, fields: seq<Input>): Pen
    decreases |fields|
  {
    if fields == [] then p else PutFields(PutField(p, fields[0]), fields[1..])
  }

  function TakeFields(c: Cursor, shapes: seq<Shape>): (seq<Value>, Cursor)
    decreases |shapes|
  {
    if shapes == [] then ([], c)
    else
      var (f, d) := TakeField(c, shapes[0]);
      var (rest, e) := TakeFields(d, shapes[1..]);
      ([f] + rest, e)
  }

  function Shapes(fields: seq<Input>): seq<Shape>
  {
    if fields == [] then [] else [ShapeOf(fields[0])] + Shapes(fields[1..])
  }

  ghost function StreamBits(fields: seq<Field>, pos: nat): seq<bool>
  {
    if fields == [] then []
    else
      var b := FieldBits(fields[0], pos);
      b + StreamBits(fields[1..], pos + |b|)
  }

  lemma {:induction false} StreamWrote(p: Pen, fields: seq<Field>)
    requires p.Fits() && !PutFields(p, fields).overflow
    ensures !p.overflow && PutFields(p, fields).ink == p.ink + StreamBits(fields, |p.ink|)
    decreases |fields|
  {
    hide PutField, FieldBits, FieldOk, Wrote;
    if fields != [] {
      OkIsWritable(fields[0]);
      var q, b := PutField(p, fields[0]), FieldBits(fields[0], |p.ink|);
      FieldWrote(p, fields[0]);
      WroteFits(p, q, b);
      StreamWrote(q, fields[1..]);
      WroteInk(p, q, b);
      assert p.ink + b + StreamBits(fields[1..], |q.ink|) == p.ink + (b + StreamBits(fields[1..], |q.ink|));
    } else {
      assert p.ink + [] == p.ink;
    }
  }

  lemma WroteFits(p: Pen, q: Pen, b: seq<bool>)
    requires Wrote(p, q, b)
    ensures q.Fits()
  {
  }

  lemma WroteInk(p: Pen, q: Pen, b: seq<bool>)
    requires Wrote(p, q, b) && !q.overflow
    ensures !p.overflow && q.ink == p.ink + b
  {
  }

  lemma {:induction false} StreamReadBack(c: Cursor, fields: seq<Field>)
    requires Before(c, StreamBits(fields, c.pos))
    ensures TakeFields(c, Shapes(fields)) == (fields, c.Skip(|StreamBits(fields, c.pos)|))
    decreases |fields|
  {
    hide TakeField, FieldBits, FieldOk, Before, ShapeOf;
    if fields == [] {
      assert c.Skip(0) == c;
    } else {
      hide TakeFields, Shapes;
      var f, rest := fields[0], fields[1..];
      var b := FieldBits(f, c.pos);
      var tail := StreamBits(rest, c.pos + |b|);
      BeforeSplit(c, b, tail);
      FieldReadBack(c, f);
      StreamReadBack(c.Skip(|b|), rest);
      ReadOneMore(c, fields, |b|, |tail|);
    }
  }

  lemma ReadOneMore(c: Cursor, fields: seq<Field>, m: nat, n: nat)
    requires fields != []
    requires TakeField(c, ShapeOf(fields[0])) == (fields[0], c.Skip(m))
    requires TakeFields(c.Skip(m), Shapes(fields[1..])) == (fields[1..], c.Skip(m).Skip(n))
    ensures TakeFields(c, Shapes(fields)) == (fields, c.Skip(m + n))
  {
    hide TakeField, ShapeOf;
    assert Shapes(fields)[1..] == Shapes(fields[1..]);
    assert [fields[0]] + fields[1..] == fields;
  }

  /** Any stream of fields that fits the buffer reads back as what was kept of them,
      which is the same fields if none is out of its range, whatever padding follows. */
  lemma StreamRoundTrip(capacity: nat, fields: seq<Input>, padding: nat)
    requires !PutFields(Pen([], capacity, false), fields).overflow
    ensures var ink := PutFields(Pen([], capacity, false), fields).ink;
            var c := Cursor(ink + FromNat(0, padding), 0, false);
            TakeFields(c, Shapes(fields)) == (AllKept(fields), c.Skip(|ink|)) && |ink| <= capacity
    ensures (forall f <- fields :: FieldOk(f)) ==> AllKept(fields) == fields
  {
    hide StreamBits, FieldOk, Kept, Writable;
    var p, kept := Pen([], capacity, false), AllKept(fields);
    PutAllKept(p, fields);
    StreamWrote(p, kept);
    var ink := PutFields(p, fields).ink;
    assert ink == StreamBits(kept, 0);
    var c := Cursor(ink + FromNat(0, padding), 0, false);
    assert Before(c, ink);
    StreamReadBack(c, kept);
    StreamFits(p, kept);
    if forall f <- fields :: FieldOk(f) { NothingLost(fields); }
  }

  function AllKept(fields: seq<Input>): (kept: seq<Field>)
    ensures |kept| == |fields| && forall i | 0 <= i < |fields| :: kept[i] == Kept(fields[i])
  {
    if fields == [] then []
    else
      KeptOnce(fields[0]);
      [Kept(fields[0])] + AllKept(fields[1..])
  }

  lemma KeptOnce(f: Input)
    ensures FieldOk(Kept(f))
  {
    hide Pow2;
    if f.Number? {
      MaskSmall(f.value, Pow2(f.width));
      MaskSmall(f.value % Pow2(f.width), Pow2(f.width));
    }
  }

  lemma OkIsWritable(f: Field)
    ensures Writable(f)
  {
  }

  lemma NothingLost(fields: seq<Input>)
    requires forall f <- fields :: FieldOk(f)
    ensures AllKept(fields) == fields
  {
    hide Kept, Writable;
    forall i | 0 <= i < |fields| ensures AllKept(fields)[i] == fields[i] {
      assert FieldOk(fields[i]);
    }
  }

  /** Writing a field is writing what is kept of it. */
  lemma PutKept(p: Pen, f: Input)
    ensures Writable(Kept(f)) && PutField(p, f) == PutField(p, Kept(f)) && ShapeOf(f) == ShapeOf(Kept(f))
  {
    if f.Number? { MaskSmall(f.value, Pow2(f.width)); }
    hide Pow2, FromNat, BitsRequired, Pen.PutVarint, Pen.PutEach, Pen.PutBytes;
  }

  lemma {:induction false} PutAllKept(p: Pen, fields: seq<Input>)
    ensures PutFields(p, fields) == PutFields(p, AllKept(fields)) && Shapes(fields) == Shapes(AllKept(fields))
    decreases |fields|
  {
    hide PutField, ShapeOf, Kept, Writable, FieldOk;
    if fields != [] {
      PutKept(p, fields[0]);
      PutAllKept(PutField(p, fields[0]), fields[1..]);
      assert AllKept(fields)[1..] == AllKept(fields[1..]);
    }
  }

  lemma {:induction false} StreamFits(p: Pen, fields: seq<Field>)
    requires p.Fits()
    ensures PutFields(p, fields).Fits() && PutFields(p, fields).capacity == p.capacity
    decreases |fields|
  {
    if fields != [] {
      FieldWrote(p, fields[0]);
      hide PutField;
      StreamFits(PutField(p, fields[0]), fields[1..]);
    }
  }

  method WriteFields(writer: BitWriter, fields: seq<Input>)
    requires writer.Valid()
    modifies writer, writer.buffer
    ensures writer.Valid()
    ensures writer.View() == PutFields(old(writer.View()), fields)
  {
    hide PutField, FieldOk;
    for i := 0 to |fields|
      invariant writer.Valid()
      invariant PutFields(writer.View(), fields[i..]) == PutFields(old(writer.View()), fields)
    {
      WriteField(writer, fields[i]);
      assert fields[i..][1..] == fields[i + 1..];
    }
  }

  method ReadFields(reader: BitReader, fields: seq<Shape>) returns (got: seq<Value>)
    requires reader.Valid() && forall s <- fields :: Readable(s)
    modifies reader
    ensures reader.Valid()
    ensures (got, reader.View()) == TakeFields(old(reader.View()), fields)
  {
    hide TakeField;
    got := [];
    for i := 0 to |fields|
      invariant reader.Valid()
      invariant TakeFields(old(reader.View()), fields).0 == got + TakeFields(reader.View(), fields[i..]).0
      invariant TakeFields(old(reader.View()), fields).1 == TakeFields(reader.View(), fields[i..]).1
    {
      var f := ReadField(reader, fields[i]);
      got := got + [f];
      assert fields[i..][1..] == fields[i + 1..];
    }
    assert fields[|fields|..] == [] && got + [] == got;
  }

  /** The same through the two classes: writing a list of fields, closing the
      buffer, and reading its bytes gives the list back. */
  method WriteThenRead(fields: seq<Input>, buffer: array<byte>) returns (ok: bool, got: seq<Value>)
    modifies buffer
    ensures ok ==> got == AllKept(fields)
    ensures ok && (forall f <- fields :: FieldOk(f)) ==> got == fields
    ensures ok <==> !PutFields(Pen([], 8 * buffer.Length, false), fields).overflow
  {
    hide PutFields, TakeFields, BytesBits, FieldOk, Kept;
    var writer := new BitWriter(buffer, buffer.Length);
    WriteFields(writer, fields);
    if writer.overflow { return false, []; }
    var size := writer.BytesWritten();
    StreamRoundTrip(8 * buffer.Length, fields, 8 * size - writer.bitPos);
    var reader := new BitReader(buffer[..size]);
    ReadableShapes(fields);
    got := ReadFields(reader, Shapes(fields));
    ok := true;
  }

  predicate Readable(s: Shape) {
    (s.RangedOf? ==> s.range < 0x1_0000_0000) && (s.NumberOf? ==> s.width <= 32)
  }

  lemma ReadableShapes(fields: seq<Input>)
    ensures forall s <- Shapes(fields) :: Readable(s)
  {
  }

  method WriteField(writer: BitWriter, f: Input)
    requires writer.Valid()
    modifies writer, writer.buffer
    ensures writer.Valid()
    ensures writer.View() == PutField(old(writer.View()), f)
  {
    hide Pow2;
    match f
    case Number(v, n) => writer.WriteBits(v, n);
    case Wide(v) =>
      writer.WriteU32(v % 0x1_0000_0000);
      writer.WriteU32(v / 0x1_0000_0000);
    case Varint(v) => writer.WriteVarint(v);
    case Ranged(v, min, max) => writer.WriteRanged(v, min, max);
    case Text(s) => writer.WriteString(s);
    case Block(b) => writer.WriteBytes(b);
    case Padding => writer.Align();
  }

  method ReadField(reader: BitReader, s: Shape) returns (f: Value)
    requires reader.Valid() && Readable(s)
    modifies reader
    ensures reader.Valid()
    ensures (f, reader.View()) == TakeField(old(reader.View()), s)
  {
    hide BitReader.View, Cursor.Take, Cursor.TakeVarint, Cursor.TakeRanged, Cursor.TakeString, Cursor.TakeBytes,
      Cursor.Align;
    match s
    case NumberOf(n) => var v := reader.ReadBits(n); f := Number(v, n);
    case AWide =>
      var low := reader.ReadU32();
      var high := reader.ReadU32();
      f := Wide(low + 0x1_0000_0000 * high);
    case AVarint => var v := reader.ReadVarint(); f := Varint(v);
    case RangedOf(min, range) => var v := reader.ReadRanged(min, min + range); f := Ranged(v, min, min + range);
    case AText => var t := reader.ReadString(); f := Text(t);
    case BlockOf(n) => var b := reader.ReadBytes(Zeros(n)); f := Block(b);
    case APadding => reader.Align(); f := Padding;
  }
}
