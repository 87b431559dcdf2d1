/**
 Handoff tickets: what the source shard writes about a player for the destination
 shard, with a checksum behind it.  A float travels as its 32-bit pattern.
 */
module Tickets {
  import opened Sequence
  import opened SequenceBuffers
  import opened Bits
  import opened BitStream
  import opened Emission
  import opened Fields
  import opened Checksums

  const VERSION: nat := 1
  const TICKET_BYTES: nat := 512

  type u64 = x: int | 0 <= x < 0x1_0000_0000_0000_0000

  datatype Names = Names(player: seq<byte>, from: seq<byte>, to: seq<byte>)

  /** Tick, position and velocity. */
  datatype Motion = Motion(tick: u32, x: u32, y: u32, vx: u32, vy: u32)

  datatype Ticket = Ticket(token: u64, names: Names, region: u32, motion: Motion, lastInput: u32, issued: u64)

  // ---------------------------------------------------------------------------
  // The bits of a ticket

  function NamesInk(n: Names): seq<bool> {
    StringBits(n.player) + (StringBits(n.from) + StringBits(n.to))
  }

  function MotionInk(m: Motion): seq<bool> {
    FromNat(m.tick, 32) + (FromNat(m.x, 32) + (FromNat(m.y, 32) + (FromNat(m.vx, 32) + FromNat(m.vy, 32))))
  }

  function TailInk(t: Ticket): seq<bool> {
    VarintBits(t.region) + (MotionInk(t.motion) + (VarintBits(t.lastInput) + WideBits(t.issued)))
  }

  function TicketInk(t: Ticket): seq<bool> {
    VarintBits(VERSION) + (WideBits(t.token) + (NamesInk(t.names) + TailInk(t)))
  }

  /** A whole number of bytes. */
  predicate Whole(b: seq<bool>) {
    |b| % 8 == 0
  }

  lemma WholeBoth(a: seq<bool>, b: seq<bool>)
    requires Whole(a) && Whole(b)
    ensures Whole(a + b)
  {
  }

  lemma WholeField(v: nat, n: nat)
    ensures Whole(FromNat(v, 8 * n))
  {
  }

  lemma WholeBytes(data: seq<byte>)
    ensures Whole(BytesBits(data))
  {
  }

  lemma {:induction false} VarintWhole(v: nat)
    ensures Whole(VarintBits(v)) && |VarintBits(v)| >= 8
  {
    hide Whole, VarintBits, FromNat;
    VarintFirst(v);
    if v >= 128 {
      VarintWhole(v / 128);
      WholeField(v % 128 + 128, 1);
      WholeBoth(FromNat(v % 128 + 128, 8), VarintBits(v / 128));
    } else {
      WholeField(v, 1);
    }
  }

  lemma VarintFirst(v: nat)
    ensures VarintBits(v) == if v >= 128 then FromNat(v % 128 + 128, 8) + VarintBits(v / 128) else FromNat(v, 8)
  {
    hide FromNat;
  }

  lemma StringWhole(s: seq<byte>)
    ensures Whole(StringBits(s)) && |StringBits(s)| >= 8 * |Truncated(s)| + 8
  {
    hide VarintBits, BytesBits, Whole;
    VarintWhole(|Truncated(s)|);
    WholeBytes(Truncated(s));
    WholeBoth(VarintBits(|Truncated(s)|), BytesBits(Truncated(s)));
  }

  lemma NamesWhole(n: Names)
    ensures Whole(NamesInk(n))
    ensures |NamesInk(n)| <= 8 * TICKET_BYTES ==> |n.player| <= 1023 && |n.from| <= 1023 && |n.to| <= 1023
  {
    hide StringBits, Whole;
    StringWhole(n.player);
    StringWhole(n.from);
    StringWhole(n.to);
    WholeBoth(StringBits(n.from), StringBits(n.to));
    WholeBoth(StringBits(n.player), StringBits(n.from) + StringBits(n.to));
  }

  lemma WideWhole(v: nat)
    ensures Whole(WideBits(v)) && |WideBits(v)| == 64
  {
    hide FromNat;
  }

  lemma MotionWhole(m: Motion)
    ensures Whole(MotionInk(m)) && |MotionInk(m)| == 160
  {
    hide FromNat;
  }

  lemma TailWhole(t: Ticket)
    ensures Whole(TailInk(t))
  {
    hide VarintBits, MotionInk, WideBits, Whole;
    VarintWhole(t.region);
    VarintWhole(t.lastInput);
    MotionWhole(t.motion);
    WideWhole(t.issued);
    WholeBoth(VarintBits(t.lastInput), WideBits(t.issued));
    WholeBoth(MotionInk(t.motion), VarintBits(t.lastInput) + WideBits(t.issued));
    WholeBoth(VarintBits(t.region), MotionInk(t.motion) + (VarintBits(t.lastInput) + WideBits(t.issued)));
  }

  lemma TicketWhole(t: Ticket)
    ensures Whole(TicketInk(t)) && |TicketInk(t)| > 8
    ensures |TicketInk(t)| <= 8 * TICKET_BYTES ==>
              |t.names.player| <= 1023 && |t.names.from| <= 1023 && |t.names.to| <= 1023
  {
    hide VarintBits, NamesInk, TailInk, WideBits, Whole;
    VarintWhole(VERSION);
    WideWhole(t.token);
    NamesWhole(t.names);
    TailWhole(t);
    WholeBoth(NamesInk(t.names), TailInk(t));
    WholeBoth(WideBits(t.token), NamesInk(t.names) + TailInk(t));
    WholeBoth(VarintBits(VERSION), WideBits(t.token) + (NamesInk(t.names) + TailInk(t)));
  }

  function LittleEndian(v: u32): seq<byte> {
    [v % 256, v / 256 % 256, v / 65536 % 256, v / 16777216]
  }

  function FromLittleEndian(b: seq<byte>): nat
    requires |b| == 4
  {
    var low, mid, high, top: int := b[0], b[1], b[2], b[3];
    low + 256 * mid + 65536 * high + 16777216 * top
  }

  /** `blob` is the ticket followed by the checksum of its bytes. */
  ghost predicate IsTicket(blob: seq<byte>, t: Ticket) {
    && 4 <= |blob| <= TICKET_BYTES
    && BytesBits(blob[..|blob| - 4]) == TicketInk(t)
    && blob[|blob| - 4..] == LittleEndian(Checksum(blob[..|blob| - 4]))
  }

  // ---------------------------------------------------------------------------
  // Decoding

  function TakeNames(c: Cursor): (Names, Cursor) {
    var (player, d) := c.TakeString();
    var (from, e) := d.TakeString();
    var (to, f) := e.TakeString();
    (Names(player, from, to), f)
  }

  function TakeMotion(c: Cursor): (Motion, Cursor) {
    var (tick, d) := c.TakeU32();
    var (x, e) := d.TakeU32();
    var (y, f) := e.TakeU32();
    var (vx, g) := f.TakeU32();
    var (vy, h) := g.TakeU32();
    (Motion(tick, x, y, vx, vy), h)
  }

  /** Everything after the version. */
  function TakeTicket(c: Cursor): Option<Ticket> {
    var (token, d) := c.TakeU64();
    var (names, e) := TakeNames(d);
    var (region, f) := e.TakeVarint();
    var (motion, g) := TakeMotion(f);
    var (lastInput, h) := g.TakeVarint();
    var (issued, i) := h.TakeU64();
    if i.overflow || names.player == [] then None else Some(Ticket(token, names, region, motion, lastInput, issued))
  }

  function DecodeTicket(blob: seq<byte>): (r: Option<Ticket>) {
    if |blob| < 5 || |blob| > TICKET_BYTES then None
    else
      var body := |blob| - 4;
      if Checksum(blob[..body]) != FromLittleEndian(blob[body..]) then None
      else
        var (version, c) := Cursor(BytesBits(blob[..body]), 0, false).TakeVarint();
        if version != VERSION then None else TakeTicket(c)
  }

  // ---------------------------------------------------------------------------
  // The round trip

  lemma LittleEndianInverse(v: u32)
    ensures FromLittleEndian(LittleEndian(v)) == v
  {
    var a, b, c := v / 256, v / 65536, v / 16777216;
    assert v == v % 256 + 256 * a;
    assert a / 256 == b && b / 256 == c;
    assert a == a % 256 + 256 * b && b == b % 256 + 256 * c;
  }

  lemma FromLittleEndianInjective(a: seq<byte>, b: seq<byte>)
    requires |a| == |b| == 4 && FromLittleEndian(a) == FromLittleEndian(b)
    ensures a == b
  {
    FourDigits(a[0], a[1], a[2], a[3], b[0], b[1], b[2], b[3]);
  }

  lemma FourDigits(a0: byte, a1: byte, a2: byte, a3: byte, b0: byte, b1: byte, b2: byte, b3: byte)
    requires a0 + 256 * a1 + 65536 * a2 + 16777216 * a3 == b0 + 256 * b1 + 65536 * b2 + 16777216 * b3
    ensures a0 == b0 && a1 == b1 && a2 == b2 && a3 == b3
  {
    LowDigit(a0, b0, a1 + 256 * a2 + 65536 * a3, b1 + 256 * b2 + 65536 * b3);
    LowDigit(a1, b1, a2 + 256 * a3, b2 + 256 * b3);
    LowDigit(a2, b2, a3, b3);
  }

  lemma LowDigit(a: byte, b: byte, m: int, n: int)
    requires a + 256 * m == b + 256 * n
    ensures a == b && m == n
  {
  }

  lemma NamesBefore(c: Cursor, n: Names)
    requires Before(c, NamesInk(n)) && |n.player| <= 1023 && |n.from| <= 1023 && |n.to| <= 1023
    ensures TakeNames(c) == (n, c.Skip(|NamesInk(n)|))
  {
    hide Before, StringBits, Cursor.TakeString;
    BeforeSplit(c, StringBits(n.player), StringBits(n.from) + StringBits(n.to));
    StringBefore(c, n.player);
    var d := c.Skip(|StringBits(n.player)|);
    BeforeSplit(d, StringBits(n.from), StringBits(n.to));
    StringBefore(d, n.from);
    StringBefore(d.Skip(|StringBits(n.from)|), n.to);
  }

  lemma MotionBefore(c: Cursor, m: Motion)
    requires Before(c, MotionInk(m))
    ensures TakeMotion(c) == (m, c.Skip(160))
  {
    hide Before, FromNat, Cursor.TakeU32;
    var x, y, vx, vy := FromNat(m.x, 32), FromNat(m.y, 32), FromNat(m.vx, 32), FromNat(m.vy, 32);
    BeforeSplit(c, FromNat(m.tick, 32), x + (y + (vx + vy)));
    U32Before(c, m.tick);
    BeforeSplit(c.Skip(32), x, y + (vx + vy));
    U32Before(c.Skip(32), m.x);
    BeforeSplit(c.Skip(64), y, vx + vy);
    U32Before(c.Skip(64), m.y);
    BeforeSplit(c.Skip(96), vx, vy);
    U32Before(c.Skip(96), m.vx);
    U32Before(c.Skip(128), m.vy);
  }

  lemma TailBefore(c: Cursor, t: Ticket)
    requires Before(c, TailInk(t))
    ensures var (region, d) := c.TakeVarint();
            var (motion, e) := TakeMotion(d);
            var (lastInput, f) := e.TakeVarint();
            var (issued, g) := f.TakeU64();
            region == t.region && motion == t.motion && lastInput == t.lastInput && issued == t.issued && !g.overflow
  {
    hide Before, MotionInk, VarintBits, FromNat, Cursor.TakeVarint, Cursor.TakeU64, TakeMotion;
    NotOverflowed(c, TailInk(t));
    var region, motion, lastInput, issued := VarintBits(t.region), MotionInk(t.motion), VarintBits(t.lastInput),
        WideBits(t.issued);
    MotionSize(t.motion);
    BeforeSplit(c, region, motion + (lastInput + issued));
    VarintBefore(c, t.region);
    var d := c.Skip(|region|);
    BeforeSplit(d, motion, lastInput + issued);
    MotionBefore(d, t.motion);
    var e := d.Skip(160);
    BeforeSplit(e, lastInput, issued);
    VarintBefore(e, t.lastInput);
    WideBefore(e.Skip(|lastInput|), t.issued);
  }

  lemma MotionSize(m: Motion)
    ensures |MotionInk(m)| == 160
  {
  }

  /** Every ticket that encodes, with a player id, decodes to itself. */
  lemma TicketRoundTrip(t: Ticket, blob: seq<byte>)
    requires IsTicket(blob, t)
    ensures DecodeTicket(blob) == if t.names.player == [] then None else Some(t)
  {
    hide VarintBits, NamesInk, TailInk, FromNat, BytesBits, Checksum, LittleEndian, Cursor.TakeVarint, Cursor.TakeU64,
      TakeNames, TakeMotion;
    TicketWhole(t);
    var body := |blob| - 4;
    LittleEndianInverse(Checksum(blob[..body]));
    var c := Cursor(BytesBits(blob[..body]), 0, false);
    assert Before(c, TicketInk(t));
    hide Before;
    var version, token, names, tail := VarintBits(VERSION), WideBits(t.token), NamesInk(t.names), TailInk(t);
    BeforeSplit(c, version, token + (names + tail));
    VarintBefore(c, VERSION);
    var d := c.Skip(|version|);
    BeforeSplit(d, token, names + tail);
    WideBefore(d, t.token);
    var e := d.Skip(64);
    BeforeSplit(e, names, tail);
    NamesBefore(e, t.names);
    TailBefore(e.Skip(|names|), t);
  }

  /** Changing exactly one byte of a blob that decodes makes it be rejected. */
  lemma OneByteRejected(blob: seq<byte>, i: nat, x: byte)
    requires DecodeTicket(blob).Some? && i < |blob| && x != blob[i]
    ensures DecodeTicket(blob[i := x]) == None
  {
    hide TakeTicket, Checksum, FromLittleEndian, Cursor.TakeVarint, BytesBits;
    var body, changed := |blob| - 4, blob[i := x];
    if i < body {
      assert changed[..body] == blob[..body][i := x] && changed[body..] == blob[body..];
      OneByteChanges(blob[..body], i, x);
    } else {
      assert changed[..body] == blob[..body] && changed[body..][i - body] == x != blob[body..][i - body];
      if FromLittleEndian(changed[body..]) == FromLittleEndian(blob[body..]) {
        FromLittleEndianInjective(changed[body..], blob[body..]);
      }
    }
  }

  // ---------------------------------------------------------------------------
  // The code that does it

  method EmitNames(w: BitWriter, n: Names, ghost start: Pen, ghost ink: seq<bool>) returns (ghost ink': seq<bool>)
    requires w.Valid() && Wrote(start, w.View(), ink)
    modifies w, w.buffer
    ensures w.Valid() && ink' == ink + NamesInk(n) && Wrote(start, w.View(), ink')
    ensures w.Beyond() == old(w.Beyond())
  {
    hide Wrote, StringBits, BitWriter.Valid, BitWriter.View, BitWriter.Beyond;
    ink' := EmitString(w, n.player, start, ink);
    ink' := EmitString(w, n.from, start, ink');
    ink' := EmitString(w, n.to, start, ink');
    Chain4(ink, StringBits(n.player), StringBits(n.from), StringBits(n.to));
  }

  method EmitMotion(w: BitWriter, m: Motion, ghost start: Pen, ghost ink: seq<bool>) returns (ghost ink': seq<bool>)
    requires w.Valid() && Wrote(start, w.View(), ink)
    modifies w, w.buffer
    ensures w.Valid() && ink' == ink + MotionInk(m) && Wrote(start, w.View(), ink')
    ensures w.Beyond() == old(w.Beyond())
  {
    Pow2Values();
    hide Wrote, Pow2, FromNat, BitWriter.Valid, BitWriter.View, BitWriter.Beyond;
    ink' := Emit(w, m.tick, 32, start, ink);
    ink' := Emit(w, m.x, 32, start, ink');
    ghost var half := ink';
    ink' := Emit(w, m.y, 32, start, ink');
    ink' := Emit(w, m.vx, 32, start, ink');
    ink' := Emit(w, m.vy, 32, start, ink');
    Chain4(half, FromNat(m.y, 32), FromNat(m.vx, 32), FromNat(m.vy, 32));
    Chain4(ink, FromNat(m.tick, 32), FromNat(m.x, 32), FromNat(m.y, 32) + (FromNat(m.vx, 32) + FromNat(m.vy, 32)));
  }

  method EmitTail(w: BitWriter, t: Ticket, ghost start: Pen, ghost ink: seq<bool>) returns (ghost ink': seq<bool>)
    requires w.Valid() && Wrote(start, w.View(), ink)
    modifies w, w.buffer
    ensures w.Valid() && ink' == ink + TailInk(t) && Wrote(start, w.View(), ink')
    ensures w.Beyond() == old(w.Beyond())
  {
    hide Wrote, VarintBits, MotionInk, WideBits, BitWriter.Valid, BitWriter.View, BitWriter.Beyond;
    ink' := EmitVarint(w, t.region, start, ink);
    ink' := EmitMotion(w, t.motion, start, ink');
    ink' := EmitVarint(w, t.lastInput, start, ink');
    ink' := EmitWide(w, t.issued, start, ink');
    Chain5(ink, VarintBits(t.region), MotionInk(t.motion), VarintBits(t.lastInput), WideBits(t.issued));
  }

  method EmitTicket(w: BitWriter, t: Ticket, ghost start: Pen) returns (ghost ink: seq<bool>)
    requires w.Valid() && w.View() == start && start.Fits()
    modifies w, w.buffer
    ensures w.Valid() && ink == TicketInk(t) && Wrote(start, w.View(), ink)
    ensures w.Beyond() == old(w.Beyond())
  {
    hide Wrote, VarintBits, NamesInk, TailInk, WideBits, BitWriter.Valid, BitWriter.View, BitWriter.Beyond;
    WroteNothing(start);
    ink := EmitVarint(w, VERSION, start, []);
    ink := EmitWide(w, t.token, start, ink);
    ink := EmitNames(w, t.names, start, ink);
    ink := EmitTail(w, t, start, ink);
    Chain5([], VarintBits(VERSION), WideBits(t.token), NamesInk(t.names), TailInk(t));
    assert [] + TicketInk(t) == TicketInk(t);
  }

  lemma {:induction false} WordBytes(v: u32)
    ensures BytesBits(LittleEndian(v)) == FromNat(v, 32)
  {
    Pow2Values();
    var a, b, c, d: byte := v % 256, v / 256 % 256, v / 65536 % 256, v / 16777216;
    FourBytes(a, b, c, d);
    hide Pow2, FromNat;
    assert Pow2(24) == 16777216 by { Pow2Add(8, 16); }
    FromNatSplit(v, 8, 24);
    FromNatSplit(v / 256, 8, 16);
    FromNatSplit(v / 256 / 256, 8, 8);
    assert v / 256 / 256 == v / 65536 && v / 65536 / 256 == v / 16777216;
  }

  lemma FourBytes(a: byte, b: byte, c: byte, d: byte)
    ensures BytesBits([a, b, c, d]) == FromNat(a, 8) + (FromNat(b, 8) + (FromNat(c, 8) + FromNat(d, 8)))
  {
    hide FromNat;
    BytesBitsAppend([], a);
    BytesBitsAppend([a], b);
    BytesBitsAppend([a, b], c);
    BytesBitsAppend([a, b, c], d);
    assert [] + [a] == [a] && [a] + [b] == [a, b] && [a, b] + [c] == [a, b, c] && [a, b, c] + [d] == [a, b, c, d];
    hide BytesBits;
    assert BytesBits([a]) == FromNat(a, 8) by { NoBytes(); }
    Chain4(FromNat(a, 8), FromNat(b, 8), FromNat(c, 8), FromNat(d, 8));
  }

  lemma NoBytes()
    ensures BytesBits([]) == []
  {
  }

  /** Bytes with these bits and no others. */
  lemma {:induction false} BytesUnique(a: seq<byte>, b: seq<byte>)
    requires BytesBits(a) == BytesBits(b)
    ensures a == b
  {
    var c := Cursor(BytesBits(a), 0, false);
    assert Before(c, BytesBits(a)) && Before(c, BytesBits(b));
    hide *;
    TakeEachBefore(c, a);
    TakeEachBefore(c, b);
    SameLength(a, b);
  }

  lemma SameLength(a: seq<byte>, b: seq<byte>)
    requires BytesBits(a) == BytesBits(b)
    ensures |a| == |b|
  {
  }

  /** The ticket's bytes, its checksum, and nothing if that is more than 512. */
  method EncodeTicket(t: Ticket) returns (blob: seq<byte>)
    ensures blob == [] <==> |TicketInk(t)| + 32 > 8 * TICKET_BYTES
    ensures blob != [] ==> IsTicket(blob, t)
  {
    Pow2Values();
    hide Wrote, Pow2, FromNat, BytesBits, TicketInk, Checksum, LittleEndian, BitWriter.Valid, BitWriter.View,
      BitWriter.Beyond;
    blob := [];
    TicketWhole(t);
    var buffer := new byte[TICKET_BYTES](_ => 0);
    var w := new BitWriter(buffer, TICKET_BYTES);
    ghost var start := w.View();
    ghost var ink := EmitTicket(w, t, start);
    TicketFits(start, w.View(), ink);
    w.Align();
    if w.overflow { return; }
    Aligned(ink);
    blob := Seal(w, ink);
  }

  /** Appends the checksum of what has been written, if it still fits. */
  method Seal(w: BitWriter, ghost ink: seq<bool>) returns (blob: seq<byte>)
    requires w.Valid() && w.View() == Pen(ink, 8 * w.capacity, false) && |ink| % 8 == 0 && w.capacity == w.buffer.Length
    modifies w, w.buffer
    ensures blob == [] <==> |ink| + 32 > 8 * w.capacity
    ensures blob != [] ==>
              && 4 <= |blob| <= w.capacity && BytesBits(blob[..|blob| - 4]) == ink
              && blob[|blob| - 4..] == LittleEndian(Checksum(blob[..|blob| - 4]))
    ensures w.Beyond() == old(w.Beyond())
  {
    hide Wrote, Pow2, FromNat, BytesBits, Checksum, LittleEndian, BitWriter.Valid, BitWriter.View, Pen.PutU32;
    blob := [];
    var bytes := Written(w, ink);
    var sum := ComputeChecksum(bytes);
    WordPut(w.View(), sum);
    w.WriteU32(sum);
    if w.overflow { return; }
    blob := Written(w, ink + FromNat(sum, 32));
    Sealed(bytes, sum, blob);
  }

  /** The bytes so far, when they are whole. */
  method Written(w: BitWriter, ghost ink: seq<bool>) returns (bytes: seq<byte>)
    requires w.Valid() && w.View().ink == ink && |ink| % 8 == 0 && w.capacity <= w.buffer.Length
    modifies w.buffer
    ensures w.Valid() && w.View() == old(w.View()) && |bytes| <= w.capacity && BytesBits(bytes) == ink
  {
    hide FromNat, BytesBits, BitWriter.Valid, BitWriter.View, BitWriter.Beyond;
    var size := w.BytesWritten();
    Aligned(ink);
    bytes := w.buffer[..size];
  }

  lemma WordPut(pen: Pen, sum: u32)
    requires pen.Fits() && !pen.overflow
    ensures var q := pen.PutU32(sum);
            (q.overflow <==> |pen.ink| + 32 > pen.capacity) && (!q.overflow ==> q.ink == pen.ink + FromNat(sum, 32))
  {
    Pow2Values();
    hide Pow2, FromNat, Wrote;
    PutWrote(pen, sum, 32);
    TicketFits(pen, pen.PutU32(sum), FromNat(sum, 32));
  }

  lemma Sealed(bytes: seq<byte>, sum: u32, blob: seq<byte>)
    requires BytesBits(blob) == BytesBits(bytes) + FromNat(sum, 32)
    ensures |blob| == |bytes| + 4 && blob[..|blob| - 4] == bytes && blob[|blob| - 4..] == LittleEndian(sum)
  {
    hide FromNat, BytesBits, LittleEndian;
    WordBytes(sum);
    BytesBitsConcat(bytes, LittleEndian(sum));
    BytesUnique(blob, bytes + LittleEndian(sum));
    FourMore(bytes, sum, blob);
  }

  lemma FourMore(bytes: seq<byte>, sum: u32, blob: seq<byte>)
    requires blob == bytes + LittleEndian(sum)
    ensures |blob| == |bytes| + 4 && blob[..|blob| - 4] == bytes && blob[|blob| - 4..] == LittleEndian(sum)
  {
  }

  lemma TicketFits(start: Pen, pen: Pen, ink: seq<bool>)
    requires Wrote(start, pen, ink) && !start.overflow
    ensures pen.overflow <==> |start.ink| + |ink| > start.capacity
    ensures !pen.overflow ==> pen.ink == start.ink + ink
    ensures pen.capacity == start.capacity
  {
  }

  lemma Aligned(ink: seq<bool>)
    ensures ink + FromNat(0, 0) == ink && [] + ink == ink
  {
    EmptyBits();
  }

  method ReadNames(r: BitReader) returns (n: Names)
    requires r.Valid()
    modifies r
    ensures r.Valid() && (n, r.View()) == TakeNames(old(r.View()))
  {
    hide Cursor.TakeString, BitReader.Valid, BitReader.View;
    var player := r.ReadString();
    var from := r.ReadString();
    var to := r.ReadString();
    n := Names(player, from, to);
  }

  method ReadMotion(r: BitReader) returns (m: Motion)
    requires r.Valid()
    modifies r
    ensures r.Valid() && (m, r.View()) == TakeMotion(old(r.View()))
  {
    hide Cursor.TakeU32, BitReader.Valid, BitReader.View;
    var tick := r.ReadU32();
    var x := r.ReadU32();
    var y := r.ReadU32();
    var vx := r.ReadU32();
    var vy := r.ReadU32();
    m := Motion(tick, x, y, vx, vy);
  }

  method ReadWide(r: BitReader) returns (v: u64)
    requires r.Valid()
    modifies r
    ensures r.Valid() && (v, r.View()) == old(r.View()).TakeU64()
  {
    hide Cursor.TakeU32, BitReader.Valid, BitReader.View;
    var low := r.ReadU32();
    var high := r.ReadU32();
    v := low + 0x1_0000_0000 * high;
  }

  method ReadTicket(r: BitReader) returns (t: Option<Ticket>)
    requires r.Valid()
    modifies r
    ensures r.Valid() && t == TakeTicket(old(r.View()))
  {
    hide Cursor.TakeVarint, Cursor.TakeU64, TakeNames, TakeMotion, BitReader.Valid;
    var token := ReadWide(r);
    var names := ReadNames(r);
    var region := r.ReadVarint();
    var motion := ReadMotion(r);
    var lastInput := r.ReadVarint();
    var issued := ReadWide(r);
    if r.overflow || names.player == [] { return None; }
    t := Some(Ticket(token, names, region, motion, lastInput, issued));
  }

  method ParseTicket(blob: seq<byte>) returns (t: Option<Ticket>)
    ensures t == DecodeTicket(blob)
  {
    hide Checksum, FromLittleEndian, TakeTicket, Cursor.TakeVarint, BytesBits, BitReader.Valid;
    if |blob| < 5 || |blob| > TICKET_BYTES { return None; }
    var body := |blob| - 4;
    var sum := ComputeChecksum(blob[..body]);
    if sum != FromLittleEndian(blob[body..]) { return None; }
    var r := new BitReader(blob[..body]);
    var version := r.ReadVarint();
    if version != VERSION { return None; }
    t := ReadTicket(r);
  }

  // ---------------------------------------------------------------------------
  // What is accepted

  lemma NamesRead(c: Cursor)
    ensures var (n, d) := TakeNames(c); Reads(c, d, 24 + 8 * (|n.player| + |n.from| + |n.to|))
  {
    hide Cursor.TakeString;
    var (player, d) := c.TakeString();
    var (from, e) := d.TakeString();
    var (to, f) := e.TakeString();
    StringReads(c);
    StringReads(d);
    StringReads(e);
    ReadsBoth(c, d, e, 8 + 8 * |player|, 8 + 8 * |from|);
    ReadsBoth(c, e, f, 16 + 8 * |player| + 8 * |from|, 8 + 8 * |to|);
  }

  lemma MotionReads(c: Cursor)
    ensures Reads(c, TakeMotion(c).1, 160)
  {
    hide Cursor.Take;
    var (tick, d) := c.TakeU32();
    var (x, e) := d.TakeU32();
    var (y, f) := e.TakeU32();
    var (vx, g) := f.TakeU32();
    TakeReads(c, 32);
    TakeReads(d, 32);
    TakeReads(e, 32);
    TakeReads(f, 32);
    TakeReads(g, 32);
  }

  lemma TicketReads(c: Cursor)
    requires TakeTicket(c).Some?
    ensures var n := TakeTicket(c).value.names;
            !c.overflow && c.pos + 328 + 8 * (|n.player| + |n.from| + |n.to|) <= |c.bits| && n.player != []
  {
    hide Cursor.TakeU64, Cursor.TakeVarint, TakeNames, TakeMotion;
    var (token, d) := c.TakeU64();
    var (names, e) := TakeNames(d);
    var (region, f) := e.TakeVarint();
    var (motion, g) := TakeMotion(f);
    var (lastInput, h) := g.TakeVarint();
    WideReads(c);
    NamesRead(d);
    VarintReads(e);
    MotionReads(f);
    VarintReads(g);
    WideReads(h);
  }

  /** Whatever the blob: an accepted one has a length that a ticket can have, the right
      checksum, the right version, a player id, and room for every field of the ticket. */
  lemma AcceptedIsWhole(blob: seq<byte>)
    requires DecodeTicket(blob).Some?
    ensures 5 <= |blob| <= 512 && FromLittleEndian(blob[|blob| - 4..]) == Checksum(blob[..|blob| - 4])
    ensures Cursor(BytesBits(blob[..|blob| - 4]), 0, false).TakeVarint().0 == VERSION
    ensures var n := DecodeTicket(blob).value.names;
            n.player != [] && 46 + |n.player| + |n.from| + |n.to| <= |blob|
  {
    hide Checksum, FromLittleEndian, TakeTicket, Cursor.TakeVarint, BytesBits;
    var c := Cursor(BytesBits(blob[..|blob| - 4]), 0, false);
    VarintReads(c);
    TicketReads(c.TakeVarint().1);
  }
}
