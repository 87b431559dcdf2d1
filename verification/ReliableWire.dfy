/**
 The reliable endpoint as it runs, over bytes: what a packet looks like on the
 wire, how a datagram is parsed, and the class that does both.
 */
module ReliableWire {
  import opened Sequence
  import opened SequenceBuffers
  import opened Bits
  import opened BitStream
  import opened Emission
  import opened Reliability

  // ---------------------------------------------------------------------------
  // Packets as bits

  function MessageInk(m: Message): seq<bool> {
    FromNat(m.id, 16) + (FromNat(m.channel, 8) + (FromNat(|m.payload|, 16) + BytesBits(m.payload)))
  }

  function MessagesInk(messages: seq<Message>): seq<bool> {
    if messages == [] then [] else MessageInk(messages[0]) + MessagesInk(messages[1..])
  }

  function HeaderInk(p: Packet): seq<bool> {
    FromNat(p.sequence, 16) + (FromNat(p.ack, 16) + p.ackBits)
  }

  /** The 16-bit size of the unreliable payload, truncated. */
  function SizeField(unreliable: seq<byte>): nat { |unreliable| % 0x1_0000 }

  function TailInk(p: Packet): seq<bool> {
    FromNat(SizeField(p.unreliable), 16) + BytesBits(p.unreliable)
  }

  /** What follows the header. */
  function BodyInk(messages: seq<Message>, unreliable: seq<byte>): seq<bool> {
    FromNat(|messages|, 8) + (MessagesInk(messages) + (FromNat(SizeField(unreliable), 16) + BytesBits(unreliable)))
  }

  function PacketInk(p: Packet): seq<bool> {
    HeaderInk(p) + (FromNat(|p.messages|, 8) + (MessagesInk(p.messages) + TailInk(p)))
  }

  lemma {:induction false} MessagesInkSize(messages: seq<Message>)
    ensures |MessagesInk(messages)| == MessagesBits(messages) && MessagesBits(messages) % 8 == 0
  {
    hide MessageInk, MessageBits;
    if messages != [] {
      MessageInkSize(messages[0]);
      MessagesInkSize(messages[1..]);
    }
  }

  lemma MessageInkSize(m: Message)
    ensures |MessageInk(m)| == MessageBits(m) && MessageBits(m) == 8 * (5 + |m.payload|)
  {
  }

  lemma PacketInkSize(p: Packet)
    requires |p.ackBits| == ACK_BITS
    ensures |PacketInk(p)| == PacketBits(p)
  {
    MessagesInkSize(p.messages);
  }

  // ---------------------------------------------------------------------------
  // Parsing a datagram

  /** One message, or nothing if its size is invalid or it is cut short. */
  function TakeMessage(c: Cursor): Option<(Message, Cursor)> {
    var (id, d) := c.TakeU16();
    var (channel, e) := d.TakeU8();
    var (size, f) := e.TakeU16();
    if size > MAX_MESSAGE_SIZE || f.overflow then None
    else
      var (payload, g) := f.TakeBytes(Zeros(size));
      if g.overflow then None else Some((Message(id, channel, payload), g))
  }

  /** Buffers up to `n` messages; stops at the first malformed one. */
  function TakeMessages(e: Endpoint, c: Cursor, n: nat): (r: (Endpoint, Option<Cursor>))
    decreases n
  {
    if n == 0 then (e, Some(c))
    else
      match TakeMessage(c)
      case None => (e, None)
      case Some((m, d)) => TakeMessages(BufferMessage(e, m), d, n - 1)
  }

  /** What reading a datagram yields: whether it was accepted, the messages handed
      out, and the unreliable payload. */
  datatype Reading = Reading(accepted: bool, messages: seq<Message>, unreliable: seq<byte>)

  const REJECTED: Reading := Reading(false, [], [])

  datatype PacketHeader = PacketHeader(sequence: u16, ack: u16, ackBits: seq<bool>)

  function TakePacketHeader(c: Cursor): (r: (PacketHeader, Cursor))
    ensures |r.0.ackBits| == ACK_BITS
  {
    var (sequence, d) := c.TakeU16();
    var (ack, e) := d.TakeU16();
    var (bits, f) := e.TakeU32();
    (PacketHeader(sequence, ack, FromNat(bits, ACK_BITS)), f)
  }

  /** The body after the acks: messages, then the unreliable payload. */
  function ReadBody(e: Endpoint, c: Cursor, data: seq<byte>): (Endpoint, Reading) {
    var (count, d) := c.TakeU8();
    if count > MAX_PER_PACKET then (e, REJECTED)
    else
      match TakeMessages(e, d, count)
      case (e2, None) => (e2, REJECTED)
      case (e2, Some(f)) =>
        var (size, g) := f.TakeU16();
        if g.overflow || (g.pos + 7) / 8 + size > |data| then (e2, REJECTED)
        else
          var (e3, out) := DeliverInOrder(e2);
          (e3, Reading(true, out, data[(g.pos + 7) / 8..(g.pos + 7) / 8 + size]))
  }

  function ReadDatagram(e: Endpoint, data: seq<byte>): (Endpoint, Reading) {
    var (h, c) := TakePacketHeader(Cursor(BytesBits(data), 0, false));
    if c.overflow || Refused(e, h.sequence) then (e, REJECTED)
    else ReadBody(ProcessAcks(NoteReceived(e, h.sequence), h.ack, h.ackBits, ACK_BITS), c, data)
  }

  // ---------------------------------------------------------------------------
  // A packet as written reads back as that packet

  predicate Buildable(p: Packet) {
    && |p.ackBits| == ACK_BITS && |p.messages| <= MAX_PER_PACKET
    && forall m <- p.messages :: |m.payload| <= MAX_MESSAGE_SIZE
  }

  predicate WellFormed(p: Packet) {
    Buildable(p) && |p.unreliable| < 0x1_0000
  }

  lemma MessageBefore(c: Cursor, m: Message)
    requires Before(c, MessageInk(m)) && |m.payload| <= MAX_MESSAGE_SIZE
    ensures TakeMessage(c) == Some((m, c.Skip(|MessageInk(m)|)))
  {
    Pow2Values();
    hide Before, Pow2, FromNat, BytesBits, Cursor.Take, Cursor.TakeBytes;
    var id, channel, size, payload := FromNat(m.id, 16), FromNat(m.channel, 8), FromNat(|m.payload|, 16),
        BytesBits(m.payload);
    BeforeSplit(c, id, channel + (size + payload));
    TakeBefore(c, m.id, 16);
    BeforeSplit(c.Skip(16), channel, size + payload);
    TakeBefore(c.Skip(16), m.channel, 8);
    BeforeSplit(c.Skip(24), size, payload);
    TakeBefore(c.Skip(24), |m.payload|, 16);
    TakeBytesBefore(c.Skip(40), m.payload, Zeros(|m.payload|));
    NotOverflowed(c, MessageInk(m));
  }

  lemma {:induction false} MessagesBefore(e: Endpoint, c: Cursor, messages: seq<Message>)
    requires forall m <- messages :: |m.payload| <= MAX_MESSAGE_SIZE
    requires Before(c, MessagesInk(messages))
    ensures TakeMessages(e, c, |messages|) == (BufferMessages(e, messages), Some(c.Skip(|MessagesInk(messages)|)))
    decreases |messages|
  {
    hide Before, MessageInk, TakeMessage, BufferMessage;
    if messages == [] {
      assert c.Skip(0) == c;
    } else {
      var m, rest := messages[0], messages[1..];
      BeforeSplit(c, MessageInk(m), MessagesInk(rest));
      MessageBefore(c, m);
      MessagesBefore(BufferMessage(e, m), c.Skip(|MessageInk(m)|), rest);
      assert c.Skip(|MessageInk(m)|).Skip(|MessagesInk(rest)|) == c.Skip(|MessagesInk(messages)|);
    }
  }

  lemma HeaderBefore(c: Cursor, p: Packet)
    requires Before(c, HeaderInk(p)) && |p.ackBits| == ACK_BITS
    ensures TakePacketHeader(c) == (PacketHeader(p.sequence, p.ack, p.ackBits), c.Skip(64))
  {
    Pow2Values();
    var bits := ToNat(p.ackBits);
    FromTo(p.ackBits);
    hide Before, Pow2, FromNat, ToNat, Cursor.Take;
    BeforeSplit(c, FromNat(p.sequence, 16), FromNat(p.ack, 16) + p.ackBits);
    U16Before(c, p.sequence);
    BeforeSplit(c.Skip(16), FromNat(p.ack, 16), p.ackBits);
    U16Before(c.Skip(16), p.ack);
    U32Before(c.Skip(32), bits);
  }

  /** Every packet that is sent parses to itself, whatever follows it: the endpoint that
      reads its bytes does exactly what reading the packet means. */
  lemma PacketRoundTrip(e: Endpoint, p: Packet, data: seq<byte>)
    requires WellFormed(p) && Before(Cursor(BytesBits(data), 0, false), PacketInk(p))
    ensures ReadDatagram(e, data)
         == if Refused(e, p.sequence) then (e, REJECTED)
            else (ReadPacket(e, p).0, Reading(true, ReadPacket(e, p).1, p.unreliable))
  {
    var c := Cursor(BytesBits(data), 0, false);
    hide Before, HeaderInk, MessagesInk, TailInk, BytesBits, FromNat, TakePacketHeader, ReadBody, ProcessAcks;
    var body := FromNat(|p.messages|, 8) + (MessagesInk(p.messages) + TailInk(p));
    BeforeSplit(c, HeaderInk(p), body);
    HeaderSize(p);
    HeaderBefore(c, p);
    if !Refused(e, p.sequence) {
      BodyBefore(ProcessAcks(NoteReceived(e, p.sequence), p.ack, p.ackBits, ACK_BITS), c.Skip(64), p, data);
    }
  }

  lemma HeaderSize(p: Packet)
    requires |p.ackBits| == ACK_BITS
    ensures |HeaderInk(p)| == 64
  {
  }

  lemma BodyBefore(e: Endpoint, c: Cursor, p: Packet, data: seq<byte>)
    requires WellFormed(p) && c.pos == 64 && BytesBits(data) == c.bits
    requires Before(c, FromNat(|p.messages|, 8) + (MessagesInk(p.messages) + TailInk(p)))
    ensures var (e', out) := DeliverInOrder(BufferMessages(e, p.messages));
            ReadBody(e, c, data) == (e', Reading(true, out, p.unreliable))
  {
    hide Before, MessagesInk, TailInk, TakeMessages, BufferMessages, DeliverInOrder, BytesBits, FromNat, PacketInk,
      Cursor.TakeU8, Cursor.TakeU16;
    MessagesInkSize(p.messages);
    var count, messages, tail := FromNat(|p.messages|, 8), MessagesInk(p.messages), TailInk(p);
    NotOverflowed(c, count + (messages + tail));
    BeforeSplit(c, count, messages + tail);
    ByteBefore(c, |p.messages|);
    var d := c.Skip(8);
    BeforeSplit(d, messages, tail);
    MessagesBefore(e, d, p.messages);
    var f := d.Skip(|messages|);
    TailBefore(f, 9 + |messages| / 8, data, p);
  }

  lemma TailIs(p: Packet)
    ensures TailInk(p) == FromNat(SizeField(p.unreliable), 16) + BytesBits(p.unreliable)
    ensures |p.unreliable| < 0x1_0000 ==> SizeField(p.unreliable) == |p.unreliable|
  {
    hide FromNat, BytesBits;
  }

  lemma TailBefore(c: Cursor, at: nat, data: seq<byte>, p: Packet)
    requires |p.unreliable| < 0x1_0000 && c.pos == 8 * at && c.bits == BytesBits(data) && Before(c, TailInk(p))
    ensures c.TakeU16() == (|p.unreliable|, c.Skip(16))
    ensures at + 2 + |p.unreliable| <= |data| && data[at + 2..at + 2 + |p.unreliable|] == p.unreliable
  {
    hide Before, FromNat, BytesBits, Cursor.TakeU16, SizeField, TailInk;
    TailIs(p);
    BeforeSplit(c, FromNat(SizeField(p.unreliable), 16), BytesBits(p.unreliable));
    U16Before(c, |p.unreliable|);
    BeforeRoom(c.Skip(16), BytesBits(p.unreliable));
    TailBytes(c.Skip(16), at + 2, data, p.unreliable);
  }

  /** Standing before whole bytes at a byte boundary means they are that slice. */
  lemma {:induction false} TailBytes(c: Cursor, at: nat, data: seq<byte>, bytes: seq<byte>)
    requires c.bits == BytesBits(data) && c.pos == 8 * at && Before(c, BytesBits(bytes)) && at + |bytes| <= |data|
    ensures data[at..at + |bytes|] == bytes
  {
    hide *;
    BlockIsEach(c, data, at, |bytes|);
    TakeEachBefore(c, bytes);
  }

  lemma BeforeRoom(c: Cursor, chunk: seq<bool>)
    requires Before(c, chunk)
    ensures c.pos + |chunk| <= |c.bits|
  {
  }

  // ---------------------------------------------------------------------------
  // Writing a packet

  method EmitMessage(w: BitWriter, m: Message, ghost start: Pen, ghost ink: seq<bool>) returns (ghost ink': seq<bool>)
    requires w.Valid() && Wrote(start, w.View(), ink) && |m.payload| <= MAX_MESSAGE_SIZE
    modifies w, w.buffer
    ensures w.Valid() && ink' == ink + MessageInk(m) && Wrote(start, w.View(), ink')
    ensures w.Beyond() == old(w.Beyond())
  {
    Pow2Values();
    hide Wrote, Pow2, FromNat, BytesBits, BitWriter.Valid, BitWriter.View, BitWriter.Beyond;
    ink' := Emit(w, m.id, 16, start, ink);
    ink' := Emit(w, m.channel, 8, start, ink');
    ink' := Emit(w, |m.payload|, 16, start, ink');
    ink' := EmitBytes(w, m.payload, start, ink');
    Chain5(ink, FromNat(m.id, 16), FromNat(m.channel, 8), FromNat(|m.payload|, 16), BytesBits(m.payload));
  }

  lemma {:induction false} MessagesInkAppend(messages: seq<Message>, m: Message)
    ensures MessagesInk(messages + [m]) == MessagesInk(messages) + MessageInk(m)
  {
    hide MessageInk;
    if messages == [] {
      assert messages + [m] == [m];
      assert MessagesInk([m]) == MessageInk(m) + MessagesInk([]);
    } else {
      assert (messages + [m])[1..] == messages[1..] + [m];
      MessagesInkAppend(messages[1..], m);
      Chain3(MessageInk(messages[0]), MessagesInk(messages[1..]), MessageInk(m));
    }
  }

  method EmitMessages(w: BitWriter, messages: seq<Message>, ghost start: Pen, ghost ink: seq<bool>)
    returns (ghost ink': seq<bool>)
    requires w.Valid() && Wrote(start, w.View(), ink) && forall m <- messages :: |m.payload| <= MAX_MESSAGE_SIZE
    modifies w, w.buffer
    ensures w.Valid() && ink' == ink + MessagesInk(messages) && Wrote(start, w.View(), ink')
    ensures w.Beyond() == old(w.Beyond())
  {
    hide Wrote, MessageInk, BitWriter.Valid, BitWriter.View, BitWriter.Beyond;
    w.Inside();
    ink' := ink;
    assert ink' == ink + MessagesInk([]);
    for i := 0 to |messages|
      invariant w.Valid() && Wrote(start, w.View(), ink') && w.capacity <= w.buffer.Length
      invariant w.Beyond() == old(w.Beyond())
      invariant ink' == ink + MessagesInk(messages[..i])
    {
      assert messages[..i + 1] == messages[..i] + [messages[i]];
      MessagesInkAppend(messages[..i], messages[i]);
      ink' := EmitMessage(w, messages[i], start, ink');
      Chain3(ink, MessagesInk(messages[..i]), MessageInk(messages[i]));
    }
    assert messages[..|messages|] == messages;
  }

  /** Sequence, ack and ack bits; the space left is what the include loop tests. */
  method EmitHeader(w: BitWriter, sequence: u16, ack: u16, ackBits: nat, ghost start: Pen)
    returns (ghost ink: seq<bool>)
    requires w.Valid() && w.View() == start == Pen([], 8 * w.capacity, false) && ackBits < Pow2(ACK_BITS)
    modifies w, w.buffer
    ensures w.Valid() && Wrote(start, w.View(), ink)
    ensures ink == FromNat(sequence, 16) + (FromNat(ack, 16) + FromNat(ackBits, ACK_BITS))
    ensures 8 * w.capacity - w.bitPos == RemainingAfterHeader(8 * w.capacity)
    ensures w.Beyond() == old(w.Beyond())
  {
    Pow2Values();
    hide Wrote, Pow2, FromNat, BitWriter.Valid, BitWriter.View, BitWriter.Beyond;
    w.WriteBits(sequence, 16);
    ghost var p1 := w.View();
    PutWrote(start, sequence, 16);
    w.WriteBits(ack, 16);
    ghost var p2 := w.View();
    PutWrote(p1, ack, 16);
    w.WriteBits(ackBits, 32);
    PutWrote(p2, ackBits, 32);
    ink := FromNat(sequence, 16) + (FromNat(ack, 16) + FromNat(ackBits, ACK_BITS));
    WroteThen(p1, p2, w.View(), FromNat(ack, 16), FromNat(ackBits, ACK_BITS));
    WroteThen(start, p1, w.View(), FromNat(sequence, 16), FromNat(ack, 16) + FromNat(ackBits, ACK_BITS));
  }

  method EmitBody(w: BitWriter, messages: seq<Message>, unreliable: seq<byte>, ghost start: Pen, ghost ink: seq<bool>)
    returns (ghost ink': seq<bool>)
    requires w.Valid() && Wrote(start, w.View(), ink) && forall m <- messages :: |m.payload| <= MAX_MESSAGE_SIZE
    requires |messages| <= MAX_PER_PACKET
    modifies w, w.buffer
    ensures w.Valid() && Wrote(start, w.View(), ink')
    ensures ink' == ink + BodyInk(messages, unreliable)
    ensures w.Beyond() == old(w.Beyond())
  {
    Pow2Values();
    hide Wrote, Pow2, FromNat, MessagesInk, BitWriter.Valid, BitWriter.View, BitWriter.Beyond;
    ink' := Emit(w, |messages|, 8, start, ink);
    ink' := EmitMessages(w, messages, start, ink');
    ink' := Emit(w, SizeField(unreliable), 16, start, ink');
    Chain4(ink, FromNat(|messages|, 8), MessagesInk(messages), FromNat(SizeField(unreliable), 16));
    ghost var before := ink';
    if |unreliable| > 0 { ink' := EmitBytes(w, unreliable, start, ink'); }
    assert ink' == before + BytesBits(unreliable);
    hide BytesBits;
    Chain5(ink, FromNat(|messages|, 8), MessagesInk(messages), FromNat(SizeField(unreliable), 16),
        BytesBits(unreliable));
  }

  /** A packet overflows the buffer exactly when it is larger than it. */
  lemma PacketWritten(p: Packet, start: Pen, pen: Pen, ink: seq<bool>)
    requires |p.ackBits| == ACK_BITS && Wrote(start, pen, ink) && start.ink == [] && !start.overflow
    requires ink == PacketInk(p)
    ensures pen.overflow <==> PacketBits(p) > start.capacity
    ensures !pen.overflow ==> pen.ink == PacketInk(p)
  {
    PacketInkSize(p);
    assert [] + ink == ink;
  }

  lemma {:induction false} WholeBytes(p: Packet)
    requires |p.ackBits| == ACK_BITS
    ensures |PacketInk(p)| % 8 == 0 && |PacketInk(p)| > 0
    ensures PacketInk(p) + FromNat(0, 0) == PacketInk(p)
  {
    hide PacketInk, FromNat, MessagesBits;
    PacketInkSize(p);
    MessagesInkSize(p.messages);
    EmptyBits();
  }

  lemma {:induction false} PacketParts(e: Endpoint, p: Packet, capacityBits: nat, unreliable: seq<byte>)
    requires p == BuildPacket(e, capacityBits, unreliable)
    requires forall m <- e.unacked :: |m.payload| <= MAX_MESSAGE_SIZE
    ensures var count := IncludeCount(e.unacked, RemainingAfterHeader(capacityBits), |unreliable|, 0);
            && count <= |e.unacked| && count <= MAX_PER_PACKET && p.messages == e.unacked[..count]
            && p.sequence == e.sequence && p.ackBits == AckBits(e) && p.ack == (if e.hasReceived then e.highest else 0)
            && p.unreliable == unreliable && Buildable(p)
            && PacketInk(p) == (FromNat(p.sequence, 16) + (FromNat(p.ack, 16) + p.ackBits))
               + BodyInk(p.messages, unreliable)
  {
    hide FromNat, BytesBits, MessagesInk, IncludeCount, AckBits;
  }

  /** Everything after the header; zero if it did not all fit. */
  method Finish(w: BitWriter, messages: seq<Message>, unreliable: seq<byte>, ghost p: Packet, ghost start: Pen,
                ghost ink: seq<bool>)
    returns (size: nat)
    requires w.Valid() && Wrote(start, w.View(), ink) && start == Pen([], 8 * w.capacity, false)
    requires w.capacity == w.buffer.Length
    requires Buildable(p) && messages == p.messages && unreliable == p.unreliable
    requires PacketInk(p) == ink + BodyInk(messages, unreliable)
    modifies w, w.buffer
    ensures size > 0 <==> PacketBits(p) <= 8 * w.capacity
    ensures size > 0 ==> size <= w.capacity && BytesBits(w.buffer[..size]) == PacketInk(p)
    ensures w.Beyond() == old(w.Beyond())
  {
    hide Wrote, FromNat, BytesBits, PacketInk, PacketBits, MessagesInk, BitWriter.Valid, BitWriter.View,
      BitWriter.Beyond;
    ghost var ink' := EmitBody(w, messages, unreliable, start, ink);
    PacketWritten(p, start, w.View(), ink');
    size := 0;
    if w.overflow { return; }
    size := w.BytesWritten();
    WholeBytes(p);
  }

  lemma AfterWriteIs(e: Endpoint, p: Packet, e': Endpoint, accepted: bool)
    requires accepted <==> !e.sent.TooOld(ACK_WINDOW, e.sequence)
    requires e' == e.(sequence := Wrap(e.sequence + 1),
             sent := e.sent.Insert(ACK_WINDOW, e.sequence, SentPacket(false, Ids(p.messages))))
    ensures e' == AfterWrite(e, p)
  {
  }

  lemma NoBits(all: seq<bool>)
    ensures ToNat(all[..0]) == 0
  {
  }

  lemma AddBit(all: seq<bool>, i: nat)
    requires i < |all|
    ensures ToNat(all[..i + 1]) == ToNat(all[..i]) + (if all[i] then Pow2(i) else 0)
  {
    assert ToNat([all[i]]) == if all[i] then 1 else 0;
    hide ToNat, Pow2;
    assert all[..i + 1] == all[..i] + [all[i]];
    ToNatConcat(all[..i], [all[i]]);
  }

  lemma AckBitAt(e: Endpoint, i: nat)
    requires i < ACK_BITS
    ensures AckBits(e)[i] <==> e.hasReceived && Wrap(e.highest - (i + 1)) in e.received.live
  {
  }

  lemma RemoveNone(all: seq<Message>, id: u16)
    ensures all[..0] + RemoveFirst(all[0..], id) == RemoveFirst(all, id)
    ensures all[..|all|] + RemoveFirst(all[|all|..], id) == all
  {
    assert all[0..] == all && all[|all|..] == [] && all[..|all|] == all;
  }

  lemma RemoveNext(all: seq<Message>, i: nat, id: u16)
    requires i < |all|
    ensures all[i].id == id ==> RemoveFirst(all[i..], id) == all[i + 1..]
    ensures all[i].id != id ==> all[..i] + RemoveFirst(all[i..], id) == all[..i + 1] + RemoveFirst(all[i + 1..], id)
  {
    assert all[i..][1..] == all[i + 1..] && all[..i + 1] == all[..i] + [all[i]];
  }

  lemma KeepsSizes(all: seq<Message>, i: nat)
    requires i < |all| && forall m <- all :: |m.payload| <= MAX_MESSAGE_SIZE
    ensures forall m <- all[..i] + all[i + 1..] :: |m.payload| <= MAX_MESSAGE_SIZE
  {
  }

  lemma DeliverNext(e: Endpoint, out: seq<Message>)
    requires e.expected in e.reorder
    ensures var e' := e.(reorder := e.reorder - {e.expected}, expected := Wrap(e.expected + 1));
            && DeliverInOrder(e).0 == DeliverInOrder(e').0
            && out + DeliverInOrder(e).1 == out + [e.reorder[e.expected]] + DeliverInOrder(e').1
  {
  }

  lemma DeliverEnd(e: Endpoint, out: seq<Message>)
    requires e.expected !in e.reorder
    ensures DeliverInOrder(e).0 == e && out + DeliverInOrder(e).1 == out
  {
  }

  class ReliableEndpoint {
    var sequence: u16
    var nextId: u16
    var expected: u16
    const sent: SequenceBuffer<SentPacket>
    const received: SequenceBuffer<()>
    var unacked: seq<Message>
    var reorder: map<u16, Message>
    var highest: u16
    var hasReceived: bool

    ghost const Repr: set<object> := {this, sent, received, sent.keys, sent.values, received.keys, received.values}

    ghost predicate Valid()
      reads this, Repr
    {
      && sent.Valid() && received.Valid() && sent.capacity == ACK_WINDOW == received.capacity
      && sent as object != received && sent.keys != received.keys
      && sent.keys as object != received.values && sent.values as object != received.keys
      && sent.values as object != received.values
      && forall m <- unacked :: |m.payload| <= MAX_MESSAGE_SIZE
    }

    ghost function View(): Endpoint
      requires Valid()
      reads this, Repr
    {
      Endpoint(sequence, nextId, expected, sent.View(), received.View(), unacked, reorder, highest, hasReceived)
    }

    constructor ()
      ensures Valid() && View() == NewEndpoint() && fresh(Repr)
    {
      sequence, nextId, expected, highest, hasReceived := 0, 0, 0, 0, false;
      unacked, reorder := [], map[];
      sent := new SequenceBuffer<SentPacket>(ACK_WINDOW, SentPacket(false, []));
      received := new SequenceBuffer<()>(ACK_WINDOW, ());
    }

    method Queue(channel: byte, payload: seq<byte>)
      requires Valid()
      modifies this`unacked, this`nextId
      ensures Valid() && View() == QueueReliable(old(View()), channel, payload)
    {
      if |payload| == 0 || |payload| > MAX_MESSAGE_SIZE { return; }
      unacked := unacked + [Message(nextId, channel, payload)];
      nextId := Wrap(nextId + 1);
    }

    /** Bit `i` of the ack field: was the packet `i + 1` before the highest seen? */
    method Acked(i: nat) returns (there: bool)
      requires Valid() && i < ACK_BITS
      ensures there == AckBits(View())[i]
    {
      AckBitAt(View(), i);
      hide AckBits, SequenceBuffer.View, SequenceBuffer.Valid;
      there := false;
      if hasReceived { there := received.Exists(Wrap(highest - (i + 1))); }
    }

    method CollectAcks() returns (bits: nat)
      requires Valid()
      ensures bits < Pow2(ACK_BITS) && FromNat(bits, ACK_BITS) == AckBits(View())
    {
      hide Pow2, ToNat, FromNat, AckBits, View, Valid;
      ghost var all := AckBits(View());
      bits := 0;
      NoBits(all);
      for i := 0 to ACK_BITS
        invariant bits == ToNat(all[..i])
      {
        var there := Acked(i);
        if there { bits := bits + Pow2(i); }
        AddBit(all, i);
      }
      assert all[..ACK_BITS] == all;
      FromTo(all);
    }

    /** Counts how many pending messages ride along. */
    method CountIncluded(remaining: int, unreliableSize: nat) returns (count: nat)
      ensures count == IncludeCount(unacked, remaining, unreliableSize, 0)
    {
      count := 0;
      while count < |unacked|
        invariant count <= |unacked| && count <= MAX_PER_PACKET
        invariant IncludeCount(unacked, remaining, unreliableSize, 0)
                  == IncludeCount(unacked, remaining, unreliableSize, count)
      {
        if count >= MAX_PER_PACKET { break; }
        if remaining < MessageBits(unacked[count]) + 8 * unreliableSize + 32 { break; }
        count := count + 1;
      }
    }

    /** Uses up the next packet number, remembering which messages ride on it. */
    method Record(ids: seq<u16>) returns (accepted: bool)
      requires Valid()
      modifies this`sequence, sent, sent.keys, sent.values
      ensures Valid()
      ensures accepted <==> !old(View()).sent.TooOld(ACK_WINDOW, old(View()).sequence)
      ensures var e := old(View());
              View() == e.(sequence := Wrap(e.sequence + 1),
                           sent := e.sent.Insert(ACK_WINDOW, e.sequence, SentPacket(false, ids)))
    {
      hide Window.Insert, Window.TooOld, SequenceBuffer.View, SequenceBuffer.Valid;
      accepted := sent.Insert(sequence, SentPacket(false, ids));
      sequence := Wrap(sequence + 1);
    }

    /** Writes the header and settles which messages the packet will carry. */
    method Begin(w: BitWriter, unreliable: seq<byte>, ghost p: Packet)
      returns (messages: seq<Message>, ghost ink: seq<bool>)
      requires Valid() && w.Valid() && w !in Repr && w.buffer !in Repr && w.View() == Pen([], 8 * w.capacity, false)
      requires p == BuildPacket(View(), 8 * w.capacity, unreliable)
      modifies w, w.buffer
      ensures w.Valid() && Wrote(old(w.View()), w.View(), ink) && messages == p.messages && unreliable == p.unreliable
      ensures Buildable(p)
      ensures PacketInk(p) == ink + BodyInk(messages, unreliable)
    {
      hide Wrote, Pow2, FromNat, BytesBits, BuildPacket, IncludeCount, AckBits, PacketInk, MessagesInk, Buildable,
        RemainingAfterHeader, BitWriter.Valid, BitWriter.View, SequenceBuffer.View, SequenceBuffer.Valid;
      PacketParts(View(), p, 8 * w.capacity, unreliable);
      var ackBits := CollectAcks();
      ink := EmitHeader(w, sequence, if hasReceived then highest else 0, ackBits, w.View());
      var count := CountIncluded(8 * w.capacity - w.bitPos, |unreliable|);
      messages := unacked[..count];
    }

    /** Builds the next packet.  Its number is used up and recorded even if it does
        not fit; it is written exactly when it fits.  The size field of an unreliable
        payload of 65536 bytes or more is truncated. */
    method WritePacket(out: array<byte>, unreliable: seq<byte>) returns (size: nat)
      requires Valid() && out !in Repr
      modifies this`sequence, sent, sent.keys, sent.values, out
      ensures Valid()
      ensures var p := BuildPacket(old(View()), 8 * out.Length, unreliable);
              && View() == AfterWrite(old(View()), p)
              && (size > 0 <==> Goes(old(View()), p, 8 * out.Length))
              && (size > 0 ==> size <= out.Length && BytesBits(out[..size]) == PacketInk(p))
              && (|unreliable| < 0x1_0000 ==> WellFormed(p))
    {
      hide Wrote, Pow2, FromNat, BytesBits, BuildPacket, PacketInk, PacketBits, MessagesInk, AfterWrite, Buildable,
        Ids, Window.Insert, Window.TooOld, BitWriter.Valid, BitWriter.View, Valid, View;
      ghost var e, p := View(), BuildPacket(View(), 8 * out.Length, unreliable);
      var writer := new BitWriter(out, out.Length);
      ghost var start := writer.View();
      var messages, ink := Begin(writer, unreliable, p);
      var accepted := Record(Ids(messages));
      AfterWriteIs(e, p, View(), accepted);
      size := 0;
      if accepted { size := Finish(writer, messages, unreliable, p, start, ink); }
    }

    /** Erases the first pending message with this id. */
    method Retire(id: u16)
      requires Valid()
      modifies this`unacked
      ensures Valid() && unacked == RemoveFirst(old(unacked), id)
    {
      hide RemoveFirst;
      ghost var all := unacked;
      RemoveNone(all, id);
      for i := 0 to |unacked|
        invariant unacked == all && RemoveFirst(all, id) == all[..i] + RemoveFirst(all[i..], id)
      {
        RemoveNext(all, i, id);
        if unacked[i].id == id {
          KeepsSizes(all, i);
          unacked := unacked[..i] + unacked[i + 1..];
          return;
        }
      }
    }

    method OnAcked(number: u16)
      requires Valid()
      modifies this`unacked, sent.values
      ensures Valid() && View() == OnPacketAcked(old(View()), number)
    {
      hide SequenceBuffer.View, SequenceBuffer.Valid;
      var record := sent.Find(number);
      if record.None? || record.value.acked { return; }
      sent.Replace(number, record.value.(acked := true));
      var ids := record.value.ids;
      for i := 0 to |ids|
        invariant Valid() && sent.View()
                  == old(sent.View()).(live := old(sent.View()).live[number := record.value.(acked := true)])
        invariant received.View() == old(received.View())
        invariant unacked == RemoveIds(old(unacked), ids[..i])
      {
        assert ids[..i + 1][..i] == ids[..i];
        Retire(ids[i]);
      }
      assert ids[..|ids|] == ids;
    }

    method Acks(ack: u16, ackBits: seq<bool>)
      requires Valid() && |ackBits| == ACK_BITS
      modifies this`unacked, sent.values
      ensures Valid() && View() == ProcessAcks(old(View()), ack, ackBits, ACK_BITS)
    {
      hide OnPacketAcked, SequenceBuffer.View, SequenceBuffer.Valid;
      OnAcked(ack);
      for i := 0 to ACK_BITS
        invariant Valid() && View() == ProcessAcks(old(View()), ack, ackBits, i)
      {
        if ackBits[i] { OnAcked(Wrap(ack - (i + 1))); }
      }
    }

    method Deliver() returns (out: seq<Message>)
      requires Valid()
      modifies this`reorder, this`expected
      ensures Valid() && (View(), out) == DeliverInOrder(old(View()))
    {
      hide DeliverInOrder, SequenceBuffer.View, SequenceBuffer.Valid;
      out := [];
      ghost var e := View();
      while expected in reorder
        invariant Valid() && View() == e.(reorder := reorder, expected := expected)
        invariant DeliverInOrder(e).0 == DeliverInOrder(View()).0
        invariant DeliverInOrder(e).1 == out + DeliverInOrder(View()).1
        decreases |reorder|
      {
        DropShrinks(reorder, expected);
        DeliverNext(View(), out);
        out := out + [reorder[expected]];
        reorder := reorder - {expected};
        expected := Wrap(expected + 1);
      }
      DeliverEnd(View(), out);
    }

    method ReadMessage(r: BitReader) returns (m: Option<Message>)
      requires r.Valid()
      modifies r
      ensures r.Valid()
      ensures var t := TakeMessage(old(r.View()));
              (m.Some? <==> t.Some?) && (m.Some? ==> t == Some((m.value, r.View())))
    {
      hide Cursor.TakeU16, Cursor.TakeU8, Cursor.TakeBytes, BitReader.Valid;
      m := None;
      var id := r.ReadU16();
      var channel := r.ReadU8();
      var size := r.ReadU16();
      if size > MAX_MESSAGE_SIZE || r.overflow { return; }
      var payload := r.ReadBytes(Zeros(size));
      if r.overflow { return; }
      m := Some(Message(id, channel, payload));
    }

    /** Buffers the messages of a packet, skipping what is already there. */
    method ReadMessages(r: BitReader, count: nat) returns (ok: bool)
      requires Valid() && r.Valid() && r !in Repr
      modifies r, this`reorder
      ensures Valid() && r.Valid()
      ensures var t := TakeMessages(old(View()), old(r.View()), count);
              View() == t.0 && (ok <==> t.1.Some?) && (ok ==> t.1 == Some(r.View()))
    {
      hide TakeMessage, SequenceBuffer.View, SequenceBuffer.Valid, BitReader.View, BitReader.Valid;
      for i := 0 to count
        invariant Valid() && r.Valid()
        invariant TakeMessages(old(View()), old(r.View()), count) == TakeMessages(View(), r.View(), count - i)
      {
        var m := ReadMessage(r);
        if m.None? { return false; }
        var message := m.value;
        var delivered := !Greater(message.id, expected) && message.id != expected;
        if !delivered && message.id !in reorder {
          reorder := reorder[message.id := message];
        }
      }
      ok := true;
    }

    method ReadPacketHeader(r: BitReader) returns (h: PacketHeader)
      requires r.Valid()
      modifies r
      ensures r.Valid() && (h, r.View()) == TakePacketHeader(old(r.View()))
    {
      hide Cursor.TakeU16, Cursor.TakeU32, BitReader.Valid, BitReader.View, FromNat;
      var number := r.ReadU16();
      var ack := r.ReadU16();
      var bits := r.ReadU32();
      h := PacketHeader(number, ack, FromNat(bits, ACK_BITS));
    }

    /** Remembers the packet as received, unless it is a duplicate or too old. */
    method Note(number: u16) returns (ok: bool)
      requires Valid()
      modifies this`highest, this`hasReceived, received, received.keys, received.values
      ensures Valid()
      ensures ok <==> !Refused(old(View()), number)
      ensures View() == if ok then NoteReceived(old(View()), number) else old(View())
    {
      hide SequenceBuffer.View, SequenceBuffer.Valid;
      var there := received.Exists(number);
      if there { return false; }
      ok := received.Insert(number, ());
      if !ok { return; }
      if !hasReceived || Greater(number, highest) { highest := number; }
      hasReceived := true;
    }

    method ReadRest(r: BitReader, data: seq<byte>) returns (result: Reading)
      requires Valid() && r.Valid() && r !in Repr && r.buffer == data
      modifies r, this`reorder, this`expected
      ensures Valid() && (View(), result) == ReadBody(old(View()), old(r.View()), data)
    {
      hide TakeMessages, DeliverInOrder, BytesBits, Cursor.TakeU8, Cursor.TakeU16, Valid, View, BitReader.Valid;
      var count := r.ReadU8();
      if count > MAX_PER_PACKET { return REJECTED; }
      var ok := ReadMessages(r, count);
      if !ok { return REJECTED; }
      var size := r.ReadU16();
      if r.overflow { return REJECTED; }
      var at := (r.bitPos + 7) / 8;
      if at + size > |data| { return REJECTED; }
      var out := Deliver();
      result := Reading(true, out, data[at..at + size]);
    }

    /** Parses a datagram: acks first, then messages, then the unreliable payload.
        A malformed one is rejected at the point where it goes wrong. */
    method ReadPacket(data: seq<byte>) returns (result: Reading)
      requires Valid()
      modifies Repr
      ensures Valid() && (View(), result) == ReadDatagram(old(View()), data)
    {
      hide TakePacketHeader, ProcessAcks, ReadBody, BytesBits, Valid, View, BitReader.Valid, Refused, NoteReceived;
      var r := new BitReader(data);
      var h := ReadPacketHeader(r);
      if r.overflow { return REJECTED; }
      var ok := Note(h.sequence);
      if !ok { return REJECTED; }
      Acks(h.ack, h.ackBits);
      result := ReadRest(r, data);
    }
  }
}
