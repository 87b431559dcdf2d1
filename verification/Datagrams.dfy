/**
 Which datagrams an endpoint accepts: exactly those that begin with a well-formed
 packet, and such a one it reads as that packet.  Together with the round trip of
 `ReliableWire` nothing is left open about malformed input.
 */
module Datagrams {
  import opened SequenceBuffers
  import opened Bits
  import opened BitStream
  import opened Reliability
  import opened ReliableWire

  // ---------------------------------------------------------------------------
  // What was taken was there

  lemma TakenBefore(c: Cursor, n: nat)
    requires n > 0 && !c.Take(n).1.overflow
    ensures !c.overflow && Before(c, FromNat(c.Take(n).0, n)) && c.Take(n).1 == c.Skip(n)
  {
    hide ToNat, FromNat, Pow2;
    FromTo(c.bits[c.pos..c.pos + n]);
  }

  lemma BeforeBoth(c: Cursor, a: seq<bool>, b: seq<bool>)
    requires Before(c, a) && Before(c.Skip(|a|), b)
    ensures Before(c, a + b)
  {
    var n, m := c.pos + |a|, c.pos + |a| + |b|;
    assert c.bits[c.pos..m] == c.bits[c.pos..n] + c.bits[n..m];
  }

  /** Whole bytes at a byte boundary. */
  lemma BytesThere(c: Cursor, data: seq<byte>, at: nat, n: nat)
    requires c.bits == BytesBits(data) && c.pos == 8 * at && !c.overflow && at + n <= |data|
    ensures Before(c, BytesBits(data[at..at + n]))
  {
    hide BytesBits;
    var before, chunk, after := data[..at], data[at..at + n], data[at + n..];
    assert data == before + chunk + after;
    BytesBitsConcat(before + chunk, after);
    BytesBitsConcat(before, chunk);
    Middle(BytesBits(before), BytesBits(chunk), BytesBits(after));
  }

  lemma TakenBytes(c: Cursor, data: seq<byte>, at: nat, target: seq<byte>)
    requires c.bits == BytesBits(data) && c.pos == 8 * at && !c.TakeBytes(target).1.overflow
    ensures !c.overflow && Before(c, BytesBits(c.TakeBytes(target).0))
    ensures c.TakeBytes(target).1 == c.Skip(8 * |target|)
  {
    hide BytesBits, Cursor.TakeEach;
    BlockIsEach(c, data, at, |target|);
    BytesThere(c, data, at, |target|);
  }

  lemma MessageParsed(c: Cursor, data: seq<byte>, at: nat)
    requires c.bits == BytesBits(data) && c.pos == 8 * at && TakeMessage(c).Some?
    ensures var (m, d) := TakeMessage(c).value;
            && !c.overflow && |m.payload| <= MAX_MESSAGE_SIZE && Before(c, MessageInk(m))
            && d == c.Skip(8 * (5 + |m.payload|)) && |MessageInk(m)| == 8 * (5 + |m.payload|)
  {
    hide FromNat, BytesBits, Cursor.Take, Cursor.TakeBytes, Before;
    var (id, d) := c.TakeU16();
    var (channel, e) := d.TakeU8();
    var (size, f) := e.TakeU16();
    TakenBefore(e, 16);
    TakenBefore(d, 8);
    TakenBefore(c, 16);
    TakenBytes(f, data, at + 5, Zeros(size));
    var payload := f.TakeBytes(Zeros(size)).0;
    BeforeBoth(e, FromNat(size, 16), BytesBits(payload));
    BeforeBoth(d, FromNat(channel, 8), FromNat(size, 16) + BytesBits(payload));
    BeforeBoth(c, FromNat(id, 16), FromNat(channel, 8) + (FromNat(size, 16) + BytesBits(payload)));
  }

  /** The messages that a datagram is read as are there. */
  lemma {:induction false} MessagesParsed(e: Endpoint, c: Cursor, n: nat, data: seq<byte>, at: nat)
    returns (messages: seq<Message>)
    requires c.bits == BytesBits(data) && c.pos == 8 * at && TakeMessages(e, c, n).1.Some?
    requires !c.overflow && at <= |data|
    ensures var (e', d) := TakeMessages(e, c, n);
            && |messages| == n && (forall m <- messages :: |m.payload| <= MAX_MESSAGE_SIZE)
            && Before(c, MessagesInk(messages)) && e' == BufferMessages(e, messages)
            && d == Some(c.Skip(|MessagesInk(messages)|)) && |MessagesInk(messages)| % 8 == 0
    decreases n
  {
    hide BytesBits, Before, MessageInk, TakeMessage, BufferMessage;
    if n == 0 {
      messages := [];
      NothingBefore(c);
      assert c.Skip(0) == c;
    } else {
      MessageParsed(c, data, at);
      var (m, d) := TakeMessage(c).value;
      Inside(c, MessageInk(m));
      var rest := MessagesParsed(BufferMessage(e, m), d, n - 1, data, at + 5 + |m.payload|);
      messages := [m] + rest;
      assert messages[1..] == rest;
      BeforeBoth(c, MessageInk(m), MessagesInk(rest));
      NotOverflowed(d, MessagesInk(rest));
    }
  }

  lemma NothingBefore(c: Cursor)
    requires !c.overflow && c.pos <= |c.bits|
    ensures Before(c, [])
  {
  }

  lemma Inside(c: Cursor, chunk: seq<bool>)
    requires Before(c, chunk)
    ensures c.pos + |chunk| <= |c.bits|
  {
  }

  lemma HeaderParsed(c: Cursor) returns (h: PacketHeader)
    requires !TakePacketHeader(c).1.overflow
    ensures h == TakePacketHeader(c).0 && !c.overflow && TakePacketHeader(c).1 == c.Skip(64)
    ensures Before(c, FromNat(h.sequence, 16) + (FromNat(h.ack, 16) + h.ackBits))
  {
    hide FromNat, Cursor.Take, Before;
    h := TakePacketHeader(c).0;
    var (sequence, d) := c.TakeU16();
    var (ack, e) := d.TakeU16();
    TakenBefore(e, 32);
    TakenBefore(d, 16);
    TakenBefore(c, 16);
    BeforeBoth(d, FromNat(ack, 16), h.ackBits);
    BeforeBoth(c, FromNat(sequence, 16), FromNat(ack, 16) + h.ackBits);
  }

  // ---------------------------------------------------------------------------
  // Whole datagrams

  /** The bytes begin with the packet. */
  ghost predicate IsDatagram(data: seq<byte>, p: Packet) {
    WellFormed(p) && Before(Cursor(BytesBits(data), 0, false), PacketInk(p))
  }

  /** The body of an accepted datagram is one: its messages and its payload are there. */
  lemma BodyParsed(e: Endpoint, c: Cursor, data: seq<byte>) returns (messages: seq<Message>, unreliable: seq<byte>)
    requires c.bits == BytesBits(data) && c.pos == 64 && !c.overflow && ReadBody(e, c, data).1.accepted
    ensures |messages| <= MAX_PER_PACKET && |unreliable| < 0x1_0000
    ensures (forall m <- messages :: |m.payload| <= MAX_MESSAGE_SIZE) && Before(c, BodyInk(messages, unreliable))
  {
    hide FromNat, BytesBits, Cursor.Take, Before, TakeMessages, MessagesInk, DeliverInOrder;
    var (count, d) := c.TakeU8();
    var f := TakeMessages(e, d, count).1.value;
    var (size, g) := f.TakeU16();
    assert !g.overflow;
    TakenBefore(f, 16);
    CountThere(e, d, count);
    TakenBefore(c, 8);
    Inside(c, FromNat(count, 8));
    messages := MessagesParsed(e, d, count, data, 9);
    var at := 9 + |MessagesInk(messages)| / 8;
    unreliable := data[at + 2..at + 2 + size];
    BytesThere(g, data, at + 2, size);
    assert SizeField(unreliable) == size;
    BeforeBoth(f, FromNat(size, 16), BytesBits(unreliable));
    BeforeBoth(d, MessagesInk(messages), FromNat(size, 16) + BytesBits(unreliable));
    BeforeBoth(c, FromNat(count, 8), MessagesInk(messages) + (FromNat(size, 16) + BytesBits(unreliable)));
  }

  /** The flag of a reader that has run over its end stays. */
  lemma {:induction false} CountThere(e: Endpoint, c: Cursor, n: nat)
    requires TakeMessages(e, c, n).1.Some? && !TakeMessages(e, c, n).1.value.overflow
    ensures !c.overflow
  {
    hide Cursor.Take, Cursor.TakeBytes, BufferMessage;
    if n > 0 { FlagStays(c); }
  }

  lemma FlagStays(c: Cursor)
    requires TakeMessage(c).Some?
    ensures !c.overflow
  {
    var (id, d) := c.TakeU16();
    var (channel, e) := d.TakeU8();
    hide FromNat;
    TakenBefore(e, 16);
    TakenBefore(d, 8);
    TakenBefore(c, 16);
  }

  lemma Parsed(e: Endpoint, data: seq<byte>) returns (p: Packet)
    requires ReadDatagram(e, data).1.accepted
    ensures IsDatagram(data, p) && !Refused(e, p.sequence)
  {
    hide FromNat, BytesBits, Before, MessagesInk, ReadBody, ProcessAcks, Refused, TakePacketHeader;
    var c := Cursor(BytesBits(data), 0, false);
    var h := HeaderParsed(c);
    var d := c.Skip(64);
    var messages, unreliable := BodyParsed(ProcessAcks(NoteReceived(e, h.sequence), h.ack, h.ackBits, ACK_BITS), d,
        data);
    p := Packet(h.sequence, h.ack, h.ackBits, messages, unreliable);
    HeaderSize(p);
    BeforeBoth(c, HeaderInk(p), BodyInk(messages, unreliable));
  }

  /** A datagram is accepted exactly if it begins with a well-formed packet that is not
      refused, and then it is read as that packet. */
  lemma AcceptedExactly(e: Endpoint, data: seq<byte>)
    ensures ReadDatagram(e, data).1.accepted <==> exists p :: IsDatagram(data, p) && !Refused(e, p.sequence)
    ensures forall p | IsDatagram(data, p) && !Refused(e, p.sequence) ::
              ReadDatagram(e, data) == (ReadPacket(e, p).0, Reading(true, ReadPacket(e, p).1, p.unreliable))
  {
    hide ReadDatagram, ReadPacket, Refused, WellFormed, PacketInk, Before, BytesBits;
    if ReadDatagram(e, data).1.accepted { var p := Parsed(e, data); }
    forall p | IsDatagram(data, p) && !Refused(e, p.sequence)
      ensures ReadDatagram(e, data) == (ReadPacket(e, p).0, Reading(true, ReadPacket(e, p).1, p.unreliable))
    {
      PacketRoundTrip(e, p, data);
    }
  }
}
