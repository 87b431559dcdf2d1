/**
 Sequence/ack reliability over an unreliable datagram stream, as functions on
 the endpoint's state: what queueing, writing and reading a packet do.
 */
module Reliability {
  import opened Sequence
  import opened SequenceBuffers
  import opened Bits

  const MAX_PER_PACKET: nat := 8
  const MAX_MESSAGE_SIZE: nat := 512
  const ACK_WINDOW: nat := 1024
  const ACK_BITS: nat := 32

  datatype Message = Message(id: u16, channel: byte, payload: seq<byte>)

  /** What the sender remembers of a packet: whether it was acked, and which
      reliable messages it carried. */
  datatype SentPacket = SentPacket(acked: bool, ids: seq<u16>)

  /** A packet body.  `ackBits[i]` is bit `i` of the 32-bit ack field. */
  datatype Packet = Packet(sequence: u16, ack: u16, ackBits: seq<bool>, messages: seq<Message>, unreliable: seq<byte>)

  datatype Endpoint = Endpoint(
    sequence: u16,
    nextId: u16,
    expected: u16,
    sent: Window<SentPacket>,
    received: Window<()>,
    unacked: seq<Message>,
    reorder: map<u16, Message>,
    highest: u16,
    hasReceived: bool)

  function NewEndpoint(): Endpoint {
    Endpoint(0, 0, 0, EmptyWindow(), EmptyWindow(), [], map[], 0, false)
  }

  // ---------------------------------------------------------------------------
  // Queueing

  predicate Acceptable(payload: seq<byte>) {
    0 < |payload| <= MAX_MESSAGE_SIZE
  }

  /** Messages of invalid size are dropped. */
  function QueueReliable(e: Endpoint, channel: byte, payload: seq<byte>): Endpoint {
    if !Acceptable(payload) then e
    else e.(unacked := e.unacked + [Message(e.nextId, channel, payload)], nextId := Wrap(e.nextId + 1))
  }

  // ---------------------------------------------------------------------------
  // Writing

  function Ids(messages: seq<Message>): (ids: seq<u16>)
    ensures |ids| == |messages|
    ensures forall i | 0 <= i < |ids| :: ids[i] == messages[i].id
  {
    seq(|messages|, i requires 0 <= i < |messages| => messages[i].id)
  }

  function AckField(e: Endpoint): u16 {
    if e.hasReceived then e.highest else 0
  }

  function AckBits(e: Endpoint): (bits: seq<bool>)
    ensures |bits| == ACK_BITS
    ensures forall i | 0 <= i < ACK_BITS :: bits[i] <==> e.hasReceived && Wrap(e.highest - (i + 1)) in e.received.live
  {
    seq(ACK_BITS, i => e.hasReceived && Wrap(e.highest - (i + 1)) in e.received.live)
  }

  /** Cursor of a bit writer after one field; a field that does not fit is skipped. */
  function Place(pos: nat, capacityBits: nat, size: nat): nat {
    if pos + size > capacityBits then pos else pos + size
  }

  function RemainingAfterHeader(capacityBits: nat): int {
    capacityBits - Place(Place(Place(0, capacityBits, 16), capacityBits, 16), capacityBits, 32)
  }

  function MessageBits(m: Message): nat {
    16 + 8 + 16 + 8 * |m.payload|
  }

  /** How many of the oldest messages ride along: each one is held against the
      same remaining space. */
  function IncludeCount(unacked: seq<Message>, remaining: int, unreliableSize: nat, count: nat): (n: nat)
    requires count <= |unacked| && count <= MAX_PER_PACKET
    ensures count <= n <= |unacked| && n <= MAX_PER_PACKET
    decreases |unacked| - count
  {
    if count == |unacked| || count >= MAX_PER_PACKET then count
    else if remaining < MessageBits(unacked[count]) + 8 * unreliableSize + 32 then count
    else IncludeCount(unacked, remaining, unreliableSize, count + 1)
  }

  function MessagesBits(messages: seq<Message>): nat {
    if messages == [] then 0 else MessageBits(messages[0]) + MessagesBits(messages[1..])
  }

  function PacketBits(p: Packet): nat {
    16 + 16 + 32 + 8 + MessagesBits(p.messages) + 16 + 8 * |p.unreliable|
  }

  /** The packet that the endpoint builds next. */
  function BuildPacket(e: Endpoint, capacityBits: nat, unreliable: seq<byte>): (p: Packet)
    ensures |p.messages| <= |e.unacked| && p.messages == e.unacked[..|p.messages|]
    ensures |p.messages| <= MAX_PER_PACKET && |p.ackBits| == ACK_BITS
  {
    var count := IncludeCount(e.unacked, RemainingAfterHeader(capacityBits), |unreliable|, 0);
    Packet(e.sequence, AckField(e), AckBits(e), e.unacked[..count], unreliable)
  }

  /** State after building a packet, whether or not it fits the buffer: a packet
      that overflows is not sent, but its number is used up and recorded. */
  function AfterWrite(e: Endpoint, p: Packet): Endpoint {
    var e' := e.(sequence := Wrap(e.sequence + 1));
    if e.sent.TooOld(ACK_WINDOW, e.sequence) then e'
    else e'.(sent := e.sent.Insert(ACK_WINDOW, e.sequence, SentPacket(false, Ids(p.messages))))
  }

  predicate Goes(e: Endpoint, p: Packet, capacityBits: nat) {
    !e.sent.TooOld(ACK_WINDOW, e.sequence) && PacketBits(p) <= capacityBits
  }

  // ---------------------------------------------------------------------------
  // Reading

  /** Erases the first message with the given id, if there is one. */
  function RemoveFirst(unacked: seq<Message>, id: u16): seq<Message> {
    if unacked == [] then []
    else if unacked[0].id == id then unacked[1..]
    else [unacked[0]] + RemoveFirst(unacked[1..], id)
  }

  function RemoveIds(unacked: seq<Message>, ids: seq<u16>): seq<Message>
    decreases |ids|
  {
    if ids == [] then unacked
    else RemoveFirst(RemoveIds(unacked, ids[..|ids| - 1]), ids[|ids| - 1])
  }

  function OnPacketAcked(e: Endpoint, sequence: u16): Endpoint {
    match e.sent.Find(sequence)
    case None => e
    case Some(record) =>
      if record.acked then e
      else
        e.(sent := e.sent.(live := e.sent.live[sequence := record.(acked := true)]),
           unacked := RemoveIds(e.unacked, record.ids))
  }

  /** Acts on `ack` first and then on the first `n` bits of the ack field. */
  function ProcessAcks(e: Endpoint, ack: u16, ackBits: seq<bool>, n: nat): Endpoint
    requires n <= |ackBits|
  {
    if n == 0 then OnPacketAcked(e, ack)
    else
      var before := ProcessAcks(e, ack, ackBits, n - 1);
      if ackBits[n - 1] then OnPacketAcked(before, Wrap(ack - n)) else before
  }

  predicate AlreadyDelivered(e: Endpoint, id: u16) {
    !Greater(id, e.expected) && id != e.expected
  }

  function BufferMessage(e: Endpoint, m: Message): Endpoint {
    if AlreadyDelivered(e, m.id) || m.id in e.reorder then e
    else e.(reorder := e.reorder[m.id := m])
  }

  function BufferMessages(e: Endpoint, messages: seq<Message>): Endpoint
    decreases |messages|
  {
    if messages == [] then e else BufferMessages(BufferMessage(e, messages[0]), messages[1..])
  }

  /** Hands out buffered messages while the next expected one is there. */
  function DeliverInOrder(e: Endpoint): (r: (Endpoint, seq<Message>))
    decreases |e.reorder|
  {
    if e.expected !in e.reorder then (e, [])
    else
      assert |e.reorder - {e.expected}| < |e.reorder| by { DropShrinks(e.reorder, e.expected); }
      var (e', rest) := DeliverInOrder(e.(reorder := e.reorder - {e.expected}, expected := Wrap(e.expected + 1)));
      (e', [e.reorder[e.expected]] + rest)
  }

  lemma DropShrinks<K, V>(m: map<K, V>, k: K)
    requires k in m
    ensures |m - {k}| < |m|
  {
    assert m.Keys == (m - {k}).Keys + {k};
  }

  function NoteReceived(e: Endpoint, sequence: u16): Endpoint {
    e.(received := e.received.Insert(ACK_WINDOW, sequence, ()),
       hasReceived := true,
       highest := if !e.hasReceived || Greater(sequence, e.highest) then sequence else e.highest)
  }

  /** A duplicate, or a packet too old to tell. */
  predicate Refused(e: Endpoint, sequence: u16) {
    sequence in e.received.live || e.received.TooOld(ACK_WINDOW, sequence)
  }

  /** Reading a well-formed packet: the new state and the messages handed out. */
  function ReadPacket(e: Endpoint, p: Packet): (r: (Endpoint, seq<Message>)) {
    if Refused(e, p.sequence) then (e, [])
    else
      var e1 := ProcessAcks(NoteReceived(e, p.sequence), p.ack, p.ackBits, |p.ackBits|);
      DeliverInOrder(BufferMessages(e1, p.messages))
  }
}
