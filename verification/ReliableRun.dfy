/**
 Two reliable endpoints over a network that loses, duplicates and reorders
 packets.  A run is a list of steps; the state keeps, beside each endpoint, the
 history that the properties speak of: everything queued, everything handed out,
 every packet built (its index is its unbounded number) and every packet read.
 */
module ReliableRun {
  import opened Sequence
  import opened SequenceBuffers
  import opened Bits
  import opened Reliability

  /** A packet as built.  `first` is the number of its first message, `ackOf` the
      newest packet number it acknowledges, or -1 if nothing had been received. */
  datatype Written = Written(packet: Packet, sent: bool, first: int, ackOf: int)

  datatype Side = Side(
    e: Endpoint,
    queued: seq<Message>,
    delivered: seq<Message>,
    log: seq<Written>,
    seen: set<nat>,
    newest: int)
  {
    /** Number of the oldest message still pending. */
    function First(): int { |queued| - |e.unacked| }
  }

  datatype World = World(left: Side, right: Side) {
    function Reader(onLeft: bool): Side { if onLeft then left else right }
    function Peer(onLeft: bool): Side { if onLeft then right else left }
    function With(onLeft: bool, side: Side): World { if onLeft then this.(left := side) else this.(right := side) }
  }

  datatype Step =
    | Queue(onLeft: bool, channel: byte, payload: seq<byte>)
    | Write(onLeft: bool, capacityBits: nat, unreliable: seq<byte>)
    | Read(onLeft: bool, number: nat)

  function NewSide(): Side { Side(NewEndpoint(), [], [], [], {}, -1) }

  function QueueSide(s: Side, channel: byte, payload: seq<byte>): Side {
    s.(e := QueueReliable(s.e, channel, payload),
       queued := if Acceptable(payload) then s.queued + [Message(s.e.nextId, channel, payload)] else s.queued)
  }

  function WriteSide(s: Side, capacityBits: nat, unreliable: seq<byte>): Side {
    var p := BuildPacket(s.e, capacityBits, unreliable);
    s.(e := AfterWrite(s.e, p),
       log := s.log + [Written(p, Goes(s.e, p, capacityBits), s.First(), s.newest)])
  }

  function ReadSide(s: Side, p: Packet, number: nat): Side {
    if Refused(s.e, p.sequence) then s
    else
      var (e, out) := ReadPacket(s.e, p);
      s.(e := e, delivered := s.delivered + out, seen := s.seen + {number},
         newest := if number > s.newest then number else s.newest)
  }

  function Apply(w: World, step: Step): World
    requires step.Read? ==> step.number < |w.Peer(step.onLeft).log|
  {
    var s := w.Reader(step.onLeft);
    match step
    case Queue(onLeft, channel, payload) => w.With(onLeft, QueueSide(s, channel, payload))
    case Write(onLeft, bits, unreliable) => w.With(onLeft, WriteSide(s, bits, unreliable))
    case Read(onLeft, n) => w.With(onLeft, ReadSide(s, w.Peer(onLeft).log[n].packet, n))
  }

  // ---------------------------------------------------------------------------
  // What the run is allowed to do

  /** 8 messages in each packet of a 1024-packet window. */
  const REACH: nat := MAX_PER_PACKET * ACK_WINDOW
  const MAX_PENDING: nat := 0x1_0000 - REACH

  /** No packet and no ack is read half a ring late or early. */
  predicate OnTime(s: Side, peer: Side, n: nat)
    requires n < |peer.log|
  {
    && (s.newest >= 0 ==> -32768 < n - s.newest < 32768)
    && (peer.log[n].ackOf >= 0 ==> |s.log| - peer.log[n].ackOf <= 32768)
  }

  predicate Has(e: Endpoint, id: u16) {
    AlreadyDelivered(e, id) || id in e.reorder
  }

  /** A peer that has received nothing still acks packet 0.  That is harmless
      when every message it would retire has in fact arrived. */
  predicate NullAckHarmless(s: Side, peer: Side, n: nat)
    requires n < |peer.log|
  {
    peer.log[n].ackOf < 0 ==>
      match s.e.sent.Find(0)
      case None => true
      case Some(record) => record.acked || forall m <- s.e.unacked :: m.id in record.ids ==> Has(peer.e, m.id)
  }

  predicate Enabled(w: World, step: Step) {
    var s, peer := w.Reader(step.onLeft), w.Peer(step.onLeft);
    match step
    case Queue(_, _, _) => |s.e.unacked| < MAX_PENDING
    case Write(_, _, _) => true
    case Read(_, n) => n < |peer.log| && peer.log[n].sent && OnTime(s, peer, n) && NullAckHarmless(s, peer, n)
  }

  // ---------------------------------------------------------------------------
  // The invariant, for one direction of traffic

  /** The pending queue is one contiguous interval of message numbers. */
  ghost predicate PendingOk(unacked: seq<Message>, nextId: u16, queued: seq<Message>) {
    && |unacked| <= |queued| && |unacked| <= MAX_PENDING
    && unacked == queued[|queued| - |unacked|..]
    && nextId == Wrap(|queued|)
    && forall m | 0 <= m < |queued| :: queued[m].id == Wrap(m)
  }

  ghost predicate EntryOk(w: Written, n: int, queued: seq<Message>) {
    && w.packet.sequence == Wrap(n)
    && |w.packet.ackBits| == ACK_BITS
    && |w.packet.messages| <= MAX_PER_PACKET
    && 0 <= w.first && w.first + |w.packet.messages| <= |queued|
    && w.packet.messages == queued[w.first..w.first + |w.packet.messages|]
  }

  /** Each packet carried messages from the front of the queue, and the front
      moves by at most 8 messages for each packet built. */
  ghost predicate LogOk(log: seq<Written>, queued: seq<Message>, first: int) {
    && (forall n | 0 <= n < |log| :: EntryOk(log[n], n, queued))
    && (forall n | 0 <= n < |log| :: log[n].first <= first <= log[n].first + MAX_PER_PACKET * (|log| - n))
    && (forall m, n | 0 <= m <= n < |log| :: log[m].first <= log[n].first <= log[m].first + MAX_PER_PACKET * (n - m))
  }

  ghost predicate Remembered(log: seq<Written>, n: int, k: u16, record: SentPacket) {
    |log| - 1 - ACK_WINDOW < n < |log| && 0 <= n && Wrap(n) == k && record.ids == Ids(log[n].packet.messages)
  }

  ghost predicate SentOk(sent: Window<SentPacket>, log: seq<Written>) {
    && (sent.hasLatest <==> log != [])
    && (log != [] ==> sent.latest == Wrap(|log| - 1))
    && forall k <- sent.live :: exists n :: Remembered(log, n, k, sent.live[k])
  }

  ghost function Marks(seen: set<nat>): map<int, ()> { map n: int | n in seen :: () }

  ghost predicate ReceivedOk(received: Window<()>, hasReceived: bool, highest: u16, seen: set<nat>, newest: int) {
    if seen == {} then !hasReceived && received == EmptyWindow() && newest == -1
    else hasReceived && highest == Wrap(newest) && newest >= 0 && Tracks(received, ACK_WINDOW, Marks(seen), newest)
  }

  /** Message number `m` has reached the receiver. */
  ghost predicate Arrived(m: int, expected: int, reorder: map<u16, Message>) {
    m < expected || Wrap(m) in reorder
  }

  ghost predicate Buffered(m: int, k: u16, message: Message, queued: seq<Message>, expected: int, limit: int) {
    0 <= expected <= m < limit && m < |queued| && Wrap(m) == k && message == queued[m]
  }

  /** Each buffered message is a message of the queue, between the next expected
      one and `limit`. */
  ghost predicate ReorderOk(reorder: map<u16, Message>, queued: seq<Message>, expected: int, limit: int) {
    forall k <- reorder :: exists m :: Buffered(m, k, reorder[k], queued, expected, limit)
  }

  ghost predicate ArrivedAll(w: Written, expected: int, reorder: map<u16, Message>) {
    forall m | w.first <= m < w.first + |w.packet.messages| :: Arrived(m, expected, reorder)
  }

  /** What was handed out is a prefix of what was queued. */
  ghost predicate DeliveryOk(expected: u16, reorder: map<u16, Message>, delivered: seq<Message>, queued: seq<Message>,
                             limit: int) {
    && |delivered| <= |queued| && delivered == queued[..|delivered|]
    && |delivered| <= limit
    && expected == Wrap(|delivered|)
    && ReorderOk(reorder, queued, |delivered|, limit)
  }

  /** Everything read has arrived. */
  ghost predicate SeenOk(reorder: map<u16, Message>, delivered: nat, seen: set<nat>, newest: int, log: seq<Written>) {
    && (forall n <- seen :: n < |log| && n <= newest && ArrivedAll(log[n], delivered, reorder))
    && (seen == {} ==> newest == -1) && -1 <= newest < |log|
  }

  /** No message at or past this number has been read. */
  function Limit(log: seq<Written>, newest: int): int {
    if 0 <= newest < |log| then log[newest].first + MAX_PER_PACKET else 0
  }

  /** An ack names only packets that were read. */
  ghost predicate AckOk(w: Written, seen: set<nat>) {
    && |w.packet.ackBits| == ACK_BITS
    && if w.ackOf < 0 then w.packet.ack == 0 && forall i | 0 <= i < ACK_BITS :: !w.packet.ackBits[i]
       else
         && w.packet.ack == Wrap(w.ackOf) && w.ackOf in seen
         && forall i | 0 <= i < ACK_BITS :: w.packet.ackBits[i] ==> w.ackOf - (i + 1) >= 0 && w.ackOf - (i + 1) in seen
  }

  ghost predicate AcksOk(log: seq<Written>, seen: set<nat>) {
    forall n | 0 <= n < |log| :: AckOk(log[n], seen)
  }

  /** Everything about messages from `s` to `r`. */
  ghost predicate Direction(s: Side, r: Side) {
    && PendingOk(s.e.unacked, s.e.nextId, s.queued)
    && s.e.sequence == Wrap(|s.log|)
    && LogOk(s.log, s.queued, s.First())
    && SentOk(s.e.sent, s.log)
    && ReceivedOk(r.e.received, r.e.hasReceived, r.e.highest, r.seen, r.newest)
    && DeliveryOk(r.e.expected, r.e.reorder, r.delivered, s.queued, Limit(s.log, r.newest))
    && SeenOk(r.e.reorder, |r.delivered|, r.seen, r.newest, s.log)
    && r.e.expected !in r.e.reorder
    && s.First() <= |r.delivered|
    && AcksOk(r.log, r.seen)
  }

  ghost predicate Inv(w: World) {
    Direction(w.left, w.right) && Direction(w.right, w.left)
  }

  // ---------------------------------------------------------------------------
  // Queueing and writing keep it

  lemma QueueKeepsLog(log: seq<Written>, queued: seq<Message>, first: int, message: Message)
    requires LogOk(log, queued, first)
    ensures LogOk(log, queued + [message], first)
  {
    forall n | 0 <= n < |log| ensures EntryOk(log[n], n, queued + [message]) {
      assert EntryOk(log[n], n, queued);
    }
  }

  lemma PendingGrows(unacked: seq<Message>, nextId: u16, queued: seq<Message>, message: Message)
    requires PendingOk(unacked, nextId, queued) && message.id == nextId && |unacked| < MAX_PENDING
    ensures PendingOk(unacked + [message], Wrap(nextId + 1), queued + [message])
  {
    hide Wrap;
    WrapSuccessor(|queued|);
  }

  lemma QueueKeepsReorder(reorder: map<u16, Message>, queued: seq<Message>, expected: int, limit: int, message: Message)
    requires ReorderOk(reorder, queued, expected, limit)
    ensures ReorderOk(reorder, queued + [message], expected, limit)
  {
    forall k | k in reorder ensures exists m :: Buffered(m, k, reorder[k], queued + [message], expected, limit) {
      var m :| Buffered(m, k, reorder[k], queued, expected, limit);
      assert Buffered(m, k, reorder[k], queued + [message], expected, limit);
    }
  }

  lemma QueueKeeps(s: Side, r: Side, channel: byte, payload: seq<byte>)
    requires Direction(s, r) && Direction(r, s) && |s.e.unacked| < MAX_PENDING
    ensures Direction(QueueSide(s, channel, payload), r) && Direction(r, QueueSide(s, channel, payload))
  {
    hide LogOk, ReorderOk, SentOk, ReceivedOk, AcksOk, SeenOk, PendingOk, Limit, Wrap;
    if Acceptable(payload) {
      var message := Message(s.e.nextId, channel, payload);
      PendingGrows(s.e.unacked, s.e.nextId, s.queued, message);
      QueueKeepsLog(s.log, s.queued, s.First(), message);
      QueueKeepsReorder(r.e.reorder, s.queued, |r.delivered|, Limit(s.log, r.newest), message);
    }
  }

  lemma SentAppends(sent: Window<SentPacket>, log: seq<Written>, w: Written)
    requires SentOk(sent, log)
    ensures !sent.TooOld(ACK_WINDOW, Wrap(|log|))
    ensures SentOk(sent.Insert(ACK_WINDOW, Wrap(|log|), SentPacket(false, Ids(w.packet.messages))), log + [w])
  {
    hide Wrap, Ahead, Greater, Ids;
    if log != [] {
      GreaterIsOrder(|log|, |log| - 1);
      GreaterIsOrder(|log| - 1, |log|);
    }
    var record := SentPacket(false, Ids(w.packet.messages));
    var sent' := sent.Insert(ACK_WINDOW, Wrap(|log|), record);
    forall k | k in sent'.live ensures exists n :: Remembered(log + [w], n, k, sent'.live[k]) {
      if k == Wrap(|log|) {
        assert Remembered(log + [w], |log|, k, record);
      } else {
        var n :| Remembered(log, n, k, sent.live[k]);
        StillRemembered(log, w, n, k, sent.live[k]);
        assert Remembered(log + [w], n, k, sent'.live[k]);
      }
    }
  }

  lemma StillRemembered(log: seq<Written>, w: Written, n: int, k: u16, record: SentPacket)
    requires Remembered(log, n, k, record)
    ensures Ahead(Wrap(|log|), k) < ACK_WINDOW ==> Remembered(log + [w], n, k, record)
  {
    hide Wrap, Ahead, Ids;
    AheadIsDifference(|log|, n);
  }

  lemma AckIsHonest(e: Endpoint, seen: set<nat>, newest: int, w: Written)
    requires ReceivedOk(e.received, e.hasReceived, e.highest, seen, newest)
    requires w.packet.ack == AckField(e) && w.packet.ackBits == AckBits(e) && w.ackOf == newest
    ensures AckOk(w, seen)
  {
    if seen != {} {
      forall i | 0 <= i < ACK_BITS && w.packet.ackBits[i]
        ensures newest - (i + 1) >= 0 && newest - (i + 1) in seen
      {
        BitIsHonest(e, seen, newest, i);
      }
      hide AckBits, Wrap;
      assert newest in Marks(seen);
    }
  }

  lemma BitIsHonest(e: Endpoint, seen: set<nat>, newest: int, i: nat)
    requires seen != {} && ReceivedOk(e.received, e.hasReceived, e.highest, seen, newest) && i < ACK_BITS
    requires AckBits(e)[i]
    ensures newest - (i + 1) >= 0 && newest - (i + 1) in seen
  {
    hide Tracks, Wrap;
    WrapShift(newest, i + 1);
    TracksFinds(e.received, ACK_WINDOW, Marks(seen), newest, newest - (i + 1));
  }

  lemma WriteKeeps(s: Side, r: Side, capacityBits: nat, unreliable: seq<byte>)
    requires Direction(s, r) && Direction(r, s)
    ensures Direction(WriteSide(s, capacityBits, unreliable), r)
    ensures Direction(r, WriteSide(s, capacityBits, unreliable))
  {
    hide PendingOk, ReceivedOk, DeliveryOk, SentOk, LogOk, AckOk, SeenOk;
    var s' := WriteSide(s, capacityBits, unreliable);
    var w := s'.log[|s.log|];
    SentAppends(s.e.sent, s.log, w);
    WrapSuccessor(|s.log|);
    FrontEntry(s, w.packet, w);
    LogAppends(s.log, s.queued, s.First(), w);
    SeenAppends(r.e.reorder, |r.delivered|, r.seen, r.newest, s.log, w);
    AckIsHonest(s.e, s.seen, s.newest, w);
  }

  lemma FrontEntry(s: Side, p: Packet, w: Written)
    requires PendingOk(s.e.unacked, s.e.nextId, s.queued) && p.sequence == Wrap(|s.log|)
    requires |p.messages| <= |s.e.unacked| && p.messages == s.e.unacked[..|p.messages|]
    requires |p.messages| <= MAX_PER_PACKET && |p.ackBits| == ACK_BITS
    requires w.packet == p && w.first == s.First()
    ensures EntryOk(w, |s.log|, s.queued)
  {
  }

  lemma SeenAppends(reorder: map<u16, Message>, delivered: nat, seen: set<nat>, newest: int, log: seq<Written>,
                    w: Written)
    requires SeenOk(reorder, delivered, seen, newest, log)
    ensures SeenOk(reorder, delivered, seen, newest, log + [w])
    ensures Limit(log + [w], newest) == Limit(log, newest)
  {
    hide ArrivedAll;
  }

  lemma LogAppends(log: seq<Written>, queued: seq<Message>, first: int, w: Written)
    requires LogOk(log, queued, first) && EntryOk(w, |log|, queued) && w.first == first
    ensures LogOk(log + [w], queued, first)
  {
    hide EntryOk;
  }

  // ---------------------------------------------------------------------------
  // Acks keep it

  lemma RemoveAbsent(unacked: seq<Message>, id: u16)
    requires forall m <- unacked :: m.id != id
    ensures RemoveFirst(unacked, id) == unacked
  {
  }

  /** Retiring the messages of one packet leaves a later contiguous interval:
      its ids cannot name anything else, since they are within reach of it. */
  lemma {:induction false} RetireInterval(queued: seq<Message>, first: int, low: int, count: nat)
    requires 0 <= low <= first <= |queued| && low + count <= |queued|
    requires |queued| - low <= 0x1_0000
    requires forall m | 0 <= m < |queued| :: queued[m].id == Wrap(m)
    ensures RemoveIds(queued[first..], Ids(queued[low..low + count]))
         == queued[if low + count > first then low + count else first..]
  {
    hide RemoveFirst, Wrap, Ids;
    var ids := Ids(queued[low..low + count]);
    if count == 0 {
      assert ids == [];
    } else {
      var last := low + count - 1;
      LastId(queued, low, last);
      RetireInterval(queued, first, low, count - 1);
      RetireOne(queued, if last > first then last else first, last);
    }
  }

  lemma LastId(queued: seq<Message>, low: int, last: int)
    requires 0 <= low <= last < |queued| && queued[last].id == Wrap(last)
    ensures var ids := Ids(queued[low..last + 1]);
            ids[..last - low] == Ids(queued[low..last]) && ids[last - low] == Wrap(last)
  {
    hide Wrap;
  }

  lemma {:induction false} RetireOne(queued: seq<Message>, at: int, last: int)
    requires 0 <= last <= at <= |queued| && last < |queued| && |queued| - last <= 0x1_0000
    requires forall m | 0 <= m < |queued| :: queued[m].id == Wrap(m)
    ensures RemoveFirst(queued[at..], Wrap(last)) == if at == last then queued[last + 1..] else queued[at..]
  {
    if at == last {
      assert queued[at..][1..] == queued[last + 1..];
    } else {
      forall m | at <= m < |queued| ensures queued[m].id != Wrap(last) {
        if queued[m].id == Wrap(last) { WrapInjective(m, last); }
      }
      RemoveAbsent(queued[at..], Wrap(last));
    }
  }

  lemma RetirePending(unacked: seq<Message>, nextId: u16, queued: seq<Message>, low: int, count: nat)
    requires PendingOk(unacked, nextId, queued)
    requires 0 <= low && 0 <= |queued| - |unacked| - low <= REACH && low + count <= |queued|
    ensures var rest := RemoveIds(unacked, Ids(queued[low..low + count]));
            && rest == queued[if low + count > |queued| - |unacked| then low + count else |queued| - |unacked|..]
            && PendingOk(rest, nextId, queued)
  {
    hide RemoveIds, Ids;
    RetireInterval(queued, |queued| - |unacked|, low, count);
  }

  /** The part of the sender's state that acks change. */
  ghost predicate AckState(e: Endpoint, s: Side, ceiling: int) {
    && PendingOk(e.unacked, s.e.nextId, s.queued)
    && LogOk(s.log, s.queued, |s.queued| - |e.unacked|)
    && SentOk(e.sent, s.log)
    && |s.queued| - |e.unacked| <= ceiling
  }

  lemma MarkKeepsSent(sent: Window<SentPacket>, log: seq<Written>, k: u16)
    requires SentOk(sent, log) && k in sent.live
    ensures SentOk(sent.(live := sent.live[k := sent.live[k].(acked := true)]), log)
  {
    var sent' := sent.(live := sent.live[k := sent.live[k].(acked := true)]);
    forall j | j in sent'.live ensures exists n :: Remembered(log, n, j, sent'.live[j]) {
      var n :| Remembered(log, n, j, sent.live[j]);
      assert Remembered(log, n, j, sent'.live[j]);
    }
  }

  /** Retiring packet `n` keeps the pace of 8 messages for each packet. */
  lemma FrontMoves(log: seq<Written>, queued: seq<Message>, first: int, n: nat)
    requires LogOk(log, queued, first) && n < |log|
    ensures var end := log[n].first + |log[n].packet.messages|;
            LogOk(log, queued, if end > first then end else first)
  {
    assert EntryOk(log[n], n, queued);
    hide EntryOk;
  }

  /** The front is at most 8 * 1024 messages past any packet still remembered. */
  lemma WithinReach(log: seq<Written>, queued: seq<Message>, first: int, n: int)
    requires LogOk(log, queued, first) && 0 <= n && |log| - 1 - ACK_WINDOW < n < |log|
    ensures 0 <= first - log[n].first <= REACH
    ensures 0 <= log[n].first && log[n].first + |log[n].packet.messages| <= |queued|
    ensures log[n].packet.messages == queued[log[n].first..log[n].first + |log[n].packet.messages|]
  {
  }

  lemma RetirePacket(e: Endpoint, s: Side, ceiling: int, k: u16, n: int)
    requires AckState(e, s, ceiling) && k in e.sent.live && !e.sent.live[k].acked
    requires Remembered(s.log, n, k, e.sent.live[k])
    ensures var end := s.log[n].first + |s.log[n].packet.messages|;
            var first := |s.queued| - |e.unacked|;
            && |s.queued| - |OnPacketAcked(e, k).unacked| == (if end > first then end else first)
            && (end <= ceiling ==> AckState(OnPacketAcked(e, k), s, ceiling))
  {
    hide LogOk, SentOk, PendingOk, RemoveIds, Ids, EntryOk;
    var entry, first := s.log[n], |s.queued| - |e.unacked|;
    var end := entry.first + |entry.packet.messages|;
    WithinReach(s.log, s.queued, first, n);
    RetirePending(e.unacked, s.e.nextId, s.queued, entry.first, |entry.packet.messages|);
    var e' := OnPacketAcked(e, k);
    assert e'.unacked == RemoveIds(e.unacked, Ids(entry.packet.messages));
    FrontMoves(s.log, s.queued, first, n);
    MarkKeepsSent(e.sent, s.log, k);
  }

  /** Acting on an ack for a packet that the peer has read. */
  lemma AckedKeeps(e: Endpoint, s: Side, r: Side, n: int)
    requires Direction(s, r) && AckState(e, s, |r.delivered|)
    requires 0 <= n && n in r.seen && |s.log| - n <= 32768 + ACK_BITS
    ensures AckState(OnPacketAcked(e, Wrap(n)), s, |r.delivered|)
  {
    var k := Wrap(n);
    if k in e.sent.live && !e.sent.live[k].acked {
      var m :| Remembered(s.log, m, k, e.sent.live[k]);
      WrapInjective(m, n);
      ReadMeansArrived(s, r, n);
      RetirePacket(e, s, |r.delivered|, k, n);
    }
  }

  /** Every message of a packet that was read is below the next expected one or
      leaves no gap before it. */
  lemma ReadMeansArrived(s: Side, r: Side, n: int)
    requires Direction(s, r) && 0 <= n && n in r.seen
    ensures s.log[n].first + |s.log[n].packet.messages| <= |r.delivered|
  {
    var end := s.log[n].first + |s.log[n].packet.messages|;
    assert ArrivedAll(s.log[n], |r.delivered|, r.e.reorder);
    assert s.log[n].first <= s.First() <= |r.delivered|;
    assert end <= |r.delivered| || Arrived(|r.delivered|, |r.delivered|, r.e.reorder);
  }

  lemma {:induction false} AckBitsKeep(e: Endpoint, s: Side, r: Side, w: Written, n: nat)
    requires Direction(s, r) && AckState(e, s, |r.delivered|)
    requires AckOk(w, r.seen) && w.ackOf >= 0 && |s.log| - w.ackOf <= 32768 && n <= ACK_BITS
    ensures AckState(ProcessAcks(e, w.packet.ack, w.packet.ackBits, n), s, |r.delivered|)
  {
    hide Direction, AckState, OnPacketAcked;
    if n == 0 {
      AckedKeeps(e, s, r, w.ackOf);
    } else {
      AckBitsKeep(e, s, r, w, n - 1);
      if w.packet.ackBits[n - 1] {
        WrapShift(w.ackOf, n);
        AckedKeeps(ProcessAcks(e, w.packet.ack, w.packet.ackBits, n - 1), s, r, w.ackOf - n);
      }
    }
  }

  // ---------------------------------------------------------------------------
  // An ack from a peer that has received nothing

  /** Packet numbers within 8 messages of each other compare by residue. */
  lemma NearbyDelivered(e: Endpoint, m: int, expected: int)
    requires e.expected == Wrap(expected) && -32768 < m - expected < 32768
    ensures AlreadyDelivered(e, Wrap(m)) <==> m < expected
  {
    GreaterIsOrder(m, expected);
    if Wrap(m) == Wrap(expected) { WrapInjective(m, expected); }
  }

  /** In a good state, `Has` is `Arrived` for messages near the next expected. */
  lemma HasIsArrived(s: Side, r: Side, m: int)
    requires Direction(s, r) && s.First() <= m < s.First() + MAX_PER_PACKET
    ensures Has(r.e, Wrap(m)) <==> Arrived(m, |r.delivered|, r.e.reorder)
  {
    assert |r.delivered| <= s.First() + MAX_PER_PACKET;
    NearbyDelivered(r.e, m, |r.delivered|);
  }

  /** The front stays behind the next expected message exactly when the null ack
      retires only messages that have arrived. */
  lemma NullAckExact(e: Endpoint, s: Side, r: Side, n: nat)
    requires Direction(s, r) && AckState(e, s, |r.delivered|) && e.sent == s.e.sent && e.unacked == s.e.unacked
    requires n < |r.log| && r.log[n].ackOf < 0
    ensures NullAckHarmless(s, r, n) <==> AckState(OnPacketAcked(e, 0), s, |r.delivered|)
    ensures NullAckHarmless(s, r, n) <==> |s.queued| - |OnPacketAcked(e, 0).unacked| <= |r.delivered|
  {
    hide LogOk, PendingOk, ReceivedOk, DeliveryOk, SeenOk, AcksOk, RemoveIds, Has;
    if 0 in e.sent.live && !e.sent.live[0].acked {
      var k :| Remembered(s.log, k, 0, e.sent.live[0]);
      NullAckOf(e, s, r, n, k);
    }
  }

  lemma NullAckOf(e: Endpoint, s: Side, r: Side, n: nat, k: int)
    requires Direction(s, r) && AckState(e, s, |r.delivered|) && e.sent == s.e.sent && e.unacked == s.e.unacked
    requires n < |r.log| && r.log[n].ackOf < 0
    requires 0 in e.sent.live && !e.sent.live[0].acked && Remembered(s.log, k, 0, e.sent.live[0])
    ensures NullAckHarmless(s, r, n) <==> AckState(OnPacketAcked(e, 0), s, |r.delivered|)
    ensures NullAckHarmless(s, r, n) <==> |s.queued| - |OnPacketAcked(e, 0).unacked| <= |r.delivered|
  {
    hide Direction, LogOk, SentOk, PendingOk, EntryOk, OnPacketAcked, Has;
    var end := s.log[k].first + |s.log[k].packet.messages|;
    RetirePacket(e, s, |r.delivered|, 0, k);
    WithinReach(s.log, s.queued, s.First(), k);
    if NullAckHarmless(s, r, n) && |r.delivered| < end {
      RetiredArrived(s, r, k);
    }
    if end <= |r.delivered| {
      ArrivedHarmless(s, r, k);
    }
  }

  lemma RetiredArrived(s: Side, r: Side, k: nat)
    requires Direction(s, r) && k < |s.log| && |s.log| - 1 - ACK_WINDOW < k
    requires |r.delivered| < s.log[k].first + |s.log[k].packet.messages|
    ensures exists m :: m in s.e.unacked && m.id in Ids(s.log[k].packet.messages) && !Has(r.e, m.id)
  {
    hide LogOk, SentOk, ReceivedOk, AcksOk, SeenOk, Has, Wrap;
    var entry, m := s.log[k], |r.delivered|;
    WithinReach(s.log, s.queued, s.First(), k);
    EntryAt(s.log, s.queued, s.First(), k);
    HasIsArrived(s, r, m);
    assert s.e.unacked[m - s.First()] == s.queued[m] == entry.packet.messages[m - entry.first];
    assert Ids(entry.packet.messages)[m - entry.first] == s.queued[m].id;
  }

  lemma ArrivedHarmless(s: Side, r: Side, k: nat)
    requires Direction(s, r) && k < |s.log| && |s.log| - 1 - ACK_WINDOW < k
    requires s.log[k].first + |s.log[k].packet.messages| <= |r.delivered|
    ensures forall m <- s.e.unacked :: m.id in Ids(s.log[k].packet.messages) ==> Has(r.e, m.id)
  {
    hide Direction, Has, Ids;
    forall j, i | 0 <= j < |s.e.unacked| && 0 <= i < |s.log[k].packet.messages|
                  && s.e.unacked[j].id == Ids(s.log[k].packet.messages)[i]
      ensures Has(r.e, s.e.unacked[j].id)
    {
      PendingArrived(s, r, k, j, i);
    }
  }

  lemma PendingArrived(s: Side, r: Side, k: nat, j: nat, i: nat)
    requires Direction(s, r) && k < |s.log| && |s.log| - 1 - ACK_WINDOW < k
    requires j < |s.e.unacked| && i < |s.log[k].packet.messages|
    requires s.e.unacked[j].id == s.log[k].packet.messages[i].id
    requires s.log[k].first + |s.log[k].packet.messages| <= |r.delivered|
    ensures Has(r.e, s.e.unacked[j].id)
  {
    hide PendingOk, LogOk, SentOk, ReceivedOk, AcksOk, DeliveryOk, SeenOk, Has, Wrap;
    var entry, m := s.log[k], s.First() + j;
    WithinReach(s.log, s.queued, s.First(), k);
    PendingAt(s.e.unacked, s.e.nextId, s.queued, j, entry.first + i);
    WrapInjective(m, entry.first + i);
    EntryAt(s.log, s.queued, s.First(), k);
    HasIsArrived(s, r, m);
  }

  lemma PendingAt(unacked: seq<Message>, nextId: u16, queued: seq<Message>, j: nat, n: nat)
    requires PendingOk(unacked, nextId, queued) && j < |unacked| && n < |queued|
    ensures |unacked| <= |queued| && |unacked| <= MAX_PENDING
    ensures unacked[j] == queued[|queued| - |unacked| + j] && queued[n].id == Wrap(n)
    ensures unacked[j].id == Wrap(|queued| - |unacked| + j)
  {
    hide Wrap;
  }

  lemma EntryAt(log: seq<Written>, queued: seq<Message>, first: int, n: nat)
    requires LogOk(log, queued, first) && n < |log|
    ensures EntryOk(log[n], n, queued)
  {
    hide EntryOk;
  }

  // ---------------------------------------------------------------------------
  // Reading keeps it

  lemma NoteKeeps(e: Endpoint, seen: set<nat>, newest: int, n: nat)
    requires ReceivedOk(e.received, e.hasReceived, e.highest, seen, newest)
    requires newest >= 0 ==> -32768 < n - newest < 32768
    requires !Refused(e, Wrap(n))
    ensures var e' := NoteReceived(e, Wrap(n));
            ReceivedOk(e'.received, e'.hasReceived, e'.highest, seen + {n}, if n > newest then n else newest)
    ensures newest - ACK_WINDOW < n
  {
    var e' := NoteReceived(e, Wrap(n));
    if seen == {} {
      assert Stands(Marks({n}), n, Wrap(n));
      assert seen + {n} == {n};
    } else {
      assert Marks(seen + {n}) == Marks(seen)[n as int := ()];
      InsertTracks(e.received, ACK_WINDOW, Marks(seen), newest, n, ());
      GreaterIsOrder(n, newest);
    }
  }

  /** Buffering the messages of one packet, oldest first. */
  lemma {:induction false} BufferKeeps(e: Endpoint, messages: seq<Message>, first: int,
                                       delivered: seq<Message>, queued: seq<Message>, limit: int)
    requires DeliveryOk(e.expected, e.reorder, delivered, queued, limit)
    requires 0 <= first && first + |messages| <= |queued| && messages == queued[first..first + |messages|]
    requires forall m | 0 <= m < |queued| :: queued[m].id == Wrap(m)
    requires first + |messages| <= limit <= |delivered| + MAX_PER_PACKET && |delivered| - first <= REACH
    ensures var e' := BufferMessages(e, messages);
            && e' == e.(reorder := e'.reorder)
            && DeliveryOk(e'.expected, e'.reorder, delivered, queued, limit)
            && (forall m :: Arrived(m, |delivered|, e.reorder) ==> Arrived(m, |delivered|, e'.reorder))
            && (forall m | first <= m < first + |messages| :: Arrived(m, |delivered|, e'.reorder))
    decreases |messages|
  {
    hide DeliveryOk, Arrived, BufferMessage;
    if messages != [] {
      BufferOne(e, first, delivered, queued, limit);
      BufferKeeps(BufferMessage(e, messages[0]), messages[1..], first + 1, delivered, queued, limit);
    }
  }

  lemma BufferOne(e: Endpoint, m: int, delivered: seq<Message>, queued: seq<Message>, limit: int)
    requires DeliveryOk(e.expected, e.reorder, delivered, queued, limit)
    requires 0 <= m < |queued| && m < limit && limit <= |delivered| + MAX_PER_PACKET && |delivered| - m <= REACH
    requires queued[m].id == Wrap(m)
    ensures var e' := BufferMessage(e, queued[m]);
            && e' == e.(reorder := e'.reorder)
            && DeliveryOk(e'.expected, e'.reorder, delivered, queued, limit)
            && (forall x :: Arrived(x, |delivered|, e.reorder) ==> Arrived(x, |delivered|, e'.reorder))
            && Arrived(m, |delivered|, e'.reorder)
  {
    NearbyDelivered(e, m, |delivered|);
    var e' := BufferMessage(e, queued[m]);
    forall k | k in e'.reorder ensures exists x :: Buffered(x, k, e'.reorder[k], queued, |delivered|, limit) {
      if k in e.reorder {
        var x :| Buffered(x, k, e.reorder[k], queued, |delivered|, limit);
        assert Buffered(x, k, e'.reorder[k], queued, |delivered|, limit);
      } else {
        assert Buffered(m, k, e'.reorder[k], queued, |delivered|, limit);
      }
    }
  }

  /** Draining the reorder buffer hands out the next messages of the queue. */
  lemma {:induction false} DrainKeeps(e: Endpoint, delivered: seq<Message>, queued: seq<Message>, limit: int)
    requires DeliveryOk(e.expected, e.reorder, delivered, queued, limit) && limit <= |delivered| + MAX_PER_PACKET
    ensures var (e', out) := DeliverInOrder(e);
            && e' == e.(reorder := e'.reorder, expected := e'.expected)
            && DeliveryOk(e'.expected, e'.reorder, delivered + out, queued, limit)
            && e'.expected !in e'.reorder
            && (forall m | m < limit :: Arrived(m, |delivered|, e.reorder) ==>
                 Arrived(m, |delivered + out|, e'.reorder))
    decreases |e.reorder|
  {
    hide DeliveryOk, Arrived;
    if e.expected in e.reorder {
      var message := e.reorder[e.expected];
      DropShrinks(e.reorder, e.expected);
      DeliverOne(e, delivered, queued, limit);
      var e1 := e.(reorder := e.reorder - {e.expected}, expected := Wrap(e.expected + 1));
      DrainKeeps(e1, delivered + [message], queued, limit);
      var (e', out) := DeliverInOrder(e1);
      assert delivered + [message] + out == delivered + ([message] + out);
    } else {
      assert delivered + [] == delivered;
    }
  }

  lemma DeliverOne(e: Endpoint, delivered: seq<Message>, queued: seq<Message>, limit: int)
    requires DeliveryOk(e.expected, e.reorder, delivered, queued, limit) && limit <= |delivered| + MAX_PER_PACKET
    requires e.expected in e.reorder
    ensures var reorder := e.reorder - {e.expected};
            && DeliveryOk(Wrap(e.expected + 1), reorder, delivered + [e.reorder[e.expected]], queued, limit)
            && forall m | m < limit :: Arrived(m, |delivered|, e.reorder) ==> Arrived(m, |delivered| + 1, reorder)
  {
    hide Wrap;
    var n, next, reorder := |delivered|, |delivered| + 1, e.reorder - {e.expected};
    var m :| Buffered(m, e.expected, e.reorder[e.expected], queued, n, limit);
    WrapInjective(m, n);
    WrapSuccessor(n);
    forall k | k in reorder ensures exists x :: Buffered(x, k, reorder[k], queued, next, limit) {
      var x :| Buffered(x, k, e.reorder[k], queued, n, limit);
      assert Buffered(x, k, reorder[k], queued, next, limit);
    }
    forall x | x < limit && Arrived(x, n, e.reorder) ensures Arrived(x, n + 1, reorder) {
      if x > n && Wrap(x) == Wrap(n) { WrapInjective(x, n); }
    }
  }

  lemma {:induction false} AcksFrame(e: Endpoint, ack: u16, ackBits: seq<bool>, n: nat)
    requires n <= |ackBits|
    ensures var e' := ProcessAcks(e, ack, ackBits, n);
            e' == e.(sent := e'.sent, unacked := e'.unacked)
  {
    if n > 0 { AcksFrame(e, ack, ackBits, n - 1); }
  }

  lemma {:induction false} NoBitsNoAcks(e: Endpoint, ack: u16, ackBits: seq<bool>, n: nat)
    requires n <= |ackBits| && forall i | 0 <= i < n :: !ackBits[i]
    ensures ProcessAcks(e, ack, ackBits, n) == OnPacketAcked(e, ack)
  {
    if n > 0 { NoBitsNoAcks(e, ack, ackBits, n - 1); }
  }

  /** The sender's half of a read: acting on the acks of the peer's packet `n`. */
  lemma AcksKeep(e: Endpoint, s: Side, r: Side, n: nat)
    requires Direction(s, r) && e.sent == s.e.sent && e.unacked == s.e.unacked
    requires n < |r.log| && OnTime(s, r, n) && NullAckHarmless(s, r, n)
    ensures var p := r.log[n].packet;
            |p.ackBits| == ACK_BITS && AckState(ProcessAcks(e, p.ack, p.ackBits, ACK_BITS), s, |r.delivered|)
  {
    hide PendingOk, LogOk, SentOk, ReceivedOk, DeliveryOk, SeenOk, OnPacketAcked, NullAckHarmless;
    var w := r.log[n];
    assert AckState(e, s, |r.delivered|);
    hide Direction, AckState;
    if w.ackOf < 0 {
      NoBitsNoAcks(e, 0, w.packet.ackBits, ACK_BITS);
      NullAckExact(e, s, r, n);
    } else {
      AckBitsKeep(e, s, r, w, ACK_BITS);
    }
  }

  /** Seeing packet `n` as well, once all its messages have arrived. */
  lemma SeenGrows(reorder: map<u16, Message>, delivered: nat, reorder': map<u16, Message>, delivered': nat,
                  seen: set<nat>, newest: int, log: seq<Written>, n: nat, queued: seq<Message>, first: int)
    requires SeenOk(reorder, delivered, seen, newest, log) && n < |log| && LogOk(log, queued, first)
    requires forall m | m < Limit(log, if n > newest then n else newest) ::
               Arrived(m, delivered, reorder) ==> Arrived(m, delivered', reorder')
    requires ArrivedAll(log[n], delivered', reorder')
    ensures SeenOk(reorder', delivered', seen + {n}, if n > newest then n else newest, log)
  {
    hide Arrived;
    forall k | k in seen ensures ArrivedAll(log[k], delivered', reorder') {
      assert ArrivedAll(log[k], delivered, reorder);
      assert EntryOk(log[k], k, queued);
    }
  }

  /** Bounds on the packet being read: it reaches at most 8 past the next expected
      message and at most 8 * 1024 before it. */
  lemma PacketInReach(s: Side, r: Side, n: nat)
    requires Direction(s, r) && n < |s.log| && r.newest - ACK_WINDOW < n
    ensures var newest := if n > r.newest then n else r.newest;
            var limit := Limit(s.log, newest);
            && Limit(s.log, r.newest) <= limit <= |r.delivered| + MAX_PER_PACKET
            && |r.delivered| - s.log[n].first <= REACH
            && s.log[n].first + MAX_PER_PACKET <= limit
  {
    hide ReceivedOk, SentOk, PendingOk, AcksOk, ReorderOk;
    EntryAt(s.log, s.queued, s.First(), n);
  }

  lemma LimitGrows(next: u16, reorder: map<u16, Message>, delivered: seq<Message>, queued: seq<Message>, limit: int,
                   limit': int)
    requires DeliveryOk(next, reorder, delivered, queued, limit) && limit <= limit'
    ensures DeliveryOk(next, reorder, delivered, queued, limit')
  {
    var expected := |delivered|;
    forall k | k in reorder ensures exists m :: Buffered(m, k, reorder[k], queued, expected, limit') {
      var m :| Buffered(m, k, reorder[k], queued, expected, limit);
      assert Buffered(m, k, reorder[k], queued, expected, limit');
    }
  }

  lemma IdsInOrder(s: Side, r: Side)
    requires Direction(s, r)
    ensures forall m | 0 <= m < |s.queued| :: s.queued[m].id == Wrap(m)
  {
  }

  /** The receiver's half of a read: taking in the messages of packet `n`. */
  lemma MessagesKeep(e: Endpoint, s: Side, r: Side, n: nat)
    requires Direction(s, r) && e.expected == r.e.expected && e.reorder == r.e.reorder
    requires n < |s.log| && r.newest - ACK_WINDOW < n
    ensures var newest := if n > r.newest then n else r.newest;
            var (e', out) := DeliverInOrder(BufferMessages(e, s.log[n].packet.messages));
            && e' == e.(reorder := e'.reorder, expected := e'.expected)
            && DeliveryOk(e'.expected, e'.reorder, r.delivered + out, s.queued, Limit(s.log, newest))
            && e'.expected !in e'.reorder
            && SeenOk(e'.reorder, |r.delivered + out|, r.seen + {n}, newest, s.log)
  {
    hide LogOk, SentOk, ReceivedOk, AcksOk, SeenOk, Arrived, ArrivedAll, BufferMessages, DeliverInOrder, DeliveryOk,
      Limit, PendingOk, Wrap;
    var newest := if n > r.newest then n else r.newest;
    var limit, entry := Limit(s.log, newest), s.log[n];
    PacketInReach(s, r, n);
    IdsInOrder(s, r);
    EntryAt(s.log, s.queued, s.First(), n);
    LimitGrows(r.e.expected, r.e.reorder, r.delivered, s.queued, Limit(s.log, r.newest), limit);
    TakeIn(e, entry, r.delivered, s.queued, limit);
    var (e', out) := DeliverInOrder(BufferMessages(e, entry.packet.messages));
    SeenGrows(r.e.reorder, |r.delivered|, e'.reorder, |r.delivered + out|, r.seen, r.newest, s.log, n, s.queued,
        s.First());
  }

  lemma TakeIn(e: Endpoint, entry: Written, delivered: seq<Message>, queued: seq<Message>, limit: int)
    requires DeliveryOk(e.expected, e.reorder, delivered, queued, limit)
    requires entry.first >= 0 && entry.first + |entry.packet.messages| <= |queued|
    requires entry.packet.messages == queued[entry.first..entry.first + |entry.packet.messages|]
    requires forall m | 0 <= m < |queued| :: queued[m].id == Wrap(m)
    requires entry.first + |entry.packet.messages| <= limit <= |delivered| + MAX_PER_PACKET
    requires |delivered| - entry.first <= REACH
    ensures var (e', out) := DeliverInOrder(BufferMessages(e, entry.packet.messages));
            && e' == e.(reorder := e'.reorder, expected := e'.expected)
            && DeliveryOk(e'.expected, e'.reorder, delivered + out, queued, limit)
            && e'.expected !in e'.reorder
            && (forall m | m < limit :: Arrived(m, |delivered|, e.reorder) ==>
                 Arrived(m, |delivered + out|, e'.reorder))
            && ArrivedAll(entry, |delivered + out|, e'.reorder)
  {
    hide Arrived, BufferMessages, DeliverInOrder, DeliveryOk;
    BufferKeeps(e, entry.packet.messages, entry.first, delivered, queued, limit);
    DrainKeeps(BufferMessages(e, entry.packet.messages), delivered, queued, limit);
  }

  lemma AcksGrow(log: seq<Written>, seen: set<nat>, n: nat)
    requires AcksOk(log, seen)
    ensures AcksOk(log, seen + {n})
  {
    forall k | 0 <= k < |log| ensures AckOk(log[k], seen + {n}) {
      assert AckOk(log[k], seen);
    }
  }

  lemma ReadKeeps(s: Side, r: Side, n: nat)
    requires Direction(s, r) && Direction(r, s)
    requires n < |r.log| && OnTime(s, r, n) && NullAckHarmless(s, r, n)
    ensures Direction(ReadSide(s, r.log[n].packet, n), r) && Direction(r, ReadSide(s, r.log[n].packet, n))
  {
    hide PendingOk, LogOk, SentOk, ReceivedOk, DeliveryOk, SeenOk, AcksOk, ProcessAcks, BufferMessages,
      DeliverInOrder, NullAckHarmless, Limit, Refused;
    var p := r.log[n].packet;
    EntryAt(r.log, r.queued, r.First(), n);
    if !Refused(s.e, p.sequence) {
      var e1 := NoteReceived(s.e, p.sequence);
      NoteKeeps(s.e, s.seen, s.newest, n);
      AcksKeep(e1, s, r, n);
      AcksFrame(e1, p.ack, p.ackBits, ACK_BITS);
      var e2 := ProcessAcks(e1, p.ack, p.ackBits, ACK_BITS);
      MessagesKeep(e2, r, s, n);
      AcksGrow(s.log, s.seen, n);
    }
  }

  /** Reading a packet whose writer had received nothing keeps the sender's front
      behind the receiver exactly when the null ack is harmless: otherwise a
      message leaves the queue that the peer does not have. */
  lemma NullAckRetires(s: Side, r: Side, n: nat)
    requires Direction(s, r) && Direction(r, s)
    requires n < |r.log| && OnTime(s, r, n) && r.log[n].ackOf < 0 && !Refused(s.e, r.log[n].packet.sequence)
    ensures ReadSide(s, r.log[n].packet, n).First() <= |r.delivered| <==> NullAckHarmless(s, r, n)
  {
    hide PendingOk, LogOk, SentOk, ReceivedOk, DeliveryOk, SeenOk, ProcessAcks, BufferMessages, OnPacketAcked,
      DeliverInOrder, NullAckHarmless, Limit, Refused;
    var p := r.log[n].packet;
    EntryAt(r.log, r.queued, r.First(), n);
    var e1 := NoteReceived(s.e, p.sequence);
    NoteKeeps(s.e, s.seen, s.newest, n);
    NoBitsNoAcks(e1, 0, p.ackBits, ACK_BITS);
    NullAckExact(e1, s, r, n);
    AcksFrame(e1, p.ack, p.ackBits, ACK_BITS);
    MessagesKeep(ProcessAcks(e1, p.ack, p.ackBits, ACK_BITS), r, s, n);
  }

  // ---------------------------------------------------------------------------
  // Whole runs

  /** The state after a list of steps, or nothing if a step was not enabled. */
  function Run(steps: seq<Step>): (w: Option<World>) {
    if steps == [] then Some(World(NewSide(), NewSide()))
    else
      var before := Run(steps[..|steps| - 1]);
      var step := steps[|steps| - 1];
      if before.Some? && Enabled(before.value, step) then Some(Apply(before.value, step)) else None
  }

  lemma StepKeeps(w: World, step: Step)
    requires Inv(w) && Enabled(w, step)
    ensures Inv(Apply(w, step))
  {
    hide Direction, QueueSide, WriteSide, ReadSide;
    var s, peer := w.Reader(step.onLeft), w.Peer(step.onLeft);
    match step
    case Queue(_, channel, payload) => QueueKeeps(s, peer, channel, payload);
    case Write(_, bits, unreliable) => WriteKeeps(s, peer, bits, unreliable);
    case Read(_, n) => ReadKeeps(s, peer, n);
  }

  lemma {:induction false} RunKeeps(steps: seq<Step>)
    requires Run(steps).Some?
    ensures Inv(Run(steps).value)
  {
    if steps != [] {
      hide Inv, Apply;
      RunKeeps(steps[..|steps| - 1]);
      StepKeeps(Run(steps[..|steps| - 1]).value, steps[|steps| - 1]);
    }
  }

  /** Reliable delivery across wraparound: in every run, whatever is lost,
      duplicated or reordered, each side has handed out exactly a prefix of what
      the other queued. */
  lemma ReliableDelivery(steps: seq<Step>)
    requires Run(steps).Some?
    ensures var w := Run(steps).value;
            w.right.delivered <= w.left.queued && w.left.delivered <= w.right.queued
  {
    hide Run, Direction;
    RunKeeps(steps);
    Fronts(Run(steps).value.left, Run(steps).value.right);
    Fronts(Run(steps).value.right, Run(steps).value.left);
  }

  /** Sender retention: the pending queue is the interval of messages from the
      front on, the receiver is never behind that front, so everything retired
      was handed out, and at most 7 messages wait out of order. */
  lemma SenderRetention(steps: seq<Step>, onLeft: bool)
    requires Run(steps).Some?
    ensures var s, r := Run(steps).value.Reader(onLeft), Run(steps).value.Peer(onLeft);
            && 0 <= s.First() <= |r.delivered| <= |s.queued|
            && s.e.unacked == s.queued[s.First()..]
            && r.delivered == s.queued[..|r.delivered|]
            && |r.e.reorder| < MAX_PER_PACKET
            && (forall k <- r.e.reorder :: r.e.reorder[k] in s.e.unacked)
  {
    hide Run, Direction;
    RunKeeps(steps);
    var s, r := Run(steps).value.Reader(onLeft), Run(steps).value.Peer(onLeft);
    assert Direction(s, r);
    Fronts(s, r);
    FewBuffered(s, r);
  }

  lemma Fronts(s: Side, r: Side)
    requires Direction(s, r)
    ensures 0 <= s.First() <= |r.delivered| <= |s.queued|
    ensures s.e.unacked == s.queued[s.First()..] && r.delivered == s.queued[..|r.delivered|]
  {
    hide LogOk, SentOk, ReceivedOk, AcksOk, SeenOk, Wrap;
  }

  lemma RunNone()
    ensures Run([]) == Some(World(NewSide(), NewSide()))
  {
  }

  lemma RunThen(steps: seq<Step>, step: Step)
    requires Run(steps).Some? && Enabled(Run(steps).value, step)
    ensures Run(steps + [step]) == Some(Apply(Run(steps).value, step))
  {
    assert (steps + [step])[..|steps|] == steps;
    hide Apply, Enabled;
  }

  lemma RunThree(a: Step, b: Step, c: Step)
    requires !a.Read? && !b.Read? && !c.Read? && Enabled(World(NewSide(), NewSide()), a)
    requires var w := Apply(World(NewSide(), NewSide()), a); Enabled(w, b) && Enabled(Apply(w, b), c)
    ensures Run([a, b, c]) == Some(Apply(Apply(Apply(World(NewSide(), NewSide()), a), b), c))
  {
    hide Run, Apply, Enabled;
    RunNone();
    assert [] + [a] == [a] && [a] + [b] == [a, b] && [a, b] + [c] == [a, b, c];
    RunThen([], a);
    RunThen([a], b);
    RunThen([a, b], c);
  }

  function LossyStart(payload: seq<byte>): seq<Step> {
    [Queue(true, 0, payload), Write(true, 8192, []), Write(false, 8192, [])]
  }

  /** One message is pending and recorded as riding on packet 0; the peer has built
      packet 0 without having received anything. */
  predicate BeforeLoss(w: World) {
    && |w.left.queued| == 1 && w.left.e.unacked == w.left.queued && w.left.queued[0].id == 0
    && w.left.e.sent.Find(0) == Some(SentPacket(false, [0]))
    && w.left.newest == -1 && w.left.e.received == EmptyWindow() && w.left.e.reorder == map[]
    && w.right.delivered == [] && w.right.e.expected == 0 && w.right.e.reorder == map[]
    && |w.right.log| == 1 && w.right.log[0].sent && w.right.log[0].ackOf == -1
    && var p := w.right.log[0].packet;
       && p.sequence == 0 && p.ack == 0 && p.messages == [] && |p.ackBits| == ACK_BITS
       && forall i | 0 <= i < ACK_BITS :: !p.ackBits[i]
  }

  lemma LossyRun(payload: seq<byte>)
    requires Acceptable(payload)
    ensures var w := Run(LossyStart(payload)); w.Some? && BeforeLoss(w.value)
  {
    hide Run, QueueSide, WriteSide;
    RunThree(Queue(true, 0, payload), Write(true, 8192, []), Write(false, 8192, []));
    LeftBefore(payload);
    RightBefore();
  }

  lemma LeftBefore(payload: seq<byte>)
    requires Acceptable(payload)
    ensures QueueSide(NewSide(), 0, payload).e.unacked == [Message(0, 0, payload)]
    ensures var s := WriteSide(QueueSide(NewSide(), 0, payload), 8192, []);
            && s.queued == s.e.unacked == [Message(0, 0, payload)] && s.e.sent.Find(0) == Some(SentPacket(false, [0]))
            && s.newest == -1 && s.e.received == EmptyWindow() && s.e.reorder == map[]
  {
    hide AckBits;
    var e, m := QueueSide(NewSide(), 0, payload).e, Message(0, 0, payload);
    var p := BuildPacket(e, 8192, []);
    assert e.unacked == [m] && p.messages == [m];
    assert Ids([m]) == [0];
  }

  lemma RightBefore()
    ensures var s := WriteSide(NewSide(), 8192, []);
            && s.delivered == [] && s.e.expected == 0 && s.e.reorder == map[]
            && |s.log| == 1 && s.log[0].sent && s.log[0].ackOf == -1
            && var p := s.log[0].packet;
               && p.sequence == 0 && p.ack == 0 && p.messages == [] && |p.ackBits| == ACK_BITS
               && forall i | 0 <= i < ACK_BITS :: !p.ackBits[i]
  {
  }

  /** A null ack that does harm: the left side queues one message and writes it, the
      packet is lost, and the right side, which has received nothing, writes.  The
      left side reads that packet and forgets its message. */
  lemma NullAckLoses(payload: seq<byte>)
    requires Acceptable(payload)
    ensures Run(LossyStart(payload)).Some?
    ensures var w := Run(LossyStart(payload)).value;
            && |w.right.log| == 1
            && OnTime(w.left, w.right, 0) && w.right.log[0].sent && !Enabled(w, Read(true, 0))
            && var after := Apply(w, Read(true, 0));
               |after.left.queued| == 1 && after.left.e.unacked == [] && after.right.delivered == []
  {
    hide Run;
    LossyRun(payload);
    var w := Run(LossyStart(payload)).value;
    var p := w.right.log[0].packet;
    var e := NoteReceived(w.left.e, 0);
    NoBitsNoAcks(e, 0, p.ackBits, ACK_BITS);
    var message := w.left.queued[0];
    assert RemoveIds([message], [0]) == RemoveFirst(RemoveIds([message], []), 0) by { assert [0][..0] == []; }
    assert OnPacketAcked(e, 0).unacked == [];
    assert !Has(w.right.e, message.id);
    assert message in w.left.e.unacked && message.id in [0];
  }

  /** What the include loop asks of a message: would it fit if it rode alone? */
  predicate FitsAlone(m: Message, capacityBits: nat, unreliable: seq<byte>) {
    MessageBits(m) + 8 * |unreliable| + 32 <= RemainingAfterHeader(capacityBits)
  }

  /** The first `k` pending messages each fit alone, and there is no next one, or no
      room for it in the count, or it does not fit alone. */
  predicate Riders(unacked: seq<Message>, capacityBits: nat, unreliable: seq<byte>, k: nat) {
    && k <= |unacked| && k <= MAX_PER_PACKET
    && (forall i | 0 <= i < k :: FitsAlone(unacked[i], capacityBits, unreliable))
    && (k < |unacked| && k < MAX_PER_PACKET ==> !FitsAlone(unacked[k], capacityBits, unreliable))
  }

  lemma {:induction false} CountsRiders(unacked: seq<Message>, capacityBits: nat, unreliable: seq<byte>, count: nat,
                                        k: nat)
    requires Riders(unacked, capacityBits, unreliable, k) && count <= k
    ensures IncludeCount(unacked, RemainingAfterHeader(capacityBits), |unreliable|, count) == k
    decreases k - count
  {
    hide RemainingAfterHeader, MessageBits;
    if count < k {
      assert FitsAlone(unacked[count], capacityBits, unreliable);
      CountsRiders(unacked, capacityBits, unreliable, count + 1, k);
    }
  }

  lemma {:induction false} FindRiders(unacked: seq<Message>, capacityBits: nat, unreliable: seq<byte>, from: nat)
    returns (k: nat)
    requires from <= |unacked| && from <= MAX_PER_PACKET
    requires forall i | 0 <= i < from :: FitsAlone(unacked[i], capacityBits, unreliable)
    ensures Riders(unacked, capacityBits, unreliable, k)
    decreases |unacked| - from
  {
    hide FitsAlone;
    if from < |unacked| && from < MAX_PER_PACKET && FitsAlone(unacked[from], capacityBits, unreliable) {
      k := FindRiders(unacked, capacityBits, unreliable, from + 1);
    } else {
      k := from;
    }
  }

  /** The include loop holds each message against the same space, so what rides are
      the first messages that each fit alone, and the packet goes out exactly if they
      also fit together.  There is always such a `k`, and only one. */
  lemma IncludeLoop(e: Endpoint, capacityBits: nat, unreliable: seq<byte>, k: nat)
    ensures var p := BuildPacket(e, capacityBits, unreliable);
            && (Riders(e.unacked, capacityBits, unreliable, k) <==> |p.messages| == k)
            && (Riders(e.unacked, capacityBits, unreliable, k) ==>
                  && p.messages == e.unacked[..k]
                  && (Goes(e, p, capacityBits) <==>
                        && !e.sent.TooOld(ACK_WINDOW, e.sequence)
                        && MessagesBits(e.unacked[..k]) + 8 * |unreliable| + 88 <= capacityBits))
  {
    hide IncludeCount, MessagesBits, FitsAlone, Riders;
    var found := FindRiders(e.unacked, capacityBits, unreliable, 0);
    CountsRiders(e.unacked, capacityBits, unreliable, 0, found);
    if Riders(e.unacked, capacityBits, unreliable, k) {
      CountsRiders(e.unacked, capacityBits, unreliable, 0, k);
    }
  }

  lemma TwoBits(a: Message, b: Message)
    ensures MessagesBits([a, b]) == MessageBits(a) + MessageBits(b)
  {
    assert [a, b][1..] == [b] && [b][1..] == [];
    assert MessagesBits([b]) == MessageBits(b) + MessagesBits([]);
  }

  /** A run in which they do not: two messages of full size are queued, and the packet
      for them is built, numbered and recorded, but not sent. */
  lemma OverflowRun(first: seq<byte>, second: seq<byte>)
    requires |first| == MAX_MESSAGE_SIZE == |second|
    ensures var w := Run([Queue(true, 0, first), Queue(true, 0, second), Write(true, 8192, [])]);
            && w.Some? && |w.value.left.log| == 1 && !w.value.left.log[0].sent
            && w.value.left.log[0].packet.messages == w.value.left.queued == w.value.left.e.unacked
            && w.value.left.e.sequence == 1 && w.value.left.e.sent.Find(0).Some?
  {
    hide Run, QueueSide, WriteSide;
    var one, two, write := Queue(true, 0, first), Queue(true, 0, second), Write(true, 8192, []);
    BothQueued(first, second);
    RunThree(one, two, write);
    TooLongTogether(QueueSide(QueueSide(NewSide(), 0, first), 0, second), Message(0, 0, first), Message(1, 0, second));
  }

  lemma BothQueued(first: seq<byte>, second: seq<byte>)
    requires Acceptable(first) && Acceptable(second)
    ensures |QueueSide(NewSide(), 0, first).e.unacked| == 1
    ensures var unacked := [Message(0, 0, first), Message(1, 0, second)];
            QueueSide(QueueSide(NewSide(), 0, first), 0, second)
                == NewSide().(e := NewEndpoint().(unacked := unacked, nextId := 2), queued := unacked)
  {
    assert [Message(0, 0, first)] + [Message(1, 0, second)] == [Message(0, 0, first), Message(1, 0, second)];
  }

  lemma TooLongTogether(s: Side, a: Message, b: Message)
    requires s.e.unacked == [a, b] && s.log == [] && s.e.sequence == 0 && s.e.sent == EmptyWindow()
    requires |a.payload| == MAX_MESSAGE_SIZE == |b.payload|
    ensures var t := WriteSide(s, 8192, []);
            && |t.log| == 1 && !t.log[0].sent && t.log[0].packet.messages == [a, b] == t.e.unacked
            && t.queued == s.queued && t.e.sequence == 1 && t.e.sent.Find(0).Some?
  {
    hide IncludeCount, MessagesBits, AckBits;
    assert Riders(s.e.unacked, 8192, [], 2);
    IncludeLoop(s.e, 8192, [], 2);
    TwoBits(a, b);
    assert s.e.unacked[..2] == [a, b];
  }

  ghost predicate InInterval(k: u16, low: int, count: nat) {
    exists m :: low <= m < low + count && Wrap(m) == k
  }

  lemma {:induction false} InsideInterval(ids: set<u16>, low: int, count: nat)
    requires forall k <- ids :: InInterval(k, low, count)
    ensures |ids| <= count
  {
    if count > 0 {
      var last := Wrap(low + count - 1);
      forall k | k in ids - {last} ensures InInterval(k, low, count - 1) {
        var m :| low <= m < low + count && Wrap(m) == k;
      }
      InsideInterval(ids - {last}, low, count - 1);
      assert ids <= (ids - {last}) + {last};
    } else {
      assert ids == {};
    }
  }

  lemma LimitNear(s: Side, r: Side)
    requires Direction(s, r)
    ensures Limit(s.log, r.newest) <= |r.delivered| + MAX_PER_PACKET
  {
  }

  lemma FewBuffered(s: Side, r: Side)
    requires Direction(s, r)
    ensures |r.e.reorder| < MAX_PER_PACKET
    ensures forall k <- r.e.reorder :: r.e.reorder[k] in s.e.unacked
  {
    hide Direction, InInterval;
    var next := |r.delivered| + 1;
    forall k | k in r.e.reorder ensures InInterval(k, next, 7) && r.e.reorder[k] in s.e.unacked {
      BufferedNear(s, r, k);
    }
    InsideInterval(r.e.reorder.Keys, next, 7);
  }

  /** A buffered message is one of the seven after the next expected one. */
  lemma BufferedNear(s: Side, r: Side, k: u16)
    requires Direction(s, r) && k in r.e.reorder
    ensures InInterval(k, |r.delivered| + 1, 7) && r.e.reorder[k] in s.e.unacked
  {
    hide SentOk, ReceivedOk, AcksOk, SeenOk, LogOk, Limit, Wrap;
    LimitNear(s, r);
    var m :| Buffered(m, k, r.e.reorder[k], s.queued, |r.delivered|, Limit(s.log, r.newest));
    assert m != |r.delivered|;
    assert s.e.unacked[m - s.First()] == r.e.reorder[k];
  }
}
