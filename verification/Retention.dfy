/**
 What leaves the sender's queue was carried by a packet that the peer read: every
 message that has arrived can be traced to such a packet, in every run.
 */
module Retention {
  import opened Sequence
  import opened Bits
  import opened Reliability
  import opened ReliableRun

  /** Some packet that was read carried message number `m`. */
  ghost predicate Carried(m: int, log: seq<Written>, seen: set<nat>) {
    exists n :: n in seen && n < |log| && log[n].first <= m < log[n].first + |log[n].packet.messages|
  }

  ghost predicate CarriedOk(s: Side, r: Side) {
    forall m | 0 <= m < Limit(s.log, r.newest) :: Arrived(m, |r.delivered|, r.e.reorder) ==> Carried(m, s.log, r.seen)
  }

  /** Nothing past the limit has arrived. */
  lemma ArrivedBelow(expected: u16, reorder: map<u16, Message>, delivered: seq<Message>, queued: seq<Message>,
                     limit: int, m: int)
    requires DeliveryOk(expected, reorder, delivered, queued, limit) && limit <= |delivered| + MAX_PER_PACKET
    requires m < |delivered| + MAX_PER_PACKET && Arrived(m, |delivered|, reorder)
    ensures m < limit
  {
    if m >= |delivered| {
      var x :| Buffered(x, Wrap(m), reorder[Wrap(m)], queued, |delivered|, limit);
      WrapInjective(x, m);
    }
  }

  lemma {:induction false} BufferOnly(e: Endpoint, messages: seq<Message>, first: int,
                                      delivered: seq<Message>, queued: seq<Message>, limit: int, x: int)
    requires DeliveryOk(e.expected, e.reorder, delivered, queued, limit)
    requires 0 <= first && first + |messages| <= |queued| && messages == queued[first..first + |messages|]
    requires forall m | 0 <= m < |queued| :: queued[m].id == Wrap(m)
    requires first + |messages| <= limit <= |delivered| + MAX_PER_PACKET && |delivered| - first <= REACH
    requires x < limit && Arrived(x, |delivered|, BufferMessages(e, messages).reorder)
    ensures Arrived(x, |delivered|, e.reorder) || first <= x < first + |messages|
    decreases |messages|
  {
    hide DeliveryOk, Arrived, BufferMessage;
    if messages != [] {
      BufferOne(e, first, delivered, queued, limit);
      BufferOnly(BufferMessage(e, messages[0]), messages[1..], first + 1, delivered, queued, limit, x);
      if Arrived(x, |delivered|, BufferMessage(e, messages[0]).reorder) {
        OneOnly(e, first, delivered, queued, limit, x);
      }
    }
  }

  lemma OneOnly(e: Endpoint, m: int, delivered: seq<Message>, queued: seq<Message>, limit: int, x: int)
    requires DeliveryOk(e.expected, e.reorder, delivered, queued, limit)
    requires 0 <= m < |queued| && m < limit && limit <= |delivered| + MAX_PER_PACKET && |delivered| - m <= REACH
    requires queued[m].id == Wrap(m) && x < limit && Arrived(x, |delivered|, BufferMessage(e, queued[m]).reorder)
    ensures Arrived(x, |delivered|, e.reorder) || x == m
  {
    hide ReorderOk;
    NearbyDelivered(e, m, |delivered|);
    if Wrap(x) == Wrap(m) && x >= |delivered| { WrapInjective(x, m); }
  }

  lemma {:induction false} DrainOnly(e: Endpoint, delivered: seq<Message>, queued: seq<Message>, limit: int, x: int)
    requires DeliveryOk(e.expected, e.reorder, delivered, queued, limit) && limit <= |delivered| + MAX_PER_PACKET
    requires var (e', out) := DeliverInOrder(e); x < limit && Arrived(x, |delivered + out|, e'.reorder)
    ensures Arrived(x, |delivered|, e.reorder)
    decreases |e.reorder|
  {
    hide DeliveryOk, Arrived;
    if e.expected in e.reorder {
      var message := e.reorder[e.expected];
      DropShrinks(e.reorder, e.expected);
      DeliverOne(e, delivered, queued, limit);
      var e1 := e.(reorder := e.reorder - {e.expected}, expected := Wrap(e.expected + 1));
      var (e', out) := DeliverInOrder(e1);
      assert delivered + [message] + out == delivered + ([message] + out);
      DrainOnly(e1, delivered + [message], queued, limit, x);
      OneLeaves(e, delivered, queued, limit, x);
    } else {
      assert delivered + [] == delivered;
    }
  }

  lemma OneLeaves(e: Endpoint, delivered: seq<Message>, queued: seq<Message>, limit: int, x: int)
    requires DeliveryOk(e.expected, e.reorder, delivered, queued, limit) && e.expected in e.reorder
    requires Arrived(x, |delivered| + 1, e.reorder - {e.expected})
    ensures Arrived(x, |delivered|, e.reorder)
  {
  }

  lemma WriteCarries(s: Side, r: Side, capacityBits: nat, unreliable: seq<byte>)
    requires Direction(s, r) && CarriedOk(s, r)
    ensures CarriedOk(WriteSide(s, capacityBits, unreliable), r)
  {
    hide PendingOk, LogOk, SentOk, ReceivedOk, DeliveryOk, AcksOk, Arrived, AfterWrite, BuildPacket, Goes;
    var s' := WriteSide(s, capacityBits, unreliable);
    forall m | 0 <= m < Limit(s.log, r.newest) && Arrived(m, |r.delivered|, r.e.reorder)
      ensures Carried(m, s'.log, r.seen)
    {
      var n :| n in r.seen && n < |s.log| && s.log[n].first <= m < s.log[n].first + |s.log[n].packet.messages|;
      assert s'.log[n] == s.log[n];
    }
  }

  /** Taking in packet `n`: what has arrived had arrived before, or was in it. */
  lemma TakeOnly(e: Endpoint, entry: Written, delivered: seq<Message>, queued: seq<Message>, limit: int, x: int)
    requires DeliveryOk(e.expected, e.reorder, delivered, queued, limit)
    requires entry.first >= 0 && entry.first + |entry.packet.messages| <= |queued|
    requires entry.packet.messages == queued[entry.first..entry.first + |entry.packet.messages|]
    requires forall m | 0 <= m < |queued| :: queued[m].id == Wrap(m)
    requires entry.first + |entry.packet.messages| <= limit <= |delivered| + MAX_PER_PACKET
    requires |delivered| - entry.first <= REACH && x < limit
    requires var (e', out) := DeliverInOrder(BufferMessages(e, entry.packet.messages));
             Arrived(x, |delivered + out|, e'.reorder)
    ensures Arrived(x, |delivered|, e.reorder) || entry.first <= x < entry.first + |entry.packet.messages|
  {
    hide Arrived, BufferMessages, DeliverInOrder, DeliveryOk;
    BufferKeeps(e, entry.packet.messages, entry.first, delivered, queued, limit);
    DrainOnly(BufferMessages(e, entry.packet.messages), delivered, queued, limit, x);
    BufferOnly(e, entry.packet.messages, entry.first, delivered, queued, limit, x);
  }

  lemma CarriedStill(m: int, log: seq<Written>, seen: set<nat>, n: nat)
    requires Carried(m, log, seen)
    ensures Carried(m, log, seen + {n})
  {
    var k :| k in seen && k < |log| && log[k].first <= m < log[k].first + |log[k].packet.messages|;
    assert k in seen + {n};
  }

  /** `s` reads packet `n` of `r`. */
  lemma ReadCarries(s: Side, r: Side, n: nat)
    requires Direction(s, r) && Direction(r, s) && CarriedOk(r, s)
    requires n < |r.log| && OnTime(s, r, n)
    ensures CarriedOk(r, ReadSide(s, r.log[n].packet, n))
  {
    hide PendingOk, LogOk, SentOk, ReceivedOk, DeliveryOk, SeenOk, AcksOk, ProcessAcks, BufferMessages,
      DeliverInOrder, Limit, Refused, Arrived, Carried;
    var p := r.log[n].packet;
    EntryAt(r.log, r.queued, r.First(), n);
    if !Refused(s.e, p.sequence) {
      NoteKeeps(s.e, s.seen, s.newest, n);
      AcksFrame(NoteReceived(s.e, p.sequence), p.ack, p.ackBits, |p.ackBits|);
      var e2 := ProcessAcks(NoteReceived(s.e, p.sequence), p.ack, p.ackBits, |p.ackBits|);
      var limit := Limit(r.log, if n > s.newest then n else s.newest);
      PacketInReach(r, s, n);
      LimitGrows(s.e.expected, s.e.reorder, s.delivered, r.queued, Limit(r.log, s.newest), limit);
      IdsInOrder(r, s);
      var (e', out) := DeliverInOrder(BufferMessages(e2, p.messages));
      forall m | 0 <= m < limit && Arrived(m, |s.delivered + out|, e'.reorder) ensures Carried(m, r.log, s.seen + {n}) {
        TakeOnly(e2, r.log[n], s.delivered, r.queued, limit, m);
        if r.log[n].first <= m < r.log[n].first + |p.messages| {
          CarriedBy(m, r.log, s.seen, n);
        } else {
          ArrivedBelow(s.e.expected, s.e.reorder, s.delivered, r.queued, Limit(r.log, s.newest), m);
          CarriedStill(m, r.log, s.seen, n);
        }
      }
    }
  }

  lemma CarriedBy(m: int, log: seq<Written>, seen: set<nat>, n: nat)
    requires n < |log| && log[n].first <= m < log[n].first + |log[n].packet.messages|
    ensures Carried(m, log, seen + {n})
  {
    assert n in seen + {n};
  }

  ghost predicate Traced(w: World) {
    CarriedOk(w.left, w.right) && CarriedOk(w.right, w.left)
  }

  lemma QueueCarries(s: Side, r: Side, channel: byte, payload: seq<byte>)
    ensures CarriedOk(s, r) ==> CarriedOk(QueueSide(s, channel, payload), r)
    ensures CarriedOk(r, s) ==> CarriedOk(r, QueueSide(s, channel, payload))
  {
  }

  lemma StepTraces(w: World, step: Step)
    requires Inv(w) && Traced(w) && Enabled(w, step)
    ensures Traced(Apply(w, step))
  {
    hide Direction, QueueSide, CarriedOk;
    var s, peer := w.Reader(step.onLeft), w.Peer(step.onLeft);
    match step
    case Queue(_, channel, payload) => QueueCarries(s, peer, channel, payload);
    case Write(_, bits, unreliable) =>
      WriteCarries(s, peer, bits, unreliable);
      WriteFrames(s, peer, bits, unreliable);
    case Read(_, n) =>
      ReadCarries(s, peer, n);
      ReadFrames(s, peer, n);
  }

  lemma WriteFrames(s: Side, r: Side, bits: nat, unreliable: seq<byte>)
    requires CarriedOk(r, s)
    ensures CarriedOk(r, WriteSide(s, bits, unreliable))
  {
  }

  lemma ReadFrames(s: Side, r: Side, n: nat)
    requires CarriedOk(s, r) && n < |r.log|
    ensures CarriedOk(ReadSide(s, r.log[n].packet, n), r)
  {
  }

  lemma {:induction false} RunTraces(steps: seq<Step>)
    requires Run(steps).Some?
    ensures Traced(Run(steps).value)
  {
    if steps != [] {
      hide Inv, Apply, Traced;
      RunTraces(steps[..|steps| - 1]);
      RunKeeps(steps[..|steps| - 1]);
      StepTraces(Run(steps[..|steps| - 1]).value, steps[|steps| - 1]);
    }
  }

  /** A message leaves the sender's queue only after the peer has read a packet
      that carried it. */
  lemma RetiredWasRead(steps: seq<Step>, onLeft: bool, m: nat)
    requires Run(steps).Some? && m < Run(steps).value.Reader(onLeft).First()
    ensures var s, r := Run(steps).value.Reader(onLeft), Run(steps).value.Peer(onLeft);
            exists n :: n in r.seen && n < |s.log| && m < |s.queued| && s.queued[m] in s.log[n].packet.messages
  {
    RunKeeps(steps);
    RunTraces(steps);
    var s, r := Run(steps).value.Reader(onLeft), Run(steps).value.Peer(onLeft);
    DeliveredCarried(s, r, m);
  }

  lemma DeliveredCarried(s: Side, r: Side, m: nat)
    requires Direction(s, r) && CarriedOk(s, r) && m < |r.delivered|
    ensures exists n :: n in r.seen && n < |s.log| && m < |s.queued| && s.queued[m] in s.log[n].packet.messages
  {
    hide SentOk, ReceivedOk, AcksOk, SeenOk;
    assert Arrived(m, |r.delivered|, r.e.reorder);
    var n :| n in r.seen && n < |s.log| && s.log[n].first <= m < s.log[n].first + |s.log[n].packet.messages|;
    EntryAt(s.log, s.queued, s.First(), n);
    assert s.queued[m] == s.log[n].packet.messages[m - s.log[n].first];
  }

  /** What has been handed out is exactly every message up to the first one that no
      packet read so far carried. */
  lemma DeliveredExactly(steps: seq<Step>, onLeft: bool)
    requires Run(steps).Some?
    ensures var s, r := Run(steps).value.Reader(onLeft), Run(steps).value.Peer(onLeft);
            && (forall m | 0 <= m < |r.delivered| :: Carried(m, s.log, r.seen))
            && !Carried(|r.delivered|, s.log, r.seen)
  {
    hide Run, Direction, CarriedOk, Carried;
    RunKeeps(steps);
    RunTraces(steps);
    var s, r := Run(steps).value.Reader(onLeft), Run(steps).value.Peer(onLeft);
    assert Direction(s, r) && CarriedOk(s, r);
    forall m | 0 <= m < |r.delivered| ensures Carried(m, s.log, r.seen) { HandedCarried(s, r, m); }
    NextNotCarried(s, r);
  }

  lemma HandedCarried(s: Side, r: Side, m: nat)
    requires Direction(s, r) && CarriedOk(s, r) && m < |r.delivered|
    ensures Carried(m, s.log, r.seen)
  {
    hide SentOk, ReceivedOk, AcksOk, SeenOk, LogOk, PendingOk, Limit, Carried;
    assert Arrived(m, |r.delivered|, r.e.reorder);
  }

  lemma NextNotCarried(s: Side, r: Side)
    requires Direction(s, r)
    ensures !Carried(|r.delivered|, s.log, r.seen)
  {
    hide Direction, Carried, Arrived;
    NextMissing(s, r);
    if Carried(|r.delivered|, s.log, r.seen) { CarriedArrived(s, r, |r.delivered|); }
  }

  lemma NextMissing(s: Side, r: Side)
    requires Direction(s, r)
    ensures !Arrived(|r.delivered|, |r.delivered|, r.e.reorder)
  {
    hide SentOk, ReceivedOk, AcksOk, LogOk, PendingOk, SeenOk, ReorderOk, Wrap;
  }

  lemma CarriedArrived(s: Side, r: Side, m: nat)
    requires Direction(s, r) && Carried(m, s.log, r.seen)
    ensures Arrived(m, |r.delivered|, r.e.reorder)
  {
    hide SentOk, ReceivedOk, AcksOk, LogOk, PendingOk, DeliveryOk, Arrived;
    var n :| n in r.seen && n < |s.log| && s.log[n].first <= m < s.log[n].first + |s.log[n].packet.messages|;
    assert ArrivedAll(s.log[n], |r.delivered|, r.e.reorder);
  }
}
