/**
 What acks do, exactly: in every run the front of the sender's queue is the end of
 the furthest packet that was acked, and a packet counts as acked from the first ack
 or ack bit that names it while it is remembered.
 */
module Acknowledged {
  import opened Sequence
  import opened SequenceBuffers
  import opened Bits
  import opened Reliability
  import opened ReliableRun

  /** The ack field or one of its first `n` bits names packet number `k`. */
  ghost predicate Names(ack: u16, ackBits: seq<bool>, n: nat, k: nat)
    requires n <= |ackBits|
  {
    Wrap(k) == ack || exists i | 0 <= i < n :: ackBits[i] && Wrap(k) == Wrap(ack - (i + 1))
  }

  /** Of `sent` packets, those still remembered that are named. */
  ghost function NamedBy(sent: nat, ack: u16, ackBits: seq<bool>, n: nat): set<nat>
    requires n <= |ackBits|
  {
    set k: nat | k < sent && sent <= k + ACK_WINDOW && Names(ack, ackBits, n, k)
  }

  ghost function Hit(sent: nat, x: u16): set<nat> {
    set k: nat | k < sent && sent <= k + ACK_WINDOW && Wrap(k) == x
  }

  /** One past the last message of packet `k`. */
  function End(log: seq<Written>, k: nat): int
    requires k < |log|
  {
    log[k].first + |log[k].packet.messages|
  }

  ghost predicate EndsAt(log: seq<Written>, k: nat, first: int) {
    k < |log| && End(log, k) == first
  }

  ghost predicate EndsBy(log: seq<Written>, k: nat, first: int) {
    k < |log| && End(log, k) <= first
  }

  /** `first` is the furthest end of the packets in `acked`. */
  ghost predicate FrontIs(log: seq<Written>, acked: set<nat>, first: int) {
    && first >= 0 && (forall k <- acked :: EndsBy(log, k, first))
    && (first == 0 || exists k :: k in acked && EndsAt(log, k, first))
  }

  /** Every packet of the window is remembered, with the right flag. */
  ghost predicate FlagIs(sent: Window<SentPacket>, acked: set<nat>, k: nat) {
    Wrap(k) in sent.live && (sent.live[Wrap(k)].acked <==> k in acked)
  }

  ghost predicate FlagsAre(sent: Window<SentPacket>, log: seq<Written>, acked: set<nat>) {
    forall k: nat | k < |log| && |log| <= k + ACK_WINDOW :: FlagIs(sent, acked, k)
  }

  ghost predicate AckedOk(e: Endpoint, s: Side, acked: set<nat>) {
    && AckState(e, s, |s.queued|)
    && FlagsAre(e.sent, s.log, acked) && FrontIs(s.log, acked, |s.queued| - |e.unacked|)
  }

  // ---------------------------------------------------------------------------
  // One ack, and all of them

  lemma HitOne(sent: nat, x: u16, n: nat)
    requires n < sent && sent <= n + ACK_WINDOW && Wrap(n) == x
    ensures Hit(sent, x) == {n}
  {
    forall k | k in Hit(sent, x) ensures k == n { WrapInjective(k, n); }
  }

  lemma FlagOn(sent: Window<SentPacket>, log: seq<Written>, acked: set<nat>, n: nat)
    requires FlagsAre(sent, log, acked) && n < |log| && |log| <= n + ACK_WINDOW && Wrap(n) in sent.live
    ensures FlagsAre(sent.(live := sent.live[Wrap(n) := sent.live[Wrap(n)].(acked := true)]), log, acked + {n})
  {
    hide Wrap;
    var sent' := sent.(live := sent.live[Wrap(n) := sent.live[Wrap(n)].(acked := true)]);
    forall k: nat | k < |log| && |log| <= k + ACK_WINDOW ensures FlagIs(sent', acked + {n}, k) {
      assert FlagIs(sent, acked, k);
      if Wrap(k) == Wrap(n) { WrapInjective(k, n); }
    }
  }

  lemma FrontOn(log: seq<Written>, acked: set<nat>, first: int, n: nat)
    requires FrontIs(log, acked, first) && n < |log| && End(log, n) >= 0
    ensures FrontIs(log, acked + {n}, if End(log, n) > first then End(log, n) else first)
  {
    var first' := if End(log, n) > first then End(log, n) else first;
    assert EndsAt(log, n, End(log, n));
    if first' != 0 && first' == first {
      var k :| k in acked && EndsAt(log, k, first);
      assert k in acked + {n};
    }
  }

  /** An ack marks the packet it names, if that is remembered, and moves the front to
      the end of that packet, if it was not there already. */
  lemma OneAck(e: Endpoint, s: Side, acked: set<nat>, x: u16)
    requires AckedOk(e, s, acked)
    ensures AckedOk(OnPacketAcked(e, x), s, acked + Hit(|s.log|, x))
  {
    hide AckState, FlagsAre, FrontIs, Wrap, RemoveIds;
    if x in e.sent.live {
      var n := Recalled(e, s, acked, x);
      HitOne(|s.log|, x, n);
      if e.sent.live[x].acked {
        assert acked + {n} == acked;
      } else {
        RetirePacket(e, s, |s.queued|, x, n);
        ReachOf(e, s, n);
        FlagOn(e.sent, s.log, acked, n);
        FrontOn(s.log, acked, |s.queued| - |e.unacked|, n);
      }
    } else {
      NoneRecalled(e, s, acked, x);
    }
  }

  lemma Recalled(e: Endpoint, s: Side, acked: set<nat>, x: u16) returns (n: nat)
    requires AckedOk(e, s, acked) && x in e.sent.live
    ensures Remembered(s.log, n, x, e.sent.live[x]) && n < |s.log| && |s.log| <= n + ACK_WINDOW && Wrap(n) == x
    ensures e.sent.live[x].acked <==> n in acked
  {
    hide PendingOk, LogOk, FrontIs, Wrap;
    n :| Remembered(s.log, n, x, e.sent.live[x]);
    assert FlagIs(e.sent, acked, n);
  }

  lemma NoneRecalled(e: Endpoint, s: Side, acked: set<nat>, x: u16)
    requires AckedOk(e, s, acked) && x !in e.sent.live
    ensures acked + Hit(|s.log|, x) == acked
  {
    hide AckState, FrontIs, Wrap;
    forall k: nat | k < |s.log| && |s.log| <= k + ACK_WINDOW ensures Wrap(k) != x { assert FlagIs(e.sent, acked, k); }
    assert Hit(|s.log|, x) == {};
  }

  lemma ReachOf(e: Endpoint, s: Side, n: nat)
    requires AckState(e, s, |s.queued|) && n < |s.log| && |s.log| <= n + ACK_WINDOW
    ensures 0 <= End(s.log, n) <= |s.queued|
  {
    hide PendingOk, LogOk, SentOk;
    WithinReach(s.log, s.queued, |s.queued| - |e.unacked|, n);
  }

  lemma NamedNone(sent: nat, ack: u16, ackBits: seq<bool>)
    ensures NamedBy(sent, ack, ackBits, 0) == Hit(sent, ack)
  {
    hide Wrap;
  }

  lemma NamedOne(sent: nat, ack: u16, ackBits: seq<bool>, n: nat)
    requires 0 < n <= |ackBits|
    ensures NamedBy(sent, ack, ackBits, n)
         == NamedBy(sent, ack, ackBits, n - 1) + (if ackBits[n - 1] then Hit(sent, Wrap(ack - n)) else {})
  {
    hide Wrap;
    forall k: nat ensures Names(ack, ackBits, n, k)
                     <==> Names(ack, ackBits, n - 1, k) || (ackBits[n - 1] && Wrap(k) == Wrap(ack - n))
    {
      if ackBits[n - 1] && Wrap(k) == Wrap(ack - n) { assert ackBits[n - 1] && Wrap(k) == Wrap(ack - ((n - 1) + 1)); }
    }
  }

  /** Acting on an ack field and its bits marks exactly what they name. */
  lemma {:induction false} AllAcks(e: Endpoint, s: Side, acked: set<nat>, ack: u16, ackBits: seq<bool>, n: nat)
    requires AckedOk(e, s, acked) && n <= |ackBits|
    ensures AckedOk(ProcessAcks(e, ack, ackBits, n), s, acked + NamedBy(|s.log|, ack, ackBits, n))
  {
    hide AckedOk, OnPacketAcked, NamedBy, Hit, Wrap;
    if n == 0 {
      NamedNone(|s.log|, ack, ackBits);
      OneAck(e, s, acked, ack);
    } else {
      NamedOne(|s.log|, ack, ackBits, n);
      AllAcks(e, s, acked, ack, ackBits, n - 1);
      var before, named := ProcessAcks(e, ack, ackBits, n - 1), NamedBy(|s.log|, ack, ackBits, n - 1);
      if ackBits[n - 1] {
        OneAck(before, s, acked + named, Wrap(ack - n));
        assert acked + named + Hit(|s.log|, Wrap(ack - n)) == acked + (named + Hit(|s.log|, Wrap(ack - n)));
      } else {
        assert named + {} == named;
      }
    }
  }

  // ---------------------------------------------------------------------------
  // Steps

  lemma StateOf(s: Side, r: Side)
    requires Direction(s, r)
    ensures AckState(s.e, s, |s.queued|)
  {
    hide LogOk, SentOk, ReceivedOk, DeliveryOk, SeenOk, AcksOk;
  }

  lemma SameAcked(e: Endpoint, e': Endpoint, s: Side, s': Side, acked: set<nat>)
    requires AckedOk(e, s, acked) && e'.sent == e.sent && e'.unacked == e.unacked
    requires s'.log == s.log && s'.queued == s.queued && s'.e.nextId == s.e.nextId
    ensures AckedOk(e', s', acked)
  {
    hide PendingOk, LogOk, SentOk, FlagsAre, FrontIs;
  }

  lemma QueueMarks(s: Side, r: Side, channel: byte, payload: seq<byte>, acked: set<nat>)
    requires Direction(QueueSide(s, channel, payload), r) && AckedOk(s.e, s, acked)
    ensures var s' := QueueSide(s, channel, payload); AckedOk(s'.e, s', acked)
  {
    hide Direction, AckState, FlagsAre, FrontIs;
    StateOf(QueueSide(s, channel, payload), r);
  }

  lemma WriteMarks(s: Side, r: Side, capacityBits: nat, unreliable: seq<byte>, acked: set<nat>)
    requires Direction(s, r) && Direction(r, s) && AckedOk(s.e, s, acked)
    ensures var s' := WriteSide(s, capacityBits, unreliable); AckedOk(s'.e, s', acked)
  {
    hide Direction, AckState, FlagsAre, FrontIs, IncludeCount, AckBits, Window.Insert,
      Window.TooOld;
    var s' := WriteSide(s, capacityBits, unreliable);
    WriteKeeps(s, r, capacityBits, unreliable);
    StateOf(s', r);
    NextNumber(s, r);
    FlagsGrow(s, s'.log[|s.log|], acked);
    FrontGrows(s.log, s'.log[|s.log|], acked, s.First());
  }

  lemma NextNumber(s: Side, r: Side)
    requires Direction(s, r)
    ensures s.e.sequence == Wrap(|s.log|) && SentOk(s.e.sent, s.log)
  {
    hide SentOk, LogOk, PendingOk, ReceivedOk, DeliveryOk, SeenOk, AcksOk, Wrap;
  }

  lemma FlagsGrow(s: Side, w: Written, acked: set<nat>)
    requires SentOk(s.e.sent, s.log) && FlagsAre(s.e.sent, s.log, acked) && FrontIs(s.log, acked, s.First())
    requires s.e.sequence == Wrap(|s.log|)
    ensures var e' := AfterWrite(s.e, w.packet); FlagsAre(e'.sent, s.log + [w], acked)
  {
    hide SentOk, Wrap, Ahead, Greater, Ids;
    SentAppends(s.e.sent, s.log, w);
    Advancing(s.e.sent, s.log);
    var e' := AfterWrite(s.e, w.packet);
    forall k: nat | k < |s.log| + 1 && |s.log| + 1 <= k + ACK_WINDOW ensures FlagIs(e'.sent, acked, k) {
      if k < |s.log| {
        assert FlagIs(s.e.sent, acked, k);
        AheadIsDifference(|s.log|, k);
        if Wrap(k) == Wrap(|s.log|) { WrapInjective(k, |s.log|); }
      } else {
        assert k in acked ==> EndsBy(s.log, k, s.First());
      }
    }
  }

  lemma Advancing(sent: Window<SentPacket>, log: seq<Written>)
    requires SentOk(sent, log)
    ensures sent.Advances(Wrap(|log|))
  {
    if log != [] { GreaterIsOrder(|log|, |log| - 1); }
  }

  lemma FrontGrows(log: seq<Written>, w: Written, acked: set<nat>, first: int)
    requires FrontIs(log, acked, first)
    ensures FrontIs(log + [w], acked, first)
  {
    forall k | k in acked ensures EndsBy(log + [w], k, first) { assert EndsBy(log, k, first); }
    if first != 0 {
      var k :| k in acked && EndsAt(log, k, first);
      assert EndsAt(log + [w], k, first);
    }
  }

  /** Reading a packet that is not refused marks exactly what its acks name. */
  lemma ReadMarks(s: Side, r: Side, n: nat, acked: set<nat>)
    requires Direction(s, r) && Direction(r, s) && AckedOk(s.e, s, acked)
    requires n < |r.log| && OnTime(s, r, n) && !Refused(s.e, r.log[n].packet.sequence)
    ensures var p := r.log[n].packet;
            var s' := ReadSide(s, p, n);
            AckedOk(s'.e, s', acked + NamedBy(|s.log|, p.ack, p.ackBits, |p.ackBits|))
  {
    hide PendingOk, LogOk, SentOk, ReceivedOk, DeliveryOk, SeenOk, AcksOk, ProcessAcks, BufferMessages, DeliverInOrder,
      Refused, AckedOk, NamedBy, Limit;
    var p := r.log[n].packet;
    EntryAt(r.log, r.queued, r.First(), n);
    var e1 := NoteReceived(s.e, p.sequence);
    NoteKeeps(s.e, s.seen, s.newest, n);
    SameAcked(s.e, e1, s, s, acked);
    AllAcks(e1, s, acked, p.ack, p.ackBits, |p.ackBits|);
    AcksFrame(e1, p.ack, p.ackBits, |p.ackBits|);
    var e2 := ProcessAcks(e1, p.ack, p.ackBits, |p.ackBits|);
    MessagesKeep(e2, r, s, n);
    var s' := ReadSide(s, p, n);
    SameAcked(e2, s'.e, s, s', acked + NamedBy(|s.log|, p.ack, p.ackBits, |p.ackBits|));
  }

  /** What a packet read on time names: the newest packet its writer had read, and
      each one further back whose bit is set. */
  lemma NamesExactly(s: Side, r: Side, n: nat, k: nat)
    requires Direction(s, r) && n < |r.log| && r.log[n].ackOf >= 0 && OnTime(s, r, n)
    requires k < |s.log| && |s.log| <= k + ACK_WINDOW
    ensures var w := r.log[n];
            (Names(w.packet.ack, w.packet.ackBits, |w.packet.ackBits|, k)
             <==> k == w.ackOf || exists i | 0 <= i < ACK_BITS :: w.packet.ackBits[i] && k == w.ackOf - (i + 1))
  {
    hide PendingOk, LogOk, SentOk, ReceivedOk, DeliveryOk, SeenOk, Wrap;
    var w := r.log[n];
    assert AckOk(w, r.seen);
    NewestSeen(s, r, w.ackOf);
    if Wrap(k) == w.packet.ack { WrapInjective(k, w.ackOf); }
    forall i | 0 <= i < ACK_BITS && w.packet.ackBits[i]
      ensures Wrap(k) == Wrap(w.packet.ack - (i + 1)) <==> k == w.ackOf - (i + 1)
    {
      WrapShift(w.ackOf, i + 1);
      if Wrap(k) == Wrap(w.ackOf - (i + 1)) { WrapInjective(k, w.ackOf - (i + 1)); }
    }
  }

  lemma NewestSeen(s: Side, r: Side, k: int)
    requires Direction(s, r) && k in r.seen
    ensures k < |s.log|
  {
    hide PendingOk, LogOk, SentOk, ReceivedOk, DeliveryOk, AcksOk, ArrivedAll;
  }

  /** A packet's acks say exactly which of the last 33 packets its writer has read. */
  lemma WritesExactly(s: Side, r: Side, capacityBits: nat, unreliable: seq<byte>)
    requires Direction(r, s)
    ensures var p := WriteSide(s, capacityBits, unreliable).log[|s.log|].packet;
            && |p.ackBits| == ACK_BITS
            && (s.seen != {} ==> s.newest >= 0 && s.newest in s.seen && p.ack == Wrap(s.newest))
            && forall i | 0 <= i < ACK_BITS :: p.ackBits[i] <==> s.newest - (i + 1) in s.seen
  {
    hide PendingOk, LogOk, SentOk, DeliveryOk, SeenOk, AcksOk, AckBits, IncludeCount;
    var p := BuildPacket(s.e, capacityBits, unreliable);
    assert p.ackBits == AckBits(s.e);
    forall i | 0 <= i < ACK_BITS ensures p.ackBits[i] <==> s.newest - (i + 1) in s.seen {
      BitExactly(s.e, s.seen, s.newest, i);
    }
    if s.seen != {} { assert s.newest in Marks(s.seen); }
  }

  lemma BitExactly(e: Endpoint, seen: set<nat>, newest: int, i: nat)
    requires ReceivedOk(e.received, e.hasReceived, e.highest, seen, newest) && i < ACK_BITS
    ensures AckBits(e)[i] <==> newest - (i + 1) in seen
  {
    hide Tracks, Wrap;
    if seen != {} {
      WrapShift(newest, i + 1);
      TracksFinds(e.received, ACK_WINDOW, Marks(seen), newest, newest - (i + 1));
    }
  }

  /** A packet is refused exactly if it was read before, or is 1024 or more behind the
      newest that was. */
  lemma RefusedExactly(e: Endpoint, seen: set<nat>, newest: int, n: nat)
    requires ReceivedOk(e.received, e.hasReceived, e.highest, seen, newest)
    requires newest >= 0 ==> -32768 < n - newest < 32768
    ensures Refused(e, Wrap(n)) <==> n in seen || (seen != {} && n <= newest - ACK_WINDOW)
  {
    hide Tracks, Wrap, Greater, Ahead;
    if seen != {} {
      InsertTracks(e.received, ACK_WINDOW, Marks(seen), newest, n, ());
      TracksFinds(e.received, ACK_WINDOW, Marks(seen), newest, n);
    }
  }

  // ---------------------------------------------------------------------------
  // Whole runs

  /** The packets of one side that were acked in a run. */
  ghost function AckedIn(steps: seq<Step>, onLeft: bool): set<nat>
    requires Run(steps).Some?
  {
    if steps == [] then {}
    else
      var w, step := Run(steps[..|steps| - 1]).value, steps[|steps| - 1];
      AckedIn(steps[..|steps| - 1], onLeft) + AckedBy(w, step, onLeft)
  }

  ghost function AckedBy(w: World, step: Step, onLeft: bool): set<nat>
    requires Enabled(w, step)
  {
    var s, r := w.Reader(onLeft), w.Peer(onLeft);
    if step.Read? && step.onLeft == onLeft && !Refused(s.e, r.log[step.number].packet.sequence) then
      var p := r.log[step.number].packet;
      NamedBy(|s.log|, p.ack, p.ackBits, |p.ackBits|)
    else {}
  }

  lemma StepMarks(w: World, step: Step, onLeft: bool, acked: set<nat>)
    requires Inv(w) && Enabled(w, step) && AckedOk(w.Reader(onLeft).e, w.Reader(onLeft), acked)
    ensures var s' := Apply(w, step).Reader(onLeft); AckedOk(s'.e, s', acked + AckedBy(w, step, onLeft))
  {
    hide Direction, QueueSide, WriteSide, AckedOk, NamedBy, Refused, OnTime, NullAckHarmless;
    var s, r := w.Reader(onLeft), w.Peer(onLeft);
    assert acked + {} == acked;
    if step.onLeft == onLeft {
      match step
      case Queue(_, channel, payload) =>
        StepKeeps(w, step);
        QueueMarks(s, r, channel, payload, acked);
      case Write(_, bits, unreliable) => WriteMarks(s, r, bits, unreliable, acked);
      case Read(_, n) => if !Refused(s.e, r.log[n].packet.sequence) { ReadMarks(s, r, n, acked); }
    }
  }

  lemma {:induction false} RunMarks(steps: seq<Step>, onLeft: bool)
    requires Run(steps).Some?
    ensures var s := Run(steps).value.Reader(onLeft); AckedOk(s.e, s, AckedIn(steps, onLeft))
  {
    hide Inv, Apply, Enabled, AckedOk, AckedBy;
    if steps == [] {
      NothingAcked(onLeft);
    } else {
      var before, step := steps[..|steps| - 1], steps[|steps| - 1];
      RunMarks(before, onLeft);
      RunKeeps(before);
      StepMarks(Run(before).value, step, onLeft, AckedIn(before, onLeft));
    }
  }

  lemma NothingAcked(onLeft: bool)
    ensures Run([]).Some? && AckedIn([], onLeft) == {}
    ensures AckedOk(NewSide().e, NewSide(), {}) && Run([]).value.Reader(onLeft) == NewSide()
  {
  }

  /** In every run, under any loss, duplication and reordering: the front of the queue
      is the furthest end of an acked packet, and every packet of the window has the
      flag that says whether it was acked. */
  lemma FrontIsAcked(steps: seq<Step>, onLeft: bool)
    requires Run(steps).Some?
    ensures var s, acked := Run(steps).value.Reader(onLeft), AckedIn(steps, onLeft);
            FrontIs(s.log, acked, s.First()) && FlagsAre(s.e.sent, s.log, acked)
  {
    hide Run, AckedIn, FrontIs, FlagsAre, AckState;
    RunMarks(steps, onLeft);
  }
}
