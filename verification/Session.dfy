/**
 One replication session: the server encodes snapshots against the last acked
 frame, the network loses, duplicates and reorders them, the client decodes
 against its own ring and acks the newest tick it has.
 */
module Session {
  import opened Sequence
  import opened SequenceBuffers
  import opened Bits
  import opened Snapshot
  import opened Recording
  import opened Replication

  datatype Client = Client(ring: seq<SnapshotFrame>, latest: u32, hasSnapshot: bool)

  /** The client's reaction to a packet: its new state, and whether it accepted. */
  function ApplySnapshot(client: Client, bits: seq<bool>): (r: (Client, bool)) {
    var c := Cursor(bits, 0, false);
    var (header, d) := PeekHeader(c);
    if d.overflow then (client, false)
    else
      var baseline := if header.full then None else Get(client.ring, header.baseTick);
      if !header.full && baseline.None? then (client, false)
      else
        match DecodeSnapshot(c, baseline)
        case None => (client, false)
        case Some(s) =>
          var tick := s.header.tick;
          (Client(Store(client.ring, SnapshotFrame(tick, true, s.states)),
                  if !client.hasSnapshot || Greater32(tick, client.latest) then tick else client.latest,
                  true), true)
  }

  /** A snapshot as sent: its bits, the frame recorded for it and its baseline. */
  datatype Sent = Sent(bits: seq<bool>, base: Option<SnapshotFrame>, frame: SnapshotFrame)

  /** `applied` are the packets the client accepted, `newest` the last delivered. */
  datatype State = State(server: Server, acked: u32, client: Client, sent: seq<Sent>, acks: set<u32>,
                         applied: set<nat>, newest: int)

  datatype Step =
    | Encode(falloff: real, budgetBits: nat, scene: Scene, choice: seq<bool>, padding: nat)
    | Deliver(number: nat)
    | SendAck
    | ReceiveAck(tick: u32)

  function Start(serverFrames: nat, clientFrames: nat): State {
    var blank := SnapshotFrame(0, false, []);
    State(Server(seq(serverFrames, _ => blank), 0, false, []), 0,
          Client(seq(clientFrames, _ => blank), 0, false), [], {}, {}, -1)
  }

  /** Each entity keeps one kind, and it fits two bits. */
  ghost predicate KindsFixed(kindOf: u32 -> u8, states: seq<EntityWireState>) {
    forall s <- states :: s.kind == kindOf(s.id) && s.kind < 4
  }

  /** No more removals and updates than the decoder takes, as `BudgetHolds` shows for
      every budget of up to 65535 bytes. */
  ghost predicate CountsFit(server: Server, v: Scene, choice: seq<bool>) {
    |choice| == |v.current| ==>
      var base := Baseline(server, v.tick);
      |Removed(base, v.current)| <= MAX_REMOVED && |Updates(base, v.current, choice, |v.current|)| < 0x1_0000
  }

  ghost predicate Enabled(kindOf: u32 -> u8, s: State, step: Step) {
    match step
    case Encode(falloff, budget, v, choice, _) =>
      && v.Valid() && RingSorted(s.server.history)
      && KindsFixed(kindOf, v.current)
      && (s.sent != [] ==> s.sent[|s.sent| - 1].frame.tick < v.tick)
      && Chooses(s.server, falloff, budget, v, choice) && CountsFit(s.server, v, choice)
    case Deliver(n) => n < |s.sent|
    case SendAck => true
    case ReceiveAck(t) => t in s.acks
  }

  ghost function EncodeStep(s: State, falloff: real, v: Scene, choice: seq<bool>, padding: nat): State
    requires v.Valid() && RingSorted(s.server.history) && |choice| == |v.current|
  {
    BaselineSorted(s.server, v.tick);
    var base := Baseline(s.server, v.tick);
    s.(server := AfterEncode(s.server, falloff, v, choice),
       sent := s.sent + [Sent(WireBits(v, base, choice) + FromNat(0, padding), base, FrameOf(s.server, v, choice))])
  }

  function DeliverStep(s: State, n: nat): State
    requires n < |s.sent|
  {
    var (client, accepted) := ApplySnapshot(s.client, s.sent[n].bits);
    s.(client := client, applied := if accepted then s.applied + {n} else s.applied, newest := n)
  }

  /** The server ignores a zero and a repeated ack. */
  function ReceiveAckStep(s: State, t: u32): State {
    if t == 0 || t == s.acked then s else s.(acked := t, server := Acknowledge(s.server, t))
  }

  ghost function Apply(kindOf: u32 -> u8, s: State, step: Step): State
    requires Enabled(kindOf, s, step)
  {
    match step
    case Encode(falloff, budget, v, choice, padding) =>
      ChoiceSize(s.server, falloff, budget, v, choice);
      EncodeStep(s, falloff, v, choice, padding)
    case Deliver(n) => DeliverStep(s, n)
    case SendAck => s.(acks := s.acks + {s.client.latest})
    case ReceiveAck(t) => ReceiveAckStep(s, t)
  }

  lemma ChoiceSize(server: Server, falloff: real, budget: nat, v: Scene, choice: seq<bool>)
    requires v.Valid() && RingSorted(server.history) && Chooses(server, falloff, budget, v, choice)
    ensures |choice| == |v.current|
  {
  }

  ghost function Run(kindOf: u32 -> u8, serverFrames: nat, clientFrames: nat, steps: seq<Step>): Option<State> {
    if steps == [] then Some(Start(serverFrames, clientFrames))
    else
      var before, step := Run(kindOf, serverFrames, clientFrames, steps[..|steps| - 1]), steps[|steps| - 1];
      if before.Some? && Enabled(kindOf, before.value, step) then Some(Apply(kindOf, before.value, step)) else None
  }

  // ---------------------------------------------------------------------------
  // Safety

  /** Decoding the packet against its own baseline gives its own frame. */
  ghost predicate PacketOk(p: Sent) {
    && p.frame.valid && (p.base.Some? ==> p.base.value.valid)
    && var r := DecodeSnapshot(Cursor(p.bits, 0, false), p.base);
       && r.Some? && r.value.states == p.frame.states
       && r.value.header == Header(p.frame.tick, p.base.None?, if p.base.Some? then p.base.value.tick else 0)
  }

  ghost predicate IsSent(sent: seq<Sent>, f: SnapshotFrame) {
    exists i | 0 <= i < |sent| :: sent[i].frame == f
  }

  ghost predicate SentOk(kindOf: u32 -> u8, sent: seq<Sent>) {
    && (forall i | 0 <= i < |sent| :: PacketOk(sent[i]))
    && (forall i | 0 <= i < |sent| :: Sorted(sent[i].frame.states) && KindsFixed(kindOf, sent[i].frame.states))
    && (forall i | 0 <= i < |sent| :: sent[i].base.Some? ==> IsSent(sent, sent[i].base.value))
    && (forall i, j | 0 <= i < j < |sent| :: sent[i].frame.tick < sent[j].frame.tick)
  }

  /** Every valid frame of a ring is the frame the server recorded for its tick. */
  ghost predicate RingOk(ring: seq<SnapshotFrame>, sent: seq<Sent>) {
    forall f <- ring :: if f.valid then IsSent(sent, f) else f.states == []
  }

  ghost predicate Inv(kindOf: u32 -> u8, s: State) {
    SentOk(kindOf, s.sent) && RingOk(s.server.history, s.sent) && RingOk(s.client.ring, s.sent)
  }

  lemma RingGrows(ring: seq<SnapshotFrame>, sent: seq<Sent>, p: Sent)
    requires RingOk(ring, sent)
    ensures RingOk(ring, sent + [p])
  {
    forall f | f in ring && f.valid ensures IsSent(sent + [p], f) {
      var i :| 0 <= i < |sent| && sent[i].frame == f;
      assert (sent + [p])[i].frame == f;
    }
  }

  lemma StoreKeepsRing(ring: seq<SnapshotFrame>, sent: seq<Sent>, f: SnapshotFrame)
    requires RingOk(ring, sent) && f.valid && IsSent(sent, f)
    ensures RingOk(Store(ring, f), sent)
  {
    forall g | g in Store(ring, f) ensures if g.valid then IsSent(sent, g) else g.states == [] {
      if g != f { assert g in ring; }
    }
  }

  /** Fixed kinds are stable kinds, in the baseline and in the frame recorded. */
  lemma FixedIsStable(kindOf: u32 -> u8, base: Option<SnapshotFrame>, current: seq<EntityWireState>, sent: seq<bool>)
    requires KindsFixed(kindOf, current) && (base.Some? ==> KindsFixed(kindOf, base.value.states))
    requires |sent| == |current| && Sorted(current)
    ensures KindsStable(base, current, sent)
    ensures KindsFixed(kindOf, Recorded(base, current, sent, |current|))
    ensures Sorted(Recorded(base, current, sent, |current|))
  {
    RecordedIs(base, current, sent, |current|);
    var recorded := Recorded(base, current, sent, |current|);
    hide Recorded, Sorted, LowerBound;
    forall x | x in recorded ensures x.kind == kindOf(x.id) && x.kind < 4 {
      var i :| 0 <= i < |current| && RecordAt(base, current, sent, i) == Some(x);
      assert current[i] in current;
    }
    forall i | 0 <= i < |current| ensures current[i].kind == kindOf(current[i].id) && current[i].kind < 4 {
      assert current[i] in current;
    }
  }

  /** A packet as encoded decodes to the frame recorded for it. */
  lemma EncodedOk(kindOf: u32 -> u8, s: State, falloff: real, budget: nat, v: Scene, choice: seq<bool>, padding: nat)
    requires Inv(kindOf, s) && Enabled(kindOf, s, Encode(falloff, budget, v, choice, padding))
    requires |choice| == |v.current|
    ensures var p := EncodeStep(s, falloff, v, choice, padding).sent[|s.sent|];
            && PacketOk(p) && Sorted(p.frame.states) && KindsFixed(kindOf, p.frame.states)
            && p.frame.tick == v.tick && p.frame.valid && p.base == Baseline(s.server, v.tick)
            && (p.base.Some? ==> IsSent(s.sent, p.base.value))
  {
    BaselineSorted(s.server, v.tick);
    BudgetHolds(s.server, falloff, budget, v, choice);
    var base := Baseline(s.server, v.tick);
    if base.Some? { var i :| 0 <= i < |s.sent| && s.sent[i].frame == base.value; }
    FixedIsStable(kindOf, base, v.current, choice);
    var ink := WireBits(v, base, choice);
    var c := Cursor(ink + FromNat(0, padding), 0, false);
    assert Before(c, ink);
    RemovedAscends(base, v.current);
    UpdatesAre(base, v.current, choice, |v.current|);
    hide Baseline, Before, Chooses, Sorted, KindsStable, KindsFixed, DecodeSnapshot, SnapshotBits, Removed, Updates,
      Recorded, Ascending, InOrder;
    SnapshotRoundTrip(c, v.tick, base, v.lastInput, v.viewer, v.current, choice);
  }

  lemma EncodeKeeps(kindOf: u32 -> u8, s: State, falloff: real, budget: nat, v: Scene, choice: seq<bool>, padding: nat)
    requires Inv(kindOf, s) && Enabled(kindOf, s, Encode(falloff, budget, v, choice, padding))
    requires |choice| == |v.current|
    ensures Inv(kindOf, EncodeStep(s, falloff, v, choice, padding))
  {
    hide Chooses, CountsFit, KindsFixed, WireBits, Recorded, CarryOver, Ranking, Baseline, PacketOk, SentOk, RingOk,
      IsSent, Sorted, Store;
    EncodedOk(kindOf, s, falloff, budget, v, choice, padding);
    var s' := EncodeStep(s, falloff, v, choice, padding);
    var p := s'.sent[|s.sent|];
    RingGrows(s.server.history, s.sent, p);
    RingGrows(s.client.ring, s.sent, p);
    NewestIsSent(s.sent, p);
    StoreKeepsRing(s.server.history, s'.sent, p.frame);
    SentGrows(kindOf, s.sent, p);
  }

  lemma NewestIsSent(sent: seq<Sent>, p: Sent)
    ensures IsSent(sent + [p], p.frame)
  {
    assert (sent + [p])[|sent|].frame == p.frame;
  }

  lemma SentGrows(kindOf: u32 -> u8, sent: seq<Sent>, p: Sent)
    requires SentOk(kindOf, sent) && PacketOk(p) && Sorted(p.frame.states) && KindsFixed(kindOf, p.frame.states)
    requires p.base.Some? ==> IsSent(sent, p.base.value)
    requires sent != [] ==> sent[|sent| - 1].frame.tick < p.frame.tick
    ensures SentOk(kindOf, sent + [p])
  {
    hide PacketOk, Sorted, KindsFixed;
    var sent' := sent + [p];
    forall i | 0 <= i < |sent'| && sent'[i].base.Some? ensures IsSent(sent', sent'[i].base.value) {
      var j :| 0 <= j < |sent| && sent[j].frame == sent'[i].base.value;
      assert sent'[j].frame == sent'[i].base.value;
    }
  }

  /** The header that the client peeks at is the one it decodes. */
  lemma PeekIsDecoded(c: Cursor, baseline: Option<SnapshotFrame>)
    requires DecodeSnapshot(c, baseline).Some?
    ensures PeekHeader(c).0 == DecodeSnapshot(c, baseline).value.header
    ensures !PeekHeader(c).1.overflow
  {
    var (h, d) := PeekHeader(c);
    OverflowStays(d);
  }

  lemma OverflowStays(c: Cursor)
    ensures c.overflow ==> c.TakeU32().1.overflow && c.TakeU32().1.TakeVarint().1.overflow
  {
    if c.overflow { GroupsStay(c.TakeU32().1, 5); }
  }

  lemma {:induction false} GroupsStay(c: Cursor, rounds: nat)
    requires c.overflow
    ensures c.TakeGroups(rounds).1.overflow
    decreases rounds
  {
    if rounds > 0 { GroupsStay(c.TakeU8().1, rounds - 1); }
  }

  /** Whatever packet arrives, in whatever order: if the client accepts it, it
      holds exactly the frame the server recorded.  It accepts it exactly when the
      packet is full or it still holds the baseline. */
  lemma AcceptsExactly(kindOf: u32 -> u8, s: State, n: nat)
    requires Inv(kindOf, s) && n < |s.sent|
    ensures var p := s.sent[n];
            var (client, accepted) := ApplySnapshot(s.client, p.bits);
            && (accepted <==> p.base.None? || Get(s.client.ring, p.base.value.tick).Some?)
            && (accepted ==> client.ring == Store(s.client.ring, p.frame) && client.hasSnapshot
                             && client.latest == if !s.client.hasSnapshot || Greater32(p.frame.tick, s.client.latest)
                                                 then p.frame.tick else s.client.latest)
            && (!accepted ==> client == s.client)
  {
    hide DecodeSnapshot, PeekHeader, Store, Sorted;
    var p := s.sent[n];
    var c := Cursor(p.bits, 0, false);
    assert PacketOk(p);
    PeekIsDecoded(c, p.base);
    if p.base.Some? {
      var held := Get(s.client.ring, p.base.value.tick);
      if held.Some? { SameTick(kindOf, s.sent, held.value, p.base.value); }
    }
  }

  lemma SameTick(kindOf: u32 -> u8, sent: seq<Sent>, f: SnapshotFrame, g: SnapshotFrame)
    requires SentOk(kindOf, sent) && IsSent(sent, f) && IsSent(sent, g) && f.tick == g.tick
    ensures f == g
  {
    var i :| 0 <= i < |sent| && sent[i].frame == f;
    var j :| 0 <= j < |sent| && sent[j].frame == g;
  }

  lemma DeliverKeeps(kindOf: u32 -> u8, s: State, n: nat)
    requires Inv(kindOf, s) && n < |s.sent|
    ensures Inv(kindOf, DeliverStep(s, n))
  {
    AcceptsExactly(kindOf, s, n);
    assert PacketOk(s.sent[n]) && IsSent(s.sent, s.sent[n].frame);
    StoreKeepsRing(s.client.ring, s.sent, s.sent[n].frame);
    hide ApplySnapshot, SentOk;
  }

  lemma StepKeeps(kindOf: u32 -> u8, s: State, step: Step)
    requires Inv(kindOf, s) && Enabled(kindOf, s, step)
    ensures Inv(kindOf, Apply(kindOf, s, step))
  {
    match step
    case Encode(falloff, budget, v, choice, padding) =>
      ChoiceSize(s.server, falloff, budget, v, choice);
      hide EncodeStep;
      EncodeKeeps(kindOf, s, falloff, budget, v, choice, padding);
    case Deliver(n) =>
      hide DeliverStep;
      DeliverKeeps(kindOf, s, n);
    case SendAck =>
    case ReceiveAck(_) =>
  }

  lemma {:induction false} RunKeeps(kindOf: u32 -> u8, serverFrames: nat, clientFrames: nat, steps: seq<Step>)
    requires Run(kindOf, serverFrames, clientFrames, steps).Some?
    ensures Inv(kindOf, Run(kindOf, serverFrames, clientFrames, steps).value)
  {
    if steps == [] {
    } else {
      hide Inv, Enabled, Apply;
      RunKeeps(kindOf, serverFrames, clientFrames, steps[..|steps| - 1]);
      StepKeeps(kindOf, Run(kindOf, serverFrames, clientFrames, steps[..|steps| - 1]).value, steps[|steps| - 1]);
    }
  }

  /** Replication safety: in every session, under any loss, duplication and
      reordering, every valid frame in the client's ring is the frame the server
      recorded for that tick. */
  lemma ReplicationSafety(kindOf: u32 -> u8, serverFrames: nat, clientFrames: nat, steps: seq<Step>, tick: u32)
    requires Run(kindOf, serverFrames, clientFrames, steps).Some?
    ensures var s := Run(kindOf, serverFrames, clientFrames, steps).value;
            var held := Get(s.client.ring, tick);
            && (held.Some? ==> IsSent(s.sent, held.value))
            && (forall i | 0 <= i < |s.sent| :: s.sent[i].frame.tick == tick && held.Some? ==>
                 held.value == s.sent[i].frame)
  {
    RunKeeps(kindOf, serverFrames, clientFrames, steps);
    var s := Run(kindOf, serverFrames, clientFrames, steps).value;
    var held := Get(s.client.ring, tick);
    hide Run, PacketOk;
    if held.Some? {
      forall i | 0 <= i < |s.sent| && s.sent[i].frame.tick == tick ensures held.value == s.sent[i].frame {
        SameTick(kindOf, s.sent, held.value, s.sent[i].frame);
      }
    }
  }
}
