/**
 What replication gets across: which entities an encode sends, when a frame is the
 current state of the scene, and that both sides always know the newest tick there is
 to know.
 */
module Freshness {
  import opened Sequence
  import opened SequenceBuffers
  import opened Snapshot
  import opened Recording
  import opened Replication
  import opened Session

  // ---------------------------------------------------------------------------
  // One encode

  /** The entities that the baseline does not have, or not as they are now. */
  ghost function Different(base: Option<SnapshotFrame>, current: seq<EntityWireState>): (flags: seq<bool>)
    ensures |flags| == |current|
    ensures forall i | 0 <= i < |flags| :: flags[i] <==> PreviousOf(base, current[i].id) != Some(current[i])
  {
    seq(|current|, i requires 0 <= i < |current| => PreviousOf(base, current[i].id) != Some(current[i]))
  }

  lemma CandidateExactly(s: Server, base: Option<SnapshotFrame>, falloff: real, v: Scene, i: nat)
    requires v.Valid() && i < |v.current|
    ensures Ranking(s, base, falloff, v)[i].Some? <==> Different(base, v.current)[i]
  {
    hide PriorityOf, CreditOf, Find;
  }

  lemma CandidatesAre(s: Server, base: Option<SnapshotFrame>, falloff: real, v: Scene)
    requires v.Valid()
    ensures Candidates(Ranking(s, base, falloff, v)) == Different(base, v.current)
  {
    hide Ranking, Different;
    forall i | 0 <= i < |v.current|
      ensures Candidates(Ranking(s, base, falloff, v))[i] == Different(base, v.current)[i]
    {
      CandidateExactly(s, base, falloff, v, i);
    }
  }

  /** Records are counted at 101 bits, after 16 bits for their number. */
  lemma FitExactly(available: int, n: nat)
    ensures n <= FitCount(available) <==> n == 0 || 16 + 101 * n <= available
  {
  }

  /** A subset of the same size is the whole. */
  lemma {:induction false} SameCount(a: seq<bool>, b: seq<bool>)
    requires |a| == |b| && forall i | 0 <= i < |a| :: a[i] ==> b[i]
    ensures Count(a) <= Count(b) && (Count(a) == Count(b) ==> a == b)
  {
    if a != [] {
      var last := |a| - 1;
      SameCount(a[..last], b[..last]);
      assert a == a[..last] + [a[last]] && b == b[..last] + [b[last]];
    }
  }

  ghost function HeadSize(s: Server, v: Scene): nat
    requires v.Valid() && RingSorted(s.history)
  {
    BaselineSorted(s, v.tick);
    |HeadBits(v, Baseline(s, v.tick))|
  }

  /** Only what differs is sent, and if any of it is not, one more record would not
      have fitted. */
  lemma SendsWhatFits(s: Server, falloff: real, budgetBits: nat, v: Scene, sent: seq<bool>)
    requires v.Valid() && RingSorted(s.history) && Chooses(s, falloff, budgetBits, v, sent)
    ensures var different := Different(Baseline(s, v.tick), v.current);
            && |sent| == |v.current| && (forall i | 0 <= i < |sent| :: sent[i] ==> different[i])
            && (sent != different ==> HeadSize(s, v) + 16 + 101 * (Count(sent) + 1) > budgetBits)
  {
    hide Ranking, HeadBits, FitCount, Different, Count, Candidates, Sorted;
    BaselineSorted(s, v.tick);
    var base := Baseline(s, v.tick);
    var room := budgetBits - |HeadBits(v, base)|;
    CandidatesAre(s, base, falloff, v);
    forall i | 0 <= i < |sent| && sent[i] ensures Different(base, v.current)[i] {
      CandidateExactly(s, base, falloff, v, i);
    }
    SameCount(sent, Different(base, v.current));
    FitExactly(room, Count(sent) + 1);
  }

  /** If all that differs fits, the frame recorded is the scene as it is. */
  lemma RoomSendsAll(s: Server, falloff: real, budgetBits: nat, v: Scene, sent: seq<bool>)
    requires v.Valid() && RingSorted(s.history) && Chooses(s, falloff, budgetBits, v, sent)
    requires HeadSize(s, v) + 16 + 101 * Count(Different(Baseline(s, v.tick), v.current)) <= budgetBits
    ensures |sent| == |v.current| && sent == Different(Baseline(s, v.tick), v.current)
    ensures FrameOf(s, v, sent).states == v.current
  {
    hide HeadBits, Different, Count, Chooses, Sorted, Recorded, Baseline;
    BaselineSorted(s, v.tick);
    var base := Baseline(s, v.tick);
    SendsWhatFits(s, falloff, budgetBits, v, sent);
    SameCount(sent, Different(base, v.current));
    SameUnlessSent(base, v.current, sent);
    NothingDeferred(base, v.current, sent, |v.current|);
    assert v.current[..|v.current|] == v.current;
  }

  lemma SameUnlessSent(base: Option<SnapshotFrame>, current: seq<EntityWireState>, sent: seq<bool>)
    requires |sent| == |current| && sent == Different(base, current)
    ensures forall i | 0 <= i < |current| && !sent[i] ::
              PreviousOf(base, current[i].id).Some? && current[i].SameStateAs(PreviousOf(base, current[i].id).value)
  {
    hide Find;
  }

  /** Of two entities with the same credit, neither of them the viewer's, the farther
      one is not sent while the closer one is deferred. */
  lemma CloserFirst(s: Server, falloff: real, budgetBits: nat, v: Scene, sent: seq<bool>, i: nat, j: nat)
    requires v.Valid() && RingSorted(s.history) && Chooses(s, falloff, budgetBits, v, sent) && falloff > 0.0
    requires i < |v.current| && j < |v.current| && v.current[i].id != v.viewer && v.current[j].id != v.viewer
    requires CreditOf(s.priority, v.current[i].id) == CreditOf(s.priority, v.current[j].id)
    requires |sent| == |v.current| && Different(Baseline(s, v.tick), v.current)[i] && !sent[i] && sent[j]
    ensures v.closeness[i] <= v.closeness[j]
  {
    hide CreditOf, PriorityOf, HeadBits, FitCount, Count, Different;
    var base := Baseline(s, v.tick);
    CandidateExactly(s, base, falloff, v, i);
    assert Ranking(s, base, falloff, v)[j].value >= Ranking(s, base, falloff, v)[i].value;
    var a, b := v.closeness[i], v.closeness[j];
    if a > b { CloserIsHigher(CreditOf(s.priority, v.current[i].id), a, b, falloff); }
  }

  lemma CloserIsHigher(credit: real, a: real, b: real, falloff: real)
    requires a > b && falloff > 0.0
    ensures PriorityOf(credit, a, falloff, false) > PriorityOf(credit, b, falloff, false)
  {
    assert a * falloff - b * falloff == (a - b) * falloff;
  }

  lemma ViewerIsHigher(credit: real, other: real, a: real, b: real, falloff: real)
    requires other + falloff < credit + 1000000.0 && 0.0 <= a <= 1.0 && 0.0 <= b <= 1.0 && falloff >= 0.0
    ensures PriorityOf(credit, a, falloff, true) > PriorityOf(other, b, falloff, false)
  {
    assert falloff - b * falloff == (1.0 - b) * falloff;
    assert a * falloff >= 0.0;
  }

  /** The viewer's own entity goes before any that has not gathered a million in
      credit more. */
  lemma ViewerFirst(s: Server, falloff: real, budgetBits: nat, v: Scene, sent: seq<bool>, i: nat, j: nat)
    requires v.Valid() && RingSorted(s.history) && Chooses(s, falloff, budgetBits, v, sent) && falloff >= 0.0
    requires i < |v.current| && j < |v.current| && v.current[i].id == v.viewer && v.current[j].id != v.viewer
    requires CreditOf(s.priority, v.current[j].id) + falloff < CreditOf(s.priority, v.current[i].id) + 1000000.0
    requires |sent| == |v.current| && Different(Baseline(s, v.tick), v.current)[i] && sent[j]
    ensures sent[i]
  {
    hide CreditOf, PriorityOf, HeadBits, FitCount, Count, Different;
    CandidateExactly(s, Baseline(s, v.tick), falloff, v, i);
    ViewerIsHigher(CreditOf(s.priority, v.current[i].id), CreditOf(s.priority, v.current[j].id),
                   v.closeness[i], v.closeness[j], falloff);
  }

  // ---------------------------------------------------------------------------
  // What the client has, and what both sides know

  /** A frame encoded with room for all that differs shows the client the scene as it
      is, whenever it is accepted. */
  lemma CaughtUp(kindOf: u32 -> u8, s: State, falloff: real, budget: nat, v: Scene, choice: seq<bool>, padding: nat,
                 later: State, n: nat)
    requires Inv(kindOf, s) && Enabled(kindOf, s, Encode(falloff, budget, v, choice, padding))
    requires HeadSize(s.server, v) + 16 + 101 * Count(Different(Baseline(s.server, v.tick), v.current)) <= budget
    requires |choice| == |v.current|
    requires Inv(kindOf, later) && n < |later.sent| && later.client.ring != []
    requires later.sent[n] == EncodeStep(s, falloff, v, choice, padding).sent[|s.sent|]
    ensures var (client, accepted) := ApplySnapshot(later.client, later.sent[n].bits);
            accepted ==> Get(client.ring, v.tick) == Some(SnapshotFrame(v.tick, true, v.current))
  {
    hide HeadSize, Different, Count, Chooses, Recorded, ApplySnapshot, WireBits, Baseline, Get, Store, Session.Inv;
    RoomSendsAll(s.server, falloff, budget, v, choice);
    AcceptsExactly(kindOf, later, n);
    StoredIsFound(later.client.ring, later.sent[n].frame, v.tick);
  }

  /** Comparing ticks is comparing numbers exactly if they are at most half the ring
      apart. */
  lemma TickOrderExactly(a: u32, b: u32)
    ensures (Greater32(a, b) <==> a > b) <==> -2147483648 <= a - b <= 2147483648
  {
  }

  /** The ticks of a session span at most half the ring. */
  ghost predicate Spanned(sent: seq<Sent>) {
    sent != [] ==> sent[|sent| - 1].frame.tick - sent[0].frame.tick <= 2147483648
  }

  ghost predicate Rising(sent: seq<Sent>) {
    forall i, j | 0 <= i < j < |sent| :: sent[i].frame.tick < sent[j].frame.tick
  }

  /** `t` is the tick of a packet that the client accepted. */
  ghost predicate AppliedTick(s: State, t: u32) {
    exists k :: k in s.applied && k < |s.sent| && s.sent[k].frame.tick == t
  }

  /** The client's latest tick is the newest it has accepted. */
  ghost predicate ClientKnows(s: State) {
    && (s.client.hasSnapshot <==> s.applied != {}) && (forall k <- s.applied :: k < |s.sent|)
    && (forall t: u32 | AppliedTick(s, t) :: t <= s.client.latest)
    && (if s.client.hasSnapshot then AppliedTick(s, s.client.latest) else s.client.latest == 0)
  }

  /** The server's acked tick is the newest acked so far, and acks tell the truth. */
  ghost predicate ServerKnows(s: State, received: set<u32>) {
    && (forall t <- s.acks :: t == 0 || AppliedTick(s, t))
    && (forall t <- received :: t != 0 && t <= s.server.lastAcked && AppliedTick(s, t))
    && (s.server.hasAcked <==> received != {}) && (s.server.hasAcked ==> s.server.lastAcked in received)
    && (s.acked != 0 ==> s.acked in received)
  }

  /** The acks that have arrived; a zero says that there was nothing to ack. */
  function Received(steps: seq<Step>): set<u32> {
    if steps == [] then {}
    else
      var step := steps[|steps| - 1];
      Received(steps[..|steps| - 1]) + (if step.ReceiveAck? && step.tick != 0 then {step.tick} else {})
  }

  lemma TicksNear(sent: seq<Sent>, i: nat, j: nat)
    requires Rising(sent) && Spanned(sent) && i < |sent| && j < |sent|
    ensures -2147483648 <= sent[i].frame.tick - sent[j].frame.tick <= 2147483648
  {
    var last := |sent| - 1;
    assert sent[0].frame.tick <= sent[i].frame.tick <= sent[last].frame.tick;
    assert sent[0].frame.tick <= sent[j].frame.tick <= sent[last].frame.tick;
  }

  lemma AppliedNear(s: State, a: u32, b: u32)
    requires Rising(s.sent) && Spanned(s.sent) && AppliedTick(s, a) && AppliedTick(s, b)
    ensures Greater32(a, b) <==> a > b
  {
    hide Greater32;
    var i :| i in s.applied && i < |s.sent| && s.sent[i].frame.tick == a;
    var j :| j in s.applied && j < |s.sent| && s.sent[j].frame.tick == b;
    TicksNear(s.sent, i, j);
    TickOrderExactly(a, b);
  }

  lemma EncodeKnows(s: State, falloff: real, v: Scene, choice: seq<bool>, padding: nat, received: set<u32>)
    requires v.Valid() && RingSorted(s.server.history) && |choice| == |v.current|
    requires ClientKnows(s) && ServerKnows(s, received)
    ensures var s' := EncodeStep(s, falloff, v, choice, padding); ClientKnows(s') && ServerKnows(s', received)
  {
    hide WireBits, FrameOf, CarryOver, Ranking, Baseline, Store;
    var s' := EncodeStep(s, falloff, v, choice, padding);
    forall t: u32 ensures AppliedTick(s', t) <==> AppliedTick(s, t) { SameApplied(s, s', t); }
  }

  lemma SameApplied(s: State, s': State, t: u32)
    requires s'.applied == s.applied && s.sent <= s'.sent && forall k <- s.applied :: k < |s.sent|
    ensures AppliedTick(s', t) <==> AppliedTick(s, t)
  {
    if AppliedTick(s, t) {
      var k :| k in s.applied && k < |s.sent| && s.sent[k].frame.tick == t;
      assert s'.sent[k].frame.tick == t;
    }
    if AppliedTick(s', t) {
      var k :| k in s'.applied && k < |s'.sent| && s'.sent[k].frame.tick == t;
      assert s.sent[k].frame.tick == t;
    }
  }

  lemma OneMoreApplied(s: State, s': State, n: nat, t: u32)
    requires n < |s.sent| && s'.sent == s.sent && s'.applied == s.applied + {n}
    ensures AppliedTick(s', t) <==> AppliedTick(s, t) || t == s.sent[n].frame.tick
  {
    if AppliedTick(s, t) {
      var k :| k in s.applied && k < |s.sent| && s.sent[k].frame.tick == t;
      assert k in s'.applied;
    }
    assert n in s'.applied;
  }

  lemma DeliverKnows(kindOf: u32 -> u8, s: State, n: nat, received: set<u32>)
    requires Inv(kindOf, s) && n < |s.sent| && Rising(s.sent) && Spanned(s.sent)
    requires ClientKnows(s) && ServerKnows(s, received)
    ensures var s' := DeliverStep(s, n); ClientKnows(s') && ServerKnows(s', received)
  {
    hide ApplySnapshot, Session.Inv, Rising, Spanned, Greater32, AppliedTick;
    AcceptsExactly(kindOf, s, n);
    var s', tick := DeliverStep(s, n), s.sent[n].frame.tick;
    if ApplySnapshot(s.client, s.sent[n].bits).1 {
      forall t: u32 ensures AppliedTick(s', t) <==> AppliedTick(s, t) || t == tick { OneMoreApplied(s, s', n, t); }
      if s.client.hasSnapshot {
        AppliedNear(s', tick, s.client.latest);
      }
    } else {
      forall t: u32 ensures AppliedTick(s', t) <==> AppliedTick(s, t) { SameApplied(s, s', t); }
    }
  }

  lemma AckKnows(s: State, t: u32, received: set<u32>)
    requires t in s.acks && Rising(s.sent) && Spanned(s.sent) && ClientKnows(s) && ServerKnows(s, received)
    ensures var s', received' := ReceiveAckStep(s, t), received + (if t != 0 then {t} else {});
            ClientKnows(s') && ServerKnows(s', received')
  {
    hide Rising, Spanned, Greater32, AppliedTick;
    var s' := ReceiveAckStep(s, t);
    forall x: u32 ensures AppliedTick(s', x) <==> AppliedTick(s, x) { SameApplied(s, s', x); }
    if t != 0 && s.server.hasAcked { AppliedNear(s, t, s.server.lastAcked); }
  }

  lemma SendKnows(s: State, received: set<u32>)
    requires ClientKnows(s) && ServerKnows(s, received)
    ensures var s' := s.(acks := s.acks + {s.client.latest}); ClientKnows(s') && ServerKnows(s', received)
  {
    hide AppliedTick;
    var s' := s.(acks := s.acks + {s.client.latest});
    forall x: u32 ensures AppliedTick(s', x) <==> AppliedTick(s, x) { SameApplied(s, s', x); }
  }

  lemma StepKnows(kindOf: u32 -> u8, s: State, step: Step, received: set<u32>)
    requires Inv(kindOf, s) && Enabled(kindOf, s, step) && Rising(s.sent) && Spanned(s.sent)
    requires ClientKnows(s) && ServerKnows(s, received)
    ensures var s' := Apply(kindOf, s, step);
            && ClientKnows(s')
            && ServerKnows(s', received + (if step.ReceiveAck? && step.tick != 0 then {step.tick} else {}))
  {
    hide ClientKnows, ServerKnows, EncodeStep, DeliverStep, ReceiveAckStep, Session.Inv, Rising, Spanned, Chooses,
      CountsFit, KindsFixed;
    assert received + {} == received;
    match step
    case Encode(falloff, budget, v, choice, padding) =>
      ChoiceSize(s.server, falloff, budget, v, choice);
      EncodeKnows(s, falloff, v, choice, padding, received);
    case Deliver(n) => DeliverKnows(kindOf, s, n, received);
    case SendAck => SendKnows(s, received);
    case ReceiveAck(t) => AckKnows(s, t, received);
  }

  /** Packets are only added, and their ticks only rise. */
  lemma SentStays(kindOf: u32 -> u8, s: State, step: Step)
    requires Inv(kindOf, s) && Enabled(kindOf, s, step) && Rising(s.sent)
    ensures s.sent <= Apply(kindOf, s, step).sent && Rising(Apply(kindOf, s, step).sent)
    ensures Spanned(Apply(kindOf, s, step).sent) ==> Spanned(s.sent)
  {
    hide Session.Inv, Chooses, CountsFit, KindsFixed, WireBits, Recorded, CarryOver, Ranking, Baseline, Store,
      ApplySnapshot, Acknowledge;
    if step.Encode? { ChoiceSize(s.server, step.falloff, step.budgetBits, step.scene, step.choice); }
  }

  lemma {:induction false} RunKnows(kindOf: u32 -> u8, serverFrames: nat, clientFrames: nat, steps: seq<Step>)
    requires Run(kindOf, serverFrames, clientFrames, steps).Some?
    requires Spanned(Run(kindOf, serverFrames, clientFrames, steps).value.sent)
    ensures var s := Run(kindOf, serverFrames, clientFrames, steps).value;
            Rising(s.sent) && ClientKnows(s) && ServerKnows(s, Received(steps))
  {
    hide Session.Inv, Enabled, Apply, Rising, Spanned, ClientKnows, ServerKnows, Start;
    if steps == [] {
      NothingKnown(serverFrames, clientFrames);
    } else {
      var before, step := steps[..|steps| - 1], steps[|steps| - 1];
      var s := Run(kindOf, serverFrames, clientFrames, before).value;
      Session.RunKeeps(kindOf, serverFrames, clientFrames, before);
      RisingRun(kindOf, serverFrames, clientFrames, before);
      SentStays(kindOf, s, step);
      RunKnows(kindOf, serverFrames, clientFrames, before);
      StepKnows(kindOf, s, step, Received(before));
    }
  }

  lemma NothingKnown(serverFrames: nat, clientFrames: nat)
    ensures var s := Start(serverFrames, clientFrames); Rising(s.sent) && ClientKnows(s) && ServerKnows(s, {})
  {
  }

  lemma {:induction false} RisingRun(kindOf: u32 -> u8, serverFrames: nat, clientFrames: nat, steps: seq<Step>)
    requires Run(kindOf, serverFrames, clientFrames, steps).Some?
    ensures Rising(Run(kindOf, serverFrames, clientFrames, steps).value.sent)
  {
    hide Session.Inv, Enabled, Apply, Rising, Start;
    if steps == [] {
      NothingKnown(serverFrames, clientFrames);
    } else {
      var before, step := steps[..|steps| - 1], steps[|steps| - 1];
      Session.RunKeeps(kindOf, serverFrames, clientFrames, before);
      RisingRun(kindOf, serverFrames, clientFrames, before);
      SentStays(kindOf, Run(kindOf, serverFrames, clientFrames, before).value, step);
    }
  }

  /** In every session whose ticks span at most half the ring: the tick that the client
      acks is the newest it has accepted, and the tick that the server encodes against
      is the newest that was acked to it. */
  lemma NewestKnown(kindOf: u32 -> u8, serverFrames: nat, clientFrames: nat, steps: seq<Step>)
    requires Run(kindOf, serverFrames, clientFrames, steps).Some?
    requires Spanned(Run(kindOf, serverFrames, clientFrames, steps).value.sent)
    ensures var s, acks := Run(kindOf, serverFrames, clientFrames, steps).value, Received(steps);
            && (s.client.hasSnapshot <==> s.applied != {})
            && (s.client.hasSnapshot ==> AppliedTick(s, s.client.latest))
            && (forall t: u32 | AppliedTick(s, t) :: t <= s.client.latest)
            && (s.server.hasAcked <==> acks != {}) && (s.server.hasAcked ==> s.server.lastAcked in acks)
            && (forall t <- acks :: t <= s.server.lastAcked && AppliedTick(s, t))
  {
    hide Run, Rising, Spanned, AppliedTick, Received;
    RunKnows(kindOf, serverFrames, clientFrames, steps);
  }

  // ---------------------------------------------------------------------------
  // The baseline

  /** Frames are kept by tick, modulo the size of the ring. */
  function Spot(frames: nat, tick: u32): (at: nat)
    requires frames > 0
    ensures at < frames
  {
    tick % frames
  }

  /** No later frame took the slot of frame `k`, in a ring of `frames`. */
  ghost predicate Latest(sent: seq<Sent>, frames: nat, k: nat)
    requires frames > 0
  {
    k < |sent| && forall j | k < j < |sent| :: Spot(frames, sent[j].frame.tick) != Spot(frames, sent[k].frame.tick)
  }

  ghost predicate SlotIs(ring: seq<SnapshotFrame>, sent: seq<Sent>, i: nat)
    requires i < |ring|
  {
    ring[i].valid ==> exists k :: Holds(ring, sent, i, k)
  }

  ghost predicate Holds(ring: seq<SnapshotFrame>, sent: seq<Sent>, i: nat, k: nat)
    requires i < |ring|
  {
    Latest(sent, |ring|, k) && sent[k].frame == ring[i] && Spot(|ring|, sent[k].frame.tick) == i
  }

  /** The ring holds the last frame of each slot, and no other. */
  ghost predicate RingIs(ring: seq<SnapshotFrame>, sent: seq<Sent>) {
    && (forall i | 0 <= i < |ring| :: SlotIs(ring, sent, i))
    && (ring != [] ==> forall k | 0 <= k < |sent| && Latest(sent, |ring|, k) ::
                         ring[Spot(|ring|, sent[k].frame.tick)] == sent[k].frame)
  }

  lemma RingNext(ring: seq<SnapshotFrame>, sent: seq<Sent>, p: Sent)
    requires RingIs(ring, sent) && ring != []
    ensures RingIs(Store(ring, p.frame), sent + [p])
  {
    StoredAt(ring, p.frame);
    hide Spot, Store;
    var ring', sent', at := Store(ring, p.frame), sent + [p], Spot(|ring|, p.frame.tick);
    assert sent'[|sent|] == p;
    forall i | 0 <= i < |ring'| ensures SlotIs(ring', sent', i) {
      if i == at {
        assert Holds(ring', sent', i, |sent|);
      } else if ring[i].valid {
        assert SlotIs(ring, sent, i);
        var k :| Holds(ring, sent, i, k);
        assert Holds(ring', sent', i, k);
      }
    }
    forall k | 0 <= k < |sent'| && Latest(sent', |ring'|, k)
      ensures ring'[Spot(|ring'|, sent'[k].frame.tick)] == sent'[k].frame
    {
      if k < |sent| { LatestBefore(sent, p, |ring|, k); }
    }
  }

  lemma StoredAt(ring: seq<SnapshotFrame>, f: SnapshotFrame)
    requires ring != []
    ensures Store(ring, f) == ring[Spot(|ring|, f.tick) := f]
  {
  }

  lemma LatestBefore(sent: seq<Sent>, p: Sent, frames: nat, k: nat)
    requires frames > 0 && k < |sent| && Latest(sent + [p], frames, k)
    ensures Latest(sent, frames, k) && Spot(frames, p.frame.tick) != Spot(frames, sent[k].frame.tick)
  {
    hide Spot;
    var sent' := sent + [p];
    assert sent'[|sent|] == p;
    forall j | k < j < |sent| ensures Spot(frames, sent[j].frame.tick) != Spot(frames, sent[k].frame.tick) {
      assert sent'[j] == sent[j] && sent'[k] == sent[k];
    }
  }

  lemma {:induction false} RunRing(kindOf: u32 -> u8, serverFrames: nat, clientFrames: nat, steps: seq<Step>)
    requires Run(kindOf, serverFrames, clientFrames, steps).Some?
    ensures var s := Run(kindOf, serverFrames, clientFrames, steps).value;
            RingIs(s.server.history, s.sent) && |s.server.history| == serverFrames
  {
    hide Session.Inv, Enabled, Apply, RingIs;
    if steps == [] {
      EmptyRing(serverFrames, clientFrames);
    } else {
      var before, step := steps[..|steps| - 1], steps[|steps| - 1];
      RunRing(kindOf, serverFrames, clientFrames, before);
      StepRing(kindOf, Run(kindOf, serverFrames, clientFrames, before).value, step);
    }
  }

  lemma EmptyRing(serverFrames: nat, clientFrames: nat)
    ensures var s := Start(serverFrames, clientFrames);
            RingIs(s.server.history, s.sent) && |s.server.history| == serverFrames
  {
  }

  lemma StepRing(kindOf: u32 -> u8, s: State, step: Step)
    requires Enabled(kindOf, s, step) && RingIs(s.server.history, s.sent)
    ensures var s' := Apply(kindOf, s, step);
            RingIs(s'.server.history, s'.sent) && |s'.server.history| == |s.server.history|
  {
    hide Chooses, CountsFit, KindsFixed, WireBits, Recorded, CarryOver, Ranking, Baseline, ApplySnapshot, RingIs, Store,
      Sorted;
    if step.Encode? {
      ChoiceSize(s.server, step.falloff, step.budgetBits, step.scene, step.choice);
      var p := EncodeStep(s, step.falloff, step.scene, step.choice, step.padding).sent[|s.sent|];
      if s.server.history == [] {
        NoRing(s.server.history, p.frame, s.sent + [p]);
      } else {
        RingNext(s.server.history, s.sent, p);
      }
    }
  }

  lemma NoRing(ring: seq<SnapshotFrame>, f: SnapshotFrame, sent: seq<Sent>)
    requires ring == []
    ensures Store(ring, f) == [] && RingIs([], sent)
  {
  }

  /** In every session: an encode has a baseline exactly if the newest acked frame is
      still in its slot, and is not about to lose it to the frame being encoded; and then
      that frame is the baseline. */
  lemma BaselineExactly(kindOf: u32 -> u8, serverFrames: nat, clientFrames: nat, steps: seq<Step>, tick: u32)
    requires Run(kindOf, serverFrames, clientFrames, steps).Some? && serverFrames > 0
    ensures var s := Run(kindOf, serverFrames, clientFrames, steps).value;
            var base, acked := Baseline(s.server, tick), s.server.lastAcked;
            && (base.Some? <==> s.server.hasAcked && Spot(serverFrames, acked) != Spot(serverFrames, tick)
                                && exists k: nat :: Acked(s, serverFrames, k))
            && (forall k: nat | Acked(s, serverFrames, k) && base.Some? :: base.value == s.sent[k].frame)
  {
    hide Run, Session.Inv, RingIs, Spot, Acked, Baseline;
    RunRing(kindOf, serverFrames, clientFrames, steps);
    Session.RunKeeps(kindOf, serverFrames, clientFrames, steps);
    BaselineIs(kindOf, Run(kindOf, serverFrames, clientFrames, steps).value, tick);
  }

  /** Frame `k` is that of the newest acked tick, and no later one took its slot. */
  ghost predicate Acked(s: State, frames: nat, k: nat)
    requires frames > 0
  {
    Latest(s.sent, frames, k) && s.sent[k].frame.tick == s.server.lastAcked
  }

  lemma BaselineIs(kindOf: u32 -> u8, s: State, tick: u32)
    requires Inv(kindOf, s) && RingIs(s.server.history, s.sent) && s.server.history != []
    ensures var n, base, acked := |s.server.history|, Baseline(s.server, tick), s.server.lastAcked;
            && (base.Some? <==> s.server.hasAcked && Spot(n, acked) != Spot(n, tick) && exists k: nat :: Acked(s, n, k))
            && (forall k: nat | Acked(s, n, k) && base.Some? :: base.value == s.sent[k].frame)
  {
    BaselineGot(s.server, tick);
    var ring, n, acked := s.server.history, |s.server.history|, s.server.lastAcked;
    hide Spot, Baseline, RingOk;
    assert SlotIs(ring, s.sent, Spot(n, acked));
    forall k: nat | Acked(s, n, k) ensures ring[Spot(n, acked)] == s.sent[k].frame && s.sent[k].frame.valid {
      assert PacketOk(s.sent[k]);
    }
    if Baseline(s.server, tick).Some? {
      var k :| Holds(ring, s.sent, Spot(n, acked), k);
      assert Acked(s, n, k);
    }
  }

  lemma BaselineGot(server: Server, tick: u32)
    requires server.history != []
    ensures var n, acked := |server.history|, server.lastAcked;
            var frame := server.history[Spot(n, acked)];
            var usable := server.hasAcked && frame.valid && frame.tick == acked && Spot(n, acked) != Spot(n, tick);
            Baseline(server, tick) == if usable then Some(frame) else None
  {
  }
}
