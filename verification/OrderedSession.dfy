/**
 A session over a link that may lose snapshots but keeps their order, with rings
 of equal capacity on both sides: no snapshot is ever rejected, even if acks are
 lost, delayed or reordered.
 */
module OrderedSession {
  import opened Sequence
  import opened SequenceBuffers
  import opened Snapshot
  import opened Replication
  import opened Session

  /** The link delivers packets in the order they were sent, possibly not all. */
  ghost predicate KeepsOrder(s: State, step: Step) {
    step.Deliver? ==> s.newest <= step.number
  }

  ghost function OrderedRun(kindOf: u32 -> u8, frames: nat, steps: seq<Step>): Option<State> {
    if steps == [] then Some(Start(frames, frames))
    else
      var before, step := OrderedRun(kindOf, frames, steps[..|steps| - 1]), steps[|steps| - 1];
      if before.Some? && Enabled(kindOf, before.value, step) && KeepsOrder(before.value, step)
      then Some(Apply(kindOf, before.value, step)) else None
  }

  function Tick(sent: seq<Sent>, i: nat): u32
    requires i < |sent|
  {
    sent[i].frame.tick
  }

  /** Two packets whose frames occupy the same slot. */
  predicate Clash(frames: nat, sent: seq<Sent>, i: nat, k: nat)
    requires 0 < frames && i < |sent| && k < |sent|
  {
    Tick(sent, i) % frames == Tick(sent, k) % frames
  }

  /** A frame the server still holds has not been overwritten since. */
  ghost predicate ServerFresh(frames: nat, sent: seq<Sent>, history: seq<SnapshotFrame>)
    requires 0 < frames
  {
    forall i, k | 0 <= i < k < |sent| :: Get(history, Tick(sent, i)).Some? ==> !Clash(frames, sent, i, k)
  }

  ghost predicate Holds(frames: nat, sent: seq<Sent>, ring: seq<SnapshotFrame>, newest: int, i: nat)
    requires 0 < frames && newest < |sent|
  {
    && i <= newest
    && (Get(ring, Tick(sent, i)).Some? || exists k | i < k <= newest :: Clash(frames, sent, i, k))
  }

  /** A frame the client accepted is held until a later one takes its slot. */
  ghost predicate ClientHolds(frames: nat, sent: seq<Sent>, ring: seq<SnapshotFrame>, applied: set<nat>, newest: int)
    requires 0 < frames
  {
    -1 <= newest < |sent| && forall i <- applied :: Holds(frames, sent, ring, newest, i)
  }

  ghost predicate IsApplied(sent: seq<Sent>, applied: set<nat>, t: u32) {
    exists i | i in applied && i < |sent| :: Tick(sent, i) == t
  }

  /** Acks name only frames the client accepted. */
  ghost predicate AcksHonest(s: State) {
    && (forall t <- s.acks :: t == 0 || IsApplied(s.sent, s.applied, t))
    && (if s.client.hasSnapshot then IsApplied(s.sent, s.applied, s.client.latest) else s.client.latest == 0)
    && (s.server.hasAcked ==> IsApplied(s.sent, s.applied, s.server.lastAcked))
  }

  /** Packet `i` was encoded against packet `j`, which the client had accepted,
      and no packet from there on up to `i` takes its slot. */
  ghost predicate BaseIs(frames: nat, sent: seq<Sent>, applied: set<nat>, i: nat, j: nat)
    requires 0 < frames && i < |sent|
  {
    && j in applied && j < i && sent[i].base.Some? && sent[i].base.value.tick == Tick(sent, j)
    && forall k | j < k <= i :: !Clash(frames, sent, j, k)
  }

  ghost predicate BasesHeld(frames: nat, sent: seq<Sent>, applied: set<nat>)
    requires 0 < frames
  {
    forall i | 0 <= i < |sent| :: sent[i].base.Some? ==> exists j: nat :: BaseIs(frames, sent, applied, i, j)
  }

  ghost predicate Ordered(frames: nat, s: State) {
    && 0 < frames && |s.server.history| == frames == |s.client.ring|
    && ServerFresh(frames, s.sent, s.server.history)
    && ClientHolds(frames, s.sent, s.client.ring, s.applied, s.newest)
    && AcksHonest(s)
    && BasesHeld(frames, s.sent, s.applied)
  }

  lemma Found(ring: seq<SnapshotFrame>, f: SnapshotFrame, t: u32)
    requires ring != [] && f.valid
    ensures Get(Store(ring, f), t).Some? <==>
              t == f.tick || (t % |ring| != f.tick % |ring| && Get(ring, t).Some?)
  {
    StoredIsFound(ring, f, t);
  }

  /** In order, the client still holds whatever baseline the packet needs. */
  lemma Accepted(kindOf: u32 -> u8, frames: nat, s: State, n: nat)
    requires Inv(kindOf, s) && Ordered(frames, s) && n < |s.sent| && s.newest <= n
    ensures ApplySnapshot(s.client, s.sent[n].bits).1
  {
    hide ApplySnapshot, Inv, ServerFresh, AcksHonest, Get;
    AcceptsExactly(kindOf, s, n);
    if s.sent[n].base.Some? {
      var j :| BaseIs(frames, s.sent, s.applied, n, j);
      assert Holds(frames, s.sent, s.client.ring, s.newest, j);
    }
  }

  lemma DeliverOrdered(kindOf: u32 -> u8, frames: nat, s: State, n: nat)
    requires Inv(kindOf, s) && Ordered(frames, s) && n < |s.sent| && s.newest <= n
    ensures Ordered(frames, DeliverStep(s, n))
  {
    hide ApplySnapshot, Inv, Get, Store, ServerFresh, ClientHolds, BasesHeld, AcksHonest;
    Accepted(kindOf, frames, s, n);
    AcceptsExactly(kindOf, s, n);
    SentIsValid(kindOf, s, n);
    HoldsAfterDeliver(frames, s.sent, s.client.ring, s.applied, s.newest, n);
    HonestAfterDeliver(s, n, DeliverStep(s, n));
    BasesStay(frames, s.sent, s.applied, n);
  }

  lemma SentIsValid(kindOf: u32 -> u8, s: State, n: nat)
    requires Inv(kindOf, s) && n < |s.sent|
    ensures s.sent[n].frame.valid
  {
    assert PacketOk(s.sent[n]);
  }

  lemma BasesStay(frames: nat, sent: seq<Sent>, applied: set<nat>, n: nat)
    requires 0 < frames && BasesHeld(frames, sent, applied)
    ensures BasesHeld(frames, sent, applied + {n})
  {
    forall i | 0 <= i < |sent| && sent[i].base.Some?
      ensures exists j: nat :: BaseIs(frames, sent, applied + {n}, i, j)
    {
      var j: nat :| BaseIs(frames, sent, applied, i, j);
      assert BaseIs(frames, sent, applied + {n}, i, j);
    }
  }

  lemma HoldsAfterDeliver(frames: nat, sent: seq<Sent>, ring: seq<SnapshotFrame>, applied: set<nat>, newest: int,
                          n: nat)
    requires 0 < frames == |ring| && ClientHolds(frames, sent, ring, applied, newest) && newest <= n < |sent|
    requires sent[n].frame.valid
    ensures ClientHolds(frames, sent, Store(ring, sent[n].frame), applied + {n}, n)
  {
    hide Get, Store;
    forall i | i in applied + {n} ensures Holds(frames, sent, Store(ring, sent[n].frame), n, i) {
      Found(ring, sent[n].frame, Tick(sent, i));
      if i != n {
        assert Holds(frames, sent, ring, newest, i);
        if Tick(sent, i) % frames == Tick(sent, n) % frames { assert Clash(frames, sent, i, n); }
      }
    }
  }

  lemma AppliedStays(sent: seq<Sent>, applied: set<nat>, sent': seq<Sent>, applied': set<nat>)
    requires applied <= applied' && sent <= sent'
    ensures forall t :: IsApplied(sent, applied, t) ==> IsApplied(sent', applied', t)
  {
    forall t | IsApplied(sent, applied, t) ensures IsApplied(sent', applied', t) {
      var i :| i in applied && i < |sent| && Tick(sent, i) == t;
      assert Tick(sent', i) == t;
    }
  }

  lemma HonestAfterDeliver(s: State, n: nat, s': State)
    requires AcksHonest(s) && n < |s.sent|
    requires s'.sent == s.sent && s'.applied == s.applied + {n} && s'.acks == s.acks && s'.server == s.server
    requires s'.client.hasSnapshot
    requires s'.client.latest == s.sent[n].frame.tick || (s.client.hasSnapshot && s'.client.latest == s.client.latest)
    ensures AcksHonest(s')
  {
    assert IsApplied(s'.sent, s'.applied, s.sent[n].frame.tick) by { assert Tick(s'.sent, n) == s.sent[n].frame.tick; }
    AppliedStays(s.sent, s.applied, s'.sent, s'.applied);
    hide IsApplied;
  }

  lemma EncodeOrdered(kindOf: u32 -> u8, frames: nat, s: State, falloff: real, budget: nat, v: Scene,
                      choice: seq<bool>, padding: nat)
    requires Inv(kindOf, s) && Ordered(frames, s)
    requires Enabled(kindOf, s, Encode(falloff, budget, v, choice, padding)) && |choice| == |v.current|
    ensures Ordered(frames, EncodeStep(s, falloff, v, choice, padding))
  {
    hide Inv, Store, PacketOk, KindsFixed, Sorted, ServerFresh, ClientHolds, BasesHeld, AcksHonest, Baseline,
      WireBits;
    EncodedOk(kindOf, s, falloff, budget, v, choice, padding);
    var s' := EncodeStep(s, falloff, v, choice, padding);
    var p := s'.sent[|s.sent|];
    LastIsNewest(kindOf, s, v.tick);
    FreshAfterEncode(frames, s.sent, s.server.history, p);
    HoldsAfterEncode(frames, s.sent, s.client.ring, s.applied, s.newest, p);
    BasesAfterEncode(frames, s, p);
    HonestAfterEncode(s, s');
  }

  lemma HonestAfterEncode(s: State, s': State)
    requires AcksHonest(s) && s.sent <= s'.sent && s'.applied == s.applied && s'.acks == s.acks && s'.client == s.client
    requires s'.server.hasAcked == s.server.hasAcked && s'.server.lastAcked == s.server.lastAcked
    ensures AcksHonest(s')
  {
    AppliedStays(s.sent, s.applied, s'.sent, s'.applied);
    hide IsApplied;
  }

  lemma LastIsNewest(kindOf: u32 -> u8, s: State, tick: u32)
    requires Inv(kindOf, s) && (s.sent != [] ==> s.sent[|s.sent| - 1].frame.tick < tick)
    ensures forall i | 0 <= i < |s.sent| :: Tick(s.sent, i) < tick
  {
    hide PacketOk, Sorted, KindsFixed;
  }

  lemma FreshAfterEncode(frames: nat, sent: seq<Sent>, history: seq<SnapshotFrame>, p: Sent)
    requires 0 < frames == |history| && ServerFresh(frames, sent, history) && p.frame.valid
    requires forall i | 0 <= i < |sent| :: Tick(sent, i) < p.frame.tick
    ensures ServerFresh(frames, sent + [p], Store(history, p.frame))
  {
    hide Get, Store;
    var sent', m := sent + [p], |sent|;
    forall i, k | 0 <= i < k < |sent'| && Get(Store(history, p.frame), Tick(sent', i)).Some?
      ensures !Clash(frames, sent', i, k)
    {
      Found(history, p.frame, Tick(sent', i));
      assert Tick(sent', i) == Tick(sent, i) < p.frame.tick;
      if k < m { assert !Clash(frames, sent, i, k); }
    }
  }

  lemma HoldsAfterEncode(frames: nat, sent: seq<Sent>, ring: seq<SnapshotFrame>, applied: set<nat>, newest: int,
                         p: Sent)
    requires 0 < frames && ClientHolds(frames, sent, ring, applied, newest)
    ensures ClientHolds(frames, sent + [p], ring, applied, newest)
  {
    hide Get;
    forall i | i in applied ensures Holds(frames, sent + [p], ring, newest, i) {
      assert Holds(frames, sent, ring, newest, i);
      if k :| i < k <= newest && Clash(frames, sent, i, k) {
        assert Clash(frames, sent + [p], i, k);
      }
    }
  }

  lemma BasesAfterEncode(frames: nat, s: State, p: Sent)
    requires Ordered(frames, s) && p.base == Baseline(s.server, p.frame.tick)
    ensures BasesHeld(frames, s.sent + [p], s.applied)
  {
    hide ClientHolds;
    var sent', m := s.sent + [p], |s.sent|;
    forall i | 0 <= i < |sent'| && sent'[i].base.Some? ensures exists j: nat :: BaseIs(frames, sent', s.applied, i, j) {
      if i < m {
        var j: nat :| BaseIs(frames, s.sent, s.applied, i, j);
        assert forall k | j < k <= i :: Clash(frames, sent', j, k) == Clash(frames, s.sent, j, k);
        assert BaseIs(frames, sent', s.applied, i, j);
      } else {
        var j :| j in s.applied && j < m && Tick(s.sent, j) == s.server.lastAcked;
        assert forall k | j < k < m :: Clash(frames, sent', j, k) == Clash(frames, s.sent, j, k);
        assert BaseIs(frames, sent', s.applied, m, j);
      }
    }
  }

  lemma AcksOrdered(kindOf: u32 -> u8, frames: nat, s: State, step: Step)
    requires Ordered(frames, s) && Enabled(kindOf, s, step) && (step.SendAck? || step.ReceiveAck?)
    ensures Ordered(frames, Apply(kindOf, s, step))
  {
    hide ServerFresh, ClientHolds, BasesHeld, IsApplied;
  }

  lemma {:induction false} OrderedRunKeeps(kindOf: u32 -> u8, frames: nat, steps: seq<Step>)
    requires 0 < frames && OrderedRun(kindOf, frames, steps).Some?
    ensures var s := OrderedRun(kindOf, frames, steps).value;
            Inv(kindOf, s) && Ordered(frames, s)
  {
    if steps != [] {
      hide Inv, Ordered, Enabled, Apply;
      OrderedRunKeeps(kindOf, frames, steps[..|steps| - 1]);
      OrderedStep(kindOf, frames, OrderedRun(kindOf, frames, steps[..|steps| - 1]).value, steps[|steps| - 1]);
    }
  }

  lemma OrderedStep(kindOf: u32 -> u8, frames: nat, s: State, step: Step)
    requires Inv(kindOf, s) && Ordered(frames, s) && Enabled(kindOf, s, step) && KeepsOrder(s, step)
    ensures Inv(kindOf, Apply(kindOf, s, step)) && Ordered(frames, Apply(kindOf, s, step))
  {
    hide Inv, Ordered;
    StepKeeps(kindOf, s, step);
    match step
    case Encode(falloff, budget, v, choice, padding) =>
      ChoiceSize(s.server, falloff, budget, v, choice);
      hide EncodeStep;
      EncodeOrdered(kindOf, frames, s, falloff, budget, v, choice, padding);
    case Deliver(n) =>
      hide DeliverStep;
      DeliverOrdered(kindOf, frames, s, n);
    case SendAck => AcksOrdered(kindOf, frames, s, step);
    case ReceiveAck(_) => AcksOrdered(kindOf, frames, s, step);
  }

  /** Without a ring every snapshot is a full one. */
  ghost predicate AllFull(s: State) {
    s.server.history == [] && forall i | 0 <= i < |s.sent| :: s.sent[i].base.None?
  }

  lemma FullStep(kindOf: u32 -> u8, s: State, step: Step)
    requires AllFull(s) && Enabled(kindOf, s, step)
    ensures AllFull(Apply(kindOf, s, step))
  {
    hide ApplySnapshot, CarryOver, Ranking, WireBits;
    if step.Encode? { ChoiceSize(s.server, step.falloff, step.budgetBits, step.scene, step.choice); }
  }

  lemma {:induction false} FullRun(kindOf: u32 -> u8, steps: seq<Step>)
    requires OrderedRun(kindOf, 0, steps).Some?
    ensures var s := OrderedRun(kindOf, 0, steps).value; Inv(kindOf, s) && AllFull(s)
  {
    if steps != [] {
      hide Inv, AllFull, Enabled, Apply;
      FullRun(kindOf, steps[..|steps| - 1]);
      var s := OrderedRun(kindOf, 0, steps[..|steps| - 1]).value;
      StepKeeps(kindOf, s, steps[|steps| - 1]);
      FullStep(kindOf, s, steps[|steps| - 1]);
    }
  }

  /** No snapshot is ever rejected on an order-preserving link, whatever happens
      to the acks, for rings of any equal capacity. */
  lemma NeverRejected(kindOf: u32 -> u8, frames: nat, steps: seq<Step>, n: nat)
    requires OrderedRun(kindOf, frames, steps).Some?
    requires var s := OrderedRun(kindOf, frames, steps).value; n < |s.sent| && s.newest <= n
    ensures var s := OrderedRun(kindOf, frames, steps).value;
            ApplySnapshot(s.client, s.sent[n].bits).1
  {
    hide OrderedRun, ApplySnapshot;
    var s := OrderedRun(kindOf, frames, steps).value;
    if frames == 0 {
      FullRun(kindOf, steps);
      AcceptsExactly(kindOf, s, n);
    } else {
      OrderedRunKeeps(kindOf, frames, steps);
      Accepted(kindOf, frames, s, n);
    }
  }
}
