/**
 Per-client replication on values: the ring of recent frames, the baseline, the
 priorities that decide who gets into a contended packet, and what one encode
 does to all of them.
 */
module Replication {
  import opened Sequence
  import opened SequenceBuffers
  import opened Bits
  import opened Snapshot
  import opened Recording

  const WORST_CASE_BITS: nat := 40 + 1 + 1 + 1 + 16 + 16 + VELOCITY_BITS * 2 + KIND_BITS
  const COUNT_BITS: nat := 16

  // ---------------------------------------------------------------------------
  // The ring of recent frames

  function SlotOf(frames: seq<SnapshotFrame>, tick: u32): (i: nat)
    requires frames != []
    ensures i < |frames|
  {
    tick % |frames|
  }

  /** The frame for `tick`, only if that exact tick still occupies its slot. */
  function Get(frames: seq<SnapshotFrame>, tick: u32): (r: Option<SnapshotFrame>)
    ensures r.Some? ==> r.value.tick == tick && r.value.valid && r.value in frames
  {
    if frames == [] then None
    else
      var frame := frames[SlotOf(frames, tick)];
      if !frame.valid || frame.tick != tick then None else Some(frame)
  }

  function Store(frames: seq<SnapshotFrame>, frame: SnapshotFrame): (r: seq<SnapshotFrame>)
    ensures |r| == |frames|
  {
    if frames == [] then frames else frames[SlotOf(frames, frame.tick) := frame]
  }

  lemma StoredIsFound(frames: seq<SnapshotFrame>, frame: SnapshotFrame, tick: u32)
    requires frames != [] && frame.valid
    ensures Get(Store(frames, frame), tick)
         == if tick == frame.tick then Some(frame)
            else if SlotOf(frames, tick) == SlotOf(frames, frame.tick) then None
            else Get(frames, tick)
  {
  }

  datatype Carried = Carried(id: u32, priority: real)

  datatype Server = Server(history: seq<SnapshotFrame>, lastAcked: u32, hasAcked: bool, priority: seq<Carried>)

  function Acknowledge(s: Server, tick: u32): Server {
    if s.hasAcked && !Greater32(tick, s.lastAcked) then s else s.(lastAcked := tick, hasAcked := true)
  }

  /** The frame to encode against.  One that shares the slot of the frame about
      to be written is not usable. */
  function Baseline(s: Server, tick: u32): Option<SnapshotFrame> {
    if !s.hasAcked then None
    else
      var base := Get(s.history, s.lastAcked);
      if base.Some? && SlotOf(s.history, s.lastAcked) == SlotOf(s.history, tick) then None else base
  }

  // ---------------------------------------------------------------------------
  // Priorities

  /** What one viewer is to be told at one tick: the relevant entities in id
      order, and how close each is to the viewer. */
  datatype Scene = Scene(tick: u32, viewer: u32, lastInput: u32, current: seq<EntityWireState>, closeness: seq<real>) {
    predicate Valid() {
      && Sorted(current) && |closeness| == |current|
      && forall i | 0 <= i < |closeness| :: 0.0 <= closeness[i] <= 1.0
    }
  }

  predicate Changed(base: Option<SnapshotFrame>, s: EntityWireState) {
    var p := PreviousOf(base, s.id);
    !(p.Some? && s.SameStateAs(p.value))
  }

  /** The credit an entity carries from earlier encodes. */
  function CreditOf(priority: seq<Carried>, id: u32): real {
    if priority == [] then 0.0
    else if priority[0].id == id then priority[0].priority
    else CreditOf(priority[1..], id)
  }

  function PriorityOf(credit: real, closeness: real, falloff: real, isViewer: bool): real {
    credit + closeness * falloff + 0.01 + (if isViewer then 1000000.0 else 0.0)
  }

  /** The priority of each entity that has something to send. */
  function Ranking(s: Server, base: Option<SnapshotFrame>, falloff: real, v: Scene): (p: seq<Option<real>>)
    requires v.Valid()
    ensures |p| == |v.current|
  {
    seq(|v.current|, i requires 0 <= i < |v.current| => RankOf(s, base, falloff, v, i))
  }

  function RankOf(s: Server, base: Option<SnapshotFrame>, falloff: real, v: Scene, i: nat): Option<real>
    requires i < |v.current| == |v.closeness|
  {
    if !Changed(base, v.current[i]) then None
    else Some(PriorityOf(CreditOf(s.priority, v.current[i].id), v.closeness[i], falloff, v.current[i].id == v.viewer))
  }

  function Count(flags: seq<bool>): (n: nat)
    ensures n <= |flags|
  {
    if flags == [] then 0 else Count(flags[..|flags| - 1]) + (if flags[|flags| - 1] then 1 else 0)
  }

  function Candidates(rank: seq<Option<real>>): (flags: seq<bool>)
    ensures |flags| == |rank| && forall i | 0 <= i < |rank| :: flags[i] == rank[i].Some?
  {
    seq(|rank|, i requires 0 <= i < |rank| => rank[i].Some?)
  }

  /** `sent` is some choice of the `fits` best candidates, or all of them. */
  ghost predicate TopSet(sent: seq<bool>, rank: seq<Option<real>>, fits: nat) {
    && |sent| == |rank|
    && (forall i | 0 <= i < |sent| :: sent[i] ==> rank[i].Some?)
    && Count(sent) == (if Count(Candidates(rank)) <= fits then Count(Candidates(rank)) else fits)
    && (forall i, j | 0 <= i < |sent| && 0 <= j < |sent| ::
          sent[i] && !sent[j] && rank[j].Some? ==> rank[i].value >= rank[j].value)
  }

  /** Credit for the next encode: candidates among the first `n` that were not sent,
      unless their priority is negative. */
  ghost function CarryOver(current: seq<EntityWireState>, rank: seq<Option<real>>, sent: seq<bool>,
                           n: nat): seq<Carried>
    requires n <= |current| == |rank| == |sent|
  {
    if n == 0 then []
    else
      var head := CarryOver(current, rank, sent, n - 1);
      if !sent[n - 1] && rank[n - 1].Some? && rank[n - 1].value >= 0.0 then
        head + [Carried(current[n - 1].id, rank[n - 1].value)]
      else head
  }

  // ---------------------------------------------------------------------------
  // One encode

  function FitCount(availableBits: int): nat {
    if availableBits <= COUNT_BITS then 0 else (availableBits - COUNT_BITS) / WORST_CASE_BITS
  }

  ghost function HeadBits(v: Scene, base: Option<SnapshotFrame>): seq<bool>
    requires v.Valid() && (base.Some? ==> Sorted(base.value.states))
  {
    RemovedAscends(base, v.current);
    PreludeBits(v.tick, TickOf(base), v.lastInput, v.viewer) + RemovedBits(Removed(base, v.current))
  }

  lemma RemovedAscends(base: Option<SnapshotFrame>, current: seq<EntityWireState>)
    requires base.Some? ==> Sorted(base.value.states)
    ensures Ascending(Removed(base, current))
  {
    if base.Some? { DepartedIs(base.value.states, current); }
  }

  ghost function WireBits(v: Scene, base: Option<SnapshotFrame>, sent: seq<bool>): seq<bool>
    requires v.Valid() && (base.Some? ==> Sorted(base.value.states)) && |sent| == |v.current|
  {
    RemovedAscends(base, v.current);
    UpdatesAre(base, v.current, sent, |v.current|);
    SnapshotBits(v.tick, TickOf(base), v.lastInput, v.viewer, Removed(base, v.current),
                 Updates(base, v.current, sent, |v.current|))
  }

  /** Decoding the bits of any snapshot against its baseline gives what was current
      if it was sent, and else what the baseline had, with departed ids gone; it
      does so if and only if no entity changed its kind. */
  lemma SceneRoundTrip(c: Cursor, v: Scene, base: Option<SnapshotFrame>, sent: seq<bool>)
    requires v.Valid() && (base.Some? ==> base.value.valid && Sorted(base.value.states)) && |sent| == |v.current|
    requires |Removed(base, v.current)| <= MAX_REMOVED && |Updates(base, v.current, sent, |v.current|)| < 0x1_0000
    requires Before(c, WireBits(v, base, sent))
    ensures var r := DecodeSnapshot(c, base);
            && r.Some? && r.value.header.tick == v.tick && r.value.lastInput == v.lastInput
            && r.value.viewer == v.viewer
            && r.value.removed == Removed(base, v.current)
            && (r.value.states == Recorded(base, v.current, sent, |v.current|) <==> KindsStable(base, v.current, sent))
  {
    hide Before, SnapshotBits, DecodeSnapshot, Removed, Updates, Recorded, KindsStable;
    RemovedAscends(base, v.current);
    UpdatesAre(base, v.current, sent, |v.current|);
    SnapshotRoundTrip(c, v.tick, base, v.lastInput, v.viewer, v.current, sent);
  }

  /** Every frame of the ring is in id order. */
  ghost predicate RingSorted(frames: seq<SnapshotFrame>) {
    forall f <- frames :: Sorted(f.states)
  }

  lemma BaselineSorted(s: Server, tick: u32)
    requires RingSorted(s.history)
    ensures var b := Baseline(s, tick);
            b.Some? ==> b.value.valid && b.value.tick == s.lastAcked && Sorted(b.value.states) && b.value in s.history
  {
  }

  /** The header leaves room for the update count. */
  ghost predicate HeaderFits(s: Server, v: Scene, budgetBits: nat)
    requires v.Valid() && RingSorted(s.history)
  {
    BaselineSorted(s, v.tick);
    |HeadBits(v, Baseline(s, v.tick))| + COUNT_BITS <= budgetBits
  }

  ghost function FrameOf(s: Server, v: Scene, sent: seq<bool>): SnapshotFrame
    requires |sent| == |v.current|
  {
    SnapshotFrame(v.tick, true, Recorded(Baseline(s, v.tick), v.current, sent, |v.current|))
  }

  /** `sent` is a best choice for the space the header leaves. */
  ghost predicate Chooses(s: Server, falloff: real, budgetBits: nat, v: Scene, sent: seq<bool>)
    requires v.Valid() && RingSorted(s.history)
  {
    BaselineSorted(s, v.tick);
    var base := Baseline(s, v.tick);
    && HeaderFits(s, v, budgetBits)
    && TopSet(sent, Ranking(s, base, falloff, v), FitCount(budgetBits - |HeadBits(v, base)|))
  }

  /** The state after an encode that sends `sent`: the frame and the credits are
      recorded. */
  ghost function AfterEncode(s: Server, falloff: real, v: Scene, sent: seq<bool>): Server
    requires v.Valid() && |sent| == |v.current|
  {
    Server(Store(s.history, FrameOf(s, v, sent)), s.lastAcked, s.hasAcked,
           CarryOver(v.current, Ranking(s, Baseline(s, v.tick), falloff, v), sent, |v.current|))
  }

  // ---------------------------------------------------------------------------
  // Budget arithmetic

  lemma {:induction false} VarintSize(v: nat, groups: nat)
    requires 0 < groups && v < Pow2(7 * groups)
    ensures 8 <= |VarintBits(v)| <= 8 * groups
    decreases groups
  {
    if v >= 128 {
      GroupFits(v, groups);
      VarintSize(v / 128, groups - 1);
    }
  }

  lemma VarintSize32(v: u32)
    ensures 8 <= |VarintBits(v)| <= 40
  {
    assert v < Pow2(35) by {
      Pow2Values();
      Pow2Add(32, 3);
    }
    VarintSize(v, 5);
  }

  /** Every form of record fits the worst case the selection budgets for. */
  lemma RecordSize(u: Update, previousId: u32)
    requires previousId <= u.current.id
    ensures |RecordBits(u, previousId)| <= WORST_CASE_BITS
  {
    VarintSize32(u.current.id - previousId);
    hide VarintBits, FromNat;
  }

  lemma {:induction false} RecordsSize(updates: seq<Update>, previousId: u32)
    requires InOrder(updates) && (updates != [] ==> previousId <= updates[0].current.id)
    ensures |RecordsBits(updates, previousId)| <= WORST_CASE_BITS * |updates|
    decreases |updates|
  {
    hide RecordBits, InOrder;
    if updates != [] {
      TailInOrder(updates);
      RecordSize(updates[0], previousId);
      RecordsSize(updates[1..], updates[0].current.id);
    }
  }

  lemma TailInOrder(updates: seq<Update>)
    requires InOrder(updates) && updates != []
    ensures InOrder(updates[1..]) && (updates[1..] != [] ==> updates[0].current.id <= updates[1..][0].current.id)
  {
  }

  lemma FitArithmetic(head: nat, count: nat, records: nat, budgetBits: nat)
    requires head + COUNT_BITS <= budgetBits && count <= FitCount(budgetBits - head)
    requires records <= WORST_CASE_BITS * count
    ensures head + (COUNT_BITS + records) <= budgetBits
    ensures budgetBits < WORST_CASE_BITS * 0x1_0000 ==> count < 0x1_0000
  {
  }

  lemma {:induction false} IdsSize(ids: seq<u32>, previousId: u32)
    requires Ascending(ids) && (ids != [] ==> previousId <= ids[0])
    ensures |IdsBits(ids, previousId)| >= 8 * |ids|
    decreases |ids|
  {
    if ids != [] {
      hide VarintBits;
      VarintSize32(ids[0] - previousId);
      IdsSize(ids[1..], ids[0]);
    }
  }

  lemma {:induction false} UpdatesCount(base: Option<SnapshotFrame>, current: seq<EntityWireState>, sent: seq<bool>,
                                        n: nat)
    requires n <= |current| == |sent|
    ensures |Updates(base, current, sent, n)| == Count(sent[..n])
  {
    if n > 0 {
      UpdatesCount(base, current, sent, n - 1);
      assert sent[..n][..n - 1] == sent[..n - 1];
    }
  }

  /** Whenever the header leaves room for the count, the records selected for the
      rest never overflow.  The update count fits its field for budgets of up to 101
      times 65536 bits, and the removals are few enough for the decoder for budgets
      of up to 65535 bytes. */
  lemma BudgetHolds(s: Server, falloff: real, budgetBits: nat, v: Scene, sent: seq<bool>)
    requires v.Valid() && RingSorted(s.history) && Chooses(s, falloff, budgetBits, v, sent)
    ensures var base := Baseline(s, v.tick);
            && (base.Some? ==> Sorted(base.value.states)) && |sent| == |v.current|
            && |WireBits(v, base, sent)| <= budgetBits
            && (budgetBits < WORST_CASE_BITS * 0x1_0000 ==> |Updates(base, v.current, sent, |v.current|)| < 0x1_0000)
            && (budgetBits <= 8 * MAX_REMOVED ==> |Removed(base, v.current)| <= MAX_REMOVED)
  {
    hide Ascending, InOrder, TopSet, Updates, Removed, RecordsBits, RemovedBits, PreludeBits, FitCount, Sorted,
      Ranking;
    BaselineSorted(s, v.tick);
    var base := Baseline(s, v.tick);
    var head := |HeadBits(v, base)|;
    TopCount(sent, Ranking(s, base, falloff, v), FitCount(budgetBits - head));
    var updates, removed := Updates(base, v.current, sent, |v.current|), Removed(base, v.current);
    RemovedAscends(base, v.current);
    UpdatesAre(base, v.current, sent, |v.current|);
    UpdatesCount(base, v.current, sent, |v.current|);
    assert sent[..|v.current|] == sent;
    RecordsSize(updates, 0);
    FitArithmetic(head, |updates|, |RecordsBits(updates, 0)|, budgetBits);
    RemovedSize(removed);
  }

  lemma RemovedSize(removed: seq<u32>)
    requires Ascending(removed)
    ensures |RemovedBits(removed)| >= 8 * |removed|
  {
    IdsSize(removed, 0);
  }

  lemma TopCount(sent: seq<bool>, rank: seq<Option<real>>, fits: nat)
    requires TopSet(sent, rank, fits)
    ensures Count(sent) <= fits && |sent| == |rank|
  {
  }
}
