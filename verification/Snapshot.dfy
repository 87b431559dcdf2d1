/**
 The delta-snapshot codec: the bits of a snapshot, the decoder, and the proof
 that decoding against the same baseline gives back exactly what was recorded.
 */
module Snapshot {
  import opened Sequence
  import opened SequenceBuffers
  import opened Bits

  type u8 = byte
  type u12 = x: int | 0 <= x < 0x1000

  const SMALL_MIN: int := -2048
  const SMALL_MAX: int := 2047
  const VELOCITY_BITS: nat := 12
  const KIND_BITS: nat := 2
  const MAX_REMOVED: nat := 65535

  /** One entity as it exists on the wire, already quantized. */
  datatype EntityWireState = EntityWireState(id: u32, px: u16, py: u16, vx: u12, vy: u12, kind: u8) {
    predicate SameStateAs(o: EntityWireState) {
      px == o.px && py == o.py && vx == o.vx && vy == o.vy && kind == o.kind
    }
  }

  datatype SnapshotFrame = SnapshotFrame(tick: u32, valid: bool, states: seq<EntityWireState>)

  // ---------------------------------------------------------------------------
  // Entity lists sorted by id

  predicate Sorted(states: seq<EntityWireState>) {
    forall i, j | 0 <= i < j < |states| :: states[i].id < states[j].id
  }

  /** Index of the first entity whose id is not below `id`. */
  function LowerBound(states: seq<EntityWireState>, id: u32): (at: nat)
    ensures at <= |states|
    ensures Sorted(states) ==>
              (forall i | 0 <= i < at :: states[i].id < id) && (forall i | at <= i < |states| :: states[i].id >= id)
  {
    if states == [] || states[0].id >= id then 0 else 1 + LowerBound(states[1..], id)
  }

  function Find(states: seq<EntityWireState>, id: u32): (r: Option<EntityWireState>)
    ensures r.Some? ==> r.value.id == id
    ensures Sorted(states) ==> forall i | 0 <= i < |states| :: states[i].id == id ==> r == Some(states[i])
    ensures r.Some? ==> r.value in states
  {
    var at := LowerBound(states, id);
    if at < |states| && states[at].id == id then Some(states[at]) else None
  }

  /** Replaces the entity with this id, or inserts it in order. */
  function Upsert(states: seq<EntityWireState>, state: EntityWireState): seq<EntityWireState> {
    var at := LowerBound(states, state.id);
    if at < |states| && states[at].id == state.id then states[at := state]
    else states[..at] + [state] + states[at..]
  }

  /** In a sorted list, lookup is membership. */
  lemma FindIsMembership(states: seq<EntityWireState>, x: EntityWireState)
    requires Sorted(states)
    ensures x in states <==> Find(states, x.id) == Some(x)
  {
  }

  /** Sorted lists with the same lookups are equal. */
  lemma {:induction false} SortedExtensional(a: seq<EntityWireState>, b: seq<EntityWireState>)
    requires Sorted(a) && Sorted(b) && forall x :: x in a <==> x in b
    ensures a == b
    decreases |a|
  {
    if a == [] {
      HeadIsMember(b);
    } else {
      assert a[0] in a && a[0] in b;
      assert b[0] in b && b[0] in a;
      HeadsEqual(a, b);
      forall x ensures x in a[1..] <==> x in b[1..] {
        TailMembership(a, x);
        TailMembership(b, x);
      }
      assert Sorted(a[1..]) && Sorted(b[1..]);
      hide Sorted;
      SortedExtensional(a[1..], b[1..]);
      assert a == [a[0]] + a[1..] && b == [b[0]] + b[1..];
    }
  }

  lemma HeadsEqual(a: seq<EntityWireState>, b: seq<EntityWireState>)
    requires Sorted(a) && Sorted(b) && a != [] && b != [] && a[0] in b && b[0] in a
    ensures a[0] == b[0]
  {
    var i :| 0 <= i < |b| && b[i] == a[0];
    var j :| 0 <= j < |a| && a[j] == b[0];
  }

  lemma HeadIsMember(b: seq<EntityWireState>)
    ensures b == [] || b[0] in b
  {
  }

  lemma TailMembership(a: seq<EntityWireState>, x: EntityWireState)
    requires Sorted(a) && a != []
    ensures x in a[1..] <==> x in a && x != a[0]
  {
    if x in a && x != a[0] {
      var i :| 0 <= i < |a| && a[i] == x;
      assert a[1..][i - 1] == x;
    }
  }

  lemma ReplaceKeeps(states: seq<EntityWireState>, s: EntityWireState, at: nat)
    requires Sorted(states) && at < |states| && states[at].id == s.id
    ensures Sorted(states[at := s])
    ensures forall x :: x in states[at := s] <==> x == s || (x in states && x.id != s.id)
  {
    forall x ensures x in states[at := s] <==> x == s || (x in states && x.id != s.id) {
      ReplaceHas(states, s, at, x);
    }
  }

  lemma ReplaceHas(states: seq<EntityWireState>, s: EntityWireState, at: nat, x: EntityWireState)
    requires Sorted(states) && at < |states| && states[at].id == s.id
    ensures x in states[at := s] <==> x == s || (x in states && x.id != s.id)
  {
    var r := states[at := s];
    assert r[at] == s;
    if x in states && x.id != s.id {
      var i :| 0 <= i < |states| && states[i] == x;
      assert r[i] == x;
    }
    if x in r {
      var i :| 0 <= i < |r| && r[i] == x;
      assert i != at ==> x == states[i];
    }
  }

  lemma InsertMembers(states: seq<EntityWireState>, s: EntityWireState, at: nat, x: EntityWireState)
    requires at <= |states|
    ensures x in states[..at] + [s] + states[at..] <==> x == s || x in states
  {
    assert states == states[..at] + states[at..];
  }

  lemma InsertSorted(states: seq<EntityWireState>, s: EntityWireState, at: nat)
    requires Sorted(states) && at <= |states|
    requires (forall i | 0 <= i < at :: states[i].id < s.id) && (forall i | at <= i < |states| :: states[i].id > s.id)
    ensures Sorted(states[..at] + [s] + states[at..])
  {
    var r := states[..at] + [s] + states[at..];
    forall i, j | 0 <= i < j < |r| ensures r[i].id < r[j].id {
      assert r[i] == if i < at then states[i] else if i == at then s else states[i - 1];
      assert r[j] == if j < at then states[j] else if j == at then s else states[j - 1];
    }
  }

  lemma UpsertKeeps(states: seq<EntityWireState>, s: EntityWireState)
    requires Sorted(states)
    ensures Sorted(Upsert(states, s))
    ensures forall x :: x in Upsert(states, s) <==> x == s || (x in states && x.id != s.id)
  {
    var at := LowerBound(states, s.id);
    if at < |states| && states[at].id == s.id {
      ReplaceKeeps(states, s, at);
    } else {
      InsertAway(states, s, at);
      InsertSorted(states, s, at);
      hide Sorted;
      forall x ensures x in Upsert(states, s) <==> x == s || (x in states && x.id != s.id) {
        InsertMembers(states, s, at, x);
      }
    }
  }

  /** No entity but the one to be replaced has its id. */
  lemma InsertAway(states: seq<EntityWireState>, s: EntityWireState, at: nat)
    requires Sorted(states) && at == LowerBound(states, s.id) && (at < |states| ==> states[at].id != s.id)
    ensures forall i | at <= i < |states| :: states[i].id > s.id
    ensures forall x <- states :: x.id != s.id
  {
    hide LowerBound;
    forall i | at <= i < |states| ensures states[i].id > s.id {
      assert states[at].id > s.id && states[at].id <= states[i].id;
    }
    hide Sorted;
    forall x | x in states ensures x.id != s.id {
      var i :| 0 <= i < |states| && states[i] == x;
    }
  }

  /** The list without the given ids. */
  function Without(states: seq<EntityWireState>, removed: seq<u32>): seq<EntityWireState> {
    if states == [] then []
    else
      var rest := Without(states[..|states| - 1], removed);
      var last := states[|states| - 1];
      if last.id in removed then rest else rest + [last]
  }

  lemma {:induction false} WithoutKeeps(states: seq<EntityWireState>, removed: seq<u32>)
    requires Sorted(states)
    ensures Sorted(Without(states, removed))
    ensures forall x :: x in Without(states, removed) <==> x in states && x.id !in removed
  {
    hide Without, Sorted;
    forall x ensures x in Without(states, removed) <==> x in states && x.id !in removed {
      WithoutHas(states, removed, x);
    }
    WithoutInOrder(states, removed);
  }

  lemma {:induction false} WithoutInOrder(states: seq<EntityWireState>, removed: seq<u32>)
    requires Sorted(states)
    ensures Sorted(Without(states, removed))
  {
    hide Without, Sorted;
    WithoutLast(states, removed);
    if states != [] {
      var head, last := states[..|states| - 1], states[|states| - 1];
      SortedFront(states);
      WithoutInOrder(head, removed);
      forall x | x in Without(head, removed) ensures x.id < last.id { WithoutHas(head, removed, x); }
      if last.id !in removed { SortedAppend(Without(head, removed), last); }
    }
  }

  lemma WithoutLast(states: seq<EntityWireState>, removed: seq<u32>)
    ensures states == [] ==> Without(states, removed) == [] && Sorted(Without(states, removed))
    ensures states != [] ==>
              var head, last := Without(states[..|states| - 1], removed), states[|states| - 1];
              Without(states, removed) == if last.id in removed then head else head + [last]
  {
  }

  lemma SortedFront(states: seq<EntityWireState>)
    requires Sorted(states) && states != []
    ensures Sorted(states[..|states| - 1]) && forall x <- states[..|states| - 1] :: x.id < states[|states| - 1].id
  {
    var head := states[..|states| - 1];
    forall x | x in head ensures x.id < states[|states| - 1].id {
      var i :| 0 <= i < |head| && head[i] == x;
      assert states[i] == x;
    }
  }

  lemma {:induction false} WithoutHas(states: seq<EntityWireState>, removed: seq<u32>, x: EntityWireState)
    ensures x in Without(states, removed) <==> x in states && x.id !in removed
  {
    hide Without;
    WithoutLast(states, removed);
    if states != [] {
      var head, last := states[..|states| - 1], states[|states| - 1];
      WithoutHas(head, removed, x);
      assert states == head + [last];
    }
  }

  lemma SortedAppend(states: seq<EntityWireState>, last: EntityWireState)
    requires Sorted(states) && forall x <- states :: x.id < last.id
    ensures Sorted(states + [last])
  {
  }

  // ---------------------------------------------------------------------------
  // The bits of a snapshot

  function BoolBits(b: bool): seq<bool> {
    FromNat(if b then 1 else 0, 1)
  }

  /** An entity to send: its state now, and in the baseline if it is there. */
  datatype Update = Update(current: EntityWireState, previous: Option<EntityWireState>)

  predicate Moved(a: EntityWireState, b: EntityWireState) {
    a.px != b.px || a.py != b.py
  }

  predicate Turned(a: EntityWireState, b: EntityWireState) {
    a.vx != b.vx || a.vy != b.vy
  }

  predicate Small(d: int) {
    SMALL_MIN <= d <= SMALL_MAX
  }

  predicate SmallMove(a: EntityWireState, b: EntityWireState) {
    Small(a.px - b.px) && Small(a.py - b.py)
  }

  function VelocityBits(s: EntityWireState): seq<bool> {
    FromNat(s.vx, VELOCITY_BITS) + FromNat(s.vy, VELOCITY_BITS)
  }

  function FullBits(s: EntityWireState): seq<bool> {
    FromNat(s.px, 16) + (FromNat(s.py, 16) + (VelocityBits(s) + FromNat(s.kind % 4, KIND_BITS)))
  }

  function PositionBits(s: EntityWireState, p: EntityWireState): seq<bool> {
    if !Moved(s, p) then BoolBits(false)
    else if SmallMove(s, p) then
      BoolBits(true) + (BoolBits(true) + (FromNat(s.px - p.px - SMALL_MIN, 12) + FromNat(s.py - p.py - SMALL_MIN, 12)))
    else
      BoolBits(true) + (BoolBits(false) + (FromNat(s.px, 16) + FromNat(s.py, 16)))
  }

  function VelocityChangeBits(s: EntityWireState, p: EntityWireState): seq<bool> {
    if !Turned(s, p) then BoolBits(false)
    else BoolBits(true) + VelocityBits(s)
  }

  function BodyBits(u: Update): seq<bool> {
    match u.previous
    case None => FullBits(u.current)
    case Some(p) => PositionBits(u.current, p) + VelocityChangeBits(u.current, p)
  }

  function RecordBits(u: Update, previousId: u32): seq<bool>
    requires previousId <= u.current.id
  {
    VarintBits(u.current.id - previousId) + (BoolBits(u.previous.None?) + BodyBits(u))
  }

  predicate Ascending(ids: seq<u32>) {
    forall i, j | 0 <= i < j < |ids| :: ids[i] < ids[j]
  }

  function IdsBits(ids: seq<u32>, previousId: u32): seq<bool>
    requires Ascending(ids) && (ids != [] ==> previousId <= ids[0])
  {
    if ids == [] then [] else VarintBits(ids[0] - previousId) + IdsBits(ids[1..], ids[0])
  }

  predicate InOrder(updates: seq<Update>) {
    forall i, j | 0 <= i < j < |updates| :: updates[i].current.id < updates[j].current.id
  }

  function RecordsBits(updates: seq<Update>, previousId: u32): seq<bool>
    requires InOrder(updates) && (updates != [] ==> previousId <= updates[0].current.id)
  {
    if updates == [] then [] else RecordBits(updates[0], previousId) + RecordsBits(updates[1..], updates[0].current.id)
  }

  function BaseBits(base: Option<u32>): seq<bool> {
    match base
    case None => BoolBits(true)
    case Some(t) => BoolBits(false) + FromNat(t, 32)
  }

  function PreludeBits(tick: u32, base: Option<u32>, lastInput: u32, viewer: u32): seq<bool> {
    FromNat(tick, 32) + (BaseBits(base) + (FromNat(lastInput, 32) + VarintBits(viewer)))
  }

  function RemovedBits(removed: seq<u32>): seq<bool>
    requires Ascending(removed)
  {
    VarintBits(|removed|) + IdsBits(removed, 0)
  }

  /** The 16-bit update count, truncated. */
  function CountField(n: nat): nat { n % 0x1_0000 }

  function UpdatesBits(updates: seq<Update>): seq<bool>
    requires InOrder(updates)
  {
    FromNat(CountField(|updates|), 16) + RecordsBits(updates, 0)
  }

  function SnapshotBits(tick: u32, base: Option<u32>, lastInput: u32, viewer: u32,
                        removed: seq<u32>, updates: seq<Update>): seq<bool>
    requires Ascending(removed) && InOrder(updates)
  {
    PreludeBits(tick, base, lastInput, viewer) + (RemovedBits(removed) + UpdatesBits(updates))
  }

  // ---------------------------------------------------------------------------
  // Decoding

  function TakeId(c: Cursor, previousId: u32): (u32, Cursor) {
    var (gap, d) := c.TakeVarint();
    ((previousId + gap) % 0x1_0000_0000, d)
  }

  function TakeIds(c: Cursor, n: nat, previousId: u32): (seq<u32>, Cursor)
    decreases n
  {
    if n == 0 then ([], c)
    else
      var (id, d) := TakeId(c, previousId);
      var (rest, e) := TakeIds(d, n - 1, id);
      ([id] + rest, e)
  }

  function TakeVelocity(c: Cursor, s: EntityWireState): (EntityWireState, Cursor) {
    Pow2Values();
    var (vx, d) := c.Take(VELOCITY_BITS);
    var (vy, e) := d.Take(VELOCITY_BITS);
    (s.(vx := vx, vy := vy), e)
  }

  function TakeFull(c: Cursor, s: EntityWireState): (EntityWireState, Cursor) {
    Pow2Values();
    var (px, d) := c.TakeU16();
    var (py, e) := d.TakeU16();
    var (t, f) := TakeVelocity(e, s.(px := px, py := py));
    var (kind, g) := f.Take(KIND_BITS);
    (t.(kind := kind), g)
  }

  function TakePosition(c: Cursor, s: EntityWireState): (EntityWireState, Cursor) {
    var (moved, d) := c.TakeBool();
    if !moved then (s, d)
    else
      var (small, e) := d.TakeBool();
      if small then
        var (dx, f) := e.TakeRanged(SMALL_MIN, SMALL_MAX);
        var (dy, g) := f.TakeRanged(SMALL_MIN, SMALL_MAX);
        (s.(px := Wrap(s.px + dx), py := Wrap(s.py + dy)), g)
      else
        var (px, f) := e.TakeU16();
        var (py, g) := f.TakeU16();
        (s.(px := px, py := py), g)
  }

  function TakeDelta(c: Cursor, s: EntityWireState): (EntityWireState, Cursor) {
    var (t, d) := TakePosition(c, s);
    var (turned, e) := d.TakeBool();
    if turned then TakeVelocity(e, t) else (t, e)
  }

  /** One record applied to the list: the list, the id read and the cursor. */
  function TakeRecord(c: Cursor, previousId: u32, states: seq<EntityWireState>)
    : Option<(seq<EntityWireState>, u32, Cursor)>
  {
    var (id, d) := TakeId(c, previousId);
    var (isNew, e) := d.TakeBool();
    if e.overflow then None
    else
      var known := Find(states, id);
      if !isNew && known.None? then None
      else
        var start := if known.Some? then known.value else EntityWireState(id, 0, 0, 0, 0, 0);
        var (state, f) := if isNew then TakeFull(e, start) else TakeDelta(e, start);
        if f.overflow then None else Some((Upsert(states, state), id, f))
  }

  function TakeRecords(c: Cursor, n: nat, previousId: u32, states: seq<EntityWireState>)
    : Option<seq<EntityWireState>>
    decreases n
  {
    if n == 0 then Some(states)
    else
      match TakeRecord(c, previousId, states)
      case None => None
      case Some((next, id, d)) => TakeRecords(d, n - 1, id, next)
  }

  datatype Header = Header(tick: u32, full: bool, baseTick: u32)

  /** Only the header, so the client can find the baseline a packet needs. */
  function PeekHeader(c: Cursor): (Header, Cursor) {
    var (tick, d) := c.TakeU32();
    var (full, e) := d.TakeBool();
    var (baseTick, f) := if full then (0, e) else e.TakeU32();
    (Header(tick, full, baseTick), f)
  }

  datatype Decoded = Decoded(
    header: Header, lastInput: u32, viewer: u32, states: seq<EntityWireState>, removed: seq<u32>)

  /** Header, input sequence and viewer. */
  function TakePrelude(c: Cursor): Option<(Header, u32, u32, Cursor)> {
    var (header, d) := PeekHeader(c);
    var (lastInput, e) := d.TakeU32();
    var (viewer, f) := e.TakeVarint();
    if f.overflow then None else Some((header, lastInput, viewer, f))
  }

  function TakeRemoved(c: Cursor): Option<(seq<u32>, Cursor)> {
    var (count, d) := c.TakeVarint();
    if d.overflow || count > MAX_REMOVED then None
    else
      var (removed, e) := TakeIds(d, count, 0);
      if e.overflow then None else Some((removed, e))
  }

  function TakeUpdates(c: Cursor, kept: seq<EntityWireState>): Option<seq<EntityWireState>> {
    var (updated, d) := c.TakeU16();
    if d.overflow then None else TakeRecords(d, updated, 0, kept)
  }

  predicate Usable(header: Header, baseline: Option<SnapshotFrame>) {
    header.full || (baseline.Some? && baseline.value.valid && baseline.value.tick == header.baseTick)
  }

  function DecodeSnapshot(c: Cursor, baseline: Option<SnapshotFrame>): Option<Decoded> {
    match TakePrelude(c)
    case None => None
    case Some((header, lastInput, viewer, d)) =>
      if !Usable(header, baseline) then None
      else
        match TakeRemoved(d)
        case None => None
        case Some((removed, e)) =>
          var kept := if header.full then [] else Without(baseline.value.states, removed);
          match TakeUpdates(e, kept)
          case None => None
          case Some(states) => Some(Decoded(header, lastInput, viewer, states, removed))
  }

  // ---------------------------------------------------------------------------
  // Reading back each part

  lemma BoolBefore(c: Cursor, b: bool)
    requires Before(c, BoolBits(b))
    ensures c.TakeBool() == (b, c.Skip(1))
  {
    TakeBefore(c, if b then 1 else 0, 1);
  }

  lemma SmallBefore(c: Cursor, d: int)
    requires Small(d) && Before(c, FromNat(d - SMALL_MIN, 12))
    ensures c.TakeRanged(SMALL_MIN, SMALL_MAX) == (d, c.Skip(12))
  {
    TwelveBits();
    hide Before, Pow2, FromNat, BitsRequired;
    TakeBefore(c, d - SMALL_MIN, 12);
  }

  lemma TwelveBits()
    ensures BitsRequired(SMALL_MAX - SMALL_MIN) == 12 && Pow2(12) == 4096
  {
    hide BitLength, Pow2;
    Pow2Values();
    OnesLength(12);
  }

  lemma VelocityBefore(c: Cursor, s: EntityWireState, start: EntityWireState)
    requires Before(c, VelocityBits(s))
    ensures TakeVelocity(c, start) == (start.(vx := s.vx, vy := s.vy), c.Skip(24))
  {
    TwelveBits();
    hide Before, Pow2, FromNat;
    BeforeSplit(c, FromNat(s.vx, 12), FromNat(s.vy, 12));
    TakeBefore(c, s.vx, 12);
    TakeBefore(c.Skip(12), s.vy, 12);
  }

  lemma FullBefore(c: Cursor, s: EntityWireState, start: EntityWireState)
    requires Before(c, FullBits(s))
    ensures TakeFull(c, start)
            == (start.(px := s.px, py := s.py, vx := s.vx, vy := s.vy, kind := s.kind % 4), c.Skip(58))
    ensures |FullBits(s)| == 58
  {
    Pow2Values();
    hide Before, Pow2, FromNat, VelocityBits, TakeVelocity, Cursor.TakeU16, Cursor.Take;
    var kind := FromNat(s.kind % 4, KIND_BITS);
    VelocitySize(s);
    BeforeSplit(c, FromNat(s.px, 16), FromNat(s.py, 16) + (VelocityBits(s) + kind));
    U16Before(c, s.px);
    BeforeSplit(c.Skip(16), FromNat(s.py, 16), VelocityBits(s) + kind);
    U16Before(c.Skip(16), s.py);
    BeforeSplit(c.Skip(32), VelocityBits(s), kind);
    VelocityBefore(c.Skip(32), s, start.(px := s.px, py := s.py));
    TakeBefore(c.Skip(56), s.kind % 4, KIND_BITS);
  }

  lemma VelocitySize(s: EntityWireState)
    ensures |VelocityBits(s)| == 24
  {
  }

  lemma PositionBefore(c: Cursor, s: EntityWireState, p: EntityWireState)
    requires Before(c, PositionBits(s, p))
    ensures TakePosition(c, p) == (p.(px := s.px, py := s.py), c.Skip(|PositionBits(s, p)|))
  {
    hide Before, FromNat, Cursor.TakeBool, Cursor.TakeRanged, Cursor.TakeU16;
    if !Moved(s, p) {
      BoolBefore(c, false);
    } else if SmallMove(s, p) {
      var dx, dy := FromNat(s.px - p.px - SMALL_MIN, 12), FromNat(s.py - p.py - SMALL_MIN, 12);
      BeforeSplit(c, BoolBits(true), BoolBits(true) + (dx + dy));
      BoolBefore(c, true);
      BeforeSplit(c.Skip(1), BoolBits(true), dx + dy);
      BoolBefore(c.Skip(1), true);
      BeforeSplit(c.Skip(2), dx, dy);
      SmallBefore(c.Skip(2), s.px - p.px);
      SmallBefore(c.Skip(14), s.py - p.py);
    } else {
      var px, py := FromNat(s.px, 16), FromNat(s.py, 16);
      BeforeSplit(c, BoolBits(true), BoolBits(false) + (px + py));
      BoolBefore(c, true);
      BeforeSplit(c.Skip(1), BoolBits(false), px + py);
      BoolBefore(c.Skip(1), false);
      BeforeSplit(c.Skip(2), px, py);
      U16Before(c.Skip(2), s.px);
      U16Before(c.Skip(18), s.py);
    }
  }

  lemma DeltaBefore(c: Cursor, s: EntityWireState, p: EntityWireState)
    requires Before(c, PositionBits(s, p) + VelocityChangeBits(s, p))
    ensures TakeDelta(c, p) == (p.(px := s.px, py := s.py, vx := s.vx, vy := s.vy),
                                c.Skip(|PositionBits(s, p) + VelocityChangeBits(s, p)|))
  {
    hide Before, FromNat, Cursor.TakeBool, PositionBits, TakePosition, TakeVelocity, VelocityBits;
    var n := |PositionBits(s, p)|;
    BeforeSplit(c, PositionBits(s, p), VelocityChangeBits(s, p));
    PositionBefore(c, s, p);
    if Turned(s, p) {
      BeforeSplit(c.Skip(n), BoolBits(true), VelocityBits(s));
      BoolBefore(c.Skip(n), true);
      VelocitySize(s);
      VelocityBefore(c.Skip(n + 1), s, p.(px := s.px, py := s.py));
    } else {
      BoolBefore(c.Skip(n), false);
    }
  }

  /** What the decoder makes of an update: the kind of a known entity is not sent,
      and the kind of a new one is cut to two bits. */
  function Rebuilt(u: Update): EntityWireState {
    u.current.(kind := if u.previous.Some? then u.previous.value.kind else u.current.kind % 4)
  }

  lemma RecordBefore(c: Cursor, u: Update, previousId: u32, states: seq<EntityWireState>)
    requires previousId <= u.current.id && Before(c, RecordBits(u, previousId))
    requires Find(states, u.current.id) == u.previous
    ensures TakeRecord(c, previousId, states)
         == Some((Upsert(states, Rebuilt(u)), u.current.id, c.Skip(|RecordBits(u, previousId)|)))
  {
    hide Before, Find, Upsert, VarintBits, Cursor.TakeVarint, Cursor.TakeBool, TakeFull, TakeDelta, FullBits,
      PositionBits, VelocityChangeBits;
    var gap, isNew, id := VarintBits(u.current.id - previousId), BoolBits(u.previous.None?), u.current.id;
    BeforeSplit(c, gap, isNew + BodyBits(u));
    VarintBefore(c, id - previousId);
    var d := c.Skip(|gap|);
    BeforeSplit(d, isNew, BodyBits(u));
    BoolBefore(d, u.previous.None?);
    NotOverflowed(d, isNew);
    match u.previous
    case None =>
      FullBefore(d.Skip(1), u.current, EntityWireState(id, 0, 0, 0, 0, 0));
    case Some(p) =>
      DeltaBefore(d.Skip(1), u.current, p);
  }

  function UpsertAll(states: seq<EntityWireState>, updates: seq<Update>): seq<EntityWireState>
    decreases |updates|
  {
    if updates == [] then states else UpsertAll(Upsert(states, Rebuilt(updates[0])), updates[1..])
  }

  ghost predicate Known(states: seq<EntityWireState>, updates: seq<Update>) {
    forall u <- updates :: Find(states, u.current.id) == u.previous
  }

  lemma {:induction false} RecordsBefore(c: Cursor, updates: seq<Update>, previousId: u32, states: seq<EntityWireState>)
    requires Sorted(states) && InOrder(updates) && (updates != [] ==> previousId <= updates[0].current.id)
    requires Before(c, RecordsBits(updates, previousId)) && Known(states, updates)
    ensures TakeRecords(c, |updates|, previousId, states) == Some(UpsertAll(states, updates))
    decreases |updates|
  {
    if updates != [] {
      var u, rest := updates[0], updates[1..];
      var next := Upsert(states, Rebuilt(u));
      UpsertKeeps(states, Rebuilt(u));
      KnownAfter(states, updates);
      hide Before, Find, RecordBits, TakeRecord, Rebuilt, Upsert, Sorted;
      BeforeSplit(c, RecordBits(u, previousId), RecordsBits(rest, u.current.id));
      RecordBefore(c, u, previousId, states);
      RecordsBefore(c.Skip(|RecordBits(u, previousId)|), rest, u.current.id, next);
    }
  }

  lemma KnownAfter(states: seq<EntityWireState>, updates: seq<Update>)
    requires Sorted(states) && InOrder(updates) && updates != [] && Known(states, updates)
    ensures Known(Upsert(states, Rebuilt(updates[0])), updates[1..])
  {
    var s := Rebuilt(updates[0]);
    var next := Upsert(states, s);
    UpsertKeeps(states, s);
    forall u | u in updates[1..] ensures Find(next, u.current.id) == u.previous {
      FindUpsert(states, s, u.current.id);
    }
  }

  lemma FindUpsert(states: seq<EntityWireState>, s: EntityWireState, id: u32)
    requires Sorted(states) && id != s.id
    ensures Find(Upsert(states, s), id) == Find(states, id)
  {
    UpsertKeeps(states, s);
    hide Upsert, LowerBound;
    var a, b := Find(Upsert(states, s), id), Find(states, id);
    if a.Some? { FindIsMembership(states, a.value); }
    if b.Some? { FindIsMembership(Upsert(states, s), b.value); }
  }

  lemma IdBefore(c: Cursor, id: u32, previousId: u32)
    requires previousId <= id && Before(c, VarintBits(id - previousId))
    ensures TakeId(c, previousId) == (id, c.Skip(|VarintBits(id - previousId)|))
  {
    hide Before, VarintBits, Cursor.TakeVarint;
    VarintBefore(c, id - previousId);
  }

  lemma {:induction false} IdsBefore(c: Cursor, ids: seq<u32>, previousId: u32)
    requires Ascending(ids) && (ids != [] ==> previousId <= ids[0]) && Before(c, IdsBits(ids, previousId))
    ensures TakeIds(c, |ids|, previousId) == (ids, c.Skip(|IdsBits(ids, previousId)|))
    decreases |ids|
  {
    hide Before, VarintBits, TakeId, Ascending;
    if ids == [] {
      assert c.Skip(0) == c;
    } else {
      hide TakeIds;
      TailAscends(ids);
      var id, rest := ids[0], ids[1..];
      var gap := VarintBits(id - previousId);
      BeforeSplit(c, gap, IdsBits(rest, id));
      IdBefore(c, id, previousId);
      IdsBefore(c.Skip(|gap|), rest, id);
      OneMoreId(c, ids, previousId, |gap|, |IdsBits(rest, id)|);
    }
  }

  lemma TailAscends(ids: seq<u32>)
    requires Ascending(ids) && ids != []
    ensures Ascending(ids[1..]) && (ids[1..] != [] ==> ids[0] <= ids[1..][0])
  {
  }

  lemma OneId(c: Cursor, n: nat, previousId: u32)
    requires n > 0
    ensures var (id, d) := TakeId(c, previousId);
            TakeIds(c, n, previousId) == ([id] + TakeIds(d, n - 1, id).0, TakeIds(d, n - 1, id).1)
  {
    hide TakeId;
  }

  lemma NoIds(c: Cursor, previousId: u32)
    ensures TakeIds(c, 0, previousId) == ([], c)
  {
  }

  lemma OneMoreId(c: Cursor, ids: seq<u32>, previousId: u32, m: nat, n: nat)
    requires ids != [] && TakeId(c, previousId) == (ids[0], c.Skip(m))
    requires TakeIds(c.Skip(m), |ids| - 1, ids[0]) == (ids[1..], c.Skip(m).Skip(n))
    ensures TakeIds(c, |ids|, previousId) == (ids, c.Skip(m + n))
  {
    hide TakeId, TakeIds;
    OneId(c, |ids|, previousId);
    assert [ids[0]] + ids[1..] == ids;
  }

  lemma PeekBefore(c: Cursor, tick: u32, base: Option<u32>, more: seq<bool>)
    requires Before(c, FromNat(tick, 32) + (BaseBits(base) + more))
    ensures var n := 32 + |BaseBits(base)|;
            && PeekHeader(c) == (Header(tick, base.None?, if base.Some? then base.value else 0), c.Skip(n))
            && Before(c.Skip(n), more)
  {
    hide Before, FromNat, Cursor.TakeBool, Cursor.TakeU32;
    BeforeSplit(c, FromNat(tick, 32), BaseBits(base) + more);
    U32Before(c, tick);
    var d := c.Skip(32);
    BeforeSplit(d, BaseBits(base), more);
    match base
    case None => BoolBefore(d, true);
    case Some(t) =>
      BeforeSplit(d, BoolBits(false), FromNat(t, 32));
      BoolBefore(d, false);
      U32Before(d.Skip(1), t);
  }

  /** The states kept from the baseline once the departed are gone. */
  function Kept(base: Option<SnapshotFrame>, removed: seq<u32>): seq<EntityWireState> {
    if base.None? then [] else Without(base.value.states, removed)
  }

  function TickOf(base: Option<SnapshotFrame>): Option<u32> {
    if base.None? then None else Some(base.value.tick)
  }

  lemma KeptSorted(base: Option<SnapshotFrame>, removed: seq<u32>)
    requires base.Some? ==> Sorted(base.value.states)
    ensures Sorted(Kept(base, removed))
    ensures forall x :: x in Kept(base, removed) <==> base.Some? && x in base.value.states && x.id !in removed
  {
    if base.Some? { WithoutKeeps(base.value.states, removed); }
  }

  /** Decoding what was encoded, against the same baseline, applies exactly the
      removals and the updates. */
  lemma DecodeEncoded(c: Cursor, tick: u32, base: Option<SnapshotFrame>, lastInput: u32, viewer: u32,
                      removed: seq<u32>, updates: seq<Update>)
    requires base.Some? ==> base.value.valid && Sorted(base.value.states)
    requires Ascending(removed) && |removed| <= MAX_REMOVED && InOrder(updates) && |updates| < 0x1_0000
    requires Known(Kept(base, removed), updates)
    requires Before(c, SnapshotBits(tick, TickOf(base), lastInput, viewer, removed, updates))
    ensures DecodeSnapshot(c, base)
         == Some(Decoded(Header(tick, base.None?, if base.Some? then base.value.tick else 0), lastInput, viewer,
                         UpsertAll(Kept(base, removed), updates), removed))
  {
    hide Before, PreludeBits, RemovedBits, UpdatesBits, Sorted, Known, Without, TakePrelude, TakeRemoved, TakeUpdates,
      UpsertAll;
    KeptSorted(base, removed);
    var t := TickOf(base);
    var prelude, gone, changed := PreludeBits(tick, t, lastInput, viewer), RemovedBits(removed), UpdatesBits(updates);
    BeforeSplit(c, prelude, gone + changed);
    PreludeBefore(c, tick, t, lastInput, viewer);
    var d := c.Skip(|prelude|);
    BeforeSplit(d, gone, changed);
    RemovedBefore(d, removed);
    UpdatesBefore(d.Skip(|gone|), updates, Kept(base, removed));
  }

  lemma PreludeBefore(c: Cursor, tick: u32, base: Option<u32>, lastInput: u32, viewer: u32)
    requires Before(c, PreludeBits(tick, base, lastInput, viewer))
    ensures TakePrelude(c) == Some((Header(tick, base.None?, if base.Some? then base.value else 0), lastInput, viewer,
                                    c.Skip(|PreludeBits(tick, base, lastInput, viewer)|)))
  {
    hide Before, FromNat, VarintBits, BaseBits, PeekHeader, Cursor.TakeVarint, Cursor.TakeU32;
    NotOverflowed(c, PreludeBits(tick, base, lastInput, viewer));
    PeekBefore(c, tick, base, FromNat(lastInput, 32) + VarintBits(viewer));
    var d := c.Skip(32 + |BaseBits(base)|);
    BeforeSplit(d, FromNat(lastInput, 32), VarintBits(viewer));
    U32Before(d, lastInput);
    VarintBefore(d.Skip(32), viewer);
  }

  lemma RemovedBefore(c: Cursor, removed: seq<u32>)
    requires Ascending(removed) && |removed| <= MAX_REMOVED && Before(c, RemovedBits(removed))
    ensures TakeRemoved(c) == Some((removed, c.Skip(|RemovedBits(removed)|)))
  {
    hide Before, VarintBits, IdsBits, TakeIds, Cursor.TakeVarint;
    NotOverflowed(c, RemovedBits(removed));
    var count := VarintBits(|removed|);
    BeforeSplit(c, count, IdsBits(removed, 0));
    VarintBefore(c, |removed|);
    IdsBefore(c.Skip(|count|), removed, 0);
  }

  lemma UpdatesBefore(c: Cursor, updates: seq<Update>, kept: seq<EntityWireState>)
    requires Sorted(kept) && InOrder(updates) && |updates| < 0x1_0000 && Known(kept, updates)
    requires Before(c, UpdatesBits(updates))
    ensures TakeUpdates(c, kept) == Some(UpsertAll(kept, updates))
  {
    hide Before, FromNat, RecordsBits, TakeRecords, UpsertAll, Sorted, InOrder, Known, Cursor.TakeU16;
    NotOverflowed(c, UpdatesBits(updates));
    BeforeSplit(c, FromNat(CountField(|updates|), 16), RecordsBits(updates, 0));
    U16Before(c, |updates|);
    RecordsBefore(c.Skip(16), updates, 0, kept);
  }

  // ---------------------------------------------------------------------------
  // Whatever the bytes

  lemma {:induction false} RecordsOrdered(c: Cursor, n: nat, previousId: u32, states: seq<EntityWireState>)
    requires Sorted(states) && TakeRecords(c, n, previousId, states).Some?
    ensures Sorted(TakeRecords(c, n, previousId, states).value)
    decreases n
  {
    hide Sorted, TakeRecord;
    if n > 0 {
      RecordOrdered(c, previousId, states);
      var (next, id, d) := TakeRecord(c, previousId, states).value;
      RecordsOrdered(d, n - 1, id, next);
    }
  }

  lemma RecordOrdered(c: Cursor, previousId: u32, states: seq<EntityWireState>)
    requires Sorted(states) && TakeRecord(c, previousId, states).Some?
    ensures Sorted(TakeRecord(c, previousId, states).value.0)
  {
    hide Sorted, Upsert, TakeFull, TakeDelta, TakeId, Cursor.TakeBool, Find;
    var (id, d) := TakeId(c, previousId);
    var (isNew, e) := d.TakeBool();
    var known := Find(states, id);
    var start := if known.Some? then known.value else EntityWireState(id, 0, 0, 0, 0, 0);
    UpsertKeeps(states, (if isNew then TakeFull(e, start) else TakeDelta(e, start)).0);
  }

  /** Whatever bytes arrive: a list that is accepted is in id order, and a delta is
      accepted only against the frame that it names. */
  lemma DecodedInOrder(c: Cursor, baseline: Option<SnapshotFrame>)
    requires (baseline.Some? ==> Sorted(baseline.value.states)) && DecodeSnapshot(c, baseline).Some?
    ensures var r := DecodeSnapshot(c, baseline).value;
            && Sorted(r.states)
            && (!r.header.full ==> baseline.Some? && baseline.value.valid && baseline.value.tick == r.header.baseTick)
  {
    hide Sorted, TakeRecords, TakeRemoved, TakePrelude, Without, Cursor.TakeU16;
    var (header, lastInput, viewer, d) := TakePrelude(c).value;
    var (removed, e) := TakeRemoved(d).value;
    var kept := if header.full then [] else Without(baseline.value.states, removed);
    if header.full { NoneSorted(); } else { WithoutKeeps(baseline.value.states, removed); }
    var (updated, f) := e.TakeU16();
    RecordsOrdered(f, updated, 0, kept);
  }

  lemma NoneSorted()
    ensures Sorted([])
  {
  }

  lemma {:induction false} IdsRead(c: Cursor, n: nat, previousId: u32)
    ensures Reads(c, TakeIds(c, n, previousId).1, 8 * n) && |TakeIds(c, n, previousId).0| == n
    ensures n == 0 ==> TakeIds(c, n, previousId).1 == c
    decreases n
  {
    hide Cursor.TakeVarint;
    if n > 0 {
      VarintReads(c);
      var (id, d) := TakeId(c, previousId);
      IdsRead(d, n - 1, id);
      ReadsBoth(c, d, TakeIds(c, n, previousId).1, 8, 8 * (n - 1));
    }
  }

  lemma FullReads(c: Cursor, s: EntityWireState)
    ensures Reads(c, TakeFull(c, s).1, 58)
  {
    hide Cursor.Take;
    var (px, d) := c.TakeU16();
    var (py, e) := d.TakeU16();
    VelocityReads(e, s.(px := px, py := py));
    var (t, f) := TakeVelocity(e, s.(px := px, py := py));
    TakeReads(c, 16);
    TakeReads(d, 16);
    TakeReads(f, KIND_BITS);
  }

  lemma VelocityReads(c: Cursor, s: EntityWireState)
    ensures Reads(c, TakeVelocity(c, s).1, 24)
  {
    hide Cursor.Take;
    TakeReads(c, VELOCITY_BITS);
    TakeReads(c.Take(VELOCITY_BITS).1, VELOCITY_BITS);
  }

  lemma PositionReads(c: Cursor, s: EntityWireState)
    ensures Reads(c, TakePosition(c, s).1, 1)
  {
    hide Cursor.Take, BitsRequired;
    TakeReads(c, 1);
    var (moved, d) := c.TakeBool();
    TakeReads(d, 1);
    var e := d.TakeBool().1;
    var n := BitsRequired(SMALL_MAX - SMALL_MIN);
    TakeReads(e, n);
    TakeReads(e.Take(n).1, n);
    TakeReads(e, 16);
    TakeReads(e.TakeU16().1, 16);
  }

  lemma DeltaReads(c: Cursor, s: EntityWireState)
    ensures Reads(c, TakeDelta(c, s).1, 2)
  {
    hide Cursor.Take, TakePosition, TakeVelocity;
    PositionReads(c, s);
    var (t, d) := TakePosition(c, s);
    TakeReads(d, 1);
    VelocityReads(d.TakeBool().1, t);
  }

  /** A record is at least 11 bits, and a delta is of an entity that is known. */
  lemma RecordReads(c: Cursor, previousId: u32, states: seq<EntityWireState>)
    requires TakeRecord(c, previousId, states).Some?
    ensures var (next, id, d) := TakeRecord(c, previousId, states).value;
            && Reads(c, d, 11) && !d.overflow
            && (Find(states, id).Some? || TakeId(c, previousId).1.TakeBool().0)
            && id == TakeId(c, previousId).0
  {
    hide Cursor.TakeVarint, Cursor.Take, TakeFull, TakeDelta, Upsert, Find;
    VarintReads(c);
    var (id, d) := TakeId(c, previousId);
    TakeReads(d, 1);
    var (isNew, e) := d.TakeBool();
    var known := Find(states, id);
    var start := if known.Some? then known.value else EntityWireState(id, 0, 0, 0, 0, 0);
    FullReads(e, start);
    DeltaReads(e, start);
  }

  lemma {:induction false} RecordsRead(c: Cursor, n: nat, previousId: u32, states: seq<EntityWireState>)
    requires TakeRecords(c, n, previousId, states).Some?
    ensures n > 0 ==> !c.overflow && c.pos + 11 * n <= |c.bits|
    decreases n
  {
    hide TakeRecord;
    if n > 0 {
      RecordReads(c, previousId, states);
      var (next, id, d) := TakeRecord(c, previousId, states).value;
      RecordsRead(d, n - 1, id, next);
    }
  }

  lemma PreludeReads(c: Cursor)
    requires TakePrelude(c).Some?
    ensures var (header, lastInput, viewer, d) := TakePrelude(c).value;
            Reads(c, d, if header.full then 73 else 105) && !d.overflow
  {
    hide Cursor.Take, Cursor.TakeVarint;
    var (tick, d) := c.TakeU32();
    var (full, e) := d.TakeBool();
    TakeReads(c, 32);
    TakeReads(d, 1);
    TakeReads(e, 32);
    var f := PeekHeader(c).1;
    TakeReads(f, 32);
    VarintReads(f.TakeU32().1);
  }

  /** Whatever bytes arrive: an accepted snapshot has all its parts, every removal and
      every record that its counts announce, and no more removals than are allowed. */
  lemma AcceptedIsWhole(c: Cursor, baseline: Option<SnapshotFrame>)
    requires DecodeSnapshot(c, baseline).Some?
    ensures var (r, n) := (DecodeSnapshot(c, baseline).value, Announced(c));
            && |r.removed| <= MAX_REMOVED
            && c.pos + (if r.header.full then 73 else 105) + 8 + 8 * |r.removed| + 16 + 11 * n <= |c.bits|
  {
    hide TakePrelude, TakeIds, TakeRecords, Without, Cursor.TakeVarint, Cursor.Take;
    var (header, lastInput, viewer, d) := TakePrelude(c).value;
    PreludeReads(c);
    VarintReads(d);
    var (count, e) := d.TakeVarint();
    IdsRead(e, count, 0);
    var (removed, f) := TakeIds(e, count, 0);
    TakeReads(f, 16);
    var (updated, g) := f.TakeU16();
    RecordsRead(g, updated, 0, if header.full then [] else Without(baseline.value.states, removed));
  }

  /** How many records a snapshot announces. */
  function Announced(c: Cursor): nat {
    var d := match TakePrelude(c) case None => c case Some((_, _, _, d)) => d;
    var (count, e) := d.TakeVarint();
    TakeIds(e, count, 0).1.TakeU16().0
  }
}
