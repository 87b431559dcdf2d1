/**
 The client's side as it runs: the decoder's loops over the bit reader, and the
 view that keeps the ring it decodes against.
 */
module SnapshotDecoder {
  import opened Sequence
  import opened SequenceBuffers
  import opened Bits
  import opened BitStream
  import opened Snapshot
  import opened Replication
  import opened Session

  method ReadId(r: BitReader, previousId: u32) returns (id: u32)
    requires r.Valid()
    modifies r
    ensures r.Valid() && (id, r.View()) == TakeId(old(r.View()), previousId)
  {
    var gap := r.ReadVarint();
    id := (previousId + gap) % 0x1_0000_0000;
  }

  lemma RegroupIds(before: seq<u32>, id: u32, rest: seq<u32>)
    ensures before + ([id] + rest) == before + [id] + rest
  {
  }

  method ReadIds(r: BitReader, count: nat) returns (ids: seq<u32>)
    requires r.Valid()
    modifies r
    ensures r.Valid() && (ids, r.View()) == TakeIds(old(r.View()), count, 0)
  {
    hide TakeId, TakeIds, BitReader.View, BitReader.Valid;
    ghost var c := r.View();
    ids := [];
    var previous := 0;
    for i := 0 to count
      invariant r.Valid()
      invariant TakeIds(c, count, 0).0 == ids + TakeIds(r.View(), count - i, previous).0
      invariant TakeIds(c, count, 0).1 == TakeIds(r.View(), count - i, previous).1
    {
      ghost var before, d := ids, r.View();
      OneId(d, count - i, previous);
      previous := ReadId(r, previous);
      ids := ids + [previous];
      RegroupIds(before, previous, TakeIds(r.View(), count - (i + 1), previous).0);
    }
    NoIds(r.View(), previous);
    assert ids + [] == ids;
  }

  method ReadVelocity(r: BitReader, s: EntityWireState) returns (t: EntityWireState)
    requires r.Valid()
    modifies r
    ensures r.Valid() && (t, r.View()) == TakeVelocity(old(r.View()), s)
  {
    Pow2Values();
    hide Pow2, Cursor.Take, BitReader.View, BitReader.Valid;
    var vx := r.ReadBits(VELOCITY_BITS);
    var vy := r.ReadBits(VELOCITY_BITS);
    t := s.(vx := vx, vy := vy);
  }

  method ReadFull(r: BitReader, s: EntityWireState) returns (t: EntityWireState)
    requires r.Valid()
    modifies r
    ensures r.Valid() && (t, r.View()) == TakeFull(old(r.View()), s)
  {
    Pow2Values();
    hide Pow2, Cursor.Take, Cursor.TakeU16, TakeVelocity, BitReader.View, BitReader.Valid;
    var px := r.ReadU16();
    var py := r.ReadU16();
    t := ReadVelocity(r, s.(px := px, py := py));
    var kind := r.ReadBits(KIND_BITS);
    t := t.(kind := kind);
  }

  method ReadDelta(r: BitReader, s: EntityWireState) returns (t: EntityWireState)
    requires r.Valid()
    modifies r
    ensures r.Valid() && (t, r.View()) == TakeDelta(old(r.View()), s)
  {
    hide Cursor.TakeBool, Cursor.TakeRanged, Cursor.TakeU16, TakeVelocity, BitReader.View, BitReader.Valid;
    t := s;
    var moved := r.ReadBool();
    if moved {
      var small := r.ReadBool();
      if small {
        var dx := r.ReadRanged(SMALL_MIN, SMALL_MAX);
        var dy := r.ReadRanged(SMALL_MIN, SMALL_MAX);
        t := s.(px := Wrap(s.px + dx), py := Wrap(s.py + dy));
      } else {
        var px := r.ReadU16();
        var py := r.ReadU16();
        t := s.(px := px, py := py);
      }
    }
    var turned := r.ReadBool();
    if turned { t := ReadVelocity(r, t); }
  }

  /** One record applied to the list; fails on overflow, or on a change to an
      entity that is not there. */
  method ReadRecord(r: BitReader, previousId: u32, states: seq<EntityWireState>)
    returns (ok: bool, next: seq<EntityWireState>, id: u32)
    requires r.Valid()
    modifies r
    ensures r.Valid()
    ensures var t := TakeRecord(old(r.View()), previousId, states);
            (ok <==> t.Some?) && (ok ==> t == Some((next, id, r.View())))
  {
    hide TakeId, TakeFull, TakeDelta, Find, Upsert, Cursor.TakeBool, BitReader.Valid;
    ok, next := false, states;
    id := ReadId(r, previousId);
    var isNew := r.ReadBool();
    if r.overflow { return; }
    var known := Find(states, id);
    var state := if known.Some? then known.value else EntityWireState(id, 0, 0, 0, 0, 0);
    if isNew {
      state := ReadFull(r, state);
    } else {
      if known.None? { return; }
      state := ReadDelta(r, state);
    }
    if r.overflow { return; }
    ok, next := true, Upsert(states, state);
  }

  method ReadRecords(r: BitReader, count: nat, kept: seq<EntityWireState>)
    returns (result: Option<seq<EntityWireState>>)
    requires r.Valid()
    modifies r
    ensures r.Valid() && result == TakeRecords(old(r.View()), count, 0, kept)
  {
    hide TakeRecord, BitReader.View, BitReader.Valid;
    ghost var c := r.View();
    var states, previous := kept, 0;
    for i := 0 to count
      invariant r.Valid()
      invariant TakeRecords(c, count, 0, kept) == TakeRecords(r.View(), count - i, previous, states)
    {
      var ok, next, id := ReadRecord(r, previous, states);
      if !ok { return None; }
      states, previous := next, id;
    }
    result := Some(states);
  }

  method ReadHeader(r: BitReader) returns (h: Header)
    requires r.Valid()
    modifies r
    ensures r.Valid() && (h, r.View()) == PeekHeader(old(r.View()))
  {
    hide Cursor.TakeU32, Cursor.TakeBool, BitReader.View, BitReader.Valid;
    var tick := r.ReadU32();
    var full := r.ReadBool();
    var baseTick := 0;
    if !full { baseTick := r.ReadU32(); }
    h := Header(tick, full, baseTick);
  }

  /** Applies a delta snapshot to `baseline`. */
  method Decode(data: seq<byte>, baseline: Option<SnapshotFrame>) returns (result: Option<Decoded>)
    ensures result == DecodeSnapshot(Cursor(BytesBits(data), 0, false), baseline)
  {
    hide PeekHeader, TakeIds, TakeRecords, Without, Cursor.TakeU32, Cursor.TakeU16, Cursor.TakeVarint,
      BitReader.Valid, BytesBits;
    var r := new BitReader(data);
    var header := ReadHeader(r);
    var lastInput := r.ReadU32();
    var viewer := r.ReadVarint();
    if r.overflow { return None; }
    if !header.full && (baseline.None? || !baseline.value.valid
        || baseline.value.tick != header.baseTick) { return None; }
    var count := r.ReadVarint();
    if r.overflow || count > MAX_REMOVED { return None; }
    var removed := ReadIds(r, count);
    if r.overflow { return None; }
    var kept := if header.full then [] else Without(baseline.value.states, removed);
    var updated := r.ReadU16();
    if r.overflow { return None; }
    var states := ReadRecords(r, updated, kept);
    if states.None? { return None; }
    result := Some(Decoded(header, lastInput, viewer, states.value, removed));
  }

  class ClientView {
    var baselines: seq<SnapshotFrame>
    var latestTick: u32
    var hasSnapshot: bool

    function View(): Client
      reads this
    {
      Client(baselines, latestTick, hasSnapshot)
    }

    constructor (snapshotHistory: nat)
      ensures View() == Start(0, snapshotHistory).client
    {
      baselines := seq(snapshotHistory, _ => SnapshotFrame(0, false, []));
      latestTick, hasSnapshot := 0, false;
    }

    /** Finds the baseline the packet needs, decodes, and keeps the frame. */
    method ApplySnapshot(data: seq<byte>) returns (accepted: bool)
      modifies this
      ensures (View(), accepted) == Session.ApplySnapshot(old(View()), BytesBits(data))
    {
      hide PeekHeader, DecodeSnapshot, Get, Store, BytesBits, BitReader.Valid;
      var r := new BitReader(data);
      var header := ReadHeader(r);
      if r.overflow { return false; }
      var baseline := if header.full then None else Get(baselines, header.baseTick);
      if !header.full && baseline.None? { return false; }
      var snapshot := Decode(data, baseline);
      if snapshot.None? { return false; }
      var tick := snapshot.value.header.tick;
      baselines := Store(baselines, SnapshotFrame(tick, true, snapshot.value.states));
      if !hasSnapshot || Greater32(tick, latestTick) { latestTick := tick; }
      hasSnapshot := true;
      accepted := true;
    }
  }
}
