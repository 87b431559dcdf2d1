/**
 The encoder as it runs: merge, ranking, selection and record loops over the
 bit writer, and the ring and credits it keeps between encodes.
 */
module SnapshotEncoder {
  import opened Sequence
  import opened SequenceBuffers
  import opened Bits
  import opened BitStream
  import opened Emission
  import opened Snapshot
  import opened Recording
  import opened Replication

  // ---------------------------------------------------------------------------
  // Records

  method EmitBool(w: BitWriter, value: bool, ghost start: Pen, ghost ink: seq<bool>) returns (ghost ink': seq<bool>)
    requires w.Valid() && Wrote(start, w.View(), ink)
    modifies w, w.buffer
    ensures w.Valid() && ink' == ink + BoolBits(value) && Wrote(start, w.View(), ink')
    ensures w.Beyond() == old(w.Beyond())
  {
    ink' := Emit(w, if value then 1 else 0, 1, start, ink);
  }

  method EmitVelocity(w: BitWriter, s: EntityWireState, ghost start: Pen, ghost ink: seq<bool>)
    returns (ghost ink': seq<bool>)
    requires w.Valid() && Wrote(start, w.View(), ink)
    modifies w, w.buffer
    ensures w.Valid() && ink' == ink + VelocityBits(s) && Wrote(start, w.View(), ink')
    ensures w.Beyond() == old(w.Beyond())
  {
    TwelveBits();
    hide Wrote, Pow2, FromNat;
    ink' := Emit(w, s.vx, VELOCITY_BITS, start, ink);
    ink' := Emit(w, s.vy, VELOCITY_BITS, start, ink');
    assert ink' == ink + VelocityBits(s);
  }

  /** An entity the client does not know: everything. */
  method EmitFull(w: BitWriter, s: EntityWireState, ghost start: Pen, ghost ink: seq<bool>)
    returns (ghost ink': seq<bool>)
    requires w.Valid() && Wrote(start, w.View(), ink)
    modifies w, w.buffer
    ensures w.Valid() && ink' == ink + FullBits(s) && Wrote(start, w.View(), ink')
    ensures w.Beyond() == old(w.Beyond())
  {
    Pow2Values();
    hide Wrote, Pow2, FromNat, VelocityBits, BitWriter.Valid, BitWriter.View, BitWriter.Beyond;
    ink' := Emit(w, s.px, 16, start, ink);
    ink' := Emit(w, s.py, 16, start, ink');
    ink' := EmitVelocity(w, s, start, ink');
    ink' := Emit(w, s.kind % 4, KIND_BITS, start, ink');
    Chain5(ink, FromNat(s.px, 16), FromNat(s.py, 16), VelocityBits(s), FromNat(s.kind % 4, KIND_BITS));
  }

  /** The position, if it moved: as a small delta if both axes fit one. */
  method EmitPosition(w: BitWriter, s: EntityWireState, p: EntityWireState, ghost start: Pen, ghost ink: seq<bool>)
    returns (ghost ink': seq<bool>)
    requires w.Valid() && Wrote(start, w.View(), ink)
    modifies w, w.buffer
    ensures w.Valid() && ink' == ink + PositionBits(s, p) && Wrote(start, w.View(), ink')
    ensures w.Beyond() == old(w.Beyond())
  {
    Pow2Values();
    hide Wrote, Pow2, FromNat, BoolBits, BitWriter.Valid, BitWriter.View, BitWriter.Beyond;
    var moved := s.px != p.px || s.py != p.py;
    ink' := EmitBool(w, moved, start, ink);
    if moved {
      var dx, dy := s.px - p.px, s.py - p.py;
      var small := SMALL_MIN <= dx <= SMALL_MAX && SMALL_MIN <= dy <= SMALL_MAX;
      ink' := EmitBool(w, small, start, ink');
      if small {
        ink' := Emit(w, dx - SMALL_MIN, 12, start, ink');
        ink' := Emit(w, dy - SMALL_MIN, 12, start, ink');
        Chain5(ink, BoolBits(true), BoolBits(true), FromNat(dx - SMALL_MIN, 12), FromNat(dy - SMALL_MIN, 12));
      } else {
        ink' := Emit(w, s.px, 16, start, ink');
        ink' := Emit(w, s.py, 16, start, ink');
        Chain5(ink, BoolBits(true), BoolBits(false), FromNat(s.px, 16), FromNat(s.py, 16));
      }
    }
  }

  /** A known entity: only what changed. */
  method EmitDelta(w: BitWriter, s: EntityWireState, p: EntityWireState, ghost start: Pen, ghost ink: seq<bool>)
    returns (ghost ink': seq<bool>)
    requires w.Valid() && Wrote(start, w.View(), ink)
    modifies w, w.buffer
    ensures w.Valid() && ink' == ink + (PositionBits(s, p) + VelocityChangeBits(s, p)) && Wrote(start, w.View(), ink')
    ensures w.Beyond() == old(w.Beyond())
  {
    hide Wrote, VelocityBits, BoolBits, PositionBits, BitWriter.Valid, BitWriter.View, BitWriter.Beyond;
    ink' := EmitPosition(w, s, p, start, ink);
    var turned := s.vx != p.vx || s.vy != p.vy;
    ink' := EmitBool(w, turned, start, ink');
    if turned {
      ink' := EmitVelocity(w, s, start, ink');
      Chain4(ink, PositionBits(s, p), BoolBits(true), VelocityBits(s));
    } else {
      Chain3(ink, PositionBits(s, p), BoolBits(false));
    }
  }

  method EmitRecord(w: BitWriter, u: Update, previousId: u32, ghost start: Pen, ghost ink: seq<bool>)
    returns (ghost ink': seq<bool>)
    requires w.Valid() && Wrote(start, w.View(), ink) && previousId <= u.current.id
    modifies w, w.buffer
    ensures w.Valid() && ink' == ink + RecordBits(u, previousId) && Wrote(start, w.View(), ink')
    ensures w.Beyond() == old(w.Beyond())
  {
    hide Wrote, VarintBits, BoolBits, FullBits, PositionBits, VelocityChangeBits, BitWriter.Valid, BitWriter.View,
      BitWriter.Beyond;
    ink' := EmitVarint(w, u.current.id - previousId, start, ink);
    ink' := EmitBool(w, u.previous.None?, start, ink');
    match u.previous {
      case None => ink' := EmitFull(w, u.current, start, ink');
      case Some(p) => ink' := EmitDelta(w, u.current, p, start, ink');
    }
    Chain4(ink, VarintBits(u.current.id - previousId), BoolBits(u.previous.None?), BodyBits(u));
  }

  // ---------------------------------------------------------------------------
  // Lists written at the end

  function LastId(ids: seq<u32>, previousId: u32): u32 {
    if ids == [] then previousId else ids[|ids| - 1]
  }

  lemma HeadAscends(ids: seq<u32>, id: u32)
    requires Ascending(ids + [id])
    ensures Ascending(ids)
  {
    assert forall i | 0 <= i < |ids| :: (ids + [id])[i] == ids[i];
  }

  lemma {:induction false} IdsBitsAppend(ids: seq<u32>, id: u32, previousId: u32)
    requires Ascending(ids + [id]) && previousId <= (ids + [id])[0]
    ensures Ascending(ids) && LastId(ids, previousId) <= id
    ensures IdsBits(ids + [id], previousId) == IdsBits(ids, previousId) + VarintBits(id - LastId(ids, previousId))
    decreases |ids|
  {
    hide VarintBits, Ascending, IdsBits;
    HeadAscends(ids, id);
    FirstBits(ids + [id], previousId);
    if ids == [] {
      assert ids + [id] == [id] && [id][1..] == [];
      NoBits(id);
      NoBits(previousId);
      assert VarintBits(id - previousId) + [] == [] + VarintBits(id - previousId);
    } else {
      var rest := ids[1..];
      assert (ids + [id])[1..] == rest + [id];
      FirstBits(ids, previousId);
      IdsBitsAppend(rest, id, ids[0]);
      Chain3(VarintBits(ids[0] - previousId), IdsBits(rest, ids[0]), VarintBits(id - LastId(rest, ids[0])));
    }
  }

  lemma FirstBits(ids: seq<u32>, previousId: u32)
    requires Ascending(ids) && ids != [] && previousId <= ids[0]
    ensures Ascending(ids[1..]) && (ids[1..] != [] ==> ids[0] <= ids[1..][0])
    ensures IdsBits(ids, previousId) == VarintBits(ids[0] - previousId) + IdsBits(ids[1..], ids[0])
  {
    hide VarintBits;
  }

  lemma NoBits(previousId: u32)
    ensures IdsBits([], previousId) == []
  {
  }

  /** One more id at the end of what was written. */
  lemma IdsBitsNext(ink: seq<bool>, ids: seq<u32>, i: nat)
    requires i < |ids| && Ascending(ids)
    ensures Ascending(ids[..i]) && Ascending(ids[..i + 1]) && LastId(ids[..i], 0) <= ids[i]
    ensures LastId(ids[..i + 1], 0) == ids[i]
    ensures ink + IdsBits(ids[..i], 0) + VarintBits(ids[i] - LastId(ids[..i], 0)) == ink + IdsBits(ids[..i + 1], 0)
  {
    FrontAscends(ids, i);
    FrontAscends(ids, i + 1);
    hide VarintBits, Ascending, IdsBits;
    assert ids[..i + 1] == ids[..i] + [ids[i]];
    IdsBitsAppend(ids[..i], ids[i], 0);
    Chain3(ink, IdsBits(ids[..i], 0), VarintBits(ids[i] - LastId(ids[..i], 0)));
  }

  lemma FrontAscends(ids: seq<u32>, i: nat)
    requires i <= |ids| && Ascending(ids)
    ensures Ascending(ids[..i])
  {
  }

  method EmitIds(w: BitWriter, ids: seq<u32>, ghost start: Pen, ghost ink: seq<bool>) returns (ghost ink': seq<bool>)
    requires w.Valid() && Wrote(start, w.View(), ink) && Ascending(ids)
    modifies w, w.buffer
    ensures w.Valid() && ink' == ink + IdsBits(ids, 0) && Wrote(start, w.View(), ink')
    ensures w.Beyond() == old(w.Beyond())
  {
    hide Wrote, VarintBits, Ascending, IdsBits, BitWriter.View, BitWriter.Beyond;
    ink' := ink;
    var previous := 0;
    FrontAscends(ids, 0);
    NoBits(0);
    for i := 0 to |ids|
      invariant w.Valid() && Wrote(start, w.View(), ink')
      invariant w.capacity <= w.buffer.Length && w.Beyond() == old(w.Beyond())
      invariant Ascending(ids[..i]) && previous == LastId(ids[..i], 0) && ink' == ink + IdsBits(ids[..i], 0)
    {
      IdsBitsNext(ink, ids, i);
      ink' := EmitVarint(w, ids[i] - previous, start, ink');
      previous := ids[i];
    }
    assert ids[..|ids|] == ids;
  }

  function LastOf(updates: seq<Update>, previousId: u32): u32 {
    if updates == [] then previousId else updates[|updates| - 1].current.id
  }

  lemma HeadInOrder(updates: seq<Update>, u: Update)
    requires InOrder(updates + [u])
    ensures InOrder(updates)
  {
    assert forall i | 0 <= i < |updates| :: (updates + [u])[i] == updates[i];
  }

  lemma {:induction false} RecordsBitsAppend(updates: seq<Update>, u: Update, previousId: u32)
    requires InOrder(updates + [u]) && previousId <= (updates + [u])[0].current.id
    ensures InOrder(updates) && LastOf(updates, previousId) <= u.current.id
    ensures RecordsBits(updates + [u], previousId)
            == RecordsBits(updates, previousId) + RecordBits(u, LastOf(updates, previousId))
    decreases |updates|
  {
    hide RecordBits, InOrder;
    HeadInOrder(updates, u);
    if updates == [] {
      assert updates + [u] == [u];
      assert RecordsBits([u], previousId) == RecordBits(u, previousId) + RecordsBits([], u.current.id);
    } else {
      var first, rest := updates[0], updates[1..];
      assert (updates + [u])[1..] == rest + [u];
      TailInOrder(updates + [u]);
      RecordsBitsAppend(rest, u, first.current.id);
      Chain3(RecordBits(first, previousId), RecordsBits(rest, first.current.id),
          RecordBits(u, LastOf(rest, first.current.id)));
    }
  }

  // ---------------------------------------------------------------------------
  // The encoder's loops

  /** One merge of two id-sorted lists: every entity's baseline state, and the
      baseline entities that are gone. */
  method MergeBaseline(old_: seq<EntityWireState>, current: seq<EntityWireState>)
    returns (previous: seq<Option<EntityWireState>>, removed: seq<u32>)
    requires Sorted(old_) && Sorted(current)
    ensures |previous| == |current| && forall i | 0 <= i < |current| :: previous[i] == Find(old_, current[i].id)
    ensures removed == Departed(old_, current)
  {
    hide *;
    var b, c := 0, 0;
    previous, removed := [], [];
    NothingDeparted(old_, current);
    while b < |old_| && c < |current|
      invariant 0 <= b <= |old_| && 0 <= c <= |current|
      invariant |previous| == c && forall i | 0 <= i < c :: previous[i] == Find(old_, current[i].id)
      invariant removed == Departed(old_[..b], current)
      invariant Merged(old_, current, b, c)
    {
      var oldId, newId := old_[b].id, current[c].id;
      MergeStep(old_, current, b, c);
      if oldId < newId {
        removed := removed + [oldId];
        b := b + 1;
      } else if oldId > newId {
        previous := previous + [None];
        c := c + 1;
      } else {
        previous := previous + [Some(old_[b])];
        b, c := b + 1, c + 1;
      }
    }
    MergeTail(old_, current, b, c);
    previous := previous + seq(|current| - c, _ => None);
    while b < |old_|
      invariant 0 <= b <= |old_| && (b < |old_| ==> c == |current| && Merged(old_, current, b, c))
      invariant removed == Departed(old_[..b], current)
    {
      MergeRest(old_, current, b);
      removed := removed + [old_[b].id];
      b := b + 1;
    }
    assert old_[..|old_|] == old_;
  }

  /** Everything before the two cursors is below everything after them. */
  ghost predicate Merged(old_: seq<EntityWireState>, current: seq<EntityWireState>, b: nat, c: nat)
    requires b <= |old_| && c <= |current|
  {
    && (forall i, j | 0 <= i < b && c <= j < |current| :: old_[i].id < current[j].id)
    && (forall i, j | b <= i < |old_| && 0 <= j < c :: current[j].id < old_[i].id)
  }

  lemma NothingDeparted(old_: seq<EntityWireState>, current: seq<EntityWireState>)
    ensures Departed(old_[..0], current) == [] && Merged(old_, current, 0, 0)
  {
  }

  lemma MergeStep(old_: seq<EntityWireState>, current: seq<EntityWireState>, b: nat, c: nat)
    requires Sorted(old_) && Sorted(current) && b < |old_| && c < |current| && Merged(old_, current, b, c)
    ensures var oldId, newId := old_[b].id, current[c].id;
            if oldId < newId then
              && Merged(old_, current, b + 1, c)
              && Departed(old_[..b + 1], current) == Departed(old_[..b], current) + [oldId]
            else if oldId > newId then
              Merged(old_, current, b, c + 1) && Find(old_, newId) == None
            else
              && Merged(old_, current, b + 1, c + 1) && Departed(old_[..b + 1], current) == Departed(old_[..b], current)
              && Find(old_, newId) == Some(old_[b])
  {
    hide Departed, Find, HasId, Sorted, Merged;
    MergedOn(old_, current, b, c);
    DepartedAppend(old_, b, current);
    AtCursors(old_, current, b, c);
  }

  lemma MergedOn(old_: seq<EntityWireState>, current: seq<EntityWireState>, b: nat, c: nat)
    requires Sorted(old_) && Sorted(current) && b < |old_| && c < |current| && Merged(old_, current, b, c)
    ensures old_[b].id < current[c].id ==> Merged(old_, current, b + 1, c)
    ensures old_[b].id > current[c].id ==> Merged(old_, current, b, c + 1)
    ensures old_[b].id == current[c].id ==> Merged(old_, current, b + 1, c + 1)
  {
    hide Sorted;
    FromCursor(current, c);
    FromCursor(old_, b);
  }

  lemma FromCursor(states: seq<EntityWireState>, at: nat)
    requires Sorted(states) && at < |states|
    ensures forall i | at < i < |states| :: states[at].id < states[i].id
  {
  }

  lemma AtCursors(old_: seq<EntityWireState>, current: seq<EntityWireState>, b: nat, c: nat)
    requires Sorted(old_) && Sorted(current) && b < |old_| && c < |current| && Merged(old_, current, b, c)
    ensures old_[b].id < current[c].id ==> !HasId(current, old_[b].id)
    ensures old_[b].id > current[c].id ==> Find(old_, current[c].id) == None
    ensures old_[b].id == current[c].id ==> HasId(current, old_[b].id) && Find(old_, current[c].id) == Some(old_[b])
  {
    hide LowerBound;
    if old_[b].id == current[c].id { assert current[c].id == old_[b].id; }
  }

  lemma MergeTail(old_: seq<EntityWireState>, current: seq<EntityWireState>, b: nat, c: nat)
    requires Sorted(old_) && Sorted(current) && b <= |old_| && c <= |current| && Merged(old_, current, b, c)
    requires b == |old_| || c == |current|
    ensures forall i | c <= i < |current| :: Find(old_, current[i].id) == None
  {
    hide LowerBound;
  }

  lemma MergeRest(old_: seq<EntityWireState>, current: seq<EntityWireState>, b: nat)
    requires Sorted(old_) && b < |old_| && Merged(old_, current, b, |current|)
    ensures Merged(old_, current, b + 1, |current|)
    ensures Departed(old_[..b + 1], current) == Departed(old_[..b], current) + [old_[b].id]
  {
    DepartedAppend(old_, b, current);
    hide Departed;
  }

  lemma DepartedAppend(old_: seq<EntityWireState>, b: nat, current: seq<EntityWireState>)
    requires b < |old_|
    ensures Departed(old_[..b + 1], current)
         == Departed(old_[..b], current) + if HasId(current, old_[b].id) then [] else [old_[b].id]
  {
    assert old_[..b + 1][..b] == old_[..b];
  }

  ghost predicate CreditsOk(priority: seq<Carried>) {
    forall i, j | 0 <= i < j < |priority| :: priority[i].id < priority[j].id
  }

  lemma {:induction false} CreditAt(priority: seq<Carried>, at: nat, id: u32)
    requires CreditsOk(priority) && at <= |priority|
    requires forall i | 0 <= i < at :: priority[i].id < id
    requires at < |priority| ==> id <= priority[at].id
    ensures CreditOf(priority, id) == if at < |priority| && priority[at].id == id then priority[at].priority else 0.0
    decreases |priority|
  {
    if at > 0 {
      CreditAt(priority[1..], at - 1, id);
    } else if priority != [] && priority[0].id != id {
      NoCreditAbove(priority, id);
    }
  }

  lemma {:induction false} NoCreditAbove(priority: seq<Carried>, id: u32)
    requires CreditsOk(priority) && (priority != [] ==> id < priority[0].id)
    ensures CreditOf(priority, id) == 0.0
    decreases |priority|
  {
    if priority != [] { NoCreditAbove(priority[1..], id); }
  }

  /** Ranks every changed entity, picking up credits with one advancing cursor. */
  method Rank(s: Server, base: Option<SnapshotFrame>, previous: seq<Option<EntityWireState>>, falloff: real, v: Scene)
    returns (rank: seq<Option<real>>)
    requires v.Valid() && CreditsOk(s.priority) && previous == Previous(base, v.current)
    ensures rank == Ranking(s, base, falloff, v)
  {
    hide PreviousOf, CreditOf, Previous;
    rank := [];
    var at := 0;
    for i := 0 to |v.current|
      invariant 0 <= at <= |s.priority|
      invariant |rank| == i && forall k | 0 <= k < i :: rank[k] == RankOf(s, base, falloff, v, k)
      invariant i < |v.current| ==> forall k | 0 <= k < at :: s.priority[k].id < v.current[i].id
    {
      var current := v.current[i];
      while at < |s.priority| && s.priority[at].id < current.id
        invariant 0 <= at <= |s.priority|
        invariant forall k | 0 <= k < at :: s.priority[k].id < current.id
      {
        at := at + 1;
      }
      CreditAt(s.priority, at, current.id);
      var carried := if at < |s.priority| && s.priority[at].id == current.id then s.priority[at].priority else 0.0;
      assert previous[i] == PreviousOf(base, current.id);
      if previous[i].Some? && current.SameStateAs(previous[i].value) {
        rank := rank + [None];
      } else {
        rank := rank + [Some(PriorityOf(carried, v.closeness[i], falloff, current.id == v.viewer))];
      }
    }
  }

  // ---------------------------------------------------------------------------
  // Selection

  lemma {:induction false} CountUpdate(flags: seq<bool>, i: nat)
    requires i < |flags| && !flags[i]
    ensures Count(flags[i := true]) == Count(flags) + 1
    decreases |flags|
  {
    var n := |flags| - 1;
    if i < n {
      assert flags[i := true][..n] == flags[..n][i := true];
      CountUpdate(flags[..n], i);
    } else {
      assert flags[i := true][..n] == flags[..n];
    }
  }

  /** Fewer flags set in a subset means some flag is set only in the larger. */
  lemma {:induction false} SomeLeft(sent: seq<bool>, flags: seq<bool>) returns (i: nat)
    requires |sent| == |flags| && Count(sent) < Count(flags)
    ensures i < |flags| && flags[i] && !sent[i]
    decreases |sent|
  {
    var n := |sent| - 1;
    if flags[n] && !sent[n] { return n; }
    i := SomeLeft(sent[..n], flags[..n]);
  }

  lemma {:induction false} CountNone(flags: seq<bool>)
    requires forall i | 0 <= i < |flags| :: !flags[i]
    ensures Count(flags) == 0
  {
    if flags != [] { CountNone(flags[..|flags| - 1]); }
  }

  /** A best choice of at most `fits` candidates.  The contract is all that the
      encoder relies on, so any partial ordering of the candidates would do. */
  method Select(rank: seq<Option<real>>, fits: nat) returns (sent: seq<bool>)
    ensures TopSet(sent, rank, fits)
  {
    var flags := Candidates(rank);
    var total := Count(flags);
    if total <= fits { return flags; }
    sent := seq(|rank|, _ => false);
    CountNone(sent);
    var picked := 0;
    while picked < fits
      invariant 0 <= picked <= fits && |sent| == |rank| && Count(sent) == picked
      invariant forall i | 0 <= i < |sent| :: sent[i] ==> rank[i].Some?
      invariant forall i, j | 0 <= i < |sent| && 0 <= j < |sent| ::
        sent[i] && !sent[j] && rank[j].Some? ==> rank[i].value >= rank[j].value
    {
      hide Count;
      ghost var w := SomeLeft(sent, flags);
      var best := Best(rank, sent, w);
      CountUpdate(sent, best);
      sent := sent[best := true];
      picked := picked + 1;
    }
  }

  method Best(rank: seq<Option<real>>, sent: seq<bool>, ghost w: nat) returns (best: nat)
    requires |sent| == |rank| && w < |rank| && rank[w].Some? && !sent[w]
    ensures best < |rank| && rank[best].Some? && !sent[best]
    ensures forall j | 0 <= j < |rank| :: rank[j].Some? && !sent[j] ==> rank[best].value >= rank[j].value
  {
    best := |rank|;
    for i := 0 to |rank|
      invariant best == |rank| || (best < i && rank[best].Some? && !sent[best])
      invariant forall j | 0 <= j < i :: rank[j].Some? && !sent[j] ==> best < i && rank[best].value >= rank[j].value
    {
      if rank[i].Some? && !sent[i] && (best == |rank| || rank[i].value > rank[best].value) { best := i; }
    }
  }

  // ---------------------------------------------------------------------------
  // One encode

  method EmitPrelude(w: BitWriter, tick: u32, base: Option<u32>, lastInput: u32, viewer: u32, ghost start: Pen,
                     ghost ink: seq<bool>)
    returns (ghost ink': seq<bool>)
    requires w.Valid() && Wrote(start, w.View(), ink)
    modifies w, w.buffer
    ensures w.Valid() && ink' == ink + PreludeBits(tick, base, lastInput, viewer) && Wrote(start, w.View(), ink')
    ensures w.Beyond() == old(w.Beyond())
  {
    Pow2Values();
    hide Wrote, Pow2, FromNat, BoolBits, VarintBits, BitWriter.Valid, BitWriter.View, BitWriter.Beyond;
    ink' := Emit(w, tick, 32, start, ink);
    ghost var before := ink';
    ink' := EmitBool(w, base.None?, start, ink');
    if base.Some? {
      ink' := Emit(w, base.value, 32, start, ink');
      Chain3(before, BoolBits(false), FromNat(base.value, 32));
    }
    assert ink' == before + BaseBits(base);
    hide BaseBits;
    ink' := Emit(w, lastInput, 32, start, ink');
    ink' := EmitVarint(w, viewer, start, ink');
    Chain5(ink, FromNat(tick, 32), BaseBits(base), FromNat(lastInput, 32), VarintBits(viewer));
  }

  method EmitRemoved(w: BitWriter, removed: seq<u32>, ghost start: Pen, ghost ink: seq<bool>)
    returns (ghost ink': seq<bool>)
    requires w.Valid() && Wrote(start, w.View(), ink) && Ascending(removed) && |removed| < 0x1_0000_0000
    modifies w, w.buffer
    ensures w.Valid() && ink' == ink + RemovedBits(removed) && Wrote(start, w.View(), ink')
    ensures w.Beyond() == old(w.Beyond())
  {
    hide Wrote, VarintBits, IdsBits, Ascending, BitWriter.Valid, BitWriter.View, BitWriter.Beyond;
    ink' := EmitVarint(w, |removed|, start, ink);
    ink' := EmitIds(w, removed, start, ink');
    Chain3(ink, VarintBits(|removed|), IdsBits(removed, 0));
  }

  lemma RecordsGrow(base: Option<SnapshotFrame>, current: seq<EntityWireState>, sent: seq<bool>, i: nat)
    requires i < |current| == |sent| && Sorted(current)
    ensures InOrder(Updates(base, current, sent, i)) && InOrder(Updates(base, current, sent, i + 1))
    ensures var updates, s := Updates(base, current, sent, i), current[i];
            if !sent[i] then Updates(base, current, sent, i + 1) == updates
            else
              && LastOf(updates, 0) <= s.id
              && LastOf(Updates(base, current, sent, i + 1), 0) == s.id
              && RecordsBits(Updates(base, current, sent, i + 1), 0)
                 == RecordsBits(updates, 0) + RecordBits(Update(s, PreviousOf(base, s.id)), LastOf(updates, 0))
  {
    UpdatesAre(base, current, sent, i);
    UpdatesAre(base, current, sent, i + 1);
    hide InOrder, PreviousOf, RecordsBits, RecordBits, Sorted;
    if sent[i] {
      RecordsBitsAppend(Updates(base, current, sent, i), Update(current[i], PreviousOf(base, current[i].id)), 0);
    }
  }

  method EmitRecords(w: BitWriter, ghost base: Option<SnapshotFrame>, previous: seq<Option<EntityWireState>>,
                     current: seq<EntityWireState>, sent: seq<bool>, ghost start: Pen, ghost ink: seq<bool>)
    returns (ghost ink': seq<bool>)
    requires w.Valid() && Wrote(start, w.View(), ink) && Sorted(current) && |sent| == |current|
    requires previous == Previous(base, current)
    modifies w, w.buffer
    ensures w.Valid() && InOrder(Updates(base, current, sent, |current|))
    ensures ink' == ink + RecordsBits(Updates(base, current, sent, |current|), 0) && Wrote(start, w.View(), ink')
    ensures w.Beyond() == old(w.Beyond())
  {
    hide Wrote, RecordBits, PreviousOf, BitWriter.Valid, BitWriter.View, BitWriter.Beyond, Sorted, Previous;
    w.Inside();
    ink' := ink;
    var previousId := 0;
    assert ink' == ink + RecordsBits(Updates(base, current, sent, 0), 0);
    hide RecordsBits, InOrder, Updates;
    UpdatesAre(base, current, sent, 0);
    EmptyUpdates(base, current, sent);
    for i := 0 to |current|
      invariant w.Valid() && Wrote(start, w.View(), ink') && InOrder(Updates(base, current, sent, i))
      invariant w.capacity <= w.buffer.Length && w.Beyond() == old(w.Beyond())
      invariant previousId == LastOf(Updates(base, current, sent, i), 0)
      invariant ink' == ink + RecordsBits(Updates(base, current, sent, i), 0)
    {
      RecordsGrow(base, current, sent, i);
      if sent[i] {
        ghost var updates := Updates(base, current, sent, i);
        var u := Update(current[i], previous[i]);
        ink' := EmitRecord(w, u, previousId, start, ink');
        Chain3(ink, RecordsBits(updates, 0), RecordBits(u, previousId));
        previousId := current[i].id;
      }
    }
  }

  lemma EmptyUpdates(base: Option<SnapshotFrame>, current: seq<EntityWireState>, sent: seq<bool>)
    requires |sent| == |current|
    ensures LastOf(Updates(base, current, sent, 0), 0) == 0
  {
  }

  method RecordFrame(ghost base: Option<SnapshotFrame>, previous: seq<Option<EntityWireState>>,
                     current: seq<EntityWireState>, sent: seq<bool>) returns (states: seq<EntityWireState>)
    requires |sent| == |current| && previous == Previous(base, current)
    ensures states == Recorded(base, current, sent, |current|) && |states| <= |current|
  {
    hide PreviousOf, Previous;
    states := [];
    for i := 0 to |current|
      invariant states == Recorded(base, current, sent, i) && |states| <= i
    {
      if sent[i] {
        states := states + [current[i]];
      } else if previous[i].Some? {
        states := states + [previous[i].value];
      }
    }
  }

  method CarryCredits(current: seq<EntityWireState>, rank: seq<Option<real>>, sent: seq<bool>)
    returns (priority: seq<Carried>)
    requires |sent| == |current| == |rank| && Sorted(current)
    ensures priority == CarryOver(current, rank, sent, |current|) && CreditsOk(priority)
  {
    hide Sorted, CreditsOk;
    priority := [];
    for i := 0 to |current|
      invariant priority == CarryOver(current, rank, sent, i)
    {
      if !sent[i] && rank[i].Some? && rank[i].value >= 0.0 {
        priority := priority + [Carried(current[i].id, rank[i].value)];
      }
    }
    CarriedInOrder(current, rank, sent, |current|);
  }

  lemma {:induction false} CarriedInOrder(current: seq<EntityWireState>, rank: seq<Option<real>>, sent: seq<bool>,
                                          n: nat)
    requires n <= |current| == |rank| == |sent| && Sorted(current)
    ensures CreditsOk(CarryOver(current, rank, sent, n))
    ensures forall c <- CarryOver(current, rank, sent, n) :: exists i | 0 <= i < n :: current[i].id == c.id
  {
    if n > 0 {
      CarriedInOrder(current, rank, sent, n - 1);
      var head := CarryOver(current, rank, sent, n - 1);
      forall k | 0 <= k < |head| ensures head[k].id < current[n - 1].id {
        assert head[k] in head;
      }
      assert current[n - 1].id == current[n - 1].id;
    }
  }

  method EmitCount(w: BitWriter, n: nat, ghost start: Pen, ghost ink: seq<bool>) returns (ghost ink': seq<bool>)
    requires w.Valid() && Wrote(start, w.View(), ink)
    modifies w, w.buffer
    ensures w.Valid() && ink' == ink + FromNat(CountField(n), COUNT_BITS) && Wrote(start, w.View(), ink')
    ensures w.Beyond() == old(w.Beyond())
  {
    Pow2Values();
    ink' := Emit(w, CountField(n), COUNT_BITS, start, ink);
  }

  method Merge(base: Option<SnapshotFrame>, current: seq<EntityWireState>)
    returns (previous: seq<Option<EntityWireState>>, removed: seq<u32>)
    requires (base.Some? ==> Sorted(base.value.states) && |base.value.states| < 0x1_0000_0000) && Sorted(current)
    ensures previous == Previous(base, current)
    ensures removed == Removed(base, current) && Ascending(removed) && |removed| < 0x1_0000_0000
  {
    hide Find, Departed, Sorted, Ascending;
    match base {
      case None =>
        previous, removed := seq(|current|, _ => None), [];
        RemovedAscends(base, current);
      case Some(frame) =>
        previous, removed := MergeBaseline(frame.states, current);
        DepartedIs(frame.states, current);
    }
    assert previous == Previous(base, current);
  }

  lemma HeadInk(v: Scene, base: Option<SnapshotFrame>, ink: seq<bool>)
    requires v.Valid() && (base.Some? ==> Sorted(base.value.states)) && Ascending(Removed(base, v.current))
    requires ink == [] + PreludeBits(v.tick, TickOf(base), v.lastInput, v.viewer)
                  + RemovedBits(Removed(base, v.current))
    ensures ink == HeadBits(v, base)
  {
    hide PreludeBits, RemovedBits;
    var p := PreludeBits(v.tick, TickOf(base), v.lastInput, v.viewer);
    assert [] + p == p;
  }

  lemma HeadWritten(start: Pen, pen: Pen, ink: seq<bool>)
    requires Wrote(start, pen, ink) && start.ink == [] && !start.overflow
    ensures pen.overflow <==> |ink| > start.capacity
    ensures !pen.overflow ==> pen.ink == ink
  {
    assert [] + ink == ink;
  }

  lemma RecordedSorted(base: Option<SnapshotFrame>, current: seq<EntityWireState>, sent: seq<bool>)
    requires |sent| == |current| && Sorted(current)
    ensures Sorted(Recorded(base, current, sent, |current|))
  {
    RecordedIs(base, current, sent, |current|);
  }

  lemma StoreSorted(frames: seq<SnapshotFrame>, f: SnapshotFrame)
    requires RingSorted(frames) && Sorted(f.states)
    requires (forall g <- frames :: |g.states| < 0x1_0000_0000) && |f.states| < 0x1_0000_0000
    ensures RingSorted(Store(frames, f)) && forall g <- Store(frames, f) :: |g.states| < 0x1_0000_0000
  {
    hide Sorted;
    forall g | g in Store(frames, f) ensures g == f || g in frames {}
  }

  /** With the header written, the record loop overflows exactly when there was no
      room even for the count; otherwise the pen holds the whole snapshot. */
  lemma BodyWritten(s: Server, falloff: real, budgetBits: nat, v: Scene, base: Option<SnapshotFrame>, sent: seq<bool>,
                    start: Pen, pen: Pen, ink: seq<bool>)
    requires v.Valid() && RingSorted(s.history) && base == Baseline(s, v.tick)
    requires base.Some? ==> Sorted(base.value.states)
    requires TopSet(sent, Ranking(s, base, falloff, v), FitCount(budgetBits - |HeadBits(v, base)|))
    requires |sent| == |v.current|
    requires Wrote(start, pen, ink) && start == Pen([], budgetBits, false)
    requires InOrder(Updates(base, v.current, sent, |v.current|))
    requires ink == HeadBits(v, base) + FromNat(CountField(Count(sent)), COUNT_BITS)
                  + RecordsBits(Updates(base, v.current, sent, |v.current|), 0)
    ensures pen.overflow <==> !HeaderFits(s, v, budgetBits)
    ensures !pen.overflow ==> Chooses(s, falloff, budgetBits, v, sent) && pen.ink == WireBits(v, base, sent)
  {
    hide TopSet, Ranking, Wrote, Updates, Removed, RecordsBits, PreludeBits, RemovedBits, FromNat, InOrder, Ascending,
      Sorted, Baseline, FitCount, RingSorted;
    RemovedAscends(base, v.current);
    var updates := Updates(base, v.current, sent, |v.current|);
    UpdatesCount(base, v.current, sent, |v.current|);
    assert sent[..|v.current|] == sent;
    var p, r, n, m := PreludeBits(v.tick, TickOf(base), v.lastInput, v.viewer), RemovedBits(Removed(base, v.current)),
                      FromNat(CountField(|updates|), COUNT_BITS), RecordsBits(updates, 0);
    Chain4(p, r, n, m);
    assert ink == WireBits(v, base, sent);
    HeadWritten(start, pen, ink);
    if HeaderFits(s, v, budgetBits) {
      BudgetHolds(s, falloff, budgetBits, v, sent);
    }
  }

  lemma EncodedIs(v: Scene, base: Option<SnapshotFrame>, sent: seq<bool>, bytes: seq<byte>, padding: nat)
    requires v.Valid() && |sent| == |v.current| && (base.Some? ==> Sorted(base.value.states))
    requires BytesBits(bytes) == WireBits(v, base, sent) + FromNat(0, padding) && padding < 8
    ensures Encoded(v, base, sent, bytes)
  {
    hide WireBits, BytesBits, FromNat;
  }

  class ReplicationState {
    const falloff: real
    const maxSnapshotBytes: nat
    var history: seq<SnapshotFrame>
    var lastAckedTick: u32
    var hasAcked: bool
    var priority: seq<Carried>

    ghost predicate Valid()
      reads this
    {
      && RingSorted(history) && CreditsOk(priority)
      && forall f <- history :: |f.states| < 0x1_0000_0000
    }

    function View(): Server
      reads this
    {
      Server(history, lastAckedTick, hasAcked, priority)
    }

    constructor (interestFalloff: real, maxBytes: nat, baselineHistory: nat)
      ensures Valid() && falloff == interestFalloff && maxSnapshotBytes == maxBytes
      ensures View() == Server(seq(baselineHistory, _ => SnapshotFrame(0, false, [])), 0, false, [])
    {
      falloff, maxSnapshotBytes := interestFalloff, maxBytes;
      history := seq(baselineHistory, _ => SnapshotFrame(0, false, []));
      lastAckedTick, hasAcked, priority := 0, false, [];
    }

    method Acknowledge(tick: u32)
      requires Valid()
      modifies this`lastAckedTick, this`hasAcked
      ensures Valid() && View() == Replication.Acknowledge(old(View()), tick)
    {
      if hasAcked && !Greater32(tick, lastAckedTick) { return; }
      lastAckedTick := tick;
      hasAcked := true;
    }

    /** The smaller of what the caller and the configuration allow. */
    function Budget(capacity: nat): (budget: nat)
      ensures budget <= capacity && budget <= maxSnapshotBytes && (budget == capacity || budget == maxSnapshotBytes)
    {
      if capacity < maxSnapshotBytes then capacity else maxSnapshotBytes
    }

    /** Records the frame that was sent and the credit of what was not. */
    method Record(v: Scene, base: Option<SnapshotFrame>, previous: seq<Option<EntityWireState>>,
                  rank: seq<Option<real>>, sent: seq<bool>)
      requires Valid() && v.Valid() && |v.current| < 0x1_0000_0000 && |sent| == |v.current|
      requires base == Baseline(View(), v.tick)
      requires previous == Previous(base, v.current) && rank == Ranking(View(), base, falloff, v)
      modifies this`history, this`priority
      ensures Valid() && View() == AfterEncode(old(View()), falloff, v, sent)
    {
      hide Ranking, Recorded, CarryOver, Sorted, Previous, CreditsOk, Store, Baseline;
      var states := RecordFrame(base, previous, v.current, sent);
      RecordedSorted(base, v.current, sent);
      StoreSorted(history, SnapshotFrame(v.tick, true, states));
      history := Store(history, SnapshotFrame(v.tick, true, states));
      priority := CarryCredits(v.current, rank, sent);
    }

    /** Builds and encodes a snapshot.  It fails, changing nothing, exactly when
        the header leaves no room for the update count; otherwise the bytes are
        those of a best choice, and that choice is what is recorded.  Bytes past the
        budget are not touched. */
    method Encode(v: Scene, out: array<byte>) returns (size: nat, ghost choice: seq<bool>)
      requires Valid() && v.Valid() && |v.current| < 0x1_0000_0000
      modifies this`history, this`priority, out
      ensures Valid()
      ensures size == 0 <==> !HeaderFits(old(View()), v, 8 * Budget(out.Length))
      ensures size == 0 ==> View() == old(View())
      ensures size > 0 ==>
                && |choice| == |v.current| && Chooses(old(View()), falloff, 8 * Budget(out.Length), v, choice)
                && View() == AfterEncode(old(View()), falloff, v, choice)
                && size <= Budget(out.Length)
                && Encoded(v, Baseline(old(View()), v.tick), choice, out[..size])
      ensures Budget(out.Length) <= out.Length && out[Budget(out.Length)..] == old(out[Budget(out.Length)..])
    {
      hide HeaderFits, Chooses, AfterEncode, Encoded, Valid, BitWriter.Valid, BitWriter.View;
      var writer := new BitWriter(out, Budget(out.Length));
      size, choice := EncodeWith(v, writer);
    }

    method EncodeWith(v: Scene, writer: BitWriter) returns (size: nat, ghost choice: seq<bool>)
      requires Valid() && v.Valid() && |v.current| < 0x1_0000_0000
      requires writer.Valid() && writer.View() == Pen([], 8 * writer.capacity, false)
      requires writer.capacity <= writer.buffer.Length
      modifies this`history, this`priority, writer, writer.buffer
      ensures Valid()
      ensures size == 0 <==> !HeaderFits(old(View()), v, 8 * writer.capacity)
      ensures size == 0 ==> View() == old(View())
      ensures size > 0 ==>
                && |choice| == |v.current| && Chooses(old(View()), falloff, 8 * writer.capacity, v, choice)
                && View() == AfterEncode(old(View()), falloff, v, choice)
                && size <= writer.capacity
                && Encoded(v, Baseline(old(View()), v.tick), choice, writer.buffer[..size])
      ensures writer.Beyond() == old(writer.Beyond())
    {
      hide Ranking, HeadBits, Wrote, BytesBits, FromNat, TopSet, Recorded, CarryOver, RemovedBits, PreludeBits,
        Removed, Updates, RecordsBits, Sorted, Ascending, InOrder, BitWriter.Valid, BitWriter.View, BitWriter.Beyond,
        Previous, CreditsOk, FitCount;
      choice := [];
      var s := View();
      BaselineSorted(s, v.tick);
      var base := Baseline(s, v.tick);
      var previous, removed := Merge(base, v.current);
      var rank := Rank(s, base, previous, falloff, v);
      ghost var start := writer.View();
      WroteNothing(start);
      ghost var ink := EmitPrelude(writer, v.tick, TickOf(base), v.lastInput, v.viewer, start, []);
      ink := EmitRemoved(writer, removed, start, ink);
      HeadInk(v, base, ink);
      HeadWritten(start, writer.View(), ink);
      if writer.overflow { return 0, []; }
      var fits := FitCount(8 * writer.capacity - writer.bitPos);
      var sent := Select(rank, fits);
      TopCount(sent, rank, fits);
      ink := EmitCount(writer, Count(sent), start, ink);
      ink := EmitRecords(writer, base, previous, v.current, sent, start, ink);
      BodyWritten(s, falloff, 8 * writer.capacity, v, base, sent, start, writer.View(), ink);
      if writer.overflow { return 0, []; }
      choice := sent;
      size := writer.BytesWritten();
      EncodedIs(v, base, sent, writer.buffer[..size], 8 * size - writer.bitPos);
      Record(v, base, previous, rank, sent);
    }
  }

  /** The bytes carry exactly the bits of the snapshot, with zeros to the end of
      the last byte. */
  ghost predicate Encoded(v: Scene, base: Option<SnapshotFrame>, sent: seq<bool>, bytes: seq<byte>)
    requires v.Valid() && |sent| == |v.current|
  {
    && (base.Some? ==> Sorted(base.value.states))
    && |WireBits(v, base, sent)| <= 8 * |bytes| < |WireBits(v, base, sent)| + 8
    && BytesBits(bytes) == WireBits(v, base, sent) + FromNat(0, 8 * |bytes| - |WireBits(v, base, sent)|)
  }
}
