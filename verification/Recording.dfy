/**
 What the encoder records for a tick: entities sent are recorded as they are
 now, entities deferred as they were in the baseline.  The main theorem says the
 decoder arrives at exactly that list.
 */
module Recording {
  import opened Sequence
  import opened SequenceBuffers
  import opened Bits
  import opened Snapshot

  /** Each entity's baseline state. */
  function Previous(base: Option<SnapshotFrame>, current: seq<EntityWireState>): (p: seq<Option<EntityWireState>>)
    ensures |p| == |current|
    ensures forall i | 0 <= i < |p| :: p[i] == PreviousOf(base, current[i].id)
  {
    seq(|current|, i requires 0 <= i < |current| => PreviousOf(base, current[i].id))
  }

  function PreviousOf(base: Option<SnapshotFrame>, id: u32): Option<EntityWireState> {
    if base.None? then None else Find(base.value.states, id)
  }

  predicate HasId(states: seq<EntityWireState>, id: u32) {
    exists i | 0 <= i < |states| :: states[i].id == id
  }

  /** Baseline entities that are no longer relevant, in id order. */
  ghost function Departed(old_: seq<EntityWireState>, current: seq<EntityWireState>): seq<u32> {
    if old_ == [] then []
    else
      var head, last := Departed(old_[..|old_| - 1], current), old_[|old_| - 1];
      if HasId(current, last.id) then head else head + [last.id]
  }

  ghost function Removed(base: Option<SnapshotFrame>, current: seq<EntityWireState>): seq<u32> {
    if base.None? then [] else Departed(base.value.states, current)
  }

  /** The records to write for the first `n` entities. */
  ghost function Updates(base: Option<SnapshotFrame>, current: seq<EntityWireState>, sent: seq<bool>,
                         n: nat): seq<Update>
    requires n <= |current| == |sent|
  {
    if n == 0 then []
    else
      var head := Updates(base, current, sent, n - 1);
      var s := current[n - 1];
      if sent[n - 1] then head + [Update(s, PreviousOf(base, s.id))] else head
  }

  /** The states recorded for the first `n` entities. */
  ghost function Recorded(base: Option<SnapshotFrame>, current: seq<EntityWireState>, sent: seq<bool>, n: nat)
    : (r: seq<EntityWireState>)
    requires n <= |current| == |sent|
  {
    if n == 0 then []
    else
      var head := Recorded(base, current, sent, n - 1);
      var s := current[n - 1];
      if sent[n - 1] then head + [s]
      else if PreviousOf(base, s.id).Some? then head + [PreviousOf(base, s.id).value]
      else head
  }

  // ---------------------------------------------------------------------------
  // Their shape

  lemma {:induction false} DepartedIs(old_: seq<EntityWireState>, current: seq<EntityWireState>)
    requires Sorted(old_)
    ensures Ascending(Departed(old_, current))
    ensures forall id :: id in Departed(old_, current) <==> HasId(old_, id) && !HasId(current, id)
    ensures |Departed(old_, current)| <= |old_|
  {
    hide HasId;
    forall id ensures id in Departed(old_, current) <==> HasId(old_, id) && !HasId(current, id) {
      DepartedHas(old_, current, id);
    }
    if old_ != [] {
      var head := old_[..|old_| - 1];
      DepartedIs(head, current);
      var gone := Departed(head, current);
      forall i | 0 <= i < |gone| ensures gone[i] < old_[|old_| - 1].id {
        BeforeLast(old_, gone[i]);
      }
      hide Sorted;
    }
  }

  lemma {:induction false} DepartedHas(old_: seq<EntityWireState>, current: seq<EntityWireState>, id: u32)
    ensures id in Departed(old_, current) <==> HasId(old_, id) && !HasId(current, id)
  {
    if old_ == [] {
      assert !HasId(old_, id);
    } else {
      hide HasId;
      DepartedHas(old_[..|old_| - 1], current, id);
      LastHas(old_, id);
    }
  }

  lemma LastHas(states: seq<EntityWireState>, id: u32)
    requires states != []
    ensures HasId(states, id) <==> HasId(states[..|states| - 1], id) || id == states[|states| - 1].id
  {
    var head, last := states[..|states| - 1], states[|states| - 1];
    if HasId(head, id) { var i :| 0 <= i < |head| && head[i].id == id; assert states[i].id == id; }
    if HasId(states, id) && id != last.id {
      var i :| 0 <= i < |states| && states[i].id == id;
      assert head[i].id == id;
    }
    if id == last.id { assert states[|states| - 1].id == id; }
  }

  lemma BeforeLast(states: seq<EntityWireState>, id: u32)
    requires Sorted(states) && states != [] && HasId(states[..|states| - 1], id)
    ensures id < states[|states| - 1].id
  {
    var i :| 0 <= i < |states| - 1 && states[..|states| - 1][i].id == id;
  }

  /** Each update comes from a sent entity. */
  ghost predicate UpdateAt(base: Option<SnapshotFrame>, current: seq<EntityWireState>, sent: seq<bool>, u: Update,
                           i: int)
    requires |current| == |sent|
  {
    0 <= i < |current| && sent[i] && u == Update(current[i], PreviousOf(base, current[i].id))
  }

  lemma {:induction false} UpdatesAre(base: Option<SnapshotFrame>, current: seq<EntityWireState>, sent: seq<bool>,
                                      n: nat)
    requires n <= |current| == |sent| && Sorted(current)
    ensures InOrder(Updates(base, current, sent, n))
    ensures forall u <- Updates(base, current, sent, n) :: exists i :: i < n && UpdateAt(base, current, sent, u, i)
    ensures forall i | 0 <= i < n :: sent[i] ==>
              Update(current[i], PreviousOf(base, current[i].id)) in Updates(base, current, sent, n)
    ensures |Updates(base, current, sent, n)| <= n
  {
    if n > 0 {
      UpdatesAre(base, current, sent, n - 1);
      hide PreviousOf;
      var head, s := Updates(base, current, sent, n - 1), current[n - 1];
      var u := Update(s, PreviousOf(base, s.id));
      forall v | v in Updates(base, current, sent, n) ensures exists i :: i < n && UpdateAt(base, current, sent, v, i) {
        if v in head {
          var i :| i < n - 1 && UpdateAt(base, current, sent, v, i);
        } else {
          assert UpdateAt(base, current, sent, v, n - 1);
        }
      }
      forall j | 0 <= j < |head| ensures head[j].current.id < s.id {
        assert head[j] in head;
        var i :| i < n - 1 && UpdateAt(base, current, sent, head[j], i);
      }
    }
  }

  /** What is recorded for entity `i`, if anything. */
  ghost function RecordAt(base: Option<SnapshotFrame>, current: seq<EntityWireState>, sent: seq<bool>, i: nat)
    : (r: Option<EntityWireState>)
    requires i < |current| == |sent|
    ensures r.Some? ==> r.value.id == current[i].id
  {
    if sent[i] then Some(current[i]) else PreviousOf(base, current[i].id)
  }

  /** `x` is recorded for one of the first `n` entities. */
  ghost predicate RecordedFor(base: Option<SnapshotFrame>, current: seq<EntityWireState>, sent: seq<bool>, n: nat,
                              x: EntityWireState)
    requires n <= |current| == |sent|
  {
    exists i | 0 <= i < n :: RecordAt(base, current, sent, i) == Some(x)
  }

  lemma RecordedIs(base: Option<SnapshotFrame>, current: seq<EntityWireState>, sent: seq<bool>, n: nat)
    requires n <= |current| == |sent| && Sorted(current)
    ensures Sorted(Recorded(base, current, sent, n))
    ensures forall x <- Recorded(base, current, sent, n) :: RecordedFor(base, current, sent, n, x)
    ensures forall i | 0 <= i < n :: RecordAt(base, current, sent, i).Some? ==>
              RecordAt(base, current, sent, i).value in Recorded(base, current, sent, n)
  {
    RecordedInOrder(base, current, sent, n);
    hide Sorted, Recorded, RecordAt;
    forall x ensures x in Recorded(base, current, sent, n) <==> RecordedFor(base, current, sent, n, x) {
      RecordedHas(base, current, sent, n, x);
    }
    forall i | 0 <= i < n && RecordAt(base, current, sent, i).Some?
      ensures RecordedFor(base, current, sent, n, RecordAt(base, current, sent, i).value)
    {
    }
  }

  lemma {:induction false} RecordedInOrder(base: Option<SnapshotFrame>, current: seq<EntityWireState>, sent: seq<bool>,
                                           n: nat)
    requires n <= |current| == |sent| && Sorted(current)
    ensures Sorted(Recorded(base, current, sent, n))
  {
    hide RecordAt, Recorded, RecordedFor, Sorted;
    if n == 0 {
      NothingRecorded(base, current, sent);
      return;
    }
    RecordedInOrder(base, current, sent, n - 1);
    RecordedNext(base, current, sent, n);
    HeadBelow(base, current, sent, n - 1);
    var r := RecordAt(base, current, sent, n - 1);
    if r.Some? { SortedAppend(Recorded(base, current, sent, n - 1), r.value); }
  }

  lemma NothingRecorded(base: Option<SnapshotFrame>, current: seq<EntityWireState>, sent: seq<bool>)
    requires |current| == |sent|
    ensures Recorded(base, current, sent, 0) == [] && Sorted(Recorded(base, current, sent, 0))
    ensures forall x :: !RecordedFor(base, current, sent, 0, x)
  {
    hide RecordAt;
  }

  lemma HeadBelow(base: Option<SnapshotFrame>, current: seq<EntityWireState>, sent: seq<bool>, n: nat)
    requires n < |current| == |sent| && Sorted(current)
    ensures forall x <- Recorded(base, current, sent, n) :: x.id < current[n].id
  {
    hide RecordAt, Recorded, RecordedFor, Sorted;
    forall x | x in Recorded(base, current, sent, n) ensures x.id < current[n].id {
      RecordedHas(base, current, sent, n, x);
      RecordedBelow(base, current, sent, n, x);
    }
  }

  lemma RecordedBelow(base: Option<SnapshotFrame>, current: seq<EntityWireState>, sent: seq<bool>, n: nat,
                      x: EntityWireState)
    requires n < |current| == |sent| && Sorted(current) && RecordedFor(base, current, sent, n, x)
    ensures x.id < current[n].id
  {
    hide RecordAt;
    var i :| 0 <= i < n && RecordAt(base, current, sent, i) == Some(x);
  }

  lemma RecordedNext(base: Option<SnapshotFrame>, current: seq<EntityWireState>, sent: seq<bool>, n: nat)
    requires 0 < n <= |current| == |sent|
    ensures var head, r := Recorded(base, current, sent, n - 1), RecordAt(base, current, sent, n - 1);
            Recorded(base, current, sent, n) == if r.Some? then head + [r.value] else head
  {
    hide PreviousOf;
  }

  lemma {:induction false} RecordedHas(base: Option<SnapshotFrame>, current: seq<EntityWireState>, sent: seq<bool>,
                                       n: nat, x: EntityWireState)
    requires n <= |current| == |sent|
    ensures x in Recorded(base, current, sent, n) <==> RecordedFor(base, current, sent, n, x)
  {
    hide Recorded, RecordedFor, RecordAt;
    if n == 0 {
      NothingRecorded(base, current, sent);
    } else {
      RecordedHas(base, current, sent, n - 1, x);
      RecordedNext(base, current, sent, n);
      OneMoreFor(base, current, sent, n - 1, x);
    }
  }

  lemma OneMoreFor(base: Option<SnapshotFrame>, current: seq<EntityWireState>, sent: seq<bool>, n: nat,
                   x: EntityWireState)
    requires n < |current| == |sent|
    ensures RecordedFor(base, current, sent, n + 1, x)
       <==> RecordedFor(base, current, sent, n, x) || RecordAt(base, current, sent, n) == Some(x)
  {
    hide RecordAt;
    if RecordedFor(base, current, sent, n + 1, x) {
      var i :| 0 <= i < n + 1 && RecordAt(base, current, sent, i) == Some(x);
      if i < n { assert RecordedFor(base, current, sent, n, x); }
    }
  }

  // ---------------------------------------------------------------------------
  // What the decoder arrives at

  ghost predicate IsRebuilt(updates: seq<Update>, x: EntityWireState) {
    exists u :: u in updates && x == Rebuilt(u)
  }

  ghost predicate Touched(updates: seq<Update>, id: u32) {
    exists u :: u in updates && u.current.id == id
  }

  lemma {:induction false} UpsertAllIs(states: seq<EntityWireState>, updates: seq<Update>)
    requires Sorted(states) && InOrder(updates)
    ensures Sorted(UpsertAll(states, updates))
    ensures forall x :: x in UpsertAll(states, updates) <==>
              IsRebuilt(updates, x) || (x in states && !Touched(updates, x.id))
    decreases |updates|
  {
    if updates != [] {
      var u, rest := updates[0], updates[1..];
      UpsertKeeps(states, Rebuilt(u));
      UpsertAllIs(Upsert(states, Rebuilt(u)), rest);
      forall x
        ensures IsRebuilt(updates, x) <==> x == Rebuilt(u) || IsRebuilt(rest, x)
        ensures Touched(updates, x.id) <==> x.id == u.current.id || Touched(rest, x.id)
      {
        assert u in updates;
        assert forall v :: v in updates <==> v == u || v in rest;
      }
      assert !Touched(rest, u.current.id);
    }
  }

  lemma KeptIs(base: Option<SnapshotFrame>, current: seq<EntityWireState>)
    requires base.Some? ==> Sorted(base.value.states)
    ensures Sorted(Kept(base, Removed(base, current))) && Ascending(Removed(base, current))
    ensures forall x :: x in Kept(base, Removed(base, current)) <==>
              base.Some? && x in base.value.states && HasId(current, x.id)
  {
    KeptSorted(base, Removed(base, current));
    if base.Some? {
      DepartedIs(base.value.states, current);
      forall x | x in base.value.states ensures HasId(base.value.states, x.id) {
        var i :| 0 <= i < |base.value.states| && base.value.states[i] == x;
      }
    }
  }

  /** Updates look up, in the kept list, exactly their baseline state. */
  lemma UpdatesKnown(base: Option<SnapshotFrame>, current: seq<EntityWireState>, sent: seq<bool>)
    requires (base.Some? ==> Sorted(base.value.states)) && Sorted(current) && |sent| == |current|
    ensures Known(Kept(base, Removed(base, current)), Updates(base, current, sent, |current|))
  {
    var kept, updates := Kept(base, Removed(base, current)), Updates(base, current, sent, |current|);
    KeptIs(base, current);
    UpdatesAre(base, current, sent, |current|);
    hide Kept, Removed, Updates, Sorted;
    forall u | u in updates ensures Find(kept, u.current.id) == u.previous {
      var i :| i < |current| && UpdateAt(base, current, sent, u, i);
      KeptFind(base, current, i);
    }
  }

  lemma KeptFind(base: Option<SnapshotFrame>, current: seq<EntityWireState>, i: nat)
    requires (base.Some? ==> Sorted(base.value.states)) && i < |current|
    ensures Find(Kept(base, Removed(base, current)), current[i].id) == PreviousOf(base, current[i].id)
  {
    KeptIs(base, current);
    hide Kept, Removed, LowerBound;
    var kept, id := Kept(base, Removed(base, current)), current[i].id;
    var a, b := Find(kept, id), PreviousOf(base, id);
    if a.Some? { FindIsMembership(base.value.states, a.value); }
    if b.Some? {
      assert HasId(current, b.value.id);
      FindIsMembership(base.value.states, b.value);
      FindIsMembership(kept, b.value);
    }
  }

  /** The kind of a known entity never changes, and a new one's fits two bits. */
  ghost predicate KindStable(u: Update) {
    Rebuilt(u) == u.current
  }

  ghost predicate KindsStable(base: Option<SnapshotFrame>, current: seq<EntityWireState>, sent: seq<bool>)
    requires |sent| == |current|
  {
    forall i | 0 <= i < |current| :: sent[i] ==>
      match PreviousOf(base, current[i].id)
      case None => current[i].kind < 4
      case Some(p) => p.kind == current[i].kind
  }

  lemma StableUpdates(base: Option<SnapshotFrame>, current: seq<EntityWireState>, sent: seq<bool>)
    requires |sent| == |current| && Sorted(current)
    ensures KindsStable(base, current, sent) <==> forall u <- Updates(base, current, sent, |current|) :: KindStable(u)
  {
    UpdatesAre(base, current, sent, |current|);
    var updates := Updates(base, current, sent, |current|);
    hide Updates, PreviousOf, Sorted;
    if KindsStable(base, current, sent) {
      forall u | u in updates ensures KindStable(u) {
        var i :| i < |current| && UpdateAt(base, current, sent, u, i);
      }
    }
    if forall u <- updates :: KindStable(u) {
      forall i | 0 <= i < |current| && sent[i]
        ensures match PreviousOf(base, current[i].id)
                case None => current[i].kind < 4
                case Some(p) => p.kind == current[i].kind
      {
        assert KindStable(Update(current[i], PreviousOf(base, current[i].id)));
      }
    }
  }

  /** The decoded list is the recorded one exactly when no kind changes. */
  lemma DecodedIsRecorded(base: Option<SnapshotFrame>, current: seq<EntityWireState>, sent: seq<bool>)
    requires (base.Some? ==> Sorted(base.value.states)) && Sorted(current) && |sent| == |current|
    ensures KindsStable(base, current, sent) <==>
              UpsertAll(Kept(base, Removed(base, current)), Updates(base, current, sent, |current|))
              == Recorded(base, current, sent, |current|)
  {
    var kept, updates := Kept(base, Removed(base, current)), Updates(base, current, sent, |current|);
    var decoded, recorded := UpsertAll(kept, updates), Recorded(base, current, sent, |current|);
    StableUpdates(base, current, sent);
    KeptIs(base, current);
    UpdatesAre(base, current, sent, |current|);
    UpsertAllIs(kept, updates);
    RecordedIs(base, current, sent, |current|);
    if KindsStable(base, current, sent) {
      forall x ensures x in decoded <==> x in recorded {
        SameMember(base, current, sent, x);
      }
      SortedExtensional(decoded, recorded);
    } else {
      hide Recorded, Updates, Kept, Removed, UpsertAll;
      var u :| u in updates && !KindStable(u);
      var i :| i < |current| && UpdateAt(base, current, sent, u, i);
      assert RecordAt(base, current, sent, i) == Some(u.current);
      assert IsRebuilt(updates, Rebuilt(u));
      if decoded == recorded {
        FindIsMembership(decoded, u.current);
        FindIsMembership(decoded, Rebuilt(u));
      }
    }
  }

  lemma SameMember(base: Option<SnapshotFrame>, current: seq<EntityWireState>, sent: seq<bool>, x: EntityWireState)
    requires (base.Some? ==> Sorted(base.value.states)) && Sorted(current) && |sent| == |current|
    requires forall u <- Updates(base, current, sent, |current|) :: KindStable(u)
    ensures var updates := Updates(base, current, sent, |current|);
            IsRebuilt(updates, x) || (x in Kept(base, Removed(base, current)) && !Touched(updates, x.id))
            <==> x in Recorded(base, current, sent, |current|)
  {
    var kept, updates := Kept(base, Removed(base, current)), Updates(base, current, sent, |current|);
    KeptIs(base, current);
    UpdatesAre(base, current, sent, |current|);
    RecordedIs(base, current, sent, |current|);
    hide Recorded, Updates, Kept, Removed;
    if IsRebuilt(updates, x) {
      var u :| u in updates && x == Rebuilt(u);
      assert KindStable(u);
      var i :| i < |current| && UpdateAt(base, current, sent, u, i);
      assert RecordAt(base, current, sent, i) == Some(x);
    } else if x in kept && !Touched(updates, x.id) {
      var i :| 0 <= i < |current| && current[i].id == x.id;
      FindIsMembership(base.value.states, x);
      TouchedIfSent(base, current, sent, i);
      assert RecordAt(base, current, sent, i) == Some(x);
    }
    if x in Recorded(base, current, sent, |current|) {
      var i :| 0 <= i < |current| && RecordAt(base, current, sent, i) == Some(x);
      if sent[i] {
        var u := Update(current[i], PreviousOf(base, current[i].id));
        assert u in updates && KindStable(u);
        assert IsRebuilt(updates, x);
      } else {
        FindIsMembership(base.value.states, x);
        assert HasId(current, x.id);
        TouchedIfSent(base, current, sent, i);
      }
    }
  }

  lemma TouchedIfSent(base: Option<SnapshotFrame>, current: seq<EntityWireState>, sent: seq<bool>, i: nat)
    requires Sorted(current) && i < |current| == |sent|
    ensures Touched(Updates(base, current, sent, |current|), current[i].id) <==> sent[i]
  {
    UpdatesAre(base, current, sent, |current|);
    var updates := Updates(base, current, sent, |current|);
    hide Updates, PreviousOf;
    if Touched(updates, current[i].id) {
      var u :| u in updates && u.current.id == current[i].id;
      var j :| j < |current| && UpdateAt(base, current, sent, u, j);
    }
  }

  /** Snapshot codec round trip: for every sorted baseline, sorted list and
      selection, the decoder accepts the bits and arrives at exactly what the
      encoder recorded, if and only if no kind changed. */
  lemma SnapshotRoundTrip(c: Cursor, tick: u32, base: Option<SnapshotFrame>, lastInput: u32, viewer: u32,
                          current: seq<EntityWireState>, sent: seq<bool>)
    requires base.Some? ==> base.value.valid && Sorted(base.value.states)
    requires Sorted(current) && |sent| == |current|
    requires Ascending(Removed(base, current)) && |Removed(base, current)| <= MAX_REMOVED
    requires InOrder(Updates(base, current, sent, |current|)) && |Updates(base, current, sent, |current|)| < 0x1_0000
    requires Before(c, SnapshotBits(tick, TickOf(base), lastInput, viewer, Removed(base, current),
                                    Updates(base, current, sent, |current|)))
    ensures var r := DecodeSnapshot(c, base);
            && r.Some?
            && r.value.header == Header(tick, base.None?, if base.Some? then base.value.tick else 0)
            && r.value.lastInput == lastInput && r.value.viewer == viewer && r.value.removed == Removed(base, current)
            && (r.value.states == Recorded(base, current, sent, |current|) <==> KindsStable(base, current, sent))
  {
    hide Sorted, Ascending, InOrder, Removed, Updates, Recorded, Kept, UpsertAll, Known, KindsStable, SnapshotBits,
      DecodeSnapshot, Before;
    UpdatesKnown(base, current, sent);
    DecodeEncoded(c, tick, base, lastInput, viewer, Removed(base, current), Updates(base, current, sent, |current|));
    DecodedIsRecorded(base, current, sent);
  }

  /** When nothing is deferred, what is recorded is the current list. */
  lemma {:induction false} NothingDeferred(base: Option<SnapshotFrame>, current: seq<EntityWireState>, sent: seq<bool>,
                                           n: nat)
    requires n <= |current| == |sent|
    requires forall i | 0 <= i < n :: !sent[i] ==>
               PreviousOf(base, current[i].id).Some? && current[i].SameStateAs(PreviousOf(base, current[i].id).value)
    ensures Recorded(base, current, sent, n) == current[..n]
  {
    if n > 0 {
      NothingDeferred(base, current, sent, n - 1);
      assert current[..n] == current[..n - 1] + [current[n - 1]];
    }
  }
}
