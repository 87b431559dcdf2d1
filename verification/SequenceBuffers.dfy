/**
 The fixed-capacity map from wrapping 16-bit sequences to records, indexed by
 the sequence modulo the capacity.

 `Window` is the reference: the records less than `capacity` behind the latest
 sequence.  `SequenceBuffer` is the implementation over two arrays, and `Tracks`
 relates a window to the unbounded numbers that were inserted into it.
 */
module SequenceBuffers {
  import opened Sequence

  datatype Option<+T> = None | Some(value: T)

  /** What the buffer holds: `live` maps each remembered sequence to its record. */
  datatype Window<T> = Window(hasLatest: bool, latest: u16, live: map<u16, T>) {

    ghost predicate Valid(capacity: nat) {
      forall k <- live :: hasLatest && Ahead(latest, k) < capacity
    }

    /** Too old to be representable: the insert is refused. */
    predicate TooOld(capacity: nat, sequence: u16) {
      hasLatest && Greater(latest, sequence) && Ahead(latest, sequence) >= capacity
    }

    predicate Advances(sequence: u16) {
      !hasLatest || Greater(sequence, latest)
    }

    function Insert(capacity: nat, sequence: u16, record: T): (w: Window<T>)
      requires 0 < capacity
      ensures Valid(capacity) ==> w.Valid(capacity)
    {
      if TooOld(capacity, sequence) then this
      else if Advances(sequence) then
        Window(true, sequence, (map k | k in live && Ahead(sequence, k) < capacity :: live[k])[sequence := record])
      else
        Window(true, latest, live[sequence := record])
    }

    function Find(sequence: u16): (r: Option<T>) {
      if sequence in live then Some(live[sequence]) else None
    }
  }

  function EmptyWindow<T>(): Window<T> {
    Window(false, 0, map[])
  }

  // ---------------------------------------------------------------------------
  // Windows over unbounded numbers

  /** `w` holds exactly the numbers of `inserted` less than `capacity` behind
      `newest`, the largest of them, each with the record inserted last. */
  ghost predicate Tracks<T>(w: Window<T>, capacity: nat, inserted: map<int, T>, newest: int) {
    && w.hasLatest && w.latest == Wrap(newest)
    && newest in inserted
    && (forall n <- inserted :: n <= newest)
    && (forall k <- w.live :: exists n :: Stands(inserted, n, k) && newest - capacity < n && w.live[k] == inserted[n])
    && (forall n <- inserted :: newest - capacity < n ==> Wrap(n) in w.live)
  }

  ghost predicate Stands<T>(inserted: map<int, T>, n: int, k: u16) {
    n in inserted && Wrap(n) == k
  }

  /** Inserting a number at most half the ring away from the newest one keeps the
      window exact, whether the number is ahead, behind, or too old. */
  lemma InsertTracks<T>(w: Window<T>, capacity: nat, inserted: map<int, T>, newest: int, n: int, record: T)
    requires 0 < capacity <= 32768
    requires Tracks(w, capacity, inserted, newest)
    requires -32768 < n - newest < 32768 || n == Unwrap(newest, Wrap(n))
    ensures Tracks(w.Insert(capacity, Wrap(n), record), capacity, inserted[n := record],
                   if n > newest then n else newest)
    ensures w.TooOld(capacity, Wrap(n)) <==> n <= newest - capacity
  {
    hide Wrap, Ahead, Greater, Unwrap;
    UnwrapIsUnique(newest, n);
    UnwrapDistance(newest, Wrap(n));
    var next, added := w.Insert(capacity, Wrap(n), record), inserted[n := record];
    var latest := if n > newest then n else newest;
    forall k | k in next.live
      ensures exists m :: Stands(added, m, k) && latest - capacity < m && next.live[k] == added[m]
    {
      LiveStands(w, capacity, inserted, newest, n, record, k);
    }
    forall m | m in added && latest - capacity < m ensures Wrap(m) in next.live {
      StandsLive(w, capacity, inserted, newest, n, record, m);
    }
  }

  lemma StandsLive<T>(w: Window<T>, capacity: nat, inserted: map<int, T>, newest: int, n: int, record: T, m: int)
    requires 0 < capacity <= 32768 && Tracks(w, capacity, inserted, newest)
    requires n == Unwrap(newest, Wrap(n)) && (n <= newest ==> Ahead(Wrap(newest), Wrap(n)) == newest - n)
    requires Greater(Wrap(newest), Wrap(n)) <==> n < newest
    requires m in inserted[n := record] && (if n > newest then n else newest) - capacity < m
    ensures Wrap(m) in w.Insert(capacity, Wrap(n), record).live
  {
    hide Wrap, Ahead, Greater, Unwrap;
    if m != n && n > newest { AheadIsDifference(n, m); }
  }

  lemma LiveStands<T>(w: Window<T>, capacity: nat, inserted: map<int, T>, newest: int, n: int, record: T, k: u16)
    requires 0 < capacity <= 32768
    requires Tracks(w, capacity, inserted, newest) && k in w.Insert(capacity, Wrap(n), record).live
    requires n == Unwrap(newest, Wrap(n)) && (n <= newest ==> Ahead(Wrap(newest), Wrap(n)) == newest - n)
    requires Greater(Wrap(newest), Wrap(n)) <==> n < newest
    ensures var next, added := w.Insert(capacity, Wrap(n), record), inserted[n := record];
            var latest := if n > newest then n else newest;
            exists m :: Stands(added, m, k) && latest - capacity < m && next.live[k] == added[m]
  {
    hide Wrap, Ahead, Greater, Unwrap;
    var added := inserted[n := record];
    if k == Wrap(n) && !w.TooOld(capacity, k) {
      assert Stands(added, n, k);
    } else {
      var m :| Stands(inserted, m, k) && newest - capacity < m && w.live[k] == inserted[m];
      if n > newest { AheadIsDifference(n, m); }
      assert Stands(added, m, k);
    }
  }

  /** Looking up a number less than a ring minus the capacity behind the newest
      finds its record exactly when it was inserted and is still in the window:
      no aliasing. */
  lemma TracksFinds<T>(w: Window<T>, capacity: nat, inserted: map<int, T>, newest: int, n: int)
    requires capacity <= 32768
    requires Tracks(w, capacity, inserted, newest)
    requires capacity - 0x1_0000 < n - newest <= 32768
    ensures w.Find(Wrap(n)) == if n in inserted && newest - capacity < n then Some(inserted[n]) else None
  {
    if Wrap(n) in w.live {
      var m :| Stands(inserted, m, Wrap(n)) && newest - capacity < m && w.live[Wrap(n)] == inserted[m];
      WrapInjective(m, n);
    }
  }

  // ---------------------------------------------------------------------------
  // Whole insert histories

  /** The number a 16-bit sequence stands for, given the newest number so far:
      the choice that `Greater` makes. */
  function Unwrap(newest: int, sequence: u16): (n: int)
    ensures Wrap(n) == sequence
    ensures -32768 <= n - newest <= 32768
    ensures n > newest <==> Greater(sequence, Wrap(newest))
  {
    var d := Ahead(sequence, Wrap(newest));
    BothWays(newest, sequence);
    if d == 0 then newest else if Greater(sequence, Wrap(newest)) then newest + d else newest + d - 0x1_0000
  }

  /** Going on by the distance to a sequence, or back by the rest of the ring, ends there. */
  lemma BothWays(newest: int, sequence: u16)
    ensures var d := Ahead(sequence, Wrap(newest));
            && Wrap(newest + d) == sequence && Wrap(newest + d - 0x1_0000) == sequence
            && (d == 0 ==> !Greater(sequence, Wrap(newest)))
            && (Greater(sequence, Wrap(newest)) ==> 0 < d <= 32768)
            && (d != 0 && !Greater(sequence, Wrap(newest)) ==> d >= 32768)
  {
    GreaterAhead(sequence, Wrap(newest));
    RangeEnd(Wrap(newest), sequence);
    hide Wrap, Ahead, Greater;
    var d: int := Ahead(sequence, Wrap(newest));
    WrapShift(newest, -d);
    WrapAround(newest + d);
  }

  lemma GreaterAhead(a: u16, b: u16)
    ensures Ahead(a, b) == 0 ==> !Greater(a, b)
    ensures Greater(a, b) ==> 0 < Ahead(a, b) <= 32768
    ensures Ahead(a, b) != 0 && !Greater(a, b) ==> Ahead(a, b) >= 32768
  {
    assert Ahead(a, b) == if a >= b then a - b else a - b + 0x1_0000;
  }

  lemma WrapAround(n: int)
    ensures Wrap(n - 0x1_0000) == Wrap(n)
  {
  }

  lemma UnwrapIsUnique(newest: int, n: int)
    requires -32768 < n - newest < 32768 || n == Unwrap(newest, Wrap(n))
    ensures n == Unwrap(newest, Wrap(n))
  {
    if -32768 < n - newest < 32768 { WrapInjective(n, Unwrap(newest, Wrap(n))); }
  }

  lemma UnwrapDistance(newest: int, s: u16)
    ensures var n := Unwrap(newest, s);
            n <= newest ==> Ahead(Wrap(newest), s) == newest - n
    ensures Greater(Wrap(newest), s) <==> Unwrap(newest, s) < newest
  {
    var n := Unwrap(newest, s);
    if n <= newest { AheadIsDifference(newest, n); }
    if s != Wrap(newest) { GreaterIsTotal(s, Wrap(newest)); }
  }

  /** The window after inserting a whole history of sequences, oldest first. */
  function After<T>(capacity: nat, history: seq<(u16, T)>): (w: Window<T>)
    requires 0 < capacity
    ensures w.Valid(capacity)
  {
    if history == [] then EmptyWindow()
    else
      var last := history[|history| - 1];
      After(capacity, history[..|history| - 1]).Insert(capacity, last.0, last.1)
  }

  /** The unbounded numbers a history stands for, with the record last inserted
      for each, and the newest of them. */
  ghost function Unwrapped<T>(history: seq<(u16, T)>): (r: (map<int, T>, int))
    requires history != []
  {
    var last := history[|history| - 1];
    if |history| == 1 then (map[last.0 as int := last.1], last.0)
    else
      var (inserted, newest) := Unwrapped(history[..|history| - 1]);
      var n := Unwrap(newest, last.0);
      (inserted[n := last.1], if n > newest then n else newest)
  }

  /** Over every history of 16-bit inserts, wraps included, the window holds
      exactly what was inserted less than `capacity` behind the newest: nothing
      aliases, and nothing live is evicted by an older insert. */
  lemma {:induction false} WindowIsExact<T>(capacity: nat, history: seq<(u16, T)>)
    requires 0 < capacity <= 32768
    requires history != []
    ensures Tracks(After(capacity, history), capacity, Unwrapped(history).0, Unwrapped(history).1)
  {
    hide After, Unwrapped, Unwrap, Tracks, Window.Insert;
    var before, last := history[..|history| - 1], history[|history| - 1];
    OneMoreInsert(capacity, history);
    if |history| == 1 {
      FirstInsert(capacity, last);
    } else {
      WindowIsExact(capacity, before);
      var (inserted, newest) := Unwrapped(before);
      InsertTracks(After(capacity, before), capacity, inserted, newest, Unwrap(newest, last.0), last.1);
    }
  }

  lemma OneMoreInsert<T>(capacity: nat, history: seq<(u16, T)>)
    requires 0 < capacity && history != []
    ensures var before, last := history[..|history| - 1], history[|history| - 1];
            && After(capacity, history) == After(capacity, before).Insert(capacity, last.0, last.1)
            && (before == [] ==>
                  && After(capacity, before) == EmptyWindow()
                  && Unwrapped(history) == (map[last.0 as int := last.1], last.0 as int))
            && (before != [] ==>
                  var (inserted, newest) := Unwrapped(before);
                  var n := Unwrap(newest, last.0);
                  Wrap(n) == last.0 && Unwrapped(history) == (inserted[n := last.1], if n > newest then n else newest))
  {
    hide Unwrap, Window.Insert;
  }

  lemma FirstInsert<T>(capacity: nat, first: (u16, T))
    requires 0 < capacity <= 32768
    ensures Tracks(EmptyWindow().Insert(capacity, first.0, first.1), capacity, map[first.0 as int := first.1], first.0)
  {
    assert Stands(map[first.0 as int := first.1], first.0, first.0);
    hide Greater, Ahead;
  }

  // ---------------------------------------------------------------------------
  // The implementation

  const EMPTY: int := 0xffff_ffff

  function SlotOf(n: int, capacity: nat): (slot: int)
    requires 0 < capacity
    ensures 0 <= slot < capacity
  {
    n % capacity
  }

  lemma ModShift(x: int, c: int, k: int)
    requires 0 < c
    ensures (x + c * k) % c == x % c
  {
    var q, r := x / c, x % c;
    assert x + c * k == c * (q + k) + r by { assert c * (q + k) == c * q + c * k; }
    DivModUnique(c, q + k, r, x + c * k);
  }

  lemma DivModUnique(c: int, q: int, r: int, x: int)
    requires 0 < c && 0 <= r < c && x == c * q + r
    ensures x % c == r && x / c == q
  {
    var q', r' := x / c, x % c;
    assert c * (q - q') == r' - r;
    MulBound(c, q - q');
  }

  lemma MulBound(c: int, k: int)
    requires 0 < c
    ensures k >= 1 ==> c * k >= c
    ensures k >= 2 ==> c * k >= 2 * c
    ensures k <= -1 ==> c * k <= -c
  {
  }

  /** Residues modulo 2^16 determine residues modulo a divisor of 2^16. */
  lemma WrapMod(n: int, capacity: nat)
    requires 0 < capacity && 0x1_0000 % capacity == 0
    ensures SlotOf(Wrap(n), capacity) == SlotOf(n, capacity)
  {
    var m, q := 0x1_0000 / capacity, n / 0x1_0000;
    assert 0x1_0000 == capacity * m;
    assert n == Wrap(n) + capacity * (m * q) by { assert capacity * (m * q) == (capacity * m) * q; }
    ModShift(Wrap(n), capacity, m * q);
  }

  /** Two numbers share a slot exactly when they are a multiple of the capacity
      apart; within one capacity that means they are equal. */
  lemma SlotsApart(m: int, n: int, capacity: nat)
    requires 0 < capacity && 0 <= m - n <= capacity
    ensures SlotOf(m, capacity) == SlotOf(n, capacity) <==> m == n || m == n + capacity
  {
    if SlotOf(m, capacity) == SlotOf(n, capacity) { SameSlot(m, n, capacity); }
    if m == n + capacity { ModShift(n, capacity, 1); }
  }

  lemma SameSlot(m: int, n: int, capacity: nat)
    requires 0 < capacity && 0 <= m - n <= capacity && m % capacity == n % capacity
    ensures m == n || m == n + capacity
  {
    var k := m / capacity - n / capacity;
    assert m - n == capacity * k by {
      assert capacity * k == capacity * (m / capacity) - capacity * (n / capacity);
    }
    MulBound(capacity, k);
  }

  /** Two sequences of one window that share a slot are the same sequence. */
  lemma NoAlias(latest: u16, k: u16, s: u16, capacity: nat)
    requires 0 < capacity <= 32768 && 0x1_0000 % capacity == 0
    requires Ahead(latest, k) < capacity && Ahead(latest, s) < capacity
    requires SlotOf(k, capacity) == SlotOf(s, capacity)
    ensures k == s
  {
    hide SlotOf, Wrap, Ahead;
    var a, b := latest - Ahead(latest, k), latest - Ahead(latest, s);
    AheadBack(latest, k);
    AheadBack(latest, s);
    WrapMod(a, capacity);
    WrapMod(b, capacity);
    if a >= b { SlotsApart(a, b, capacity); } else { SlotsApart(b, a, capacity); }
  }

  lemma InWindow(latest: u16, s: u16)
    requires !Greater(s, latest)
    ensures Greater(latest, s) || Ahead(latest, s) == 0
  {
    if s != latest { GreaterIsTotal(s, latest); }
  }

  /** A sequence that is stored without advancing is not newer than the latest. */
  lemma AfterAdvance(latest: u16, s: u16)
    ensures !Greater(s, s) && (Greater(s, latest) ==> !Greater(latest, s))
  {
  }

  lemma AheadBack(a: u16, b: u16)
    ensures Wrap(a - Ahead(a, b)) == b
  {
    assert Ahead(a, b) == if a >= b then a - b else a - b + 0x1_0000;
    WrapShift(b, 0);
  }

  /** Slot of the sequence `d` behind or ahead of another. */
  lemma SlotOfAhead(a: u16, b: u16, capacity: nat)
    requires 0 < capacity && 0x1_0000 % capacity == 0
    ensures SlotOf(b, capacity) == SlotOf(a - Ahead(a, b), capacity)
  {
    hide SlotOf, Wrap, Ahead;
    AheadBack(a, b);
    WrapMod(a - Ahead(a, b), capacity);
  }

  function SlotAt(begin: u16, u: int, capacity: nat): (slot: int)
    requires 0 < capacity
    ensures 0 <= slot < capacity
  {
    SlotOf(Wrap(begin + u), capacity)
  }

  /** Slots on the way from `begin` to `end`. */
  ghost predicate Cleared(begin: u16, end: u16, capacity: nat, slot: int)
    requires 0 < capacity
  {
    Ahead(end, begin) >= capacity || exists u :: 0 <= u <= Ahead(end, begin) && SlotAt(begin, u, capacity) == slot
  }

  /** Slots of the first `t` steps from `begin`. */
  ghost predicate Passed(begin: u16, t: int, capacity: nat, slot: int)
    requires 0 < capacity
  {
    exists u :: 0 <= u < t && SlotAt(begin, u, capacity) == slot
  }

  lemma PassOne(begin: u16, t: int, capacity: nat, slot: int)
    requires 0 < capacity && 0 <= t
    ensures !Passed(begin, 0, capacity, slot)
    ensures Passed(begin, t + 1, capacity, slot)
       <==> Passed(begin, t, capacity, slot) || SlotAt(begin, t, capacity) == slot
  {
    if SlotAt(begin, t, capacity) == slot { assert 0 <= t < t + 1; }
    if Passed(begin, t + 1, capacity, slot) {
      var u :| 0 <= u < t + 1 && SlotAt(begin, u, capacity) == slot;
    }
  }

  lemma PassedAll(begin: u16, end: u16, capacity: nat, slot: int)
    requires 0 < capacity && Ahead(end, begin) < capacity
    ensures Cleared(begin, end, capacity, slot) <==> Passed(begin, Ahead(end, begin) + 1, capacity, slot)
  {
  }

  lemma RangeEnd(begin: u16, end: u16)
    ensures Wrap(begin + Ahead(end, begin)) == end
  {
    assert Ahead(end, begin) == if end >= begin then end - begin else end - begin + 0x1_0000;
    WrapShift(end, 0);
  }

  lemma AllCleared(begin: u16, end: u16, capacity: nat, slot: int)
    requires 0 < capacity <= Ahead(end, begin)
    ensures Cleared(begin, end, capacity, slot)
  {
  }

  lemma SlotReached(begin: u16, t: int, capacity: nat, s: u16)
    requires 0 < capacity && s == Wrap(begin + t)
    ensures SlotAt(begin, t, capacity) == SlotOf(s, capacity)
  {
  }

  lemma RangeStart(begin: u16)
    ensures Wrap(begin + 0) == begin
  {
  }

  lemma RangeStep(begin: u16, end: u16, t: int)
    requires 0 <= t <= Ahead(end, begin)
    ensures Wrap(begin + t) == end <==> t == Ahead(end, begin)
    ensures Wrap(begin + (t + 1)) == Wrap(Wrap(begin + t) + 1)
  {
    hide Ahead, Wrap;
    RangeEnd(begin, end);
    RangeStart(begin);
    AheadIsDifference(begin + t, begin + 0);
    WrapSuccessor(begin + t);
  }

  /** Advancing from `latest` to `s` clears the slot of a live `k` exactly when
      `k` falls out of the window. */
  lemma ClearedIsAged(latest: u16, s: u16, k: u16, capacity: nat)
    requires 0 < capacity <= 32768 && 0x1_0000 % capacity == 0
    requires Greater(s, latest) && Ahead(latest, k) < capacity
    ensures Cleared(Wrap(latest + 1), s, capacity, SlotOf(k, capacity)) <==> Ahead(s, k) >= capacity
  {
    hide Wrap, Ahead, Greater, SlotOf, SlotAt;
    var begin, d, j := Wrap(latest + 1), Ahead(latest, k), Ahead(s, latest);
    Distances(latest, s, k);
    SlotOfAhead(latest, k, capacity);
    if j - 1 < capacity {
      if d + j >= capacity {
        SlotsApart(latest + 1 + (capacity - 1 - d), latest - d, capacity);
        SlotAfter(latest, capacity - 1 - d, capacity);
        assert SlotAt(begin, capacity - 1 - d, capacity) == SlotOf(k, capacity);
      } else {
        forall u | 0 <= u <= j - 1 ensures SlotAt(begin, u, capacity) != SlotOf(k, capacity) {
          SlotsApart(latest + 1 + u, latest - d, capacity);
          SlotAfter(latest, u, capacity);
        }
      }
    }
  }

  /** How far the new latest is ahead of a live entry, and of the first cleared slot. */
  lemma Distances(latest: u16, s: u16, k: u16)
    requires Greater(s, latest) && Ahead(latest, k) < 32768
    ensures 0 < Ahead(s, latest) <= 32768
    ensures Ahead(s, k) == Ahead(latest, k) + Ahead(s, latest)
    ensures Ahead(s, Wrap(latest + 1)) == Ahead(s, latest) - 1
  {
    var d, j := Ahead(latest, k), Ahead(s, latest);
    GreaterIsTotal(s, latest);
    RangeEnd(latest, s);
    AheadBack(latest, k);
    AheadIsDifference(latest + j, latest - d);
    AheadIsDifference(latest + j, latest + 1);
  }

  lemma SlotAfter(latest: u16, u: int, capacity: nat)
    requires 0 < capacity && 0x1_0000 % capacity == 0
    ensures SlotAt(Wrap(latest + 1), u, capacity) == SlotOf(latest + 1 + u, capacity)
  {
    hide Wrap, SlotOf;
    WrapShift(latest + 1, -u);
    WrapMod(latest + 1 + u, capacity);
  }

  class SequenceBuffer<T(0)> {
    const capacity: nat
    const keys: array<int>
    const values: array<T>
    var latest: u16
    var hasLatest: bool

    /** Every occupied slot holds a sequence of the window, in its own slot. */
    ghost predicate Valid()
      reads this, keys, values
    {
      && 0 < capacity <= 32768 && 0x1_0000 % capacity == 0
      && keys.Length == capacity && values.Length == capacity && keys as object != values as object
      && forall i | 0 <= i < capacity :: keys[i] != EMPTY ==>
           0 <= keys[i] < 0x1_0000 && SlotOf(keys[i], capacity) == i && hasLatest && Ahead(latest, keys[i]) < capacity
    }

    ghost function View(): (w: Window<T>)
      requires Valid()
      reads this, keys, values
    {
      Window(hasLatest, latest, map k: u16 | 0 <= k < 0x1_0000 && keys[SlotOf(k, capacity)] == k ::
        values[SlotOf(k, capacity)])
    }

    constructor (size: nat, blank: T)
      requires 0 < size <= 32768 && 0x1_0000 % size == 0
      ensures Valid() && fresh(keys) && fresh(values)
      ensures capacity == size
      ensures View() == EmptyWindow()
    {
      capacity := size;
      keys := new int[size](_ => EMPTY);
      values := new T[size](_ => blank);
      latest, hasLatest := 0, false;
      new;
      assert View().live == map[];
    }

    /** Clears the slots of `begin..end`, both included, wrapping at 2^16. */
    method RemoveRange(begin: u16, end: u16)
      requires 0 < capacity <= 32768 && keys.Length == capacity
      modifies keys
      ensures forall i | 0 <= i < capacity ::
        keys[i] == if Cleared(begin, end, capacity, i) then EMPTY else old(keys[i])
    {
      hide Cleared, Passed, Wrap, Ahead, SlotOf;
      if Ahead(end, begin) >= capacity {
        forall i | 0 <= i < capacity { keys[i] := EMPTY; }
        forall i ensures Cleared(begin, end, capacity, i) { AllCleared(begin, end, capacity, i); }
        return;
      }
      ClearSlots(begin, end);
      forall i ensures Cleared(begin, end, capacity, i) <==> Passed(begin, Ahead(end, begin) + 1, capacity, i) {
        PassedAll(begin, end, capacity, i);
      }
    }

    method ClearSlots(begin: u16, end: u16)
      requires 0 < capacity && keys.Length == capacity
      modifies keys
      ensures forall i | 0 <= i < capacity ::
        keys[i] == if Passed(begin, Ahead(end, begin) + 1, capacity, i) then EMPTY else old(keys[i])
    {
      hide Passed, Wrap, Ahead, SlotAt, SlotOf;
      var s := begin;
      ghost var t: int := 0;
      RangeStart(begin);
      forall i ensures !Passed(begin, 0, capacity, i) { PassOne(begin, 0, capacity, i); }
      while true
        invariant 0 <= t <= Ahead(end, begin) && s == Wrap(begin + t)
        invariant forall i | 0 <= i < capacity ::
                    keys[i] == if Passed(begin, t, capacity, i) then EMPTY else old(keys[i])
        decreases Ahead(end, begin) - t
      {
        var slot := SlotOf(s, capacity);
        keys[slot] := EMPTY;
        forall i ensures Passed(begin, t + 1, capacity, i) <==> Passed(begin, t, capacity, i) || slot == i {
          PassOne(begin, t, capacity, i);
          SlotReached(begin, t, capacity, s);
        }
        RangeStep(begin, end, t);
        if s == end { break; }
        s, t := Wrap(s as int + 1), t + 1;
      }
    }

    /** Makes `sequence` the latest, dropping what falls out of the window. */
    method Advance(sequence: u16)
      requires Valid() && View().Advances(sequence)
      modifies this, keys
      ensures Valid()
      ensures View() == Window(true, sequence,
                               map k | k in old(View()).live && Ahead(sequence, k) < capacity :: old(View()).live[k])
    {
      hide SlotOf, Ahead, Greater, Wrap, Cleared;
      RemoveRange(if hasLatest then Wrap(latest + 1) else sequence, sequence);
      forall i | 0 <= i < capacity && old(keys[i]) != EMPTY
        ensures keys[i] == if Ahead(sequence, old(keys[i])) >= capacity then EMPTY else old(keys[i])
      {
        ClearedIsAged(latest, sequence, old(keys[i]), capacity);
      }
      latest, hasLatest := sequence, true;
    }

    /** Inserts or overwrites; returns false when the sequence is too old. */
    method Insert(sequence: u16, record: T) returns (accepted: bool)
      requires Valid()
      modifies this, keys, values
      ensures Valid()
      ensures accepted <==> !old(View()).TooOld(capacity, sequence)
      ensures View() == old(View()).Insert(capacity, sequence, record)
    {
      hide SlotOf, Ahead, Greater;
      if hasLatest && Greater(latest, sequence) && Ahead(latest, sequence) >= capacity {
        return false;
      }
      AfterAdvance(latest, sequence);
      if !hasLatest || Greater(sequence, latest) {
        Advance(sequence);
      }
      Store(sequence, record);
      return true;
    }

    /** Writes the slot of a sequence of the window. */
    method Store(sequence: u16, record: T)
      requires Valid() && hasLatest && !Greater(sequence, latest)
      requires Greater(latest, sequence) ==> Ahead(latest, sequence) < capacity
      modifies keys, values
      ensures Valid()
      ensures View() == old(View()).(live := old(View()).live[sequence := record])
    {
      hide SlotOf, Ahead, Greater;
      InWindow(latest, sequence);
      var index := SlotOf(sequence, capacity);
      keys[index] := sequence;
      values[index] := record;
      forall k: u16 | old(keys[SlotOf(k, capacity)]) == k && SlotOf(k, capacity) == index ensures k == sequence {
        NoAlias(latest, k, sequence, capacity);
      }
    }

    /** Overwrites the record of a sequence that is there. */
    method Replace(sequence: u16, record: T)
      requires Valid() && sequence in View().live
      modifies values
      ensures Valid()
      ensures View() == old(View()).(live := old(View()).live[sequence := record])
    {
      hide SlotOf, Ahead;
      values[SlotOf(sequence, capacity)] := record;
    }

    method Find(sequence: u16) returns (r: Option<T>)
      requires Valid()
      ensures r == View().Find(sequence)
    {
      var index := SlotOf(sequence, capacity);
      if keys[index] == sequence { r := Some(values[index]); } else { r := None; }
    }

    method Exists(sequence: u16) returns (r: bool)
      requires Valid()
      ensures r <==> sequence in View().live
    {
      r := keys[SlotOf(sequence, capacity)] == sequence;
    }
  }
}
