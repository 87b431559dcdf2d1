/**
 The uniform grid: which cell a position falls in, and the counting sort that
 groups entity indices by cell code.
 */
module Grid {
  import opened Bits
  import opened Morton

  datatype Vec2 = Vec2(x: real, y: real)

  // ---------------------------------------------------------------------------
  // Cells

  /** Conversion to an integer, toward zero. */
  function Truncate(v: real): int {
    if v >= 0.0 then v.Floor else -(-v).Floor
  }

  function Times(a: real, b: real): real { a * b }

  /** The shape of a grid: `n` cells on each axis, each `size` wide. */
  datatype Layout = Layout(n: nat, size: real) {
    ghost predicate Valid() {
      0 < n <= 1024 && size > 0.0 && exists k: nat :: n == Pow2(k)
    }

    /** Positions outside the world count as in the outermost cells. */
    function Cell(v: real): (cell: nat)
      requires n > 0 && size > 0.0
      ensures cell < n
    {
      var cell := Truncate(Times(v, 1.0 / size));
      if cell < 0 then 0 else if cell >= n then n - 1 else cell
    }

    function Code(p: Vec2): nat
      requires n > 0 && size > 0.0
    {
      Interleave(Cell(p.x), Cell(p.y))
    }

    function Codes(positions: seq<Vec2>): (codes: seq<nat>)
      requires n > 0 && size > 0.0
      ensures |codes| == |positions| && forall i | 0 <= i < |codes| :: codes[i] == Code(positions[i])
    {
      seq(|positions|, i requires 0 <= i < |positions| => Code(positions[i]))
    }
  }

  lemma CellMonotone(g: Layout, a: real, b: real)
    requires g.n > 0 && g.size > 0.0 && a <= b
    ensures g.Cell(a) <= g.Cell(b)
  {
    hide Times;
    Reciprocal(g.size);
    TimesMonotone(a, b, 1.0 / g.size);
    TruncateMonotone(Times(a, 1.0 / g.size), Times(b, 1.0 / g.size));
  }

  lemma TruncateMonotone(s: real, t: real)
    requires s <= t
    ensures Truncate(s) <= Truncate(t)
  {
  }

  /** Points at most one cell width apart are in the same or adjacent cells. */
  lemma CellNear(g: Layout, a: real, b: real)
    requires g.n > 0 && g.size > 0.0 && a <= b <= a + g.size
    ensures g.Cell(a) <= g.Cell(b) <= g.Cell(a) + 1
  {
    hide Times;
    CellMonotone(g, a, b);
    Reciprocal(g.size);
    TimesNear(a, b, g.size, 1.0 / g.size);
    TruncateNear(Times(a, 1.0 / g.size), Times(b, 1.0 / g.size));
  }

  /** The cells from that of `lo` to that of `hi` are those of the points in between. */
  lemma CellsReached(g: Layout, lo: real, hi: real, x: nat)
    requires g.n > 0 && g.size > 0.0 && lo <= hi
    ensures g.Cell(lo) <= x <= g.Cell(hi) <==> exists v | lo <= v <= hi :: g.Cell(v) == x
  {
    hide Layout.Cell;
    forall v | lo <= v <= hi ensures g.Cell(lo) <= g.Cell(v) <= g.Cell(hi) {
      CellMonotone(g, lo, v);
      CellMonotone(g, v, hi);
    }
    if g.Cell(lo) <= x <= g.Cell(hi) {
      if g.Cell(lo) < x < g.Cell(hi) {
        EdgeBetween(g, lo, hi, x);
        assert lo <= Times(x as real, g.size) <= hi;
      } else {
        assert lo <= (if x == g.Cell(lo) then lo else hi) <= hi;
      }
    }
  }

  lemma EdgeBetween(g: Layout, lo: real, hi: real, x: nat)
    requires g.n > 0 && g.size > 0.0 && g.Cell(lo) < x < g.Cell(hi)
    ensures var edge := Times(x as real, g.size); lo <= edge <= hi && g.Cell(edge) == x
  {
    hide Times;
    var scale, edge := 1.0 / g.size, Times(x as real, g.size);
    Reciprocal(g.size);
    TimesBack(x as real, g.size, scale);
    if edge < lo { TimesMonotone(edge, lo, scale); }
    if hi < edge { TimesMonotone(hi, edge, scale); }
    TruncateWhole(x);
    if Times(lo, scale) >= x as real { TruncateMonotone(x as real, Times(lo, scale)); }
    if Times(hi, scale) <= x as real { TruncateMonotone(Times(hi, scale), x as real); }
  }

  lemma TimesBack(a: real, size: real, scale: real)
    requires Times(size, scale) == 1.0
    ensures Times(Times(a, size), scale) == a
  {
    assert a * size * scale == a * (size * scale);
  }

  lemma TruncateWhole(x: nat)
    ensures Truncate(x as real) == x
  {
  }

  lemma Reciprocal(size: real)
    requires size > 0.0
    ensures Times(size, 1.0 / size) == 1.0 && 1.0 / size > 0.0
  {
  }

  lemma TimesMonotone(a: real, b: real, scale: real)
    requires scale > 0.0 && a <= b
    ensures Times(a, scale) <= Times(b, scale)
  {
  }

  lemma TimesNear(a: real, b: real, size: real, scale: real)
    requires scale > 0.0 && Times(size, scale) == 1.0 && a <= b <= a + size
    ensures Times(a, scale) <= Times(b, scale) <= Times(a, scale) + 1.0
  {
    hide Times;
    TimesMonotone(a, b, scale);
    TimesMonotone(b, a + size, scale);
    TimesAdds(a, size, scale);
  }

  lemma TimesAdds(a: real, b: real, c: real)
    ensures Times(a + b, c) == Times(a, c) + Times(b, c)
  {
  }

  lemma TruncateNear(s: real, t: real)
    requires s <= t <= s + 1.0
    ensures Truncate(t) <= 0 || Truncate(t) <= Truncate(s) + 1
    ensures Truncate(t) <= 1 || Truncate(s) >= 0
  {
  }

  lemma CodeFits(g: Layout, p: Vec2)
    requires g.Valid()
    ensures g.Code(p) < g.n * g.n
  {
    var k: nat :| g.n == Pow2(k);
    CodesBelow(g.Cell(p.x), g.Cell(p.y), k);
    Pow2Add(k, k);
  }

  // ---------------------------------------------------------------------------
  // Grouping indices by code

  ghost predicate Bounded(codes: seq<nat>, cells: nat) {
    forall i | 0 <= i < |codes| :: codes[i] < cells
  }

  /** The indices with code `c`, in increasing order. */
  function Bucket(codes: seq<nat>, c: nat): seq<nat> {
    if codes == [] then []
    else
      var last := |codes| - 1;
      Bucket(codes[..last], c) + if codes[last] == c then [last] else []
  }

  /** How many indices have a code below `c`. */
  function Below(codes: seq<nat>, c: nat): nat {
    if c == 0 then 0 else Below(codes, c - 1) + |Bucket(codes, c - 1)|
  }

  lemma BucketNext(codes: seq<nat>, i: nat, c: nat)
    requires i < |codes|
    ensures Bucket(codes[..i + 1], c) == Bucket(codes[..i], c) + if codes[i] == c then [i] else []
  {
    assert codes[..i + 1][..i] == codes[..i];
  }

  lemma {:induction false} BucketGrows(codes: seq<nat>, i: nat, c: nat)
    requires i <= |codes|
    ensures Bucket(codes[..i], c) <= Bucket(codes, c)
    decreases |codes| - i
  {
    if i < |codes| {
      BucketNext(codes, i, c);
      BucketGrows(codes, i + 1, c);
    } else {
      assert codes[..i] == codes;
    }
  }

  ghost predicate Increasing(s: seq<nat>) {
    forall p, q | 0 <= p < q < |s| :: s[p] < s[q]
  }

  /** A bucket holds each index of its code once, in order, and no other. */
  lemma {:induction false} BucketExact(codes: seq<nat>, c: nat)
    ensures Increasing(Bucket(codes, c))
    ensures forall i: nat :: i in Bucket(codes, c) <==> i < |codes| && codes[i] == c
  {
    forall i: nat ensures i in Bucket(codes, c) <==> i < |codes| && codes[i] == c { BucketHas(codes, c, i); }
    if codes != [] {
      var last := |codes| - 1;
      var before := Bucket(codes[..last], c);
      BucketExact(codes[..last], c);
      forall p | 0 <= p < |before| ensures before[p] < last { assert before[p] in before; }
    }
  }

  lemma {:induction false} BucketHas(codes: seq<nat>, c: nat, i: nat)
    ensures i in Bucket(codes, c) <==> i < |codes| && codes[i] == c
  {
    if codes != [] { BucketHas(codes[..|codes| - 1], c, i); }
  }

  lemma {:induction false} BelowMonotone(codes: seq<nat>, a: nat, b: nat)
    requires a < b
    ensures Below(codes, a) + |Bucket(codes, a)| <= Below(codes, b)
  {
    hide Bucket;
    if a < b - 1 { BelowMonotone(codes, a, b - 1); }
  }

  lemma {:induction false} BelowNext(codes: seq<nat>, i: nat, c: nat)
    requires i < |codes|
    ensures Below(codes[..i + 1], c) == Below(codes[..i], c) + if codes[i] < c then 1 else 0
  {
    hide Bucket;
    if c > 0 {
      BelowNext(codes, i, c - 1);
      BucketNext(codes, i, c - 1);
    }
  }

  lemma {:induction false} BelowEmpty(c: nat)
    ensures Below([], c) == 0
  {
    if c > 0 { BelowEmpty(c - 1); }
  }

  /** All indices have a code below a bound on the codes. */
  lemma {:induction false} BelowAll(codes: seq<nat>, cells: nat, i: nat)
    requires i <= |codes| && Bounded(codes, cells)
    ensures Below(codes[..i], cells) == i
  {
    if i == 0 {
      BelowEmpty(cells);
      assert codes[..0] == [];
    } else {
      BelowAll(codes, cells, i - 1);
      BelowNext(codes, i - 1, cells);
    }
  }

  /** Where a bucket lies among all of them. */
  lemma BucketPlace(codes: seq<nat>, cells: nat, c: nat)
    requires c < cells && Bounded(codes, cells)
    ensures Below(codes, c) + |Bucket(codes, c)| == Below(codes, c + 1) <= |codes|
  {
    hide Bucket;
    BelowAll(codes, cells, |codes|);
    assert codes[..|codes|] == codes;
    if c + 1 < cells { BelowMonotone(codes, c + 1, cells); }
  }

  /** The grouped form: `sorted` lists the buckets one after the other, and
      `start[c]` is where the bucket of code `c` begins. */
  ghost predicate Grouped(start: seq<nat>, sorted: seq<nat>, codes: seq<nat>, cells: nat) {
    && |start| == cells + 1 && |sorted| == |codes|
    && (forall c | 0 <= c <= cells :: start[c] == Below(codes, c))
    && forall c | 0 <= c < cells :: IsBucket(start, sorted, codes, c)
  }

  ghost predicate IsBucket(start: seq<nat>, sorted: seq<nat>, codes: seq<nat>, c: nat)
    requires c + 1 < |start|
  {
    start[c] <= start[c + 1] <= |sorted| && sorted[start[c]..start[c + 1]] == Bucket(codes, c)
  }

  // ---------------------------------------------------------------------------
  // The counting sort

  /** Code of a cell, as the bit tricks compute it. */
  function CellCode(x: nat, y: nat): (code: nat)
    requires x < 0x1_0000 && y < 0x1_0000
    ensures code == Interleave(x, y)
  {
    EncodeIsInterleave(x, y);
    Value(Encode(Word(x), Word(y)), 32)
  }

  /** Slot `c + 1` counts the indices with code `c`. */
  ghost predicate Tallied(start: seq<nat>, codes: seq<nat>, cells: nat) {
    |start| == cells + 1 && forall c | 0 < c <= cells :: start[c] == |Bucket(codes, c - 1)|
  }

  lemma TallyOne(start: seq<nat>, codes: seq<nat>, i: nat, cells: nat)
    requires i < |codes| && codes[i] < cells && Tallied(start, codes[..i], cells)
    ensures Tallied(start[codes[i] + 1 := start[codes[i] + 1] + 1], codes[..i + 1], cells)
  {
    hide Bucket;
    forall c: nat ensures |Bucket(codes[..i + 1], c)| == |Bucket(codes[..i], c)| + if c == codes[i] then 1 else 0 {
      BucketNext(codes, i, c);
    }
  }

  /** First pass: codes, and how often each occurs, one slot ahead. */
  method CountCells(g: Layout, positions: seq<Vec2>, codes: array<nat>, start: array<nat>)
    requires g.Valid() && codes.Length == |positions| && start.Length == g.n * g.n + 1 && codes != start
    requires forall c | 0 <= c < start.Length :: start[c] == 0
    modifies codes, start
    ensures codes[..] == g.Codes(positions) && start[0] == 0
    ensures Tallied(start[..], g.Codes(positions), g.n * g.n)
  {
    hide Bucket, Layout.Cell, Layout.Code, Interleave;
    ghost var all, cells := g.Codes(positions), g.n * g.n;
    NoBuckets(all);
    for i := 0 to |positions|
      invariant forall j | 0 <= j < i :: codes[j] == all[j]
      invariant start[0] == 0 && Tallied(start[..], all[..i], cells)
    {
      var code := CodeAt(g, positions[i]);
      CodeFits(g, positions[i]);
      TallyOne(start[..], all, i, cells);
      codes[i] := code;
      start[code + 1] := start[code + 1] + 1;
    }
    assert all[..|positions|] == all;
  }

  lemma NoBuckets(codes: seq<nat>)
    ensures forall c: nat :: |Bucket(codes[..0], c)| == 0
  {
  }

  method CodeAt(g: Layout, p: Vec2) returns (code: nat)
    requires g.Valid()
    ensures code == g.Code(p)
  {
    code := CellCode(g.Cell(p.x), g.Cell(p.y));
  }

  /** Second pass: running sums turn the counts into starts. */
  method SumCounts(start: array<nat>, ghost codes: seq<nat>)
    requires start.Length > 0 && start[0] == 0 && Tallied(start[..], codes, start.Length - 1)
    modifies start
    ensures forall c | 0 <= c < start.Length :: start[c] == Below(codes, c)
  {
    hide Bucket, Below;
    BelowNone(codes);
    for k := 0 to start.Length - 1
      invariant forall c | 0 <= c <= k :: start[c] == Below(codes, c)
      invariant forall c | k < c < start.Length :: start[c] == |Bucket(codes, c - 1)|
    {
      BelowSum(codes, k);
      start[k + 1] := start[k + 1] + start[k];
    }
  }

  lemma BelowNone(codes: seq<nat>)
    ensures Below(codes, 0) == 0
  {
  }

  lemma BelowSum(codes: seq<nat>, k: nat)
    ensures Below(codes, k + 1) == Below(codes, k) + |Bucket(codes, k)|
  {
    hide Bucket;
  }

  /** The first `i` indices are in their places in bucket `c`. */
  ghost predicate Placed(sorted: seq<nat>, codes: seq<nat>, i: nat, c: nat)
    requires i <= |codes|
  {
    var from, bucket := Below(codes, c), Bucket(codes[..i], c);
    from + |bucket| <= |sorted| && sorted[from..from + |bucket|] == bucket
  }

  /** Placing index `i` disturbs no other bucket. */
  lemma PlaceOne(sorted: seq<nat>, codes: seq<nat>, i: nat, cells: nat, c: nat)
    requires i < |codes| == |sorted| && c < cells && Bounded(codes, cells)
    requires Placed(sorted, codes, i, c)
    ensures var at := Below(codes, codes[i]) + |Bucket(codes[..i], codes[i])|;
            at < |sorted| && Placed(sorted[at := i], codes, i + 1, c)
  {
    hide Bucket, Below;
    var code := codes[i];
    BucketNext(codes, i, code);
    BucketNext(codes, i, c);
    BucketGrows(codes, i + 1, code);
    BucketGrows(codes, i + 1, c);
    BucketPlace(codes, cells, code);
    BucketPlace(codes, cells, c);
    if c < code { BelowMonotone(codes, c, code); }
    if code < c { BelowMonotone(codes, code, c); }
  }

  /** The first `i` indices are in place, and each cursor is past those of its bucket. */
  ghost predicate Scattered(cursor: seq<nat>, sorted: seq<nat>, codes: seq<nat>, i: nat, cells: nat)
    requires i <= |codes|
  {
    && |cursor| == cells && |sorted| == |codes| && Bounded(codes, cells)
    && (forall c | 0 <= c < cells :: cursor[c] == Below(codes, c) + |Bucket(codes[..i], c)|)
    && forall c | 0 <= c < cells :: Placed(sorted, codes, i, c)
  }

  lemma ScatterNone(cursor: seq<nat>, sorted: seq<nat>, codes: seq<nat>, cells: nat)
    requires |cursor| == cells && |sorted| == |codes| && Bounded(codes, cells)
    requires forall c | 0 <= c < cells :: cursor[c] == Below(codes, c)
    ensures Scattered(cursor, sorted, codes, 0, cells)
  {
    NoBuckets(codes);
    forall c | 0 <= c < cells ensures Placed(sorted, codes, 0, c) { BucketPlace(codes, cells, c); }
  }

  lemma ScatterOne(cursor: seq<nat>, sorted: seq<nat>, codes: seq<nat>, i: nat, cells: nat)
    requires i < |codes| && Scattered(cursor, sorted, codes, i, cells)
    ensures codes[i] < cells && cursor[codes[i]] < |sorted|
    ensures Scattered(cursor[codes[i] := cursor[codes[i]] + 1], sorted[cursor[codes[i]] := i], codes, i + 1, cells)
  {
    hide Bucket, Below, Placed;
    var code := codes[i];
    PlaceOne(sorted, codes, i, cells, code);
    var next, placed := i + 1, sorted[cursor[code] := i];
    forall c | 0 <= c < cells ensures Placed(placed, codes, next, c) {
      PlaceOne(sorted, codes, i, cells, c);
    }
    forall c: nat ensures |Bucket(codes[..i + 1], c)| == |Bucket(codes[..i], c)| + if c == code then 1 else 0 {
      BucketNext(codes, i, c);
    }
  }

  /** Third pass: each index goes to the next free slot of its bucket. */
  method Scatter(codes: array<nat>, cursor: array<nat>, sorted: array<nat>)
    requires codes != cursor && codes != sorted && cursor != sorted && sorted.Length == codes.Length
    requires forall i | 0 <= i < codes.Length :: codes[i] < cursor.Length
    requires forall c | 0 <= c < cursor.Length :: cursor[c] == Below(codes[..], c)
    modifies cursor, sorted
    ensures Scattered(cursor[..], sorted[..], codes[..], codes.Length, cursor.Length)
  {
    hide Bucket, Below, Scattered;
    ghost var all, cells := codes[..], cursor.Length;
    ScatterNone(cursor[..], sorted[..], all, cells);
    for i := 0 to codes.Length
      invariant codes[..] == all
      invariant Scattered(cursor[..], sorted[..], all, i, cells)
    {
      var code := codes[i];
      ghost var cursors, places := cursor[..], sorted[..];
      ScatterOne(cursors, places, all, i, cells);
      sorted[cursor[code]] := i;
      assert sorted[..] == places[cursors[code] := i];
      cursor[code] := cursor[code] + 1;
      assert cursor[..] == cursors[code := cursors[code] + 1];
    }
  }

  lemma PlacedIsGrouped(start: seq<nat>, sorted: seq<nat>, codes: seq<nat>, cells: nat)
    requires |start| == cells + 1 && |sorted| == |codes| && Bounded(codes, cells)
    requires forall c | 0 <= c <= cells :: start[c] == Below(codes, c)
    requires forall c | 0 <= c < cells :: Placed(sorted, codes, |codes|, c)
    ensures Grouped(start, sorted, codes, cells)
  {
    hide Bucket, Below;
    assert codes[..|codes|] == codes;
    forall c | 0 <= c < cells ensures IsBucket(start, sorted, codes, c) {
      BucketPlace(codes, cells, c);
      assert Placed(sorted, codes, |codes|, c);
    }
  }

  /** The sorted list is a permutation of all indices: each occurs exactly once. */
  lemma GroupedIsPermutation(start: seq<nat>, sorted: seq<nat>, codes: seq<nat>, cells: nat)
    requires Grouped(start, sorted, codes, cells) && Bounded(codes, cells)
    ensures forall i: nat :: multiset(sorted)[i] == if i < |codes| then 1 else 0
  {
    BelowAll(codes, cells, |codes|);
    assert codes[..|codes|] == codes && sorted[..|sorted|] == sorted;
    forall i: nat ensures multiset(sorted)[i] == if i < |codes| then 1 else 0 {
      OccursOnce(start, sorted, codes, cells, cells, i);
    }
  }

  lemma {:induction false} OccursOnce(start: seq<nat>, sorted: seq<nat>, codes: seq<nat>, cells: nat, c: nat, i: nat)
    requires Grouped(start, sorted, codes, cells) && Bounded(codes, cells) && c <= cells
    ensures start[c] <= |sorted|
    ensures multiset(sorted[..start[c]])[i] == if i < |codes| && codes[i] < c then 1 else 0
  {
    hide Bucket, Bounded;
    if c > 0 {
      OccursOnce(start, sorted, codes, cells, c - 1, i);
      assert IsBucket(start, sorted, codes, c - 1);
      var bucket := Bucket(codes, c - 1);
      assert sorted[..start[c]] == sorted[..start[c - 1]] + bucket;
      BucketOnce(codes, c - 1, i);
    }
  }

  lemma {:induction false} BucketOnce(codes: seq<nat>, c: nat, i: nat)
    ensures multiset(Bucket(codes, c))[i] == if i < |codes| && codes[i] == c then 1 else 0
  {
    if codes != [] { BucketOnce(codes[..|codes| - 1], c, i); }
  }
}
