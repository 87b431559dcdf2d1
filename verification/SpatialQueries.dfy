/**
 Queries over the grid.  A callback is modelled by the list of its calls, and the
 claims are about how often each call is made: `Lists` says that a list holds every
 element of a set exactly once and nothing else.
 */
module SpatialQueries {
  import opened Bits
  import opened Morton
  import opened Grid

  ghost predicate Lists<T(!new)>(calls: seq<T>, due: set<T>) {
    forall x :: multiset(calls)[x] == if x in due then 1 else 0
  }

  lemma ListsBoth<T(!new)>(a: seq<T>, s: set<T>, b: seq<T>, t: set<T>)
    requires Lists(a, s) && Lists(b, t) && s !! t
    ensures Lists(a + b, s + t)
  {
  }

  ghost function Members<T>(s: seq<T>): set<T> {
    set x | x in s
  }

  lemma {:induction false} IncreasingLists(s: seq<nat>)
    requires Increasing(s)
    ensures Lists(s, Members(s))
  {
    if s != [] {
      hide Lists;
      var front, last := s[..|s| - 1], s[|s| - 1];
      IncreasingLists(front);
      assert last !in front;
      ListsOne(last);
      ListsBoth(front, Members(front), [last], {last});
      assert front + [last] == s;
      assert Members(front) + {last} == Members(s);
    }
  }

  lemma ListsOne<T(!new)>(x: T)
    ensures Lists([x], {x})
  {
  }

  /** The list of calls that pass a test. */
  function Passing<T>(calls: seq<T>, test: T -> bool): seq<T> {
    if calls == [] then []
    else
      var last := |calls| - 1;
      Passing(calls[..last], test) + if test(calls[last]) then [calls[last]] else []
  }

  lemma {:induction false} PassingCount<T>(calls: seq<T>, test: T -> bool, x: T)
    ensures multiset(Passing(calls, test))[x] == if test(x) then multiset(calls)[x] else 0
  {
    if calls != [] {
      var last := |calls| - 1;
      PassingCount(calls[..last], test, x);
      assert calls == calls[..last] + [calls[last]];
    }
  }

  lemma PassingLists<T(!new)>(calls: seq<T>, due: set<T>, test: T -> bool, kept: set<T>)
    requires Lists(calls, due) && forall x :: x in kept <==> x in due && test(x)
    ensures Lists(Passing(calls, test), kept)
  {
    forall x ensures multiset(Passing(calls, test))[x] == if x in kept then 1 else 0 {
      PassingCount(calls, test, x);
    }
  }

  // ---------------------------------------------------------------------------
  // Distances and cells

  function DistanceSq(a: Vec2, b: Vec2): real {
    (a.x - b.x) * (a.x - b.x) + (a.y - b.y) * (a.y - b.y)
  }

  predicate Close(positions: seq<Vec2>, i: nat, j: nat, radius: real) {
    i < |positions| && j < |positions| && DistanceSq(positions[i], positions[j]) <= radius * radius
  }

  lemma SquareBound(d: real, e: real, radius: real)
    requires d * d + e * e <= radius * radius && radius >= 0.0
    ensures -radius <= d <= radius
  {
    SquareNonNegative(e);
    if d > radius { SquareGrows(radius, d); }
    if -d > radius { SquareGrows(radius, -d); }
  }

  lemma SquareNonNegative(e: real)
    ensures e * e >= 0.0
  {
  }

  lemma SquareGrows(a: real, b: real)
    requires 0.0 <= a < b
    ensures a * a < b * b
  {
    Positive(b - a, b + a);
  }

  lemma Positive(a: real, b: real)
    requires a > 0.0 && b > 0.0
    ensures a * b > 0.0
  {
  }

  /** No coordinate differs by more than the distance. */
  lemma DistanceBound(a: Vec2, b: Vec2, radius: real)
    requires DistanceSq(a, b) <= radius * radius && radius >= 0.0
    ensures -radius <= a.x - b.x <= radius && -radius <= a.y - b.y <= radius
  {
    SquareBound(a.x - b.x, a.y - b.y, radius);
    SquareBound(a.y - b.y, a.x - b.x, radius);
  }

  /** A block of cells. */
  datatype Box = Box(minX: nat, maxX: nat, minY: nat, maxY: nat)

  function BoxAround(g: Layout, center: Vec2, radius: real): Box
    requires g.n > 0 && g.size > 0.0
  {
    Box(g.Cell(center.x - radius), g.Cell(center.x + radius), g.Cell(center.y - radius), g.Cell(center.y + radius))
  }

  predicate InBox(g: Layout, p: Vec2, box: Box)
    requires g.n > 0 && g.size > 0.0
  {
    box.minX <= g.Cell(p.x) <= box.maxX && box.minY <= g.Cell(p.y) <= box.maxY
  }

  ghost function Inside(g: Layout, positions: seq<Vec2>, box: Box): set<nat>
    requires g.n > 0 && g.size > 0.0
  {
    set i | 0 <= i < |positions| && InBox(g, positions[i], box)
  }

  ghost function InRange(positions: seq<Vec2>, center: Vec2, radius: real): set<nat> {
    set i | 0 <= i < |positions| && DistanceSq(center, positions[i]) <= radius * radius
  }

  /** Every position within the radius is in a visited cell, clamped or not. */
  lemma InRangeInside(g: Layout, positions: seq<Vec2>, center: Vec2, radius: real)
    requires g.n > 0 && g.size > 0.0 && radius >= 0.0
    ensures InRange(positions, center, radius) <= Inside(g, positions, BoxAround(g, center, radius))
  {
    hide Layout.Cell, DistanceSq;
    forall i | i in InRange(positions, center, radius) ensures i in Inside(g, positions, BoxAround(g, center, radius)) {
      var p := positions[i];
      DistanceBound(center, p, radius);
      CellMonotone(g, center.x - radius, p.x);
      CellMonotone(g, p.x, center.x + radius);
      CellMonotone(g, center.y - radius, p.y);
      CellMonotone(g, p.y, center.y + radius);
    }
  }

  /** A query visits a cell exactly if a point of the square around its circle is in it. */
  lemma BoxExactly(g: Layout, center: Vec2, radius: real, x: nat, y: nat)
    requires g.n > 0 && g.size > 0.0 && radius >= 0.0
    ensures var b := BoxAround(g, center, radius);
            (b.minX <= x <= b.maxX && b.minY <= y <= b.maxY
             <==> exists p: Vec2 :: InSquare(p, center, radius) && g.Cell(p.x) == x && g.Cell(p.y) == y)
  {
    hide Layout.Cell;
    CellsReached(g, center.x - radius, center.x + radius, x);
    CellsReached(g, center.y - radius, center.y + radius, y);
    var b := BoxAround(g, center, radius);
    if b.minX <= x <= b.maxX && b.minY <= y <= b.maxY {
      var u :| center.x - radius <= u <= center.x + radius && g.Cell(u) == x;
      var v :| center.y - radius <= v <= center.y + radius && g.Cell(v) == y;
      assert InSquare(Vec2(u, v), center, radius);
    }
  }

  predicate InSquare(p: Vec2, center: Vec2, radius: real) {
    center.x - radius <= p.x <= center.x + radius && center.y - radius <= p.y <= center.y + radius
  }

  function Within(positions: seq<Vec2>, center: Vec2, radius: real): nat -> bool {
    (i: nat) => i < |positions| && DistanceSq(center, positions[i]) <= radius * radius
  }

  /** A radius query followed by the distance check is brute force: each position
      within the radius is seen exactly once, and no other. */
  lemma QueryIsBruteForce(g: Layout, positions: seq<Vec2>, center: Vec2, radius: real, calls: seq<nat>)
    requires g.n > 0 && g.size > 0.0 && radius >= 0.0
    requires Lists(calls, Inside(g, positions, BoxAround(g, center, radius)))
    ensures Lists(Passing(calls, Within(positions, center, radius)), InRange(positions, center, radius))
  {
    hide BoxAround, InBox, DistanceSq, Lists;
    var test := Within(positions, center, radius);
    var due := Inside(g, positions, BoxAround(g, center, radius));
    InRangeInside(g, positions, center, radius);
    PassingLists(calls, due, test, InRange(positions, center, radius));
  }

  // ---------------------------------------------------------------------------
  // Pairs

  /** The half of the neighbourhood that a cell looks at. */
  predicate Forward(dx: int, dy: int) {
    (dx == 1 && dy == 0) || (dx == -1 && dy == 1) || (dx == 0 && dy == 1) || (dx == 1 && dy == 1)
  }

  /** The walk calls back for `i` and `j` in this order. */
  predicate Emits(g: Layout, positions: seq<Vec2>, radius: real, i: nat, j: nat)
    requires g.n > 0 && g.size > 0.0
  {
    && Close(positions, i, j, radius)
    && var dx, dy := g.Cell(positions[j].x) - g.Cell(positions[i].x), g.Cell(positions[j].y) - g.Cell(positions[i].y);
       if dx == 0 && dy == 0 then i < j else Forward(dx, dy)
  }

  ghost function Emitted(g: Layout, positions: seq<Vec2>, radius: real): set<(nat, nat)>
    requires g.n > 0 && g.size > 0.0
  {
    set i, j | 0 <= i < |positions| && 0 <= j < |positions| && Emits(g, positions, radius, i, j) :: (i, j)
  }

  lemma CloseSymmetric(positions: seq<Vec2>, i: nat, j: nat, radius: real)
    ensures Close(positions, i, j, radius) <==> Close(positions, j, i, radius)
  {
    if i < |positions| && j < |positions| {
      var a, b := positions[i], positions[j];
      assert DistanceSq(a, b) == DistanceSq(b, a);
    }
  }

  lemma CellsNear(g: Layout, a: real, b: real, radius: real)
    requires g.n > 0 && g.size > 0.0 && 0.0 <= radius <= g.size && -radius <= a - b <= radius
    ensures -1 <= g.Cell(a) - g.Cell(b) <= 1
  {
    if a <= b { CellNear(g, a, b); } else { CellNear(g, b, a); }
  }

  /** Of two close positions the walk takes exactly one order. */
  lemma OneOrder(g: Layout, positions: seq<Vec2>, radius: real, i: nat, j: nat)
    requires g.n > 0 && g.size > 0.0 && -g.size <= radius <= g.size && i != j
    ensures Close(positions, i, j, radius) <==> Emits(g, positions, radius, i, j) || Emits(g, positions, radius, j, i)
    ensures !(Emits(g, positions, radius, i, j) && Emits(g, positions, radius, j, i))
  {
    hide Layout.Cell, DistanceSq;
    CloseSymmetric(positions, i, j, radius);
    if Close(positions, i, j, radius) {
      var reach := if radius >= 0.0 then radius else -radius;
      assert reach * reach == radius * radius;
      DistanceBound(positions[i], positions[j], reach);
      CellsNear(g, positions[i].x, positions[j].x, reach);
      CellsNear(g, positions[i].y, positions[j].y, reach);
    }
  }

  /** The pair walk calls back once for each unordered pair within the radius and
      for no other pair. */
  lemma PairsOnce(g: Layout, positions: seq<Vec2>, radius: real, calls: seq<(nat, nat)>, i: nat, j: nat)
    requires g.n > 0 && g.size > 0.0 && -g.size <= radius <= g.size
    requires Lists(calls, Emitted(g, positions, radius))
    ensures multiset(calls)[(i, j)] + multiset(calls)[(j, i)]
         == if i != j && Close(positions, i, j, radius) then 1 else 0
  {
    hide Emits, Close;
    if i != j {
      OneOrder(g, positions, radius, i, j);
      EmitsInside(g, positions, radius, i, j);
      EmitsInside(g, positions, radius, j, i);
    } else {
      NotWithItself(g, positions, radius, i);
    }
  }

  lemma EmitsInside(g: Layout, positions: seq<Vec2>, radius: real, i: nat, j: nat)
    requires g.n > 0 && g.size > 0.0
    ensures (i, j) in Emitted(g, positions, radius) <==> Emits(g, positions, radius, i, j)
  {
  }

  lemma NotWithItself(g: Layout, positions: seq<Vec2>, radius: real, i: nat)
    requires g.n > 0 && g.size > 0.0
    ensures (i, i) !in Emitted(g, positions, radius)
  {
  }

  // ---------------------------------------------------------------------------
  // The loops

  ghost function Row(positions: seq<Vec2>, radius: real, i: nat, others: seq<nat>): set<(nat, nat)> {
    set j | j in others && Close(positions, i, j, radius) :: (i, j)
  }

  ghost function Across(positions: seq<Vec2>, radius: real, ones: seq<nat>, others: seq<nat>): set<(nat, nat)> {
    set i, j | i in ones && j in others && Close(positions, i, j, radius) :: (i, j)
  }

  ghost function Among(positions: seq<Vec2>, radius: real, ones: seq<nat>, all: seq<nat>): set<(nat, nat)> {
    set i, j | i in ones && j in all && i < j && Close(positions, i, j, radius) :: (i, j)
  }

  ghost predicate Indices(s: seq<nat>, count: nat) {
    Increasing(s) && forall i <- s :: i < count
  }

  /** One entity against a list of others. */
  method RowCalls(positions: seq<Vec2>, radius: real, i: nat, others: seq<nat>) returns (calls: seq<(nat, nat)>)
    requires i < |positions| && Indices(others, |positions|)
    ensures Lists(calls, Row(positions, radius, i, others))
  {
    hide Lists;
    calls := [];
    ListsNone<(nat, nat)>(Row(positions, radius, i, others[..0]));
    for k := 0 to |others|
      invariant Lists(calls, Row(positions, radius, i, others[..k]))
    {
      var j := others[k];
      assert j in others && j !in others[..k];
      ghost var due, next := Row(positions, radius, i, others[..k]), Row(positions, radius, i, others[..k + 1]);
      if DistanceSq(positions[i], positions[j]) <= radius * radius {
        ListsMore(calls, due, (i, j));
        assert next == due + {(i, j)};
        calls := calls + [(i, j)];
      } else {
        assert next == due;
      }
    }
    assert others[..|others|] == others;
  }

  lemma ListsMore<T(!new)>(calls: seq<T>, due: set<T>, x: T)
    requires Lists(calls, due) && x !in due
    ensures Lists(calls + [x], due + {x})
  {
  }

  lemma ListsNone<T(!new)>(s: set<T>)
    requires s == {}
    ensures Lists([], s)
  {
  }

  /** Each entity of one cell against each of another. */
  method CrossCalls(positions: seq<Vec2>, radius: real, ones: seq<nat>, others: seq<nat>)
    returns (calls: seq<(nat, nat)>)
    requires Indices(ones, |positions|) && Indices(others, |positions|)
    ensures Lists(calls, Across(positions, radius, ones, others))
  {
    hide Lists, Close;
    calls := [];
    ListsNone<(nat, nat)>(Across(positions, radius, ones[..0], others));
    for k := 0 to |ones|
      invariant Lists(calls, Across(positions, radius, ones[..k], others))
    {
      assert ones[k] in ones && ones[k] !in ones[..k];
      var row := RowCalls(positions, radius, ones[k], others);
      ListsBoth(calls, Across(positions, radius, ones[..k], others), row, Row(positions, radius, ones[k], others));
      assert Across(positions, radius, ones[..k + 1], others)
          == Across(positions, radius, ones[..k], others) + Row(positions, radius, ones[k], others);
      calls := calls + row;
    }
    assert ones[..|ones|] == ones;
  }

  /** Each entity of a cell against those after it. */
  method CellCalls(positions: seq<Vec2>, radius: real, ones: seq<nat>) returns (calls: seq<(nat, nat)>)
    requires Indices(ones, |positions|)
    ensures Lists(calls, Among(positions, radius, ones, ones))
  {
    hide Lists, Close;
    calls := [];
    ListsNone<(nat, nat)>(Among(positions, radius, ones[..0], ones));
    for k := 0 to |ones|
      invariant Lists(calls, Among(positions, radius, ones[..k], ones))
    {
      assert ones[k] in ones && ones[k] !in ones[..k];
      LaterOnes(ones, k, |positions|);
      var row := RowCalls(positions, radius, ones[k], ones[k + 1..]);
      ListsBoth(calls, Among(positions, radius, ones[..k], ones), row, Row(positions, radius, ones[k], ones[k + 1..]));
      assert Among(positions, radius, ones[..k + 1], ones)
          == Among(positions, radius, ones[..k], ones) + Row(positions, radius, ones[k], ones[k + 1..]);
      calls := calls + row;
    }
    assert ones[..|ones|] == ones;
  }

  lemma LaterOnes(ones: seq<nat>, k: nat, count: nat)
    requires Indices(ones, count) && k < |ones|
    ensures Indices(ones[k + 1..], count)
    ensures forall j: nat :: j in ones[k + 1..] <==> j in ones && ones[k] < j
  {
    var later := ones[k + 1..];
    forall p, q | 0 <= p < q < |later| ensures later[p] < later[q] {
      assert later[p] == ones[k + 1 + p] && later[q] == ones[k + 1 + q];
    }
    forall j: nat | j in later ensures j in ones && j < count { }
    forall j: nat | j in ones && ones[k] < j ensures j in ones[k + 1..] {
      var p :| 0 <= p < |ones| && ones[p] == j;
      assert ones[k + 1..][p - k - 1] == j;
    }
  }

  // ---------------------------------------------------------------------------
  // Blocks of cells

  predicate CellIn(g: Layout, p: Vec2, loX: int, hiX: int, loY: int, hiY: int)
    requires g.n > 0 && g.size > 0.0
  {
    loX <= g.Cell(p.x) < hiX && loY <= g.Cell(p.y) < hiY
  }

  ghost function Block(g: Layout, positions: seq<Vec2>, loX: int, hiX: int, loY: int, hiY: int): set<nat>
    requires g.n > 0 && g.size > 0.0
  {
    set i | 0 <= i < |positions| && CellIn(g, positions[i], loX, hiX, loY, hiY)
  }

  /** The slice of a cell holds the indices of its positions, in order. */
  lemma CellSlice(g: Layout, positions: seq<Vec2>, start: seq<nat>, sorted: seq<nat>, x: nat, y: nat)
    requires g.Valid() && x < g.n && y < g.n && Grouped(start, sorted, g.Codes(positions), g.n * g.n)
    ensures var code := Interleave(x, y);
            && code + 1 < |start| && start[code] <= start[code + 1] <= |sorted|
            && var slice := sorted[start[code]..start[code + 1]];
               Indices(slice, |positions|) && Members(slice) == Block(g, positions, x, x + 1, y, y + 1)
  {
    hide Layout.Cell, Interleave, Bucket, Below;
    var k: nat :| g.n == Pow2(k);
    CodesBelow(x, y, k);
    Pow2Add(k, k);
    var code := Interleave(x, y);
    assert IsBucket(start, sorted, g.Codes(positions), code);
    BucketExact(g.Codes(positions), code);
    forall i | 0 <= i < |positions|
      ensures g.Codes(positions)[i] == code <==> CellIn(g, positions[i], x, x + 1, y, y + 1)
    {
      var p := positions[i];
      if g.Code(p) == code { InterleaveInjective(g.Cell(p.x), g.Cell(p.y), x, y); }
    }
  }

  ghost function EmittedIn(g: Layout, positions: seq<Vec2>, radius: real, loX: int, hiX: int, loY: int,
                           hiY: int): set<(nat, nat)>
    requires g.n > 0 && g.size > 0.0
  {
    set i, j | 0 <= i < |positions| && 0 <= j < |positions| && CellIn(g, positions[i], loX, hiX, loY, hiY)
               && Emits(g, positions, radius, i, j) :: (i, j)
  }

  function Offset(k: nat): (int, int)
    requires k < 4
  {
    if k == 0 then (1, 0) else if k == 1 then (-1, 1) else if k == 2 then (0, 1) else (1, 1)
  }

  /** What the cell `(x, y)` is due after looking at itself and its first `k` neighbours. */
  ghost function DueAfter(g: Layout, positions: seq<Vec2>, radius: real, x: nat, y: nat, k: nat): set<(nat, nat)>
    requires g.n > 0 && g.size > 0.0 && k <= 4
  {
    if k == 0 then
      set i, j | 0 <= i < j < |positions| && CellIn(g, positions[i], x, x + 1, y, y + 1)
                 && CellIn(g, positions[j], x, x + 1, y, y + 1) && Close(positions, i, j, radius) :: (i, j)
    else
      DueAfter(g, positions, radius, x, y, k - 1) + Toward(g, positions, radius, x, y, k - 1)
  }

  ghost function Toward(g: Layout, positions: seq<Vec2>, radius: real, x: nat, y: nat, k: nat): set<(nat, nat)>
    requires g.n > 0 && g.size > 0.0 && k < 4
  {
    var (dx, dy) := Offset(k);
    set i, j | 0 <= i < |positions| && 0 <= j < |positions| && CellIn(g, positions[i], x, x + 1, y, y + 1)
               && CellIn(g, positions[j], x + dx, x + dx + 1, y + dy, y + dy + 1)
               && Close(positions, i, j, radius) :: (i, j)
  }

  lemma DueOfCell(g: Layout, positions: seq<Vec2>, radius: real, x: nat, y: nat)
    requires g.n > 0 && g.size > 0.0
    ensures EmittedIn(g, positions, radius, x, x + 1, y, y + 1) == DueAfter(g, positions, radius, x, y, 4)
  {
    hide Layout.Cell, Close;
    var all := EmittedIn(g, positions, radius, x, x + 1, y, y + 1);
    var d0, d1 := DueAfter(g, positions, radius, x, y, 0), DueAfter(g, positions, radius, x, y, 1);
    var d2, d3 := DueAfter(g, positions, radius, x, y, 2), DueAfter(g, positions, radius, x, y, 3);
    assert DueAfter(g, positions, radius, x, y, 4) == d3 + Toward(g, positions, radius, x, y, 3);
  }

  /** Different neighbours give different pairs. */
  lemma {:induction false} DueDisjoint(g: Layout, positions: seq<Vec2>, radius: real, x: nat, y: nat, k: nat, m: nat)
    requires g.n > 0 && g.size > 0.0 && k <= m < 4
    ensures DueAfter(g, positions, radius, x, y, k) !! Toward(g, positions, radius, x, y, m)
  {
    hide Layout.Cell, Close;
    if k > 0 { DueDisjoint(g, positions, radius, x, y, k - 1, m); }
  }

  /** The grid over arrays, rebuilt from scratch by each `Build`. */
  class SpatialGrid {
    var n: nat
    var size: real
    var cellStart: array<nat>
    var sorted: array<nat>
    ghost var positions: seq<Vec2>

    ghost predicate Valid()
      reads this, cellStart, sorted
    {
      n > 0 ==> Shape().Valid() && Grouped(cellStart[..], sorted[..], Shape().Codes(positions), n * n)
    }

    function Shape(): Layout
      reads this
    {
      Layout(n, size)
    }

    constructor ()
      ensures Valid() && n == 0 && fresh(cellStart) && fresh(sorted)
    {
      n, size, positions := 0, 0.0, [];
      cellStart, sorted := new nat[0], new nat[0];
    }

    /** Cells per axis must be a power of two, at most 1024. */
    method Configure(worldSize: real, cells: nat, ghost k: nat)
      requires worldSize > 0.0 && cells <= 1024 && cells == Pow2(k)
      modifies this
      ensures Valid() && n == cells && size == worldSize / cells as real && positions == []
      ensures fresh(cellStart) && fresh(sorted)
    {
      n, size, positions := cells, worldSize / cells as real, [];
      cellStart := new nat[cells * cells + 1](_ => 0);
      sorted := new nat[0];
      EmptyGrouped(cellStart[..], sorted[..], cells * cells);
      assert Shape().Codes(positions) == [];
    }

    /** Groups the indices of all positions by cell. */
    method Build(ps: seq<Vec2>)
      requires Valid()
      modifies this`cellStart, this`sorted, this`positions
      ensures Valid() && n == old(n) && size == old(size)
      ensures n > 0 ==> positions == ps && fresh(cellStart) && fresh(sorted)
    {
      hide Tallied, Scattered, Placed, Below, Bucket;
      if n == 0 { return; }
      var cells := n * n;
      var start := new nat[cells + 1](_ => 0);
      var codes := new nat[|ps|];
      var order := new nat[|ps|];
      CountCells(Shape(), ps, codes, start);
      ghost var all := Shape().Codes(ps);
      SumCounts(start, all);
      var cursor := new nat[cells](c requires 0 <= c < cells reads start => start[c]);
      CodesBounded(Shape(), ps);
      Scatter(codes, cursor, order);
      ScatteredIsGrouped(start[..], cursor[..], order[..], all, cells);
      cellStart, sorted, positions := start, order, ps;
    }

    /** The entities of one cell. */
    method Cell(x: nat, y: nat) returns (ones: seq<nat>)
      requires Valid() && x < n && y < n
      ensures Indices(ones, |positions|) && Members(ones) == Block(Shape(), positions, x, x + 1, y, y + 1)
    {
      hide Grouped, Layout.Codes, Block, Members, Indices;
      CellSlice(Shape(), positions, cellStart[..], sorted[..], x, y);
      var code := CellCode(x, y);
      var begin, end := cellStart[code], cellStart[code + 1];
      ones := sorted[begin..end];
    }

    method RowQuery(y: nat, minX: nat, maxX: nat) returns (calls: seq<nat>)
      requires Valid() && y < n && maxX < n
      ensures Lists(calls, Block(Shape(), positions, minX, maxX + 1, y, y + 1))
    {
      hide Lists, Grouped, Layout.Cell;
      var x := minX;
      calls := [];
      ListsNone(Block(Shape(), positions, minX, minX, y, y + 1));
      while x <= maxX
        invariant minX <= x && (x <= maxX + 1 || x == minX)
        invariant Lists(calls, Block(Shape(), positions, minX, x, y, y + 1))
      {
        var ones := Cell(x, y);
        IncreasingLists(ones);
        ListsBoth(calls, Block(Shape(), positions, minX, x, y, y + 1), ones, Members(ones));
        calls := calls + ones;
        x := x + 1;
        assert Block(Shape(), positions, minX, x, y, y + 1)
            == Block(Shape(), positions, minX, x - 1, y, y + 1) + Block(Shape(), positions, x - 1, x, y, y + 1);
      }
      assert Block(Shape(), positions, minX, x, y, y + 1) == Block(Shape(), positions, minX, maxX + 1, y, y + 1);
    }

    /** Calls back once for every entity in a cell of the block around the circle. */
    method QueryRadius(center: Vec2, radius: real) returns (calls: seq<nat>)
      requires Valid()
      ensures Lists(calls, if n == 0 then {} else Inside(Shape(), positions, BoxAround(Shape(), center, radius)))
    {
      hide Lists, Grouped, Layout.Cell, Layout.Codes, Layout.Valid;
      calls := [];
      if n == 0 {
        ListsNone<nat>({});
        return;
      }
      assert size > 0.0 by { PositiveSize(Shape()); }
      var minX, maxX := Shape().Cell(center.x - radius), Shape().Cell(center.x + radius);
      var minY, maxY := Shape().Cell(center.y - radius), Shape().Cell(center.y + radius);
      var y := minY;
      ListsNone(Block(Shape(), positions, minX, maxX + 1, minY, minY));
      while y <= maxY
        invariant minY <= y && (y <= maxY + 1 || y == minY)
        invariant Lists(calls, Block(Shape(), positions, minX, maxX + 1, minY, y))
      {
        var row := RowQuery(y, minX, maxX);
        ListsBoth(calls, Block(Shape(), positions, minX, maxX + 1, minY, y),
                  row, Block(Shape(), positions, minX, maxX + 1, y, y + 1));
        calls := calls + row;
        y := y + 1;
        assert Block(Shape(), positions, minX, maxX + 1, minY, y)
            == Block(Shape(), positions, minX, maxX + 1, minY, y - 1)
             + Block(Shape(), positions, minX, maxX + 1, y - 1, y);
      }
      assert Block(Shape(), positions, minX, maxX + 1, minY, y)
             == Inside(Shape(), positions, BoxAround(Shape(), center, radius));
    }

    method CellPairs(ps: seq<Vec2>, radius: real, x: nat, y: nat) returns (calls: seq<(nat, nat)>)
      requires Valid() && x < n && y < n && ps == positions
      ensures Lists(calls, EmittedIn(Shape(), ps, radius, x, x + 1, y, y + 1))
    {
      hide Lists, Grouped, Layout.Cell, Close, Emits;
      calls := [];
      var ones := Cell(x, y);
      if |ones| == 0 {
        NobodyThere(Shape(), ps, radius, x, y);
        ListsNone(EmittedIn(Shape(), ps, radius, x, x + 1, y, y + 1));
        return;
      }
      calls := CellCalls(ps, radius, ones);
      AmongIsDue(Shape(), ps, radius, x, y, ones);
      for k := 0 to 4
        invariant Lists(calls, DueAfter(Shape(), ps, radius, x, y, k))
      {
        var more := Neighbour(ps, radius, x, y, k, ones);
        DueDisjoint(Shape(), ps, radius, x, y, k, k);
        ListsBoth(calls, DueAfter(Shape(), ps, radius, x, y, k), more, Toward(Shape(), ps, radius, x, y, k));
        calls := calls + more;
      }
      DueOfCell(Shape(), ps, radius, x, y);
    }

    /** A cell against its neighbour at offset `k`, if that is in the grid. */
    method Neighbour(ps: seq<Vec2>, radius: real, x: nat, y: nat, k: nat, ones: seq<nat>)
      returns (calls: seq<(nat, nat)>)
      requires Valid() && x < n && y < n && k < 4 && ps == positions
      requires Indices(ones, |positions|) && Members(ones) == Block(Shape(), positions, x, x + 1, y, y + 1)
      ensures Lists(calls, Toward(Shape(), ps, radius, x, y, k))
    {
      hide Lists, Grouped, Layout.Cell, Close;
      var nx, ny := x + Offset(k).0, y + Offset(k).1;
      if nx < 0 || ny < 0 || nx >= n || ny >= n {
        calls := [];
        ListsNone(Toward(Shape(), ps, radius, x, y, k));
        return;
      }
      var others := Cell(nx, ny);
      calls := CrossCalls(ps, radius, ones, others);
      AcrossIsToward(Shape(), ps, radius, x, y, k, ones, others);
    }

    method RowPairs(ps: seq<Vec2>, radius: real, y: nat) returns (calls: seq<(nat, nat)>)
      requires Valid() && y < n && ps == positions
      ensures Lists(calls, EmittedIn(Shape(), ps, radius, 0, n, y, y + 1))
    {
      hide Lists, Grouped, Emits;
      calls := [];
      ListsNone(EmittedIn(Shape(), ps, radius, 0, 0, y, y + 1));
      for x := 0 to n
        invariant Lists(calls, EmittedIn(Shape(), ps, radius, 0, x, y, y + 1))
      {
        var more := CellPairs(ps, radius, x, y);
        ListsBoth(calls, EmittedIn(Shape(), ps, radius, 0, x, y, y + 1), more,
            EmittedIn(Shape(), ps, radius, x, x + 1, y, y + 1));
        assert EmittedIn(Shape(), ps, radius, 0, x + 1, y, y + 1)
            == EmittedIn(Shape(), ps, radius, 0, x, y, y + 1) + EmittedIn(Shape(), ps, radius, x, x + 1, y, y + 1);
        calls := calls + more;
      }
    }

    /** Calls back for each pair within the radius, each cell against itself and
        half of its neighbours. */
    method ForEachPair(ps: seq<Vec2>, radius: real) returns (calls: seq<(nat, nat)>)
      requires Valid() && ps == positions && (n > 0 ==> radius <= size)
      ensures Lists(calls, if n == 0 then {} else Emitted(Shape(), ps, radius))
    {
      calls := [];
      if n == 0 { return; }
      hide Lists, Grouped, Emits;
      ListsNone(EmittedIn(Shape(), ps, radius, 0, n, 0, 0));
      for y := 0 to n
        invariant Lists(calls, EmittedIn(Shape(), ps, radius, 0, n, 0, y))
      {
        var more := RowPairs(ps, radius, y);
        ListsBoth(calls, EmittedIn(Shape(), ps, radius, 0, n, 0, y), more,
            EmittedIn(Shape(), ps, radius, 0, n, y, y + 1));
        assert EmittedIn(Shape(), ps, radius, 0, n, 0, y + 1)
            == EmittedIn(Shape(), ps, radius, 0, n, 0, y) + EmittedIn(Shape(), ps, radius, 0, n, y, y + 1);
        calls := calls + more;
      }
      assert EmittedIn(Shape(), ps, radius, 0, n, 0, n) == Emitted(Shape(), ps, radius);
    }
  }

  lemma PositiveSize(g: Layout)
    requires g.Valid()
    ensures g.size > 0.0
  {
  }

  lemma AcrossIsToward(g: Layout, positions: seq<Vec2>, radius: real, x: nat, y: nat, k: nat, ones: seq<nat>,
                       others: seq<nat>)
    requires g.n > 0 && g.size > 0.0 && k < 4 && Members(ones) == Block(g, positions, x, x + 1, y, y + 1)
    requires var (dx, dy) := Offset(k); Members(others) == Block(g, positions, x + dx, x + dx + 1, y + dy, y + dy + 1)
    ensures Across(positions, radius, ones, others) == Toward(g, positions, radius, x, y, k)
  {
    hide Layout.Cell, Close;
    assert forall i: nat :: i in ones <==> i in Members(ones);
    assert forall i: nat :: i in others <==> i in Members(others);
  }

  lemma AmongIsDue(g: Layout, positions: seq<Vec2>, radius: real, x: nat, y: nat, ones: seq<nat>)
    requires g.n > 0 && g.size > 0.0 && Members(ones) == Block(g, positions, x, x + 1, y, y + 1)
    ensures Among(positions, radius, ones, ones) == DueAfter(g, positions, radius, x, y, 0)
  {
    hide Layout.Cell, Close;
    assert forall i: nat :: i in ones <==> i in Members(ones);
  }

  lemma NobodyThere(g: Layout, positions: seq<Vec2>, radius: real, x: nat, y: nat)
    requires g.n > 0 && g.size > 0.0 && Block(g, positions, x, x + 1, y, y + 1) == {}
    ensures EmittedIn(g, positions, radius, x, x + 1, y, y + 1) == {}
  {
    hide Layout.Cell, Close, Emits;
    var block := Block(g, positions, x, x + 1, y, y + 1);
    assert forall i | 0 <= i < |positions| && CellIn(g, positions[i], x, x + 1, y, y + 1) :: i in block;
  }

  lemma CodesBounded(g: Layout, positions: seq<Vec2>)
    requires g.Valid()
    ensures Bounded(g.Codes(positions), g.n * g.n)
  {
    forall i | 0 <= i < |positions| ensures g.Codes(positions)[i] < g.n * g.n { CodeFits(g, positions[i]); }
  }

  lemma EmptyGrouped(start: seq<nat>, sorted: seq<nat>, cells: nat)
    requires |start| == cells + 1 && sorted == [] && forall c | 0 <= c <= cells :: start[c] == 0
    ensures Grouped(start, sorted, [], cells)
  {
    forall c: nat ensures Below([], c) == 0 { BelowEmpty(c); }
    forall c | 0 <= c < cells ensures IsBucket(start, sorted, [], c) { }
  }

  lemma ScatteredIsGrouped(start: seq<nat>, cursor: seq<nat>, sorted: seq<nat>, codes: seq<nat>, cells: nat)
    requires |start| == cells + 1 && forall c | 0 <= c <= cells :: start[c] == Below(codes, c)
    requires Scattered(cursor, sorted, codes, |codes|, cells)
    ensures Grouped(start, sorted, codes, cells)
  {
    hide Placed, Below, Bucket, Grouped;
    PlacedIsGrouped(start, sorted, codes, cells);
  }
}
