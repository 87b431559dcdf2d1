/**
 Authority regions and their hysteresis: a player is handed to another region only
 once it is more than a margin past the border of the one that owns it.
 */
module Regions {
  import opened Grid

  datatype Handoff = Stay | To(region: nat)

  datatype Bounds = Bounds(minX: real, minY: real, maxX: real, maxY: real)

  datatype RegionMap = RegionMap(world: real, perAxis: nat, margin: real) {
    predicate Valid() { world > 0.0 && perAxis > 0 }

    function Size(): (size: real)
      requires Valid()
      ensures size > 0.0
    {
      world / perAxis as real
    }

    function AxisIndex(v: real): (index: nat)
      requires Valid()
      ensures index < perAxis
    {
      var index := Truncate(v / Size());
      if index < 0 then 0 else if index >= perAxis then perAxis - 1 else index
    }

    function RegionOf(p: Vec2): nat
      requires Valid()
    {
      AxisIndex(p.y) * perAxis + AxisIndex(p.x)
    }

    function BoundsOf(region: nat): Bounds
      requires Valid()
    {
      var x, y := (region % perAxis) as real * Size(), (region / perAxis) as real * Size();
      Bounds(x, y, x + Size(), y + Size())
    }

    predicate PastX(region: nat, p: Vec2)
      requires Valid()
    {
      var b := BoundsOf(region);
      p.x < b.minX - margin || p.x > b.maxX + margin
    }

    predicate PastY(region: nat, p: Vec2)
      requires Valid()
    {
      var b := BoundsOf(region);
      p.y < b.minY - margin || p.y > b.maxY + margin
    }

    function HandoffTarget(current: nat, p: Vec2): Handoff
      requires Valid()
    {
      var raw := RegionOf(p);
      if raw == current then Stay
      else if PastX(current, p) || PastY(current, p) then To(raw) else Stay
    }

    predicate InWorld(p: Vec2) {
      0.0 <= p.x <= world && 0.0 <= p.y <= world
    }
  }

  // ---------------------------------------------------------------------------
  // A position lies within the bounds of its region

  function Edge(k: int, size: real): real { Times(k as real, size) }

  lemma EdgeNext(k: int, size: real)
    ensures Edge(k + 1, size) == Edge(k, size) + size
  {
  }

  lemma EdgeMonotone(a: int, b: int, size: real)
    requires size > 0.0 && a <= b
    ensures Edge(a, size) <= Edge(b, size)
  {
    hide Times;
    TimesMonotone(a as real, b as real, size);
  }

  lemma Quotient(v: real, size: real)
    requires size > 0.0
    ensures Times(v / size, size) == v
  {
  }

  lemma WorldEdge(m: RegionMap)
    requires m.Valid()
    ensures Edge(m.perAxis, m.Size()) == m.world
  {
    Quotient(m.world, m.perAxis as real);
  }

  /** An in-world coordinate is within its strip, and short of the far edge unless
      the strip is the last one. */
  lemma InStrip(m: RegionMap, v: real)
    requires m.Valid() && 0.0 <= v <= m.world
    ensures Edge(m.AxisIndex(v), m.Size()) <= v <= Edge(m.AxisIndex(v) + 1, m.Size())
    ensures m.AxisIndex(v) < m.perAxis - 1 ==> v < Edge(m.AxisIndex(v) + 1, m.Size())
  {
    var size := m.Size();
    WorldEdge(m);
    NonNegativeQuotient(v, size);
    Strips(v, size, (v / size).Floor, m.perAxis);
  }

  lemma Strips(v: real, size: real, k: int, n: nat)
    requires size > 0.0 && k == (v / size).Floor && 0.0 <= v <= Edge(n, size) && n > 0
    ensures k < n ==> Edge(k, size) <= v < Edge(k + 1, size)
    ensures k >= n ==> Edge(n - 1, size) <= v == Edge(n, size)
  {
    hide Edge, Times;
    Quotient(v, size);
    BetweenEdges(v / size, size, k);
    if k >= n {
      EdgeMonotone(n, k, size);
      EdgeMonotone(n - 1, n, size);
    }
  }

  lemma BetweenEdges(t: real, size: real, k: int)
    requires size > 0.0 && k == t.Floor
    ensures Edge(k, size) <= Times(t, size) < Edge(k + 1, size)
  {
    hide Times;
    Around(k as real, t, size);
    EdgeNext(k, size);
  }

  lemma Around(here: real, t: real, size: real)
    requires size > 0.0 && here <= t < here + 1.0
    ensures Times(here, size) <= Times(t, size) < Times(here, size) + size
  {
    hide Times;
    if here < t { TimesGrows(here, t, size); }
    TimesGrows(t, here + 1.0, size);
    TimesNext(here, size);
  }

  lemma TimesGrows(a: real, b: real, size: real)
    requires size > 0.0 && a < b
    ensures Times(a, size) < Times(b, size)
  {
  }

  lemma TimesNext(a: real, size: real)
    ensures Times(a + 1.0, size) == Times(a, size) + size
  {
  }

  lemma NonNegativeQuotient(v: real, size: real)
    requires v >= 0.0 && size > 0.0
    ensures v / size >= 0.0
  {
  }

  lemma Coordinates(n: nat, x: nat, y: nat)
    requires x < n
    ensures (y * n + x) % n == x && (y * n + x) / n == y
  {
    var a := y * n + x;
    var q, r := a / n, a % n;
    assert a == q * n + r;
    if q > y { AtLeastOne(q, y, n); }
    if y > q { AtLeastOne(y, q, n); }
  }

  lemma {:induction false} AtLeastOne(a: int, b: int, n: nat)
    requires a > b
    ensures a * n >= b * n + n
    decreases a - b
  {
    assert a * n == (a - 1) * n + n;
    if a - 1 > b { AtLeastOne(a - 1, b, n); }
  }

  /** The bounds of the region of `p`. */
  lemma BoundsAt(m: RegionMap, p: Vec2)
    requires m.Valid()
    ensures var b, size := m.BoundsOf(m.RegionOf(p)), m.Size();
            && b.minX == Edge(m.AxisIndex(p.x), size) && b.maxX == Edge(m.AxisIndex(p.x) + 1, size)
            && b.minY == Edge(m.AxisIndex(p.y), size) && b.maxY == Edge(m.AxisIndex(p.y) + 1, size)
  {
    hide RegionMap.AxisIndex;
    Coordinates(m.perAxis, m.AxisIndex(p.x), m.AxisIndex(p.y));
    EdgeNext(m.AxisIndex(p.x), m.Size());
    EdgeNext(m.AxisIndex(p.y), m.Size());
  }

  predicate Within(b: Bounds, p: Vec2) {
    b.minX <= p.x <= b.maxX && b.minY <= p.y <= b.maxY
  }

  lemma InsideOwn(m: RegionMap, p: Vec2)
    requires m.Valid() && m.InWorld(p)
    ensures Within(m.BoundsOf(m.RegionOf(p)), p)
  {
    hide RegionMap.AxisIndex, RegionMap.RegionOf, RegionMap.BoundsOf, Edge;
    BoundsAt(m, p);
    InStrip(m, p.x);
    InStrip(m, p.y);
  }

  // ---------------------------------------------------------------------------
  // Hysteresis over a whole path

  function Abs(v: real): (r: real)
    ensures r >= 0.0
  {
    if v < 0.0 then -v else v
  }

  /** Distance in the max norm. */
  function Leap(p: Vec2, q: Vec2): (d: real)
    ensures d >= 0.0
  {
    var dx, dy := Abs(p.x - q.x), Abs(p.y - q.y);
    if dx < dy then dy else dx
  }

  lemma LeapTriangle(p: Vec2, q: Vec2, r: Vec2)
    ensures Leap(p, r) <= Leap(p, q) + Leap(q, r)
  {
  }

  function PathLength(path: seq<Vec2>): (d: real)
    ensures d >= 0.0
  {
    if |path| <= 1 then 0.0 else Leap(path[0], path[1]) + PathLength(path[1..])
  }

  /** Number of region changes when the positions of a path are checked one after
      the other, starting as a player of `current`. */
  function Changes(m: RegionMap, current: nat, path: seq<Vec2>): nat
    requires m.Valid()
    decreases |path|
  {
    if path == [] then 0
    else
      match m.HandoffTarget(current, path[0])
      case Stay => Changes(m, current, path[1..])
      case To(region) => 1 + Changes(m, region, path[1..])
  }

  /** Being handed off means being more than the margin away from every point of
      the region that is left. */
  lemma LeavesMargin(m: RegionMap, current: nat, anchor: Vec2, p: Vec2)
    requires m.Valid() && Within(m.BoundsOf(current), anchor) && m.HandoffTarget(current, p).To?
    ensures Leap(anchor, p) > m.margin
  {
    hide RegionMap.RegionOf, RegionMap.BoundsOf;
  }

  /** The point of some bounds that is nearest to `p`. */
  function Nearest(b: Bounds, p: Vec2): Vec2 {
    Vec2(if p.x < b.minX then b.minX else if p.x > b.maxX then b.maxX else p.x,
         if p.y < b.minY then b.minY else if p.y > b.maxY then b.maxY else p.y)
  }

  /** A player is handed on exactly if it is more than the margin away from every point
      of its region, and then to the region that it is in. */
  lemma HandoffExactly(m: RegionMap, current: nat, p: Vec2)
    requires m.Valid() && m.margin >= 0.0 && m.InWorld(p)
    ensures var target, b := m.HandoffTarget(current, p), m.BoundsOf(current);
            && (target.To? <==> forall q | Within(b, q) :: Leap(q, p) > m.margin)
            && (target.To? ==> target.region == m.RegionOf(p))
  {
    hide RegionMap.AxisIndex, RegionMap.RegionOf;
    var b := m.BoundsOf(current);
    if m.HandoffTarget(current, p).To? {
      forall q | Within(b, q) ensures Leap(q, p) > m.margin { LeavesMargin(m, current, q, p); }
    } else {
      var q := if m.RegionOf(p) == current then p else Nearest(b, p);
      if m.RegionOf(p) == current { InsideOwn(m, p); }
      assert Within(b, q) && Leap(q, p) <= m.margin;
    }
  }

  lemma Multiples(k: nat, margin: real)
    requires k > 0
    ensures k as real * margin == margin + (k - 1) as real * margin
  {
  }

  /** With a point of the current region behind, each change costs a margin. */
  lemma {:induction false} AnchoredPath(m: RegionMap, current: nat, anchor: Vec2, path: seq<Vec2>)
    requires m.Valid() && path != [] && (forall p <- path :: m.InWorld(p)) && Within(m.BoundsOf(current), anchor)
    ensures var k := Changes(m, current, path);
            k > 0 ==> Leap(anchor, path[0]) + PathLength(path) > k as real * m.margin
    decreases |path|
  {
    hide RegionMap.RegionOf, RegionMap.BoundsOf, RegionMap.AxisIndex, Leap, Within, RegionMap.PastX, RegionMap.PastY;
    var p, rest, k := path[0], path[1..], Changes(m, current, path);
    if k > 0 { Multiples(k, m.margin); }
    match m.HandoffTarget(current, p)
    case Stay =>
      if rest != [] {
        AnchoredPath(m, current, anchor, rest);
        LeapTriangle(anchor, p, rest[0]);
      }
    case To(region) =>
      LeavesMargin(m, current, anchor, p);
      InsideOwn(m, p);
      if rest != [] { AnchoredPath(m, region, p, rest); }
  }

  /** Hysteresis over runs: `k` region changes, two or more, need a path longer than
      `k - 1` margins, whatever region the player starts in. */
  lemma {:induction false} ChangesCostMargins(m: RegionMap, current: nat, path: seq<Vec2>)
    requires m.Valid() && forall p <- path :: m.InWorld(p)
    ensures var k := Changes(m, current, path);
            k >= 2 ==> PathLength(path) > (k - 1) as real * m.margin
    decreases |path|
  {
    hide RegionMap.RegionOf, RegionMap.BoundsOf, RegionMap.AxisIndex, Leap, Within, RegionMap.PastX, RegionMap.PastY;
    if path != [] {
      var p, rest := path[0], path[1..];
      match m.HandoffTarget(current, p)
      case Stay => ChangesCostMargins(m, current, rest);
      case To(region) =>
        InsideOwn(m, p);
        if rest != [] { AnchoredPath(m, region, p, rest); }
    }
  }

  // ---------------------------------------------------------------------------
  // There and back again

  /** The player of `r`'s region is handed off at `q`, and handed back at `r`. */
  predicate Returns(m: RegionMap, q: Vec2, r: Vec2)
    requires m.Valid()
  {
    && m.InWorld(q) && m.InWorld(r)
    && m.HandoffTarget(m.RegionOf(r), q).To? && m.HandoffTarget(m.RegionOf(q), r).To?
  }

  /** All regions touch, or the margin is at most half a region, or it is so wide
      that nobody is ever handed off. */
  predicate Settled(m: RegionMap)
    requires m.Valid()
  {
    m.perAxis <= 2 || 2.0 * m.margin <= m.Size() || m.margin >= Edge(m.perAxis - 1, m.Size())
  }

  predicate Past(m: RegionMap, index: nat, v: real)
    requires m.Valid()
  {
    v < Edge(index, m.Size()) - m.margin || v > Edge(index + 1, m.Size()) + m.margin
  }

  lemma AxisOnce(m: RegionMap, u: real, v: real)
    requires m.Valid() && 0.0 <= v <= m.world && Past(m, m.AxisIndex(v), u)
    ensures Abs(u - v) > m.margin
  {
    hide RegionMap.AxisIndex, Edge;
    InStrip(m, v);
  }

  /** Crossing upwards from the strip of `v` to the strip of `u`, and back. */
  lemma AxisUp(m: RegionMap, u: real, v: real)
    requires m.Valid() && Settled(m) && m.margin >= 0.0 && 0.0 <= u <= m.world && 0.0 <= v <= m.world
    requires m.AxisIndex(v) < m.AxisIndex(u) && Past(m, m.AxisIndex(v), u) && Past(m, m.AxisIndex(u), v)
    ensures u - v > 2.0 * m.margin
  {
    hide RegionMap.AxisIndex, Edge;
    var a, b, size := m.AxisIndex(v), m.AxisIndex(u), m.Size();
    InStrip(m, u);
    InStrip(m, v);
    WorldEdge(m);
    EdgeMonotone(a + 1, b, size);
    EdgeNext(b, size);
    EdgeNext(a, size);
    if b > a + 1 {
      EdgeNext(a + 1, size);
      EdgeMonotone(a + 2, b, size);
      EdgeMonotone(0, a, size);
      EdgeNext(m.perAxis - 1, size);
      EdgeZero(size);
    }
  }

  lemma EdgeZero(size: real)
    ensures Edge(0, size) == 0.0 && Edge(1, size) == size && Edge(2, size) == size + size
  {
  }

  lemma AxisTwice(m: RegionMap, u: real, v: real)
    requires m.Valid() && Settled(m) && 0.0 <= u <= m.world && 0.0 <= v <= m.world
    requires Past(m, m.AxisIndex(v), u) && Past(m, m.AxisIndex(u), v)
    ensures Abs(u - v) > 2.0 * m.margin
  {
    hide RegionMap.AxisIndex, Edge, Settled;
    var a, b, size := m.AxisIndex(v), m.AxisIndex(u), m.Size();
    if m.margin >= 0.0 {
      InStrip(m, u);
      InStrip(m, v);
      if a < b { AxisUp(m, u, v); }
      if b < a { AxisUp(m, v, u); }
    }
  }

  function Steps(q: Vec2, r: Vec2): real { Abs(q.x - r.x) + Abs(q.y - r.y) }

  /** In a settled map, a change from A to B and back to A needs a displacement of
      more than two margins. */
  lemma ReturnCostsTwo(m: RegionMap, q: Vec2, r: Vec2)
    requires m.Valid() && Settled(m) && Returns(m, q, r)
    ensures Steps(q, r) > 2.0 * m.margin
  {
    hide RegionMap.AxisIndex, RegionMap.RegionOf, RegionMap.BoundsOf, Edge, Settled, Abs, RegionMap.Size;
    BoundsAt(m, q);
    BoundsAt(m, r);
    if m.PastX(m.RegionOf(r), q) {
      AxisOnce(m, q.x, r.x);
      if m.PastX(m.RegionOf(q), r) { AxisTwice(m, q.x, r.x); } else { AxisOnce(m, r.y, q.y); AbsFlips(r.y, q.y); }
    } else {
      AxisOnce(m, q.y, r.y);
      if m.PastY(m.RegionOf(q), r) { AxisTwice(m, q.y, r.y); } else { AxisOnce(m, r.x, q.x); AbsFlips(r.x, q.x); }
    }
  }

  lemma AbsFlips(a: real, b: real)
    ensures Abs(a - b) == Abs(b - a)
  {
  }

  lemma IndexAt(m: RegionMap, v: real, j: nat)
    requires m.Valid() && j < m.perAxis && Edge(j, m.Size()) <= v < Edge(j + 1, m.Size())
    ensures m.AxisIndex(v) == j && 0.0 <= v <= m.world
  {
    var size := m.Size();
    var t := v / size;
    Quotient(v, size);
    WorldEdge(m);
    EdgeMonotone(j + 1, m.perAxis, size);
    EdgeMonotone(0, j, size);
    EdgeZero(size);
    FloorAt(t, v, size, j, j as real, (j + 1) as real);
  }

  lemma FloorAt(t: real, v: real, size: real, j: nat, here: real, next: real)
    requires size > 0.0 && Times(t, size) == v && here == j as real && next == (j + 1) as real
    requires Times(here, size) <= v < Times(next, size)
    ensures t.Floor == j
  {
    hide Times;
    if t < here { TimesGrows(t, here, size); }
    if t >= next { TimesMonotone(next, t, size); }
  }

  /** The first edge from the second on that is beyond the margin. */
  lemma {:induction false} EdgeBeyond(m: RegionMap, k: nat) returns (j: nat)
    requires m.Valid() && k >= 2 && Edge(k, m.Size()) > m.margin
    ensures 2 <= j <= k && Edge(j, m.Size()) > m.margin && (j > 2 ==> Edge(j - 1, m.Size()) <= m.margin)
  {
    hide Edge;
    if k > 2 && Edge(k - 1, m.Size()) > m.margin { j := EdgeBeyond(m, k - 1); } else { j := k; }
  }

  /** Two positions on the lower rim of the world, in strips 0 and `j`. */
  lemma ReturnAlong(m: RegionMap, u: real, v: real, j: nat)
    requires m.Valid() && 0 < j < m.perAxis && 0.0 <= v < m.Size() && Edge(j, m.Size()) <= u < Edge(j + 1, m.Size())
    requires u > m.Size() + m.margin && v < Edge(j, m.Size()) - m.margin
    ensures Returns(m, Vec2(u, 0.0), Vec2(v, 0.0)) && Steps(Vec2(u, 0.0), Vec2(v, 0.0)) == Abs(u - v)
  {
    hide Edge, RegionMap.AxisIndex, RegionMap.Size, RegionMap.BoundsOf;
    EdgeZero(m.Size());
    IndexAt(m, u, j);
    IndexAt(m, v, 0);
    IndexAt(m, 0.0, 0);
    BoundsAt(m, Vec2(u, 0.0));
    BoundsAt(m, Vec2(v, 0.0));
    assert m.RegionOf(Vec2(u, 0.0)) == j && m.RegionOf(Vec2(v, 0.0)) == 0;
  }

  /** In a map that is not settled some return is cheaper. */
  lemma CheapReturn(m: RegionMap) returns (q: Vec2, r: Vec2)
    requires m.Valid() && !Settled(m)
    ensures Returns(m, q, r) && Steps(q, r) <= 2.0 * m.margin
  {
    hide Edge, RegionMap.Size, Returns;
    var size := m.Size();
    EdgeZero(size);
    var j := EdgeBeyond(m, m.perAxis - 1);
    EdgeNext(j, size);
    EdgeNext(j - 1, size);
    var u, v: real;
    if m.margin < size {
      j := 2;
      EdgeNext(2, size);
      u, v := size + size, 2.0 * (size - m.margin);
    } else {
      var spare := (Edge(j, size) - m.margin) / 2.0;
      u, v := size + m.margin + spare, Edge(j, size) - m.margin - spare;
      EdgeMonotone(1, j - 1, size);
    }
    q, r := Vec2(u, 0.0), Vec2(v, 0.0);
    ReturnAlong(m, u, v, j);
  }

  /** Every change from A to B and back to A needs a displacement of more than two
      margins, in the sum norm, exactly in the settled maps. */
  lemma ReturnCostsTwoExactly(m: RegionMap)
    requires m.Valid()
    ensures Settled(m) <==> forall q, r | Returns(m, q, r) :: Steps(q, r) > 2.0 * m.margin
  {
    hide Returns, Settled, Steps;
    if Settled(m) {
      forall q, r | Returns(m, q, r) ensures Steps(q, r) > 2.0 * m.margin { ReturnCostsTwo(m, q, r); }
    } else {
      var q, r := CheapReturn(m);
    }
  }
}
