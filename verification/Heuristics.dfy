/** Neighbourhoods, step costs and heuristics of pathfinding.rs, and why each pairing is consistent.
  *
  * Costs are exact reals and coordinates are mathematical integers.  The square roots the source
  * computes in floating point come from a parameter `sqrt`, of which only `ExactRoots` is used.
  */
module Heuristics {
  datatype Cell = Cell(x: int, y: int, z: int)

  function Add(a: Cell, b: Cell): Cell {
    Cell(a.x + b.x, a.y + b.y, a.z + b.z)
  }

  function Sub(a: Cell, b: Cell): Cell {
    Cell(a.x - b.x, a.y - b.y, a.z - b.z)
  }

  type Roots = nat -> real

  ghost predicate ExactRoots(sqrt: Roots) {
    forall n: nat :: sqrt(n) >= 0.0 && sqrt(n) * sqrt(n) == n as real
  }

  // ---- costs and estimates ----

  datatype Heuristic = Manhattan | Octile | Euclidean

  const NEIGHBORS_4: seq<Cell> := [Cell(1, 0, 0), Cell(-1, 0, 0), Cell(0, 0, 1), Cell(0, 0, -1)]

  const NEIGHBORS_8: seq<Cell> := [
    Cell(1, 0, 0), Cell(-1, 0, 0), Cell(0, 0, 1), Cell(0, 0, -1),
    Cell(1, 0, 1), Cell(1, 0, -1), Cell(-1, 0, 1), Cell(-1, 0, -1)]

  const NEIGHBORS_26: seq<Cell> := [
    Cell(1, 0, 0), Cell(-1, 0, 0), Cell(0, 1, 0), Cell(0, -1, 0), Cell(0, 0, 1), Cell(0, 0, -1),
    Cell(1, 1, 0), Cell(1, -1, 0), Cell(-1, 1, 0), Cell(-1, -1, 0),
    Cell(1, 0, 1), Cell(1, 0, -1), Cell(-1, 0, 1), Cell(-1, 0, -1),
    Cell(0, 1, 1), Cell(0, 1, -1), Cell(0, -1, 1), Cell(0, -1, -1),
    Cell(1, 1, 1), Cell(1, 1, -1), Cell(1, -1, 1), Cell(1, -1, -1),
    Cell(-1, 1, 1), Cell(-1, 1, -1), Cell(-1, -1, 1), Cell(-1, -1, -1)]

  const MAX_STEPS: nat := 4096

  function StepCost(o: Cell, sqrt: Roots): real {
    if o.x != 0 && o.y != 0 && o.z != 0 then sqrt(3)
    else if (o.x != 0 && o.z != 0) || (o.x != 0 && o.y != 0) || (o.y != 0 && o.z != 0) then sqrt(2)
    else 1.0
  }

  function Abs(n: int): nat {
    if n < 0 then -n else n
  }

  function SquaredLength(d: Cell): nat {
    SumOfSquares(d);
    d.x * d.x + d.y * d.y + d.z * d.z
  }

  lemma SumOfSquares(d: Cell)
    ensures d.x * d.x + d.y * d.y + d.z * d.z >= 0
  {
    assert d.x * d.x >= 0 && d.y * d.y >= 0 && d.z * d.z >= 0;
  }

  function Times(a: real, b: real): real {
    a * b
  }

  function OctileLength(dx: int, dz: int, r: real): real {
    var m, n := if dx >= dz then dx else dz, if dx >= dz then dz else dx;
    m as real + Times(r, n as real)
  }

  function Estimate(a: Cell, b: Cell, kind: Heuristic, sqrt: Roots): real {
    var dx, dy, dz := Abs(a.x - b.x), Abs(a.y - b.y), Abs(a.z - b.z);
    match kind
    case Manhattan => (dx + dy + dz) as real
    case Octile => OctileLength(dx, dz, sqrt(2) - 1.0)
    case Euclidean => sqrt(SquaredLength(Sub(a, b)))
  }

  lemma SquaresOrderRoots(a: real, b: real)
    requires a >= 0.0 && b >= 0.0
    ensures a * a <= b * b ==> a <= b
  {
    if b < a {
      assert a * a - b * b == (a - b) * (a + b);
      ProductPositive(a - b, a + b);
    }
  }

  lemma ProductPositive(a: real, b: real)
    requires a > 0.0 && b > 0.0
    ensures a * b > 0.0
  {
  }

  lemma RootBounds(sqrt: Roots)
    requires ExactRoots(sqrt)
    ensures 1.0 <= sqrt(2) <= 2.0 && 1.0 <= sqrt(3) <= 2.0
    ensures sqrt(1) == 1.0
  {
    assert forall n: nat :: sqrt(n) >= 0.0 && sqrt(n) * sqrt(n) == n as real;
    SquaresOrderRoots(1.0, sqrt(2));
    SquaresOrderRoots(sqrt(2), 2.0);
    SquaresOrderRoots(1.0, sqrt(3));
    SquaresOrderRoots(sqrt(3), 2.0);
    SquaresOrderRoots(1.0, sqrt(1));
    SquaresOrderRoots(sqrt(1), 1.0);
  }

  lemma StepCostAtLeastOne(o: Cell, sqrt: Roots)
    requires ExactRoots(sqrt)
    ensures StepCost(o, sqrt) >= 1.0
  {
    RootBounds(sqrt);
  }

  // ---- consistency of each heuristic over its neighbourhood ----

  /** One step never lowers the estimate by more than it costs. */
  ghost predicate Consistent(neighbors: seq<Cell>, kind: Heuristic, goal: Cell, sqrt: Roots) {
    forall a, o | o in neighbors ::
      Estimate(a, goal, kind, sqrt) <= StepCost(o, sqrt) + Estimate(Add(a, o), goal, kind, sqrt)
  }

  lemma ManhattanConsistent(goal: Cell, sqrt: Roots)
    ensures Consistent(NEIGHBORS_4, Manhattan, goal, sqrt)
  {
  }

  lemma TimesDrop(r: real, n: real, n': real)
    requires 0.0 <= r && (n == n' + 1.0 || n <= n')
    ensures n == n' + 1.0 ==> Times(r, n) == Times(r, n') + r
    ensures n <= n' ==> Times(r, n) <= Times(r, n')
  {
    if n == n' + 1.0 {
      assert r * (n' + 1.0) == r * n' + r;
    } else {
      assert r * n' - r * n == r * (n' - n);
    }
  }

  /** The octile distance m + r * n falls by at most 1 in a straight step and 1 + r in a diagonal one. */
  lemma OctileDrop(r: real, m: real, n: real, m': real, n': real)
    requires 0.0 <= r <= 1.0 && m <= m' + 1.0 && (n == n' + 1.0 || n <= n')
    ensures m + Times(r, n) <= 1.0 + r + m' + Times(r, n')
    ensures m <= m' || n <= n' ==> m + Times(r, n) <= 1.0 + m' + Times(r, n')
  {
    TimesDrop(r, n, n');
  }

  lemma OctileLengthDrop(dx: int, dz: int, ex: int, ez: int, r: real)
    requires 0.0 <= r <= 1.0 && -1 <= dx - ex <= 1 && -1 <= dz - ez <= 1
    ensures OctileLength(dx, dz, r) <= 1.0 + r + OctileLength(ex, ez, r)
    ensures dx == ex || dz == ez ==> OctileLength(dx, dz, r) <= 1.0 + OctileLength(ex, ez, r)
  {
    var m, n := if dx >= dz then dx else dz, if dx >= dz then dz else dx;
    var m', n' := if ex >= ez then ex else ez, if ex >= ez then ez else ex;
    OctileDrop(r, m as real, n as real, m' as real, n' as real);
  }

  lemma OctileStep(a: Cell, o: Cell, goal: Cell, sqrt: Roots)
    requires 1.0 <= sqrt(2) <= 2.0 && o.y == 0 && -1 <= o.x <= 1 && -1 <= o.z <= 1
    ensures Estimate(a, goal, Octile, sqrt) <= StepCost(o, sqrt) + Estimate(Add(a, o), goal, Octile, sqrt)
  {
    OctileLengthDrop(Abs(a.x - goal.x), Abs(a.z - goal.z),
                     Abs(a.x + o.x - goal.x), Abs(a.z + o.z - goal.z), sqrt(2) - 1.0);
  }

  lemma OctileConsistent(goal: Cell, sqrt: Roots)
    requires ExactRoots(sqrt)
    ensures Consistent(NEIGHBORS_8, Octile, goal, sqrt)
  {
    RootBounds(sqrt);
    forall a, o | o in NEIGHBORS_8
      ensures Estimate(a, goal, Octile, sqrt) <= StepCost(o, sqrt) + Estimate(Add(a, o), goal, Octile, sqrt)
    {
      OctileStep(a, o, goal, sqrt);
    }
  }

  function Dot(a: Cell, b: Cell): int {
    a.x * b.x + a.y * b.y + a.z * b.z
  }

  lemma CauchySchwarz(a: Cell, b: Cell)
    ensures Dot(a, b) * Dot(a, b) <= SquaredLength(a) * SquaredLength(b)
  {
    var u := a.x * b.y - a.y * b.x;
    var v := a.y * b.z - a.z * b.y;
    var w := a.z * b.x - a.x * b.z;
    assert SquaredLength(a) * SquaredLength(b) - Dot(a, b) * Dot(a, b) == u * u + v * v + w * w;
    SumOfSquares(Cell(u, v, w));
  }

  lemma SquaredLengthOfSum(a: Cell, b: Cell)
    ensures SquaredLength(Add(a, b)) == SquaredLength(a) + 2 * Dot(a, b) + SquaredLength(b)
  {
  }

  lemma ProductSquared(s: real, t: real)
    ensures (s * t) * (s * t) == (s * s) * (t * t)
  {
    assert (s * t) * (s * t) == s * (t * (s * t));
    assert t * (s * t) == s * (t * t);
  }

  lemma DotBound(s: real, t: real, d: real)
    requires s >= 0.0 && t >= 0.0 && d * d <= (s * s) * (t * t)
    ensures d <= s * t
  {
    ProductSquared(s, t);
    if d >= 0.0 {
      SquaresOrderRoots(d, s * t);
    }
  }

  lemma RootTriangle(s: real, t: real, u: real, d: real)
    requires s >= 0.0 && t >= 0.0 && u >= 0.0 && d <= s * t
    requires u * u == s * s + 2.0 * d + t * t
    ensures u <= s + t
  {
    assert (s + t) * (s + t) == s * s + 2.0 * (s * t) + t * t;
    SquaresOrderRoots(u, s + t);
  }

  lemma RealProduct(a: int, b: int)
    ensures (a * b) as real == a as real * b as real
  {
  }

  /** The triangle inequality for lengths given by exact roots. */
  lemma Triangle(a: Cell, b: Cell, sqrt: Roots)
    requires ExactRoots(sqrt)
    ensures sqrt(SquaredLength(Add(a, b))) <= sqrt(SquaredLength(a)) + sqrt(SquaredLength(b))
  {
    var m, n, k := SquaredLength(a), SquaredLength(b), SquaredLength(Add(a, b));
    var s, t, d := sqrt(m), sqrt(n), Dot(a, b);
    assert s * s == m as real && t * t == n as real && s >= 0.0 && t >= 0.0;
    CauchySchwarz(a, b);
    RealProduct(d, d);
    RealProduct(m, n);
    DotBound(s, t, d as real);
    SquaredLengthOfSum(a, b);
    RootTriangle(s, t, sqrt(k), d as real);
  }

  predicate IsOffset(o: Cell) {
    -1 <= o.x <= 1 && -1 <= o.y <= 1 && -1 <= o.z <= 1 && o != Cell(0, 0, 0)
  }

  lemma OffsetLength(o: Cell, sqrt: Roots)
    requires IsOffset(o) && sqrt(1) == 1.0
    ensures sqrt(SquaredLength(o)) == StepCost(o, sqrt)
  {
    assert forall k: int | -1 <= k <= 1 :: k * k == (if k == 0 then 0 else 1);
  }

  lemma EuclideanStep(a: Cell, o: Cell, goal: Cell, sqrt: Roots)
    requires ExactRoots(sqrt) && IsOffset(o)
    ensures Estimate(a, goal, Euclidean, sqrt) <= StepCost(o, sqrt) + Estimate(Add(a, o), goal, Euclidean, sqrt)
  {
    var back := Cell(-o.x, -o.y, -o.z);
    RootBounds(sqrt);
    OffsetLength(back, sqrt);
    Triangle(back, Sub(Add(a, o), goal), sqrt);
    assert Add(back, Sub(Add(a, o), goal)) == Sub(a, goal);
  }

  lemma EuclideanConsistent(goal: Cell, sqrt: Roots)
    requires ExactRoots(sqrt)
    ensures Consistent(NEIGHBORS_26, Euclidean, goal, sqrt)
  {
    forall a, o | o in NEIGHBORS_26
      ensures Estimate(a, goal, Euclidean, sqrt)
           <= StepCost(o, sqrt) + Estimate(Add(a, o), goal, Euclidean, sqrt)
    {
      EuclideanStep(a, o, goal, sqrt);
    }
  }
}
