/** The three ways of moving that pathfinding.rs offers, as geometry: which cells are one move apart,
  * and how long a walk is. */
module Walks {
  import opened Heuristics

  datatype Gait = Straight | Diagonal | Flying

  /** Neighbouring cells, on the same level unless flying, and without diagonals when going straight. */
  predicate Moves(gait: Gait, a: Cell, b: Cell) {
    && a != b
    && -1 <= b.x - a.x <= 1 && -1 <= b.y - a.y <= 1 && -1 <= b.z - a.z <= 1
    && (gait.Flying? || a.y == b.y)
    && (gait.Straight? ==> a.x == b.x || a.z == b.z)
  }

  ghost predicate IsWalkFrom(gait: Gait, isSolid: Cell -> bool, start: Cell, p: seq<Cell>) {
    && p != [] && p[0] == start
    && (forall i | 0 <= i < |p| :: !isSolid(p[i]))
    && (forall i | 0 <= i < |p| - 1 :: Moves(gait, p[i], p[i + 1]))
  }

  ghost predicate IsWalk(gait: Gait, isSolid: Cell -> bool, start: Cell, goal: Cell, p: seq<Cell>) {
    IsWalkFrom(gait, isSolid, start, p) && p[|p| - 1] == goal
  }

  function Distance(a: Cell, b: Cell, sqrt: Roots): real {
    sqrt(SquaredLength(Sub(b, a)))
  }

  /** The sum of the distances from each cell to the next. */
  function Length(p: seq<Cell>, sqrt: Roots): real {
    if |p| <= 1 then 0.0
    else Length(p[..|p| - 1], sqrt) + Distance(p[|p| - 2], p[|p| - 1], sqrt)
  }

  // ---- the tables and the prices ----

  function Offsets(gait: Gait): seq<Cell> {
    match gait
    case Straight => NEIGHBORS_4
    case Diagonal => NEIGHBORS_8
    case Flying => NEIGHBORS_26
  }

  function Guess(gait: Gait): Heuristic {
    match gait
    case Straight => Manhattan
    case Diagonal => Octile
    case Flying => Euclidean
  }

  /** Each table lists exactly the moves of its gait, each once. */
  lemma OffsetsAreMoves(gait: Gait)
    ensures forall a, o :: o in Offsets(gait) <==> Moves(gait, a, Add(a, o))
    ensures forall i, j | 0 <= i < j < |Offsets(gait)| :: Offsets(gait)[i] != Offsets(gait)[j]
    ensures |Offsets(gait)| <= 26
  {
    hide Offsets;
    match gait
    case Straight => StraightOffsets();
    case Diagonal => DiagonalOffsets();
    case Flying => FlyingOffsets();
  }

  lemma StraightOffsets()
    ensures forall o :: o in Offsets(Straight) <==> Moves(Straight, Cell(0, 0, 0), o)
    ensures forall i, j | 0 <= i < j < |Offsets(Straight)| :: Offsets(Straight)[i] != Offsets(Straight)[j]
    ensures |Offsets(Straight)| <= 26
  {
  }

  lemma DiagonalOffsets()
    ensures forall o :: o in Offsets(Diagonal) <==> Moves(Diagonal, Cell(0, 0, 0), o)
    ensures forall i, j | 0 <= i < j < |Offsets(Diagonal)| :: Offsets(Diagonal)[i] != Offsets(Diagonal)[j]
    ensures |Offsets(Diagonal)| <= 26
  {
  }

  lemma FlyingOffsets()
    ensures forall o :: o in Offsets(Flying) <==> Moves(Flying, Cell(0, 0, 0), o)
    ensures forall i, j | 0 <= i < j < |Offsets(Flying)| :: Offsets(Flying)[i] != Offsets(Flying)[j]
    ensures |Offsets(Flying)| <= 26
  {
  }

  /** What the search pays for a move is its length. */
  lemma MoveCostsItsLength(gait: Gait, a: Cell, b: Cell, sqrt: Roots)
    requires ExactRoots(sqrt) && Moves(gait, a, b)
    ensures StepCost(Sub(b, a), sqrt) == Distance(a, b, sqrt) && 1.0 <= Distance(a, b, sqrt) < 2.0
  {
    RootBounds(sqrt);
    OffsetLength(Sub(b, a), sqrt);
    assert sqrt(2) * sqrt(2) == 2.0 && sqrt(3) * sqrt(3) == 3.0;
  }

  // ---- the estimates on the level are exact ----

  /** Where nothing is in the way, the Manhattan and the octile estimate are the length of a walk; so no
    * larger estimate could be used. */
  lemma {:induction false} EstimateIsWalked(gait: Gait, a: Cell, goal: Cell, sqrt: Roots) returns (p: seq<Cell>)
    requires ExactRoots(sqrt) && !gait.Flying? && a.y == goal.y
    ensures IsWalk(gait, (c: Cell) => false, a, goal, p)
    ensures Length(p, sqrt) == Estimate(a, goal, Guess(gait), sqrt)
    decreases Abs(a.x - goal.x) + Abs(a.z - goal.z)
  {
    if a == goal {
      p := [a];
      EstimateAtGoal(gait, goal, sqrt);
    } else {
      var b := Toward(gait, a, goal);
      var q := EstimateIsWalked(gait, b, goal, sqrt);
      p := [a] + q;
      LengthPrepend(a, q, sqrt);
      MoveCostsItsLength(gait, a, b, sqrt);
      EstimateDrops(gait, a, goal, sqrt);
    }
  }

  /** Across levels the Manhattan estimate adds the difference in height and the octile one ignores it; the
    * Euclidean estimate is the distance. */
  lemma EstimateAcrossLevels(a: Cell, b: Cell, sqrt: Roots)
    requires ExactRoots(sqrt)
    ensures var level := Cell(a.x, b.y, a.z);
            && Estimate(a, b, Manhattan, sqrt) == Estimate(level, b, Manhattan, sqrt) + Abs(a.y - b.y) as real
            && Estimate(a, b, Octile, sqrt) == Estimate(level, b, Octile, sqrt)
    ensures Estimate(a, b, Euclidean, sqrt) == Distance(b, a, sqrt)
    ensures Distance(b, a, sqrt) * Distance(b, a, sqrt)
         == ((a.x - b.x) * (a.x - b.x) + (a.y - b.y) * (a.y - b.y) + (a.z - b.z) * (a.z - b.z)) as real
  {
    SumOfSquares(Sub(a, b));
  }

  function Toward1(from: int, to: int): int {
    if from < to then from + 1 else if from > to then from - 1 else from
  }

  function Toward(gait: Gait, a: Cell, goal: Cell): Cell {
    if gait.Straight? && a.x != goal.x then Cell(Toward1(a.x, goal.x), a.y, a.z)
    else Cell(Toward1(a.x, goal.x), a.y, Toward1(a.z, goal.z))
  }

  lemma EstimateAtGoal(gait: Gait, goal: Cell, sqrt: Roots)
    requires ExactRoots(sqrt)
    ensures Estimate(goal, goal, Guess(gait), sqrt) == 0.0
  {
    if gait.Flying? {
      assert SquaredLength(Sub(goal, goal)) == 0;
      RootOfZero(sqrt);
    } else {
      assert Times(sqrt(2) - 1.0, 0.0) == 0.0;
    }
  }

  lemma RootOfZero(sqrt: Roots)
    requires ExactRoots(sqrt)
    ensures sqrt(0) == 0.0
  {
    SquaresOrderRoots(sqrt(0), 0.0);
  }

  lemma EstimateAtLeastZero(gait: Gait, a: Cell, goal: Cell, sqrt: Roots)
    requires ExactRoots(sqrt)
    ensures Estimate(a, goal, Guess(gait), sqrt) >= 0.0
  {
    if gait.Diagonal? {
      RootBounds(sqrt);
      TimesAtLeastZero(sqrt(2) - 1.0, Abs(a.x - goal.x));
      TimesAtLeastZero(sqrt(2) - 1.0, Abs(a.z - goal.z));
    }
  }

  lemma TimesAtLeastZero(r: real, n: nat)
    requires r >= 0.0
    ensures Times(r, n as real) >= 0.0
  {
  }

  lemma EstimateDrops(gait: Gait, a: Cell, goal: Cell, sqrt: Roots)
    requires !gait.Flying? && a.y == goal.y && a != goal
    ensures var b := Toward(gait, a, goal);
            Estimate(a, goal, Guess(gait), sqrt) == StepCost(Sub(b, a), sqrt) + Estimate(b, goal, Guess(gait), sqrt)
  {
    if gait.Diagonal? {
      var dx, dz := Abs(a.x - goal.x), Abs(a.z - goal.z);
      OctileFalls(dx, dz, sqrt(2) - 1.0);
    }
  }

  function Less(n: nat): nat {
    if n == 0 then 0 else n - 1
  }

  lemma OctileFalls(dx: nat, dz: nat, r: real)
    requires dx > 0 || dz > 0
    ensures OctileLength(dx, dz, r) ==
            (if dx > 0 && dz > 0 then 1.0 + r else 1.0) + OctileLength(Less(dx), Less(dz), r)
  {
    var n := if dx >= dz then dz else dx;
    if n > 0 {
      TimesDropsOne(r, n);
    }
  }

  lemma TimesDropsOne(r: real, n: nat)
    requires n > 0
    ensures Times(r, n as real) == r + Times(r, (n - 1) as real)
  {
    assert n as real == (n - 1) as real + 1.0;
    assert r * ((n - 1) as real + 1.0) == r * (n - 1) as real + r;
  }

  lemma {:induction false} LengthPrepend(c: Cell, p: seq<Cell>, sqrt: Roots)
    requires p != []
    ensures Length([c] + p, sqrt) == Distance(c, p[0], sqrt) + Length(p, sqrt)
    decreases |p|
  {
    var q := [c] + p;
    if |p| == 1 {
      assert q[..1] == [c];
    } else {
      LengthPrepend(c, p[..|p| - 1], sqrt);
      assert q[..|q| - 1] == [c] + p[..|p| - 1];
    }
  }

  /** Every move is at least 1 long. */
  lemma {:induction false} LengthAtLeast(gait: Gait, isSolid: Cell -> bool, start: Cell, p: seq<Cell>, sqrt: Roots)
    requires ExactRoots(sqrt) && IsWalkFrom(gait, isSolid, start, p)
    ensures Length(p, sqrt) >= (|p| - 1) as real
    decreases |p|
  {
    if |p| > 1 {
      LengthAtLeast(gait, isSolid, start, p[..|p| - 1], sqrt);
      assert Moves(gait, p[|p| - 2], p[(|p| - 2) + 1]);
      MoveCostsItsLength(gait, p[|p| - 2], p[|p| - 1], sqrt);
    }
  }
}
