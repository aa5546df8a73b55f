/** The A* search of pathfinding.rs: sound, complete and optimal although closed cells are never
  * reopened and stale heap entries stay behind. */
module Pathfinding {
  import opened Arithmetic
  import opened Wrappers
  import opened Heuristics
  import opened Walks

  /** What a search is given.  `cost` is the price of an offset, `estimate` the heuristic of a cell. */
  datatype Problem = Problem(
    isSolid: Cell -> bool, neighbors: seq<Cell>, start: Cell, goal: Cell,
    cost: Cell -> real, estimate: Cell -> real)

  // ---- paths ----

  ghost predicate IsPath(pb: Problem, p: seq<Cell>) {
    && p != []
    && p[0] == pb.start
    && (forall i | 0 <= i < |p| :: !pb.isSolid(p[i]))
    && (forall i | 0 <= i < |p| - 1 :: Sub(p[i + 1], p[i]) in pb.neighbors)
  }

  ghost predicate IsPathTo(pb: Problem, p: seq<Cell>, n: Cell) {
    IsPath(pb, p) && p[|p| - 1] == n
  }

  ghost predicate IsRoute(pb: Problem, p: seq<Cell>) {
    IsPathTo(pb, p, pb.goal)
  }

  function Cost(pb: Problem, p: seq<Cell>): real {
    if |p| <= 1 then 0.0
    else Cost(pb, p[..|p| - 1]) + pb.cost(Sub(p[|p| - 1], p[|p| - 2]))
  }

  lemma {:induction false} CostPrepend(pb: Problem, c: Cell, p: seq<Cell>)
    requires p != []
    ensures Cost(pb, [c] + p) == pb.cost(Sub(p[0], c)) + Cost(pb, p)
  {
    var q := [c] + p;
    if |p| == 1 {
      assert q[..1] == [c];
    } else {
      CostPrepend(pb, c, p[..|p| - 1]);
      assert q[..|q| - 1] == [c] + p[..|p| - 1];
    }
  }

  ghost predicate NoRepeat(p: seq<Cell>) {
    forall i, j | 0 <= i < j < |p| :: p[i] != p[j]
  }

  // ---- the heap ----

  datatype OpenItem = OpenItem(f: real, tie: nat, pos: Cell)

  /** The order of the binary heap: least f first, then least tie. */
  predicate Before(a: OpenItem, b: OpenItem) {
    a.f < b.f || (a.f == b.f && a.tie <= b.tie)
  }

  lemma {:induction false} LeastExists(open: set<OpenItem>) returns (least: OpenItem)
    requires open != {}
    ensures least in open && forall e | e in open :: Before(least, e)
  {
    var e :| e in open;
    if open == {e} {
      least := e;
    } else {
      var l := LeastExists(open - {e});
      least := if Before(e, l) then e else l;
      assert forall d | d in open :: d == e || d in open - {e};
    }
  }

  method PopLeast(open: set<OpenItem>) returns (item: OpenItem, rest: set<OpenItem>)
    requires open != {}
    ensures item in open && rest == open - {item} && |rest| == |open| - 1
    ensures forall e | e in open :: item.f <= e.f && (item.f == e.f ==> item.tie <= e.tie)
  {
    ghost var least := LeastExists(open);
    item :| item in open && forall e | e in open :: Before(item, e);
    rest := open - {item};
    forall e | e in open
      ensures item.f <= e.f && (item.f == e.f ==> item.tie <= e.tie)
    {
      assert Before(item, e);
    }
  }

  // ---- what the search keeps ----

  type Scores = map<Cell, real>
  type Parents = map<Cell, Cell>

  ghost predicate Priced(pb: Problem) {
    forall o | o in pb.neighbors :: pb.cost(o) >= 1.0
  }

  /** Every scored cell hangs on a closed parent, one step away and exactly one step dearer. */
  ghost predicate Tree(pb: Problem, g: Scores, parent: Parents, closed: set<Cell>) {
    && pb.start in g && g[pb.start] == 0.0
    && pb.start !in parent && g.Keys == parent.Keys + {pb.start}
    && closed <= g.Keys && pb.goal !in closed
    && (forall n | n in g :: !pb.isSolid(n) && g[n] >= 0.0)
    && (forall n | n in parent ::
          && parent[n] in closed
          && Sub(n, parent[n]) in pb.neighbors
          && g[n] == g[parent[n]] + pb.cost(Sub(n, parent[n])))
  }

  ghost predicate HasEntry(open: set<OpenItem>, n: Cell, f: real) {
    exists e :: e in open && e.pos == n && e.f == f
  }

  /** Each open cell has an entry with its current score; an older entry has at least that f. */
  ghost predicate Heap(pb: Problem, g: Scores, closed: set<Cell>, open: set<OpenItem>) {
    && (forall e | e in open :: e.pos in g && e.f >= g[e.pos] + pb.estimate(e.pos))
    && (forall n | n in g && n !in closed :: HasEntry(open, n, g[n] + pb.estimate(n)))
  }

  ghost predicate Relaxed(pb: Problem, g: Scores, closed: set<Cell>, x: Cell, k: nat)
    requires x in g && k <= |pb.neighbors|
  {
    forall i | 0 <= i < k ::
      var y := Add(x, pb.neighbors[i]);
      !pb.isSolid(y) && y !in closed ==> y in g && g[y] <= g[x] + pb.cost(pb.neighbors[i])
  }

  ghost predicate Expanded(pb: Problem, g: Scores, closed: set<Cell>, done: set<Cell>)
    requires done <= g.Keys
  {
    forall x | x in done :: Relaxed(pb, g, closed, x, |pb.neighbors|)
  }

  ghost predicate Optimal(pb: Problem, g: Scores, done: set<Cell>)
    requires done <= g.Keys
  {
    forall n, p | n in done && IsPathTo(pb, p, n) :: g[n] <= Cost(pb, p)
  }

  ghost predicate ConsistentProblem(pb: Problem) {
    forall a, o | o in pb.neighbors :: pb.estimate(a) <= pb.cost(o) + pb.estimate(Add(a, o))
  }

  // ---- the least entry of an open cell carries its optimal score ----

  lemma FirstUnclosed(closed: set<Cell>, p: seq<Cell>) returns (i: nat)
    requires p != [] && p[|p| - 1] !in closed
    ensures i < |p| && p[i] !in closed && forall j | 0 <= j < i :: p[j] in closed
  {
    i := 0;
    while p[i] in closed
      invariant i < |p| && forall j | 0 <= j < i :: p[j] in closed
      decreases |p| - i
    {
      i := i + 1;
    }
  }

  lemma PathPrefix(pb: Problem, p: seq<Cell>, i: nat)
    requires IsPath(pb, p) && i < |p|
    ensures IsPathTo(pb, p[..i + 1], p[i])
  {
  }

  /** The open neighbours of a closed cell have been relaxed from it. */
  lemma RelaxedNeighbour(pb: Problem, g: Scores, closed: set<Cell>, x: Cell, n: Cell)
    requires closed <= g.Keys && Expanded(pb, g, closed, closed)
    requires x in closed && n !in closed && !pb.isSolid(n) && Sub(n, x) in pb.neighbors
    ensures n in g && g[n] <= g[x] + pb.cost(Sub(n, x))
  {
    var k :| 0 <= k < |pb.neighbors| && pb.neighbors[k] == Sub(n, x);
    assert Relaxed(pb, g, closed, x, |pb.neighbors|);
    assert Add(x, pb.neighbors[k]) == n;
  }

  /** The last step of a prefix. */
  lemma PrefixCost(pb: Problem, p: seq<Cell>, i: nat)
    requires IsPath(pb, p) && 0 < i < |p|
    ensures Sub(p[i], p[i - 1]) in pb.neighbors && !pb.isSolid(p[i])
    ensures Cost(pb, p[..i + 1]) == Cost(pb, p[..i]) + pb.cost(Sub(p[i], p[i - 1]))
  {
    assert Sub(p[(i - 1) + 1], p[i - 1]) in pb.neighbors;
    assert p[..i + 1][..i] == p[..i];
  }

  lemma OptimalPrefix(pb: Problem, g: Scores, closed: set<Cell>, p: seq<Cell>, i: nat)
    requires closed <= g.Keys && Optimal(pb, g, closed) && IsPath(pb, p) && i < |p| && p[i] in closed
    ensures g[p[i]] <= Cost(pb, p[..i + 1])
  {
    PathPrefix(pb, p, i);
  }

  /** A path enters the open cells at a cell whose score it cannot undercut. */
  lemma EntryCost(pb: Problem, g: Scores, parent: Parents, closed: set<Cell>, p: seq<Cell>, i: nat)
    requires Tree(pb, g, parent, closed) && Expanded(pb, g, closed, closed) && Optimal(pb, g, closed)
    requires IsPath(pb, p) && i < |p| && p[i] !in closed && (i > 0 ==> p[i - 1] in closed)
    ensures p[i] in g && g[p[i]] <= Cost(pb, p[..i + 1])
  {
    hide Expanded, Optimal, Add, Sub;
    if i > 0 {
      OptimalPrefix(pb, g, closed, p, i - 1);
      PrefixCost(pb, p, i);
      RelaxedNeighbour(pb, g, closed, p[i - 1], p[i]);
    }
  }

  lemma {:induction false} CostAlongPath(pb: Problem, p: seq<Cell>, i: nat, j: nat, f: real)
    requires ConsistentProblem(pb) && IsPath(pb, p) && i <= j < |p|
    requires Cost(pb, p[..i + 1]) + pb.estimate(p[i]) >= f
    ensures Cost(pb, p[..j + 1]) + pb.estimate(p[j]) >= f
    decreases j
  {
    if i < j {
      CostAlongPath(pb, p, i, j - 1, f);
      assert Sub(p[(j - 1) + 1], p[j - 1]) in pb.neighbors;
      assert Add(p[j - 1], Sub(p[j], p[j - 1])) == p[j];
      assert p[..j + 1][..j] == p[..j];
    }
  }

  lemma AlongToEnd(pb: Problem, p: seq<Cell>, i: nat, f: real)
    requires ConsistentProblem(pb) && IsPath(pb, p) && i < |p|
    requires Cost(pb, p[..i + 1]) + pb.estimate(p[i]) >= f
    ensures Cost(pb, p) + pb.estimate(p[|p| - 1]) >= f
  {
    hide Cost, ConsistentProblem;
    CostAlongPath(pb, p, i, |p| - 1, f);
    assert p[..|p|] == p;
  }

  /** The least entry promises no more than the current score of any open cell. */
  lemma EntryBounds(pb: Problem, g: Scores, closed: set<Cell>, open: set<OpenItem>, item: OpenItem, n: Cell)
    requires Heap(pb, g, closed, open) && n in g && n !in closed
    requires item in open && forall e | e in open :: Before(item, e)
    ensures item.f <= g[n] + pb.estimate(n)
  {
    assert HasEntry(open, n, g[n] + pb.estimate(n));
    var e :| e in open && e.pos == n && e.f == g[n] + pb.estimate(n);
    assert Before(item, e);
  }

  /** The least entry promises no more than any path to an open cell. */
  lemma LeastPromise(
    pb: Problem, g: Scores, parent: Parents, closed: set<Cell>, open: set<OpenItem>, item: OpenItem,
    p: seq<Cell>)
    requires ConsistentProblem(pb)
    requires Tree(pb, g, parent, closed) && Heap(pb, g, closed, open)
    requires Expanded(pb, g, closed, closed) && Optimal(pb, g, closed)
    requires item in open && forall e | e in open :: Before(item, e)
    requires IsPath(pb, p) && p[|p| - 1] !in closed
    ensures item.f <= Cost(pb, p) + pb.estimate(p[|p| - 1])
  {
    hide Heap, Expanded, Optimal, ConsistentProblem, Cost, Before;
    var i := FirstUnclosed(closed, p);
    EntryCost(pb, g, parent, closed, p, i);
    EntryBounds(pb, g, closed, open, item, p[i]);
    AlongToEnd(pb, p, i, item.f);
  }

  // ---- an empty heap means every reachable cell is closed ----

  lemma EmptyHeapClosesAll(pb: Problem, g: Scores, closed: set<Cell>)
    requires Heap(pb, g, closed, {})
    ensures forall n | n in g :: n in closed
  {
    forall n | n in g
      ensures n in closed
    {
      assert !HasEntry({}, n, g[n] + pb.estimate(n));
    }
  }

  lemma ClosedStep(pb: Problem, g: Scores, parent: Parents, closed: set<Cell>, p: seq<Cell>)
    requires Tree(pb, g, parent, closed) && Expanded(pb, g, closed, closed)
    requires IsPath(pb, p) && |p| > 1 && p[|p| - 2] in closed
    ensures p[|p| - 1] in g
  {
    var x, n := p[|p| - 2], p[|p| - 1];
    assert Sub(p[(|p| - 2) + 1], p[|p| - 2]) in pb.neighbors;
    var k :| 0 <= k < |pb.neighbors| && pb.neighbors[k] == Sub(n, x);
    assert Relaxed(pb, g, closed, x, |pb.neighbors|);
    assert Add(x, pb.neighbors[k]) == n;
  }

  lemma {:induction false} ReachableIsClosed(
    pb: Problem, g: Scores, parent: Parents, closed: set<Cell>, p: seq<Cell>)
    requires Tree(pb, g, parent, closed) && Heap(pb, g, closed, {}) && Expanded(pb, g, closed, closed)
    requires IsPath(pb, p)
    ensures p[|p| - 1] in closed
    decreases |p|
  {
    EmptyHeapClosesAll(pb, g, closed);
    if |p| > 1 {
      ReachableIsClosed(pb, g, parent, closed, p[..|p| - 1]);
      ClosedStep(pb, g, parent, closed, p);
    }
  }

  ghost predicate Unreachable(pb: Problem) {
    forall p | IsPath(pb, p) :: !IsRoute(pb, p)
  }

  lemma EmptyHeapUnreachable(pb: Problem, g: Scores, parent: Parents, closed: set<Cell>)
    requires Tree(pb, g, parent, closed) && Heap(pb, g, closed, {}) && Expanded(pb, g, closed, closed)
    ensures Unreachable(pb)
  {
    forall p | IsPath(pb, p)
      ensures !IsRoute(pb, p)
    {
      ReachableIsClosed(pb, g, parent, closed, p);
    }
  }

  // ---- the step budget ----

  /** Every cell the search could prefer to going on along route p. */
  ghost predicate Covers(pb: Problem, region: set<Cell>, p: seq<Cell>) {
    forall q | IsPath(pb, q) && Cost(pb, q) + pb.estimate(q[|q| - 1]) <= Cost(pb, p) + pb.estimate(pb.goal) ::
      q[|q| - 1] in region
  }

  /** Each closed cell pushes at most one entry per neighbour and only cells that no route undercuts
    * are closed, so a budget that runs out is no larger than this for any route. */
  ghost predicate BudgetTooSmall(pb: Problem, maxSteps: nat) {
    forall p, region: set<Cell> | IsRoute(pb, p) && Covers(pb, region, p) ::
      maxSteps <= |region| * |pb.neighbors|
  }

  ghost predicate NotBeyond(pb: Problem, g: Scores, closed: set<Cell>)
    requires closed <= g.Keys
  {
    forall p, x | IsRoute(pb, p) && x in closed ::
      g[x] + pb.estimate(x) <= Cost(pb, p) + pb.estimate(pb.goal)
  }

  lemma {:induction false} TreePath(pb: Problem, g: Scores, parent: Parents, closed: set<Cell>, n: Cell)
    returns (p: seq<Cell>)
    requires Priced(pb) && Tree(pb, g, parent, closed) && n in g
    ensures p != [] && IsPathTo(pb, p, n) && Cost(pb, p) == g[n]
    decreases g[n]
  {
    hide Tree, Priced, IsPath;
    TreeEdge(pb, g, parent, closed, n);
    if n == pb.start {
      p := [n];
      StartPath(pb);
    } else {
      var q := TreePath(pb, g, parent, closed, parent[n]);
      p := q + [n];
      PathExtends(pb, q, n);
    }
  }

  lemma TreeEdge(pb: Problem, g: Scores, parent: Parents, closed: set<Cell>, n: Cell)
    requires Priced(pb) && Tree(pb, g, parent, closed) && n in g
    ensures !pb.isSolid(n) && g[n] >= 0.0
    ensures n == pb.start ==> g[n] == 0.0
    ensures n != pb.start ==>
              && n in parent && parent[n] in g && Sub(n, parent[n]) in pb.neighbors
              && g[n] == g[parent[n]] + pb.cost(Sub(n, parent[n])) && g[parent[n]] <= g[n] - 1.0
    ensures n != pb.start ==> g[parent[n]] >= 0.0
  {
  }

  lemma StartPath(pb: Problem)
    requires !pb.isSolid(pb.start)
    ensures IsPath(pb, [pb.start])
  {
  }

  lemma PathExtends(pb: Problem, q: seq<Cell>, n: Cell)
    requires IsPath(pb, q) && q != [] && !pb.isSolid(n) && Sub(n, q[|q| - 1]) in pb.neighbors
    ensures IsPath(pb, q + [n]) && Cost(pb, q + [n]) == Cost(pb, q) + pb.cost(Sub(n, q[|q| - 1]))
  {
    var p := q + [n];
    assert p[..|p| - 1] == q;
  }

  function Pushes(pb: Problem, closed: set<Cell>): nat {
    |closed| * |pb.neighbors|
  }

  lemma PushesOfOneMore(pb: Problem, closed: set<Cell>, x: Cell)
    requires x !in closed
    ensures Pushes(pb, closed + {x}) == Pushes(pb, closed) + |pb.neighbors|
  {
  }

  lemma ClosedIsCovered(
    pb: Problem, g: Scores, parent: Parents, closed: set<Cell>, p: seq<Cell>, region: set<Cell>)
    requires Priced(pb) && Tree(pb, g, parent, closed) && NotBeyond(pb, g, closed)
    requires IsRoute(pb, p) && Covers(pb, region, p)
    ensures closed <= region
  {
    forall x | x in closed
      ensures x in region
    {
      var q := TreePath(pb, g, parent, closed, x);
    }
  }

  lemma BudgetSpent(pb: Problem, g: Scores, parent: Parents, closed: set<Cell>, maxSteps: nat)
    requires Priced(pb) && Tree(pb, g, parent, closed) && NotBeyond(pb, g, closed)
    requires maxSteps <= Pushes(pb, closed)
    ensures BudgetTooSmall(pb, maxSteps)
  {
    forall p, region: set<Cell> | IsRoute(pb, p) && Covers(pb, region, p)
      ensures maxSteps <= |region| * |pb.neighbors|
    {
      ClosedIsCovered(pb, g, parent, closed, p, region);
      SubsetSize(closed, region);
      TimesMonotone(|closed|, |region|, |pb.neighbors|);
    }
  }

  /** A set of cells that no passable step leaves. */
  ghost predicate ClosedRegion(pb: Problem, region: set<Cell>) {
    && pb.start in region
    && forall c, o | c in region && o in pb.neighbors :: !pb.isSolid(Add(c, o)) ==> Add(c, o) in region
  }

  lemma {:induction false} PathsStayInside(pb: Problem, region: set<Cell>, p: seq<Cell>)
    requires ClosedRegion(pb, region) && IsPath(pb, p)
    ensures p[|p| - 1] in region
    decreases |p|
  {
    if |p| > 1 {
      PathsStayInside(pb, region, p[..|p| - 1]);
      assert Sub(p[(|p| - 2) + 1], p[|p| - 2]) in pb.neighbors;
      assert Add(p[|p| - 2], Sub(p[|p| - 1], p[|p| - 2])) == p[|p| - 1];
    }
  }

  /** No enclosed region is small enough for the step budget. */
  ghost predicate RegionsTooLarge(pb: Problem, maxSteps: nat) {
    forall region: set<Cell> | ClosedRegion(pb, region) :: maxSteps <= |region| * |pb.neighbors|
  }

  lemma RegionSpent(pb: Problem, g: Scores, parent: Parents, closed: set<Cell>, maxSteps: nat)
    requires Priced(pb) && Tree(pb, g, parent, closed) && maxSteps <= Pushes(pb, closed)
    ensures RegionsTooLarge(pb, maxSteps)
  {
    forall region: set<Cell> | ClosedRegion(pb, region)
      ensures maxSteps <= |region| * |pb.neighbors|
    {
      forall x | x in closed
        ensures x in region
      {
        var q := TreePath(pb, g, parent, closed, x);
        PathsStayInside(pb, region, q);
      }
      SubsetSize(closed, region);
      TimesMonotone(|closed|, |region|, |pb.neighbors|);
    }
  }

  // ---- following parents back to the start ----

  function Reverse(s: seq<Cell>): (r: seq<Cell>)
    ensures |r| == |s|
  {
    if s == [] then [] else [s[|s| - 1]] + Reverse(s[..|s| - 1])
  }

  lemma ReverseAppend(s: seq<Cell>, c: Cell)
    ensures Reverse(s + [c]) == [c] + Reverse(s)
  {
    assert (s + [c])[..|s|] == s;
  }

  method ReconstructPath(pb: Problem, parent: Parents, ghost g: Scores, ghost closed: set<Cell>)
    returns (nodes: seq<Cell>)
    requires Priced(pb) && Tree(pb, g, parent, closed) && pb.goal in g
    ensures IsRoute(pb, nodes) && NoRepeat(nodes)
    ensures Cost(pb, nodes) == g[pb.goal]
  {
    var visited: seq<Cell> := [pb.goal];
    var current := pb.goal;
    ghost var route := [pb.goal];
    assert Reverse(visited) == route by {
      ReverseAppend([], pb.goal);
    }
    while current != pb.start && current in parent
      invariant route != [] && route[0] == current && route[|route| - 1] == pb.goal
      invariant Reverse(visited) == route
      invariant forall i | 0 <= i < |route| :: route[i] in g
      invariant forall i | 0 <= i < |route| - 1 :: Sub(route[i + 1], route[i]) in pb.neighbors
      invariant forall i, j | 0 <= i < j < |route| :: g[route[i]] < g[route[j]]
      invariant g[current] + Cost(pb, route) == g[pb.goal]
      decreases g[current]
    {
      var prev := parent[current];
      CostPrepend(pb, prev, route);
      ReverseAppend(visited, prev);
      visited := visited + [prev];
      route := [prev] + route;
      current := prev;
    }
    nodes := Reverse(visited);
  }

  // ---- the search ----

  /** The score of a neighbour is lowered: what the search keeps survives. */
  lemma LowerKeepsTree(pb: Problem, g: Scores, parent: Parents, closed: set<Cell>, x: Cell, o: Cell)
    requires Priced(pb) && Tree(pb, g, parent, closed) && x in closed && o in pb.neighbors
    requires Add(x, o) !in closed && !pb.isSolid(Add(x, o))
    requires Add(x, o) in g ==> g[x] + pb.cost(o) < g[Add(x, o)]
    ensures Tree(pb, g[Add(x, o) := g[x] + pb.cost(o)], parent[Add(x, o) := x], closed)
  {
    assert Sub(Add(x, o), x) == o;
  }

  lemma LowerKeepsHeap(
    pb: Problem, g: Scores, closed: set<Cell>, open: set<OpenItem>, y: Cell, score: real, e: OpenItem)
    requires Heap(pb, g, closed, open) && (y in g ==> score < g[y])
    requires e.pos == y && e.f == score + pb.estimate(y)
    ensures Heap(pb, g[y := score], closed, open + {e})
  {
    forall n | n in g[y := score] && n !in closed
      ensures HasEntry(open + {e}, n, g[y := score][n] + pb.estimate(n))
    {
      if n == y {
        assert e in open + {e};
      } else {
        assert HasEntry(open, n, g[n] + pb.estimate(n));
        var d :| d in open && d.pos == n && d.f == g[n] + pb.estimate(n);
        assert d in open + {e};
      }
    }
  }

  lemma LowerKeepsRelaxed(
    pb: Problem, g: Scores, closed: set<Cell>, x: Cell, k: nat, y: Cell, score: real)
    requires x in g && x in closed && k <= |pb.neighbors| && Relaxed(pb, g, closed, x, k)
    requires y !in closed && (y in g ==> score < g[y])
    ensures Relaxed(pb, g[y := score], closed, x, k)
  {
  }

  lemma LowerKeepsExpanded(
    pb: Problem, g: Scores, closed: set<Cell>, done: set<Cell>, y: Cell, score: real)
    requires done <= closed <= g.Keys && Expanded(pb, g, closed, done)
    requires y !in closed && (y in g ==> score < g[y])
    ensures Expanded(pb, g[y := score], closed, done)
  {
    forall x | x in done
      ensures Relaxed(pb, g[y := score], closed, x, |pb.neighbors|)
    {
      LowerKeepsRelaxed(pb, g, closed, x, |pb.neighbors|, y, score);
    }
  }

  lemma RelaxedNone(pb: Problem, g: Scores, closed: set<Cell>, x: Cell)
    requires x in g
    ensures Relaxed(pb, g, closed, x, 0)
  {
  }

  lemma RelaxedNext(pb: Problem, g: Scores, closed: set<Cell>, x: Cell, k: nat)
    requires x in g && k < |pb.neighbors| && Relaxed(pb, g, closed, x, k)
    requires var y := Add(x, pb.neighbors[k]);
             !pb.isSolid(y) && y !in closed ==> y in g && g[y] <= g[x] + pb.cost(pb.neighbors[k])
    ensures Relaxed(pb, g, closed, x, k + 1)
  {
  }

  lemma ExpandedWith(pb: Problem, g: Scores, closed: set<Cell>, x: Cell)
    requires closed <= g.Keys && x in closed && Relaxed(pb, g, closed, x, |pb.neighbors|)
    requires Expanded(pb, g, closed, closed - {x})
    ensures Expanded(pb, g, closed, closed)
  {
  }

  /** The body of the loop over the neighbours of a freshly closed cell. */
  method Expand(pb: Problem, x: Cell, g: Scores, parent: Parents, closed: set<Cell>,
                open: set<OpenItem>, tie: nat)
    returns (g': Scores, parent': Parents, open': set<OpenItem>, tie': nat)
    requires Priced(pb) && x in closed && closed <= g.Keys
    requires Tree(pb, g, parent, closed) && Heap(pb, g, closed, open)
    requires Expanded(pb, g, closed, closed - {x}) && forall e | e in open :: e.tie <= tie
    ensures Tree(pb, g', parent', closed) && closed <= g'.Keys
    ensures Heap(pb, g', closed, open')
    ensures Expanded(pb, g', closed, closed) && forall e | e in open' :: e.tie <= tie'
    ensures forall c | c in closed :: g'[c] == g[c]
    ensures |open'| <= |open| + |pb.neighbors|
  {
    hide Tree, Heap, Expanded, Relaxed;
    g', parent', open', tie' := g, parent, open, tie;
    RelaxedNone(pb, g, closed, x);
    for k := 0 to |pb.neighbors|
      invariant Tree(pb, g', parent', closed) && closed <= g'.Keys
      invariant Heap(pb, g', closed, open')
      invariant Expanded(pb, g', closed, closed - {x})
      invariant Relaxed(pb, g', closed, x, k)
      invariant forall e | e in open' :: e.tie <= tie'
      invariant forall c | c in closed :: g'[c] == g[c]
      invariant |open'| <= |open| + k
    {
      var o := pb.neighbors[k];
      var next := Add(x, o);
      if !pb.isSolid(next) && next !in closed {
        var tentative := g'[x] + pb.cost(o);
        if next !in g' || tentative < g'[next] {
          tie' := tie' + 1;
          var item := OpenItem(tentative + pb.estimate(next), tie', next);
          LowerKeepsTree(pb, g', parent', closed, x, o);
          LowerKeepsHeap(pb, g', closed, open', next, tentative, item);
          LowerKeepsRelaxed(pb, g', closed, x, k, next, tentative);
          LowerKeepsExpanded(pb, g', closed, closed - {x}, next, tentative);
          g' := g'[next := tentative];
          parent' := parent'[next := x];
          open' := open' + {item};
        }
      }
      RelaxedNext(pb, g', closed, x, k);
    }
    ExpandedWith(pb, g', closed, x);
  }

  lemma PoppedIsScored(pb: Problem, g: Scores, closed: set<Cell>, open: set<OpenItem>, item: OpenItem)
    requires Heap(pb, g, closed, open) && item in open
    ensures item.pos in g
  {
  }

  lemma CloseKeepsExpanded(pb: Problem, g: Scores, closed: set<Cell>, x: Cell)
    requires closed <= g.Keys && x in g && x !in closed && Expanded(pb, g, closed, closed)
    ensures Expanded(pb, g, closed + {x}, (closed + {x}) - {x})
  {
    forall c | c in (closed + {x}) - {x}
      ensures Relaxed(pb, g, closed + {x}, c, |pb.neighbors|)
    {
      assert Relaxed(pb, g, closed, c, |pb.neighbors|);
    }
  }

  lemma CloseKeepsHeap(
    pb: Problem, g: Scores, closed: set<Cell>, open: set<OpenItem>, item: OpenItem, done: set<Cell>)
    requires Heap(pb, g, closed, open) && closed <= done && item.pos in done
    ensures Heap(pb, g, done, open - {item})
  {
    forall n | n in g && n !in done
      ensures HasEntry(open - {item}, n, g[n] + pb.estimate(n))
    {
      assert HasEntry(open, n, g[n] + pb.estimate(n));
      var d :| d in open && d.pos == n && d.f == g[n] + pb.estimate(n);
      assert d in open - {item};
    }
  }

  lemma CloseKeepsTree(pb: Problem, g: Scores, parent: Parents, closed: set<Cell>, x: Cell)
    requires Tree(pb, g, parent, closed) && x in g && x != pb.goal
    ensures Tree(pb, g, parent, closed + {x})
  {
  }

  ghost predicate Cheapest(pb: Problem, nodes: seq<Cell>) {
    forall p | IsRoute(pb, p) :: Cost(pb, nodes) <= Cost(pb, p)
  }

  lemma CloseKeepsOptimal(
    pb: Problem, g: Scores, parent: Parents, closed: set<Cell>, open: set<OpenItem>, item: OpenItem)
    requires ConsistentProblem(pb)
    requires Tree(pb, g, parent, closed) && Heap(pb, g, closed, open)
    requires Expanded(pb, g, closed, closed) && Optimal(pb, g, closed)
    requires item in open && item.pos !in closed && forall e | e in open :: Before(item, e)
    ensures Optimal(pb, g, closed + {item.pos})
  {
    forall p | IsPathTo(pb, p, item.pos)
      ensures g[item.pos] <= Cost(pb, p)
    {
      LeastPromise(pb, g, parent, closed, open, item, p);
    }
  }

  lemma CloseKeepsNotBeyond(
    pb: Problem, g: Scores, parent: Parents, closed: set<Cell>, open: set<OpenItem>, item: OpenItem)
    requires ConsistentProblem(pb) && Tree(pb, g, parent, closed) && Heap(pb, g, closed, open)
    requires NotBeyond(pb, g, closed)
    requires Expanded(pb, g, closed, closed) && Optimal(pb, g, closed)
    requires item in open && forall e | e in open :: Before(item, e)
    ensures NotBeyond(pb, g, closed + {item.pos})
  {
    forall p | IsRoute(pb, p)
      ensures g[item.pos] + pb.estimate(item.pos) <= Cost(pb, p) + pb.estimate(pb.goal)
    {
      LeastPromise(pb, g, parent, closed, open, item, p);
    }
  }

  lemma SameScoresOptimal(pb: Problem, g: Scores, g': Scores, done: set<Cell>)
    requires done <= g.Keys && done <= g'.Keys && (forall c | c in done :: g'[c] == g[c])
    requires Optimal(pb, g, done) && NotBeyond(pb, g, done)
    ensures Optimal(pb, g', done) && NotBeyond(pb, g', done)
  {
  }

  lemma GoalScoreIsCheapest(pb: Problem, g: Scores, done: set<Cell>, nodes: seq<Cell>)
    requires done <= g.Keys && Optimal(pb, g, done) && pb.goal in done && Cost(pb, nodes) == g[pb.goal]
    ensures Cheapest(pb, nodes)
  {
  }

  lemma SolidEndpoint(pb: Problem)
    requires pb.isSolid(pb.start) || pb.isSolid(pb.goal)
    ensures Unreachable(pb)
  {
  }

  lemma StartKeeps(pb: Problem)
    requires !pb.isSolid(pb.start)
    ensures Tree(pb, map[pb.start := 0.0], map[], {})
    ensures Heap(pb, map[pb.start := 0.0], {}, {OpenItem(pb.estimate(pb.start), 0, pb.start)})
    ensures Expanded(pb, map[pb.start := 0.0], {}, {}) && Optimal(pb, map[pb.start := 0.0], {})
    ensures NotBeyond(pb, map[pb.start := 0.0], {})
  {
    assert OpenItem(pb.estimate(pb.start), 0, pb.start) in {OpenItem(pb.estimate(pb.start), 0, pb.start)};
  }

  /** A route that is returned is a cheapest one when the heuristic is consistent.  Whatever the
    * heuristic, None before the budget is spent means that there is no route; a spent budget is no
    * larger than any enclosed region allows, nor, for a consistent heuristic, than any route does. */
  method AStarWith(pb: Problem, maxSteps: nat) returns (r: Option<seq<Cell>>, ghost steps: nat)
    requires Priced(pb)
    ensures steps <= maxSteps
    ensures r.None? && steps < maxSteps ==> Unreachable(pb)
    ensures r.None? ==> Unreachable(pb) || RegionsTooLarge(pb, maxSteps)
    ensures r.Some? ==> IsRoute(pb, r.value) && NoRepeat(r.value)
    ensures r.Some? && ConsistentProblem(pb) ==> Cheapest(pb, r.value)
    ensures r.None? && ConsistentProblem(pb) ==> Unreachable(pb) || BudgetTooSmall(pb, maxSteps)
  {
    hide Pushes, BudgetTooSmall, RegionsTooLarge, Unreachable, Heap, Expanded, Optimal, NotBeyond, Tree, IsRoute,
         Cheapest, ConsistentProblem;
    if pb.isSolid(pb.start) || pb.isSolid(pb.goal) {
      SolidEndpoint(pb);
      return None, 0;
    }
    var g: Scores := map[pb.start := 0.0];
    var parent: Parents := map[];
    var closed: set<Cell> := {};
    var open := {OpenItem(pb.estimate(pb.start), 0, pb.start)};
    var tie: nat, count: nat := 1, 0;
    StartKeeps(pb);
    while open != {}
      invariant Tree(pb, g, parent, closed) && closed <= g.Keys && pb.goal !in closed
      invariant Heap(pb, g, closed, open)
      invariant Expanded(pb, g, closed, closed)
      invariant ConsistentProblem(pb) ==> Optimal(pb, g, closed) && NotBeyond(pb, g, closed)
      invariant forall e | e in open :: e.tie <= tie
      invariant count <= maxSteps
      invariant count + |open| <= 1 + Pushes(pb, closed)
      decreases maxSteps - count
    {
      var item, rest := PopLeast(open);
      PoppedIsScored(pb, g, closed, open, item);
      if count >= maxSteps {
        RegionSpent(pb, g, parent, closed, maxSteps);
        if ConsistentProblem(pb) {
          BudgetSpent(pb, g, parent, closed, maxSteps);
        }
        return None, count;
      }
      count := count + 1;
      if item.pos == pb.goal {
        var nodes := ReconstructPath(pb, parent, g, closed);
        if ConsistentProblem(pb) {
          CloseKeepsOptimal(pb, g, parent, closed, open, item);
          GoalScoreIsCheapest(pb, g, closed + {item.pos}, nodes);
        }
        return Some(nodes), count;
      }
      if item.pos in closed {
        CloseKeepsHeap(pb, g, closed, open, item, closed);
        open := rest;
      } else {
        if ConsistentProblem(pb) {
          CloseKeepsOptimal(pb, g, parent, closed, open, item);
          CloseKeepsNotBeyond(pb, g, parent, closed, open, item);
        }
        CloseKeepsTree(pb, g, parent, closed, item.pos);
        CloseKeepsExpanded(pb, g, closed, item.pos);
        CloseKeepsHeap(pb, g, closed, open, item, closed + {item.pos});
        PushesOfOneMore(pb, closed, item.pos);
        closed := closed + {item.pos};
        ghost var before := g;
        g, parent, open, tie := Expand(pb, item.pos, g, parent, closed, rest, tie);
        if ConsistentProblem(pb) {
          SameScoresOptimal(pb, before, g, closed);
        }
      }
    }
    EmptyHeapUnreachable(pb, g, parent, closed);
    return None, count;
  }

  // ---- the four generators ----

  function Search(
    start: Cell, goal: Cell, isSolid: Cell -> bool, neighbors: seq<Cell>, kind: Heuristic, sqrt: Roots)
    : Problem
  {
    Problem(isSolid, neighbors, start, goal, o => StepCost(o, sqrt), a => Estimate(a, goal, kind, sqrt))
  }

  lemma SearchIsConsistent(
    start: Cell, goal: Cell, isSolid: Cell -> bool, neighbors: seq<Cell>, kind: Heuristic, sqrt: Roots)
    requires ExactRoots(sqrt) && Consistent(neighbors, kind, goal, sqrt)
    ensures var pb := Search(start, goal, isSolid, neighbors, kind, sqrt);
            Priced(pb) && ConsistentProblem(pb)
  {
    var pb := Search(start, goal, isSolid, neighbors, kind, sqrt);
    forall o | o in neighbors
      ensures pb.cost(o) >= 1.0
    {
      StepCostAtLeastOne(o, sqrt);
    }
  }

  /** A cheapest route that repeats no cell, or none because there is none or the budget is small. */
  ghost predicate Solves(pb: Problem, maxSteps: nat, r: Option<seq<Cell>>) {
    match r
    case Some(nodes) => IsRoute(pb, nodes) && NoRepeat(nodes) && Cheapest(pb, nodes)
    case None => Unreachable(pb) || BudgetTooSmall(pb, maxSteps)
  }

  /** The search of a gait. */
  function Journey(gait: Gait, start: Cell, goal: Cell, isSolid: Cell -> bool, sqrt: Roots): Problem {
    Search(start, goal, isSolid, Offsets(gait), Guess(gait), sqrt)
  }

  /** A shortest walk that repeats no cell; or none, and then for every walk to the goal the budget is no
    * larger than the cells within its length allow.  Neither tables nor estimates are mentioned. */
  ghost predicate Guides(
    gait: Gait, start: Cell, goal: Cell, isSolid: Cell -> bool, maxSteps: nat, sqrt: Roots, r: Option<seq<Cell>>)
  {
    match r
    case Some(nodes) =>
      && IsWalk(gait, isSolid, start, goal, nodes) && NoRepeat(nodes)
      && forall p | IsWalk(gait, isSolid, start, goal, p) :: Length(nodes, sqrt) <= Length(p, sqrt)
    case None =>
      forall p, region: set<Cell> | IsWalk(gait, isSolid, start, goal, p)
                                    && Within(gait, isSolid, start, Length(p, sqrt), region, sqrt) ::
        maxSteps <= |region| * 26
  }

  /** Every walk of at most this length ends in the region. */
  ghost predicate Within(
    gait: Gait, isSolid: Cell -> bool, start: Cell, length: real, region: set<Cell>, sqrt: Roots)
  {
    forall q | IsWalkFrom(gait, isSolid, start, q) && Length(q, sqrt) <= length :: q[|q| - 1] in region
  }

  lemma MoveIffOffset(gait: Gait, a: Cell, b: Cell)
    ensures Sub(b, a) in Offsets(gait) <==> Moves(gait, a, b)
  {
    OffsetsAreMoves(gait);
    assert Add(a, Sub(b, a)) == b;
  }

  lemma PathIffWalk(
    gait: Gait, start: Cell, goal: Cell, isSolid: Cell -> bool, sqrt: Roots, p: seq<Cell>)
    ensures var pb := Journey(gait, start, goal, isSolid, sqrt);
            && (IsPath(pb, p) <==> IsWalkFrom(gait, isSolid, start, p))
            && (IsRoute(pb, p) <==> IsWalk(gait, isSolid, start, goal, p))
  {
    forall i | 0 <= i < |p| - 1
      ensures Sub(p[i + 1], p[i]) in Offsets(gait) <==> Moves(gait, p[i], p[i + 1])
    {
      MoveIffOffset(gait, p[i], p[i + 1]);
    }
    hide Moves, Offsets;
  }

  lemma {:induction false} CostIsLength(
    gait: Gait, start: Cell, goal: Cell, isSolid: Cell -> bool, sqrt: Roots, p: seq<Cell>)
    requires ExactRoots(sqrt) && IsWalkFrom(gait, isSolid, start, p)
    ensures Cost(Journey(gait, start, goal, isSolid, sqrt), p) == Length(p, sqrt)
    decreases |p|
  {
    hide Moves, Offsets, ExactRoots, StepCost, Distance;
    if |p| > 1 {
      CostIsLength(gait, start, goal, isSolid, sqrt, p[..|p| - 1]);
      assert Moves(gait, p[|p| - 2], p[(|p| - 2) + 1]);
      MoveCostsItsLength(gait, p[|p| - 2], p[|p| - 1], sqrt);
    }
  }

  lemma JourneyIsConsistent(gait: Gait, start: Cell, goal: Cell, isSolid: Cell -> bool, sqrt: Roots)
    requires ExactRoots(sqrt)
    ensures Priced(Journey(gait, start, goal, isSolid, sqrt))
    ensures ConsistentProblem(Journey(gait, start, goal, isSolid, sqrt))
  {
    hide Consistent, ExactRoots, Priced, ConsistentProblem;
    match gait {
      case Straight => ManhattanConsistent(goal, sqrt);
      case Diagonal => OctileConsistent(goal, sqrt);
      case Flying => EuclideanConsistent(goal, sqrt);
    }
    SearchIsConsistent(start, goal, isSolid, Offsets(gait), Guess(gait), sqrt);
  }

  /** What solves the search of a gait guides along its walks. */
  lemma SolvingGuides(
    gait: Gait, start: Cell, goal: Cell, isSolid: Cell -> bool, maxSteps: nat, sqrt: Roots, r: Option<seq<Cell>>)
    requires ExactRoots(sqrt) && Solves(Journey(gait, start, goal, isSolid, sqrt), maxSteps, r)
    ensures Guides(gait, start, goal, isSolid, maxSteps, sqrt, r)
  {
    hide ExactRoots, IsRoute, IsPath, IsWalk, IsWalkFrom, Cost, Length, Estimate, StepCost;
    var pb := Journey(gait, start, goal, isSolid, sqrt);
    forall p
      ensures IsRoute(pb, p) <==> IsWalk(gait, isSolid, start, goal, p)
      ensures IsWalk(gait, isSolid, start, goal, p) ==> Cost(pb, p) == Length(p, sqrt)
    {
      PathIffWalk(gait, start, goal, isSolid, sqrt, p);
      WalkStarts(gait, isSolid, start, goal, p);
      if IsWalkFrom(gait, isSolid, start, p) {
        CostIsLength(gait, start, goal, isSolid, sqrt, p);
      }
    }
    if r.None? {
      forall p, region: set<Cell> | IsWalk(gait, isSolid, start, goal, p)
                                    && Within(gait, isSolid, start, Length(p, sqrt), region, sqrt)
        ensures maxSteps <= |region| * 26
      {
        WithinCovers(gait, start, goal, isSolid, sqrt, p, region);
        OffsetsAreMoves(gait);
        PathIffWalk(gait, start, goal, isSolid, sqrt, p);
        WalkStarts(gait, isSolid, start, goal, p);
        assert IsPath(pb, p) && IsRoute(pb, p);
        assert maxSteps <= |region| * |pb.neighbors|;
        TimesMonotone(|pb.neighbors|, 26, |region|);
      }
    }
  }

  lemma WalkStarts(gait: Gait, isSolid: Cell -> bool, start: Cell, goal: Cell, p: seq<Cell>)
    ensures IsWalk(gait, isSolid, start, goal, p) ==> IsWalkFrom(gait, isSolid, start, p)
  {
  }

  lemma WithinCovers(
    gait: Gait, start: Cell, goal: Cell, isSolid: Cell -> bool, sqrt: Roots, p: seq<Cell>, region: set<Cell>)
    requires ExactRoots(sqrt) && IsWalk(gait, isSolid, start, goal, p)
    requires Within(gait, isSolid, start, Length(p, sqrt), region, sqrt)
    ensures Covers(Journey(gait, start, goal, isSolid, sqrt), region, p)
  {
    hide ExactRoots, IsPath, IsRoute, Cost, Length, Estimate, StepCost, Moves, Offsets;
    var pb := Journey(gait, start, goal, isSolid, sqrt);
    CostIsLength(gait, start, goal, isSolid, sqrt, p);
    EstimateAtGoal(gait, goal, sqrt);
    forall q | IsPath(pb, q) && q != [] && Cost(pb, q) + pb.estimate(q[|q| - 1]) <= Cost(pb, p) + pb.estimate(pb.goal)
      ensures q[|q| - 1] in region
    {
      PathIffWalk(gait, start, goal, isSolid, sqrt, q);
      CostIsLength(gait, start, goal, isSolid, sqrt, q);
      EstimateAtLeastZero(gait, q[|q| - 1], goal, sqrt);
    }
    forall q | IsPath(pb, q)
      ensures q != []
    {
      PathIffWalk(gait, start, goal, isSolid, sqrt, q);
    }
  }

  method Find(gait: Gait, start: Cell, goal: Cell, isSolid: Cell -> bool, maxSteps: nat, sqrt: Roots)
    returns (r: Option<seq<Cell>>)
    requires ExactRoots(sqrt)
    ensures Solves(Journey(gait, start, goal, isSolid, sqrt), maxSteps, r)
    ensures Guides(gait, start, goal, isSolid, maxSteps, sqrt, r)
  {
    hide ExactRoots, Guides, Priced, ConsistentProblem, Journey, Cheapest, IsRoute, Unreachable, BudgetTooSmall;
    JourneyIsConsistent(gait, start, goal, isSolid, sqrt);
    ghost var steps;
    r, steps := AStarWith(Journey(gait, start, goal, isSolid, sqrt), maxSteps);
    SolvingGuides(gait, start, goal, isSolid, maxSteps, sqrt, r);
  }

  method AStar(start: Cell, goal: Cell, isSolid: Cell -> bool, maxSteps: nat, sqrt: Roots)
    returns (r: Option<seq<Cell>>)
    requires ExactRoots(sqrt)
    ensures Guides(Diagonal, start, goal, isSolid, maxSteps, sqrt, r)
    ensures Solves(Search(start, goal, isSolid, NEIGHBORS_8, Octile, sqrt), maxSteps, r)
  {
    hide ExactRoots, Guides, Solves;
    r := Find(Diagonal, start, goal, isSolid, maxSteps, sqrt);
  }

  method GroundNodeGenerate(start: Cell, goal: Cell, isSolid: Cell -> bool, sqrt: Roots)
    returns (r: Option<seq<Cell>>)
    requires ExactRoots(sqrt)
    ensures Guides(Straight, start, goal, isSolid, 4096, sqrt, r)
    ensures Solves(Search(start, goal, isSolid, NEIGHBORS_4, Manhattan, sqrt), MAX_STEPS, r)
  {
    hide ExactRoots, Guides, Solves;
    r := Find(Straight, start, goal, isSolid, MAX_STEPS, sqrt);
  }

  method FlyingNodeGenerate(start: Cell, goal: Cell, isSolid: Cell -> bool, sqrt: Roots)
    returns (r: Option<seq<Cell>>)
    requires ExactRoots(sqrt)
    ensures Guides(Flying, start, goal, isSolid, 4096, sqrt, r)
    ensures Solves(Search(start, goal, isSolid, NEIGHBORS_26, Euclidean, sqrt), MAX_STEPS, r)
  {
    hide ExactRoots, Guides, Solves;
    r := Find(Flying, start, goal, isSolid, MAX_STEPS, sqrt);
  }

  function Reach(c: Cell): set<Cell> {
    Shifts(c, NEIGHBORS_26)
  }

  function Shifts(c: Cell, offsets: seq<Cell>): set<Cell> {
    set i | 0 <= i < |offsets| :: Add(c, offsets[i])
  }

  lemma {:induction false} ShiftsSize(c: Cell, offsets: seq<Cell>)
    ensures |Shifts(c, offsets)| <= |offsets|
  {
    if offsets != [] {
      var rest := offsets[..|offsets| - 1];
      ShiftsSize(c, rest);
      assert Shifts(c, offsets) == Shifts(c, rest) + {Add(c, offsets[|offsets| - 1])};
    }
  }

  lemma ReachSize(c: Cell)
    ensures |{c} + Reach(c)| <= 27
  {
    hide Shifts;
    ShiftsSize(c, NEIGHBORS_26);
  }

  /** Two passable cells that are one move apart are joined by that move, given a budget above 702 steps. */
  lemma OneMoveIsFound(
    gait: Gait, start: Cell, goal: Cell, isSolid: Cell -> bool, maxSteps: nat, sqrt: Roots, r: Option<seq<Cell>>)
    requires ExactRoots(sqrt) && Guides(gait, start, goal, isSolid, maxSteps, sqrt, r)
    requires Moves(gait, start, goal) && !isSolid(start) && !isSolid(goal) && maxSteps > 702
    ensures r == Some([start, goal])
  {
    hide ExactRoots, NoRepeat, IsWalk, IsWalkFrom, Length, Within, Reach, Moves;
    var p := [start, goal];
    OneMoveIsWalk(gait, start, goal, isSolid, sqrt);
    WithinReach(gait, start, isSolid, Length(p, sqrt), sqrt);
    ReachSize(start);
    TimesMonotone(|{start} + Reach(start)|, 27, 26);
    ShortWalk(gait, isSolid, start, goal, r.value, sqrt);
  }

  lemma OneMoveIsWalk(gait: Gait, start: Cell, goal: Cell, isSolid: Cell -> bool, sqrt: Roots)
    requires ExactRoots(sqrt) && Moves(gait, start, goal) && !isSolid(start) && !isSolid(goal)
    ensures IsWalk(gait, isSolid, start, goal, [start, goal]) && Length([start, goal], sqrt) < 2.0 && start != goal
  {
    hide ExactRoots;
    var p := [start, goal];
    MoveCostsItsLength(gait, start, goal, sqrt);
    assert p[..1] == [start];
  }

  lemma WithinReach(gait: Gait, start: Cell, isSolid: Cell -> bool, length: real, sqrt: Roots)
    requires ExactRoots(sqrt) && length < 2.0
    ensures Within(gait, isSolid, start, length, {start} + Reach(start), sqrt)
  {
    hide ExactRoots, Reach, Moves, IsWalkFrom, Length;
    forall q | IsWalkFrom(gait, isSolid, start, q) && Length(q, sqrt) <= length
      ensures q != [] && q[|q| - 1] in {start} + Reach(start)
    {
      ShortWalkReaches(gait, isSolid, start, q, sqrt);
    }
  }

  lemma ShortWalk(gait: Gait, isSolid: Cell -> bool, start: Cell, goal: Cell, q: seq<Cell>, sqrt: Roots)
    requires ExactRoots(sqrt) && IsWalk(gait, isSolid, start, goal, q) && Length(q, sqrt) < 2.0 && start != goal
    ensures q == [start, goal]
  {
    LengthAtLeast(gait, isSolid, start, q, sqrt);
  }

  lemma ShortWalkReaches(gait: Gait, isSolid: Cell -> bool, start: Cell, q: seq<Cell>, sqrt: Roots)
    requires ExactRoots(sqrt) && IsWalkFrom(gait, isSolid, start, q) && Length(q, sqrt) < 2.0
    ensures q != [] && q[|q| - 1] in {start} + Reach(start)
  {
    hide Reach;
    LengthAtLeast(gait, isSolid, start, q, sqrt);
    if |q| == 2 {
      assert Moves(gait, q[0], q[0 + 1]);
      MoveReaches(gait, q[0], q[1]);
    }
  }

  lemma MoveReaches(gait: Gait, a: Cell, b: Cell)
    requires Moves(gait, a, b)
    ensures b in Reach(a)
  {
    MoveIffOffset(Flying, a, b);
    var i :| 0 <= i < |NEIGHBORS_26| && NEIGHBORS_26[i] == Sub(b, a);
    assert Add(a, NEIGHBORS_26[i]) == b;
  }

  /** Completeness for a caller who knows how many cells are enclosed with the start. */
  lemma FoundIffReachable(pb: Problem, maxSteps: nat, r: Option<seq<Cell>>, region: set<Cell>)
    requires Solves(pb, maxSteps, r)
    requires ClosedRegion(pb, region) && maxSteps > |region| * |pb.neighbors|
    ensures r.Some? <==> exists p :: IsRoute(pb, p)
  {
    if p :| IsRoute(pb, p) {
      forall q | IsPath(pb, q)
        ensures q[|q| - 1] in region
      {
        PathsStayInside(pb, region, q);
      }
      assert Covers(pb, region, p);
    }
  }

  function Box(c: Cell, k: nat): set<Cell> {
    set x, y, z | c.x - k <= x <= c.x + k && c.y - k <= y <= c.y + k && c.z - k <= z <= c.z + k :: Cell(x, y, z)
  }

  lemma {:induction false} PathsStayInBox(pb: Problem, p: seq<Cell>)
    requires Priced(pb) && (forall o | o in pb.neighbors :: IsOffset(o)) && IsPath(pb, p)
    ensures p[|p| - 1] in Box(pb.start, |p| - 1) && Cost(pb, p) >= (|p| - 1) as real
    decreases |p|
  {
    if |p| > 1 {
      PathsStayInBox(pb, p[..|p| - 1]);
      assert Sub(p[(|p| - 2) + 1], p[|p| - 2]) in pb.neighbors;
    }
  }

  /** Even in an unbounded world a route of finite cost is found once the budget is large enough. */
  lemma SomeBudgetFindsTheRoute(pb: Problem, p: seq<Cell>, k: nat, maxSteps: nat, r: Option<seq<Cell>>)
    requires Priced(pb) && (forall o | o in pb.neighbors :: IsOffset(o)) && IsRoute(pb, p)
    requires (forall c :: pb.estimate(c) >= 0.0) && Cost(pb, p) + pb.estimate(pb.goal) <= k as real
    requires Solves(pb, maxSteps, r) && maxSteps > |Box(pb.start, k)| * |pb.neighbors|
    ensures r.Some?
  {
    forall q | IsPath(pb, q) && Cost(pb, q) + pb.estimate(q[|q| - 1]) <= Cost(pb, p) + pb.estimate(pb.goal)
      ensures q[|q| - 1] in Box(pb.start, k)
    {
      PathsStayInBox(pb, q);
    }
    assert Covers(pb, Box(pb.start, k), p);
  }
}
