/** In which order a schedule runs its systems, and what happens between them. */
module ScheduleRuns {
  import opened Schedules
  import opened Sorting

  /** Where the p-th system of the order stands among the layers. */
  lemma {:induction false} FlattenAt(groups: seq<seq<nat>>, p: nat) returns (k: nat, i: nat)
    requires p < |Flatten(groups)|
    ensures k < |groups| && i < |groups[k]| && groups[k][i] == Flatten(groups)[p]
    ensures p == |Flatten(groups[..k])| + i
  {
    var front := groups[..|groups| - 1];
    if p < |Flatten(front)| {
      k, i := FlattenAt(front, p);
      assert front[..k] == groups[..k];
    } else {
      k, i := |groups| - 1, p - |Flatten(front)|;
    }
  }

  lemma {:induction false} FlattenGrows(groups: seq<seq<nat>>, k: nat, m: nat)
    requires k < m <= |groups|
    ensures |Flatten(groups[..k])| + |groups[k]| <= |Flatten(groups[..m])|
  {
    assert groups[..m][..m - 1] == groups[..m - 1];
    if k < m - 1 {
      FlattenGrows(groups, k, m - 1);
    }
  }

  /** What comes earlier is in an earlier layer, or further ahead in the same one. */
  lemma EarlierPlace(groups: seq<seq<nat>>, p: nat, q: nat, k: nat, i: nat, m: nat, j: nat)
    requires p < q && k < |groups| && i < |groups[k]| && m < |groups| && j < |groups[m]|
    requires p == |Flatten(groups[..k])| + i && q == |Flatten(groups[..m])| + j
    ensures k < m || (k == m && i < j)
  {
    if m < k {
      FlattenGrows(groups, m, k);
    }
  }

  /** The order of a schedule is determined: by the longest dependency chain first and by registration
    * second; what is on or behind a cycle comes last, by registration. */
  lemma OrderIsDetermined(n: nat, edges: seq<Edge>, groups: seq<seq<nat>>, p: nat, q: nat)
    requires IsLayering(n, edges, groups) && p < q < |Flatten(groups)|
    ensures var i, j := Flatten(groups)[p], Flatten(groups)[q];
            && i != j && (Stuck(edges, i) ==> Stuck(edges, j) && i < j)
            && forall k: nat, m: nat | LongestChain(edges, i, k) && LongestChain(edges, j, m) ::
                 k < m || (k == m && i < j)
  {
    hide Stuck, Cyclic, LongestChain, Flatten;
    var k, a := FlattenAt(groups, p);
    var m, b := FlattenAt(groups, q);
    EarlierPlace(groups, p, q, k, a, m, b);
    var i, j := groups[k][a], groups[m][b];
    assert i in groups[k] && j in groups[m];
    LayerOf(n, edges, groups, k, i);
    LayerOf(n, edges, groups, m, j);
    assert k == m ==> i < j;
  }

  lemma LayerOf(n: nat, edges: seq<Edge>, groups: seq<seq<nat>>, k: nat, i: nat)
    requires IsLayering(n, edges, groups) && k < |groups| && i in groups[k]
    ensures Stuck(edges, i) ==> k == |groups| - 1
    ensures !Stuck(edges, i) ==> LongestChain(edges, i, k)
    ensures forall m: nat | LongestChain(edges, i, m) :: !Stuck(edges, i) && m == k
    ensures Stuck(edges, i) ==> forall j | j in groups[k] :: Stuck(edges, j)
  {
    hide OnCycle, IsChain, HasChain, Flatten, Distinct, Stuck, LongestChain;
    if Stuck(edges, i) {
      StuckIsCyclic(edges, i);
    }
    forall m: nat | LongestChain(edges, i, m)
      ensures !Stuck(edges, i) && m == k
    {
      LayeredIsNotStuck(edges, i, m);
      if LongestChain(edges, i, k) {
        LongestIsUnique(edges, i, k, m);
      }
    }
    if LongestChain(edges, i, k) {
      LayeredIsNotStuck(edges, i, k);
    }
  }

  lemma StuckIsCyclic(edges: seq<Edge>, i: nat)
    requires Stuck(edges, i)
    ensures Cyclic(edges)
  {
  }

  /** A system that is not on or behind a cycle runs after every system that it depends on. */
  lemma DependenciesRunFirst(n: nat, edges: seq<Edge>, groups: seq<seq<nat>>, d: Edge, p: nat, q: nat)
    requires IsLayering(n, edges, groups) && d in edges && !Stuck(edges, d.later)
    requires p < |Flatten(groups)| && q < |Flatten(groups)|
    requires Flatten(groups)[p] == d.earlier && Flatten(groups)[q] == d.later
    ensures p < q
  {
    hide Stuck, LongestChain, Flatten;
    var k, a := FlattenAt(groups, p);
    var m, b := FlattenAt(groups, q);
    assert d.earlier in groups[k] && d.later in groups[m];
    LayerOf(n, edges, groups, k, d.earlier);
    LayerOf(n, edges, groups, m, d.later);
    if Stuck(edges, d.earlier) {
      StuckSpreads(edges, d.earlier, d.later);
    }
    LaterIsLonger(edges, d.earlier, d.later, k, m);
    if q < p {
      EarlierPlace(groups, q, p, m, b, k, a);
    }
  }

  lemma LaterIsLonger(edges: seq<Edge>, i: nat, j: nat, k: nat, m: nat)
    requires LongestChain(edges, i, k) && LongestChain(edges, j, m) && Edge(j, i) in edges
    ensures k < m
  {
    var c :| ChainTo(edges, c, i) && |c| == k + 1;
    ChainExtend(edges, c, i, j);
  }

  // ---- what happens in a run ----

  datatype Mark = Ran(i: nat) | Applied | Cleared

  function MarkRun(): (nat, seq<Mark>) -> seq<Mark> {
    (i: nat, t: seq<Mark>) => t + [Ran(i)]
  }

  function MarkApplied(): seq<Mark> -> seq<Mark> {
    (t: seq<Mark>) => t + [Applied]
  }

  /** A run in which every step leaves a mark. */
  function Trace(order: seq<nat>): seq<Mark> {
    RunAll(MarkRun(), MarkApplied(), order, [Applied]) + [Cleared]
  }

  /** The deferred commands are applied at the start and after each system, the systems run in order, and
    * the messages are cleared at the end; nothing else happens. */
  lemma {:induction false} TraceIs(order: seq<nat>)
    ensures |Trace(order)| == 2 * |order| + 2 && Trace(order)[0] == Applied
    ensures forall i | 0 <= i < |order| ::
              Trace(order)[2 * i + 1] == Ran(order[i]) && Trace(order)[2 * i + 2] == Applied
    ensures Trace(order)[2 * |order| + 1] == Cleared
    decreases |order|
  {
    hide Trace;
    if order == [] {
      TraceOfNone();
    } else {
      var front, j := order[..|order| - 1], order[|order| - 1];
      TraceIs(front);
      TraceNext(front, j);
      assert front + [j] == order;
      forall i | 0 <= i < |order|
        ensures Trace(order)[2 * i + 1] == Ran(order[i]) && Trace(order)[2 * i + 2] == Applied
      {
        if i < |front| {
          assert Trace(front)[2 * i + 1] == Ran(front[i]) && Trace(front)[2 * i + 2] == Applied;
        }
      }
    }
  }

  lemma TraceOfNone()
    ensures Trace([]) == [Applied, Cleared]
  {
  }

  lemma TraceNext(order: seq<nat>, j: nat)
    ensures |Trace(order)| > 0
    ensures Trace(order + [j]) == Trace(order)[..|Trace(order)| - 1] + [Ran(j), Applied, Cleared]
  {
    RunNext(MarkRun(), MarkApplied(), order, j, [Applied]);
  }

  /** One more system adds its run and its deferred commands on top. */
  lemma RunNext<W>(system: (nat, W) -> W, applyDeferred: W -> W, order: seq<nat>, j: nat, world: W)
    ensures RunAll(system, applyDeferred, order + [j], world)
         == applyDeferred(system(j, RunAll(system, applyDeferred, order, world)))
    ensures RunAll(system, applyDeferred, [], world) == world
  {
    assert (order + [j])[..|order|] == order;
  }
}
