/** Layered ordering of systems, from schedule.rs. */
module Schedules {
  import opened Sorting
  import opened Wrappers

  /** `later` runs after `earlier`; both are registration indices. */
  datatype Edge = Edge(later: nat, earlier: nat)

  // ---- names ----

  /** The last system registered under a name. */
  function IndexOf(names: seq<string>, name: string): Option<nat> {
    if names == [] then None
    else if names[|names| - 1] == name then Some(|names| - 1)
    else IndexOf(names[..|names| - 1], name)
  }

  lemma {:induction false} IndexOfIsLast(names: seq<string>, name: string)
    ensures match IndexOf(names, name)
            case Some(i) => i < |names| && names[i] == name && forall j | i < j < |names| :: names[j] != name
            case None => name !in names
  {
    if names != [] {
      IndexOfIsLast(names[..|names| - 1], name);
    }
  }

  /** The dependencies between registered systems; any other is ignored. */
  function Resolved(names: seq<string>, deps: seq<(string, string)>): (r: seq<Edge>)
    ensures |r| <= |deps|
  {
    if deps == [] then []
    else
      Resolved(names, deps[..|deps| - 1])
      + match (IndexOf(names, deps[|deps| - 1].0), IndexOf(names, deps[|deps| - 1].1))
        case (Some(l), Some(e)) => [Edge(l, e)]
        case _ => []
  }

  ghost predicate InRange(n: nat, edges: seq<Edge>) {
    forall d | d in edges :: d.later < n && d.earlier < n
  }

  lemma {:induction false} ResolvedInRange(names: seq<string>, deps: seq<(string, string)>)
    ensures InRange(|names|, Resolved(names, deps))
  {
    if deps != [] {
      ResolvedInRange(names, deps[..|deps| - 1]);
      IndexOfIsLast(names, deps[|deps| - 1].0);
      IndexOfIsLast(names, deps[|deps| - 1].1);
    }
  }

  // ---- chains and cycles ----

  /** Each system depends on the one before it. */
  ghost predicate IsChain(edges: seq<Edge>, c: seq<nat>) {
    c != [] && forall k | 0 <= k < |c| - 1 :: Edge(c[k + 1], c[k]) in edges
  }

  ghost predicate ChainTo(edges: seq<Edge>, c: seq<nat>, j: nat) {
    IsChain(edges, c) && c[|c| - 1] == j
  }

  ghost predicate OnCycle(edges: seq<Edge>, v: nat) {
    exists c :: |c| >= 2 && ChainTo(edges, c, v) && c[0] == v
  }

  /** On a cycle, or dependent on one. */
  ghost predicate Stuck(edges: seq<Edge>, j: nat) {
    exists c :: ChainTo(edges, c, j) && OnCycle(edges, c[0])
  }

  ghost predicate Cyclic(edges: seq<Edge>) {
    exists v :: OnCycle(edges, v)
  }

  /** Layer number: some chain of k + 1 systems ends here and none longer does. */
  ghost predicate LongestChain(edges: seq<Edge>, j: nat, k: nat) {
    && HasChain(edges, j, k + 1)
    && (forall c | ChainTo(edges, c, j) :: |c| <= k + 1)
  }

  lemma ChainOfOne(edges: seq<Edge>, j: nat)
    ensures ChainTo(edges, [j], j)
  {
  }

  lemma ChainExtend(edges: seq<Edge>, c: seq<nat>, i: nat, j: nat)
    requires ChainTo(edges, c, i) && Edge(j, i) in edges
    ensures ChainTo(edges, c + [j], j)
  {
  }

  lemma ChainFront(edges: seq<Edge>, c: seq<nat>, j: nat)
    requires ChainTo(edges, c, j) && |c| >= 2
    ensures ChainTo(edges, c[..|c| - 1], c[|c| - 2]) && Edge(j, c[|c| - 2]) in edges
  {
    assert Edge(c[(|c| - 2) + 1], c[|c| - 2]) in edges;
  }

  lemma StuckHasStuckDependency(edges: seq<Edge>, j: nat) returns (i: nat)
    requires Stuck(edges, j)
    ensures Edge(j, i) in edges && Stuck(edges, i)
  {
    var c :| ChainTo(edges, c, j) && OnCycle(edges, c[0]);
    if |c| >= 2 {
      i := c[|c| - 2];
      ChainFront(edges, c, j);
    } else {
      var d :| |d| >= 2 && ChainTo(edges, d, j) && d[0] == j;
      i := d[|d| - 2];
      ChainFront(edges, d, j);
    }
  }

  lemma StuckSpreads(edges: seq<Edge>, i: nat, j: nat)
    requires Stuck(edges, i) && Edge(j, i) in edges
    ensures Stuck(edges, j)
  {
    var c :| ChainTo(edges, c, i) && OnCycle(edges, c[0]);
    ChainExtend(edges, c, i, j);
    assert (c + [j])[0] == c[0];
  }

  /** A long sequence over a small set repeats an element. */
  lemma {:induction false} Pigeonhole(w: seq<nat>, s: set<nat>) returns (a: nat, b: nat)
    requires (forall x | x in w :: x in s) && |w| > |s|
    ensures a < b < |w| && w[a] == w[b]
    decreases |s|
  {
    var x := w[|w| - 1];
    var front := w[..|w| - 1];
    if x in front {
      a :| 0 <= a < |front| && front[a] == x;
      b := |w| - 1;
    } else {
      a, b := Pigeonhole(front, s - {x});
    }
  }

  /** Every member of s depends on a member. */
  ghost predicate SelfFed(edges: seq<Edge>, s: set<nat>) {
    forall x | x in s :: FedBy(edges, s, x)
  }

  ghost predicate FedBy(edges: seq<Edge>, s: set<nat>, x: nat) {
    exists i :: i in s && Edge(x, i) in edges
  }

  /** In such a set one can walk back for ever. */
  lemma {:induction false} WalkBack(edges: seq<Edge>, s: set<nat>, j: nat, n: nat) returns (c: seq<nat>)
    requires j in s && SelfFed(edges, s)
    ensures ChainTo(edges, c, j) && |c| == n + 1 && forall x | x in c :: x in s
    decreases n
  {
    hide IsChain;
    if n == 0 {
      c := [j];
      assert ChainTo(edges, c, j) by {
        ChainOfOne(edges, j);
      }
    } else {
      assert FedBy(edges, s, j);
      var i :| i in s && Edge(j, i) in edges;
      c := WalkBack(edges, s, i, n - 1);
      ChainExtend(edges, c, i, j);
      c := c + [j];
    }
  }

  lemma ChainPart(edges: seq<Edge>, c: seq<nat>, a: nat, b: nat)
    requires IsChain(edges, c) && a <= b < |c|
    ensures ChainTo(edges, c[a..b + 1], c[b]) && c[a..b + 1][0] == c[a]
  {
    var d := c[a..b + 1];
    forall k | 0 <= k < |d| - 1
      ensures Edge(d[k + 1], d[k]) in edges
    {
      assert Edge(c[a + k + 1], c[a + k]) in edges;
    }
  }

  lemma MutualDependenceIsStuck(edges: seq<Edge>, s: set<nat>, j: nat)
    requires j in s && SelfFed(edges, s)
    ensures Stuck(edges, j) && Cyclic(edges)
  {
    hide SelfFed, IsChain;
    var c := WalkBack(edges, s, j, |s|);
    var a, b := Pigeonhole(c, s);
    ChainPart(edges, c, a, b);
    assert OnCycle(edges, c[a]);
    ChainPart(edges, c, a, |c| - 1);
  }

  // ---- in-degrees ----

  /** How many dependencies of j are still in s. */
  function Degree(edges: seq<Edge>, j: nat, s: set<nat>): nat {
    if edges == [] then 0
    else
      Degree(edges[..|edges| - 1], j, s)
      + if edges[|edges| - 1].later == j && edges[|edges| - 1].earlier in s then 1 else 0
  }

  /** The systems that depend on i, in the order of the dependencies. */
  function Dependents(edges: seq<Edge>, i: nat): seq<nat> {
    if edges == [] then []
    else
      Dependents(edges[..|edges| - 1], i)
      + if edges[|edges| - 1].earlier == i then [edges[|edges| - 1].later] else []
  }

  lemma {:induction false} DegreeZero(edges: seq<Edge>, j: nat, s: set<nat>)
    ensures Degree(edges, j, s) == 0 <==> forall i | i in s :: Edge(j, i) !in edges
  {
    if edges != [] {
      var last := edges[|edges| - 1];
      DegreeZero(edges[..|edges| - 1], j, s);
      assert edges == edges[..|edges| - 1] + [last];
      if last.later == j && last.earlier in s {
        assert Edge(j, last.earlier) in edges;
      }
    }
  }

  /** Taking i out of s lowers the degree of j by the number of times j depends on i. */
  lemma {:induction false} DegreeWithout(edges: seq<Edge>, j: nat, s: set<nat>, i: nat)
    requires i in s
    ensures Degree(edges, j, s) == Degree(edges, j, s - {i}) + multiset(Dependents(edges, i))[j]
  {
    if edges != [] {
      DegreeWithout(edges[..|edges| - 1], j, s, i);
    }
  }

  lemma {:induction false} DependentsInRange(n: nat, edges: seq<Edge>, i: nat)
    requires InRange(n, edges)
    ensures forall j | j in Dependents(edges, i) :: j < n
  {
    if edges != [] {
      assert forall d | d in edges[..|edges| - 1] :: d in edges;
      DependentsInRange(n, edges[..|edges| - 1], i);
    }
  }

  // ---- the layers ----

  function Flatten(groups: seq<seq<nat>>): seq<nat> {
    if groups == [] then [] else Flatten(groups[..|groups| - 1]) + groups[|groups| - 1]
  }

  function Members(s: seq<nat>): set<nat> {
    set i | i in s
  }

  ghost predicate Distinct(s: seq<nat>) {
    forall i, j | 0 <= i < j < |s| :: s[i] != s[j]
  }

  ghost predicate HasChain(edges: seq<Edge>, j: nat, length: nat) {
    exists c :: ChainTo(edges, c, j) && |c| == length
  }

  /** The layers scheduled so far and the systems that wait. */
  ghost predicate Layered(n: nat, edges: seq<Edge>, groups: seq<seq<nat>>, remaining: seq<nat>) {
    && AllAscending(groups) && Ascending(remaining)
    && Distinct(Flatten(groups))
    && (forall j: nat :: j in Flatten(groups) || j in remaining <==> j < n)
    && (forall j | j in Flatten(groups) :: j !in remaining)
    && LongestInGroups(edges, groups)
    && (forall j | j in remaining :: HasChain(edges, j, |groups| + 1))
  }

  ghost predicate AllAscending(groups: seq<seq<nat>>) {
    forall k | 0 <= k < |groups| :: groups[k] != [] && Ascending(groups[k])
  }

  ghost predicate LongestInGroups(edges: seq<Edge>, groups: seq<seq<nat>>) {
    forall k, j | 0 <= k < |groups| && j in groups[k] :: LongestChain(edges, j, k)
  }

  function Ready(edges: seq<Edge>, remaining: seq<nat>, all: set<nat>): seq<nat> {
    if remaining == [] then []
    else
      var front := Ready(edges, remaining[..|remaining| - 1], all);
      if Degree(edges, remaining[|remaining| - 1], all) == 0 then front + [remaining[|remaining| - 1]] else front
  }

  function Kept(remaining: seq<nat>, ready: seq<nat>): seq<nat> {
    if remaining == [] then []
    else
      var front := Kept(remaining[..|remaining| - 1], ready);
      if remaining[|remaining| - 1] in ready then front else front + [remaining[|remaining| - 1]]
  }

  lemma AscendingSnoc(s: seq<nat>, x: nat)
    requires Ascending(s) && forall y | y in s :: y < x
    ensures Ascending(s + [x])
  {
    assert forall i | 0 <= i < |s| :: s[i] in s;
  }

  lemma AscendingFront(s: seq<nat>, front: seq<nat>, x: nat)
    requires Ascending(s) && s == front + [x]
    ensures Ascending(front) && forall y | y in front :: y < x
    ensures forall j :: j in s <==> j in front || j == x
  {
    assert forall i | 0 <= i < |front| :: s[i] == front[i];
    assert s[|front|] == x;
  }

  lemma {:induction false} ReadyIs(edges: seq<Edge>, remaining: seq<nat>, all: set<nat>)
    requires Ascending(remaining)
    ensures Ascending(Ready(edges, remaining, all))
    ensures forall j :: j in Ready(edges, remaining, all) <==> j in remaining && Degree(edges, j, all) == 0
  {
    hide Ascending;
    if remaining != [] {
      AscendingFront(remaining, remaining[..|remaining| - 1], remaining[|remaining| - 1]);
      ReadyIs(edges, remaining[..|remaining| - 1], all);
      if Degree(edges, remaining[|remaining| - 1], all) == 0 {
        AscendingSnoc(Ready(edges, remaining[..|remaining| - 1], all), remaining[|remaining| - 1]);
      }
    }
  }

  lemma {:induction false} KeptIs(remaining: seq<nat>, ready: seq<nat>)
    requires Ascending(remaining)
    ensures Ascending(Kept(remaining, ready))
    ensures forall j :: j in Kept(remaining, ready) <==> j in remaining && j !in ready
  {
    hide Ascending;
    if remaining != [] {
      AscendingFront(remaining, remaining[..|remaining| - 1], remaining[|remaining| - 1]);
      KeptIs(remaining[..|remaining| - 1], ready);
      if remaining[|remaining| - 1] !in ready {
        AscendingSnoc(Kept(remaining[..|remaining| - 1], ready), remaining[|remaining| - 1]);
      }
    }
  }

  lemma {:induction false} FlattenHas(groups: seq<seq<nat>>, j: nat)
    ensures j in Flatten(groups) <==> exists k :: 0 <= k < |groups| && j in groups[k]
  {
    if groups != [] {
      FlattenHas(groups[..|groups| - 1], j);
    }
  }

  lemma FlattenSnoc(groups: seq<seq<nat>>, group: seq<nat>)
    ensures Flatten(groups + [group]) == Flatten(groups) + group
  {
    assert (groups + [group])[..|groups|] == groups;
  }

  lemma ReadyDependsOnDone(
    n: nat, edges: seq<Edge>, groups: seq<seq<nat>>, remaining: seq<nat>, j: nat, c: seq<nat>)
    requires InRange(n, edges) && Layered(n, edges, groups, remaining)
    requires j in remaining && Degree(edges, j, Members(remaining)) == 0 && ChainTo(edges, c, j)
    ensures |c| <= |groups| + 1
  {
    hide IsChain, Ascending, Distinct, HasChain;
    if |c| >= 2 {
      var i := c[|c| - 2];
      ChainFront(edges, c, j);
      DegreeZero(edges, j, Members(remaining));
      assert Edge(j, i).earlier < n;
      FlattenHas(groups, i);
      var k :| 0 <= k < |groups| && i in groups[k];
      assert LongestChain(edges, i, k);
    }
  }

  lemma KeptHasChain(n: nat, edges: seq<Edge>, groups: seq<seq<nat>>, remaining: seq<nat>, j: nat)
    requires Layered(n, edges, groups, remaining)
    requires j in remaining && Degree(edges, j, Members(remaining)) > 0
    ensures HasChain(edges, j, |groups| + 2)
  {
    hide IsChain, Ascending, Distinct, LongestInGroups;
    DegreeZero(edges, j, Members(remaining));
    var i :| i in Members(remaining) && Edge(j, i) in edges;
    assert HasChain(edges, i, |groups| + 1);
    var c :| ChainTo(edges, c, i) && |c| == |groups| + 1;
    ChainExtend(edges, c, i, j);
  }

  lemma DistinctConcat(s: seq<nat>, t: seq<nat>)
    requires Distinct(s) && Ascending(t) && forall j | j in s :: j !in t
    ensures Distinct(s + t)
  {
    forall i, j | 0 <= i < j < |s + t|
      ensures (s + t)[i] != (s + t)[j]
    {
      assert i < |s| ==> (s + t)[i] in s;
      assert j >= |s| ==> (s + t)[j] == t[j - |s|] && t[j - |s|] in t;
    }
  }

  lemma RoundLongest(n: nat, edges: seq<Edge>, groups: seq<seq<nat>>, remaining: seq<nat>)
    requires InRange(n, edges) && Layered(n, edges, groups, remaining)
    ensures LongestInGroups(edges, groups + [Ready(edges, remaining, Members(remaining))])
  {
    hide IsChain, Ascending, Distinct, ChainTo;
    var ready := Ready(edges, remaining, Members(remaining));
    ReadyIs(edges, remaining, Members(remaining));
    forall j | j in ready
      ensures LongestChain(edges, j, |groups|)
    {
      forall c | ChainTo(edges, c, j)
        ensures |c| <= |groups| + 1
      {
        ReadyDependsOnDone(n, edges, groups, remaining, j, c);
      }
    }
  }

  lemma RoundKeeps(n: nat, edges: seq<Edge>, groups: seq<seq<nat>>, remaining: seq<nat>)
    requires InRange(n, edges) && Layered(n, edges, groups, remaining)
    requires Ready(edges, remaining, Members(remaining)) != []
    ensures var ready := Ready(edges, remaining, Members(remaining));
            Layered(n, edges, groups + [ready], Kept(remaining, ready))
  {
    hide IsChain, Ascending, Distinct, ChainTo, LongestInGroups, HasChain, InRange;
    var ready := Ready(edges, remaining, Members(remaining));
    ReadyIs(edges, remaining, Members(remaining));
    KeptIs(remaining, ready);
    FlattenSnoc(groups, ready);
    DistinctConcat(Flatten(groups), ready);
    RoundLongest(n, edges, groups, remaining);
    forall j | j in Kept(remaining, ready)
      ensures HasChain(edges, j, |groups| + 2)
    {
      KeptHasChain(n, edges, groups, remaining, j);
    }
  }

  // ---- cycles ----

  lemma {:induction false} StuckHasLongChains(edges: seq<Edge>, j: nat, m: nat)
    requires Stuck(edges, j)
    ensures HasChain(edges, j, m + 1)
    decreases m
  {
    hide IsChain, OnCycle;
    if m == 0 {
      ChainOfOne(edges, j);
    } else {
      var i := StuckHasStuckDependency(edges, j);
      StuckHasLongChains(edges, i, m - 1);
      var c :| ChainTo(edges, c, i) && |c| == m;
      ChainExtend(edges, c, i, j);
    }
  }

  lemma LayeredIsNotStuck(edges: seq<Edge>, j: nat, k: nat)
    requires LongestChain(edges, j, k)
    ensures !Stuck(edges, j)
  {
    if Stuck(edges, j) {
      StuckHasLongChains(edges, j, k + 1);
      assert false;
    }
  }

  lemma CyclicHasStuck(n: nat, edges: seq<Edge>) returns (v: nat)
    requires InRange(n, edges) && Cyclic(edges)
    ensures v < n && Stuck(edges, v)
  {
    v :| OnCycle(edges, v);
    var c :| |c| >= 2 && ChainTo(edges, c, v) && c[0] == v;
    ChainFront(edges, c, v);
    ChainOfOne(edges, v);
  }

  /** What the layering is: every system once; a system's layer is its longest dependency chain; and if
    * there is a cycle, the final layer is exactly what lies on or behind one. */
  ghost predicate IsLayering(n: nat, edges: seq<Edge>, groups: seq<seq<nat>>) {
    && Distinct(Flatten(groups))
    && (forall j: nat :: j in Flatten(groups) <==> j < n)
    && AllAscending(groups)
    && (Cyclic(edges) ==> groups != [] && forall j: nat :: j in groups[|groups| - 1] <==> j < n && Stuck(edges, j))
    && (forall k, j: nat | 0 <= k < |groups| && !(Cyclic(edges) && k == |groups| - 1) ::
          j in groups[k] <==> j < n && LongestChain(edges, j, k))
  }

  /** Whatever waits for a member is a member. */
  ghost predicate Absorbs(n: nat, edges: seq<Edge>, s: set<nat>) {
    forall d | d in edges && d.earlier in s && d.later < n :: d.later in s
  }

  /** On a cyclic graph the final layer is the largest set of systems that all wait for a member of it,
    * and whatever waits for a member belongs to it. */
  lemma FallbackIsLargest(n: nat, edges: seq<Edge>, groups: seq<seq<nat>>, s: set<nat>)
    requires InRange(n, edges) && IsLayering(n, edges, groups) && Cyclic(edges)
    requires SelfFed(edges, s) && forall j | j in s :: j < n
    ensures groups != []
    ensures s <= Members(groups[|groups| - 1])
    ensures SelfFed(edges, Members(groups[|groups| - 1])) && Absorbs(n, edges, Members(groups[|groups| - 1]))
  {
    hide Stuck, Cyclic, LongestChain, SelfFed, Distinct, Flatten, AllAscending;
    var last := Members(groups[|groups| - 1]);
    FallbackIsSelfFed(n, edges, last);
    forall j | j in s
      ensures j in last
    {
      MutualDependenceIsStuck(edges, s, j);
    }
    forall d | d in edges && d.earlier in last && d.later < n
      ensures d.later in last
    {
      StuckSpreads(edges, d.earlier, d.later);
    }
  }

  lemma FallbackIsSelfFed(n: nat, edges: seq<Edge>, s: set<nat>)
    requires InRange(n, edges) && forall j: nat :: j in s <==> j < n && Stuck(edges, j)
    ensures SelfFed(edges, s)
  {
    hide Stuck;
    forall j | j in s
      ensures FedBy(edges, s, j)
    {
      var i := StuckHasStuckDependency(edges, j);
    }
  }

  lemma LongestIsUnique(edges: seq<Edge>, j: nat, k: nat, m: nat)
    requires LongestChain(edges, j, k) && LongestChain(edges, j, m)
    ensures k == m
  {
  }

  lemma GroupIffLongest(n: nat, edges: seq<Edge>, groups: seq<seq<nat>>, remaining: seq<nat>, k: nat, j: nat)
    requires Layered(n, edges, groups, remaining) && k < |groups|
    requires forall i | i in remaining :: Stuck(edges, i)
    ensures j in groups[k] <==> j < n && LongestChain(edges, j, k)
  {
    hide IsChain, Ascending, Distinct, HasChain, Stuck;
    FlattenHas(groups, j);
    if j < n && LongestChain(edges, j, k) {
      LayeredIsNotStuck(edges, j, k);
      var m :| 0 <= m < |groups| && j in groups[m];
      LongestIsUnique(edges, j, k, m);
    }
  }

  lemma FinishedWithoutCycle(n: nat, edges: seq<Edge>, groups: seq<seq<nat>>)
    requires InRange(n, edges) && Layered(n, edges, groups, [])
    ensures IsLayering(n, edges, groups)
  {
    hide IsChain, Ascending, Distinct, HasChain, Stuck, LongestChain;
    if Cyclic(edges) {
      var v := CyclicHasStuck(n, edges);
      FlattenHas(groups, v);
      var k :| 0 <= k < |groups| && v in groups[k];
      LayeredIsNotStuck(edges, v, k);
      assert false;
    }
    forall k, j: nat | 0 <= k < |groups|
      ensures j in groups[k] <==> j < n && LongestChain(edges, j, k)
    {
      GroupIffLongest(n, edges, groups, [], k, j);
    }
  }

  lemma RemainingIsStuck(n: nat, edges: seq<Edge>, groups: seq<seq<nat>>, remaining: seq<nat>)
    requires InRange(n, edges) && Layered(n, edges, groups, remaining)
    requires remaining != [] && Ready(edges, remaining, Members(remaining)) == []
    ensures Cyclic(edges)
    ensures forall j: nat :: j in remaining <==> j < n && Stuck(edges, j)
  {
    hide IsChain, Ascending, Distinct, HasChain, Stuck, LongestChain;
    ReadyIs(edges, remaining, Members(remaining));
    assert SelfFed(edges, Members(remaining)) by {
      forall j | j in Members(remaining)
        ensures FedBy(edges, Members(remaining), j)
      {
        DegreeZero(edges, j, Members(remaining));
      }
    }
    MutualDependenceIsStuck(edges, Members(remaining), remaining[0]);
    forall j | j in remaining
      ensures Stuck(edges, j)
    {
      MutualDependenceIsStuck(edges, Members(remaining), j);
    }
    forall j: nat | j < n && j !in remaining
      ensures !Stuck(edges, j)
    {
      FlattenHas(groups, j);
      var k :| 0 <= k < |groups| && j in groups[k];
      LayeredIsNotStuck(edges, j, k);
    }
  }

  lemma FinishedWithCycle(n: nat, edges: seq<Edge>, groups: seq<seq<nat>>, remaining: seq<nat>)
    requires InRange(n, edges) && Layered(n, edges, groups, remaining)
    requires remaining != [] && Ready(edges, remaining, Members(remaining)) == []
    ensures IsLayering(n, edges, groups + [remaining])
  {
    hide IsChain, Ascending, HasChain, Stuck, LongestChain, Cyclic, Distinct;
    RemainingIsStuck(n, edges, groups, remaining);
    FlattenSnoc(groups, remaining);
    DistinctConcat(Flatten(groups), remaining);
    forall k, j: nat | 0 <= k < |groups|
      ensures j in groups[k] <==> j < n && LongestChain(edges, j, k)
    {
      GroupIffLongest(n, edges, groups, remaining, k, j);
    }
  }

  // ---- the procedure ----

  type Adjacency = map<nat, seq<nat>>

  function Row(adj: Adjacency, i: nat): seq<nat> {
    if i in adj then adj[i] else []
  }

  /** The indices below n. */
  function Below(n: nat): seq<nat> {
    seq(n, i => i)
  }

  method NameIndex(names: seq<string>) returns (index: map<string, nat>)
    ensures forall name :: IndexOf(names, name) == if name in index then Some(index[name]) else None
  {
    index := map[];
    for i := 0 to |names|
      invariant forall name :: IndexOf(names[..i], name) == if name in index then Some(index[name]) else None
    {
      assert names[..i + 1][..i] == names[..i];
      index := index[names[i] := i];
    }
    assert names[..|names|] == names;
  }

  lemma DegreeSnoc(edges: seq<Edge>, d: Edge, j: nat, s: set<nat>)
    ensures Degree(edges + [d], j, s) == Degree(edges, j, s) + if d.later == j && d.earlier in s then 1 else 0
  {
    assert (edges + [d])[..|edges|] == edges;
  }

  lemma DependentsSnoc(edges: seq<Edge>, d: Edge, i: nat)
    ensures Dependents(edges + [d], i)
            == if d.earlier == i then Dependents(edges, i) + [d.later] else Dependents(edges, i)
  {
    assert (edges + [d])[..|edges|] == edges;
    assert Dependents(edges, i) + [] == Dependents(edges, i);
  }

  method AddEdge(adj: Adjacency, inDeg: array<nat>, d: Edge, ghost edges: seq<Edge>, ghost all: set<nat>)
    returns (adj': Adjacency)
    requires d.later < inDeg.Length && d.earlier in all
    requires forall i: nat :: Row(adj, i) == Dependents(edges, i)
    requires forall j | 0 <= j < inDeg.Length :: inDeg[j] == Degree(edges, j, all)
    modifies inDeg
    ensures forall i: nat :: Row(adj', i) == Dependents(edges + [d], i)
    ensures forall j | 0 <= j < inDeg.Length :: inDeg[j] == Degree(edges + [d], j, all)
  {
    hide Degree, Dependents;
    adj' := adj[d.earlier := Row(adj, d.earlier) + [d.later]];
    forall i: nat
      ensures Row(adj', i) == Dependents(edges + [d], i)
    {
      DependentsSnoc(edges, d, i);
    }
    forall j | 0 <= j < inDeg.Length
      ensures Degree(edges + [d], j, all) == inDeg[j] + if j == d.later then 1 else 0
    {
      DegreeSnoc(edges, d, j, all);
    }
    inDeg[d.later] := inDeg[d.later] + 1;
  }

  lemma ResolvedSnoc(names: seq<string>, deps: seq<(string, string)>, m: nat)
    requires m < |deps|
    ensures var edges := Resolved(names, deps[..m]);
            Resolved(names, deps[..m + 1]) ==
            match (IndexOf(names, deps[m].0), IndexOf(names, deps[m].1))
            case (Some(l), Some(e)) => edges + [Edge(l, e)]
            case _ => edges
  {
    hide IndexOf;
    assert deps[..m + 1][..m] == deps[..m];
  }

  lemma BelowHas(n: nat, e: nat)
    requires e < n
    ensures e in Members(Below(n))
  {
    assert Below(n)[e] == e;
  }

  /** Builds the adjacency lists and the in-degrees. */
  method CountDependencies(names: seq<string>, deps: seq<(string, string)>)
    returns (adj: Adjacency, inDeg: array<nat>)
    ensures fresh(inDeg) && inDeg.Length == |names|
    ensures forall i: nat :: Row(adj, i) == Dependents(Resolved(names, deps), i)
    ensures forall j | 0 <= j < |names| :: inDeg[j] == Degree(Resolved(names, deps), j, Members(Below(|names|)))
  {
    hide IndexOf, Members, Below;
    var n := |names|;
    var index := NameIndex(names);
    adj := map[];
    inDeg := new nat[n](_ => 0);
    ghost var edges: seq<Edge> := [];
    ghost var all := Members(Below(n));
    for m := 0 to |deps|
      invariant fresh(inDeg) && inDeg.Length == n && edges == Resolved(names, deps[..m])
      invariant forall i: nat :: Row(adj, i) == Dependents(edges, i)
      invariant forall j | 0 <= j < n :: inDeg[j] == Degree(edges, j, all)
    {
      hide Degree, Dependents, Resolved;
      ResolvedSnoc(names, deps, m);
      IndexOfIsLast(names, deps[m].0);
      IndexOfIsLast(names, deps[m].1);
      if deps[m].0 in index && deps[m].1 in index {
        var l, e := index[deps[m].0], index[deps[m].1];
        BelowHas(n, e);
        adj := AddEdge(adj, inDeg, Edge(l, e), edges, all);
        edges := edges + [Edge(l, e)];
      }
    }
    assert deps[..|deps|] == deps;
  }

  method ReadyOf(remaining: seq<nat>, inDeg: array<nat>, ghost edges: seq<Edge>) returns (ready: seq<nat>)
    requires forall j | j in remaining :: j < inDeg.Length
    requires forall j | 0 <= j < inDeg.Length :: inDeg[j] == Degree(edges, j, Members(remaining))
    ensures ready == Ready(edges, remaining, Members(remaining))
  {
    ready := [];
    for i := 0 to |remaining|
      invariant ready == Ready(edges, remaining[..i], Members(remaining))
    {
      assert remaining[..i + 1][..i] == remaining[..i];
      assert remaining[i] in remaining;
      if inDeg[remaining[i]] == 0 {
        ready := ready + [remaining[i]];
      }
    }
    assert remaining[..|remaining|] == remaining;
  }

  /** The decrements for one scheduled system; none of them underflows. */
  method Release(n: nat, adj: Adjacency, inDeg: array<nat>, i: nat, ghost edges: seq<Edge>, ghost s: set<nat>)
    requires InRange(n, edges) && inDeg.Length == n && i in s && Row(adj, i) == Dependents(edges, i)
    requires forall j | 0 <= j < n :: inDeg[j] == Degree(edges, j, s)
    modifies inDeg
    ensures forall j | 0 <= j < n :: inDeg[j] == Degree(edges, j, s - {i})
  {
    hide Degree, InRange;
    var row := Row(adj, i);
    DependentsInRange(n, edges, i);
    assert row[0..] == row;
    forall j | 0 <= j < n
      ensures inDeg[j] == Degree(edges, j, s - {i}) + multiset(row[0..])[j]
    {
      DegreeWithout(edges, j, s, i);
    }
    for b := 0 to |row|
      invariant forall j | 0 <= j < n :: inDeg[j] == Degree(edges, j, s - {i}) + multiset(row[b..])[j]
    {
      assert row[b..] == [row[b]] + row[b + 1..];
      assert row[b] in row;
      inDeg[row[b]] := inDeg[row[b]] - 1;
    }
  }

  method Retain(remaining: seq<nat>, ready: seq<nat>) returns (kept: seq<nat>)
    ensures kept == Kept(remaining, ready)
  {
    kept := [];
    for i := 0 to |remaining|
      invariant kept == Kept(remaining[..i], ready)
    {
      assert remaining[..i + 1][..i] == remaining[..i];
      if remaining[i] !in ready {
        kept := kept + [remaining[i]];
      }
    }
    assert remaining[..|remaining|] == remaining;
  }

  lemma StartLayered(n: nat, edges: seq<Edge>)
    ensures Layered(n, edges, [], Below(n))
  {
    forall j: nat
      ensures j in Below(n) <==> j < n
      ensures HasChain(edges, j, 1)
    {
      assert j < n ==> Below(n)[j] == j;
      ChainOfOne(edges, j);
    }
  }

  /** A release build: unknown names and cycles are tolerated. */
  method TopoGroups(names: seq<string>, deps: seq<(string, string)>) returns (groups: seq<seq<nat>>)
    ensures IsLayering(|names|, Resolved(names, deps), groups)
  {
    hide Layered, IsLayering, InRange, Degree, Resolved;
    var n := |names|;
    ghost var edges := Resolved(names, deps);
    ResolvedInRange(names, deps);
    var adj, inDeg := CountDependencies(names, deps);
    var remaining := Below(n);
    groups := [];
    StartLayered(n, edges);
    while remaining != []
      invariant Layered(n, edges, groups, remaining)
      invariant fresh(inDeg) && inDeg.Length == n
      invariant forall j | 0 <= j < n :: inDeg[j] == Degree(edges, j, Members(remaining))
      decreases |remaining|
    {
      RemainingInRange(n, edges, groups, remaining);
      var ready := ReadyOf(remaining, inDeg, edges);
      if ready == [] {
        FinishedWithCycle(n, edges, groups, remaining);
        groups := groups + [remaining];
        return;
      }
      RoundKeeps(n, edges, groups, remaining);
      ReadyAndKept(n, edges, groups, remaining);
      groups := groups + [ready];
      assert Members(remaining) - Members(ready[..0]) == Members(remaining);
      for a := 0 to |ready|
        invariant fresh(inDeg) && inDeg.Length == n
        invariant forall j | 0 <= j < n :: inDeg[j] == Degree(edges, j, Members(remaining) - Members(ready[..a]))
      {
        assert ready[a] in ready && ready[a] !in ready[..a];
        Release(n, adj, inDeg, ready[a], edges, Members(remaining) - Members(ready[..a]));
        assert Members(ready[..a + 1]) == Members(ready[..a]) + {ready[a]};
        assert Members(remaining) - Members(ready[..a]) - {ready[a]} == Members(remaining) - Members(ready[..a + 1]);
      }
      var kept := Retain(remaining, ready);
      assert Members(remaining) - Members(ready[..|ready|]) == Members(kept);
      remaining := kept;
    }
    FinishedWithoutCycle(n, edges, groups);
  }

  lemma RemainingInRange(n: nat, edges: seq<Edge>, groups: seq<seq<nat>>, remaining: seq<nat>)
    requires Layered(n, edges, groups, remaining)
    ensures forall j | j in remaining :: j < n
  {
  }

  lemma {:induction false} KeptShrinks(remaining: seq<nat>, ready: seq<nat>)
    ensures |Kept(remaining, ready)| <= |remaining|
    ensures (exists j :: j in remaining && j in ready) ==> |Kept(remaining, ready)| < |remaining|
  {
    if remaining != [] {
      KeptShrinks(remaining[..|remaining| - 1], ready);
      assert remaining == remaining[..|remaining| - 1] + [remaining[|remaining| - 1]];
    }
  }

  lemma ReadyAndKept(n: nat, edges: seq<Edge>, groups: seq<seq<nat>>, remaining: seq<nat>)
    requires Layered(n, edges, groups, remaining) && Ready(edges, remaining, Members(remaining)) != []
    ensures var ready := Ready(edges, remaining, Members(remaining)); var kept := Kept(remaining, ready);
            && |kept| < |remaining| && Members(kept) == Members(remaining) - Members(ready)
            && (forall j | j in ready :: j in remaining)
            && (forall a, b | 0 <= a < b < |ready| :: ready[a] != ready[b])
  {
    hide LongestInGroups, HasChain, Degree;
    var ready := Ready(edges, remaining, Members(remaining));
    ReadyIs(edges, remaining, Members(remaining));
    KeptIs(remaining, ready);
    assert ready[0] in ready;
    KeptShrinks(remaining, ready);
  }

  // ---- running a schedule ----

  /** The systems in order, each followed by its deferred commands. */
  function RunAll<W>(system: (nat, W) -> W, applyDeferred: W -> W, order: seq<nat>, world: W): W
    decreases |order|
  {
    if order == [] then world
    else
      var front := RunAll(system, applyDeferred, order[..|order| - 1], world);
      applyDeferred(system(order[|order| - 1], front))
  }

  class Schedule {
    var names: seq<string>
    var deps: seq<(string, string)>
    var order: seq<nat>
    var groups: seq<seq<nat>>
    var parallel: bool
    var orderDirty: bool

    ghost predicate Valid()
      reads this
    {
      !orderDirty ==> order == Flatten(groups) && IsLayering(|names|, Resolved(names, deps), groups)
    }

    constructor ()
      ensures Valid() && names == [] && deps == [] && !parallel
    {
      names, deps, order, groups, parallel, orderDirty := [], [], [], [], false, false;
      StartLayered(0, []);
      FinishedWithoutCycle(0, [], []);
    }

    method AddSystem(name: string)
      requires Valid()
      modifies this
      ensures Valid() && names == old(names) + [name] && deps == old(deps) && parallel == old(parallel)
    {
      names, orderDirty := names + [name], true;
    }

    method After(later: string, earlier: string)
      requires Valid()
      modifies this
      ensures Valid() && deps == old(deps) + [(later, earlier)] && names == old(names) && parallel == old(parallel)
    {
      deps, orderDirty := deps + [(later, earlier)], true;
    }

    method SetParallel(on: bool)
      requires Valid()
      modifies this`parallel
      ensures Valid() && parallel == on
    {
      parallel := on;
    }

    method RecomputeOrder()
      modifies this`order, this`groups, this`orderDirty
      ensures Valid() && !orderDirty
    {
      groups := TopoGroups(names, deps);
      order := [];
      for k := 0 to |groups|
        invariant order == Flatten(groups[..k])
        invariant IsLayering(|names|, Resolved(names, deps), groups)
        modifies this`order
      {
        assert groups[..k + 1][..k] == groups[..k];
        order := order + groups[k];
      }
      assert groups[..|groups|] == groups;
      orderDirty := false;
    }

    /** One tick.  Serial and layered mode run the same systems in the same order. */
    method Run<W>(world: W, system: (nat, W) -> W, applyDeferred: W -> W, clear: W -> W) returns (world': W)
      requires Valid()
      modifies this`order, this`groups, this`orderDirty
      ensures Valid() && !orderDirty
      ensures world' == clear(RunAll(system, applyDeferred, Flatten(groups), applyDeferred(world)))
    {
      hide IsLayering;
      if orderDirty {
        RecomputeOrder();
      }
      world' := applyDeferred(world);
      ghost var start := world';
      if parallel {
        for k := 0 to |groups|
          invariant world' == RunAll(system, applyDeferred, Flatten(groups[..k]), start)
        {
          assert groups[..k + 1][..k] == groups[..k];
          var group := groups[k];
          assert Flatten(groups[..k]) + group[..0] == Flatten(groups[..k]);
          for i := 0 to |group|
            invariant world' == RunAll(system, applyDeferred, Flatten(groups[..k]) + group[..i], start)
          {
            assert (Flatten(groups[..k]) + group[..i + 1])[..|Flatten(groups[..k])| + i]
                == Flatten(groups[..k]) + group[..i];
            world' := applyDeferred(system(group[i], world'));
          }
          assert group[..|group|] == group;
        }
        assert groups[..|groups|] == groups;
      } else {
        for i := 0 to |order|
          invariant world' == RunAll(system, applyDeferred, order[..i], start)
        {
          assert order[..i + 1][..i] == order[..i];
          world' := applyDeferred(system(order[i], world'));
        }
        assert order[..|order|] == order;
      }
      world' := clear(world');
    }
  }
}
