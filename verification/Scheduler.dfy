/** Many worlds ticked by many worker threads, from scheduler.rs. */
module Schedulers {
  import opened Arithmetic
  import opened Wrappers
  import opened Sorting
  import Queue

  type WorldId = nat

  const MAX_ID: WorldId := 0xFFFF_FFFF

  const QUEUE_CAPACITY: nat := 1024

  datatype ThreadMode = BoundToWorld | SharedPool

  datatype Entry<!W, C> = Entry(world: W, schedule: W -> W, queue: seq<C>)

  /** Drains the queued commands in order, then runs the systems. */
  function TickEntry<W, C>(exec: (C, W) -> W, entry: Entry<W, C>): Entry<W, C> {
    Entry(entry.schedule(Queue.Execute(exec, entry.queue, entry.world)), entry.schedule, [])
  }

  // ---- distributing worlds over workers ----

  /** The worker that gets the i-th id. */
  function WorkerOf(i: nat, id: WorldId, n: nat, mode: ThreadMode): (w: nat)
    requires n > 0
    ensures w < n
  {
    (if mode.SharedPool? then i else id) % n
  }

  function Chunk(ids: seq<WorldId>, n: nat, mode: ThreadMode, w: nat): seq<WorldId>
    requires n > 0
  {
    if ids == [] then []
    else
      var front := Chunk(ids[..|ids| - 1], n, mode, w);
      if WorkerOf(|ids| - 1, ids[|ids| - 1], n, mode) == w then front + [ids[|ids| - 1]] else front
  }

  method Distribute(ids: seq<WorldId>, n: nat, mode: ThreadMode) returns (chunks: seq<seq<WorldId>>)
    requires n > 0
    ensures |chunks| == n && forall w | 0 <= w < n :: chunks[w] == Chunk(ids, n, mode, w)
  {
    chunks := seq(n, _ => []);
    for i := 0 to |ids|
      invariant |chunks| == n && forall w | 0 <= w < n :: chunks[w] == Chunk(ids[..i], n, mode, w)
    {
      assert ids[..i + 1][..i] == ids[..i];
      var w := WorkerOf(i, ids[i], n, mode);
      chunks := chunks[w := chunks[w] + [ids[i]]];
    }
    assert ids[..|ids|] == ids;
  }

  ghost predicate Distinct(s: seq<WorldId>) {
    forall i, j | 0 <= i < j < |s| :: s[i] != s[j]
  }

  /** Every id goes to exactly one worker, once. */
  ghost predicate Partition(ids: set<WorldId>, chunks: seq<seq<WorldId>>) {
    && (forall w | 0 <= w < |chunks| :: Distinct(chunks[w]))
    && (forall w, id | 0 <= w < |chunks| && id in chunks[w] :: id in ids)
    && (forall id | id in ids :: exists w :: 0 <= w < |chunks| && id in chunks[w])
    && (forall v, w, id | 0 <= v < |chunks| && 0 <= w < |chunks| && id in chunks[v] && id in chunks[w] :: v == w)
  }

  lemma {:induction false} ChunkHas(ids: seq<WorldId>, n: nat, mode: ThreadMode, w: nat, id: WorldId)
    requires n > 0
    ensures id in Chunk(ids, n, mode, w)
            <==> exists i :: 0 <= i < |ids| && ids[i] == id && WorkerOf(i, id, n, mode) == w
  {
    if ids != [] {
      ChunkHas(ids[..|ids| - 1], n, mode, w, id);
    }
  }

  lemma {:induction false} ChunkDistinct(ids: seq<WorldId>, n: nat, mode: ThreadMode, w: nat)
    requires n > 0 && Distinct(ids)
    ensures Distinct(Chunk(ids, n, mode, w))
  {
    if ids != [] {
      ChunkDistinct(ids[..|ids| - 1], n, mode, w);
      ChunkHas(ids[..|ids| - 1], n, mode, w, ids[|ids| - 1]);
    }
  }

  /** A shared pool deals the ids out like cards: the i-th goes to worker i mod n, as its (i / n)-th. */
  lemma {:induction false} DealtRoundRobin(ids: seq<WorldId>, n: nat, i: nat)
    requires n > 0 && i < |ids|
    ensures i / n < |Chunk(ids, n, SharedPool, i % n)| && Chunk(ids, n, SharedPool, i % n)[i / n] == ids[i]
    decreases |ids|
  {
    hide Chunk;
    var last := |ids| - 1;
    LastIsDealt(ids, n, i % n);
    if i < last {
      DealtRoundRobin(ids[..last], n, i);
    } else {
      LastPlace(ids[..last], n);
    }
  }

  lemma LastPlace(ids: seq<WorldId>, n: nat)
    requires n > 0
    ensures |Chunk(ids, n, SharedPool, |ids| % n)| == |ids| / n
  {
    ChunkLength(ids, n, |ids| % n);
  }

  lemma LastIsDealt(ids: seq<WorldId>, n: nat, w: nat)
    requires n > 0 && ids != []
    ensures var front, chunk := Chunk(ids[..|ids| - 1], n, SharedPool, w), Chunk(ids, n, SharedPool, w);
            front <= chunk && ((|ids| - 1) % n == w ==> chunk == front + [ids[|ids| - 1]])
  {
  }

  /** A worker has one id for each full round, and one more if the last round reached it. */
  lemma {:induction false} ChunkLength(ids: seq<WorldId>, n: nat, w: nat)
    requires w < n
    ensures |Chunk(ids, n, SharedPool, w)| == |ids| / n + (if w < |ids| % n then 1 else 0)
    decreases |ids|
  {
    if ids == [] {
      EuclidUnique(0, n, 0, 0);
    } else {
      ChunkLength(ids[..|ids| - 1], n, w);
      NextRound(|ids| - 1, n);
    }
  }

  lemma NextRound(k: nat, n: nat)
    requires n > 0
    ensures if k % n == n - 1 then (k + 1) / n == k / n + 1 && (k + 1) % n == 0
            else (k + 1) / n == k / n && (k + 1) % n == k % n + 1
  {
    if k % n == n - 1 {
      assert k + 1 == (k / n) * n + n == (k / n + 1) * n;
      EuclidUnique(k + 1, n, k / n + 1, 0);
    } else {
      EuclidUnique(k + 1, n, k / n, k % n + 1);
    }
  }

  /** A bound world goes to the worker that its id names. */
  lemma BoundById(ids: seq<WorldId>, n: nat, id: WorldId, w: nat)
    requires n > 0
    ensures id in Chunk(ids, n, BoundToWorld, w) <==> id in ids && id % n == w
  {
    ChunkHas(ids, n, BoundToWorld, w, id);
  }

  lemma DistributeIsPartition(
    all: set<WorldId>, ids: seq<WorldId>, n: nat, mode: ThreadMode, chunks: seq<seq<WorldId>>)
    requires n > 0 && Distinct(ids) && forall id :: id in all <==> id in ids
    requires |chunks| == n && forall w | 0 <= w < n :: chunks[w] == Chunk(ids, n, mode, w)
    ensures Partition(all, chunks)
  {
    forall w, id | 0 <= w < n
      ensures id in chunks[w] <==> exists i :: 0 <= i < |ids| && ids[i] == id && WorkerOf(i, id, n, mode) == w
    {
      ChunkHas(ids, n, mode, w, id);
    }
    forall w | 0 <= w < n
      ensures Distinct(chunks[w])
    {
      ChunkDistinct(ids, n, mode, w);
    }
    hide WorkerOf, Chunk;
    forall id | id in ids
      ensures exists w :: 0 <= w < n && id in chunks[w]
    {
      var i :| 0 <= i < |ids| && ids[i] == id;
      assert id in chunks[WorkerOf(i, id, n, mode)];
    }
    forall w, id | 0 <= w < n && id in chunks[w]
      ensures id in ids
    {
      var i :| 0 <= i < |ids| && ids[i] == id && WorkerOf(i, id, n, mode) == w;
    }
    forall v, w, id | 0 <= v < n && 0 <= w < n && id in chunks[v] && id in chunks[w]
      ensures v == w
    {
      var i :| 0 <= i < |ids| && ids[i] == id && WorkerOf(i, id, n, mode) == v;
      var j :| 0 <= j < |ids| && ids[j] == id && WorkerOf(j, id, n, mode) == w;
      assert i == j;
    }
  }

  /** A bound world is ticked by the same worker in every round, whichever worlds exist. */
  lemma BoundWorldsStay(ids: seq<WorldId>, more: seq<WorldId>, n: nat, id: WorldId, v: nat, w: nat)
    requires n > 0 && v < n && w < n
    requires id in Chunk(ids, n, BoundToWorld, v) && id in Chunk(more, n, BoundToWorld, w)
    ensures v == w == id % n
  {
    ChunkHas(ids, n, BoundToWorld, v, id);
    ChunkHas(more, n, BoundToWorld, w, id);
  }

  // ---- one round, as interleaved steps of the workers ----

  /** `pending` is a result computed under the lock of the worlds and not yet stored. */
  datatype Worker = Worker(todo: seq<WorldId>, pending: Option<(WorldId, nat)>)

  datatype Round<!W, C> = Round(
    worlds: map<WorldId, Entry<W, C>>, results: map<WorldId, nat>, workers: seq<Worker>)

  predicate CanStep(w: Worker) {
    w.pending.Some? || w.todo != []
  }

  /** One critical section of worker k: it stores its result, or locks the worlds and ticks the next. */
  function Step<W, C>(exec: (C, W) -> W, count: W -> nat, r: Round<W, C>, k: nat): Round<W, C>
    requires k < |r.workers| && CanStep(r.workers[k])
  {
    var w := r.workers[k];
    match w.pending
    case Some((id, n)) =>
      r.(results := r.results[id := n], workers := r.workers[k := Worker(w.todo, None)])
    case None =>
      var id := w.todo[0];
      if id !in r.worlds then r.(workers := r.workers[k := Worker(w.todo[1..], None)])
      else
        var entry := TickEntry(exec, r.worlds[id]);
        r.(worlds := r.worlds[id := entry],
           workers := r.workers[k := Worker(w.todo[1..], Some((id, count(entry.world))))])
  }

  function Begin<W, C>(worlds: map<WorldId, Entry<W, C>>, chunks: seq<seq<WorldId>>): Round<W, C> {
    Round(worlds, map[], seq(|chunks|, k requires 0 <= k < |chunks| => Worker(chunks[k], None)))
  }

  predicate Finished<W, C>(r: Round<W, C>) {
    forall k | 0 <= k < |r.workers| :: !CanStep(r.workers[k])
  }

  // ---- the invariant of a round ----

  /** Where id stands: waiting for its worker, ticked by it, or stored. */
  predicate Waits<W, C>(r: Round<W, C>, k: nat, id: WorldId)
    requires k < |r.workers|
  {
    id in r.workers[k].todo
  }

  predicate Ticked<W, C>(r: Round<W, C>, k: nat, id: WorldId)
    requires k < |r.workers|
  {
    r.workers[k].pending.Some? && r.workers[k].pending.value.0 == id
  }

  /** id belongs to worker k, which ticks it once. */
  ghost predicate Progress<W, C>(
    exec: (C, W) -> W, count: W -> nat, start: map<WorldId, Entry<W, C>>, r: Round<W, C>, k: nat, id: WorldId)
    requires k < |r.workers| && id in start && id in r.worlds
  {
    var done := TickEntry(exec, start[id]);
    if Waits(r, k, id) then r.worlds[id] == start[id] && !Ticked(r, k, id) && id !in r.results
    else
      && r.worlds[id] == done
      && (Ticked(r, k, id) ==> id !in r.results && r.workers[k].pending.value.1 == count(done.world))
      && (!Ticked(r, k, id) ==> id in r.results && r.results[id] == count(done.world))
  }

  ghost predicate RoundOk<W, C>(
    exec: (C, W) -> W, count: W -> nat, start: map<WorldId, Entry<W, C>>, chunks: seq<seq<WorldId>>, r: Round<W, C>)
  {
    && |r.workers| == |chunks| && r.worlds.Keys == start.Keys && r.results.Keys <= start.Keys
    && Partition(start.Keys, chunks)
    && (forall k | 0 <= k < |chunks| :: Distinct(r.workers[k].todo))
    && (forall k, id | 0 <= k < |chunks| && Waits(r, k, id) :: id in chunks[k])
    && (forall k, id | 0 <= k < |chunks| && Ticked(r, k, id) :: id in chunks[k])
    && (forall k, id | 0 <= k < |chunks| && id in chunks[k] :: Progress(exec, count, start, r, k, id))
  }

  lemma BeginOk<W, C>(
    exec: (C, W) -> W, count: W -> nat, start: map<WorldId, Entry<W, C>>, chunks: seq<seq<WorldId>>)
    requires Partition(start.Keys, chunks)
    ensures RoundOk(exec, count, start, chunks, Begin(start, chunks))
  {
  }

  /** The world that worker k's next step is about. */
  function Current(w: Worker): WorldId
    requires CanStep(w)
  {
    if w.pending.Some? then w.pending.value.0 else w.todo[0]
  }

  lemma StepProgress<W, C>(
    exec: (C, W) -> W, count: W -> nat, start: map<WorldId, Entry<W, C>>, r: Round<W, C>, k: nat, j: nat, id: WorldId)
    requires k < |r.workers| && CanStep(r.workers[k]) && j < |r.workers| && Current(r.workers[k]) in r.worlds
    requires id in start && id in r.worlds && Progress(exec, count, start, r, j, id)
    requires Distinct(r.workers[k].todo) && (id == Current(r.workers[k]) ==> j == k)
    ensures Progress(exec, count, start, Step(exec, count, r, k), j, id)
  {
    hide TickEntry;
    var w := r.workers[k];
    if w.pending.None? {
      assert w.todo == [w.todo[0]] + w.todo[1..];
      assert w.todo[0] !in w.todo[1..];
    }
  }

  lemma CurrentIsOwn<W, C>(
    exec: (C, W) -> W, count: W -> nat, start: map<WorldId, Entry<W, C>>, chunks: seq<seq<WorldId>>,
    r: Round<W, C>, k: nat)
    requires RoundOk(exec, count, start, chunks, r) && k < |r.workers| && CanStep(r.workers[k])
    ensures var id := Current(r.workers[k]);
            id in chunks[k] && id in start && forall j | 0 <= j < |chunks| && id in chunks[j] :: j == k
  {
    hide Progress, Distinct;
    var w := r.workers[k];
    if w.pending.None? {
      assert Waits(r, k, w.todo[0]);
    } else {
      assert Ticked(r, k, w.pending.value.0);
    }
  }

  lemma StepWorkers<W, C>(exec: (C, W) -> W, count: W -> nat, r: Round<W, C>, k: nat)
    requires k < |r.workers| && CanStep(r.workers[k]) && Current(r.workers[k]) in r.worlds
    ensures var r' := Step(exec, count, r, k);
            && |r'.workers| == |r.workers| && r'.worlds.Keys == r.worlds.Keys
            && r'.results.Keys <= r.results.Keys + {Current(r.workers[k])}
            && (forall j | 0 <= j < |r.workers| && Distinct(r.workers[j].todo) :: Distinct(r'.workers[j].todo))
            && (forall j, id | 0 <= j < |r.workers| && Waits(r', j, id) :: Waits(r, j, id))
            && (forall j, id | 0 <= j < |r.workers| && Ticked(r', j, id) ::
                  Ticked(r, j, id) || (j == k && id == Current(r.workers[k])))
  {
    hide TickEntry;
    var w := r.workers[k];
    if w.pending.None? {
      assert w.todo == [w.todo[0]] + w.todo[1..];
    }
  }

  lemma StepOk<W, C>(
    exec: (C, W) -> W, count: W -> nat, start: map<WorldId, Entry<W, C>>, chunks: seq<seq<WorldId>>,
    r: Round<W, C>, k: nat)
    requires RoundOk(exec, count, start, chunks, r) && k < |r.workers| && CanStep(r.workers[k])
    ensures RoundOk(exec, count, start, chunks, Step(exec, count, r, k))
  {
    hide Step, Progress, Waits, Ticked, Distinct, Partition, Current;
    CurrentIsOwn(exec, count, start, chunks, r, k);
    StepWorkers(exec, count, r, k);
    var r' := Step(exec, count, r, k);
    forall j, id | 0 <= j < |chunks| && id in chunks[j]
      ensures id in start && id in r'.worlds && Progress(exec, count, start, r', j, id)
    {
      OwnIsKnown(start.Keys, chunks, j, id);
      StepProgress(exec, count, start, r, k, j, id);
    }
  }

  lemma OwnIsKnown(ids: set<WorldId>, chunks: seq<seq<WorldId>>, j: nat, id: WorldId)
    requires Partition(ids, chunks) && j < |chunks| && id in chunks[j]
    ensures id in ids
  {
  }

  /** When every worker is done, each world has been ticked exactly once. */
  lemma FinishedRound<W, C>(
    exec: (C, W) -> W, count: W -> nat, start: map<WorldId, Entry<W, C>>, chunks: seq<seq<WorldId>>, r: Round<W, C>)
    requires RoundOk(exec, count, start, chunks, r) && Finished(r)
    ensures r.worlds == map id | id in start :: TickEntry(exec, start[id])
    ensures r.results == map id | id in start :: count(TickEntry(exec, start[id]).world)
  {
    hide TickEntry;
    forall id | id in start
      ensures r.worlds[id] == TickEntry(exec, start[id])
      ensures id in r.results && r.results[id] == count(TickEntry(exec, start[id]).world)
    {
      var k :| 0 <= k < |chunks| && id in chunks[k];
      assert Progress(exec, count, start, r, k, id);
      assert !CanStep(r.workers[k]);
    }
  }

  // ---- every interleaving comes to the same end ----

  predicate Runs<W, C>(exec: (C, W) -> W, count: W -> nat, r: Round<W, C>, steps: seq<nat>)
    decreases |steps|
  {
    steps == []
    || (steps[0] < |r.workers| && CanStep(r.workers[steps[0]])
        && Runs(exec, count, Step(exec, count, r, steps[0]), steps[1..]))
  }

  function After<W, C>(exec: (C, W) -> W, count: W -> nat, r: Round<W, C>, steps: seq<nat>): Round<W, C>
    requires Runs(exec, count, r, steps)
    decreases |steps|
  {
    if steps == [] then r else After(exec, count, Step(exec, count, r, steps[0]), steps[1..])
  }

  lemma {:induction false} RunOk<W, C>(
    exec: (C, W) -> W, count: W -> nat, start: map<WorldId, Entry<W, C>>, chunks: seq<seq<WorldId>>,
    r: Round<W, C>, steps: seq<nat>)
    requires RoundOk(exec, count, start, chunks, r) && Runs(exec, count, r, steps)
    ensures RoundOk(exec, count, start, chunks, After(exec, count, r, steps))
    decreases |steps|
  {
    hide RoundOk, Step;
    if steps != [] {
      StepOk(exec, count, start, chunks, r, steps[0]);
      RunOk(exec, count, start, chunks, Step(exec, count, r, steps[0]), steps[1..]);
    }
  }

  /** Whatever the scheduling of the threads: once all workers are done every world has been ticked
    * exactly once, and there is one result for each. */
  lemma EveryInterleavingTicksOnce<W, C>(
    exec: (C, W) -> W, count: W -> nat, start: map<WorldId, Entry<W, C>>, chunks: seq<seq<WorldId>>, steps: seq<nat>)
    requires Partition(start.Keys, chunks) && Runs(exec, count, Begin(start, chunks), steps)
    requires Finished(After(exec, count, Begin(start, chunks), steps))
    ensures var r := After(exec, count, Begin(start, chunks), steps);
            && r.worlds == (map id | id in start :: TickEntry(exec, start[id]))
            && r.results == (map id | id in start :: count(TickEntry(exec, start[id]).world))
  {
    hide RoundOk, Step;
    BeginOk(exec, count, start, chunks);
    RunOk(exec, count, start, chunks, Begin(start, chunks), steps);
    FinishedRound(exec, count, start, chunks, After(exec, count, Begin(start, chunks), steps));
  }

  /** Ticking the worlds one after another. */
  function Sequential<W, C>(exec: (C, W) -> W, worlds: map<WorldId, Entry<W, C>>, order: seq<WorldId>)
    : map<WorldId, Entry<W, C>>
    decreases |order|
  {
    if order == [] then worlds
    else if order[0] !in worlds then Sequential(exec, worlds, order[1..])
    else Sequential(exec, worlds[order[0] := TickEntry(exec, worlds[order[0]])], order[1..])
  }

  lemma {:induction false} SequentialTicks<W, C>(
    exec: (C, W) -> W, worlds: map<WorldId, Entry<W, C>>, order: seq<WorldId>)
    requires Distinct(order)
    ensures Sequential(exec, worlds, order) ==
            map id | id in worlds :: if id in order then TickEntry(exec, worlds[id]) else worlds[id]
    decreases |order|
  {
    hide TickEntry;
    if order != [] {
      assert order == [order[0]] + order[1..];
      var ticked := if order[0] in worlds then worlds[order[0] := TickEntry(exec, worlds[order[0]])] else worlds;
      SequentialTicks(exec, ticked, order[1..]);
    }
  }

  /** The parallel round leaves the worlds as ticking them in sequence would, in any order. */
  lemma ParallelIsSequential<W, C>(
    exec: (C, W) -> W, count: W -> nat, start: map<WorldId, Entry<W, C>>, chunks: seq<seq<WorldId>>, steps: seq<nat>,
    order: seq<WorldId>)
    requires Partition(start.Keys, chunks) && Runs(exec, count, Begin(start, chunks), steps)
    requires Finished(After(exec, count, Begin(start, chunks), steps))
    requires Distinct(order) && forall id :: id in order <==> id in start
    ensures After(exec, count, Begin(start, chunks), steps).worlds == Sequential(exec, start, order)
  {
    hide TickEntry, Runs, After;
    EveryInterleavingTicksOnce(exec, count, start, chunks, steps);
    SequentialTicks(exec, start, order);
  }

  /** Critical sections still to come. */
  function Work(workers: seq<Worker>): nat {
    if workers == [] then 0
    else
      var w := workers[|workers| - 1];
      Work(workers[..|workers| - 1]) + 2 * |w.todo| + if w.pending.Some? then 1 else 0
  }

  lemma {:induction false} WorkUpdate(workers: seq<Worker>, k: nat, w: Worker)
    requires k < |workers|
    ensures Work(workers[k := w]) + 2 * |workers[k].todo| + (if workers[k].pending.Some? then 1 else 0)
         == Work(workers) + 2 * |w.todo| + (if w.pending.Some? then 1 else 0)
  {
    var n := |workers| - 1;
    if k < n {
      WorkUpdate(workers[..n], k, w);
      assert workers[k := w][..n] == workers[..n][k := w];
    } else {
      assert workers[k := w][..n] == workers[..n];
    }
  }

  /** Each step is progress, so every round ends. */
  lemma StepsUseUpWork<W, C>(exec: (C, W) -> W, count: W -> nat, r: Round<W, C>, k: nat)
    requires k < |r.workers| && CanStep(r.workers[k])
    ensures Work(Step(exec, count, r, k).workers) < Work(r.workers)
  {
    WorkUpdate(r.workers, k, Step(exec, count, r, k).workers[k]);
    assert Step(exec, count, r, k).workers == r.workers[k := Step(exec, count, r, k).workers[k]];
  }

  // ---- what a tick does to a world ----

  /** Without queued commands a tick runs the systems; a command queued last takes effect after the
    * others and before the systems; afterwards nothing is queued. */
  lemma TickMeans<W, C>(exec: (C, W) -> W, entry: Entry<W, C>, c: C)
    ensures TickEntry(exec, entry).queue == [] && TickEntry(exec, entry).schedule == entry.schedule
    ensures TickEntry(exec, entry.(queue := [])).world == entry.schedule(entry.world)
    ensures TickEntry(exec, entry.(queue := entry.queue + [c])).world
         == entry.schedule(exec(c, Queue.Execute(exec, entry.queue, entry.world)))
  {
    Queue.ExecuteAppend(exec, entry.queue, c, entry.world);
  }

  lemma TickIs<W, C>(exec: (C, W) -> W, entry: Entry<W, C>)
    ensures TickEntry(exec, entry).queue == [] && TickEntry(exec, entry).schedule == entry.schedule
    ensures entry.queue == [] ==> TickEntry(exec, entry).world == entry.schedule(entry.world)
  {
  }

  // ---- runs: queueing a command is as good as executing it at once ----

  datatype Event<!W, C> =
    | Register(id: WorldId, world: W, schedule: W -> W)
    | Unregister(id: WorldId)
    | Submit(id: WorldId, command: C)
    | Tick

  /** What the scheduler makes of a call. */
  function Handled<W, C>(exec: (C, W) -> W, worlds: map<WorldId, Entry<W, C>>, event: Event<W, C>)
    : map<WorldId, Entry<W, C>>
  {
    match event
    case Register(id, world, schedule) => if id in worlds then worlds else worlds[id := Entry(world, schedule, [])]
    case Unregister(id) => worlds - {id}
    case Submit(id, command) =>
      if id in worlds && |worlds[id].queue| < QUEUE_CAPACITY
      then worlds[id := worlds[id].(queue := worlds[id].queue + [command])]
      else worlds
    case Tick => map id | id in worlds :: TickEntry(exec, worlds[id])
  }

  /** A world whose commands are executed as they come; only their number since the last round is kept. */
  datatype Live<!W> = Live(world: W, schedule: W -> W, pending: nat)

  function AtOnce<W, C>(exec: (C, W) -> W, lives: map<WorldId, Live<W>>, event: Event<W, C>): map<WorldId, Live<W>> {
    match event
    case Register(id, world, schedule) => if id in lives then lives else lives[id := Live(world, schedule, 0)]
    case Unregister(id) => lives - {id}
    case Submit(id, command) =>
      if id in lives && lives[id].pending < 1024
      then lives[id := Live(exec(command, lives[id].world), lives[id].schedule, lives[id].pending + 1)]
      else lives
    case Tick => map id | id in lives :: Live(lives[id].schedule(lives[id].world), lives[id].schedule, 0)
  }

  function HandledAll<W, C>(exec: (C, W) -> W, worlds: map<WorldId, Entry<W, C>>, events: seq<Event<W, C>>)
    : map<WorldId, Entry<W, C>>
    decreases |events|
  {
    if events == [] then worlds else HandledAll(exec, Handled(exec, worlds, events[0]), events[1..])
  }

  function AllAtOnce<W, C>(exec: (C, W) -> W, lives: map<WorldId, Live<W>>, events: seq<Event<W, C>>)
    : map<WorldId, Live<W>>
    decreases |events|
  {
    if events == [] then lives else AllAtOnce(exec, AtOnce(exec, lives, events[0]), events[1..])
  }

  /** The queued commands make up the difference. */
  ghost predicate Behind<W, C>(exec: (C, W) -> W, worlds: map<WorldId, Entry<W, C>>, lives: map<WorldId, Live<W>>) {
    && worlds.Keys == lives.Keys
    && forall id | id in worlds ::
         lives[id] == Live(Queue.Execute(exec, worlds[id].queue, worlds[id].world), worlds[id].schedule,
                           |worlds[id].queue|)
  }

  lemma HandledStaysBehind<W, C>(
    exec: (C, W) -> W, worlds: map<WorldId, Entry<W, C>>, lives: map<WorldId, Live<W>>, event: Event<W, C>)
    requires Behind(exec, worlds, lives)
    ensures Behind(exec, Handled(exec, worlds, event), AtOnce(exec, lives, event))
  {
    hide Queue.Execute;
    match event
    case Register(_, world, _) => Queue.NothingExecuted(exec, world);
    case Submit(id, command) =>
      if id in worlds {
        Queue.ExecuteAppend(exec, worlds[id].queue, command, worlds[id].world);
      }
    case Tick =>
      forall id | id in worlds
        ensures var after := TickEntry(exec, worlds[id]); Queue.Execute(exec, after.queue, after.world) == after.world
      {
        Queue.NothingExecuted(exec, TickEntry(exec, worlds[id]).world);
      }
    case _ =>
  }

  lemma {:induction false} RunStaysBehind<W, C>(
    exec: (C, W) -> W, worlds: map<WorldId, Entry<W, C>>, lives: map<WorldId, Live<W>>, events: seq<Event<W, C>>)
    requires Behind(exec, worlds, lives)
    ensures Behind(exec, HandledAll(exec, worlds, events), AllAtOnce(exec, lives, events))
    decreases |events|
  {
    hide Behind, Handled, AtOnce;
    if events != [] {
      HandledStaysBehind(exec, worlds, lives, events[0]);
      RunStaysBehind(exec, Handled(exec, worlds, events[0]), AtOnce(exec, lives, events[0]), events[1..]);
    }
  }

  /** After every round of every run, each world is what it would be had each accepted command been
    * executed when it was submitted: all of them have taken effect once, in their order, ahead of the
    * systems of the round and behind those of the round before. */
  lemma RoundsAreImmediate<W, C>(exec: (C, W) -> W, events: seq<Event<W, C>>)
    ensures var worlds, lives := HandledAll(exec, map[], events + [Tick]), AllAtOnce(exec, map[], events + [Tick]);
            && worlds.Keys == lives.Keys
            && forall id | id in worlds ::
                 worlds[id].world == lives[id].world && worlds[id].schedule == lives[id].schedule
                 && worlds[id].queue == []
  {
    var before := HandledAll(exec, map[], events);
    RunStaysBehind(exec, map[], map[], events);
    HandledStaysBehind(exec, before, AllAtOnce(exec, map[], events), Tick);
    LastEvent(exec, map[], map[], events, Tick);
  }

  lemma {:induction false} LastEvent<W, C>(
    exec: (C, W) -> W, worlds: map<WorldId, Entry<W, C>>, lives: map<WorldId, Live<W>>, events: seq<Event<W, C>>,
    last: Event<W, C>)
    ensures HandledAll(exec, worlds, events + [last]) == Handled(exec, HandledAll(exec, worlds, events), last)
    ensures AllAtOnce(exec, lives, events + [last]) == AtOnce(exec, AllAtOnce(exec, lives, events), last)
    decreases |events|
  {
    hide Handled, AtOnce;
    if events == [] {
      assert events + [last] == [last];
      assert HandledAll(exec, Handled(exec, worlds, last), [last][1..]) == Handled(exec, worlds, last);
      assert AllAtOnce(exec, AtOnce(exec, lives, last), [last][1..]) == AtOnce(exec, lives, last);
    } else {
      assert (events + [last])[1..] == events[1..] + [last];
      LastEvent(exec, Handled(exec, worlds, events[0]), AtOnce(exec, lives, events[0]), events[1..], last);
    }
  }

  // ---- the scheduler ----

  class InstanceScheduler<!W, C> {
    const exec: (C, W) -> W
    const count: W -> nat
    const mode: ThreadMode
    const workerCount: nat
    var worlds: map<WorldId, Entry<W, C>>
    var nextId: WorldId

    constructor (mode: ThreadMode, workerCount: nat, exec: (C, W) -> W, count: W -> nat)
      ensures worlds == map[] && nextId == 0
      ensures this.exec == exec && this.count == count
    {
      this.mode, this.workerCount, this.exec, this.count := mode, workerCount, exec, count;
      worlds, nextId := map[], 0;
    }

    method RegisterWorld(id: WorldId, world: W, schedule: W -> W) returns (ok: bool)
      modifies this`worlds
      ensures ok == (id !in old(worlds))
      ensures worlds == if ok then old(worlds)[id := Entry(world, schedule, [])] else old(worlds)
      ensures worlds == Handled(exec, old(worlds), Register(id, world, schedule))
    {
      if id in worlds {
        return false;
      }
      worlds := worlds[id := Entry(world, schedule, [])];
      return true;
    }

    /** None is the panic that the source calls unreachable: the next id is taken. */
    method RegisterNewWorld(world: W, schedule: W -> W) returns (id: Option<WorldId>)
      modifies this
      ensures id == if old(nextId) in old(worlds) then None else Some(old(nextId))
      ensures worlds == if id.Some? then old(worlds)[id.value := Entry(world, schedule, [])] else old(worlds)
      ensures nextId == if old(nextId) < 0xFFFF_FFFF then old(nextId) + 1 else old(nextId)
    {
      var next := nextId;
      nextId := if nextId < MAX_ID then nextId + 1 else nextId;
      var ok := RegisterWorld(next, world, schedule);
      return if ok then Some(next) else None;
    }

    method UnregisterWorld(id: WorldId) returns (r: Option<(W, W -> W)>)
      modifies this`worlds
      ensures worlds == old(worlds) - {id} == Handled(exec, old(worlds), Unregister(id))
      ensures r == if id in old(worlds) then Some((old(worlds)[id].world, old(worlds)[id].schedule)) else None
    {
      r := if id in worlds then Some((worlds[id].world, worlds[id].schedule)) else None;
      worlds := worlds - {id};
    }

    /** Refused when the world is unknown or its queue is full; otherwise queued last. */
    method Submit(id: WorldId, command: C) returns (ok: bool)
      modifies this`worlds
      ensures ok == (id in old(worlds) && |old(worlds)[id].queue| < QUEUE_CAPACITY)
      ensures worlds == if ok then old(worlds)[id := old(worlds)[id].(queue := old(worlds)[id].queue + [command])]
                        else old(worlds)
      ensures worlds == Handled(exec, old(worlds), Event.Submit(id, command))
    {
      if id !in worlds || |worlds[id].queue| >= QUEUE_CAPACITY {
        return false;
      }
      var entry := worlds[id];
      worlds := worlds[id := entry.(queue := entry.queue + [command])];
      return true;
    }

    method Ids() returns (ids: seq<WorldId>)
      ensures Distinct(ids) && forall id :: id in ids <==> id in worlds
    {
      ids := [];
      var todo := worlds.Keys;
      while todo != {}
        invariant todo <= worlds.Keys && Distinct(ids)
        invariant forall id :: id in ids <==> id in worlds && id !in todo
        decreases |todo|
      {
        var id :| id in todo;
        ids := ids + [id];
        todo := todo - {id};
      }
    }

    /** One round, the scheduling of the threads being arbitrary. */
    method TickAll() returns (stats: seq<(WorldId, nat)>)
      modifies this`worlds
      ensures worlds == map id | id in old(worlds) :: TickEntry(exec, old(worlds)[id])
      ensures worlds == Handled(exec, old(worlds), Tick)
      ensures forall id | id in old(worlds) :: worlds[id].queue == [] && worlds[id].schedule == old(worlds)[id].schedule
      ensures forall id | id in old(worlds) && old(worlds)[id].queue == [] ::
                worlds[id].world == old(worlds)[id].schedule(old(worlds)[id].world)
      ensures forall i, j | 0 <= i < j < |stats| :: stats[i].0 < stats[j].0
      ensures forall p :: p in stats <==> p.0 in old(worlds) && p.1 == count(worlds[p.0].world)
    {
      hide TickEntry, RoundOk, Partition, Step;
      var ids := Ids();
      var n := if workerCount >= 1 then workerCount else 1;
      var chunks := Distribute(ids, n, mode);
      DistributeIsPartition(worlds.Keys, ids, n, mode, chunks);
      ghost var start := worlds;
      BeginOk(exec, count, start, chunks);
      var r := Begin(worlds, chunks);
      while exists k :: 0 <= k < |r.workers| && CanStep(r.workers[k])
        invariant RoundOk(exec, count, start, chunks, r)
        decreases Work(r.workers)
      {
        var k :| 0 <= k < |r.workers| && CanStep(r.workers[k]);
        StepOk(exec, count, start, chunks, r, k);
        StepsUseUpWork(exec, count, r, k);
        r := Step(exec, count, r, k);
      }
      FinishedRound(exec, count, start, chunks, r);
      forall id | id in start
        ensures TickEntry(exec, start[id]).queue == [] && TickEntry(exec, start[id]).schedule == start[id].schedule
        ensures start[id].queue == [] ==> TickEntry(exec, start[id]).world == start[id].schedule(start[id].world)
      {
        TickIs(exec, start[id]);
      }
      worlds := r.worlds;
      stats := Sorted(r.results, ids);
    }

    static method Sorted(results: map<WorldId, nat>, ids: seq<WorldId>) returns (stats: seq<(WorldId, nat)>)
      requires Distinct(ids) && forall id :: id in ids <==> id in results
      ensures forall i, j | 0 <= i < j < |stats| :: stats[i].0 < stats[j].0
      ensures forall p :: p in stats <==> p.0 in results && p.1 == results[p.0]
    {
      var sorted := SortAscending(ids);
      stats := seq(|sorted|, i requires 0 <= i < |sorted| && sorted[i] in results => (sorted[i], results[sorted[i]]));
      forall p: (WorldId, nat) | p.0 in results && p.1 == results[p.0]
        ensures p in stats
      {
        var i :| 0 <= i < |sorted| && sorted[i] == p.0;
        assert stats[i] == p;
      }
    }
  }

  /** Registering id 0 by hand makes the first automatic registration fail. */
  method FirstIdTaken<W, C>(mode: ThreadMode, exec: (C, W) -> W, count: W -> nat, world: W, schedule: W -> W)
    returns (byHand: bool, id: Option<WorldId>)
    ensures byHand && id == None
  {
    var scheduler := new InstanceScheduler(mode, 1, exec, count);
    byHand := scheduler.RegisterWorld(0, world, schedule);
    id := scheduler.RegisterNewWorld(world, schedule);
  }
}
