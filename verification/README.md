# Verified model of the particlemc framework

The particlemc framework is a Minecraft server framework on an entity-component-system kernel. This
project models the parts of it whose correctness is hard to see and proves what they are for.

| files | what they model |
|---|---|
| `QueueProtocol`, `QueueTheorems`, `QueueOrder`, `QueueAnswers`, `Queue` | the lock-free bounded ring: a step system with any number of producers and consumers, one inductive invariant, theorems over every reachable state and run, when completion order is delivery order, and what callers see of it all; then the ring as an array object, and the command queue that drains it |
| `Heuristics`, `Walks`, `Pathfinding` | A* with its three heuristics and its generators, and the geometry that its results are measured by |
| `Entity`, `EntityHistory` | packed handles, the generational arena, and runs of it with and without exact placement |
| `World`, `WorldObject`, `WorldRefinement`, `WorldPlaces` | archetype rows, dense and sparse columns, the reverse index; every operation keeps them in agreement, and the whole refines a plain map from entity to components; which slot, row and archetype an entity gets |
| `Migration`, `Query`, `Commands` | moving an entity between worlds, iterating and looking entities up, deferred commands with tokens |
| `WorldHistory`, `WorldScenarios` | runs of many worlds with migrations between them, and which handles they repeat; concrete worlds that surprise their callers |
| `Schedule`, `ScheduleRuns`, `FixedClock`, `Scheduler` | Kahn layering with the cycle fallback, the fixed-step clock, worker threads that tick worlds under a lock |
| `Inventory`, `InventoryTheorems`, `InventoryLimits`, `InventoryEffects`, `InventoryScenarios`, `InventoryObject` | the seven click modes over 46 slots and a cursor, with the drag that can be rolled back; what they conserve, when they overfill a stack, what each does to every slot, and when a drag is open; concrete runs that lose items or mislead the client |
| `Anvil`, `AnvilLoader`, `AnvilObject` | region files, and the chunk loader over saves and restarts |
| `Bytes`, `Nbt`, `NbtTruncation`, `TextComponent`, `ItemStack`, `ItemCodec` | byte primitives, NBT, text components and item stacks, each with its decoder |
| `WireForms`, `MalformedForms` | the bytes of all of these and of region files, field by field, and what the decoders make of bytes that no encoder wrote |
| `Arithmetic`, `Sorting`, `Wrappers` | what several of the others need |

Code that changes an object in place is modelled by a class or a method with a loop, proved equal to a
specification function on values; the theorems are about those functions. `WorldObjects.World.Despawn`,
for one, is proved equal to `Worlds.Despawn`, which `WorldRefinement.DespawnRefines` proves to be a
removal from a map.

## How to read the model

- **Ring.** Each atomic access is one step, and every step may be interleaved with the steps of any
  other thread; a compare-exchange may fail for no reason. Counters are unbounded, and the slot of a
  position is the position modulo the capacity. `reserved`, `claimed`, `completed` and `delivered` are
  logs that no step reads.
- **A\*.** Costs are exact reals, and the square root is a parameter that must be exact on naturals.
  `PreciseGroundNodeGenerator` is `AStar` with the fixed step limit, and `WaterNodeGenerator` is
  `GroundNodeGenerate`.
- **World.** Component types are ids that carry their storage kind, and values are payloads with one
  default.
- **Migration, queries, directories.** Where the source walks a hash map, the order is an arbitrary
  enumeration, or a set from which any element may be taken next.
- **Scheduler.** One step is one critical section of one worker; a round is any sequence of steps that
  finishes. Worlds, commands and schedules are abstract values and functions.
- **Inventory.** Conservation is by material and amount, because merging stacks drops components.
- **Region files.** A directory maps regions to file contents, and the zlib codec is a parameter that
  only has to undo itself.
- **Codecs.** A decoder takes the unread bytes and returns what it left. Signed and floating-point
  fields are their bit patterns.

## Where the code does not do what it says

- The ring's documentation says that the pop order is the completion order of the pushes
  (crates/particlemc-framework-ecs/src/queue.rs:102-103). It is the order in which positions are
  reserved: in the run of `MpmcOrder.CompletionOrderIsNotDeliveryOrder` the push that returns first is
  delivered last. Two pushes return against their positions if and only if the later one is published
  while the earlier one is still between its compare-exchange and its sequence store
  (`MpmcOrder.ReturnsAgainstPositionsIff`); so the documented order holds whenever no push begins while
  another is in flight (`MpmcOrder.SerialPushesKeepOrder`), and always between a push that has returned
  and one that starts afterwards (`MpmcOrder.RealTimeOrder`). In `MpmcTheorems.HeadStalls` an element
  that was pushed completely is not delivered, because an older push has stalled.
- The clock's documentation forbids mixing `tick` with `advance` and `step`. Mixing them is harmless:
  `FixedClocks.NeverDriftsIff`. What does drift is a step length of 2^64 nanoseconds or more. Above
  1 GHz, which the constructor accepts, the step length is 0: a tick divides by zero
  (`FixedClocks.FixedClock.Tick`), and the documented loop over `step` never ends
  (`FixedClocks.TakingStepsEndsIff`).
- `register_new_world` calls the failure of `register_world` unreachable. It is reached exactly when
  the next id is taken: `Schedulers.InstanceScheduler.RegisterNewWorld`, with a case in
  `Schedulers.FirstIdTaken`.
- A bundle is said to be written with all its components
  (crates/particlemc-framework-ecs/src/world.rs:53). Its dense ones are silently lost:
  `DeferredCommands.BundleKeepsSparseValues`, with a case in `WorldScenarios.DenseBundleValueIsLost`.
- The limit of a slot is documented to be the `max_stack_size` of its item. A shift click goes by the
  limit of the stack that it moves, and a merge drops the components that raise a limit; so a slot may
  end above its own limit: exactly when, says `InventoryLimits.ApplyClickKeepsLimitsIff`, with a case in
  `InventoryLimits.ShiftClickOverfills`. Stacks of the default limit are never overfilled
  (`InventoryLimits.PlainRunsStayInLimits`).
- Closing the window with an empty cursor may roll a slot back to air without telling the client:
  `InventoryTheorems.DropCursorAnnouncesIff`, reached in `InventoryScenarios.CloseIsNotAnnounced`.
- A click that reports no change may change a slot: exactly a shift click, outside a drag, on a stack
  with components for which the other range has no room. It strips the components:
  `InventoryTheorems.SilentChangeIff`, with a case in `InventoryScenarios.ShiftClickStrips`.
- A chunk of 256 sectors or more is saved, loads from memory, and is gone after a restart, though
  `contains` goes on listing it unless its sector count is a multiple of 256:
  `AnvilLoaders.RestartLoads`, with both cases in `AnvilLoaders.BigChunkIsLost`.

## Worth knowing

What follows is documented, or nothing in the source says otherwise; the theorems give its exact extent.

- Placing an exact handle with an older generation lets allocation hand out a handle a second time,
  and only that does: `EntityHistory.PlacementIsSafeIffForward`, with a witness in
  `EntityHistory.PlacementCanReviveAHandle`. For worlds it takes no more than a migration away and back,
  with the slot used again in between: `WorldHistory.MoveIsSafeIffForward`, with a case in
  `WorldScenarios.ReturningTurnsASlotBack`; runs without such a turn are safe
  (`WorldHistory.ForwardRunsNeverReissue`). Slots that exact placement skips over are never allocated
  (`EntityHistory.SkippedIsNeverIssued`), until an exact placement names them
  (`EntityHistory.SkippedUntilPlaced`).
- A migration that fails at a missing column has already moved the entity, as its documentation warns:
  `Migration.EntitiesAreConserved`. The values ahead of that column have moved with it and the others
  are gone: `Migration.PrefixMoves`, with a case in `WorldScenarios.FailedMigrationLosesTheValue`.
- `Query::contains` answers for the archetype, as documented, so it may be true where `get` refuses the
  entity: for want of a sparse value, or because the column of a dense component that the archetype
  declares was never created. See `Queries.Query.Contains`, with a case in
  `WorldScenarios.ContainsWhatGetRefuses`.
- Cancelling a drag restores the slots and, as documented, leaves the cursor alone, so the placed items
  are lost: `InventoryTheorems.CancelConservesIff`; `InventoryScenarios.CancelLosesItems` is a run of
  four clicks that loses ten.
- The elements of a list must have one type, by the encoder's own precondition. A mixed list is encoded
  all the same, and cannot be read back: `Nbt.AnonymousRoundTripIff`, with a case in
  `Nbt.MixedListIsLost`.
- An item whose `max_stack_size` is 0 cannot be added; `add_item` hands it back and leaves an empty copy of
  it in every empty slot: `InventoryEffects.AddItemRefused`.
- A world that is unregistered takes the commands that wait in its queue with it, unexecuted:
  `Schedulers.InstanceScheduler.UnregisterWorld`.
- `set_at` after `remove` of the same id leaves a patch that both sets and removes it:
  `Items.SetAtContradictsIff`.

## Model

| member | source | states |
|---|---|---|
| MpmcProtocol.InitInv | crates/particlemc-framework-ecs/src/queue.rs:81-98 | a new ring, slot i carrying sequence i, meets the invariant |
| MpmcProtocol.ActKeepsInv | crates/particlemc-framework-ecs/src/queue.rs:104-192 | every atomic step of every thread, spurious compare-exchange failures included, keeps the invariant on sequence numbers, thread positions, cells and logs |
| MpmcProtocol.IndexIsModulo | crates/particlemc-framework-ecs/src/queue.rs:85-98 | the slot of a position is the position modulo the capacity |
| MpmcProtocol.SameSlotFarApart | crates/particlemc-framework-ecs/src/queue.rs:104-192 | two positions of one slot are a whole turn apart |
| MpmcTheorems.CountersStayWithinOneTurn | crates/particlemc-framework-ecs/src/queue.rs:104-192 | in every reachable state dequeue_pos <= enqueue_pos <= dequeue_pos + capacity |
| MpmcTheorems.MutualExclusion | crates/particlemc-framework-ecs/src/queue.rs:104-192 | in every reachable state two threads between their compare-exchange and their sequence store hold different slots |
| MpmcTheorems.CellAccessesAreSafe | crates/particlemc-framework-ecs/src/queue.rs:115-183 | a read hits an initialised value, a write hits an empty cell, and the sequence checked before the compare-exchange still stands |
| MpmcTheorems.EveryItemIsInOnePlace | crates/particlemc-framework-ecs/src/queue.rs:104-192 | every reserved item is in exactly one place: being written, in the ring, being read, or handed out once; nothing is lost or doubled |
| MpmcTheorems.PopReturnsWhatPushWrote | crates/particlemc-framework-ecs/src/queue.rs:149-192 | the pop that wins position p returns the value of the push that won p, and no other pop does |
| MpmcTheorems.FullIff | crates/particlemc-framework-ecs/src/queue.rs:104-146 | push answers Full exactly when it looks at the newest position and the position one turn earlier is not released |
| MpmcTheorems.EmptyIff | crates/particlemc-framework-ecs/src/queue.rs:149-192 | pop answers None exactly when it looks at the head position and that is not published |
| MpmcTheorems.FifoInReservationOrder | crates/particlemc-framework-ecs/src/queue.rs:104-192 | with one draining consumer the k-th delivery of any run is position k with the value its push reserved |
| MpmcTheorems.ProducerOrderIsKept | crates/particlemc-framework-ecs/src/queue.rs:104-192 | two pushes of one producer are delivered in the order in which they returned |
| MpmcTheorems.PushAloneEnqueues | crates/particlemc-framework-ecs/src/queue.rs:104-146 | an undisturbed push appends to the contents, or answers Full exactly when the ring holds capacity items |
| MpmcTheorems.PopAloneDequeues | crates/particlemc-framework-ecs/src/queue.rs:149-192 | an undisturbed pop takes the oldest item, or answers None exactly when there is none |
| MpmcTheorems.HeadStalls | crates/particlemc-framework-ecs/src/queue.rs:99-192 | a reachable state where a completed push is not delivered because an older one stalls |
| MpmcOrder.RealTimeOrder | crates/particlemc-framework-ecs/src/queue.rs:104-192 | a push that has returned has a lower position than every push that wins its position later, and a single consumer is given its item first |
| MpmcOrder.ReturnsAgainstPositionsIff | crates/particlemc-framework-ecs/src/queue.rs:102-146 | two pushes return against the order of their positions if and only if at some moment the later one is published while the earlier one is between its compare-exchange and its sequence store |
| MpmcOrder.SerialPushesKeepOrder | crates/particlemc-framework-ecs/src/queue.rs:102-146 | when no push begins while another is in flight, pushes return in the order of their positions, and a single consumer is given the items in the order in which the pushes returned |
| MpmcOrder.CompletionOrderIsNotDeliveryOrder | crates/particlemc-framework-ecs/src/queue.rs:102-103 | a reachable state in which the pushes returned in the order 1, 0 and one consumer was given the items in the order 0, 1 |
| MpmcAnswers.StepAnswers | crates/particlemc-framework-ecs/src/queue.rs:104-192 | from any state that meets the invariant: a step that answers Pushed completes the position that this very call reserved with its own value, a step that answers with a value delivers the position that this call claimed, a step that answers Full or None changes nothing else, and no other step answers |
| MpmcAnswers.RefusalsAreJustified | crates/particlemc-framework-ecs/src/queue.rs:104-192 | in every reachable state, whichever step answers Full, the position one turn before the newest is not released; whichever answers None, the head position is not published |
| MpmcAnswers.AnswersAreTrue | crates/particlemc-framework-ecs/src/queue.rs:104-192 | over any run, the pushes that were told Pushed, and the values that pops were given, are one for one the completed and the delivered positions, with the values that the calls were made with; push answers Pushed or Full, pop a value or None |
| MpmcAnswers.AcceptedIsPoppedOrWaiting | crates/particlemc-framework-ecs/src/queue.rs:104-192 | whenever no call is under way, the values whose push was told Pushed are, as a multiset, those that pops were given and those in the ring |
| MpmcAnswers.FinishesAlone | crates/particlemc-framework-ecs/src/queue.rs:104-192 | from every reachable state a call that runs alone answers within six steps, whatever the others left undone |
| Queue.NextPowerOfTwo | crates/particlemc-framework-ecs/src/queue.rs:81-98 | the least power of two that is not below the argument |
| Queue.MpmcQueue.constructor | crates/particlemc-framework-ecs/src/queue.rs:81-98 | the capacity is the least power of two of at least 8 that holds the request; the queue is empty |
| Queue.MpmcQueue.Push | crates/particlemc-framework-ecs/src/queue.rs:104-146 | the array ring appends, or refuses exactly when full, whatever number of compare-exchanges fail spuriously |
| Queue.MpmcQueue.Pop | crates/particlemc-framework-ecs/src/queue.rs:149-192 | the array ring takes the oldest value, or answers None exactly when empty |
| Queue.MpmcQueue.DropRemaining | crates/particlemc-framework-ecs/src/queue.rs:226-228 | dropping the ring drops each queued value once, oldest first |
| Queue.MpmcQueue.Drain | crates/particlemc-framework-ecs/src/queue.rs:268-275 | draining executes every queued command once, in order, and counts them |
| Queue.ExecuteAppend | crates/particlemc-framework-ecs/src/queue.rs:268-275 | a command pushed last is executed last, on the world that the earlier ones left |
| Heuristics.StepCostAtLeastOne | crates/particlemc-framework-core/src/entity/pathfinding.rs:208-216 | every step costs at least 1 |
| Heuristics.ManhattanConsistent | crates/particlemc-framework-core/src/entity/pathfinding.rs:208-231 | the Manhattan estimate never drops by more than a step of the four-neighbourhood costs |
| Heuristics.OctileConsistent | crates/particlemc-framework-core/src/entity/pathfinding.rs:208-231 | the octile estimate is consistent over the eight-neighbourhood |
| Heuristics.EuclideanConsistent | crates/particlemc-framework-core/src/entity/pathfinding.rs:208-231 | the Euclidean estimate is consistent over the 26-neighbourhood |
| Pathfinding.PopLeast | crates/particlemc-framework-core/src/entity/pathfinding.rs:256-283 | the heap hands out the entry of least f, and of least tie among those |
| Pathfinding.Expand | crates/particlemc-framework-core/src/entity/pathfinding.rs:172-200 | expanding a closed cell keeps the parent tree, the heap and the relaxation of every closed neighbour |
| Pathfinding.LeastPromise | crates/particlemc-framework-core/src/entity/pathfinding.rs:164-202 | the least heap entry promises no more than any path to an open cell, stale entries notwithstanding |
| Pathfinding.ReachableIsClosed | crates/particlemc-framework-core/src/entity/pathfinding.rs:164-204 | when the heap runs empty every reachable cell has been closed |
| Pathfinding.ClosedIsCovered | crates/particlemc-framework-core/src/entity/pathfinding.rs:164-204 | only cells that could undercut a route are closed, which bounds the steps a route can need |
| Pathfinding.ReconstructPath | crates/particlemc-framework-core/src/entity/pathfinding.rs:234-253 | the parent chain ends, repeats no cell and is a route whose cost is the score of the goal |
| Pathfinding.AStarWith | crates/particlemc-framework-core/src/entity/pathfinding.rs:146-205 | a returned path is a route without repetition and, for a consistent heuristic, a cheapest one; None before the budget is spent means unreachable, for any heuristic, and a spent budget is no larger than any enclosed region allows; for a consistent heuristic, no larger than any route allows |
| Walks.OffsetsAreMoves | crates/particlemc-framework-core/src/entity/pathfinding.rs:78-121 | each table lists exactly the offsets of its gait, each once: the cells of the same level without diagonals, those with them, and all around |
| Walks.MoveCostsItsLength | crates/particlemc-framework-core/src/entity/pathfinding.rs:208-216 | the price of a move is the distance between its cells |
| Walks.EstimateIsWalked | crates/particlemc-framework-core/src/entity/pathfinding.rs:219-231 | in an open world the Manhattan and the octile estimate are the length of a walk, so no larger estimate would do |
| Walks.EstimateAcrossLevels | crates/particlemc-framework-core/src/entity/pathfinding.rs:219-231 | across levels the Manhattan estimate adds the height and the octile one ignores it; the Euclidean estimate is the distance |
| Pathfinding.SolvingGuides | crates/particlemc-framework-core/src/entity/pathfinding.rs:146-205 | what solves a search is a shortest walk in terms of cells, moves and distances alone; without a result, the budget is no larger than the cells within the length of any walk allow |
| Pathfinding.OneMoveIsFound | crates/particlemc-framework-core/src/entity/pathfinding.rs:146-205 | two passable cells one move apart are joined by exactly that move, given more than 702 steps |
| Pathfinding.AStar | crates/particlemc-framework-core/src/entity/pathfinding.rs:129-143 | returns a shortest walk with diagonals that repeats no cell, or none because there is none or the budget is small; so does the search with the fixed limit of 4096 steps |
| Pathfinding.GroundNodeGenerate | crates/particlemc-framework-core/src/entity/pathfinding.rs:299-315 | returns a shortest walk without diagonals, or none because there is none or 4096 steps are too few |
| Pathfinding.FlyingNodeGenerate | crates/particlemc-framework-core/src/entity/pathfinding.rs:341-357 | returns a shortest flight, or none because there is none or 4096 steps are too few |
| Pathfinding.FoundIffReachable | crates/particlemc-framework-core/src/entity/pathfinding.rs:146-205 | in an enclosed region a budget above region size times neighbours makes the search find a path exactly when one exists |
| Pathfinding.SomeBudgetFindsTheRoute | crates/particlemc-framework-core/src/entity/pathfinding.rs:146-205 | in an unbounded world, too, a large enough budget finds any existing route |
| Entities.PartsRoundTrip | crates/particlemc-framework-ecs/src/entity.rs:40-72 | the accessors give back the parts exactly when the generation fits 24 bits |
| Entities.BitsRoundTrip | crates/particlemc-framework-ecs/src/entity.rs:40-77 | every 64-bit handle is rebuilt from its three parts |
| Entities.AllocateValid | crates/particlemc-framework-ecs/src/entity.rs:120-148 | allocation keeps the arena consistent, brings exactly one dead handle to life, and takes a free slot |
| Entities.DeallocateValid | crates/particlemc-framework-ecs/src/entity.rs:150-165 | deallocation keeps the arena consistent and ends exactly the given handle |
| Entities.AllocateExactValid | crates/particlemc-framework-ecs/src/entity.rs:221-249 | exact placement brings exactly that handle to life, or refuses because a live handle holds its slot |
| Entities.LiveHandlesHaveDistinctSlots | crates/particlemc-framework-ecs/src/entity.rs:167-173 | two live handles never share kind and slot |
| Entities.WithoutRemoves | crates/particlemc-framework-ecs/src/entity.rs:234-249 | swap-removing a slot from the free stack removes that slot alone |
| Entities.EntityArena.Allocate | crates/particlemc-framework-ecs/src/entity.rs:195-200 | the in-place allocation equals the allocation on values |
| Entities.EntityArena.Deallocate | crates/particlemc-framework-ecs/src/entity.rs:205-211 | the in-place deallocation equals that on values and answers whether the handle was live |
| Entities.EntityArena.AllocateExact | crates/particlemc-framework-ecs/src/entity.rs:221-249 | the in-place exact placement equals that on values |
| Entities.EntityArena.RemoveFromStack | crates/particlemc-framework-ecs/src/entity.rs:234-249 | the search and swap-remove on the free stack |
| EntityHistory.HandlesAreUnique | crates/particlemc-framework-ecs/src/entity.rs:120-173 | over any run of allocate and deallocate no handle is issued twice and a freed handle stays dead |
| EntityHistory.ArenaStaysConsistent | crates/particlemc-framework-ecs/src/entity.rs:120-249 | over any run with exact placements the free stack has no duplicate and no occupied slot, len counts the occupied slots, live handles have distinct slots |
| EntityHistory.NeverReissuesIffUpToDate | crates/particlemc-framework-ecs/src/entity.rs:120-249 | in any state, allocation can never repeat a handle if and only if no slot has fallen behind a handle issued for it |
| EntityHistory.PlacementIsSafeIffForward | crates/particlemc-framework-ecs/src/entity.rs:221-249 | an exact placement keeps handles from repeating if and only if it does not turn back the generation of its slot |
| EntityHistory.SkippedIsNeverIssued | crates/particlemc-framework-ecs/src/entity.rs:120-249 | allocation never hands out a slot that growth for an exact placement passed over |
| EntityHistory.SkippedUntilPlaced | crates/particlemc-framework-ecs/src/entity.rs:221-249 | over any run such a slot stays unused if and only if no exact placement names it |
| EntityHistory.GrowthSkips | crates/particlemc-framework-ecs/src/entity.rs:221-249 | a placement at slot 5 of a new arena skips the five slots before it |
| EntityHistory.PlacementCanReviveAHandle | crates/particlemc-framework-ecs/src/entity.rs:221-249 | a concrete run in which a placement turns a slot back |
| WorldHistory.NeverReissuesIffUpToDate | crates/particlemc-framework-ecs/src/world.rs:174-285 | in any world, calls other than exact placement can never lead to spawning a handle again if and only if no slot has fallen behind a handle handed out for it |
| WorldHistory.CallIsSafeIffForward | crates/particlemc-framework-ecs/src/world.rs:543-566 | of all calls on one world, exactly the placements that turn a slot back let it spawn an old handle |
| WorldHistory.MoveIsSafeIffForward | crates/particlemc-framework-ecs/src/migration.rs:67-109 | a migration that is not refused lets the destination spawn an old handle if and only if it turns back the generation of a free slot there; the source it never endangers |
| WorldHistory.ForwardRunsNeverReissue | crates/particlemc-framework-ecs/src/migration.rs:67-109 | over any run of calls and migrations among many worlds that turn no slot back, no world can spawn a handle that it handed out before |
| WorldHistory.NewSiteIsSafe | crates/particlemc-framework-ecs/src/world.rs:136-145 | a new world meets the conditions |
| WorldScenarios.ReturningTurnsASlotBack | crates/particlemc-framework-ecs/src/migration.rs:67-109 | a concrete entity that leaves a world and comes back after its slot was used again: the world was safe and now can spawn the other handle again |
| WorldPlaces.PartsLayout | crates/particlemc-framework-ecs/src/entity.rs:20-80 | kind in the top byte, generation in the next 24 bits, slot in the low 32 |
| WorldPlaces.LastFreedIsReused | crates/particlemc-framework-ecs/src/entity.rs:120-164 | the slot freed last is used first, one generation on |
| WorldPlaces.NewSlot | crates/particlemc-framework-ecs/src/entity.rs:120-146 | with no slot to reuse, the next slot comes into being at generation 0 |
| WorldPlaces.GapIsFilledByLast | crates/particlemc-framework-ecs/src/entity.rs:221-249 | taking a slot off the free stack moves the last one into its place |
| WorldPlaces.SpawnAppends | crates/particlemc-framework-ecs/src/world.rs:174-194 | a new entity gets the row behind the others, and nobody moves |
| WorldPlaces.SpawnExactAppends | crates/particlemc-framework-ecs/src/world.rs:543-566 | so does one at a given handle |
| WorldPlaces.DespawnMovesLast | crates/particlemc-framework-ecs/src/world.rs:260-285 | the last row of the archetype takes the place of the one that goes, and every other row stays |
| WorldPlaces.ValuesMoveNobody | crates/particlemc-framework-ecs/src/world.rs:300-420 | writing and removing values moves nobody |
| WorldPlaces.SyntheticIds | crates/particlemc-framework-ecs/src/world.rs:201-227 | empty archetypes are made once for each kind, with ids from 0x8000 on |
| Worlds.RegisterValid | crates/particlemc-framework-ecs/src/world.rs:153-166 | registering an archetype keeps the representation invariant |
| Worlds.SpawnValid | crates/particlemc-framework-ecs/src/world.rs:174-194 | spawning keeps index, rows, columns and arena in agreement |
| Worlds.SpawnEmptyValid | crates/particlemc-framework-ecs/src/world.rs:201-223 | so does spawning into the synthetic empty archetype of a kind |
| Worlds.SpawnExactValid | crates/particlemc-framework-ecs/src/world.rs:543-566 | so does spawning at a given handle |
| Worlds.DespawnValid | crates/particlemc-framework-ecs/src/world.rs:260-285 | so does despawning, whose swap-remove moves another row |
| Worlds.InsertValid | crates/particlemc-framework-ecs/src/world.rs:304-357 | so does an insert, also when it creates the column |
| Worlds.InsertAnyValid | crates/particlemc-framework-ecs/src/world.rs:577-611 | so does a type-erased insert |
| Worlds.RemoveValid | crates/particlemc-framework-ecs/src/world.rs:366-380 | so does removing a component |
| Worlds.CounterDoesNotWrap | crates/particlemc-framework-ecs/src/world.rs:201-223 | the counter of synthetic archetype ids never wraps |
| Worlds.SeatedGet | crates/particlemc-framework-ecs/src/world.rs:174-194 | a new entity sees defaults in existing dense columns and no stale sparse value; nobody else changes |
| Worlds.DespawnGet | crates/particlemc-framework-ecs/src/world.rs:260-285 | despawning removes its own values only |
| Worlds.InsertGet | crates/particlemc-framework-ecs/src/world.rs:304-357 | an insert sets its own value; others see at most an absent dense column of their archetype become defaults |
| Worlds.InsertAnyGet | crates/particlemc-framework-ecs/src/world.rs:577-611 | a type-erased insert sets its own value only |
| Worlds.RemoveGet | crates/particlemc-framework-ecs/src/world.rs:366-380 | remove returns the value and resets a dense one to the default, erases a sparse one, and touches nothing else |
| WorldRefinement.ContainsRefines | crates/particlemc-framework-ecs/src/world.rs:288-290 | an entity is contained exactly when the plain map has it |
| WorldRefinement.GetRefines | crates/particlemc-framework-ecs/src/world.rs:383-397 | get reads the plain map |
| WorldRefinement.SpawnRefines | crates/particlemc-framework-ecs/src/world.rs:174-194 | spawn adds a fresh key to the plain map |
| WorldRefinement.SpawnEmptyRefines | crates/particlemc-framework-ecs/src/world.rs:201-223 | so does spawning an empty entity |
| WorldRefinement.SpawnExactRefines | crates/particlemc-framework-ecs/src/world.rs:543-566 | so does exact spawning, which keeps the given handle if and only if its kind fits and no entity of the kind sits in its slot |
| WorldRefinement.DespawnRefines | crates/particlemc-framework-ecs/src/world.rs:260-285 | despawn removes the key, and answers whether it was there |
| WorldRefinement.InsertRefines | crates/particlemc-framework-ecs/src/world.rs:304-357 | insert, with its errors, is an update of the plain map |
| WorldRefinement.InsertAnyRefines | crates/particlemc-framework-ecs/src/world.rs:577-611 | the type-erased insert, with its errors, is an update of the plain map |
| WorldRefinement.RemoveRefines | crates/particlemc-framework-ecs/src/world.rs:366-380 | remove is an update of the plain map and returns what it held |
| WorldRefinement.ExecRefines | crates/particlemc-framework-ecs/src/world.rs:153-611 | each call answers and changes the world as the plain map may |
| WorldRefinement.RunRefines | crates/particlemc-framework-ecs/src/world.rs:153-611 | every run of calls keeps the world valid and answers as the plain map may |
| WorldRefinement.RunsFromNew | crates/particlemc-framework-ecs/src/world.rs:136-611 | every run of calls from an empty world answers as the plain map may |
| WorldObjects.World.RegisterArchetype | crates/particlemc-framework-ecs/src/world.rs:153-166 | the in-place registration equals that on values |
| WorldObjects.World.Spawn | crates/particlemc-framework-ecs/src/world.rs:174-194 | the in-place spawn, with its loop over the columns, equals that on values |
| WorldObjects.World.SpawnEmptyWith | crates/particlemc-framework-ecs/src/world.rs:201-223 | the in-place empty spawn equals that on values |
| WorldObjects.World.SpawnExact | crates/particlemc-framework-ecs/src/world.rs:543-566 | the in-place exact spawn equals that on values |
| WorldObjects.World.Despawn | crates/particlemc-framework-ecs/src/world.rs:260-285 | the in-place despawn, with swap-remove and index repair, equals that on values |
| WorldObjects.World.Insert | crates/particlemc-framework-ecs/src/world.rs:304-357 | the in-place insert equals that on values |
| WorldObjects.World.InsertAny | crates/particlemc-framework-ecs/src/world.rs:577-611 | the in-place type-erased insert equals that on values |
| WorldObjects.World.Remove | crates/particlemc-framework-ecs/src/world.rs:366-380 | the in-place removal equals that on values |
| WorldObjects.World.Get | crates/particlemc-framework-ecs/src/world.rs:383-397 | the lookup equals that on values |
| Migration.SucceedsIff | crates/particlemc-framework-ecs/src/migration.rs:67-109 | a migration succeeds if and only if the entity lives in the source, the destination has its archetype with the same kind, and every component has a column there |
| Migration.AnswersIff | crates/particlemc-framework-ecs/src/migration.rs:69-109 | AlreadyMigrated if and only if the entity lives in the destination alone, EntityNotFound if and only if it lives in neither, DifferentKind if and only if it lives in the source and is not welcome in the destination |
| Migration.EntitiesAreConserved | crates/particlemc-framework-ecs/src/migration.rs:67-109 | no outcome loses or doubles an entity; a refusal changes neither world; the handle is kept if and only if its slot is free |
| Migration.ValuesMove | crates/particlemc-framework-ecs/src/migration.rs:67-139 | after a success every value of the entity is under its new handle, and defaults fill dense columns it lacked |
| Migration.PrefixMoves | crates/particlemc-framework-ecs/src/migration.rs:97-109 | a migration that is not refused puts exactly the values ahead of the first missing column under the new handle, which shows defaults beyond them, and the others are in neither world; it succeeds if and only if no column is missing |
| WorldScenarios.FailedMigrationLosesTheValue | crates/particlemc-framework-ecs/src/migration.rs:97-109 | a migration that fails for want of a column has moved the entity, and its value is in neither world |
| Migration.OthersAreUntouched | crates/particlemc-framework-ecs/src/migration.rs:67-139 | whatever the outcome, other entities of both worlds keep their values |
| Migration.TakeThenDespawn | crates/particlemc-framework-ecs/src/migration.rs:97-139 | taking values out first makes no difference to what despawning leaves |
| Migration.CollectComponents | crates/particlemc-framework-ecs/src/migration.rs:116-139 | the loop takes every value out of the columns, in any order |
| Migration.InsertAll | crates/particlemc-framework-ecs/src/migration.rs:103-107 | the loop writes the collected values, stopping at the first refusal |
| Migration.MigrateEntity | crates/particlemc-framework-ecs/src/migration.rs:67-109 | the in-place migration equals that on values |
| Queries.ProducedIffLookup | crates/particlemc-framework-ecs/src/query.rs:479-611 | iteration produces (e, item) if and only if get(e) is Ok(item) |
| Queries.IterationOrder | crates/particlemc-framework-ecs/src/query.rs:419-445 | iteration goes by archetype id and then by row, and no entity comes twice |
| Queries.FetchIsMeaning | crates/particlemc-framework-ecs/src/query.rs:144-328 | fetching a row reads the values that the world holds for its entity |
| Queries.LookupMeans | crates/particlemc-framework-ecs/src/query.rs:479-499 | get succeeds if and only if the entity lives, its archetype passes the filters and every required value is present, and gives the error that applies |
| Queries.LookupSelects | crates/particlemc-framework-ecs/src/query.rs:419-499 | in terms of the plain map: get gives an item if and only if the entity lives, its archetype declares or has a column for every With component and for no Without component, and the item is what the map holds; EntityNotFound if and only if it does not live |
| Queries.ProducedIffSelected | crates/particlemc-framework-ecs/src/query.rs:419-499 | iteration produces exactly those pairs |
| Queries.ExcludingRemoves | crates/particlemc-framework-ecs/src/query.rs:370-373 | a selected entity has no value of an excluded component, and excluding one more takes away exactly the entities that carry it |
| Queries.Iter.Next | crates/particlemc-framework-ecs/src/query.rs:584-611 | each call hands out the next produced item, and None exactly at the end |
| Queries.Query.constructor | crates/particlemc-framework-ecs/src/query.rs:419-445 | collects the matching archetypes and sorts them by id |
| Queries.Query.Get | crates/particlemc-framework-ecs/src/query.rs:479-499 | agrees with what iteration produces, gives what the query selects from the plain map, and EntityNotFound exactly for entities that do not live |
| Queries.Query.Single | crates/particlemc-framework-ecs/src/query.rs:532-544 | gives the one item, Empty when there is none, NonUnique when there are more |
| WorldScenarios.ContainsWhatGetRefuses | crates/particlemc-framework-ecs/src/query.rs:479-568 | a world in which contains is true and get fails |
| Queries.Query.Contains | crates/particlemc-framework-ecs/src/query.rs:562-568 | true exactly when the entity lives, passes the filters and carries every component that is asked for; then only a missing value makes get fail |
| DeferredCommands.ApplyIsDirect | crates/particlemc-framework-ecs/src/commands.rs:134-162 | applying any buffer that the public calls build equals making the calls one by one, tokens being the entities of their own spawns; no command is skipped |
| DeferredCommands.DirectCalls | crates/particlemc-framework-ecs/src/commands.rs:203-313 | the calls made at once are the calls on the world, chained ones one after the other |
| DeferredCommands.BuiltTokens | crates/particlemc-framework-ecs/src/commands.rs:203-310 | every token is made by one command and used only after it |
| DeferredCommands.BuiltAppend | crates/particlemc-framework-ecs/src/commands.rs:203-310 | each call extends the buffer by its own commands |
| DeferredCommands.ChainApplies | crates/particlemc-framework-ecs/src/commands.rs:134-185 | commands chained on a handle act on the entity it resolves to |
| DeferredCommands.BundleKeepsSparseValues | crates/particlemc-framework-ecs/src/world.rs:62-78 | a bundle spawn keeps exactly its sparse values and changes no other entity |
| WorldScenarios.DenseBundleValueIsLost | crates/particlemc-framework-ecs/src/world.rs:62-78 | a bundle whose dense value is dropped |
| DeferredCommands.CommandBuffer.Apply | crates/particlemc-framework-ecs/src/commands.rs:134-162 | the draining loop equals applying on values and leaves the buffer empty |
| DeferredCommands.CommandBuffer.Enqueue | crates/particlemc-framework-ecs/src/commands.rs:203-310 | a call appends its commands and advances the token |
| DeferredCommands.CommandBuffer.Clear | crates/particlemc-framework-ecs/src/commands.rs:122-124 | empties the buffer and keeps the token |
| FixedClocks.TickConservesIff | crates/particlemc-framework-ecs/src/schedule.rs:81-97 | a tick accounts for all time if and only if neither count nor remainder saturates |
| FixedClocks.TickSaturates | crates/particlemc-framework-ecs/src/schedule.rs:81-97 | a tick that cannot account for all time gives the largest count or the largest remainder |
| FixedClocks.StepConservesIff | crates/particlemc-framework-ecs/src/schedule.rs:100-108 | a step takes one step length if and only if it fits 64 bits |
| FixedClocks.StepIsZeroIff | crates/particlemc-framework-ecs/src/schedule.rs:126-128 | the step length is cut to 0 exactly above 1 GHz |
| FixedClocks.StepLength | crates/particlemc-framework-ecs/src/schedule.rs:126-128 | the step length n obeys n * hz <= 1e9 < (n + 1) * hz below the saturation |
| FixedClocks.WholeStepsAreDue | crates/particlemc-framework-ecs/src/schedule.rs:100-108 | exactly as many steps are due as whole step lengths are waiting, and they leave the remainder |
| FixedClocks.TakingStepsEndsIff | crates/particlemc-framework-ecs/src/schedule.rs:100-122 | a loop that takes steps until none is due ends, however much time is charged, if and only if the step length modulo 2^64 is not 0 |
| FixedClocks.NeverDriftsIff | crates/particlemc-framework-ecs/src/schedule.rs:81-122 | over any run of tick, advance and step between resets, total time is step length times steps plus the accumulator, for every step length that fits 64 bits, 0 included, and no other |
| FixedClocks.LongStepDrifts | crates/particlemc-framework-ecs/src/schedule.rs:100-108 | a longer step loses time at once |
| FixedClocks.TicksCountWholeSteps | crates/particlemc-framework-ecs/src/schedule.rs:81-97 | a run of ticks hands out floor(total / step) steps however the time is sliced |
| FixedClocks.FixedClock.Tick | crates/particlemc-framework-ecs/src/schedule.rs:64-97 | the in-place tick equals that on values, or divides by zero exactly above 1 GHz |
| FixedClocks.FixedClock.Step | crates/particlemc-framework-ecs/src/schedule.rs:100-108 | the in-place step equals that on values |
| FixedClocks.FixedClock.Advance | crates/particlemc-framework-ecs/src/schedule.rs:120-122 | charges the accumulator |
| FixedClocks.FixedClock.Reset | crates/particlemc-framework-ecs/src/schedule.rs:111-113 | clears the accumulator |
| Schedules.TopoGroups | crates/particlemc-framework-ecs/src/schedule.rs:352-398 | every system comes out once, in the layer that is the length of its longest dependency chain, in registration order inside a layer; on a cyclic graph the last layer is exactly what lies on or behind a cycle |
| Schedules.GroupIffLongest | crates/particlemc-framework-ecs/src/schedule.rs:376-396 | a system is in layer k if and only if its longest dependency chain has length k |
| Schedules.RemainingIsStuck | crates/particlemc-framework-ecs/src/schedule.rs:378-388 | when no system is ready, the remaining ones are exactly those on or behind a cycle |
| Schedules.FallbackIsLargest | crates/particlemc-framework-ecs/src/schedule.rs:378-388 | the fallback layer is the largest set of systems that wait for each other, and holds every system that waits for a member |
| Schedules.MutualDependenceIsStuck | crates/particlemc-framework-ecs/src/schedule.rs:378-388 | systems that depend on each other never become ready |
| Schedules.StuckHasLongChains | crates/particlemc-framework-ecs/src/schedule.rs:378-388 | a stuck system has dependency chains of every length |
| Schedules.CountDependencies | crates/particlemc-framework-ecs/src/schedule.rs:352-374 | builds the adjacency lists and in-degrees of the named dependencies |
| Schedules.Release | crates/particlemc-framework-ecs/src/schedule.rs:390-394 | the decrements keep the in-degrees exact and never underflow |
| Schedules.IndexOfIsLast | crates/particlemc-framework-ecs/src/schedule.rs:354-367 | of systems with one name the last one is meant; unknown names are ignored |
| Schedules.Schedule.RecomputeOrder | crates/particlemc-framework-ecs/src/schedule.rs:319-325 | the cached order is the concatenation of the layers |
| Schedules.Schedule.Run | crates/particlemc-framework-ecs/src/schedule.rs:291-316 | serial and layered mode run the same systems in the same order, after the deferred commands, and then clear the messages |
| ScheduleRuns.OrderIsDetermined | crates/particlemc-framework-ecs/src/schedule.rs:291-396 | the order of execution is that of the longest dependency chains, then of registration; systems on or behind a cycle come last, by registration |
| ScheduleRuns.DependenciesRunFirst | crates/particlemc-framework-ecs/src/schedule.rs:291-396 | a system that is not on or behind a cycle runs after everything it depends on |
| ScheduleRuns.TraceIs | crates/particlemc-framework-ecs/src/schedule.rs:291-317 | a run applies the deferred commands first, then runs each system in order with its deferred commands behind it, and clears the messages at the end; nothing else |
| ScheduleRuns.RunNext | crates/particlemc-framework-ecs/src/schedule.rs:297-312 | one more system adds its run and its deferred commands on top |
| Schedulers.Distribute | crates/particlemc-framework-ecs/src/scheduler.rs:369-384 | the chunks are dealt round robin, or by id in bound mode |
| Schedulers.DistributeIsPartition | crates/particlemc-framework-ecs/src/scheduler.rs:369-384 | in both modes the chunks are a partition of the worlds |
| Schedulers.DealtRoundRobin | crates/particlemc-framework-ecs/src/scheduler.rs:373-377 | in a shared pool the i-th id is the (i / n)-th of worker i mod n |
| Schedulers.BoundById | crates/particlemc-framework-ecs/src/scheduler.rs:378-382 | in bound mode a world goes to worker id mod n |
| Schedulers.BoundWorldsStay | crates/particlemc-framework-ecs/src/scheduler.rs:369-384 | a bound world keeps its worker whatever other worlds exist |
| Schedulers.StepOk | crates/particlemc-framework-ecs/src/scheduler.rs:300-363 | every lock step of every worker keeps the invariant of a round |
| Schedulers.EveryInterleavingTicksOnce | crates/particlemc-framework-ecs/src/scheduler.rs:300-363 | for every interleaving each world is ticked exactly once, with one result each |
| Schedulers.ParallelIsSequential | crates/particlemc-framework-ecs/src/scheduler.rs:300-363 | the final worlds equal sequential ticking in any order |
| Schedulers.StepsUseUpWork | crates/particlemc-framework-ecs/src/scheduler.rs:300-342 | every step is progress, so a round ends |
| Schedulers.InstanceScheduler.RegisterWorld | crates/particlemc-framework-ecs/src/scheduler.rs:226-247 | registers a world unless its id is taken |
| Schedulers.InstanceScheduler.RegisterNewWorld | crates/particlemc-framework-ecs/src/scheduler.rs:214-221 | takes the next id; fails exactly when it is taken already |
| Schedulers.FirstIdTaken | crates/particlemc-framework-ecs/src/scheduler.rs:214-247 | registering id 0 by hand makes the first automatic registration fail |
| Schedulers.InstanceScheduler.UnregisterWorld | crates/particlemc-framework-ecs/src/scheduler.rs:250-254 | hands the world and its schedule back |
| Schedulers.InstanceScheduler.Submit | crates/particlemc-framework-ecs/src/scheduler.rs:287-293 | queues the command last, or refuses for an unknown world or a full queue |
| Schedulers.InstanceScheduler.TickAll | crates/particlemc-framework-ecs/src/scheduler.rs:300-342 | ticks every world once, whatever the interleaving, leaves every queue empty, and lists each id once, ascending, with its entity count |
| Schedulers.TickMeans | crates/particlemc-framework-ecs/src/scheduler.rs:353-364 | a tick without commands runs the systems; a command queued last takes effect after the others and before the systems |
| Schedulers.RoundsAreImmediate | crates/particlemc-framework-ecs/src/scheduler.rs:226-342 | after every round of any run of registrations, submissions and rounds, each world is what it would be had every accepted command been executed when it was submitted: once, in order, ahead of the systems of its round |
| InventoryClicks.NumberingsAreInverse | crates/particlemc-framework-core/src/component/inventory.rs:746-789 | the two slot numberings are inverse exactly on the 46 slots |
| InventoryEffects.WindowLayout | crates/particlemc-framework-core/src/component/inventory.rs:746-790 | hotbar, crafting grid, armour, backpack and off hand in the numbering of the window |
| InventoryClicks.CancelValid | crates/particlemc-framework-core/src/component/inventory.rs:574-586 | cancelling ends the drag and keeps cursor and mode |
| InventoryTheorems.PickupConserves | crates/particlemc-framework-core/src/component/inventory.rs:197-275 | a pickup click conserves every material |
| InventoryTheorems.SwapConserves | crates/particlemc-framework-core/src/component/inventory.rs:328-342 | so does a swap |
| InventoryTheorems.QuickMoveConserves | crates/particlemc-framework-core/src/component/inventory.rs:278-325 | so does a shift click |
| InventoryTheorems.PickupAllConserves | crates/particlemc-framework-core/src/component/inventory.rs:364-394 | so does a double click |
| InventoryTheorems.QuickCraftConserves | crates/particlemc-framework-core/src/component/inventory.rs:432-570 | so does every stage of a drag |
| InventoryTheorems.QuickCraftValid | crates/particlemc-framework-core/src/component/inventory.rs:432-570 | a drag keeps its targets distinct and each snapshot within what its slot holds now |
| InventoryTheorems.ThrowRemoves | crates/particlemc-framework-core/src/component/inventory.rs:345-361 | a throw removes exactly the stack or one item of it |
| InventoryTheorems.CancelConservesIff | crates/particlemc-framework-core/src/component/inventory.rs:574-586 | cancelling conserves if and only if the drag has placed nothing |
| InventoryTheorems.ApplyClickConservesIff | crates/particlemc-framework-core/src/component/inventory.rs:160-194 | the moving clicks conserve if and only if they do not cancel a drag that has placed something |
| InventoryTheorems.ApplyClickNeverAdds | crates/particlemc-framework-core/src/component/inventory.rs:160-194 | outside creative mode no click adds an item |
| InventoryTheorems.DropCursorNeverAdds | crates/particlemc-framework-core/src/component/inventory.rs:595-606 | closing the window adds nothing and leaves an empty cursor and no drag |
| InventoryTheorems.SurvivalNeverAdds | crates/particlemc-framework-core/src/component/inventory.rs:160-606 | over any survival run of clicks, closings and syncs no material total ever grows |
| InventoryTheorems.AddItemConserves | crates/particlemc-framework-core/src/component/inventory.rs:649-693 | what is added and what is handed back make up the item |
| InventoryTheorems.RefusedClick | crates/particlemc-framework-core/src/component/inventory.rs:160-394 | a click that reports no change leaves every material, amount and the cursor alone |
| InventoryTheorems.QuickMoveRefusesIff | crates/particlemc-framework-core/src/component/inventory.rs:278-325 | a shift click is refused if and only if the slot is empty or outside hotbar and backpack, or no slot of the other range is empty or holds less than a stack of the material |
| InventoryTheorems.QuickMoveSilentIff | crates/particlemc-framework-core/src/component/inventory.rs:278-325 | a shift click is refused and yet changes a slot if and only if the other range has no room and the stack has components |
| InventoryTheorems.SilentChangeIff | crates/particlemc-framework-core/src/component/inventory.rs:144-194 | of all clicks, exactly such shift clicks outside a drag report no change and change a slot |
| InventoryLimits.PickupLimits | crates/particlemc-framework-core/src/component/inventory.rs:197-275 | a pickup keeps every stack within its own limit if and only if the stack that it merges or halves, rebuilt without components, holds at most 64 |
| InventoryLimits.QuickMoveLimits | crates/particlemc-framework-core/src/component/inventory.rs:278-325 | a shift click keeps every stack within its own limit if and only if no slot of the other range gets more than its own limit allows, and no more is left for one slot than a stack without components may hold |
| InventoryLimits.ApplyClickKeepsLimitsIff | crates/particlemc-framework-core/src/component/inventory.rs:144-194 | of all clicks, exactly those pickups and shift clicks take a stack over its limit |
| InventoryLimits.PlainRunsStayInLimits | crates/particlemc-framework-core/src/component/inventory.rs:156-194 | while all stacks have the default limit, no run of clicks, closings and syncs takes one over it |
| InventoryLimits.ShiftClickOverfills | crates/particlemc-framework-core/src/component/inventory.rs:296-303 | a concrete shift click that fills a slot of limit 16 up to 48 |
| InventoryEffects.ClickModes | crates/particlemc-framework-core/src/component/inventory.rs:180-189 | which mode number is which click |
| InventoryEffects.SetSlotIs | crates/particlemc-framework-core/src/component/inventory.rs:125-138 | writing a slot marks it when the item is not air, and changes nothing else |
| InventoryEffects.PickupIs | crates/particlemc-framework-core/src/component/inventory.rs:197-275 | what a pickup makes of the clicked stack and the cursor: everything, half rounded up, one item, or as many as fit; nothing else changes |
| InventoryEffects.SwapIs | crates/particlemc-framework-core/src/component/inventory.rs:328-342 | a swap exchanges exactly the two slots |
| InventoryEffects.ThrowIs | crates/particlemc-framework-core/src/component/inventory.rs:345-361 | a throw leaves air or one item less in its slot |
| InventoryEffects.CloneIs | crates/particlemc-framework-core/src/component/inventory.rs:404-418 | a clone copies the slot to the cursor, in creative mode and for button 0 only |
| InventoryEffects.QuickMoveIs | crates/particlemc-framework-core/src/component/inventory.rs:278-325 | what each slot holds after a shift click: the stacks of its material in the other range are topped up, the lowest slot first, the rest goes into the first empty slot there or stays behind |
| InventoryEffects.PickupAllIs | crates/particlemc-framework-core/src/component/inventory.rs:364-394 | a double click takes what the cursor lacks from the slots of its material, the lowest first; what each slot and the cursor hold afterwards |
| InventoryEffects.QuickCraftDrag | crates/particlemc-framework-core/src/component/inventory.rs:432-511 | what each stage does to the drag: stage 0 begins one at the slot when the cursor is not empty, stages 1 and 2 keep it open with the slot among its targets, stage 3 ends it |
| InventoryEffects.QuickCraftDeals | crates/particlemc-framework-core/src/component/inventory.rs:461-570 | what each target, the cursor and every other slot hold after a stage: the offered items are dealt in the order of the targets, each up to its limit |
| InventoryEffects.CancelIs | crates/particlemc-framework-core/src/component/inventory.rs:574-586 | a rollback gives every target what it held when it joined and leaves the rest |
| InventoryEffects.RollbackComesFirst | crates/particlemc-framework-core/src/component/inventory.rs:160-194 | a click outside an open drag does what it would do after the rollback |
| InventoryEffects.DropCursorIs | crates/particlemc-framework-core/src/component/inventory.rs:595-606 | closing the window rolls an open drag back and empties the cursor |
| InventoryEffects.DragIsOpenIff | crates/particlemc-framework-core/src/component/inventory.rs:160-194 | over any run a drag is open if and only if some click has begun one with something on the cursor and no stage 3, other click in the window, or closing has come since |
| InventoryEffects.FinishedDragIsSafe | crates/particlemc-framework-core/src/component/inventory.rs:485-496 | after the last stage the next moving click, of any mode, loses nothing |
| InventoryScenarios.FinishedDragKeepsItems | crates/particlemc-framework-core/src/component/inventory.rs:485-496 | the run of four clicks that finishes its drag keeps its ten items in slot 9 |
| InventoryEffects.AddItemIs | crates/particlemc-framework-core/src/component/inventory.rs:649-693 | what each slot holds after adding an item: stacks of the same thing are topped up, the lowest first, then empty slots are filled, the lowest first, and the rest comes back |
| InventoryEffects.AddItemRefused | crates/particlemc-framework-core/src/component/inventory.rs:649-693 | an item that stacks to nothing comes back, and leaves an empty copy of itself in every empty slot |
| InventoryScenarios.ShiftClickStrips | crates/particlemc-framework-core/src/component/inventory.rs:278-325 | a concrete inventory in which the click reports no change and strips a component |
| InventoryScenarios.CancelLosesItems | crates/particlemc-framework-core/src/component/inventory.rs:574-586 | four clicks that end with ten items less |
| InventoryScenarios.CloseIsNotAnnounced | crates/particlemc-framework-core/src/component/inventory.rs:595-606 | a run, with a sync to the client, after which closing empties a slot and nobody is told |
| InventoryTheorems.RefusedQuickMove | crates/particlemc-framework-core/src/component/inventory.rs:278-325 | a refused shift click still strips the components of its stack |
| InventoryTheorems.ApplyClickAnnounces | crates/particlemc-framework-core/src/component/inventory.rs:160-194 | after a click every change is waiting to be sent |
| InventoryTheorems.DropCursorAnnouncesIff | crates/particlemc-framework-core/src/component/inventory.rs:595-606 | closing the window announces every change, unless the cursor is empty and the rollback empties a slot that is not marked |
| InventoryObjects.PlayerInventory.Set | crates/particlemc-framework-core/src/component/inventory.rs:125-137 | writes a slot and marks it unless air; ignores slots out of range |
| InventoryObjects.PlayerInventory.ClickPickup | crates/particlemc-framework-core/src/component/inventory.rs:197-275 | the in-place pickup equals that on values |
| InventoryObjects.PlayerInventory.ClickQuickMove | crates/particlemc-framework-core/src/component/inventory.rs:278-325 | the in-place shift click, with its two loops, equals that on values |
| InventoryObjects.PlayerInventory.ClickSwap | crates/particlemc-framework-core/src/component/inventory.rs:328-342 | the in-place swap equals that on values |
| InventoryObjects.PlayerInventory.ClickThrow | crates/particlemc-framework-core/src/component/inventory.rs:345-361 | the in-place throw equals that on values |
| InventoryObjects.PlayerInventory.ClickPickupAll | crates/particlemc-framework-core/src/component/inventory.rs:364-394 | the in-place collection loop equals that on values |
| InventoryObjects.PlayerInventory.ClickClone | crates/particlemc-framework-core/src/component/inventory.rs:404-418 | the in-place clone equals that on values |
| InventoryObjects.PlayerInventory.ClickQuickCraft | crates/particlemc-framework-core/src/component/inventory.rs:432-511 | the drag stages equal those on values |
| InventoryObjects.PlayerInventory.QuickCraftSpread | crates/particlemc-framework-core/src/component/inventory.rs:523-570 | the in-place spreading loop equals that on values |
| InventoryObjects.PlayerInventory.CancelQuickCraft | crates/particlemc-framework-core/src/component/inventory.rs:574-586 | the in-place rollback equals that on values |
| InventoryObjects.PlayerInventory.ApplyClick | crates/particlemc-framework-core/src/component/inventory.rs:160-194 | the in-place dispatch equals that on values and keeps the drag invariant |
| InventoryObjects.PlayerInventory.DropCursor | crates/particlemc-framework-core/src/component/inventory.rs:595-606 | the in-place closing equals that on values |
| InventoryObjects.PlayerInventory.AddItem | crates/particlemc-framework-core/src/component/inventory.rs:649-693 | the in-place loops equal adding on values |
| Anvil.CoordsRecombine | crates/particlemc-framework-core/src/instance/anvil.rs:46-60 | region and local coordinates recombine to the position, negative ones included |
| Anvil.CoordsAreUnique | crates/particlemc-framework-core/src/instance/anvil.rs:46-60 | region and local coordinates are the only such pair |
| Anvil.SectorsAreDisjoint | crates/particlemc-framework-core/src/instance/anvil.rs:282-319 | the sector ranges of two chunks never overlap and stay clear of the header |
| Anvil.FileParts | crates/particlemc-framework-core/src/instance/anvil.rs:282-319 | the location entry and the padded blob of each slot stand where the layout says |
| WireForms.RegionBytes | crates/particlemc-framework-core/src/instance/anvil.rs:282-320 | the table entry of chunk (x, z) stands at 4 * (32 * z + x): three bytes of sector, one of count; two sectors of header, then the chunks in the order of the table |
| WireForms.RegionBlobs | crates/particlemc-framework-core/src/instance/anvil.rs:282-320 | the blob of a chunk begins with its first sector |
| Anvil.SlotReopens | crates/particlemc-framework-core/src/instance/anvil.rs:237-319 | what is read back is the padded blob, cut to its sector count modulo 256 |
| Anvil.ReopenIff | crates/particlemc-framework-core/src/instance/anvil.rs:237-319 | reopening a flushed region gives exactly the stored blobs, zero-padded to whole sectors, if and only if every blob takes 1 to 255 sectors |
| MalformedForms.AnyFile | crates/particlemc-framework-core/src/instance/anvil.rs:237-264 | what any file, whoever wrote it, holds for a chunk: the sectors that its table entry names, unless the entry is cut off, names sector 0 or no sectors, or points beyond the end |
| Anvil.ReflushIsIdentical | crates/particlemc-framework-core/src/instance/anvil.rs:237-319 | flushing a reopened region writes the same bytes |
| AnvilLoaders.MadeBlob | crates/particlemc-framework-core/src/instance/anvil.rs:193-215 | a blob parses back to its payload |
| WireForms.BlobBytes | crates/particlemc-framework-core/src/instance/anvil.rs:193-202 | a blob is four bytes of length, the compression byte 1 and the compressed payload |
| AnvilLoaders.ParseCut | crates/particlemc-framework-core/src/instance/anvil.rs:204-215 | cutting or padding behind the payload leaves it readable; cutting into it makes parsing fail |
| AnvilLoaders.RestartIsOk | crates/particlemc-framework-core/src/instance/anvil.rs:346-391 | a loader over any directory, whoever wrote it, lists exactly what its regions hold |
| AnvilLoaders.SaveThenLoad | crates/particlemc-framework-core/src/instance/anvil.rs:395-430 | over any directory a save changes what its own position loads and lists, and nothing else, also when the payload cannot be compressed |
| AnvilLoaders.RestartBlob | crates/particlemc-framework-core/src/instance/anvil.rs:237-319 | what a restart leaves of a stored blob: as many of its sectors as its count modulo 256 says |
| AnvilLoaders.RestartLoads | crates/particlemc-framework-core/src/instance/anvil.rs:346-430 | a restart keeps every answer except for chunks of 256 sectors or more, which no longer load and stay listed unless their sector count is a multiple of 256 |
| AnvilLoaders.RestartKeeps | crates/particlemc-framework-core/src/instance/anvil.rs:346-402 | with chunks of at most 255 sectors a restarted loader gives every answer as before |
| AnvilLoaders.RestartLoses | crates/particlemc-framework-core/src/instance/anvil.rs:237-430 | a chunk of 256 sectors or more loads as nothing after a restart, and is listed unless its sector count is a multiple of 256 |
| AnvilLoaders.RestartKeepsIff | crates/particlemc-framework-core/src/instance/anvil.rs:237-402 | within 24-bit sector numbers a restart changes no answer if and only if every chunk that loads takes at most 255 sectors |
| AnvilLoaders.RunsAgree | crates/particlemc-framework-core/src/instance/anvil.rs:346-434 | after any saves and restarts over any directory, within 24-bit sector numbers, each position loads the last payload saved there unless a restart lost it, and is listed accordingly |
| AnvilLoaders.SmallRunsLoseNothing | crates/particlemc-framework-core/src/instance/anvil.rs:346-434 | with saves of at most 255 sectors the sector numbers always fit and no restart loses anything |
| AnvilLoaders.BigChunkIsLost | crates/particlemc-framework-core/src/instance/anvil.rs:237-430 | chunks of 256 and 257 sectors that load until a restart and not after it |
| AnvilObjects.ReadRegion | crates/particlemc-framework-core/src/instance/anvil.rs:237-264 | the loop over the location table, with its early end, equals reading on values |
| AnvilObjects.WriteRegion | crates/particlemc-framework-core/src/instance/anvil.rs:282-319 | sorting the slots and laying out the sectors in a loop writes the specified file |
| AnvilObjects.AnvilChunkLoader.constructor | crates/particlemc-framework-core/src/instance/anvil.rs:346-391 | scanning the directory in any order builds the specified index and regions |
| AnvilObjects.AnvilChunkLoader.Save | crates/particlemc-framework-core/src/instance/anvil.rs:404-426 | the in-place save equals that on values |
| AnvilObjects.AnvilChunkLoader.Load | crates/particlemc-framework-core/src/instance/anvil.rs:395-402 | the lookup and parse equal those on values |
| AnvilObjects.AnvilChunkLoader.Contains | crates/particlemc-framework-core/src/instance/anvil.rs:428-430 | the index answers exactly for the stored positions |
| Bytes.VarIntRoundTrip | crates/particlemc-framework-core/src/protocol/varint.rs:14-42 | a variable-length integer reads back and leaves what follows |
| Bytes.BigEndianRoundTrip | crates/particlemc-framework-core/src/protocol/byte_buf.rs:90-132 | big-endian integers read back |
| WireForms.BigEndianAt | crates/particlemc-framework-core/src/protocol/byte_buf.rs:90-132 | byte i of k is the digit of 256^(k - 1 - i) |
| WireForms.VarIntAt | crates/particlemc-framework-core/src/protocol/varint.rs:14-26 | byte i of a variable-length integer is its digit of 128^i, the top bit says whether another follows, and no byte is superfluous |
| Bytes.Utf8RoundTrip | crates/particlemc-framework-core/src/protocol/byte_buf.rs:166-252 | every string is read back from its UTF-8 bytes |
| WireForms.CharLength | crates/particlemc-framework-core/src/protocol/byte_buf.rs:166-180 | one to four bytes by the size of the scalar value, all but the first continuation bytes |
| WireForms.CharBits | crates/particlemc-framework-core/src/protocol/byte_buf.rs:166-180 | the scalar value is read off the bytes six bits at a time |
| Bytes.DecodeCharExact | crates/particlemc-framework-core/src/protocol/byte_buf.rs:166-180 | the UTF-8 decoder accepts nothing but what the encoder writes: no overlong form, no surrogate |
| Bytes.FromUtf8Exact | crates/particlemc-framework-core/src/protocol/byte_buf.rs:166-180 | accepted text has exactly the bytes that were read |
| Nbt.PayloadRoundTrip | crates/particlemc-framework-core/src/protocol/nbt.rs:156-314 | every homogeneous tag reads back from its payload |
| Nbt.CompoundRoundTrip | crates/particlemc-framework-core/src/protocol/nbt.rs:199-351 | the entries of a compound read back in order |
| Nbt.ReadIsHomogeneous | crates/particlemc-framework-core/src/protocol/nbt.rs:281-334 | whatever bytes are read, the tag read mixes no list |
| Nbt.MixedListIsLost | crates/particlemc-framework-core/src/protocol/nbt.rs:156-196 | a list of a byte and a short that is encoded and not read back |
| Nbt.AnonymousRoundTripIff | crates/particlemc-framework-core/src/protocol/nbt.rs:107-126 | an encoded compound decodes to itself and leaves what follows, if and only if no list in it mixes types |
| NbtTruncation.TruncatedIsRefused | crates/particlemc-framework-core/src/protocol/nbt.rs:228-351 | every proper beginning of an encoded compound that mixes no types is refused as ending too early, wherever it ends |
| WireForms.TagIds | crates/particlemc-framework-core/src/protocol/nbt.rs:23-47 | the id byte of each kind of tag |
| WireForms.ScalarPayload | crates/particlemc-framework-core/src/protocol/nbt.rs:156-170 | the width of each number |
| WireForms.LengthFirst | crates/particlemc-framework-core/src/protocol/nbt.rs:164-170 | bytes and text stand behind their length |
| WireForms.ArrayPayload | crates/particlemc-framework-core/src/protocol/nbt.rs:171-196 | arrays and lists stand behind their length, lists behind the id of their elements |
| WireForms.Sequences | crates/particlemc-framework-core/src/protocol/nbt.rs:171-210 | elements and entries follow one another, an entry as id, name and payload |
| WireForms.MalformedTags | crates/particlemc-framework-core/src/protocol/nbt.rs:228-351 | unknown ids and numbers cut short are refused, each with its error |
| WireForms.MalformedLists | crates/particlemc-framework-core/src/protocol/nbt.rs:317-334 | so are lists of end tags, of unknown tags, and lists cut short |
| MalformedForms.EndlessVarInt | crates/particlemc-framework-core/src/protocol/varint.rs:30-44 | five bytes that all announce another are too many, fewer end too early |
| TextComponents.ComponentRoundTrip | crates/particlemc-framework-core/src/text_component.rs:325-534 | reading back the tag of a component gives the component, for every tree of components |
| TextComponents.TextRoundTrip | crates/particlemc-framework-core/src/text_component.rs:325-534 | a text with any style reads back |
| WireForms.TextKeys | crates/particlemc-framework-core/src/text_component.rs:325-439 | under which key each field of a text stands, and what stands there |
| TextComponents.TranslatableRoundTrip | crates/particlemc-framework-core/src/text_component.rs:325-534 | a translatable component with any argument trees reads back |
| TextComponents.ToNbtHomogeneous | crates/particlemc-framework-core/src/text_component.rs:325-439 | the tag of a component is a compound whose lists mix no types, so NBT carries it |
| MalformedForms.ForeignTags | crates/particlemc-framework-core/src/text_component.rs:447-534 | only compounds are components, and one without a known key is empty |
| MalformedForms.WrongTypes | crates/particlemc-framework-core/src/text_component.rs:447-534 | a text, key or pattern of another type is refused |
| MalformedForms.WrongParts | crates/particlemc-framework-core/src/text_component.rs:447-534 | so is a score, a tag reference or an event that is no compound |
| Items.GetAfterSetAt | crates/particlemc-framework-core/src/item_stack.rs:156-191 | setting an id changes what that id reads, and no other |
| Items.SetAtPosition | crates/particlemc-framework-core/src/item_stack.rs:178-191 | setting replaces the value where the id stands |
| Items.SetAtEnd | crates/particlemc-framework-core/src/item_stack.rs:178-191 | an id that is not set yet is set at the end |
| Items.GetAfterRemove | crates/particlemc-framework-core/src/item_stack.rs:156-205 | removing an id hides it from the getters and marks it, and no other |
| Items.RemovePosition | crates/particlemc-framework-core/src/item_stack.rs:194-205 | removing keeps the other entries in their order and adds its mark at the end, unless it is there |
| Items.SetAtContradictsIff | crates/particlemc-framework-core/src/item_stack.rs:178-205 | setting leaves a patch that both sets and removes the id if and only if it was marked as removed |
| Items.SetAtInPlace | crates/particlemc-framework-core/src/item_stack.rs:178-191 | the replacing loop equals setting on values |
| Items.RemoveInPlace | crates/particlemc-framework-core/src/item_stack.rs:194-205 | the removing loop equals removal on values |
| ItemCodec.ValueTrip | crates/particlemc-framework-core/src/item_stack.rs:384-492 | every component value that fits the reader reads back and leaves what follows |
| ItemCodec.GotValueFits | crates/particlemc-framework-core/src/item_stack.rs:436-492 | whatever bytes are read, the value fits |
| ItemCodec.StackRoundTripIff | crates/particlemc-framework-core/src/item_stack.rs:502-582 | decoding an encoded stack gives it with its Set entries ahead of its Remove entries, if and only if it has at most 256 entries and every value fits the reader |
| WireForms.PlainStackBytes | crates/particlemc-framework-core/src/item_stack.rs:502-542 | one item of material 264 is 01 88 02 00 00 |
| WireForms.StackBytes | crates/particlemc-framework-core/src/item_stack.rs:502-542 | count, material, the numbers of set and removed components, the set ones with their values, the removed ones |
| WireForms.NumberValues | crates/particlemc-framework-core/src/item_stack.rs:384-432 | the ids and bytes of the components that are small numbers, flags and rarities |
| WireForms.WideValues | crates/particlemc-framework-core/src/item_stack.rs:384-432 | those of fixed width |
| WireForms.OpenValues | crates/particlemc-framework-core/src/item_stack.rs:384-432 | those that are text, tags or text components |
| ItemCodec.AirRoundTrip | crates/particlemc-framework-core/src/item_stack.rs:502-582 | an empty stack decodes to air |
| MalformedForms.CountOrAir | crates/particlemc-framework-core/src/item_stack.rs:552-558 | a stack needs a count; 0 and negative counts are air, whatever follows |
| MalformedForms.TooManyComponents | crates/particlemc-framework-core/src/item_stack.rs:563-570 | more than 256 components are refused |
| MalformedForms.UnknownValues | crates/particlemc-framework-core/src/item_stack.rs:436-498 | ids without a decoder, rarities beyond the last one and negative numbers are refused |
| MalformedForms.AnyByteIsTrue | crates/particlemc-framework-core/src/item_stack.rs:436-498 | any byte but 0 is true |
| ItemCodec.EncodeItemStack | crates/particlemc-framework-core/src/item_stack.rs:502-542 | the encoding loops write what encoding on values gives, or stop with its error |
| ItemCodec.DecodeItemStack | crates/particlemc-framework-core/src/item_stack.rs:552-582 | the decoding loops read what decoding on values gives, or stop with its error |

## Left out

- MpmcTheorems.CountersStayWithinOneTurn: counters are unbounded, where those of the ring are `usize` and
  wrap; the same holds for every other theorem on the ring.
- Hardware memory ordering in the ring: each atomic access is one step.
- `len` and `is_empty` of the ring: approximate by their own documentation.
- EntityHistory.HandlesAreUnique: does not model the 24-bit bound on generations and the 32-bit bound on
  slots; handles are unbounded in the arena, and `Entities.PartsRoundTrip` gives the exact bound of the
  packed form.
- DeferredCommands.ApplyIsDirect: does not model the token counter, which stops at 2^32 - 1 and would then
  give later spawns one token.
- Pathfinding.AStarWith: costs are exact reals, without floating-point rounding, and coordinates are
  unbounded integers.
- `Navigator`, node followers and AI goals: floating-point motion.
- Mutable access in queries (`iter_mut`, `get_mut`, `single_mut`): it visits the same rows.
- Worlds.RegisterValid: takes an id below 0x8000 that is not registered; a release build accepts any id, drops
  the storage of a registered one, and lets synthetic ids collide with ids from 0x8000 on.
- WorldObjects.World.RegisterArchetype: the same restriction on the id.
- Resources, messages, system parameters and parallel execution inside one schedule: a system is a
  function on the world.
- `Schedule` debug builds: unknown names and cycles end the program there; the model is the release build.
- FixedClocks.FixedClock.Tick: does not model the overflow of `Duration`, whose addition ends the program beyond
  2^64 seconds.
- FixedClocks.FixedClock.Advance: does not model that overflow either.
- FixedClocks.FixedClock.constructor: a frequency is a real number, without infinities and NaN, which the source
  treats like a frequency that is not positive.
- Thread affinity, elapsed times, and a command that ends a worker thread.
- Chunk NBT (`encode_chunk_nbt`, `decode_chunk_nbt`): a chunk is its payload bytes; zlib is an abstract
  codec.
- File errors and the atomic rename: a file that is written is there.
- `CommandQueue::push` and `ExternalCommand`: abstract commands.
- Decoders keep the unread bytes in place of a buffer and a position.
- ItemCodec.DecodeItemStack: takes the sum of the two entry counts without the 32-bit wrap, which only
  counts near 2^31 reach.
- ItemCodec.StackRoundTripIff: does not model that wrap either.
- `set_held_slot`, `consume_item`, and direct writes to the inventory during a drag.
- The typed getters of item components beyond the stack size, colours by name, `plain_text`, and the
  variable-length 64-bit integers: nothing hard about them.
- Sockets, authentication, console, plugins and the server loop.
