/** What runs of the allocator guarantee about the handles they hand out. */
module EntityHistory {
  import opened Wrappers
  import opened Entities

  datatype Op = Alloc(kind: Kind) | Dealloc(e: Entity) | Exact(kind: Kind, e: Entity)

  /** The allocator and every handle it has handed out so far, in order. */
  datatype State = State(types: Arenas, issued: seq<Entity>)

  const START := State(map[], [])

  /** The handle an operation hands out, if any. */
  function HandedOut(s: State, op: Op): Option<Entity>
    requires ValidArenas(s.types)
  {
    match op
    case Alloc(kind) => Some(AfterAllocate(s.types, kind).1)
    case Dealloc(_) => None
    case Exact(kind, e) => if AfterExact(s.types, kind, e).Some? then Some(e) else None
  }

  function Step(s: State, op: Op): State
    requires ValidArenas(s.types)
  {
    match op
    case Alloc(kind) => var (types, e) := AfterAllocate(s.types, kind); State(types, s.issued + [e])
    case Dealloc(e) => State(AfterDeallocate(s.types, e), s.issued)
    case Exact(kind, e) =>
      (match AfterExact(s.types, kind, e)
       case Some(types) => State(types, s.issued + [e])
       case None => s)
  }

  function Run(s: State, ops: seq<Op>): (r: State)
    requires ValidArenas(s.types)
    ensures ValidArenas(r.types)
    decreases |ops|
  {
    StepValid(s, if ops == [] then Dealloc(Entity(0, 0, 0)) else ops[0]);
    if ops == [] then s else Run(Step(s, ops[0]), ops[1..])
  }

  lemma StepValid(s: State, op: Op)
    requires ValidArenas(s.types)
    ensures ValidArenas(Step(s, op).types)
  {
    match op
    case Alloc(kind) => AllocateValid(s.types, kind);
    case Dealloc(e) => DeallocateValid(s.types, e);
    case Exact(kind, e) => AllocateExactValid(s.types, kind, e);
  }

  // ---- what the slots remember ----

  function Generation(a: TypeArena, slot: nat): nat {
    if slot < |a.slots| then a.slots[slot].generation else 0
  }

  /** A slot that is occupied or waits on the free stack. */
  predicate Known(a: TypeArena, slot: nat) {
    slot < |a.slots| && (a.slots[slot].occupied || slot in a.free)
  }

  lemma AllocatedRemembers(a: TypeArena, kind: Kind)
    requires ValidArena(a)
    ensures var e, a' := NextHandle(a, kind), Allocated(a, kind);
            && Known(a', e.slot)
            && (forall slot | slot != e.slot :: Known(a, slot) <==> Known(a', slot))
            && (forall slot :: Generation(a', slot) == if slot == e.slot then e.generation else Generation(a, slot))
            && (forall slot :: Known(a, slot) ==> slot != e.slot || e.generation == Generation(a, slot) + 1)
  {
    var e, a' := NextHandle(a, kind), Allocated(a, kind);
    forall slot | Known(a, slot)
      ensures Known(a', slot)
    {
      if a.free != [] && slot in a.free && slot != e.slot {
        var i :| 0 <= i < |a.free| && a.free[i] == slot;
        assert a'.free[i] == slot;
      }
    }
  }

  lemma DeallocatedRemembers(a: TypeArena, e: Entity)
    requires ValidArena(a) && Alive(a, e)
    ensures var a' := Deallocated(a, e);
            && (forall slot :: Known(a, slot) <==> Known(a', slot))
            && (forall slot :: Generation(a', slot) == Generation(a, slot))
  {
    assert (a.free + [e.slot])[|a.free|] == e.slot;
  }

  lemma PlacedRemembers(a: TypeArena, e: Entity)
    requires ValidArena(a) && !SlotTaken(a, e.slot)
    ensures var a' := Placed(a, e);
            && Known(a', e.slot)
            && (forall slot | slot != e.slot :: Known(a, slot) <==> Known(a', slot))
            && (forall slot :: Generation(a', slot) == if slot == e.slot then e.generation else Generation(a, slot))
  {
    WithoutRemoves(a.free, e.slot);
  }

  /** The handle a slot remembers. */
  function Latest(types: Arenas, kind: Kind, slot: nat): Entity {
    Entity(kind, Generation(Space(types, kind), slot), slot)
  }

  /** A slot is known exactly when some handle for it was handed out, and it remembers one of them. */
  ghost predicate Tracked(s: State) {
    && ValidArenas(s.types)
    && (forall e | e in s.issued :: Known(Space(s.types, e.kind), e.slot))
    && (forall kind, slot | Known(Space(s.types, kind), slot) :: Latest(s.types, kind, slot) in s.issued)
    && (forall kind, slot | !Known(Space(s.types, kind), slot) :: Generation(Space(s.types, kind), slot) == 0)
  }

  /** No slot has fallen behind a handle that was handed out for it. */
  ghost predicate UpToDate(s: State) {
    forall e | e in s.issued :: e.generation <= Generation(Space(s.types, e.kind), e.slot)
  }

  /** An exact placement that does not turn its slot's generation back. */
  predicate Forward(s: State, op: Op) {
    op.Exact? ==> op.e.generation >= Generation(Space(s.types, op.e.kind), op.e.slot)
  }

  /** A state that differs from a tracked one only by handing out e, which its slot remembers. */
  lemma LatestAfter(s: State, s': State, e: Entity)
    requires Tracked(s) && s'.issued == s.issued + [e] && Latest(s'.types, e.kind, e.slot) == e
    requires forall k: Kind, slot | k != e.kind || slot != e.slot ::
               (Known(Space(s'.types, k), slot) <==> Known(Space(s.types, k), slot))
               && Generation(Space(s'.types, k), slot) == Generation(Space(s.types, k), slot)
    ensures forall k: Kind, slot | Known(Space(s'.types, k), slot) :: Latest(s'.types, k, slot) in s'.issued
  {
    hide Known, Generation, ValidArenas;
    assert e in s'.issued by {
      assert s'.issued[|s.issued|] == e;
    }
    forall k: Kind, slot | Known(Space(s'.types, k), slot)
      ensures Latest(s'.types, k, slot) in s'.issued
    {
      if k != e.kind || slot != e.slot {
        assert Latest(s'.types, k, slot) == Latest(s.types, k, slot);
      }
    }
  }

  /** A state whose slots remember what those of a tracked one do. */
  lemma SameSlots(s: State, s': State)
    requires Tracked(s) && s'.issued == s.issued && ValidArenas(s'.types)
    requires forall k: Kind, slot ::
               (Known(Space(s'.types, k), slot) <==> Known(Space(s.types, k), slot))
               && Generation(Space(s'.types, k), slot) == Generation(Space(s.types, k), slot)
    ensures Tracked(s')
    ensures UpToDate(s) ==> UpToDate(s')
  {
    hide Known, Generation, ValidArenas;
    forall k: Kind, slot | Known(Space(s'.types, k), slot)
      ensures Latest(s'.types, k, slot) in s'.issued
    {
      assert Latest(s'.types, k, slot) == Latest(s.types, k, slot);
    }
  }

  lemma AllocStep(s: State, kind: Kind)
    requires Tracked(s)
    ensures Tracked(Step(s, Alloc(kind)))
    ensures UpToDate(s) ==> UpToDate(Step(s, Alloc(kind))) && HandedOut(s, Alloc(kind)).value !in s.issued
  {
    hide ValidArena, Allocated, NextHandle, Known, Generation, Alive;
    AllocateValid(s.types, kind);
    AllocatedRemembers(Space(s.types, kind), kind);
    SpacesAfterUpdate(s.types, kind, Allocated(Space(s.types, kind), kind));
    LatestAfter(s, Step(s, Alloc(kind)), NextHandle(Space(s.types, kind), kind));
  }

  lemma DeallocStep(s: State, e: Entity)
    requires Tracked(s)
    ensures Tracked(Step(s, Dealloc(e)))
    ensures UpToDate(s) ==> UpToDate(Step(s, Dealloc(e)))
  {
    hide ValidArena, Deallocated, Known, Generation, Alive;
    DeallocateValid(s.types, e);
    if IsAlive(s.types, e) {
      DeallocatedRemembers(Space(s.types, e.kind), e);
      SpacesAfterUpdate(s.types, e.kind, Deallocated(Space(s.types, e.kind), e));
    }
    SameSlots(s, Step(s, Dealloc(e)));
  }

  lemma ExactStep(s: State, kind: Kind, e: Entity)
    requires Tracked(s)
    ensures Tracked(Step(s, Exact(kind, e)))
    ensures UpToDate(s) && Forward(s, Exact(kind, e)) ==> UpToDate(Step(s, Exact(kind, e)))
  {
    hide ValidArena, Placed, Known, Generation, Alive;
    AllocateExactValid(s.types, kind, e);
    if AfterExact(s.types, kind, e).Some? {
      PlacedRemembers(Space(s.types, kind), e);
      SpacesAfterUpdate(s.types, kind, Placed(Space(s.types, kind), e));
      LatestAfter(s, Step(s, Exact(kind, e)), e);
    }
  }

  lemma StepTracked(s: State, op: Op)
    requires Tracked(s)
    ensures Tracked(Step(s, op))
    ensures UpToDate(s) && Forward(s, op) ==> UpToDate(Step(s, op))
    ensures UpToDate(s) && op.Alloc? ==> HandedOut(s, op).value !in s.issued
  {
    match op
    case Alloc(kind) => AllocStep(s, kind);
    case Dealloc(e) => DeallocStep(s, e);
    case Exact(kind, e) => ExactStep(s, kind, e);
  }

  lemma {:induction false} RunTracked(s: State, ops: seq<Op>)
    requires Tracked(s)
    ensures Tracked(Run(s, ops))
    decreases |ops|
  {
    if ops != [] {
      StepTracked(s, ops[0]);
      RunTracked(Step(s, ops[0]), ops[1..]);
    }
  }

  // ---- handles in runs of allocate and deallocate ----

  predicate NoExact(ops: seq<Op>) {
    forall i | 0 <= i < |ops| :: !ops[i].Exact?
  }

  ghost predicate NoRepeat(issued: seq<Entity>) {
    forall i, j | 0 <= i < j < |issued| :: issued[i] != issued[j]
  }

  lemma {:induction false} RunUpToDate(s: State, ops: seq<Op>)
    requires Tracked(s) && UpToDate(s) && NoExact(ops)
    ensures Tracked(Run(s, ops)) && UpToDate(Run(s, ops))
    ensures NoRepeat(s.issued) ==> NoRepeat(Run(s, ops).issued)
    ensures s.issued <= Run(s, ops).issued
    ensures forall e | e in s.issued && !IsAlive(s.types, e) :: !IsAlive(Run(s, ops).types, e)
    decreases |ops|
  {
    if ops != [] {
      var s' := Step(s, ops[0]);
      StepTracked(s, ops[0]);
      forall e | e in s.issued && !IsAlive(s.types, e)
        ensures e in s'.issued && !IsAlive(s'.types, e)
      {
        match ops[0]
        case Alloc(kind) => AllocateValid(s.types, kind);
        case Dealloc(d) => DeallocateValid(s.types, d);
      }
      RunUpToDate(s', ops[1..]);
    }
  }

  lemma StartTracked()
    ensures Tracked(START) && UpToDate(START)
  {
    EmptyValid();
  }

  lemma {:induction false} RunConcat(s: State, a: seq<Op>, b: seq<Op>)
    requires ValidArenas(s.types)
    ensures Run(s, a + b) == Run(Run(s, a), b)
    decreases |a|
  {
    hide ValidArenas;
    if a == [] {
      assert a + b == b;
    } else {
      StepValid(s, a[0]);
      hide Step;
      RunConcat(Step(s, a[0]), a[1..], b);
      assert (a + b)[0] == a[0] && (a + b)[1..] == a[1..] + b;
    }
  }

  /** The state after operations on a fresh allocator. */
  function FromStart(ops: seq<Op>): State {
    EmptyValid();
    Run(START, ops)
  }

  /** No run of allocate and deallocate hands out a handle twice, and a handle that was freed at some
    * point of the run is dead for the rest of it. */
  lemma HandlesAreUnique(past: seq<Op>, future: seq<Op>)
    requires NoExact(past) && NoExact(future)
    ensures NoRepeat(FromStart(past).issued)
    ensures forall e | e in FromStart(past).issued && !IsAlive(FromStart(past).types, e) ::
              !IsAlive(FromStart(past + future).types, e)
  {
    StartTracked();
    RunUpToDate(START, past);
    RunUpToDate(Run(START, past), future);
    RunConcat(START, past, future);
  }

  /** With exact placements mixed in, every slot space stays consistent, live handles keep distinct
    * slots and a handle is live exactly when it is the latest of an occupied slot. */
  lemma ArenaStaysConsistent(ops: seq<Op>, kind: Kind)
    ensures var s := FromStart(ops); var a := Space(s.types, kind);
            && (forall i, j | 0 <= i < j < |a.free| :: a.free[i] != a.free[j])
            && (forall slot | slot in a.free :: !SlotTaken(a, slot))
            && a.len == |Occupied(a.slots)|
            && (forall slot | SlotTaken(a, slot) :: Latest(s.types, kind, slot) in s.issued)
            && (forall d, e | IsAlive(s.types, d) && IsAlive(s.types, e) && d != e ::
                  d.kind != e.kind || d.slot != e.slot)
  {
    StartTracked();
    RunTracked(START, ops);
    assert ValidArena(Space(FromStart(ops).types, kind));
  }

  // ---- exactly when a placement lets a handle come back ----

  predicate Reissues(s: State, kind: Kind)
    requires ValidArenas(s.types)
  {
    AfterAllocate(s.types, kind).1 in s.issued
  }

  ghost predicate NeverReissues(s: State)
    requires ValidArenas(s.types)
  {
    forall ops, kind: Kind | NoExact(ops) :: !Reissues(Run(s, ops), kind)
  }

  /** Frees the slot of a handle that its slot has fallen behind, and allocates until the handle
    * comes out a second time. */
  lemma {:induction false} Chase(s: State, e: Entity) returns (ops: seq<Op>)
    requires Tracked(s) && e in s.issued && e.generation > Generation(Space(s.types, e.kind), e.slot)
    ensures NoExact(ops) && Reissues(Run(s, ops), e.kind)
    decreases e.generation - Generation(Space(s.types, e.kind), e.slot),
              SlotTaken(Space(s.types, e.kind), e.slot), |Space(s.types, e.kind).free|
  {
    var op := if SlotTaken(Space(s.types, e.kind), e.slot)
              then Dealloc(Latest(s.types, e.kind, e.slot)) else Alloc(e.kind);
    if op.Alloc? && Reissues(s, e.kind) {
      ops := [];
    } else {
      StepTracked(s, op);
      ChaseStep(s, e, op);
      var rest := Chase(Step(s, op), e);
      ops := [op] + rest;
      assert Run(s, ops) == Run(Step(s, op), rest) by {
        assert ops[1..] == rest;
      }
    }
  }

  lemma ChaseStep(s: State, e: Entity, op: Op)
    requires Tracked(s) && e in s.issued && e.generation > Generation(Space(s.types, e.kind), e.slot)
    requires op == if SlotTaken(Space(s.types, e.kind), e.slot)
                   then Dealloc(Latest(s.types, e.kind, e.slot)) else Alloc(e.kind)
    requires op.Alloc? ==> !Reissues(s, e.kind)
    ensures var a, a' := Space(s.types, e.kind), Space(Step(s, op).types, e.kind);
            && e in Step(s, op).issued && e.generation > Generation(a', e.slot)
            && Generation(a', e.slot) >= Generation(a, e.slot)
            && (Generation(a', e.slot) == Generation(a, e.slot) ==>
                  !SlotTaken(a', e.slot)
                  && (SlotTaken(a, e.slot) || |a'.free| < |a.free|))
  {
    assert Known(Space(s.types, e.kind), e.slot);
  }

  /** In any state of the allocator: allocating and freeing can never hand out an old handle again if
    * and only if no slot has fallen behind a handle that was handed out for it. */
  lemma NeverReissuesIffUpToDate(s: State)
    requires Tracked(s)
    ensures NeverReissues(s) <==> UpToDate(s)
  {
    if UpToDate(s) {
      forall ops, kind: Kind | NoExact(ops)
        ensures !Reissues(Run(s, ops), kind)
      {
        RunUpToDate(s, ops);
        StepTracked(Run(s, ops), Alloc(kind));
      }
    } else {
      var e :| e in s.issued && e.generation > Generation(Space(s.types, e.kind), e.slot);
      var ops := Chase(s, e);
    }
  }

  /** A placement keeps old handles from coming back exactly when it does not turn back the
    * generation of its slot. */
  lemma PlacementIsSafeIffForward(s: State, kind: Kind, e: Entity)
    requires Tracked(s) && NeverReissues(s) && AfterExact(s.types, kind, e).Some?
    ensures ValidArenas(Step(s, Exact(kind, e)).types)
    ensures NeverReissues(Step(s, Exact(kind, e))) <==> Forward(s, Exact(kind, e))
  {
    var s' := Step(s, Exact(kind, e));
    NeverReissuesIffUpToDate(s);
    StepTracked(s, Exact(kind, e));
    NeverReissuesIffUpToDate(s');
    PlacedRemembers(Space(s.types, kind), e);
    if !Forward(s, Exact(kind, e)) {
      assert Known(Space(s.types, kind), e.slot);
      assert Latest(s.types, kind, e.slot) in s'.issued;
    }
  }

  lemma OneSlotUsedTwice()
    ensures var first, second := Entity(1, 0, 0), Entity(1, 1, 0);
            FromStart([Alloc(1), Dealloc(first), Alloc(1), Dealloc(second)])
            == State(map[1 := TypeArena([SlotState(1, false)], [0], 0)], [first, second])
  {
    hide ValidArenas, ValidArena, Occupied;
    var first, second := Entity(1, 0, 0), Entity(1, 1, 0);
    var ops := [Alloc(1), Dealloc(first), Alloc(1), Dealloc(second)];
    EmptyValid();
    var s1 := State(map[1 := TypeArena([SlotState(0, true)], [], 1)], [first]);
    StepValid(START, ops[0]);
    assert Step(START, ops[0]) == s1 by {
      assert [] + [SlotState(0, true)] == [SlotState(0, true)];
      assert START.types[1 := s1.types[1]] == s1.types;
    }
    var s2 := State(map[1 := TypeArena([SlotState(0, false)], [0], 0)], [first]);
    StepValid(s1, ops[1]);
    assert Step(s1, ops[1]) == s2 by {
      assert [SlotState(0, true)][0 := SlotState(0, false)] == [SlotState(0, false)];
      assert s1.types[1].free + [0] == [0];
      assert s1.types[1 := s2.types[1]] == s2.types;
    }
    var s3 := State(map[1 := TypeArena([SlotState(1, true)], [], 1)], [first, second]);
    StepValid(s2, ops[2]);
    assert Step(s2, ops[2]) == s3 by {
      assert [SlotState(0, false)][0 := SlotState(1, true)] == [SlotState(1, true)];
      assert s2.types[1 := s3.types[1]] == s3.types;
    }
    var s4 := State(map[1 := TypeArena([SlotState(1, false)], [0], 0)], [first, second]);
    StepValid(s3, ops[3]);
    assert Step(s3, ops[3]) == s4 by {
      assert [SlotState(1, true)][0 := SlotState(1, false)] == [SlotState(1, false)];
      assert s3.types[1].free + [0] == [0];
      assert s3.types[1 := s4.types[1]] == s4.types;
    }
    assert ops[1..][1..] == ops[2..] && ops[2..][1..] == ops[3..] && ops[3..][1..] == [];
    assert Run(s3, ops[3..]) == Run(s4, []);
    assert Run(s2, ops[2..]) == Run(s3, ops[3..]);
    assert Run(s1, ops[1..]) == Run(s2, ops[2..]);
  }

  /** Such a placement exists: slot 0 was used twice, and its first handle is put back. */
  lemma PlacementCanReviveAHandle()
    ensures var first, second := Entity(1, 0, 0), Entity(1, 1, 0);
            var s := FromStart([Alloc(1), Dealloc(first), Alloc(1), Dealloc(second)]);
            && AfterExact(s.types, 1, first).Some?
            && ValidArenas(Step(s, Exact(1, first)).types)
            && !NeverReissues(Step(s, Exact(1, first)))
  {
    hide Run, NeverReissues, Tracked, UpToDate;
    var first, second := Entity(1, 0, 0), Entity(1, 1, 0);
    var ops := [Alloc(1), Dealloc(first), Alloc(1), Dealloc(second)];
    OneSlotUsedTwice();
    StartTracked();
    RunUpToDate(START, ops);
    NeverReissuesIffUpToDate(FromStart(ops));
    PlacementIsSafeIffForward(FromStart(ops), 1, first);
  }

  // ---- slots that a placement skips ----

  /** A slot that exists but is neither occupied nor on the free stack: growth up to an exact placement
    * passed over it. */
  predicate Skipped(a: TypeArena, slot: nat) {
    slot < |a.slots| && !Known(a, slot)
  }

  predicate PlacesAt(op: Op, kind: Kind, slot: nat) {
    op.Exact? && op.kind == kind && op.e.kind == kind && op.e.slot == slot
  }

  lemma AllocatedKeepsSkipped(a: TypeArena, kind: Kind, slot: nat)
    requires ValidArena(a)
    ensures Skipped(a, slot) ==> Skipped(Allocated(a, kind), slot)
    ensures Known(a, slot) ==> Known(Allocated(a, kind), slot)
  {
    AllocatedRemembers(a, kind);
  }

  lemma PlacedKeepsSkipped(a: TypeArena, e: Entity, slot: nat)
    requires ValidArena(a) && !SlotTaken(a, e.slot)
    ensures Skipped(a, slot) ==> (Skipped(Placed(a, e), slot) <==> slot != e.slot)
    ensures Known(a, slot) ==> Known(Placed(a, e), slot)
  {
    PlacedRemembers(a, e);
  }

  lemma StepSkips(s: State, op: Op, kind: Kind, slot: nat)
    requires Tracked(s)
    ensures Skipped(Space(s.types, kind), slot) ==>
              (Skipped(Space(Step(s, op).types, kind), slot) <==> !PlacesAt(op, kind, slot))
    ensures Known(Space(s.types, kind), slot) ==> Known(Space(Step(s, op).types, kind), slot)
    ensures Skipped(Space(s.types, kind), slot) && PlacesAt(op, kind, slot) ==>
              Known(Space(Step(s, op).types, kind), slot)
  {
    hide ValidArena, Allocated, NextHandle, Placed, Deallocated, Alive;
    match op
    case Alloc(k) =>
      AllocatedKeepsSkipped(Space(s.types, k), k, slot);
      SpacesAfterUpdate(s.types, k, Allocated(Space(s.types, k), k));
    case Dealloc(e) =>
      if IsAlive(s.types, e) {
        DeallocatedRemembers(Space(s.types, e.kind), e);
        DeallocatedSize(Space(s.types, e.kind), e);
        SpacesAfterUpdate(s.types, e.kind, Deallocated(Space(s.types, e.kind), e));
      }
    case Exact(k, e) =>
      if AfterExact(s.types, k, e).Some? {
        PlacedKeepsSkipped(Space(s.types, k), e, slot);
        PlacedRemembers(Space(s.types, k), e);
        SpacesAfterUpdate(s.types, k, Placed(Space(s.types, k), e));
      }
  }

  lemma DeallocatedSize(a: TypeArena, e: Entity)
    requires ValidArena(a) && Alive(a, e)
    ensures |Deallocated(a, e).slots| == |a.slots|
  {
  }

  lemma {:induction false} KnownStays(s: State, ops: seq<Op>, kind: Kind, slot: nat)
    requires Tracked(s) && Known(Space(s.types, kind), slot)
    ensures Known(Space(Run(s, ops).types, kind), slot)
    decreases |ops|
  {
    hide Known, Step, Generation;
    if ops != [] {
      StepSkips(s, ops[0], kind, slot);
      StepTracked(s, ops[0]);
      KnownStays(Step(s, ops[0]), ops[1..], kind, slot);
    }
  }

  /** A skipped slot comes back into use when, and only when, an exact placement names it. */
  lemma {:induction false} SkippedUntilPlaced(s: State, ops: seq<Op>, kind: Kind, slot: nat)
    requires Tracked(s) && Skipped(Space(s.types, kind), slot)
    ensures Skipped(Space(Run(s, ops).types, kind), slot) <==>
            forall i | 0 <= i < |ops| :: !PlacesAt(ops[i], kind, slot)
    decreases |ops|
  {
    hide Known, Step, Generation, PlacesAt;
    if ops != [] {
      StepSkips(s, ops[0], kind, slot);
      StepTracked(s, ops[0]);
      assert ops == [ops[0]] + ops[1..];
      if PlacesAt(ops[0], kind, slot) {
        KnownStays(Step(s, ops[0]), ops[1..], kind, slot);
      } else {
        SkippedUntilPlaced(Step(s, ops[0]), ops[1..], kind, slot);
        assert forall i | 0 < i < |ops| :: ops[i] == ops[1..][i - 1];
        assert forall i | 0 <= i < |ops[1..]| :: ops[1..][i] == ops[i + 1];
      }
    }
  }

  /** Allocation never hands out a skipped slot, however long it goes on. */
  lemma SkippedIsNeverIssued(s: State, ops: seq<Op>, kind: Kind, slot: nat)
    requires Tracked(s) && NoExact(ops) && Skipped(Space(s.types, kind), slot)
    ensures forall e | e in Run(s, ops).issued :: e.kind != kind || e.slot != slot
  {
    SkippedUntilPlaced(s, ops, kind, slot);
    RunTracked(s, ops);
  }

  /** A placement beyond the end of a new arena skips the slots before it. */
  lemma GrowthSkips()
    ensures Tracked(Step(START, Exact(1, Entity(1, 0, 5))))
    ensures forall slot: nat | slot < 5 :: Skipped(Space(Step(START, Exact(1, Entity(1, 0, 5))).types, 1), slot)
  {
    StartTracked();
    StepTracked(START, Exact(1, Entity(1, 0, 5)));
    PlacedRemembers(Space(START.types, 1), Entity(1, 0, 5));
  }
}
