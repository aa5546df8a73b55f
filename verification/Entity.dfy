/** Entity handles and their generational allocator, from entity.rs.
  *
  * Generations are unbounded naturals; PartsRoundTrip gives the exact bound at which the packed
  * 64-bit handle stops telling them apart. */
module Entities {
  import opened Wrappers

  // ---- the packed handle ----

  function FromParts(kind: bv8, generation: bv32, slot: bv32): bv64 {
    ((kind as bv64) << 56) | ((generation as bv64) << 32) | (slot as bv64)
  }

  function TypeIdOf(bits: bv64): bv8 {
    (bits >> 56) as bv8
  }

  function GenerationOf(bits: bv64): bv32 {
    ((bits >> 32) & 0xFF_FFFF) as bv32
  }

  function SlotOf(bits: bv64): bv32 {
    (bits & 0xFFFF_FFFF) as bv32
  }

  lemma LowBits(k: bv64, g: bv64, s: bv64)
    requires g <= 0xFFFF_FFFF && s <= 0xFFFF_FFFF
    ensures ((k << 56) | (g << 32) | s) & 0xFFFF_FFFF == s
  {
  }

  lemma MiddleBits(k: bv64, g: bv64, s: bv64)
    requires g <= 0xFFFF_FFFF && s <= 0xFFFF_FFFF
    ensures (((k << 56) | (g << 32) | s) >> 32) & 0xFF_FFFF == g & 0xFF_FFFF
  {
  }

  lemma HighBits(k: bv64, g: bv64, s: bv64)
    requires k <= 0xFF && g <= 0xFF_FFFF && s <= 0xFFFF_FFFF
    ensures ((k << 56) | (g << 32) | s) >> 56 == k
  {
  }

  lemma Truncated(g: bv64)
    ensures g & 0xFF_FFFF == g <==> g <= 0xFF_FFFF
  {
  }

  /** The accessors undo FromParts exactly for generations of 24 bits. */
  lemma PartsRoundTrip(kind: bv8, generation: bv32, slot: bv32)
    ensures var bits := FromParts(kind, generation, slot);
            TypeIdOf(bits) == kind && GenerationOf(bits) == generation && SlotOf(bits) == slot
            <==> generation <= 0xFF_FFFF
  {
    var k, g, s := kind as bv64, generation as bv64, slot as bv64;
    LowBits(k, g, s);
    MiddleBits(k, g, s);
    Truncated(g);
    if generation <= 0xFF_FFFF {
      HighBits(k, g, s);
    }
  }

  lemma BitsRoundTrip(bits: bv64)
    ensures FromParts(TypeIdOf(bits), GenerationOf(bits), SlotOf(bits)) == bits
  {
    assert (bits >> 56) as bv8 as bv64 == bits >> 56;
    assert ((bits >> 32) & 0xFF_FFFF) as bv32 as bv64 == (bits >> 32) & 0xFF_FFFF;
    assert (bits & 0xFFFF_FFFF) as bv32 as bv64 == bits & 0xFFFF_FFFF;
  }

  // ---- one slot space ----

  type Kind = k: nat | k < 256

  datatype Entity = Entity(kind: Kind, generation: nat, slot: nat)

  datatype SlotState = SlotState(generation: nat, occupied: bool)

  /** The slots of one entity kind; `free` is the stack of slots to reuse. */
  datatype TypeArena = TypeArena(slots: seq<SlotState>, free: seq<nat>, len: nat)

  const EMPTY_ARENA := TypeArena([], [], 0)

  function Occupied(slots: seq<SlotState>): set<nat> {
    set i | 0 <= i < |slots| && slots[i].occupied
  }

  ghost predicate ValidArena(a: TypeArena) {
    && (forall i | 0 <= i < |a.free| :: a.free[i] < |a.slots| && !a.slots[a.free[i]].occupied)
    && (forall i, j | 0 <= i < j < |a.free| :: a.free[i] != a.free[j])
    && a.len == |Occupied(a.slots)|
  }

  predicate Alive(a: TypeArena, e: Entity) {
    e.slot < |a.slots| && a.slots[e.slot] == SlotState(e.generation, true)
  }

  /** The handle that the next `allocate` returns. */
  function NextHandle(a: TypeArena, kind: Kind): Entity
    requires ValidArena(a)
  {
    if a.free != [] then
      var slot := a.free[|a.free| - 1];
      Entity(kind, a.slots[slot].generation + 1, slot)
    else
      Entity(kind, 0, |a.slots|)
  }

  function Allocated(a: TypeArena, kind: Kind): TypeArena
    requires ValidArena(a)
  {
    var e := NextHandle(a, kind);
    var state := SlotState(e.generation, true);
    if a.free != []
    then TypeArena(a.slots[e.slot := state], a.free[..|a.free| - 1], a.len + 1)
    else TypeArena(a.slots + [state], [], a.len + 1)
  }

  function Deallocated(a: TypeArena, e: Entity): TypeArena
    requires ValidArena(a) && Alive(a, e)
  {
    OccupiedUpdate(a.slots, e.slot, SlotState(e.generation, false));
    TypeArena(a.slots[e.slot := SlotState(e.generation, false)], a.free + [e.slot], a.len - 1)
  }

  /** The slots up to and including n exist; the new ones are neither occupied nor on the free stack. */
  function Grown(slots: seq<SlotState>, n: nat): (r: seq<SlotState>)
    ensures |r| > n && |r| >= |slots|
  {
    if n < |slots| then slots else slots + seq(n + 1 - |slots|, _ => SlotState(0, false))
  }

  function Without(free: seq<nat>, slot: nat): seq<nat> {
    if slot in free then
      var at := IndexOf(free, slot);
      // swap_remove: the last entry moves into the gap
      free[at := free[|free| - 1]][..|free| - 1]
    else
      free
  }

  function IndexOf(free: seq<nat>, slot: nat): (at: nat)
    requires slot in free
    ensures at < |free| && free[at] == slot && forall i | 0 <= i < at :: free[i] != slot
  {
    if free[0] == slot then 0 else 1 + IndexOf(free[1..], slot)
  }

  predicate SlotTaken(a: TypeArena, slot: nat) {
    slot < |a.slots| && a.slots[slot].occupied
  }

  function Placed(a: TypeArena, e: Entity): TypeArena
    requires ValidArena(a) && !SlotTaken(a, e.slot)
  {
    TypeArena(Grown(a.slots, e.slot)[e.slot := SlotState(e.generation, true)], Without(a.free, e.slot), a.len + 1)
  }

  // ---- the slot space stays consistent ----

  lemma OccupiedUpdate(slots: seq<SlotState>, i: nat, state: SlotState)
    requires i < |slots|
    ensures var before, after := Occupied(slots), Occupied(slots[i := state]);
            after == if state.occupied then before + {i} else before - {i}
    ensures slots[i].occupied ==> |Occupied(slots)| >= 1
  {
    var before, after := Occupied(slots), Occupied(slots[i := state]);
    assert forall k | k != i :: k in after <==> k in before;
    if slots[i].occupied {
      assert i in before;
    }
  }

  lemma OccupiedAppend(slots: seq<SlotState>, state: SlotState)
    ensures Occupied(slots + [state]) ==
            if state.occupied then Occupied(slots) + {|slots|} else Occupied(slots)
  {
    var after := Occupied(slots + [state]);
    assert forall k | 0 <= k < |slots| :: (slots + [state])[k] == slots[k];
  }

  lemma OccupiedGrown(slots: seq<SlotState>, n: nat)
    ensures Occupied(Grown(slots, n)) == Occupied(slots)
  {
  }

  lemma AllocatedValid(a: TypeArena, kind: Kind)
    requires ValidArena(a)
    ensures ValidArena(Allocated(a, kind))
  {
    var e := NextHandle(a, kind);
    var state := SlotState(e.generation, true);
    if a.free != [] {
      OccupiedUpdate(a.slots, e.slot, state);
    } else {
      OccupiedAppend(a.slots, state);
    }
  }

  lemma DeallocatedValid(a: TypeArena, e: Entity)
    requires ValidArena(a) && Alive(a, e)
    ensures ValidArena(Deallocated(a, e))
  {
    OccupiedUpdate(a.slots, e.slot, SlotState(e.generation, false));
  }

  lemma WithoutRemoves(free: seq<nat>, slot: nat)
    requires forall i, j | 0 <= i < j < |free| :: free[i] != free[j]
    ensures forall i, j | 0 <= i < j < |Without(free, slot)| :: Without(free, slot)[i] != Without(free, slot)[j]
    ensures forall x :: x in Without(free, slot) <==> x in free && x != slot
  {
    if slot in free {
      var at, r := IndexOf(free, slot), Without(free, slot);
      assert forall i | 0 <= i < |r| :: r[i] == if i == at then free[|free| - 1] else free[i];
      forall x | x in free && x != slot
        ensures x in r
      {
        var i :| 0 <= i < |free| && free[i] == x;
        assert r[if i == |free| - 1 then at else i] == x;
      }
    }
  }

  lemma PlacedValid(a: TypeArena, e: Entity)
    requires ValidArena(a) && !SlotTaken(a, e.slot)
    ensures ValidArena(Placed(a, e))
  {
    OccupiedGrown(a.slots, e.slot);
    OccupiedUpdate(Grown(a.slots, e.slot), e.slot, SlotState(e.generation, true));
    WithoutRemoves(a.free, e.slot);
    var free := Without(a.free, e.slot);
    forall i | 0 <= i < |free|
      ensures free[i] < |Placed(a, e).slots| && !Placed(a, e).slots[free[i]].occupied
    {
      assert free[i] in free;
    }
  }

  // ---- all slot spaces ----

  type Arenas = map<Kind, TypeArena>

  function Space(types: Arenas, kind: Kind): TypeArena {
    if kind in types then types[kind] else EMPTY_ARENA
  }

  ghost predicate ValidArenas(types: Arenas) {
    forall kind :: ValidArena(Space(types, kind))
  }

  predicate IsAlive(types: Arenas, e: Entity) {
    Alive(Space(types, e.kind), e)
  }

  function AfterAllocate(types: Arenas, kind: Kind): (Arenas, Entity)
    requires ValidArenas(types)
  {
    (types[kind := Allocated(Space(types, kind), kind)], NextHandle(Space(types, kind), kind))
  }

  function AfterDeallocate(types: Arenas, e: Entity): Arenas
    requires ValidArenas(types)
  {
    if IsAlive(types, e) then types[e.kind := Deallocated(Space(types, e.kind), e)] else types
  }

  /** None when the kind differs or the slot is occupied. */
  function AfterExact(types: Arenas, kind: Kind, e: Entity): Option<Arenas>
    requires ValidArenas(types)
  {
    if e.kind != kind || SlotTaken(Space(types, kind), e.slot) then None
    else Some(types[kind := Placed(Space(types, kind), e)])
  }

  lemma SpacesAfterUpdate(types: Arenas, kind: Kind, a: TypeArena)
    ensures forall k: Kind :: Space(types[kind := a], k) == if k == kind then a else Space(types, k)
    ensures ValidArenas(types) && ValidArena(a) ==> ValidArenas(types[kind := a])
  {
    var types' := types[kind := a];
    forall k: Kind
      ensures Space(types', k) == if k == kind then a else Space(types, k)
    {
      assert k in types' <==> k == kind || k in types;
    }
    if ValidArenas(types) && ValidArena(a) {
      forall k: Kind
        ensures ValidArena(Space(types', k))
      {
        hide ValidArena;
        assert ValidArena(Space(types, k));
      }
    }
  }

  lemma EmptyValid()
    ensures ValidArenas(map[])
  {
    assert Occupied([]) == {};
  }

  lemma AllocateValid(types: Arenas, kind: Kind)
    requires ValidArenas(types)
    ensures var (types', e) := AfterAllocate(types, kind);
            ValidArenas(types') && IsAlive(types', e) && !IsAlive(types, e) && e.kind == kind
    ensures var (types', e) := AfterAllocate(types, kind);
            forall d :: d != e ==> (IsAlive(types', d) <==> IsAlive(types, d))
    ensures !SlotTaken(Space(types, kind), AfterAllocate(types, kind).1.slot)
  {
    AllocatedValid(Space(types, kind), kind);
    SpacesAfterUpdate(types, kind, Allocated(Space(types, kind), kind));
  }

  lemma DeallocateValid(types: Arenas, e: Entity)
    requires ValidArenas(types)
    ensures var types' := AfterDeallocate(types, e);
            ValidArenas(types') && !IsAlive(types', e)
    ensures forall d :: d != e ==> (IsAlive(AfterDeallocate(types, e), d) <==> IsAlive(types, d))
  {
    if IsAlive(types, e) {
      DeallocatedValid(Space(types, e.kind), e);
      SpacesAfterUpdate(types, e.kind, Deallocated(Space(types, e.kind), e));
    }
  }

  lemma AllocateExactValid(types: Arenas, kind: Kind, e: Entity)
    requires ValidArenas(types)
    ensures match AfterExact(types, kind, e)
            case Some(types') =>
              && ValidArenas(types') && IsAlive(types', e) && !IsAlive(types, e) && e.kind == kind
              && forall d :: d != e ==> (IsAlive(types', d) <==> IsAlive(types, d))
            case None => e.kind == kind ==> exists d :: IsAlive(types, d) && d.kind == kind && d.slot == e.slot
  {
    if e.kind == kind {
      if SlotTaken(Space(types, kind), e.slot) {
        var d := Entity(kind, Space(types, kind).slots[e.slot].generation, e.slot);
        assert IsAlive(types, d) && d.kind == kind && d.slot == e.slot;
      } else {
        PlacedValid(Space(types, kind), e);
        SpacesAfterUpdate(types, kind, Placed(Space(types, kind), e));
      }
    }
  }

  /** Live handles never share a slot of their kind. */
  lemma LiveHandlesHaveDistinctSlots(types: Arenas, d: Entity, e: Entity)
    requires IsAlive(types, d) && IsAlive(types, e) && d != e
    ensures d.kind != e.kind || d.slot != e.slot
  {
  }

  // ---- the arena as the source's object ----

  class EntityArena {
    var types: Arenas

    ghost predicate Valid()
      reads this
    {
      ValidArenas(types)
    }

    constructor ()
      ensures Valid() && types == map[]
    {
      EmptyValid();
      types := map[];
    }

    method Allocate(kind: Kind) returns (e: Entity)
      requires Valid()
      modifies this
      ensures Valid() && (types, e) == AfterAllocate(old(types), kind)
    {
      AllocateValid(types, kind);
      if kind !in types {
        types := types[kind := EMPTY_ARENA];
      }
      var arena := types[kind];
      if arena.free != [] {
        var slot := arena.free[|arena.free| - 1];
        var generation := arena.slots[slot].generation + 1;
        arena := arena.(free := arena.free[..|arena.free| - 1]);
        arena := arena.(slots := arena.slots[slot := SlotState(generation, true)], len := arena.len + 1);
        e := Entity(kind, generation, slot);
      } else {
        e := Entity(kind, 0, |arena.slots|);
        arena := arena.(slots := arena.slots + [SlotState(0, true)], len := arena.len + 1);
      }
      types := types[kind := arena];
      assert types == AfterAllocate(old(types), kind).0;
    }

    method Deallocate(e: Entity) returns (ok: bool)
      requires Valid()
      modifies this
      ensures Valid() && types == AfterDeallocate(old(types), e) && ok == old(IsAlive(types, e))
    {
      DeallocateValid(types, e);
      if e.kind !in types {
        return false;
      }
      var arena := types[e.kind];
      if e.slot >= |arena.slots| {
        return false;
      }
      var state := arena.slots[e.slot];
      if !state.occupied || state.generation != e.generation {
        return false;
      }
      OccupiedUpdate(arena.slots, e.slot, state.(occupied := false));
      arena := arena.(slots := arena.slots[e.slot := state.(occupied := false)]);
      arena := arena.(free := arena.free + [e.slot], len := arena.len - 1);
      types := types[e.kind := arena];
      return true;
    }

    method AllocateExact(kind: Kind, e: Entity) returns (r: Option<Entity>)
      requires Valid()
      modifies this
      ensures Valid()
      ensures match AfterExact(old(types), kind, e)
              case Some(types') => r == Some(e) && types == types'
              case None => r == None && types == old(types)
    {
      AllocateExactValid(types, kind, e);
      if e.kind != kind {
        return None;
      }
      if kind !in types {
        types := types[kind := EMPTY_ARENA];
      }
      var arena := types[kind];
      if e.slot >= |arena.slots| {
        arena := arena.(slots := arena.slots + seq(e.slot + 1 - |arena.slots|, _ => SlotState(0, false)));
      } else if arena.slots[e.slot].occupied {
        return None;
      }
      var free := RemoveFromStack(arena.free, e.slot);
      arena := arena.(free := free);
      arena := arena.(slots := arena.slots[e.slot := SlotState(e.generation, true)], len := arena.len + 1);
      assert arena == Placed(Space(old(types), kind), e);
      types := types[kind := arena];
      assert types == old(types)[kind := arena];
      return Some(e);
    }
  
    /** `position` and `swap_remove` on the free stack. */
    static method RemoveFromStack(free: seq<nat>, slot: nat) returns (r: seq<nat>)
      ensures r == Without(free, slot)
    {
      var at := 0;
      while at < |free| && free[at] != slot
        invariant at <= |free| && forall i | 0 <= i < at :: free[i] != slot
      {
        at := at + 1;
      }
      if at < |free| {
        assert at == IndexOf(free, slot);
        return free[at := free[|free| - 1]][..|free| - 1];
      }
      return free;
    }
  }
}
