/** The entity storage of world.rs: archetype rows, columns and the reverse index over the arena.
  *
  * Component types are numbers that carry their storage class; a value is a payload, and payload 0
  * is `T::default()`.  A sparse set is the map from entity slot to value that it stores. */
module Worlds {
  import opened Wrappers
  import opened Entities

  datatype Class = SoA | Sparse

  datatype ComponentId = ComponentId(id: nat, storage: Class)

  type Payload = nat

  const DEFAULT: Payload := 0

  /** A type-erased value: what a downcast can see. */
  datatype Value = Value(cid: ComponentId, payload: Payload)

  datatype Column = Dense(data: seq<Payload>) | Keyed(values: map<nat, Payload>)

  type ArchId = nat

  datatype ArchetypeDef = ArchetypeDef(kind: Kind, components: set<ComponentId>)

  datatype Storage = Storage(def: ArchetypeDef, slots: seq<Entity>, columns: map<ComponentId, Column>)

  datatype EntityError = NotFound | ComponentMismatch

  /** `counter` numbers the synthetic archetypes that `spawn_empty` registers. */
  datatype World = World(
    types: Arenas, archetypes: map<ArchId, Storage>, index: map<Entity, (ArchId, nat)>,
    empty: map<Kind, ArchId>, counter: nat)

  const FIRST_SYNTHETIC: ArchId := 0x8000

  const NEW_WORLD := World(map[], map[], map[], map[], FIRST_SYNTHETIC)

  // ---- columns ----

  function SwapRemove<T>(s: seq<T>, i: nat): (r: seq<T>)
    requires i < |s|
  {
    s[i := s[|s| - 1]][..|s| - 1]
  }

  function PushDefault(c: Column): Column {
    match c
    case Dense(data) => Dense(data + [DEFAULT])
    case Keyed(_) => c
  }

  function OnDespawn(c: Column, idx: nat, slot: nat): Column
    requires c.Dense? ==> idx < |c.data|
  {
    match c
    case Dense(data) => Dense(SwapRemove(data, idx))
    case Keyed(values) => Keyed(values - {slot})
  }

  function InsertAt(c: Column, idx: nat, slot: nat, payload: Payload): Column
    requires c.Dense? ==> idx < |c.data|
  {
    match c
    case Dense(data) => Dense(data[idx := payload])
    case Keyed(values) => Keyed(values[slot := payload])
  }

  function ReadAt(c: Column, idx: nat, slot: nat): Option<Payload> {
    match c
    case Dense(data) => if idx < |data| then Some(data[idx]) else None
    case Keyed(values) => if slot in values then Some(values[slot]) else None
  }

  /** A dense column keeps a default in the row, a keyed one drops the entry. */
  function Take(c: Column, idx: nat, slot: nat): Column
    requires c.Dense? ==> idx < |c.data|
  {
    match c
    case Dense(data) => Dense(data[idx := DEFAULT])
    case Keyed(values) => Keyed(values - {slot})
  }

  function EmptyColumn(cid: ComponentId, rows: nat): Column {
    if cid.storage.SoA? then Dense(seq(rows, _ => DEFAULT)) else Keyed(map[])
  }

  // ---- one archetype's storage ----

  ghost predicate ColumnOk(st: Storage, cid: ComponentId, c: Column) {
    match c
    case Dense(data) => cid.storage.SoA? && cid in st.def.components && |data| == |st.slots|
    case Keyed(values) => cid.storage.Sparse? && forall k | k in values :: SlotInUse(st, k)
  }

  ghost predicate SlotInUse(st: Storage, slot: nat) {
    exists i :: 0 <= i < |st.slots| && st.slots[i].slot == slot
  }

  ghost predicate StorageOk(st: Storage) {
    && (forall i | 0 <= i < |st.slots| :: st.slots[i].kind == st.def.kind)
    && (forall i, j | 0 <= i < j < |st.slots| :: st.slots[i].slot != st.slots[j].slot)
    && (forall cid | cid in st.columns :: ColumnOk(st, cid, st.columns[cid]))
  }

  function Appended(st: Storage, e: Entity): Storage {
    Storage(st.def, st.slots + [e], map cid | cid in st.columns :: PushDefault(st.columns[cid]))
  }

  function Removed(st: Storage, idx: nat): Storage
    requires StorageOk(st) && idx < |st.slots|
  {
    Storage(st.def, SwapRemove(st.slots, idx),
            map cid | cid in st.columns ::
              (assert ColumnOk(st, cid, st.columns[cid]); OnDespawn(st.columns[cid], idx, st.slots[idx].slot)))
  }

  /** The storage after writing to one column, created first if it is absent. */
  function Written(st: Storage, cid: ComponentId, idx: nat, payload: Payload): Storage
    requires StorageOk(st) && idx < |st.slots|
  {
    assert cid in st.columns ==> ColumnOk(st, cid, st.columns[cid]);
    var c := if cid in st.columns then st.columns[cid] else EmptyColumn(cid, |st.slots|);
    st.(columns := st.columns[cid := InsertAt(c, idx, st.slots[idx].slot, payload)])
  }

  function Cleared(st: Storage, cid: ComponentId, idx: nat): Storage
    requires StorageOk(st) && idx < |st.slots| && cid in st.columns
  {
    assert ColumnOk(st, cid, st.columns[cid]);
    st.(columns := st.columns[cid := Take(st.columns[cid], idx, st.slots[idx].slot)])
  }

  function CellAt(st: Storage, cid: ComponentId, idx: nat): Option<Payload>
    requires idx < |st.slots|
  {
    if cid in st.columns then ReadAt(st.columns[cid], idx, st.slots[idx].slot) else None
  }

  lemma AppendedOk(st: Storage, e: Entity)
    requires StorageOk(st) && e.kind == st.def.kind && !SlotInUse(st, e.slot)
    ensures StorageOk(Appended(st, e))
  {
    var st' := Appended(st, e);
    forall k | SlotInUse(st, k)
      ensures SlotInUse(st', k)
    {
      var i :| 0 <= i < |st.slots| && st.slots[i].slot == k;
      assert st'.slots[i].slot == k;
    }
    forall cid | cid in st.columns
      ensures ColumnOk(st', cid, st'.columns[cid])
    {
      assert ColumnOk(st, cid, st.columns[cid]);
    }
  }

  lemma AppendedCell(st: Storage, e: Entity, cid: ComponentId, i: nat)
    requires StorageOk(st) && e.kind == st.def.kind && !SlotInUse(st, e.slot) && i <= |st.slots|
    ensures CellAt(Appended(st, e), cid, i) ==
            if i < |st.slots| then CellAt(st, cid, i)
            else if cid in st.columns && cid.storage.SoA? then Some(DEFAULT) else None
  {
    assert cid in st.columns ==> ColumnOk(st, cid, st.columns[cid]);
  }

  lemma RemovedKeepsSlots(st: Storage, idx: nat, k: nat)
    requires StorageOk(st) && idx < |st.slots| && SlotInUse(st, k) && k != st.slots[idx].slot
    ensures SlotInUse(Removed(st, idx), k)
  {
    var i :| 0 <= i < |st.slots| && st.slots[i].slot == k;
    var slots := SwapRemove(st.slots, idx);
    assert slots[if i == |st.slots| - 1 then idx else i].slot == k;
  }

  lemma RemovedOk(st: Storage, idx: nat)
    requires StorageOk(st) && idx < |st.slots|
    ensures StorageOk(Removed(st, idx))
  {
    var st' := Removed(st, idx);
    forall cid | cid in st.columns
      ensures ColumnOk(st', cid, st'.columns[cid])
    {
      assert ColumnOk(st, cid, st.columns[cid]);
      forall k | SlotInUse(st, k) && k != st.slots[idx].slot
        ensures SlotInUse(st', k)
      {
        RemovedKeepsSlots(st, idx, k);
      }
      hide SlotInUse;
    }
  }

  lemma RemovedCell(st: Storage, idx: nat, cid: ComponentId, i: nat)
    requires StorageOk(st) && idx < |st.slots| && i < |st.slots| - 1
    ensures CellAt(Removed(st, idx), cid, i) == CellAt(st, cid, if i == idx then |st.slots| - 1 else i)
  {
    assert cid in st.columns ==> ColumnOk(st, cid, st.columns[cid]);
  }

  lemma WrittenOk(st: Storage, cid: ComponentId, idx: nat, payload: Payload)
    requires StorageOk(st) && idx < |st.slots| && (cid.storage.SoA? ==> cid in st.def.components)
    ensures StorageOk(Written(st, cid, idx, payload))
    ensures CellAt(Written(st, cid, idx, payload), cid, idx) == Some(payload)
    ensures forall i | 0 <= i < |st.slots| && i != idx ::
              CellAt(Written(st, cid, idx, payload), cid, i)
              == if cid in st.columns || cid.storage.Sparse? then CellAt(st, cid, i) else Some(DEFAULT)
    ensures forall d, i | 0 <= i < |st.slots| && d != cid ::
              CellAt(Written(st, cid, idx, payload), d, i) == CellAt(st, d, i)
  {
    var st' := Written(st, cid, idx, payload);
    assert SlotInUse(st, st.slots[idx].slot);
    forall d | d in st'.columns
      ensures ColumnOk(st', d, st'.columns[d])
    {
      assert d in st.columns ==> ColumnOk(st, d, st.columns[d]);
      assert forall k :: SlotInUse(st, k) ==> SlotInUse(st', k);
    }
    assert cid in st.columns ==> ColumnOk(st, cid, st.columns[cid]);
  }

  lemma ClearedOk(st: Storage, cid: ComponentId, idx: nat)
    requires StorageOk(st) && idx < |st.slots| && cid in st.columns
    ensures StorageOk(Cleared(st, cid, idx))
    ensures CellAt(Cleared(st, cid, idx), cid, idx) == if cid.storage.SoA? then Some(DEFAULT) else None
    ensures forall d, i | 0 <= i < |st.slots| && (d != cid || i != idx) ::
              CellAt(Cleared(st, cid, idx), d, i) == CellAt(st, d, i)
  {
    var st' := Cleared(st, cid, idx);
    forall d | d in st'.columns
      ensures ColumnOk(st', d, st'.columns[d])
    {
      assert ColumnOk(st, d, st.columns[d]);
      assert forall k :: SlotInUse(st, k) ==> SlotInUse(st', k);
    }
    assert ColumnOk(st, cid, st.columns[cid]);
  }

  // ---- the world ----

  /** Archetype rows and the reverse index are inverse to each other. */
  ghost predicate RowsAgree(w: World) {
    && (forall e | e in w.index ::
          && w.index[e].0 in w.archetypes
          && w.index[e].1 < |w.archetypes[w.index[e].0].slots|
          && w.archetypes[w.index[e].0].slots[w.index[e].1] == e)
    && (forall a, i | a in w.archetypes && 0 <= i < |w.archetypes[a].slots| ::
          w.archetypes[a].slots[i] in w.index && w.index[w.archetypes[a].slots[i]] == (a, i))
  }

  ghost predicate LiveIndexed(w: World) {
    ValidArenas(w.types) && forall e :: IsAlive(w.types, e) <==> e in w.index
  }

  ghost predicate StoragesOk(w: World) {
    forall a | a in w.archetypes :: StorageOk(w.archetypes[a])
  }

  /** Synthetic archetypes are numbered upwards from FIRST_SYNTHETIC, one per kind. */
  ghost predicate SyntheticOk(w: World) {
    && (forall kind | kind in w.empty ::
          w.empty[kind] in w.archetypes && w.archetypes[w.empty[kind]].def == ArchetypeDef(kind, {}))
    && w.counter == FIRST_SYNTHETIC + |w.empty|
    && (forall a | a in w.archetypes :: a < w.counter)
  }

  ghost predicate Valid(w: World) {
    LiveIndexed(w) && RowsAgree(w) && StoragesOk(w) && SyntheticOk(w)
  }

  ghost predicate HasRow(w: World, e: Entity) {
    && e in w.index
    && w.index[e].0 in w.archetypes
    && StorageOk(w.archetypes[w.index[e].0])
    && w.index[e].1 < |w.archetypes[w.index[e].0].slots|
    && w.archetypes[w.index[e].0].slots[w.index[e].1] == e
  }

  lemma LiveHasRow(w: World, e: Entity)
    requires Valid(w) && (e in w.index || IsAlive(w.types, e))
    ensures HasRow(w, e) && IsAlive(w.types, e)
  {
    hide StorageOk, ValidArenas, IsAlive, SyntheticOk;
  }

  function Get(w: World, e: Entity, cid: ComponentId): Option<Payload> {
    if !IsAlive(w.types, e) || e !in w.index || w.index[e].0 !in w.archetypes then None
    else
      var st := w.archetypes[w.index[e].0];
      if cid in st.columns then ReadAt(st.columns[cid], w.index[e].1, e.slot) else None
  }

  /** `register_archetype`; ids from FIRST_SYNTHETIC on are kept for the world itself. */
  function Register(w: World, a: ArchId, def: ArchetypeDef): World
    requires a !in w.archetypes && a < FIRST_SYNTHETIC
  {
    w.(archetypes := w.archetypes[a := Storage(def, [], map[])])
  }

  /** The row that `spawn` and `spawn_exact` add for a freshly placed handle. */
  function Seated(w: World, a: ArchId, types: Arenas, e: Entity): World
    requires a in w.archetypes
  {
    w.(types := types, archetypes := w.archetypes[a := Appended(w.archetypes[a], e)],
       index := w.index[e := (a, |w.archetypes[a].slots|)])
  }

  function Spawn(w: World, a: ArchId): (World, Entity)
    requires Valid(w) && a in w.archetypes
  {
    var (types, e) := AfterAllocate(w.types, w.archetypes[a].def.kind);
    (Seated(w, a, types, e), e)
  }

  function WithEmptyArchetype(w: World, kind: Kind): World {
    if kind in w.empty then w
    else w.(empty := w.empty[kind := w.counter], counter := (w.counter + 1) % 0x1_0000,
            archetypes := w.archetypes[w.counter := Storage(ArchetypeDef(kind, {}), [], map[])])
  }

  function SpawnEmpty(w: World, kind: Kind): (World, Entity)
    requires Valid(w)
  {
    WithEmptyArchetypeValid(w, kind);
    var w1 := WithEmptyArchetype(w, kind);
    Spawn(w1, w1.empty[kind])
  }

  function SpawnExact(w: World, a: ArchId, e: Entity): (World, Entity)
    requires Valid(w) && a in w.archetypes
  {
    match AfterExact(w.types, w.archetypes[a].def.kind, e)
    case Some(types) => (Seated(w, a, types, e), e)
    case None => Spawn(w, a)
  }

  function WithoutRow(w: World, e: Entity, types: Arenas): World
    requires HasRow(w, e)
  {
    var (a, idx) := w.index[e];
    var st := Removed(w.archetypes[a], idx);
    var index := w.index - {e};
    w.(types := types, archetypes := w.archetypes[a := st],
       index := if idx < |st.slots| then index[st.slots[idx] := (a, idx)] else index)
  }

  function Despawn(w: World, e: Entity): (World, bool)
    requires Valid(w)
  {
    if e !in w.index then (w, false)
    else
      LiveHasRow(w, e);
      (WithoutRow(w, e, AfterDeallocate(w.types, e)), true)
  }

  function WithValue(w: World, e: Entity, cid: ComponentId, payload: Payload): World
    requires HasRow(w, e)
  {
    var (a, idx) := w.index[e];
    w.(archetypes := w.archetypes[a := Written(w.archetypes[a], cid, idx, payload)])
  }

  function WithoutValue(w: World, e: Entity, cid: ComponentId): World
    requires HasRow(w, e) && cid in w.archetypes[w.index[e].0].columns
  {
    var (a, idx) := w.index[e];
    w.(archetypes := w.archetypes[a := Cleared(w.archetypes[a], cid, idx)])
  }

  function Insert(w: World, e: Entity, cid: ComponentId, payload: Payload): (World, Result<(), EntityError>)
    requires Valid(w)
  {
    if !IsAlive(w.types, e) then (w, Err(NotFound))
    else
      LiveHasRow(w, e);
      if cid.storage.SoA? && cid !in w.archetypes[w.index[e].0].def.components then (w, Err(ComponentMismatch))
      else (WithValue(w, e, cid, payload), Ok(()))
  }

  /** The type-erased write used by migration: only into a column that exists and fits the value. */
  function InsertAny(w: World, e: Entity, cid: ComponentId, v: Value): (World, Result<(), EntityError>)
    requires Valid(w)
  {
    if !IsAlive(w.types, e) then (w, Err(NotFound))
    else
      LiveHasRow(w, e);
      if cid !in w.archetypes[w.index[e].0].columns || v.cid != cid then (w, Err(ComponentMismatch))
      else (WithValue(w, e, cid, v.payload), Ok(()))
  }

  function Remove(w: World, e: Entity, cid: ComponentId): (World, Option<Payload>)
    requires Valid(w)
  {
    if !IsAlive(w.types, e) then (w, None)
    else
      LiveHasRow(w, e);
      if cid !in w.archetypes[w.index[e].0].columns then (w, None)
      else (WithoutValue(w, e, cid), Get(w, e, cid))
  }

  // ---- every operation keeps the world valid ----

  lemma {:induction false} KindsAreFew(s: set<Kind>, n: nat)
    requires forall k | k in s :: k < n
    ensures |s| <= n
  {
    if n > 0 {
      var top := n - 1;
      if top < 256 && top in s {
        KindsAreFew(s - {top}, top);
      } else {
        KindsAreFew(s, top);
      }
    }
  }

  lemma NewWorldValid()
    ensures Valid(NEW_WORLD)
  {
    EmptyValid();
  }

  lemma RegisterValid(w: World, a: ArchId, def: ArchetypeDef)
    requires Valid(w) && a !in w.archetypes && a < FIRST_SYNTHETIC
    ensures Valid(Register(w, a, def))
  {
    hide StorageOk, ValidArenas, IsAlive;
    AddArchetypeRows(w, Register(w, a, def), a, def);
    hide RowsAgree, StoragesOk;
  }

  lemma CounterDoesNotWrap(w: World, kind: Kind)
    requires SyntheticOk(w) && kind !in w.empty
    ensures w.counter < 0xFFFF
  {
    KindsAreFew(w.empty.Keys + {kind}, 256);
    assert |w.empty.Keys + {kind}| == |w.empty| + 1;
  }

  lemma AddArchetypeRows(w: World, w': World, a: ArchId, def: ArchetypeDef)
    requires RowsAgree(w) && StoragesOk(w) && a !in w.archetypes
    requires w'.index == w.index && w'.archetypes == w.archetypes[a := Storage(def, [], map[])]
    ensures RowsAgree(w') && StoragesOk(w')
  {
  }

  lemma AddSynthetic(w: World, kind: Kind)
    requires SyntheticOk(w) && kind !in w.empty
    ensures SyntheticOk(WithEmptyArchetype(w, kind))
  {
    CounterDoesNotWrap(w, kind);
    assert w.empty[kind := w.counter].Keys == w.empty.Keys + {kind};
    assert |w.empty[kind := w.counter]| == |w.empty| + 1;
  }

  /** A synthetic archetype never replaces a registered one. */
  lemma WithEmptyArchetypeValid(w: World, kind: Kind)
    requires Valid(w)
    ensures Valid(WithEmptyArchetype(w, kind))
    ensures var w' := WithEmptyArchetype(w, kind);
            && kind in w'.empty && w'.empty[kind] in w'.archetypes
            && w'.types == w.types && w'.index == w.index
            && (forall a | a in w.archetypes :: a in w'.archetypes && w'.archetypes[a] == w.archetypes[a])
  {
    hide StoragesOk, RowsAgree, ValidArenas, IsAlive;
    if kind !in w.empty {
      AddSynthetic(w, kind);
      AddArchetypeRows(w, WithEmptyArchetype(w, kind), w.counter, ArchetypeDef(kind, {}));
    }
  }

  ghost predicate Places(w: World, types: Arenas, e: Entity) {
    && ValidArenas(types)
    && IsAlive(types, e) && !IsAlive(w.types, e)
    && forall d | d != e :: IsAlive(types, d) <==> IsAlive(w.types, d)
  }

  lemma FreshSlotIsUnused(w: World, a: ArchId, types: Arenas, e: Entity)
    requires Valid(w) && a in w.archetypes && e.kind == w.archetypes[a].def.kind
    requires Places(w, types, e)
    ensures !SlotInUse(w.archetypes[a], e.slot)
  {
    var st := w.archetypes[a];
    assert StorageOk(st);
    forall i | 0 <= i < |st.slots|
      ensures st.slots[i].slot != e.slot
    {
      LiveHandlesHaveDistinctSlots(types, st.slots[i], e);
    }
  }

  lemma SeatedRowsAgree(w: World, a: ArchId, types: Arenas, e: Entity)
    requires RowsAgree(w) && a in w.archetypes && e !in w.index
    ensures RowsAgree(Seated(w, a, types, e))
  {
    hide PushDefault;
  }

  lemma SeatedStoragesOk(w: World, a: ArchId, types: Arenas, e: Entity)
    requires Valid(w) && a in w.archetypes && e.kind == w.archetypes[a].def.kind && Places(w, types, e)
    ensures StoragesOk(Seated(w, a, types, e))
  {
    FreshSlotIsUnused(w, a, types, e);
    hide StorageOk, ValidArenas, IsAlive, RowsAgree, SyntheticOk, Appended;
    AppendedOk(w.archetypes[a], e);
  }

  lemma SeatedLive(w: World, a: ArchId, types: Arenas, e: Entity)
    requires LiveIndexed(w) && a in w.archetypes && Places(w, types, e)
    ensures LiveIndexed(Seated(w, a, types, e))
  {
    hide ValidArenas, IsAlive;
  }

  lemma SeatedSynthetic(w: World, a: ArchId, types: Arenas, e: Entity)
    requires SyntheticOk(w) && a in w.archetypes
    ensures SyntheticOk(Seated(w, a, types, e))
  {
    assert Appended(w.archetypes[a], e).def == w.archetypes[a].def;
    hide Appended;
  }

  lemma SeatedValid(w: World, a: ArchId, types: Arenas, e: Entity)
    requires Valid(w) && a in w.archetypes && e.kind == w.archetypes[a].def.kind && Places(w, types, e)
    ensures Valid(Seated(w, a, types, e))
  {
    hide Seated, StoragesOk, RowsAgree, SyntheticOk;
    SeatedRowsAgree(w, a, types, e);
    SeatedStoragesOk(w, a, types, e);
    SeatedLive(w, a, types, e);
    SeatedSynthetic(w, a, types, e);
    hide LiveIndexed;
  }

  /** The new entity starts with defaults in the dense columns and nothing else; no stale value of an
    * earlier owner of its slot shows, and no other entity changes. */
  lemma SeatedGet(w: World, a: ArchId, types: Arenas, e: Entity, d: Entity, cid: ComponentId)
    requires Valid(w) && a in w.archetypes && e.kind == w.archetypes[a].def.kind && Places(w, types, e)
    ensures Get(Seated(w, a, types, e), d, cid) ==
            if d != e then Get(w, d, cid)
            else if cid in w.archetypes[a].columns && cid.storage.SoA? then Some(DEFAULT) else None
  {
    hide StorageOk, StoragesOk, SyntheticOk, RowsAgree, Alive, ValidArenas, SlotInUse, CellAt, Appended;
    FreshSlotIsUnused(w, a, types, e);
    SeatedValid(w, a, types, e);
    var w' := Seated(w, a, types, e);
    if d in w'.index {
      LiveHasRow(w', d);
      GetIsCell(w', d, cid);
      if d != e {
        LiveHasRow(w, d);
        GetIsCell(w, d, cid);
      }
      if w'.index[d].0 == a && w'.index[d].1 <= |w.archetypes[a].slots| {
        assert StorageOk(w.archetypes[a]) by {
          StorageIsOk(w, a);
        }
        AppendedCell(w.archetypes[a], e, cid, w'.index[d].1);
      }
    }
  }

  lemma StorageIsOk(w: World, a: ArchId)
    requires StoragesOk(w) && a in w.archetypes
    ensures StorageOk(w.archetypes[a])
  {
  }

  lemma SpawnPlaces(w: World, a: ArchId)
    requires Valid(w) && a in w.archetypes
    ensures var (types, e) := AfterAllocate(w.types, w.archetypes[a].def.kind);
            Places(w, types, e) && e.kind == w.archetypes[a].def.kind
  {
    AllocateValid(w.types, w.archetypes[a].def.kind);
  }

  lemma SpawnValid(w: World, a: ArchId)
    requires Valid(w) && a in w.archetypes
    ensures Valid(Spawn(w, a).0)
  {
    var (types, e) := AfterAllocate(w.types, w.archetypes[a].def.kind);
    SpawnPlaces(w, a);
    SeatedValid(w, a, types, e);
  }

  lemma SpawnEmptyValid(w: World, kind: Kind)
    requires Valid(w)
    ensures Valid(SpawnEmpty(w, kind).0)
  {
    WithEmptyArchetypeValid(w, kind);
    SpawnValid(WithEmptyArchetype(w, kind), WithEmptyArchetype(w, kind).empty[kind]);
  }

  lemma SpawnExactPlaces(w: World, a: ArchId, e: Entity)
    requires Valid(w) && a in w.archetypes
    ensures match AfterExact(w.types, w.archetypes[a].def.kind, e)
            case Some(types) => Places(w, types, e) && e.kind == w.archetypes[a].def.kind
            case None => true
  {
    AllocateExactValid(w.types, w.archetypes[a].def.kind, e);
  }

  lemma SpawnExactValid(w: World, a: ArchId, e: Entity)
    requires Valid(w) && a in w.archetypes
    ensures Valid(SpawnExact(w, a, e).0)
  {
    match AfterExact(w.types, w.archetypes[a].def.kind, e)
    case Some(types) =>
      SpawnExactPlaces(w, a, e);
      SeatedValid(w, a, types, e);
    case None =>
      SpawnValid(w, a);
  }

  // ---- despawn ----

  lemma WithoutRowIndexed(w: World, e: Entity, types: Arenas, d: Entity)
    requires RowsAgree(w) && HasRow(w, e) && d in WithoutRow(w, e, types).index
    ensures var w' := WithoutRow(w, e, types);
            && w'.index[d].0 in w'.archetypes
            && w'.index[d].1 < |w'.archetypes[w'.index[d].0].slots|
            && w'.archetypes[w'.index[d].0].slots[w'.index[d].1] == d
  {
    hide StorageOk;
    var (a, idx) := w.index[e];
    assert Removed(w.archetypes[a], idx).slots == SwapRemove(w.archetypes[a].slots, idx);
    hide Removed;
  }

  lemma WithoutRowSeated(w: World, e: Entity, types: Arenas, b: ArchId, i: nat)
    requires RowsAgree(w) && HasRow(w, e)
    requires b in WithoutRow(w, e, types).archetypes && i < |WithoutRow(w, e, types).archetypes[b].slots|
    ensures var w' := WithoutRow(w, e, types);
            w'.archetypes[b].slots[i] in w'.index && w'.index[w'.archetypes[b].slots[i]] == (b, i)
  {
    hide StorageOk;
    var (a, idx) := w.index[e];
    assert Removed(w.archetypes[a], idx).slots == SwapRemove(w.archetypes[a].slots, idx);
    hide Removed;
  }

  lemma WithoutRowAgrees(w: World, e: Entity, types: Arenas)
    requires RowsAgree(w) && HasRow(w, e)
    ensures RowsAgree(WithoutRow(w, e, types))
  {
    var w' := WithoutRow(w, e, types);
    forall d | d in w'.index
      ensures w'.index[d].0 in w'.archetypes
              && w'.index[d].1 < |w'.archetypes[w'.index[d].0].slots|
              && w'.archetypes[w'.index[d].0].slots[w'.index[d].1] == d
    {
      WithoutRowIndexed(w, e, types, d);
    }
    forall b, i | b in w'.archetypes && 0 <= i < |w'.archetypes[b].slots|
      ensures w'.archetypes[b].slots[i] in w'.index && w'.index[w'.archetypes[b].slots[i]] == (b, i)
    {
      WithoutRowSeated(w, e, types, b, i);
    }
    hide WithoutRow;
  }

  lemma WithoutRowStoragesOk(w: World, e: Entity, types: Arenas)
    requires StoragesOk(w) && HasRow(w, e)
    ensures StoragesOk(WithoutRow(w, e, types))
  {
    RemovedOk(w.archetypes[w.index[e].0], w.index[e].1);
    hide StorageOk, Removed;
  }

  lemma WithoutRowIndex(w: World, e: Entity, types: Arenas)
    requires RowsAgree(w) && HasRow(w, e)
    ensures WithoutRow(w, e, types).index.Keys == w.index.Keys - {e}
  {
    var (a, idx) := w.index[e];
    assert Removed(w.archetypes[a], idx).slots == SwapRemove(w.archetypes[a].slots, idx);
    hide Removed;
  }

  lemma WithoutRowSynthetic(w: World, e: Entity, types: Arenas)
    requires SyntheticOk(w) && HasRow(w, e)
    ensures SyntheticOk(WithoutRow(w, e, types))
  {
    assert Removed(w.archetypes[w.index[e].0], w.index[e].1).def == w.archetypes[w.index[e].0].def;
    hide Removed;
  }

  lemma DespawnValid(w: World, e: Entity)
    requires Valid(w)
    ensures Valid(Despawn(w, e).0)
  {
    hide StoragesOk, HasRow, ValidArenas, IsAlive, Removed, StorageOk;
    if e in w.index {
      LiveHasRow(w, e);
      DeallocateValid(w.types, e);
      var types := AfterDeallocate(w.types, e);
      WithoutRowAgrees(w, e, types);
      WithoutRowStoragesOk(w, e, types);
      WithoutRowIndex(w, e, types);
      WithoutRowSynthetic(w, e, types);
      hide RowsAgree, SyntheticOk;
      assert WithoutRow(w, e, types).types == types;
      hide WithoutRow;
    }
  }

  lemma GetIsCell(w: World, e: Entity, cid: ComponentId)
    requires HasRow(w, e) && IsAlive(w.types, e)
    ensures Get(w, e, cid) == CellAt(w.archetypes[w.index[e].0], cid, w.index[e].1)
  {
  }

  lemma WithoutRowMoves(w: World, e: Entity, types: Arenas, d: Entity)
    requires RowsAgree(w) && HasRow(w, e) && d in w.index && d != e
    ensures WithoutRow(w, e, types).index[d] ==
            if w.index[d] == (w.index[e].0, |w.archetypes[w.index[e].0].slots| - 1) then w.index[e] else w.index[d]
  {
    var (a, idx) := w.index[e];
    assert Removed(w.archetypes[a], idx).slots == SwapRemove(w.archetypes[a].slots, idx);
    hide Removed, StorageOk;
  }

  lemma WithoutRowHas(w: World, e: Entity, types: Arenas, d: Entity)
    requires Valid(w) && HasRow(w, e) && d in w.index && d != e
    ensures HasRow(WithoutRow(w, e, types), d)
  {
    hide StorageOk, SyntheticOk, LiveIndexed, HasRow, WithoutRow;
    WithoutRowAgrees(w, e, types);
    WithoutRowStoragesOk(w, e, types);
    WithoutRowIndex(w, e, types);
    var w' := WithoutRow(w, e, types);
    assert d in w'.index;
    RowIsThere(w', d);
  }

  lemma RowIsThere(w: World, e: Entity)
    requires RowsAgree(w) && StoragesOk(w) && e in w.index
    ensures HasRow(w, e)
  {
    hide StorageOk;
  }

  lemma WithoutRowGet(w: World, e: Entity, types: Arenas, d: Entity, cid: ComponentId)
    requires Valid(w) && HasRow(w, e) && HasRow(w, d) && d != e && IsAlive(w.types, d) && IsAlive(types, d)
    ensures Get(WithoutRow(w, e, types), d, cid) == Get(w, d, cid)
  {
    hide StorageOk, SyntheticOk, LiveIndexed, StoragesOk, RowsAgree, IsAlive, Removed, CellAt, Get;
    var w' := WithoutRow(w, e, types);
    var (a, idx) := w.index[e];
    WithoutRowHas(w, e, types, d);
    WithoutRowMoves(w, e, types, d);
    GetIsCell(w, d, cid);
    GetIsCell(w', d, cid);
    if w.index[d].0 == a && w'.index[d].1 < |w.archetypes[a].slots| - 1 {
      RemovedCell(w.archetypes[a], idx, cid, w'.index[d].1);
    }
  }

  /** Despawning takes away the entity's own values and nothing else, although another row moves. */
  lemma DespawnGet(w: World, e: Entity, d: Entity, cid: ComponentId)
    requires Valid(w)
    ensures Get(Despawn(w, e).0, d, cid) == if d == e then None else Get(w, d, cid)
  {
    hide StorageOk, StoragesOk, SyntheticOk, RowsAgree, Alive, ValidArenas;
    if e in w.index {
      LiveHasRow(w, e);
      DeallocateValid(w.types, e);
      if d != e && d in w.index {
        LiveHasRow(w, d);
        WithoutRowGet(w, e, AfterDeallocate(w.types, e), d, cid);
      }
      hide WithoutRow;
    }
  }

  // ---- writes ----

  lemma StoreValid(w: World, a: ArchId, st: Storage)
    requires Valid(w) && a in w.archetypes && StorageOk(st)
    requires st.def == w.archetypes[a].def && st.slots == w.archetypes[a].slots
    ensures Valid(w.(archetypes := w.archetypes[a := st]))
  {
    hide StorageOk, ValidArenas, IsAlive;
  }

  lemma StoreGet(w: World, a: ArchId, st: Storage, d: Entity, cid: ComponentId)
    requires Valid(w) && a in w.archetypes && StorageOk(st)
    requires st.def == w.archetypes[a].def && st.slots == w.archetypes[a].slots
    ensures Get(w.(archetypes := w.archetypes[a := st]), d, cid) ==
            if d in w.index && w.index[d].0 == a && w.index[d].1 < |st.slots|
            then CellAt(st, cid, w.index[d].1) else Get(w, d, cid)
  {
    hide StorageOk, ValidArenas, IsAlive, SyntheticOk;
  }

  lemma InsertValid(w: World, e: Entity, cid: ComponentId, payload: Payload)
    requires Valid(w)
    ensures Valid(Insert(w, e, cid, payload).0)
  {
    hide RowsAgree, StoragesOk, SyntheticOk, StorageOk, ValidArenas;
    if IsAlive(w.types, e) {
      LiveHasRow(w, e);
      var (a, idx) := w.index[e];
      if cid.storage.SoA? ==> cid in w.archetypes[a].def.components {
        WrittenOk(w.archetypes[a], cid, idx, payload);
        StoreValid(w, a, Written(w.archetypes[a], cid, idx, payload));
      }
    }
  }

  lemma ExistingColumnFits(st: Storage, cid: ComponentId)
    requires StorageOk(st) && cid in st.columns
    ensures cid.storage.SoA? ==> cid in st.def.components
  {
    assert ColumnOk(st, cid, st.columns[cid]);
  }

  lemma InsertAnyValid(w: World, e: Entity, cid: ComponentId, v: Value)
    requires Valid(w)
    ensures Valid(InsertAny(w, e, cid, v).0)
  {
    hide RowsAgree, StoragesOk, SyntheticOk, StorageOk, ValidArenas;
    if IsAlive(w.types, e) {
      LiveHasRow(w, e);
      var (a, idx) := w.index[e];
      if cid in w.archetypes[a].columns {
        ExistingColumnFits(w.archetypes[a], cid);
        WrittenOk(w.archetypes[a], cid, idx, v.payload);
        StoreValid(w, a, Written(w.archetypes[a], cid, idx, v.payload));
      }
    }
  }

  lemma RemoveValid(w: World, e: Entity, cid: ComponentId)
    requires Valid(w)
    ensures Valid(Remove(w, e, cid).0)
  {
    hide RowsAgree, StoragesOk, SyntheticOk, StorageOk, ValidArenas;
    if IsAlive(w.types, e) {
      LiveHasRow(w, e);
      var (a, idx) := w.index[e];
      if cid in w.archetypes[a].columns {
        ClearedOk(w.archetypes[a], cid, idx);
        StoreValid(w, a, Cleared(w.archetypes[a], cid, idx));
      }
    }
  }

  /** The dense column `cid` of the entity's archetype exists already. */
  predicate Created(w: World, a: ArchId, cid: ComponentId) {
    a in w.archetypes && cid in w.archetypes[a].columns
  }

  /** A successful insert changes its own value; other entities see at most an absent dense column of
    * their shared archetype turn into defaults. */
  lemma InsertGet(w: World, e: Entity, cid: ComponentId, payload: Payload, d: Entity, k: ComponentId)
    requires Valid(w) && Insert(w, e, cid, payload).1.Ok?
    ensures Get(Insert(w, e, cid, payload).0, d, k) ==
            if d == e && k == cid then Some(payload)
            else if k == cid && cid.storage.SoA? && d in w.index && w.index[d].0 == w.index[e].0
                    && !Created(w, w.index[e].0, cid) then Some(DEFAULT)
            else Get(w, d, k)
  {
    LiveHasRow(w, e);
    var (a, idx) := w.index[e];
    WrittenOk(w.archetypes[a], cid, idx, payload);
    StoreGet(w, a, Written(w.archetypes[a], cid, idx, payload), d, k);
    if d in w.index {
      LiveHasRow(w, d);
      GetIsCell(w, d, k);
    }
    hide StorageOk, StoragesOk, SyntheticOk, IsAlive, ValidArenas, Get, Written, CellAt;
  }

  lemma InsertAnyGet(w: World, e: Entity, cid: ComponentId, v: Value, d: Entity, k: ComponentId)
    requires Valid(w) && InsertAny(w, e, cid, v).1.Ok?
    ensures Get(InsertAny(w, e, cid, v).0, d, k) == if d == e && k == cid then Some(v.payload) else Get(w, d, k)
  {
    LiveHasRow(w, e);
    ExistingColumnFits(w.archetypes[w.index[e].0], cid);
    InsertGet(w, e, cid, v.payload, d, k);
  }

  /** Removing resets a dense value to the default and erases a sparse one. */
  lemma RemoveGet(w: World, e: Entity, cid: ComponentId, d: Entity, k: ComponentId)
    requires Valid(w)
    ensures Remove(w, e, cid).1 == Get(w, e, cid)
    ensures Get(Remove(w, e, cid).0, d, k) ==
            if d == e && k == cid && Get(w, e, cid).Some? && cid.storage.SoA? then Some(DEFAULT)
            else if d == e && k == cid then None
            else Get(w, d, k)
  {
    if IsAlive(w.types, e) {
      LiveHasRow(w, e);
      var (a, idx) := w.index[e];
      if cid in w.archetypes[a].columns {
        assert ColumnOk(w.archetypes[a], cid, w.archetypes[a].columns[cid]);
        GetIsCell(w, e, cid);
        ClearedOk(w.archetypes[a], cid, idx);
        StoreGet(w, a, Cleared(w.archetypes[a], cid, idx), d, k);
        if d in w.index {
          LiveHasRow(w, d);
          GetIsCell(w, d, k);
        }
      }
    }
  }
}
