/** `World` of world.rs as the object that its methods update in place.  Each method is proved equal
  * to the operation of the same name in module Worlds. */
module WorldObjects {
  import opened Wrappers
  import opened Entities
  import W = Worlds

  type ArchId = W.ArchId
  type ComponentId = W.ComponentId

  class World {
    const entities: EntityArena
    var archetypes: map<ArchId, W.Storage>
    var entityIndex: map<Entity, (ArchId, nat)>
    var emptyArchetypes: map<Kind, ArchId>
    var syntheticIdCounter: nat

    ghost function State(): W.World
      reads this, entities
    {
      W.World(entities.types, archetypes, entityIndex, emptyArchetypes, syntheticIdCounter)
    }

    ghost predicate Valid()
      reads this, entities
    {
      W.Valid(State())
    }

    constructor ()
      ensures Valid() && fresh(this) && fresh(entities) && State() == W.NEW_WORLD
    {
      entities := new EntityArena();
      archetypes, entityIndex, emptyArchetypes := map[], map[], map[];
      syntheticIdCounter := W.FIRST_SYNTHETIC;
      W.NewWorldValid();
    }

    method RegisterArchetype(id: ArchId, def: W.ArchetypeDef)
      requires Valid() && id !in archetypes && id < W.FIRST_SYNTHETIC
      modifies this
      ensures Valid() && State() == W.Register(old(State()), id, def)
    {
      W.RegisterValid(State(), id, def);
      archetypes := archetypes[id := W.Storage(def, [], map[])];
    }

    /** `push_default` on every column. */
    static method PushDefaults(columns: map<ComponentId, W.Column>) returns (r: map<ComponentId, W.Column>)
      ensures r == map cid | cid in columns :: W.PushDefault(columns[cid])
    {
      r := columns;
      var todo := columns.Keys;
      while todo != {}
        invariant todo <= columns.Keys == r.Keys
        invariant forall cid | cid in columns ::
                    r[cid] == if cid in todo then columns[cid] else W.PushDefault(columns[cid])
        decreases |todo|
      {
        var cid :| cid in todo;
        r := r[cid := W.PushDefault(columns[cid])];
        todo := todo - {cid};
      }
    }

    /** `on_despawn` on every column. */
    static method DespawnColumns(ghost st: W.Storage, columns: map<ComponentId, W.Column>, idx: nat, slot: nat)
      returns (r: map<ComponentId, W.Column>)
      requires W.StorageOk(st) && idx < |st.slots| && columns == st.columns && slot == st.slots[idx].slot
      ensures r == W.Removed(st, idx).columns
    {
      r := columns;
      var todo := columns.Keys;
      while todo != {}
        invariant todo <= columns.Keys == r.Keys
        invariant forall cid | cid in columns ::
                    r[cid] == if cid in todo then columns[cid] else W.Removed(st, idx).columns[cid]
        decreases |todo|
      {
        var cid :| cid in todo;
        assert W.ColumnOk(st, cid, columns[cid]);
        r := r[cid := W.OnDespawn(columns[cid], idx, slot)];
        todo := todo - {cid};
      }
    }

    /** Adds the row of a handle that the allocator has just placed. */
    method Seat(arch: ArchId, e: Entity)
      requires arch in archetypes
      modifies this
      ensures State() == W.Seated(old(State()), arch, entities.types, e)
    {
      var storage := archetypes[arch];
      var idx := |storage.slots|;
      var columns := PushDefaults(storage.columns);
      archetypes := archetypes[arch := W.Storage(storage.def, storage.slots + [e], columns)];
      entityIndex := entityIndex[e := (arch, idx)];
    }

    method Spawn(arch: ArchId) returns (e: Entity)
      requires Valid() && arch in archetypes
      modifies this, entities
      ensures Valid() && (State(), e) == W.Spawn(old(State()), arch)
    {
      hide W.StoragesOk, W.SyntheticOk, W.RowsAgree;
      W.SpawnValid(State(), arch);
      e := entities.Allocate(archetypes[arch].def.kind);
      Seat(arch, e);
    }

    method SpawnEmptyWith(kind: Kind) returns (e: Entity)
      requires Valid()
      modifies this, entities
      ensures Valid() && (State(), e) == W.SpawnEmpty(old(State()), kind)
    {
      hide W.Valid, W.Spawn;
      W.WithEmptyArchetypeValid(State(), kind);
      if kind !in emptyArchetypes {
        var id := syntheticIdCounter;
        syntheticIdCounter := (syntheticIdCounter + 1) % 0x1_0000;
        archetypes := archetypes[id := W.Storage(W.ArchetypeDef(kind, {}), [], map[])];
        emptyArchetypes := emptyArchetypes[kind := id];
      }
      assert State() == W.WithEmptyArchetype(old(State()), kind);
      e := Spawn(emptyArchetypes[kind]);
    }

    method SpawnExact(arch: ArchId, e: Entity) returns (placed: Entity)
      requires Valid() && arch in archetypes
      modifies this, entities
      ensures Valid() && (State(), placed) == W.SpawnExact(old(State()), arch, e)
    {
      hide W.StoragesOk, W.SyntheticOk, W.RowsAgree, W.Appended;
      W.SpawnExactValid(State(), arch, e);
      var kind := archetypes[arch].def.kind;
      var exact := entities.AllocateExact(kind, e);
      if exact.Some? {
        placed := exact.value;
      } else {
        placed := entities.Allocate(kind);
      }
      Seat(arch, placed);
    }

    method Despawn(e: Entity) returns (ok: bool)
      requires Valid()
      modifies this, entities
      ensures Valid() && (State(), ok) == W.Despawn(old(State()), e)
    {
      hide W.StoragesOk, W.SyntheticOk, W.StorageOk, ValidArenas, IsAlive;
      W.DespawnValid(State(), e);
      if e !in entityIndex {
        return false;
      }
      W.LiveHasRow(State(), e);
      var (arch, idx) := entityIndex[e];
      var storage := archetypes[arch];
      var columns := DespawnColumns(storage, storage.columns, idx, e.slot);
      var slots := W.SwapRemove(storage.slots, idx);
      archetypes := archetypes[arch := W.Storage(storage.def, slots, columns)];
      entityIndex := entityIndex - {e};
      if idx < |slots| {
        entityIndex := entityIndex[slots[idx] := (arch, idx)];
      }
      var _ := entities.Deallocate(e);
      return true;
    }

    predicate Contains(e: Entity)
      reads this, entities
    {
      IsAlive(entities.types, e)
    }

    method Insert(e: Entity, cid: ComponentId, payload: W.Payload) returns (r: Result<(), W.EntityError>)
      requires Valid()
      modifies this
      ensures Valid() && (State(), r) == W.Insert(old(State()), e, cid, payload)
    {
      hide W.StoragesOk, W.SyntheticOk, W.RowsAgree, IsAlive, ValidArenas;
      W.InsertValid(State(), e, cid, payload);
      if !IsAlive(entities.types, e) {
        return Err(W.NotFound);
      }
      W.LiveHasRow(State(), e);
      var (arch, idx) := entityIndex[e];
      var storage := archetypes[arch];
      if cid.storage.SoA? && cid !in storage.def.components {
        return Err(W.ComponentMismatch);
      }
      ghost var st := storage;
      if cid !in storage.columns {
        storage := storage.(columns := storage.columns[cid := W.EmptyColumn(cid, |storage.slots|)]);
      }
      assert cid in st.columns ==> W.ColumnOk(st, cid, st.columns[cid]);
      var column := W.InsertAt(storage.columns[cid], idx, e.slot, payload);
      storage := storage.(columns := storage.columns[cid := column]);
      assert storage.columns == W.Written(st, cid, idx, payload).columns;
      archetypes := archetypes[arch := storage];
      return Ok(());
    }

    method InsertAny(e: Entity, cid: ComponentId, v: W.Value) returns (r: Result<(), W.EntityError>)
      requires Valid()
      modifies this
      ensures Valid() && (State(), r) == W.InsertAny(old(State()), e, cid, v)
    {
      hide W.StoragesOk, W.SyntheticOk, W.RowsAgree, IsAlive, ValidArenas;
      W.InsertAnyValid(State(), e, cid, v);
      if !IsAlive(entities.types, e) {
        return Err(W.NotFound);
      }
      W.LiveHasRow(State(), e);
      var (arch, idx) := entityIndex[e];
      var storage := archetypes[arch];
      if cid !in storage.columns || v.cid != cid {
        return Err(W.ComponentMismatch);
      }
      assert W.ColumnOk(storage, cid, storage.columns[cid]);
      var column := W.InsertAt(storage.columns[cid], idx, e.slot, v.payload);
      archetypes := archetypes[arch := storage.(columns := storage.columns[cid := column])];
      return Ok(());
    }

    method Remove(e: Entity, cid: ComponentId) returns (r: Option<W.Payload>)
      requires Valid()
      modifies this
      ensures Valid() && (State(), r) == W.Remove(old(State()), e, cid)
    {
      hide W.StoragesOk, W.SyntheticOk, W.RowsAgree, IsAlive, ValidArenas;
      W.RemoveValid(State(), e, cid);
      if !IsAlive(entities.types, e) {
        return None;
      }
      W.LiveHasRow(State(), e);
      var (arch, idx) := entityIndex[e];
      var storage := archetypes[arch];
      if cid !in storage.columns {
        return None;
      }
      assert W.ColumnOk(storage, cid, storage.columns[cid]);
      r := W.ReadAt(storage.columns[cid], idx, e.slot);
      var column := W.Take(storage.columns[cid], idx, e.slot);
      archetypes := archetypes[arch := storage.(columns := storage.columns[cid := column])];
    }

    method Get(e: Entity, cid: ComponentId) returns (r: Option<W.Payload>)
      requires Valid()
      ensures r == W.Get(State(), e, cid)
    {
      if !IsAlive(entities.types, e) || e !in entityIndex || entityIndex[e].0 !in archetypes {
        return None;
      }
      var (arch, idx) := entityIndex[e];
      var columns := archetypes[arch].columns;
      if cid !in columns {
        return None;
      }
      return W.ReadAt(columns[cid], idx, e.slot);
    }
  }
}
