/** The world of world.rs refines a plain map from entity to component values. */
module WorldRefinement {
  import opened Wrappers
  import opened Entities
  import opened Worlds

  datatype Row = Row(arch: ArchId, values: map<ComponentId, Payload>)

  /** What a caller needs to know: each entity's archetype and values, the registered archetypes, and
    * which columns of an archetype have been created. */
  datatype Plain = Plain(
    rows: map<Entity, Row>, defs: map<ArchId, ArchetypeDef>, created: map<ArchId, set<ComponentId>>)

  function Values(w: World, e: Entity): (r: map<ComponentId, Payload>)
    requires e in w.index && w.index[e].0 in w.archetypes
    ensures forall cid :: cid in r <==> Get(w, e, cid).Some?
    ensures forall cid | cid in r :: Some(r[cid]) == Get(w, e, cid)
  {
    var columns := w.archetypes[w.index[e].0].columns;
    map cid | cid in columns && Get(w, e, cid).Some? :: Get(w, e, cid).value
  }

  function RowsOf(w: World): map<Entity, Row>
    requires RowsAgree(w)
  {
    map e | e in w.index :: Row(w.index[e].0, Values(w, e))
  }

  function DefsOf(w: World): map<ArchId, ArchetypeDef> {
    map a | a in w.archetypes :: w.archetypes[a].def
  }

  function CreatedOf(w: World): map<ArchId, set<ComponentId>> {
    map a | a in w.archetypes :: w.archetypes[a].columns.Keys
  }

  function Abs(w: World): Plain
    requires RowsAgree(w)
  {
    Plain(RowsOf(w), DefsOf(w), CreatedOf(w))
  }

  // ---- the operations on the plain map ----

  function Defaults(created: set<ComponentId>): map<ComponentId, Payload> {
    map cid | cid in created && cid.storage.SoA? :: DEFAULT
  }

  function PlainSpawn(p: Plain, a: ArchId, e: Entity): Plain
    requires a in p.created
  {
    p.(rows := p.rows[e := Row(a, Defaults(p.created[a]))])
  }

  function PlainSynthetic(p: Plain, a: ArchId, kind: Kind): Plain {
    if a in p.defs then p
    else p.(defs := p.defs[a := ArchetypeDef(kind, {})], created := p.created[a := {}])
  }

  function PlainDespawn(p: Plain, e: Entity): Plain {
    p.(rows := p.rows - {e})
  }

  /** Writing a value; the first write to a dense column gives the whole archetype a default. */
  function PlainWrite(p: Plain, e: Entity, cid: ComponentId, payload: Payload): Plain
    requires e in p.rows && p.rows[e].arch in p.created
  {
    var a := p.rows[e].arch;
    var first := cid.storage.SoA? && cid !in p.created[a];
    Plain(map d | d in p.rows ::
            if d == e then Row(a, p.rows[d].values[cid := payload])
            else if first && p.rows[d].arch == a then Row(a, p.rows[d].values[cid := DEFAULT])
            else p.rows[d],
          p.defs, p.created[a := p.created[a] + {cid}])
  }

  function PlainRemove(p: Plain, e: Entity, cid: ComponentId): Plain {
    if e !in p.rows || cid !in p.rows[e].values then p
    else if cid.storage.SoA? then p.(rows := p.rows[e := Row(p.rows[e].arch, p.rows[e].values[cid := DEFAULT])])
    else p.(rows := p.rows[e := Row(p.rows[e].arch, p.rows[e].values - {cid})])
  }

  function PlainGet(p: Plain, e: Entity, cid: ComponentId): Option<Payload> {
    if e in p.rows && cid in p.rows[e].values then Some(p.rows[e].values[cid]) else None
  }

  // ---- each operation of the world is the operation on the plain map ----

  lemma ContainsRefines(w: World, e: Entity)
    requires Valid(w)
    ensures IsAlive(w.types, e) <==> e in Abs(w).rows
  {
  }

  lemma GetRefines(w: World, e: Entity, cid: ComponentId)
    requires Valid(w)
    ensures Get(w, e, cid) == PlainGet(Abs(w), e, cid)
  {
    if e in w.index {
      LiveHasRow(w, e);
    }
  }

  lemma SameValues(w: World, d: Entity, p: Plain)
    requires d in w.index && w.index[d].0 in w.archetypes && d in p.rows
    requires forall cid :: PlainGet(p, d, cid) == Get(w, d, cid)
    ensures p.rows[d].values == Values(w, d)
  {
    hide Get;
    forall cid
      ensures cid in p.rows[d].values <==> cid in Values(w, d)
      ensures cid in Values(w, d) ==> p.rows[d].values[cid] == Values(w, d)[cid]
    {
      assert PlainGet(p, d, cid) == Get(w, d, cid);
    }
  }

  lemma AbsIs(w: World, p: Plain)
    requires RowsAgree(w) && p.rows.Keys == w.index.Keys
    requires forall d | d in w.index :: p.rows[d].arch == w.index[d].0
    requires forall d, cid | d in w.index :: PlainGet(p, d, cid) == Get(w, d, cid)
    requires p.defs == DefsOf(w) && p.created == CreatedOf(w)
    ensures Abs(w) == p
  {
    hide Get, PlainGet;
    forall d | d in w.index
      ensures p.rows[d] == Abs(w).rows[d]
    {
      SameValues(w, d, p);
    }
    assert p.rows == Abs(w).rows;
  }

  lemma PlainSpawnGet(p: Plain, a: ArchId, e: Entity, d: Entity, cid: ComponentId)
    requires a in p.created
    ensures PlainGet(PlainSpawn(p, a, e), d, cid) ==
            if d != e then PlainGet(p, d, cid)
            else if cid in p.created[a] && cid.storage.SoA? then Some(DEFAULT) else None
  {
  }

  lemma SeatedRefinesGet(w: World, a: ArchId, types: Arenas, e: Entity, d: Entity, cid: ComponentId)
    requires Valid(w) && a in w.archetypes && e.kind == w.archetypes[a].def.kind && Places(w, types, e)
    ensures a in Abs(w).created
    ensures PlainGet(PlainSpawn(Abs(w), a, e), d, cid) == Get(Seated(w, a, types, e), d, cid)
  {
    SeatedGet(w, a, types, e, d, cid);
    GetRefines(w, d, cid);
    PlainSpawnGet(Abs(w), a, e, d, cid);
    hide Valid, RowsAgree, Get, PlainGet, Seated, Places, PlainSpawn;
  }

  lemma StoreColumns(w: World, w': World, a: ArchId, st: Storage)
    requires a in w.archetypes && w'.archetypes == w.archetypes[a := st] && st.def == w.archetypes[a].def
    ensures DefsOf(w') == DefsOf(w)
    ensures CreatedOf(w') == CreatedOf(w)[a := st.columns.Keys]
    ensures st.columns.Keys == w.archetypes[a].columns.Keys ==> CreatedOf(w') == CreatedOf(w)
  {
  }

  lemma SeatedColumns(w: World, a: ArchId, types: Arenas, e: Entity)
    requires a in w.archetypes
    ensures DefsOf(Seated(w, a, types, e)) == DefsOf(w) && CreatedOf(Seated(w, a, types, e)) == CreatedOf(w)
    ensures Seated(w, a, types, e).index == w.index[e := (a, |w.archetypes[a].slots|)]
    ensures a in CreatedOf(w)
  {
    assert Appended(w.archetypes[a], e).columns.Keys == w.archetypes[a].columns.Keys;
    StoreColumns(w, Seated(w, a, types, e), a, Appended(w.archetypes[a], e));
  }

  lemma SeatedRefines(w: World, a: ArchId, types: Arenas, e: Entity)
    requires Valid(w) && a in w.archetypes && e.kind == w.archetypes[a].def.kind && Places(w, types, e)
    ensures RowsAgree(Seated(w, a, types, e)) && e !in Abs(w).rows
    ensures Abs(Seated(w, a, types, e)) == PlainSpawn(Abs(w), a, e)
  {
    hide Get, PlainGet, RowsAgree, StoragesOk, SyntheticOk, IsAlive, ValidArenas, DefsOf, CreatedOf, Seated,
         Defaults;
    SeatedValid(w, a, types, e);
    SeatedColumns(w, a, types, e);
    var w', p := Seated(w, a, types, e), PlainSpawn(Abs(w), a, e);
    forall d, cid | d in w'.index
      ensures PlainGet(p, d, cid) == Get(w', d, cid)
    {
      SeatedRefinesGet(w, a, types, e, d, cid);
    }
    AbsIs(w', p);
  }

  lemma SpawnRefines(w: World, a: ArchId)
    requires Valid(w) && a in w.archetypes
    ensures Valid(Spawn(w, a).0) && Spawn(w, a).1 !in Abs(w).rows
    ensures Abs(Spawn(w, a).0) == PlainSpawn(Abs(w), a, Spawn(w, a).1)
  {
    var (types, e) := AfterAllocate(w.types, w.archetypes[a].def.kind);
    SpawnPlaces(w, a);
    SeatedValid(w, a, types, e);
    SeatedRefines(w, a, types, e);
    hide Seated, Abs, PlainSpawn, Valid;
  }

  /** A given handle can be kept when its kind fits and no entity of that kind sits in its slot. */
  ghost predicate CanKeep(p: Plain, a: ArchId, e: Entity)
    requires a in p.defs
  {
    e.kind == p.defs[a].kind && forall d | d in p.rows && d.kind == e.kind :: d.slot != e.slot
  }

  lemma SpawnExactKeepsIff(w: World, a: ArchId, e: Entity)
    requires Valid(w) && a in w.archetypes
    ensures SpawnExact(w, a, e).1 == e <==>
            e.kind == w.archetypes[a].def.kind && forall d | d in w.index && d.kind == e.kind :: d.slot != e.slot
  {
    hide RowsAgree, StoragesOk, SyntheticOk, ValidArenas, Seated;
    var kind := w.archetypes[a].def.kind;
    AllocateExactValid(w.types, kind, e);
    AllocateValid(w.types, kind);
    assert forall d | d in w.index :: IsAlive(w.types, d) && SlotTaken(Space(w.types, d.kind), d.slot);
  }

  lemma CanKeepIs(w: World, a: ArchId, e: Entity)
    requires Valid(w) && a in w.archetypes
    ensures a in Abs(w).defs
    ensures CanKeep(Abs(w), a, e) <==>
            e.kind == w.archetypes[a].def.kind && forall d | d in w.index && d.kind == e.kind :: d.slot != e.slot
  {
    hide Values, LiveIndexed, StoragesOk, SyntheticOk;
  }

  lemma SpawnExactRefines(w: World, a: ArchId, e: Entity)
    requires Valid(w) && a in w.archetypes
    ensures Valid(SpawnExact(w, a, e).0) && SpawnExact(w, a, e).1 !in Abs(w).rows
    ensures Abs(SpawnExact(w, a, e).0) == PlainSpawn(Abs(w), a, SpawnExact(w, a, e).1)
    ensures a in Abs(w).defs && (SpawnExact(w, a, e).1 == e <==> CanKeep(Abs(w), a, e))
  {
    SpawnExactKeepsIff(w, a, e);
    CanKeepIs(w, a, e);
    hide CanKeep;
    match AfterExact(w.types, w.archetypes[a].def.kind, e)
    case Some(types) =>
      SpawnExactPlaces(w, a, e);
      SeatedValid(w, a, types, e);
      SeatedRefines(w, a, types, e);
      hide Seated, Abs, PlainSpawn, Valid;
    case None =>
      SpawnRefines(w, a);
  }

  lemma SyntheticKeepsValues(w: World, kind: Kind, d: Entity)
    requires Valid(w) && d in w.index
    ensures Valid(WithEmptyArchetype(w, kind)) && d in WithEmptyArchetype(w, kind).index
    ensures w.index[d].0 in w.archetypes && w.index[d].0 in WithEmptyArchetype(w, kind).archetypes
    ensures Values(WithEmptyArchetype(w, kind), d) == Values(w, d)
  {
    WithEmptyArchetypeValid(w, kind);
    hide StoragesOk, ValidArenas, IsAlive;
  }

  lemma SyntheticRows(w: World, kind: Kind)
    requires Valid(w)
    ensures Valid(WithEmptyArchetype(w, kind))
    ensures RowsOf(WithEmptyArchetype(w, kind)) == RowsOf(w)
  {
    hide Values, StorageOk, StoragesOk, ValidArenas, IsAlive, SyntheticOk;
    var w' := WithEmptyArchetype(w, kind);
    WithEmptyArchetypeValid(w, kind);
    hide RowsAgree, WithEmptyArchetype;
    forall d | d in w.index
      ensures RowsOf(w')[d] == RowsOf(w)[d]
    {
      SyntheticKeepsValues(w, kind, d);
    }
  }

  lemma SyntheticColumns(w: World, kind: Kind)
    requires SyntheticOk(w)
    ensures kind in WithEmptyArchetype(w, kind).empty
    ensures var w' := WithEmptyArchetype(w, kind); var a := w'.empty[kind];
            && DefsOf(w') == (if a in DefsOf(w) then DefsOf(w) else DefsOf(w)[a := ArchetypeDef(kind, {})])
            && CreatedOf(w') == (if a in DefsOf(w) then CreatedOf(w) else CreatedOf(w)[a := {}])
  {
    if kind !in w.empty {
      var w' := WithEmptyArchetype(w, kind);
      assert DefsOf(w') == DefsOf(w)[w.counter := ArchetypeDef(kind, {})];
      assert w'.archetypes[w.counter].columns.Keys == {};
      assert CreatedOf(w') == CreatedOf(w)[w.counter := {}];
    }
  }

  lemma SyntheticRefines(w: World, kind: Kind)
    requires Valid(w)
    ensures Valid(WithEmptyArchetype(w, kind)) && kind in WithEmptyArchetype(w, kind).empty
    ensures Abs(WithEmptyArchetype(w, kind)) == PlainSynthetic(Abs(w), WithEmptyArchetype(w, kind).empty[kind], kind)
  {
    SyntheticRows(w, kind);
    SyntheticColumns(w, kind);
    hide WithEmptyArchetype, LiveIndexed, StoragesOk, SyntheticOk, RowsAgree, DefsOf, CreatedOf, RowsOf;
  }

  lemma SpawnEmptyRefines(w: World, kind: Kind)
    requires Valid(w)
    ensures var (w', e) := SpawnEmpty(w, kind); var a := WithEmptyArchetype(w, kind).empty[kind];
            Valid(w') && e !in Abs(w).rows && a in PlainSynthetic(Abs(w), a, kind).created
            && Abs(w') == PlainSpawn(PlainSynthetic(Abs(w), a, kind), a, e)
  {
    SyntheticRefines(w, kind);
    WithEmptyArchetypeValid(w, kind);
    var w1 := WithEmptyArchetype(w, kind);
    SpawnRefines(w1, w1.empty[kind]);
    hide Spawn, PlainSpawn, WithEmptyArchetype, Valid;
  }

  lemma WithoutRowColumns(w: World, e: Entity, types: Arenas)
    requires HasRow(w, e)
    ensures DefsOf(WithoutRow(w, e, types)) == DefsOf(w)
    ensures CreatedOf(WithoutRow(w, e, types)) == CreatedOf(w)
  {
    var st := Removed(w.archetypes[w.index[e].0], w.index[e].1);
    assert st.columns.Keys == w.archetypes[w.index[e].0].columns.Keys;
    assert st.def == w.archetypes[w.index[e].0].def;
    hide Removed, StorageOk;
    StoreColumns(w, WithoutRow(w, e, types), w.index[e].0, st);
  }

  lemma PlainDespawnGet(p: Plain, e: Entity, d: Entity, cid: ComponentId)
    ensures PlainGet(PlainDespawn(p, e), d, cid) == if d == e then None else PlainGet(p, d, cid)
  {
  }

  lemma DespawnRefinesGet(w: World, e: Entity, d: Entity, cid: ComponentId)
    requires Valid(w)
    ensures PlainGet(PlainDespawn(Abs(w), e), d, cid) == Get(Despawn(w, e).0, d, cid)
  {
    DespawnGet(w, e, d, cid);
    GetRefines(w, d, cid);
    PlainDespawnGet(Abs(w), e, d, cid);
    hide Valid, RowsAgree, Get, PlainGet, Despawn, PlainDespawn;
  }

  lemma WithoutRowRefines(w: World, e: Entity)
    requires Valid(w) && HasRow(w, e)
    ensures RowsAgree(WithoutRow(w, e, AfterDeallocate(w.types, e)))
    ensures Abs(WithoutRow(w, e, AfterDeallocate(w.types, e))) == PlainDespawn(Abs(w), e)
  {
    hide Get, PlainGet, StorageOk, StoragesOk, SyntheticOk, IsAlive, ValidArenas, DefsOf, CreatedOf, WithoutRow;
    var types := AfterDeallocate(w.types, e);
    var w', p := WithoutRow(w, e, types), PlainDespawn(Abs(w), e);
    WithoutRowAgrees(w, e, types);
    WithoutRowIndex(w, e, types);
    WithoutRowColumns(w, e, types);
    forall d, cid | d in w'.index
      ensures PlainGet(p, d, cid) == Get(w', d, cid)
    {
      DespawnRefinesGet(w, e, d, cid);
    }
    forall d | d in w'.index
      ensures p.rows[d].arch == w'.index[d].0
    {
      WithoutRowMoves(w, e, types, d);
    }
    hide RowsAgree;
    AbsIs(w', p);
  }

  lemma DespawnRefines(w: World, e: Entity)
    requires Valid(w)
    ensures Valid(Despawn(w, e).0) && Despawn(w, e).1 == (e in Abs(w).rows)
    ensures Abs(Despawn(w, e).0) == PlainDespawn(Abs(w), e)
  {
    hide WithoutRow, RowsAgree, StoragesOk, SyntheticOk, StorageOk, ValidArenas;
    DespawnValid(w, e);
    if e in w.index {
      LiveHasRow(w, e);
      WithoutRowRefines(w, e);
    } else {
      assert Abs(w).rows - {e} == Abs(w).rows;
    }
  }

  // ---- writes ----

  lemma PlainWriteGet(p: Plain, e: Entity, cid: ComponentId, payload: Payload, d: Entity, k: ComponentId)
    requires e in p.rows && p.rows[e].arch in p.created
    ensures PlainGet(PlainWrite(p, e, cid, payload), d, k) ==
            if d == e && k == cid then Some(payload)
            else if k == cid && cid.storage.SoA? && d in p.rows && p.rows[d].arch == p.rows[e].arch
                    && cid !in p.created[p.rows[e].arch] then Some(DEFAULT)
            else PlainGet(p, d, k)
  {
  }

  lemma PlainWriteRows(p: Plain, e: Entity, cid: ComponentId, payload: Payload)
    requires e in p.rows && p.rows[e].arch in p.created
    ensures var p' := PlainWrite(p, e, cid, payload); var a := p.rows[e].arch;
            && p'.rows.Keys == p.rows.Keys && p'.defs == p.defs
            && p'.created == p.created[a := p.created[a] + {cid}]
            && forall d | d in p.rows :: p'.rows[d].arch == p.rows[d].arch
  {
  }

  /** The entity may hold the component: a dense one must belong to its archetype. */
  predicate Accepts(w: World, e: Entity, cid: ComponentId) {
    e in w.index && w.index[e].0 in w.archetypes
    && (cid.storage.SoA? ==> cid in w.archetypes[w.index[e].0].def.components)
  }

  lemma WriteRefinesGet(w: World, e: Entity, cid: ComponentId, payload: Payload, d: Entity, k: ComponentId)
    requires Valid(w) && HasRow(w, e) && IsAlive(w.types, e) && Accepts(w, e, cid)
    ensures e in Abs(w).rows && Abs(w).rows[e].arch in Abs(w).created
    ensures PlainGet(PlainWrite(Abs(w), e, cid, payload), d, k) == Get(WithValue(w, e, cid, payload), d, k)
  {
    InsertGet(w, e, cid, payload, d, k);
    GetRefines(w, d, k);
    PlainWriteGet(Abs(w), e, cid, payload, d, k);
    hide RowsAgree, StoragesOk, SyntheticOk, Get, PlainGet, WithValue, PlainWrite, IsAlive, ValidArenas;
  }

  lemma PlainRows(w: World, e: Entity)
    requires Valid(w)
    ensures IsAlive(w.types, e) <==> e in Abs(w).rows
    ensures e in Abs(w).rows ==> HasRow(w, e) && Abs(w).rows[e].arch == w.index[e].0
    ensures e in Abs(w).rows ==> Abs(w).rows[e].arch in Abs(w).created && Abs(w).rows[e].arch in Abs(w).defs
    ensures e in Abs(w).rows ==> Abs(w).defs[Abs(w).rows[e].arch] == w.archetypes[w.index[e].0].def
    ensures e in Abs(w).rows ==> Abs(w).created[Abs(w).rows[e].arch] == w.archetypes[w.index[e].0].columns.Keys
  {
    hide Get;
    if e in w.index {
      LiveHasRow(w, e);
    }
  }

  lemma WriteValid(w: World, e: Entity, cid: ComponentId, payload: Payload)
    requires Valid(w) && HasRow(w, e) && IsAlive(w.types, e) && Accepts(w, e, cid)
    ensures Valid(WithValue(w, e, cid, payload))
  {
    InsertValid(w, e, cid, payload);
    hide Valid;
  }

  lemma WrittenColumns(w: World, e: Entity, cid: ComponentId, payload: Payload)
    requires HasRow(w, e)
    ensures var w' := WithValue(w, e, cid, payload); var a := w.index[e].0;
            && DefsOf(w') == DefsOf(w) && a in CreatedOf(w)
            && CreatedOf(w') == CreatedOf(w)[a := CreatedOf(w)[a] + {cid}]
            && w'.index == w.index
  {
    var (a, idx) := w.index[e];
    var st := Written(w.archetypes[a], cid, idx, payload);
    assert st.columns.Keys == w.archetypes[a].columns.Keys + {cid};
    StoreColumns(w, WithValue(w, e, cid, payload), a, st);
  }

  lemma WriteRefines(w: World, e: Entity, cid: ComponentId, payload: Payload)
    requires Valid(w) && HasRow(w, e) && IsAlive(w.types, e) && Accepts(w, e, cid)
    ensures Valid(WithValue(w, e, cid, payload))
    ensures e in Abs(w).rows && Abs(w).rows[e].arch in Abs(w).created
    ensures Abs(WithValue(w, e, cid, payload)) == PlainWrite(Abs(w), e, cid, payload)
  {
    hide Get, PlainGet, StorageOk, StoragesOk, SyntheticOk, IsAlive, ValidArenas, DefsOf, CreatedOf, WithValue,
         RowsAgree, PlainWrite, Values, Accepts;
    WriteValid(w, e, cid, payload);
    WrittenColumns(w, e, cid, payload);
    PlainRows(w, e);
    PlainWriteRows(Abs(w), e, cid, payload);
    var w', p := WithValue(w, e, cid, payload), PlainWrite(Abs(w), e, cid, payload);
    forall d, k | d in w'.index
      ensures PlainGet(p, d, k) == Get(w', d, k)
    {
      WriteRefinesGet(w, e, cid, payload, d, k);
    }
    AbsIs(w', p);
  }

  /** `insert` on the plain map: who it refuses, and what it writes. */
  function PlainInsert(p: Plain, e: Entity, cid: ComponentId, payload: Payload)
    : (Plain, Result<(), EntityError>)
    requires e in p.rows ==> p.rows[e].arch in p.created && p.rows[e].arch in p.defs
  {
    if e !in p.rows then (p, Err(NotFound))
    else if cid.storage.SoA? && cid !in p.defs[p.rows[e].arch].components then (p, Err(ComponentMismatch))
    else (PlainWrite(p, e, cid, payload), Ok(()))
  }

  function PlainInsertAny(p: Plain, e: Entity, cid: ComponentId, v: Value): (Plain, Result<(), EntityError>)
    requires e in p.rows ==> p.rows[e].arch in p.created
  {
    if e !in p.rows then (p, Err(NotFound))
    else if cid !in p.created[p.rows[e].arch] || v.cid != cid then (p, Err(ComponentMismatch))
    else (PlainWrite(p, e, cid, v.payload), Ok(()))
  }

  lemma InsertRefines(w: World, e: Entity, cid: ComponentId, payload: Payload)
    requires Valid(w)
    ensures Valid(Insert(w, e, cid, payload).0)
    ensures e in Abs(w).rows ==> Abs(w).rows[e].arch in Abs(w).created && Abs(w).rows[e].arch in Abs(w).defs
    ensures (Abs(Insert(w, e, cid, payload).0), Insert(w, e, cid, payload).1) == PlainInsert(Abs(w), e, cid, payload)
  {
    PlainRows(w, e);
    InsertValid(w, e, cid, payload);
    if IsAlive(w.types, e) && Accepts(w, e, cid) {
      WriteRefines(w, e, cid, payload);
    }
    hide PlainWrite, WithValue, LiveIndexed, StoragesOk, SyntheticOk, RowsAgree, DefsOf, CreatedOf, RowsOf;
  }

  lemma InsertAnyRefines(w: World, e: Entity, cid: ComponentId, v: Value)
    requires Valid(w)
    ensures Valid(InsertAny(w, e, cid, v).0)
    ensures e in Abs(w).rows ==> Abs(w).rows[e].arch in Abs(w).created
    ensures (Abs(InsertAny(w, e, cid, v).0), InsertAny(w, e, cid, v).1) == PlainInsertAny(Abs(w), e, cid, v)
  {
    PlainRows(w, e);
    InsertAnyValid(w, e, cid, v);
    if IsAlive(w.types, e) && cid in w.archetypes[w.index[e].0].columns {
      ExistingColumnFits(w.archetypes[w.index[e].0], cid);
      WriteRefines(w, e, cid, v.payload);
    }
    hide PlainWrite, WithValue, LiveIndexed, StoragesOk, SyntheticOk, RowsAgree, DefsOf, CreatedOf, RowsOf;
  }

  lemma PlainRemoveGet(p: Plain, e: Entity, cid: ComponentId, d: Entity, k: ComponentId)
    ensures PlainGet(PlainRemove(p, e, cid), d, k) ==
            if d == e && k == cid && PlainGet(p, e, cid).Some? && cid.storage.SoA? then Some(DEFAULT)
            else if d == e && k == cid then None
            else PlainGet(p, d, k)
  {
  }

  lemma PlainRemoveRows(p: Plain, e: Entity, cid: ComponentId)
    ensures var p' := PlainRemove(p, e, cid);
            && p'.rows.Keys == p.rows.Keys && p'.defs == p.defs && p'.created == p.created
            && forall d | d in p.rows :: p'.rows[d].arch == p.rows[d].arch
  {
  }

  lemma RemoveRefinesGet(w: World, e: Entity, cid: ComponentId, d: Entity, k: ComponentId)
    requires Valid(w)
    ensures PlainGet(PlainRemove(Abs(w), e, cid), d, k) == Get(Remove(w, e, cid).0, d, k)
  {
    RemoveGet(w, e, cid, d, k);
    GetRefines(w, d, k);
    GetRefines(w, e, cid);
    PlainRemoveGet(Abs(w), e, cid, d, k);
    hide Valid, RowsAgree, Get, PlainGet, Remove, PlainRemove;
  }

  lemma ClearedColumns(w: World, e: Entity, cid: ComponentId)
    requires Valid(w)
    ensures var w' := Remove(w, e, cid).0;
            DefsOf(w') == DefsOf(w) && CreatedOf(w') == CreatedOf(w) && w'.index == w.index
  {
    if IsAlive(w.types, e) {
      LiveHasRow(w, e);
      var (a, idx) := w.index[e];
      hide StoragesOk, SyntheticOk, RowsAgree;
      if cid in w.archetypes[a].columns {
        var st := Cleared(w.archetypes[a], cid, idx);
        assert st.columns.Keys == w.archetypes[a].columns.Keys;
        StoreColumns(w, WithoutValue(w, e, cid), a, st);
      }
    }
  }

  lemma RemoveRefines(w: World, e: Entity, cid: ComponentId)
    requires Valid(w)
    ensures Valid(Remove(w, e, cid).0) && Remove(w, e, cid).1 == PlainGet(Abs(w), e, cid)
    ensures Abs(Remove(w, e, cid).0) == PlainRemove(Abs(w), e, cid)
  {
    hide Get, PlainGet, LiveIndexed, StoragesOk, SyntheticOk, RowsAgree, DefsOf, CreatedOf, Remove, PlainRemove,
         Values;
    RemoveValid(w, e, cid);
    RemoveGet(w, e, cid, e, cid);
    GetRefines(w, e, cid);
    ClearedColumns(w, e, cid);
    PlainRemoveRows(Abs(w), e, cid);
    var w', p := Remove(w, e, cid).0, PlainRemove(Abs(w), e, cid);
    forall d, k | d in w'.index
      ensures PlainGet(p, d, k) == Get(w', d, k)
    {
      RemoveRefinesGet(w, e, cid, d, k);
    }
    AbsIs(w', p);
  }

  // ---- whole runs ----

  datatype Call =
    | DoRegister(a: ArchId, def: ArchetypeDef)
    | DoSpawn(a: ArchId)
    | DoSpawnEmpty(kind: Kind)
    | DoSpawnExact(a: ArchId, e: Entity)
    | DoDespawn(e: Entity)
    | DoInsert(e: Entity, cid: ComponentId, payload: Payload)
    | DoInsertAny(e: Entity, cid: ComponentId, v: Value)
    | DoRemove(e: Entity, cid: ComponentId)

  datatype Reply =
    | Nothing
    | Handle(handle: Entity)
    | Flag(b: bool)
    | Outcome(result: Result<(), EntityError>)
    | Taken(value: Option<Payload>)

  /** The calls that do not panic. */
  predicate Allowed(w: World, call: Call) {
    match call
    case DoRegister(a, _) => a !in w.archetypes && a < FIRST_SYNTHETIC
    case DoSpawn(a) => a in w.archetypes
    case DoSpawnExact(a, _) => a in w.archetypes
    case _ => true
  }

  function Exec(w: World, call: Call): (World, Reply)
    requires Valid(w) && Allowed(w, call)
  {
    match call
    case DoRegister(a, def) => (Register(w, a, def), Nothing)
    case DoSpawn(a) => var (w', e) := Spawn(w, a); (w', Handle(e))
    case DoSpawnEmpty(kind) => var (w', e) := SpawnEmpty(w, kind); (w', Handle(e))
    case DoSpawnExact(a, e) => var (w', d) := SpawnExact(w, a, e); (w', Handle(d))
    case DoDespawn(e) => var (w', b) := Despawn(w, e); (w', Flag(b))
    case DoInsert(e, cid, payload) => var (w', r) := Insert(w, e, cid, payload); (w', Outcome(r))
    case DoInsertAny(e, cid, v) => var (w', r) := InsertAny(w, e, cid, v); (w', Outcome(r))
    case DoRemove(e, cid) => var (w', r) := Remove(w, e, cid); (w', Taken(r))
  }

  ghost predicate PlainOk(p: Plain) {
    p.created.Keys == p.defs.Keys && forall e | e in p.rows :: p.rows[e].arch in p.defs
  }

  /** What a call may answer and turn a plain map into.  Only the choice of a fresh handle, and of the
    * archetype of spawn_empty, is left open. */
  ghost predicate PlainStep(p: Plain, call: Call, reply: Reply, p': Plain)
    requires PlainOk(p)
  {
    match call
    case DoRegister(a, def) =>
      reply == Nothing && a !in p.defs && p' == p.(defs := p.defs[a := def], created := p.created[a := {}])
    case DoSpawn(a) => IsSpawn(p, a, reply, p')
    case DoSpawnEmpty(kind) =>
      exists a :: (a in p.defs ==> p.defs[a] == ArchetypeDef(kind, {}))
                  && IsSpawn(PlainSynthetic(p, a, kind), a, reply, p')
    case DoSpawnExact(a, e) =>
      IsSpawn(p, a, reply, p') && a in p.defs && (reply.handle == e <==> CanKeep(p, a, e))
    case DoDespawn(e) => reply == Flag(e in p.rows) && p' == PlainDespawn(p, e)
    case DoInsert(e, cid, payload) =>
      var (q, r) := PlainInsert(p, e, cid, payload); reply == Outcome(r) && p' == q
    case DoInsertAny(e, cid, v) =>
      var (q, r) := PlainInsertAny(p, e, cid, v); reply == Outcome(r) && p' == q
    case DoRemove(e, cid) => reply == Taken(PlainGet(p, e, cid)) && p' == PlainRemove(p, e, cid)
  }

  ghost predicate IsSpawn(p: Plain, a: ArchId, reply: Reply, p': Plain) {
    reply.Handle? && reply.handle !in p.rows && a in p.created && p' == PlainSpawn(p, a, reply.handle)
  }

  lemma AbsOk(w: World)
    requires Valid(w)
    ensures PlainOk(Abs(w))
  {
    hide Values;
  }

  lemma ExecValid(w: World, call: Call)
    requires Valid(w) && Allowed(w, call)
    ensures Valid(Exec(w, call).0)
  {
    hide Valid;
    match call
    case DoRegister(a, def) => RegisterValid(w, a, def);
    case DoSpawn(a) => SpawnValid(w, a);
    case DoSpawnEmpty(kind) => SpawnEmptyValid(w, kind);
    case DoSpawnExact(a, e) => SpawnExactValid(w, a, e);
    case DoDespawn(e) => DespawnValid(w, e);
    case DoInsert(e, cid, payload) => InsertValid(w, e, cid, payload);
    case DoInsertAny(e, cid, v) => InsertAnyValid(w, e, cid, v);
    case DoRemove(e, cid) => RemoveValid(w, e, cid);
  }

  lemma RegisterKeepsValues(w: World, a: ArchId, def: ArchetypeDef, d: Entity)
    requires RowsAgree(w) && a !in w.archetypes && a < FIRST_SYNTHETIC && d in w.index
    ensures d in Register(w, a, def).index && w.index[d].0 in Register(w, a, def).archetypes
    ensures Values(Register(w, a, def), d) == Values(w, d)
  {
    hide IsAlive;
  }

  lemma RegisterRows(w: World, a: ArchId, def: ArchetypeDef)
    requires Valid(w) && a !in w.archetypes && a < FIRST_SYNTHETIC
    ensures RowsAgree(Register(w, a, def))
    ensures RowsOf(Register(w, a, def)) == RowsOf(w)
  {
    hide Values, StoragesOk, SyntheticOk, LiveIndexed, RowsAgree;
    RegisterValid(w, a, def);
    forall d | d in w.index
      ensures RowsOf(Register(w, a, def))[d] == RowsOf(w)[d]
    {
      RegisterKeepsValues(w, a, def, d);
    }
  }

  lemma RegisterColumns(w: World, a: ArchId, def: ArchetypeDef)
    requires a !in w.archetypes && a < FIRST_SYNTHETIC
    ensures var w' := Register(w, a, def);
            DefsOf(w') == DefsOf(w)[a := def] && CreatedOf(w') == CreatedOf(w)[a := {}] && a !in DefsOf(w)
  {
    assert Register(w, a, def).archetypes[a].columns.Keys == {};
  }

  lemma RegisterRefines(w: World, a: ArchId, def: ArchetypeDef)
    requires Valid(w) && a !in w.archetypes && a < FIRST_SYNTHETIC
    ensures Valid(Register(w, a, def))
    ensures var p := Abs(w);
            a !in p.defs && Abs(Register(w, a, def)) == p.(defs := p.defs[a := def], created := p.created[a := {}])
  {
    hide RowsOf, DefsOf, CreatedOf, RowsAgree, StoragesOk, SyntheticOk, LiveIndexed, Register;
    RegisterValid(w, a, def);
    RegisterRows(w, a, def);
    RegisterColumns(w, a, def);
  }

  lemma SyntheticDef(w: World, kind: Kind)
    requires Valid(w)
    ensures kind in WithEmptyArchetype(w, kind).empty
    ensures var a := WithEmptyArchetype(w, kind).empty[kind];
            a in Abs(w).defs ==> Abs(w).defs[a] == ArchetypeDef(kind, {})
  {
    hide StoragesOk, LiveIndexed, RowsAgree, RowsOf;
  }

  lemma SpawnEmptyIsSpawn(w: World, kind: Kind)
    requires Valid(w)
    ensures var (w', e) := SpawnEmpty(w, kind);
            Valid(w') && PlainOk(Abs(w)) && PlainStep(Abs(w), DoSpawnEmpty(kind), Handle(e), Abs(w'))
  {
    hide Valid, Abs, SpawnEmpty, WithEmptyArchetype, PlainSpawn, PlainOk, RowsAgree;
    AbsOk(w);
    SyntheticDef(w, kind);
    SpawnEmptyRefines(w, kind);
    ValidAgrees(w);
    var (w', e) := SpawnEmpty(w, kind);
    var a := WithEmptyArchetype(w, kind).empty[kind];
    ValidAgrees(w');
    assert PlainSynthetic(Abs(w), a, kind).rows == Abs(w).rows;
    assert IsSpawn(PlainSynthetic(Abs(w), a, kind), a, Handle(e), Abs(w'));
  }

  lemma ValidAgrees(w: World)
    requires Valid(w)
    ensures RowsAgree(w)
  {
    hide RowsAgree;
  }

  lemma ExecRefines(w: World, call: Call)
    requires Valid(w) && Allowed(w, call)
    ensures Valid(Exec(w, call).0) && PlainOk(Abs(w))
    ensures PlainStep(Abs(w), call, Exec(w, call).1, Abs(Exec(w, call).0))
  {
    hide Valid, Abs, PlainOk, RowsAgree;
    AbsOk(w);
    ExecValid(w, call);
    match call
    case DoRegister(a, def) => RegisterRefines(w, a, def);
    case DoSpawn(a) => ArchetypesAreCreated(w, a); SpawnRefines(w, a);
    case DoSpawnEmpty(kind) => SpawnEmptyIsSpawn(w, kind);
    case DoSpawnExact(a, e) => ArchetypesAreCreated(w, a); SpawnExactRefines(w, a, e);
    case DoDespawn(e) => DespawnRefines(w, e);
    case DoInsert(e, cid, payload) => InsertRefines(w, e, cid, payload);
    case DoInsertAny(e, cid, v) => InsertAnyRefines(w, e, cid, v);
    case DoRemove(e, cid) => RemoveRefines(w, e, cid);
  }

  lemma ArchetypesAreCreated(w: World, a: ArchId)
    requires Valid(w) && a in w.archetypes
    ensures a in Abs(w).created
  {
  }

  ghost predicate RunAllowed(w: World, calls: seq<Call>)
    requires Valid(w)
    decreases |calls|
  {
    calls == [] || (Allowed(w, calls[0]) && (ExecValid(w, calls[0]); RunAllowed(Exec(w, calls[0]).0, calls[1..])))
  }

  ghost function Run(w: World, calls: seq<Call>): (World, seq<Reply>)
    requires Valid(w) && RunAllowed(w, calls)
    decreases |calls|
  {
    if calls == [] then (w, [])
    else
      ExecValid(w, calls[0]);
      var (w1, reply) := Exec(w, calls[0]);
      var (w', replies) := Run(w1, calls[1..]);
      (w', [reply] + replies)
  }

  /** The replies are some run of the plain map, from p to p'. */
  ghost predicate PlainRun(p: Plain, calls: seq<Call>, replies: seq<Reply>, p': Plain)
    decreases |calls|
  {
    if calls == [] then replies == [] && p' == p
    else
      replies != [] && PlainOk(p)
      && exists q :: PlainStep(p, calls[0], replies[0], q) && PlainRun(q, calls[1..], replies[1..], p')
  }

  /** Every run keeps the world valid and answers as the plain map may. */
  lemma {:induction false} RunRefines(w: World, calls: seq<Call>)
    requires Valid(w) && RunAllowed(w, calls)
    ensures Valid(Run(w, calls).0)
    ensures PlainRun(Abs(w), calls, Run(w, calls).1, Abs(Run(w, calls).0))
    decreases |calls|
  {
    hide Valid, Abs, Exec, Allowed, PlainStep, RowsAgree;
    if calls != [] {
      ExecValid(w, calls[0]);
      ExecRefines(w, calls[0]);
      var (w1, reply) := Exec(w, calls[0]);
      RunRefines(w1, calls[1..]);
      var (w', replies) := Run(w1, calls[1..]);
      assert ([reply] + replies)[1..] == replies;
      ValidAgrees(w);
      ValidAgrees(w1);
      assert PlainStep(Abs(w), calls[0], reply, Abs(w1));
    }
  }

  function Start(): (w: World)
    ensures Valid(w)
  {
    NewWorldValid();
    NEW_WORLD
  }

  /** All worlds start empty. */
  lemma RunsFromNew(calls: seq<Call>)
    requires RunAllowed(Start(), calls)
    ensures Valid(Run(Start(), calls).0)
    ensures PlainRun(Plain(map[], map[], map[]), calls, Run(Start(), calls).1, Abs(Run(Start(), calls).0))
  {
    assert Abs(Start()) == Plain(map[], map[], map[]) by {
      hide Values;
    }
    hide Valid, Abs, Run, PlainRun;
    RunRefines(Start(), calls);
  }
}
