/** Moving an entity between worlds, from migration.rs. */
module Migration {
  import opened Wrappers
  import opened Entities
  import W = Worlds
  import opened WorldObjects

  type ComponentId = W.ComponentId

  datatype MigrateError = EntityNotFound | AlreadyMigrated | DifferentKind

  // ---- collecting and writing values ----

  /** `order` lists the columns once each, as the hash map happens to yield them. */
  ghost predicate Enumerates(order: seq<ComponentId>, columns: set<ComponentId>) {
    && (forall cid :: cid in order <==> cid in columns)
    && (forall i, j | 0 <= i < j < |order| :: order[i] != order[j])
  }

  /** The values of e, in column order. */
  ghost function Collected(w: W.World, e: Entity, order: seq<ComponentId>): seq<W.Value> {
    if order == [] then []
    else
      var rest := Collected(w, e, order[1..]);
      match W.Get(w, e, order[0])
      case Some(payload) => [W.Value(order[0], payload)] + rest
      case None => rest
  }

  lemma {:induction false} CollectedIs(w: W.World, e: Entity, order: seq<ComponentId>)
    requires forall i, j | 0 <= i < j < |order| :: order[i] != order[j]
    ensures forall v :: v in Collected(w, e, order) <==> v.cid in order && W.Get(w, e, v.cid) == Some(v.payload)
    ensures forall i, j | 0 <= i < j < |Collected(w, e, order)| ::
              Collected(w, e, order)[i].cid != Collected(w, e, order)[j].cid
  {
    hide W.Get;
    if order != [] {
      CollectedIs(w, e, order[1..]);
      var vs, rest := Collected(w, e, order), Collected(w, e, order[1..]);
      forall i, j | 0 <= i < j < |vs|
        ensures vs[i].cid != vs[j].cid
      {
        if W.Get(w, e, order[0]).Some? && i == 0 {
          assert vs[j] == rest[j - 1];
          assert rest[j - 1] in rest;
        }
      }
      assert order == [order[0]] + order[1..];
    }
  }

  /** Writing values one by one, stopping at the first that does not fit. */
  ghost function WriteAll(w: W.World, e: Entity, vs: seq<W.Value>): (W.World, bool)
    requires W.Valid(w)
    decreases |vs|
  {
    if vs == [] then (w, true)
    else
      var (w', r) := W.InsertAny(w, e, vs[0].cid, vs[0]);
      W.InsertAnyValid(w, e, vs[0].cid, vs[0]);
      if r.Err? then (w, false) else WriteAll(w', e, vs[1..])
  }

  predicate HasColumn(w: W.World, e: Entity, cid: ComponentId) {
    e in w.index && w.index[e].0 in w.archetypes && cid in w.archetypes[w.index[e].0].columns
  }

  lemma ExistingColumnStays(w: W.World, e: Entity, cid: ComponentId, payload: W.Payload)
    requires W.HasRow(w, e) && HasColumn(w, e, cid)
    ensures var w' := W.WithValue(w, e, cid, payload);
            && w'.index == w.index && w'.types == w.types
            && w'.archetypes.Keys == w.archetypes.Keys
            && forall a | a in w.archetypes :: w'.archetypes[a].columns.Keys == w.archetypes[a].columns.Keys
  {
    var a := w.index[e].0;
    assert W.Written(w.archetypes[a], cid, w.index[e].1, payload).columns.Keys == w.archetypes[a].columns.Keys;
    hide W.Written, W.StorageOk;
  }

  lemma InsertAnyKeeps(w: W.World, e: Entity, v: W.Value)
    requires W.Valid(w) && IsAlive(w.types, e)
    ensures var (w', r) := W.InsertAny(w, e, v.cid, v);
            && W.Valid(w') && w'.index == w.index && w'.types == w.types
            && (r.Ok? <==> HasColumn(w, e, v.cid))
            && forall d, cid :: HasColumn(w', d, cid) <==> HasColumn(w, d, cid)
  {
    hide W.LiveIndexed, W.StoragesOk, W.SyntheticOk, W.RowsAgree, IsAlive, ValidArenas, W.WithValue, W.StorageOk;
    W.InsertAnyValid(w, e, v.cid, v);
    W.LiveHasRow(w, e);
    if HasColumn(w, e, v.cid) {
      ExistingColumnStays(w, e, v.cid, v.payload);
    }
  }

  lemma {:induction false} WriteAllKeeps(w: W.World, e: Entity, vs: seq<W.Value>)
    requires W.Valid(w) && IsAlive(w.types, e)
    ensures W.Valid(WriteAll(w, e, vs).0)
    ensures WriteAll(w, e, vs).0.index == w.index && WriteAll(w, e, vs).0.types == w.types
    ensures WriteAll(w, e, vs).1 <==> forall v | v in vs :: HasColumn(w, e, v.cid)
    decreases |vs|
  {
    hide W.Valid, W.InsertAny, HasColumn, IsAlive;
    if vs != [] {
      InsertAnyKeeps(w, e, vs[0]);
      var (w', r) := W.InsertAny(w, e, vs[0].cid, vs[0]);
      if r.Ok? {
        WriteAllKeeps(w', e, vs[1..]);
        assert forall v :: v in vs <==> v == vs[0] || v in vs[1..];
      }
    }
  }

  lemma {:induction false} WriteAllGet(w: W.World, e: Entity, vs: seq<W.Value>, d: Entity, cid: ComponentId)
    requires W.Valid(w) && IsAlive(w.types, e) && W.Valid(WriteAll(w, e, vs).0)
    requires forall i, j | 0 <= i < j < |vs| :: vs[i].cid != vs[j].cid
    ensures d != e || (forall v | v in vs :: v.cid != cid) ==>
              W.Get(WriteAll(w, e, vs).0, d, cid) == W.Get(w, d, cid)
    ensures WriteAll(w, e, vs).1 ==>
              forall v | v in vs :: W.Get(WriteAll(w, e, vs).0, e, v.cid) == Some(v.payload)
    decreases |vs|
  {
    hide W.Valid, W.InsertAny, HasColumn, IsAlive, W.Get;
    if vs != [] {
      InsertAnyKeeps(w, e, vs[0]);
      var (w', r) := W.InsertAny(w, e, vs[0].cid, vs[0]);
      if r.Ok? {
        WriteAllGet(w', e, vs[1..], d, cid);
        W.InsertAnyGet(w, e, vs[0].cid, vs[0], d, cid);
        assert forall v :: v in vs <==> v == vs[0] || v in vs[1..];
        WriteAllGet(w', e, vs[1..], e, vs[0].cid);
        W.InsertAnyGet(w, e, vs[0].cid, vs[0], e, vs[0].cid);
      }
    }
  }

  // ---- the migration ----

  ghost function Refusal(src: W.World, dst: W.World, e: Entity): Option<MigrateError>
    requires W.Valid(src)
  {
    if !IsAlive(src.types, e) then Some(if IsAlive(dst.types, e) then AlreadyMigrated else EntityNotFound)
    else
      W.LiveHasRow(src, e);
      var a := src.index[e].0;
      if a !in dst.archetypes || dst.archetypes[a].def.kind != e.kind then Some(DifferentKind) else None
  }

  /** The columns of the entity's archetype. */
  function Columns(w: W.World, e: Entity): set<ComponentId>
    requires e in w.index && w.index[e].0 in w.archetypes
  {
    w.archetypes[w.index[e].0].columns.Keys
  }

  ghost function Migrate(src: W.World, dst: W.World, e: Entity, order: seq<ComponentId>)
    : (W.World, W.World, Result<Entity, MigrateError>)
    requires W.Valid(src) && W.Valid(dst)
  {
    match Refusal(src, dst, e)
    case Some(error) => (src, dst, Err(error))
    case None =>
      W.LiveHasRow(src, e);
      var (seated, h) := W.SpawnExact(dst, src.index[e].0, e);
      W.SpawnExactValid(dst, src.index[e].0, e);
      var (dst', ok) := WriteAll(seated, h, Collected(src, e, order));
      (W.Despawn(src, e).0, dst', if ok then Ok(h) else Err(DifferentKind))
  }

  /** Every component of the entity has a column waiting for it. */
  ghost predicate ColumnsReady(src: W.World, dst: W.World, e: Entity)
    requires e in src.index && src.index[e].0 in dst.archetypes
  {
    forall cid | W.Get(src, e, cid).Some? :: cid in dst.archetypes[src.index[e].0].columns
  }

  lemma RefusalMeans(src: W.World, dst: W.World, e: Entity)
    requires W.Valid(src) && W.Valid(dst) && Refusal(src, dst, e).None?
    ensures IsAlive(src.types, e) && W.HasRow(src, e) && src.index[e].0 in dst.archetypes
    ensures dst.archetypes[src.index[e].0].def.kind == e.kind
  {
    W.LiveHasRow(src, e);
  }

  /** What `spawn_exact` gives migration: the handle is new to the world, keeps its value exactly when
    * its slot is free, and shows only the defaults of the archetype's dense columns. */
  lemma Seating(dst: W.World, a: W.ArchId, e: Entity)
    requires W.Valid(dst) && a in dst.archetypes && dst.archetypes[a].def.kind == e.kind
    ensures var (w, h) := W.SpawnExact(dst, a, e);
            && W.Valid(w) && h !in dst.index && IsAlive(w.types, h) && !IsAlive(dst.types, h)
            && w.index == dst.index[h := (a, |dst.archetypes[a].slots|)]
            && a in w.archetypes && w.archetypes[a].columns.Keys == dst.archetypes[a].columns.Keys
            && (h == e <==> !SlotTaken(Space(dst.types, e.kind), e.slot))
  {
    hide W.StoragesOk, W.SyntheticOk, W.RowsAgree;
    W.SpawnExactValid(dst, a, e);
    W.SpawnExactPlaces(dst, a, e);
    W.SpawnPlaces(dst, a);
    AllocateValid(dst.types, e.kind);
    hide Alive, ValidArenas;
  }

  lemma SeatingGet(dst: W.World, a: W.ArchId, e: Entity, d: Entity, cid: ComponentId)
    requires W.Valid(dst) && a in dst.archetypes && dst.archetypes[a].def.kind == e.kind
    ensures var (w, h) := W.SpawnExact(dst, a, e);
            W.Get(w, d, cid) ==
            if d != h then W.Get(dst, d, cid)
            else if cid in dst.archetypes[a].columns && cid.storage.SoA? then Some(W.DEFAULT) else None
  {
    hide W.RowsAgree, W.StoragesOk, W.SyntheticOk, ValidArenas, IsAlive, W.Get, W.Seated;
    match AfterExact(dst.types, e.kind, e)
    case Some(types) =>
      W.SpawnExactPlaces(dst, a, e);
      W.SeatedGet(dst, a, types, e, d, cid);
    case None =>
      W.SpawnPlaces(dst, a);
      W.SeatedGet(dst, a, AfterAllocate(dst.types, e.kind).0, AfterAllocate(dst.types, e.kind).1, d, cid);
  }

  // ---- what migration guarantees ----

  /** It succeeds exactly when the entity lives in the source, the destination knows its archetype with
    * the same kind, and every one of its components has a column there. */
  lemma SucceedsIff(src: W.World, dst: W.World, e: Entity, order: seq<ComponentId>)
    requires W.Valid(src) && W.Valid(dst)
    requires IsAlive(src.types, e) ==> W.HasRow(src, e) && Enumerates(order, Columns(src, e))
    ensures Migrate(src, dst, e, order).2.Ok? <==>
            && IsAlive(src.types, e)
            && src.index[e].0 in dst.archetypes
            && dst.archetypes[src.index[e].0].def.kind == e.kind
            && ColumnsReady(src, dst, e)
  {
    hide W.LiveIndexed, W.RowsAgree, W.StoragesOk, W.SyntheticOk, W.Get, IsAlive, W.StorageOk, Collected, WriteAll;
    if IsAlive(src.types, e) {
      var a := src.index[e].0;
      if a in dst.archetypes && dst.archetypes[a].def.kind == e.kind {
        Seating(dst, a, e);
        var (seated, h) := W.SpawnExact(dst, a, e);
        WriteAllKeeps(seated, h, Collected(src, e, order));
        CollectedIs(src, e, order);
        ReadyIff(src, dst, e, order, seated, h);
      }
    }
  }

  /** Each answer means one thing: the entity is only over there, in neither world, or not welcome there. */
  lemma AnswersIff(src: W.World, dst: W.World, e: Entity, order: seq<ComponentId>)
    requires W.Valid(src) && W.Valid(dst)
    requires IsAlive(src.types, e) ==> W.HasRow(src, e) && Enumerates(order, Columns(src, e))
    ensures var (src', dst', r) := Migrate(src, dst, e, order);
            && (r == Err(AlreadyMigrated) <==> e !in src.index && e in dst.index)
            && (r == Err(EntityNotFound) <==> e !in src.index && e !in dst.index)
            && (r == Err(DifferentKind) <==>
                  && e in src.index
                  && !(src.index[e].0 in dst.archetypes && dst.archetypes[src.index[e].0].def.kind == e.kind
                       && ColumnsReady(src, dst, e)))
            && (r in {Err(AlreadyMigrated), Err(EntityNotFound)} ==> src' == src && dst' == dst)
  {
    hide W.StoragesOk, W.RowsAgree, W.SyntheticOk, W.StorageOk, WriteAll, Collected, ColumnsReady, W.Get, W.SpawnExact,
         W.Despawn;
    SucceedsIff(src, dst, e, order);
  }

  lemma GetNeedsColumn(w: W.World, e: Entity, cid: ComponentId)
    requires W.Get(w, e, cid).Some?
    ensures e in w.index && w.index[e].0 in w.archetypes && cid in Columns(w, e)
  {
  }

  lemma ReadyIff(
    src: W.World, dst: W.World, e: Entity, order: seq<ComponentId>, seated: W.World, h: Entity)
    requires W.HasRow(src, e) && src.index[e].0 in dst.archetypes && Enumerates(order, Columns(src, e))
    requires h in seated.index && seated.index[h].0 == src.index[e].0 && src.index[e].0 in seated.archetypes
    requires seated.archetypes[src.index[e].0].columns.Keys == dst.archetypes[src.index[e].0].columns.Keys
    ensures ColumnsReady(src, dst, e) <==> forall v | v in Collected(src, e, order) :: HasColumn(seated, h, v.cid)
  {
    hide W.Get, Collected, W.StorageOk;
    CollectedIs(src, e, order);
    var vs := Collected(src, e, order);
    if ColumnsReady(src, dst, e) {
      forall v | v in vs
        ensures HasColumn(seated, h, v.cid)
      {
        assert W.Get(src, e, v.cid).Some?;
      }
    }
    if forall v | v in vs :: HasColumn(seated, h, v.cid) {
      forall cid | W.Get(src, e, cid).Some?
        ensures cid in dst.archetypes[src.index[e].0].columns
      {
        GetNeedsColumn(src, e, cid);
        var v := W.Value(cid, W.Get(src, e, cid).value);
        assert v in vs;
      }
    }
  }

  lemma DespawnKeys(w: W.World, e: Entity)
    requires W.Valid(w) && W.HasRow(w, e)
    ensures W.Despawn(w, e).0.index.Keys == w.index.Keys - {e}
  {
    W.WithoutRowIndex(w, e, AfterDeallocate(w.types, e));
  }

  lemma Sizes<K, V>(big: map<K, V>, small: map<K, V>, k: K)
    requires k in big && k !in small && small.Keys == big.Keys - {k}
    ensures |big| == |small| + 1
  {
    assert big.Keys == small.Keys + {k};
    assert |big.Keys| == |big| && |small.Keys| == |small|;
  }

  /** Exactly one handle is added to the destination, whether or not all values could be written. */
  ghost predicate Arrives(dst: W.World, dst': W.World, e: Entity, h: Entity) {
    && h !in dst.index && dst'.index.Keys == dst.index.Keys + {h}
    && (h == e <==> !SlotTaken(Space(dst.types, e.kind), e.slot))
  }

  lemma OneHandleArrives(src: W.World, dst: W.World, e: Entity, order: seq<ComponentId>) returns (h: Entity)
    requires W.Valid(src) && W.Valid(dst) && Refusal(src, dst, e).None?
    ensures var (src', dst', r) := Migrate(src, dst, e, order);
            W.Valid(dst') && Arrives(dst, dst', e, h) && r == if r.Ok? then Ok(h) else Err(DifferentKind)
    ensures src.index[e].0 in dst.archetypes && h == W.SpawnExact(dst, src.index[e].0, e).1
  {
    hide W.LiveIndexed, W.RowsAgree, W.StoragesOk, W.SyntheticOk, IsAlive, W.StorageOk, Collected, WriteAll,
         SlotTaken, Space, W.SpawnExact, W.Despawn;
    RefusalMeans(src, dst, e);
    var a := src.index[e].0;
    Seating(dst, a, e);
    h := W.SpawnExact(dst, a, e).1;
    WriteAllKeeps(W.SpawnExact(dst, a, e).0, h, Collected(src, e, order));
  }

  /** A refused migration leaves both worlds alone; any other one takes the entity out of the source
    * and puts exactly one new handle into the destination, so no entity is lost or doubled even when
    * a column is missing.  The handle survives exactly when its slot is free over there. */
  lemma EntitiesAreConserved(src: W.World, dst: W.World, e: Entity, order: seq<ComponentId>)
    requires W.Valid(src) && W.Valid(dst)
    ensures var (src', dst', r) := Migrate(src, dst, e, order);
            && W.Valid(src') && W.Valid(dst')
            && |src'.index| + |dst'.index| == |src.index| + |dst.index|
            && (match Refusal(src, dst, e)
                case Some(error) => src' == src && dst' == dst && r == Err(error)
                case None =>
                  && src'.index.Keys == src.index.Keys - {e}
                  && exists h :: Arrives(dst, dst', e, h) && r == if r.Ok? then Ok(h) else Err(DifferentKind))
  {
    hide W.LiveIndexed, W.RowsAgree, W.StoragesOk, W.SyntheticOk, IsAlive, W.StorageOk, Collected, WriteAll,
         SlotTaken, Space, W.SpawnExact, W.Despawn;
    if Refusal(src, dst, e).None? {
      RefusalMeans(src, dst, e);
      var h := OneHandleArrives(src, dst, e, order);
      W.DespawnValid(src, e);
      DespawnKeys(src, e);
      var (src', dst', r) := Migrate(src, dst, e, order);
      Sizes(src.index, src'.index, e);
      Sizes(dst'.index, dst.index, h);
    }
  }

  /** Whatever the outcome, the other entities of both worlds keep their values. */
  lemma OthersAreUntouched(
    src: W.World, dst: W.World, e: Entity, order: seq<ComponentId>, d: Entity, cid: ComponentId)
    requires W.Valid(src) && W.Valid(dst)
    requires forall i, j | 0 <= i < j < |order| :: order[i] != order[j]
    ensures var (src', dst', r) := Migrate(src, dst, e, order);
            && (d != e ==> W.Get(src', d, cid) == W.Get(src, d, cid))
            && (d in dst.index ==> W.Get(dst', d, cid) == W.Get(dst, d, cid))
  {
    hide W.LiveIndexed, W.RowsAgree, W.StoragesOk, W.SyntheticOk, W.Get, IsAlive, W.StorageOk, Collected, WriteAll;
    if Refusal(src, dst, e).None? {
      RefusalMeans(src, dst, e);
      var a := src.index[e].0;
      Seating(dst, a, e);
      SeatingGet(dst, a, e, d, cid);
      var (seated, h) := W.SpawnExact(dst, a, e);
      CollectedIs(src, e, order);
      WriteAllKeeps(seated, h, Collected(src, e, order));
      WriteAllGet(seated, h, Collected(src, e, order), d, cid);
      W.DespawnGet(src, e, d, cid);
    }
  }

  /** After a success the new handle has every value the entity had, plus the defaults of dense
    * columns it lacked; every other entity of both worlds is as before. */
  lemma ValuesMove(
    src: W.World, dst: W.World, e: Entity, order: seq<ComponentId>, d: Entity, cid: ComponentId)
    requires W.Valid(src) && W.Valid(dst)
    requires IsAlive(src.types, e) ==> W.HasRow(src, e) && Enumerates(order, Columns(src, e))
    requires Migrate(src, dst, e, order).2.Ok?
    ensures var (src', dst', r) := Migrate(src, dst, e, order);
            && W.Get(src', d, cid) == (if d == e then None else W.Get(src, d, cid))
            && (d != r.value ==> W.Get(dst', d, cid) == W.Get(dst, d, cid))
            && (W.Get(src, e, cid).Some? ==> W.Get(dst', r.value, cid) == W.Get(src, e, cid))
            && (W.Get(src, e, cid).None? ==>
                  W.Get(dst', r.value, cid) ==
                  if cid.storage.SoA? && src.index[e].0 in dst.archetypes
                     && cid in dst.archetypes[src.index[e].0].columns then Some(W.DEFAULT) else None)
  {
    hide W.LiveIndexed, W.RowsAgree, W.StoragesOk, W.SyntheticOk, W.Get, IsAlive, W.StorageOk, Collected, WriteAll;
    RefusalMeans(src, dst, e);
    var a := src.index[e].0;
    Seating(dst, a, e);
    SeatingGet(dst, a, e, d, cid);
    var (seated, h) := W.SpawnExact(dst, a, e);
    SeatingGet(dst, a, e, h, cid);
    var vs := Collected(src, e, order);
    CollectedIs(src, e, order);
    WriteAllKeeps(seated, h, vs);
    WriteAllGet(seated, h, vs, d, cid);
    WriteAllGet(seated, h, vs, h, cid);
    W.DespawnGet(src, e, d, cid);
    if W.Get(src, e, cid).Some? {
      GetNeedsColumn(src, e, cid);
      assert W.Value(cid, W.Get(src, e, cid).value) in vs;
    } else {
      assert forall v | v in vs :: v.cid != cid;
    }
  }

  // ---- how far a migration gets ----

  lemma {:induction false} CollectedConcat(w: W.World, e: Entity, a: seq<ComponentId>, b: seq<ComponentId>)
    ensures Collected(w, e, a + b) == Collected(w, e, a) + Collected(w, e, b)
    decreases |a|
  {
    hide W.Get;
    if a == [] {
      assert a + b == b;
    } else {
      CollectedConcat(w, e, a[1..], b);
      assert (a + b)[1..] == a[1..] + b;
    }
  }

  /** The first value without a column ends the writing. */
  lemma {:induction false} WriteAllStops(
    w: W.World, e: Entity, vs: seq<W.Value>, v: W.Value, rest: seq<W.Value>)
    requires W.Valid(w) && IsAlive(w.types, e)
    requires (forall x | x in vs :: HasColumn(w, e, x.cid)) && !HasColumn(w, e, v.cid)
    ensures WriteAll(w, e, vs + ([v] + rest)) == (WriteAll(w, e, vs).0, false)
    decreases |vs|
  {
    hide W.Valid, W.InsertAny, HasColumn, IsAlive;
    if vs == [] {
      assert vs + ([v] + rest) == [v] + rest;
      InsertAnyKeeps(w, e, v);
      RefusedWriteChangesNothing(w, e, v);
    } else {
      assert (vs + ([v] + rest))[1..] == vs[1..] + ([v] + rest);
      InsertAnyKeeps(w, e, vs[0]);
      WriteAllStops(W.InsertAny(w, e, vs[0].cid, vs[0]).0, e, vs[1..], v, rest);
    }
  }

  lemma RefusedWriteChangesNothing(w: W.World, e: Entity, v: W.Value)
    requires W.Valid(w)
    ensures W.InsertAny(w, e, v.cid, v).1.Err? ==> W.InsertAny(w, e, v.cid, v).0 == w
  {
    hide W.Valid;
  }

  /** A component that the entity lacks, or for which a column is waiting. */
  predicate Movable(src: W.World, dst: W.World, e: Entity, cid: ComponentId) {
    e in src.index && src.index[e].0 in dst.archetypes
    && (W.Get(src, e, cid).Some? ==> cid in dst.archetypes[src.index[e].0].columns)
  }

  /** What the handle shows before any value is written. */
  function Initial(src: W.World, dst: W.World, e: Entity, cid: ComponentId): Option<W.Payload> {
    if cid.storage.SoA? && e in src.index && src.index[e].0 in dst.archetypes
       && cid in dst.archetypes[src.index[e].0].columns then Some(W.DEFAULT) else None
  }

  /** The writing gets as far as the first component, in the order of the columns, whose column is
    * missing. */
  lemma WrittenPrefix(
    src: W.World, dst: W.World, e: Entity, order: seq<ComponentId>, n: nat, seated: W.World, h: Entity)
    requires W.Valid(seated) && IsAlive(seated.types, h) && W.HasRow(src, e) && h in seated.index
    requires src.index[e].0 in dst.archetypes && src.index[e].0 in seated.archetypes
    requires seated.index[h].0 == src.index[e].0
    requires seated.archetypes[src.index[e].0].columns.Keys == dst.archetypes[src.index[e].0].columns.Keys
    requires n <= |order| && (forall m | 0 <= m < n :: Movable(src, dst, e, order[m]))
    requires n < |order| ==> !Movable(src, dst, e, order[n])
    requires forall i, j | 0 <= i < j < |order| :: order[i] != order[j]
    ensures WriteAll(seated, h, Collected(src, e, order)) ==
            (WriteAll(seated, h, Collected(src, e, order[..n])).0, n == |order|)
  {
    hide W.Valid, W.Get, W.StorageOk, IsAlive, WriteAll, Collected, Movable, HasColumn;
    FrontFits(src, dst, e, order, n, seated, h);
    if n < |order| {
      NoColumnWaits(src, dst, e, order[n], seated, h);
      CollectedAround(src, e, order, n);
      WriteAllStops(seated, h, Collected(src, e, order[..n]),
                    W.Value(order[n], W.Get(src, e, order[n]).value), Collected(src, e, order[n + 1..]));
    } else {
      assert order[..n] == order;
      WriteAllKeeps(seated, h, Collected(src, e, order));
    }
  }

  lemma CollectedAround(w: W.World, e: Entity, order: seq<ComponentId>, n: nat)
    requires n < |order| && W.Get(w, e, order[n]).Some?
    ensures Collected(w, e, order) ==
            Collected(w, e, order[..n])
            + ([W.Value(order[n], W.Get(w, e, order[n]).value)] + Collected(w, e, order[n + 1..]))
  {
    hide W.Get, Collected;
    var front, rest := order[..n], order[n + 1..];
    assert order == front + ([order[n]] + rest);
    CollectedConcat(w, e, front, [order[n]] + rest);
    CollectedConcat(w, e, [order[n]], rest);
    CollectedOne(w, e, order[n]);
  }

  lemma NoColumnWaits(src: W.World, dst: W.World, e: Entity, cid: ComponentId, seated: W.World, h: Entity)
    requires e in src.index && src.index[e].0 in dst.archetypes && !Movable(src, dst, e, cid)
    requires h in seated.index && seated.index[h].0 == src.index[e].0 && src.index[e].0 in seated.archetypes
    requires seated.archetypes[src.index[e].0].columns.Keys == dst.archetypes[src.index[e].0].columns.Keys
    ensures W.Get(src, e, cid).Some? && !HasColumn(seated, h, cid)
  {
    hide W.Get;
  }

  lemma CollectedOne(w: W.World, e: Entity, cid: ComponentId)
    requires W.Get(w, e, cid).Some?
    ensures Collected(w, e, [cid]) == [W.Value(cid, W.Get(w, e, cid).value)]
  {
    hide W.Get;
    assert [cid][1..] == [];
  }

  /** The worlds after such a migration. */
  lemma FrontIsWritten(src: W.World, dst: W.World, e: Entity, order: seq<ComponentId>, n: nat)
    returns (seated: W.World, h: Entity)
    requires W.Valid(src) && W.Valid(dst) && Refusal(src, dst, e).None?
    requires W.HasRow(src, e) && Enumerates(order, Columns(src, e)) && n <= |order|
    requires forall m | 0 <= m < n :: Movable(src, dst, e, order[m])
    requires n < |order| ==> !Movable(src, dst, e, order[n])
    ensures src.index[e].0 in dst.archetypes && dst.archetypes[src.index[e].0].def.kind == e.kind
    ensures (seated, h) == W.SpawnExact(dst, src.index[e].0, e) && W.Valid(seated) && IsAlive(seated.types, h)
    ensures forall v | v in Collected(src, e, order[..n]) :: HasColumn(seated, h, v.cid)
    ensures var (src', dst', r) := Migrate(src, dst, e, order);
            && src' == W.Despawn(src, e).0 && dst' == WriteAll(seated, h, Collected(src, e, order[..n])).0
            && Arrives(dst, dst', e, h) && r == if n == |order| then Ok(h) else Err(DifferentKind)
  {
    hide W.LiveIndexed, W.RowsAgree, W.StoragesOk, W.SyntheticOk, W.Get, IsAlive, W.StorageOk, Collected, WriteAll,
         SlotTaken, Space, W.SpawnExact, W.Despawn, Movable, HasColumn, Arrives;
    RefusalMeans(src, dst, e);
    var a := src.index[e].0;
    Seating(dst, a, e);
    var _ := OneHandleArrives(src, dst, e, order);
    seated, h := W.SpawnExact(dst, a, e).0, W.SpawnExact(dst, a, e).1;
    WrittenPrefix(src, dst, e, order, n, seated, h);
    FrontFits(src, dst, e, order, n, seated, h);
  }

  /** The exact outcome of a migration that is not refused at once: the values of the components ahead of
    * the first missing column are under the new handle, and those from there on are in neither world. */
  lemma PrefixMoves(src: W.World, dst: W.World, e: Entity, order: seq<ComponentId>, n: nat) returns (h: Entity)
    requires W.Valid(src) && W.Valid(dst) && Refusal(src, dst, e).None?
    requires W.HasRow(src, e) && Enumerates(order, Columns(src, e)) && n <= |order|
    requires forall m | 0 <= m < n :: Movable(src, dst, e, order[m])
    requires n < |order| ==> !Movable(src, dst, e, order[n])
    ensures var (src', dst', r) := Migrate(src, dst, e, order);
            Arrives(dst, dst', e, h) && r == if n == |order| then Ok(h) else Err(DifferentKind)
    ensures var (src', dst', r) := Migrate(src, dst, e, order);
            forall cid :: W.Get(src', e, cid) == None
                       && W.Get(dst', h, cid) ==
                          if cid in order[..n] && W.Get(src, e, cid).Some? then W.Get(src, e, cid)
                          else Initial(src, dst, e, cid)
  {
    hide W.Valid, W.Get, Refusal, Movable, W.SpawnExact, W.Despawn, Collected, WriteAll, Arrives, Migrate, HasColumn,
         IsAlive;
    var seated;
    seated, h := FrontIsWritten(src, dst, e, order, n);
    forall cid
      ensures W.Get(W.Despawn(src, e).0, e, cid) == None
      ensures W.Get(WriteAll(seated, h, Collected(src, e, order[..n])).0, h, cid) ==
              if cid in order[..n] && W.Get(src, e, cid).Some? then W.Get(src, e, cid)
              else Initial(src, dst, e, cid)
    {
      W.DespawnGet(src, e, e, cid);
      SeatingGet(dst, src.index[e].0, e, h, cid);
      WrittenReads(src, e, order[..n], seated, h, cid);
    }
  }

  /** What the handle shows after some of the values have been written. */
  lemma WrittenReads(
    src: W.World, e: Entity, front: seq<ComponentId>, seated: W.World, h: Entity, cid: ComponentId)
    requires W.Valid(seated) && IsAlive(seated.types, h)
    requires forall i, j | 0 <= i < j < |front| :: front[i] != front[j]
    requires forall v | v in Collected(src, e, front) :: HasColumn(seated, h, v.cid)
    ensures W.Get(WriteAll(seated, h, Collected(src, e, front)).0, h, cid) ==
            if cid in front && W.Get(src, e, cid).Some? then W.Get(src, e, cid) else W.Get(seated, h, cid)
  {
    hide W.Valid, W.Get, IsAlive, WriteAll, Collected, HasColumn;
    var vs := Collected(src, e, front);
    CollectedIs(src, e, front);
    WriteAllKeeps(seated, h, vs);
    WriteAllGet(seated, h, vs, h, cid);
    if cid in front && W.Get(src, e, cid).Some? {
      assert W.Value(cid, W.Get(src, e, cid).value) in vs;
    } else {
      assert forall v | v in vs :: v.cid != cid;
    }
  }

  lemma FrontFits(
    src: W.World, dst: W.World, e: Entity, order: seq<ComponentId>, n: nat, seated: W.World, h: Entity)
    requires n <= |order| && forall m | 0 <= m < n :: Movable(src, dst, e, order[m])
    requires forall i, j | 0 <= i < j < |order| :: order[i] != order[j]
    requires e in src.index && src.index[e].0 in dst.archetypes && src.index[e].0 in seated.archetypes
    requires h in seated.index && seated.index[h].0 == src.index[e].0
    requires seated.archetypes[src.index[e].0].columns.Keys == dst.archetypes[src.index[e].0].columns.Keys
    ensures forall v | v in Collected(src, e, order[..n]) :: HasColumn(seated, h, v.cid)
  {
    hide W.Get, Collected;
    CollectedIs(src, e, order[..n]);
    forall v | v in Collected(src, e, order[..n])
      ensures HasColumn(seated, h, v.cid)
    {
      var m :| 0 <= m < n && order[m] == v.cid;
      assert Movable(src, dst, e, order[m]);
    }
  }

  // ---- the procedure ----

  lemma {:induction false} CollectedAppend(w: W.World, e: Entity, order: seq<ComponentId>, cid: ComponentId)
    ensures Collected(w, e, order + [cid]) ==
            Collected(w, e, order) + (match W.Get(w, e, cid) case Some(p) => [W.Value(cid, p)] case None => [])
  {
    hide W.Get;
    if order == [] {
      assert (order + [cid])[1..] == [];
    } else {
      CollectedAppend(w, e, order[1..], cid);
      assert (order + [cid])[1..] == order[1..] + [cid];
    }
  }

  lemma ClearedThenRemoved(st: W.Storage, cid: ComponentId, idx: nat)
    requires W.StorageOk(st) && idx < |st.slots| && cid in st.columns
    ensures W.StorageOk(W.Cleared(st, cid, idx))
    ensures W.Removed(W.Cleared(st, cid, idx), idx) == W.Removed(st, idx)
  {
    W.ClearedOk(st, cid, idx);
    assert W.ColumnOk(st, cid, st.columns[cid]);
    var slot := st.slots[idx].slot;
    assert W.OnDespawn(W.Take(st.columns[cid], idx, slot), idx, slot) == W.OnDespawn(st.columns[cid], idx, slot);
    assert W.Removed(W.Cleared(st, cid, idx), idx).columns == W.Removed(st, idx).columns;
  }

  lemma TakeKeeps(w: W.World, e: Entity, cid: ComponentId)
    requires W.Valid(w) && W.HasRow(w, e) && cid in Columns(w, e)
    ensures var w' := W.Remove(w, e, cid).0;
            && W.Valid(w') && W.HasRow(w', e) && Columns(w', e) == Columns(w, e)
            && w' == W.WithoutValue(w, e, cid)
  {
    hide W.LiveIndexed, W.StoragesOk, W.SyntheticOk, W.RowsAgree, IsAlive, ValidArenas, W.Cleared, W.StorageOk;
    W.RemoveValid(w, e, cid);
    W.LiveHasRow(w, e);
    W.ClearedOk(w.archetypes[w.index[e].0], cid, w.index[e].1);
    SameShape(w.archetypes[w.index[e].0], cid, w.index[e].1);
  }

  lemma SameShape(st: W.Storage, cid: ComponentId, idx: nat)
    requires W.StorageOk(st) && idx < |st.slots| && cid in st.columns
    ensures var st' := W.Cleared(st, cid, idx); st'.slots == st.slots && st'.columns.Keys == st.columns.Keys
  {
  }

  /** Taking a value out first makes no difference to what despawning leaves behind. */
  lemma TakeThenDespawn(w: W.World, e: Entity, cid: ComponentId)
    requires W.Valid(w) && W.HasRow(w, e) && cid in Columns(w, e)
    ensures var w' := W.Remove(w, e, cid).0;
            && W.Valid(w') && W.HasRow(w', e) && Columns(w', e) == Columns(w, e)
            && W.Despawn(w', e) == W.Despawn(w, e)
  {
    hide W.Valid, W.StorageOk, W.Cleared, W.Removed, IsAlive, ValidArenas, AfterDeallocate, W.Remove;
    TakeKeeps(w, e, cid);
    var (a, idx) := w.index[e];
    var st := w.archetypes[a];
    ClearedThenRemoved(st, cid, idx);
    var w' := W.WithoutValue(w, e, cid);
    assert w'.archetypes[a := W.Removed(st, idx)] == w.archetypes[a := W.Removed(st, idx)];
  }

  /** Takes the values of e out of its columns in some order. */
  method CollectComponents(src: World, e: Entity) returns (values: seq<W.Value>, ghost order: seq<ComponentId>)
    requires src.Valid() && W.HasRow(src.State(), e)
    modifies src
    ensures src.Valid() && W.HasRow(src.State(), e)
    ensures old(W.HasRow(src.State(), e)) && Enumerates(order, old(Columns(src.State(), e)))
    ensures values == Collected(old(src.State()), e, order)
    ensures W.Despawn(src.State(), e) == old(W.Despawn(src.State(), e))
  {
    hide W.Valid, W.StorageOk, W.Get, W.Remove, W.Despawn, Collected;
    var columns := src.archetypes[src.entityIndex[e].0].columns.Keys;
    var todo := columns;
    ghost var before := src.State();
    values, order := [], [];
    assert Collected(before, e, []) == [] by {
      NothingCollected(before, e);
    }
    while todo != {}
      invariant src.Valid() && W.HasRow(src.State(), e) && Columns(src.State(), e) == columns
      invariant todo <= columns && Enumerates(order, columns - todo)
      invariant values == Collected(before, e, order)
      invariant W.Despawn(src.State(), e) == W.Despawn(before, e)
      invariant forall cid | cid in todo :: W.Get(src.State(), e, cid) == W.Get(before, e, cid)
      decreases |todo|
    {
      var cid :| cid in todo;
      ghost var w := src.State();
      TakeThenDespawn(w, e, cid);
      W.RemoveGet(w, e, cid, e, cid);
      forall k | k in todo && k != cid
        ensures W.Get(W.Remove(w, e, cid).0, e, k) == W.Get(w, e, k)
      {
        W.RemoveGet(w, e, cid, e, k);
      }
      CollectedAppend(before, e, order, cid);
      var value := src.Remove(e, cid);
      if value.Some? {
        values := values + [W.Value(cid, value.value)];
      }
      order := order + [cid];
      todo := todo - {cid};
    }
  }

  lemma NothingCollected(w: W.World, e: Entity)
    ensures Collected(w, e, []) == []
  {
  }

  /** Writes the collected values one by one, stopping at the first refusal. */
  method InsertAll(dst: World, e: Entity, values: seq<W.Value>) returns (ok: bool)
    requires dst.Valid()
    modifies dst
    ensures dst.Valid()
    ensures (dst.State(), ok) == WriteAll(old(dst.State()), e, values)
  {
    hide W.Valid, W.InsertAny;
    ghost var seated := dst.State();
    var i := 0;
    while i < |values|
      invariant 0 <= i <= |values|
      invariant dst.Valid() && WriteAll(dst.State(), e, values[i..]) == WriteAll(seated, e, values)
    {
      assert values[i..][1..] == values[i + 1..];
      W.InsertAnyValid(dst.State(), e, values[i].cid, values[i]);
      ghost var before := dst.State();
      var r := dst.InsertAny(e, values[i].cid, values[i]);
      if r.Err? {
        RefusedWriteChangesNothing(before, e, values[i]);
        return false;
      }
      i := i + 1;
    }
    return true;
  }

  method MigrateEntity(src: World, dst: World, e: Entity)
    returns (r: Result<Entity, MigrateError>, ghost order: seq<ComponentId>)
    requires src.Valid() && dst.Valid() && src != dst && src.entities != dst.entities
    modifies src, src.entities, dst, dst.entities
    ensures src.Valid() && dst.Valid()
    ensures old(Refusal(src.State(), dst.State(), e)).None? ==>
              old(W.HasRow(src.State(), e)) && Enumerates(order, old(Columns(src.State(), e)))
    ensures (src.State(), dst.State(), r) == Migrate(old(src.State()), old(dst.State()), e, order)
  {
    hide W.RowsAgree, W.StoragesOk, W.SyntheticOk, W.LiveIndexed, W.StorageOk, Collected, W.Despawn, W.SpawnExact;
    order := [];
    ghost var w, v := src.State(), dst.State();
    if !src.Contains(e) {
      if dst.Contains(e) {
        return Err(AlreadyMigrated), order;
      }
      return Err(EntityNotFound), order;
    }
    W.LiveHasRow(w, e);
    var arch := src.entityIndex[e].0;
    if arch !in dst.archetypes || dst.archetypes[arch].def.kind != e.kind {
      return Err(DifferentKind), order;
    }
    var values;
    values, order := CollectComponents(src, e);
    var _ := src.Despawn(e);
    var entity := dst.SpawnExact(arch, e);
    W.SpawnExactValid(v, arch, e);
    var ok := InsertAll(dst, entity, values);
    return if ok then Ok(entity) else Err(DifferentKind), order;
  }
}
