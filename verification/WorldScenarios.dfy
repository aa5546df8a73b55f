/** Concrete worlds in which bundles, queries and migrations surprise their callers. */
module WorldScenarios {
  import opened Wrappers
  import opened Entities
  import W = Worlds
  import DeferredCommands
  import Queries
  import Migration
  import H = EntityHistory
  import R = WorldRefinement
  import History = WorldHistory

  const POSITION := W.ComponentId(1, W.SoA)
  const TAG := W.ComponentId(2, W.Sparse)

  const FIRST := Entity(1, 0, 0)

  /** A dense value in a bundle is dropped, and nobody is told. */
  lemma DenseBundleValueIsLost()
    ensures W.Valid(W.NEW_WORLD)
    ensures var values := [W.Value(POSITION, 7)];
            var (w, e) := DeferredCommands.BundleSpawned(W.NEW_WORLD, values);
            && DeferredCommands.LastValue(values, POSITION) == Some(7)
            && IsAlive(w.types, e) && W.Get(w, e, POSITION) == None
  {
    W.NewWorldValid();
    hide W.Valid, W.Get, DeferredCommands.BundleSpawned;
    DeferredCommands.BundleKeepsSparseValues(W.NEW_WORLD, [W.Value(POSITION, 7)], POSITION);
  }

  /** One entity of an archetype with the given components. */
  function Populated(components: set<W.ComponentId>): (w: W.World)
    ensures W.Valid(w)
  {
    RegisteredIsValid(components);
    W.SpawnValid(Registered(components), 1);
    W.Spawn(Registered(components), 1).0
  }

  function Registered(components: set<W.ComponentId>): W.World {
    W.Register(W.NEW_WORLD, 1, W.ArchetypeDef(1, components))
  }

  lemma RegisteredIsValid(components: set<W.ComponentId>)
    ensures W.Valid(Registered(components))
  {
    W.NewWorldValid();
    hide W.Valid;
    W.RegisterValid(W.NEW_WORLD, 1, W.ArchetypeDef(1, components));
  }

  lemma PopulatedIs(components: set<W.ComponentId>)
    ensures var w := Populated(components);
            && IsAlive(w.types, FIRST) && w.index == map[FIRST := (1, 0)] && 1 in w.archetypes
            && w.archetypes[1] == W.Storage(W.ArchetypeDef(1, components), [FIRST], map[])
  {
    RegisteredIsValid(components);
    var w := Populated(components);
    assert [] + [FIRST] == [FIRST];
    assert w.archetypes[1].columns == map[];
  }

  /** `contains` says yes to an entity whose archetype declares the component, and `get` refuses it for
    * want of a value. */
  method ContainsWhatGetRefuses() returns (found: bool, r: Result<Queries.Item, Queries.QueryError>)
    ensures found && r == Err(Queries.WrongEntity)
  {
    hide W.Valid, Populated, Registered;
    var w := Populated({TAG});
    PopulatedIs({TAG});
    var query := new Queries.Query(w, Queries.Ref(TAG), Queries.Filter({}, {}));
    found := query.Contains(FIRST);
    r := query.Get(FIRST);
  }

  /** The entity has a position; the other world knows its archetype and has no column for it. */
  function Positioned(): (w: W.World)
    ensures W.Valid(w)
  {
    W.InsertValid(Populated({POSITION}), FIRST, POSITION, 7);
    W.Insert(Populated({POSITION}), FIRST, POSITION, 7).0
  }

  lemma PositionedIs()
    ensures IsAlive(Positioned().types, FIRST) && Positioned().index == map[FIRST := (1, 0)]
    ensures 1 in Positioned().archetypes && Positioned().archetypes[1].columns.Keys == {POSITION}
    ensures W.Get(Positioned(), FIRST, POSITION) == Some(7)
  {
    hide W.Valid, Populated;
    var w := Populated({POSITION});
    PopulatedIs({POSITION});
    W.LiveHasRow(w, FIRST);
    W.InsertGet(w, FIRST, POSITION, 7, FIRST, POSITION);
  }

  /** A migration that fails for want of a column has moved the entity all the same, and its value is in
    * neither world. */
  lemma FailedMigrationLosesTheValue()
    ensures W.Valid(Registered({POSITION}))
    ensures var (src', dst', r) := Migration.Migrate(Positioned(), Registered({POSITION}), FIRST, [POSITION]);
            && W.Get(Positioned(), FIRST, POSITION) == Some(7) && r == Err(Migration.DifferentKind)
            && src'.index == map[] && dst'.index.Keys == {FIRST} && W.Get(dst', FIRST, POSITION) == None
  {
    hide W.Valid, Positioned;
    RegisteredIsValid({POSITION});
    PositionedIs();
    var src, dst := Positioned(), Registered({POSITION});
    W.LiveHasRow(src, FIRST);
    assert Migration.Enumerates([POSITION], Migration.Columns(src, FIRST));
    Migration.SucceedsIff(src, dst, FIRST, [POSITION]);
    Migration.EntitiesAreConserved(src, dst, FIRST, [POSITION]);
    var (src', dst', r) := Migration.Migrate(src, dst, FIRST, [POSITION]);
  }

  // ---- away and back ----

  const SECOND := Entity(1, 1, 0)

  /** A world with archetype 1, of kind 1 and without components. */
  ghost predicate HasOne(s: History.Site) {
    History.SiteOk(s) && 1 in s.world.archetypes && s.world.archetypes[1].def.kind == 1
  }

  lemma NewOne()
    ensures var s := History.Site(Registered({}), []); HasOne(s) && History.Arena(s) == H.START
  {
    RegisteredIsValid({});
    hide W.Valid;
    H.StartTracked();
  }

  lemma SpawnsOne(s: History.Site)
    requires HasOne(s)
    ensures HasOne(History.Called(s, R.DoSpawn(1)))
    ensures History.Arena(History.Called(s, R.DoSpawn(1))) == H.Step(History.Arena(s), H.Alloc(1))
  {
    hide W.Valid, H.Tracked, H.Step;
    History.CalledIsOk(s, R.DoSpawn(1));
    History.CallIsArenaOp(s, R.DoSpawn(1));
  }

  lemma DespawnsOne(s: History.Site, e: Entity)
    requires HasOne(s)
    ensures HasOne(History.Called(s, R.DoDespawn(e)))
    ensures History.Arena(History.Called(s, R.DoDespawn(e))) == H.Step(History.Arena(s), H.Dealloc(e))
  {
    hide W.Valid, H.Tracked, H.Step;
    History.CalledIsOk(s, R.DoDespawn(e));
    History.CallIsArenaOp(s, R.DoDespawn(e));
    DespawnKeepsOne(s.world, e);
  }

  lemma DespawnKeepsOne(w: W.World, e: Entity)
    requires W.Valid(w) && 1 in w.archetypes
    ensures 1 in W.Despawn(w, e).0.archetypes && W.Despawn(w, e).0.archetypes[1].def == w.archetypes[1].def
  {
    hide W.StoragesOk, W.RowsAgree, W.SyntheticOk, ValidArenas;
    if e in w.index {
      W.LiveHasRow(w, e);
    }
  }

  /** The first entity of a new world leaves for another new world. */
  lemma FirstLeaves(a: History.Site, b: History.Site)
    requires HasOne(a) && HasOne(b) && a.world.index == map[FIRST := (1, 0)] && b.world == Registered({})
    ensures var (a', b') := History.Moved(a, b, FIRST, []);
            && HasOne(a') && History.Arena(a') == H.Step(History.Arena(a), H.Dealloc(FIRST))
            && HasOne(b') && FIRST in b'.world.index && b'.world.index[FIRST].0 == 1
  {
    hide H.Tracked, H.Step, W.StoragesOk, W.SyntheticOk, W.StorageOk, ValidArenas, W.SpawnExact, W.Despawn;
    W.LiveHasRow(a.world, FIRST);
    History.MovedIsOk(a, b, FIRST, []);
    History.MoveIsArenaOps(a, b, FIRST, []);
    DespawnKeepsOne(a.world, FIRST);
    Migration.Seating(b.world, 1, FIRST);
    SeatingKeepsOne(b.world, FIRST);
  }

  lemma SeatingKeepsOne(w: W.World, e: Entity)
    requires W.Valid(w) && 1 in w.archetypes
    ensures var w' := W.SpawnExact(w, 1, e).0; 1 in w'.archetypes && w'.archetypes[1].def == w.archetypes[1].def
  {
    hide W.StoragesOk, W.RowsAgree, W.SyntheticOk, ValidArenas;
  }

  // The stages of two worlds, both new at first.

  ghost function Home(): (s: History.Site)
    ensures HasOne(s) && History.Arena(s) == H.START && s.world == Registered({})
  {
    NewOne();
    History.Site(Registered({}), [])
  }

  ghost function Inhabited(): (s: History.Site)
    ensures HasOne(s) && History.Arena(s) == H.Step(H.START, H.Alloc(1)) && s.world.index == map[FIRST := (1, 0)]
  {
    SpawnsOne(Home());
    PopulatedIs({});
    History.Called(Home(), R.DoSpawn(1))
  }

  /** The entity goes to the other world. */
  ghost function Left(): (r: (History.Site, History.Site))
    ensures HasOne(r.0) && History.Arena(r.0) == H.Step(History.Arena(Inhabited()), H.Dealloc(FIRST))
    ensures HasOne(r.1) && FIRST in r.1.world.index && r.1.world.index[FIRST].0 == 1
  {
    FirstLeaves(Inhabited(), Home());
    History.Moved(Inhabited(), Home(), FIRST, [])
  }

  /** Its slot is used once more. */
  ghost function Reused(): (s: History.Site)
    ensures HasOne(s) && History.Arena(s) == H.Step(History.Arena(Left().0), H.Alloc(1))
  {
    SpawnsOne(Left().0);
    History.Called(Left().0, R.DoSpawn(1))
  }

  ghost function Freed(): (s: History.Site)
    ensures HasOne(s) && History.Arena(s) == H.Step(History.Arena(Reused()), H.Dealloc(SECOND))
  {
    DespawnsOne(Reused(), SECOND);
    History.Called(Reused(), R.DoDespawn(SECOND))
  }

  /** The entity comes back to its slot. */
  ghost function Returned(): (s: History.Site) {
    History.Moved(Left().1, Freed(), FIRST, []).1
  }

  /** An entity that leaves a world and comes back turns its slot back, and the world can spawn the second
    * handle again. */
  lemma ReturningTurnsASlotBack()
    ensures History.SiteOk(Freed()) && History.NeverReissues(Freed())
    ensures History.SiteOk(Returned()) && !History.NeverReissues(Returned())
  {
    hide W.Valid, H.Tracked, History.Moved, History.NeverReissues, History.Forward, H.UpToDate, Left, Freed,
         Migration.Refusal;
    FreedIsUsedTwice();
    FirstCanReturn(Left().1, Freed());
    History.NeverReissuesIffUpToDate(Freed());
    History.MoveIsSafeIffForward(Left().1, Freed(), FIRST, []);
  }

  lemma FreedIsUsedTwice()
    ensures History.Arena(Freed()) == H.State(map[1 := TypeArena([SlotState(1, false)], [0], 0)], [FIRST, SECOND])
    ensures H.UpToDate(History.Arena(Freed())) && !History.Forward(Freed(), FIRST)
  {
    hide W.Valid, H.Tracked, H.Step, H.UpToDate, Home, Inhabited, Left, Reused, Freed, ValidArenas;
    History.SiteArenas(Home());
    History.SiteArenas(Inhabited());
    History.SiteArenas(Left().0);
    History.SiteArenas(Reused());
    UsedTwice(History.Arena(Inhabited()), History.Arena(Left().0), History.Arena(Reused()), History.Arena(Freed()));
  }

  lemma FirstCanReturn(b: History.Site, a: History.Site)
    requires HasOne(a) && HasOne(b) && FIRST in b.world.index && b.world.index[FIRST].0 == 1
    ensures Migration.Refusal(b.world, a.world, FIRST).None?
  {
    hide H.Tracked;
    W.LiveHasRow(b.world, FIRST);
  }

  /** Slot 0 after two entities: it waits on the free stack at generation 1. */
  lemma UsedTwice(s1: H.State, s2: H.State, s3: H.State, s4: H.State)
    requires ValidArenas(H.START.types) && s1 == H.Step(H.START, H.Alloc(1))
    requires ValidArenas(s1.types) && s2 == H.Step(s1, H.Dealloc(FIRST))
    requires ValidArenas(s2.types) && s3 == H.Step(s2, H.Alloc(1))
    requires ValidArenas(s3.types) && s4 == H.Step(s3, H.Dealloc(SECOND))
    ensures s4 == H.State(map[1 := TypeArena([SlotState(1, false)], [0], 0)], [FIRST, SECOND])
    ensures H.UpToDate(s4)
  {
    hide ValidArenas, H.Step;
    var ops := [H.Alloc(1), H.Dealloc(FIRST), H.Alloc(1), H.Dealloc(SECOND)];
    H.OneSlotUsedTwice();
    assert ops[1..] == [H.Dealloc(FIRST), H.Alloc(1), H.Dealloc(SECOND)];
    assert ops[1..][1..] == [H.Alloc(1), H.Dealloc(SECOND)];
    assert ops[1..][1..][1..] == [H.Dealloc(SECOND)] && ops[1..][1..][1..][1..] == [];
    assert H.Run(s4, []) == s4 by {
      H.StepValid(s3, H.Dealloc(SECOND));
    }
    assert H.Run(s3, [H.Dealloc(SECOND)]) == s4;
    assert H.Run(s2, [H.Alloc(1), H.Dealloc(SECOND)]) == s4;
    assert H.Run(s1, ops[1..]) == s4;
    assert H.FromStart(ops) == s4;
  }
}
