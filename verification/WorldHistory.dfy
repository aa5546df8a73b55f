/** What runs of several worlds, with migrations between them, guarantee about the handles each world
  * hands out. */
module WorldHistory {
  import opened Wrappers
  import opened Entities
  import W = Worlds
  import H = EntityHistory
  import R = WorldRefinement
  import Migration

  /** A world and every handle it has handed out so far. */
  datatype Site = Site(world: W.World, issued: seq<Entity>)

  function Arena(s: Site): H.State {
    H.State(s.world.types, s.issued)
  }

  ghost predicate SiteOk(s: Site) {
    W.Valid(s.world) && H.Tracked(Arena(s))
  }

  lemma SiteArenas(s: Site)
    requires SiteOk(s)
    ensures ValidArenas(s.world.types)
  {
    hide W.StoragesOk, W.RowsAgree, W.SyntheticOk, ValidArenas, H.Tracked;
  }

  // ---- calls on one world are operations of its arena ----

  function Called(s: Site, call: R.Call): Site
    requires W.Valid(s.world) && R.Allowed(s.world, call)
  {
    var (w, reply) := R.Exec(s.world, call);
    Site(w, if reply.Handle? then s.issued + [reply.handle] else s.issued)
  }

  /** Placing e, or a fresh handle when e does not fit. */
  function Placing(types: Arenas, kind: Kind, e: Entity): H.Op
    requires ValidArenas(types)
  {
    if AfterExact(types, kind, e).Some? then H.Exact(kind, e) else H.Alloc(kind)
  }

  function ArenaOp(w: W.World, call: R.Call): Option<H.Op>
    requires W.Valid(w) && R.Allowed(w, call)
  {
    match call
    case DoSpawn(a) => Some(H.Alloc(w.archetypes[a].def.kind))
    case DoSpawnEmpty(kind) => Some(H.Alloc(kind))
    case DoSpawnExact(a, e) => Some(Placing(w.types, w.archetypes[a].def.kind, e))
    case DoDespawn(e) => Some(H.Dealloc(e))
    case _ => None
  }

  lemma SpawnEmptyAllocates(w: W.World, kind: Kind)
    requires W.Valid(w)
    ensures (W.SpawnEmpty(w, kind).0.types, W.SpawnEmpty(w, kind).1) == AfterAllocate(w.types, kind)
  {
    hide W.StoragesOk, W.RowsAgree, ValidArenas;
    W.WithEmptyArchetypeValid(w, kind);
    var w1 := W.WithEmptyArchetype(w, kind);
    assert w1.types == w.types && w1.archetypes[w1.empty[kind]].def.kind == kind;
  }

  lemma DespawnDeallocates(w: W.World, e: Entity)
    requires W.Valid(w)
    ensures W.Despawn(w, e).0.types == AfterDeallocate(w.types, e)
  {
    hide W.StoragesOk, W.RowsAgree, W.SyntheticOk, ValidArenas;
    if e in w.index {
      W.LiveHasRow(w, e);
    }
  }

  lemma CallIsArenaOp(s: Site, call: R.Call)
    requires W.Valid(s.world) && R.Allowed(s.world, call)
    ensures Arena(Called(s, call)) ==
            match ArenaOp(s.world, call)
            case Some(op) => H.Step(Arena(s), op)
            case None => Arena(s)
  {
    hide W.StoragesOk, W.RowsAgree, W.SyntheticOk, W.Written, W.Cleared, W.Despawn, W.SpawnEmpty, W.StorageOk;
    match call
    case DoSpawnEmpty(kind) => SpawnEmptyAllocates(s.world, kind);
    case DoDespawn(e) => DespawnDeallocates(s.world, e);
    case DoInsert(e, _, _) => AliveHasRow(s.world, e);
    case DoInsertAny(e, _, _) => AliveHasRow(s.world, e);
    case DoRemove(e, _) => AliveHasRow(s.world, e);
    case _ =>
  }

  lemma AliveHasRow(w: W.World, e: Entity)
    requires W.Valid(w)
    ensures IsAlive(w.types, e) ==> W.HasRow(w, e)
  {
    hide W.StorageOk, ValidArenas;
    if IsAlive(w.types, e) {
      W.LiveHasRow(w, e);
    }
  }

  lemma CalledIsOk(s: Site, call: R.Call)
    requires SiteOk(s) && R.Allowed(s.world, call)
    ensures SiteOk(Called(s, call))
  {
    hide W.Valid, H.Tracked, R.Exec;
    R.ExecValid(s.world, call);
    CallIsArenaOp(s, call);
    match ArenaOp(s.world, call)
    case Some(op) => H.StepTracked(Arena(s), op);
    case None =>
  }

  // ---- runs of one world ----

  ghost predicate CallsAllowed(s: Site, calls: seq<R.Call>)
    requires W.Valid(s.world)
    decreases |calls|
  {
    calls == []
    || (R.Allowed(s.world, calls[0]) && (R.ExecValid(s.world, calls[0]); CallsAllowed(Called(s, calls[0]), calls[1..])))
  }

  ghost function CalledAll(s: Site, calls: seq<R.Call>): (r: Site)
    requires W.Valid(s.world) && CallsAllowed(s, calls)
    ensures W.Valid(r.world)
    decreases |calls|
  {
    if calls == [] then s else R.ExecValid(s.world, calls[0]); CalledAll(Called(s, calls[0]), calls[1..])
  }

  predicate NoPlacement(calls: seq<R.Call>) {
    forall i | 0 <= i < |calls| :: !calls[i].DoSpawnExact?
  }

  /** However the world is used, short of exact placement, it will not spawn a handle that it has handed
    * out before. */
  ghost predicate NeverReissues(s: Site)
    requires W.Valid(s.world)
  {
    forall calls, kind: Kind | NoPlacement(calls) && CallsAllowed(s, calls) ::
      W.SpawnEmpty(CalledAll(s, calls).world, kind).1 !in CalledAll(s, calls).issued
  }

  lemma {:induction false} ArenaRunOf(s: Site, calls: seq<R.Call>) returns (ops: seq<H.Op>)
    requires SiteOk(s) && CallsAllowed(s, calls) && NoPlacement(calls)
    ensures H.NoExact(ops) && Arena(CalledAll(s, calls)) == H.Run(Arena(s), ops)
    decreases |calls|
  {
    hide W.Valid, H.Tracked, Called, R.Allowed, H.Step;
    if calls == [] {
      ops := [];
    } else {
      CalledIsOk(s, calls[0]);
      CallIsArenaOp(s, calls[0]);
      var rest := ArenaRunOf(Called(s, calls[0]), calls[1..]);
      match ArenaOp(s.world, calls[0]) {
        case Some(op) =>
          ops := [op] + rest;
          assert ops[1..] == rest;
        case None =>
          ops := rest;
      }
    }
  }

  /** Empty spawns and despawns make the arena of a world do any run of allocations and deallocations. */
  lemma {:induction false} WorldRunOf(s: Site, ops: seq<H.Op>) returns (calls: seq<R.Call>)
    requires SiteOk(s) && H.NoExact(ops)
    ensures NoPlacement(calls) && CallsAllowed(s, calls) && Arena(CalledAll(s, calls)) == H.Run(Arena(s), ops)
    decreases |ops|
  {
    hide W.Valid, H.Tracked, Called, H.Step;
    if ops == [] {
      calls := [];
    } else {
      var call := if ops[0].Alloc? then R.DoSpawnEmpty(ops[0].kind) else R.DoDespawn(ops[0].e);
      CalledIsOk(s, call);
      CallIsArenaOp(s, call);
      var rest := WorldRunOf(Called(s, call), ops[1..]);
      calls := [call] + rest;
      assert calls[1..] == rest;
    }
  }

  /** A world can never spawn an old handle again if and only if no slot has fallen behind a handle that
    * was handed out for it. */
  lemma NeverReissuesIffUpToDate(s: Site)
    requires SiteOk(s)
    ensures NeverReissues(s) <==> H.UpToDate(Arena(s))
  {
    hide W.Valid, H.UpToDate, H.Tracked, CallsAllowed, CalledAll, R.Allowed, ValidArenas, AfterAllocate, H.Run;
    SiteArenas(s);
    H.NeverReissuesIffUpToDate(Arena(s));
    if H.UpToDate(Arena(s)) {
      forall calls, kind: Kind | NoPlacement(calls) && CallsAllowed(s, calls)
        ensures W.SpawnEmpty(CalledAll(s, calls).world, kind).1 !in CalledAll(s, calls).issued
      {
        var ops := ArenaRunOf(s, calls);
        SpawnEmptyAllocates(CalledAll(s, calls).world, kind);
        assert !H.Reissues(H.Run(Arena(s), ops), kind);
      }
    } else {
      var ops, kind: Kind :| H.NoExact(ops) && H.Reissues(H.Run(Arena(s), ops), kind);
      var calls := WorldRunOf(s, ops);
      SpawnEmptyAllocates(CalledAll(s, calls).world, kind);
    }
  }

  // ---- migrations ----

  /** Both worlds after a migration; the destination has handed out one handle more, unless the
    * migration was refused at once. */
  ghost function Moved(src: Site, dst: Site, e: Entity, order: seq<W.ComponentId>): (Site, Site)
    requires W.Valid(src.world) && W.Valid(dst.world)
  {
    var (w, v, _) := Migration.Migrate(src.world, dst.world, e, order);
    if Migration.Refusal(src.world, dst.world, e).Some? then (src, dst)
    else
      Migration.RefusalMeans(src.world, dst.world, e);
      (Site(w, src.issued), Site(v, dst.issued + [W.SpawnExact(dst.world, src.world.index[e].0, e).1]))
  }

  lemma MoveIsArenaOps(src: Site, dst: Site, e: Entity, order: seq<W.ComponentId>)
    requires SiteOk(src) && SiteOk(dst) && Migration.Refusal(src.world, dst.world, e).None?
    ensures var (src', dst') := Moved(src, dst, e, order);
            && W.Valid(src'.world) && W.Valid(dst'.world)
            && Arena(src') == H.Step(Arena(src), H.Dealloc(e))
            && Arena(dst') == H.Step(Arena(dst), Placing(dst.world.types, e.kind, e))
  {
    hide W.StoragesOk, W.RowsAgree, W.SyntheticOk, W.StorageOk, W.Despawn, Migration.Collected, Migration.WriteAll,
         H.Tracked, IsAlive, ValidArenas, W.Seated;
    Migration.EntitiesAreConserved(src.world, dst.world, e, order);
    Migration.RefusalMeans(src.world, dst.world, e);
    var a := src.world.index[e].0;
    DespawnDeallocates(src.world, e);
    Migration.Seating(dst.world, a, e);
    var (seated, h) := W.SpawnExact(dst.world, a, e);
    Migration.WriteAllKeeps(seated, h, Migration.Collected(src.world, e, order));
    SpawnExactPlaces(dst.world, a, e);
  }

  lemma SpawnExactPlaces(w: W.World, a: W.ArchId, e: Entity)
    requires W.Valid(w) && a in w.archetypes
    ensures var (w', h) := W.SpawnExact(w, a, e); var kind := w.archetypes[a].def.kind;
            forall issued: seq<Entity> ::
              H.Step(H.State(w.types, issued), Placing(w.types, kind, e)) == H.State(w'.types, issued + [h])
  {
    hide W.StoragesOk, W.RowsAgree, W.SyntheticOk, ValidArenas;
  }

  lemma MovedIsOk(src: Site, dst: Site, e: Entity, order: seq<W.ComponentId>)
    requires SiteOk(src) && SiteOk(dst)
    ensures SiteOk(Moved(src, dst, e, order).0) && SiteOk(Moved(src, dst, e, order).1)
  {
    hide W.Valid, H.Tracked, Moved, H.Step;
    if Migration.Refusal(src.world, dst.world, e).None? {
      SiteArenas(src);
      SiteArenas(dst);
      MoveIsArenaOps(src, dst, e, order);
      H.StepTracked(Arena(src), H.Dealloc(e));
      H.StepTracked(Arena(dst), Placing(dst.world.types, e.kind, e));
    } else {
      RefusedMove(src, dst, e, order);
    }
  }

  lemma RefusedMove(src: Site, dst: Site, e: Entity, order: seq<W.ComponentId>)
    requires W.Valid(src.world) && W.Valid(dst.world) && Migration.Refusal(src.world, dst.world, e).Some?
    ensures Moved(src, dst, e, order) == (src, dst)
  {
    hide W.Valid;
  }

  /** The slot of e is occupied over there, or has not gone past the generation of e. */
  predicate Forward(dst: Site, e: Entity) {
    var a := Space(dst.world.types, e.kind);
    SlotTaken(a, e.slot) || e.generation >= H.Generation(a, e.slot)
  }

  /** A migration leaves the destination unable to spawn an old handle exactly when it does not turn a
    * slot back; the source it never endangers. */
  lemma MoveIsSafeIffForward(src: Site, dst: Site, e: Entity, order: seq<W.ComponentId>)
    requires SiteOk(src) && SiteOk(dst) && Migration.Refusal(src.world, dst.world, e).None?
    requires NeverReissues(dst)
    ensures SiteOk(Moved(src, dst, e, order).0) && SiteOk(Moved(src, dst, e, order).1)
    ensures NeverReissues(src) ==> NeverReissues(Moved(src, dst, e, order).0)
    ensures NeverReissues(Moved(src, dst, e, order).1) <==> Forward(dst, e)
  {
    hide W.Valid, H.Tracked, H.UpToDate, Moved, NeverReissues, H.Generation, SlotTaken;
    SiteArenas(src);
    SiteArenas(dst);
    MovedIsOk(src, dst, e, order);
    MoveIsArenaOps(src, dst, e, order);
    var (src', dst') := Moved(src, dst, e, order);
    NeverReissuesIffUpToDate(src);
    NeverReissuesIffUpToDate(dst);
    NeverReissuesIffUpToDate(src');
    NeverReissuesIffUpToDate(dst');
    H.StepTracked(Arena(src), H.Dealloc(e));
    H.StepTracked(Arena(dst), Placing(dst.world.types, e.kind, e));
    if AfterExact(dst.world.types, e.kind, e).Some? {
      H.NeverReissuesIffUpToDate(Arena(dst));
      H.PlacementIsSafeIffForward(Arena(dst), e.kind, e);
      H.NeverReissuesIffUpToDate(Arena(dst'));
    }
  }

  /** The call does not place a handle of its kind in a slot that has gone past it. */
  predicate CallForward(s: Site, call: R.Call)
    requires R.Allowed(s.world, call)
  {
    call.DoSpawnExact? && s.world.archetypes[call.a].def.kind == call.e.kind ==> Forward(s, call.e)
  }

  /** Of all calls on one world, exactly the placements that turn a slot back are unsafe. */
  lemma CallIsSafeIffForward(s: Site, call: R.Call)
    requires SiteOk(s) && NeverReissues(s) && R.Allowed(s.world, call)
    ensures SiteOk(Called(s, call))
    ensures NeverReissues(Called(s, call)) <==> CallForward(s, call)
  {
    hide W.Valid, H.Tracked, H.UpToDate, Called, NeverReissues, H.Generation, SlotTaken, H.Step;
    SiteArenas(s);
    CalledIsOk(s, call);
    CallIsArenaOp(s, call);
    NeverReissuesIffUpToDate(s);
    NeverReissuesIffUpToDate(Called(s, call));
    match ArenaOp(s.world, call)
    case Some(op) =>
      H.StepTracked(Arena(s), op);
      if op.Exact? {
        H.NeverReissuesIffUpToDate(Arena(s));
        H.PlacementIsSafeIffForward(Arena(s), op.kind, op.e);
        H.NeverReissuesIffUpToDate(Arena(Called(s, call)));
      }
    case None =>
  }

  // ---- runs of many worlds ----

  datatype Event = CallIn(id: nat, call: R.Call) | Move(from: nat, to: nat, e: Entity, order: seq<W.ComponentId>)

  ghost predicate FamilyOk(f: map<nat, Site>) {
    forall id | id in f :: SiteOk(f[id])
  }

  ghost predicate EventAllowed(f: map<nat, Site>, event: Event) {
    match event
    case CallIn(id, call) => id in f && R.Allowed(f[id].world, call)
    case Move(from, to, _, _) => from in f && to in f && from != to
  }

  /** No exact placement of the event turns a slot back. */
  ghost predicate EventForward(f: map<nat, Site>, event: Event)
    requires FamilyOk(f) && EventAllowed(f, event)
  {
    hide W.Valid, H.Tracked, R.Allowed;
    match event
    case CallIn(id, call) => CallForward(f[id], call)
    case Move(from, to, e, _) => Migration.Refusal(f[from].world, f[to].world, e).None? ==> Forward(f[to], e)
  }

  ghost function Happens(f: map<nat, Site>, event: Event): map<nat, Site>
    requires FamilyOk(f) && EventAllowed(f, event)
  {
    hide W.Valid, H.Tracked, R.Allowed, Called, Moved;
    match event
    case CallIn(id, call) => f[id := Called(f[id], call)]
    case Move(from, to, e, order) =>
      var (src, dst) := Moved(f[from], f[to], e, order);
      f[from := src][to := dst]
  }

  lemma EventKeepsOk(f: map<nat, Site>, event: Event)
    requires FamilyOk(f) && EventAllowed(f, event)
    ensures FamilyOk(Happens(f, event))
  {
    hide SiteOk, Called, Moved, R.Allowed;
    match event
    case CallIn(id, call) => CalledIsOk(f[id], call);
    case Move(from, to, e, order) => MovedIsOk(f[from], f[to], e, order);
  }

  ghost predicate ForwardRun(f: map<nat, Site>, events: seq<Event>)
    requires FamilyOk(f)
    decreases |events|
  {
    events == []
    || (EventAllowed(f, events[0]) && EventForward(f, events[0])
        && (EventKeepsOk(f, events[0]); ForwardRun(Happens(f, events[0]), events[1..])))
  }

  ghost function HappensAll(f: map<nat, Site>, events: seq<Event>): (r: map<nat, Site>)
    requires FamilyOk(f) && ForwardRun(f, events)
    ensures FamilyOk(r)
    decreases |events|
  {
    if events == [] then f
    else EventKeepsOk(f, events[0]); HappensAll(Happens(f, events[0]), events[1..])
  }

  ghost predicate AllNeverReissue(f: map<nat, Site>)
    requires FamilyOk(f)
  {
    forall id | id in f :: NeverReissues(f[id])
  }

  lemma ForwardEventIsSafe(f: map<nat, Site>, event: Event)
    requires FamilyOk(f) && AllNeverReissue(f) && EventAllowed(f, event) && EventForward(f, event)
    ensures FamilyOk(Happens(f, event)) && AllNeverReissue(Happens(f, event))
  {
    hide W.Valid, H.Tracked, Called, Moved, R.Allowed, NeverReissues, Forward, CallForward, Migration.Refusal;
    EventKeepsOk(f, event);
    match event
    case CallIn(id, call) => CallIsSafeIffForward(f[id], call);
    case Move(from, to, e, order) =>
      if Migration.Refusal(f[from].world, f[to].world, e).None? {
        MoveIsSafeIffForward(f[from], f[to], e, order);
      } else {
        RefusedMove(f[from], f[to], e, order);
      }
  }

  /** Over any run of many worlds in which no exact placement and no migration turns a slot back, no world
    * ever spawns a handle that it handed out before. */
  lemma {:induction false} ForwardRunsNeverReissue(f: map<nat, Site>, events: seq<Event>)
    requires FamilyOk(f) && AllNeverReissue(f) && ForwardRun(f, events)
    ensures AllNeverReissue(HappensAll(f, events))
    decreases |events|
  {
    hide FamilyOk, AllNeverReissue, EventAllowed, EventForward, Happens;
    if events != [] {
      EventKeepsOk(f, events[0]);
      ForwardEventIsSafe(f, events[0]);
      ForwardRunsNeverReissue(Happens(f, events[0]), events[1..]);
    }
  }

  /** Every world starts like this. */
  lemma NewSiteIsSafe()
    ensures SiteOk(Site(R.Start(), [])) && NeverReissues(Site(R.Start(), []))
  {
    H.StartTracked();
    hide W.Valid, H.Tracked, H.UpToDate, NeverReissues;
    NeverReissuesIffUpToDate(Site(R.Start(), []));
  }
}
