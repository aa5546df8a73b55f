/** Queries over a world, from query.rs. */
module Queries {
  import opened Wrappers
  import opened Entities
  import opened Sorting
  import R = WorldRefinement
  import W = Worlds

  type ComponentId = W.ComponentId
  type ArchId = W.ArchId

  /** The shape of a query: `&T`, `Option<&T>`, `Entity`, `()` and tuples of shapes. */
  datatype Data = Ref(cid: ComponentId) | Opt(cid: ComponentId) | Handle | Unit | Tuple(parts: seq<Data>)

  datatype Item =
    | Value(payload: W.Payload)
    | Maybe(value: Option<W.Payload>)
    | Of(e: Entity)
    | Nothing
    | Items(items: seq<Item>)

  /** The component sets that a tuple of `With` and `Without` filters names. */
  datatype Filter = Filter(with: set<ComponentId>, without: set<ComponentId>)

  datatype QueryError = EntityNotFound | WrongEntity | Empty | NonUnique

  function Required(d: Data): set<ComponentId> {
    match d
    case Ref(cid) => {cid}
    case Tuple(parts) => RequiredAll(parts)
    case _ => {}
  }

  function RequiredAll(parts: seq<Data>): set<ComponentId> {
    if parts == [] then {} else Required(parts[0]) + RequiredAll(parts[1..])
  }

  function ReadColumn(st: W.Storage, cid: ComponentId, idx: nat): Option<W.Payload>
    requires cid in st.columns
  {
    var c := st.columns[cid];
    if c.Keyed? && idx >= |st.slots| then None
    else W.ReadAt(c, idx, if idx < |st.slots| then st.slots[idx].slot else 0)
  }

  /** None skips the row. */
  function Fetch(d: Data, st: W.Storage, idx: nat): Option<Item>
    decreases d
  {
    match d
    case Ref(cid) =>
      if cid !in st.columns then None
      else (match ReadColumn(st, cid, idx) case Some(p) => Some(Value(p)) case None => None)
    case Opt(cid) =>
      if cid !in st.columns then Some(Maybe(None)) else Some(Maybe(ReadColumn(st, cid, idx)))
    case Handle => if idx < |st.slots| then Some(Of(st.slots[idx])) else None
    case Unit => Some(Nothing)
    case Tuple(parts) => (match FetchAll(parts, st, idx) case Some(items) => Some(Items(items)) case None => None)
  }

  function FetchAll(parts: seq<Data>, st: W.Storage, idx: nat): Option<seq<Item>>
    decreases parts
  {
    if parts == [] then Some([])
    else
      match (Fetch(parts[0], st, idx), FetchAll(parts[1..], st, idx))
      case (Some(item), Some(items)) => Some([item] + items)
      case _ => None
  }

  predicate Present(st: W.Storage, cid: ComponentId) {
    cid in st.def.components || cid in st.columns
  }

  predicate Matches(st: W.Storage, d: Data, f: Filter) {
    && (forall cid | cid in Required(d) :: Present(st, cid))
    && (forall cid | cid in f.with :: Present(st, cid))
    && (forall cid | cid in f.without :: !Present(st, cid))
  }

  function Matching(w: W.World, d: Data, f: Filter): set<ArchId> {
    set a | a in w.archetypes && Matches(w.archetypes[a], d, f)
  }

  // ---- what an iteration produces ----

  function RowsFrom(d: Data, st: W.Storage, idx: nat): seq<(Entity, Item)>
    decreases |st.slots| - idx
  {
    if idx >= |st.slots| then []
    else (match Fetch(d, st, idx) case Some(item) => [(st.slots[idx], item)] case None => [])
         + RowsFrom(d, st, idx + 1)
  }

  /** The rows from row idx of the first archetype on. */
  function ProducedFrom(w: W.World, d: Data, archs: seq<ArchId>, idx: nat): seq<(Entity, Item)>
    requires forall a | a in archs :: a in w.archetypes
  {
    if archs == [] then []
    else RowsFrom(d, w.archetypes[archs[0]], idx) + ProducedFrom(w, d, archs[1..], 0)
  }

  function Lookup(w: W.World, d: Data, f: Filter, e: Entity): Result<Item, QueryError> {
    if e !in w.index then Err(EntityNotFound)
    else
      var (a, idx) := w.index[e];
      if a !in Matching(w, d, f) then Err(WrongEntity)
      else (match Fetch(d, w.archetypes[a], idx) case Some(item) => Ok(item) case None => Err(WrongEntity))
  }

  // ---- iteration agrees with lookup ----

  lemma {:induction false} RowsFromHas(d: Data, st: W.Storage, idx: nat, p: (Entity, Item))
    ensures p in RowsFrom(d, st, idx) <==>
            exists i :: idx <= i < |st.slots| && st.slots[i] == p.0 && Fetch(d, st, i) == Some(p.1)
    decreases |st.slots| - idx
  {
    if idx < |st.slots| {
      RowsFromHas(d, st, idx + 1, p);
    }
  }

  lemma {:induction false} ProducedHas(w: W.World, d: Data, archs: seq<ArchId>, p: (Entity, Item))
    requires forall a | a in archs :: a in w.archetypes
    ensures p in ProducedFrom(w, d, archs, 0) <==> exists a :: a in archs && p in RowsFrom(d, w.archetypes[a], 0)
    decreases |archs|
  {
    if archs != [] {
      ProducedHas(w, d, archs[1..], p);
      assert forall a :: a in archs <==> a == archs[0] || a in archs[1..];
    }
  }

  /** An entity and its item are produced exactly when looking the entity up gives that item. */
  lemma ProducedIffLookup(w: W.World, d: Data, f: Filter, archs: seq<ArchId>, e: Entity, item: Item)
    requires W.Valid(w) && (forall a :: a in archs <==> a in Matching(w, d, f))
    ensures (e, item) in ProducedFrom(w, d, archs, 0) <==> Lookup(w, d, f, e) == Ok(item)
  {
    hide W.LiveIndexed, W.StoragesOk, W.SyntheticOk, Fetch, Matches;
    ProducedHas(w, d, archs, (e, item));
    forall a | a in archs
      ensures (e, item) in RowsFrom(d, w.archetypes[a], 0) <==>
              exists i :: 0 <= i < |w.archetypes[a].slots| && w.archetypes[a].slots[i] == e
                          && Fetch(d, w.archetypes[a], i) == Some(item)
    {
      RowsFromHas(d, w.archetypes[a], 0, (e, item));
    }
    if e in w.index {
      W.RowIsThere(w, e);
    }
    hide RowsFrom, ProducedFrom;
  }

  /** Where an entity stands in the order of iteration: by archetype id, then by row. */
  ghost predicate InOrder(w: W.World, d: Entity, e: Entity) {
    d in w.index && e in w.index
    && (w.index[d].0 < w.index[e].0 || (w.index[d].0 == w.index[e].0 && w.index[d].1 < w.index[e].1))
  }

  ghost predicate Ordered(w: W.World, s: seq<(Entity, Item)>) {
    forall i, j | 0 <= i < j < |s| :: InOrder(w, s[i].0, s[j].0)
  }

  lemma OrderedConcat(w: W.World, s: seq<(Entity, Item)>, t: seq<(Entity, Item)>)
    requires Ordered(w, s) && Ordered(w, t)
    requires forall p, q | p in s && q in t :: InOrder(w, p.0, q.0)
    ensures Ordered(w, s + t)
  {
    forall i, j | 0 <= i < j < |s + t|
      ensures InOrder(w, (s + t)[i].0, (s + t)[j].0)
    {
      assert i < |s| ==> (s + t)[i] in s;
      assert j >= |s| ==> (s + t)[j] == t[j - |s|] && t[j - |s|] in t;
      assert i >= |s| ==> (s + t)[i] == t[i - |s|];
    }
  }

  lemma {:induction false} RowsInOrder(w: W.World, d: Data, a: ArchId, idx: nat)
    requires W.RowsAgree(w) && a in w.archetypes
    ensures var s := RowsFrom(d, w.archetypes[a], idx);
            && (forall p | p in s :: p.0 in w.index && w.index[p.0].0 == a && w.index[p.0].1 >= idx)
            && Ordered(w, s)
    decreases |w.archetypes[a].slots| - idx
  {
    hide Fetch;
    var st := w.archetypes[a];
    if idx < |st.slots| {
      RowsInOrder(w, d, a, idx + 1);
      if Fetch(d, st, idx).Some? {
        OrderedConcat(w, [(st.slots[idx], Fetch(d, st, idx).value)], RowsFrom(d, st, idx + 1));
      }
    }
  }

  lemma {:induction false} ProducedOrdered(w: W.World, d: Data, archs: seq<ArchId>)
    requires W.RowsAgree(w) && (forall a | a in archs :: a in w.archetypes) && Ascending(archs)
    ensures var s := ProducedFrom(w, d, archs, 0);
            (forall p | p in s :: p.0 in w.index && w.index[p.0].0 in archs) && Ordered(w, s)
    decreases |archs|
  {
    hide W.RowsAgree, RowsFrom;
    if archs != [] {
      RowsInOrder(w, d, archs[0], 0);
      ProducedOrdered(w, d, archs[1..]);
      var head, tail := RowsFrom(d, w.archetypes[archs[0]], 0), ProducedFrom(w, d, archs[1..], 0);
      forall p, q | p in head && q in tail
        ensures InOrder(w, p.0, q.0)
      {
        var k :| 0 <= k < |archs[1..]| && archs[1..][k] == w.index[q.0].0;
        assert archs[k + 1] == w.index[q.0].0;
      }
      OrderedConcat(w, head, tail);
    }
  }

  /** Iteration goes by ascending archetype id and then by row, whatever order the hash map had; so no
    * entity comes twice. */
  lemma IterationOrder(w: W.World, d: Data, archs: seq<ArchId>)
    requires W.Valid(w) && (forall a | a in archs :: a in w.archetypes) && Ascending(archs)
    ensures var s := ProducedFrom(w, d, archs, 0);
            forall i, j | 0 <= i < j < |s| :: InOrder(w, s[i].0, s[j].0) && s[i].0 != s[j].0
  {
    hide W.RowsAgree, W.LiveIndexed, W.StoragesOk, W.SyntheticOk, ProducedFrom;
    ProducedOrdered(w, d, archs);
  }

  // ---- what an item says about the entity ----

  /** The item that point lookups of the world give. */
  function Meaning(w: W.World, d: Data, e: Entity): Option<Item>
    decreases d
  {
    match d
    case Ref(cid) => (match W.Get(w, e, cid) case Some(p) => Some(Value(p)) case None => None)
    case Opt(cid) => Some(Maybe(W.Get(w, e, cid)))
    case Handle => Some(Of(e))
    case Unit => Some(Nothing)
    case Tuple(parts) => (match MeaningAll(w, parts, e) case Some(items) => Some(Items(items)) case None => None)
  }

  function MeaningAll(w: W.World, parts: seq<Data>, e: Entity): Option<seq<Item>>
    decreases parts
  {
    if parts == [] then Some([])
    else
      match (Meaning(w, parts[0], e), MeaningAll(w, parts[1..], e))
      case (Some(item), Some(items)) => Some([item] + items)
      case _ => None
  }

  lemma ReadIsGet(w: W.World, e: Entity, cid: ComponentId)
    requires W.HasRow(w, e) && IsAlive(w.types, e)
    ensures var st := w.archetypes[w.index[e].0];
            (if cid in st.columns then ReadColumn(st, cid, w.index[e].1) else None) == W.Get(w, e, cid)
  {
  }

  /** Fetching a row reads the same values as asking the world for the entity's components. */
  lemma {:induction false} FetchIsMeaning(w: W.World, d: Data, e: Entity)
    requires W.HasRow(w, e) && IsAlive(w.types, e)
    ensures Fetch(d, w.archetypes[w.index[e].0], w.index[e].1) == Meaning(w, d, e)
    decreases d
  {
    hide W.Get, ReadColumn, W.StorageOk, IsAlive;
    match d
    case Ref(cid) => ReadIsGet(w, e, cid);
    case Opt(cid) => ReadIsGet(w, e, cid);
    case Tuple(parts) => FetchAllIsMeaning(w, parts, e);
    case _ =>
  }

  lemma {:induction false} FetchAllIsMeaning(w: W.World, parts: seq<Data>, e: Entity)
    requires W.HasRow(w, e) && IsAlive(w.types, e)
    ensures FetchAll(parts, w.archetypes[w.index[e].0], w.index[e].1) == MeaningAll(w, parts, e)
    decreases parts
  {
    hide W.Get, ReadColumn, W.StorageOk, IsAlive;
    if parts != [] {
      FetchIsMeaning(w, parts[0], e);
      FetchAllIsMeaning(w, parts[1..], e);
    }
  }

  /** Looking an entity up succeeds exactly when it lives, its archetype passes the filters and the
    * world holds every required component; then the item is what the world holds. */
  lemma LookupMeans(w: W.World, d: Data, f: Filter, e: Entity)
    requires W.Valid(w)
    ensures Lookup(w, d, f, e) ==
            if !IsAlive(w.types, e) then Err(EntityNotFound)
            else if w.index[e].0 !in Matching(w, d, f) || Meaning(w, d, e).None? then Err(WrongEntity)
            else Ok(Meaning(w, d, e).value)
  {
    hide W.StoragesOk, W.SyntheticOk, W.RowsAgree, Fetch, Meaning, Matches;
    if e in w.index {
      W.LiveHasRow(w, e);
      FetchIsMeaning(w, d, e);
    }
  }

  // ---- what a query selects, in terms of the plain map ----

  /** The component belongs to the entity's archetype, or a column was created for it there. */
  predicate Carries(p: R.Plain, e: Entity, cid: ComponentId) {
    && e in p.rows && p.rows[e].arch in p.defs && p.rows[e].arch in p.created
    && (cid in p.defs[p.rows[e].arch].components || cid in p.created[p.rows[e].arch])
  }

  /** The item is what the shape asks of the entity. */
  ghost predicate Shows(p: R.Plain, e: Entity, d: Data, item: Item)
    decreases d
  {
    match d
    case Ref(cid) => item.Value? && R.PlainGet(p, e, cid) == Some(item.payload)
    case Opt(cid) => item == Maybe(R.PlainGet(p, e, cid))
    case Handle => item == Of(e)
    case Unit => item == Nothing
    case Tuple(parts) =>
      item.Items? && |item.items| == |parts| && forall i | 0 <= i < |parts| :: Shows(p, e, parts[i], item.items[i])
  }

  ghost predicate Passes(p: R.Plain, f: Filter, e: Entity) {
    && (forall cid | cid in f.with :: Carries(p, e, cid))
    && (forall cid | cid in f.without :: !Carries(p, e, cid))
  }

  /** The entity lives and passes the filters, and the item is what the query asks of it. */
  ghost predicate Selected(p: R.Plain, d: Data, f: Filter, e: Entity, item: Item) {
    e in p.rows && Passes(p, f, e) && Shows(p, e, d, item)
  }

  /** The shape asks for a value of the component. */
  ghost predicate Needs(d: Data, cid: ComponentId)
    decreases d
  {
    match d
    case Ref(c) => c == cid
    case Tuple(parts) => exists i | 0 <= i < |parts| :: Needs(parts[i], cid)
    case _ => false
  }

  lemma {:induction false} NeedsIffRequired(d: Data, cid: ComponentId)
    ensures Needs(d, cid) <==> cid in Required(d)
    decreases d
  {
    match d
    case Tuple(parts) => NeedsIffRequiredAll(parts, cid);
    case _ =>
  }

  lemma {:induction false} NeedsIffRequiredAll(parts: seq<Data>, cid: ComponentId)
    ensures (exists i | 0 <= i < |parts| :: Needs(parts[i], cid)) <==> cid in RequiredAll(parts)
    decreases parts
  {
    if parts != [] {
      NeedsIffRequired(parts[0], cid);
      NeedsIffRequiredAll(parts[1..], cid);
      if i :| 0 <= i < |parts| && Needs(parts[i], cid) {
        assert i > 0 ==> Needs(parts[1..][i - 1], cid);
      }
      if i :| 0 <= i < |parts[1..]| && Needs(parts[1..][i], cid) {
        assert Needs(parts[i + 1], cid);
      }
    }
  }

  lemma {:induction false} MeaningShows(w: W.World, d: Data, e: Entity, item: Item)
    requires W.Valid(w)
    ensures Meaning(w, d, e) == Some(item) <==> Shows(R.Abs(w), e, d, item)
    decreases d
  {
    hide W.LiveIndexed, W.StoragesOk, W.SyntheticOk, W.RowsAgree, W.Get, R.PlainGet, R.Abs;
    match d
    case Ref(cid) => R.GetRefines(w, e, cid);
    case Opt(cid) => R.GetRefines(w, e, cid);
    case Tuple(parts) =>
      if item.Items? {
        MeaningAllShows(w, parts, e, item.items);
      }
    case _ =>
  }

  lemma {:induction false} MeaningAllShows(w: W.World, parts: seq<Data>, e: Entity, items: seq<Item>)
    requires W.Valid(w)
    ensures MeaningAll(w, parts, e) == Some(items) <==>
            |items| == |parts| && forall i | 0 <= i < |parts| :: Shows(R.Abs(w), e, parts[i], items[i])
    decreases parts
  {
    hide W.LiveIndexed, W.StoragesOk, W.SyntheticOk, W.RowsAgree, W.Get, R.PlainGet, R.Abs, Shows;
    if parts != [] && items != [] {
      MeaningShows(w, parts[0], e, items[0]);
      MeaningAllShows(w, parts[1..], e, items[1..]);
      var p := R.Abs(w);
      if |items| == |parts| {
        assert (forall i | 0 <= i < |parts| :: Shows(p, e, parts[i], items[i])) <==>
               Shows(p, e, parts[0], items[0])
               && forall i | 0 <= i < |parts[1..]| :: Shows(p, e, parts[1..][i], items[1..][i]) by {
          assert forall i | 0 < i < |parts| :: parts[1..][i - 1] == parts[i] && items[1..][i - 1] == items[i];
        }
      }
      assert items == [items[0]] + items[1..];
    }
  }

  lemma CarriesIffPresent(w: W.World, e: Entity, cid: ComponentId)
    requires W.Valid(w) && e in w.index
    ensures w.index[e].0 in w.archetypes && (Carries(R.Abs(w), e, cid) <==> Present(w.archetypes[w.index[e].0], cid))
  {
    hide R.Values, W.LiveIndexed, W.StoragesOk, W.SyntheticOk;
  }

  /** A value can only be there when the entity carries the component. */
  lemma {:induction false} ShownIsCarried(w: W.World, e: Entity, d: Data, item: Item, cid: ComponentId)
    requires W.Valid(w) && Shows(R.Abs(w), e, d, item) && Needs(d, cid)
    ensures Carries(R.Abs(w), e, cid)
    decreases d
  {
    hide W.LiveIndexed, W.StoragesOk, W.SyntheticOk, W.RowsAgree, R.Abs, W.Get;
    match d
    case Ref(_) => ValueIsCarried(w, e, cid);
    case Tuple(parts) =>
      var i :| 0 <= i < |parts| && Needs(parts[i], cid);
      ShownIsCarried(w, e, parts[i], item.items[i], cid);
  }

  lemma ValueIsCarried(w: W.World, e: Entity, cid: ComponentId)
    requires W.Valid(w) && R.PlainGet(R.Abs(w), e, cid).Some?
    ensures e in w.index && Carries(R.Abs(w), e, cid)
  {
    hide R.Values, W.LiveIndexed, W.StoragesOk, W.SyntheticOk;
    R.GetRefines(w, e, cid);
    CarriesIffPresent(w, e, cid);
  }

  lemma RowHasArchetype(w: W.World, e: Entity)
    requires W.Valid(w) && e in w.index
    ensures w.index[e].0 in w.archetypes
  {
    hide W.LiveIndexed, W.StoragesOk, W.SyntheticOk;
  }

  lemma MatchesIff(w: W.World, d: Data, f: Filter, e: Entity)
    requires W.Valid(w) && e in w.index
    ensures w.index[e].0 in w.archetypes
    ensures Matches(w.archetypes[w.index[e].0], d, f) <==>
            Passes(R.Abs(w), f, e) && forall cid | Needs(d, cid) :: Carries(R.Abs(w), e, cid)
  {
    hide W.LiveIndexed, W.StoragesOk, W.SyntheticOk, W.RowsAgree, R.Abs, Carries, Needs, Required, Present;
    RowHasArchetype(w, e);
    forall cid
      ensures w.index[e].0 in w.archetypes
      ensures Carries(R.Abs(w), e, cid) <==> Present(w.archetypes[w.index[e].0], cid)
      ensures Needs(d, cid) <==> cid in Required(d)
    {
      CarriesIffPresent(w, e, cid);
      NeedsIffRequired(d, cid);
    }
  }

  lemma ContainedIs(w: W.World, d: Data, f: Filter, e: Entity)
    requires W.Valid(w)
    ensures e in w.index && w.index[e].0 in w.archetypes && Matches(w.archetypes[w.index[e].0], d, f) <==>
            && e in R.Abs(w).rows && Passes(R.Abs(w), f, e)
            && forall cid | Needs(d, cid) :: Carries(R.Abs(w), e, cid)
  {
    hide W.LiveIndexed, W.StoragesOk, W.SyntheticOk, R.Values, Matches, Passes, Carries, Needs;
    if e in w.index {
      MatchesIff(w, d, f, e);
    }
  }

  /** Looking an entity up finds the item that the query selects, and says why there is none. */
  lemma LookupSelects(w: W.World, d: Data, f: Filter, e: Entity)
    requires W.Valid(w)
    ensures forall item :: Lookup(w, d, f, e) == Ok(item) <==> Selected(R.Abs(w), d, f, e, item)
    ensures Lookup(w, d, f, e) == Err(EntityNotFound) <==> e !in R.Abs(w).rows
    ensures Lookup(w, d, f, e) == Err(WrongEntity) <==>
            e in R.Abs(w).rows && forall item :: !Selected(R.Abs(w), d, f, e, item)
  {
    hide W.StoragesOk, W.SyntheticOk, W.RowsAgree, W.LiveIndexed, Fetch, Meaning, Matches, Shows, Passes, Carries,
         Needs, R.Values;
    LookupMeans(w, d, f, e);
    R.ContainsRefines(w, e);
    if e in w.index {
      MatchesIff(w, d, f, e);
      forall item
        ensures Meaning(w, d, e) == Some(item) <==> Shows(R.Abs(w), e, d, item)
        ensures Shows(R.Abs(w), e, d, item) ==> forall cid | Needs(d, cid) :: Carries(R.Abs(w), e, cid)
      {
        MeaningShows(w, d, e, item);
        if Shows(R.Abs(w), e, d, item) {
          forall cid | Needs(d, cid)
            ensures Carries(R.Abs(w), e, cid)
          {
            ShownIsCarried(w, e, d, item, cid);
          }
        }
      }
    }
  }

  /** An iteration produces exactly what the query selects. */
  lemma ProducedIffSelected(w: W.World, d: Data, f: Filter, archs: seq<ArchId>, e: Entity, item: Item)
    requires W.Valid(w) && (forall a :: a in archs <==> a in Matching(w, d, f))
    ensures (e, item) in ProducedFrom(w, d, archs, 0) <==> Selected(R.Abs(w), d, f, e, item)
  {
    hide W.LiveIndexed, W.StoragesOk, W.SyntheticOk, W.RowsAgree, Matching, Selected, ProducedFrom, Lookup, R.Abs;
    ProducedIffLookup(w, d, f, archs, e, item);
    LookupSelects(w, d, f, e);
  }

  /** No value of an excluded component comes with a selected entity; and excluding one more component
    * takes away exactly the entities that carry it. */
  lemma ExcludingRemoves(w: W.World, d: Data, f: Filter, cid: ComponentId, e: Entity, item: Item)
    requires W.Valid(w)
    ensures Selected(R.Abs(w), d, f, e, item) && cid in f.without ==> W.Get(w, e, cid) == None
    ensures Selected(R.Abs(w), d, f.(without := f.without + {cid}), e, item) <==>
            Selected(R.Abs(w), d, f, e, item) && !Carries(R.Abs(w), e, cid)
  {
    hide W.LiveIndexed, W.StoragesOk, W.SyntheticOk, W.RowsAgree, W.Get, Shows, Carries, R.Abs;
    R.GetRefines(w, e, cid);
    if R.PlainGet(R.Abs(w), e, cid).Some? {
      ValueIsCarried(w, e, cid);
    }
  }

  // ---- the query object ----

  /** The cursors of `Iter`. */
  class Iter {
    const world: W.World
    const data: Data
    const matched: seq<ArchId>
    var archCursor: nat
    var indexCursor: nat

    ghost predicate Valid()
      reads this
    {
      archCursor <= |matched| && forall a | a in matched :: a in world.archetypes
    }

    ghost function Remaining(): seq<(Entity, Item)>
      reads this
      requires Valid()
    {
      ProducedFrom(world, data, matched[archCursor..], indexCursor)
    }

    constructor (world: W.World, data: Data, matched: seq<ArchId>)
      requires forall a | a in matched :: a in world.archetypes
      ensures Valid() && Remaining() == ProducedFrom(world, data, matched, 0)
      ensures this.world == world && this.data == data && this.matched == matched
    {
      this.world, this.data, this.matched := world, data, matched;
      archCursor, indexCursor := 0, 0;
      new;
      assert matched[0..] == matched;
    }

    method Next() returns (r: Option<Item>)
      requires Valid()
      modifies this
      ensures Valid()
      ensures r.None? <==> old(Remaining()) == []
      ensures r.Some? ==> r.value == old(Remaining())[0].1 && Remaining() == old(Remaining())[1..]
      ensures r.None? ==> Remaining() == []
    {
      while archCursor < |matched|
        invariant Valid() && Remaining() == old(Remaining())
        decreases |matched| - archCursor,
                  if archCursor < |matched| then |world.archetypes[matched[archCursor]].slots| - indexCursor else 0
      {
        var storage := world.archetypes[matched[archCursor]];
        assert matched[archCursor..][1..] == matched[archCursor + 1..];
        if indexCursor >= |storage.slots| {
          archCursor, indexCursor := archCursor + 1, 0;
        } else {
          var idx := indexCursor;
          indexCursor := indexCursor + 1;
          var item := Fetch(data, storage, idx);
          if item.Some? {
            return item;
          }
        }
      }
      return None;
    }
  }

  class Query {
    const world: W.World
    const data: Data
    const filter: Filter
    const matched: seq<ArchId>

    ghost predicate Valid() {
      && W.Valid(world)
      && Ascending(matched)
      && forall a :: a in matched <==> a in Matching(world, data, filter)
    }

    /** What a full iteration produces. */
    ghost function Produced(): seq<(Entity, Item)>
      requires Valid()
    {
      ProducedFrom(world, data, matched, 0)
    }

    constructor (world: W.World, data: Data, filter: Filter)
      requires W.Valid(world)
      ensures Valid() && this.world == world && this.data == data && this.filter == filter
    {
      var found: seq<ArchId> := [];
      var todo := world.archetypes.Keys;
      while todo != {}
        invariant todo <= world.archetypes.Keys
        invariant forall i, j | 0 <= i < j < |found| :: found[i] != found[j]
        invariant forall a :: a in found <==> a in Matching(world, data, filter) && a !in todo
        decreases |todo|
      {
        var arch :| arch in todo;
        if Matches(world.archetypes[arch], data, filter) {
          found := found + [arch];
        }
        todo := todo - {arch};
      }
      var sorted := SortAscending(found);
      this.world, this.data, this.filter, this.matched := world, data, filter, sorted;
    }

    method Iterate() returns (iter: Iter)
      requires Valid()
      ensures fresh(iter) && iter.Valid() && iter.Remaining() == Produced()
    {
      iter := new Iter(world, data, matched);
    }

    method Get(e: Entity) returns (r: Result<Item, QueryError>)
      requires Valid()
      ensures r == Lookup(world, data, filter, e)
      ensures forall item :: (e, item) in Produced() <==> r == Ok(item)
      ensures forall item :: r == Ok(item) <==> Selected(R.Abs(world), data, filter, e, item)
      ensures r == Err(EntityNotFound) <==> e !in R.Abs(world).rows
      ensures r.Err? ==> r.error in {EntityNotFound, WrongEntity}
    {
      LookupSelects(world, data, filter, e);
      forall item
        ensures (e, item) in Produced() <==> Lookup(world, data, filter, e) == Ok(item)
      {
        ProducedIffLookup(world, data, filter, matched, e, item);
      }
      if e !in world.index {
        return Err(EntityNotFound);
      }
      var (arch, idx) := world.index[e];
      if arch !in matched {
        return Err(WrongEntity);
      }
      var item := Fetch(data, world.archetypes[arch], idx);
      return if item.Some? then Ok(item.value) else Err(WrongEntity);
    }

    /** Succeeds exactly when the iteration produces one item. */
    method Single() returns (r: Result<Item, QueryError>)
      requires Valid()
      ensures r == if Produced() == [] then Err(Empty)
                   else if |Produced()| == 1 then Ok(Produced()[0].1) else Err(NonUnique)
    {
      var iter := Iterate();
      var first := iter.Next();
      if first.None? {
        return Err(Empty);
      }
      var second := iter.Next();
      return if second.Some? then Err(NonUnique) else Ok(first.value);
    }

    /** Whether the archetype matches; `get` may still refuse the entity, for want of a value. */
    predicate Contains(e: Entity)
      requires Valid()
      ensures Contains(e) <==> IsAlive(world.types, e) && Matches(world.archetypes[world.index[e].0], data, filter)
      ensures Contains(e) <==>
              && e in R.Abs(world).rows && Passes(R.Abs(world), filter, e)
              && forall cid | Needs(data, cid) :: Carries(R.Abs(world), e, cid)
      ensures Lookup(world, data, filter, e).Ok? ==> Contains(e)
      ensures Contains(e) && Lookup(world, data, filter, e).Err? ==> Meaning(world, data, e).None?
    {
      LookupMeans(world, data, filter, e);
      ContainedIs(world, data, filter, e);
      e in world.index && world.index[e].0 in matched
    }
  }
}
