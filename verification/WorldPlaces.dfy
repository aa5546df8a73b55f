/** Which slot, generation, row and archetype an entity gets; callers see these in handles and in the order
  * of iteration. */
module WorldPlaces {
  import opened Wrappers
  import opened Entities
  import W = Worlds

  // ---- slots and generations ----

  /** A handle has its kind in the top byte, its generation in the 24 bits below and its slot in the rest. */
  lemma PartsLayout()
    ensures FromParts(1, 0, 0) == 0x0100_0000_0000_0000 && FromParts(0xFF, 0, 0) == 0xFF00_0000_0000_0000
    ensures FromParts(0, 1, 0) == 0x0000_0001_0000_0000 && FromParts(0, 0xFF_FFFF, 0) == 0x00FF_FFFF_0000_0000
    ensures FromParts(0, 0, 1) == 1 && FromParts(0, 0, 0xFFFF_FFFF) == 0xFFFF_FFFF
  {
  }

  /** The slot that was freed last is used first, one generation on, and what waited before waits again. */
  lemma LastFreedIsReused(types: Arenas, e: Entity)
    requires ValidArenas(types) && IsAlive(types, e)
    ensures ValidArenas(AfterDeallocate(types, e))
    ensures var (types', d) := AfterAllocate(AfterDeallocate(types, e), e.kind);
            d == Entity(e.kind, e.generation + 1, e.slot)
            && Space(types', e.kind).free == Space(types, e.kind).free
  {
    DeallocateValid(types, e);
  }

  /** With no slot to reuse, the next slot comes into being, at generation 0. */
  lemma NewSlot(types: Arenas, kind: Kind)
    requires ValidArenas(types) && Space(types, kind).free == []
    ensures AfterAllocate(types, kind).1 == Entity(kind, 0, |Space(types, kind).slots|)
    ensures |Space(AfterAllocate(types, kind).0, kind).slots| == |Space(types, kind).slots| + 1
  {
  }

  /** Taking a slot off the stack moves the last one into its place. */
  lemma GapIsFilledByLast(front: seq<nat>, slot: nat, back: seq<nat>, last: nat)
    requires slot !in front
    ensures Without(front + [slot], slot) == front
    ensures Without(front + ([slot] + back + [last]), slot) == front + ([last] + back)
  {
    FirstPlace(front + [slot], slot, |front|);
    var free := front + ([slot] + back + [last]);
    FirstPlace(free, slot, |front|);
    assert free[|front| := last][..|free| - 1] == front + ([last] + back);
  }

  lemma FirstPlace(free: seq<nat>, slot: nat, at: nat)
    requires at < |free| && free[at] == slot && forall i | 0 <= i < at :: free[i] != slot
    ensures slot in free && IndexOf(free, slot) == at
  {
    var i := IndexOf(free, slot);
    assert free[i] == slot;
  }

  // ---- rows ----

  /** A new entity gets the row behind the others of its archetype; nobody moves. */
  lemma SpawnAppends(w: W.World, a: W.ArchId, d: Entity)
    requires W.Valid(w) && a in w.archetypes
    ensures var (w', e) := W.Spawn(w, a);
            && e in w'.index && w'.index[e] == (a, |w.archetypes[a].slots|)
            && (d in w.index && d != e ==> d in w'.index && w'.index[d] == w.index[d])
  {
    hide W.StoragesOk, W.RowsAgree, W.SyntheticOk, ValidArenas;
  }

  lemma SpawnExactAppends(w: W.World, a: W.ArchId, e: Entity, d: Entity)
    requires W.Valid(w) && a in w.archetypes
    ensures var (w', h) := W.SpawnExact(w, a, e);
            && h in w'.index && w'.index[h] == (a, |w.archetypes[a].slots|)
            && (d in w.index && d != h ==> d in w'.index && w'.index[d] == w.index[d])
  {
    hide W.StoragesOk, W.RowsAgree, W.SyntheticOk, ValidArenas;
  }

  /** The last row of the archetype takes the place of the row that goes; every other row stays. */
  lemma DespawnMovesLast(w: W.World, e: Entity, d: Entity)
    requires W.Valid(w) && e in w.index && d in w.index && d != e
    ensures w.index[e].0 in w.archetypes
    ensures var (w', _) := W.Despawn(w, e);
            var (a, idx) := w.index[e];
            && d in w'.index
            && w'.index[d] == if w.index[d] == (a, |w.archetypes[a].slots| - 1) then (a, idx) else w.index[d]
  {
    hide W.StoragesOk, W.SyntheticOk, ValidArenas, W.StorageOk;
    W.LiveHasRow(w, e);
    var (a, idx) := w.index[e];
    assert W.Removed(w.archetypes[a], idx).slots == W.SwapRemove(w.archetypes[a].slots, idx);
    hide W.Removed;
  }

  /** Writing and removing values moves nobody. */
  lemma ValuesMoveNobody(w: W.World, e: Entity, cid: W.ComponentId, payload: W.Payload, v: W.Value)
    requires W.Valid(w)
    ensures W.Insert(w, e, cid, payload).0.index == w.index && W.InsertAny(w, e, cid, v).0.index == w.index
    ensures W.Remove(w, e, cid).0.index == w.index
  {
    hide W.StoragesOk, W.RowsAgree, W.SyntheticOk, W.Written, W.Cleared;
    if IsAlive(w.types, e) {
      W.LiveHasRow(w, e);
    }
  }

  /** The empty archetype of a kind is made when it is first needed; these get the ids from 0x8000 on. */
  lemma SyntheticIds(w: W.World, kind: Kind)
    requires W.Valid(w)
    ensures var (w', e) := W.SpawnEmpty(w, kind);
            && e in w'.index && e.kind == kind
            && w'.index[e].0 == (if kind in w.empty then w.empty[kind] else 0x8000 + |w.empty|)
            && w'.empty == w.empty[kind := w'.index[e].0]
  {
    hide W.StoragesOk, W.RowsAgree, ValidArenas, W.Appended;
    W.WithEmptyArchetypeValid(w, kind);
    var w1 := W.WithEmptyArchetype(w, kind);
    if kind in w.empty {
      assert w.empty[kind := w.empty[kind]] == w.empty;
    }
    assert w1.archetypes[w1.empty[kind]].def.kind == kind;
  }
}
