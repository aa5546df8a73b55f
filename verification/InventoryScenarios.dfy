/** Concrete inventories and runs in which the clicks of inventory.rs misbehave. */
module InventoryScenarios {
  import opened Wrappers
  import opened Bytes
  import opened Items
  import opened InventoryClicks
  import opened InventoryEffects
  import opened InventoryTheorems

  function AirSlots(): (r: seq<ItemStack>)
    ensures |r| == SLOTS && forall i | 0 <= i < SLOTS :: r[i] == AIR
  {
    seq(SLOTS, _ => AIR)
  }

  /** A new inventory in survival mode. */
  function NewInventory(): Inventory {
    Inventory(AirSlots(), AIR, {}, true, false, NO_DRAG)
  }

  const TEN := ItemStack(1, 10, [])

  /** One stack of ten in hotbar slot 0, by a direct `set`. */
  function Stocked(): (v: Inventory)
    ensures Valid(v)
  {
    SetSlot(NewInventory(), 0, TEN)
  }

  lemma AfterCons(v: Inventory, e: Event, rest: seq<Event>)
    requires Valid(v)
    ensures After(v, [e] + rest) == After(Happened(v, e), rest)
  {
    hide Valid, Happened;
    assert ([e] + rest)[1..] == rest;
  }

  const TAKE := ClickEvent(36, 0, CLICK_PICKUP)
  const DRAG_FROM_NINE := ClickEvent(9, 0, CLICK_QUICK_CRAFT)
  const PLACE_ALL := ClickEvent(9, 1, CLICK_QUICK_CRAFT)

  /** The stack lies in slot 9, the cursor is empty and the drag is still open. */
  function Placed(): (v: Inventory)
    ensures Valid(v)
  {
    Inventory(AirSlots()[9 := TEN], AIR, {0, 9}, true, false, Drag(1, [9], [AIR]))
  }

  lemma Taken()
    ensures var v := Happened(Stocked(), TAKE);
            v == Inventory(AirSlots(), TEN, {0}, true, false, NO_DRAG)
  {
    assert AirSlots()[0 := TEN][0 := AIR] == AirSlots();
  }

  lemma Dragged(v: Inventory)
    requires v == Inventory(AirSlots(), TEN, {0}, true, false, NO_DRAG)
    ensures Valid(v) && Happened(v, DRAG_FROM_NINE) == v.(drag := Drag(0, [9], [AIR]))
  {
  }

  lemma PlacedAll(v: Inventory)
    requires v == Inventory(AirSlots(), TEN, {0}, true, false, Drag(0, [9], [AIR]))
    ensures Valid(v) && Happened(v, PLACE_ALL) == Placed()
  {
    var v2 := v.(drag := Drag(1, [9], [AIR]));
    assert AddTarget(v, 9) == v && MaxStack(AIR) == 64;
    DealEnds(SetSlot(v2, 9, TEN), 1, 0);
    assert Deal(v2, 1, 0, 10) == (SetSlot(v2, 9, TEN), 0, true);
  }

  lemma DealEnds(v: Inventory, material: U32, remaining: Byte)
    requires |v.drag.targets| == 1 && v.drag.targets[0] < |v.slots|
    ensures Deal(v, material, 1, remaining) == (v, remaining, false)
  {
  }

  /** Take the stack, start a drag at slot 9 and place everything there. */
  lemma PlacedIsReached()
    ensures After(Stocked(), [TAKE, DRAG_FROM_NINE, PLACE_ALL]) == Placed()
  {
    hide Happened, After, Stocked, Placed;
    Taken();
    var v1 := Happened(Stocked(), TAKE);
    Dragged(v1);
    var v2 := Happened(v1, DRAG_FROM_NINE);
    PlacedAll(v2);
    AfterCons(Stocked(), TAKE, [DRAG_FROM_NINE, PLACE_ALL]);
    AfterCons(v1, DRAG_FROM_NINE, [PLACE_ALL]);
    AfterCons(v2, PLACE_ALL, []);
    assert [TAKE] + [DRAG_FROM_NINE, PLACE_ALL] == [TAKE, DRAG_FROM_NINE, PLACE_ALL];
    assert [DRAG_FROM_NINE] + [PLACE_ALL] == [DRAG_FROM_NINE, PLACE_ALL] && [PLACE_ALL] + [] == [PLACE_ALL];
    EndOfRun(Placed());
  }

  lemma EndOfRun(v: Inventory)
    requires Valid(v)
    ensures After(v, []) == v
  {
  }

  lemma {:induction false} CountAir(slots: seq<ItemStack>, m: U32)
    requires forall i | 0 <= i < |slots| :: slots[i] == AIR
    ensures Count(slots, m) == 0
  {
    if slots != [] {
      CountAir(slots[..|slots| - 1], m);
    }
  }

  const ELSEWHERE := ClickEvent(20, 0, CLICK_PICKUP)

  /** The placed stack is taken back from slot 9 and given to nobody. */
  lemma Cancelled()
    ensures Happened(Placed(), ELSEWHERE).slots == AirSlots() && Happened(Placed(), ELSEWHERE).cursor == AIR
  {
    var v := Placed();
    assert v.drag.targets[1..] == [] && v.drag.snapshot[1..] == [];
    var w := SetSlot(v, 9, AIR);
    assert Restore(w, [], []) == w;
    assert Restore(v, [9], [AIR]) == w;
    assert w.slots == AirSlots();
  }

  /** A run of four clicks, all by the player, that ends with ten items less than it began with. */
  lemma CancelLosesItems()
    ensures Total(Stocked(), 1) == 10
    ensures Total(After(Stocked(), [TAKE, DRAG_FROM_NINE, PLACE_ALL] + [ELSEWHERE]), 1) == 0
  {
    hide Happened, After, Count, Placed;
    CountUpdate(AirSlots(), 0, TEN, 1);
    CountAir(AirSlots(), 1);
    PlacedIsReached();
    AfterAppend(Stocked(), [TAKE, DRAG_FROM_NINE, PLACE_ALL], ELSEWHERE);
    Cancelled();
  }

  /** Once the placed stack has been sent to the client, closing the window empties its slot and tells
    * nobody. */
  lemma CloseIsNotAnnounced()
    ensures var v := After(Stocked(), [TAKE, DRAG_FROM_NINE, PLACE_ALL] + [SyncEvent]);
            && v.slots[9] == TEN && Happened(v, CloseEvent).slots[9] == AIR
            && !Happened(v, CloseEvent).fullSync && Happened(v, CloseEvent).dirty == {}
            && !Announced(v, Happened(v, CloseEvent))
  {
    hide After, Stocked;
    PlacedIsReached();
    AfterAppend(Stocked(), [TAKE, DRAG_FROM_NINE, PLACE_ALL], SyncEvent);
    var v := Synced(Placed());
    assert v.drag.targets[1..] == [] && v.drag.snapshot[1..] == [];
    var w := SetSlot(v, 9, AIR);
    assert Restore(w, [], []) == w && Restore(v, [9], [AIR]) == w;
  }

  /** A tool with a component in the hotbar, and a backpack full of another material. */
  function FullBackpack(): (v: Inventory)
    ensures Valid(v)
  {
    NewInventory().(slots := seq(SLOTS, i =>
      if i == 0 then ItemStack(5, 1, [Set(4, Unbreakable)]) else if 9 <= i <= 35 then ItemStack(6, 64, []) else AIR))
  }

  /** A shift click on the tool reports that nothing changed, and the tool has lost its component. */
  lemma ShiftClickStrips()
    ensures var (v', changed) := ApplyClick(FullBackpack(), 36, 0, CLICK_QUICK_MOVE);
            !changed && |v'.slots| == SLOTS && v'.slots[0] == ItemStack(5, 1, [])
            && FullBackpack().slots[0] == ItemStack(5, 1, [Set(4, Unbreakable)])
  {
    hide QuickMove, MaxStack;
    var v := FullBackpack();
    QuickMoveRefusesIff(v, 0);
    RefusedQuickMove(v, 0);
  }

  const FINISH := ClickEvent(9, 3, CLICK_QUICK_CRAFT)

  lemma Finished(v: Inventory)
    requires v == Inventory(AirSlots(), TEN, {0}, true, false, Drag(0, [9], [AIR]))
    ensures Valid(v) && Happened(v, FINISH) == Inventory(AirSlots()[9 := TEN], AIR, {0, 9}, true, false, NO_DRAG)
  {
    var v2 := v.(drag := Drag(3, [9], [AIR]));
    assert AddTarget(v, 9) == v && MaxStack(AIR) == 64;
    DealEnds(SetSlot(v2, 9, TEN), 1, 0);
    assert Deal(v2, 1, 0, 10) == (SetSlot(v2, 9, TEN), 0, true);
  }

  /** The same run with the drag finished keeps its ten items in slot 9. */
  lemma FinishedDragKeepsItems()
    ensures var v := After(After(Stocked(), [TAKE, DRAG_FROM_NINE]), [FINISH, ELSEWHERE]);
            v.slots == AirSlots()[9 := TEN] && v.cursor == AIR
  {
    hide Happened, After, Stocked;
    Taken();
    var v1 := Happened(Stocked(), TAKE);
    Dragged(v1);
    var v2 := Happened(v1, DRAG_FROM_NINE);
    Finished(v2);
    var v3 := Happened(v2, FINISH);
    AfterCons(Stocked(), TAKE, [DRAG_FROM_NINE]);
    AfterCons(v1, DRAG_FROM_NINE, []);
    EndOfRun(v2);
    AfterCons(v2, FINISH, [ELSEWHERE]);
    AfterCons(v3, ELSEWHERE, []);
    assert [TAKE] + [DRAG_FROM_NINE] == [TAKE, DRAG_FROM_NINE] && [DRAG_FROM_NINE] + [] == [DRAG_FROM_NINE];
    assert [FINISH] + [ELSEWHERE] == [FINISH, ELSEWHERE] && [ELSEWHERE] + [] == [ELSEWHERE];
    NothingThere(v3);
    EndOfRun(v3);
  }

  lemma NothingThere(v: Inventory)
    requires Valid(v) && !Active(v) && IsAir(v.cursor) && v.slots[20].amount == 0
    ensures Happened(v, ELSEWHERE) == v
  {
  }
}
