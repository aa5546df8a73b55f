/** What inventory clicks conserve, over single clicks and whole runs. */
module InventoryTheorems {
  import opened Wrappers
  import opened Bytes
  import opened Items
  import opened InventoryClicks

  // ---- counting ----

  function Of(s: ItemStack, m: U32): nat {
    if s.material == m then s.amount else 0
  }

  function Count(slots: seq<ItemStack>, m: U32): nat {
    if slots == [] then 0 else Count(slots[..|slots| - 1], m) + Of(slots[|slots| - 1], m)
  }

  /** All items of a material, in the slots and on the cursor. */
  function Total(v: Inventory, m: U32): nat {
    Count(v.slots, m) + Of(v.cursor, m)
  }

  lemma {:induction false} CountUpdate(slots: seq<ItemStack>, i: nat, item: ItemStack, m: U32)
    requires i < |slots|
    ensures Count(slots[i := item], m) + Of(slots[i], m) == Count(slots, m) + Of(item, m)
  {
    var n := |slots| - 1;
    if i < n {
      CountUpdate(slots[..n], i, item, m);
      assert slots[i := item][..n] == slots[..n][i := item];
    } else {
      assert slots[i := item][..n] == slots[..n];
    }
  }

  /** An amount of one material. */
  function Amount(n: nat, material: U32, m: U32): nat {
    if material == m then n else 0
  }

  // ---- single clicks ----

  lemma PickupConserves(v: Inventory, slot: nat, button: int, m: U32)
    requires slot < |v.slots|
    ensures Total(Pickup(v, slot, button).0, m) == Total(v, m)
  {
    hide MaxStack, Count, Pickup;
    PickupShape(v, slot, button, m);
    var v' := Pickup(v, slot, button).0;
    CountUpdate(v.slots, slot, v'.slots[slot], m);
  }

  /** A pickup only moves items between one slot and the cursor. */
  lemma PickupShape(v: Inventory, slot: nat, button: int, m: U32)
    requires slot < |v.slots|
    ensures var v' := Pickup(v, slot, button).0;
            && |v'.slots| == |v.slots| && v'.slots == v.slots[slot := v'.slots[slot]]
            && Of(v'.slots[slot], m) + Of(v'.cursor, m) == Of(v.slots[slot], m) + Of(v.cursor, m)
  {
    hide MaxStack;
    assert v.slots == v.slots[slot := v.slots[slot]];
  }

  lemma SwapConserves(v: Inventory, slot: nat, button: int, m: U32)
    requires |v.slots| == SLOTS && slot < SLOTS
    ensures Total(Swap(v, slot, button).0, m) == Total(v, m)
  {
    if 0 <= button <= 8 {
      CountUpdate(v.slots, slot, v.slots[button], m);
      CountUpdate(v.slots[slot := v.slots[button]], button, v.slots[slot], m);
    }
  }

  lemma {:induction false} TopUpConserves(v: Inventory, stack: ItemStack, d: nat, hi: nat, remaining: Byte, m: U32)
    requires hi <= |v.slots|
    ensures var (v', left) := TopUp(v, stack, d, hi, remaining);
            && |v'.slots| == |v.slots| && v'.cursor == v.cursor
            && Count(v'.slots, m) + Amount(left, stack.material, m)
               == Count(v.slots, m) + Amount(remaining, stack.material, m)
            && forall i | 0 <= i < |v.slots| && !(d <= i < hi) :: v'.slots[i] == v.slots[i]
    decreases hi - d
  {
    hide MaxStack, Count;
    if d < hi && remaining > 0 {
      var t := v.slots[d];
      if !IsAir(t) && t.material == stack.material && t.amount < MaxStack(stack) {
        var n := Min(MaxStack(stack) - t.amount, remaining);
        var t' := t.(amount := AddSat(t.amount, n));
        CountUpdate(v.slots, d, t', m);
        TopUpConserves(SetSlot(v, d, t'), stack, d + 1, hi, SubSat(remaining, n), m);
      } else {
        TopUpConserves(v, stack, d + 1, hi, remaining, m);
      }
    }
  }

  lemma {:induction false} FillEmptyConserves(v: Inventory, stack: ItemStack, d: nat, hi: nat, remaining: Byte, m: U32)
    requires hi <= |v.slots|
    ensures var (v', left) := FillEmpty(v, stack, d, hi, remaining);
            && |v'.slots| == |v.slots| && v'.cursor == v.cursor
            && Count(v'.slots, m) + Amount(left, stack.material, m)
               == Count(v.slots, m) + Amount(remaining, stack.material, m)
            && forall i | 0 <= i < |v.slots| && !(d <= i < hi) :: v'.slots[i] == v.slots[i]
    decreases hi - d
  {
    hide Count;
    if d < hi && remaining > 0 {
      if IsAir(v.slots[d]) {
        CountUpdate(v.slots, d, NewStack(stack.material, remaining), m);
      } else {
        FillEmptyConserves(v, stack, d + 1, hi, remaining, m);
      }
    }
  }

  lemma QuickMoveConserves(v: Inventory, slot: nat, m: U32)
    requires |v.slots| == SLOTS && slot < SLOTS
    ensures Total(QuickMove(v, slot).0, m) == Total(v, m)
  {
    hide Count, TopUp, FillEmpty;
    var s := v.slots[slot];
    if !IsAir(s) && slot <= 35 {
      var lo, hi := if slot <= 8 then 9 else 0, if slot <= 8 then 36 else 9;
      var (v1, r1) := TopUp(v, s, lo, hi, s.amount);
      TopUpConserves(v, s, lo, hi, s.amount, m);
      var (v2, r2) := FillEmpty(v1, s, lo, hi, r1);
      FillEmptyConserves(v1, s, lo, hi, r1, m);
      CountUpdate(v2.slots, slot, NewStack(s.material, r2), m);
    }
  }

  /** Throwing takes away exactly the stack, or one item of it. */
  lemma ThrowRemoves(v: Inventory, slot: nat, button: int, m: U32)
    requires slot < |v.slots|
    ensures Total(Throw(v, slot, button).0, m) + Amount(Thrown(v.slots[slot], button), v.slots[slot].material, m)
            == Total(v, m)
  {
    var v' := Throw(v, slot, button).0;
    if v'.slots != v.slots {
      CountUpdate(v.slots, slot, v'.slots[slot], m);
      assert v'.slots == v.slots[slot := v'.slots[slot]];
    }
  }

  function Thrown(s: ItemStack, button: int): nat {
    if button == 0 then s.amount else if button == 1 && !IsAir(s) then 1 else 0
  }

  lemma {:induction false} GatherConserves(v: Inventory, material: U32, s: nat, space: Byte, m: U32)
    ensures var (v', left, changed) := Gather(v, material, s, space);
            && |v'.slots| == |v.slots| && v'.cursor == v.cursor && left <= space
            && Count(v'.slots, m) + Amount(space - left, material, m) == Count(v.slots, m)
            && (!changed ==> left == space)
    decreases |v.slots| - s
  {
    hide Count;
    if s < |v.slots| && space > 0 {
      var t := v.slots[s];
      if IsAir(t) || t.material != material {
        GatherConserves(v, material, s + 1, space, m);
      } else {
        var n := Min(t.amount, space);
        var t' := WithAmount(t, SubSat(t.amount, n));
        CountUpdate(v.slots, s, t', m);
        GatherConserves(SetSlot(v, s, t'), material, s + 1, SubSat(space, n), m);
      }
    }
  }

  lemma PickupAllConserves(v: Inventory, m: U32)
    ensures Total(PickupAll(v).0, m) == Total(v, m)
  {
    hide Count, Gather, MaxStack;
    var c := v.cursor;
    if !IsAir(c) && c.amount < MaxStack(c) {
      GatherConserves(v, c.material, 0, MaxStack(c) - c.amount, m);
    }
  }

  lemma {:induction false} DealConserves(v: Inventory, material: U32, t: nat, remaining: Byte, m: U32)
    requires forall i | 0 <= i < |v.drag.targets| :: v.drag.targets[i] < |v.slots|
    ensures var (v', left, changed) := Deal(v, material, t, remaining);
            && v'.cursor == v.cursor && left <= remaining
            && Count(v'.slots, m) == Count(v.slots, m) + Amount(remaining - left, material, m)
            && (!changed ==> left == remaining)
    decreases |v.drag.targets| - t
  {
    hide Count, MaxStack;
    if t < |v.drag.targets| && remaining > 0 {
      var slot := v.drag.targets[t];
      var s := v.slots[slot];
      var n := Min(SubSat(MaxStack(s), s.amount), remaining);
      if (!IsAir(s) && s.material != material) || n == 0 {
        DealConserves(v, material, t + 1, remaining, m);
      } else {
        var item := if IsAir(s) then NewStack(material, n) else s.(amount := AddSat(s.amount, n));
        CountUpdate(v.slots, slot, item, m);
        DealConserves(SetSlot(v, slot, item), material, t + 1, SubSat(remaining, n), m);
      }
    }
  }

  lemma SpreadConserves(v: Inventory, amount: Byte, m: U32)
    requires forall i | 0 <= i < |v.drag.targets| :: v.drag.targets[i] < |v.slots|
    requires amount <= v.cursor.amount
    ensures Total(Spread(v, amount).0, m) == Total(v, m)
  {
    hide Count, Deal;
    if !IsAir(v.cursor) && amount != 0 {
      DealConserves(v, v.cursor.material, 0, amount, m);
      var (v', left, changed) := Deal(v, v.cursor.material, 0, amount);
      var n := SubSat(v.cursor.amount, amount - left);
      assert n == v.cursor.amount - (amount - left);
      assert Of(WithAmount(v.cursor, n), m) == Amount(n, v.cursor.material, m);
    }
  }

  lemma QuickCraftConserves(v: Inventory, slot: nat, button: int, m: U32)
    requires Valid(v) && slot < SLOTS
    ensures Total(QuickCraft(v, slot, button).0, m) == Total(v, m)
  {
    hide Count, Spread;
    if 1 <= button <= 3 && Active(v) {
      var v1 := AddTarget(v, slot);
      var v2 := v1.(drag := v1.drag.(stage := button));
      SpreadConserves(v2, if button == 2 then Half(v.cursor.amount) else v.cursor.amount, m);
    }
  }

  // ---- the drag invariant ----

  lemma {:induction false} DealKeepsCovers(v: Inventory, material: U32, t: nat, remaining: Byte)
    requires Valid(v)
    ensures Valid(Deal(v, material, t, remaining).0)
    decreases |v.drag.targets| - t
  {
    hide MaxStack;
    if t < |v.drag.targets| && remaining > 0 {
      var slot := v.drag.targets[t];
      var s := v.slots[slot];
      var n := Min(SubSat(MaxStack(s), s.amount), remaining);
      if (!IsAir(s) && s.material != material) || n == 0 {
        DealKeepsCovers(v, material, t + 1, remaining);
      } else {
        var item := if IsAir(s) then NewStack(material, n) else s.(amount := AddSat(s.amount, n));
        assert Covers(s, v.drag.snapshot[t]);
        assert Covers(item, v.drag.snapshot[t]);
        DealKeepsCovers(SetSlot(v, slot, item), material, t + 1, SubSat(remaining, n));
      }
    }
  }

  lemma QuickCraftValid(v: Inventory, slot: nat, button: int)
    requires Valid(v) && slot < SLOTS
    ensures Valid(QuickCraft(v, slot, button).0)
  {
    hide Deal, Covers;
    assert Covers(v.slots[slot], v.slots[slot]) by {
      CoversItself(v.slots[slot]);
    }
    if 1 <= button <= 3 && Active(v) {
      var v1 := AddTarget(v, slot);
      var v2 := v1.(drag := v1.drag.(stage := button));
      assert Valid(v2);
      DealKeepsCovers(v2, v2.cursor.material, 0, if button == 2 then Half(v.cursor.amount) else v.cursor.amount);
      DealShape(v2, v2.cursor.material, 0, if button == 2 then Half(v.cursor.amount) else v.cursor.amount);
    }
  }

  lemma CoversItself(s: ItemStack)
    ensures Covers(s, s)
  {
  }

  lemma ClickValid(v: Inventory, slot: nat, button: int, mode: int)
    requires Valid(v) && slot < SLOTS && (mode != CLICK_QUICK_CRAFT ==> !Active(v))
    ensures Valid(Click(v, slot, button, mode).0) && Click(v, slot, button, mode).0.creative == v.creative
  {
    if mode == CLICK_QUICK_CRAFT {
      QuickCraftValid(v, slot, button);
      QuickCraftKeepsMode(v, slot, button);
    } else if mode == CLICK_QUICK_MOVE {
      QuickMoveShape(v, slot);
    } else if mode == CLICK_PICKUP_ALL {
      GatherShape(v, v.cursor.material, 0, SubSat(MaxStack(v.cursor), v.cursor.amount));
    }
  }

  lemma QuickCraftKeepsMode(v: Inventory, slot: nat, button: int)
    requires Valid(v) && slot < SLOTS
    ensures QuickCraft(v, slot, button).0.creative == v.creative
  {
    hide Deal;
    if 1 <= button <= 3 && Active(v) {
      var v1 := AddTarget(v, slot);
      var v2 := v1.(drag := v1.drag.(stage := button));
      DealShape(v2, v2.cursor.material, 0, if button == 2 then Half(v.cursor.amount) else v.cursor.amount);
    }
  }

  lemma QuickMoveShape(v: Inventory, slot: nat)
    requires |v.slots| == SLOTS && slot < SLOTS
    ensures var v' := QuickMove(v, slot).0;
            |v'.slots| == SLOTS && v'.drag == v.drag && v'.creative == v.creative && v'.cursor == v.cursor
  {
    hide TopUp, FillEmpty;
    var s := v.slots[slot];
    if !IsAir(s) && slot <= 35 {
      var lo, hi := if slot <= 8 then 9 else 0, if slot <= 8 then 36 else 9;
      TopUpKeepsSize(v, s, lo, hi, s.amount);
      FillEmptyKeepsSize(TopUp(v, s, lo, hi, s.amount).0, s, lo, hi, TopUp(v, s, lo, hi, s.amount).1);
    }
  }

  // ---- cancelling a drag ----

  /** What the slots gained since they joined the drag. */
  function Placed(v: Inventory, targets: seq<nat>, snapshot: seq<ItemStack>, m: U32): int
    requires |targets| == |snapshot| && forall i | 0 <= i < |targets| :: targets[i] < |v.slots|
  {
    if targets == [] then 0
    else Of(v.slots[targets[0]], m) - Of(snapshot[0], m) + Placed(v, targets[1..], snapshot[1..], m)
  }

  lemma {:induction false} PlacedElsewhere(
      v: Inventory, slot: nat, item: ItemStack, targets: seq<nat>, snapshot: seq<ItemStack>, m: U32)
    requires |targets| == |snapshot| && (forall i | 0 <= i < |targets| :: targets[i] < |v.slots|)
    requires slot < |v.slots| && slot !in targets
    ensures Placed(SetSlot(v, slot, item), targets, snapshot, m) == Placed(v, targets, snapshot, m)
    decreases |targets|
  {
    if targets != [] {
      assert targets[0] in targets && forall x | x in targets[1..] :: x in targets;
      PlacedElsewhere(v, slot, item, targets[1..], snapshot[1..], m);
    }
  }

  lemma {:induction false} RestoreLoses(v: Inventory, targets: seq<nat>, snapshot: seq<ItemStack>, m: U32)
    requires |targets| == |snapshot| && (forall i | 0 <= i < |targets| :: targets[i] < |v.slots|)
    requires forall i, j | 0 <= i < j < |targets| :: targets[i] != targets[j]
    ensures Count(Restore(v, targets, snapshot).slots, m) + Placed(v, targets, snapshot, m) == Count(v.slots, m)
    decreases |targets|
  {
    hide Count;
    if targets != [] {
      CountUpdate(v.slots, targets[0], snapshot[0], m);
      PlacedElsewhere(v, targets[0], snapshot[0], targets[1..], snapshot[1..], m);
      RestoreLoses(SetSlot(v, targets[0], snapshot[0]), targets[1..], snapshot[1..], m);
    }
  }

  ghost predicate AllCovered(v: Inventory, targets: seq<nat>, snapshot: seq<ItemStack>)
    requires |targets| == |snapshot| && forall i | 0 <= i < |targets| :: targets[i] < |v.slots|
  {
    forall i | 0 <= i < |targets| :: Covers(v.slots[targets[i]], snapshot[i])
  }

  lemma {:induction false} PlacedIsNatural(v: Inventory, targets: seq<nat>, snapshot: seq<ItemStack>, m: U32)
    requires |targets| == |snapshot| && (forall i | 0 <= i < |targets| :: targets[i] < |v.slots|)
    requires AllCovered(v, targets, snapshot)
    ensures Placed(v, targets, snapshot, m) >= 0
    ensures forall i | 0 <= i < |targets| && v.slots[targets[i]].material == m
                       && v.slots[targets[i]].amount > snapshot[i].amount ::
              Placed(v, targets, snapshot, m) > 0
    ensures (forall i | 0 <= i < |targets| :: v.slots[targets[i]].amount == snapshot[i].amount) ==>
              Placed(v, targets, snapshot, m) == 0
    decreases |targets|
  {
    if targets != [] {
      assert Covers(v.slots[targets[0]], snapshot[0]);
      assert forall i | 0 <= i < |targets[1..]| ::
          targets[1..][i] == targets[i + 1] && snapshot[1..][i] == snapshot[i + 1];
      PlacedIsNatural(v, targets[1..], snapshot[1..], m);
      assert forall i | 0 < i < |targets| :: targets[i] == targets[1..][i - 1] && snapshot[i] == snapshot[1..][i - 1];
    }
  }

  /** Nothing has been dealt to the targets since they joined. */
  ghost predicate NothingPlaced(v: Inventory)
    requires Valid(v)
  {
    forall i | 0 <= i < |v.drag.targets| :: v.slots[v.drag.targets[i]].amount == v.drag.snapshot[i].amount
  }

  lemma CancelTotal(v: Inventory, m: U32)
    requires Valid(v)
    ensures Total(Cancel(v).0, m) <= Total(v, m)
    ensures NothingPlaced(v) ==> Total(Cancel(v).0, m) == Total(v, m)
  {
    hide Count, Covers;
    RestoreShape(v, v.drag.targets, v.drag.snapshot);
    RestoreLoses(v, v.drag.targets, v.drag.snapshot, m);
    PlacedIsNatural(v, v.drag.targets, v.drag.snapshot, m);
  }

  /** Cancelling a drag rolls the slots back but not the cursor, so it conserves the items exactly when
    * the drag has placed none. */
  lemma CancelConservesIff(v: Inventory)
    requires Valid(v)
    ensures (forall m :: Total(Cancel(v).0, m) == Total(v, m)) <==> NothingPlaced(v)
  {
    hide Count;
    if NothingPlaced(v) {
      forall m
        ensures Total(Cancel(v).0, m) == Total(v, m)
      {
        CancelTotal(v, m);
      }
    } else {
      var i :| 0 <= i < |v.drag.targets| && v.slots[v.drag.targets[i]].amount != v.drag.snapshot[i].amount;
      var m := v.slots[v.drag.targets[i]].material;
      assert Covers(v.slots[v.drag.targets[i]], v.drag.snapshot[i]);
      RestoreShape(v, v.drag.targets, v.drag.snapshot);
      RestoreLoses(v, v.drag.targets, v.drag.snapshot, m);
      PlacedIsNatural(v, v.drag.targets, v.drag.snapshot, m);
      assert Total(Cancel(v).0, m) < Total(v, m);
    }
  }

  // ---- whole clicks and runs ----

  predicate Conserving(mode: int) {
    mode == CLICK_PICKUP || mode == CLICK_QUICK_MOVE || mode == CLICK_SWAP || mode == CLICK_QUICK_CRAFT
    || mode == CLICK_PICKUP_ALL
  }

  lemma ClickConserves(v: Inventory, slot: nat, button: int, mode: int, m: U32)
    requires Valid(v) && slot < SLOTS && Conserving(mode)
    ensures Total(Click(v, slot, button, mode).0, m) == Total(v, m)
  {
    hide Total, Pickup, QuickMove, Swap, QuickCraft, PickupAll, Valid;
    ValidSize(v);
    PickupConserves(v, slot, button, m);
    QuickMoveConserves(v, slot, m);
    SwapConserves(v, slot, button, m);
    QuickCraftConserves(v, slot, button, m);
    PickupAllConserves(v, m);
  }

  lemma ValidSize(v: Inventory)
    requires Valid(v)
    ensures |v.slots| == SLOTS
  {
  }

  lemma ApplyClickValid(v: Inventory, window: int, button: int, mode: int)
    requires Valid(v)
    ensures Valid(ApplyClick(v, window, button, mode).0) && ApplyClick(v, window, button, mode).0.creative == v.creative
  {
    hide Click, Cancel, Covers;
    CancelValid(v);
    if 0 <= window <= 45 {
      ClickValid(if mode != CLICK_QUICK_CRAFT then Cancel(v).0 else v, FromWindow(window), button, mode);
    }
  }

  /** The clicks that move items conserve every material exactly when they do not cancel a drag that has
    * already placed something. */
  lemma ApplyClickConservesIff(v: Inventory, window: int, button: int, mode: int)
    requires Valid(v) && 0 <= window <= 45 && Conserving(mode)
    ensures (forall m :: Total(ApplyClick(v, window, button, mode).0, m) == Total(v, m))
            <==> mode == CLICK_QUICK_CRAFT || NothingPlaced(v)
  {
    hide Click, Cancel, Valid, NothingPlaced, Count;
    CancelValid(v);
    CancelConservesIff(v);
    var v1 := if mode != CLICK_QUICK_CRAFT then Cancel(v).0 else v;
    forall m
      ensures Total(ApplyClick(v, window, button, mode).0, m) == Total(v1, m)
    {
      ClickConserves(v1, FromWindow(window), button, mode, m);
    }
  }

  lemma SurvivalClick(v: Inventory, slot: nat, button: int, mode: int, m: U32)
    requires Valid(v) && slot < SLOTS && !v.creative
    ensures Total(Click(v, slot, button, mode).0, m) <= Total(v, m)
  {
    hide Total, Pickup, QuickMove, Swap, QuickCraft, PickupAll, Throw;
    if Conserving(mode) {
      ClickConserves(v, slot, button, mode, m);
    } else {
      ThrowRemoves(v, slot, button, m);
    }
  }

  lemma ApplyClickNeverAdds(v: Inventory, window: int, button: int, mode: int, m: U32)
    requires Valid(v) && !v.creative
    ensures Total(ApplyClick(v, window, button, mode).0, m) <= Total(v, m)
  {
    hide Click, Cancel, Valid, Count;
    CancelValid(v);
    CancelTotal(v, m);
    if 0 <= window <= 45 {
      SurvivalClick(if mode != CLICK_QUICK_CRAFT then Cancel(v).0 else v, FromWindow(window), button, mode, m);
    }
  }

  lemma DropCursorNeverAdds(v: Inventory, m: U32)
    requires Valid(v)
    ensures Valid(DropCursor(v).0) && DropCursor(v).0.creative == v.creative
    ensures IsAir(DropCursor(v).0.cursor) && !Active(DropCursor(v).0)
    ensures Total(DropCursor(v).0, m) <= Total(v, m)
  {
    hide Cancel, Count;
    CancelValid(v);
    CancelTotal(v, m);
  }

  /** A click, the closing of the window, or the tick that sends the changes to the client. */
  datatype Event = ClickEvent(window: int, button: int, mode: int) | CloseEvent | SyncEvent

  /** `inventory_sync`: everything waiting is sent. */
  function Synced(v: Inventory): Inventory {
    v.(dirty := {}, fullSync := false)
  }

  function Happened(v: Inventory, e: Event): (r: Inventory)
    requires Valid(v)
    ensures Valid(r) && r.creative == v.creative
  {
    match e
    case ClickEvent(window, button, mode) =>
      hide Valid, ApplyClick;
      ApplyClickValid(v, window, button, mode); ApplyClick(v, window, button, mode).0
    case CloseEvent =>
      hide Valid, DropCursor;
      DropCursorNeverAdds(v, 0); DropCursor(v).0
    case SyncEvent => Synced(v)
  }

  function After(v: Inventory, events: seq<Event>): (r: Inventory)
    requires Valid(v)
    ensures Valid(r)
    decreases |events|
  {
    hide Valid, Happened;
    if events == [] then v else After(Happened(v, events[0]), events[1..])
  }

  /** No run of clicks, window closings and syncs creates an item outside creative mode. */
  lemma {:induction false} SurvivalNeverAdds(v: Inventory, events: seq<Event>, m: U32)
    requires Valid(v) && !v.creative
    ensures Total(After(v, events), m) <= Total(v, m)
    decreases |events|
  {
    hide Valid, ApplyClick, DropCursor, Count;
    if events != [] {
      match events[0] {
        case ClickEvent(window, button, mode) => ApplyClickNeverAdds(v, window, button, mode, m);
        case CloseEvent => DropCursorNeverAdds(v, m);
        case SyncEvent =>
      }
      SurvivalNeverAdds(Happened(v, events[0]), events[1..], m);
    }
  }

  // ---- adding items ----

  lemma {:induction false} StackConserves(v: Inventory, item: ItemStack, s: nat, m: U32)
    ensures var (v', left) := Stack(v, item, s);
            && Count(v'.slots, m) + Of(left, m) == Count(v.slots, m) + Of(item, m)
            && v'.cursor == v.cursor && |v'.slots| == |v.slots| && left.material == item.material
    decreases |v.slots| - s
  {
    hide Count, MaxStack;
    if s < |v.slots| && !IsAir(item) {
      var t := v.slots[s];
      var space := SubSat(MaxStack(t), t.amount);
      if !IsAir(t) && t.material == item.material && t.components == item.components && space > 0 {
        var n := Min(space, item.amount);
        var t' := t.(amount := AddSat(t.amount, n));
        CountUpdate(v.slots, s, t', m);
        StackConserves(SetSlot(v, s, t'), item.(amount := SubSat(item.amount, n)), s + 1, m);
      } else {
        StackConserves(v, item, s + 1, m);
      }
    }
  }

  lemma {:induction false} FillConserves(v: Inventory, item: ItemStack, s: nat, m: U32)
    ensures var (v', left) := Fill(v, item, s);
            && Count(v'.slots, m) + Of(left, m) == Count(v.slots, m) + Of(item, m)
            && v'.cursor == v.cursor && |v'.slots| == |v.slots|
    decreases |v.slots| - s
  {
    hide Count, MaxStack;
    if s < |v.slots| && !IsAir(item) {
      if IsAir(v.slots[s]) {
        var n := Min(MaxStack(item), item.amount);
        CountUpdate(v.slots, s, item.(amount := n), m);
        FillConserves(SetSlot(v, s, item.(amount := n)), item.(amount := SubSat(item.amount, n)), s + 1, m);
      } else {
        FillConserves(v, item, s + 1, m);
      }
    }
  }

  /** What is added and what is handed back make up the item. */
  lemma AddItemConserves(v: Inventory, item: ItemStack, m: U32)
    ensures var (v', left) := AddItem(v, item);
            Total(v', m) + Of(left, m) == Total(v, m) + Of(item, m)
  {
    hide Count, Stack, Fill;
    StackConserves(v, item, 0, m);
    var (v1, left1) := Stack(v, item, 0);
    FillConserves(v1, left1, 0, m);
  }

  // ---- telling the client ----

  /** Every changed slot is marked for sending, or everything is. */
  ghost predicate Announced(v: Inventory, v': Inventory) {
    v'.fullSync
    || (v'.cursor == v.cursor && |v'.slots| == |v.slots|
        && forall i | 0 <= i < |v.slots| && v'.slots[i] != v.slots[i] :: i in v'.dirty)
  }

  lemma {:induction false} TopUpNothing(v: Inventory, stack: ItemStack, d: nat, hi: nat, remaining: Byte)
    requires hi <= |v.slots|
    ensures TopUp(v, stack, d, hi, remaining).1 <= remaining
    ensures TopUp(v, stack, d, hi, remaining).1 == remaining ==> TopUp(v, stack, d, hi, remaining).0 == v
    decreases hi - d
  {
    hide MaxStack;
    if d < hi && remaining > 0 {
      var t := v.slots[d];
      if !IsAir(t) && t.material == stack.material && t.amount < MaxStack(stack) {
        var n := Min(MaxStack(stack) - t.amount, remaining);
        TopUpNothing(SetSlot(v, d, t.(amount := AddSat(t.amount, n))), stack, d + 1, hi, SubSat(remaining, n));
      } else {
        TopUpNothing(v, stack, d + 1, hi, remaining);
      }
    }
  }

  lemma {:induction false} FillNothing(v: Inventory, stack: ItemStack, d: nat, hi: nat, remaining: Byte)
    requires hi <= |v.slots|
    ensures FillEmpty(v, stack, d, hi, remaining).1 <= remaining
    ensures FillEmpty(v, stack, d, hi, remaining).1 == remaining ==> FillEmpty(v, stack, d, hi, remaining).0 == v
    decreases hi - d
  {
    if d < hi && remaining > 0 && !IsAir(v.slots[d]) {
      FillNothing(v, stack, d + 1, hi, remaining);
    }
  }

  lemma {:induction false} GatherNothing(v: Inventory, material: U32, s: nat, space: Byte)
    ensures !Gather(v, material, s, space).2 ==> Gather(v, material, s, space).0 == v
    decreases |v.slots| - s
  {
    if s < |v.slots| && space > 0 {
      var t := v.slots[s];
      if IsAir(t) || t.material != material {
        GatherNothing(v, material, s + 1, space);
      }
    }
  }

  lemma {:induction false} DealNothing(v: Inventory, material: U32, t: nat, remaining: Byte)
    requires forall i | 0 <= i < |v.drag.targets| :: v.drag.targets[i] < |v.slots|
    ensures !Deal(v, material, t, remaining).2 ==> Deal(v, material, t, remaining).0 == v
    decreases |v.drag.targets| - t
  {
    hide MaxStack;
    if t < |v.drag.targets| && remaining > 0 {
      var s := v.slots[v.drag.targets[t]];
      var n := Min(SubSat(MaxStack(s), s.amount), remaining);
      if (!IsAir(s) && s.material != material) || n == 0 {
        DealNothing(v, material, t + 1, remaining);
      }
    }
  }

  /** A slot that can take some of the stack. */
  predicate HasRoom(t: ItemStack, stack: ItemStack) {
    IsAir(t) || (t.material == stack.material && t.amount < MaxStack(stack))
  }

  lemma {:induction false} TopUpRefusesIff(v: Inventory, stack: ItemStack, d: nat, hi: nat, remaining: Byte)
    requires hi <= |v.slots| && remaining > 0
    ensures TopUp(v, stack, d, hi, remaining).1 == remaining <==>
            forall k | d <= k < hi :: !HasRoom(v.slots[k], stack) || IsAir(v.slots[k])
    decreases hi - d
  {
    hide MaxStack;
    if d < hi {
      var t := v.slots[d];
      if !IsAir(t) && t.material == stack.material && t.amount < MaxStack(stack) {
        var n := Min(MaxStack(stack) - t.amount, remaining);
        TopUpNothing(SetSlot(v, d, t.(amount := AddSat(t.amount, n))), stack, d + 1, hi, SubSat(remaining, n));
      } else {
        TopUpRefusesIff(v, stack, d + 1, hi, remaining);
      }
    }
  }

  lemma {:induction false} FillRefusesIff(v: Inventory, stack: ItemStack, d: nat, hi: nat, remaining: Byte)
    requires hi <= |v.slots| && remaining > 0
    ensures FillEmpty(v, stack, d, hi, remaining).1 == remaining <==> forall k | d <= k < hi :: !IsAir(v.slots[k])
    decreases hi - d
  {
    if d < hi && !IsAir(v.slots[d]) {
      FillRefusesIff(v, stack, d + 1, hi, remaining);
    }
  }

  /** The other range of a shift click, backpack for the hotbar and hotbar for the backpack, can take
    * nothing of the stack. */
  predicate NoRoom(v: Inventory, slot: nat)
    requires |v.slots| == SLOTS && slot < SLOTS
  {
    forall k | (if slot <= 8 then 9 else 0) <= k < (if slot <= 8 then 36 else 9) :: !HasRoom(v.slots[k], v.slots[slot])
  }

  /** A shift click is refused if and only if there is nothing to move, its slot is none of hotbar and
    * backpack, or the other range has no room. */
  lemma QuickMoveRefusesIff(v: Inventory, slot: nat)
    requires |v.slots| == SLOTS && slot < SLOTS
    ensures !QuickMove(v, slot).1 <==> IsAir(v.slots[slot]) || slot > 35 || NoRoom(v, slot)
  {
    hide TopUp, FillEmpty, MaxStack;
    var s := v.slots[slot];
    if !IsAir(s) && slot <= 35 {
      var lo, hi := if slot <= 8 then 9 else 0, if slot <= 8 then 36 else 9;
      var (v1, r1) := TopUp(v, s, lo, hi, s.amount);
      TopUpKeepsSize(v, s, lo, hi, s.amount);
      TopUpNothing(v, s, lo, hi, s.amount);
      TopUpRefusesIff(v, s, lo, hi, s.amount);
      FillNothing(v1, s, lo, hi, r1);
      if r1 == s.amount {
        FillRefusesIff(v, s, lo, hi, s.amount);
      }
    }
  }

  /** A shift click reports no change although it changes a slot. */
  predicate ChangesSilently(v: Inventory, slot: nat)
    requires |v.slots| == SLOTS && slot < SLOTS
  {
    !IsAir(v.slots[slot]) && slot <= 35 && NoRoom(v, slot) && v.slots[slot].components != []
  }

  /** It does so if and only if the stack has components and the other range no room for it. */
  lemma QuickMoveSilentIff(v: Inventory, slot: nat)
    requires |v.slots| == SLOTS && slot < SLOTS
    ensures !QuickMove(v, slot).1 && QuickMove(v, slot).0.slots != v.slots <==> ChangesSilently(v, slot)
  {
    hide QuickMove, NoRoom;
    QuickMoveRefusesIff(v, slot);
    if !QuickMove(v, slot).1 {
      RefusedQuickMove(v, slot);
    }
  }

  /** A refused shift click still rewrites its slot, keeping material and amount but no components. */
  lemma RefusedQuickMove(v: Inventory, slot: nat)
    requires |v.slots| == SLOTS && slot < SLOTS && !QuickMove(v, slot).1
    ensures QuickMove(v, slot).0 ==
            if IsAir(v.slots[slot]) || slot > 35 then v
            else SetSlot(v, slot, NewStack(v.slots[slot].material, v.slots[slot].amount))
  {
    hide TopUp, FillEmpty;
    var s := v.slots[slot];
    if !IsAir(s) && slot <= 35 {
      var lo, hi := if slot <= 8 then 9 else 0, if slot <= 8 then 36 else 9;
      TopUpNothing(v, s, lo, hi, s.amount);
      TopUpKeepsSize(v, s, lo, hi, s.amount);
      FillNothing(TopUp(v, s, lo, hi, s.amount).0, s, lo, hi, TopUp(v, s, lo, hi, s.amount).1);
    }
  }

  /** A click that reports no change leaves every slot's material and amount and the cursor alone. */
  lemma RefusedClick(v: Inventory, slot: nat, button: int, mode: int)
    requires Valid(v) && slot < SLOTS && !Click(v, slot, button, mode).1
    ensures var v' := Click(v, slot, button, mode).0;
            && v'.cursor == v.cursor && |v'.slots| == SLOTS
            && (forall i | 0 <= i < SLOTS ::
                  v'.slots[i].material == v.slots[i].material && v'.slots[i].amount == v.slots[i].amount)
            && (forall i | 0 <= i < SLOTS && v'.slots[i] != v.slots[i] :: i in v'.dirty)
            && (mode != CLICK_QUICK_MOVE ==> v'.slots == v.slots)
  {
    hide MaxStack, Gather, Deal, QuickMove, Covers;
    if mode == CLICK_QUICK_MOVE {
      RefusedQuickMove(v, slot);
    } else if mode == CLICK_PICKUP_ALL {
      GatherNothing(v, v.cursor.material, 0, SubSat(MaxStack(v.cursor), v.cursor.amount));
    } else if mode == CLICK_QUICK_CRAFT && 1 <= button <= 3 && Active(v) {
      var v1 := AddTarget(v, slot);
      var v2 := v1.(drag := v1.drag.(stage := button));
      DealNothing(v2, v2.cursor.material, 0, if button == 2 then Half(v.cursor.amount) else v.cursor.amount);
    }
  }

  /** Of all clicks, exactly such shift clicks report no change and yet change a slot. */
  lemma SilentChangeIff(v: Inventory, window: int, button: int, mode: int)
    requires Valid(v)
    ensures !ApplyClick(v, window, button, mode).1 && ApplyClick(v, window, button, mode).0.slots != v.slots <==>
            && 0 <= window <= 45 && mode == CLICK_QUICK_MOVE && !Active(v)
            && |v.slots| == SLOTS && ChangesSilently(v, FromWindow(window))
  {
    hide Click, Valid, QuickMove, ChangesSilently, Cancel;
    ValidSize(v);
    CancelValid(v);
    CancelsIff(v);
    if 0 <= window <= 45 {
      var v1 := if mode != CLICK_QUICK_CRAFT then Cancel(v).0 else v;
      QuickMoveSilentIff(v, FromWindow(window));
      if !Click(v1, FromWindow(window), button, mode).1 {
        RefusedClick(v1, FromWindow(window), button, mode);
      }
      QuickMoveIsClick(v1, FromWindow(window), button);
    }
  }

  lemma CancelsIff(v: Inventory)
    requires Valid(v)
    ensures Cancel(v).1 <==> Active(v)
    ensures !Active(v) ==> Cancel(v).0 == v
  {
  }

  lemma QuickMoveIsClick(v: Inventory, slot: nat, button: int)
    requires Valid(v) && slot < SLOTS
    ensures Click(v, slot, button, CLICK_QUICK_MOVE) == QuickMove(v, slot)
  {
    hide QuickMove;
  }

  /** After every click the client will be told of every change. */
  lemma ApplyClickAnnounces(v: Inventory, window: int, button: int, mode: int)
    requires Valid(v)
    ensures Announced(v, ApplyClick(v, window, button, mode).0)
  {
    hide Click, Valid;
    ValidSize(v);
    CancelValid(v);
    if 0 <= window <= 45 && !ApplyClick(v, window, button, mode).1 {
      var v1 := if mode != CLICK_QUICK_CRAFT then Cancel(v).0 else v;
      RefusedClick(v1, FromWindow(window), button, mode);
    }
  }

  lemma {:induction false} RestoreIs(v: Inventory, targets: seq<nat>, snapshot: seq<ItemStack>)
    requires |targets| == |snapshot| && (forall i | 0 <= i < |targets| :: targets[i] < |v.slots|)
    requires forall i, j | 0 <= i < j < |targets| :: targets[i] != targets[j]
    ensures var v' := Restore(v, targets, snapshot);
            && |v'.slots| == |v.slots|
            && (forall i | 0 <= i < |targets| :: v'.slots[targets[i]] == snapshot[i])
            && (forall k | 0 <= k < |v.slots| && k !in targets :: v'.slots[k] == v.slots[k])
            && (forall k ::
                  k in v'.dirty
                  <==> k in v.dirty || exists i :: 0 <= i < |targets| && targets[i] == k && !IsAir(snapshot[i]))
    decreases |targets|
  {
    if targets != [] {
      var w := SetSlot(v, targets[0], snapshot[0]);
      RestoreIs(w, targets[1..], snapshot[1..]);
      assert targets[0] !in targets[1..];
      assert forall i | 0 < i < |targets| :: targets[i] == targets[1..][i - 1] && snapshot[i] == snapshot[1..][i - 1];
      assert forall k :: k in targets <==> k == targets[0] || k in targets[1..];
    }
  }

  /** Closing the window tells the client of every change unless the cursor is empty and the rollback
    * empties a slot that is not waiting to be sent. */
  lemma DropCursorAnnouncesIff(v: Inventory)
    requires Valid(v)
    ensures Announced(v, DropCursor(v).0) <==>
            v.fullSync || !IsAir(v.cursor)
            || forall i | 0 <= i < |v.drag.targets| && v.slots[v.drag.targets[i]] != v.drag.snapshot[i] ::
                 !IsAir(v.drag.snapshot[i]) || v.drag.targets[i] in v.dirty
  {
    hide Covers;
    CancelValid(v);
    var v', t := DropCursor(v).0, v.drag.targets;
    RestoreShape(v, t, v.drag.snapshot);
    RestoreIs(v, t, v.drag.snapshot);
    if !v.fullSync && IsAir(v.cursor) {
      if Announced(v, v') {
        forall i | 0 <= i < |t| && v.slots[t[i]] != v.drag.snapshot[i]
          ensures !IsAir(v.drag.snapshot[i]) || t[i] in v.dirty
        {
          assert v'.slots[t[i]] != v.slots[t[i]];
          assert t[i] in v'.dirty;
        }
      } else {
        var k :| 0 <= k < |v.slots| && v'.slots[k] != v.slots[k] && k !in v'.dirty;
        assert k in t;
        var i :| 0 <= i < |t| && t[i] == k;
      }
    }
  }
}
