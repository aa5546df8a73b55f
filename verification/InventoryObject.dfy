/** `PlayerInventory` of inventory.rs as the object its methods update in place, each proved equal to
  * the function on values of module InventoryClicks. */
module InventoryObjects {
  import opened Wrappers
  import opened Bytes
  import opened Items
  import C = InventoryClicks
  import T = InventoryTheorems

  class PlayerInventory {
    const slots: array<ItemStack>
    var cursor: ItemStack
    var dirty: set<nat>
    var fullSync: bool
    var creative: bool
    var drag: C.Drag

    ghost function State(): C.Inventory
      reads this, slots
    {
      C.Inventory(slots[..], cursor, dirty, fullSync, creative, drag)
    }

    ghost predicate Valid()
      reads this, slots
    {
      C.Valid(State())
    }

    constructor ()
      ensures Valid() && fresh(slots)
      ensures cursor == AIR && dirty == {} && fullSync && !creative && drag == C.NO_DRAG
      ensures forall i | 0 <= i < slots.Length :: slots[i] == AIR
    {
      slots := new ItemStack[C.SLOTS](_ => AIR);
      cursor, dirty, fullSync, creative, drag := AIR, {}, true, false, C.NO_DRAG;
    }

    /** Out of range reads air. */
    function Get(slot: nat): ItemStack
      reads this, slots
    {
      if slot < slots.Length then slots[slot] else AIR
    }

    /** Out of range is ignored; anything but air marks the slot. */
    method Set(slot: nat, item: ItemStack)
      modifies this`dirty, slots
      ensures slot < slots.Length ==> State() == C.SetSlot(old(State()), slot, item)
      ensures slot >= slots.Length ==> State() == old(State())
    {
      if slot < slots.Length {
        slots[slot] := item;
        if !C.IsAir(item) {
          dirty := dirty + {slot};
        }
      }
    }

    method ClickPickup(slot: nat, button: int) returns (changed: bool)
      requires slot < slots.Length
      modifies this, slots
      ensures (State(), changed) == C.Pickup(old(State()), slot, button)
    {
      hide MaxStack;
      var s, c := Get(slot), cursor;
      if button != 0 && button != 1 {
        return false;
      }
      if C.IsAir(c) {
        if C.IsAir(s) {
          return false;
        }
        if button == 0 {
          cursor := s;
          Set(slot, AIR);
        } else {
          var half := C.Half(s.amount);
          cursor := NewStack(s.material, half);
          Set(slot, C.WithAmount(s, C.SubSat(s.amount, half)));
        }
        return true;
      }
      if C.IsAir(s) || s.material == c.material {
        var n: Byte;
        if button == 0 {
          n := C.Min(C.SubSat(MaxStack(s), s.amount), c.amount);
        } else {
          n := if s.amount < MaxStack(s) then 1 else 0;
        }
        if n == 0 {
          return false;
        }
        Set(slot, NewStack(c.material, C.AddSat(s.amount, n)));
        cursor := C.WithAmount(c, C.SubSat(c.amount, n));
        return true;
      }
      cursor := s;
      Set(slot, c);
      return true;
    }

    method TopUp(stack: ItemStack, lo: nat, hi: nat, amount: Byte) returns (remaining: Byte)
      requires lo <= hi <= slots.Length
      modifies this`dirty, slots
      ensures (State(), remaining) == C.TopUp(old(State()), stack, lo, hi, amount)
    {
      hide MaxStack;
      remaining := amount;
      var d := lo;
      while d < hi && remaining != 0
        invariant lo <= d <= hi
        invariant C.TopUp(State(), stack, d, hi, remaining) == C.TopUp(old(State()), stack, lo, hi, amount)
      {
        var t := Get(d);
        if !C.IsAir(t) && t.material == stack.material && t.amount < MaxStack(stack) {
          var n := C.Min(MaxStack(stack) - t.amount, remaining);
          Set(d, t.(amount := C.AddSat(t.amount, n)));
          remaining := C.SubSat(remaining, n);
        }
        d := d + 1;
      }
    }

    method FillEmpty(stack: ItemStack, lo: nat, hi: nat, amount: Byte) returns (remaining: Byte)
      requires lo <= hi <= slots.Length
      modifies this`dirty, slots
      ensures (State(), remaining) == C.FillEmpty(old(State()), stack, lo, hi, amount)
    {
      remaining := amount;
      var d := lo;
      while d < hi && remaining != 0
        invariant lo <= d <= hi
        invariant C.FillEmpty(State(), stack, d, hi, remaining) == C.FillEmpty(old(State()), stack, lo, hi, amount)
      {
        if C.IsAir(Get(d)) {
          Set(d, NewStack(stack.material, remaining));
          remaining := 0;
        }
        d := d + 1;
      }
    }

    method ClickQuickMove(slot: nat) returns (changed: bool)
      requires slot < slots.Length == C.SLOTS
      modifies this`dirty, slots
      ensures (State(), changed) == C.QuickMove(old(State()), slot)
    {
      hide C.TopUp, C.FillEmpty;
      var s := Get(slot);
      if C.IsAir(s) || slot > 35 {
        return false;
      }
      var lo, hi := if slot <= 8 then 9 else 0, if slot <= 8 then 36 else 9;
      var remaining := TopUp(s, lo, hi, s.amount);
      remaining := FillEmpty(s, lo, hi, remaining);
      Set(slot, NewStack(s.material, remaining));
      return remaining != s.amount;
    }

    method ClickSwap(slot: nat, button: int) returns (changed: bool)
      requires slot < slots.Length == C.SLOTS
      modifies this`dirty, slots
      ensures (State(), changed) == C.Swap(old(State()), slot, button)
    {
      if !(0 <= button <= 8) {
        return false;
      }
      var a, b := Get(slot), Get(button);
      Set(slot, b);
      Set(button, a);
      return true;
    }

    method ClickThrow(slot: nat, button: int) returns (changed: bool)
      requires slot < slots.Length
      modifies this`dirty, slots
      ensures (State(), changed) == C.Throw(old(State()), slot, button)
    {
      var s := Get(slot);
      if C.IsAir(s) || (button != 0 && button != 1) {
        return false;
      }
      Set(slot, if button == 0 then AIR else C.WithAmount(s, s.amount - 1));
      return true;
    }

    method ClickPickupAll() returns (changed: bool)
      modifies this, slots
      ensures (State(), changed) == C.PickupAll(old(State()))
    {
      hide MaxStack;
      var c := cursor;
      if C.IsAir(c) || c.amount >= MaxStack(c) {
        return false;
      }
      ghost var v := State();
      var first := MaxStack(c) - c.amount;
      C.GatherShape(v, c.material, 0, first);
      var space: Byte := first;
      changed := false;
      var s := 0;
      while s < slots.Length && space != 0
        invariant 0 <= s <= slots.Length && State().cursor == c && space <= first
        invariant var (v', left, more) := C.Gather(State(), c.material, s, space);
                  (v', left, changed || more) == C.Gather(v, c.material, 0, first)
        decreases slots.Length - s
      {
        var t := Get(s);
        if !C.IsAir(t) && t.material == c.material {
          var n := C.Min(t.amount, space);
          space := C.SubSat(space, n);
          Set(s, C.WithAmount(t, C.SubSat(t.amount, n)));
          changed := true;
        }
        s := s + 1;
      }
      if changed {
        cursor := c.(amount := MaxStack(c) - space);
      }
    }

    method ClickClone(slot: nat, button: int) returns (changed: bool)
      requires slot < slots.Length
      modifies this`cursor
      ensures (State(), changed) == C.Clone(old(State()), slot, button)
    {
      var s := Get(slot);
      if button != 0 || !creative || C.IsAir(s) {
        return false;
      }
      cursor := s;
      return true;
    }

    method QuickCraftSpread(amount: Byte) returns (changed: bool)
      requires forall i | 0 <= i < |drag.targets| :: drag.targets[i] < slots.Length
      modifies this, slots
      ensures (State(), changed) == C.Spread(old(State()), amount)
    {
      hide MaxStack;
      if C.IsAir(cursor) || amount == 0 {
        return false;
      }
      ghost var v := State();
      var material := cursor.material;
      C.DealShape(v, material, 0, amount);
      var remaining: Byte := amount;
      changed := false;
      var targets := drag.targets;
      var t := 0;
      while t < |targets| && remaining != 0
        invariant 0 <= t <= |targets| && targets == drag.targets && cursor == v.cursor && remaining <= amount
        invariant var (v', left, more) := C.Deal(State(), material, t, remaining);
                  (v', left, changed || more) == C.Deal(v, material, 0, amount)
        decreases |targets| - t
      {
        var slot := targets[t];
        var s := Get(slot);
        var n := C.Min(C.SubSat(MaxStack(s), s.amount), remaining);
        if (C.IsAir(s) || s.material == material) && n != 0 {
          Set(slot, if C.IsAir(s) then NewStack(material, n) else s.(amount := C.AddSat(s.amount, n)));
          remaining := C.SubSat(remaining, n);
          changed := true;
        }
        t := t + 1;
      }
      if changed {
        cursor := C.WithAmount(cursor, C.SubSat(cursor.amount, amount - remaining));
      }
    }

    method ClickQuickCraft(slot: nat, button: int) returns (changed: bool)
      requires Valid() && slot < slots.Length
      modifies this, slots
      ensures (State(), changed) == C.QuickCraft(old(State()), slot, button)
    {
      hide C.Spread, C.Covers;
      if button == 0 {
        if C.IsAir(cursor) {
          return false;
        }
        drag := C.Drag(0, [slot], [Get(slot)]);
        return true;
      }
      if !(1 <= button <= 3) || drag.targets == [] {
        return false;
      }
      if slot !in drag.targets {
        drag := C.Drag(drag.stage, drag.targets + [slot], drag.snapshot + [Get(slot)]);
      }
      drag := drag.(stage := button);
      var amount := if button == 2 then C.Half(cursor.amount) else cursor.amount;
      changed := QuickCraftSpread(amount);
      if button == 3 {
        drag := C.NO_DRAG;
      }
    }

    method CancelQuickCraft() returns (cancelled: bool)
      requires Valid()
      modifies this, slots
      ensures Valid() && (State(), cancelled) == C.Cancel(old(State()))
    {
      hide C.Covers;
      C.CancelValid(State());
      if drag.targets == [] {
        return false;
      }
      ghost var v := State();
      var targets, snapshot := drag.targets, drag.snapshot;
      var i := 0;
      while i < |targets|
        invariant 0 <= i <= |targets| && cursor == v.cursor && creative == v.creative
        invariant C.Restore(State(), targets[i..], snapshot[i..]) == C.Restore(v, targets, snapshot)
      {
        assert targets[i..][1..] == targets[i + 1..] && snapshot[i..][1..] == snapshot[i + 1..];
        Set(targets[i], snapshot[i]);
        i := i + 1;
      }
      drag := C.NO_DRAG;
      return true;
    }

    method ApplyClick(window: int, button: int, mode: int) returns (changed: bool)
      requires Valid()
      modifies this, slots
      ensures Valid() && (State(), changed) == C.ApplyClick(old(State()), window, button, mode)
    {
      hide C.Pickup, C.QuickMove, C.Swap, C.Clone, C.Throw, C.QuickCraft, C.PickupAll, C.Cancel, C.Covers;
      T.ApplyClickValid(State(), window, button, mode);
      if !(0 <= window <= 45) {
        return false;
      }
      var slot: nat := C.FromWindow(window);
      var cancelled := false;
      if mode != C.CLICK_QUICK_CRAFT {
        cancelled := CancelQuickCraft();
      }
      var clicked := false;
      if mode == C.CLICK_PICKUP {
        clicked := ClickPickup(slot, button);
      } else if mode == C.CLICK_QUICK_MOVE {
        clicked := ClickQuickMove(slot);
      } else if mode == C.CLICK_SWAP {
        clicked := ClickSwap(slot, button);
      } else if mode == C.CLICK_CLONE {
        clicked := ClickClone(slot, button);
      } else if mode == C.CLICK_THROW {
        clicked := ClickThrow(slot, button);
      } else if mode == C.CLICK_QUICK_CRAFT {
        clicked := ClickQuickCraft(slot, button);
      } else if mode == C.CLICK_PICKUP_ALL {
        clicked := ClickPickupAll();
      }
      changed := cancelled || clicked;
      if changed {
        fullSync := true;
      }
    }

    method DropCursor() returns (changed: bool)
      requires Valid()
      modifies this, slots
      ensures Valid() && (State(), changed) == C.DropCursor(old(State()))
    {
      hide C.Cancel, C.Covers;
      T.DropCursorNeverAdds(State(), 0);
      changed := CancelQuickCraft();
      if !C.IsAir(cursor) {
        cursor := AIR;
        fullSync := true;
        changed := true;
      }
    }

    method AddItem(item: ItemStack) returns (left: ItemStack)
      modifies this`dirty, slots
      ensures (State(), left) == C.AddItem(old(State()), item)
    {
      hide MaxStack;
      if C.IsAir(item) {
        return AIR;
      }
      ghost var v := State();
      left := item;
      var s := 0;
      while s < slots.Length && !C.IsAir(left)
        invariant 0 <= s <= slots.Length
        invariant C.Stack(State(), left, s) == C.Stack(v, item, 0)
        decreases slots.Length - s
      {
        var t := Get(s);
        var space := C.SubSat(MaxStack(t), t.amount);
        if !C.IsAir(t) && t.material == left.material && t.components == left.components && space > 0 {
          var n := C.Min(space, left.amount);
          Set(s, t.(amount := C.AddSat(t.amount, n)));
          left := left.(amount := C.SubSat(left.amount, n));
        }
        s := s + 1;
      }
      ghost var v1, left1 := State(), left;
      s := 0;
      while s < slots.Length && !C.IsAir(left)
        invariant 0 <= s <= slots.Length
        invariant C.Fill(State(), left, s) == C.Fill(v1, left1, 0)
        decreases slots.Length - s
      {
        if C.IsAir(Get(s)) {
          var n := C.Min(MaxStack(left), left.amount);
          Set(s, left.(amount := n));
          left := left.(amount := C.SubSat(left.amount, n));
        }
        s := s + 1;
      }
      return if C.IsAir(left) then AIR else left;
    }
  }
}
