/** Authoritative inventory clicks, from inventory.rs: what each click does, as functions on values. */
module InventoryClicks {
  import opened Wrappers
  import opened Bytes
  import opened Items

  const SLOTS: nat := 46

  const CLICK_PICKUP: int := 0
  const CLICK_QUICK_MOVE: int := 1
  const CLICK_SWAP: int := 2
  const CLICK_CLONE: int := 3
  const CLICK_THROW: int := 4
  const CLICK_QUICK_CRAFT: int := 5
  const CLICK_PICKUP_ALL: int := 6

  /** An unfinished drag: the slots it touched and what they held when they joined it. */
  datatype Drag = Drag(stage: nat, targets: seq<nat>, snapshot: seq<ItemStack>)

  const NO_DRAG := Drag(0, [], [])

  datatype Inventory = Inventory(
    slots: seq<ItemStack>, cursor: ItemStack, dirty: set<nat>, fullSync: bool, creative: bool, drag: Drag)

  // ---- small parts ----

  function AddSat(a: Byte, b: Byte): Byte {
    if a + b < 256 then a + b else 255
  }

  function SubSat(a: Byte, b: Byte): Byte {
    if b <= a then a - b else 0
  }

  function Min(a: Byte, b: Byte): Byte {
    if a <= b then a else b
  }

  function Half(a: Byte): Byte {
    (a + 1) / 2
  }

  function IsAir(s: ItemStack): bool {
    s.amount == 0
  }

  /** A stack with a new amount; nothing left is air. */
  function WithAmount(s: ItemStack, n: Byte): ItemStack {
    if n == 0 then AIR else s.(amount := n)
  }

  function SetSlot(v: Inventory, slot: nat, item: ItemStack): Inventory
    requires slot < |v.slots|
  {
    v.(slots := v.slots[slot := item], dirty := if IsAir(item) then v.dirty else v.dirty + {slot})
  }

  function Active(v: Inventory): bool {
    v.drag.targets != []
  }

  // ---- slot numbering ----

  function ToWindow(slot: int): int {
    if 0 <= slot <= 8 then slot + 36
    else if 9 <= slot <= 35 then slot
    else if 36 <= slot <= 40 then slot - 36
    else if 41 <= slot <= 44 then slot - 36
    else if slot == 45 then 45
    else slot
  }

  function FromWindow(w: int): int {
    if 0 <= w <= 8 then w + 36 else if 9 <= w <= 35 then w else if 36 <= w <= 44 then w - 36 else 45
  }

  /** The two numberings of the 46 slots are inverse to each other. */
  lemma NumberingsAreInverse(n: int)
    ensures FromWindow(ToWindow(n)) == n && ToWindow(FromWindow(n)) == n <==> 0 <= n < SLOTS
  {
  }

  // ---- the invariant ----

  /** The slot still holds at least what the snapshot says. */
  predicate Covers(now: ItemStack, snap: ItemStack) {
    IsAir(snap) || (now.material == snap.material && now.amount >= snap.amount)
  }

  ghost predicate Valid(v: Inventory) {
    && |v.slots| == SLOTS
    && |v.drag.targets| == |v.drag.snapshot|
    && (forall i | 0 <= i < |v.drag.targets| :: v.drag.targets[i] < SLOTS)
    && (forall i, j | 0 <= i < j < |v.drag.targets| :: v.drag.targets[i] != v.drag.targets[j])
    && (forall i | 0 <= i < |v.drag.targets| :: Covers(v.slots[v.drag.targets[i]], v.drag.snapshot[i]))
  }

  // ---- clicks ----

  function Pickup(v: Inventory, slot: nat, button: int): (Inventory, bool)
    requires slot < |v.slots|
  {
    var s, c := v.slots[slot], v.cursor;
    if button == 0 then
      if IsAir(c) then
        if IsAir(s) then (v, false) else (SetSlot(v.(cursor := s), slot, AIR), true)
      else if IsAir(s) || s.material == c.material then
        var n := Min(SubSat(MaxStack(s), s.amount), c.amount);
        if n == 0 then (v, false)
        else
          (SetSlot(v.(cursor := WithAmount(c, SubSat(c.amount, n))), slot, NewStack(c.material, AddSat(s.amount, n))),
           true)
      else (SetSlot(v.(cursor := s), slot, c), true)
    else if button == 1 then
      if IsAir(c) then
        if IsAir(s) then (v, false)
        else
          (SetSlot(v.(cursor := NewStack(s.material, Half(s.amount))), slot,
                   WithAmount(s, SubSat(s.amount, Half(s.amount)))),
           true)
      else if IsAir(s) || s.material == c.material then
        if s.amount < MaxStack(s) then
          (SetSlot(v.(cursor := WithAmount(c, SubSat(c.amount, 1))), slot, NewStack(c.material, AddSat(s.amount, 1))),
           true)
        else (v, false)
      else (SetSlot(v.(cursor := s), slot, c), true)
    else (v, false)
  }

  /** Tops up stacks of the same material in slots d to hi. */
  function TopUp(v: Inventory, stack: ItemStack, d: nat, hi: nat, remaining: Byte): (Inventory, Byte)
    requires hi <= |v.slots|
    decreases hi - d
  {
    if d >= hi || remaining == 0 then (v, remaining)
    else
      var t := v.slots[d];
      if !IsAir(t) && t.material == stack.material && t.amount < MaxStack(stack) then
        var n := Min(MaxStack(stack) - t.amount, remaining);
        TopUp(SetSlot(v, d, t.(amount := AddSat(t.amount, n))), stack, d + 1, hi, SubSat(remaining, n))
      else TopUp(v, stack, d + 1, hi, remaining)
  }

  /** Puts everything into the first empty slot from d to hi. */
  function FillEmpty(v: Inventory, stack: ItemStack, d: nat, hi: nat, remaining: Byte): (Inventory, Byte)
    requires hi <= |v.slots|
    decreases hi - d
  {
    if d >= hi || remaining == 0 then (v, remaining)
    else if IsAir(v.slots[d]) then (SetSlot(v, d, NewStack(stack.material, remaining)), 0)
    else FillEmpty(v, stack, d + 1, hi, remaining)
  }

  function QuickMove(v: Inventory, slot: nat): (Inventory, bool)
    requires |v.slots| == SLOTS && slot < SLOTS
  {
    var s := v.slots[slot];
    if IsAir(s) || slot > 35 then (v, false)
    else
      var lo, hi := if slot <= 8 then 9 else 0, if slot <= 8 then 36 else 9;
      var (v1, r1) := TopUp(v, s, lo, hi, s.amount);
      TopUpKeepsSize(v, s, lo, hi, s.amount);
      var (v2, r2) := FillEmpty(v1, s, lo, hi, r1);
      FillEmptyKeepsSize(v1, s, lo, hi, r1);
      (SetSlot(v2, slot, NewStack(s.material, r2)), r2 != s.amount)
  }

  function Swap(v: Inventory, slot: nat, button: int): (Inventory, bool)
    requires |v.slots| == SLOTS && slot < SLOTS
  {
    if !(0 <= button <= 8) then (v, false)
    else (SetSlot(SetSlot(v, slot, v.slots[button]), button, v.slots[slot]), true)
  }

  function Throw(v: Inventory, slot: nat, button: int): (Inventory, bool)
    requires slot < |v.slots|
  {
    var s := v.slots[slot];
    if IsAir(s) then (v, false)
    else if button == 0 then (SetSlot(v, slot, AIR), true)
    else if button == 1 then (SetSlot(v, slot, WithAmount(s, s.amount - 1)), true)
    else (v, false)
  }

  function Clone(v: Inventory, slot: nat, button: int): (Inventory, bool)
    requires slot < |v.slots|
  {
    if button != 0 || !v.creative || IsAir(v.slots[slot]) then (v, false)
    else (v.(cursor := v.slots[slot]), true)
  }

  /** Takes from slots s onwards until `space` is used up. */
  function Gather(v: Inventory, material: U32, s: nat, space: Byte): (Inventory, Byte, bool)
    decreases |v.slots| - s
  {
    if s >= |v.slots| || space == 0 then (v, space, false)
    else
      var t := v.slots[s];
      if IsAir(t) || t.material != material then Gather(v, material, s + 1, space)
      else
        var n := Min(t.amount, space);
        var taken := SetSlot(v, s, WithAmount(t, SubSat(t.amount, n)));
        var (v', left, _) := Gather(taken, material, s + 1, SubSat(space, n));
        (v', left, true)
  }

  function PickupAll(v: Inventory): (Inventory, bool) {
    var c := v.cursor;
    if IsAir(c) || c.amount >= MaxStack(c) then (v, false)
    else
      GatherShape(v, c.material, 0, MaxStack(c) - c.amount);
      var (v', space, changed) := Gather(v, c.material, 0, MaxStack(c) - c.amount);
      (if changed then v'.(cursor := c.(amount := MaxStack(c) - space)) else v', changed)
  }

  // ---- the drag ----

  function StartDrag(v: Inventory, slot: nat): (Inventory, bool)
    requires slot < |v.slots|
  {
    if IsAir(v.cursor) then (v, false) else (v.(drag := Drag(0, [slot], [v.slots[slot]])), true)
  }

  function AddTarget(v: Inventory, slot: nat): Inventory
    requires slot < |v.slots|
  {
    if slot in v.drag.targets then v
    else v.(drag := Drag(v.drag.stage, v.drag.targets + [slot], v.drag.snapshot + [v.slots[slot]]))
  }

  /** Places up to `remaining` items over the targets from t on. */
  function Deal(v: Inventory, material: U32, t: nat, remaining: Byte): (Inventory, Byte, bool)
    requires forall i | 0 <= i < |v.drag.targets| :: v.drag.targets[i] < |v.slots|
    decreases |v.drag.targets| - t
  {
    if t >= |v.drag.targets| || remaining == 0 then (v, remaining, false)
    else
      var slot := v.drag.targets[t];
      var s := v.slots[slot];
      var n := Min(SubSat(MaxStack(s), s.amount), remaining);
      if (!IsAir(s) && s.material != material) || n == 0 then Deal(v, material, t + 1, remaining)
      else
        var item := if IsAir(s) then NewStack(material, n) else s.(amount := AddSat(s.amount, n));
        var (v', left, _) := Deal(SetSlot(v, slot, item), material, t + 1, SubSat(remaining, n));
        (v', left, true)
  }

  function Spread(v: Inventory, amount: Byte): (Inventory, bool)
    requires forall i | 0 <= i < |v.drag.targets| :: v.drag.targets[i] < |v.slots|
  {
    if IsAir(v.cursor) || amount == 0 then (v, false)
    else
      DealShape(v, v.cursor.material, 0, amount);
      var (v', left, changed) := Deal(v, v.cursor.material, 0, amount);
      (if changed then v'.(cursor := WithAmount(v.cursor, SubSat(v.cursor.amount, amount - left))) else v', changed)
  }

  function QuickCraft(v: Inventory, slot: nat, button: int): (Inventory, bool)
    requires Valid(v) && slot < SLOTS
  {
    if button == 0 then StartDrag(v, slot)
    else if !(1 <= button <= 3) || !Active(v) then (v, false)
    else
      var v1 := AddTarget(v, slot);
      var v2 := v1.(drag := v1.drag.(stage := button));
      var (v3, changed) := Spread(v2, if button == 2 then Half(v.cursor.amount) else v.cursor.amount);
      (if button == 3 then v3.(drag := NO_DRAG) else v3, changed)
  }

  function Restore(v: Inventory, targets: seq<nat>, snapshot: seq<ItemStack>): Inventory
    requires |targets| == |snapshot| && forall i | 0 <= i < |targets| :: targets[i] < |v.slots|
    decreases |targets|
  {
    if targets == [] then v else Restore(SetSlot(v, targets[0], snapshot[0]), targets[1..], snapshot[1..])
  }

  /** Rolls the targets back; the cursor keeps what it holds. */
  function Cancel(v: Inventory): (Inventory, bool)
    requires Valid(v)
  {
    if !Active(v) then (v, false)
    else (Restore(v, v.drag.targets, v.drag.snapshot).(drag := NO_DRAG), true)
  }

  // ---- a whole click ----

  function Click(v: Inventory, slot: nat, button: int, mode: int): (Inventory, bool)
    requires Valid(v) && slot < SLOTS
  {
    if mode == CLICK_PICKUP then Pickup(v, slot, button)
    else if mode == CLICK_QUICK_MOVE then QuickMove(v, slot)
    else if mode == CLICK_SWAP then Swap(v, slot, button)
    else if mode == CLICK_CLONE then Clone(v, slot, button)
    else if mode == CLICK_THROW then Throw(v, slot, button)
    else if mode == CLICK_QUICK_CRAFT then QuickCraft(v, slot, button)
    else if mode == CLICK_PICKUP_ALL then PickupAll(v)
    else (v, false)
  }

  /** Any click that is not part of the drag cancels it first. */
  function ApplyClick(v: Inventory, window: int, button: int, mode: int): (Inventory, bool)
    requires Valid(v)
  {
    if !(0 <= window <= 45) then (v, false)
    else
      var (v1, cancelled) := if mode != CLICK_QUICK_CRAFT then Cancel(v) else (v, false);
      CancelValid(v);
      var (v2, clicked) := Click(v1, FromWindow(window), button, mode);
      var changed := cancelled || clicked;
      (if changed then v2.(fullSync := true) else v2, changed)
  }

  function DropCursor(v: Inventory): (Inventory, bool)
    requires Valid(v)
  {
    var (v1, cancelled) := Cancel(v);
    if IsAir(v1.cursor) then (v1, cancelled) else (v1.(cursor := AIR, fullSync := true), true)
  }

  // ---- shapes ----

  lemma {:induction false} TopUpKeepsSize(v: Inventory, stack: ItemStack, d: nat, hi: nat, remaining: Byte)
    requires hi <= |v.slots|
    ensures var v' := TopUp(v, stack, d, hi, remaining).0;
            |v'.slots| == |v.slots| && v'.cursor == v.cursor && v'.drag == v.drag && v'.creative == v.creative
    decreases hi - d
  {
    if d < hi && remaining > 0 {
      var t := v.slots[d];
      if !IsAir(t) && t.material == stack.material && t.amount < MaxStack(stack) {
        var n := Min(MaxStack(stack) - t.amount, remaining);
        TopUpKeepsSize(SetSlot(v, d, t.(amount := AddSat(t.amount, n))), stack, d + 1, hi, SubSat(remaining, n));
      } else {
        TopUpKeepsSize(v, stack, d + 1, hi, remaining);
      }
    }
  }

  lemma {:induction false} FillEmptyKeepsSize(v: Inventory, stack: ItemStack, d: nat, hi: nat, remaining: Byte)
    requires hi <= |v.slots|
    ensures var v' := FillEmpty(v, stack, d, hi, remaining).0;
            |v'.slots| == |v.slots| && v'.cursor == v.cursor && v'.drag == v.drag && v'.creative == v.creative
    decreases hi - d
  {
    if d < hi && remaining > 0 && !IsAir(v.slots[d]) {
      FillEmptyKeepsSize(v, stack, d + 1, hi, remaining);
    }
  }

  lemma {:induction false} GatherShape(v: Inventory, material: U32, s: nat, space: Byte)
    ensures var (v', left, _) := Gather(v, material, s, space);
            && |v'.slots| == |v.slots| && v'.cursor == v.cursor && v'.drag == v.drag && v'.creative == v.creative
            && left <= space
    decreases |v.slots| - s
  {
    if s < |v.slots| && space > 0 {
      var t := v.slots[s];
      if IsAir(t) || t.material != material {
        GatherShape(v, material, s + 1, space);
      } else {
        var n := Min(t.amount, space);
        GatherShape(SetSlot(v, s, WithAmount(t, SubSat(t.amount, n))), material, s + 1, SubSat(space, n));
      }
    }
  }

  lemma {:induction false} DealShape(v: Inventory, material: U32, t: nat, remaining: Byte)
    requires forall i | 0 <= i < |v.drag.targets| :: v.drag.targets[i] < |v.slots|
    ensures var (v', left, _) := Deal(v, material, t, remaining);
            && |v'.slots| == |v.slots| && v'.cursor == v.cursor && v'.drag == v.drag && v'.creative == v.creative
            && left <= remaining
    decreases |v.drag.targets| - t
  {
    if t < |v.drag.targets| && remaining > 0 {
      var slot := v.drag.targets[t];
      var s := v.slots[slot];
      var n := Min(SubSat(MaxStack(s), s.amount), remaining);
      if (!IsAir(s) && s.material != material) || n == 0 {
        DealShape(v, material, t + 1, remaining);
      } else {
        var item := if IsAir(s) then NewStack(material, n) else s.(amount := AddSat(s.amount, n));
        DealShape(SetSlot(v, slot, item), material, t + 1, SubSat(remaining, n));
      }
    }
  }

  lemma {:induction false} RestoreShape(v: Inventory, targets: seq<nat>, snapshot: seq<ItemStack>)
    requires |targets| == |snapshot| && forall i | 0 <= i < |targets| :: targets[i] < |v.slots|
    ensures var v' := Restore(v, targets, snapshot);
            |v'.slots| == |v.slots| && v'.cursor == v.cursor && v'.creative == v.creative && v'.fullSync == v.fullSync
    decreases |targets|
  {
    if targets != [] {
      RestoreShape(SetSlot(v, targets[0], snapshot[0]), targets[1..], snapshot[1..]);
    }
  }

  lemma CancelValid(v: Inventory)
    requires Valid(v)
    ensures Valid(Cancel(v).0) && !Active(Cancel(v).0)
    ensures Cancel(v).0.cursor == v.cursor && Cancel(v).0.creative == v.creative
  {
    RestoreShape(v, v.drag.targets, v.drag.snapshot);
  }

  // ---- adding items ----

  /** Tops up stacks of the same material and components. */
  function Stack(v: Inventory, item: ItemStack, s: nat): (Inventory, ItemStack)
    decreases |v.slots| - s
  {
    if s >= |v.slots| || IsAir(item) then (v, item)
    else
      var t := v.slots[s];
      var space := SubSat(MaxStack(t), t.amount);
      if !IsAir(t) && t.material == item.material && t.components == item.components && space > 0 then
        var n := Min(space, item.amount);
        Stack(SetSlot(v, s, t.(amount := AddSat(t.amount, n))), item.(amount := SubSat(item.amount, n)), s + 1)
      else Stack(v, item, s + 1)
  }

  /** Fills empty slots, as much in each as a slot takes. */
  function Fill(v: Inventory, item: ItemStack, s: nat): (Inventory, ItemStack)
    decreases |v.slots| - s
  {
    if s >= |v.slots| || IsAir(item) then (v, item)
    else if IsAir(v.slots[s]) then
      var n := Min(MaxStack(item), item.amount);
      Fill(SetSlot(v, s, item.(amount := n)), item.(amount := SubSat(item.amount, n)), s + 1)
    else Fill(v, item, s + 1)
  }

  /** The inventory and what did not fit. */
  function AddItem(v: Inventory, item: ItemStack): (Inventory, ItemStack) {
    if IsAir(item) then (v, AIR)
    else
      var (v1, left1) := Stack(v, item, 0);
      var (v2, left2) := Fill(v1, left1, 0);
      (v2, if IsAir(left2) then AIR else left2)
  }
}
