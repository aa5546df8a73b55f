/** When clicks keep every stack within its own limit. */
module InventoryLimits {
  import opened Wrappers
  import opened Bytes
  import opened Items
  import opened InventoryClicks
  import opened InventoryTheorems

  /** A stack within its limit; nothing is the one empty stack; a plain one has the default limit. */
  predicate Fine(s: ItemStack, plain: bool) {
    s.amount <= MaxStack(s) && (IsAir(s) ==> s == AIR) && (plain ==> MaxStack(s) == MAX_STACK)
  }

  predicate AllFine(stacks: seq<ItemStack>, plain: bool) {
    forall i | 0 <= i < |stacks| :: Fine(stacks[i], plain)
  }

  /** Slots, cursor and the snapshots of an open drag. */
  predicate InLimits(v: Inventory, plain: bool) {
    AllFine(v.slots, plain) && Fine(v.cursor, plain) && AllFine(v.drag.snapshot, plain)
  }

  // ---- small parts ----

  lemma NewFine(material: U32, n: Byte, plain: bool)
    ensures Fine(NewStack(material, n), plain) <==> n <= MAX_STACK
  {
  }

  lemma LessFine(s: ItemStack, n: Byte, plain: bool)
    requires Fine(s, plain) && n <= MaxStack(s)
    ensures Fine(WithAmount(s, n), plain) && (n > 0 ==> Fine(s.(amount := n), plain))
  {
  }

  lemma SetFine(v: Inventory, slot: nat, item: ItemStack, plain: bool)
    requires InLimits(v, plain) && slot < |v.slots|
    ensures InLimits(SetSlot(v, slot, item), plain) <==> Fine(item, plain)
  {
    hide Fine;
    assert SetSlot(v, slot, item).slots[slot] == item;
  }

  // ---- what overfills ----

  /** What a pickup click puts down or takes up loses its components, and with them its limit. */
  predicate PickupOverfills(s: ItemStack, c: ItemStack, button: int) {
    if IsAir(c) then button == 1 && Half(s.amount) > MAX_STACK
    else
      (IsAir(s) || s.material == c.material)
      && (if button == 0 then Min(MaxStack(s), AddSat(s.amount, c.amount)) > MAX_STACK && s.amount < MaxStack(s)
          else button == 1 && MAX_STACK <= s.amount < MaxStack(s))
  }

  /** How much of the stack a slot takes up to the limit of the stack, whatever its own limit. */
  function RoomIn(t: ItemStack, stack: ItemStack): nat {
    if !IsAir(t) && t.material == stack.material && t.amount < MaxStack(stack) then MaxStack(stack) - t.amount else 0
  }

  /** How much the slots d to k take. */
  function RoomBefore(slots: seq<ItemStack>, stack: ItemStack, d: nat, k: nat): nat
    requires k <= |slots|
    decreases k - d
  {
    if d >= k then 0 else RoomIn(slots[d], stack) + RoomBefore(slots, stack, d + 1, k)
  }

  /** What slot k receives of `amount` items dealt from slot d on. */
  function Share(slots: seq<ItemStack>, stack: ItemStack, d: nat, k: nat, amount: nat): nat
    requires k < |slots|
  {
    var before := RoomBefore(slots, stack, d, k);
    if before >= amount then 0
    else if RoomIn(slots[k], stack) <= amount - before then RoomIn(slots[k], stack)
    else amount - before
  }

  /** A slot of the other range gets more than it holds by its own limit, or more is left over for one
    * slot than a stack without components may have. */
  predicate QuickMoveOverfills(v: Inventory, slot: nat)
    requires |v.slots| == SLOTS && slot < SLOTS
  {
    var s := v.slots[slot];
    var lo, hi := if slot <= 8 then 9 else 0, if slot <= 8 then 36 else 9;
    !IsAir(s) && slot <= 35
    && ((exists k :: lo <= k < hi && v.slots[k].amount + Share(v.slots, s, lo, k, s.amount) > MaxStack(v.slots[k]))
        || s.amount > RoomBefore(v.slots, s, lo, hi) + MAX_STACK)
  }

  predicate Overfills(v: Inventory, slot: nat, button: int, mode: int)
    requires |v.slots| == SLOTS && slot < SLOTS
  {
    if mode == CLICK_PICKUP then PickupOverfills(v.slots[slot], v.cursor, button)
    else mode == CLICK_QUICK_MOVE && QuickMoveOverfills(v, slot)
  }

  // ---- pickup, swap, throw, clone ----

  /** A click on an inventory of one slot. */
  function OneSlot(s: ItemStack, c: ItemStack): Inventory {
    Inventory([s], c, {}, false, false, NO_DRAG)
  }

  lemma PickupStacks(s: ItemStack, c: ItemStack, button: int, plain: bool)
    requires Fine(s, plain) && Fine(c, plain)
    ensures var (w, changed) := Pickup(OneSlot(s, c), 0, button);
            |w.slots| == 1
            && (if changed then (Fine(w.slots[0], plain) && Fine(w.cursor, plain)) <==> !PickupOverfills(s, c, button)
                else !PickupOverfills(s, c, button))
  {
  }

  /** A pickup does to its slot and the cursor what it would do alone with them. */
  lemma PickupIsLocal(v: Inventory, slot: nat, button: int)
    requires slot < |v.slots|
    ensures var (v', changed) := Pickup(v, slot, button);
            var (w, changed') := Pickup(OneSlot(v.slots[slot], v.cursor), 0, button);
            && changed == changed' && |w.slots| == 1 && v'.cursor == w.cursor && v'.drag == v.drag
            && v'.slots == v.slots[slot := w.slots[0]]
            && (!changed ==> w.cursor == v.cursor && w.slots[0] == v.slots[slot])
  {
    hide MaxStack;
    assert v.slots == v.slots[slot := v.slots[slot]];
  }

  lemma PickupLimits(v: Inventory, slot: nat, button: int, plain: bool)
    requires InLimits(v, plain) && slot < |v.slots|
    ensures InLimits(Pickup(v, slot, button).0, plain) <==> !PickupOverfills(v.slots[slot], v.cursor, button)
  {
    hide Fine, MaxStack, Pickup, PickupOverfills;
    PickupIsLocal(v, slot, button);
    assert Fine(v.slots[slot], plain);
    PickupStacks(v.slots[slot], v.cursor, button, plain);
    var v' := Pickup(v, slot, button).0;
    assert forall i | 0 <= i < |v.slots| && i != slot :: v'.slots[i] == v.slots[i];
    assert v'.slots[slot] == Pickup(OneSlot(v.slots[slot], v.cursor), 0, button).0.slots[0];
  }

  lemma SwapLimits(v: Inventory, slot: nat, button: int, plain: bool)
    requires InLimits(v, plain) && |v.slots| == SLOTS && slot < SLOTS
    ensures InLimits(Swap(v, slot, button).0, plain)
  {
    hide Fine;
    if 0 <= button <= 8 {
      SetFine(v, slot, v.slots[button], plain);
      SetFine(SetSlot(v, slot, v.slots[button]), button, v.slots[slot], plain);
    }
  }

  lemma ThrowLimits(v: Inventory, slot: nat, button: int, plain: bool)
    requires InLimits(v, plain) && slot < |v.slots|
    ensures InLimits(Throw(v, slot, button).0, plain)
  {
    hide Fine, MaxStack;
    var s := v.slots[slot];
    LessThanFine(s, plain);
    NewFine(0, 0, plain);
    if !IsAir(s) && button == 0 {
      SetFine(v, slot, AIR, plain);
    } else if !IsAir(s) && button == 1 {
      LessFine(s, s.amount - 1, plain);
      SetFine(v, slot, WithAmount(s, s.amount - 1), plain);
    }
  }

  lemma LessThanFine(s: ItemStack, plain: bool)
    ensures Fine(s, plain) ==> s.amount <= MaxStack(s)
    ensures Fine(AIR, plain)
  {
  }

  // ---- collecting ----

  lemma {:induction false} GatherLimits(v: Inventory, material: U32, s: nat, space: Byte, plain: bool)
    requires InLimits(v, plain)
    ensures InLimits(Gather(v, material, s, space).0, plain) && Gather(v, material, s, space).1 <= space
    decreases |v.slots| - s
  {
    hide Fine, MaxStack;
    if s < |v.slots| && space > 0 {
      var t := v.slots[s];
      if IsAir(t) || t.material != material {
        GatherLimits(v, material, s + 1, space, plain);
      } else {
        var n := Min(t.amount, space);
        LessThanFine(t, plain);
        LessFine(t, SubSat(t.amount, n), plain);
        SetFine(v, s, WithAmount(t, SubSat(t.amount, n)), plain);
        GatherLimits(SetSlot(v, s, WithAmount(t, SubSat(t.amount, n))), material, s + 1, SubSat(space, n), plain);
      }
    }
  }

  lemma PickupAllLimits(v: Inventory, plain: bool)
    requires InLimits(v, plain)
    ensures InLimits(PickupAll(v).0, plain)
  {
    hide Fine, MaxStack, Gather;
    var c := v.cursor;
    if !IsAir(c) && c.amount < MaxStack(c) {
      GatherLimits(v, c.material, 0, MaxStack(c) - c.amount, plain);
      GatherShape(v, c.material, 0, MaxStack(c) - c.amount);
      LessFine(c, MaxStack(c) - Gather(v, c.material, 0, MaxStack(c) - c.amount).1, plain);
    }
  }

  // ---- the drag ----

  lemma {:induction false} DealLimits(v: Inventory, material: U32, t: nat, remaining: Byte, plain: bool)
    requires InLimits(v, plain) && forall i | 0 <= i < |v.drag.targets| :: v.drag.targets[i] < |v.slots|
    ensures InLimits(Deal(v, material, t, remaining).0, plain)
    decreases |v.drag.targets| - t
  {
    hide Fine, MaxStack;
    if t < |v.drag.targets| && remaining > 0 {
      var slot := v.drag.targets[t];
      var s := v.slots[slot];
      var n := Min(SubSat(MaxStack(s), s.amount), remaining);
      if (!IsAir(s) && s.material != material) || n == 0 {
        DealLimits(v, material, t + 1, remaining, plain);
      } else {
        var item := if IsAir(s) then NewStack(material, n) else s.(amount := AddSat(s.amount, n));
        DealtFine(s, material, n, plain);
        SetFine(v, slot, item, plain);
        DealLimits(SetSlot(v, slot, item), material, t + 1, SubSat(remaining, n), plain);
      }
    }
  }

  lemma DealtFine(s: ItemStack, material: U32, n: Byte, plain: bool)
    requires Fine(s, plain) && 0 < n <= SubSat(MaxStack(s), s.amount)
    ensures Fine(if IsAir(s) then NewStack(material, n) else s.(amount := AddSat(s.amount, n)), plain)
  {
  }

  lemma QuickCraftLimits(v: Inventory, slot: nat, button: int, plain: bool)
    requires Valid(v) && InLimits(v, plain) && slot < SLOTS
    ensures InLimits(QuickCraft(v, slot, button).0, plain)
  {
    hide Fine, MaxStack, Covers, Deal;
    LessThanFine(v.cursor, plain);
    if 1 <= button <= 3 && Active(v) {
      var v1 := AddTarget(v, slot);
      var v2 := v1.(drag := v1.drag.(stage := button));
      var amount := if button == 2 then Half(v.cursor.amount) else v.cursor.amount;
      assert InLimits(v2, plain);
      if !IsAir(v.cursor) && amount > 0 {
        DealLimits(v2, v2.cursor.material, 0, amount, plain);
        DealShape(v2, v2.cursor.material, 0, amount);
        var left := Deal(v2, v2.cursor.material, 0, amount).1;
        LessFine(v.cursor, SubSat(v.cursor.amount, amount - left), plain);
      }
    }
  }

  lemma CancelLimits(v: Inventory, plain: bool)
    requires Valid(v) && InLimits(v, plain)
    ensures InLimits(Cancel(v).0, plain)
  {
    hide Fine, Covers;
    var t := v.drag.targets;
    if Active(v) {
      RestoreShape(v, t, v.drag.snapshot);
      RestoreIs(v, t, v.drag.snapshot);
      var v' := Cancel(v).0;
      forall k | 0 <= k < |v'.slots|
        ensures Fine(v'.slots[k], plain)
      {
        if k in t {
          var i :| 0 <= i < |t| && t[i] == k;
          assert Fine(v.drag.snapshot[i], plain);
        }
      }
    }
  }

  // ---- the shift click ----

  lemma {:induction false} SameRoom(slots: seq<ItemStack>, i: nat, t: ItemStack, stack: ItemStack, d: nat, k: nat)
    requires i < d && k <= |slots| && i < |slots|
    ensures RoomBefore(slots[i := t], stack, d, k) == RoomBefore(slots, stack, d, k)
    decreases k - d
  {
    hide RoomIn;
    if d < k {
      SameRoom(slots, i, t, stack, d + 1, k);
    }
  }

  /** What the first loop of a shift click leaves over. */
  function Left(slots: seq<ItemStack>, stack: ItemStack, d: nat, hi: nat, amount: nat): nat
    requires hi <= |slots|
  {
    if RoomBefore(slots, stack, d, hi) >= amount then 0 else amount - RoomBefore(slots, stack, d, hi)
  }

  /** The stack a slot ends up with. */
  predicate Topped(t: ItemStack, t': ItemStack, share: nat) {
    t'.material == t.material && t'.components == t.components && t'.amount as nat == t.amount + share
  }

  lemma {:induction false} TopUpLeaves(v: Inventory, stack: ItemStack, d: nat, hi: nat, remaining: Byte)
    requires hi <= |v.slots|
    ensures TopUp(v, stack, d, hi, remaining).1 as nat == Left(v.slots, stack, d, hi, remaining)
    decreases hi - d
  {
    hide MaxStack;
    if d < hi && remaining > 0 {
      var t := v.slots[d];
      if RoomIn(t, stack) > 0 {
        var n := Min(MaxStack(stack) - t.amount, remaining);
        var t' := t.(amount := AddSat(t.amount, n));
        TopUpLeaves(SetSlot(v, d, t'), stack, d + 1, hi, SubSat(remaining, n));
        SameRoom(v.slots, d, t', stack, d + 1, hi);
      } else {
        TopUpLeaves(v, stack, d + 1, hi, remaining);
      }
    }
  }

  function Least(a: nat, b: nat): nat {
    if a <= b then a else b
  }

  lemma ShareOfFirst(slots: seq<ItemStack>, stack: ItemStack, d: nat, amount: nat)
    requires d < |slots|
    ensures Share(slots, stack, d, d, amount) == Least(RoomIn(slots[d], stack), amount)
  {
    hide RoomIn;
  }

  /** Later slots get the same whether the first is dealt with or not yet. */
  lemma ShareAfterFirst(slots: seq<ItemStack>, stack: ItemStack, d: nat, k: nat, amount: nat, t: ItemStack)
    requires d < k < |slots|
    ensures Share(slots[d := t], stack, d + 1, k, amount - Least(RoomIn(slots[d], stack), amount))
         == Share(slots, stack, d, k, amount)
  {
    hide RoomIn;
    SameRoom(slots, d, t, stack, d + 1, k);
  }

  lemma {:induction false} TopUpIs(v: Inventory, stack: ItemStack, d: nat, hi: nat, remaining: Byte, k: nat)
    requires d <= hi <= |v.slots| && k < |v.slots|
    ensures var v' := TopUp(v, stack, d, hi, remaining).0;
            && |v'.slots| == |v.slots| && v'.cursor == v.cursor && v'.drag == v.drag
            && Topped(v.slots[k], v'.slots[k], if d <= k < hi then Share(v.slots, stack, d, k, remaining) else 0)
    decreases hi - d
  {
    hide MaxStack, Share;
    if d < hi && remaining > 0 {
      var t := v.slots[d];
      ShareOfFirst(v.slots, stack, d, remaining);
      if RoomIn(t, stack) > 0 {
        var n := Min(MaxStack(stack) - t.amount, remaining);
        var t' := t.(amount := AddSat(t.amount, n));
        TopUpIs(SetSlot(v, d, t'), stack, d + 1, hi, SubSat(remaining, n), k);
        if d < k {
          ShareAfterFirst(v.slots, stack, d, k, remaining, t');
        }
      } else {
        TopUpIs(v, stack, d + 1, hi, remaining, k);
        if d < k {
          ShareAfterFirst(v.slots, stack, d, k, remaining, t);
          assert v.slots[d := t] == v.slots;
        }
      }
    } else if d < hi {
      NoShare(v.slots, stack, d, k);
    }
  }

  lemma NoShare(slots: seq<ItemStack>, stack: ItemStack, d: nat, k: nat)
    requires k < |slots|
    ensures Share(slots, stack, d, k, 0) == 0
  {
  }

  lemma {:induction false} FillIs(v: Inventory, stack: ItemStack, d: nat, hi: nat, remaining: Byte) returns (j: nat)
    requires hi <= |v.slots|
    ensures var (v', r) := FillEmpty(v, stack, d, hi, remaining);
            || (v', r) == (v, remaining)
            || (d <= j < hi && IsAir(v.slots[j]) && (v', r) == (SetSlot(v, j, NewStack(stack.material, remaining)), 0))
    decreases hi - d
  {
    j := d;
    if d < hi && remaining > 0 && !IsAir(v.slots[d]) {
      j := FillIs(v, stack, d + 1, hi, remaining);
    }
  }

  lemma ToppedFine(t: ItemStack, t': ItemStack, share: nat, plain: bool)
    requires Fine(t, plain) && Topped(t, t', share) && (IsAir(t) ==> share == 0)
    ensures Fine(t', plain) <==> t.amount + share <= MaxStack(t)
  {
  }

  lemma AirGetsNoShare(slots: seq<ItemStack>, stack: ItemStack, d: nat, k: nat, amount: nat)
    requires k < |slots|
    ensures IsAir(slots[k]) ==> Share(slots, stack, d, k, amount) == 0
  {
  }

  /** Slot k after the first loop is within its limit exactly when its share fits. */
  lemma ShareFine(v: Inventory, stack: ItemStack, lo: nat, hi: nat, amount: Byte, k: nat, plain: bool)
    requires InLimits(v, plain) && lo <= hi <= |v.slots| && k < |v.slots|
    ensures |TopUp(v, stack, lo, hi, amount).0.slots| == |v.slots|
    ensures Fine(TopUp(v, stack, lo, hi, amount).0.slots[k], plain) <==>
            (lo <= k < hi ==> v.slots[k].amount + Share(v.slots, stack, lo, k, amount) <= MaxStack(v.slots[k]))
  {
    hide Fine, MaxStack, Share, Topped, TopUp;
    TopUpIs(v, stack, lo, hi, amount, k);
    AirGetsNoShare(v.slots, stack, lo, k, amount);
    LessThanFine(v.slots[k], plain);
    assert Fine(v.slots[k], plain);
    ToppedFine(v.slots[k], TopUp(v, stack, lo, hi, amount).0.slots[k],
               if lo <= k < hi then Share(v.slots, stack, lo, k, amount) else 0, plain);
  }

  lemma AirStaysFine(
    v: Inventory, v1: Inventory, stack: ItemStack, lo: nat, hi: nat, amount: Byte, j: nat, plain: bool)
    requires InLimits(v, plain) && lo <= hi <= |v.slots| && j < |v.slots|
    requires v1 == TopUp(v, stack, lo, hi, amount).0 && |v1.slots| == |v.slots| && IsAir(v1.slots[j])
    ensures Fine(v1.slots[j], plain)
  {
    hide MaxStack, Share, TopUp;
    TopUpIs(v, stack, lo, hi, amount, j);
    assert Fine(v.slots[j], plain);
  }

  lemma QuickMoveLimits(v: Inventory, slot: nat, plain: bool)
    requires InLimits(v, plain) && |v.slots| == SLOTS && slot < SLOTS
    ensures InLimits(QuickMove(v, slot).0, plain) <==> !QuickMoveOverfills(v, slot)
  {
    hide Fine, MaxStack, Share, TopUp, FillEmpty, RoomBefore, Topped;
    var s := v.slots[slot];
    if !IsAir(s) && slot <= 35 {
      var lo, hi := if slot <= 8 then 9 else 0, if slot <= 8 then 36 else 9;
      var (v1, r1) := TopUp(v, s, lo, hi, s.amount);
      TopUpIs(v, s, lo, hi, s.amount, slot);
      TopUpLeaves(v, s, lo, hi, s.amount);
      forall k: nat | k < SLOTS
        ensures Fine(v1.slots[k], plain) <==>
                (lo <= k < hi ==> v.slots[k].amount + Share(v.slots, s, lo, k, s.amount) <= MaxStack(v.slots[k]))
      {
        ShareFine(v, s, lo, hi, s.amount, k, plain);
      }
      var j := FillIs(v1, s, lo, hi, r1);
      var (v2, r2) := FillEmpty(v1, s, lo, hi, r1);
      if j < SLOTS && IsAir(v1.slots[j]) {
        AirStaysFine(v, v1, s, lo, hi, s.amount, j, plain);
      }
      NewFine(s.material, r1, plain);
      NewFine(s.material, r2, plain);
      QuickMoveSlots(v1, v2, slot, lo, hi, j, NewStack(s.material, r1), NewStack(s.material, r2), plain);
      assert r1 as nat == Left(v.slots, s, lo, hi, s.amount);
    }
  }

  /** The slots after both loops: the first air slot may take what is left, and the source the rest. */
  lemma QuickMoveSlots(
    v1: Inventory, v2: Inventory, slot: nat, lo: nat, hi: nat, j: nat, placed: ItemStack, rest: ItemStack, plain: bool)
    requires |v1.slots| == SLOTS && slot < SLOTS && hi <= SLOTS && !(lo <= slot < hi)
    requires Fine(v1.cursor, plain) && AllFine(v1.drag.snapshot, plain) && Fine(v1.slots[slot], plain)
    requires v2 == v1
             || (lo <= j < hi && IsAir(v1.slots[j]) && Fine(v1.slots[j], plain) && v2 == SetSlot(v1, j, placed))
    ensures |v2.slots| == SLOTS
    ensures InLimits(SetSlot(v2, slot, rest), plain) <==>
            AllFine(v1.slots, plain) && Fine(rest, plain) && (v2 == v1 || Fine(placed, plain))
  {
    hide Fine;
    var w := SetSlot(v2, slot, rest);
    assert w.slots[slot] == rest;
    if v2 != v1 {
      assert w.slots[j] == placed;
      assert forall k | 0 <= k < SLOTS && k != slot && k != j :: w.slots[k] == v1.slots[k];
    } else {
      assert forall k | 0 <= k < SLOTS && k != slot :: w.slots[k] == v1.slots[k];
    }
  }

  // ---- whole clicks and runs ----

  predicate ClickOverfills(v: Inventory, window: int, button: int, mode: int)
    requires Valid(v)
  {
    CancelValid(v);
    0 <= window <= 45
    && Overfills(if mode != CLICK_QUICK_CRAFT then Cancel(v).0 else v, FromWindow(window), button, mode)
  }

  lemma ClickLimits(v: Inventory, slot: nat, button: int, mode: int, plain: bool)
    requires Valid(v) && InLimits(v, plain) && slot < SLOTS
    ensures InLimits(Click(v, slot, button, mode).0, plain) <==> !Overfills(v, slot, button, mode)
  {
    hide Fine, MaxStack, Pickup, QuickMove, Swap, Throw, QuickCraft, PickupAll;
    hide PickupOverfills, QuickMoveOverfills, Covers;
    PickupLimits(v, slot, button, plain);
    QuickMoveLimits(v, slot, plain);
    SwapLimits(v, slot, button, plain);
    ThrowLimits(v, slot, button, plain);
    QuickCraftLimits(v, slot, button, plain);
    PickupAllLimits(v, plain);
  }

  /** Of all clicks, exactly those pickups and shift clicks take a stack over its limit. */
  lemma ApplyClickKeepsLimitsIff(v: Inventory, window: int, button: int, mode: int, plain: bool)
    requires Valid(v) && InLimits(v, plain)
    ensures InLimits(ApplyClick(v, window, button, mode).0, plain) <==> !ClickOverfills(v, window, button, mode)
  {
    hide Fine, Click, Overfills, Cancel, Covers;
    CancelValid(v);
    CancelLimits(v, plain);
    if 0 <= window <= 45 {
      ClickLimits(if mode != CLICK_QUICK_CRAFT then Cancel(v).0 else v, FromWindow(window), button, mode, plain);
    }
  }

  lemma ShareIsRoom(slots: seq<ItemStack>, stack: ItemStack, d: nat, k: nat, amount: nat)
    requires k < |slots|
    ensures Share(slots, stack, d, k, amount) <= RoomIn(slots[k], stack)
  {
  }

  /** Stacks with the default limit are never overfilled. */
  lemma PlainNeverOverfills(v: Inventory, slot: nat, button: int, mode: int)
    requires Valid(v) && InLimits(v, true) && slot < SLOTS
    ensures !Overfills(v, slot, button, mode)
  {
    hide MaxStack, Share, RoomBefore, Covers;
    assert Fine(v.slots[slot], true);
    var s := v.slots[slot];
    forall k, d | 0 <= k < SLOTS && 0 <= d
      ensures v.slots[k].amount + Share(v.slots, s, d, k, s.amount) <= MaxStack(v.slots[k])
    {
      assert Fine(v.slots[k], true);
      ShareIsRoom(v.slots, s, d, k, s.amount);
    }
  }

  /** While only stacks of the default limit are about, no run of clicks, closings and syncs takes one
    * over it. */
  lemma {:induction false} PlainRunsStayInLimits(v: Inventory, events: seq<Event>)
    requires Valid(v) && InLimits(v, true)
    ensures InLimits(After(v, events), true)
    decreases |events|
  {
    hide Valid, InLimits, ApplyClick, DropCursor;
    if events != [] {
      match events[0] {
        case ClickEvent(window, button, mode) => PlainClick(v, window, button, mode);
        case CloseEvent => CloseLimits(v, true);
        case SyncEvent => SyncLimits(v, true);
      }
      PlainRunsStayInLimits(Happened(v, events[0]), events[1..]);
    }
  }

  lemma PlainClick(v: Inventory, window: int, button: int, mode: int)
    requires Valid(v) && InLimits(v, true)
    ensures InLimits(ApplyClick(v, window, button, mode).0, true)
  {
    hide InLimits, Overfills, ApplyClick, Cancel, Covers;
    ApplyClickKeepsLimitsIff(v, window, button, mode, true);
    CancelValid(v);
    CancelLimits(v, true);
    if 0 <= window <= 45 {
      PlainNeverOverfills(if mode != CLICK_QUICK_CRAFT then Cancel(v).0 else v, FromWindow(window), button, mode);
    }
  }

  lemma CloseLimits(v: Inventory, plain: bool)
    requires Valid(v) && InLimits(v, plain)
    ensures InLimits(DropCursor(v).0, plain)
  {
    hide Fine, Cancel, Covers;
    CancelLimits(v, plain);
    LessThanFine(AIR, plain);
  }

  lemma SyncLimits(v: Inventory, plain: bool)
    requires InLimits(v, plain)
    ensures InLimits(Synced(v), plain)
  {
    hide Fine;
  }

  // ---- a shift click that overfills ----

  const SIXTEEN := [Set(1, MaxStackSize(16))]

  /** A stack of 32 in the hotbar, and 16 of the same material with a limit of 16 in the backpack. */
  function TwoLimits(): (v: Inventory)
    ensures Valid(v) && InLimits(v, false)
  {
    Inventory(seq(SLOTS, i =>
                if i == 0 then ItemStack(5, 32, []) else if i == 9 then ItemStack(5, 16, SIXTEEN) else AIR),
              AIR, {}, false, false, NO_DRAG)
  }

  /** The shift click asks for the limit of what it moves and not of where it puts it. */
  lemma ShiftClickOverfills()
    ensures var v' := ApplyClick(TwoLimits(), 36, 0, CLICK_QUICK_MOVE).0;
            |v'.slots| == SLOTS && v'.slots[9] == ItemStack(5, 48, SIXTEEN) && MaxStack(v'.slots[9]) == 16
  {
    hide TopUp, FillEmpty;
    var v := TwoLimits();
    var s := v.slots[0];
    assert MaxStack(s) == 64 && RoomIn(v.slots[9], s) == 48;
    assert RoomBefore(v.slots, s, 9, 9) == 0 && Share(v.slots, s, 9, 9, 32) == 32;
    assert RoomBefore(v.slots, s, 9, 36) >= 48;
    TopUpIs(v, s, 9, 36, 32, 9);
    TopUpLeaves(v, s, 9, 36, 32);
    var (v1, r1) := TopUp(v, s, 9, 36, 32);
    assert r1 == 0;
    assert FillEmpty(v1, s, 9, 36, 0) == (v1, 0) by {
      NothingToFill(v1, s, 9, 36);
    }
  }

  lemma NothingToFill(v: Inventory, stack: ItemStack, d: nat, hi: nat)
    requires hi <= |v.slots|
    ensures FillEmpty(v, stack, d, hi, 0) == (v, 0)
  {
  }
}
