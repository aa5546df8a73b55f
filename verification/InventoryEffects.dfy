/** What each click does to each slot, to the cursor and to the drag, without the loops of the clicks. */
module InventoryEffects {
  import opened Wrappers
  import opened Bytes
  import opened Items
  import opened InventoryClicks
  import opened InventoryTheorems
  import L = InventoryLimits

  // ---- dealing items over places with room ----

  function Sum(rooms: seq<nat>, d: nat, k: nat): nat
    requires k <= |rooms|
    decreases k - d
  {
    if d >= k then 0 else rooms[d] + Sum(rooms, d + 1, k)
  }

  function Least(a: nat, b: nat): nat {
    if a <= b then a else b
  }

  /** What place k gets of `amount` items dealt over the places from d on, each filled before the next. */
  function Given(rooms: seq<nat>, d: nat, k: nat, amount: nat): nat
    requires k < |rooms|
  {
    if Sum(rooms, d, k) >= amount then 0 else Least(rooms[k], amount - Sum(rooms, d, k))
  }

  /** What is over when the places are full. */
  function Rest(rooms: seq<nat>, d: nat, amount: nat): nat {
    if Sum(rooms, d, |rooms|) >= amount then 0 else amount - Sum(rooms, d, |rooms|)
  }

  lemma GivenStep(rooms: seq<nat>, d: nat, k: nat, amount: nat)
    requires d < |rooms| && k < |rooms|
    ensures k == d ==> Given(rooms, d, k, amount) == Least(rooms[d], amount)
    ensures d < k ==> Given(rooms, d, k, amount) == Given(rooms, d + 1, k, amount - Least(rooms[d], amount))
    ensures Rest(rooms, d, amount) == Rest(rooms, d + 1, amount - Least(rooms[d], amount))
  {
  }

  // ---- pickup ----

  /** What a pickup makes of the stack in the slot and the one on the cursor. */
  predicate Exchanged(s: ItemStack, c: ItemStack, button: int, s': ItemStack, c': ItemStack, changed: bool) {
    var alike := IsAir(s) || s.material == c.material;
    if button !in {0, 1} || (IsAir(c) && IsAir(s)) || (!IsAir(c) && alike && s.amount >= MaxStack(s)) then
      !changed && s' == s && c' == c
    else if !IsAir(c) && !alike then
      changed && s' == c && c' == s
    else if IsAir(c) && button == 0 then
      changed && s' == AIR && c' == s
    else if IsAir(c) then
      && changed && c'.material == s.material && c'.components == []
      && c'.amount + s'.amount == s.amount && 0 <= c'.amount - s'.amount <= 1
      && (s' == AIR || s' == s.(amount := s'.amount))
    else
      && changed && s'.material == c.material && s'.components == []
      && s'.amount as int - s.amount == (if button == 1 then 1 else Least(MaxStack(s) - s.amount, c.amount))
      && s'.amount + c'.amount == s.amount + c.amount
      && (c' == AIR || c' == c.(amount := c'.amount))
  }

  lemma PickupExchanges(s: ItemStack, c: ItemStack, button: int)
    ensures var (w, changed) := Pickup(L.OneSlot(s, c), 0, button);
            |w.slots| == 1 && Exchanged(s, c, button, w.slots[0], w.cursor, changed)
  {
    hide MaxStack;
  }

  /** Only the clicked slot and the cursor change; between them they keep what they hold. */
  lemma PickupIs(v: Inventory, slot: nat, button: int)
    requires slot < |v.slots|
    ensures var (v', changed) := Pickup(v, slot, button);
            && |v'.slots| == |v.slots| && v'.drag == v.drag
            && (forall k | 0 <= k < |v.slots| && k != slot :: v'.slots[k] == v.slots[k])
            && Exchanged(v.slots[slot], v.cursor, button, v'.slots[slot], v'.cursor, changed)
  {
    hide Pickup, Exchanged;
    L.PickupIsLocal(v, slot, button);
    PickupExchanges(v.slots[slot], v.cursor, button);
  }

  // ---- swap, throw, clone ----

  lemma SwapIs(v: Inventory, slot: nat, button: int)
    requires |v.slots| == SLOTS && slot < SLOTS
    ensures var (v', changed) := Swap(v, slot, button);
            && |v'.slots| == SLOTS && v'.cursor == v.cursor && v'.drag == v.drag
            && (changed <==> 0 <= button <= 8)
            && forall k | 0 <= k < SLOTS ::
                 v'.slots[k] == if changed && k == slot then v.slots[button]
                                else if changed && k == button then v.slots[slot] else v.slots[k]
  {
  }

  lemma ThrowIs(v: Inventory, slot: nat, button: int)
    requires slot < |v.slots|
    ensures var (v', changed) := Throw(v, slot, button);
            && |v'.slots| == |v.slots| && v'.cursor == v.cursor && v'.drag == v.drag
            && (forall k | 0 <= k < |v.slots| && k != slot :: v'.slots[k] == v.slots[k])
            && (changed <==> button in {0, 1} && v.slots[slot].amount > 0)
            && v'.slots[slot] ==
               (if !changed then v.slots[slot]
                else if button == 0 || v.slots[slot].amount == 1 then AIR
                else v.slots[slot].(amount := v.slots[slot].amount - 1))
  {
  }

  lemma CloneIs(v: Inventory, slot: nat, button: int)
    requires slot < |v.slots|
    ensures var (v', changed) := Clone(v, slot, button);
            && (changed <==> v.creative && button == 0 && v.slots[slot].amount > 0)
            && v' == if changed then v.(cursor := v.slots[slot]) else v
  {
  }

  // ---- shift click ----

  ghost predicate FirstAir(v: Inventory, lo: nat, hi: nat, j: nat) {
    lo <= j < hi && j < |v.slots| && IsAir(v.slots[j]) && forall i | lo <= i < j :: !IsAir(v.slots[i])
  }

  lemma {:induction false} FillEmptyIs(v: Inventory, stack: ItemStack, d: nat, hi: nat, remaining: Byte)
    requires hi <= |v.slots|
    ensures var (v', r) := FillEmpty(v, stack, d, hi, remaining);
            && (forall j | FirstAir(v, d, hi, j) && remaining > 0 ::
                  v' == SetSlot(v, j, NewStack(stack.material, remaining)) && r == 0)
            && (remaining == 0 || (forall j | d <= j < hi :: !IsAir(v.slots[j])) ==> v' == v && r == remaining)
    decreases hi - d
  {
    if d < hi && remaining > 0 && !IsAir(v.slots[d]) {
      FillEmptyIs(v, stack, d + 1, hi, remaining);
      forall j | FirstAir(v, d, hi, j)
        ensures FirstAir(v, d + 1, hi, j)
      {
      }
    }
  }

  lemma {:induction false} SomeFirstAir(v: Inventory, d: nat, hi: nat) returns (j: nat)
    requires hi <= |v.slots|
    ensures FirstAir(v, d, hi, j) || forall i | d <= i < hi :: !IsAir(v.slots[i])
    decreases hi - d
  {
    j := d;
    if d < hi && !IsAir(v.slots[d]) {
      j := SomeFirstAir(v, d + 1, hi);
    }
  }

  function LowEnd(slot: nat): nat {
    if slot <= 8 then 9 else 0
  }

  function HighEnd(slot: nat): nat {
    if slot <= 8 then 36 else 9
  }

  /** A shift click tops up the stacks of its material in the other range, the lowest slot first; what is
    * over goes into the first empty slot there, or stays behind. */
  lemma QuickMoveIs(v: Inventory, slot: nat, k: nat)
    requires |v.slots| == SLOTS && slot < SLOTS && k < SLOTS
    ensures var (v', changed) := QuickMove(v, slot);
            var s, lo, hi := v.slots[slot], LowEnd(slot), HighEnd(slot);
            var over := L.Left(v.slots, s, lo, hi, s.amount);
            && |v'.slots| == SLOTS && v'.cursor == v.cursor && v'.drag == v.drag
            && (IsAir(s) || slot > 35 ==> v' == v && !changed)
            && (!IsAir(s) && slot <= 35 ==>
                  && (k == slot ==>
                        v'.slots[k] ==
                        if exists j :: FirstAir(v, lo, hi, j) then AIR else NewStack(s.material, over))
                  && (lo <= k < hi && !(FirstAir(v, lo, hi, k) && over > 0) ==>
                        L.Topped(v.slots[k], v'.slots[k], L.Share(v.slots, s, lo, k, s.amount)))
                  && (FirstAir(v, lo, hi, k) && over > 0 ==> v'.slots[k] == NewStack(s.material, over))
                  && (k != slot && !(lo <= k < hi) ==> v'.slots[k] == v.slots[k])
                  && (changed <==> over < s.amount || exists j :: FirstAir(v, lo, hi, j)))
  {
    hide MaxStack, L.Share, TopUp, FillEmpty, L.RoomBefore, FirstAir;
    var s := v.slots[slot];
    if !IsAir(s) && slot <= 35 {
      var lo, hi := LowEnd(slot), HighEnd(slot);
      var (v1, over) := TopUp(v, s, lo, hi, s.amount);
      L.TopUpLeaves(v, s, lo, hi, s.amount);
      L.TopUpIs(v, s, lo, hi, s.amount, k);
      L.TopUpIs(v, s, lo, hi, s.amount, slot);
      FillEmptyIs(v1, s, lo, hi, over);
      SameAir(v, v1, s, lo, hi, s.amount);
      var j := SomeFirstAir(v1, lo, hi);
      OneFirstAir(v, lo, hi, j, k);
      assert over > 0 && FirstAir(v1, lo, hi, j) ==>
          FillEmpty(v1, s, lo, hi, over) == (SetSlot(v1, j, NewStack(s.material, over)), 0);
    }
  }

  lemma OneFirstAir(v: Inventory, lo: nat, hi: nat, j: nat, k: nat)
    ensures FirstAir(v, lo, hi, j) ==> lo <= j < hi && j < |v.slots|
    ensures FirstAir(v, lo, hi, j) && FirstAir(v, lo, hi, k) ==> j == k
    ensures FirstAir(v, lo, hi, j) ==> exists i :: FirstAir(v, lo, hi, i)
    ensures (forall i | lo <= i < hi && i < |v.slots| :: !IsAir(v.slots[i])) ==> forall i :: !FirstAir(v, lo, hi, i)
  {
  }

  /** The first loop leaves empty what is empty. */
  lemma SameAir(v: Inventory, v1: Inventory, stack: ItemStack, lo: nat, hi: nat, amount: Byte)
    requires lo <= hi <= |v.slots| && v1 == TopUp(v, stack, lo, hi, amount).0
    ensures |v1.slots| == |v.slots| && forall j: nat | j < |v.slots| :: IsAir(v1.slots[j]) <==> IsAir(v.slots[j])
    ensures forall j :: FirstAir(v1, lo, hi, j) <==> FirstAir(v, lo, hi, j)
  {
    hide MaxStack, L.Share, TopUp;
    TopUpKeepsSize(v, stack, lo, hi, amount);
    forall j: nat | j < |v.slots|
      ensures IsAir(v1.slots[j]) <==> IsAir(v.slots[j])
    {
      L.TopUpIs(v, stack, lo, hi, amount, j);
      L.AirGetsNoShare(v.slots, stack, lo, j, amount);
    }
  }

  // ---- collecting onto the cursor ----

  /** The stack without n of its items. */
  predicate Reduced(t: ItemStack, t': ItemStack, n: nat) {
    if n == 0 then t' == t
    else if t.amount as nat == n then t' == AIR
    else n < t.amount && t' == t.(amount := t.amount - n)
  }

  function StockIn(t: ItemStack, material: U32): nat {
    if t.material == material then t.amount else 0
  }

  /** What there is to collect: the amounts of the material, slot by slot. */
  function Stock(slots: seq<ItemStack>, material: U32): (r: seq<nat>)
    ensures |r| == |slots|
  {
    seq(|slots|, i requires 0 <= i < |slots| => StockIn(slots[i], material))
  }

  ghost predicate StockFrom(v: Inventory, material: U32, s: nat, stock: seq<nat>) {
    s <= |v.slots| == |stock| && forall i | s <= i < |stock| :: stock[i] == StockIn(v.slots[i], material)
  }

  lemma StockStep(v: Inventory, material: U32, s: nat, stock: seq<nat>, t: ItemStack)
    requires StockFrom(v, material, s, stock) && s < |v.slots|
    ensures stock[s] == StockIn(v.slots[s], material)
    ensures StockFrom(v, material, s + 1, stock) && StockFrom(SetSlot(v, s, t), material, s + 1, stock)
  {
  }

  lemma {:induction false} GatherLeaves(v: Inventory, material: U32, s: nat, space: Byte, stock: seq<nat>)
    requires StockFrom(v, material, s, stock)
    ensures var (_, left, changed) := Gather(v, material, s, space);
            left as nat == Rest(stock, s, space) && (changed <==> left < space)
    decreases |v.slots| - s
  {
    hide Sum, Rest, StockFrom, Given;
    StockLength(v, material, s, stock);
    if s < |v.slots| && space > 0 {
      var t := v.slots[s];
      Steps(stock, s, space);
      var n := Min(t.amount, space);
      var w := SetSlot(v, s, WithAmount(t, SubSat(t.amount, n)));
      StockStep(v, material, s, stock, w.slots[s]);
      if stock[s] == 0 {
        GatherLeaves(v, material, s + 1, space, stock);
      } else {
        GatherLeaves(w, material, s + 1, SubSat(space, n), stock);
        RestAtMost(stock, s + 1, SubSat(space, n));
      }
    } else {
      GivenAtEnd(stock, s, space);
    }
  }

  lemma StockLength(v: Inventory, material: U32, s: nat, stock: seq<nat>)
    requires StockFrom(v, material, s, stock)
    ensures |v.slots| == |stock|
  {
  }

  lemma RestAtMost(rooms: seq<nat>, d: nat, amount: nat)
    ensures Rest(rooms, d, amount) <= amount
  {
  }

  lemma {:induction false} GatherAt(v: Inventory, material: U32, s: nat, space: Byte, stock: seq<nat>, k: nat)
    requires StockFrom(v, material, s, stock) && k < |v.slots| == |stock|
    ensures var v' := Gather(v, material, s, space).0;
            && |v'.slots| == |v.slots|
            && Reduced(v.slots[k], v'.slots[k], if k < s then 0 else Given(stock, s, k, space))
    decreases |v.slots| - s
  {
    hide Sum, Given, Rest, Reduced, StockFrom;
    GatherShape(v, material, s, space);
    ReducedByNothing(v.slots[k]);
    if s < |v.slots| && space > 0 {
      var t := v.slots[s];
      Steps(stock, s, space);
      var n := Min(t.amount, space);
      var w := SetSlot(v, s, WithAmount(t, SubSat(t.amount, n)));
      StockStep(v, material, s, stock, w.slots[s]);
      if stock[s] == 0 {
        GatherAt(v, material, s + 1, space, stock, k);
      } else {
        ReducedBy(t, n);
        GatherAt(w, material, s + 1, SubSat(space, n), stock, k);
        UnreducedIsSame(w.slots[k], Gather(v, material, s, space).0.slots[k]);
      }
    } else {
      GivenAtEnd(stock, s, space);
    }
  }

  lemma UnreducedIsSame(t: ItemStack, t': ItemStack)
    ensures Reduced(t, t', 0) ==> t' == t
  {
  }

  lemma Steps(rooms: seq<nat>, d: nat, amount: nat)
    requires d < |rooms|
    ensures Given(rooms, d, d, amount) == Least(rooms[d], amount)
    ensures forall k | d < k < |rooms| ::
              Given(rooms, d, k, amount) == Given(rooms, d + 1, k, amount - Least(rooms[d], amount))
    ensures Rest(rooms, d, amount) == Rest(rooms, d + 1, amount - Least(rooms[d], amount))
  {
    hide Given, Rest;
    forall k | d <= k < |rooms|
      ensures k == d ==> Given(rooms, d, k, amount) == Least(rooms[d], amount)
      ensures d < k ==> Given(rooms, d, k, amount) == Given(rooms, d + 1, k, amount - Least(rooms[d], amount))
    {
      GivenStep(rooms, d, k, amount);
    }
    GivenStep(rooms, d, d, amount);
  }

  /** With nothing to deal, or no place left. */
  lemma GivenAtEnd(rooms: seq<nat>, d: nat, amount: nat)
    requires amount == 0 || d >= |rooms|
    ensures Rest(rooms, d, amount) == amount
    ensures amount == 0 ==> forall k | 0 <= k < |rooms| :: Given(rooms, d, k, amount) == 0
  {
  }

  lemma ReducedByNothing(t: ItemStack)
    ensures Reduced(t, t, 0)
  {
  }

  lemma ReducedBy(t: ItemStack, n: Byte)
    requires n <= t.amount && n > 0
    ensures Reduced(t, WithAmount(t, SubSat(t.amount, n)), n)
  {
  }

  /** A double click takes what the cursor lacks from the slots of its material, the lowest slot first. */
  lemma PickupAllIs(v: Inventory)
    ensures var (v', changed) := PickupAll(v);
            var c := v.cursor;
            var stock := Stock(v.slots, c.material);
            && |v'.slots| == |v.slots| && v'.drag == v.drag
            && (IsAir(c) || c.amount >= MaxStack(c) ==> v' == v && !changed)
            && (!IsAir(c) && c.amount < MaxStack(c) ==>
                  var lacks := MaxStack(c) - c.amount;
                  && v'.cursor.(amount := c.amount) == c
                  && v'.cursor.amount as nat == MaxStack(c) - Rest(stock, 0, lacks)
                  && (changed <==> Rest(stock, 0, lacks) < lacks)
                  && forall k | 0 <= k < |v.slots| ::
                       Reduced(v.slots[k], v'.slots[k], Given(stock, 0, k, lacks)))
  {
    hide MaxStack, Sum, Given, Rest, Reduced, Gather;
    var c := v.cursor;
    if !IsAir(c) && c.amount < MaxStack(c) {
      GatherShape(v, c.material, 0, MaxStack(c) - c.amount);
      var stock := Stock(v.slots, c.material);
      GatherLeaves(v, c.material, 0, MaxStack(c) - c.amount, stock);
      forall k | 0 <= k < |v.slots|
        ensures Reduced(v.slots[k], Gather(v, c.material, 0, MaxStack(c) - c.amount).0.slots[k],
                        Given(stock, 0, k, MaxStack(c) - c.amount))
      {
        GatherAt(v, c.material, 0, MaxStack(c) - c.amount, stock, k);
      }
    }
  }

  // ---- the drag ----

  /** How much of a material a slot takes in a drag. */
  function DragRoom(t: ItemStack, material: U32): nat {
    if (t.amount == 0 || t.material == material) && t.amount < MaxStack(t) then MaxStack(t) - t.amount else 0
  }

  function DragRooms(slots: seq<ItemStack>, targets: seq<nat>, material: U32): (r: seq<nat>)
    requires forall i | 0 <= i < |targets| :: targets[i] < |slots|
    ensures |r| == |targets|
  {
    seq(|targets|, i requires 0 <= i < |targets| => DragRoom(slots[targets[i]], material))
  }

  /** The stack with n more items. */
  predicate Raised(t: ItemStack, t': ItemStack, material: U32, n: nat) {
    if n == 0 then t' == t
    else if t.amount == 0 then n < 256 && t' == ItemStack(material, n, [])
    else t.amount + n < 256 && t' == t.(amount := t.amount + n)
  }

  /** The rooms of the targets from t on. */
  ghost predicate RoomsFrom(v: Inventory, material: U32, t: nat, rooms: seq<nat>) {
    && t <= |v.drag.targets| == |rooms|
    && (forall i | 0 <= i < |v.drag.targets| :: v.drag.targets[i] < |v.slots|)
    && (forall i, j | 0 <= i < j < |v.drag.targets| :: v.drag.targets[i] != v.drag.targets[j])
    && (forall i | t <= i < |rooms| :: rooms[i] == DragRoom(v.slots[v.drag.targets[i]], material))
  }

  lemma RoomsStep(v: Inventory, material: U32, t: nat, rooms: seq<nat>, item: ItemStack)
    requires RoomsFrom(v, material, t, rooms) && t < |v.drag.targets|
    ensures v.drag.targets[t] < |v.slots| && |rooms| == |v.drag.targets|
    ensures rooms[t] == DragRoom(v.slots[v.drag.targets[t]], material)
    ensures RoomsFrom(v, material, t + 1, rooms)
    ensures RoomsFrom(SetSlot(v, v.drag.targets[t], item), material, t + 1, rooms)
  {
  }

  lemma RoomsLength(v: Inventory, material: U32, t: nat, rooms: seq<nat>)
    requires RoomsFrom(v, material, t, rooms)
    ensures |rooms| == |v.drag.targets|
    ensures forall i | 0 <= i < |v.drag.targets| :: v.drag.targets[i] < |v.slots|
  {
  }

  lemma {:induction false} DealLeaves(v: Inventory, material: U32, t: nat, remaining: Byte, rooms: seq<nat>)
    requires RoomsFrom(v, material, t, rooms)
    requires forall i | 0 <= i < |v.drag.targets| :: v.drag.targets[i] < |v.slots|
    ensures var (_, left, changed) := Deal(v, material, t, remaining);
            left as nat == Rest(rooms, t, remaining) && (changed <==> left < remaining)
    decreases |v.drag.targets| - t
  {
    hide Sum, Given, Rest, MaxStack, RoomsFrom;
    if t < |v.drag.targets| && remaining > 0 {
      var s := v.slots[v.drag.targets[t]];
      var n := Min(SubSat(MaxStack(s), s.amount), remaining);
      var item := if IsAir(s) then NewStack(material, n) else s.(amount := AddSat(s.amount, n));
      RoomsStep(v, material, t, rooms, item);
      Steps(rooms, t, remaining);
      if rooms[t] == 0 {
        DealLeaves(v, material, t + 1, remaining, rooms);
      } else {
        DealLeaves(SetSlot(v, v.drag.targets[t], item), material, t + 1, SubSat(remaining, n), rooms);
        RestAtMost(rooms, t + 1, SubSat(remaining, n));
      }
    } else {
      RoomsLength(v, material, t, rooms);
      GivenAtEnd(rooms, t, remaining);
    }
  }

  /** What target i, or slot k that is no target, holds after dealing. */
  lemma {:induction false} DealAt(
    v: Inventory, material: U32, t: nat, remaining: Byte, rooms: seq<nat>, i: nat, k: nat)
    requires RoomsFrom(v, material, t, rooms) && k < |v.slots|
    requires forall i | 0 <= i < |v.drag.targets| :: v.drag.targets[i] < |v.slots|
    ensures var v' := Deal(v, material, t, remaining).0;
            && |v'.slots| == |v.slots|
            && (k !in v.drag.targets ==> v'.slots[k] == v.slots[k])
            && (i < |v.drag.targets| == |rooms| && v.drag.targets[i] == k ==>
                  Raised(v.slots[k], v'.slots[k], material, if i < t then 0 else Given(rooms, t, i, remaining)))
    decreases |v.drag.targets| - t
  {
    hide Sum, Given, Rest, Raised, MaxStack, RoomsFrom;
    DealShape(v, material, t, remaining);
    RaisedByNothing(v.slots[k], material);
    RoomsLength(v, material, t, rooms);
    if t < |v.drag.targets| && remaining > 0 {
      var slot := v.drag.targets[t];
      var s := v.slots[slot];
      var n := Min(SubSat(MaxStack(s), s.amount), remaining);
      var item := if IsAir(s) then NewStack(material, n) else s.(amount := AddSat(s.amount, n));
      RoomsStep(v, material, t, rooms, item);
      Steps(rooms, t, remaining);
      if rooms[t] == 0 {
        DealAt(v, material, t + 1, remaining, rooms, i, k);
      } else {
        RaisedBy(s, material, n);
        DealAt(SetSlot(v, slot, item), material, t + 1, SubSat(remaining, n), rooms, i, k);
        UnraisedIsSame(SetSlot(v, slot, item).slots[k], Deal(v, material, t, remaining).0.slots[k], material);
        TargetsDiffer(v, material, t, rooms, i);
      }
    } else {
      GivenAtEnd(rooms, t, remaining);
    }
  }

  lemma TargetsDiffer(v: Inventory, material: U32, t: nat, rooms: seq<nat>, i: nat)
    requires RoomsFrom(v, material, t, rooms) && t < |v.drag.targets|
    ensures i < |v.drag.targets| && i != t ==> v.drag.targets[i] != v.drag.targets[t]
  {
  }

  lemma RaisedByNothing(t: ItemStack, material: U32)
    ensures Raised(t, t, material, 0)
  {
  }

  lemma UnraisedIsSame(t: ItemStack, t': ItemStack, material: U32)
    ensures Raised(t, t', material, 0) ==> t' == t
  {
  }

  lemma RaisedBy(s: ItemStack, material: U32, n: Byte)
    requires 0 < n && s.amount + n < 256
    ensures Raised(s, if IsAir(s) then NewStack(material, n) else s.(amount := AddSat(s.amount, n)), material, n)
  {
  }

  /** The items that a stage of the drag deals out. */
  function Offered(v: Inventory, button: int): nat {
    if button == 2 then (v.cursor.amount + 1) / 2 else v.cursor.amount
  }

  /** The slot joins the drag once, with what it holds. */
  ghost predicate Joined(d: Drag, slot: nat, held: ItemStack, d': Drag) {
    if slot in d.targets then d'.targets == d.targets && d'.snapshot == d.snapshot
    else d'.targets == d.targets + [slot] && d'.snapshot == d.snapshot + [held]
  }

  /** Stage 0 begins a drag over again at the slot; the other stages need an open drag, which the slot
    * joins, and the last of them ends it. */
  lemma QuickCraftDrag(v: Inventory, slot: nat, button: int)
    requires Valid(v) && slot < SLOTS
    ensures var (v', changed) := QuickCraft(v, slot, button);
            && |v'.slots| == SLOTS
            && (button == 0 && v.cursor.amount > 0 ==>
                  changed && v' == v.(drag := Drag(0, [slot], [v.slots[slot]])))
            && (button == 0 && v.cursor.amount == 0 ==> !changed && v' == v)
            && (button !in {0, 1, 2, 3} || (button != 0 && !Active(v)) ==> !changed && v' == v)
            && (button in {1, 2} && Active(v) ==>
                  Active(v') && v'.drag.stage == button && Joined(v.drag, slot, v.slots[slot], v'.drag))
            && (button == 3 ==> v'.drag == if Active(v) then Drag(0, [], []) else v.drag)
  {
    hide Deal;
    if 1 <= button <= 3 && Active(v) {
      var v2 := AddTarget(v, slot).(drag := AddTarget(v, slot).drag.(stage := button));
      SpreadKeepsDrag(v2, if button == 2 then Half(v.cursor.amount) else v.cursor.amount);
    }
  }

  lemma SpreadKeepsDrag(v: Inventory, amount: Byte)
    requires forall i | 0 <= i < |v.drag.targets| :: v.drag.targets[i] < |v.slots|
    ensures Spread(v, amount).0.drag == v.drag && |Spread(v, amount).0.slots| == |v.slots|
  {
    hide Deal;
    DealShape(v, v.cursor.material, 0, amount);
  }

  /** The targets of the drag with the slot among them. */
  function WithTarget(v: Inventory, slot: nat): (r: seq<nat>)
    ensures slot in r
  {
    if slot in v.drag.targets then v.drag.targets else v.drag.targets + [slot]
  }

  /** A stage deals what it offers over the targets in the order in which they joined, each up to its
    * limit; what finds no room stays on the cursor, and no other slot changes. */
  lemma QuickCraftDeals(v: Inventory, slot: nat, button: int, i: nat, k: nat)
    requires Valid(v) && slot < SLOTS && k < SLOTS && 1 <= button <= 3 && Active(v)
    ensures var (v', changed) := QuickCraft(v, slot, button);
            var targets, offered := WithTarget(v, slot), Offered(v, button);
            && |v'.slots| == SLOTS && (forall j | 0 <= j < |targets| :: targets[j] < SLOTS)
            && var rooms := DragRooms(v.slots, targets, v.cursor.material);
               && (k !in targets ==> v'.slots[k] == v.slots[k])
               && (i < |targets| && targets[i] == k ==>
                     Raised(v.slots[k], v'.slots[k], v.cursor.material, Given(rooms, 0, i, offered)))
               && Reduced(v.cursor, v'.cursor, offered - Rest(rooms, 0, offered))
               && (changed <==> Rest(rooms, 0, offered) < offered)
  {
    hide Deal, Sum, Given, Raised, Reduced, DragRoom, Covers;
    var targets, offered := WithTarget(v, slot), Offered(v, button);
    var v2 := AddTarget(v, slot).(drag := AddTarget(v, slot).drag.(stage := button));
    assert v2.drag.targets == targets && v2.slots == v.slots && v2.cursor == v.cursor;
    SpreadDeals(v2, offered, i, k);
  }

  lemma SpreadDeals(v: Inventory, amount: Byte, i: nat, k: nat)
    requires k < |v.slots| && amount <= v.cursor.amount
    requires forall i | 0 <= i < |v.drag.targets| :: v.drag.targets[i] < |v.slots|
    requires forall i, j | 0 <= i < j < |v.drag.targets| :: v.drag.targets[i] != v.drag.targets[j]
    ensures var (v', changed) := Spread(v, amount);
            var targets, rooms := v.drag.targets, DragRooms(v.slots, v.drag.targets, v.cursor.material);
            && |v'.slots| == |v.slots|
            && (k !in targets ==> v'.slots[k] == v.slots[k])
            && (i < |targets| && targets[i] == k ==>
                  Raised(v.slots[k], v'.slots[k], v.cursor.material, Given(rooms, 0, i, amount)))
            && Rest(rooms, 0, amount) <= amount
            && Reduced(v.cursor, v'.cursor, amount - Rest(rooms, 0, amount))
            && (changed <==> Rest(rooms, 0, amount) < amount)
  {
    hide Deal, Sum, Given, Raised, Rest, Reduced, DragRoom;
    var rooms := DragRooms(v.slots, v.drag.targets, v.cursor.material);
    RestAtMost(rooms, 0, amount);
    ReducedByNothing(v.cursor);
    RaisedByNothing(v.slots[k], v.cursor.material);
    DealShape(v, v.cursor.material, 0, amount);
    DealLeaves(v, v.cursor.material, 0, amount, rooms);
    DealAt(v, v.cursor.material, 0, amount, rooms, i, k);
    if amount == 0 {
      GivenAtEnd(rooms, 0, amount);
    } else if Rest(rooms, 0, amount) < amount {
      ReducedBy(v.cursor, amount - Rest(rooms, 0, amount));
    }
  }

  /** A cancelled drag gives every target back what it held when it joined. */
  lemma CancelIs(v: Inventory, k: nat)
    requires Valid(v) && k < SLOTS
    ensures var (v', changed) := Cancel(v);
            && |v'.slots| == SLOTS && v'.cursor == v.cursor
            && v'.drag == Drag(if Active(v) then 0 else v.drag.stage, [], [])
            && (changed <==> v.drag.targets != [])
            && (k !in v.drag.targets ==> v'.slots[k] == v.slots[k])
            && (forall i | 0 <= i < |v.drag.targets| && v.drag.targets[i] == k :: v'.slots[k] == v.drag.snapshot[i])
  {
    hide Covers;
    RestoreShape(v, v.drag.targets, v.drag.snapshot);
    RestoreIs(v, v.drag.targets, v.drag.snapshot);
  }

  /** Closing the window rolls an open drag back and empties the cursor. */
  lemma DropCursorIs(v: Inventory)
    requires Valid(v)
    ensures Valid(Cancel(v).0)
    ensures var (v', changed) := DropCursor(v);
            && v'.slots == Cancel(v).0.slots && v'.drag == Cancel(v).0.drag && v'.dirty == Cancel(v).0.dirty
            && v'.cursor.amount == 0 && (v.cursor.amount > 0 ==> v'.cursor == AIR && v'.fullSync)
            && (changed <==> Active(v) || v.cursor.amount > 0)
  {
    hide Valid, Restore;
    CancelValid(v);
  }

  // ---- adding an item ----

  /** How much of the item a slot holding the same thing takes. */
  function StackRoom(t: ItemStack, item: ItemStack): nat {
    if t.amount > 0 && t.material == item.material && t.components == item.components && t.amount < MaxStack(t)
    then MaxStack(t) - t.amount else 0
  }

  function StackRooms(slots: seq<ItemStack>, item: ItemStack): (r: seq<nat>)
    ensures |r| == |slots|
  {
    seq(|slots|, i requires 0 <= i < |slots| => StackRoom(slots[i], item))
  }

  /** How much of the item an empty slot takes. */
  function EmptyRoom(t: ItemStack, item: ItemStack): nat {
    if t.amount == 0 then MaxStack(item) else 0
  }

  function EmptyRooms(slots: seq<ItemStack>, item: ItemStack): (r: seq<nat>)
    ensures |r| == |slots|
  {
    seq(|slots|, i requires 0 <= i < |slots| => EmptyRoom(slots[i], item))
  }

  ghost predicate StackFrom(v: Inventory, item: ItemStack, s: nat, rooms: seq<nat>) {
    s <= |v.slots| == |rooms| && forall i | s <= i < |rooms| :: rooms[i] == StackRoom(v.slots[i], item)
  }

  lemma StackStep(v: Inventory, item: ItemStack, s: nat, rooms: seq<nat>, t: ItemStack, n: Byte)
    requires StackFrom(v, item, s, rooms) && s < |v.slots|
    ensures rooms[s] == StackRoom(v.slots[s], item)
    ensures StackFrom(v, item, s + 1, rooms) && StackFrom(SetSlot(v, s, t), item.(amount := n), s + 1, rooms)
  {
  }

  /** The loop over stacks of the same thing. */
  lemma {:induction false} StackAt(v: Inventory, item: ItemStack, s: nat, rooms: seq<nat>, k: nat)
    requires StackFrom(v, item, s, rooms) && k < |v.slots| == |rooms|
    ensures var (v', left) := Stack(v, item, s);
            && |v'.slots| == |v.slots| && v'.cursor == v.cursor && v'.drag == v.drag
            && left == item.(amount := left.amount) && left.amount as nat == Rest(rooms, s, item.amount)
            && Raised(v.slots[k], v'.slots[k], item.material, if k < s then 0 else Given(rooms, s, k, item.amount))
    decreases |v.slots| - s
  {
    hide Sum, Given, Rest, Raised, MaxStack, StackFrom;
    RaisedByNothing(v.slots[k], item.material);
    if s < |v.slots| && !IsAir(item) {
      var t := v.slots[s];
      var n := Min(SubSat(MaxStack(t), t.amount), item.amount);
      var t' := t.(amount := AddSat(t.amount, n));
      StackStep(v, item, s, rooms, t', SubSat(item.amount, n));
      Steps(rooms, s, item.amount);
      if rooms[s] == 0 {
        StackAt(v, item, s + 1, rooms, k);
      } else {
        RaisedBy(t, item.material, n);
        StackAt(SetSlot(v, s, t'), item.(amount := SubSat(item.amount, n)), s + 1, rooms, k);
        UnraisedIsSame(SetSlot(v, s, t').slots[k], Stack(v, item, s).0.slots[k], item.material);
      }
    } else {
      GivenAtEnd(rooms, s, item.amount);
    }
  }

  ghost predicate EmptyFrom(v: Inventory, item: ItemStack, s: nat, rooms: seq<nat>) {
    s <= |v.slots| == |rooms| && forall i | s <= i < |rooms| :: rooms[i] == EmptyRoom(v.slots[i], item)
  }

  lemma EmptyStep(v: Inventory, item: ItemStack, s: nat, rooms: seq<nat>, t: ItemStack, n: Byte)
    requires EmptyFrom(v, item, s, rooms) && s < |v.slots|
    ensures rooms[s] == EmptyRoom(v.slots[s], item)
    ensures EmptyFrom(v, item, s + 1, rooms) && EmptyFrom(SetSlot(v, s, t), item.(amount := n), s + 1, rooms)
  {
  }

  /** n of the item in a slot that was empty. */
  predicate Filled(t: ItemStack, t': ItemStack, item: ItemStack, n: nat) {
    if n == 0 then t' == t else t.amount == 0 && n < 256 && t' == item.(amount := n)
  }

  lemma FilledByNothing(t: ItemStack, item: ItemStack)
    ensures Filled(t, t, item, 0)
    ensures forall t' :: Filled(t, t', item, 0) ==> t' == t
  {
  }

  lemma FilledBy(t: ItemStack, item: ItemStack, n: Byte)
    requires IsAir(t)
    ensures n > 0 ==> Filled(t, item.(amount := n), item, n)
  {
  }

  lemma FilledAlike(t: ItemStack, t': ItemStack, item: ItemStack, left: Byte, n: nat)
    ensures Filled(t, t', item.(amount := left), n) <==> Filled(t, t', item, n)
  {
  }

  /** The loop over empty slots. */
  lemma {:induction false} FillAt(v: Inventory, item: ItemStack, s: nat, rooms: seq<nat>, k: nat)
    requires EmptyFrom(v, item, s, rooms) && k < |v.slots| == |rooms| && MaxStack(item) > 0
    ensures var (v', left) := Fill(v, item, s);
            && |v'.slots| == |v.slots| && v'.cursor == v.cursor && v'.drag == v.drag
            && left == item.(amount := left.amount) && left.amount as nat == Rest(rooms, s, item.amount)
            && Filled(v.slots[k], v'.slots[k], item, if k < s then 0 else Given(rooms, s, k, item.amount))
    decreases |v.slots| - s
  {
    hide Sum, Given, Rest, Filled, MaxStack, EmptyFrom;
    FilledByNothing(v.slots[k], item);
    if s < |v.slots| && !IsAir(item) {
      var t := v.slots[s];
      var n := Min(MaxStack(item), item.amount);
      var left := SubSat(item.amount, n);
      EmptyStep(v, item, s, rooms, item.(amount := n), left);
      EmptyStep(v, item, s, rooms, item.(amount := n), item.amount);
      Steps(rooms, s, item.amount);
      if !IsAir(t) {
        FillAt(v, item, s + 1, rooms, k);
      } else {
        var w := SetSlot(v, s, item.(amount := n));
        SameLimit(item, left);
        FilledBy(t, item, n);
        FillAt(w, item.(amount := left), s + 1, rooms, k);
        var t' := Fill(v, item, s).0.slots[k];
        FilledAlike(w.slots[k], t', item, left, if k < s + 1 then 0 else Given(rooms, s + 1, k, left));
        FilledByNothing(w.slots[k], item);
      }
    } else {
      GivenAtEnd(rooms, s, item.amount);
    }
  }

  lemma SameLimit(item: ItemStack, n: Byte)
    ensures MaxStack(item.(amount := n)) == MaxStack(item)
  {
  }

  /** An item that stacks to nothing finds no place, and leaves an empty copy of itself in every empty slot. */
  lemma {:induction false} FillNowhere(v: Inventory, item: ItemStack, s: nat, k: nat)
    requires k < |v.slots| && MaxStack(item) == 0 && !IsAir(item)
    ensures var (v', left) := Fill(v, item, s);
            && |v'.slots| == |v.slots| && v'.cursor == v.cursor && v'.drag == v.drag && left == item
            && v'.slots[k] == if s <= k && v.slots[k].amount == 0 then item.(amount := 0) else v.slots[k]
    decreases |v.slots| - s
  {
    hide MaxStack;
    if s < |v.slots| {
      FillNowhere(if IsAir(v.slots[s]) then SetSlot(v, s, item.(amount := 0)) else v, item, s + 1, k);
    }
  }

  /** Adding an item tops up the stacks of the same thing, the lowest slot first, and then fills empty
    * slots, the lowest first; what is over comes back. */
  lemma AddItemIs(v: Inventory, item: ItemStack, k: nat)
    requires k < |v.slots| && item.amount > 0 && MaxStack(item) > 0
    ensures var (v', left) := AddItem(v, item);
            var stacks, empties := StackRooms(v.slots, item), EmptyRooms(v.slots, item);
            var over := Rest(stacks, 0, item.amount);
            && |v'.slots| == |v.slots| && v'.cursor == v.cursor && v'.drag == v.drag
            && (v.slots[k].amount > 0 ==>
                  Raised(v.slots[k], v'.slots[k], item.material, Given(stacks, 0, k, item.amount)))
            && (v.slots[k].amount == 0 ==> Filled(v.slots[k], v'.slots[k], item, Given(empties, 0, k, over)))
            && Reduced(item, left, item.amount - Rest(empties, 0, over))
  {
    hide Sum, Given, Rest, Raised, Filled, Reduced, MaxStack, Stack, Fill, StackRoom, EmptyRoom;
    var stacks, empties := StackRooms(v.slots, item), EmptyRooms(v.slots, item);
    StackAt(v, item, 0, stacks, k);
    var (v1, over) := Stack(v, item, 0);
    StillEmpty(v, item);
    SameLimit(item, over.amount);
    FillAt(v1, over, 0, empties, k);
    var (v2, left) := Fill(v1, over, 0);
    FilledAlike(v1.slots[k], v2.slots[k], item, over.amount, Given(empties, 0, k, over.amount));
    RestAtMost(stacks, 0, item.amount);
    LeftIsReduced(item, left, over.amount, empties);
    EmptyHasNoRoom(v, item, k);
    EmptyOrNot(v.slots[k], v1.slots[k], v2.slots[k], item, stacks, empties, k, over.amount);
  }

  /** Topping up leaves empty slots alone, and full ones full. */
  lemma StillEmpty(v: Inventory, item: ItemStack)
    ensures var (v1, over) := Stack(v, item, 0);
            EmptyFrom(v1, over, 0, EmptyRooms(v.slots, item)) && |v1.slots| == |v.slots|
            && over == item.(amount := over.amount)
  {
    hide Sum, Given, Rest, MaxStack, Stack, StackRoom;
    var (v1, over) := Stack(v, item, 0);
    var stacks := StackRooms(v.slots, item);
    if v.slots != [] {
      StackAt(v, item, 0, stacks, 0);
    } else {
      StackOfNothing(v, item);
    }
    SameLimit(item, over.amount);
    forall i | 0 <= i < |v.slots|
      ensures EmptyRoom(v1.slots[i], over) == EmptyRoom(v.slots[i], item)
    {
      StackAt(v, item, 0, stacks, i);
      EmptyHasNoRoom(v, item, i);
    }
  }

  lemma StackOfNothing(v: Inventory, item: ItemStack)
    requires v.slots == []
    ensures Stack(v, item, 0) == (v, item)
  {
  }

  lemma EmptyHasNoRoom(v: Inventory, item: ItemStack, i: nat)
    requires i < |v.slots|
    ensures v.slots[i].amount == 0 ==>
              StackRooms(v.slots, item)[i] == 0 && Given(StackRooms(v.slots, item), 0, i, item.amount) == 0
    ensures v.slots[i].amount > 0 ==> EmptyRooms(v.slots, item)[i] == 0
  {
    hide Sum, MaxStack;
  }

  lemma LeftIsReduced(item: ItemStack, left: ItemStack, over: nat, empties: seq<nat>)
    requires over <= item.amount && left == item.(amount := left.amount) && left.amount as nat == Rest(empties, 0, over)
    ensures Rest(empties, 0, over) <= item.amount
    ensures item.amount > 0 ==>
              Reduced(item, if IsAir(left) then AIR else left, item.amount - Rest(empties, 0, over))
  {
  }

  /** A slot is either topped up or filled. */
  lemma EmptyOrNot(
    t: ItemStack, t1: ItemStack, t2: ItemStack, item: ItemStack, stacks: seq<nat>, empties: seq<nat>, k: nat,
    over: nat)
    requires k < |stacks| && k < |empties|
    requires Raised(t, t1, item.material, Given(stacks, 0, k, item.amount))
    requires Filled(t1, t2, item, Given(empties, 0, k, over))
    requires t.amount == 0 ==> stacks[k] == 0
    requires t.amount > 0 ==> empties[k] == 0
    ensures t.amount > 0 ==> Raised(t, t2, item.material, Given(stacks, 0, k, item.amount))
    ensures t.amount == 0 ==> Filled(t, t2, item, Given(empties, 0, k, over))
  {
  }

  /** Nothing is added, and an item that stacks to nothing comes back as it was. */
  lemma AddItemRefused(v: Inventory, item: ItemStack, k: nat)
    requires k < |v.slots| && (item.amount == 0 || MaxStack(item) == 0)
    ensures var (v', left) := AddItem(v, item);
            && |v'.slots| == |v.slots| && v'.cursor == v.cursor && v'.drag == v.drag
            && left == (if item.amount == 0 then AIR else item)
            && v'.slots[k] == if item.amount > 0 && v.slots[k].amount == 0 then item.(amount := 0) else v.slots[k]
  {
    hide MaxStack, Stack, Fill;
    if item.amount > 0 {
      NothingStacks(v, item, 0);
      FillNowhere(v, item, 0, k);
    }
  }

  lemma {:induction false} NothingStacks(v: Inventory, item: ItemStack, s: nat)
    requires MaxStack(item) == 0
    ensures Stack(v, item, s) == (v, item)
    decreases |v.slots| - s
  {
    if s < |v.slots| && !IsAir(item) {
      LimitOfSame(v.slots[s], item);
      NothingStacks(v, item, s + 1);
    }
  }

  lemma LimitOfSame(t: ItemStack, item: ItemStack)
    ensures t.components == item.components ==> MaxStack(t) == MaxStack(item)
  {
  }

  // ---- which click does what ----

  /** The numbering of the window: result and crafting grid, armour, backpack, hotbar, off hand. */
  lemma WindowLayout(i: nat)
    ensures i <= 8 ==> ToWindow(i) == 36 + i && FromWindow(36 + i) == i
    ensures 9 <= i <= 35 ==> ToWindow(i) == i && FromWindow(i) == i
    ensures 36 <= i <= 40 ==> ToWindow(i) == i - 36 && FromWindow(i - 36) == i
    ensures 41 <= i <= 44 ==> ToWindow(i) == 5 + (i - 41) && FromWindow(5 + (i - 41)) == i
    ensures ToWindow(45) == 45 && FromWindow(45) == 45
  {
  }

  /** Writing a slot marks it when the item is not air, and nothing else. */
  lemma SetSlotIs(v: Inventory, slot: nat, item: ItemStack, k: nat)
    requires slot < |v.slots|
    ensures var w := SetSlot(v, slot, item);
            && |w.slots| == |v.slots| && w.cursor == v.cursor && w.drag == v.drag && w.fullSync == v.fullSync
            && (k < |v.slots| ==> w.slots[k] == if k == slot then item else v.slots[k])
            && (k in w.dirty <==> k in v.dirty || (k == slot && item.amount > 0))
  {
  }

  /** The mode numbers of the protocol. */
  lemma ClickModes(v: Inventory, slot: nat, button: int)
    requires Valid(v) && slot < SLOTS
    ensures Click(v, slot, button, 0) == Pickup(v, slot, button)
    ensures Click(v, slot, button, 1) == QuickMove(v, slot)
    ensures Click(v, slot, button, 2) == Swap(v, slot, button)
    ensures Click(v, slot, button, 3) == Clone(v, slot, button)
    ensures Click(v, slot, button, 4) == Throw(v, slot, button)
    ensures Click(v, slot, button, 5) == QuickCraft(v, slot, button)
    ensures Click(v, slot, button, 6) == PickupAll(v)
    ensures forall mode | !(0 <= mode <= 6) :: Click(v, slot, button, mode) == (v, false)
  {
    hide Pickup, QuickMove, Swap, Clone, Throw, QuickCraft, PickupAll, Valid;
  }

  /** Without an open drag a click does what its mode says; with one, any click outside the drag does what
    * it would do after the rollback. */
  lemma RollbackComesFirst(v: Inventory, window: int, button: int, mode: int)
    requires Valid(v) && 0 <= window <= 45
    ensures Valid(Cancel(v).0)
    ensures var (v', changed) := ApplyClick(v, window, button, mode);
            var (w, clicked) := Click(v, FromWindow(window), button, mode);
            !Active(v) || mode == 5 ==>
              v' == w.(fullSync := w.fullSync || clicked) && changed == clicked
    ensures var (v', changed) := ApplyClick(v, window, button, mode);
            var w := ApplyClick(Cancel(v).0, window, button, mode).0;
            Active(v) && mode != 5 ==>
              changed && v'.slots == w.slots && v'.cursor == w.cursor && v'.drag == w.drag && v'.fullSync
  {
    hide Valid, Click, Restore;
    CancelValid(v);
  }

  // ---- when a drag is open ----

  /** The click starts a drag with something on the cursor. */
  predicate Begins(v: Inventory, e: Event) {
    e.ClickEvent? && 0 <= e.window <= 45 && e.mode == 5 && e.button == 0 && v.cursor.amount > 0
  }

  /** The last stage, any other kind of click in the window, or closing the window. */
  predicate Ends(e: Event) {
    e.CloseEvent? || (e.ClickEvent? && 0 <= e.window <= 45 && (e.mode != 5 || e.button == 3))
  }

  lemma ClickKeepsDrag(v: Inventory, slot: nat, button: int, mode: int)
    requires Valid(v) && slot < SLOTS && mode != CLICK_QUICK_CRAFT
    ensures Click(v, slot, button, mode).0.drag == v.drag
  {
    hide Valid, Click, Pickup, QuickMove, Swap, Clone, Throw, QuickCraft, PickupAll, Exchanged, MaxStack, Given, Rest,
         Reduced, Sum, FirstAir, L.Share, L.Left, L.Topped;
    ClickModes(v, slot, button);
    ValidSize(v);
    if mode == CLICK_PICKUP {
      PickupIs(v, slot, button);
    } else if mode == CLICK_QUICK_MOVE {
      QuickMoveIs(v, slot, 0);
    } else if mode == CLICK_SWAP {
      SwapIs(v, slot, button);
    } else if mode == CLICK_CLONE {
      CloneIs(v, slot, button);
    } else if mode == CLICK_THROW {
      ThrowIs(v, slot, button);
    } else if mode == CLICK_PICKUP_ALL {
      PickupAllIs(v);
    }
  }

  lemma DragStep(v: Inventory, e: Event)
    requires Valid(v)
    ensures Active(Happened(v, e)) <==> Begins(v, e) || (Active(v) && !Ends(e))
  {
    hide Valid, Cancel, QuickCraft, Click, Joined;
    CancelValid(v);
    match e
    case ClickEvent(window, button, mode) =>
      if 0 <= window <= 45 {
        var v1 := if mode != CLICK_QUICK_CRAFT then Cancel(v).0 else v;
        if mode == CLICK_QUICK_CRAFT {
          QuickCraftDrag(v, FromWindow(window), button);
          ClickModes(v, FromWindow(window), button);
        } else {
          ClickKeepsDrag(v1, FromWindow(window), button, mode);
        }
      }
    case _ =>
  }

  /** Over any run, a drag is open exactly when some click has begun one with something on the cursor and
    * nothing has ended it since. */
  ghost predicate OpenAfter(v: Inventory, events: seq<Event>)
    requires Valid(v)
  {
    exists i :: 0 <= i < |events| && BeginsAt(v, events, i) && forall j | i < j < |events| :: !Ends(events[j])
  }

  ghost predicate BeginsAt(v: Inventory, events: seq<Event>, i: nat)
    requires Valid(v) && i < |events|
  {
    Begins(After(v, events[..i]), events[i])
  }

  lemma {:induction false} DragIsOpenIff(v: Inventory, events: seq<Event>)
    requires Valid(v) && !Active(v)
    ensures Active(After(v, events)) <==> OpenAfter(v, events)
    decreases |events|
  {
    hide Valid, Happened, Begins, Ends, After;
    if events == [] {
      RunOfNone(v);
    } else {
      var front, e := events[..|events| - 1], events[|events| - 1];
      assert events == front + [e];
      AfterAppend(v, front, e);
      DragIsOpenIff(v, front);
      DragStep(After(v, front), e);
      forall i | 0 <= i < |front|
        ensures BeginsAt(v, events, i) <==> BeginsAt(v, front, i)
      {
        assert front[..i] == events[..i];
      }
      assert events[..|front|] == front;
      BeginsIsNoEnd(After(v, front), e);
      assert BeginsAt(v, events, |front|) <==> Begins(After(v, front), e);
      if i :| 0 <= i < |front| && BeginsAt(v, front, i) && forall j | i < j < |front| :: !Ends(front[j]) {
        assert BeginsAt(v, events, i);
        assert !Ends(e) ==> forall j | i < j < |events| :: !Ends(events[j]);
      }
      if i :| 0 <= i < |events| && BeginsAt(v, events, i) && forall j | i < j < |events| :: !Ends(events[j]) {
        if i < |front| {
          assert BeginsAt(v, front, i);
          assert forall j | i < j < |front| :: front[j] == events[j];
          assert !Ends(events[|front|]);
        }
      }
    }
  }

  lemma BeginsIsNoEnd(v: Inventory, e: Event)
    ensures Begins(v, e) ==> !Ends(e)
  {
  }

  lemma RunOfNone(v: Inventory)
    requires Valid(v)
    ensures After(v, []) == v
  {
  }

  lemma {:induction false} AfterAppend(v: Inventory, events: seq<Event>, e: Event)
    requires Valid(v)
    ensures After(v, events + [e]) == Happened(After(v, events), e)
    decreases |events|
  {
    hide Valid, Happened;
    if events == [] {
      assert events + [e] == [e] && [e][1..] == [];
    } else {
      assert (events + [e])[0] == events[0] && (events + [e])[1..] == events[1..] + [e];
      AfterAppend(Happened(v, events[0]), events[1..], e);
    }
  }

  /** After the last stage of a drag the next click that moves items finds nothing to roll back. */
  lemma FinishedDragIsSafe(v: Inventory, window: int, next: int, button: int, mode: int, m: U32)
    requires Valid(v) && 0 <= window <= 45 && 0 <= next <= 45 && Conserving(mode)
    ensures var v1 := ApplyClick(v, window, 3, 5).0;
            Valid(v1) && !Active(v1) && Total(ApplyClick(v1, next, button, mode).0, m) == Total(v, m)
  {
    hide Valid, ApplyClick, Count;
    var v1 := ApplyClick(v, window, 3, 5).0;
    ApplyClickValid(v, window, 3, 5);
    DragStep(v, ClickEvent(window, 3, 5));
    ApplyClickConservesIff(v, window, 3, 5);
    ApplyClickConservesIff(v1, next, button, mode);
  }
}
