/** Item stacks and their component patches, from item_stack.rs. */
module Items {
  import opened Wrappers
  import opened Bytes
  import Nbt
  import TextComponents

  datatype ItemRarity = Common | Uncommon | Rare | Epic

  datatype ComponentValue =
    | MaxStackSize(n: U32)
    | MaxDamage(n: U32)
    | Damage(n: U32)
    | Unbreakable
    | MinimumAttackCharge(charge: U32)
    | Rarity(rarity: ItemRarity)
    | ByteValue(v8: Byte)
    | ShortValue(v16: U16)
    | LongValue(v64: U64)
    | FloatValue(f32: U32)
    | DoubleValue(f64: U64)
    | StringValue(s: string)
    | BoolValue(b: bool)
    | NbtValue(tag: Nbt.NbtTag)
    | TextValue(text: TextComponents.Component)
    | TextListValue(lines: seq<TextComponents.Component>)

  datatype ComponentEntry = Set(id: U32, value: ComponentValue) | Remove(id: U32)

  type Patch = seq<ComponentEntry>

  datatype ItemStack = ItemStack(material: U32, amount: Byte, components: Patch)

  const AIR := ItemStack(0, 0, [])

  const MAX_STACK: Byte := 64

  // ---- patches ----

  /** The first value set for an id. */
  function Get(p: Patch, id: U32): Option<ComponentValue> {
    if p == [] then None
    else if p[0].Set? && p[0].id == id then Some(p[0].value)
    else Get(p[1..], id)
  }

  function SetAt(p: Patch, id: U32, value: ComponentValue): Patch {
    if p == [] then [Set(id, value)]
    else if p[0].Set? && p[0].id == id then [Set(id, value)] + p[1..]
    else [p[0]] + SetAt(p[1..], id, value)
  }

  function WithoutSet(p: Patch, id: U32): Patch {
    if p == [] then []
    else if p[0].Set? && p[0].id == id then WithoutSet(p[1..], id)
    else [p[0]] + WithoutSet(p[1..], id)
  }

  function RemoveId(p: Patch, id: U32): Patch {
    var rest := WithoutSet(p, id);
    if Remove(id) in rest then rest else rest + [Remove(id)]
  }

  lemma {:induction false} GetAfterSetAt(p: Patch, id: U32, value: ComponentValue, k: U32)
    ensures Get(SetAt(p, id, value), k) == if k == id then Some(value) else Get(p, k)
  {
    if p == [] {
      assert [Set(id, value)][1..] == [];
    } else if p[0].Set? && p[0].id == id {
      assert ([Set(id, value)] + p[1..])[1..] == p[1..];
    } else {
      GetAfterSetAt(p[1..], id, value, k);
      assert ([p[0]] + SetAt(p[1..], id, value))[1..] == SetAt(p[1..], id, value);
    }
  }

  lemma {:induction false} GetWithoutSet(p: Patch, id: U32, k: U32)
    ensures Get(WithoutSet(p, id), k) == if k == id then None else Get(p, k)
  {
    if p != [] {
      GetWithoutSet(p[1..], id, k);
      assert ([p[0]] + WithoutSet(p[1..], id))[1..] == WithoutSet(p[1..], id);
    }
  }

  lemma {:induction false} GetSnocRemove(p: Patch, id: U32, k: U32)
    ensures Get(p + [Remove(id)], k) == Get(p, k)
  {
    if p == [] {
      assert p + [Remove(id)] == [Remove(id)] && [Remove(id)][1..] == [];
    } else {
      GetSnocRemove(p[1..], id, k);
      assert (p + [Remove(id)])[1..] == p[1..] + [Remove(id)];
    }
  }

  /** Removing hides the id from every getter and leaves all other ids alone. */
  lemma GetAfterRemove(p: Patch, id: U32, k: U32)
    ensures Get(RemoveId(p, id), k) == if k == id then None else Get(p, k)
    ensures Remove(id) in RemoveId(p, id)
  {
    GetWithoutSet(p, id, k);
    GetSnocRemove(WithoutSet(p, id), id, k);
  }

  /** Setting replaces the value where the id stands. */
  lemma {:induction false} SetAtPosition(front: Patch, id: U32, value: ComponentValue, was: ComponentValue, back: Patch)
    requires forall i | 0 <= i < |front| :: !(front[i].Set? && front[i].id == id)
    ensures SetAt(front + ([Set(id, was)] + back), id, value) == front + ([Set(id, value)] + back)
    decreases |front|
  {
    hide SetAt;
    var tail := [Set(id, was)] + back;
    if front == [] {
      SetAtFirst(Set(id, was), back, id, value);
      assert front + tail == tail && front + ([Set(id, value)] + back) == [Set(id, value)] + back;
    } else {
      SetAtPosition(front[1..], id, value, was, back);
      SetAtFirst(front[0], front[1..] + tail, id, value);
      assert front + tail == [front[0]] + (front[1..] + tail);
      assert front + ([Set(id, value)] + back) == [front[0]] + (front[1..] + ([Set(id, value)] + back));
    }
  }

  lemma SetAtFirst(e: ComponentEntry, rest: Patch, id: U32, value: ComponentValue)
    ensures SetAt([e] + rest, id, value) ==
            if e.Set? && e.id == id then [Set(id, value)] + rest else [e] + SetAt(rest, id, value)
  {
    assert ([e] + rest)[1..] == rest;
  }

  /** An id that is not set yet is set at the end. */
  lemma {:induction false} SetAtEnd(p: Patch, id: U32, value: ComponentValue)
    requires forall i | 0 <= i < |p| :: !(p[i].Set? && p[i].id == id)
    ensures SetAt(p, id, value) == p + [Set(id, value)]
    decreases |p|
  {
    if p != [] {
      SetAtEnd(p[1..], id, value);
      assert p == [p[0]] + p[1..];
    }
  }

  /** Removing keeps the order of the other entries and adds its mark at the end, unless it is there. */
  lemma {:induction false} RemovePosition(front: Patch, id: U32, value: ComponentValue, back: Patch)
    requires forall i | 0 <= i < |front| :: front[i].id != id
    requires forall i | 0 <= i < |back| :: back[i].id != id
    ensures RemoveId(front + ([Set(id, value)] + back), id) == front + back + [Remove(id)]
    ensures RemoveId(front + ([Remove(id)] + back), id) == front + ([Remove(id)] + back)
  {
    OthersStay(front, id);
    OthersStay(back, id);
    WithoutConcat(front, [Set(id, value)] + back, id);
    WithoutConcat([Set(id, value)], back, id);
    WithoutConcat(front, [Remove(id)] + back, id);
    WithoutConcat([Remove(id)], back, id);
    assert [Set(id, value)][1..] == [] && [Remove(id)][1..] == [];
    assert WithoutSet([Set(id, value)], id) == [] && WithoutSet([Remove(id)], id) == [Remove(id)];
    assert Remove(id) !in front && Remove(id) !in back;
    assert front + ([] + back) == front + back;
  }

  lemma {:induction false} OthersStay(p: Patch, id: U32)
    requires forall i | 0 <= i < |p| :: p[i].id != id
    ensures WithoutSet(p, id) == p
  {
    if p != [] {
      OthersStay(p[1..], id);
    }
  }

  lemma {:induction false} WithoutConcat(p: Patch, q: Patch, id: U32)
    ensures WithoutSet(p + q, id) == WithoutSet(p, id) + WithoutSet(q, id)
  {
    if p == [] {
      assert p + q == q;
    } else {
      WithoutConcat(p[1..], q, id);
      assert (p + q)[1..] == p[1..] + q;
    }
  }

  ghost predicate Contradictory(p: Patch, id: U32) {
    Get(p, id).Some? && Remove(id) in p
  }

  lemma {:induction false} SetAtKeepsRemoves(p: Patch, id: U32, value: ComponentValue, k: U32)
    ensures Remove(k) in SetAt(p, id, value) <==> Remove(k) in p
  {
    if p != [] && !(p[0].Set? && p[0].id == id) {
      SetAtKeepsRemoves(p[1..], id, value, k);
    }
  }

  /** Setting an id that is marked as removed leaves a patch that both sets and removes it; setting any
    * other id does not. */
  lemma SetAtContradictsIff(p: Patch, id: U32, value: ComponentValue)
    ensures Contradictory(SetAt(p, id, value), id) <==> Remove(id) in p
  {
    GetAfterSetAt(p, id, value, id);
    SetAtKeepsRemoves(p, id, value, id);
  }

  /** The limit of a slot holding the item; sizes beyond a byte count as absent. */
  function MaxStack(item: ItemStack): Byte {
    match Get(item.components, 1)
    case Some(MaxStackSize(n)) => if n < 256 then n else MAX_STACK
    case _ => MAX_STACK
  }

  /** `ItemStack::new`: no components; amount 0 is air. */
  function NewStack(material: U32, amount: Byte): ItemStack {
    if amount == 0 then AIR else ItemStack(material, amount, [])
  }

  // ---- the loops of the source ----

  predicate IsSet(e: ComponentEntry, id: U32) {
    e.Set? && e.id == id
  }

  lemma {:induction false} SetAtSplit(p: Patch, id: U32, value: ComponentValue, i: nat)
    requires i <= |p| && forall k | 0 <= k < i :: !IsSet(p[k], id)
    ensures i < |p| && IsSet(p[i], id) ==> SetAt(p, id, value) == p[i := Set(id, value)]
    ensures i == |p| ==> SetAt(p, id, value) == p + [Set(id, value)]
  {
    if p != [] && i > 0 {
      SetAtSplit(p[1..], id, value, i - 1);
      assert p == [p[0]] + p[1..];
      assert i < |p| ==> p[i] == p[1..][i - 1];
    } else if p != [] && IsSet(p[0], id) {
      assert p[0 := Set(id, value)] == [Set(id, value)] + p[1..];
    }
  }

  method SetAtInPlace(p: Patch, id: U32, value: ComponentValue) returns (r: Patch)
    ensures r == SetAt(p, id, value)
  {
    hide SetAt;
    for i := 0 to |p|
      invariant forall k | 0 <= k < i :: !IsSet(p[k], id)
    {
      if IsSet(p[i], id) {
        SetAtSplit(p, id, value, i);
        return p[i := Set(id, value)];
      }
    }
    SetAtSplit(p, id, value, |p|);
    return p + [Set(id, value)];
  }

  method RemoveInPlace(p: Patch, id: U32) returns (r: Patch)
    ensures r == RemoveId(p, id)
  {
    r := [];
    var i := 0;
    while i < |p|
      invariant 0 <= i <= |p|
      invariant WithoutSet(p, id) == r + WithoutSet(p[i..], id)
    {
      assert p[i..][1..] == p[i + 1..];
      if !(p[i].Set? && p[i].id == id) {
        r := r + [p[i]];
      }
      i := i + 1;
    }
    if Remove(id) !in r {
      r := r + [Remove(id)];
    }
  }
}
