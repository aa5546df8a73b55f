/** What the decoders make of bytes that no encoder wrote. */
module MalformedForms {
  import opened Wrappers
  import opened Bytes
  import opened Nbt
  import T = TextComponents
  import I = Items
  import C = ItemCodec
  import A = Anvil

  // ---- numbers ----

  /** Five bytes that all announce another are too many; fewer end too early. */
  lemma {:induction false} EndlessVarInt(data: seq<Byte>, i: nat, acc: nat)
    requires i <= 5 && forall k | 0 <= k < |data| && k < 5 - i :: data[k] >= 128
    ensures ReadVarIntFrom(data, i, acc)
         == Err(if |data| >= 5 - i then VarIntTooLong else ReadError.UnexpectedEof)
    decreases 5 - i
  {
    hide Shift7;
    if i < 5 && data != [] {
      EndlessVarInt(data[1..], i + 1, (acc + data[0] % 128 * Shift7(i)) % 0x1_0000_0000);
    }
  }

  // ---- item stacks ----

  /** A stack needs a count; 0 and every negative count are air, whatever follows. */
  lemma CountOrAir(n: U32, rest: seq<Byte>)
    ensures C.Decode([]) == Err(C.ProtocolError.UnexpectedEof)
    ensures n == 0 || n >= 0x8000_0000 ==> C.Decode(VarInt(n) + rest) == Ok((I.AIR, rest))
  {
    hide VarInt;
    C.VarIntTrip(n, rest);
    assert ReadVarInt([]) == Err(ReadError.UnexpectedEof);
  }

  /** More than 256 components are refused. */
  lemma TooManyComponents(added: U32, removed: U32, rest: seq<Byte>)
    requires added < 0x8000_0000 && removed < 0x8000_0000 && added + removed > 256
    ensures C.GetPatch(VarInt(added) + (VarInt(removed) + rest)) == Err(C.InvalidValue)
  {
    hide VarInt;
    C.VarIntTrip(added, VarInt(removed) + rest);
    C.VarIntTrip(removed, rest);
  }

  /** Ids without a decoder are refused, and rarities beyond the last one. */
  lemma UnknownValues(id: U32, n: U32, rest: seq<Byte>)
    ensures id !in {0, 1, 2, 3, 4, 6, 7, 10, 11, 12, 13, 21, 22, 45, 50, 52, 53, 76, 77} ==>
              C.GetValue(id, rest) == Err(C.UnsupportedComponents)
    ensures n > 3 ==> C.GetValue(12, VarInt(n) + rest) == Err(C.InvalidValue)
    ensures n >= 0x8000_0000 ==> C.GetValue(1, VarInt(n) + rest) == Err(C.InvalidValue)
  {
    hide VarInt, C.GetString, C.GetText, C.GetTextList, C.GetCompoundValue;
    C.VarIntTrip(n, rest);
  }

  /** Any byte but 0 is true. */
  lemma AnyByteIsTrue(b: Byte, rest: seq<Byte>)
    ensures C.GetValue(21, [b] + rest) == Ok((I.BoolValue(b != 0), rest))
  {
    C.ByteTrip(b, rest);
  }

  // ---- text components ----

  /** Only compounds are components, and one without a known key is empty. */
  lemma ForeignTags(tag: NbtTag, key: string)
    ensures !tag.Compound? ==> T.FromNbt(tag) == Err(InvalidListType)
    ensures T.FromNbt(Compound([])) == Ok(T.Empty)
    ensures key !in {"keybind", "score", "selector", "nbt", "click_event", "hover_event", "translate", "text"} ==>
              T.FromNbt(Compound([Entry(key, tag)])) == Ok(T.Empty)
  {
    hide T.StyleOf, T.ExtractClick, T.ExtractHover, T.RequiredStr, T.EntryStr, T.FromNbtAll, T.EntryCompound,
         T.EntryFlag;
    if key !in {"keybind", "score", "selector", "nbt", "click_event", "hover_event", "translate", "text"} {
      forall other | other != key
        ensures T.Find([Entry(key, tag)], other) == None
      {
        assert [Entry(key, tag)][1..] == [];
      }
    }
  }

  /** A key whose value has another type than its field is refused. */
  lemma WrongTypes(n: U32)
    ensures T.FromNbt(Compound([Entry("text", Int(n))])) == Err(InvalidListType)
    ensures T.FromNbt(Compound([Entry("keybind", Int(n))])) == Err(InvalidListType)
    ensures T.FromNbt(Compound([Entry("selector", Int(n))])) == Err(InvalidListType)
    ensures T.FromNbt(Compound([Entry("translate", Int(n))])) == Err(InvalidListType)
  {
    hide T.StyleOf, T.FromNbtAll, T.Find;
    OneKey("text", Int(n));
    OneKey("keybind", Int(n));
    OneKey("selector", Int(n));
    OneKey("translate", Int(n));
  }

  lemma WrongParts(s: string)
    ensures T.FromNbt(Compound([Entry("score", Str(s))])) == Err(InvalidListType)
    ensures T.FromNbt(Compound([Entry("nbt", Str(s))])) == Err(InvalidListType)
    ensures T.FromNbt(Compound([Entry("click_event", Str(s))])) == Err(InvalidListType)
    ensures T.FromNbt(Compound([Entry("hover_event", Str(s))])) == Err(InvalidListType)
  {
    hide T.StyleOf, T.FromNbtAll, T.Find;
    OneKey("score", Str(s));
    OneKey("nbt", Str(s));
    OneKey("click_event", Str(s));
    OneKey("hover_event", Str(s));
  }

  lemma OneKey(key: string, tag: NbtTag)
    ensures forall other :: T.Find([Entry(key, tag)], other) == if other == key then Some(tag) else None
  {
    assert [Entry(key, tag)][1..] == [];
  }

  // ---- region files ----

  /** What any file holds for chunk (x, z): the sectors that its table entry names, unless the entry is cut
    * off, names sector 0 or no sectors, or points beyond the end of the file. */
  lemma AnyFile(data: seq<Byte>, x: nat, z: nat)
    requires x < 32 && z < 32
    ensures var off := 4 * (32 * z + x);
            if off + 4 > |data| then (x, z) !in A.Open(data)
            else
              var sector := 0x1_0000 * data[off] as int + 0x100 * data[off + 1] as int + data[off + 2] as int;
              var count := data[off + 3] as int;
              if sector == 0 || count == 0 || 4096 * (sector + count) > |data| then (x, z) !in A.Open(data)
              else (x, z) in A.Open(data) && A.Open(data)[(x, z)] == data[4096 * sector..4096 * (sector + count)]
  {
    hide A.SlotBlob;
    var slot := 32 * z + x;
    A.SlotsAreKeys((x, z));
    A.OpenedHas(data, A.SLOT_COUNT, slot);
    EntryIs(data, slot);
  }

  lemma EntryIs(data: seq<Byte>, slot: nat)
    ensures var off := 4 * slot;
            A.SlotBlob(data, slot) ==
            if off + 4 > |data| then None
            else
              var sector := 0x1_0000 * data[off] as int + 0x100 * data[off + 1] as int + data[off + 2] as int;
              var count := data[off + 3] as int;
              if sector == 0 || count == 0 || 4096 * (sector + count) > |data| then None
              else Some(data[4096 * sector..4096 * (sector + count)])
  {
  }
}
