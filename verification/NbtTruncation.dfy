/** Every tag that is cut short is refused as such. */
module NbtTruncation {
  import opened Wrappers
  import opened Bytes
  import opened Nbt

  // ---- lengths ----

  lemma {:induction false} VarIntCut(v: nat, i: nat, acc: nat, k: nat)
    requires k < |VarIntBytes(v)| && i + |VarIntBytes(v)| <= 5
    ensures ReadVarIntFrom(VarIntBytes(v)[..k], i, acc) == Err(ReadError.UnexpectedEof)
    decreases v
  {
    hide Shift7;
    if k > 0 {
      var data := VarIntBytes(v)[..k];
      assert data[0] == v % 128 + 128 && data[1..] == VarIntBytes(v / 128)[..k - 1];
      VarIntCut(v / 128, i + 1, (acc + data[0] % 128 * Shift7(i)) % 0x1_0000_0000, k - 1);
    }
  }

  /** A length with k of the bytes behind it. */
  lemma LenCut(n: nat, rest: seq<Byte>, k: nat)
    requires WriteLen(n).Ok? && k <= |WriteLen(n).value + rest|
    ensures var len := WriteLen(n).value;
            if k < |len| then ReadLen((len + rest)[..k]) == Err(NbtError.UnexpectedEof)
            else
              ReadLen((len + rest)[..k]) ==
              if n > k - |len| then Err(NbtError.UnexpectedEof) else Ok((n, rest[..k - |len|]))
  {
    var len := WriteLen(n).value;
    if k < |len| {
      assert (len + rest)[..k] == VarIntBytes(n)[..k];
      VarIntCut(n, 0, 0, k);
    } else {
      assert (len + rest)[..k] == VarInt(n) + rest[..k - |len|];
      VarIntRoundTrip(n, rest[..k - |len|]);
    }
  }

  lemma StringCut(s: string, k: nat)
    requires WriteString(s).Ok? && k < |WriteString(s).value|
    ensures ReadString(WriteString(s).value[..k]) == Err(NbtError.UnexpectedEof)
  {
    hide ReadLen, WriteLen;
    LenCut(|Utf8Bytes(s)|, Utf8Bytes(s), k);
  }

  // ---- numbers ----

  lemma {:induction false} NumbersCut(s: seq<nat>, w: nat, k: nat)
    requires w > 0 && Fit(s, w) && k < |WriteNumbers(s, w)|
    ensures ReadNumbers(|s|, w, WriteNumbers(s, w)[..k]) == Err(NbtError.UnexpectedEof)
    decreases |s|
  {
    hide Power256, BigEndian;
    var data := WriteNumbers(s, w)[..k];
    if k >= w {
      var tail := WriteNumbers(s[1..], w)[..k - w];
      assert data == BigEndian(s[0], w) + tail;
      NumberRoundTrip(s[0], w, tail);
      NumbersCut(s[1..], w, k - w);
    }
  }

  lemma ArrayCut(s: seq<nat>, w: nat, k: nat)
    requires w > 0 && Fit(s, w) && WriteLen(|s|).Ok? && k < |WriteLen(|s|).value + WriteNumbers(s, w)|
    ensures ReadArray(w, (WriteLen(|s|).value + WriteNumbers(s, w))[..k]) == Err(NbtError.UnexpectedEof)
  {
    hide ReadLen, WriteLen, ReadNumbers, WriteNumbers, Fit;
    LenCut(|s|, WriteNumbers(s, w), k);
    var m := k - |WriteLen(|s|).value|;
    if m >= 0 {
      NumbersCut(s, w, m);
    }
  }

  lemma ScalarCut(tag: NbtTag, k: nat)
    requires 1 <= TagId(tag) <= 6 && WritePayload(tag).Ok? && k < |WritePayload(tag).value|
    ensures ReadScalar(TagId(tag), WritePayload(tag).value[..k]) == Err(NbtError.UnexpectedEof)
  {
    hide BigEndian, FromBigEndian;
  }

  // ---- tags ----

  /** A payload cut anywhere ends too early. */
  lemma {:induction false} PayloadCut(tag: NbtTag, k: nat)
    requires WritePayload(tag).Ok? && Homogeneous(tag) && k < |WritePayload(tag).value|
    ensures ReadPayload(TagId(tag), WritePayload(tag).value[..k]) == Err(NbtError.UnexpectedEof)
    decreases tag, 0
  {
    hide Power256, BigEndian, WriteLen, ReadLen, ReadNumber, ReadString, WriteString, WriteNumbers, ReadNumbers,
         ReadArray, ReadList, ReadCompound, ReadScalar, WriteItems, WriteCompound, HomogeneousItems, HomogeneousEntries;
    match tag
    case ByteArray(s) => LenCut(|s|, s, k);
    case Str(s) => StringCut(s, k);
    case List(items) => ListCut(items, k);
    case Compound(entries) => CompoundCut(entries, k);
    case IntArray(s) =>
      FitsFour(s);
      ArrayCut(s, 4, k);
    case LongArray(s) =>
      FitsEight(s);
      ArrayCut(s, 8, k);
    case _ => ScalarCut(tag, k);
  }

  lemma FitsFour(s: seq<U32>)
    ensures Fit(s, 4)
  {
    Powers();
  }

  lemma FitsEight(s: seq<U64>)
    ensures Fit(s, 8)
  {
    Powers();
  }

  lemma {:induction false} ListCut(items: seq<NbtTag>, k: nat)
    requires WritePayload(List(items)).Ok? && Homogeneous(List(items)) && k < |WritePayload(List(items)).value|
    ensures ReadList(WritePayload(List(items)).value[..k]) == Err(NbtError.UnexpectedEof)
    decreases items, 1
  {
    hide VarInt, WritePayload, Homogeneous, WriteLen, ReadLen, WriteItems, ReadItems, HomogeneousItems;
    ListShape(items);
    var id := if items == [] then TAG_END else TagId(items[0]);
    var len, body := WriteLen(|items|).value, WriteItems(items).value;
    var data := WritePayload(List(items)).value[..k];
    if k > 0 {
      BehindFirst(id, len + body, k);
      assert [id] + len + body == [id] + (len + body);
      LenCut(|items|, body, k - 1);
      if k - 1 >= |len| && items != [] {
        ItemsCut(items, id, k - 1 - |len|);
      }
    }
  }

  lemma BehindFirst(id: Byte, rest: seq<Byte>, k: nat)
    requires 0 < k <= |rest| + 1
    ensures ([id] + rest)[..k][0] == id && ([id] + rest)[..k][1..] == rest[..k - 1]
  {
  }

  lemma {:induction false} ItemsCut(items: seq<NbtTag>, id: Byte, k: nat)
    requires WriteItems(items).Ok? && HomogeneousItems(items, id) && k < |WriteItems(items).value|
    ensures ReadItems(id, |items|, WriteItems(items).value[..k]) == Err(NbtError.UnexpectedEof)
    decreases items, 0
  {
    hide WritePayload, ReadPayload, Homogeneous;
    var first, rest := WritePayload(items[0]).value, WriteItems(items[1..]).value;
    var data := WriteItems(items).value[..k];
    if k < |first| {
      assert data == first[..k];
      PayloadCut(items[0], k);
    } else {
      assert data == first + rest[..k - |first|];
      PayloadRoundTrip(items[0], rest[..k - |first|]);
      ItemsCut(items[1..], id, k - |first|);
    }
  }

  lemma {:induction false} CompoundCut(entries: seq<Entry>, k: nat)
    requires WriteCompound(entries).Ok? && HomogeneousEntries(entries) && k < |WriteCompound(entries).value|
    ensures ReadCompound(WriteCompound(entries).value[..k]) == Err(NbtError.UnexpectedEof)
    decreases entries, 0
  {
    hide WritePayload, ReadPayload, Homogeneous, WriteString, ReadString;
    if k > 0 && entries != [] {
      var e := entries[0];
      var name, value := WriteString(e.name).value, WritePayload(e.value).value;
      var rest := WriteCompound(entries[1..]).value;
      var data := WriteCompound(entries).value[..k];
      BehindFirst(TagId(e.value), name + (value + rest), k);
      assert WriteCompound(entries).value == [TagId(e.value)] + (name + (value + rest));
      EntryCut(e, rest, k - 1);
      var m := k - 1 - |name| - |value|;
      if m >= 0 {
        CompoundCut(entries[1..], m);
      }
    }
  }

  /** The name and the value of an entry with some of the bytes behind them. */
  lemma {:induction false} EntryCut(e: Entry, rest: seq<Byte>, k: nat)
    requires WriteString(e.name).Ok? && WritePayload(e.value).Ok? && Homogeneous(e.value)
    requires k <= |WriteString(e.name).value + (WritePayload(e.value).value + rest)|
    ensures var name, value := WriteString(e.name).value, WritePayload(e.value).value;
            var data := (name + (value + rest))[..k];
            if k < |name| then ReadString(data) == Err(NbtError.UnexpectedEof)
            else
              && ReadString(data).Ok? && ReadString(data).value.0 == e.name
              && ReadPayload(TagId(e.value), ReadString(data).value.1) ==
                 if k < |name| + |value| then Err(NbtError.UnexpectedEof)
                 else Ok((e.value, rest[..k - |name| - |value|]))
    decreases e.value, 1
  {
    hide WritePayload, ReadPayload, Homogeneous, WriteString, ReadString;
    var name, value := WriteString(e.name).value, WritePayload(e.value).value;
    var data := (name + (value + rest))[..k];
    if k < |name| {
      assert data == name[..k];
      StringCut(e.name, k);
    } else {
      var after := (value + rest)[..k - |name|];
      assert data == name + after;
      StringRoundTrip(e.name, after);
      if k < |name| + |value| {
        assert after == value[..k - |name|];
        PayloadCut(e.value, k - |name|);
      } else {
        assert after == value + rest[..k - |name| - |value|];
        PayloadRoundTrip(e.value, rest[..k - |name| - |value|]);
      }
    }
  }

  /** Every proper beginning of an encoded compound whose lists mix no types is refused as ending too early,
    * wherever it ends. */
  lemma TruncatedIsRefused(tag: NbtTag, k: nat)
    requires EncodeAnonymous(tag).Ok? && Homogeneous(tag) && k < |EncodeAnonymous(tag).value|
    ensures DecodeAnonymous(EncodeAnonymous(tag).value[..k]) == Err(NbtError.UnexpectedEof)
  {
    hide WriteCompound, ReadCompound, HomogeneousEntries;
    CompoundCut(tag.entries, k);
  }
}
