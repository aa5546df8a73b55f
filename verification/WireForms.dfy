/** The bytes that the codecs put on the wire, field by field; round trips alone would allow any consistent
  * renumbering. */
module WireForms {
  import opened Arithmetic
  import opened Wrappers
  import opened Bytes
  import opened Nbt
  import T = TextComponents
  import I = Items
  import C = ItemCodec
  import A = Anvil
  import L = AnvilLoaders

  // ---- numbers ----

  /** Byte i of k is the digit of 256^(k - 1 - i): the highest comes first. */
  lemma {:induction false} BigEndianAt(v: nat, k: nat, i: nat)
    requires i < k
    ensures Power256(k - 1 - i) > 0 && BigEndian(v, k)[i] == v / Power256(k - 1 - i) % 256
    decreases k
  {
    PowerPositive(k - 1 - i);
    if i < k - 1 {
      BigEndianAt(v / 256, k - 1, i);
      DivideTwice(v, 256, Power256(k - 2 - i));
    }
  }

  lemma {:induction false} PowerPositive(k: nat)
    ensures Power256(k) > 0
  {
    if k > 0 {
      PowerPositive(k - 1);
    }
  }

  lemma DivideTwice(v: nat, a: nat, b: nat)
    requires a > 0 && b > 0
    ensures a * b > 0 && v / a / b == v / (a * b)
  {
    var q, r := v / a, v % a;
    var p, s := q / b, q % b;
    Regroup(v, a, b, q, r, p, s);
    Remainder(a, b, s, r);
    EuclidUnique(v, a * b, p, s * a + r);
  }

  lemma Regroup(v: nat, a: nat, b: nat, q: nat, r: nat, p: nat, s: nat)
    requires v == q * a + r && q == p * b + s
    ensures v == p * (a * b) + (s * a + r)
  {
    assert q * a == (p * b) * a + s * a;
    assert (p * b) * a == p * (a * b);
  }

  lemma Remainder(a: nat, b: nat, s: nat, r: nat)
    requires s < b && r < a
    ensures s * a + r < a * b
  {
    TimesMonotone(s + 1, b, a);
    assert (s + 1) * a == s * a + a;
  }

  lemma {:induction false} ShiftPositive(i: nat)
    ensures Shift7(i) > 0
  {
    if i > 0 {
      ShiftPositive(i - 1);
    }
  }

  /** Byte i of a variable-length integer is its digit of 128^i, and its top bit says whether another
    * follows; there are no more bytes than the number needs. */
  lemma {:induction false} VarIntAt(v: nat, i: nat)
    requires i < |VarIntBytes(v)|
    ensures Shift7(i) > 0
    ensures VarIntBytes(v)[i] == v / Shift7(i) % 128 + (if i < |VarIntBytes(v)| - 1 then 128 else 0)
    ensures i > 0 ==> v >= Shift7(i)
    ensures i == |VarIntBytes(v)| - 1 ==> v / Shift7(i) < 128
    decreases i
  {
    ShiftPositive(i);
    if i > 0 {
      VarIntAt(v / 128, i - 1);
      DivideTwice(v, 128, Shift7(i - 1));
      AtLeast(v, Shift7(i - 1));
    } else {
      assert v / Shift7(0) == v;
    }
  }

  lemma AtLeast(v: nat, p: nat)
    requires v / 128 >= p
    ensures v >= 128 * p
  {
  }

  /** One to four bytes by the size of the scalar value; all but the first are continuation bytes. */
  lemma CharLength(c: char)
    ensures var n, s := c as int, EncodeChar(c);
            && (|s| == 1 <==> n < 0x80) && (|s| == 2 <==> 0x80 <= n < 0x800)
            && (|s| == 3 <==> 0x800 <= n < 0x1_0000) && (|s| == 4 <==> 0x1_0000 <= n)
            && forall i | 0 < i < |s| :: 0x80 <= s[i] < 0xC0
  {
  }

  /** The bits of the scalar value, six by six behind the marker of the lead byte. */
  lemma CharBits(c: char)
    ensures var n, s := c as int, EncodeChar(c);
            && (|s| == 1 ==> n == s[0] as int)
            && (|s| == 2 ==> n == (s[0] as int - 0xC0) * 64 + (s[1] as int - 0x80))
            && (|s| == 3 ==> n == (s[0] as int - 0xE0) * 4096 + (s[1] as int - 0x80) * 64 + (s[2] as int - 0x80))
            && (|s| == 4 ==> n == (s[0] as int - 0xF0) * 0x4_0000 + (s[1] as int - 0x80) * 4096
                                  + (s[2] as int - 0x80) * 64 + (s[3] as int - 0x80))
  {
    var n := c as int;
    assert n / 4096 == n / 64 / 64 && n / 0x4_0000 == n / 64 / 64 / 64;
  }

  // ---- tags ----

  /** The id byte of each kind of tag. */
  lemma TagIds(tag: NbtTag)
    ensures match tag
            case Int8(_) => TagId(tag) == 1
            case Short(_) => TagId(tag) == 2
            case Int(_) => TagId(tag) == 3
            case Long(_) => TagId(tag) == 4
            case Float(_) => TagId(tag) == 5
            case Double(_) => TagId(tag) == 6
            case ByteArray(_) => TagId(tag) == 7
            case Str(_) => TagId(tag) == 8
            case List(_) => TagId(tag) == 9
            case Compound(_) => TagId(tag) == 10
            case IntArray(_) => TagId(tag) == 11
            case LongArray(_) => TagId(tag) == 12
  {
  }

  /** The width of each number. */
  lemma ScalarPayload(tag: NbtTag)
    ensures match tag
            case Int8(v) => WritePayload(tag) == Written.Ok(BigEndian(v, 1))
            case Short(v) => WritePayload(tag) == Written.Ok(BigEndian(v, 2))
            case Int(v) => WritePayload(tag) == Written.Ok(BigEndian(v, 4))
            case Long(v) => WritePayload(tag) == Written.Ok(BigEndian(v, 8))
            case Float(v) => WritePayload(tag) == Written.Ok(BigEndian(v, 4))
            case Double(v) => WritePayload(tag) == Written.Ok(BigEndian(v, 8))
            case _ => true
  {
    hide BigEndian;
  }

  /** The length in front of bytes and text. */
  lemma LengthFirst(s: seq<Byte>, text: string)
    ensures |s| < 128 ==> WritePayload(ByteArray(s)) == Written.Ok([|s|] + s)
    ensures |Utf8Bytes(text)| < 128 ==> WritePayload(Str(text)) == Written.Ok([|Utf8Bytes(text)|] + Utf8Bytes(text))
  {
    hide Utf8Bytes;
  }

  /** Arrays and lists: the length, behind the id of the elements in a list, and then the elements. */
  lemma ArrayPayload(v16: U16, v32: U32, v64: U64)
    ensures WritePayload(IntArray([v32])) == Written.Ok([1] + BigEndian(v32, 4))
    ensures WritePayload(LongArray([v64])) == Written.Ok([1] + BigEndian(v64, 8))
    ensures WritePayload(List([Short(v16)])) == Written.Ok([2, 1] + BigEndian(v16, 2))
    ensures WritePayload(List([])) == Written.Ok([0, 0]) && WritePayload(Compound([])) == Written.Ok([0])
  {
    hide BigEndian;
    OneNumber(v32, 4);
    OneNumber(v64, 8);
    OneItem(Short(v16));
    ScalarPayload(Short(v16));
    assert [2] + [1] + (BigEndian(v16, 2) + []) == [2, 1] + BigEndian(v16, 2);
    assert [0] + [0] + [] == [0, 0];
    assert WriteItems([]) == Written.Ok([]) && WriteCompound([]) == Written.Ok([0]);
    assert WriteLen(0) == Written.Ok([0]) && WriteLen(1) == Written.Ok([1]);
  }

  lemma OneNumber(v: nat, k: nat)
    ensures WriteNumbers([v], k) == BigEndian(v, k)
  {
    assert [v][1..] == [];
    assert BigEndian(v, k) + [] == BigEndian(v, k);
  }

  lemma OneItem(item: NbtTag)
    ensures WriteItems([item]) == Then(WritePayload(item), Ok([]))
  {
    assert [item][1..] == [];
  }

  /** A list is the id of its elements, their number and their payloads in order; an entry of a compound is
    * the id of its value, its name and its payload. */
  lemma Sequences(items: seq<NbtTag>, item: NbtTag, name: string, rest: seq<Entry>)
    ensures WriteItems([item] + items) == Then(WritePayload(item), WriteItems(items)) && WriteItems([]) == Ok([])
    ensures var r := WriteCompound([Entry(name, item)] + rest);
            r.Ok? ==>
              && WritePayload(item).Ok? && WriteCompound(rest).Ok?
              && r.value == [TagId(item)] + (VarInt(|Utf8Bytes(name)| % 0x1_0000_0000) + Utf8Bytes(name))
                            + WritePayload(item).value + WriteCompound(rest).value
  {
    hide VarInt, Utf8Bytes, WritePayload;
    assert ([item] + items)[1..] == items;
    assert ([Entry(name, item)] + rest)[1..] == rest;
  }

  /** How malformed tags are refused. */
  lemma MalformedTags(id: Byte, data: seq<Byte>)
    ensures DecodeAnonymous([]) == Err(NbtError.UnexpectedEof)
    ensures id > 12 ==> DecodeAnonymous([id] + data) == Err(UnknownTagId(id))
    ensures id == 0 || id > 12 ==> ReadPayload(id, data) == Err(UnknownTagId(id))
    ensures |data| < 4 ==> ReadPayload(3, data) == Err(NbtError.UnexpectedEof)
    ensures |data| < 8 ==> ReadPayload(4, data) == Err(NbtError.UnexpectedEof)
  {
    hide VarInt, ReadString, ReadList, ReadBytes, ReadInts, ReadLongs, Power256;
  }

  /** A list of nothing but the end tag, of unknown tags, or cut short is refused. */
  lemma MalformedLists(id: Byte, data: seq<Byte>)
    ensures data != [] ==> ReadPayload(9, [0, 1] + data) == Err(InvalidListType)
    ensures data != [] && id > 12 ==> ReadPayload(9, [id, 1] + data) == Err(UnknownTagId(id))
    ensures ReadPayload(9, [id, 1]) == Err(NbtError.UnexpectedEof)
  {
    hide VarInt, ReadItems, ReadString, ReadLen, ReadBytes, ReadInts, ReadLongs, ReadScalar, ReadCompound;
    OneElement(data);
    assert ([0, 1] + data)[1..] == [1] + data == ([id, 1] + data)[1..];
    assert [id, 1][1..] == [1];
  }

  lemma OneElement(data: seq<Byte>)
    ensures data != [] ==> ReadLen([1] + data) == Ok((1, data))
    ensures ReadLen([1]) == Err(NbtError.UnexpectedEof)
  {
    if data != [] {
      LenRoundTrip(1, data);
      assert WriteLen(1) == Written.Ok([1]);
    }
    VarIntRoundTrip(1, []);
    assert VarInt(1) + [] == [1];
  }

  // ---- region files ----

  /** The table entry of chunk (x, z) stands at 4 * (32 * z + x): the number of its first sector, highest
    * byte first, and the number of its sectors.  The sectors are of 4096 bytes, the first two hold the
    * table and zeros, and the chunks follow in the order of the table. */
  lemma RegionBytes(chunks: A.Chunks, x: nat, z: nat)
    requires x < 32 && z < 32
    ensures var file, slot := A.Flush(chunks), 32 * z + x;
            var blob := if (x, z) in chunks then chunks[(x, z)] else [];
            var sector, count := A.Cursor(chunks, slot), (|blob| + 4095) / 4096;
            && 4 * slot + 4 <= |file|
            && file[4 * slot..4 * slot + 4] ==
               (if blob == [] then [0, 0, 0, 0]
                else [sector / 0x1_0000 % 256, sector / 0x100 % 256, sector % 256, count % 256])
            && A.Cursor(chunks, slot + 1) == sector + count && A.Cursor(chunks, 0) == 2
  {
    hide A.Flush, A.Body, A.Locations, A.Padded;
    var slot := 32 * z + x;
    A.KeysAreSlots(slot);
    A.SlotsAreKeys((x, z));
    A.FileParts(chunks, slot);
  }

  /** The blob of the chunk begins with its first sector. */
  lemma RegionBlobs(chunks: A.Chunks, x: nat, z: nat)
    requires x < 32 && z < 32 && (x, z) in chunks
    ensures var file, start := A.Flush(chunks), 4096 * A.Cursor(chunks, 32 * z + x);
            start + |chunks[(x, z)]| <= |file| && file[start..start + |chunks[(x, z)]|] == chunks[(x, z)]
  {
    hide A.Flush, A.Body, A.Locations, A.Padded, A.Cursor, A.LocationAt;
    var slot := 32 * z + x;
    A.SlotsAreKeys((x, z));
    A.KeysAreSlots(slot);
    A.FileParts(chunks, slot);
    var file, blob := A.Flush(chunks), A.BlobAt(chunks, slot);
    var start := 4096 * A.Cursor(chunks, slot);
    PaddedStarts(blob);
    assert file[start..start + |blob|] == A.Padded(blob)[..|blob|] == blob;
  }

  lemma PaddedStarts(blob: seq<Byte>)
    ensures A.Padded(blob)[..|blob|] == blob
  {
  }

  /** The four bytes of length, the compression byte and the compressed payload. */
  lemma BlobBytes(codec: L.Codec, payload: seq<Byte>)
    ensures var data := codec.compress(payload);
            L.MakeBlob(codec, payload) ==
            if data.Some? && |data.value| < 0x1_0000_0000
            then Some(BigEndian(|data.value|, 4) + [1] + data.value) else None
  {
  }

  // ---- text components ----

  /** Under which key each field of a text stands. */
  lemma TextKeys(text: string, style: T.Style, key: string)
    ensures T.ToNbt(T.Text(text, style)).Compound?
    ensures T.Find(T.ToNbt(T.Text(text, style)).entries, key) ==
            if key == "text" then Some(Str(text))
            else if key == "color" && style.color.Some? then Some(Int(style.color.value))
            else if key == "bold" && style.bold then Some(Int8(1))
            else if key == "italic" && style.italic then Some(Int8(1))
            else if key == "underlined" && style.underlined then Some(Int8(1))
            else if key == "strikethrough" && style.strikethrough then Some(Int8(1))
            else if key == "obfuscated" && style.obfuscated then Some(Int8(1))
            else if key == "insertion" && style.insertion.Some? then Some(Str(style.insertion.value))
            else if key == "click_event" && style.click.Some? then
              Some(Compound([Entry("action", Int(ClickNumber(style.click.value.action))),
                             Entry("value", Str(style.click.value.value))]))
            else if key == "hover_event" && style.hover.Some? then
              Some(Compound([Entry("action", Int(HoverNumber(style.hover.value.action))),
                             Entry("value", Str(style.hover.value.value))]))
            else None
  {
    hide T.Find, T.StyleEntries, T.LastEntries;
    T.FindInText(text, style, key);
    T.FindInStyle(style, key);
    T.FindInLast(style, key);
  }

  function ClickNumber(a: T.ClickAction): U32 {
    if a == T.RunCommand then 0 else if a == T.OpenUrl then 1 else if a == T.SuggestCommand then 2 else 3
  }

  function HoverNumber(a: T.HoverAction): U32 {
    if a == T.ShowText then 0 else if a == T.ShowEntity then 1 else 2
  }

  // ---- item stacks ----

  /** A stack of one item of material 264 without components. */
  lemma PlainStackBytes()
    ensures C.Encode(I.ItemStack(264, 1, [])) == Ok([0x01, 0x88, 0x02, 0x00, 0x00])
  {
    hide VarInt, VarIntBytes;
    SmallVarInts();
    assert VarInt(264) == [0x88, 0x02] by {
      TwoBytes();
    }
    assert C.Sets([]) == [] && C.Removes([]) == [] && C.PutSets([]) == Ok([]) && C.PutRemoves([]) == Ok([]);
    assert [1] + [0x88, 0x02] + ([0] + [0]) + [] + [] == [0x01, 0x88, 0x02, 0x00, 0x00];
  }

  lemma TwoBytes()
    ensures VarInt(264) == [0x88, 0x02]
  {
    assert VarIntBytes(264) == [0x88] + VarIntBytes(2) && VarIntBytes(2) == [2];
  }

  lemma SmallVarInts()
    ensures forall n: U32 | n < 128 :: VarInt(n) == [n]
  {
  }

  /** Count, material, the numbers of set and removed components, the set ones with their values, the
    * removed ones. */
  lemma StackBytes(material: U32, amount: Byte)
    requires material < 128 && 0 < amount < 128
    ensures C.Encode(I.ItemStack(material, amount, [I.Remove(4), I.Set(1, I.MaxStackSize(16))]))
         == Ok([amount, material, 1, 1, 1, 16, 4])
  {
    hide VarInt;
    SmallVarInts();
    var q := [I.Remove(4), I.Set(1, I.MaxStackSize(16))];
    SetAndRemove();
    assert [amount] + [material] + ([1] + [1]) + [1, 16] + [4] == [amount, material, 1, 1, 1, 16, 4];
  }

  lemma SetAndRemove()
    ensures var q := [I.Remove(4), I.Set(1, I.MaxStackSize(16))];
            && |C.Sets(q)| == 1 && |C.Removes(q)| == 1
            && C.PutSets(q) == Ok([1, 16]) && C.PutRemoves(q) == Ok([4])
  {
    hide VarInt;
    SmallVarInts();
    var p := [I.Set(1, I.MaxStackSize(16))];
    var q := [I.Remove(4), I.Set(1, I.MaxStackSize(16))];
    assert p[1..] == [] && q[1..] == p;
    assert C.Sets([]) == [] && C.Removes([]) == [] && C.PutSets([]) == Ok([]) && C.PutRemoves([]) == Ok([]);
    assert |C.Sets(p)| == 1 && |C.Removes(p)| == 0 && C.PutRemoves(p) == Ok([]);
    assert [1] + [16] + [] == [1, 16] && C.PutSets(p) == Ok([1, 16]);
    assert [4] + [] == [4];
  }

  /** The component ids, and the bytes of the values that are numbers or flags. */
  lemma NumberValues(n: U32)
    requires n < 128
    ensures C.PutValue(1, I.MaxStackSize(n)) == Ok([n]) && C.PutValue(2, I.MaxDamage(n)) == Ok([n])
    ensures C.PutValue(3, I.Damage(n)) == Ok([n]) && C.PutValue(4, I.Unbreakable) == Ok([])
    ensures C.PutValue(12, I.Rarity(I.Common)) == Ok([0]) && C.PutValue(12, I.Rarity(I.Uncommon)) == Ok([1])
    ensures C.PutValue(12, I.Rarity(I.Rare)) == Ok([2]) && C.PutValue(12, I.Rarity(I.Epic)) == Ok([3])
    ensures C.PutValue(21, I.BoolValue(false)) == Ok([0]) && C.PutValue(21, I.BoolValue(true)) == Ok([1])
  {
    hide VarInt;
    SmallVarInts();
  }

  lemma WideValues(b: Byte, v16: U16, v32: U32, v64: U64)
    ensures C.PutValue(7, I.MinimumAttackCharge(v32)) == Ok(BigEndian(v32, 4))
    ensures C.PutValue(22, I.ByteValue(b)) == Ok([b]) && C.PutValue(45, I.ShortValue(v16)) == Ok(BigEndian(v16, 2))
    ensures C.PutValue(50, I.FloatValue(v32)) == Ok(BigEndian(v32, 4))
    ensures C.PutValue(76, I.LongValue(v64)) == Ok(BigEndian(v64, 8))
    ensures C.PutValue(77, I.DoubleValue(v64)) == Ok(BigEndian(v64, 8))
  {
    hide BigEndian;
  }

  /** Text is its length and its bytes; a tag or a text component is a compound behind its id. */
  lemma OpenValues(id: U32, s: string)
    ensures |Utf8Bytes(s)| < 128 ==> C.PutValue(10, I.StringValue(s)) == Ok([|Utf8Bytes(s)|] + Utf8Bytes(s))
    ensures id in {0, 13, 52, 53} ==> C.PutValue(id, I.NbtValue(Compound([]))) == Ok([10, 0])
    ensures C.PutValue(6, I.TextValue(T.Empty)) == Ok([10, 0]) && C.PutValue(11, I.TextListValue([])) == Ok([0])
  {
    hide VarInt, Utf8Bytes;
    SmallVarInts();
    assert WriteCompound([]) == Written.Ok([0]) && [10] + [0] == [10, 0];
    assert C.PutTexts([]) == Ok([]) && C.PutInt(0) == Ok([0]) && [0] + [] == [0];
  }
}
