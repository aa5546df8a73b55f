/** The binary tag format of nbt.rs. */
module Nbt {
  import opened Wrappers
  import opened Bytes

  datatype Entry = Entry(name: string, value: NbtTag)

  /** Numbers are bit patterns. */
  datatype NbtTag =
    | Int8(v8: Byte)
    | Short(v16: U16)
    | Int(v32: U32)
    | Long(v64: U64)
    | Float(f32: U32)
    | Double(f64: U64)
    | ByteArray(bytes: seq<Byte>)
    | Str(text: string)
    | List(items: seq<NbtTag>)
    | Compound(entries: seq<Entry>)
    | IntArray(ints: seq<U32>)
    | LongArray(longs: seq<U64>)

  datatype NbtError = UnexpectedEof | UnknownTagId(id: Byte) | InvalidListType

  const TAG_END: Byte := 0
  const MAX_TAG_ID: Byte := 12

  function TagId(tag: NbtTag): (id: Byte)
    ensures 1 <= id <= MAX_TAG_ID
  {
    match tag
    case Int8(_) => 1
    case Short(_) => 2
    case Int(_) => 3
    case Long(_) => 4
    case Float(_) => 5
    case Double(_) => 6
    case ByteArray(_) => 7
    case Str(_) => 8
    case List(_) => 9
    case Compound(_) => 10
    case IntArray(_) => 11
    case LongArray(_) => 12
  }

  type Written = Result<seq<Byte>, NbtError>

  type Parsed<T> = Result<(T, seq<Byte>), NbtError>

  // ---- writing ----

  /** Lengths beyond 31 bits cannot be written. */
  function WriteLen(n: nat): Written {
    if n < 0x8000_0000 then Ok(VarInt(n)) else Err(NbtError.UnexpectedEof)
  }

  function WriteString(s: string): Written {
    Then(WriteLen(|Utf8Bytes(s)|), Ok(Utf8Bytes(s)))
  }

  function WriteNumbers(s: seq<nat>, k: nat): seq<Byte> {
    if s == [] then [] else BigEndian(s[0], k) + WriteNumbers(s[1..], k)
  }

  function WritePayload(tag: NbtTag): Written
    decreases tag
  {
    match tag
    case Int8(v) => Ok(BigEndian(v, 1))
    case Short(v) => Ok(BigEndian(v, 2))
    case Int(v) => Ok(BigEndian(v, 4))
    case Long(v) => Ok(BigEndian(v, 8))
    case Float(v) => Ok(BigEndian(v, 4))
    case Double(v) => Ok(BigEndian(v, 8))
    case ByteArray(s) => Then(WriteLen(|s|), Ok(s))
    case Str(s) => WriteString(s)
    case List(items) =>
      // an empty list has element type TAG_END, any other that of its first element
      Then(Then(Ok([if items == [] then TAG_END else TagId(items[0])]), WriteLen(|items|)), WriteItems(items))
    case Compound(entries) => WriteCompound(entries)
    case IntArray(s) => Then(WriteLen(|s|), Ok(WriteNumbers(s, 4)))
    case LongArray(s) => Then(WriteLen(|s|), Ok(WriteNumbers(s, 8)))
  }

  function WriteItems(items: seq<NbtTag>): Written
    decreases items
  {
    if items == [] then Ok([]) else Then(WritePayload(items[0]), WriteItems(items[1..]))
  }

  function WriteCompound(entries: seq<Entry>): Written
    decreases entries
  {
    if entries == [] then Ok([TAG_END])
    else
      Then(Then(Then(Ok([TagId(entries[0].value)]), WriteString(entries[0].name)), WritePayload(entries[0].value)),
           WriteCompound(entries[1..]))
  }

  /** `encode_anonymous`. */
  function EncodeAnonymous(tag: NbtTag): Written {
    if tag.Compound? then WriteCompound(tag.entries) else Err(InvalidListType)
  }

  // ---- reading ----

  function ReadLen(data: seq<Byte>): (r: Parsed<nat>)
    ensures r.Ok? ==> r.value.0 <= |r.value.1| < |data|
  {
    ReadVarIntConsumes(data, 0, 0);
    match ReadVarInt(data)
    case Err(_) => Err(NbtError.UnexpectedEof)
    case Ok((n, rest)) => if n >= 0x8000_0000 || n > |rest| then Err(NbtError.UnexpectedEof) else Ok((n, rest))
  }

  function ReadString(data: seq<Byte>): (r: Parsed<string>)
    ensures r.Ok? ==> |r.value.1| < |data|
  {
    match ReadLen(data)
    case Err(e) => Err(e)
    case Ok((n, rest)) =>
      match FromUtf8(rest[..n])
      case Err(_) => Err(NbtError.UnexpectedEof)
      case Ok(s) => Ok((s, rest[n..]))
  }

  function ReadNumber(data: seq<Byte>, k: nat): (r: Parsed<nat>)
    ensures r.Ok? ==> |r.value.1| == |data| - k && r.value.0 < Power256(k)
  {
    match TakeNumber(data, k)
    case Err(_) => Err(NbtError.UnexpectedEof)
    case Ok((v, rest)) => FromBigEndianBound(data[..k]); Ok((v, rest))
  }

  ghost predicate Fit(s: seq<nat>, k: nat) {
    forall i | 0 <= i < |s| :: s[i] < Power256(k)
  }

  function ReadNumbers(n: nat, k: nat, data: seq<Byte>): (r: Parsed<seq<nat>>)
    ensures r.Ok? ==> |r.value.1| <= |data| && Fit(r.value.0, k)
  {
    hide Power256;
    if n == 0 then Ok(([], data))
    else
      match ReadNumber(data, k)
      case Err(e) => Err(e)
      case Ok((v, rest)) =>
        match ReadNumbers(n - 1, k, rest)
        case Err(e) => Err(e)
        case Ok((vs, rest')) => Ok(([v] + vs, rest'))
  }

  function ReadArray(k: nat, data: seq<Byte>): (r: Parsed<seq<nat>>)
    ensures r.Ok? ==> |r.value.1| < |data| && Fit(r.value.0, k)
  {
    match ReadLen(data)
    case Err(e) => Err(e)
    case Ok((n, rest)) => ReadNumbers(n, k, rest)
  }

  function ReadInts(data: seq<Byte>): (r: Parsed<NbtTag>)
    ensures r.Ok? ==> |r.value.1| < |data| && r.value.0.IntArray?
  {
    Powers();
    hide ReadArray;
    match ReadArray(4, data)
    case Ok((vs, rest)) => assert forall i | 0 <= i < |vs| :: vs[i] < Power256(4); Ok((IntArray(vs), rest))
    case Err(e) => Err(e)
  }

  function ReadLongs(data: seq<Byte>): (r: Parsed<NbtTag>)
    ensures r.Ok? ==> |r.value.1| < |data| && r.value.0.LongArray?
  {
    Powers();
    hide ReadArray;
    match ReadArray(8, data)
    case Ok((vs, rest)) => assert forall i | 0 <= i < |vs| :: vs[i] < Power256(8); Ok((LongArray(vs), rest))
    case Err(e) => Err(e)
  }

  /** The tags of one number. */
  function ReadScalar(id: Byte, data: seq<Byte>): (r: Parsed<NbtTag>)
    requires 1 <= id <= 6
    ensures r.Ok? ==> |r.value.1| < |data| && TagId(r.value.0) == id
  {
    hide Power256, ReadNumber;
    Powers();
    match id
    case 1 => (match ReadNumber(data, 1) case Ok((v, rest)) => Ok((Int8(v), rest)) case Err(e) => Err(e))
    case 2 => (match ReadNumber(data, 2) case Ok((v, rest)) => Ok((Short(v), rest)) case Err(e) => Err(e))
    case 3 => (match ReadNumber(data, 4) case Ok((v, rest)) => Ok((Int(v), rest)) case Err(e) => Err(e))
    case 4 => (match ReadNumber(data, 8) case Ok((v, rest)) => Ok((Long(v), rest)) case Err(e) => Err(e))
    case 5 => (match ReadNumber(data, 4) case Ok((v, rest)) => Ok((Float(v), rest)) case Err(e) => Err(e))
    case _ => (match ReadNumber(data, 8) case Ok((v, rest)) => Ok((Double(v), rest)) case Err(e) => Err(e))
  }

  function ReadBytes(data: seq<Byte>): (r: Parsed<NbtTag>)
    ensures r.Ok? ==> |r.value.1| < |data| && r.value.0.ByteArray?
  {
    match ReadLen(data)
    case Err(e) => Err(e)
    case Ok((n, rest)) => Ok((ByteArray(rest[..n]), rest[n..]))
  }

  function ReadPayload(id: Byte, data: seq<Byte>): (r: Parsed<NbtTag>)
    ensures r.Ok? ==> |r.value.1| < |data| && TagId(r.value.0) == id
    decreases |data|, 1
  {
    hide ReadScalar, ReadBytes, ReadInts, ReadLongs, ReadString;
    if 1 <= id <= 6 then ReadScalar(id, data)
    else
      match id
      case 7 => ReadBytes(data)
      case 8 => (match ReadString(data) case Ok((s, rest)) => Ok((Str(s), rest)) case Err(e) => Err(e))
      case 9 => ReadList(data)
      case 10 =>
        (match ReadCompound(data) case Ok((entries, rest)) => Ok((Compound(entries), rest)) case Err(e) => Err(e))
      case 11 => ReadInts(data)
      case 12 => ReadLongs(data)
      case _ => Err(UnknownTagId(id))
  }

  function ReadList(data: seq<Byte>): (r: Parsed<NbtTag>)
    ensures r.Ok? ==> |r.value.1| < |data| && r.value.0.List?
    decreases |data|, 0
  {
    if data == [] then Err(NbtError.UnexpectedEof)
    else
      var id := data[0];
      match ReadLen(data[1..])
      case Err(e) => Err(e)
      case Ok((n, rest)) =>
        if n == 0 then Ok((List([]), rest))
        else if id == TAG_END then Err(InvalidListType)
        else if id > MAX_TAG_ID then Err(UnknownTagId(id))
        else
          match ReadItems(id, n, rest)
          case Ok((items, rest')) => Ok((List(items), rest'))
          case Err(e) => Err(e)
  }

  function ReadItems(id: Byte, n: nat, data: seq<Byte>): (r: Parsed<seq<NbtTag>>)
    ensures r.Ok? ==> |r.value.1| <= |data| && |r.value.0| == n
    decreases |data|, 2
  {
    if n == 0 then Ok(([], data))
    else
      match ReadPayload(id, data)
      case Err(e) => Err(e)
      case Ok((item, rest)) =>
        match ReadItems(id, n - 1, rest)
        case Err(e) => Err(e)
        case Ok((items, rest')) => Ok(([item] + items, rest'))
  }

  function ReadCompound(data: seq<Byte>): (r: Parsed<seq<Entry>>)
    ensures r.Ok? ==> |r.value.1| < |data|
    decreases |data|, 0
  {
    if data == [] then Err(NbtError.UnexpectedEof)
    else if data[0] == TAG_END then Ok(([], data[1..]))
    else if data[0] > MAX_TAG_ID then Err(UnknownTagId(data[0]))
    else
      match ReadString(data[1..])
      case Err(e) => Err(e)
      case Ok((name, rest)) =>
        match ReadPayload(data[0], rest)
        case Err(e) => Err(e)
        case Ok((value, rest')) =>
          match ReadCompound(rest')
          case Err(e) => Err(e)
          case Ok((entries, rest'')) => Ok(([Entry(name, value)] + entries, rest''))
  }

  /** `decode_anonymous`: the tag and what follows it. */
  function DecodeAnonymous(data: seq<Byte>): Parsed<NbtTag> {
    match ReadCompound(data)
    case Ok((entries, rest)) => Ok((Compound(entries), rest))
    case Err(e) => Err(e)
  }

  // ---- round trip ----

  /** All elements of every list have one type; the format cannot say anything else. */
  predicate Homogeneous(tag: NbtTag)
    decreases tag
  {
    match tag
    case List(items) => items == [] || HomogeneousItems(items, TagId(items[0]))
    case Compound(entries) => HomogeneousEntries(entries)
    case _ => true
  }

  predicate HomogeneousItems(items: seq<NbtTag>, id: Byte)
    decreases items
  {
    items == [] || (TagId(items[0]) == id && Homogeneous(items[0]) && HomogeneousItems(items[1..], id))
  }

  predicate HomogeneousEntries(entries: seq<Entry>)
    decreases entries
  {
    entries == [] || (Homogeneous(entries[0].value) && HomogeneousEntries(entries[1..]))
  }

  lemma LenRoundTrip(n: nat, rest: seq<Byte>)
    requires WriteLen(n).Ok? && n <= |rest|
    ensures ReadLen(WriteLen(n).value + rest) == Ok((n, rest))
  {
    VarIntRoundTrip(n, rest);
  }

  lemma StringRoundTrip(s: string, rest: seq<Byte>)
    requires WriteString(s).Ok?
    ensures ReadString(WriteString(s).value + rest) == Ok((s, rest))
  {
    var b := Utf8Bytes(s);
    LenRoundTrip(|b|, b + rest);
    assert WriteString(s).value + rest == VarInt(|b|) + (b + rest);
    assert (b + rest)[..|b|] == b && (b + rest)[|b|..] == rest;
    Utf8RoundTrip(s);
  }

  lemma NumberRoundTrip(v: nat, k: nat, rest: seq<Byte>)
    requires v < Power256(k)
    ensures ReadNumber(BigEndian(v, k) + rest, k) == Ok((v, rest))
  {
    TakeNumberRoundTrip(v, k, rest);
  }

  lemma {:induction false} NumbersRoundTrip(s: seq<nat>, k: nat, rest: seq<Byte>)
    requires Fit(s, k)
    ensures ReadNumbers(|s|, k, WriteNumbers(s, k) + rest) == Ok((s, rest))
  {
    hide Power256, BigEndian, ReadNumber;
    if s != [] {
      NumbersRoundTrip(s[1..], k, rest);
      assert WriteNumbers(s, k) + rest == BigEndian(s[0], k) + (WriteNumbers(s[1..], k) + rest);
      NumberRoundTrip(s[0], k, WriteNumbers(s[1..], k) + rest);
      assert s == [s[0]] + s[1..];
    } else {
      assert WriteNumbers(s, k) + rest == rest;
    }
  }

  lemma {:induction false} NumbersLength(s: seq<nat>, k: nat)
    requires k >= 1
    ensures |WriteNumbers(s, k)| >= |s|
  {
    if s != [] {
      NumbersLength(s[1..], k);
    }
  }

  lemma ArrayRoundTrip(s: seq<nat>, k: nat, rest: seq<Byte>)
    requires k >= 1 && WriteLen(|s|).Ok? && Fit(s, k)
    ensures ReadArray(k, WriteLen(|s|).value + WriteNumbers(s, k) + rest) == Ok((s, rest))
  {
    hide WriteNumbers, ReadNumbers, WriteLen, ReadLen, Fit;
    NumbersRoundTrip(s, k, rest);
    NumbersLength(s, k);
    LenRoundTrip(|s|, WriteNumbers(s, k) + rest);
    assert WriteLen(|s|).value + WriteNumbers(s, k) + rest == WriteLen(|s|).value + (WriteNumbers(s, k) + rest);
  }

  lemma IntsRoundTrip(s: seq<U32>, rest: seq<Byte>)
    requires WriteLen(|s|).Ok?
    ensures ReadInts(WriteLen(|s|).value + WriteNumbers(s, 4) + rest) == Ok((IntArray(s), rest))
  {
    hide ReadArray, WriteLen, WriteNumbers;
    Powers();
    ArrayRoundTrip(s, 4, rest);
  }

  lemma LongsRoundTrip(s: seq<U64>, rest: seq<Byte>)
    requires WriteLen(|s|).Ok?
    ensures ReadLongs(WriteLen(|s|).value + WriteNumbers(s, 8) + rest) == Ok((LongArray(s), rest))
  {
    hide ReadArray, WriteLen, WriteNumbers;
    Powers();
    ArrayRoundTrip(s, 8, rest);
  }

  lemma {:induction false} PayloadRoundTrip(tag: NbtTag, rest: seq<Byte>)
    requires WritePayload(tag).Ok? && Homogeneous(tag)
    ensures |WritePayload(tag).value| >= 1
    ensures ReadPayload(TagId(tag), WritePayload(tag).value + rest) == Ok((tag, rest))
    decreases tag, 0
  {
    hide Power256, BigEndian, WriteLen, ReadLen, ReadNumber, ReadString, WriteString, ReadInts, ReadLongs, WriteNumbers,
         ReadList, ReadCompound;
    Powers();
    match tag
    case Int8(v) => NumberRoundTrip(v, 1, rest);
    case Short(v) => NumberRoundTrip(v, 2, rest);
    case Int(v) => NumberRoundTrip(v, 4, rest);
    case Long(v) => NumberRoundTrip(v, 8, rest);
    case Float(v) => NumberRoundTrip(v, 4, rest);
    case Double(v) => NumberRoundTrip(v, 8, rest);
    case ByteArray(s) =>
      LenRoundTrip(|s|, s + rest);
      assert WritePayload(tag).value + rest == WriteLen(|s|).value + (s + rest);
      assert (s + rest)[..|s|] == s && (s + rest)[|s|..] == rest;
    case Str(s) => StringRoundTrip(s, rest);
    case List(items) => ListRoundTrip(items, rest);
    case Compound(entries) => CompoundRoundTrip(entries, rest);
    case IntArray(s) => IntsRoundTrip(s, rest);
    case LongArray(s) => LongsRoundTrip(s, rest);
  }

  lemma {:induction false} ListRoundTrip(items: seq<NbtTag>, rest: seq<Byte>)
    requires WritePayload(List(items)).Ok? && Homogeneous(List(items))
    ensures ReadList(WritePayload(List(items)).value + rest) == Ok((List(items), rest))
    ensures |WritePayload(List(items)).value| >= 1
    decreases items, 1
  {
    hide VarInt, WritePayload, Homogeneous;
    var id := if items == [] then TAG_END else TagId(items[0]);
    ListShape(items);
    var len, body := WriteLen(|items|).value, WriteItems(items).value;
    var data := WritePayload(List(items)).value + rest;
    assert data == [id] + (len + (body + rest));
    assert data[1..] == len + (body + rest);
    if items != [] {
      ItemsRoundTrip(items, id, rest);
    } else {
      assert body + rest == rest;
    }
    LenRoundTrip(|items|, body + rest);
  }

  lemma ListShape(items: seq<NbtTag>)
    requires WritePayload(List(items)).Ok? && Homogeneous(List(items))
    ensures WriteLen(|items|).Ok? && WriteItems(items).Ok?
    ensures var id := if items == [] then TAG_END else TagId(items[0]);
            WritePayload(List(items)).value == [id] + WriteLen(|items|).value + WriteItems(items).value
    ensures items != [] ==> HomogeneousItems(items, TagId(items[0]))
    ensures items == [] ==> WriteItems(items).value == []
  {
  }

  lemma {:induction false} ItemsRoundTrip(items: seq<NbtTag>, id: Byte, rest: seq<Byte>)
    requires WriteItems(items).Ok? && HomogeneousItems(items, id)
    ensures |WriteItems(items).value| >= |items|
    ensures ReadItems(id, |items|, WriteItems(items).value + rest) == Ok((items, rest))
    decreases items, 0
  {
    hide WritePayload, ReadPayload, Homogeneous;
    if items == [] {
      assert WriteItems(items).value + rest == rest;
    } else {
      var tail := WriteItems(items[1..]).value + rest;
      PayloadRoundTrip(items[0], tail);
      ItemsRoundTrip(items[1..], id, rest);
      assert WriteItems(items).value + rest == WritePayload(items[0]).value + tail;
      assert items == [items[0]] + items[1..];
    }
  }

  lemma {:induction false} CompoundRoundTrip(entries: seq<Entry>, rest: seq<Byte>)
    requires WriteCompound(entries).Ok? && HomogeneousEntries(entries)
    ensures |WriteCompound(entries).value| >= 1
    ensures ReadCompound(WriteCompound(entries).value + rest) == Ok((entries, rest))
    decreases entries, 0
  {
    hide WritePayload, ReadPayload, Homogeneous, WriteString, ReadString;
    var data := WriteCompound(entries).value + rest;
    if entries == [] {
      assert data == [TAG_END] + rest && data[1..] == rest;
    } else {
      var e := entries[0];
      var tail := WriteCompound(entries[1..]).value + rest;
      CompoundRoundTrip(entries[1..], rest);
      PayloadRoundTrip(e.value, tail);
      StringRoundTrip(e.name, WritePayload(e.value).value + tail);
      assert data == [TagId(e.value)] + (WriteString(e.name).value + (WritePayload(e.value).value + tail));
      assert data[1..] == WriteString(e.name).value + (WritePayload(e.value).value + tail);
      assert entries == [Entry(e.name, e.value)] + entries[1..];
    }
  }

  // ---- what is read is homogeneous ----

  lemma {:induction false} ReadIsHomogeneous(id: Byte, data: seq<Byte>)
    requires ReadPayload(id, data).Ok?
    ensures Homogeneous(ReadPayload(id, data).value.0)
    decreases |data|, 1
  {
    hide ReadLen, ReadString, ReadNumber, ReadNumbers;
    if id == 9 {
      var n := ReadLen(data[1..]).value;
      if n.0 != 0 {
        ReadItemsAreHomogeneous(data[0], n.0, n.1);
      }
    } else if id == 10 {
      ReadCompoundIsHomogeneous(data);
    }
  }

  lemma {:induction false} ReadItemsAreHomogeneous(id: Byte, n: nat, data: seq<Byte>)
    requires ReadItems(id, n, data).Ok?
    ensures HomogeneousItems(ReadItems(id, n, data).value.0, id)
    decreases |data|, 2
  {
    hide ReadPayload, Homogeneous;
    if n > 0 {
      ReadIsHomogeneous(id, data);
      ReadItemsAreHomogeneous(id, n - 1, ReadPayload(id, data).value.1);
    }
  }

  lemma {:induction false} ReadCompoundIsHomogeneous(data: seq<Byte>)
    requires ReadCompound(data).Ok?
    ensures HomogeneousEntries(ReadCompound(data).value.0)
    decreases |data|, 0
  {
    hide ReadPayload, Homogeneous, ReadString;
    if data[0] != TAG_END {
      var rest := ReadString(data[1..]).value.1;
      ReadIsHomogeneous(data[0], rest);
      ReadCompoundIsHomogeneous(ReadPayload(data[0], rest).value.1);
    }
  }

  /** Decoding gives back an encoded compound, and leaves what follows alone, exactly when no list of it
    * mixes types. */
  lemma AnonymousRoundTripIff(tag: NbtTag, rest: seq<Byte>)
    requires EncodeAnonymous(tag).Ok?
    ensures DecodeAnonymous(EncodeAnonymous(tag).value + rest) == Ok((tag, rest)) <==> Homogeneous(tag)
  {
    var data := EncodeAnonymous(tag).value + rest;
    if Homogeneous(tag) {
      CompoundRoundTrip(tag.entries, rest);
    }
    if DecodeAnonymous(data).Ok? {
      ReadCompoundIsHomogeneous(data);
    }
  }

  /** A list of a byte and a short is encoded, and cannot be read back. */
  lemma MixedListIsLost()
    ensures var tag := Compound([Entry("", List([Int8(0), Short(0)]))]);
            EncodeAnonymous(tag).Ok? && DecodeAnonymous(EncodeAnonymous(tag).value) != Ok((tag, []))
  {
    hide VarInt, BigEndian;
    var items := [Int8(0), Short(0)];
    var entries := [Entry("", List(items))];
    assert items[1..] == [Short(0)] && [Short(0)][1..] == [] && entries[1..] == [];
    assert WriteItems([Short(0)]).Ok? && WriteItems(items).Ok?;
    assert WritePayload(List(items)).Ok?;
    assert WriteCompound(entries).Ok?;
    assert !HomogeneousItems([Short(0)], 1);
    assert !Homogeneous(List(items));
    assert EncodeAnonymous(Compound(entries)).value + [] == EncodeAnonymous(Compound(entries)).value;
    AnonymousRoundTripIff(Compound(entries), []);
  }
}
