/** The wire form of item stacks, from item_stack.rs. */
module ItemCodec {
  import opened Wrappers
  import opened Bytes
  import opened Items
  import Nbt
  import TextComponents

  datatype ProtocolError = UnexpectedEof | VarIntTooLong | BadUtf8 | InvalidValue | UnsupportedComponents

  type Written = Result<seq<Byte>, ProtocolError>

  type Parsed<T> = Result<(T, seq<Byte>), ProtocolError>

  const MAX_STRING: nat := 32767

  const MAX_ENTRIES: nat := 256

  function ErrorOf(e: ReadError): ProtocolError {
    match e
    case UnexpectedEof => ProtocolError.UnexpectedEof
    case VarIntTooLong => ProtocolError.VarIntTooLong
    case Utf8 => BadUtf8
  }

  /** A number that must fit a signed 32-bit field. */
  function PutInt(n: nat): Written {
    if n < 0x8000_0000 then Ok(VarInt(n)) else Err(InvalidValue)
  }

  function GetVarInt(data: seq<Byte>): (r: Parsed<U32>)
    ensures r.Ok? ==> |r.value.1| < |data|
  {
    ReadVarIntConsumes(data, 0, 0);
    match ReadVarInt(data)
    case Ok(p) => Ok(p)
    case Err(e) => Err(ErrorOf(e))
  }

  /** A field that must not be negative. */
  function GetInt(data: seq<Byte>): (r: Parsed<U32>)
    ensures r.Ok? ==> |r.value.1| < |data| && r.value.0 < 0x8000_0000
  {
    match GetVarInt(data)
    case Ok((v, rest)) => if v < 0x8000_0000 then Ok((v, rest)) else Err(InvalidValue)
    case Err(e) => Err(e)
  }

  function GetNumber(data: seq<Byte>, k: nat): (r: Parsed<nat>)
    ensures r.Ok? ==> |r.value.1| <= |data| && r.value.0 < Power256(k)
  {
    match TakeNumber(data, k)
    case Err(e) => Err(ErrorOf(e))
    case Ok((v, rest)) => FromBigEndianBound(data[..k]); Ok((v, rest))
  }

  function PutString(s: string): seq<Byte> {
    VarInt(|Utf8Bytes(s)| % 0x1_0000_0000) + Utf8Bytes(s)
  }

  /** Longer strings than the protocol allows are refused. */
  function GetString(data: seq<Byte>): (r: Parsed<string>)
    ensures r.Ok? ==> |r.value.1| <= |data|
  {
    match GetVarInt(data)
    case Err(e) => Err(e)
    case Ok((n, rest)) =>
      if n >= 0x8000_0000 then Err(ProtocolError.UnexpectedEof)
      else if n > MAX_STRING then Err(BadUtf8)
      else if n > |rest| then Err(ProtocolError.UnexpectedEof)
      else (match FromUtf8(rest[..n]) case Ok(s) => Ok((s, rest[n..])) case Err(e) => Err(BadUtf8))
  }

  /** A compound behind its type byte. */
  function PutCompound(tag: Nbt.NbtTag): Written {
    match Nbt.EncodeAnonymous(tag)
    case Ok(b) => Ok([0x0A] + b)
    case Err(_) => Err(InvalidValue)
  }

  function GetCompound(data: seq<Byte>): (r: Parsed<Nbt.NbtTag>)
    ensures r.Ok? ==> |r.value.1| < |data|
  {
    if data == [] then Err(ProtocolError.UnexpectedEof)
    else if data[0] != 0x0A then Err(InvalidValue)
    else
      match Nbt.DecodeAnonymous(data[1..])
      case Ok(p) => Ok(p)
      case Err(UnexpectedEof) => Err(ProtocolError.UnexpectedEof)
      case Err(_) => Err(InvalidValue)
  }

  function PutText(c: TextComponents.Component): Written {
    PutCompound(TextComponents.ToNbt(c))
  }

  function GetText(data: seq<Byte>): (r: Parsed<TextComponents.Component>)
    ensures r.Ok? ==> |r.value.1| < |data|
  {
    match GetCompound(data)
    case Err(e) => Err(e)
    case Ok((tag, rest)) =>
      match TextComponents.FromNbt(tag) case Ok(c) => Ok((c, rest)) case Err(_) => Err(InvalidValue)
  }

  function PutTexts(cs: seq<TextComponents.Component>): Written {
    if cs == [] then Ok([]) else Then(PutText(cs[0]), PutTexts(cs[1..]))
  }

  function GetTexts(n: nat, data: seq<Byte>): (r: Parsed<seq<TextComponents.Component>>)
    ensures r.Ok? ==> |r.value.1| <= |data| && |r.value.0| == n
  {
    if n == 0 then Ok(([], data))
    else
      match GetText(data)
      case Err(e) => Err(e)
      case Ok((c, rest)) =>
        match GetTexts(n - 1, rest)
        case Err(e) => Err(e)
        case Ok((cs, rest')) => Ok(([c] + cs, rest'))
  }

  function Ordinal(r: ItemRarity): U32 {
    match r case Common => 0 case Uncommon => 1 case Rare => 2 case Epic => 3
  }

  // ---- values ----

  function PutValue(id: U32, v: ComponentValue): Written {
    match v
    case MaxStackSize(n) => if id == 1 then PutInt(n) else Err(InvalidValue)
    case MaxDamage(n) => if id == 2 then PutInt(n) else Err(InvalidValue)
    case Damage(n) => if id == 3 then PutInt(n) else Err(InvalidValue)
    case Unbreakable => if id == 4 then Ok([]) else Err(InvalidValue)
    case MinimumAttackCharge(f) => if id == 7 then Ok(BigEndian(f, 4)) else Err(InvalidValue)
    case Rarity(r) => if id == 12 then PutInt(Ordinal(r)) else Err(InvalidValue)
    case ByteValue(b) => if id == 22 then Ok([b]) else Err(InvalidValue)
    case ShortValue(n) => if id == 45 then Ok(BigEndian(n, 2)) else Err(InvalidValue)
    case LongValue(n) => if id == 76 then Ok(BigEndian(n, 8)) else Err(InvalidValue)
    case FloatValue(f) => if id == 50 then Ok(BigEndian(f, 4)) else Err(InvalidValue)
    case DoubleValue(f) => if id == 77 then Ok(BigEndian(f, 8)) else Err(InvalidValue)
    case StringValue(s) => if id == 10 then Ok(PutString(s)) else Err(InvalidValue)
    case BoolValue(b) => if id == 21 then Ok([if b then 1 else 0]) else Err(InvalidValue)
    case NbtValue(tag) =>
      if id == 0 || id == 13 || id == 52 || id == 53 then PutCompound(tag) else Err(InvalidValue)
    case TextValue(c) => if id == 6 then PutText(c) else Err(InvalidValue)
    case TextListValue(cs) => if id == 11 then Then(PutInt(|cs|), PutTexts(cs)) else Err(InvalidValue)
  }

  function GetRarity(data: seq<Byte>): (r: Parsed<ComponentValue>)
    ensures r.Ok? ==> |r.value.1| <= |data|
  {
    match GetVarInt(data)
    case Err(e) => Err(e)
    case Ok((n, rest)) =>
      match n
      case 0 => Ok((Rarity(Common), rest))
      case 1 => Ok((Rarity(Uncommon), rest))
      case 2 => Ok((Rarity(Rare), rest))
      case 3 => Ok((Rarity(Epic), rest))
      case _ => Err(InvalidValue)
  }

  function GetTextList(data: seq<Byte>): (r: Parsed<ComponentValue>)
    ensures r.Ok? ==> |r.value.1| <= |data|
  {
    match GetInt(data)
    case Err(e) => Err(e)
    case Ok((n, rest)) =>
      if n > MAX_ENTRIES then Err(InvalidValue)
      else (match GetTexts(n, rest) case Ok((cs, rest')) => Ok((TextListValue(cs), rest')) case Err(e) => Err(e))
  }

  function GetCompoundValue(data: seq<Byte>): (r: Parsed<ComponentValue>)
    ensures r.Ok? ==> |r.value.1| <= |data|
  {
    match GetCompound(data) case Ok((tag, rest)) => Ok((NbtValue(tag), rest)) case Err(e) => Err(e)
  }

  function GetValue(id: U32, data: seq<Byte>): (r: Parsed<ComponentValue>)
    ensures r.Ok? ==> |r.value.1| <= |data|
  {
    hide Power256, GetInt, GetNumber, GetString, GetText, GetRarity, GetTextList, GetCompoundValue;
    Powers();
    match id
    case 1 => (match GetInt(data) case Ok((n, rest)) => Ok((MaxStackSize(n), rest)) case Err(e) => Err(e))
    case 2 => (match GetInt(data) case Ok((n, rest)) => Ok((MaxDamage(n), rest)) case Err(e) => Err(e))
    case 3 => (match GetInt(data) case Ok((n, rest)) => Ok((Damage(n), rest)) case Err(e) => Err(e))
    case 4 => Ok((Unbreakable, data))
    case 7 =>
      (match GetNumber(data, 4) case Ok((f, rest)) => Ok((MinimumAttackCharge(f), rest)) case Err(e) => Err(e))
    case 12 => GetRarity(data)
    case 6 => (match GetText(data) case Ok((c, rest)) => Ok((TextValue(c), rest)) case Err(e) => Err(e))
    case 0 => GetCompoundValue(data)
    case 13 => GetCompoundValue(data)
    case 52 => GetCompoundValue(data)
    case 53 => GetCompoundValue(data)
    case 10 => (match GetString(data) case Ok((s, rest)) => Ok((StringValue(s), rest)) case Err(e) => Err(e))
    case 11 => GetTextList(data)
    case 21 => (match GetNumber(data, 1) case Ok((b, rest)) => Ok((BoolValue(b != 0), rest)) case Err(e) => Err(e))
    case 22 => (match GetNumber(data, 1) case Ok((b, rest)) => Ok((ByteValue(b), rest)) case Err(e) => Err(e))
    case 45 => (match GetNumber(data, 2) case Ok((n, rest)) => Ok((ShortValue(n), rest)) case Err(e) => Err(e))
    case 50 => (match GetNumber(data, 4) case Ok((f, rest)) => Ok((FloatValue(f), rest)) case Err(e) => Err(e))
    case 76 => (match GetNumber(data, 8) case Ok((n, rest)) => Ok((LongValue(n), rest)) case Err(e) => Err(e))
    case 77 => (match GetNumber(data, 8) case Ok((f, rest)) => Ok((DoubleValue(f), rest)) case Err(e) => Err(e))
    case _ => Err(UnsupportedComponents)
  }

  // ---- stacks ----

  function Sets(p: Patch): Patch {
    if p == [] then [] else (if p[0].Set? then [p[0]] else []) + Sets(p[1..])
  }

  function Removes(p: Patch): Patch {
    if p == [] then [] else (if p[0].Remove? then [p[0]] else []) + Removes(p[1..])
  }

  function PutSets(p: Patch): Written {
    if p == [] then Ok([])
    else if p[0].Set? then Then(Then(PutInt(p[0].id), PutValue(p[0].id, p[0].value)), PutSets(p[1..]))
    else PutSets(p[1..])
  }

  function PutRemoves(p: Patch): Written {
    if p == [] then Ok([])
    else if p[0].Remove? then Then(PutInt(p[0].id), PutRemoves(p[1..]))
    else PutRemoves(p[1..])
  }

  /** A length cut to 32 bits. */
  function Cut(n: nat): U32 {
    n % 0x1_0000_0000
  }

  function Encode(item: ItemStack): Written {
    if item.amount == 0 then Ok(VarInt(0))
    else
      Then(Then(Then(Then(Ok(VarInt(item.amount)), PutInt(item.material)),
                     Ok(VarInt(Cut(|Sets(item.components)|)) + VarInt(Cut(|Removes(item.components)|)))),
                PutSets(item.components)),
           PutRemoves(item.components))
  }

  function GetSets(n: nat, data: seq<Byte>): (r: Parsed<Patch>)
    ensures r.Ok? ==> |r.value.0| == n
  {
    if n == 0 then Ok(([], data))
    else
      match GetInt(data)
      case Err(e) => Err(e)
      case Ok((id, rest)) =>
        match GetValue(id, rest)
        case Err(e) => Err(e)
        case Ok((value, rest')) =>
          match GetSets(n - 1, rest')
          case Err(e) => Err(e)
          case Ok((p, rest'')) => Ok(([Set(id, value)] + p, rest''))
  }

  function GetRemoves(n: nat, data: seq<Byte>): (r: Parsed<Patch>)
    ensures r.Ok? ==> |r.value.0| == n
  {
    if n == 0 then Ok(([], data))
    else
      match GetInt(data)
      case Err(e) => Err(e)
      case Ok((id, rest)) =>
        match GetRemoves(n - 1, rest)
        case Err(e) => Err(e)
        case Ok((p, rest')) => Ok(([Remove(id)] + p, rest'))
  }

  function GetPatch(data: seq<Byte>): Parsed<Patch> {
    match GetVarInt(data)
    case Err(e) => Err(e)
    case Ok((added, rest)) =>
      match GetVarInt(rest)
      case Err(e) => Err(e)
      case Ok((removed, rest')) =>
        if added >= 0x8000_0000 || removed >= 0x8000_0000 || added + removed > MAX_ENTRIES then Err(InvalidValue)
        else
          match GetSets(added, rest')
          case Err(e) => Err(e)
          case Ok((sets, rest'')) =>
            match GetRemoves(removed, rest'')
            case Err(e) => Err(e)
            case Ok((removes, rest''')) => Ok((sets + removes, rest'''))
  }

  function Decode(data: seq<Byte>): Parsed<ItemStack> {
    match GetVarInt(data)
    case Err(e) => Err(e)
    case Ok((count, rest)) =>
      if count == 0 || count >= 0x8000_0000 then Ok((AIR, rest))
      else
        match GetInt(rest)
        case Err(e) => Err(e)
        case Ok((material, rest')) =>
          match GetPatch(rest')
          case Err(e) => Err(e)
          case Ok((p, rest'')) =>
            if count >= 256 then Err(InvalidValue) else Ok((ItemStack(material, count, p), rest''))
  }

  // ---- primitives round trip ----

  lemma VarIntTrip(v: U32, rest: seq<Byte>)
    ensures GetVarInt(VarInt(v) + rest) == Ok((v, rest))
  {
    VarIntRoundTrip(v, rest);
  }

  lemma IntTrip(n: nat, rest: seq<Byte>)
    requires PutInt(n).Ok?
    ensures GetInt(PutInt(n).value + rest) == Ok((n, rest))
  {
    hide GetVarInt, VarInt;
    VarIntTrip(n, rest);
  }

  lemma NumberTrip(v: nat, k: nat, rest: seq<Byte>)
    requires v < Power256(k)
    ensures GetNumber(BigEndian(v, k) + rest, k) == Ok((v, rest))
  {
    TakeNumberRoundTrip(v, k, rest);
  }

  lemma ByteTrip(b: Byte, rest: seq<Byte>)
    ensures GetNumber([b] + rest, 1) == Ok((b, rest))
  {
    Powers();
    assert BigEndian(b, 1) == [] + [b] == [b];
    NumberTrip(b, 1, rest);
  }

  lemma StringTrip(s: string, rest: seq<Byte>)
    requires |Utf8Bytes(s)| <= MAX_STRING
    ensures GetString(PutString(s) + rest) == Ok((s, rest))
  {
    hide GetVarInt, VarInt;
    var b := Utf8Bytes(s);
    VarIntTrip(|b|, b + rest);
    assert PutString(s) + rest == VarInt(|b|) + (b + rest);
    assert (b + rest)[..|b|] == b && (b + rest)[|b|..] == rest;
    Utf8RoundTrip(s);
  }

  lemma CompoundTrip(tag: Nbt.NbtTag, rest: seq<Byte>)
    requires PutCompound(tag).Ok? && Nbt.Homogeneous(tag)
    ensures GetCompound(PutCompound(tag).value + rest) == Ok((tag, rest))
  {
    hide Nbt.Homogeneous;
    var b := Nbt.EncodeAnonymous(tag).value;
    Nbt.AnonymousRoundTripIff(tag, rest);
    assert PutCompound(tag).value + rest == [0x0A] + (b + rest);
    assert ([0x0A] + (b + rest))[1..] == b + rest;
    hide Nbt.DecodeAnonymous, Nbt.EncodeAnonymous;
  }

  lemma TextTrip(c: TextComponents.Component, rest: seq<Byte>)
    requires PutText(c).Ok?
    ensures GetText(PutText(c).value + rest) == Ok((c, rest))
  {
    hide PutCompound, GetCompound, TextComponents.ToNbt, TextComponents.FromNbt;
    TextComponents.ToNbtHomogeneous(c);
    CompoundTrip(TextComponents.ToNbt(c), rest);
    TextComponents.ComponentRoundTrip(c);
  }

  lemma {:induction false} TextsTrip(cs: seq<TextComponents.Component>, rest: seq<Byte>)
    requires PutTexts(cs).Ok?
    ensures GetTexts(|cs|, PutTexts(cs).value + rest) == Ok((cs, rest))
  {
    hide PutText, GetText;
    if cs == [] {
      assert PutTexts(cs).value + rest == rest;
    } else {
      TextsTrip(cs[1..], rest);
      TextTrip(cs[0], PutTexts(cs[1..]).value + rest);
      assert PutTexts(cs).value + rest == PutText(cs[0]).value + (PutTexts(cs[1..]).value + rest);
      assert cs == [cs[0]] + cs[1..];
    }
  }

  // ---- values round trip ----

  /** What the reader will take: bounded strings and lists, and unmixed tag lists. */
  predicate ValueFits(v: ComponentValue) {
    match v
    case StringValue(s) => |Utf8Bytes(s)| <= 32767
    case TextListValue(cs) => |cs| <= 256
    case NbtValue(tag) => Nbt.Homogeneous(tag)
    case _ => true
  }

  lemma TextListTrip(cs: seq<TextComponents.Component>, rest: seq<Byte>)
    requires PutValue(11, TextListValue(cs)).Ok? && |cs| <= MAX_ENTRIES
    ensures GetTextList(PutValue(11, TextListValue(cs)).value + rest) == Ok((TextListValue(cs), rest))
  {
    hide PutTexts, GetTexts, PutInt, GetInt;
    var n, b := PutInt(|cs|).value, PutTexts(cs).value;
    IntTrip(|cs|, b + rest);
    TextsTrip(cs, rest);
    assert n + b + rest == n + (b + rest);
  }

  lemma RarityTrip(r: ItemRarity, rest: seq<Byte>)
    ensures GetRarity(PutInt(Ordinal(r)).value + rest) == Ok((Rarity(r), rest))
  {
    hide GetVarInt, VarInt;
    VarIntTrip(Ordinal(r), rest);
  }

  lemma ValueTrip(id: U32, v: ComponentValue, rest: seq<Byte>)
    requires PutValue(id, v).Ok? && ValueFits(v)
    ensures GetValue(id, PutValue(id, v).value + rest) == Ok((v, rest))
  {
    hide Power256, BigEndian, PutInt, GetInt, GetNumber, PutString, GetString, PutCompound, GetCompound, PutText,
         GetText, PutTexts, GetTexts, GetRarity, GetTextList, Nbt.Homogeneous;
    Powers();
    match v
    case MaxStackSize(n) => IntTrip(n, rest);
    case MaxDamage(n) => IntTrip(n, rest);
    case Damage(n) => IntTrip(n, rest);
    case Unbreakable => assert [] + rest == rest;
    case MinimumAttackCharge(f) => NumberTrip(f, 4, rest);
    case Rarity(r) => RarityTrip(r, rest);
    case ByteValue(b) => ByteTrip(b, rest);
    case ShortValue(n) => NumberTrip(n, 2, rest);
    case LongValue(n) => NumberTrip(n, 8, rest);
    case FloatValue(f) => NumberTrip(f, 4, rest);
    case DoubleValue(f) => NumberTrip(f, 8, rest);
    case StringValue(s) => StringTrip(s, rest);
    case BoolValue(b) => ByteTrip(if b then 1 else 0, rest);
    case NbtValue(tag) => CompoundTrip(tag, rest);
    case TextValue(c) => TextTrip(c, rest);
    case TextListValue(cs) => TextListTrip(cs, rest);
  }

  lemma GotStringFits(data: seq<Byte>)
    requires GetString(data).Ok?
    ensures |Utf8Bytes(GetString(data).value.0)| <= MAX_STRING
  {
    hide GetVarInt;
    var (n, rest) := GetVarInt(data).value;
    FromUtf8Exact(rest[..n]);
  }

  lemma GotValueFits(id: U32, data: seq<Byte>)
    requires GetValue(id, data).Ok?
    ensures ValueFits(GetValue(id, data).value.0)
  {
    hide Power256, GetInt, GetNumber, GetString, GetText, GetRarity, GetTexts, Nbt.Homogeneous, Utf8Bytes;
    if id == 10 {
      GotStringFits(data);
    } else if id == 11 {
      TextListFits(data);
    } else if id == 0 || id == 13 || id == 52 || id == 53 {
      GotCompoundFits(data);
    } else if id == 12 {
      RarityFits(data);
    }
  }

  lemma TextListFits(data: seq<Byte>)
    requires GetTextList(data).Ok?
    ensures ValueFits(GetTextList(data).value.0)
  {
    hide GetTexts, GetInt;
  }

  lemma RarityFits(data: seq<Byte>)
    requires GetRarity(data).Ok?
    ensures ValueFits(GetRarity(data).value.0)
  {
  }

  lemma GotCompoundFits(data: seq<Byte>)
    requires GetCompoundValue(data).Ok?
    ensures ValueFits(GetCompoundValue(data).value.0)
  {
    Nbt.ReadCompoundIsHomogeneous(data[1..]);
  }

  // ---- stacks round trip ----

  /** Set entries ahead of Remove entries, each kind in its own order. */
  function Canonical(p: Patch): Patch {
    Sets(p) + Removes(p)
  }

  ghost predicate PatchFits(p: Patch) {
    |p| <= 256 && forall i | 0 <= i < |p| && p[i].Set? :: ValueFits(p[i].value)
  }

  lemma {:induction false} KindsCount(p: Patch)
    ensures |Sets(p)| + |Removes(p)| == |p|
  {
    if p != [] {
      KindsCount(p[1..]);
    }
  }

  lemma {:induction false} SetsTrip(p: Patch, rest: seq<Byte>)
    requires PutSets(p).Ok? && forall i | 0 <= i < |p| && p[i].Set? :: ValueFits(p[i].value)
    ensures GetSets(|Sets(p)|, PutSets(p).value + rest) == Ok((Sets(p), rest))
    decreases |p|
  {
    hide PutInt, GetInt, PutValue, GetValue, ValueFits;
    if p == [] {
      assert PutSets(p).value + rest == rest;
    } else {
      SetsTrip(p[1..], rest);
      if p[0].Set? {
        var tail := PutSets(p[1..]).value + rest;
        var value := PutValue(p[0].id, p[0].value).value;
        IntTrip(p[0].id, value + tail);
        ValueTrip(p[0].id, p[0].value, tail);
        assert PutSets(p).value + rest == PutInt(p[0].id).value + (value + tail);
      } else {
        assert [] + Sets(p[1..]) == Sets(p[1..]);
      }
    }
  }

  lemma {:induction false} RemovesTrip(p: Patch, rest: seq<Byte>)
    requires PutRemoves(p).Ok?
    ensures GetRemoves(|Removes(p)|, PutRemoves(p).value + rest) == Ok((Removes(p), rest))
    decreases |p|
  {
    hide PutInt, GetInt;
    if p == [] {
      assert PutRemoves(p).value + rest == rest;
    } else {
      RemovesTrip(p[1..], rest);
      if p[0].Remove? {
        var tail := PutRemoves(p[1..]).value + rest;
        IntTrip(p[0].id, tail);
        assert PutRemoves(p).value + rest == PutInt(p[0].id).value + tail;
      } else {
        assert [] + Removes(p[1..]) == Removes(p[1..]);
      }
    }
  }

  lemma PatchTrip(p: Patch, rest: seq<Byte>)
    requires PutSets(p).Ok? && PutRemoves(p).Ok? && PatchFits(p)
    ensures GetPatch(VarInt(Cut(|Sets(p)|))
                     + (VarInt(Cut(|Removes(p)|)) + (PutSets(p).value + (PutRemoves(p).value + rest))))
         == Ok((Canonical(p), rest))
  {
    hide GetVarInt, VarInt, PutSets, GetSets, PutRemoves, GetRemoves, Sets, Removes;
    KindsCount(p);
    var tail := PutRemoves(p).value + rest;
    VarIntTrip(|Sets(p)|, VarInt(|Removes(p)|) + (PutSets(p).value + tail));
    VarIntTrip(|Removes(p)|, PutSets(p).value + tail);
    SetsTrip(p, tail);
    RemovesTrip(p, rest);
  }

  lemma EncodedShape(item: ItemStack, rest: seq<Byte>)
    requires Encode(item).Ok? && item.amount > 0
    ensures PutInt(item.material).Ok? && PutSets(item.components).Ok? && PutRemoves(item.components).Ok?
    ensures Encode(item).value + rest ==
            VarInt(item.amount) + (PutInt(item.material).value
            + (VarInt(Cut(|Sets(item.components)|)) + (VarInt(Cut(|Removes(item.components)|))
            + (PutSets(item.components).value + (PutRemoves(item.components).value + rest)))))
  {
    hide VarInt, PutInt, PutSets, PutRemoves, Sets, Removes;
  }

  lemma StackTrip(item: ItemStack, rest: seq<Byte>)
    requires Encode(item).Ok? && item.amount > 0 && PatchFits(item.components)
    ensures Decode(Encode(item).value + rest) == Ok((item.(components := Canonical(item.components)), rest))
  {
    hide GetVarInt, VarInt, PutInt, GetInt, PutSets, PutRemoves, Sets, Removes, GetPatch, Encode, Canonical;
    EncodedShape(item, rest);
    var p := item.components;
    var tail := VarInt(Cut(|Sets(p)|))
                + (VarInt(Cut(|Removes(p)|)) + (PutSets(p).value + (PutRemoves(p).value + rest)));
    VarIntTrip(item.amount, PutInt(item.material).value + tail);
    IntTrip(item.material, tail);
    PatchTrip(p, rest);
  }

  lemma {:induction false} GotSetsFit(n: nat, data: seq<Byte>)
    requires GetSets(n, data).Ok?
    ensures forall i | 0 <= i < |GetSets(n, data).value.0| ::
              GetSets(n, data).value.0[i].Set? && ValueFits(GetSets(n, data).value.0[i].value)
  {
    hide GetInt, GetValue, ValueFits;
    if n > 0 {
      var (id, rest) := GetInt(data).value;
      GotValueFits(id, rest);
      GotSetsFit(n - 1, GetValue(id, rest).value.1);
    }
  }

  lemma {:induction false} GotRemovesAreRemoves(n: nat, data: seq<Byte>)
    requires GetRemoves(n, data).Ok?
    ensures forall i | 0 <= i < |GetRemoves(n, data).value.0| :: GetRemoves(n, data).value.0[i].Remove?
  {
    hide GetInt;
    if n > 0 {
      GotRemovesAreRemoves(n - 1, GetInt(data).value.1);
    }
  }

  lemma GotPatchFits(data: seq<Byte>)
    requires GetPatch(data).Ok?
    ensures PatchFits(GetPatch(data).value.0)
  {
    hide GetVarInt, GetSets, GetRemoves, ValueFits;
    var (added, rest) := GetVarInt(data).value;
    var (removed, rest') := GetVarInt(rest).value;
    GotSetsFit(added, rest');
    GotRemovesAreRemoves(removed, GetSets(added, rest').value.1);
  }

  lemma DecodedFits(data: seq<Byte>)
    requires Decode(data).Ok?
    ensures PatchFits(Decode(data).value.0.components)
  {
    hide GetVarInt, GetInt, GetPatch, ValueFits;
    var (count, rest) := GetVarInt(data).value;
    if 0 < count < 0x8000_0000 {
      GotPatchFits(GetInt(rest).value.1);
    }
  }

  lemma {:induction false} KindsFit(p: Patch)
    ensures (forall i | 0 <= i < |p| && p[i].Set? :: ValueFits(p[i].value))
            <==> forall i | 0 <= i < |Sets(p)| :: Sets(p)[i].Set? ==> ValueFits(Sets(p)[i].value)
    ensures forall i | 0 <= i < |Removes(p)| :: Removes(p)[i].Remove?
  {
    hide ValueFits;
    if p != [] {
      KindsFit(p[1..]);
      var s, t := Sets(p), Sets(p[1..]);
      if p[0].Set? {
        assert s[0] == p[0] && forall i | 0 <= i < |t| :: s[i + 1] == t[i];
        assert forall i | 0 < i < |s| :: s[i] == t[i - 1];
      } else {
        assert s == t;
      }
      assert forall i | 0 < i < |p| :: p[i] == p[1..][i - 1];
      assert forall i | 0 <= i < |p[1..]| :: p[i + 1] == p[1..][i];
    }
  }

  lemma CanonicalFits(p: Patch)
    ensures PatchFits(Canonical(p)) <==> PatchFits(p)
  {
    hide ValueFits, Sets, Removes;
    KindsCount(p);
    KindsFit(p);
    var s, r := Sets(p), Removes(p);
    assert forall i | 0 <= i < |s| :: Canonical(p)[i] == s[i];
    assert forall i | |s| <= i < |s + r| :: Canonical(p)[i] == r[i - |s|];
  }

  /** Decoding what was encoded gives the stack with its Set entries ahead of its Remove entries, and
    * leaves the following bytes alone, exactly when the patch fits the limits of the reader. */
  lemma StackRoundTripIff(item: ItemStack, rest: seq<Byte>)
    requires Encode(item).Ok? && item.amount > 0
    ensures Decode(Encode(item).value + rest) == Ok((item.(components := Canonical(item.components)), rest))
            <==> PatchFits(item.components)
  {
    hide Encode, Decode, PatchFits, Canonical;
    if PatchFits(item.components) {
      StackTrip(item, rest);
    }
    if Decode(Encode(item).value + rest).Ok? {
      DecodedFits(Encode(item).value + rest);
      CanonicalFits(item.components);
    }
  }

  lemma AirRoundTrip(item: ItemStack, rest: seq<Byte>)
    requires item.amount == 0
    ensures Encode(item).Ok? && Decode(Encode(item).value + rest) == Ok((AIR, rest))
  {
    hide GetVarInt, VarInt;
    VarIntTrip(0, rest);
  }

  // ---- the loops of the encoder ----

  /** The writing side of the byte buffer. */
  class ByteBuffer {
    var buf: seq<Byte>

    constructor ()
      ensures buf == []
    {
      buf := [];
    }

    method Put(bytes: seq<Byte>)
      modifies this
      ensures buf == old(buf) + bytes
    {
      buf := buf + bytes;
    }
  }

  lemma ThenOk(a: seq<Byte>, b: seq<Byte>, w: Written)
    ensures Then(Ok(a), Then(Ok(b), w)) == Then(Ok(a + b), w)
  {
    if w.Ok? {
      assert a + (b + w.value) == a + b + w.value;
    }
  }

  lemma ThenNothing(w: Written)
    ensures Then(Ok([]), w) == w
  {
    if w.Ok? {
      assert [] + w.value == w.value;
    }
  }

  method PutSetEntries(p: Patch, out: ByteBuffer) returns (r: Result<(), ProtocolError>)
    modifies out
    ensures r.Ok? == PutSets(p).Ok?
    ensures r.Ok? ==> out.buf == old(out.buf) + PutSets(p).value
    ensures r.Err? ==> r.error == PutSets(p).error
  {
    hide PutInt, PutValue;
    ghost var done: seq<Byte> := [];
    ThenNothing(PutSets(p));
    for i := 0 to |p|
      invariant out.buf == old(out.buf) + done
      invariant Then(Ok(done), PutSets(p[i..])) == PutSets(p)
    {
      assert p[i..][1..] == p[i + 1..];
      if p[i].Set? {
        var id := PutInt(p[i].id);
        if id.Err? {
          return Err(id.error);
        }
        out.Put(id.value);
        var value := PutValue(p[i].id, p[i].value);
        if value.Err? {
          return Err(value.error);
        }
        out.Put(value.value);
        ThenOk(done, id.value + value.value, PutSets(p[i + 1..]));
        done := done + (id.value + value.value);
      }
    }
    return Ok(());
  }

  method PutRemoveEntries(p: Patch, out: ByteBuffer) returns (r: Result<(), ProtocolError>)
    modifies out
    ensures r.Ok? == PutRemoves(p).Ok?
    ensures r.Ok? ==> out.buf == old(out.buf) + PutRemoves(p).value
    ensures r.Err? ==> r.error == PutRemoves(p).error
  {
    hide PutInt;
    ghost var done: seq<Byte> := [];
    ThenNothing(PutRemoves(p));
    for i := 0 to |p|
      invariant out.buf == old(out.buf) + done
      invariant Then(Ok(done), PutRemoves(p[i..])) == PutRemoves(p)
    {
      assert p[i..][1..] == p[i + 1..];
      if p[i].Remove? {
        var id := PutInt(p[i].id);
        if id.Err? {
          return Err(id.error);
        }
        out.Put(id.value);
        ThenOk(done, id.value, PutRemoves(p[i + 1..]));
        done := done + id.value;
      }
    }
    return Ok(());
  }

  method CountKinds(p: Patch) returns (added: nat, removed: nat)
    ensures added == |Sets(p)| && removed == |Removes(p)|
  {
    added, removed := 0, 0;
    for i := 0 to |p|
      invariant added + |Sets(p[i..])| == |Sets(p)| && removed + |Removes(p[i..])| == |Removes(p)|
    {
      assert p[i..][1..] == p[i + 1..];
      if p[i].Set? {
        added := added + 1;
      } else {
        removed := removed + 1;
      }
    }
  }

  method EncodeItemStack(item: ItemStack, out: ByteBuffer) returns (r: Result<(), ProtocolError>)
    modifies out
    ensures r.Ok? == Encode(item).Ok?
    ensures r.Ok? ==> out.buf == old(out.buf) + Encode(item).value
    ensures r.Err? ==> r.error == Encode(item).error
  {
    hide PutInt, PutSets, PutRemoves, Sets, Removes, VarInt;
    if item.amount == 0 {
      out.Put(VarInt(0));
      return Ok(());
    }
    out.Put(VarInt(item.amount));
    var material := PutInt(item.material);
    if material.Err? {
      return Err(material.error);
    }
    out.Put(material.value);
    var added, removed := CountKinds(item.components);
    out.Put(VarInt(Cut(added)) + VarInt(Cut(removed)));
    r := PutSetEntries(item.components, out);
    if r.Ok? {
      r := PutRemoveEntries(item.components, out);
    }
  }

  // ---- the loops of the decoder ----

  /** The reading side of the byte buffer: the bytes behind its position. */
  class ByteReader {
    var unread: seq<Byte>

    constructor (data: seq<Byte>)
      ensures unread == data
    {
      unread := data;
    }
  }

  /** What is left of a decoding loop that has `done` already. */
  function After(done: Patch, more: Parsed<Patch>): Parsed<Patch> {
    match more
    case Ok((p, rest)) => Ok((done + p, rest))
    case Err(e) => Err(e)
  }

  lemma AfterNothing(more: Parsed<Patch>)
    ensures After([], more) == more
  {
    if more.Ok? {
      assert [] + more.value.0 == more.value.0;
    }
  }

  lemma AfterOne(done: Patch, e: ComponentEntry, more: Parsed<Patch>)
    ensures After(done, After([e], more)) == After(done + [e], more)
  {
    if more.Ok? {
      assert done + ([e] + more.value.0) == done + [e] + more.value.0;
    }
  }

  method GetSetEntries(n: nat, input: ByteReader, done: Patch) returns (r: Result<Patch, ProtocolError>)
    modifies input
    ensures var whole := After(done, GetSets(n, old(input.unread)));
            match r
            case Ok(p) => whole == Ok((p, input.unread))
            case Err(e) => whole == Err(e)
  {
    hide GetInt, GetValue;
    ghost var data := input.unread;
    var entries := done;
    for i := 0 to n
      invariant After(entries, GetSets(n - i, input.unread)) == After(done, GetSets(n, data))
    {
      var id := GetInt(input.unread);
      if id.Err? {
        return Err(id.error);
      }
      var value := GetValue(id.value.0, id.value.1);
      if value.Err? {
        return Err(value.error);
      }
      AfterOne(entries, Set(id.value.0, value.value.0), GetSets(n - i - 1, value.value.1));
      entries := entries + [Set(id.value.0, value.value.0)];
      input.unread := value.value.1;
    }
    assert entries + [] == entries;
    return Ok(entries);
  }

  method GetRemoveEntries(n: nat, input: ByteReader, done: Patch) returns (r: Result<Patch, ProtocolError>)
    modifies input
    ensures var whole := After(done, GetRemoves(n, old(input.unread)));
            match r
            case Ok(p) => whole == Ok((p, input.unread))
            case Err(e) => whole == Err(e)
  {
    hide GetInt;
    ghost var data := input.unread;
    var entries := done;
    for i := 0 to n
      invariant After(entries, GetRemoves(n - i, input.unread)) == After(done, GetRemoves(n, data))
    {
      var id := GetInt(input.unread);
      if id.Err? {
        return Err(id.error);
      }
      AfterOne(entries, Remove(id.value.0), GetRemoves(n - i - 1, id.value.1));
      entries := entries + [Remove(id.value.0)];
      input.unread := id.value.1;
    }
    assert entries + [] == entries;
    return Ok(entries);
  }

  method DecodePatch(input: ByteReader) returns (r: Result<Patch, ProtocolError>)
    modifies input
    ensures match r
            case Ok(p) => GetPatch(old(input.unread)) == Ok((p, input.unread))
            case Err(e) => GetPatch(old(input.unread)) == Err(e)
  {
    hide GetVarInt, GetSets, GetRemoves;
    var added := GetVarInt(input.unread);
    if added.Err? {
      return Err(added.error);
    }
    var removed := GetVarInt(added.value.1);
    if removed.Err? {
      return Err(removed.error);
    }
    if added.value.0 >= 0x8000_0000 || removed.value.0 >= 0x8000_0000
       || added.value.0 + removed.value.0 > MAX_ENTRIES {
      return Err(InvalidValue);
    }
    input.unread := removed.value.1;
    AfterNothing(GetSets(added.value.0, input.unread));
    r := GetSetEntries(added.value.0, input, []);
    if r.Ok? {
      r := GetRemoveEntries(removed.value.0, input, r.value);
    }
  }

  method DecodeItemStack(input: ByteReader) returns (r: Result<ItemStack, ProtocolError>)
    modifies input
    ensures match r
            case Ok(item) => Decode(old(input.unread)) == Ok((item, input.unread))
            case Err(e) => Decode(old(input.unread)) == Err(e)
  {
    hide GetVarInt, GetInt, GetPatch;
    var count := GetVarInt(input.unread);
    if count.Err? {
      return Err(count.error);
    }
    input.unread := count.value.1;
    if count.value.0 == 0 || count.value.0 >= 0x8000_0000 {
      return Ok(AIR);
    }
    var material := GetInt(input.unread);
    if material.Err? {
      return Err(material.error);
    }
    input.unread := material.value.1;
    var components := DecodePatch(input);
    if components.Err? {
      return Err(components.error);
    }
    if count.value.0 >= 256 {
      return Err(InvalidValue);
    }
    return Ok(ItemStack(material.value.0, count.value.0, components.value));
  }
}
