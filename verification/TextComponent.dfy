/** Text components and their tag form, from text_component.rs. */
module TextComponents {
  import opened Wrappers
  import opened Bytes
  import opened Nbt

  datatype ClickAction = RunCommand | OpenUrl | SuggestCommand | ChangePage

  datatype HoverAction = ShowText | ShowEntity | ShowItem

  datatype ClickEvent = ClickEvent(action: ClickAction, value: string)

  datatype HoverEvent = HoverEvent(action: HoverAction, value: string)

  datatype Style = Style(
    color: Option<U32>, bold: bool, italic: bool, underlined: bool, strikethrough: bool, obfuscated: bool,
    insertion: Option<string>, click: Option<ClickEvent>, hover: Option<HoverEvent>)

  datatype Component =
    | Empty
    | Text(text: string, style: Style)
    | Translatable(key: string, fallback: Option<string>, args: seq<Component>)
    | Keybind(keybind: string)
    | Scoreboard(name: string, objective: string)
    | Selector(pattern: string, separator: Option<string>)
    | NbtValue(path: string, interpret: bool, nbtSeparator: Option<string>)
    | Click(click: ClickEvent)
    | Hover(hover: HoverEvent)

  function ClickCode(a: ClickAction): U32 {
    match a
    case RunCommand => 0
    case OpenUrl => 1
    case SuggestCommand => 2
    case ChangePage => 3
  }

  function ClickFromCode(code: U32): Option<ClickAction> {
    match code
    case 0 => Some(RunCommand)
    case 1 => Some(OpenUrl)
    case 2 => Some(SuggestCommand)
    case 3 => Some(ChangePage)
    case _ => None
  }

  function HoverCode(a: HoverAction): U32 {
    match a
    case ShowText => 0
    case ShowEntity => 1
    case ShowItem => 2
  }

  function HoverFromCode(code: U32): Option<HoverAction> {
    match code
    case 0 => Some(ShowText)
    case 1 => Some(ShowEntity)
    case 2 => Some(ShowItem)
    case _ => None
  }

  // ---- to tags ----

  function TextEntry(key: string, value: Option<string>): seq<Entry> {
    match value case Some(s) => [Entry(key, Str(s))] case None => []
  }

  /** Only true flags are written. */
  function FlagEntry(key: string, flag: bool): seq<Entry> {
    if flag then [Entry(key, Int8(1))] else []
  }

  function EventTag(code: U32, value: string): NbtTag {
    Compound([Entry("action", Int(code)), Entry("value", Str(value))])
  }

  function ColorEntry(color: Option<U32>): seq<Entry> {
    match color case Some(c) => [Entry("color", Int(c))] case None => []
  }

  function ClickEntry(e: Option<ClickEvent>): seq<Entry> {
    match e case Some(c) => [Entry("click_event", EventTag(ClickCode(c.action), c.value))] case None => []
  }

  function HoverEntry(e: Option<HoverEvent>): seq<Entry> {
    match e case Some(h) => [Entry("hover_event", EventTag(HoverCode(h.action), h.value))] case None => []
  }

  function StyleEntries(style: Style): seq<Entry> {
    ColorEntry(style.color)
    + (FlagEntry("italic", style.italic)
    + (FlagEntry("bold", style.bold)
    + (FlagEntry("underlined", style.underlined)
    + (FlagEntry("strikethrough", style.strikethrough)
    + (FlagEntry("obfuscated", style.obfuscated)
    + (TextEntry("insertion", style.insertion)
    + (ClickEntry(style.click)
    + HoverEntry(style.hover))))))))
  }

  function ToNbt(c: Component): NbtTag
    decreases c
  {
    match c
    case Empty => Compound([])
    case Text(text, style) => Compound([Entry("text", Str(text))] + StyleEntries(style))
    case Translatable(key, fallback, args) =>
      Compound([Entry("translate", Str(key))]
               + (TextEntry("fallback", fallback)
               + (if args == [] then [] else [Entry("with", List(ToNbtAll(args)))])))
    case Keybind(key) => Compound([Entry("keybind", Str(key))])
    case Scoreboard(name, objective) =>
      Compound([Entry("score", Compound([Entry("name", Str(name)), Entry("objective", Str(objective))]))])
    case Selector(pattern, separator) =>
      Compound([Entry("selector", Str(pattern))] + TextEntry("separator", separator))
    case NbtValue(path, interpret, separator) =>
      Compound([Entry("nbt", Compound([Entry("nbt_path", Str(path))]
                                      + (FlagEntry("interpret", interpret) + TextEntry("separator", separator))))])
    case Click(e) => Compound([Entry("click_event", EventTag(ClickCode(e.action), e.value))])
    case Hover(e) => Compound([Entry("hover_event", EventTag(HoverCode(e.action), e.value))])
  }

  function ToNbtAll(cs: seq<Component>): (r: seq<NbtTag>)
    ensures |r| == |cs|
    decreases cs
  {
    if cs == [] then [] else [ToNbt(cs[0])] + ToNbtAll(cs[1..])
  }

  // ---- from tags ----

  /** Tags inside a tag; text components nest as deep as their tags do. */
  function Size(tag: NbtTag): nat
    decreases tag
  {
    match tag
    case List(items) => 1 + SizeAll(items)
    case Compound(entries) => 1 + SizeEntries(entries)
    case _ => 1
  }

  function SizeAll(items: seq<NbtTag>): nat
    decreases items
  {
    if items == [] then 0 else 1 + Size(items[0]) + SizeAll(items[1..])
  }

  function SizeEntries(entries: seq<Entry>): nat
    decreases entries
  {
    if entries == [] then 0 else Size(entries[0].value) + SizeEntries(entries[1..])
  }

  /** The first entry under a key. */
  function Find(entries: seq<Entry>, key: string): (r: Option<NbtTag>)
    ensures r.Some? ==> Size(r.value) <= SizeEntries(entries)
  {
    if entries == [] then None
    else if entries[0].name == key then Some(entries[0].value)
    else Find(entries[1..], key)
  }

  function EntryStr(entries: seq<Entry>, key: string): Result<Option<string>, NbtError> {
    match Find(entries, key)
    case None => Ok(None)
    case Some(Str(s)) => Ok(Some(s))
    case Some(_) => Err(InvalidListType)
  }

  function EntryInt(entries: seq<Entry>, key: string): Result<Option<U32>, NbtError> {
    match Find(entries, key)
    case None => Ok(None)
    case Some(Int(i)) => Ok(Some(i))
    case Some(_) => Err(InvalidListType)
  }

  /** A byte read as a flag. */
  function EntryFlag(entries: seq<Entry>, key: string): Result<bool, NbtError> {
    match Find(entries, key)
    case None => Ok(false)
    case Some(Int8(b)) => Ok(b != 0)
    case Some(_) => Err(InvalidListType)
  }

  function EntryCompound(entries: seq<Entry>, key: string): Result<Option<seq<Entry>>, NbtError> {
    match Find(entries, key)
    case None => Ok(None)
    case Some(Compound(inner)) => Ok(Some(inner))
    case Some(_) => Err(InvalidListType)
  }

  function RequiredStr(entries: seq<Entry>, key: string): Result<string, NbtError> {
    match EntryStr(entries, key)
    case Ok(Some(s)) => Ok(s)
    case _ => Err(InvalidListType)
  }

  function ExtractClick(entries: seq<Entry>): Result<Option<ClickEvent>, NbtError> {
    match EntryCompound(entries, "click_event")
    case Err(e) => Err(e)
    case Ok(None) => Ok(None)
    case Ok(Some(inner)) =>
      match (EntryInt(inner, "action"), RequiredStr(inner, "value"))
      case (Ok(Some(code)), Ok(value)) =>
        (match ClickFromCode(code)
         case Some(action) => Ok(Some(ClickEvent(action, value)))
         case None => Err(InvalidListType))
      case _ => Err(InvalidListType)
  }

  function ExtractHover(entries: seq<Entry>): Result<Option<HoverEvent>, NbtError> {
    match EntryCompound(entries, "hover_event")
    case Err(e) => Err(e)
    case Ok(None) => Ok(None)
    case Ok(Some(inner)) =>
      match (EntryInt(inner, "action"), RequiredStr(inner, "value"))
      case (Ok(Some(code)), Ok(value)) =>
        (match HoverFromCode(code)
         case Some(action) => Ok(Some(HoverEvent(action, value)))
         case None => Err(InvalidListType))
      case _ => Err(InvalidListType)
  }

  function StyleOf(entries: seq<Entry>): Result<Style, NbtError> {
    match (EntryInt(entries, "color"), EntryFlag(entries, "bold"), EntryFlag(entries, "italic"))
    case (Ok(color), Ok(bold), Ok(italic)) =>
      (match (EntryFlag(entries, "underlined"), EntryFlag(entries, "strikethrough"), EntryFlag(entries, "obfuscated"))
       case (Ok(underlined), Ok(strikethrough), Ok(obfuscated)) =>
         (match (EntryStr(entries, "insertion"), ExtractClick(entries), ExtractHover(entries))
          case (Ok(insertion), Ok(click), Ok(hover)) =>
            Ok(Style(color, bold, italic, underlined, strikethrough, obfuscated, insertion, click, hover))
          case _ => Err(InvalidListType))
       case _ => Err(InvalidListType))
    case _ => Err(InvalidListType)
  }

  function FromNbt(tag: NbtTag): Result<Component, NbtError>
    decreases Size(tag)
  {
    if !tag.Compound? then Err(InvalidListType)
    else
      var entries := tag.entries;
      if Find(entries, "keybind").Some? then
        (match RequiredStr(entries, "keybind") case Ok(key) => Ok(Keybind(key)) case Err(e) => Err(e))
      else if Find(entries, "score").Some? then
        (match EntryCompound(entries, "score")
         case Ok(Some(inner)) =>
           (match (RequiredStr(inner, "name"), RequiredStr(inner, "objective"))
            case (Ok(name), Ok(objective)) => Ok(Scoreboard(name, objective))
            case _ => Err(InvalidListType))
         case _ => Err(InvalidListType))
      else if Find(entries, "selector").Some? then
        (match (RequiredStr(entries, "selector"), EntryStr(entries, "separator"))
         case (Ok(pattern), Ok(separator)) => Ok(Selector(pattern, separator))
         case _ => Err(InvalidListType))
      else if Find(entries, "nbt").Some? then
        (match EntryCompound(entries, "nbt")
         case Ok(Some(inner)) =>
           (match (RequiredStr(inner, "nbt_path"), EntryFlag(inner, "interpret"), EntryStr(inner, "separator"))
            case (Ok(path), Ok(interpret), Ok(separator)) => Ok(NbtValue(path, interpret, separator))
            case _ => Err(InvalidListType))
         case _ => Err(InvalidListType))
      else if Find(entries, "click_event").Some? && Find(entries, "text").None? then
        (match ExtractClick(entries)
         case Ok(Some(e)) => Ok(Click(e))
         case _ => Err(InvalidListType))
      else if Find(entries, "hover_event").Some? && Find(entries, "text").None? then
        (match ExtractHover(entries)
         case Ok(Some(e)) => Ok(Hover(e))
         case _ => Err(InvalidListType))
      else if Find(entries, "translate").Some? then
        (match (RequiredStr(entries, "translate"), EntryStr(entries, "fallback"))
         case (Ok(key), Ok(fallback)) =>
           (match Find(entries, "with")
            case None => Ok(Translatable(key, fallback, []))
            case Some(List(items)) =>
              (match FromNbtAll(items)
               case Ok(args) => Ok(Translatable(key, fallback, args))
               case Err(e) => Err(e))
            case Some(_) => Err(InvalidListType))
         case _ => Err(InvalidListType))
      else if Find(entries, "text").Some? then
        (match (RequiredStr(entries, "text"), StyleOf(entries))
         case (Ok(text), Ok(style)) => Ok(Text(text, style))
         case _ => Err(InvalidListType))
      else Ok(Empty)
  }

  function FromNbtAll(items: seq<NbtTag>): Result<seq<Component>, NbtError>
    decreases SizeAll(items)
  {
    if items == [] then Ok([])
    else
      match FromNbt(items[0])
      case Err(e) => Err(e)
      case Ok(c) =>
        match FromNbtAll(items[1..])
        case Err(e) => Err(e)
        case Ok(cs) => Ok([c] + cs)
  }

  // ---- round trip ----

  /** None of the entries is under the key. */
  predicate Lacks(entries: seq<Entry>, key: string) {
    forall i | 0 <= i < |entries| :: entries[i].name != key
  }

  lemma {:induction false} FindLacks(entries: seq<Entry>, key: string)
    requires Lacks(entries, key)
    ensures Find(entries, key) == None
  {
    if entries != [] {
      FindLacks(entries[1..], key);
    }
  }

  lemma {:induction false} FindAfter(front: seq<Entry>, rest: seq<Entry>, key: string)
    ensures Lacks(front, key) ==> Find(front + rest, key) == Find(rest, key)
  {
    if front == [] {
      assert front + rest == rest;
    } else if Lacks(front, key) {
      assert (front + rest)[1..] == front[1..] + rest;
      FindAfter(front[1..], rest, key);
    }
  }

  lemma FindFirst(e: Entry, rest: seq<Entry>)
    ensures Find([e] + rest, e.name) == Some(e.value)
    ensures forall key :: key != e.name ==> Find([e] + rest, key) == Find(rest, key)
  {
    assert ([e] + rest)[1..] == rest;
  }

  /** An optional entry at the front of a list. */
  function Front(key: string, value: Option<NbtTag>): seq<Entry> {
    match value case Some(tag) => [Entry(key, tag)] case None => []
  }

  lemma FindInFront(key: string, value: Option<NbtTag>, rest: seq<Entry>, other: string)
    ensures Find(Front(key, value) + rest, other) ==
            if other == key && value.Some? then value else Find(rest, other)
  {
    match value
    case Some(tag) => FindFirst(Entry(key, tag), rest);
    case None => assert Front(key, value) + rest == rest;
  }

  function FlagTag(flag: bool): Option<NbtTag> {
    if flag then Some(Int8(1)) else None
  }

  function TextTag(text: Option<string>): Option<NbtTag> {
    match text case Some(s) => Some(Str(s)) case None => None
  }

  function ColorTag(color: Option<U32>): Option<NbtTag> {
    match color case Some(c) => Some(Int(c)) case None => None
  }

  function ClickTag(e: Option<ClickEvent>): Option<NbtTag> {
    match e case Some(c) => Some(EventTag(ClickCode(c.action), c.value)) case None => None
  }

  function HoverTag(e: Option<HoverEvent>): Option<NbtTag> {
    match e case Some(h) => Some(EventTag(HoverCode(h.action), h.value)) case None => None
  }

  lemma FrontsOfStyle(style: Style)
    ensures ColorEntry(style.color) == Front("color", ColorTag(style.color))
    ensures forall key, flag :: FlagEntry(key, flag) == Front(key, FlagTag(flag))
    ensures forall key, text :: TextEntry(key, text) == Front(key, TextTag(text))
    ensures ClickEntry(style.click) == Front("click_event", ClickTag(style.click))
    ensures HoverEntry(style.hover) == Front("hover_event", HoverTag(style.hover))
  {
  }

  function LastEntries(style: Style): seq<Entry> {
    FlagEntry("obfuscated", style.obfuscated)
    + (TextEntry("insertion", style.insertion)
    + (ClickEntry(style.click)
    + HoverEntry(style.hover)))
  }

  lemma FindInLast(style: Style, key: string)
    ensures Find(LastEntries(style), key) ==
            if key == "obfuscated" && style.obfuscated then Some(Int8(1))
            else if key == "insertion" && style.insertion.Some? then TextTag(style.insertion)
            else if key == "click_event" && style.click.Some? then ClickTag(style.click)
            else if key == "hover_event" then HoverTag(style.hover)
            else None
  {
    hide Find, Front, EventTag;
    FrontsOfStyle(style);
    var h := HoverEntry(style.hover);
    var g := ClickEntry(style.click) + h;
    var f := TextEntry("insertion", style.insertion) + g;
    FindInFront("obfuscated", FlagTag(style.obfuscated), f, key);
    FindInFront("insertion", TextTag(style.insertion), g, key);
    FindInFront("click_event", ClickTag(style.click), h, key);
    FindInFront("hover_event", HoverTag(style.hover), [], key);
    assert h + [] == h;
    FindNothing(key);
  }

  lemma FindNothing(key: string)
    ensures Find([], key) == None
  {
  }

  /** What each key finds among the entries of a style. */
  lemma FindInStyle(style: Style, key: string)
    ensures Find(StyleEntries(style), key) ==
            if key == "color" && style.color.Some? then ColorTag(style.color)
            else if key == "italic" && style.italic then Some(Int8(1))
            else if key == "bold" && style.bold then Some(Int8(1))
            else if key == "underlined" && style.underlined then Some(Int8(1))
            else if key == "strikethrough" && style.strikethrough then Some(Int8(1))
            else Find(LastEntries(style), key)
  {
    hide Find, Front, LastEntries;
    FrontsOfStyle(style);
    var e := FlagEntry("obfuscated", style.obfuscated)
             + (TextEntry("insertion", style.insertion) + (ClickEntry(style.click) + HoverEntry(style.hover)));
    assert e == LastEntries(style) by {
      LastEntriesAre(style);
    }
    var d := FlagEntry("strikethrough", style.strikethrough) + e;
    var c := FlagEntry("underlined", style.underlined) + d;
    var b := FlagEntry("bold", style.bold) + c;
    var a := FlagEntry("italic", style.italic) + b;
    FindInFront("color", ColorTag(style.color), a, key);
    FindInFront("italic", FlagTag(style.italic), b, key);
    FindInFront("bold", FlagTag(style.bold), c, key);
    FindInFront("underlined", FlagTag(style.underlined), d, key);
    FindInFront("strikethrough", FlagTag(style.strikethrough), e, key);
  }

  lemma LastEntriesAre(style: Style)
    ensures LastEntries(style) == FlagEntry("obfuscated", style.obfuscated)
            + (TextEntry("insertion", style.insertion) + (ClickEntry(style.click) + HoverEntry(style.hover)))
  {
  }

  lemma EventRoundTrip(code: U32, value: string)
    ensures EventTag(code, value).Compound?
    ensures EntryInt(EventTag(code, value).entries, "action") == Ok(Some(code))
    ensures RequiredStr(EventTag(code, value).entries, "value") == Ok(value)
  {
    var entries := EventTag(code, value).entries;
    assert entries == [Entry("action", Int(code))] + [Entry("value", Str(value))];
    FindFirst(Entry("action", Int(code)), [Entry("value", Str(value))]);
    assert [Entry("value", Str(value))] == [Entry("value", Str(value))] + [];
    FindFirst(Entry("value", Str(value)), []);
  }

  lemma FindInText(text: string, style: Style, key: string)
    ensures var entries := [Entry("text", Str(text))] + StyleEntries(style);
            Find(entries, key) == if key == "text" then Some(Str(text)) else Find(StyleEntries(style), key)
  {
    hide StyleEntries;
    FindFirst(Entry("text", Str(text)), StyleEntries(style));
  }

  /** The parsers of a style see each field as it was written. */
  lemma StyleFields(text: string, style: Style)
    ensures var entries := [Entry("text", Str(text))] + StyleEntries(style);
            && EntryInt(entries, "color") == Ok(style.color)
            && EntryFlag(entries, "bold") == Ok(style.bold) && EntryFlag(entries, "italic") == Ok(style.italic)
            && EntryFlag(entries, "underlined") == Ok(style.underlined)
            && EntryFlag(entries, "strikethrough") == Ok(style.strikethrough)
  {
    hide Find, StyleEntries, LastEntries;
    FindInText(text, style, "color");
    FindInText(text, style, "italic");
    FindInText(text, style, "bold");
    FindInText(text, style, "underlined");
    FindInText(text, style, "strikethrough");
    FindInStyle(style, "color");
    FindInStyle(style, "italic");
    FindInStyle(style, "bold");
    FindInStyle(style, "underlined");
    FindInStyle(style, "strikethrough");
    FindInLast(style, "color");
    FindInLast(style, "italic");
    FindInLast(style, "bold");
    FindInLast(style, "underlined");
    FindInLast(style, "strikethrough");
  }

  lemma LastFields(text: string, style: Style)
    ensures var entries := [Entry("text", Str(text))] + StyleEntries(style);
            && EntryFlag(entries, "obfuscated") == Ok(style.obfuscated)
            && EntryStr(entries, "insertion") == Ok(style.insertion)
            && RequiredStr(entries, "text") == Ok(text)
  {
    hide Find, StyleEntries, LastEntries, EventTag;
    FindInText(text, style, "text");
    FindInText(text, style, "obfuscated");
    FindInText(text, style, "insertion");
    FindInStyle(style, "obfuscated");
    FindInStyle(style, "insertion");
    FindInLast(style, "obfuscated");
    FindInLast(style, "insertion");
  }

  lemma ClickField(text: string, style: Style)
    ensures ExtractClick([Entry("text", Str(text))] + StyleEntries(style)) == Ok(style.click)
  {
    hide Find, StyleEntries, LastEntries, EventTag;
    FindInText(text, style, "click_event");
    FindInStyle(style, "click_event");
    FindInLast(style, "click_event");
    if style.click.Some? {
      EventRoundTrip(ClickCode(style.click.value.action), style.click.value.value);
    }
  }

  lemma HoverField(text: string, style: Style)
    ensures ExtractHover([Entry("text", Str(text))] + StyleEntries(style)) == Ok(style.hover)
  {
    hide Find, StyleEntries, LastEntries, EventTag;
    FindInText(text, style, "hover_event");
    FindInStyle(style, "hover_event");
    FindInLast(style, "hover_event");
    if style.hover.Some? {
      EventRoundTrip(HoverCode(style.hover.value.action), style.hover.value.value);
    }
  }

  /** No key that would make the parser take the tag for another kind of component. */
  lemma NoOtherKind(text: string, style: Style)
    ensures var entries := [Entry("text", Str(text))] + StyleEntries(style);
            && Find(entries, "keybind").None? && Find(entries, "score").None? && Find(entries, "selector").None?
            && Find(entries, "nbt").None? && Find(entries, "translate").None? && Find(entries, "text").Some?
  {
    hide Find, StyleEntries, LastEntries, EventTag;
    FindInText(text, style, "text");
    OtherKind(text, style, "keybind");
    OtherKind(text, style, "score");
    OtherKind(text, style, "selector");
    OtherKind(text, style, "nbt");
    OtherKind(text, style, "translate");
  }

  lemma OtherKind(text: string, style: Style, key: string)
    requires key == "keybind" || key == "score" || key == "selector" || key == "nbt" || key == "translate"
    ensures Find([Entry("text", Str(text))] + StyleEntries(style), key) == None
  {
    hide Find, StyleEntries, LastEntries, EventTag;
    FindInText(text, style, key);
    FindInStyle(style, key);
    FindInLast(style, key);
  }

  lemma TextRoundTrip(text: string, style: Style)
    ensures FromNbt(ToNbt(Text(text, style))) == Ok(Text(text, style))
  {
    hide Find, StyleEntries, EventTag, EntryInt, EntryFlag, EntryStr, ExtractClick, ExtractHover, RequiredStr;
    StyleFields(text, style);
    LastFields(text, style);
    ClickField(text, style);
    HoverField(text, style);
    NoOtherKind(text, style);
  }

  lemma {:induction false} TranslatableRoundTrip(key: string, fallback: Option<string>, args: seq<Component>)
    ensures FromNbt(ToNbt(Translatable(key, fallback, args))) == Ok(Translatable(key, fallback, args))
    decreases args, 1
  {
    hide Find, Front, ToNbtAll, FromNbtAll;
    var with := if args == [] then [] else [Entry("with", List(ToNbtAll(args)))];
    var withTag := if args == [] then None else Some(List(ToNbtAll(args)));
    assert with == Front("with", withTag) by {
      FrontIs("with", withTag);
    }
    assert TextEntry("fallback", fallback) == Front("fallback", TextTag(fallback)) by {
      TextFront("fallback", fallback);
    }
    FindInTranslatable(key, fallback, withTag, "translate");
    FindInTranslatable(key, fallback, withTag, "fallback");
    FindInTranslatable(key, fallback, withTag, "with");
    FindInTranslatable(key, fallback, withTag, "keybind");
    FindInTranslatable(key, fallback, withTag, "score");
    FindInTranslatable(key, fallback, withTag, "selector");
    FindInTranslatable(key, fallback, withTag, "nbt");
    FindInTranslatable(key, fallback, withTag, "click_event");
    FindInTranslatable(key, fallback, withTag, "hover_event");
    AllRoundTrip(args);
  }

  lemma FrontIs(key: string, value: Option<NbtTag>)
    ensures Front(key, value) == if value.Some? then [Entry(key, value.value)] else []
  {
  }

  lemma TextFront(key: string, text: Option<string>)
    ensures TextEntry(key, text) == Front(key, TextTag(text))
  {
  }

  lemma FlagFront(key: string, flag: bool)
    ensures FlagEntry(key, flag) == Front(key, FlagTag(flag))
  {
  }

  lemma FindInTranslatable(key: string, fallback: Option<string>, with: Option<NbtTag>, k: string)
    ensures Find([Entry("translate", Str(key))] + (Front("fallback", TextTag(fallback)) + Front("with", with)), k) ==
            if k == "translate" then Some(Str(key))
            else if k == "fallback" && fallback.Some? then TextTag(fallback)
            else if k == "with" then with
            else None
  {
    hide Find, Front;
    var rest := Front("fallback", TextTag(fallback)) + Front("with", with);
    FindFirst(Entry("translate", Str(key)), rest);
    FindInFront("fallback", TextTag(fallback), Front("with", with), k);
    FindInFront("with", with, [], k);
    assert Front("with", with) + [] == Front("with", with);
    FindNothing(k);
  }

  lemma {:induction false} AllRoundTrip(cs: seq<Component>)
    ensures FromNbtAll(ToNbtAll(cs)) == Ok(cs)
    decreases cs, 0
  {
    hide FromNbt, ToNbt;
    if cs != [] {
      ComponentRoundTrip(cs[0]);
      AllRoundTrip(cs[1..]);
      assert ToNbtAll(cs)[1..] == ToNbtAll(cs[1..]);
      assert cs == [cs[0]] + cs[1..];
    }
  }

  lemma FindPair(a: Entry, b: Entry, key: string)
    ensures Find([a, b], key) == if key == a.name then Some(a.value) else if key == b.name then Some(b.value) else None
  {
    assert [a, b] == [a] + [b] && [b] == [b] + [];
    FindFirst(a, [b]);
    FindFirst(b, []);
  }

  lemma FindOne(a: Entry, key: string)
    ensures Find([a], key) == if key == a.name then Some(a.value) else None
  {
    assert [a] == [a] + [];
    FindFirst(a, []);
  }

  lemma ScoreboardRoundTrip(name: string, objective: string)
    ensures FromNbt(ToNbt(Scoreboard(name, objective))) == Ok(Scoreboard(name, objective))
  {
    hide Find;
    var a, b := Entry("name", Str(name)), Entry("objective", Str(objective));
    FindPair(a, b, "name");
    FindPair(a, b, "objective");
    FindOne(Entry("score", Compound([a, b])), "keybind");
    FindOne(Entry("score", Compound([a, b])), "score");
  }

  lemma SelectorRoundTrip(pattern: string, separator: Option<string>)
    ensures FromNbt(ToNbt(Selector(pattern, separator))) == Ok(Selector(pattern, separator))
  {
    hide Find, Front;
    var rest := TextEntry("separator", separator);
    TextFront("separator", separator);
    FindFirst(Entry("selector", Str(pattern)), rest);
    assert rest == rest + [];
    FindInFront("separator", TextTag(separator), [], "separator");
    FindInFront("separator", TextTag(separator), [], "keybind");
    FindInFront("separator", TextTag(separator), [], "score");
    FindNothing("separator");
    FindNothing("keybind");
    FindNothing("score");
  }

  lemma FindInNbtValue(path: string, interpret: bool, separator: Option<string>, key: string)
    ensures Find([Entry("nbt_path", Str(path))]
                 + (FlagEntry("interpret", interpret) + TextEntry("separator", separator)), key) ==
            if key == "nbt_path" then Some(Str(path))
            else if key == "interpret" && interpret then FlagTag(interpret)
            else if key == "separator" then TextTag(separator)
            else None
  {
    hide Find, Front;
    var last := TextEntry("separator", separator);
    TextFront("separator", separator);
    FlagFront("interpret", interpret);
    FindFirst(Entry("nbt_path", Str(path)), FlagEntry("interpret", interpret) + last);
    FindInFront("interpret", FlagTag(interpret), last, key);
    assert last == last + [];
    FindInFront("separator", TextTag(separator), [], key);
    FindNothing(key);
  }

  lemma NbtValueRoundTrip(path: string, interpret: bool, separator: Option<string>)
    ensures FromNbt(ToNbt(NbtValue(path, interpret, separator))) == Ok(NbtValue(path, interpret, separator))
  {
    hide Find, FlagEntry, TextEntry;
    var inner := [Entry("nbt_path", Str(path))]
                 + (FlagEntry("interpret", interpret) + TextEntry("separator", separator));
    FindInNbtValue(path, interpret, separator, "nbt_path");
    FindInNbtValue(path, interpret, separator, "interpret");
    FindInNbtValue(path, interpret, separator, "separator");
    FindOne(Entry("nbt", Compound(inner)), "keybind");
    FindOne(Entry("nbt", Compound(inner)), "score");
    FindOne(Entry("nbt", Compound(inner)), "selector");
    FindOne(Entry("nbt", Compound(inner)), "nbt");
  }

  lemma EventComponentRoundTrip(name: string, code: U32, value: string)
    requires name == "click_event" || name == "hover_event"
    ensures var entries := [Entry(name, EventTag(code, value))];
            && Find(entries, "keybind").None? && Find(entries, "score").None? && Find(entries, "selector").None?
            && Find(entries, "nbt").None? && Find(entries, "text").None?
            && (name == "hover_event" ==> Find(entries, "click_event").None?)
            && Find(entries, name) == Some(EventTag(code, value))
  {
    hide Find, EventTag;
    var e := Entry(name, EventTag(code, value));
    FindOne(e, "keybind");
    FindOne(e, "score");
    FindOne(e, "selector");
    FindOne(e, "nbt");
    FindOne(e, "text");
    FindOne(e, "click_event");
    FindOne(e, "hover_event");
  }

  /** Reading a component back from its tag gives the component, for every tree of components. */
  lemma {:induction false} ComponentRoundTrip(c: Component)
    ensures FromNbt(ToNbt(c)) == Ok(c)
    decreases c, 2
  {
    hide Find, EventTag;
    match c
    case Empty =>
      FindNothing("keybind");
      EmptyRoundTrip();
    case Text(text, style) => TextRoundTrip(text, style);
    case Translatable(key, fallback, args) => TranslatableRoundTrip(key, fallback, args);
    case Keybind(key) => FindOne(Entry("keybind", Str(key)), "keybind");
    case Scoreboard(name, objective) => ScoreboardRoundTrip(name, objective);
    case Selector(pattern, separator) => SelectorRoundTrip(pattern, separator);
    case NbtValue(path, interpret, separator) => NbtValueRoundTrip(path, interpret, separator);
    case Click(e) =>
      EventComponentRoundTrip("click_event", ClickCode(e.action), e.value);
      EventRoundTrip(ClickCode(e.action), e.value);
    case Hover(e) =>
      EventComponentRoundTrip("hover_event", HoverCode(e.action), e.value);
      EventRoundTrip(HoverCode(e.action), e.value);
  }

  lemma EmptyRoundTrip()
    ensures FromNbt(ToNbt(Empty)) == Ok(Empty)
  {
  }

  // ---- the tags of components can be written and read ----

  lemma {:induction false} EntriesHomogeneous(entries: seq<Entry>)
    requires forall i | 0 <= i < |entries| :: Homogeneous(entries[i].value)
    ensures HomogeneousEntries(entries)
  {
    if entries != [] {
      EntriesHomogeneous(entries[1..]);
    }
  }

  lemma EventHomogeneous(code: U32, value: string)
    ensures Homogeneous(EventTag(code, value))
  {
    EntriesHomogeneous(EventTag(code, value).entries);
  }

  lemma ConcatHomogeneous(a: seq<Entry>, b: seq<Entry>)
    requires forall i | 0 <= i < |a| :: Homogeneous(a[i].value)
    requires forall i | 0 <= i < |b| :: Homogeneous(b[i].value)
    ensures forall i | 0 <= i < |a + b| :: Homogeneous((a + b)[i].value)
  {
  }

  lemma StyleHomogeneous(style: Style)
    ensures forall i | 0 <= i < |StyleEntries(style)| :: Homogeneous(StyleEntries(style)[i].value)
  {
    if style.click.Some? {
      EventHomogeneous(ClickCode(style.click.value.action), style.click.value.value);
    }
    if style.hover.Some? {
      EventHomogeneous(HoverCode(style.hover.value.action), style.hover.value.value);
    }
    hide EventTag;
    var h := HoverEntry(style.hover);
    var g := ClickEntry(style.click) + h;
    var f := TextEntry("insertion", style.insertion) + g;
    var e := FlagEntry("obfuscated", style.obfuscated) + f;
    var d := FlagEntry("strikethrough", style.strikethrough) + e;
    var c := FlagEntry("underlined", style.underlined) + d;
    var b := FlagEntry("bold", style.bold) + c;
    ConcatHomogeneous(FlagEntry("obfuscated", style.obfuscated), f);
    ConcatHomogeneous(FlagEntry("strikethrough", style.strikethrough), e);
    ConcatHomogeneous(FlagEntry("underlined", style.underlined), d);
    ConcatHomogeneous(FlagEntry("bold", style.bold), c);
    ConcatHomogeneous(FlagEntry("italic", style.italic), b);
  }

  lemma {:induction false} ToNbtHomogeneous(c: Component)
    ensures ToNbt(c).Compound? && Homogeneous(ToNbt(c))
    decreases c, 2
  {
    hide EventTag, StyleEntries;
    match c {
      case Text(text, style) => StyleHomogeneous(style);
      case Translatable(key, fallback, args) =>
        AllHomogeneous(args);
      case Scoreboard(name, objective) =>
        EntriesHomogeneous([Entry("name", Str(name)), Entry("objective", Str(objective))]);
      case NbtValue(path, interpret, separator) =>
        EntriesHomogeneous([Entry("nbt_path", Str(path))]
                           + (FlagEntry("interpret", interpret) + TextEntry("separator", separator)));
      case Click(e) => EventHomogeneous(ClickCode(e.action), e.value);
      case Hover(e) => EventHomogeneous(HoverCode(e.action), e.value);
      case _ =>
    }
    EntriesHomogeneous(ToNbt(c).entries);
  }

  lemma {:induction false} AllHomogeneous(cs: seq<Component>)
    ensures HomogeneousItems(ToNbtAll(cs), 10)
    ensures cs != [] ==> TagId(ToNbtAll(cs)[0]) == 10
    decreases cs, 0
  {
    hide ToNbt;
    if cs != [] {
      ToNbtHomogeneous(cs[0]);
      AllHomogeneous(cs[1..]);
      assert ToNbtAll(cs)[1..] == ToNbtAll(cs[1..]);
    }
  }
}
