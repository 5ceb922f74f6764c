/** Field schemas in the Arrow C data interface (arrow/cdata/cdata_exports.go, cdata.go). */
module CSchemas {
  import opened Bits
  import opened Int32View
  import opened Wrappers
  import opened Text
  import opened CMetadata

  datatype TimeUnit = Second | Millisecond | Microsecond | Nanosecond

  /** Data types, but for extensions. Maps hold "key" and "value" fields without metadata; the key is never nullable. */
  datatype Type =
    | NullType | BooleanType
    | Int8Type | Uint8Type | Int16Type | Uint16Type | Int32Type | Uint32Type | Int64Type | Uint64Type
    | Float16Type | Float32Type | Float64Type
    | BinaryType | StringType
    | Date32Type | Date64Type
    | Time32Type(unit: TimeUnit) | Time64Type(unit: TimeUnit) | DurationType(unit: TimeUnit)
    | MonthIntervalType | DayTimeIntervalType | MonthDayNanoIntervalType
    | FixedSizeBinaryType(byteWidth: int)
    | Decimal128Type(precision: int, scale: int)
    | TimestampType(unit: TimeUnit, zone: string)
    | ListType(elem: Field)
    | FixedSizeListType(n: int, elem: Field)
    | StructType(fields: seq<Field>)
    | MapType(key: Type, item: Type, itemNullable: bool, keysSorted: bool)

  datatype Field = Field(name: string, dtype: Type, nullable: bool, metadata: Metadata)

  /** struct ArrowSchema: C strings end at their first NUL. */
  datatype CSchema = CSchema(format: string, name: string, metadata: seq<byte>, flags: bv8, children: seq<CSchema>)

  const NUL: char := '\0'

  const FLAG_NULLABLE: bv8 := 2
  const FLAG_MAP_KEYS_SORTED: bv8 := 4

  /** C.CString, and then C.GoString. */
  function CString(s: string): string {
    Before(s, NUL)
  }

  // ---------------------------------------------------------------- the shape of types

  function Children(t: Type): seq<Field> {
    match t
    case ListType(elem) => [elem]
    case FixedSizeListType(_, elem) => [elem]
    case StructType(fields) => fields
    case MapType(_, _, _, _) => [Entries(t)]
    case _ => []
  }

  /** MapType.ValueField */
  function Entries(t: Type): Field
    requires t.MapType?
  {
    Field("entries", StructType([KeyField(t), ItemField(t)]), false, NO_METADATA)
  }

  function KeyField(t: Type): Field
    requires t.MapType?
  {
    Field("key", t.key, false, NO_METADATA)
  }

  function ItemField(t: Type): Field
    requires t.MapType?
  {
    Field("value", t.item, t.itemNullable, NO_METADATA)
  }

  function Max(a: nat, b: nat): nat {
    if a < b then b else a
  }

  /** The nesting of a type, for recursion over it. */
  function Height(t: Type): nat
    decreases t
  {
    match t
    case ListType(elem) => 1 + Height(elem.dtype)
    case FixedSizeListType(_, elem) => 1 + Height(elem.dtype)
    case StructType(fields) => 1 + Heights(fields)
    case MapType(key, item, _, _) => 2 + Max(Height(key), Height(item))
    case _ => 0
  }

  function Heights(fields: seq<Field>): (h: nat)
    ensures forall i :: 0 <= i < |fields| ==> Height(fields[i].dtype) <= h
    decreases fields
  {
    if fields == [] then 0 else Max(Height(fields[0].dtype), Heights(fields[1..]))
  }

  lemma {:induction false} ChildrenLower(t: Type)
    ensures Children(t) != [] ==> Heights(Children(t)) < Height(t)
  {
    if t.MapType? {
      HeightsOne(ItemField(t));
      HeightsOne(Entries(t));
      assert [KeyField(t), ItemField(t)][1..] == [ItemField(t)];
    } else if t.ListType? || t.FixedSizeListType? {
      HeightsOne(t.elem);
    }
  }

  lemma {:induction false} HeightsOne(f: Field)
    ensures Heights([f]) == Height(f.dtype)
  {
    assert [f][1..] == [];
  }

  // ---------------------------------------------------------------- export

  function UnitLetter(u: TimeUnit): string {
    match u
    case Second => "s"
    case Millisecond => "m"
    case Microsecond => "u"
    case Nanosecond => "n"
  }

  /** exportFormat; fails, where the source panics, on units that a time type does not have. */
  function ExportFormat(t: Type): Result<string> {
    match t
    case NullType => Success("n")
    case BooleanType => Success("b")
    case Int8Type => Success("c")
    case Uint8Type => Success("C")
    case Int16Type => Success("s")
    case Uint16Type => Success("S")
    case Int32Type => Success("i")
    case Uint32Type => Success("I")
    case Int64Type => Success("l")
    case Uint64Type => Success("L")
    case Float16Type => Success("e")
    case Float32Type => Success("f")
    case Float64Type => Success("g")
    case FixedSizeBinaryType(w) => Success("w:" + Itoa(w))
    case Decimal128Type(p, s) => Success("d:" + Itoa(p) + "," + Itoa(s))
    case BinaryType => Success("z")
    case StringType => Success("u")
    case Date32Type => Success("tdD")
    case Date64Type => Success("tdm")
    case Time32Type(u) =>
      (match u
       case Second => Success("tts")
       case Millisecond => Success("ttm")
       case _ => Failure("invalid time unit for time32"))
    case Time64Type(u) =>
      (match u
       case Microsecond => Success("ttu")
       case Nanosecond => Success("ttn")
       case _ => Failure("invalid time unit for time64"))
    case TimestampType(u, zone) => Success("ts" + UnitLetter(u) + ":" + zone)
    case DurationType(u) => Success("tD" + UnitLetter(u))
    case MonthIntervalType => Success("tiM")
    case DayTimeIntervalType => Success("tiD")
    case MonthDayNanoIntervalType => Success("tin")
    case ListType(_) => Success("+l")
    case FixedSizeListType(n, _) => Success("+w:" + Itoa(n))
    case StructType(_) => Success("+s")
    case MapType(_, _, _, _) => Success("+m")
  }

  function Flags(nullable: bool, keysSorted: bool): bv8 {
    (if keysSorted then FLAG_MAP_KEYS_SORTED else 0) | (if nullable then FLAG_NULLABLE else 0)
  }

  predicate HasFlag(flags: bv8, flag: bv8) {
    flags & flag != 0
  }

  function KeysSorted(t: Type): bool {
    t.MapType? && t.keysSorted
  }

  /** exportField: the schema of a field, its children first to last. */
  function Exported(f: Field): Result<CSchema>
    decreases Height(f.dtype), 1, 0
  {
    ChildrenLower(f.dtype);
    var format := ExportFormat(f.dtype);
    if format.Failure? then Failure(format.error)
    else
      var children := if Children(f.dtype) == [] then Success([]) else ExportedAll(Children(f.dtype));
      if children.Failure? then Failure(children.error)
      else if |f.metadata.keys| != |f.metadata.values| then Failure("unequal metadata key/values length")
      else
        Success(CSchema(CString(format.value), CString(f.name), Encoded(f.metadata),
                        Flags(f.nullable, KeysSorted(f.dtype)), children.value))
  }

  function ExportedAll(fields: seq<Field>): (r: Result<seq<CSchema>>)
    ensures r.Success? ==> |r.value| == |fields|
    decreases Heights(fields), 2, |fields|
  {
    if fields == [] then Success([])
    else
      var first := Exported(fields[0]);
      if first.Failure? then Failure(first.error)
      else
        var rest := ExportedAll(fields[1..]);
        if rest.Failure? then rest else Success([first.value] + rest.value)
  }

  /** The recursive export, filling one child after the other. */
  method ExportField(f: Field) returns (r: Result<CSchema>)
    ensures r == Exported(f)
    decreases Height(f.dtype), 1
  {
    ChildrenLower(f.dtype);
    var format := ExportFormat(f.dtype);
    if format.Failure? {
      return Failure(format.error);
    }
    var flags := if KeysSorted(f.dtype) then FLAG_MAP_KEYS_SORTED else 0;
    if f.nullable {
      flags := flags | FLAG_NULLABLE;
    } else {
      NoFlag(flags);
    }
    var fields := Children(f.dtype);
    var children: seq<CSchema> := [];
    for i := 0 to |fields|
      invariant |children| == i && ExportedAll(fields[..i]) == Success(children)
    {
      var child := ExportField(fields[i]);
      ExportedNext(fields, i);
      if child.Failure? {
        return child;
      }
      children := children + [child.value];
    }
    assert fields[..|fields|] == fields;
    var metadata := EncodeCMetadata(f.metadata);
    if metadata.Failure? {
      return Failure("unequal metadata key/values length");
    }
    return Success(CSchema(CString(format.value), CString(f.name), metadata.value, flags, children));
  }

  lemma {:induction false} NoFlag(flags: bv8)
    ensures flags | 0 == flags
  {
  }

  lemma {:induction false} ExportedConcat(x: seq<Field>, y: seq<Field>)
    requires ExportedAll(x).Success?
    ensures ExportedAll(y).Failure? ==> ExportedAll(x + y) == ExportedAll(y)
    ensures ExportedAll(y).Success? ==> ExportedAll(x + y) == Success(ExportedAll(x).value + ExportedAll(y).value)
  {
    hide Exported;
    if x == [] {
      assert x + y == y;
      if ExportedAll(y).Success? {
        assert ExportedAll(x).value + ExportedAll(y).value == ExportedAll(y).value;
      }
    } else {
      assert (x + y)[1..] == x[1..] + y;
      ExportedConcat(x[1..], y);
      if ExportedAll(y).Success? {
        var first := [Exported(x[0]).value];
        assert first + (ExportedAll(x[1..]).value + ExportedAll(y).value)
            == (first + ExportedAll(x[1..]).value) + ExportedAll(y).value;
      }
    }
  }

  /** One more: the first failure is the failure of all. */
  lemma {:induction false} ExportedNext(all: seq<Field>, i: nat)
    requires i < |all| && ExportedAll(all[..i]).Success?
    ensures Exported(all[i]).Failure? ==> ExportedAll(all) == Failure(Exported(all[i]).error)
    ensures Exported(all[i]).Success? ==>
      ExportedAll(all[..i + 1]) == Success(ExportedAll(all[..i]).value + [Exported(all[i]).value])
  {
    hide Exported;
    var done, one, rest := all[..i], [all[i]], all[i..];
    assert done + rest == all && done + one == all[..i + 1] && one[1..] == [];
    ExportedConcat(done, rest);
    ExportedConcat(done, one);
    if Exported(all[i]).Success? {
      assert ExportedAll(one[1..]) == Success([]) && [Exported(all[i]).value] + [] == [Exported(all[i]).value];
    }
  }

  /** ARROW_FLAG_NULLABLE is 2 and ARROW_FLAG_MAP_KEYS_SORTED is 4; no other flag is set. */
  lemma {:induction false} FlagBits(nullable: bool, keysSorted: bool)
    ensures Flags(nullable, keysSorted) & 2 != 0 <==> nullable
    ensures Flags(nullable, keysSorted) & 4 != 0 <==> keysSorted
    ensures Flags(nullable, keysSorted) & 0xf9 == 0
  {
  }

  /** The part of s before its first character 0. */
  ghost predicate CutAtZero(s: string, cut: string) {
    cut <= s && '\0' !in cut && (cut == s || s[|cut|] == '\0')
  }

  lemma {:induction false} CStringCuts(s: string)
    ensures CutAtZero(s, CString(s))
  {
    if s != "" && s[0] != '\0' {
      CStringCuts(s[1..]);
    }
  }

  lemma {:induction false} ExportedChild(fields: seq<Field>, i: nat)
    requires ExportedAll(fields).Success? && i < |fields|
    ensures Exported(fields[i]) == Success(ExportedAll(fields).value[i])
  {
    hide Exported;
    if i > 0 {
      ExportedChild(fields[1..], i - 1);
    }
  }

  /**
   What an exported schema holds, and its children in turn: flag 2 for nullable
   fields, flag 4 for maps with sorted keys, no other flag; name and format up to
   the first character 0.
   */
  lemma {:induction false} ExportedParts(f: Field)
    requires Exported(f).Success?
    ensures var c := Exported(f).value;
      && (c.flags & 2 != 0 <==> f.nullable)
      && (c.flags & 4 != 0 <==> f.dtype.MapType? && f.dtype.keysSorted)
      && c.flags & 0xf9 == 0
      && CutAtZero(f.name, c.name)
      && ExportFormat(f.dtype).Success? && CutAtZero(ExportFormat(f.dtype).value, c.format)
      && |f.metadata.keys| == |f.metadata.values| && c.metadata == Encoded(f.metadata)
      && |c.children| == |Children(f.dtype)|
      && forall i :: 0 <= i < |c.children| ==> Exported(Children(f.dtype)[i]) == Success(c.children[i])
  {
    hide Encoded, ExportFormat, Flags, CString;
    var c := Exported(f).value;
    FlagBits(f.nullable, KeysSorted(f.dtype));
    CStringCuts(f.name);
    CStringCuts(ExportFormat(f.dtype).value);
    forall i | 0 <= i < |c.children|
      ensures Exported(Children(f.dtype)[i]) == Success(c.children[i])
    {
      ExportedChild(Children(f.dtype), i);
    }
  }

  /** A map is exported with one child "entries", which is never null and holds "key", never null, and "value". */
  lemma {:induction false} ExportedMap(f: Field)
    requires Exported(f).Success? && f.dtype.MapType?
    ensures var c := Exported(f).value;
      && c.format == "+m" && |c.children| == 1
      && var entries := c.children[0];
         && entries.name == "entries" && entries.format == "+s" && entries.flags & 2 == 0 && |entries.children| == 2
         && entries.children[0].name == "key" && entries.children[0].flags & 2 == 0
         && entries.children[1].name == "value" && (entries.children[1].flags & 2 != 0 <==> f.dtype.itemNullable)
  {
    hide Encoded, Flags, Exported, ExportFormat;
    var t := f.dtype;
    MapFormats(t);
    ExportedParts(f);
    var entries := Exported(f).value.children[0];
    assert Exported(Children(t)[0]) == Success(entries) && Children(t)[0] == Entries(t);
    ExportedParts(Entries(t));
    var key, value := entries.children[0], entries.children[1];
    assert Exported(Children(Entries(t).dtype)[0]) == Success(key) && Children(Entries(t).dtype)[0] == KeyField(t);
    assert Exported(Children(Entries(t).dtype)[1]) == Success(value) && Children(Entries(t).dtype)[1] == ItemField(t);
    ExportedParts(KeyField(t));
    ExportedParts(ItemField(t));
    Uncut("entries", entries.name);
    Uncut("key", key.name);
    Uncut("value", value.name);
    Uncut("+m", Exported(f).value.format);
    Uncut("+s", entries.format);
  }

  lemma {:induction false} MapFormats(t: Type)
    requires t.MapType?
    ensures ExportFormat(t) == Success("+m") && ExportFormat(Entries(t).dtype) == Success("+s")
  {
  }

  lemma {:induction false} Uncut(s: string, cut: string)
    requires CutAtZero(s, cut) && '\0' !in s
    ensures cut == s
  {
    assert forall i :: 0 <= i < |s| ==> s[i] in s;
  }

  // ---------------------------------------------------------------- import

  /** The entries of formatToSimpleType of one letter. */
  function LetterType(c: char): Option<Type> {
    match c
    case 'n' => Some(NullType)
    case 'b' => Some(BooleanType)
    case 'c' => Some(Int8Type)
    case 'C' => Some(Uint8Type)
    case 's' => Some(Int16Type)
    case 'S' => Some(Uint16Type)
    case 'i' => Some(Int32Type)
    case 'I' => Some(Uint32Type)
    case 'l' => Some(Int64Type)
    case 'L' => Some(Uint64Type)
    case 'e' => Some(Float16Type)
    case 'f' => Some(Float32Type)
    case 'g' => Some(Float64Type)
    case 'z' => Some(BinaryType)
    case 'u' => Some(StringType)
    case _ => None
  }

  /** The other entries, all of three letters that begin with t. */
  function TemporalType(kind: char, unit: char): Option<Type> {
    match (kind, unit)
    case ('d', 'D') => Some(Date32Type)
    case ('d', 'm') => Some(Date64Type)
    case ('t', 's') => Some(Time32Type(Second))
    case ('t', 'm') => Some(Time32Type(Millisecond))
    case ('t', 'u') => Some(Time64Type(Microsecond))
    case ('t', 'n') => Some(Time64Type(Nanosecond))
    case ('D', 's') => Some(DurationType(Second))
    case ('D', 'm') => Some(DurationType(Millisecond))
    case ('D', 'u') => Some(DurationType(Microsecond))
    case ('D', 'n') => Some(DurationType(Nanosecond))
    case ('i', 'M') => Some(MonthIntervalType)
    case ('i', 'D') => Some(DayTimeIntervalType)
    case ('i', 'n') => Some(MonthDayNanoIntervalType)
    case _ => None
  }

  /** formatToSimpleType */
  function SimpleType(f: string): Option<Type> {
    if |f| == 1 then LetterType(f[0])
    else if |f| == 3 && f[0] == 't' then TemporalType(f[1], f[2])
    else None
  }

  /** The cases on what stands before the first colon; None for none of them. Missing parts panic. */
  function ColonType(typs: seq<string>): Result<Option<Type>>
    requires |typs| > 0
  {
    var unit := if typs[0] == "tss" then Some(Second)
                else if typs[0] == "tsm" then Some(Millisecond)
                else if typs[0] == "tsu" then Some(Microsecond)
                else if typs[0] == "tsn" then Some(Nanosecond)
                else None;
    if unit.Some? then
      if |typs| < 2 then Failure("index out of range")
      else Success(Some(TimestampType(unit.value, if typs[1] == "" then "UTC" else typs[1])))
    else if typs[0] == "w" then
      if |typs| < 2 then Failure("index out of range")
      else if !Atoi(typs[1]).ok then Failure("invalid syntax")
      else Success(Some(FixedSizeBinaryType(Atoi(typs[1]).value)))
    else if typs[0] == "d" then
      if |typs| < 2 then Failure("index out of range")
      else
        var props := Split(typs[1], ',');
        if |props| == 3 then Failure("only decimal128 is supported")
        else if |props| < 2 then Failure("index out of range")
        else Success(Some(Decimal128Type(ToInt32(Atoi(props[0]).value), ToInt32(Atoi(props[1]).value))))
    else Success(None)
  }

  predicate DistinctNames(fields: seq<Field>) {
    forall i, j :: 0 <= i < j < |fields| ==> fields[i].name != fields[j].name
  }

  /** The types with children; dt is what the format gave before. */
  function NestedType(f: string, dt: Option<Type>, keysSorted: bool, kids: seq<Field>): Result<Option<Type>>
    requires |f| > 0
  {
    if f[0] != '+' then Success(dt)
    else if |f| < 2 then Failure("index out of range")
    else if f[1] == 'l' then
      if kids == [] then Failure("index out of range") else Success(Some(ListType(kids[0])))
    else if f[1] == 'w' then
      var typs := Split(f, ':');
      if |typs| < 2 then Failure("index out of range")
      else if !Atoi(typs[1]).ok then Failure("invalid syntax")
      else if kids == [] then Failure("index out of range")
      else if ToInt32(Atoi(typs[1]).value) <= 0 then Failure("arrow: invalid size")
      else Success(Some(FixedSizeListType(ToInt32(Atoi(typs[1]).value), kids[0])))
    else if f[1] == 's' then
      if DistinctNames(kids) then Success(Some(StructType(kids))) else Failure("arrow: duplicate field")
    else if f[1] == 'm' then
      if kids == [] then Failure("index out of range")
      else if !kids[0].dtype.StructType? then Failure("interface conversion")
      else if |kids[0].dtype.fields| < 2 then Failure("index out of range")
      else Success(Some(MapType(kids[0].dtype.fields[0].dtype, kids[0].dtype.fields[1].dtype, true, keysSorted)))
    else Success(dt)
  }

  function ImportedType(f: string, keysSorted: bool, kids: seq<Field>): Result<Type> {
    var simple := SimpleType(f);
    if simple.Some? then Success(simple.value)
    else
      var dt := ColonType(Split(f, ':'));
      if dt.Failure? then Failure(dt.error)
      else if f == "" then Failure("index out of range")
      else
        var nested := NestedType(f, dt.value, keysSorted, kids);
        if nested.Failure? then Failure(nested.error)
        else if nested.value.None? then Failure("unimplemented type")
        else Success(nested.value.value)
  }

  /** importSchema: the field of a schema; failures stand for its errors and its panics. */
  function Imported(c: CSchema): Result<Field>
    decreases c, 0
  {
    var kids := ImportedAll(c.children);
    if kids.Failure? then Failure(kids.error)
    else if Decoded(c.metadata).None? then Failure("slice bounds out of range")
    else
      var dt := ImportedType(c.format, HasFlag(c.flags, FLAG_MAP_KEYS_SORTED), kids.value);
      if dt.Failure? then Failure(dt.error)
      else Success(Field(c.name, dt.value, HasFlag(c.flags, FLAG_NULLABLE), Decoded(c.metadata).value.0))
  }

  function ImportedAll(cs: seq<CSchema>): (r: Result<seq<Field>>)
    ensures r.Success? ==> |r.value| == |cs|
    decreases cs
  {
    if cs == [] then Success([])
    else
      var first := Imported(cs[0]);
      if first.Failure? then Failure(first.error)
      else
        var rest := ImportedAll(cs[1..]);
        if rest.Failure? then rest else Success([first.value] + rest.value)
  }

  lemma {:induction false} ImportedConcat(x: seq<CSchema>, y: seq<CSchema>)
    requires ImportedAll(x).Success?
    ensures ImportedAll(y).Failure? ==> ImportedAll(x + y) == ImportedAll(y)
    ensures ImportedAll(y).Success? ==> ImportedAll(x + y) == Success(ImportedAll(x).value + ImportedAll(y).value)
  {
    hide Imported;
    if x == [] {
      assert x + y == y;
      if ImportedAll(y).Success? {
        assert ImportedAll(x).value + ImportedAll(y).value == ImportedAll(y).value;
      }
    } else {
      assert (x + y)[1..] == x[1..] + y;
      ImportedConcat(x[1..], y);
      if ImportedAll(y).Success? {
        var first := [Imported(x[0]).value];
        assert first + (ImportedAll(x[1..]).value + ImportedAll(y).value)
            == (first + ImportedAll(x[1..]).value) + ImportedAll(y).value;
      }
    }
  }

  /** One more: the first failure is the failure of all. */
  lemma {:induction false} ImportedNext(all: seq<CSchema>, i: nat)
    requires i < |all| && ImportedAll(all[..i]).Success?
    ensures Imported(all[i]).Failure? ==> ImportedAll(all) == Failure(Imported(all[i]).error)
    ensures Imported(all[i]).Success? ==>
      ImportedAll(all[..i + 1]) == Success(ImportedAll(all[..i]).value + [Imported(all[i]).value])
  {
    hide Imported;
    var done, one, rest := all[..i], [all[i]], all[i..];
    assert done + rest == all && done + one == all[..i + 1] && one[1..] == [];
    ImportedConcat(done, rest);
    ImportedConcat(done, one);
    if Imported(all[i]).Success? {
      assert ImportedAll(one[1..]) == Success([]) && [Imported(all[i]).value] + [] == [Imported(all[i]).value];
    }
  }

  /** The recursive import, children first. */
  method ImportSchema(c: CSchema) returns (r: Result<Field>)
    ensures r == Imported(c)
    decreases c
  {
    hide ImportedType, Decoded, HasFlag;
    var kids: seq<Field> := [];
    for i := 0 to |c.children|
      invariant |kids| == i && ImportedAll(c.children[..i]) == Success(kids)
    {
      var kid := ImportSchema(c.children[i]);
      ImportedNext(c.children, i);
      if kid.Failure? {
        return kid;
      }
      kids := kids + [kid.value];
    }
    assert c.children[..|c.children|] == c.children;
    var metadata := DecodeCMetadata(c.metadata);
    if metadata.Failure? {
      return Failure("slice bounds out of range");
    }
    var dt := ImportedType(c.format, HasFlag(c.flags, FLAG_MAP_KEYS_SORTED), kids);
    if dt.Failure? {
      return Failure(dt.error);
    }
    return Success(Field(c.name, dt.value, HasFlag(c.flags, FLAG_NULLABLE), metadata.value));
  }

  lemma {:induction false} ImportedChild(cs: seq<CSchema>, i: nat)
    requires ImportedAll(cs).Success? && i < |cs|
    ensures Imported(cs[i]) == Success(ImportedAll(cs).value[i])
  {
    hide Imported;
    if i > 0 {
      ImportedChild(cs[1..], i - 1);
    }
  }

  /**
   What any imported schema gives, whoever exported it: nullable for flag 2,
   sorted keys of a map for flag 4, other flags ignored, the name as it is, and
   the children, where the type has some, imported in turn.
   */
  lemma {:induction false} ImportedParts(c: CSchema)
    requires Imported(c).Success?
    ensures var f := Imported(c).value;
      && (f.nullable <==> c.flags & 2 != 0)
      && (f.dtype.MapType? ==> (f.dtype.keysSorted <==> c.flags & 4 != 0))
      && f.name == c.name
      && Decoded(c.metadata).Some? && f.metadata == Decoded(c.metadata).value.0
      && (f.dtype.ListType? || f.dtype.FixedSizeListType? ==>
            |c.children| > 0 && Imported(c.children[0]) == Success(f.dtype.elem))
      && (f.dtype.StructType? ==>
            && |f.dtype.fields| == |c.children|
            && (forall i :: 0 <= i < |c.children| ==> Imported(c.children[i]) == Success(f.dtype.fields[i]))
            && forall i, j :: 0 <= i < j < |c.children| ==> c.children[i].name != c.children[j].name)
  {
    hide ImportedType, Decoded;
    var kids := ImportedAll(c.children).value;
    NestedKids(c.format, c.flags & 4 != 0, kids);
    forall i | 0 <= i < |c.children|
      ensures Imported(c.children[i]) == Success(kids[i]) && kids[i].name == c.children[i].name
    {
      ImportedChild(c.children, i);
    }
  }

  lemma {:induction false} NestedKids(f: string, sorted: bool, kids: seq<Field>)
    requires ImportedType(f, sorted, kids).Success?
    ensures var t := ImportedType(f, sorted, kids).value;
      && (t.MapType? ==> t.keysSorted == sorted)
      && (t.ListType? || t.FixedSizeListType? ==> |kids| > 0 && t.elem == kids[0])
      && (t.StructType? ==>
            && t.fields == kids
            && forall i, j :: 0 <= i < j < |kids| ==> kids[i].name != kids[j].name)
  {
    hide Split, Atoi, ToInt32;
  }

  // ---------------------------------------------------------------- round trip

  /** Formats survive the C string and are read back; zones are cut at a NUL or a colon, and never empty. */
  function ReadBack(t: Type, kids: seq<Field>): Result<Type> {
    match t
    case TimestampType(u, zone) =>
      var z := Before(Before(zone, NUL), ':');
      Success(TimestampType(u, if z == "" then "UTC" else z))
    case ListType(_) => if kids == [] then Failure("index out of range") else Success(ListType(kids[0]))
    case FixedSizeListType(n, _) =>
      if kids == [] then Failure("index out of range") else Success(FixedSizeListType(n, kids[0]))
    case StructType(_) => if DistinctNames(kids) then Success(StructType(kids)) else Failure("arrow: duplicate field")
    case MapType(_, _, _, sorted) =>
      if kids == [] then Failure("index out of range")
      else if !kids[0].dtype.StructType? then Failure("interface conversion")
      else if |kids[0].dtype.fields| < 2 then Failure("index out of range")
      else Success(MapType(kids[0].dtype.fields[0].dtype, kids[0].dtype.fields[1].dtype, true, sorted))
    case _ => Success(t)
  }

  /** The numbers of a type are in the range of the Go types that hold them. */
  predicate InRanges(t: Type) {
    match t
    case FixedSizeBinaryType(w) => -0x8000_0000_0000_0000 <= w <= 0x7fff_ffff_ffff_ffff
    case Decimal128Type(p, s) => -0x8000_0000 <= p <= 0x7fff_ffff && -0x8000_0000 <= s <= 0x7fff_ffff
    case FixedSizeListType(n, _) => 0 < n <= 0x7fff_ffff
    case StructType(fields) => DistinctNames(fields)
    case _ => true
  }

  lemma {:induction false} NoNul(s: string)
    requires forall i :: 0 <= i < |s| ==> s[i] != NUL
    ensures CString(s) == s
  {
    BeforeAll(s, NUL);
  }

  lemma {:induction false} SimpleBack(t: Type, sorted: bool, kids: seq<Field>)
    requires Children(t) == [] && ExportFormat(t).Success?
    requires !t.FixedSizeBinaryType? && !t.Decimal128Type? && !t.TimestampType? && !t.StructType?
    ensures ImportedType(CString(ExportFormat(t).value), sorted, kids) == Success(t)
  {
    hide ColonType, NestedType, Split, CString;
    NoNul(ExportFormat(t).value);
  }

  /** What a format with a colon in it gives, before types with children are looked for. */
  lemma {:induction false} ColonBack(head: string, tail: string, sorted: bool, kids: seq<Field>)
    requires ':' !in head && 0 < |head| <= 3 && head[0] != '+'
    ensures var dt := ColonType([head] + Split(tail, ':'));
      dt.Success? && dt.value.Some? ==> ImportedType(head + [':'] + tail, sorted, kids) == Success(dt.value.value)
  {
    hide ColonType;
    var f := head + [':'] + tail;
    SplitAt(head, tail, ':');
    assert f[|head|] == ':' && f[0] == head[0];
  }

  /** Any text after "w:", whoever wrote it; what follows a second colon is ignored. */
  lemma {:induction false} BinaryRead(x: string, sorted: bool, kids: seq<Field>)
    ensures var n := Atoi(Before(x, ':'));
      ImportedType("w:" + x, sorted, kids)
        == if n.ok then Success(FixedSizeBinaryType(n.value)) else Failure("invalid syntax")
  {
    hide Atoi;
    var f := "w" + [':'] + x;
    assert "w:" + x == f && f[0] == 'w' && f[1] == ':';
    SplitAt("w", x, ':');
    SplitFirst(x, ':');
  }

  lemma {:induction false} BinaryBack(w: int, sorted: bool, kids: seq<Field>)
    requires IsInt64(w)
    ensures ImportedType(CString("w:" + Itoa(w)), sorted, kids) == Success(FixedSizeBinaryType(w))
  {
    hide Itoa, Atoi, ImportedType;
    AtoiItoa(w);
    NoNul("w:" + Itoa(w));
    BeforeAll(Itoa(w), ':');
    BinaryRead(Itoa(w), sorted, kids);
  }

  /**
   Any text after "d:", with commas in it. A third part, the width, is refused, but
   a fourth makes up for it; what is not a number counts as 0.
   */
  lemma {:induction false} DecimalRead(x: string, sorted: bool, kids: seq<Field>)
    ensures var parts := Split(Before(x, ':'), ',');
      ImportedType("d:" + x, sorted, kids)
        == if |parts| == 1 then Failure("index out of range")
           else if |parts| == 3 then Failure("only decimal128 is supported")
           else Success(Decimal128Type(ToInt32(Atoi(parts[0]).value), ToInt32(Atoi(parts[1]).value)))
  {
    hide Atoi, ToInt32;
    var f := "d" + [':'] + x;
    assert "d:" + x == f && f[0] == 'd' && f[1] == ':';
    SplitAt("d", x, ':');
    SplitFirst(x, ':');
  }

  lemma {:induction false} DecimalBack(p: int, s: int, sorted: bool, kids: seq<Field>)
    requires IsInt32(p) && IsInt32(s)
    ensures ImportedType(CString("d:" + Itoa(p) + "," + Itoa(s)), sorted, kids) == Success(Decimal128Type(p, s))
  {
    hide Itoa, Atoi, ImportedType;
    var x := Itoa(p) + [','] + Itoa(s);
    assert "d:" + x == "d:" + Itoa(p) + "," + Itoa(s);
    AtoiItoa(p);
    AtoiItoa(s);
    NoNul("d:" + x);
    BeforeAll(x, ':');
    SplitAt(Itoa(p), Itoa(s), ',');
    SplitWhole(Itoa(s), ',');
    DecimalRead(x, sorted, kids);
  }

  /** The formats of formatToSimpleType, and no others. */
  lemma {:induction false} SimpleFormats(f: string)
    ensures SimpleType(f).Some? <==> f in [
      "n", "b", "c", "C", "s", "S", "i", "I", "l", "L", "e", "f", "g", "z", "u",
      "tdD", "tdm", "tts", "ttm", "ttu", "ttn", "tDs", "tDm", "tDu", "tDn", "tiM", "tiD", "tin"]
  {
    if |f| == 1 {
      assert f == [f[0]];
    } else if |f| == 3 {
      assert f == [f[0], f[1], f[2]];
    }
  }

  /** What has no colon and no children: a simple type, a format that is cut short, or an unknown one. */
  lemma {:induction false} PlainRead(f: string, sorted: bool, kids: seq<Field>)
    requires ':' !in f && SimpleType(f).None? && !("+" <= f)
    ensures ImportedType(f, sorted, kids) == Failure(
      if f == "" || f == "tss" || f == "tsm" || f == "tsu" || f == "tsn" || f == "w" || f == "d"
      then "index out of range" else "unimplemented type")
  {
    hide SimpleType;
    SplitWhole(f, ':');
  }

  lemma {:induction false} TimestampBack(u: TimeUnit, zone: string, sorted: bool, kids: seq<Field>)
    ensures ImportedType(CString("ts" + UnitLetter(u) + ":" + zone), sorted, kids)
         == ReadBack(TimestampType(u, zone), kids)
  {
    hide ImportedType, Split, Before;
    var head := "ts" + UnitLetter(u);
    var z := Before(zone, NUL);
    assert "ts" + UnitLetter(u) + ":" + zone == (head + [':']) + zone;
    assert head == match u
                   case Second => "tss" case Millisecond => "tsm" case Microsecond => "tsu" case Nanosecond => "tsn";
    assert head[0] == 't' && ':' !in head && NUL !in head;
    BeforePrefix(head + [':'], zone, NUL);
    SplitFirst(z, ':');
    ColonBack(head, z, sorted, kids);
  }

  /** Any text after "+w:", whoever wrote it: the int32 of a number, and positive. */
  lemma {:induction false} FixedSizeListRead(x: string, sorted: bool, kids: seq<Field>)
    ensures var n := Atoi(Before(x, ':'));
      ImportedType("+w:" + x, sorted, kids)
        == if !n.ok then Failure("invalid syntax")
           else if kids == [] then Failure("index out of range")
           else if ToInt32(n.value) <= 0 then Failure("arrow: invalid size")
           else Success(FixedSizeListType(ToInt32(n.value), kids[0]))
  {
    hide Atoi, ToInt32;
    var f := "+w" + [':'] + x;
    assert "+w:" + x == f;
    SplitAt("+w", x, ':');
    SplitFirst(x, ':');
    assert f[0] == '+' && f[1] == 'w' && f[2] == ':';
  }

  lemma {:induction false} FixedSizeListBack(n: int, sorted: bool, kids: seq<Field>)
    requires 0 < n <= MAX_INT32
    ensures ImportedType(CString("+w:" + Itoa(n)), sorted, kids)
         == if kids == [] then Failure("index out of range") else Success(FixedSizeListType(n, kids[0]))
  {
    hide Itoa, Atoi, ImportedType;
    AtoiItoa(n);
    NoNul("+w:" + Itoa(n));
    BeforeAll(Itoa(n), ':');
    FixedSizeListRead(Itoa(n), sorted, kids);
  }

  lemma {:induction false} PlusBack(t: Type, kids: seq<Field>)
    requires t.ListType? || t.StructType? || t.MapType?
    ensures ImportedType(CString(ExportFormat(t).value), KeysSorted(t), kids) == ReadBack(t, kids)
  {
    hide Atoi, ToInt32;
    var f := ExportFormat(t).value;
    NoNul(f);
    SplitWhole(f, ':');
  }

  lemma {:induction false} FormatBack(t: Type, kids: seq<Field>)
    requires ExportFormat(t).Success? && InRanges(t)
    ensures ImportedType(CString(ExportFormat(t).value), KeysSorted(t), kids) == ReadBack(t, kids)
  {
    hide ImportedType, CString, Itoa;
    match t {
      case FixedSizeBinaryType(w) => BinaryBack(w, false, kids);
      case Decimal128Type(p, s) => DecimalBack(p, s, false, kids);
      case TimestampType(u, zone) => TimestampBack(u, zone, false, kids);
      case FixedSizeListType(n, _) => FixedSizeListBack(n, false, kids);
      case ListType(_) => PlusBack(t, kids);
      case StructType(_) => PlusBack(t, kids);
      case MapType(_, _, _, _) => PlusBack(t, kids);
      case _ => SimpleBack(t, false, kids);
    }
  }

  /** What a Go field can hold: lengths and numbers in range, structs with distinct names. */
  predicate Storable(f: Field)
    decreases Height(f.dtype), 0
  {
    ChildrenLower(f.dtype);
    && Fits(f.metadata) && InRanges(f.dtype)
    && forall i :: 0 <= i < |Children(f.dtype)| ==> Storable(Children(f.dtype)[i])
  }

  /** What the type itself loses on the way, its children aside. */
  predicate Kept(t: Type) {
    match t
    case Time32Type(u) => u == Second || u == Millisecond
    case Time64Type(u) => u == Microsecond || u == Nanosecond
    case TimestampType(_, zone) => zone != "" && ':' !in zone && '\0' !in zone
    case MapType(_, _, itemNullable, _) => itemNullable
    case _ => true
  }

  /**
   Nothing is lost, at any depth: names and zones without NUL, zones not empty and
   without colon, metadata within the importer's memory, nullable map items, and
   units that the time types have.
   */
  predicate Faithful(f: Field)
    decreases Height(f.dtype), 0
  {
    ChildrenLower(f.dtype);
    && '\0' !in f.name && Kept(f.dtype)
    && |f.metadata.keys| == |f.metadata.values| && |Encoded(f.metadata)| <= 0x7fff_ffff
    && forall i :: 0 <= i < |Children(f.dtype)| ==> Faithful(Children(f.dtype)[i])
  }

  predicate ComesBack(f: Field) {
    Exported(f).Success? && Imported(Exported(f).value) == Success(f)
  }

  predicate AllComeBack(fields: seq<Field>) {
    ExportedAll(fields).Success? && ImportedAll(ExportedAll(fields).value) == Success(fields)
  }

  lemma {:induction false} FlagsBack(nullable: bool, sorted: bool)
    ensures HasFlag(Flags(nullable, sorted), FLAG_NULLABLE) == nullable
    ensures HasFlag(Flags(nullable, sorted), FLAG_MAP_KEYS_SORTED) == sorted
  {
  }

  lemma {:induction false} AllStep(fields: seq<Field>)
    requires fields != []
    ensures AllComeBack(fields) <==> ComesBack(fields[0]) && AllComeBack(fields[1..])
  {
    hide Exported, Imported;
    var first, rest := Exported(fields[0]), ExportedAll(fields[1..]);
    if first.Success? && rest.Success? {
      var cs := [first.value] + rest.value;
      assert ExportedAll(fields) == Success(cs) && cs[0] == first.value && cs[1..] == rest.value;
      var kid, kids := Imported(first.value), ImportedAll(rest.value);
      if kid.Success? && kids.Success? {
        var all := [kid.value] + kids.value;
        assert ImportedAll(cs) == Success(all) && all[0] == kid.value && all[1..] == kids.value;
        assert fields == [fields[0]] + fields[1..];
      }
    }
  }

  lemma {:induction false} AllOrNone(fields: seq<Field>)
    ensures AllComeBack(fields) <==> forall i :: 0 <= i < |fields| ==> ComesBack(fields[i])
  {
    hide ComesBack;
    if fields != [] {
      AllStep(fields);
      AllOrNone(fields[1..]);
      assert forall i :: 0 < i < |fields| ==> fields[i] == fields[1..][i - 1];
    }
  }

  /** Everything but the type comes back, or the import fails. */
  lemma {:induction false} ImportedShape(f: Field)
    requires Exported(f).Success? && Fits(f.metadata) && InRanges(f.dtype)
    ensures var c := Exported(f).value; var kids := ImportedAll(c.children);
      Imported(c).Success? <==>
        kids.Success? && |Encoded(f.metadata)| <= 0x7fff_ffff && ReadBack(f.dtype, kids.value).Success?
    ensures var c := Exported(f).value;
      Imported(c).Success? ==>
        Imported(c).value ==
          Field(CString(f.name), ReadBack(f.dtype, ImportedAll(c.children).value).value, f.nullable, f.metadata)
  {
    hide ImportedType, CString, ExportFormat, ReadBack, Encoded, Decoded, HasFlag, Flags;
    var c := Exported(f).value;
    FlagsBack(f.nullable, KeysSorted(f.dtype));
    DecodeEncode(f.metadata, []);
    assert Encoded(f.metadata) + [] == Encoded(f.metadata);
    if ImportedAll(c.children).Success? {
      FormatBack(f.dtype, ImportedAll(c.children).value);
    }
  }

  lemma {:induction false} ZoneBack(zone: string)
    ensures var z := Before(Before(zone, NUL), ':');
      (if z == "" then "UTC" else z) == zone <==> zone != "" && ':' !in zone && NUL !in zone
  {
    var b := Before(zone, NUL);
    var z := Before(b, ':');
    BeforeAll(zone, NUL);
    BeforeAll(b, ':');
    if z == zone {
      assert z <= b <= zone;
      assert b == zone;
    }
    if zone == "UTC" {
      assert NUL !in zone && ':' !in zone;
    }
  }

  /** A type other than a map comes back exactly when it keeps what is its own and its children come back. */
  lemma {:induction false} TypeBack(t: Type, kids: seq<Field>)
    requires !t.MapType? && InRanges(t) && ExportFormat(t).Success? && |kids| == |Children(t)|
    ensures ReadBack(t, kids) == Success(t) <==> Kept(t) && kids == Children(t)
  {
    hide Before, Itoa;
    if t.TimestampType? {
      ZoneBack(t.zone);
    } else if t.ListType? || t.FixedSizeListType? {
      assert kids == [kids[0]];
    }
  }

  /** If a map comes back, so do its keys and its items. */
  lemma {:induction false} MapBack(t: Type, cs: seq<CSchema>, kids: seq<Field>)
    requires t.MapType? && ExportedAll([Entries(t)]) == Success(cs) && ImportedAll(cs) == Success(kids)
    requires ReadBack(t, kids) == Success(t) && InRanges(t.key) && InRanges(t.item)
    ensures t.itemNullable && ComesBack(KeyField(t)) && ComesBack(ItemField(t))
  {
    hide Exported, Imported, CString;
    var e, k, v := Entries(t), KeyField(t), ItemField(t);
    NamesKept();
    EncodedNothing();
    OneBack(e, cs, kids);
    ImportedShape(e);
    ExportedChildren(e);
    TwoBack(k, v, Exported(e).value.children, kids[0].dtype.fields);
    ImportedShape(k);
    ImportedShape(v);
  }

  lemma {:induction false} NamesKept()
    ensures CString("entries") == "entries" && CString("key") == "key" && CString("value") == "value"
  {
    hide CString;
    NoNul("entries");
    NoNul("key");
    NoNul("value");
  }

  lemma {:induction false} EncodedNothing()
    ensures Fits(NO_METADATA) && |Encoded(NO_METADATA)| <= 0x7fff_ffff
  {
  }

  lemma {:induction false} ExportedChildren(f: Field)
    requires Exported(f).Success?
    ensures ExportedAll(Children(f.dtype)) == Success(Exported(f).value.children)
  {
    hide ExportFormat, Encoded, CString;
  }

  lemma {:induction false} OneBack(f: Field, cs: seq<CSchema>, kids: seq<Field>)
    requires ExportedAll([f]) == Success(cs) && ImportedAll(cs) == Success(kids)
    ensures Exported(f).Success? && Imported(Exported(f).value).Success? && kids == [Imported(Exported(f).value).value]
  {
    hide Exported, Imported;
    assert [f][1..] == [];
    assert cs == [Exported(f).value] + [];
    assert cs[1..] == [];
    assert kids == [Imported(cs[0]).value] + [];
  }

  lemma {:induction false} TwoBack(f: Field, g: Field, cs: seq<CSchema>, kids: seq<Field>)
    requires ExportedAll([f, g]) == Success(cs) && ImportedAll(cs) == Success(kids)
    ensures Exported(f).Success? && Imported(Exported(f).value).Success? && Exported(g).Success?
      && Imported(Exported(g).value).Success?
    ensures kids == [Imported(Exported(f).value).value, Imported(Exported(g).value).value]
  {
    hide Exported, Imported;
    assert [f, g][1..] == [g];
    var rest := ExportedAll([g]).value;
    assert cs == [Exported(f).value] + rest && cs[1..] == rest;
    OneBack(g, rest, ImportedAll(rest).value);
  }

  lemma {:induction false} UnitsKept(t: Type)
    requires Kept(t)
    ensures ExportFormat(t).Success?
  {
    hide Itoa;
  }

  lemma {:induction false} ExportedNeeds(f: Field)
    requires |f.metadata.keys| == |f.metadata.values|
    ensures Exported(f).Success? <==> ExportFormat(f.dtype).Success? && ExportedAll(Children(f.dtype)).Success?
  {
    hide ExportFormat, Encoded, CString;
  }

  lemma {:induction false} BothComeBack(f: Field, g: Field)
    ensures AllComeBack([f, g]) <==> ComesBack(f) && ComesBack(g)
    ensures AllComeBack([f]) <==> ComesBack(f)
  {
    hide ComesBack, AllComeBack;
    AllOrNone([f, g]);
    AllOrNone([f]);
    assert [f, g][0] == f && [f, g][1] == g && [f][0] == f;
  }

  lemma {:induction false} EntriesNames(t: Type)
    requires t.MapType?
    ensures InRanges(Entries(t).dtype) && NUL !in Entries(t).name && Kept(Entries(t).dtype)
    ensures Children(Entries(t).dtype) == [KeyField(t), ItemField(t)]
  {
    assert KeyField(t).name != ItemField(t).name by {
      assert |"key"| != |"value"|;
    }
  }

  /** A map type comes back exactly when its entries do and its items are nullable. */
  lemma {:induction false} MapTypeBack(t: Type, cs: seq<CSchema>, kids: seq<Field>)
    requires t.MapType? && ExportedAll([Entries(t)]) == Success(cs) && ImportedAll(cs) == Success(kids)
    requires InRanges(t.key) && InRanges(t.item)
    requires ComesBack(Entries(t)) <==> ComesBack(KeyField(t)) && ComesBack(ItemField(t))
    ensures ReadBack(t, kids) == Success(t) <==> Kept(t) && AllComeBack([Entries(t)])
  {
    hide Exported, Imported;
    BothComeBack(Entries(t), Entries(t));
    if ReadBack(t, kids) == Success(t) {
      MapBack(t, cs, kids);
    }
  }

  /** A field comes back exactly when its own parts and its children do. */
  lemma {:induction false} FieldBack(f: Field)
    requires Fits(f.metadata) && InRanges(f.dtype)
    requires f.dtype.MapType? ==> InRanges(f.dtype.key) && InRanges(f.dtype.item)
    ensures ComesBack(f) <==>
      NUL !in f.name && |Encoded(f.metadata)| <= 0x7fff_ffff && Kept(f.dtype) && AllComeBack(Children(f.dtype))
    decreases Height(f.dtype)
  {
    hide Exported, Imported, Encoded, ReadBack, ExportFormat, Kept;
    var t := f.dtype;
    ChildrenLower(t);
    ExportedNeeds(f);
    if Kept(t) {
      UnitsKept(t);
    }
    if Exported(f).Success? {
      var cs := Exported(f).value.children;
      ExportedChildren(f);
      ImportedShape(f);
      BeforeAll(f.name, NUL);
      if ImportedAll(cs).Success? {
        if t.MapType? {
          EntriesNames(t);
          EncodedNothing();
          FieldBack(Entries(t));
          BothComeBack(KeyField(t), ItemField(t));
          MapTypeBack(t, cs, ImportedAll(cs).value);
        } else {
          TypeBack(t, ImportedAll(cs).value);
        }
      }
    }
  }

  /** What a map's entries hold is storable, too. */
  lemma {:induction false} MapParts(f: Field)
    requires f.dtype.MapType? && Storable(f)
    ensures Storable(KeyField(f.dtype)) && Storable(ItemField(f.dtype))
  {
    var t := f.dtype;
    assert Children(t)[0] == Entries(t);
    assert Storable(Entries(t));
    assert Children(Entries(t).dtype)[0] == KeyField(t) && Children(Entries(t).dtype)[1] == ItemField(t);
  }

  /** Exporting and importing gives back the same field exactly when nothing is lost at any depth. */
  lemma {:induction false} RoundTrip(f: Field)
    requires Storable(f)
    ensures ComesBack(f) <==> Faithful(f)
    decreases Height(f.dtype)
  {
    hide Encoded, Kept, ComesBack, AllComeBack;
    var t, kids := f.dtype, Children(f.dtype);
    ChildrenLower(t);
    forall i | 0 <= i < |kids|
      ensures ComesBack(kids[i]) <==> Faithful(kids[i])
    {
      RoundTrip(kids[i]);
    }
    AllOrNone(kids);
    if t.MapType? {
      MapParts(f);
    }
    FieldBack(f);
  }

  /** A timestamp field whose zone is the given text. */
  function Stamp(zone: string): Field {
    Field("at", TimestampType(Second, zone), true, NO_METADATA)
  }

  lemma {:induction false} LeafStorable(f: Field)
    requires f.metadata == NO_METADATA && Children(f.dtype) == [] && InRanges(f.dtype)
    ensures Storable(f)
  {
    hide Encoded;
    EncodedNothing();
  }

  lemma {:induction false} StampStorable(zone: string)
    ensures Storable(Stamp(zone)) && Exported(Stamp(zone)).Success?
    ensures Exported(Stamp(zone)).value.children == []
  {
    hide Encoded, Storable;
    LeafStorable(Stamp(zone));
    ExportedNeeds(Stamp(zone));
  }

  /** A zone that gets lost: a timestamp without one comes back in UTC. */
  lemma {:induction false} EmptyZoneLost()
    ensures Storable(Stamp("")) && Exported(Stamp("")).Success?
    ensures Imported(Exported(Stamp("")).value) == Success(Stamp("UTC"))
  {
    hide Encoded, Exported, Imported;
    StampStorable("");
    EncodedNothing();
    ImportedShape(Stamp(""));
    BeforeAll("at", NUL);
    assert ReadBack(TimestampType(Second, ""), []) == Success(TimestampType(Second, "UTC"));
  }

  /** A map whose items are never null. */
  function Pairs(): Field {
    Field("m", MapType(Int8Type, Int8Type, false, false), true, NO_METADATA)
  }

  lemma {:induction false} PairsStorable()
    ensures Storable(Pairs())
  {
    hide Encoded;
    var t := Pairs().dtype;
    EncodedNothing();
    LeafStorable(KeyField(t));
    LeafStorable(ItemField(t));
    EntriesStorable(t);
  }

  lemma {:induction false} EntriesStorable(t: Type)
    requires t.MapType? && Storable(KeyField(t)) && Storable(ItemField(t))
    ensures Storable(Entries(t))
  {
    hide Encoded;
    EncodedNothing();
    var kids := Children(Entries(t).dtype);
    assert kids == [KeyField(t), ItemField(t)];
  }

  /** A promise that gets lost: a map whose items are never null does not come back. */
  lemma {:induction false} NonNullableItemsLost()
    ensures Storable(Pairs()) && !ComesBack(Pairs())
  {
    hide Encoded, ComesBack, Storable;
    PairsStorable();
    RoundTrip(Pairs());
  }
}
