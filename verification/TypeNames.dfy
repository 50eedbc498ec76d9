/** Exchange type names: Arrow types are written as names and read back. */
module TypeNames {
  import opened Text

  datatype Unit = Second | Millisecond | Microsecond | Nanosecond

  datatype Type =
    | Null | Boolean
    | Int8 | Int16 | Int32 | Int64 | UInt8 | UInt16 | UInt32 | UInt64
    | Float32 | Float64
    | Utf8 | LargeUtf8 | Utf8View
    | Binary | LargeBinary
    | Date32 | Date64
    | Time32(unit: Unit) | Time64(unit: Unit)
    | Timestamp(unit: Unit, zone: Option<string>)
    | Duration(unit: Unit)
    | MonthDayNano
    | Decimal128(precision: int, scale: int)
    | List(item: Field) | LargeList(item: Field) | FixedSizeList(item: Field, size: int)
    | Struct(fields: seq<Field>)
    | OtherType(id: int)

  datatype Field = Field(name: string, ty: Type, nullable: bool)

  type Pairs = seq<(string, string)>

  /** A writer and reader of JSON arrays of string pairs. */
  datatype Codec = Codec(write: Pairs -> string, read: string -> Option<Pairs>)

  /** Strings in a JSON text are shorter than the text. */
  ghost predicate Shrinks(J: Codec) {
    forall s: string, i: nat :: J.read(s).Some? && i < |J.read(s).value| ==> |J.read(s).value[i].1| < |s|
  }

  ghost predicate Inverts(J: Codec) {
    forall ps: Pairs :: J.read(J.write(ps)) == Some(ps)
  }

  // ---------------------------------------------------------------- domains

  const DOMAIN_PREFIX := "__orchiddb_domain_"

  predicate IsDomain(t: Type) {
    t.Struct? && |t.fields| == 1 && DOMAIN_PREFIX <= t.fields[0].name
  }

  function DomainName(t: Type): string
    requires IsDomain(t)
  {
    t.fields[0].name[|DOMAIN_PREFIX|..]
  }

  function DomainType(name: string, storage: Type): Type {
    Struct([Field(DOMAIN_PREFIX + name, storage, true)])
  }

  predicate IsJson(t: Type) {
    IsDomain(t) && DomainName(t) == "json" && t.fields[0].ty == Utf8
  }

  // ---------------------------------------------------------------- writing

  function UnitSuffix(u: Unit): string {
    match u
    case Second => "_s"
    case Millisecond => "_ms"
    case Microsecond => ""
    case Nanosecond => "_ns"
  }

  function SimpleName(t: Type): Option<string> {
    match t
    case Null => Some("null")
    case Boolean => Some("boolean")
    case Int8 => Some("int8")
    case Int16 => Some("int16")
    case Int32 => Some("int32")
    case Int64 => Some("int64")
    case UInt8 => Some("uint8")
    case UInt16 => Some("uint16")
    case UInt32 => Some("uint32")
    case UInt64 => Some("uint64")
    case Float32 => Some("float32")
    case Float64 => Some("float64")
    case Utf8 | LargeUtf8 | Utf8View => Some("string")
    case Binary | LargeBinary => Some("binary")
    case Date32 | Date64 => Some("date")
    case Time32(Second) => Some("time_s")
    case Time32(Millisecond) => Some("time_ms")
    case Time64(Microsecond) => Some("time")
    case Time64(Nanosecond) => Some("time_ns")
    case Timestamp(unit, None) => Some("timestamp" + UnitSuffix(unit))
    case Timestamp(unit, Some(zone)) => if zone == "UTC" then Some("timestamptz" + UnitSuffix(unit)) else None
    case _ => None
  }

  predicate IsList(t: Type) {
    t.List? || t.LargeList? || t.FixedSizeList?
  }

  function TypeName(t: Type, J: Codec): Option<string> {
    if IsJson(t) then Some("json")
    else if IsDomain(t) then
      var storage := TypeName(t.fields[0].ty, J);
      if storage.Some? then Some("domain:" + DomainName(t) + ":" + storage.value) else None
    else if IsList(t) then ListName(TypeName(t.item.ty, J))
    else
      match t
      case Decimal128(p, s) => Some("decimal:" + Signed(p) + ":" + Signed(s))
      case Struct(fields) =>
        var pairs := FieldNames(fields, J);
        if pairs.Some? then Some("struct_fields:" + J.write(pairs.value)) else None
      case _ => SimpleName(t)
  }

  function ListName(item: Option<string>): Option<string> {
    if item.Some? then Some("list:" + item.value) else None
  }

  function FieldNames(fields: seq<Field>, J: Codec): Option<Pairs> {
    if fields == [] then Some([])
    else
      var head := TypeName(fields[0].ty, J);
      var tail := FieldNames(fields[1..], J);
      if head.Some? && tail.Some? then Some([(fields[0].name, head.value)] + tail.value) else None
  }

  // ---------------------------------------------------------------- reading

  function SimpleType(s: string): Option<Type> {
    match s
    case "json" => Some(DomainType("json", Utf8))
    case "null" => Some(Null)
    case "boolean" => Some(Boolean)
    case "int8" => Some(Int8)
    case "int16" => Some(Int16)
    case "int32" => Some(Int32)
    case "int64" => Some(Int64)
    case "uint8" => Some(UInt8)
    case "uint16" => Some(UInt16)
    case "uint32" => Some(UInt32)
    case "uint64" => Some(UInt64)
    case "float32" => Some(Float32)
    case "float64" => Some(Float64)
    case "string" => Some(Utf8)
    case "binary" => Some(Binary)
    case "date" => Some(Date32)
    case "time" => Some(Time64(Microsecond))
    case "time_s" => Some(Time32(Second))
    case "time_ms" => Some(Time32(Millisecond))
    case "time_ns" => Some(Time64(Nanosecond))
    case "duration" => Some(Duration(Microsecond))
    case "interval" => Some(MonthDayNano)
    case "timestamp" => Some(Timestamp(Microsecond, None))
    case "timestamptz" => Some(Timestamp(Microsecond, Some("UTC")))
    case "timestamp_s" => Some(Timestamp(Second, None))
    case "timestamp_ms" => Some(Timestamp(Millisecond, None))
    case "timestamp_ns" => Some(Timestamp(Nanosecond, None))
    case "timestamptz_s" => Some(Timestamp(Second, Some("UTC")))
    case "timestamptz_ms" => Some(Timestamp(Millisecond, Some("UTC")))
    case "timestamptz_ns" => Some(Timestamp(Nanosecond, Some("UTC")))
    case _ => None
  }

  /** The text before and after the first colon. */
  function SplitOnce(s: string): (r: Option<(string, string)>)
    ensures r.Some? ==> s == r.value.0 + ":" + r.value.1 && ':' !in r.value.0
    ensures r.None? ==> ':' !in s
  {
    if s == "" then None
    else if s[0] == ':' then Some(("", s[1..]))
    else
      var rest := SplitOnce(s[1..]);
      if rest.Some? then Some(([s[0]] + rest.value.0, rest.value.1)) else None
  }

  predicate WordChar(c: char) {
    'a' <= c <= 'z' || 'A' <= c <= 'Z' || '0' <= c <= '9' || c == '_'
  }

  predicate DomainWord(name: string) {
    name != "" && (forall i :: 0 <= i < |name| ==> WordChar(name[i])) && name != "json"
  }

  function DecimalType(rest: string): Option<Type> {
    match SplitOnce(rest)
    case None => None
    case Some((left, right)) =>
      if ':' in right then None
      else
        var p := ParseSigned(left, false);
        var s := ParseSigned(right, true);
        if p.Some? && s.Some? && 0 < p.value <= 38 && 0 <= s.value <= p.value
        then Some(Decimal128(p.value, s.value))
        else None
  }

  predicate DistinctNames(ps: Pairs) {
    && (forall i :: 0 <= i < |ps| ==> ps[i].0 != "")
    && (forall i, j :: 0 <= i < j < |ps| ==> ps[i].0 != ps[j].0)
  }

  /** Reads a type name; `sorted` reads the older struct form, whose fields come sorted by name. */
  function TypeOf(s: string, J: Codec, sorted: string -> Option<Pairs>): Option<Type>
    requires Shrinks(J) && Shrinks(Codec(J.write, sorted))
    decreases |s|, 0
  {
    if "domain:" <= s then
      match SplitOnce(s[7..])
      case None => None
      case Some((name, storage)) =>
        DomainOf(name, TypeOf(storage, J, sorted))
    else if "list:" <= s then
      var t := TypeOf(s[5..], J, sorted);
      if t.Some? then Some(List(Field("item", t.value, true))) else None
    else if "struct_fields:" <= s then
      var ps := J.read(s[14..]);
      if ps.None? || ps.value == [] || !DistinctNames(ps.value) then None
      else StructOf(FieldsOf(ps.value, |s| - 1, J, sorted))
    else if "struct:" <= s then
      var ps := Codec(J.write, sorted).read(s[7..]);
      if ps.None? || ps.value == [] || !DistinctNames(ps.value) then None
      else StructOf(FieldsOf(ps.value, |s| - 1, J, sorted))
    else if "decimal:" <= s then DecimalType(s[8..])
    else SimpleType(s)
  }

  function DomainOf(name: string, storage: Option<Type>): Option<Type> {
    if DomainWord(name) && storage.Some? then Some(DomainType(name, storage.value)) else None
  }

  function StructOf(fields: Option<seq<Field>>): Option<Type> {
    if fields.Some? then Some(Struct(fields.value)) else None
  }

  ghost predicate Within(ps: Pairs, n: nat) {
    forall i :: 0 <= i < |ps| ==> |ps[i].1| <= n
  }

  function FieldsOf(ps: Pairs, ghost n: nat, J: Codec, sorted: string -> Option<Pairs>): Option<seq<Field>>
    requires Shrinks(J) && Shrinks(Codec(J.write, sorted)) && Within(ps, n)
    decreases n, |ps|
  {
    if ps == [] then Some([])
    else
      var head := TypeOf(ps[0].1, J, sorted);
      var tail := FieldsOf(ps[1..], n, J, sorted);
      if head.Some? && tail.Some? then Some([Field(ps[0].0, head.value, true)] + tail.value) else None
  }

  // ---------------------------------------------------------------- what names keep

  /** The type that a name reads back as: one width of text and binary, plain lists, nullable fields. */
  function Normal(t: Type): Type {
    if IsDomain(t) then DomainType(DomainName(t), Normal(t.fields[0].ty))
    else if IsList(t) then List(Field("item", Normal(t.item.ty), true))
    else
      match t
      case Utf8 | LargeUtf8 | Utf8View => Utf8
      case Binary | LargeBinary => Binary
      case Date32 | Date64 => Date32
      case Struct(fields) => Struct(NormalFields(fields))
      case _ => t
  }

  function NormalFields(fields: seq<Field>): (r: seq<Field>)
    ensures |r| == |fields| && forall i :: 0 <= i < |fields| ==> r[i].name == fields[i].name
  {
    if fields == [] then [] else [Field(fields[0].name, Normal(fields[0].ty), true)] + NormalFields(fields[1..])
  }

  /** The names of the fields are given and distinct. */
  predicate NamedApart(fields: seq<Field>) {
    && (forall i :: 0 <= i < |fields| ==> fields[i].name != "")
    && (forall i, j :: 0 <= i < j < |fields| ==> fields[i].name != fields[j].name)
  }

  /** The name of the type can be read: domain names are words, decimals are in range, structs have
      distinct field names. */
  predicate Readable(t: Type) {
    if IsJson(t) then true
    else if IsDomain(t) then DomainWord(DomainName(t)) && Readable(t.fields[0].ty)
    else if IsList(t) then Readable(t.item.ty)
    else
      match t
      case Decimal128(p, s) => 0 < p <= 38 && 0 <= s <= p
      case Struct(fields) => fields != [] && NamedApart(fields) && AllReadable(fields)
      case _ => true
  }

  predicate AllReadable(fields: seq<Field>) {
    fields == [] || (Readable(fields[0].ty) && AllReadable(fields[1..]))
  }

  /** All types but these have a name: intervals and durations, times in units of the other width,
      timestamps outside UTC, types that are not modelled, and what is built of such types. */
  predicate Unnamed(t: Type) {
    if IsJson(t) then false
    else
      match t
      case Duration(_) => true
      case MonthDayNano => true
      case OtherType(_) => true
      case Time32(unit) => unit.Microsecond? || unit.Nanosecond?
      case Time64(unit) => unit.Second? || unit.Millisecond?
      case Timestamp(_, zone) => zone.Some? && zone.value != "UTC"
      case List(item) => Unnamed(item.ty)
      case LargeList(item) => Unnamed(item.ty)
      case FixedSizeList(item, _) => Unnamed(item.ty)
      case Struct(fields) => exists i :: 0 <= i < |fields| && Unnamed(fields[i].ty)
      case _ => false
  }

  lemma {:induction false} NamedExactly(t: Type, J: Codec)
    ensures TypeName(t, J).None? <==> Unnamed(t)
    decreases t, 1
  {
    if t.Struct? {
      if IsDomain(t) { NamedExactly(t.fields[0].ty, J); } else { FieldsNamed(t.fields, J); }
      StructNamed(t, J);
    } else if IsList(t) {
      NamedExactly(t.item.ty, J);
      ListNamed(t, J);
    } else if !t.Decimal128? {
      LeafNamed(t);
    }
  }

  lemma {:induction false} ListNamed(t: Type, J: Codec)
    requires IsList(t) && (TypeName(t.item.ty, J).None? <==> Unnamed(t.item.ty))
    ensures TypeName(t, J).None? <==> Unnamed(t)
  {
  }

  lemma {:induction false} StructNamed(t: Type, J: Codec)
    requires t.Struct? && (IsDomain(t) ==> (TypeName(t.fields[0].ty, J).None? <==> Unnamed(t.fields[0].ty)))
    requires !IsDomain(t) ==>
      (FieldNames(t.fields, J).None? <==> exists i :: 0 <= i < |t.fields| && Unnamed(t.fields[i].ty))
    ensures TypeName(t, J).None? <==> Unnamed(t)
  {
  }

  lemma LeafNamed(t: Type)
    requires !t.Struct? && !IsList(t) && !t.Decimal128?
    ensures SimpleName(t).None? <==> Unnamed(t)
  {
  }

  lemma {:induction false} FieldsNamed(fields: seq<Field>, J: Codec)
    ensures FieldNames(fields, J).None? <==> exists i :: 0 <= i < |fields| && Unnamed(fields[i].ty)
    decreases fields, 0
  {
    if fields != [] {
      NamedExactly(fields[0].ty, J);
      FieldsNamed(fields[1..], J);
      if i :| 0 <= i < |fields| && Unnamed(fields[i].ty) { assert i > 0 ==> Unnamed(fields[1..][i - 1].ty); }
      if i :| 0 <= i < |fields[1..]| && Unnamed(fields[1..][i].ty) { assert Unnamed(fields[i + 1].ty); }
    }
  }

  // ---------------------------------------------------------------- parts of names

  /** The readers that `TypeOf` is given. */
  ghost predicate Lawful(J: Codec, sorted: string -> Option<Pairs>) {
    Shrinks(J) && Shrinks(Codec(J.write, sorted)) && Inverts(J)
  }

  lemma TimestampNames()
    ensures "timestamp" + "" == "timestamp" && "timestamptz" + "" == "timestamptz"
    ensures "timestamp" + "_s" == "timestamp_s" && "timestamptz" + "_s" == "timestamptz_s"
    ensures "timestamp" + "_ms" == "timestamp_ms" && "timestamptz" + "_ms" == "timestamptz_ms"
    ensures "timestamp" + "_ns" == "timestamp_ns" && "timestamptz" + "_ns" == "timestamptz_ns"
  {
  }

  lemma SimpleReads(t: Type)
    requires SimpleName(t).Some?
    ensures SimpleType(SimpleName(t).value) == Some(Normal(t))
  {
    TimestampNames();
  }

  lemma SimpleUnprefixed(t: Type)
    requires SimpleName(t).Some?
    ensures var s := SimpleName(t).value;
      !("domain:" <= s) && !("list:" <= s) && !("struct_fields:" <= s) && !("struct:" <= s) && !("decimal:" <= s)
  {
    TimestampNames();
    NoColonNoPrefix(SimpleName(t).value);
  }

  lemma NoColonNoPrefix(s: string)
    ensures ':' !in s ==>
      !("domain:" <= s) && !("list:" <= s) && !("struct_fields:" <= s) && !("struct:" <= s) && !("decimal:" <= s)
  {
    assert "domain:"[6] == ':' && "list:"[4] == ':' && "struct_fields:"[13] == ':' && "struct:"[6] == ':' &&
      "decimal:"[7] == ':';
    if "domain:" <= s { assert s[6] == ':'; }
    if "list:" <= s { assert s[4] == ':'; }
    if "struct_fields:" <= s { assert s[13] == ':'; }
    if "struct:" <= s { assert s[6] == ':'; }
    if "decimal:" <= s { assert s[7] == ':'; }
  }

  /** The first colon after a word without one. */
  lemma {:induction false} SplitAfterWord(word: string, rest: string)
    requires ':' !in word
    ensures SplitOnce(word + ":" + rest) == Some((word, rest))
  {
    var s := word + ":" + rest;
    if word == "" {
      assert s == ":" + rest && s[1..] == rest;
    } else {
      assert s[1..] == word[1..] + ":" + rest;
      SplitAfterWord(word[1..], rest);
      assert [word[0]] + word[1..] == word;
    }
  }

  lemma DomainReads(name: string, storage: string, J: Codec, sorted: string -> Option<Pairs>)
    requires Lawful(J, sorted)
    ensures var r := TypeOf("domain:" + name + ":" + storage, J, sorted);
      && (':' !in name ==> r == DomainOf(name, TypeOf(storage, J, sorted)))
      && (':' in name && r.Some? ==> IsDomain(r.value) && DomainName(r.value) != name)
  {
    var s := "domain:" + name + ":" + storage;
    assert "domain:" <= s && s[7..] == name + ":" + storage;
    if ':' !in name {
      SplitAfterWord(name, storage);
    } else {
      var r := TypeOf(s, J, sorted);
      var split := SplitOnce(s[7..]);
      if r.Some? {
        var first := split.value.0;
        assert r.value == DomainType(first, TypeOf(split.value.1, J, sorted).value);
        assert (DOMAIN_PREFIX + first)[|DOMAIN_PREFIX|..] == first;
      }
    }
  }

  lemma ListReads(x: string, J: Codec, sorted: string -> Option<Pairs>)
    requires Lawful(J, sorted)
    ensures TypeOf("list:" + x, J, sorted) ==
      var t := TypeOf(x, J, sorted); if t.Some? then Some(List(Field("item", t.value, true))) else None
  {
    var s := "list:" + x;
    assert s[0] == 'l' && "domain:"[0] == 'd' && s[5..] == x;
    assert !("domain:" <= s) && "list:" <= s;
  }

  lemma StructReads(ps: Pairs, J: Codec, sorted: string -> Option<Pairs>)
    requires Lawful(J, sorted)
    ensures var n := |J.write(ps)| + 13;
      && Within(ps, n)
      && TypeOf("struct_fields:" + J.write(ps), J, sorted) ==
         (if ps == [] || !DistinctNames(ps) then None else StructOf(FieldsOf(ps, n, J, sorted)))
  {
    var s := "struct_fields:" + J.write(ps);
    assert s[0] == 's' && "domain:"[0] == 'd' && "list:"[0] == 'l' && s[14..] == J.write(ps);
    assert !("domain:" <= s) && !("list:" <= s) && "struct_fields:" <= s;
    var r := J.read(s[14..]);
    assert r == Some(ps);
    assert forall i :: 0 <= i < |ps| ==> r.value[i] == ps[i];
  }

  lemma SignedNoColon(v: int)
    ensures ':' !in Signed(v)
  {
    var digits := Dec(if v < 0 then -v else v);
    assert forall i :: 0 <= i < |digits| ==> IsDigit(digits[i]);
  }

  lemma DecimalTypeReads(p: int, s: int)
    ensures DecimalType(Signed(p) + ":" + Signed(s)) ==
      if 0 < p <= 38 && 0 <= s <= p then Some(Decimal128(p, s)) else None
  {
    SignedReads(p);
    SignedReads(s);
    SignedNoColon(p);
    SignedNoColon(s);
    SplitAfterWord(Signed(p), Signed(s));
  }

  lemma DecimalReads(rest: string, J: Codec, sorted: string -> Option<Pairs>)
    requires Lawful(J, sorted)
    ensures TypeOf("decimal:" + rest, J, sorted) == DecimalType(rest)
  {
    var name := "decimal:" + rest;
    assert name[0] == 'd' && name[1] == 'e' && name[8..] == rest;
    assert "domain:"[1] == 'o' && "list:"[0] == 'l' && "struct_fields:"[0] == 's' && "struct:"[0] == 's';
    assert !("domain:" <= name) && !("list:" <= name) && !("struct_fields:" <= name) && !("struct:" <= name) &&
      "decimal:" <= name;
  }

  // ---------------------------------------------------------------- round trips

  lemma JsonReads(t: Type, J: Codec, sorted: string -> Option<Pairs>)
    requires Lawful(J, sorted) && IsJson(t)
    ensures TypeOf("json", J, sorted) == Some(Normal(t))
  {
    NoColonNoPrefix("json");
    assert SimpleType("json") == Some(DomainType("json", Utf8));
  }

  /** A readable type's name reads back as its normal form. */
  lemma {:induction false} NameReads(t: Type, J: Codec, sorted: string -> Option<Pairs>)
    requires Lawful(J, sorted) && TypeName(t, J).Some? && Readable(t)
    ensures TypeOf(TypeName(t, J).value, J, sorted) == Some(Normal(t))
    decreases t, 1
  {
    if IsJson(t) {
      JsonReads(t, J, sorted);
    } else if IsDomain(t) {
      NameReads(t.fields[0].ty, J, sorted);
      WordNoColon(DomainName(t));
      DomainReads(DomainName(t), TypeName(t.fields[0].ty, J).value, J, sorted);
    } else if IsList(t) {
      NameReads(t.item.ty, J, sorted);
      ListReads(TypeName(t.item.ty, J).value, J, sorted);
    } else if t.Struct? {
      StructNameReads(t, J, sorted);
    } else {
      LeafReads(t, J, sorted);
    }
  }

  lemma {:induction false} StructNameReads(t: Type, J: Codec, sorted: string -> Option<Pairs>)
    requires Lawful(J, sorted) && TypeName(t, J).Some? && Readable(t) && t.Struct? && !IsDomain(t)
    ensures TypeOf(TypeName(t, J).value, J, sorted) == Some(Normal(t))
    decreases t, 0
  {
    var ps := FieldNames(t.fields, J).value;
    StructReads(ps, J, sorted);
    SameNamesApart(t.fields, J);
    FieldsRead(t.fields, |J.write(ps)| + 13, J, sorted);
  }

  lemma LeafReads(t: Type, J: Codec, sorted: string -> Option<Pairs>)
    requires Lawful(J, sorted) && TypeName(t, J).Some? && !t.Struct? && !IsList(t)
    ensures TypeOf(TypeName(t, J).value, J, sorted) == if Readable(t) then Some(Normal(t)) else None
  {
    if t.Decimal128? {
      var rest := Signed(t.precision) + ":" + Signed(t.scale);
      assert TypeName(t, J).value == "decimal:" + rest;
      DecimalReads(rest, J, sorted);
      DecimalTypeReads(t.precision, t.scale);
    } else {
      SimpleReads(t);
      SimpleUnprefixed(t);
    }
  }

  lemma WordNoColon(name: string)
    requires DomainWord(name)
    ensures ':' !in name
  {
    assert !WordChar(':') && forall i :: 0 <= i < |name| ==> WordChar(name[i]);
  }

  lemma {:induction false} NamesOfFields(fields: seq<Field>, J: Codec)
    requires FieldNames(fields, J).Some?
    ensures |FieldNames(fields, J).value| == |fields|
    ensures forall i :: 0 <= i < |fields| ==> FieldNames(fields, J).value[i].0 == fields[i].name
  {
    if fields != [] { NamesOfFields(fields[1..], J); }
  }

  lemma {:induction false} FieldsRead(fields: seq<Field>, n: nat, J: Codec, sorted: string -> Option<Pairs>)
    requires Lawful(J, sorted) && FieldNames(fields, J).Some? && AllReadable(fields) &&
      Within(FieldNames(fields, J).value, n)
    ensures FieldsOf(FieldNames(fields, J).value, n, J, sorted) == Some(NormalFields(fields))
    decreases fields, 0
  {
    if fields != [] {
      NameReads(fields[0].ty, J, sorted);
      var ps := FieldNames(fields, J).value;
      assert ps[1..] == FieldNames(fields[1..], J).value;
      assert forall i :: 0 <= i < |ps| - 1 ==> ps[1..][i] == ps[i + 1];
      FieldsRead(fields[1..], n, J, sorted);
    }
  }

  /** A type whose name reads as itself is readable. */
  lemma {:induction false} ReadIsReadable(t: Type, J: Codec, sorted: string -> Option<Pairs>)
    requires Lawful(J, sorted) && TypeName(t, J).Some? && TypeOf(TypeName(t, J).value, J, sorted) == Some(t)
    ensures Readable(t)
    decreases t, 1
  {
    if IsDomain(t) {
      if !IsJson(t) { DomainIsReadable(t, J, sorted); }
    } else if IsList(t) {
      ListReads(TypeName(t.item.ty, J).value, J, sorted);
      ReadIsReadable(t.item.ty, J, sorted);
    } else if t.Struct? {
      StructIsReadable(t, J, sorted);
    } else {
      LeafReads(t, J, sorted);
    }
  }

  lemma {:induction false} DomainIsReadable(t: Type, J: Codec, sorted: string -> Option<Pairs>)
    requires Lawful(J, sorted) && IsDomain(t) && !IsJson(t)
    requires TypeName(t, J).Some? && TypeOf(TypeName(t, J).value, J, sorted) == Some(t)
    ensures Readable(t)
    decreases t, 0
  {
    DomainReads(DomainName(t), TypeName(t.fields[0].ty, J).value, J, sorted);
    ReadIsReadable(t.fields[0].ty, J, sorted);
  }

  lemma {:induction false} StructIsReadable(t: Type, J: Codec, sorted: string -> Option<Pairs>)
    requires Lawful(J, sorted) && t.Struct? && !IsDomain(t)
    requires TypeName(t, J).Some? && TypeOf(TypeName(t, J).value, J, sorted) == Some(t)
    ensures Readable(t)
    decreases t, 0
  {
    var ps := FieldNames(t.fields, J).value;
    var n := |J.write(ps)| + 13;
    assert TypeName(t, J) == Some("struct_fields:" + J.write(ps));
    StructReads(ps, J, sorted);
    SameNamesApart(t.fields, J);
    assert FieldsOf(ps, n, J, sorted) == Some(t.fields);
    FieldsAreReadable(t.fields, n, J, sorted);
  }

  lemma SameNamesApart(fields: seq<Field>, J: Codec)
    requires FieldNames(fields, J).Some?
    ensures NamedApart(fields) <==> DistinctNames(FieldNames(fields, J).value)
    ensures |FieldNames(fields, J).value| == |fields|
  {
    NamesOfFields(fields, J);
  }

  lemma {:induction false} FieldsAreReadable(fields: seq<Field>, n: nat, J: Codec, sorted: string -> Option<Pairs>)
    requires Lawful(J, sorted) && FieldNames(fields, J).Some? && Within(FieldNames(fields, J).value, n)
    requires FieldsOf(FieldNames(fields, J).value, n, J, sorted) == Some(fields)
    ensures AllReadable(fields)
    decreases fields, 0
  {
    if fields != [] {
      var ps := FieldNames(fields, J).value;
      assert ps[1..] == FieldNames(fields[1..], J).value;
      assert forall i :: 0 <= i < |ps| - 1 ==> ps[1..][i] == ps[i + 1];
      assert fields[1..] == FieldsOf(ps[1..], n, J, sorted).value;
      ReadIsReadable(fields[0].ty, J, sorted);
      FieldsAreReadable(fields[1..], n, J, sorted);
    }
  }

  /** Reading the name gives the type back exactly when the type is readable and in normal form. */
  lemma RoundTripExactly(t: Type, J: Codec, sorted: string -> Option<Pairs>)
    requires Lawful(J, sorted) && TypeName(t, J).Some?
    ensures TypeOf(TypeName(t, J).value, J, sorted) == Some(t) <==> Readable(t) && Normal(t) == t
  {
    if Readable(t) { NameReads(t, J, sorted); }
    if TypeOf(TypeName(t, J).value, J, sorted) == Some(t) { ReadIsReadable(t, J, sorted); }
  }

  lemma DomainTypeName(name: string, storage: Type)
    ensures IsDomain(DomainType(name, storage)) && DomainName(DomainType(name, storage)) == name
  {
    assert (DOMAIN_PREFIX + name)[|DOMAIN_PREFIX|..] == name;
  }

  /** Normal forms have the same name. */
  lemma {:induction false} NormalName(t: Type, J: Codec)
    requires Readable(t)
    ensures TypeName(Normal(t), J) == TypeName(t, J)
    decreases t, 1
  {
    if IsDomain(t) {
      DomainTypeName(DomainName(t), Normal(t.fields[0].ty));
      if !IsJson(t) { NormalName(t.fields[0].ty, J); }
    } else if IsList(t) {
      NormalName(t.item.ty, J);
    } else if t.Struct? {
      NormalStructName(t, J);
    } else {
      NormalLeafName(t, J);
    }
  }

  lemma {:induction false} NormalStructName(t: Type, J: Codec)
    requires Readable(t) && t.Struct? && !IsDomain(t)
    ensures TypeName(Normal(t), J) == TypeName(t, J)
    decreases t, 0
  {
    NormalFieldNames(t.fields, J);
    assert !IsDomain(Normal(t));
  }

  lemma NormalLeafName(t: Type, J: Codec)
    requires !t.Struct? && !IsList(t)
    ensures TypeName(Normal(t), J) == TypeName(t, J)
  {
  }

  lemma {:induction false} NormalFieldNames(fields: seq<Field>, J: Codec)
    requires AllReadable(fields)
    ensures FieldNames(NormalFields(fields), J) == FieldNames(fields, J)
    decreases fields, 0
  {
    if fields != [] {
      NormalName(fields[0].ty, J);
      NormalFieldNames(fields[1..], J);
      assert NormalFields(fields)[1..] == NormalFields(fields[1..]);
    }
  }
}
