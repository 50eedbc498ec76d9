/** Row permissions: a node is admitted when the permission relation grants its identifier. */
module PermissionFilter {
  import opened Text

  // ---------------------------------------------------------------- identifiers

  datatype IdType = Int8 | Int16 | Int32 | Int64 | OtherType
  /** A node's identifier: an integer, or a value of another type by its text; none is NULL. */
  datatype Id = Int(value: int) | Other(text: string)

  function Limit(t: IdType): int {
    match t
    case Int8 => 0x80
    case Int16 => 0x8000
    case Int32 => 0x8000_0000
    case Int64 => 0x8000_0000_0000_0000
    case OtherType => 0
  }

  predicate InRange(v: int, t: IdType) {
    -Limit(t) <= v < Limit(t)
  }

  predicate HasType(id: Option<Id>, t: IdType) {
    id.Some? ==> if t.OtherType? then id.value.Other? else id.value.Int? && InRange(id.value.value, t)
  }

  function IdText(id: Id): string {
    match id
    case Int(v) => Signed(v)
    case Other(text) => text
  }

  // ---------------------------------------------------------------- the permission relation

  datatype Column = ResourceType | Permission | SubjectType | SubjectRelation | SubjectId

  /** A row of the permission relation: its text columns and the resource identifier's text; none
      is NULL. */
  datatype Grant = Grant(columns: Column -> Option<string>, resource: Option<string>)

  /** Who asks for what. */
  datatype Request = Request(resourceType: string, permission: string, subjectType: string, subjectId: string)

  /** A cast from text that may accept more than canonical text and gives NULL otherwise. */
  type Cast = (string, IdType) -> Option<int>

  ghost predicate InvertsPrinting(cast: Cast) {
    forall v: int, t: IdType :: !t.OtherType? && InRange(v, t) ==> cast(Signed(v), t) == Some(v)
  }

  // ---------------------------------------------------------------- filters

  datatype Condition =
    | ColumnIs(column: Column, text: string)
    | CastNotNull(ty: IdType)
    | CastPrintsSame(ty: IdType)

  /** `id IN (SELECT …)`: over casts to an integer type, or over text. */
  datatype Filter = Typed(ty: IdType, conditions: seq<Condition>) | Textual(conditions: seq<Condition>)

  /** Builds the filter; only DuckDB compares integer identifiers as integers. For every table of
      grants, identifier and cast, it admits exactly the nodes that a grant names. */
  method Build(duckDb: bool, ty: IdType, q: Request) returns (f: Filter)
    ensures f == BuiltFilter(duckDb, ty, q)
    ensures f.Typed? <==> duckDb && !ty.OtherType?
    ensures forall table, id, cast :: InvertsPrinting(cast) && HasType(id, ty) ==>
      (Admits(f, table, id, cast) <==> Permitted(table, q, id))
  {
    forall table, id, cast | InvertsPrinting(cast) && HasType(id, ty)
      ensures Admits(BuiltFilter(duckDb, ty, q), table, id, cast) <==> Permitted(table, q, id)
    {
      FilterExact(duckDb, ty, q, table, id, cast);
    }
    var conditions := [
      ColumnIs(ResourceType, q.resourceType),
      ColumnIs(Permission, q.permission),
      ColumnIs(SubjectType, q.subjectType),
      ColumnIs(SubjectRelation, ""),
      ColumnIs(SubjectId, q.subjectId)];
    if duckDb && !ty.OtherType? {
      conditions := conditions + [CastNotNull(ty)];
      conditions := conditions + [CastPrintsSame(ty)];
      return Typed(ty, conditions);
    }
    return Textual(conditions);
  }

  function Basic(q: Request): seq<Condition> {
    [ColumnIs(ResourceType, q.resourceType), ColumnIs(Permission, q.permission), ColumnIs(SubjectType, q.subjectType),
     ColumnIs(SubjectRelation, ""), ColumnIs(SubjectId, q.subjectId)]
  }

  function BuiltFilter(duckDb: bool, ty: IdType, q: Request): Filter {
    if duckDb && !ty.OtherType? then Typed(ty, Basic(q) + [CastNotNull(ty), CastPrintsSame(ty)]) else Textual(Basic(q))
  }

  // ---------------------------------------------------------------- meaning

  function CastOf(g: Grant, ty: IdType, cast: Cast): Option<int> {
    if g.resource.Some? then cast(g.resource.value, ty) else None
  }

  /** A condition is true of a grant; NULL operands never make it true. */
  predicate True(c: Condition, g: Grant, cast: Cast) {
    match c
    case ColumnIs(column, text) => g.columns(column) == Some(text)
    case CastNotNull(ty) => CastOf(g, ty, cast).Some?
    case CastPrintsSame(ty) => CastOf(g, ty, cast).Some? && g.resource == Some(Signed(CastOf(g, ty, cast).value))
  }

  predicate AllTrue(cs: seq<Condition>, g: Grant, cast: Cast) {
    forall i :: 0 <= i < |cs| ==> True(cs[i], g, cast)
  }

  /** The filter is true of a node: some selected value equals its identifier. A NULL identifier or
      a NULL among the selected values never makes membership true. */
  predicate Admits(f: Filter, table: seq<Grant>, id: Option<Id>, cast: Cast) {
    && id.Some?
    && exists i ::
      0 <= i < |table| && AllTrue(f.conditions, table[i], cast) && Selects(f, table[i], id.value, cast)
  }

  predicate Selects(f: Filter, g: Grant, id: Id, cast: Cast) {
    match f
    case Typed(ty, _) => CastOf(g, ty, cast).Some? && id == Int(CastOf(g, ty, cast).value)
    case Textual(_) => g.resource == Some(IdText(id))
  }

  /** What permission means: a grant of the permission on this very identifier to the subject itself. */
  predicate Grants(g: Grant, q: Request, id: Id) {
    && g.columns(ResourceType) == Some(q.resourceType) && g.columns(Permission) == Some(q.permission)
    && g.columns(SubjectType) == Some(q.subjectType) && g.columns(SubjectId) == Some(q.subjectId)
    && g.columns(SubjectRelation) == Some("")
    && g.resource == Some(IdText(id))
  }

  predicate Permitted(table: seq<Grant>, q: Request, id: Option<Id>) {
    id.Some? && exists i :: 0 <= i < |table| && Grants(table[i], q, id.value)
  }

  lemma BasicTrue(q: Request, g: Grant, id: Id, cast: Cast)
    ensures AllTrue(Basic(q), g, cast) && g.resource == Some(IdText(id)) <==> Grants(g, q, id)
  {
    var cs := Basic(q);
    assert AllTrue(cs, g, cast) <==>
      True(cs[0], g, cast) && True(cs[1], g, cast) && True(cs[2], g, cast) && True(cs[3], g, cast) &&
        True(cs[4], g, cast);
  }

  lemma TypedTrue(q: Request, ty: IdType, g: Grant, id: Id, cast: Cast)
    requires InvertsPrinting(cast) && !ty.OtherType? && id.Int? && InRange(id.value, ty)
    ensures (AllTrue(Basic(q) + [CastNotNull(ty), CastPrintsSame(ty)], g, cast) &&
      CastOf(g, ty, cast) == Some(id.value))
      <==> Grants(g, q, id)
  {
    var cs := Basic(q) + [CastNotNull(ty), CastPrintsSame(ty)];
    BasicTrue(q, g, id, cast);
    assert cs[5] == CastNotNull(ty) && cs[6] == CastPrintsSame(ty);
    assert forall i :: 0 <= i < 5 ==> cs[i] == Basic(q)[i];
  }

  /** Both forms of the filter admit exactly the permitted nodes, for every table, every identifier
      of its type and every lenient cast. */
  lemma FilterExact(duckDb: bool, ty: IdType, q: Request, table: seq<Grant>, id: Option<Id>, cast: Cast)
    requires InvertsPrinting(cast) && HasType(id, ty)
    ensures Admits(BuiltFilter(duckDb, ty, q), table, id, cast) <==> Permitted(table, q, id)
  {
    if id.Some? {
      forall i | 0 <= i < |table|
        ensures AllTrue(Basic(q), table[i], cast) && table[i].resource == Some(IdText(id.value)) <==>
          Grants(table[i], q, id.value)
      {
        BasicTrue(q, table[i], id.value, cast);
      }
      if duckDb && !ty.OtherType? {
        forall i | 0 <= i < |table|
          ensures (AllTrue(Basic(q) + [CastNotNull(ty), CastPrintsSame(ty)], table[i], cast) &&
            CastOf(table[i], ty, cast) == Some(id.value.value))
            <==> Grants(table[i], q, id.value)
        {
          TypedTrue(q, ty, table[i], id.value, cast);
        }
      }
    }
  }

  /** The typed form and the text form admit the same nodes. */
  lemma TypedEqualsText(ty: IdType, q: Request, table: seq<Grant>, id: Option<Id>, cast: Cast)
    requires InvertsPrinting(cast) && HasType(id, ty)
    ensures Admits(BuiltFilter(true, ty, q), table, id, cast) <==> Admits(BuiltFilter(false, ty, q), table, id, cast)
  {
    FilterExact(true, ty, q, table, id, cast);
    FilterExact(false, ty, q, table, id, cast);
  }

  // ---------------------------------------------------------------- a lenient cast

  /** A cast that also accepts a plus sign and leading zeros. */
  function Lenient(s: string, t: IdType): Option<int> {
    var v := ParseSigned(s, true);
    if v.Some? && InRange(v.value, t) then v else None
  }

  lemma LenientInvertsPrinting()
    ensures InvertsPrinting(Lenient)
  {
    forall v: int, t: IdType | !t.OtherType? && InRange(v, t) ensures Lenient(Signed(v), t) == Some(v) {
      SignedReads(v);
    }
  }

  /** Without the canonical-text condition the typed form admits too much: a grant on "007" would
      admit node 7. */
  lemma CanonicalCheckNeeded(q: Request)
    ensures exists table: seq<Grant> ::
      Admits(Typed(Int64, Basic(q) + [CastNotNull(Int64)]), table, Some(Int(7)), Lenient) &&
        !Permitted(table, q, Some(Int(7)))
  {
    var columns: Column -> Option<string> := (c: Column) =>
      match c
      case ResourceType => Some(q.resourceType)
      case Permission => Some(q.permission)
      case SubjectType => Some(q.subjectType)
      case SubjectRelation => Some("")
      case SubjectId => Some(q.subjectId);
    var g := Grant(columns, Some("007"));
    var cs := Basic(q) + [CastNotNull(Int64)];
    assert "007"[..2] == "00" && "00"[..1] == "0" && "0"[..0] == "";
    assert ParseDec("00") == 0 && ParseDec("007") == 7;
    assert Lenient("007", Int64) == Some(7);
    assert |Signed(7)| == 1;
    assert forall i :: 0 <= i < 5 ==> cs[i] == Basic(q)[i] && True(cs[i], g, Lenient);
    assert True(cs[5], g, Lenient);
    var f := Typed(Int64, cs);
    assert AllTrue(f.conditions, [g][0], Lenient) && Selects(f, [g][0], Int(7), Lenient);
    assert Admits(f, [g], Some(Int(7)), Lenient);
  }
}
