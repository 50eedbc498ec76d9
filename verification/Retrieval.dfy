/** Vector retrieval rules: a Cypher rule that ranks one target label by a vector score and keeps
    the first rows is recognised as an SQL retrieval. Terms stand for the SQL text. */
module Retrieval {
  import opened Text

  datatype UnaryOp = Neg | Not
  datatype BinaryOp = Or | And | Eq | Neq | Lt | Lte | Gt | Gte | Add | Sub | Mul | Div

  datatype Expr =
    | Variable(name: string)
    | Property(target: Expr, key: string)
    | Integer(text: string)
    | Float(text: string, finite: bool)
    | Str(value: string)
    | Flag(flag: bool)
    | NullLiteral
    | Unary(uop: UnaryOp, operand: Expr)
    | Binary(op: BinaryOp, lhs: Expr, rhs: Expr)
    | IsNull(of: Expr)
    | IsNotNull(of: Expr)
    | Function(fn: string, args: seq<Expr>, distinct: bool)
    | List(values: seq<Expr>)
    | Unsupported(id: int)

  datatype Side = Source | Target

  datatype Term =
    | Column(side: Side, column: string)
    | NumberT(text: string)
    | StrT(value: string)
    | FlagT(flag: bool)
    | NullT
    | UnaryT(uop: UnaryOp, operand: Term)
    | BinaryT(op: BinaryOp, lhs: Term, rhs: Term)
    | IsNullT(of: Term)
    | IsNotNullT(of: Term)
    | CallT(fn: string, args: seq<Term>)
    | ArrayT(values: seq<Term>)

  type Aliases = map<string, Term>

  predicate VectorFunction(name: string) {
    name == "vector.cosine_similarity" || name == "vector.dot" || name == "vector.l2_distance"
  }

  predicate Comparison(op: BinaryOp) {
    op.Eq? || op.Neq? || op.Lt? || op.Lte? || op.Gt? || op.Gte?
  }

  // ---------------------------------------------------------------- translation

  function Sql(e: Expr, target: string, aliases: Aliases): Option<Term> {
    match e
    case Variable(name) => if name in aliases then Some(aliases[name]) else None
    case Property(Variable(name), key) =>
      if name == "source" then Some(Column(Source, key))
      else if name == target then Some(Column(Target, key))
      else None
    case Integer(text) => Some(NumberT(text))
    case Float(text, finite) => if finite then Some(NumberT(text)) else None
    case Str(value) => Some(StrT(value))
    case Flag(flag) => Some(FlagT(flag))
    case NullLiteral => Some(NullT)
    case Unary(op, x) =>
      var t := Sql(x, target, aliases);
      if t.Some? then Some(UnaryT(op, t.value)) else None
    case Binary(op, x, y) =>
      var l := Sql(x, target, aliases);
      var r := Sql(y, target, aliases);
      if l.Some? && r.Some? then Some(BinaryT(op, l.value, r.value)) else None
    case IsNull(x) =>
      var t := Sql(x, target, aliases);
      if t.Some? then Some(IsNullT(t.value)) else None
    case IsNotNull(x) =>
      var t := Sql(x, target, aliases);
      if t.Some? then Some(IsNotNullT(t.value)) else None
    case Function(name, args, distinct) =>
      var ts := SqlAll(args, target, aliases);
      if !distinct && VectorFunction(name) && ts.Some? then Some(CallT(name, ts.value)) else None
    case List(values) =>
      var ts := SqlAll(values, target, aliases);
      if ts.Some? then Some(ArrayT(ts.value)) else None
    case _ => None
  }

  function SqlAll(es: seq<Expr>, target: string, aliases: Aliases): Option<seq<Term>> {
    if es == [] then Some([])
    else
      var head := Sql(es[0], target, aliases);
      var tail := SqlAll(es[1..], target, aliases);
      if head.Some? && tail.Some? then Some([head.value] + tail.value) else None
  }

  /** The recogniser's test that a predicate cannot hold of a row whose score is NULL. */
  predicate RejectsNull(e: Expr, score: Term, target: string, aliases: Aliases) {
    match e
    case Binary(op, x, y) =>
      if op.And? then RejectsNull(x, score, target, aliases) || RejectsNull(y, score, target, aliases)
      else if op.Or? then RejectsNull(x, score, target, aliases) && RejectsNull(y, score, target, aliases)
      else Comparison(op) && (Sql(x, target, aliases) == Some(score) || Sql(y, target, aliases) == Some(score))
    case IsNotNull(x) => Sql(x, target, aliases) == Some(score)
    case _ => false
  }

  // ---------------------------------------------------------------- the rule

  datatype Item = Item(expr: Expr, name: Option<string>)

  /** The clauses of a rule that the recogniser reads: MATCH … WHERE, an optional WITH … WHERE,
      RETURN … ORDER BY … LIMIT. `output` and `declared` are the rule's declared return names. */
  datatype Rule = Rule(
    target: string,
    matchPredicate: Option<Expr>,
    carried: Option<(seq<Item>, Option<Expr>)>,
    returned: seq<Item>,
    output: string,
    declared: set<string>,
    order: Expr,
    descending: bool,
    limit: nat)

  datatype Plan = Plan(
    predicates: seq<Term>, properties: Aliases, score: Term, descending: bool, nullsLast: bool, limit: nat)

  // The WITH clause.

  predicate Carries(item: Item, target: string) {
    item.expr == Variable(target)
  }

  /** The aliases a WITH clause defines, each seeing the ones before it. */
  function AliasesOf(items: seq<Item>, target: string): Option<Aliases> {
    if items == [] then Some(map[])
    else
      var item := items[|items| - 1];
      match AliasesOf(items[..|items| - 1], target)
      case None => None
      case Some(before) =>
        if Carries(item, target) then
          if item.name.Some? && item.name.value != target then None else Some(before)
        else
          var t := Sql(item.expr, target, before);
          if item.name.Some? && t.Some? then Some(before[item.name.value := t.value]) else None
  }

  predicate HasTarget(items: seq<Item>, target: string) {
    exists i :: 0 <= i < |items| && Carries(items[i], target)
  }

  lemma {:induction false} AliasesFail(items: seq<Item>, target: string, n: nat)
    requires n <= |items| && AliasesOf(items[..n], target).None?
    ensures AliasesOf(items, target).None?
  {
    if n == |items| {
      assert items[..n] == items;
    } else {
      var front := items[..|items| - 1];
      assert front[..n] == items[..n];
      AliasesFail(front, target, n);
    }
  }

  method CollectAliases(items: seq<Item>, target: string) returns (r: Option<Aliases>)
    ensures r == if HasTarget(items, target) then AliasesOf(items, target) else None
  {
    var aliases: Aliases := map[];
    var hasTarget := false;
    for i := 0 to |items|
      invariant AliasesOf(items[..i], target) == Some(aliases)
      invariant hasTarget <==> HasTarget(items[..i], target)
    {
      var item := items[i];
      assert items[..i + 1][..i] == items[..i];
      var ok := true;
      if Carries(item, target) {
        assert Carries(items[..i + 1][i], target);
        ok := !(item.name.Some? && item.name.value != target);
        hasTarget := true;
      } else {
        var t := Sql(item.expr, target, aliases);
        ok := item.name.Some? && t.Some?;
        if ok {
          aliases := aliases[item.name.value := t.value];
        }
      }
      if !ok {
        AliasesFail(items, target, i + 1);
        return None;
      }
      assert forall k :: 0 <= k < i ==> items[..i + 1][k] == items[..i][k];
    }
    assert items[..|items|] == items;
    return if hasTarget then Some(aliases) else None;
  }

  // The RETURN clause.

  predicate ReturnsTarget(item: Item, rule: Rule) {
    item.expr == Variable(rule.target) && (if item.name.Some? then item.name.value else rule.target) == rule.output
  }

  function NameOf(item: Item): Option<string> {
    if item.name.Some? then item.name
    else if item.expr.Variable? then Some(item.expr.name)
    else None
  }

  /** The declared properties that the RETURN items give, as terms. */
  function PropertiesOf(items: seq<Item>, rule: Rule, aliases: Aliases): Option<Aliases> {
    if items == [] then Some(map[])
    else
      var item := items[|items| - 1];
      match PropertiesOf(items[..|items| - 1], rule, aliases)
      case None => None
      case Some(before) =>
        if ReturnsTarget(item, rule) then Some(before)
        else
          var name := NameOf(item);
          var t := Sql(item.expr, rule.target, aliases);
          if name.Some? && name.value in rule.declared && t.Some? then Some(before[name.value := t.value]) else None
  }

  predicate OutputGiven(items: seq<Item>, rule: Rule) {
    exists i :: 0 <= i < |items| && ReturnsTarget(items[i], rule)
  }

  lemma {:induction false} PropertiesFail(items: seq<Item>, rule: Rule, aliases: Aliases, n: nat)
    requires n <= |items| && PropertiesOf(items[..n], rule, aliases).None?
    ensures PropertiesOf(items, rule, aliases).None?
  {
    if n == |items| {
      assert items[..n] == items;
    } else {
      var front := items[..|items| - 1];
      assert front[..n] == items[..n];
      PropertiesFail(front, rule, aliases, n);
    }
  }

  lemma OutputGivenSnoc(items: seq<Item>, item: Item, rule: Rule)
    ensures OutputGiven(items + [item], rule) <==> OutputGiven(items, rule) || ReturnsTarget(item, rule)
  {
    var all := items + [item];
    assert all[|items|] == item;
    assert forall k :: 0 <= k < |items| ==> all[k] == items[k];
  }

  method CollectProperties(rule: Rule, aliases: Aliases) returns (r: Option<Aliases>)
    ensures r == if OutputGiven(rule.returned, rule) then PropertiesOf(rule.returned, rule, aliases) else None
  {
    var items := rule.returned;
    var properties: Aliases := map[];
    var hasTarget := false;
    for i := 0 to |items|
      invariant PropertiesOf(items[..i], rule, aliases) == Some(properties)
      invariant hasTarget <==> OutputGiven(items[..i], rule)
    {
      var item := items[i];
      assert items[..i + 1] == items[..i] + [item];
      OutputGivenSnoc(items[..i], item, rule);
      if ReturnsTarget(item, rule) {
        hasTarget := true;
      } else {
        var name := NameOf(item);
        var t := Sql(item.expr, rule.target, aliases);
        if name.None? || name.value !in rule.declared || t.None? {
          PropertiesFail(items, rule, aliases, i + 1);
          return None;
        }
        properties := properties[name.value := t.value];
      }
    }
    assert items[..|items|] == items;
    return if hasTarget then Some(properties) else None;
  }

  // ---------------------------------------------------------------- recognition

  /** The aliases that are known after the optional WITH clause. */
  function Known(rule: Rule): Option<Aliases> {
    match rule.carried
    case None => Some(map[])
    case Some(c) => if HasTarget(c.0, rule.target) then AliasesOf(c.0, rule.target) else None
  }

  /** The filters of the rule with the aliases each of them sees. */
  function Filters(rule: Rule, aliases: Aliases): seq<(Expr, Aliases)> {
    (if rule.matchPredicate.Some? then [(rule.matchPredicate.value, map[])] else []) +
    (if rule.carried.Some? && rule.carried.value.1.Some? then [(rule.carried.value.1.value, aliases)] else [])
  }

  function FilterTerms(fs: seq<(Expr, Aliases)>, target: string): Option<seq<Term>> {
    if fs == [] then Some([])
    else
      var head := Sql(fs[0].0, target, fs[0].1);
      var tail := FilterTerms(fs[1..], target);
      if head.Some? && tail.Some? then Some([head.value] + tail.value) else None
  }

  function ScoreOf(rule: Rule, aliases: Aliases, properties: Aliases): Option<Term> {
    match rule.order
    case Variable(name) => if name in properties then Some(properties[name]) else None
    case _ => Sql(rule.order, rule.target, aliases)
  }

  predicate SomeRejects(fs: seq<(Expr, Aliases)>, score: Term, target: string) {
    exists i :: 0 <= i < |fs| && RejectsNull(fs[i].0, score, target, fs[i].1)
  }

  /** A vector call over a column of the target, its last argument, that an index serves. */
  predicate Served(score: Term, indexed: Term -> bool) {
    && score.CallT? && |score.args| >= 2
    && score.args[|score.args| - 1].Column? && score.args[|score.args| - 1].side.Target?
    && indexed(score)
  }

  /** The retrieval for a rule, when the score is a vector call that an index serves and that is
      returned as a property. Descending order puts NULL scores last only when no such row can
      survive the filters. */
  function PlanOf(rule: Rule, indexed: Term -> bool): Option<Plan> {
    match Known(rule)
    case None => None
    case Some(aliases) =>
      var fs := Filters(rule, aliases);
      var predicates := FilterTerms(fs, rule.target);
      var properties := if OutputGiven(rule.returned, rule) then PropertiesOf(rule.returned, rule, aliases) else None;
      if predicates.None? || properties.None? || properties.value.Keys != rule.declared then None
      else
        var score := ScoreOf(rule, aliases, properties.value);
        if score.None? || !Served(score.value, indexed) || score.value !in properties.value.Values then None
        else
          var nullsLast := !rule.descending || SomeRejects(fs, score.value, rule.target);
          Some(Plan(predicates.value, properties.value, score.value, rule.descending, nullsLast, rule.limit))
  }
}
