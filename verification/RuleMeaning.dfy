/** What a retrieval rule means: the clauses of the Cypher rule with their variable scopes, the SQL
    retrieval, and their agreement. */
module RuleMeaning {
  import opened Text
  import opened Retrieval

  // ---------------------------------------------------------------- values

  datatype Value = Null | Truth(holds: bool) | Scalar(id: int) | Text(text: string) | Items(items: seq<Value>)

  type Node = map<string, Value>
  datatype Row = Row(source: Node, target: Node)
  type Env = map<string, Value>

  /** What the engine does with operands that are not NULL, with calls, and with nodes and values
      in each other's place. `number` is what SQL reads from the text of a number, `float` is the
      floating-point number that prints as the text, and `same` tells numbers of one value. */
  datatype Semantics = Semantics(
    number: string -> Value,
    float: string -> Value,
    same: (int, int) -> bool,
    negate: Value -> Value,
    operate: (BinaryOp, Value, Value) -> Value,
    call: (string, seq<Value>) -> Value,
    below: (Value, Value) -> bool,
    node: Node -> Value,
    access: (Value, string) -> Value)

  function Get(n: Node, key: string): Value {
    if key in n then n[key] else Null
  }

  function Kleene(op: BinaryOp, a: Value, b: Value): Value
    requires op.And? || op.Or?
  {
    var absorbing := Truth(op.Or?);
    var neutral := Truth(op.And?);
    if a == absorbing || b == absorbing then absorbing
    else if a == neutral && b == neutral then neutral
    else Null
  }

  function Operate(S: Semantics, op: BinaryOp, a: Value, b: Value): Value {
    if op.And? || op.Or? then Kleene(op, a, b)
    else if a == Null || b == Null then Null
    else S.operate(op, a, b)
  }

  function Operate1(S: Semantics, op: UnaryOp, a: Value): Value {
    match op
    case Not => if a.Truth? then Truth(!a.holds) else Null
    case Neg => if a == Null then Null else S.negate(a)
  }

  /** The value of an SQL term in a row. */
  function TermValue(t: Term, row: Row, S: Semantics): Value {
    match t
    case Column(side, key) => Get(if side.Source? then row.source else row.target, key)
    case NumberT(text) => S.number(text)
    case StrT(value) => Text(value)
    case FlagT(flag) => Truth(flag)
    case NullT => Null
    case UnaryT(op, x) => Operate1(S, op, TermValue(x, row, S))
    case BinaryT(op, x, y) => Operate(S, op, TermValue(x, row, S), TermValue(y, row, S))
    case IsNullT(x) => Truth(TermValue(x, row, S) == Null)
    case IsNotNullT(x) => Truth(TermValue(x, row, S) != Null)
    case CallT(name, args) => S.call(name, TermValues(args, row, S))
    case ArrayT(values) => Items(TermValues(values, row, S))
  }

  function TermValues(ts: seq<Term>, row: Row, S: Semantics): seq<Value> {
    if ts == [] then [] else [TermValue(ts[0], row, S)] + TermValues(ts[1..], row, S)
  }

  // ---------------------------------------------------------------- numbers

  /** Equal, or numbers of one value, or lists of such. */
  predicate Near(S: Semantics, a: Value, b: Value) {
    || a == b
    || (a.Scalar? && b.Scalar? && S.same(a.id, b.id))
    || (a.Items? && b.Items? && |a.items| == |b.items| &&
        forall i :: 0 <= i < |a.items| ==> Near(S, a.items[i], b.items[i]))
  }

  predicate AllNear(S: Semantics, xs: seq<Value>, ys: seq<Value>) {
    |xs| == |ys| && forall i :: 0 <= i < |xs| ==> Near(S, xs[i], ys[i])
  }

  /** Text with a point is read as the floating-point number; text without one has its value but may
      be read as an integer. Vector functions do not tell such numbers apart. */
  ghost predicate Lawful(S: Semantics) {
    && (forall text :: Near(S, S.number(text), S.float(text)))
    && (forall text :: '.' in text ==> S.number(text) == S.float(text))
    && (forall name, xs, ys :: AllNear(S, xs, ys) ==> S.call(name, xs) == S.call(name, ys))
  }

  /** Neither do comparisons. */
  ghost predicate ComparesAlike(S: Semantics) {
    forall op, a, b, a', b' :: Comparison(op) && Near(S, a, a') && Near(S, b, b') ==>
      S.operate(op, a, b) == S.operate(op, a', b')
  }

  /** The engines considered; `lenient` if comparisons do not tell numbers of one value apart. */
  ghost predicate Admissible(S: Semantics, lenient: bool) {
    Lawful(S) && (lenient ==> ComparesAlike(S))
  }

  // ---------------------------------------------------------------- scopes

  /** What a variable stands for. */
  datatype Binding = Whole(node: Node) | Plain(value: Value)
  type Scope = map<string, Binding>

  function BindingValue(b: Binding, S: Semantics): Value {
    match b
    case Whole(node) => S.node(node)
    case Plain(value) => value
  }

  /** The value of a Cypher expression. */
  function CypherValue(e: Expr, scope: Scope, S: Semantics): Value {
    match e
    case Variable(name) => if name in scope then BindingValue(scope[name], S) else Null
    case Property(of, key) =>
      if of.Variable? && of.name in scope && scope[of.name].Whole? then Get(scope[of.name].node, key)
      else S.access(CypherValue(of, scope, S), key)
    case Integer(text) => S.number(text)
    case Float(text, finite) => S.float(text)
    case Str(value) => Text(value)
    case Flag(flag) => Truth(flag)
    case NullLiteral => Null
    case Unary(op, x) => Operate1(S, op, CypherValue(x, scope, S))
    case Binary(op, x, y) => Operate(S, op, CypherValue(x, scope, S), CypherValue(y, scope, S))
    case IsNull(x) => Truth(CypherValue(x, scope, S) == Null)
    case IsNotNull(x) => Truth(CypherValue(x, scope, S) != Null)
    case Function(name, args, distinct) => S.call(name, CypherValues(args, scope, S))
    case List(values) => Items(CypherValues(values, scope, S))
    case Unsupported(_) => Null
  }

  function CypherValues(es: seq<Expr>, scope: Scope, S: Semantics): seq<Value> {
    if es == [] then [] else [CypherValue(es[0], scope, S)] + CypherValues(es[1..], scope, S)
  }

  /** The variables that an expression names. */
  function Names(e: Expr): set<string> {
    match e
    case Variable(name) => {name}
    case Property(of, _) => Names(of)
    case Unary(_, x) => Names(x)
    case Binary(_, x, y) => Names(x) + Names(y)
    case IsNull(x) => Names(x)
    case IsNotNull(x) => Names(x)
    case Function(_, args, _) => AllNames(args)
    case List(values) => AllNames(values)
    case _ => {}
  }

  function AllNames(es: seq<Expr>): set<string> {
    if es == [] then {} else Names(es[0]) + AllNames(es[1..])
  }

  /** The variables that an expression reads a property of. */
  function NodeNames(e: Expr): set<string> {
    match e
    case Property(of, _) => if of.Variable? then {of.name} else NodeNames(of)
    case Unary(_, x) => NodeNames(x)
    case Binary(_, x, y) => NodeNames(x) + NodeNames(y)
    case IsNull(x) => NodeNames(x)
    case IsNotNull(x) => NodeNames(x)
    case Function(_, args, _) => AllNodeNames(args)
    case List(values) => AllNodeNames(values)
    case _ => {}
  }

  function AllNodeNames(es: seq<Expr>): set<string> {
    if es == [] then {} else NodeNames(es[0]) + AllNodeNames(es[1..])
  }

  /** The variables whose value an expression uses. */
  function ValueNames(e: Expr): set<string> {
    match e
    case Variable(name) => {name}
    case Property(of, _) => if of.Variable? then {} else ValueNames(of)
    case Unary(_, x) => ValueNames(x)
    case Binary(_, x, y) => ValueNames(x) + ValueNames(y)
    case IsNull(x) => ValueNames(x)
    case IsNotNull(x) => ValueNames(x)
    case Function(_, args, _) => AllValueNames(args)
    case List(values) => AllValueNames(values)
    case _ => {}
  }

  function AllValueNames(es: seq<Expr>): set<string> {
    if es == [] then {} else ValueNames(es[0]) + AllValueNames(es[1..])
  }

  lemma {:induction false} NamesAreUsed(e: Expr)
    ensures Names(e) == NodeNames(e) + ValueNames(e)
    decreases e, 1
  {
    match e
    case Property(of, _) => NamesAreUsed(of);
    case Unary(_, x) => NamesAreUsed(x);
    case Binary(_, x, y) => NamesAreUsed(x); NamesAreUsed(y);
    case IsNull(x) => NamesAreUsed(x);
    case IsNotNull(x) => NamesAreUsed(x);
    case Function(_, args, _) => AllNamesAreUsed(args);
    case List(values) => AllNamesAreUsed(values);
    case _ =>
  }

  lemma {:induction false} AllNamesAreUsed(es: seq<Expr>)
    ensures AllNames(es) == AllNodeNames(es) + AllValueNames(es)
    decreases es, 0
  {
    if es != [] {
      NamesAreUsed(es[0]);
      AllNamesAreUsed(es[1..]);
    }
  }

  /** A variable that is passed on keeps what it stands for; anything else becomes a value. */
  function Bind(e: Expr, scope: Scope, S: Semantics): Binding {
    if e.Variable? && e.name in scope then scope[e.name] else Plain(CypherValue(e, scope, S))
  }

  /** What the items of a WITH or RETURN clause bind, all evaluated in the scope before it. */
  function Outputs(items: seq<Item>, scope: Scope, S: Semantics): Scope {
    if items == [] then map[]
    else
      var item := items[|items| - 1];
      var before := Outputs(items[..|items| - 1], scope, S);
      if NameOf(item).None? then before else before[NameOf(item).value := Bind(item.expr, scope, S)]
  }

  function MatchScope(rule: Rule, row: Row): Scope {
    map["source" := Whole(row.source)][rule.target := Whole(row.target)]
  }

  /** What RETURN sees. */
  function WithScope(rule: Rule, row: Row, S: Semantics): Scope {
    match rule.carried
    case None => MatchScope(rule, row)
    case Some(c) => Outputs(c.0, MatchScope(rule, row), S)
  }

  /** The predicate of a WITH clause sees the scope before it, hidden by what it binds. */
  function WhereScope(rule: Rule, row: Row, S: Semantics): Scope {
    MatchScope(rule, row) + WithScope(rule, row, S)
  }

  /** ORDER BY sees the scope before RETURN, hidden by what RETURN binds. */
  function OrderScope(rule: Rule, row: Row, S: Semantics): Scope {
    WithScope(rule, row, S) + Outputs(rule.returned, WithScope(rule, row, S), S)
  }

  // ---------------------------------------------------------------- rules that Cypher accepts

  predicate DistinctNames(items: seq<Item>) {
    forall i, j :: 0 <= i < j < |items| && NameOf(items[i]).Some? ==> NameOf(items[i]) != NameOf(items[j])
  }

  function NamesOf(items: seq<Item>): set<string> {
    set i | 0 <= i < |items| && NameOf(items[i]).Some? :: NameOf(items[i]).value
  }

  predicate ItemsSee(items: seq<Item>, names: set<string>) {
    forall i :: 0 <= i < |items| ==> Names(items[i].expr) <= names
  }

  function Matched(rule: Rule): set<string> {
    {"source", rule.target}
  }

  function Passed(rule: Rule): set<string> {
    if rule.carried.Some? then NamesOf(rule.carried.value.0) else Matched(rule)
  }

  /** Every name is in scope where it is used and no clause binds a name twice. */
  predicate WellScoped(rule: Rule) {
    && (rule.matchPredicate.Some? ==> Names(rule.matchPredicate.value) <= Matched(rule))
    && (rule.carried.Some? ==>
          && ItemsSee(rule.carried.value.0, Matched(rule)) && DistinctNames(rule.carried.value.0)
          && (rule.carried.value.1.Some? ==> Names(rule.carried.value.1.value) <= Matched(rule) + Passed(rule)))
    && ItemsSee(rule.returned, Passed(rule)) && DistinctNames(rule.returned)
    && Names(rule.order) <= Passed(rule) + NamesOf(rule.returned)
  }

  /** RETURN leaves the meaning of a name alone. */
  predicate Untouched(name: string, items: seq<Item>) {
    forall i :: 0 <= i < |items| && NameOf(items[i]) == Some(name) ==> items[i].expr == Variable(name)
  }

  /** If WITH binds the name of the source node, its own items do not use that name as a value and
      nothing after it reads a property of the node. */
  predicate SourceUnhidden(rule: Rule) {
    rule.carried.Some? && "source" in NamesOf(rule.carried.value.0) ==>
      && (forall i :: 0 <= i < |rule.carried.value.0| ==> "source" !in ValueNames(rule.carried.value.0[i].expr))
      && (rule.carried.value.1.Some? ==> "source" !in NodeNames(rule.carried.value.1.value))
      && (forall i :: 0 <= i < |rule.returned| ==> "source" !in NodeNames(rule.returned[i].expr))
      && "source" !in NodeNames(rule.order)
  }

  /** No name is used where a later clause has given it another meaning: the source node after WITH,
      and, unless ORDER BY is a plain name, the names of ORDER BY after RETURN. */
  predicate Unhidden(rule: Rule) {
    && SourceUnhidden(rule)
    && (!rule.order.Variable? ==> forall name :: name in Names(rule.order) ==> Untouched(name, rule.returned))
  }

  // ---------------------------------------------------------------- float literals

  /** The value of the expression is kept exactly: a float literal without a point, which SQL may read
      as an integer, reaches neither arithmetic nor the result. `exact` are the names whose values
      are kept exactly. */
  predicate Exact(e: Expr, lenient: bool, exact: set<string>)
    decreases e, 0
  {
    match e
    case Variable(name) => name in exact
    case Float(text, _) => '.' in text
    case Unary(_, x) => Exact(x, lenient, exact)
    case Binary(op, x, y) =>
      if lenient && Comparison(op) then Close(x, lenient, exact) && Close(y, lenient, exact)
      else Exact(x, lenient, exact) && Exact(y, lenient, exact)
    case IsNull(x) => Close(x, lenient, exact)
    case IsNotNull(x) => Close(x, lenient, exact)
    case Function(_, args, _) => AllClose(args, lenient, exact)
    case List(values) => AllExact(values, lenient, exact)
    case _ => true
  }

  /** The value is kept up to numbers of one value. */
  predicate Close(e: Expr, lenient: bool, exact: set<string>)
    decreases e, 1
  {
    match e
    case Variable(_) => true
    case Float(_, _) => true
    case List(values) => AllClose(values, lenient, exact)
    case _ => Exact(e, lenient, exact)
  }

  predicate AllExact(es: seq<Expr>, lenient: bool, exact: set<string>) {
    es == [] || (Exact(es[0], lenient, exact) && AllExact(es[1..], lenient, exact))
  }

  predicate AllClose(es: seq<Expr>, lenient: bool, exact: set<string>) {
    es == [] || (Close(es[0], lenient, exact) && AllClose(es[1..], lenient, exact))
  }

  lemma {:induction false} ExactIsClose(e: Expr, lenient: bool, exact: set<string>)
    requires Exact(e, lenient, exact)
    ensures Close(e, lenient, exact)
    decreases e, 1
  {
    if e.List? { AllExactIsClose(e.values, lenient, exact); }
  }

  lemma {:induction false} AllExactIsClose(es: seq<Expr>, lenient: bool, exact: set<string>)
    requires AllExact(es, lenient, exact)
    ensures AllClose(es, lenient, exact)
    decreases es, 0
  {
    if es != [] {
      ExactIsClose(es[0], lenient, exact);
      AllExactIsClose(es[1..], lenient, exact);
    }
  }

  predicate ExactItem(item: Item, lenient: bool) {
    NameOf(item).Some? && Exact(item.expr, lenient, {})
  }

  function ExactItems(items: seq<Item>, lenient: bool): set<string> {
    if items == [] then {}
    else
      var item := items[|items| - 1];
      ExactItems(items[..|items| - 1], lenient) + if ExactItem(item, lenient) then {NameOf(item).value} else {}
  }

  /** The names that WITH binds to values that are kept exactly. */
  function ExactNames(rule: Rule, lenient: bool): set<string> {
    if rule.carried.None? then {} else ExactItems(rule.carried.value.0, lenient)
  }

  /** The predicates and what RETURN gives are kept exactly, whatever WITH carries up to numbers of one
      value. */
  predicate FloatsKept(rule: Rule, lenient: bool) {
    var exact := ExactNames(rule, lenient);
    && (rule.matchPredicate.Some? ==> Exact(rule.matchPredicate.value, lenient, {}))
    && (rule.carried.Some? ==>
          && (forall i :: 0 <= i < |rule.carried.value.0| ==> Close(rule.carried.value.0[i].expr, lenient, {}))
          && (rule.carried.value.1.Some? ==> Exact(rule.carried.value.1.value, lenient, exact)))
    && (forall i :: 0 <= i < |rule.returned| ==>
          ReturnsTarget(rule.returned[i], rule) || Exact(rule.returned[i].expr, lenient, exact))
    && (!rule.order.Variable? ==> Exact(rule.order, lenient, exact))
  }

  // ---------------------------------------------------------------- translation keeps values

  /** An alias has the value of the variable, exactly or up to numbers of one value. */
  ghost predicate Ties(t: Term, b: Binding, exactly: bool, row: Row, S: Semantics) {
    b.Plain? && if exactly then TermValue(t, row, S) == b.value else Near(S, TermValue(t, row, S), b.value)
  }

  ghost predicate NodesFit(names: set<string>, target: string, scope: Scope, row: Row) {
    && ("source" in names ==> "source" in scope && scope["source"] == Whole(row.source))
    && (target in names && target != "source" ==> target in scope && scope[target] == Whole(row.target))
  }

  ghost predicate AliasesFit(names: set<string>, aliases: Aliases, exact: set<string>, scope: Scope, row: Row,
                             S: Semantics)
  {
    forall name :: name in names && name in aliases ==>
      name in scope && Ties(aliases[name], scope[name], name in exact, row, S)
  }

  /** In the scope, the nodes that the expression reads are the row's, and the aliases that it uses have
      the values of the variables. */
  ghost predicate Fits(e: Expr, target: string, aliases: Aliases, exact: set<string>, scope: Scope, row: Row,
                       S: Semantics)
  {
    NodesFit(NodeNames(e), target, scope, row) && AliasesFit(ValueNames(e), aliases, exact, scope, row, S)
  }

  ghost predicate AllFit(es: seq<Expr>, target: string, aliases: Aliases, exact: set<string>, scope: Scope, row: Row,
                         S: Semantics)
  {
    NodesFit(AllNodeNames(es), target, scope, row) && AliasesFit(AllValueNames(es), aliases, exact, scope, row, S)
  }

  /** What translation keeps. */
  ghost predicate Keeps(e: Expr, v: Value, lenient: bool, exact: set<string>, scope: Scope, S: Semantics) {
    && Near(S, v, CypherValue(e, scope, S))
    && (Exact(e, lenient, exact) ==> v == CypherValue(e, scope, S))
  }

  /** Translation keeps the value, whatever the aliases expand to. */
  lemma {:induction false} SqlMeaning(e: Expr, target: string, aliases: Aliases, lenient: bool, exact: set<string>,
                                      scope: Scope, row: Row, S: Semantics)
    requires Admissible(S, lenient) && Fits(e, target, aliases, exact, scope, row, S)
    requires Sql(e, target, aliases).Some? && Close(e, lenient, exact)
    ensures Keeps(e, TermValue(Sql(e, target, aliases).value, row, S), lenient, exact, scope, S)
    decreases e, 1
  {
    if e.Binary? {
      BinaryMeaning(e, target, aliases, lenient, exact, scope, row, S);
    } else if e.Unary? || e.IsNull? || e.IsNotNull? {
      UnaryMeaning(e, target, aliases, lenient, exact, scope, row, S);
    } else if e.Function? || e.List? {
      ListMeaning(e, target, aliases, lenient, exact, scope, row, S);
    } else {
      LeafMeaning(e, target, aliases, lenient, exact, scope, row, S);
    }
  }

  lemma {:induction false} UnaryMeaning(e: Expr, target: string, aliases: Aliases, lenient: bool, exact: set<string>,
                                        scope: Scope, row: Row, S: Semantics)
    requires e.Unary? || e.IsNull? || e.IsNotNull?
    requires Admissible(S, lenient) && Fits(e, target, aliases, exact, scope, row, S)
    requires Sql(e, target, aliases).Some? && Close(e, lenient, exact)
    ensures Keeps(e, TermValue(Sql(e, target, aliases).value, row, S), lenient, exact, scope, S)
    decreases e, 0
  {
    var x := if e.Unary? then e.operand else e.of;
    if e.Unary? { ExactIsClose(x, lenient, exact); }
    SqlMeaning(x, target, aliases, lenient, exact, scope, row, S);
  }

  lemma {:induction false} ListMeaning(e: Expr, target: string, aliases: Aliases, lenient: bool, exact: set<string>,
                                       scope: Scope, row: Row, S: Semantics)
    requires e.Function? || e.List?
    requires Admissible(S, lenient) && Fits(e, target, aliases, exact, scope, row, S)
    requires Sql(e, target, aliases).Some? && Close(e, lenient, exact)
    ensures Keeps(e, TermValue(Sql(e, target, aliases).value, row, S), lenient, exact, scope, S)
    decreases e, 0
  {
    SqlAllMeaning(if e.List? then e.values else e.args, target, aliases, lenient, exact, scope, row, S);
  }

  lemma {:induction false} BinaryMeaning(e: Expr, target: string, aliases: Aliases, lenient: bool, exact: set<string>,
                                         scope: Scope, row: Row, S: Semantics)
    requires e.Binary? && Admissible(S, lenient) && Fits(e, target, aliases, exact, scope, row, S)
    requires Sql(e, target, aliases).Some? && Close(e, lenient, exact)
    ensures Keeps(e, TermValue(Sql(e, target, aliases).value, row, S), lenient, exact, scope, S)
    decreases e, 0
  {
    if !(lenient && Comparison(e.op)) {
      ExactIsClose(e.lhs, lenient, exact);
      ExactIsClose(e.rhs, lenient, exact);
    }
    SqlMeaning(e.lhs, target, aliases, lenient, exact, scope, row, S);
    SqlMeaning(e.rhs, target, aliases, lenient, exact, scope, row, S);
  }

  predicate Leaf(e: Expr) {
    !e.Unary? && !e.Binary? && !e.IsNull? && !e.IsNotNull? && !e.Function? && !e.List?
  }

  lemma LeafMeaning(e: Expr, target: string, aliases: Aliases, lenient: bool, exact: set<string>,
                    scope: Scope, row: Row, S: Semantics)
    requires Leaf(e) && Admissible(S, lenient) && Fits(e, target, aliases, exact, scope, row, S)
    requires Sql(e, target, aliases).Some?
    ensures Keeps(e, TermValue(Sql(e, target, aliases).value, row, S), lenient, exact, scope, S)
  {
  }

  lemma {:induction false} SqlAllMeaning(es: seq<Expr>, target: string, aliases: Aliases, lenient: bool,
                                         exact: set<string>, scope: Scope, row: Row, S: Semantics)
    requires Admissible(S, lenient) && AllFit(es, target, aliases, exact, scope, row, S)
    requires SqlAll(es, target, aliases).Some? && AllClose(es, lenient, exact)
    ensures AllNear(S, TermValues(SqlAll(es, target, aliases).value, row, S), CypherValues(es, scope, S))
    ensures AllExact(es, lenient, exact) ==>
      TermValues(SqlAll(es, target, aliases).value, row, S) == CypherValues(es, scope, S)
    decreases es, 0
  {
    if es != [] {
      SqlMeaning(es[0], target, aliases, lenient, exact, scope, row, S);
      SqlAllMeaning(es[1..], target, aliases, lenient, exact, scope, row, S);
      var ts := SqlAll(es, target, aliases).value;
      assert ts[1..] == SqlAll(es[1..], target, aliases).value;
    }
  }

  /** A predicate accepted by the test is not true of any row whose score is NULL. */
  lemma {:induction false} RejectsNullSound(e: Expr, score: Term, target: string, aliases: Aliases, lenient: bool,
                                            exact: set<string>, scope: Scope, row: Row, S: Semantics)
    requires Admissible(S, lenient) && Fits(e, target, aliases, exact, scope, row, S) && Exact(e, lenient, exact)
    requires RejectsNull(e, score, target, aliases) && TermValue(score, row, S) == Null
    ensures CypherValue(e, scope, S) != Truth(true)
  {
    match e
    case Binary(op, x, y) =>
      if op.And? || op.Or? {
        if RejectsNull(x, score, target, aliases) {
          RejectsNullSound(x, score, target, aliases, lenient, exact, scope, row, S);
        }
        if RejectsNull(y, score, target, aliases) {
          RejectsNullSound(y, score, target, aliases, lenient, exact, scope, row, S);
        }
      } else if Sql(x, target, aliases) == Some(score) {
        ScoreIsNull(x, score, target, aliases, lenient, exact, scope, row, S);
      } else {
        ScoreIsNull(y, score, target, aliases, lenient, exact, scope, row, S);
      }
    case IsNotNull(x) => ScoreIsNull(x, score, target, aliases, lenient, exact, scope, row, S);
  }

  lemma ScoreIsNull(e: Expr, score: Term, target: string, aliases: Aliases, lenient: bool,
                    exact: set<string>, scope: Scope, row: Row, S: Semantics)
    requires Admissible(S, lenient) && Fits(e, target, aliases, exact, scope, row, S)
    requires Exact(e, lenient, exact) || Close(e, lenient, exact)
    requires Sql(e, target, aliases) == Some(score) && TermValue(score, row, S) == Null
    ensures CypherValue(e, scope, S) == Null
  {
    if Exact(e, lenient, exact) { ExactIsClose(e, lenient, exact); }
    SqlMeaning(e, target, aliases, lenient, exact, scope, row, S);
  }

  // ---------------------------------------------------------------- clauses bind what they say

  lemma {:induction false} OutputsKeys(items: seq<Item>, scope: Scope, S: Semantics)
    ensures Outputs(items, scope, S).Keys == NamesOf(items)
  {
    if items != [] {
      var n := |items| - 1;
      OutputsKeys(items[..n], scope, S);
      assert items == items[..n] + [items[n]];
      NamesSnoc(items[..n], items[n]);
    }
  }

  lemma NamesSnoc(items: seq<Item>, item: Item)
    ensures NamesOf(items + [item]) == NamesOf(items) + (if NameOf(item).Some? then {NameOf(item).value} else {})
  {
    var all := items + [item];
    assert forall i :: 0 <= i < |items| ==> all[i] == items[i];
    assert all[|items|] == item;
    if NameOf(item).Some? { assert NameOf(all[|items|]).value in NamesOf(all); }
    forall i | 0 <= i < |items| && NameOf(items[i]).Some? ensures NameOf(items[i]).value in NamesOf(all) {
      assert NameOf(all[i]).value in NamesOf(all);
    }
  }

  /** With distinct names every item is found under its own. */
  lemma {:induction false} OutputsAt(items: seq<Item>, scope: Scope, S: Semantics, i: nat)
    requires DistinctNames(items) && i < |items| && NameOf(items[i]).Some?
    ensures NameOf(items[i]).value in Outputs(items, scope, S)
    ensures Outputs(items, scope, S)[NameOf(items[i]).value] == Bind(items[i].expr, scope, S)
  {
    var n := |items| - 1;
    if i < n {
      assert items[..n][i] == items[i];
      OutputsAt(items[..n], scope, S, i);
    }
  }

  /** The value of an expression depends only on the variables it names. */
  lemma {:induction false} NamesDecide(e: Expr, one: Scope, two: Scope, S: Semantics)
    requires forall name :: name in Names(e) ==> name in one && name in two && one[name] == two[name]
    ensures CypherValue(e, one, S) == CypherValue(e, two, S)
    decreases e, 1
  {
    match e
    case Property(of, _) => NamesDecide(of, one, two, S);
    case Unary(_, x) => NamesDecide(x, one, two, S);
    case Binary(_, x, y) => NamesDecide(x, one, two, S); NamesDecide(y, one, two, S);
    case IsNull(x) => NamesDecide(x, one, two, S);
    case IsNotNull(x) => NamesDecide(x, one, two, S);
    case Function(_, args, _) => AllNamesDecide(args, one, two, S);
    case List(values) => AllNamesDecide(values, one, two, S);
    case _ =>
  }

  lemma {:induction false} AllNamesDecide(es: seq<Expr>, one: Scope, two: Scope, S: Semantics)
    requires forall name :: name in AllNames(es) ==> name in one && name in two && one[name] == two[name]
    ensures CypherValues(es, one, S) == CypherValues(es, two, S)
    decreases es, 0
  {
    if es != [] {
      NamesDecide(es[0], one, two, S);
      AllNamesDecide(es[1..], one, two, S);
    }
  }

  // ---------------------------------------------------------------- the target is not the source

  /** No column of the target is read. */
  predicate SourceOnly(t: Term) {
    match t
    case Column(side, _) => side.Source?
    case UnaryT(_, x) => SourceOnly(x)
    case BinaryT(_, x, y) => SourceOnly(x) && SourceOnly(y)
    case IsNullT(x) => SourceOnly(x)
    case IsNotNullT(x) => SourceOnly(x)
    case CallT(_, args) => forall i :: 0 <= i < |args| ==> SourceOnly(args[i])
    case ArrayT(values) => forall i :: 0 <= i < |values| ==> SourceOnly(values[i])
    case _ => true
  }

  predicate AllSourceOnly(aliases: Aliases) {
    forall name :: name in aliases ==> SourceOnly(aliases[name])
  }

  lemma {:induction false} SqlSourceOnly(e: Expr, aliases: Aliases)
    requires AllSourceOnly(aliases) && Sql(e, "source", aliases).Some?
    ensures SourceOnly(Sql(e, "source", aliases).value)
    decreases e, 1
  {
    match e
    case Unary(_, x) => SqlSourceOnly(x, aliases);
    case Binary(_, x, y) => SqlSourceOnly(x, aliases); SqlSourceOnly(y, aliases);
    case IsNull(x) => SqlSourceOnly(x, aliases);
    case IsNotNull(x) => SqlSourceOnly(x, aliases);
    case Function(_, args, _) => SqlAllSourceOnly(args, aliases);
    case List(values) => SqlAllSourceOnly(values, aliases);
    case _ =>
  }

  lemma {:induction false} SqlAllSourceOnly(es: seq<Expr>, aliases: Aliases)
    requires AllSourceOnly(aliases) && SqlAll(es, "source", aliases).Some?
    ensures var ts := SqlAll(es, "source", aliases).value; forall i :: 0 <= i < |ts| ==> SourceOnly(ts[i])
    decreases es, 0
  {
    if es != [] {
      SqlSourceOnly(es[0], aliases);
      SqlAllSourceOnly(es[1..], aliases);
    }
  }

  lemma {:induction false} AliasesSourceOnly(items: seq<Item>)
    requires AliasesOf(items, "source").Some?
    ensures AllSourceOnly(AliasesOf(items, "source").value)
  {
    if items != [] {
      var front, item := items[..|items| - 1], items[|items| - 1];
      AliasesSourceOnly(front);
      if !Carries(item, "source") { SqlSourceOnly(item.expr, AliasesOf(front, "source").value); }
    }
  }

  lemma {:induction false} PropertiesSourceOnly(items: seq<Item>, rule: Rule, aliases: Aliases)
    requires rule.target == "source" && AllSourceOnly(aliases) && PropertiesOf(items, rule, aliases).Some?
    ensures AllSourceOnly(PropertiesOf(items, rule, aliases).value)
  {
    if items != [] {
      var front, item := items[..|items| - 1], items[|items| - 1];
      PropertiesSourceOnly(front, rule, aliases);
      if !ReturnsTarget(item, rule) { SqlSourceOnly(item.expr, aliases); }
    }
  }

  lemma ServedReadsTarget(score: Term, indexed: Term -> bool)
    requires Served(score, indexed)
    ensures !SourceOnly(score)
  {
  }

  /** A rule that matches the source itself again is never recognised: its score would have to
      read a column of the target. */
  lemma TargetIsNotSource(rule: Rule, indexed: Term -> bool)
    requires PlanOf(rule, indexed).Some?
    ensures rule.target != "source"
  {
    ServedReadsTarget(PlanOf(rule, indexed).value.score, indexed);
    if rule.target == "source" {
      if rule.carried.Some? { AliasesSourceOnly(rule.carried.value.0); }
      if !rule.order.Variable? { SqlSourceOnly(rule.order, Known(rule).value); }
      PropertiesSourceOnly(rule.returned, rule, Known(rule).value);
    }
  }

  // ---------------------------------------------------------------- WITH

  predicate OnlyCarried(items: seq<Item>, target: string) {
    forall i :: 0 <= i < |items| && NameOf(items[i]) == Some(target) ==> Carries(items[i], target)
  }

  lemma {:induction false} CarriedUnderItsName(items: seq<Item>, target: string)
    requires AliasesOf(items, target).Some?
    ensures forall i :: 0 <= i < |items| && Carries(items[i], target) ==> NameOf(items[i]) == Some(target)
  {
    if items != [] {
      var n := |items| - 1;
      CarriedUnderItsName(items[..n], target);
      assert forall i :: 0 <= i < n ==> items[..n][i] == items[i];
    }
  }

  lemma {:induction false} ExactItemsNamed(items: seq<Item>, lenient: bool)
    ensures ExactItems(items, lenient) <= NamesOf(items)
  {
    if items != [] {
      var n := |items| - 1;
      ExactItemsNamed(items[..n], lenient);
      assert items == items[..n] + [items[n]];
      NamesSnoc(items[..n], items[n]);
    }
  }

  /** No item uses the source node as a value where an item binds its name. */
  predicate SourceNotUsed(items: seq<Item>) {
    "source" !in NamesOf(items) || forall i :: 0 <= i < |items| ==> "source" !in ValueNames(items[i].expr)
  }

  predicate ItemsClose(items: seq<Item>, lenient: bool) {
    forall i :: 0 <= i < |items| ==> Close(items[i].expr, lenient, {})
  }

  /** What WITH needs so that the aliases mean what it binds. */
  predicate WithOk(items: seq<Item>, rule: Rule, lenient: bool) {
    && AliasesOf(items, rule.target).Some? && rule.target != "source"
    && ItemsSee(items, Matched(rule)) && OnlyCarried(items, rule.target) && DistinctNames(items)
    && SourceNotUsed(items) && ItemsClose(items, lenient)
  }

  ghost predicate AliasesTied(aliases: Aliases, exact: set<string>, scope: Scope, row: Row, S: Semantics) {
    forall name :: name in aliases ==> name in scope && Ties(aliases[name], scope[name], name in exact, row, S)
  }

  lemma WithOkFront(items: seq<Item>, rule: Rule, lenient: bool)
    requires WithOk(items, rule, lenient) && items != []
    ensures WithOk(items[..|items| - 1], rule, lenient)
    ensures NameOf(items[|items| - 1]).Some? ==> NameOf(items[|items| - 1]).value !in NamesOf(items[..|items| - 1])
  {
    var n := |items| - 1;
    var front := items[..n];
    assert forall i :: 0 <= i < n ==> front[i] == items[i];
    assert items == front + [items[n]];
    NamesSnoc(front, items[n]);
  }

  /** The aliases have the values of the variables that WITH binds. */
  lemma {:induction false} AliasesMeaning(items: seq<Item>, rule: Rule, lenient: bool, row: Row, S: Semantics)
    requires WithOk(items, rule, lenient) && Admissible(S, lenient)
    ensures var aliases, scope := AliasesOf(items, rule.target).value, Outputs(items, MatchScope(rule, row), S);
      && AliasesTied(aliases, ExactItems(items, lenient), scope, row, S) && rule.target !in aliases
      && (rule.target in scope ==> scope[rule.target] == Whole(row.target))
  {
    if items != [] {
      var n := |items| - 1;
      var front, item, scope := items[..n], items[n], MatchScope(rule, row);
      WithOkFront(items, rule, lenient);
      AliasesMeaning(front, rule, lenient, row, S);
      OutputsKeys(front, scope, S);
      ExactItemsNamed(front, lenient);
      if Carries(item, rule.target) {
        CarriedUnderItsName(items, rule.target);
      } else {
        AliasesNamed(front, rule, row, S, lenient);
        NewAlias(items, rule, lenient, AliasesOf(front, rule.target).value, row, S);
      }
    }
  }

  lemma AliasesNamed(items: seq<Item>, rule: Rule, row: Row, S: Semantics, lenient: bool)
    requires AliasesOf(items, rule.target).Some?
    requires AliasesTied(AliasesOf(items, rule.target).value, ExactItems(items, lenient),
                         Outputs(items, MatchScope(rule, row), S), row, S)
    ensures AliasesOf(items, rule.target).value.Keys <= NamesOf(items)
  {
    OutputsKeys(items, MatchScope(rule, row), S);
  }

  lemma NewAlias(items: seq<Item>, rule: Rule, lenient: bool, before: Aliases, row: Row, S: Semantics)
    requires WithOk(items, rule, lenient) && Admissible(S, lenient) && items != []
    requires rule.target !in before && before.Keys <= NamesOf(items[..|items| - 1])
    requires Sql(items[|items| - 1].expr, rule.target, before).Some?
    ensures var e := items[|items| - 1].expr;
      Ties(Sql(e, rule.target, before).value, Bind(e, MatchScope(rule, row), S), Exact(e, lenient, {}), row, S)
  {
    var n := |items| - 1;
    var e := items[n].expr;
    NamesAreUsed(e);
    assert items == items[..n] + [items[n]];
    NamesSnoc(items[..n], items[n]);
    assert forall name :: name in ValueNames(e) ==> name !in before;
    SqlMeaning(e, rule.target, before, lenient, {}, MatchScope(rule, row), row, S);
  }

  /** What is in scope after the optional WITH clause. */
  ghost predicate Scoped(rule: Rule, lenient: bool, row: Row, S: Semantics)
    requires Known(rule).Some?
  {
    var scope := WithScope(rule, row, S);
    && AliasesTied(Known(rule).value, ExactNames(rule, lenient), scope, row, S)
    && scope.Keys == Passed(rule) && rule.target in scope && scope[rule.target] == Whole(row.target)
    && (rule.carried.None? ==> "source" in scope && scope["source"] == Whole(row.source))
  }

  lemma WithMeaning(rule: Rule, lenient: bool, row: Row, S: Semantics)
    requires Admissible(S, lenient) && Known(rule).Some? && rule.target != "source"
    requires WellScoped(rule) && Unhidden(rule) && FloatsKept(rule, lenient)
    ensures Scoped(rule, lenient, row, S)
  {
    if rule.carried.Some? {
      var items := rule.carried.value.0;
      CarriedUnderItsName(items, rule.target);
      assert OnlyCarried(items, rule.target);
      assert WithOk(items, rule, lenient);
      AliasesMeaning(items, rule, lenient, row, S);
      OutputsKeys(items, MatchScope(rule, row), S);
      var i :| 0 <= i < |items| && Carries(items[i], rule.target);
      assert NameOf(items[i]).value in NamesOf(items);
    }
  }

  /** The predicate of MATCH sees the two nodes and no alias. */
  lemma MatchFits(rule: Rule, e: Expr, row: Row, S: Semantics)
    requires rule.target != "source"
    ensures Fits(e, rule.target, map[], {}, MatchScope(rule, row), row, S)
  {
  }

  /** The source node is not read where WITH has bound its name. */
  predicate ReadsNoHidden(rule: Rule, e: Expr) {
    rule.carried.Some? && "source" in NamesOf(rule.carried.value.0) ==> "source" !in NodeNames(e)
  }

  lemma WhereFits(rule: Rule, lenient: bool, e: Expr, row: Row, S: Semantics)
    requires Known(rule).Some? && Scoped(rule, lenient, row, S) && rule.target != "source" && ReadsNoHidden(rule, e)
    ensures Fits(e, rule.target, Known(rule).value, ExactNames(rule, lenient), WhereScope(rule, row, S), row, S)
  {
  }

  lemma WithFits(rule: Rule, lenient: bool, e: Expr, row: Row, S: Semantics)
    requires Known(rule).Some? && Scoped(rule, lenient, row, S) && rule.target != "source" && ReadsNoHidden(rule, e)
    requires Names(e) <= Passed(rule)
    ensures Fits(e, rule.target, Known(rule).value, ExactNames(rule, lenient), WithScope(rule, row, S), row, S)
  {
    NamesAreUsed(e);
  }

  // ---------------------------------------------------------------- RETURN and ORDER BY

  lemma {:induction false} PropertyIsItem(items: seq<Item>, rule: Rule, aliases: Aliases, name: string)
    returns (i: nat)
    requires PropertiesOf(items, rule, aliases).Some? && name in PropertiesOf(items, rule, aliases).value
    ensures i < |items| && NameOf(items[i]) == Some(name) && !ReturnsTarget(items[i], rule)
    ensures Sql(items[i].expr, rule.target, aliases) == Some(PropertiesOf(items, rule, aliases).value[name])
  {
    var n := |items| - 1;
    if !ReturnsTarget(items[n], rule) && NameOf(items[n]) == Some(name) {
      i := n;
    } else {
      i := PropertyIsItem(items[..n], rule, aliases, name);
    }
  }

  /** Every property is what RETURN binds its name to. */
  lemma ReturnMeaning(rule: Rule, lenient: bool, row: Row, S: Semantics, name: string)
    requires Known(rule).Some? && Scoped(rule, lenient, row, S) && rule.target != "source" && Admissible(S, lenient)
    requires WellScoped(rule) && Unhidden(rule) && FloatsKept(rule, lenient)
    requires PropertiesOf(rule.returned, rule, Known(rule).value).Some?
    requires name in PropertiesOf(rule.returned, rule, Known(rule).value).value
    ensures var outputs := Outputs(rule.returned, WithScope(rule, row, S), S);
      name in outputs &&
      outputs[name] == Plain(TermValue(PropertiesOf(rule.returned, rule, Known(rule).value).value[name], row, S))
  {
    var aliases, scope := Known(rule).value, WithScope(rule, row, S);
    var i := PropertyIsItem(rule.returned, rule, aliases, name);
    var e := rule.returned[i].expr;
    OutputsAt(rule.returned, scope, S, i);
    WithFits(rule, lenient, e, row, S);
    ExactIsClose(e, lenient, ExactNames(rule, lenient));
    SqlMeaning(e, rule.target, aliases, lenient, ExactNames(rule, lenient), scope, row, S);
  }

  /** The rule's output is the target node. */
  lemma OutputMeaning(rule: Rule, scope: Scope, row: Row, S: Semantics)
    requires OutputGiven(rule.returned, rule) && DistinctNames(rule.returned)
    requires rule.target in scope && scope[rule.target] == Whole(row.target)
    ensures var outputs := Outputs(rule.returned, scope, S);
      rule.output in outputs && outputs[rule.output] == Whole(row.target)
  {
    var i :| 0 <= i < |rule.returned| && ReturnsTarget(rule.returned[i], rule);
    OutputsAt(rule.returned, scope, S, i);
  }

  /** Names that RETURN does not hide mean the same to ORDER BY. */
  lemma OrderMeaning(rule: Rule, row: Row, S: Semantics)
    requires WithScope(rule, row, S).Keys == Passed(rule) && WellScoped(rule) && Unhidden(rule) && !rule.order.Variable?
    ensures Names(rule.order) <= Passed(rule)
    ensures CypherValue(rule.order, OrderScope(rule, row, S), S) == CypherValue(rule.order, WithScope(rule, row, S), S)
  {
    var scope := WithScope(rule, row, S);
    forall name | name in Names(rule.order)
      ensures name in scope && name in OrderScope(rule, row, S) && OrderScope(rule, row, S)[name] == scope[name]
    {
      OutputsKeys(rule.returned, scope, S);
      if name in NamesOf(rule.returned) {
        var i :| 0 <= i < |rule.returned| && NameOf(rule.returned[i]) == Some(name);
        assert Untouched(name, rule.returned);
        assert rule.returned[i].expr == Variable(name) && name in Names(rule.returned[i].expr);
        OutputsAt(rule.returned, scope, S, i);
      }
    }
    NamesDecide(rule.order, OrderScope(rule, row, S), scope, S);
  }

  // ---------------------------------------------------------------- answers

  /** What a row gives the caller: the output node and the declared properties. */
  type Given = (Binding, Env)
  type Answer = seq<Given>

  /** A row may come before another: NULL scores go to their end of the order. */
  predicate MayPrecede(a: Value, b: Value, descending: bool, nullsLast: bool, S: Semantics) {
    if a == Null && b == Null then true
    else if a == Null then !nullsLast
    else if b == Null then nullsLast
    else if descending then !S.below(a, b) else !S.below(b, a)
  }

  ghost predicate Ranked(rows: seq<Row>, score: Row -> Value, descending: bool, nullsLast: bool, S: Semantics) {
    forall i, j :: 0 <= i < j < |rows| ==> MayPrecede(score(rows[i]), score(rows[j]), descending, nullsLast, S)
  }

  function Kept(rows: seq<Row>, keep: Row -> bool): seq<Row> {
    if rows == [] then [] else (if keep(rows[0]) then [rows[0]] else []) + Kept(rows[1..], keep)
  }

  /** A selection: the surviving rows in some ranked order, cut at the limit and projected. */
  datatype Selection = Selection(
    keep: Row -> bool, score: Row -> Value, project: Row -> Given, descending: bool, nullsLast: bool, limit: nat)

  ghost predicate Ranking(q: Selection, rows: seq<Row>, ranked: seq<Row>, S: Semantics) {
    multiset(ranked) == multiset(Kept(rows, q.keep)) && Ranked(ranked, q.score, q.descending, q.nullsLast, S)
  }

  function Cut(ranked: seq<Row>, limit: nat): seq<Row> {
    if limit < |ranked| then ranked[..limit] else ranked
  }

  function Projected(rows: seq<Row>, project: Row -> Given): Answer {
    if rows == [] then [] else [project(rows[0])] + Projected(rows[1..], project)
  }

  ghost predicate Answers(q: Selection, rows: seq<Row>, S: Semantics, out: Answer) {
    exists ranked :: Ranking(q, rows, ranked, S) && out == Projected(Cut(ranked, q.limit), q.project)
  }

  predicate Holds(v: Value) {
    v == Truth(true)
  }

  /** What the caller reads of the names that RETURN binds. */
  function Reading(rule: Rule, outputs: Scope, S: Semantics): Given {
    (if rule.output in outputs then outputs[rule.output] else Plain(Null),
     ReadValues(rule.declared, outputs, S))
  }

  /** What the Cypher rule asks: NULL is the largest value, so it comes first in descending order. */
  function RuleSelection(rule: Rule, S: Semantics): Selection {
    Selection(
      (row: Row) =>
        && (rule.target == "source" ==> row.source == row.target)
        && (rule.matchPredicate.Some? ==>
              Holds(CypherValue(rule.matchPredicate.value, MatchScope(rule, row), S)))
        && (rule.carried.Some? && rule.carried.value.1.Some? ==>
              Holds(CypherValue(rule.carried.value.1.value, WhereScope(rule, row, S), S))),
      (row: Row) => CypherValue(rule.order, OrderScope(rule, row, S), S),
      (row: Row) => Reading(rule, Outputs(rule.returned, WithScope(rule, row, S), S), S),
      rule.descending, !rule.descending, rule.limit)
  }

  function PlanSelection(p: Plan, S: Semantics): Selection {
    Selection(
      (row: Row) => forall i :: 0 <= i < |p.predicates| ==> Holds(TermValue(p.predicates[i], row, S)),
      (row: Row) => TermValue(p.score, row, S),
      (row: Row) => (Whole(row.target), PropertyValues(p.properties, row, S)),
      p.descending, p.nullsLast, p.limit)
  }

  // ---------------------------------------------------------------- agreement

  /** Two selections that agree row by row, up to where they put NULL scores if none survives. */
  ghost predicate Alike(p: Selection, q: Selection) {
    && (forall row :: p.keep(row) == q.keep(row) && p.score(row) == q.score(row) && p.project(row) == q.project(row))
    && p.descending == q.descending && p.limit == q.limit
    && (p.nullsLast == q.nullsLast || forall row :: p.keep(row) ==> p.score(row) != Null)
  }

  lemma {:induction false} KeptAlike(rows: seq<Row>, p: Row -> bool, q: Row -> bool)
    requires forall row :: p(row) == q(row)
    ensures Kept(rows, p) == Kept(rows, q)
    ensures forall row :: row in Kept(rows, p) ==> p(row)
  {
    if rows != [] { KeptAlike(rows[1..], p, q); }
  }

  lemma {:induction false} ProjectedAlike(rows: seq<Row>, p: Row -> Given, q: Row -> Given)
    requires forall row :: p(row) == q(row)
    ensures Projected(rows, p) == Projected(rows, q)
  {
    if rows != [] { ProjectedAlike(rows[1..], p, q); }
  }

  lemma RankingAlike(p: Selection, q: Selection, rows: seq<Row>, ranked: seq<Row>, S: Semantics)
    requires Alike(p, q) && Ranking(p, rows, ranked, S)
    ensures Ranking(q, rows, ranked, S)
  {
    KeptAlike(rows, p.keep, q.keep);
    forall i | 0 <= i < |ranked| ensures p.keep(ranked[i]) {
      assert ranked[i] in multiset(ranked);
      assert ranked[i] in Kept(rows, p.keep);
    }
  }

  lemma AnswersAlike(p: Selection, q: Selection, rows: seq<Row>, S: Semantics, out: Answer)
    requires Alike(p, q) && Answers(p, rows, S, out)
    ensures Answers(q, rows, S, out)
  {
    var ranked :| Ranking(p, rows, ranked, S) && out == Projected(Cut(ranked, p.limit), p.project);
    RankingAlike(p, q, rows, ranked, S);
    ProjectedAlike(Cut(ranked, p.limit), p.project, q.project);
  }

  ghost predicate FiltersHold(fs: seq<(Expr, Aliases)>, scopes: seq<Scope>, S: Semantics)
    requires |scopes| == |fs|
  {
    forall i :: 0 <= i < |fs| ==> Holds(CypherValue(fs[i].0, scopes[i], S))
  }

  ghost predicate AllTied(fs: seq<(Expr, Aliases)>, scopes: seq<Scope>, target: string, lenient: bool,
                          exacts: seq<set<string>>, row: Row, S: Semantics)
  {
    && |scopes| == |fs| && |exacts| == |fs|
    && forall i :: 0 <= i < |fs| ==>
         Fits(fs[i].0, target, fs[i].1, exacts[i], scopes[i], row, S) && Exact(fs[i].0, lenient, exacts[i])
  }

  lemma {:induction false} FilterMeaning(fs: seq<(Expr, Aliases)>, target: string, scopes: seq<Scope>, lenient: bool,
                                         exacts: seq<set<string>>, row: Row, S: Semantics)
    requires Admissible(S, lenient) && AllTied(fs, scopes, target, lenient, exacts, row, S)
    requires FilterTerms(fs, target).Some?
    ensures var ts := FilterTerms(fs, target).value;
      |ts| == |fs| && forall i :: 0 <= i < |fs| ==> TermValue(ts[i], row, S) == CypherValue(fs[i].0, scopes[i], S)
  {
    if fs != [] {
      ExactIsClose(fs[0].0, lenient, exacts[0]);
      SqlMeaning(fs[0].0, target, fs[0].1, lenient, exacts[0], scopes[0], row, S);
      FilterMeaning(fs[1..], target, scopes[1..], lenient, exacts[1..], row, S);
    }
  }

  function FilterExacts(rule: Rule, lenient: bool): seq<set<string>> {
    (if rule.matchPredicate.Some? then [{}] else []) +
    (if rule.carried.Some? && rule.carried.value.1.Some? then [ExactNames(rule, lenient)] else [])
  }

  /** The scope that each filter sees. */
  function FilterScopes(rule: Rule, row: Row, S: Semantics): seq<Scope> {
    (if rule.matchPredicate.Some? then [MatchScope(rule, row)] else []) +
    (if rule.carried.Some? && rule.carried.value.1.Some? then [WhereScope(rule, row, S)] else [])
  }

  /** A recognised rule that Cypher accepts, in which no used name is hidden and float literals are
      kept. */
  ghost predicate Regular(rule: Rule, indexed: Term -> bool, lenient: bool) {
    PlanOf(rule, indexed).Some? && WellScoped(rule) && Unhidden(rule) && FloatsKept(rule, lenient)
  }

  lemma FiltersTied(rule: Rule, indexed: Term -> bool, lenient: bool, row: Row, S: Semantics)
    requires Regular(rule, indexed, lenient) && Admissible(S, lenient)
    ensures AllTied(Filters(rule, Known(rule).value), FilterScopes(rule, row, S), rule.target, lenient,
                    FilterExacts(rule, lenient), row, S)
  {
    TargetIsNotSource(rule, indexed);
    WithMeaning(rule, lenient, row, S);
    if rule.matchPredicate.Some? { MatchFits(rule, rule.matchPredicate.value, row, S); }
    if rule.carried.Some? && rule.carried.value.1.Some? {
      WhereFits(rule, lenient, rule.carried.value.1.value, row, S);
    }
  }

  lemma KeepAgrees(rule: Rule, indexed: Term -> bool, lenient: bool, row: Row, S: Semantics)
    requires Regular(rule, indexed, lenient) && Admissible(S, lenient)
    ensures RuleSelection(rule, S).keep(row) == PlanSelection(PlanOf(rule, indexed).value, S).keep(row)
    ensures |FilterScopes(rule, row, S)| == |Filters(rule, Known(rule).value)|
    ensures RuleSelection(rule, S).keep(row) ==
      FiltersHold(Filters(rule, Known(rule).value), FilterScopes(rule, row, S), S)
  {
    TargetIsNotSource(rule, indexed);
    FiltersTied(rule, indexed, lenient, row, S);
    FilterMeaning(Filters(rule, Known(rule).value), rule.target, FilterScopes(rule, row, S), lenient,
                  FilterExacts(rule, lenient), row, S);
    KeepIsFilters(rule, Known(rule).value, row, S);
  }

  lemma KeepIsFilters(rule: Rule, aliases: Aliases, row: Row, S: Semantics)
    requires rule.target != "source"
    ensures |FilterScopes(rule, row, S)| == |Filters(rule, aliases)|
    ensures RuleSelection(rule, S).keep(row) == FiltersHold(Filters(rule, aliases), FilterScopes(rule, row, S), S)
  {
    var fs, scopes := Filters(rule, aliases), FilterScopes(rule, row, S);
    assert rule.matchPredicate.Some? ==>
      fs[0].0 == rule.matchPredicate.value && scopes[0] == MatchScope(rule, row);
    assert rule.carried.Some? && rule.carried.value.1.Some? ==>
      fs[|fs| - 1].0 == rule.carried.value.1.value && scopes[|fs| - 1] == WhereScope(rule, row, S);
  }

  lemma ScoreAgrees(rule: Rule, indexed: Term -> bool, lenient: bool, row: Row, S: Semantics)
    requires Regular(rule, indexed, lenient) && Admissible(S, lenient)
    ensures RuleSelection(rule, S).score(row) == PlanSelection(PlanOf(rule, indexed).value, S).score(row)
  {
    TargetIsNotSource(rule, indexed);
    WithMeaning(rule, lenient, row, S);
    if rule.order.Variable? {
      ReturnMeaning(rule, lenient, row, S, rule.order.name);
    } else {
      OrderMeaning(rule, row, S);
      WithFits(rule, lenient, rule.order, row, S);
      ExactIsClose(rule.order, lenient, ExactNames(rule, lenient));
      SqlMeaning(rule.order, rule.target, Known(rule).value, lenient, ExactNames(rule, lenient),
                 WithScope(rule, row, S), row, S);
    }
  }

  /** The values of the retrieval's properties in a row. */
  function PropertyValues(properties: Aliases, row: Row, S: Semantics): Env {
    map name | name in properties :: TermValue(properties[name], row, S)
  }

  function ReadValues(declared: set<string>, outputs: Scope, S: Semantics): Env {
    map name | name in declared && name in outputs :: BindingValue(outputs[name], S)
  }

  lemma ValuesAgree(properties: Aliases, declared: set<string>, outputs: Scope, row: Row, S: Semantics)
    requires properties.Keys == declared
    requires forall name :: name in properties ==>
      name in outputs && outputs[name] == Plain(TermValue(properties[name], row, S))
    ensures ReadValues(declared, outputs, S) == PropertyValues(properties, row, S)
  {
    var one, two := ReadValues(declared, outputs, S), PropertyValues(properties, row, S);
    assert forall name :: name in one <==> name in two;
    assert forall name :: name in one ==> one[name] == two[name];
  }

  lemma ProjectAgrees(rule: Rule, indexed: Term -> bool, lenient: bool, row: Row, S: Semantics)
    requires Regular(rule, indexed, lenient) && Admissible(S, lenient)
    ensures RuleSelection(rule, S).project(row) == PlanSelection(PlanOf(rule, indexed).value, S).project(row)
  {
    var aliases, scope := Known(rule).value, WithScope(rule, row, S);
    TargetIsNotSource(rule, indexed);
    WithMeaning(rule, lenient, row, S);
    OutputMeaning(rule, scope, row, S);
    var properties, outputs := PropertiesOf(rule.returned, rule, aliases).value, Outputs(rule.returned, scope, S);
    forall name | name in properties
      ensures name in outputs && outputs[name] == Plain(TermValue(properties[name], row, S))
    {
      ReturnMeaning(rule, lenient, row, S, name);
    }
    ValuesAgree(properties, rule.declared, outputs, row, S);
  }

  /** A row with a NULL score never survives filters that the recogniser takes to reject it. */
  lemma NullNeverSurvives(rule: Rule, indexed: Term -> bool, lenient: bool, row: Row, S: Semantics)
    requires Regular(rule, indexed, lenient) && Admissible(S, lenient)
    requires rule.descending && PlanOf(rule, indexed).value.nullsLast
    requires TermValue(PlanOf(rule, indexed).value.score, row, S) == Null
    ensures !RuleSelection(rule, S).keep(row)
  {
    var score := PlanOf(rule, indexed).value.score;
    var fs, scopes, exacts := Filters(rule, Known(rule).value), FilterScopes(rule, row, S), FilterExacts(rule, lenient);
    KeepAgrees(rule, indexed, lenient, row, S);
    FiltersTied(rule, indexed, lenient, row, S);
    var i :| 0 <= i < |fs| && RejectsNull(fs[i].0, score, rule.target, fs[i].1);
    RejectsNullSound(fs[i].0, score, rule.target, fs[i].1, lenient, exacts[i], scopes[i], row, S);
  }

  /** For every such rule, every set of rows and every admissible engine, the retrieval gives exactly
      the answers of the Cypher rule, wherever it puts NULL scores. */
  lemma RetrievalMeaning(
    rule: Rule, indexed: Term -> bool, lenient: bool, rows: seq<Row>, S: Semantics, out: Answer)
    requires Regular(rule, indexed, lenient) && Admissible(S, lenient)
    ensures Answers(PlanSelection(PlanOf(rule, indexed).value, S), rows, S, out) <==>
            Answers(RuleSelection(rule, S), rows, S, out)
  {
    var p, q := PlanSelection(PlanOf(rule, indexed).value, S), RuleSelection(rule, S);
    forall row: Row
      ensures p.keep(row) == q.keep(row) && p.score(row) == q.score(row) && p.project(row) == q.project(row)
      ensures p.nullsLast == q.nullsLast || (p.keep(row) ==> p.score(row) != Null)
    {
      KeepAgrees(rule, indexed, lenient, row, S);
      ScoreAgrees(rule, indexed, lenient, row, S);
      ProjectAgrees(rule, indexed, lenient, row, S);
      if p.nullsLast != q.nullsLast && p.score(row) == Null { NullNeverSurvives(rule, indexed, lenient, row, S); }
    }
    assert Alike(p, q) && Alike(q, p);
    if Answers(p, rows, S, out) { AnswersAlike(p, q, rows, S, out); }
    if Answers(q, rows, S, out) { AnswersAlike(q, p, rows, S, out); }
  }

  /** On every set of rows and every admissible engine, the retrieval has exactly the answers of the
      rule. */
  ghost predicate SameAnswers(p: Plan, rule: Rule, lenient: bool) {
    forall S: Semantics, rows: seq<Row>, out: Answer :: Admissible(S, lenient) ==>
      (Answers(PlanSelection(p, S), rows, S, out) <==> Answers(RuleSelection(rule, S), rows, S, out))
  }

  lemma RecognisedMeaning(rule: Rule, indexed: Term -> bool, lenient: bool)
    ensures Regular(rule, indexed, lenient) ==> SameAnswers(PlanOf(rule, indexed).value, rule, lenient)
  {
    if Regular(rule, indexed, lenient) {
      forall S: Semantics, rows: seq<Row>, out: Answer | Admissible(S, lenient)
        ensures Answers(PlanSelection(PlanOf(rule, indexed).value, S), rows, S, out) <==>
                Answers(RuleSelection(rule, S), rows, S, out)
      {
        RetrievalMeaning(rule, indexed, lenient, rows, S, out);
      }
    }
  }

  /** The recogniser: the loops over the WITH and RETURN items, then the checks. For a rule that
      Cypher accepts, in which no used name is hidden and float literals are kept, a retrieval that it
      gives has exactly the answers of the rule, on every set of rows and every admissible engine. */
  method Recognise(rule: Rule, indexed: Term -> bool) returns (r: Option<Plan>)
    ensures r == PlanOf(rule, indexed)
    ensures forall lenient :: r.Some? && WellScoped(rule) && Unhidden(rule) && FloatsKept(rule, lenient) ==>
      SameAnswers(r.value, rule, lenient)
  {
    RecognisedMeaning(rule, indexed, true);
    RecognisedMeaning(rule, indexed, false);
    var aliases: Aliases := map[];
    if rule.carried.Some? {
      var built := CollectAliases(rule.carried.value.0, rule.target);
      if built.None? {
        return None;
      }
      aliases := built.value;
    }
    var fs := Filters(rule, aliases);
    var predicates := FilterTerms(fs, rule.target);
    if predicates.None? {
      return None;
    }
    var properties := CollectProperties(rule, aliases);
    if properties.None? || properties.value.Keys != rule.declared {
      return None;
    }
    var score := ScoreOf(rule, aliases, properties.value);
    if score.None? || !Served(score.value, indexed) || score.value !in properties.value.Values {
      return None;
    }
    var nullsLast := !rule.descending || SomeRejects(fs, score.value, rule.target);
    return Some(Plan(predicates.value, properties.value, score.value, rule.descending, nullsLast, rule.limit));
  }
}
