/** Rules on which a retrieval would give, or gives, other answers than the Cypher rule. */
module RetrievalFailures {
  import opened Text
  import opened Retrieval
  import opened RuleMeaning

  // ---------------------------------------------------------------- two rows, one answer

  /** Both rows are kept and one must precede the other. */
  predicate Prefers(q: Selection, first: Row, second: Row, S: Semantics) {
    && q.keep(first) && q.keep(second)
    && MayPrecede(q.score(first), q.score(second), q.descending, q.nullsLast, S)
    && !MayPrecede(q.score(second), q.score(first), q.descending, q.nullsLast, S)
  }

  /** Of two kept rows, the one that must precede is the answer with limit 1. */
  lemma FirstOfTwo(q: Selection, first: Row, second: Row, S: Semantics)
    requires Prefers(q, first, second, S) && q.limit == 1
    ensures forall out :: Answers(q, [first, second], S, out) <==> out == [q.project(first)]
    ensures forall out :: Answers(q, [second, first], S, out) <==> out == [q.project(first)]
  {
    BothKept(q, first, second);
    BothKept(q, second, first);
    assert Ranking(q, [first, second], [first, second], S) && Ranking(q, [second, first], [first, second], S);
    assert Cut([first, second], 1) == [first];
    OneProjected(q, first);
    forall rows, ranked | (rows == [first, second] || rows == [second, first]) && Ranking(q, rows, ranked, S)
      ensures ranked == [first, second]
    {
      OnlyOneRanking(q, first, second, ranked, S);
    }
  }

  lemma BothKept(q: Selection, a: Row, b: Row)
    requires q.keep(a) && q.keep(b)
    ensures Kept([a, b], q.keep) == [a, b]
  {
    assert [a, b][1..] == [b];
    assert Kept([b], q.keep) == [b] + Kept([], q.keep);
  }

  lemma OneProjected(q: Selection, row: Row)
    ensures Projected([row], q.project) == [q.project(row)]
  {
    assert [row][1..] == [];
  }

  lemma OnlyOneRanking(q: Selection, first: Row, second: Row, ranked: seq<Row>, S: Semantics)
    requires multiset(ranked) == multiset{first, second}
    requires Ranked(ranked, q.score, q.descending, q.nullsLast, S)
    requires Prefers(q, first, second, S)
    ensures ranked == [first, second]
  {
    assert |multiset(ranked)| == 2;
    assert ranked[0] in multiset(ranked) && ranked[1] in multiset(ranked);
    assert ranked == [ranked[0], ranked[1]];
    assert multiset(ranked)[first] == 1;
    assert MayPrecede(q.score(ranked[0]), q.score(ranked[1]), q.descending, q.nullsLast, S);
  }

  // ---------------------------------------------------------------- the NULL test is needed

  const UNSCORED: Row := Row(map[], map["x" := Null])
  const SCORED: Row := Row(map[], map["x" := Scalar(1)])

  /** All rows by one column in descending order with limit 1. */
  function Best(nullsLast: bool): Selection {
    Selection(_ => true, (row: Row) => Get(row.target, "x"), (row: Row) => (Whole(row.target), map[]),
              true, nullsLast, 1)
  }

  /** Without the test, putting NULL scores last would be wrong: it changes the first row. */
  lemma UnguardedOrderDiffers(S: Semantics)
    ensures Answers(Best(false), [UNSCORED, SCORED], S, [(Whole(UNSCORED.target), map[])])
    ensures !Answers(Best(true), [UNSCORED, SCORED], S, [(Whole(UNSCORED.target), map[])])
  {
    FirstOfTwo(Best(false), UNSCORED, SCORED, S);
    FirstOfTwo(Best(true), SCORED, UNSCORED, S);
    assert SCORED.target["x"] != UNSCORED.target["x"];
  }

  // ---------------------------------------------------------------- a name that RETURN hides

  /** The dot product of a variable with the target's vector. */
  function Dot(e: Expr): Expr {
    Function("vector.dot", [e, Property(Variable("t"), "v")], false)
  }

  /** WITH t, [1] AS q RETURN t, vector.dot(q, t.v) AS score, [2] AS q ORDER BY vector.dot(q, t.v)
      LIMIT 1, where ORDER BY means the second q. */
  const HIDDEN_ORDER: Rule := Rule(
    "t", None, Some(([Item(Variable("t"), None), Item(List([Integer("1")]), Some("q"))], None)),
    [Item(Variable("t"), None), Item(Dot(Variable("q")), Some("score")), Item(List([Integer("2")]), Some("q"))],
    "t", {"score", "q"}, Dot(Variable("q")), false, 1)

  function One(): Term { ArrayT([NumberT("1")]) }
  function Two(): Term { ArrayT([NumberT("2")]) }
  function DotT(t: Term): Term { CallT("vector.dot", [t, Column(Target, "v")]) }

  lemma SqlOne(e: Expr, t: Term, aliases: Aliases)
    requires Sql(e, "t", aliases) == Some(t)
    ensures SqlAll([e], "t", aliases) == Some([t])
  {
    assert [e][1..] == [] && [t] + [] == [t];
    assert SqlAll([], "t", aliases) == Some([]);
  }

  lemma DotIs(e: Expr, t: Term, aliases: Aliases)
    requires Sql(e, "t", aliases) == Some(t)
    ensures Sql(Dot(e), "t", aliases) == Some(DotT(t))
  {
    var v := Property(Variable("t"), "v");
    SqlOne(v, Column(Target, "v"), aliases);
    assert [e, v][1..] == [v] && [t] + [Column(Target, "v")] == [t, Column(Target, "v")];
    assert SqlAll([e, v], "t", aliases) == Some([t, Column(Target, "v")]);
  }

  lemma ListIs(text: string, aliases: Aliases)
    ensures Sql(List([Integer(text)]), "t", aliases) == Some(ArrayT([NumberT(text)]))
  {
    SqlOne(Integer(text), NumberT(text), aliases);
  }

  /** The aliases of a WITH clause that carries the target and binds one more name. */
  lemma TwoItems(e: Expr, name: string, t: Term)
    requires e != Variable("t") && Sql(e, "t", map[]) == Some(t)
    ensures var items := [Item(Variable("t"), None), Item(e, Some(name))];
      HasTarget(items, "t") && AliasesOf(items, "t") == Some(map[name := t])
  {
    var items := [Item(Variable("t"), None), Item(e, Some(name))];
    assert Carries(items[0], "t");
    assert items[..1] == [items[0]] && [items[0]][..0] == [];
    assert AliasesOf([], "t") == Some(map[]);
    assert AliasesOf([items[0]], "t") == Some(map[]);
    assert map[][name := t] == map[name := t];
  }

  /** Putting a plan together for a rule without predicates, in ascending order. */
  lemma PlanFrom(rule: Rule, aliases: Aliases, properties: Aliases, score: Term)
    requires rule.matchPredicate.None? && rule.carried.Some? && rule.carried.value.1.None? && !rule.descending
    requires Known(rule) == Some(aliases) && OutputGiven(rule.returned, rule)
    requires PropertiesOf(rule.returned, rule, aliases) == Some(properties) && properties.Keys == rule.declared
    requires ScoreOf(rule, aliases, properties) == Some(score)
    requires Served(score, _ => true) && score in properties.Values
    ensures PlanOf(rule, _ => true) == Some(Plan([], properties, score, false, true, rule.limit))
  {
    assert Filters(rule, aliases) == [];
  }

  const HIDDEN_ORDER_PLAN: Plan :=
    Plan([], map["score" := DotT(One()), "q" := Two()], DotT(One()), false, true, 1)

  lemma HiddenOrderProperties(aliases: Aliases)
    requires aliases == map["q" := One()]
    ensures OutputGiven(HIDDEN_ORDER.returned, HIDDEN_ORDER)
    ensures PropertiesOf(HIDDEN_ORDER.returned, HIDDEN_ORDER, aliases) == Some(HIDDEN_ORDER_PLAN.properties)
  {
    var rule := HIDDEN_ORDER;
    DotIs(Variable("q"), One(), aliases);
    ListIs("2", aliases);
    var items := rule.returned;
    assert ReturnsTarget(items[0], rule);
    assert items[..2][..1] == items[..1] && items[..1][..0] == [];
    assert PropertiesOf([], rule, aliases) == Some(map[]);
    assert PropertiesOf(items[..1], rule, aliases) == Some(map[]);
    assert PropertiesOf(items[..2], rule, aliases) == Some(map["score" := DotT(One())]);
  }

  lemma HiddenOrderRecognised()
    ensures PlanOf(HIDDEN_ORDER, _ => true) == Some(HIDDEN_ORDER_PLAN)
  {
    ListIs("1", map[]);
    TwoItems(List([Integer("1")]), "q", One());
    var aliases := map["q" := One()];
    DotIs(Variable("q"), One(), aliases);
    HiddenOrderProperties(aliases);
    assert HIDDEN_ORDER_PLAN.properties["score"] in HIDDEN_ORDER_PLAN.properties.Values;
    PlanFrom(HIDDEN_ORDER, aliases, HIDDEN_ORDER_PLAN.properties, DotT(One()));
  }

  lemma DotNames(e: Expr)
    ensures Names(Dot(e)) == Names(e) + {"t"}
  {
    var v := Property(Variable("t"), "v");
    assert [e, v][1..] == [v] && [v][1..] == [];
    assert AllNames([v]) == {"t"};
  }

  lemma HiddenOrderWellScoped()
    ensures WellScoped(HIDDEN_ORDER)
  {
    var rule := HIDDEN_ORDER;
    var carried := rule.carried.value.0;
    assert NameOf(carried[0]) == Some("t") && NameOf(carried[1]) == Some("q");
    assert "t" in NamesOf(carried) && "q" in NamesOf(carried);
    assert AllNames([Integer("1")]) == {} && AllNames([Integer("2")]) == {};
    DotNames(Variable("q"));
  }

  /** Vectors of one number: [1] keeps the target's number and any other vector negates it. */
  function Engine(): Semantics {
    Semantics(
      (text: string) => Scalar(if text == "1" then 1 else 2),
      (text: string) => Scalar(if text == "1" then 1 else 2),
      (a: int, b: int) => a == b,
      (v: Value) => v,
      (op: BinaryOp, a: Value, b: Value) => Null,
      (fn: string, args: seq<Value>) =>
        if |args| != 2 || !args[1].Scalar? then Null
        else if args[0] == Items([Scalar(1)]) then args[1]
        else Scalar(-args[1].id),
      (a: Value, b: Value) => a.Scalar? && b.Scalar? && a.id < b.id,
      (n: Node) => Null,
      (v: Value, key: string) => Null)
  }

  /** Where only equal numbers have one value, nearness is equality. */
  lemma {:induction false} NearIsEqual(S: Semantics, a: Value, b: Value)
    requires (forall i, j :: S.same(i, j) ==> i == j) && Near(S, a, b)
    ensures a == b
  {
    if a.Items? && b.Items? && a != b {
      forall i | 0 <= i < |a.items| ensures a.items[i] == b.items[i] { NearIsEqual(S, a.items[i], b.items[i]); }
    }
  }

  lemma PlainEngineIsAdmissible(S: Semantics)
    requires (forall i, j :: S.same(i, j) ==> i == j) && S.number == S.float
    ensures Admissible(S, true)
  {
    forall name, xs, ys | AllNear(S, xs, ys) ensures S.call(name, xs) == S.call(name, ys) {
      forall i | 0 <= i < |xs| ensures xs[i] == ys[i] { NearIsEqual(S, xs[i], ys[i]); }
      assert xs == ys;
    }
    forall op, a, b, a', b' | Comparison(op) && Near(S, a, a') && Near(S, b, b')
      ensures S.operate(op, a, b) == S.operate(op, a', b')
    {
      NearIsEqual(S, a, a');
      NearIsEqual(S, b, b');
    }
  }

  function Numbered(v: int): Row {
    Row(map[], map["v" := Scalar(v)])
  }

  lemma PlanScore(v: int)
    ensures PlanSelection(HIDDEN_ORDER_PLAN, Engine()).score(Numbered(v)) == Scalar(v)
  {
    var row, S := Numbered(v), Engine();
    var c := Column(Target, "v");
    assert [NumberT("1")][1..] == [] && [One(), c][1..] == [c] && [c][1..] == [];
    assert TermValues([NumberT("1")], row, S) == [Scalar(1)];
    assert TermValues([c], row, S) == [Scalar(v)];
    assert TermValues([One(), c], row, S) == [Items([Scalar(1)]), Scalar(v)];
  }

  lemma DotValue(e: Expr, scope: Scope, node: Node, S: Semantics)
    requires "t" in scope && scope["t"] == Whole(node)
    ensures CypherValue(Dot(e), scope, S) == S.call("vector.dot", [CypherValue(e, scope, S), Get(node, "v")])
  {
    var v := Property(Variable("t"), "v");
    assert [e, v][1..] == [v] && [v][1..] == [];
    assert CypherValues([v], scope, S) == [Get(node, "v")];
    assert CypherValues([e, v], scope, S) == [CypherValue(e, scope, S), Get(node, "v")];
  }

  lemma NumberValue(text: string, scope: Scope, S: Semantics)
    ensures CypherValue(List([Integer(text)]), scope, S) == Items([S.number(text)])
  {
    assert [Integer(text)][1..] == [];
    assert CypherValues([Integer(text)], scope, S) == [S.number(text)];
  }

  lemma HiddenOrderScope(row: Row, S: Semantics)
    ensures var scope := OrderScope(HIDDEN_ORDER, row, S);
      && "t" in scope && scope["t"] == Whole(row.target)
      && "q" in scope && scope["q"] == Plain(Items([S.number("2")]))
  {
    var rule := HIDDEN_ORDER;
    HiddenOrderWellScoped();
    var scope := WithScope(rule, row, S);
    OutputsAt(rule.carried.value.0, MatchScope(rule, row), S, 0);
    OutputsAt(rule.returned, scope, S, 0);
    OutputsAt(rule.returned, scope, S, 2);
    NumberValue("2", scope, S);
  }

  lemma RuleScore(v: int)
    ensures RuleSelection(HIDDEN_ORDER, Engine()).score(Numbered(v)) == Scalar(-v)
  {
    var row, S := Numbered(v), Engine();
    HiddenOrderScope(row, S);
    DotValue(Variable("q"), OrderScope(HIDDEN_ORDER, row, S), row.target, S);
  }

  /** Two kept rows that the retrieval and the rule rank in opposite ways. */
  lemma Misranked(p: Plan, rule: Rule, first: Row, second: Row, S: Semantics)
    requires p.limit == 1 && rule.limit == 1 && Admissible(S, true)
    requires Prefers(PlanSelection(p, S), first, second, S) && Prefers(RuleSelection(rule, S), second, first, S)
    requires PlanSelection(p, S).project(first) != RuleSelection(rule, S).project(second)
    ensures !SameAnswers(p, rule, true)
  {
    FirstOfTwo(PlanSelection(p, S), first, second, S);
    FirstOfTwo(RuleSelection(rule, S), second, first, S);
    var out := [PlanSelection(p, S).project(first)];
    assert Answers(PlanSelection(p, S), [first, second], S, out);
    assert !Answers(RuleSelection(rule, S), [first, second], S, out);
  }

  lemma PlanPrefersLow()
    ensures Prefers(PlanSelection(HIDDEN_ORDER_PLAN, Engine()), Numbered(1), Numbered(2), Engine())
  {
    PlanScore(1);
    PlanScore(2);
  }

  lemma RulePrefersHigh()
    ensures Prefers(RuleSelection(HIDDEN_ORDER, Engine()), Numbered(2), Numbered(1), Engine())
  {
    RuleScore(1);
    RuleScore(2);
  }

  lemma OtherNode()
    ensures PlanSelection(HIDDEN_ORDER_PLAN, Engine()).project(Numbered(1)) !=
            RuleSelection(HIDDEN_ORDER, Engine()).project(Numbered(2))
  {
    OutputIsTarget(Numbered(2));
    assert Numbered(1).target["v"] != Numbered(2).target["v"];
  }

  /** RETURN may give a name that ORDER BY uses another meaning. The recogniser then ranks by the
      old one: it recognises this rule, which Cypher accepts, and answers another node. */
  lemma HiddenOrderMisranks()
    ensures WellScoped(HIDDEN_ORDER) && PlanOf(HIDDEN_ORDER, _ => true).Some?
    ensures !SameAnswers(PlanOf(HIDDEN_ORDER, _ => true).value, HIDDEN_ORDER, true)
  {
    HiddenOrderWellScoped();
    HiddenOrderRecognised();
    PlanPrefersLow();
    RulePrefersHigh();
    OtherNode();
    PlainEngineIsAdmissible(Engine());
    Misranked(HIDDEN_ORDER_PLAN, HIDDEN_ORDER, Numbered(1), Numbered(2), Engine());
  }

  lemma OutputIsTarget(row: Row)
    ensures RuleSelection(HIDDEN_ORDER, Engine()).project(row).0 == Whole(row.target)
  {
    var rule, S := HIDDEN_ORDER, Engine();
    HiddenOrderWellScoped();
    OutputsAt(rule.carried.value.0, MatchScope(rule, row), S, 0);
    assert ReturnsTarget(rule.returned[0], rule);
    OutputMeaning(rule, WithScope(rule, row, S), row, S);
  }

  // ---------------------------------------------------------------- a WITH item called source

  /** WITH t, t.m AS source RETURN t, vector.dot(source.v, t.v) AS score ORDER BY score LIMIT 1,
      where source.v means a member of t.m. */
  const HIDDEN_SOURCE: Rule := Rule(
    "t", None, Some(([Item(Variable("t"), None), Item(Property(Variable("t"), "m"), Some("source"))], None)),
    [Item(Variable("t"), None), Item(Dot(Property(Variable("source"), "v")), Some("score"))],
    "t", {"score"}, Variable("score"), false, 1)

  const SOURCE_SCORE: Term := DotT(Column(Source, "v"))
  const HIDDEN_SOURCE_PLAN: Plan := Plan([], map["score" := SOURCE_SCORE], SOURCE_SCORE, false, true, 1)

  lemma HiddenSourceRecognised()
    ensures PlanOf(HIDDEN_SOURCE, _ => true) == Some(HIDDEN_SOURCE_PLAN)
  {
    var rule := HIDDEN_SOURCE;
    TwoItems(Property(Variable("t"), "m"), "source", Column(Target, "m"));
    var aliases := map["source" := Column(Target, "m")];
    DotIs(Property(Variable("source"), "v"), Column(Source, "v"), aliases);
    var items := rule.returned;
    assert ReturnsTarget(items[0], rule);
    assert items[..1][..0] == [];
    assert PropertiesOf([], rule, aliases) == Some(map[]);
    assert PropertiesOf(items[..1], rule, aliases) == Some(map[]);
    assert PropertiesOf(items, rule, aliases) == Some(map["score" := SOURCE_SCORE]);
    assert HIDDEN_SOURCE_PLAN.properties["score"] in HIDDEN_SOURCE_PLAN.properties.Values;
    PlanFrom(rule, aliases, HIDDEN_SOURCE_PLAN.properties, SOURCE_SCORE);
  }

  lemma HiddenSourceWellScoped()
    ensures WellScoped(HIDDEN_SOURCE)
  {
    var rule := HIDDEN_SOURCE;
    var carried := rule.carried.value.0;
    assert NameOf(carried[0]) == Some("t") && NameOf(carried[1]) == Some("source");
    assert "t" in NamesOf(carried) && "source" in NamesOf(carried);
    DotNames(Property(Variable("source"), "v"));
    assert NameOf(rule.returned[1]) == Some("score") && "score" in NamesOf(rule.returned);
  }

  /** A vector call gives its first argument, and members of values are all 2. */
  function Members(): Semantics {
    Engine().(call := (fn: string, args: seq<Value>) => if args == [] then Null else args[0],
              access := (v: Value, key: string) => Scalar(2))
  }

  const SAMPLE: Row := Row(map["v" := Scalar(1)], map[])

  lemma PlanReading()
    ensures var env := PlanSelection(HIDDEN_SOURCE_PLAN, Members()).project(SAMPLE).1;
      "score" in env && env["score"] == Scalar(1)
  {
    var S, c := Members(), Column(Target, "v");
    assert TermValues([Column(Source, "v"), c], SAMPLE, S) == [Scalar(1)] + TermValues([c], SAMPLE, S);
  }

  lemma HiddenSourceScope(row: Row, S: Semantics)
    ensures var scope := WithScope(HIDDEN_SOURCE, row, S);
      && "t" in scope && scope["t"] == Whole(row.target)
      && "source" in scope && scope["source"] == Plain(Get(row.target, "m"))
  {
    HiddenSourceWellScoped();
    var items := HIDDEN_SOURCE.carried.value.0;
    OutputsAt(items, MatchScope(HIDDEN_SOURCE, row), S, 0);
    OutputsAt(items, MatchScope(HIDDEN_SOURCE, row), S, 1);
  }

  lemma RuleReading()
    ensures var env := RuleSelection(HIDDEN_SOURCE, Members()).project(SAMPLE).1;
      "score" in env && env["score"] == Scalar(2)
  {
    var S := Members();
    var scope := WithScope(HIDDEN_SOURCE, SAMPLE, S);
    HiddenSourceScope(SAMPLE, S);
    HiddenSourceWellScoped();
    OutputsAt(HIDDEN_SOURCE.returned, scope, S, 1);
    DotValue(Property(Variable("source"), "v"), scope, SAMPLE.target, S);
  }

  lemma OnlyRow(q: Selection, row: Row, S: Semantics)
    requires q.keep(row) && q.limit == 1
    ensures forall out :: Answers(q, [row], S, out) <==> out == [q.project(row)]
  {
    assert [row][1..] == [];
    assert Kept([row], q.keep) == [row] + Kept([], q.keep);
    assert Ranking(q, [row], [row], S);
    OneProjected(q, row);
    forall ranked | Ranking(q, [row], ranked, S) ensures ranked == [row] {
      assert |multiset(ranked)| == 1;
      assert ranked[0] in multiset(ranked);
    }
  }

  /** A kept row of which the retrieval and the rule give something else. */
  lemma Misread(p: Plan, rule: Rule, row: Row, S: Semantics)
    requires p.limit == 1 && rule.limit == 1 && Admissible(S, true)
    requires PlanSelection(p, S).keep(row) && RuleSelection(rule, S).keep(row)
    requires PlanSelection(p, S).project(row) != RuleSelection(rule, S).project(row)
    ensures !SameAnswers(p, rule, true)
  {
    OnlyRow(PlanSelection(p, S), row, S);
    OnlyRow(RuleSelection(rule, S), row, S);
    var out := [PlanSelection(p, S).project(row)];
    assert Answers(PlanSelection(p, S), [row], S, out);
    assert !Answers(RuleSelection(rule, S), [row], S, out);
  }

  /** WITH may bind the name source, which the recogniser still reads as the source node. */
  lemma HiddenSourceMisreads()
    ensures WellScoped(HIDDEN_SOURCE) && PlanOf(HIDDEN_SOURCE, _ => true).Some?
    ensures !SameAnswers(PlanOf(HIDDEN_SOURCE, _ => true).value, HIDDEN_SOURCE, true)
  {
    HiddenSourceWellScoped();
    HiddenSourceRecognised();
    PlanReading();
    RuleReading();
    PlainEngineIsAdmissible(Members());
    Misread(HIDDEN_SOURCE_PLAN, HIDDEN_SOURCE, SAMPLE, Members());
  }

  // ---------------------------------------------------------------- an integral float

  /** MATCH (t) WHERE t.n / 2.0 > 0.4 RETURN t, vector.dot(t.w, t.v) AS score ORDER BY score LIMIT 1.
      The float 2.0 is printed as 2. */
  const HALVED: Rule := Rule(
    "t", Some(Binary(Gt, Binary(Div, Property(Variable("t"), "n"), Float("2", true)), Float("0.4", true))), None,
    [Item(Variable("t"), None), Item(Dot(Property(Variable("t"), "w")), Some("score"))],
    "t", {"score"}, Variable("score"), false, 1)

  const HALVED_SCORE: Term := DotT(Column(Target, "w"))
  const HALVED_FILTER: Term := BinaryT(Gt, BinaryT(Div, Column(Target, "n"), NumberT("2")), NumberT("0.4"))
  const HALVED_PLAN: Plan := Plan([HALVED_FILTER], map["score" := HALVED_SCORE], HALVED_SCORE, false, true, 1)

  lemma HalvedRecognised()
    ensures PlanOf(HALVED, _ => true) == Some(HALVED_PLAN)
  {
    var rule := HALVED;
    var none: Aliases := map[];
    assert Known(rule) == Some(none);
    DotIs(Property(Variable("t"), "w"), Column(Target, "w"), none);
    var items := rule.returned;
    assert ReturnsTarget(items[0], rule);
    assert items[..1][..0] == [];
    assert PropertiesOf([], rule, none) == Some(map[]);
    assert PropertiesOf(items[..1], rule, none) == Some(map[]);
    assert PropertiesOf(items, rule, none) == Some(map["score" := HALVED_SCORE]);
    HalvedFilter();
    assert HALVED_PLAN.properties["score"] in HALVED_PLAN.properties.Values;
  }

  lemma HalvedFilter()
    ensures FilterTerms(Filters(HALVED, map[]), "t") == Some([HALVED_FILTER])
  {
    var none: Aliases := map[];
    var f := (HALVED.matchPredicate.value, none);
    var fs := [f];
    assert Filters(HALVED, none) == fs && |fs[1..]| == 0;
    assert FilterTerms(fs[1..], "t") == Some([]) && [HALVED_FILTER] + [] == [HALVED_FILTER];
    assert Sql(f.0, "t", none) == Some(HALVED_FILTER);
  }

  lemma HalvedWellScoped()
    ensures WellScoped(HALVED) && Unhidden(HALVED)
  {
    DotNames(Property(Variable("t"), "w"));
    assert Names(HALVED.matchPredicate.value) == {"t"};
    assert NameOf(HALVED.returned[1]) == Some("score") && "score" in NamesOf(HALVED.returned);
  }

  /** The integer 2 is 4, the float 2.0 is 5 and has the same value. Dividing by the integer gives the
      integer 0, dividing by the float gives 0.5, which is 11; only that is above 0.4. */
  function Divider(): Semantics {
    Semantics(
      (text: string) => Scalar(if text == "2" then 4 else 40),
      (text: string) => Scalar(if text == "2" then 5 else 40),
      (a: int, b: int) => a == b || (a == 4 && b == 5),
      (v: Value) => v,
      (op: BinaryOp, a: Value, b: Value) =>
        if op.Div? then Scalar(if b == Scalar(4) then 0 else 11) else Truth(a == Scalar(11)),
      (fn: string, args: seq<Value>) => Null,
      (a: Value, b: Value) => false,
      (n: Node) => Null,
      (v: Value, key: string) => Null)
  }

  lemma DividerIsAdmissible()
    ensures Admissible(Divider(), true)
  {
    var S := Divider();
    forall op, a, b, a', b' | Comparison(op) && Near(S, a, a') && Near(S, b, b')
      ensures S.operate(op, a, b) == S.operate(op, a', b')
    {
      assert a == Scalar(11) <==> a' == Scalar(11);
    }
  }

  const ONE_LEFT: Row := Row(map[], map["n" := Scalar(2)])

  lemma HalvedKeeps()
    ensures !PlanSelection(HALVED_PLAN, Divider()).keep(ONE_LEFT) && RuleSelection(HALVED, Divider()).keep(ONE_LEFT)
  {
    var S := Divider();
    assert TermValue(HALVED_FILTER, ONE_LEFT, S) == Truth(false);
    assert HALVED_PLAN.predicates[0] == HALVED_FILTER;
    var scope := MatchScope(HALVED, ONE_LEFT);
    assert scope["t"] == Whole(ONE_LEFT.target);
    assert CypherValue(HALVED.matchPredicate.value.lhs, scope, S) == Scalar(11);
  }

  /** A kept row that the retrieval drops. */
  lemma Dropped(p: Plan, rule: Rule, row: Row, S: Semantics)
    requires rule.limit == 1 && Admissible(S, true)
    requires !PlanSelection(p, S).keep(row) && RuleSelection(rule, S).keep(row)
    ensures !SameAnswers(p, rule, true)
  {
    var q := PlanSelection(p, S);
    OnlyRow(RuleSelection(rule, S), row, S);
    var out := [RuleSelection(rule, S).project(row)];
    assert Answers(RuleSelection(rule, S), [row], S, out);
    assert [row][1..] == [] && Kept([], q.keep) == [] && Kept([row], q.keep) == [];
    forall ranked | Ranking(q, [row], ranked, S) ensures ranked == [] {
      assert |multiset(ranked)| == 0;
    }
    assert Projected([], q.project) == [];
    assert !Answers(q, [row], S, out);
  }

  /** A float literal without a fraction is printed without a point and read back as an integer, so
      arithmetic on it changes. The rule hides no name, and Cypher accepts it. */
  lemma IntegralFloatMisfilters()
    ensures WellScoped(HALVED) && Unhidden(HALVED) && PlanOf(HALVED, _ => true).Some?
    ensures !SameAnswers(PlanOf(HALVED, _ => true).value, HALVED, true)
  {
    HalvedWellScoped();
    HalvedRecognised();
    DividerIsAdmissible();
    HalvedKeeps();
    Dropped(HALVED_PLAN, HALVED, ONE_LEFT, Divider());
  }
}
