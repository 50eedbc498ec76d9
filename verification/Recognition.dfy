/** Exactly which rules are recognised as retrievals, told from the rule. */
module Recognition {
  import opened Text
  import opened Retrieval

  // ---------------------------------------------------------------- expressions

  /** Built of literals, properties of the two sides, known names, operators, plain vector functions and
      lists. */
  predicate Translatable(e: Expr, target: string, names: set<string>) {
    match e
    case Variable(name) => name in names
    case Property(x, _) => x == Variable("source") || x == Variable(target)
    case Float(_, finite) => finite
    case Unary(_, x) => Translatable(x, target, names)
    case Binary(_, x, y) => Translatable(x, target, names) && Translatable(y, target, names)
    case IsNull(x) => Translatable(x, target, names)
    case IsNotNull(x) => Translatable(x, target, names)
    case Function(fn, args, distinct) =>
      && !distinct && (fn == "vector.cosine_similarity" || fn == "vector.dot" || fn == "vector.l2_distance")
      && forall i :: 0 <= i < |args| ==> Translatable(args[i], target, names)
    case List(xs) => forall i :: 0 <= i < |xs| ==> Translatable(xs[i], target, names)
    case Unsupported(_) => false
    case _ => true
  }

  lemma {:induction false} SqlExactly(e: Expr, target: string, aliases: Aliases)
    ensures Sql(e, target, aliases).Some? <==> Translatable(e, target, aliases.Keys)
    decreases e, 1
  {
    match e
    case Unary(_, x) => SqlExactly(x, target, aliases);
    case Binary(_, x, y) => SqlExactly(x, target, aliases); SqlExactly(y, target, aliases);
    case IsNull(x) => SqlExactly(x, target, aliases);
    case IsNotNull(x) => SqlExactly(x, target, aliases);
    case Function(_, args, _) => SqlAllExactly(args, target, aliases);
    case List(xs) => SqlAllExactly(xs, target, aliases);
    case _ =>
  }

  lemma {:induction false} SqlAllExactly(es: seq<Expr>, target: string, aliases: Aliases)
    ensures SqlAll(es, target, aliases).Some? <==>
      forall i :: 0 <= i < |es| ==> Translatable(es[i], target, aliases.Keys)
    decreases es, 0
  {
    if es != [] {
      SqlExactly(es[0], target, aliases);
      SqlAllExactly(es[1..], target, aliases);
      assert forall i :: 0 < i < |es| ==> es[i] == es[1..][i - 1];
    }
  }

  // ---------------------------------------------------------------- guards

  /** The ways in which a condition can be true: one of the sides of each OR, both sides of each AND. */
  function Cases(e: Expr): seq<seq<Expr>> {
    match e
    case Binary(Or, x, y) => Cases(x) + Cases(y)
    case Binary(And, x, y) => Cross(Cases(x), Cases(y))
    case _ => [[e]]
  }

  function Cross(a: seq<seq<Expr>>, b: seq<seq<Expr>>): seq<seq<Expr>> {
    if a == [] then [] else Each(a[0], b) + Cross(a[1..], b)
  }

  function Each(x: seq<Expr>, b: seq<seq<Expr>>): seq<seq<Expr>> {
    if b == [] then [] else [x + b[0]] + Each(x, b[1..])
  }

  /** A comparison with the score, or a test that it is not NULL. */
  predicate Guard(e: Expr, score: Term, target: string, aliases: Aliases) {
    match e
    case Binary(op, x, y) =>
      && (op.Eq? || op.Neq? || op.Lt? || op.Lte? || op.Gt? || op.Gte?)
      && (Sql(x, target, aliases) == Some(score) || Sql(y, target, aliases) == Some(score))
    case IsNotNull(x) => Sql(x, target, aliases) == Some(score)
    case _ => false
  }

  predicate Guarded(c: seq<Expr>, score: Term, target: string, aliases: Aliases) {
    exists i :: 0 <= i < |c| && Guard(c[i], score, target, aliases)
  }

  predicate AllGuarded(cs: seq<seq<Expr>>, score: Term, target: string, aliases: Aliases) {
    forall k :: 0 <= k < |cs| ==> Guarded(cs[k], score, target, aliases)
  }

  lemma {:induction false} EachGuarded(x: seq<Expr>, b: seq<seq<Expr>>, score: Term, target: string, aliases: Aliases)
    ensures AllGuarded(Each(x, b), score, target, aliases) <==>
      Guarded(x, score, target, aliases) || AllGuarded(b, score, target, aliases)
  {
    if b != [] {
      EachGuarded(x, b[1..], score, target, aliases);
      BothGuarded(x, b[0], score, target, aliases);
      ConsGuarded(x + b[0], Each(x, b[1..]), score, target, aliases);
      ConsGuarded(b[0], b[1..], score, target, aliases);
      assert b == [b[0]] + b[1..];
    }
  }

  lemma BothGuarded(a: seq<Expr>, b: seq<Expr>, score: Term, target: string, aliases: Aliases)
    ensures Guarded(a + b, score, target, aliases) <==>
      Guarded(a, score, target, aliases) || Guarded(b, score, target, aliases)
  {
    if i :| 0 <= i < |a| && Guard(a[i], score, target, aliases) { assert Guard((a + b)[i], score, target, aliases); }
    if i :| 0 <= i < |b| && Guard(b[i], score, target, aliases) {
      assert Guard((a + b)[|a| + i], score, target, aliases);
    }
  }

  lemma ConsGuarded(c: seq<Expr>, cs: seq<seq<Expr>>, score: Term, target: string, aliases: Aliases)
    ensures AllGuarded([c] + cs, score, target, aliases) <==>
      Guarded(c, score, target, aliases) && AllGuarded(cs, score, target, aliases)
  {
    SomeGuarded([c], cs, score, target, aliases);
    assert AllGuarded([c], score, target, aliases) <==> Guarded([c][0], score, target, aliases);
  }

  lemma SomeGuarded(a: seq<seq<Expr>>, b: seq<seq<Expr>>, score: Term, target: string, aliases: Aliases)
    ensures AllGuarded(a + b, score, target, aliases) <==>
      AllGuarded(a, score, target, aliases) && AllGuarded(b, score, target, aliases)
  {
    if AllGuarded(a + b, score, target, aliases) {
      forall k | 0 <= k < |a| ensures Guarded(a[k], score, target, aliases) { assert (a + b)[k] == a[k]; }
      forall k | 0 <= k < |b| ensures Guarded(b[k], score, target, aliases) { assert (a + b)[|a| + k] == b[k]; }
    }
  }

  lemma {:induction false} CrossGuarded(a: seq<seq<Expr>>, b: seq<seq<Expr>>, score: Term, target: string,
                                        aliases: Aliases)
    ensures AllGuarded(Cross(a, b), score, target, aliases) <==>
      AllGuarded(a, score, target, aliases) || AllGuarded(b, score, target, aliases)
  {
    if a != [] {
      CrossGuarded(a[1..], b, score, target, aliases);
      EachGuarded(a[0], b, score, target, aliases);
      SomeGuarded(Each(a[0], b), Cross(a[1..], b), score, target, aliases);
      ConsGuarded(a[0], a[1..], score, target, aliases);
      assert a == [a[0]] + a[1..];
    }
  }

  /** A condition rejects NULL scores when it has a guard in each way in which it can be true. */
  lemma {:induction false} RejectsNullExactly(e: Expr, score: Term, target: string, aliases: Aliases)
    ensures RejectsNull(e, score, target, aliases) <==> AllGuarded(Cases(e), score, target, aliases)
  {
    if e.Binary? && (e.op.And? || e.op.Or?) {
      RejectsNullExactly(e.lhs, score, target, aliases);
      RejectsNullExactly(e.rhs, score, target, aliases);
      if e.op.Or? {
        SomeGuarded(Cases(e.lhs), Cases(e.rhs), score, target, aliases);
      } else {
        CrossGuarded(Cases(e.lhs), Cases(e.rhs), score, target, aliases);
      }
    } else {
      assert Guarded([e], score, target, aliases) <==> Guard([e][0], score, target, aliases);
      assert AllGuarded([[e]], score, target, aliases) <==> Guarded([[e]][0], score, target, aliases);
    }
  }

  // ---------------------------------------------------------------- clauses

  /** The names that the first n items define, the target aside. */
  function Defined(items: seq<Item>, target: string, n: nat): set<string>
    requires n <= |items|
  {
    set i | 0 <= i < n && items[i].expr != Variable(target) && items[i].name.Some? :: items[i].name.value
  }

  /** The target is carried under its own name; any other item has a name and can be translated. */
  predicate ItemOk(item: Item, target: string, names: set<string>) {
    if item.expr == Variable(target) then item.name.Some? ==> item.name.value == target
    else item.name.Some? && Translatable(item.expr, target, names)
  }

  /** Every item can be used with the names before it. */
  predicate CarriedOk(items: seq<Item>, target: string) {
    forall i :: 0 <= i < |items| ==> ItemOk(items[i], target, Defined(items, target, i))
  }

  lemma {:induction false} AliasesExactly(items: seq<Item>, target: string)
    ensures AliasesOf(items, target).Some? <==> CarriedOk(items, target)
    ensures AliasesOf(items, target).Some? ==> AliasesOf(items, target).value.Keys == Defined(items, target, |items|)
  {
    if items != [] {
      var n := |items| - 1;
      AliasesExactly(items[..n], target);
      SameDefined(items, target, n);
      if AliasesOf(items[..n], target).Some? {
        AliasStep(items, target, AliasesOf(items[..n], target).value);
      }
    }
  }

  /** What the items in front define and whether they can be used, as part of the whole list. */
  lemma SameDefined(items: seq<Item>, target: string, n: nat)
    requires n == |items| - 1
    ensures Defined(items[..n], target, n) == Defined(items, target, n)
    ensures Defined(items, target, n + 1) == Defined(items, target, n) +
      (if items[n].expr != Variable(target) && items[n].name.Some? then {items[n].name.value} else {})
    ensures CarriedOk(items, target) <==>
      CarriedOk(items[..n], target) && ItemOk(items[n], target, Defined(items, target, n))
  {
    forall i: nat | i <= n ensures Defined(items[..n], target, i) == Defined(items, target, i) {}
    if CarriedOk(items, target) {
      forall i | 0 <= i < n ensures ItemOk(items[..n][i], target, Defined(items[..n], target, i)) {
        assert ItemOk(items[i], target, Defined(items, target, i));
      }
    }
    if CarriedOk(items[..n], target) && ItemOk(items[n], target, Defined(items, target, n)) {
      forall i | 0 <= i <= n ensures ItemOk(items[i], target, Defined(items, target, i)) {
        if i < n { assert ItemOk(items[..n][i], target, Defined(items[..n], target, i)); }
      }
    }
  }

  lemma AliasStep(items: seq<Item>, target: string, before: Aliases)
    requires items != [] && AliasesOf(items[..|items| - 1], target) == Some(before)
    ensures AliasesOf(items, target).Some? <==> ItemOk(items[|items| - 1], target, before.Keys)
    ensures AliasesOf(items, target).Some? ==>
      var item := items[|items| - 1];
      AliasesOf(items, target).value.Keys ==
        before.Keys + (if item.expr != Variable(target) && item.name.Some? then {item.name.value} else {})
  {
    var item := items[|items| - 1];
    SqlExactly(item.expr, target, before);
    if !Carries(item, target) { AliasMore(items, target, before, Sql(item.expr, target, before)); }
  }

  lemma AliasMore(items: seq<Item>, target: string, before: Aliases, t: Option<Term>)
    requires items != [] && AliasesOf(items[..|items| - 1], target) == Some(before)
    requires !Carries(items[|items| - 1], target) && t == Sql(items[|items| - 1].expr, target, before)
    ensures var name := items[|items| - 1].name;
      AliasesOf(items, target) == if name.Some? && t.Some? then Some(before[name.value := t.value]) else None
  {
  }

  /** The output under its declared name, or a declared property that can be translated. */
  predicate ReturnedOk(item: Item, rule: Rule, names: set<string>) {
    || IsOutput(item, rule)
    || (NameGiven(item).Some? && NameGiven(item).value in rule.declared && Translatable(item.expr, rule.target, names))
  }

  predicate IsOutput(item: Item, rule: Rule) {
    && item.expr == Variable(rule.target)
    && (item.name == Some(rule.output) || (item.name == None && rule.target == rule.output))
  }

  /** An item without a name has that of its variable. */
  function NameGiven(item: Item): Option<string> {
    match item
    case Item(_, Some(name)) => Some(name)
    case Item(Variable(name), None) => Some(name)
    case _ => None
  }

  function Returned(rule: Rule, n: nat): set<string>
    requires n <= |rule.returned|
  {
    set i | 0 <= i < n && !IsOutput(rule.returned[i], rule) && NameGiven(rule.returned[i]).Some? ::
      NameGiven(rule.returned[i]).value
  }

  lemma {:induction false} PropertiesExactly(rule: Rule, aliases: Aliases, n: nat)
    requires n <= |rule.returned|
    ensures PropertiesOf(rule.returned[..n], rule, aliases).Some? <==>
      forall i :: 0 <= i < n ==> ReturnedOk(rule.returned[i], rule, aliases.Keys)
    ensures PropertiesOf(rule.returned[..n], rule, aliases).Some? ==>
      PropertiesOf(rule.returned[..n], rule, aliases).value.Keys == Returned(rule, n)
  {
    if n > 0 {
      var item := rule.returned[n - 1];
      assert rule.returned[..n][..n - 1] == rule.returned[..n - 1] && rule.returned[..n][n - 1] == item;
      PropertiesExactly(rule, aliases, n - 1);
      SqlExactly(item.expr, rule.target, aliases);
      assert ReturnsTarget(item, rule) <==> IsOutput(item, rule);
      assert Returned(rule, n) == Returned(rule, n - 1) +
        (if !IsOutput(item, rule) && NameGiven(item).Some? then {NameGiven(item).value} else {});
    }
  }

  // ---------------------------------------------------------------- rules

  /** The names that a rule knows after its WITH clause. */
  function KnownNames(rule: Rule): set<string> {
    if rule.carried.None? then {}
    else Defined(rule.carried.value.0, rule.target, |rule.carried.value.0|)
  }

  /** A WITH clause, if there is one, carries the target and can be used item by item. */
  predicate WithReadable(rule: Rule) {
    rule.carried.Some? ==>
      && (exists i :: 0 <= i < |rule.carried.value.0| && rule.carried.value.0[i].expr == Variable(rule.target))
      && CarriedOk(rule.carried.value.0, rule.target)
  }

  /** Conditions can be translated, that of MATCH without the names of the WITH clause. */
  predicate ConditionsReadable(rule: Rule) {
    && (rule.matchPredicate.Some? ==> Translatable(rule.matchPredicate.value, rule.target, {}))
    && (rule.carried.Some? && rule.carried.value.1.Some? ==>
          Translatable(rule.carried.value.1.value, rule.target, KnownNames(rule)))
  }

  /** RETURN gives the output and exactly the declared properties. */
  predicate ReturnReadable(rule: Rule) {
    && (exists i :: 0 <= i < |rule.returned| && IsOutput(rule.returned[i], rule))
    && (forall i :: 0 <= i < |rule.returned| ==> ReturnedOk(rule.returned[i], rule, KnownNames(rule)))
    && Returned(rule, |rule.returned|) == rule.declared
  }

  lemma KnownExactly(rule: Rule)
    ensures Known(rule).Some? <==> WithReadable(rule)
    ensures Known(rule).Some? ==> Known(rule).value.Keys == KnownNames(rule)
  {
    if rule.carried.Some? {
      AliasesExactly(rule.carried.value.0, rule.target);
      assert HasTarget(rule.carried.value.0, rule.target) <==>
        exists i :: 0 <= i < |rule.carried.value.0| && rule.carried.value.0[i].expr == Variable(rule.target) by {
        var items := rule.carried.value.0;
        if i :| 0 <= i < |items| && items[i].expr == Variable(rule.target) { assert Carries(items[i], rule.target); }
      }
    }
  }

  lemma ConditionsExactly(rule: Rule)
    requires Known(rule).Some?
    ensures FilterTerms(Filters(rule, Known(rule).value), rule.target).Some? <==> ConditionsReadable(rule)
  {
    var aliases := Known(rule).value;
    var none: Aliases := map[];
    var first, second := rule.matchPredicate, if rule.carried.Some? then rule.carried.value.1 else None;
    var fs := Filters(rule, aliases);
    KnownExactly(rule);
    AllTranslated(fs, rule.target);
    assert none.Keys == {};
    assert fs == (if first.Some? then [(first.value, none)] else []) +
      (if second.Some? then [(second.value, aliases)] else []);
    if first.Some? {
      SqlExactly(first.value, rule.target, none);
      assert fs[0] == (first.value, none);
    }
    if second.Some? {
      SqlExactly(second.value, rule.target, aliases);
      assert fs[if first.Some? then 1 else 0] == (second.value, aliases);
    }
    assert |fs| == (if first.Some? then 1 else 0) + (if second.Some? then 1 else 0);
  }

  lemma {:induction false} AllTranslated(fs: seq<(Expr, Aliases)>, target: string)
    ensures FilterTerms(fs, target).Some? <==> forall i :: 0 <= i < |fs| ==> Sql(fs[i].0, target, fs[i].1).Some?
  {
    if fs != [] {
      AllTranslated(fs[1..], target);
      assert forall i :: 0 < i < |fs| ==> fs[i] == fs[1..][i - 1];
    }
  }

  lemma ReturnExactly(rule: Rule, aliases: Aliases)
    requires Known(rule) == Some(aliases)
    ensures
      var properties := PropertiesOf(rule.returned, rule, aliases);
      (OutputGiven(rule.returned, rule) && properties.Some? && properties.value.Keys == rule.declared) <==>
      ReturnReadable(rule)
  {
    KnownExactly(rule);
    assert rule.returned[..|rule.returned|] == rule.returned;
    PropertiesExactly(rule, aliases, |rule.returned|);
    forall i | 0 <= i < |rule.returned|
      ensures ReturnsTarget(rule.returned[i], rule) <==> IsOutput(rule.returned[i], rule) {}
  }

  /** The term that the rule ranks by: that of a returned property if ORDER BY only names one. */
  function Ranked(rule: Rule): Option<Term>
    requires Known(rule).Some?
  {
    var aliases := Known(rule).value;
    var properties := PropertiesOf(rule.returned, rule, aliases);
    if rule.order.Variable? then
      if properties.Some? && rule.order.name in properties.value then Some(properties.value[rule.order.name]) else None
    else Sql(rule.order, rule.target, aliases)
  }

  /** The score is a vector call over a column of the target, its last argument, that an index serves. */
  predicate VectorScore(t: Option<Term>, indexed: Term -> bool) {
    match t
    case Some(CallT(_, args)) =>
      |args| >= 2 && args[|args| - 1].Column? && args[|args| - 1].side == Target && indexed(t.value)
    case _ => false
  }

  ghost predicate ScoreReturned(rule: Rule)
    requires Known(rule).Some?
  {
    var properties := PropertiesOf(rule.returned, rule, Known(rule).value);
    properties.Some? && exists name :: name in properties.value && Some(properties.value[name]) == Ranked(rule)
  }

  /** Some condition has a guard of the score in each way in which it can be true. */
  predicate NullsRejected(rule: Rule, score: Term)
    requires Known(rule).Some?
  {
    || (rule.matchPredicate.Some? && AllGuarded(Cases(rule.matchPredicate.value), score, rule.target, map[]))
    || (rule.carried.Some? && rule.carried.value.1.Some? &&
        AllGuarded(Cases(rule.carried.value.1.value), score, rule.target, Known(rule).value))
  }

  lemma RejectsExactly(rule: Rule, score: Term)
    requires Known(rule).Some?
    ensures SomeRejects(Filters(rule, Known(rule).value), score, rule.target) <==> NullsRejected(rule, score)
  {
    var aliases := Known(rule).value;
    var fs := Filters(rule, aliases);
    if rule.matchPredicate.Some? {
      RejectsNullExactly(rule.matchPredicate.value, score, rule.target, map[]);
      assert fs[0] == (rule.matchPredicate.value, map[]);
    }
    if rule.carried.Some? && rule.carried.value.1.Some? {
      RejectsNullExactly(rule.carried.value.1.value, score, rule.target, aliases);
      assert fs[|fs| - 1] == (rule.carried.value.1.value, aliases);
    }
  }

  lemma ScoreExactly(rule: Rule, indexed: Term -> bool)
    requires Known(rule).Some? && PropertiesOf(rule.returned, rule, Known(rule).value).Some?
    ensures
      var properties := PropertiesOf(rule.returned, rule, Known(rule).value).value;
      var score := ScoreOf(rule, Known(rule).value, properties);
      && score == Ranked(rule)
      && (score.Some? && Served(score.value, indexed) <==> VectorScore(score, indexed))
      && (score.Some? ==> (score.value in properties.Values <==> ScoreReturned(rule)))
  {
  }

  /** A rule is recognised exactly when its clauses can be read and its score is a returned vector call that
      an index serves; its direction and limit are kept, and NULLs go last exactly when the order is
      ascending or no row with a NULL score can be left. */
  lemma RecognisedExactly(rule: Rule, indexed: Term -> bool)
    ensures PlanOf(rule, indexed).Some? <==>
      && WithReadable(rule) && ConditionsReadable(rule) && ReturnReadable(rule)
      && Known(rule).Some? && VectorScore(Ranked(rule), indexed) && ScoreReturned(rule)
    ensures PlanOf(rule, indexed).Some? ==>
      var p := PlanOf(rule, indexed).value;
      && Known(rule).Some? && Ranked(rule) == Some(p.score) && p.properties.Keys == rule.declared
      && p.descending == rule.descending && p.limit == rule.limit
      && (p.nullsLast <==> !rule.descending || NullsRejected(rule, p.score))
  {
    KnownExactly(rule);
    if Known(rule).Some? {
      var aliases := Known(rule).value;
      ConditionsExactly(rule);
      ReturnExactly(rule, aliases);
      if ReturnReadable(rule) { ScoreExactly(rule, indexed); }
      if Ranked(rule).Some? { RejectsExactly(rule, Ranked(rule).value); }
    }
  }
}
