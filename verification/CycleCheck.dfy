/** Declared relationships may use each other, but not in a circle. */
module CycleCheck {

  // ---------------------------------------------------------------- queries

  /** A relationship pattern with its types; no types means any relationship. */
  datatype Chain = Chain(types: seq<string>)
  datatype Clause = Match(chains: seq<Chain>) | Call(procedure: string) | OtherClause
  datatype Query = Query(clauses: seq<Clause>, unions: seq<Query>)

  predicate ChainUses(c: Chain, name: string) {
    c.types == [] || name in c.types
  }

  predicate ClauseUses(c: Clause, name: string) {
    match c
    case Match(chains) => exists i :: 0 <= i < |chains| && ChainUses(chains[i], name)
    case Call(procedure) => procedure == name
    case OtherClause => false
  }

  /** Some clause of the query, or of a query joined by UNION at any depth, uses the name. */
  predicate Uses(q: Query, name: string) {
    || (exists i :: 0 <= i < |q.clauses| && ClauseUses(q.clauses[i], name))
    || (exists i :: 0 <= i < |q.unions| && Uses(q.unions[i], name))
  }

  /** The clauses of a query and of all queries joined to it by UNION, at any depth. */
  function AllClauses(q: Query): seq<Clause>
    decreases q, 0
  {
    q.clauses + ClausesOf(q.unions)
  }

  function ClausesOf(qs: seq<Query>): seq<Clause>
    decreases qs
  {
    if qs == [] then [] else AllClauses(qs[0]) + ClausesOf(qs[1..])
  }

  /** A query uses a name when some clause has a pattern without types, a pattern with the name among its
      types, or a call of it. */
  lemma UsesExactly(q: Query, name: string)
    ensures Uses(q, name) <==>
      exists c :: c in AllClauses(q) && match c
        case Match(chains) => exists x :: x in chains && (x.types == [] || name in x.types)
        case Call(procedure) => procedure == name
        case OtherClause => false
  {
    UsesSome(q, name);
    forall c: Clause ensures ClauseUses(c, name) <==> match c
      case Match(chains) => exists x :: x in chains && (x.types == [] || name in x.types)
      case Call(procedure) => procedure == name
      case OtherClause => false
    {
      if c.Match? {
        if x :| x in c.chains && (x.types == [] || name in x.types) {
          var i :| 0 <= i < |c.chains| && c.chains[i] == x;
          assert ChainUses(c.chains[i], name);
        }
      }
    }
    assert SomeUses(AllClauses(q), name) <==> exists c :: c in AllClauses(q) && ClauseUses(c, name);
  }

  lemma {:induction false} UsesSome(q: Query, name: string)
    ensures Uses(q, name) <==> SomeUses(AllClauses(q), name)
    decreases q
  {
    forall i | 0 <= i < |q.unions| ensures Uses(q.unions[i], name) <==> SomeUses(AllClauses(q.unions[i]), name) {
      UsesSome(q.unions[i], name);
    }
    UsedInSome(q.unions, name);
    SomeUsesBoth(q.clauses, ClausesOf(q.unions), name);
  }

  predicate SomeUses(cs: seq<Clause>, name: string) {
    exists i :: 0 <= i < |cs| && ClauseUses(cs[i], name)
  }

  lemma SomeUsesBoth(a: seq<Clause>, b: seq<Clause>, name: string)
    ensures SomeUses(a + b, name) <==> SomeUses(a, name) || SomeUses(b, name)
  {
    if i :| 0 <= i < |a| && ClauseUses(a[i], name) { assert ClauseUses((a + b)[i], name); }
    if i :| 0 <= i < |b| && ClauseUses(b[i], name) { assert ClauseUses((a + b)[|a| + i], name); }
  }

  lemma {:induction false} UsedInSome(qs: seq<Query>, name: string)
    requires forall i :: 0 <= i < |qs| ==> (Uses(qs[i], name) <==> SomeUses(AllClauses(qs[i]), name))
    ensures SomeUses(ClausesOf(qs), name) <==> exists i :: 0 <= i < |qs| && Uses(qs[i], name)
  {
    if qs != [] {
      UsedInSome(qs[1..], name);
      SomeUsesBoth(AllClauses(qs[0]), ClausesOf(qs[1..]), name);
      if i :| 0 <= i < |qs[1..]| && Uses(qs[1..][i], name) { assert Uses(qs[i + 1], name); }
      if i :| 0 < i < |qs| && Uses(qs[i], name) { assert Uses(qs[1..][i - 1], name); }
    }
  }

  method CollectChain(c: Chain, declared: set<string>, output: set<string>) returns (r: set<string>)
    ensures forall n :: n in r <==> n in output || (n in declared && ChainUses(c, n))
  {
    r := output;
    if c.types == [] {
      r := r + declared;
    }
    for i := 0 to |c.types|
      invariant forall n :: n in r <==> n in output || (n in declared && (c.types == [] || n in c.types[..i]))
    {
      if c.types[i] in declared {
        r := r + {c.types[i]};
      }
      assert c.types[..i + 1] == c.types[..i] + [c.types[i]];
    }
    assert c.types[..|c.types|] == c.types;
  }

  method CollectClause(c: Clause, declared: set<string>, output: set<string>) returns (r: set<string>)
    ensures forall n :: n in r <==> n in output || (n in declared && ClauseUses(c, n))
  {
    r := output;
    match c {
      case Match(chains) =>
        for i := 0 to |chains|
          invariant forall n :: n in r <==>
            n in output || (n in declared && exists k :: 0 <= k < i && ChainUses(chains[k], n))
        {
          r := CollectChain(chains[i], declared, r);
        }
      case Call(procedure) =>
        if procedure in declared {
          r := r + {procedure};
        }
      case OtherClause =>
    }
  }

  /** Collects exactly the declared names that the query uses. */
  method Collect(q: Query, declared: set<string>, output: set<string>) returns (r: set<string>)
    ensures forall n :: n in r <==> n in output || (n in declared && Uses(q, n))
    decreases q
  {
    r := output;
    for i := 0 to |q.clauses|
      invariant forall n :: n in r <==>
        n in output || (n in declared && exists k :: 0 <= k < i && ClauseUses(q.clauses[k], n))
    {
      r := CollectClause(q.clauses[i], declared, r);
    }
    ghost var before := r;
    for i := 0 to |q.unions|
      invariant forall n :: n in r <==> n in before || (n in declared && exists k :: 0 <= k < i && Uses(q.unions[k], n))
    {
      r := Collect(q.unions[i], declared, r);
    }
  }

  // ---------------------------------------------------------------- cycles

  type Dependencies = map<string, set<string>>

  predicate Edge(deps: Dependencies, a: string, b: string) {
    a in deps && b in deps[a]
  }

  predicate Path(deps: Dependencies, p: seq<string>) {
    forall i :: 0 <= i < |p| - 1 ==> Edge(deps, p[i], p[i + 1])
  }

  predicate Cycle(deps: Dependencies, p: seq<string>) {
    |p| >= 2 && Path(deps, p) && p[0] == p[|p| - 1]
  }

  ghost predicate Cyclic(deps: Dependencies) {
    exists p :: Cycle(deps, p)
  }

  /** Dependencies of settled names are settled, and no cycle starts at one. */
  ghost predicate Settled(deps: Dependencies, done: set<string>) {
    && (forall a, b :: a in done && Edge(deps, a, b) ==> b in done)
    && (forall p :: Cycle(deps, p) ==> p[0] !in done)
  }

  lemma {:induction false} PathStays(deps: Dependencies, done: set<string>, p: seq<string>, from: nat, to: nat)
    requires Settled(deps, done) && Path(deps, p) && from <= to < |p| && p[from] in done
    ensures p[to] in done
  {
    if from < to {
      PathStays(deps, done, p, from, to - 1);
      assert Edge(deps, p[to - 1], p[to]);
    }
  }

  /** A name all of whose dependencies are settled can be settled. */
  lemma Settle(deps: Dependencies, done: set<string>, name: string)
    requires Settled(deps, done) && name !in done && forall b :: Edge(deps, name, b) ==> b in done
    ensures Settled(deps, done + {name})
  {
    forall p | Cycle(deps, p) ensures p[0] !in done + {name} {
      if p[0] == name {
        assert Edge(deps, p[0], p[1]);
        PathStays(deps, done, p, 1, |p| - 1);
        assert false;
      }
    }
  }

  lemma AllSettled(deps: Dependencies, done: set<string>)
    requires Settled(deps, done) && forall a :: a in deps ==> a in done
    ensures !Cyclic(deps)
  {
    forall p: seq<string> ensures |p| >= 2 && Path(deps, p) ==> p[0] in deps {
      assert |p| >= 2 && Path(deps, p) ==> Edge(deps, p[0], p[1]);
    }
  }

  /** The names being visited, outermost first, each depending on the next. */
  ghost predicate Trail(deps: Dependencies, trail: seq<string>, active: set<string>) {
    && Path(deps, trail)
    && (forall x :: x in active <==> x in trail)
  }

  function Universe(deps: Dependencies): set<string> {
    deps.Keys + set a, b | a in deps && b in deps[a] :: b
  }

  class Visitor {
    const deps: Dependencies
    var active: set<string>
    var done: set<string>

    constructor (deps: Dependencies)
      ensures this.deps == deps && active == {} && done == {}
    {
      this.deps := deps;
      active, done := {}, {};
    }

    ghost predicate Valid()
      reads this
    {
      Settled(deps, done) && active !! done && active <= Universe(deps)
    }

    /** Depth first: fails only on a cycle; otherwise settles the name and leaves `active` as it was. */
    method Visit(name: string, ghost trail: seq<string>) returns (ok: bool)
      requires Valid() && Trail(deps, trail, active) && name in Universe(deps)
      requires trail != [] ==> Edge(deps, trail[|trail| - 1], name)
      modifies this
      ensures !ok ==> Cyclic(deps)
      ensures ok ==> Valid() && active == old(active) && old(done) <= done && name in done
      decreases Universe(deps) - active
    {
      if name in done {
        return true;
      }
      if name in active {
        CloseTrail(deps, trail, name);
        return false;
      }
      active := active + {name};
      ghost var longer := trail + [name];
      TrailGrows(deps, trail, name);
      if name in deps {
        var todo := deps[name];
        while todo != {}
          invariant Valid() && active == old(active) + {name} && old(done) <= done && todo <= deps[name]
          invariant forall b :: b in deps[name] && b !in todo ==> b in done
          decreases |todo|
        {
          var next :| next in todo;
          ok := Visit(next, longer);
          if !ok {
            return;
          }
          todo := todo - {next};
        }
      }
      Settle(deps, done, name);
      active := active - {name};
      done := done + {name};
      return true;
    }
  }

  lemma TrailGrows(deps: Dependencies, trail: seq<string>, name: string)
    requires Path(deps, trail) && (trail != [] ==> Edge(deps, trail[|trail| - 1], name))
    ensures Path(deps, trail + [name])
  {
  }

  lemma CloseTrail(deps: Dependencies, trail: seq<string>, name: string)
    requires Path(deps, trail) && name in trail && Edge(deps, trail[|trail| - 1], name)
    ensures Cyclic(deps)
  {
    var k :| 0 <= k < |trail| && trail[k] == name;
    TrailGrows(deps, trail, name);
    var all := trail + [name];
    var p := all[k..];
    forall i | 0 <= i < |p| - 1 ensures Edge(deps, p[i], p[i + 1]) {
      assert Edge(deps, all[k + i], all[k + i + 1]);
    }
    assert Cycle(deps, p);
  }

  /** Visits every name with a fresh trail and shared settled names. */
  method Acyclic(deps: Dependencies) returns (ok: bool)
    ensures ok <==> !Cyclic(deps)
  {
    var v := new Visitor(deps);
    var todo := deps.Keys;
    while todo != {}
      invariant v.deps == deps && v.Valid() && todo <= deps.Keys
      invariant forall a :: a in deps && a !in todo ==> a in v.done
      decreases |todo|
    {
      var name :| name in todo;
      v.active := {};
      ok := v.Visit(name, []);
      if !ok {
        return;
      }
      todo := todo - {name};
    }
    AllSettled(deps, v.done);
    return true;
  }

  // ---------------------------------------------------------------- declarations

  type Rules = map<string, Query>

  predicate DependsOn(rules: Rules, a: string, b: string) {
    a in rules && b in rules && Uses(rules[a], b)
  }

  /** A round of declared relationships, each using the next, the last one using the first. */
  predicate Round(rules: Rules, p: seq<string>) {
    && |p| >= 1
    && (forall i :: 0 <= i < |p| - 1 ==> DependsOn(rules, p[i], p[i + 1]))
    && DependsOn(rules, p[|p| - 1], p[0])
  }

  ghost predicate DependenciesOf(rules: Rules, deps: Dependencies) {
    forall a, b :: Edge(deps, a, b) <==> DependsOn(rules, a, b)
  }

  lemma RoundIsCycle(rules: Rules, deps: Dependencies, p: seq<string>)
    requires DependenciesOf(rules, deps) && Round(rules, p)
    ensures Cyclic(deps)
  {
    var q := p + [p[0]];
    forall i | 0 <= i < |q| - 1 ensures Edge(deps, q[i], q[i + 1]) {
      assert i < |p| - 1 ==> q[i + 1] == p[i + 1];
    }
    assert Cycle(deps, q);
  }

  lemma CycleIsRound(rules: Rules, deps: Dependencies, q: seq<string>)
    requires DependenciesOf(rules, deps) && Cycle(deps, q)
    ensures Round(rules, q[..|q| - 1])
  {
    var p := q[..|q| - 1];
    forall i | 0 <= i < |p| - 1 ensures DependsOn(rules, p[i], p[i + 1]) {
      assert Edge(deps, q[i], q[i + 1]);
    }
    assert Edge(deps, q[|p| - 1], q[|p|]);
  }

  method CollectAll(rules: Rules) returns (deps: Dependencies)
    ensures DependenciesOf(rules, deps)
  {
    deps := map[];
    var todo := rules.Keys;
    while todo != {}
      invariant todo <= rules.Keys && deps.Keys == rules.Keys - todo
      invariant forall a, b :: a in deps ==> (b in deps[a] <==> DependsOn(rules, a, b))
      decreases |todo|
    {
      var name :| name in todo;
      var names := Collect(rules[name], rules.Keys, {});
      deps := deps[name := names];
      todo := todo - {name};
    }
  }

  /** Installing declarations fails exactly when some of them use each other in a round; one that
      uses itself is such a round. */
  method Install(rules: Rules) returns (ok: bool)
    ensures ok <==> !exists p :: Round(rules, p)
  {
    var deps := CollectAll(rules);
    ok := Acyclic(deps);
    forall p | Round(rules, p) ensures Cyclic(deps) { RoundIsCycle(rules, deps, p); }
    forall q | Cycle(deps, q) ensures exists p :: Round(rules, p) { CycleIsRound(rules, deps, q); }
  }
}
