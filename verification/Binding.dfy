/** Completing a plan transfer by transfer: the head-first bind loop of the clients. */
module Binding {
  import opened Text
  import opened Plans
  import opened Routing
  import opened TransferOrder
  import opened RouteExecution
  import opened RouteSafety

  /** A statement and the query-scoped relations bound to it so far. */
  datatype Statement = Statement(plan: Plan, ctes: Bound)
  /** A closed request has no SQL to bind into. */
  datatype Pending = Pending(transfer: Transfer, sql: Option<Statement>)
  datatype ExecutionPlan = ExecutionPlan(final: Statement, pending: seq<Pending>)

  /** The name can still be bound in the statement. */
  predicate Unbound(p: Pending, name: string) {
    p.sql.Some? ==> name !in p.sql.value.ctes
  }

  function WithRelation(p: Pending, name: string, rows: seq<Row>): Pending {
    if p.sql.None? then p else p.(sql := Some(p.sql.value.(ctes := p.sql.value.ctes[name := rows])))
  }

  method BindStatement(s: Statement, name: string, rows: seq<Row>) returns (r: Outcome<Statement>)
    ensures r.Done? <==> name !in s.ctes
    ensures r.Done? ==> r.value.plan == s.plan && r.value.ctes == s.ctes[name := rows]
  {
    if name in s.ctes {
      return Failed;
    }
    return Done(s.(ctes := s.ctes[name := rows]));
  }

  /** Binds the relation into every statement, or fails when one already has the name. */
  method BindEach(todo: seq<Pending>, name: string, rows: seq<Row>) returns (r: Outcome<seq<Pending>>)
    ensures r.Done? <==> forall i :: 0 <= i < |todo| ==> Unbound(todo[i], name)
    ensures r.Done? ==>
      |r.value| == |todo| && forall i :: 0 <= i < |todo| ==> r.value[i] == WithRelation(todo[i], name, rows)
  {
    var bound := [];
    for i := 0 to |todo|
      invariant |bound| == i && forall k :: 0 <= k < i ==> Unbound(todo[k], name)
      invariant forall k :: 0 <= k < i ==> bound[k] == WithRelation(todo[k], name, rows)
    {
      var next := todo[i];
      if next.sql.Some? {
        var statement := BindStatement(next.sql.value, name, rows);
        if statement.Failed? {
          return Failed;
        }
        next := next.(sql := Some(statement.value));
      }
      bound := bound + [next];
    }
    return Done(bound);
  }

  function IndexOf(ps: seq<Pending>, name: string): (i: nat)
    ensures i <= |ps| && (i < |ps| ==> ps[i].transfer.name == name)
    ensures forall j :: 0 <= j < i ==> ps[j].transfer.name != name
  {
    if ps == [] || ps[0].transfer.name == name then 0 else 1 + IndexOf(ps[1..], name)
  }

  /** The position of what is left after taking out position i. */
  function After(i: nat, j: nat): nat {
    if j < i then j else j + 1
  }

  /** Completes one transfer: exactly it is removed, and its relation is in scope of the final and
      of every remaining statement. Fails exactly when no such transfer is pending or the name is
      bound already. */
  method BindPlanBatches(p: ExecutionPlan, name: string, rows: seq<Row>) returns (r: Outcome<ExecutionPlan>)
    ensures
      var i := IndexOf(p.pending, name);
      r.Done? <==>
        && i < |p.pending| && name !in p.final.ctes
        && forall j :: 0 <= j < |p.pending| && j != i ==> Unbound(p.pending[j], name)
    ensures r.Done? ==>
      var i := IndexOf(p.pending, name);
      && r.value.final == Statement(p.final.plan, p.final.ctes[name := rows])
      && |r.value.pending| == |p.pending| - 1
      && forall j :: 0 <= j < |p.pending| - 1 ==> r.value.pending[j] == WithRelation(p.pending[After(i, j)], name, rows)
  {
    var index := IndexOf(p.pending, name);
    if index == |p.pending| {
      return Failed;
    }
    var final := BindStatement(p.final, name, rows);
    if final.Failed? {
      return Failed;
    }
    var others := p.pending[..index] + p.pending[index + 1..];
    assert forall j :: 0 <= j < |others| ==> others[j] == p.pending[After(index, j)];
    assert forall j :: 0 <= j < |p.pending| && j != index ==> p.pending[j] == others[if j < index then j else j - 1];
    var rest := BindEach(others, name, rows);
    if rest.Failed? {
      return Failed;
    }
    return Done(ExecutionPlan(final.value, rest.value));
  }

  // ---------------------------------------------------------------- the loop

  function PendingOf(t: Transfer, b: Bound): Pending {
    Pending(t, if t.completion.Closed? then None else Some(Statement(t.plan, b)))
  }

  function PendingAll(ts: seq<Transfer>, b: Bound): (ps: seq<Pending>)
    ensures |ps| == |ts|
    ensures forall i :: 0 <= i < |ts| ==> ps[i] == PendingOf(ts[i], b)
  {
    seq(|ts|, i requires 0 <= i < |ts| => PendingOf(ts[i], b))
  }

  /** The plan after the first k transfers have been bound. */
  ghost function Progress(w: World, final: Plan, ts: seq<Transfer>, k: nat): ExecutionPlan
    requires k <= |ts|
  {
    var b := Executed(w, ts[..k]);
    ExecutionPlan(Statement(final, b), PendingAll(ts[k..], b))
  }

  lemma ExecutedNext(w: World, ts: seq<Transfer>, k: nat)
    requires k < |ts|
    ensures Executed(w, ts[..k + 1]) == Executed(w, ts[..k])[ts[k].name := Delivered(w, Executed(w, ts[..k]), ts[k])]
  {
    assert ts[..k + 1][..k] == ts[..k];
  }

  lemma HeadUnbound(w: World, cfg: Config, ts: seq<Transfer>, k: nat)
    requires Distinct(ts) && k < |ts|
    ensures ts[k].name !in Executed(w, ts[..k])
  {
    RunKeys(w, cfg, ts[..k]);
    assert forall i :: 0 <= i < k ==> ts[..k][i] == ts[i];
  }

  /** The head of the list can be bound everywhere. */
  lemma HeadReady(w: World, cfg: Config, final: Plan, ts: seq<Transfer>, k: nat)
    requires Distinct(ts) && k < |ts|
    ensures
      var p, b := Progress(w, final, ts, k), Executed(w, ts[..k]);
      && p.pending[0] == PendingOf(ts[k], b) && IndexOf(p.pending, ts[k].name) == 0 && ts[k].name !in p.final.ctes
      && forall j :: 0 <= j < |p.pending| ==> Unbound(p.pending[j], ts[k].name)
  {
    HeadUnbound(w, cfg, ts, k);
    assert ts[k..][0] == ts[k];
  }

  /** Binding the rows of the head goes from k bound transfers to k + 1. */
  lemma FederateStep(w: World, final: Plan, ts: seq<Transfer>, k: nat, next: ExecutionPlan)
    requires k < |ts|
    requires
      var p, rows := Progress(w, final, ts, k), Delivered(w, Executed(w, ts[..k]), ts[k]);
      && next.final == Statement(final, p.final.ctes[ts[k].name := rows]) && |next.pending| == |p.pending| - 1
      && forall j :: 0 <= j < |p.pending| - 1 ==> next.pending[j] == WithRelation(p.pending[j + 1], ts[k].name, rows)
    ensures next == Progress(w, final, ts, k + 1)
  {
    var p, q := Progress(w, final, ts, k), Progress(w, final, ts, k + 1);
    ExecutedNext(w, ts, k);
    forall j | 0 <= j < |q.pending| ensures next.pending[j] == q.pending[j] {
      assert ts[k..][j + 1] == ts[k + 1..][j];
    }
    assert next.pending == q.pending;
  }

  /** The caller's loop: run the first pending transfer, bind its rows, repeat. `fetch` stands
      for the sessions: the rows a transfer delivers given the relations bound to it. */
  method BindAll(routed: Routed, fetch: (Transfer, Bound) -> seq<Row>, ghost w: World, ghost cfg: Config)
    returns (r: Outcome<Statement>)
    requires Distinct(routed.transfers) && forall t, b :: fetch(t, b) == Delivered(w, b, t)
    ensures r == Done(Statement(routed.plan, Executed(w, routed.transfers)))
  {
    ghost var ts, k := routed.transfers, 0;
    var plan := ExecutionPlan(Statement(routed.plan, map[]), PendingAll(routed.transfers, map[]));
    assert ts[0..] == ts && ts[..0] == [];
    while |plan.pending| > 0
      invariant 0 <= k <= |ts|
      invariant plan == Progress(w, routed.plan, ts, k)
      decreases |plan.pending|
    {
      var t, sql := plan.pending[0].transfer, plan.pending[0].sql;
      HeadReady(w, cfg, routed.plan, ts, k);
      var rows := fetch(t, if sql.Some? then sql.value.ctes else map[]);
      var bound := BindPlanBatches(plan, t.name, rows);
      if bound.Failed? || |bound.value.pending| >= |plan.pending| {
        return Failed;
      }
      FederateStep(w, routed.plan, ts, k, bound.value);
      plan := bound.value;
      k := k + 1;
    }
    assert ts[..k] == ts;
    return Done(plan.final);
  }

  /** The loop never fails and ends with every name bound. The final statement gives the relation
      of the plan whenever the route is faithful, and that is sure if names are ordinary. */
  method Federate(cfg: Config, routed: Routed, fetch: (Transfer, Bound) -> seq<Row>,
                  ghost w: World, ghost p: Plan, ghost next: nat)
    returns (r: Outcome<Statement>)
    requires Original(p) && Route(cfg, p, next) == Done(routed)
    requires forall t, b :: fetch(t, b) == Delivered(w, b, t)
    ensures r.Done? && r.value.plan == routed.plan && r.value.ctes.Keys == Names(routed.transfers)
    ensures Lawful(w) && Routable(cfg, p) && Faithful(cfg, routed) ==>
      Eval(w, Actual(w, cfg.target, r.value.ctes), r.value.plan) == Federated(w, cfg, p)
    ensures Lawful(w) && Routable(cfg, p) && WellOwned(cfg, p) && (Flat(p) || OrdinaryNames(cfg, p)) ==>
      Eval(w, Actual(w, cfg.target, r.value.ctes), r.value.plan) == Federated(w, cfg, p)
  {
    RouteOrderly(cfg, p, next);
    r := BindAll(routed, fetch, w, cfg);
    RunKeys(w, cfg, routed.transfers);
    if WellOwned(cfg, p) && (Flat(p) || OrdinaryNames(cfg, p)) { NeverConfused(cfg, p, next); }
    if Lawful(w) && Routable(cfg, p) && Faithful(cfg, routed) { RoutePreservesMeaning(w, cfg, p, next); }
  }
}
