/** Executing a routed plan: transfers in order, each result bound before the next one starts.
    Routing is right exactly when every scan reads what was meant by it. */
module RouteExecution {
  import opened Plans
  import opened Routing
  import opened TransferOrder

  // ---------------------------------------------------------------- what happens

  /** What names stand for in a statement on an engine with relations bound to it: a bound
      relation hides a table of the same name, and anything else is a table of the engine. */
  ghost function Actual(w: World, e: Engine, b: Bound): Site {
    Site(e,
         (t: Table) => if |t| == 1 && t[0] in b then b[t[0]] else w.tables(e, t),
         (x: string) => if x in b then b[x] else w.tables(e, [x]))
  }

  /** The relations in scope of a transfer: none for a closed request. */
  function InScope(t: Transfer, b: Bound): Bound {
    if t.completion.Closed? then map[] else b
  }

  /** Rows delivered for a transfer when the names in `b` are bound. */
  ghost function Delivered(w: World, b: Bound, t: Transfer): seq<Row> {
    var rows := Eval(w, Actual(w, t.engine, InScope(t, b)), t.plan)[0].rows;
    if t.completion.Apply? then w.answer(t.completion.engine, t.completion.code, rows) else rows
  }

  /** The names bound by running transfers in order, each delivering what `deliver` says. */
  ghost function Ran(ts: seq<Transfer>, deliver: (Bound, Transfer) -> seq<Row>): Bound {
    if ts == [] then map[]
    else
      var n := |ts| - 1;
      var b := Ran(ts[..n], deliver);
      b[ts[n].name := deliver(b, ts[n])]
  }

  /** Run the transfers in order, binding each result before the next one starts. */
  ghost function Executed(w: World, ts: seq<Transfer>): Bound {
    Ran(ts, (b: Bound, t: Transfer) => Delivered(w, b, t))
  }

  /** The same with every scan reading what was meant. */
  ghost function MeantRun(w: World, cfg: Config, ts: seq<Transfer>): Bound {
    Ran(ts, (b: Bound, t: Transfer) => Intended(w, cfg, b, t))
  }

  /** Running the transfers and then the routed plan gives the relation of the plan. */
  ghost predicate Preserved(w: World, cfg: Config, p: Plan, r: Routed) {
    Eval(w, Actual(w, cfg.target, Executed(w, r.transfers)), r.plan) == Federated(w, cfg, p)
  }

  // ---------------------------------------------------------------- the exact condition

  /** On engine `e` with relations `bound`, a plan reads what was meant: each table lives on the
      engine and is not hidden by a relation, and each exchange relation is bound. */
  predicate ReadsRight(cfg: Config, e: Engine, bound: set<string>, p: Plan) {
    && (forall t :: t in Scans(p) ==> Home(cfg, t) == e && !(|t| == 1 && t[0] in bound))
    && Exchanges(p) <= bound
  }

  function BoundFor(ts: seq<Transfer>, k: nat): set<string>
    requires k < |ts|
  {
    if ts[k].completion.Closed? then {} else Names(ts[..k])
  }

  predicate Faithful(cfg: Config, r: Routed) {
    && (forall k :: 0 <= k < |r.transfers| ==>
          ReadsRight(cfg, r.transfers[k].engine, BoundFor(r.transfers, k), r.transfers[k].plan))
    && ReadsRight(cfg, cfg.target, Names(r.transfers), r.plan)
  }

  // ---------------------------------------------------------------- runs

  lemma {:induction false} RanKeys(ts: seq<Transfer>, deliver: (Bound, Transfer) -> seq<Row>)
    ensures Ran(ts, deliver).Keys == Names(ts)
  {
    if ts != [] {
      var n := |ts| - 1;
      RanKeys(ts[..n], deliver);
      assert ts == ts[..n] + [ts[n]];
    }
  }

  /** Later transfers do not touch what an earlier one has bound. */
  lemma {:induction false} RanKeeps(ts: seq<Transfer>, deliver: (Bound, Transfer) -> seq<Row>, k: nat)
    requires Distinct(ts) && k < |ts|
    ensures var b := Ran(ts, deliver); ts[k].name in b && b[ts[k].name] == deliver(Ran(ts[..k], deliver), ts[k])
  {
    var n := |ts| - 1;
    if k < n {
      RanKeeps(ts[..n], deliver, k);
      assert ts[..n][..k] == ts[..k] && ts[..n][k] == ts[k];
    }
  }

  lemma RanPrefix(ts: seq<Transfer>, deliver: (Bound, Transfer) -> seq<Row>, k: nat, x: string)
    requires Distinct(ts) && k <= |ts| && x in Names(ts[..k])
    ensures x in Ran(ts[..k], deliver) && x in Ran(ts, deliver) && Ran(ts[..k], deliver)[x] == Ran(ts, deliver)[x]
  {
    var j :| 0 <= j < k && ts[..k][j].name == x;
    RanKeeps(ts, deliver, j);
    RanKeeps(ts[..k], deliver, j);
    assert ts[..k][..j] == ts[..j] && ts[..k][j] == ts[j];
  }

  lemma RunKeys(w: World, cfg: Config, ts: seq<Transfer>)
    ensures Executed(w, ts).Keys == Names(ts) && MeantRun(w, cfg, ts).Keys == Names(ts)
  {
    RanKeys(ts, (b: Bound, t: Transfer) => Delivered(w, b, t));
    RanKeys(ts, (b: Bound, t: Transfer) => Intended(w, cfg, b, t));
  }

  lemma RunKeeps(w: World, cfg: Config, ts: seq<Transfer>, k: nat)
    requires Distinct(ts) && k < |ts|
    ensures var b := Executed(w, ts); ts[k].name in b && b[ts[k].name] == Delivered(w, Executed(w, ts[..k]), ts[k])
    ensures
      var b := MeantRun(w, cfg, ts);
      ts[k].name in b && b[ts[k].name] == Intended(w, cfg, MeantRun(w, cfg, ts[..k]), ts[k])
  {
    RanKeeps(ts, (b: Bound, t: Transfer) => Delivered(w, b, t), k);
    RanKeeps(ts, (b: Bound, t: Transfer) => Intended(w, cfg, b, t), k);
  }

  lemma SamePrefix(w: World, cfg: Config, ts: seq<Transfer>, k: nat, x: string)
    requires Distinct(ts) && k <= |ts| && x in Names(ts[..k])
    ensures x in Executed(w, ts[..k]) && x in Executed(w, ts) && Executed(w, ts[..k])[x] == Executed(w, ts)[x]
    ensures
      && x in MeantRun(w, cfg, ts[..k]) && x in MeantRun(w, cfg, ts)
      && MeantRun(w, cfg, ts[..k])[x] == MeantRun(w, cfg, ts)[x]
  {
    RanPrefix(ts, (b: Bound, t: Transfer) => Delivered(w, b, t), k, x);
    RanPrefix(ts, (b: Bound, t: Transfer) => Intended(w, cfg, b, t), k, x);
  }

  /** In a run as meant, every name means what its transfer is meant to deliver. */
  lemma MeantRunAgrees(w: World, cfg: Config, ts: seq<Transfer>)
    requires Distinct(ts) && Earlier(ts)
    ensures Agrees(w, cfg, MeantRun(w, cfg, ts), ts)
  {
    var b := MeantRun(w, cfg, ts);
    forall k | 0 <= k < |ts| ensures ts[k].name in b && b[ts[k].name] == Intended(w, cfg, b, ts[k]) {
      RunKeeps(w, cfg, ts, k);
      var b' := MeantRun(w, cfg, ts[..k]);
      forall x | x in Exchanges(ts[k].plan) ensures x in b && x in b' && b[x] == b'[x] { SamePrefix(w, cfg, ts, k, x); }
      EvalAgrees(w, Meant(w, cfg, ts[k].engine, b), Meant(w, cfg, ts[k].engine, b'), ts[k].plan);
    }
  }

  /** Nothing about the plan itself stands in the way of routing it. */
  predicate Routable(cfg: Config, p: Plan) {
    Uncorrelated(p) && QualifiersKept(cfg, p, true)
  }

  /** A run as meant gives the meaning of the plan. */
  lemma MeantRunMeaning(w: World, cfg: Config, p: Plan, next: nat)
    requires Lawful(w) && Routable(cfg, p) && Original(p) && Route(cfg, p, next).Done?
    ensures
      var r := Route(cfg, p, next).value;
      Eval(w, Meant(w, cfg, cfg.target, MeantRun(w, cfg, r.transfers)), r.plan) == Federated(w, cfg, p)
  {
    var r := Route(cfg, p, next).value;
    var b := MeantRun(w, cfg, r.transfers);
    var s := Meant(w, cfg, cfg.target, b);
    RouteOrderly(cfg, p, next);
    MeantRunAgrees(w, cfg, r.transfers);
    RouteMeaning(w, cfg, p, next, b, true);
    NearIsSame(Eval(w, s, r.plan), Eval(w, s, p));
    EvalAgrees(w, s, Meant(w, cfg, cfg.target, map[]), p);
  }

  // ---------------------------------------------------------------- sufficient

  lemma RightLeaves(w: World, cfg: Config, e: Engine, b: Bound, p: Plan)
    requires ReadsRight(cfg, e, b.Keys, p)
    ensures SameLeaves(Actual(w, e, b), Meant(w, cfg, e, b), p)
  {
  }

  lemma {:induction false} FaithfulRun(w: World, cfg: Config, ts: seq<Transfer>, n: nat)
    requires n <= |ts| && Distinct(ts)
    requires forall k :: 0 <= k < |ts| ==> ReadsRight(cfg, ts[k].engine, BoundFor(ts, k), ts[k].plan)
    ensures Executed(w, ts[..n]) == MeantRun(w, cfg, ts[..n])
  {
    if n > 0 {
      var k := n - 1;
      FaithfulRun(w, cfg, ts, k);
      assert ts[..n][..k] == ts[..k];
      FaithfulStep(w, cfg, ts, k);
    }
  }

  lemma FaithfulStep(w: World, cfg: Config, ts: seq<Transfer>, k: nat)
    requires k < |ts| && ReadsRight(cfg, ts[k].engine, BoundFor(ts, k), ts[k].plan)
    requires Executed(w, ts[..k]) == MeantRun(w, cfg, ts[..k])
    ensures Delivered(w, Executed(w, ts[..k]), ts[k]) == Intended(w, cfg, MeantRun(w, cfg, ts[..k]), ts[k])
  {
    var t, b := ts[k], Executed(w, ts[..k]);
    RunKeys(w, cfg, ts[..k]);
    RightLeaves(w, cfg, t.engine, InScope(t, b), t.plan);
    EvalAgrees(w, Actual(w, t.engine, InScope(t, b)), Meant(w, cfg, t.engine, InScope(t, b)), t.plan);
    EvalAgrees(w, Meant(w, cfg, t.engine, InScope(t, b)), Meant(w, cfg, t.engine, b), t.plan);
  }

  /** If every scan reads what was meant by it, the result is the result as meant. */
  lemma FaithfulResult(w: World, cfg: Config, r: Routed)
    requires Distinct(r.transfers) && Faithful(cfg, r)
    ensures Executed(w, r.transfers) == MeantRun(w, cfg, r.transfers)
    ensures
      Eval(w, Actual(w, cfg.target, Executed(w, r.transfers)), r.plan)
        == Eval(w, Meant(w, cfg, cfg.target, MeantRun(w, cfg, r.transfers)), r.plan)
  {
    var ts, b := r.transfers, Executed(w, r.transfers);
    FaithfulRun(w, cfg, ts, |ts|);
    assert ts[..|ts|] == ts;
    RunKeys(w, cfg, ts);
    RightLeaves(w, cfg, cfg.target, b, r.plan);
    EvalAgrees(w, Actual(w, cfg.target, b), Meant(w, cfg, cfg.target, b), r.plan);
  }

  /** Routing preserves meaning when every scan reads what was meant by it: running the transfers
      in order and then the routed plan on the target gives the federated relation. */
  lemma RoutePreservesMeaning(w: World, cfg: Config, p: Plan, next: nat)
    requires Lawful(w) && Routable(cfg, p) && Original(p) && Route(cfg, p, next).Done?
    requires Faithful(cfg, Route(cfg, p, next).value)
    ensures Preserved(w, cfg, p, Route(cfg, p, next).value)
  {
    RouteOrderly(cfg, p, next);
    FaithfulResult(w, cfg, Route(cfg, p, next).value);
    MeantRunMeaning(w, cfg, p, next);
  }
}
