/** Routing preserves meaning in every lawful world exactly when every scan reads what was meant
    by it and nothing about the plan itself stands in the way. The free world tells them apart. */
module RouteExactness {
  import opened Plans
  import opened Routing
  import opened TransferOrder
  import opened FreeWorld
  import opened RouteExecution

  // ---------------------------------------------------------------- scans

  ghost function Run(ts: seq<Transfer>): Bound {
    Executed(Free(false), ts)
  }

  ghost function Aim(cfg: Config, ts: seq<Transfer>): Bound {
    MeantRun(Free(false), cfg, ts)
  }

  ghost function There(e: Engine, b: Bound): Site {
    Actual(Free(false), e, b)
  }

  ghost function Ought(cfg: Config, e: Engine, b: Bound): Site {
    Meant(Free(false), cfg, e, b)
  }

  lemma {:induction false} Index(ts: seq<Transfer>, n: nat, x: string) returns (j: nat)
    requires n <= |ts| && x in Names(ts[..n])
    ensures j < n && ts[j].name == x
  {
    j :| 0 <= j < n && ts[..n][j].name == x;
  }

  /** Rows that name a table come from a table the routing call saw. */
  lemma {:induction false} OriginInScope(cfg: Config, ts: seq<Transfer>, call: Call, hi: nat, k: nat, e: Engine,
      t: Table)
    requires Orderly(ts, call, hi) && k < |ts|
    requires ts[k].name in Aim(cfg, ts) && Aim(cfg, ts)[ts[k].name] == [Origin(e, t)]
    ensures t in ts[k].call.scope
    decreases k
  {
    var x, b := ts[k], Aim(cfg, ts);
    MeantRunAgrees(Free(false), cfg, ts);
    assert Scoped(x) && b[x.name] == Intended(Free(false), cfg, b, x);
    if x.completion.Apply? {
      AskedIsNoOrigin(x.completion.engine, x.completion.code,
        Eval(Free(false), Ought(cfg, x.engine, b), x.plan)[0].rows, e, t);
    } else {
      OriginIsLeaf(Ought(cfg, x.engine, b), x.plan, e, t);
      if u :| u in Scans(x.plan) && [Origin(Home(cfg, u), u)] == [Origin(e, t)] {
        OriginInjective(Home(cfg, u), u, e, t);
      } else {
        var y :| y in Exchanges(x.plan) && Ought(cfg, x.engine, b).exchange(y) == [Origin(e, t)];
        var j := Index(ts, k, y);
        assert ts[j].name in b;
        OriginInScope(cfg, ts, call, hi, j, e, t);
      }
    }
  }

  /** So no name is meant to be a table of that name. */
  lemma NotItsOwnTable(cfg: Config, ts: seq<Transfer>, call: Call, hi: nat, n: nat, x: string, e: Engine)
    requires Orderly(ts, call, hi) && n <= |ts| && x in Names(ts[..n])
    ensures x in Aim(cfg, ts) && Aim(cfg, ts)[x] != [Origin(e, [x])]
  {
    var k := Index(ts, n, x);
    RunKeeps(Free(false), cfg, ts, k);
    assert Scoped(ts[k]);
    if Aim(cfg, ts)[x] == [Origin(e, [x])] { OriginInScope(cfg, ts, call, hi, k, e, [x]); }
  }

  /** The name is bound to what was meant. */
  ghost predicate OnTrack(cfg: Config, ts: seq<Transfer>, x: string) {
    x in Run(ts) && x in Aim(cfg, ts) && Run(ts)[x] == Aim(cfg, ts)[x]
  }

  /** A transfer that delivers what it is meant to reads at every leaf what was meant. */
  lemma OnTrackReads(cfg: Config, ts: seq<Transfer>, k: nat)
    requires Distinct(ts) && k < |ts| && OnTrack(cfg, ts, ts[k].name)
    ensures
      SameLeaves(There(ts[k].engine, InScope(ts[k], Run(ts[..k]))), Ought(cfg, ts[k].engine, Aim(cfg, ts[..k])),
        ts[k].plan)
  {
    var w, t := Free(false), ts[k];
    var s, s' := There(t.engine, InScope(t, Run(ts[..k]))), Ought(cfg, t.engine, Aim(cfg, ts[..k]));
    RunKeeps(w, cfg, ts, k);
    if t.completion.Apply? {
      AskedInjective(t.completion.engine, t.completion.code, Eval(w, s, t.plan)[0].rows, Eval(w, s', t.plan)[0].rows);
    }
    LeavesReadAlike(s, s', t.plan);
  }

  /** Reading an exchange relation as meant: it is bound, and to what was meant. */
  lemma ExchangeReadRight(cfg: Config, ts: seq<Transfer>, call: Call, hi: nat, n: nat, e: Engine, b: Bound, x: string)
    requires Orderly(ts, call, hi) && n <= |ts| && x in Names(ts[..n]) && (b == map[] || b == Run(ts[..n]))
    requires There(e, b).exchange(x) == Ought(cfg, e, Aim(cfg, ts[..n])).exchange(x)
    ensures x in b && OnTrack(cfg, ts, x)
  {
    SamePrefix(Free(false), cfg, ts, n, x);
    NotItsOwnTable(cfg, ts, call, hi, n, x, e);
  }

  /** Whoever reads an exchange relation and is on track keeps the relation on track. */
  lemma ReaderKeepsOnTrack(cfg: Config, ts: seq<Transfer>, call: Call, hi: nat, x: string, j: nat)
    requires Orderly(ts, call, hi) && j < |ts| && x in Exchanges(ts[j].plan) && OnTrack(cfg, ts, ts[j].name)
    ensures OnTrack(cfg, ts, x)
  {
    OnTrackReads(cfg, ts, j);
    assert x in Names(ts[..j]);
    ExchangeReadRight(cfg, ts, call, hi, j, ts[j].engine, InScope(ts[j], Run(ts[..j])), x);
  }

  /** The routed plan reads at every leaf what was meant. */
  ghost predicate ResultRight(cfg: Config, r: Routed) {
    SameLeaves(There(cfg.target, Run(r.transfers)), Ought(cfg, cfg.target, Aim(cfg, r.transfers)), r.plan)
  }

  /** If the result is right, every name is on track: each is read by something that is. */
  lemma {:induction false} AllOnTrack(cfg: Config, r: Routed, call: Call, hi: nat, k: nat)
    requires Orderly(r.transfers, call, hi) && Names(r.transfers) <= Exchanges(r.plan) + Uses(r.transfers)
    requires ResultRight(cfg, r) && k < |r.transfers|
    ensures OnTrack(cfg, r.transfers, r.transfers[k].name)
    decreases |r.transfers| - k
  {
    var ts, x := r.transfers, r.transfers[k].name;
    assert ts[..|ts|] == ts && x in Names(ts);
    if x in Exchanges(r.plan) {
      ExchangeReadRight(cfg, ts, call, hi, |ts|, cfg.target, Run(ts), x);
    } else {
      var j := UsedSomewhere(ts, x);
      assert x in Names(ts[..j]);
      var i := Index(ts, j, x);
      assert i == k;
      AllOnTrack(cfg, r, call, hi, j);
      ReaderKeepsOnTrack(cfg, ts, call, hi, x, j);
    }
  }

  ghost predicate AllNamesOnTrack(cfg: Config, ts: seq<Transfer>) {
    forall k :: 0 <= k < |ts| ==> OnTrack(cfg, ts, ts[k].name)
  }

  lemma TableReadRight(cfg: Config, ts: seq<Transfer>, call: Call, hi: nat, n: nat, e: Engine, b: Bound, t: Table)
    requires Orderly(ts, call, hi) && n <= |ts| && AllNamesOnTrack(cfg, ts) && (b == map[] || b == Run(ts[..n]))
    requires There(e, b).table(t) == [Origin(Home(cfg, t), t)]
    ensures Home(cfg, t) == e && !(|t| == 1 && t[0] in b)
  {
    assert |t| == 1 ==> [t[0]] == t;
    if |t| == 1 && t[0] in b {
      HiddenTable(cfg, ts, call, hi, n, t[0], Home(cfg, t));
    } else {
      OriginInjective(e, t, Home(cfg, t), t);
    }
  }

  /** A relation never holds what the table it hides would. */
  lemma HiddenTable(cfg: Config, ts: seq<Transfer>, call: Call, hi: nat, n: nat, x: string, e: Engine)
    requires Orderly(ts, call, hi) && n <= |ts| && AllNamesOnTrack(cfg, ts) && x in Run(ts[..n])
    ensures Run(ts[..n])[x] != [Origin(e, [x])]
  {
    RunKeys(Free(false), cfg, ts[..n]);
    SamePrefix(Free(false), cfg, ts, n, x);
    NotItsOwnTable(cfg, ts, call, hi, n, x, e);
    var j := Index(ts, n, x);
    assert OnTrack(cfg, ts, ts[j].name);
  }

  /** With every name on track, reading as meant is the condition of the theorem. */
  lemma ReadsAsMeant(cfg: Config, ts: seq<Transfer>, call: Call, hi: nat, n: nat, e: Engine, b: Bound, p: Plan)
    requires Orderly(ts, call, hi) && n <= |ts| && AllNamesOnTrack(cfg, ts) && (b == map[] || b == Run(ts[..n]))
    requires Exchanges(p) <= Names(ts[..n]) && SameLeaves(There(e, b), Ought(cfg, e, Aim(cfg, ts[..n])), p)
    ensures ReadsRight(cfg, e, b.Keys, p)
  {
    forall x | x in Exchanges(p) ensures x in b { ExchangeReadRight(cfg, ts, call, hi, n, e, b, x); }
    forall t | t in Scans(p) ensures Home(cfg, t) == e && !(|t| == 1 && t[0] in b) {
      TableReadRight(cfg, ts, call, hi, n, e, b, t);
    }
  }

  lemma TransferReadsRight(cfg: Config, ts: seq<Transfer>, call: Call, hi: nat, k: nat)
    requires Orderly(ts, call, hi) && k < |ts| && AllNamesOnTrack(cfg, ts)
    ensures ReadsRight(cfg, ts[k].engine, BoundFor(ts, k), ts[k].plan)
  {
    var b := InScope(ts[k], Run(ts[..k]));
    RunKeys(Free(false), cfg, ts[..k]);
    assert b.Keys == BoundFor(ts, k) && Exchanges(ts[k].plan) <= Names(ts[..k]);
    OnTrackReads(cfg, ts, k);
    ReadsAsMeant(cfg, ts, call, hi, k, ts[k].engine, b, ts[k].plan);
  }

  lemma RightRouteIsFaithful(cfg: Config, r: Routed, call: Call, hi: nat)
    requires Orderly(r.transfers, call, hi) && Names(r.transfers) <= Exchanges(r.plan) + Uses(r.transfers)
    requires Exchanges(r.plan) <= Names(r.transfers) && ResultRight(cfg, r)
    ensures Faithful(cfg, r)
  {
    var ts := r.transfers;
    forall k | 0 <= k < |ts| ensures OnTrack(cfg, ts, ts[k].name) { AllOnTrack(cfg, r, call, hi, k); }
    forall k | 0 <= k < |ts| ensures ReadsRight(cfg, ts[k].engine, BoundFor(ts, k), ts[k].plan) {
      TransferReadsRight(cfg, ts, call, hi, k);
    }
    assert ts[..|ts|] == ts;
    RunKeys(Free(false), cfg, ts);
    ReadsAsMeant(cfg, ts, call, hi, |ts|, cfg.target, Run(ts), r.plan);
  }

  // ---------------------------------------------------------------- rows for one outer row

  /** As meant, the routed plan has the rows of the plan for outer row 0, whatever the plan. */
  lemma {:induction false} OperationsAtZero(cfg: Config, call: Call, p: Plan, book: Book, next: nat, b: Bound)
    requires Operations(cfg, call, p, book, next).Done?
    requires Agrees(Free(false), cfg, b, Operations(cfg, call, p, book, next).value.1.transfers)
    ensures
      var w, s := Free(false), Meant(Free(false), cfg, cfg.target, b);
      Eval(w, s, Operations(cfg, call, p, book, next).value.0)[0].rows == Eval(w, s, p)[0].rows
    decreases p, 1
  {
    var w, s := Free(false), Meant(Free(false), cfg, cfg.target, b);
    if p.Node? {
      OperationsAllAtZero(cfg, call, p.inputs, book, next, b);
      var qs := OperationsAll(cfg, call, p.inputs, book, next).value.0;
      assert NotedAll(EvalAll(w, s, qs), 0, false) == NotedAll(EvalAll(w, s, p.inputs), 0, false);
    } else if p.Dependent? {
      DependentAtZero(cfg, call, p, book, next, b);
    } else if !Leaf(p) {
      OperationsAtZero(cfg, call, p.input, book, next, b);
    }
  }

  lemma {:induction false} OperationsAllAtZero(cfg: Config, call: Call, ks: seq<Plan>, book: Book, next: nat, b: Bound)
    requires OperationsAll(cfg, call, ks, book, next).Done?
    requires Agrees(Free(false), cfg, b, OperationsAll(cfg, call, ks, book, next).value.1.transfers)
    ensures
      var w, s := Free(false), Meant(Free(false), cfg, cfg.target, b);
      var qs := OperationsAll(cfg, call, ks, book, next).value.0;
      forall i :: 0 <= i < |ks| ==> Eval(w, s, qs[i])[0].rows == Eval(w, s, ks[i])[0].rows
    decreases ks, 0
  {
    if ks != [] {
      var (q, b1, n1) := Operations(cfg, call, ks[0], book, next).value;
      OperationsAllExtend(cfg, call, ks[1..], b1, n1);
      OperationsAtZero(cfg, call, ks[0], book, next, b);
      OperationsAllAtZero(cfg, call, ks[1..], b1, n1, b);
    }
  }

  /** The transfers of a dependent operation's input, and its own. */
  lemma DependentBinds(w: World, cfg: Config, call: Call, p: Plan, book: Book, inner: Routed, b: Bound, c: Outer)
    requires p.Dependent? && Agrees(w, cfg, b, CompletedBy(cfg, call, book, p, inner.plan, inner.transfers).1.transfers)
    ensures Agrees(w, cfg, b, inner.transfers)
    ensures
      var s := Meant(w, cfg, cfg.target, b);
      Eval(w, s, CompletedBy(cfg, call, book, p, inner.plan, inner.transfers).0)[c].rows
        == w.answer(p.owner, p.code, Eval(w, s, inner.plan)[0].rows)
  {
    var (q, book') := CompletedBy(cfg, call, book, p, inner.plan, inner.transfers);
    var ts, n := book'.transfers, |book.transfers|;
    AgreesSlice(w, cfg, b, ts, n, n + |inner.transfers|);
    assert ts[n..n + |inner.transfers|] == inner.transfers;
    var t := ts[n + |inner.transfers|];
    assert b[t.name] == Intended(w, cfg, b, t);
    assert AnyOuter(c);
  }

  lemma {:induction false} DependentAtZero(cfg: Config, call: Call, p: Plan, book: Book, next: nat, b: Bound)
    requires p.Dependent? && Operations(cfg, call, p, book, next).Done?
    requires Agrees(Free(false), cfg, b, Operations(cfg, call, p, book, next).value.1.transfers)
    ensures
      var w, s := Free(false), Meant(Free(false), cfg, cfg.target, b);
      forall c: Outer ::
        Eval(w, s, Operations(cfg, call, p, book, next).value.0)[c].rows == Eval(w, s, p)[0].rows
    decreases p, 0
  {
    var w, inner := Free(false), Route(cfg, p.input, next).value;
    forall c: Outer
      ensures
        Eval(w, Meant(w, cfg, cfg.target, b), Operations(cfg, call, p, book, next).value.0)[c].rows
          == w.answer(p.owner, p.code, Eval(w, Meant(w, cfg, cfg.target, b), inner.plan)[0].rows)
    {
      DependentBinds(w, cfg, call, p, book, inner, b, c);
    }
    DependentBinds(w, cfg, call, p, book, inner, b, 0);
    RouteAtZero(cfg, p.input, next, b);
  }

  lemma {:induction false} RouteAtZero(cfg: Config, p: Plan, next: nat, b: Bound)
    requires Route(cfg, p, next).Done? && Agrees(Free(false), cfg, b, Route(cfg, p, next).value.transfers)
    ensures
      var w, s := Free(false), Meant(Free(false), cfg, cfg.target, b);
      Eval(w, s, Route(cfg, p, next).value.plan)[0].rows == Eval(w, s, p)[0].rows
    decreases p, 2
  {
    var call := Call(next, Scans(p));
    var (q, book, n) := Operations(cfg, call, p, Book(Reserved(p), []), next + 1).value;
    FreeIsLawful(false);
    IslandsExtend(cfg, call, q, book);
    IslandsMeaning(Free(false), cfg, call, q, book, b);
    OperationsAtZero(cfg, call, p, Book(Reserved(p), []), next + 1, b);
  }

  // ---------------------------------------------------------------- outer rows

  /** A plan with an outer reference shows it. */
  lemma {:induction false} SameForAllOuter(s: Site, p: Plan)
    requires Eval(Free(false), s, p)[0].rows == Eval(Free(false), s, p)[1].rows
    ensures StandsAlone(p)
  {
    var w := Free(false);
    if p.Node? {
      NodeInjective(s, p.op, p.columns, 0, p.inputs, 1, p.inputs, false);
      forall k | k in p.inputs ensures StandsAlone(k) {
        var i :| 0 <= i < |p.inputs| && p.inputs[i] == k;
        SameForAllOuter(s, p.inputs[i]);
      }
    } else if p.Dependent? {
      AskedInjective(p.owner, p.code, Eval(w, s, p.input)[0].rows, Eval(w, s, p.input)[1].rows);
      SameForAllOuter(s, p.input);
    } else if !Leaf(p) {
      SameForAllOuter(s, p.input);
    }
  }

  lemma {:induction false} StandsAloneUncorrelated(p: Plan)
    requires StandsAlone(p)
    ensures Uncorrelated(p)
  {
    if p.Node? {
      forall k | k in p.inputs ensures Uncorrelated(k) { StandsAloneUncorrelated(k); }
    } else if !Leaf(p) {
      StandsAloneUncorrelated(p.input);
    }
  }

  lemma {:induction false} OuterNeeded(cfg: Config, call: Call, p: Plan, book: Book, next: nat, b: Bound)
    requires Operations(cfg, call, p, book, next).Done?
    requires Agrees(Free(false), cfg, b, Operations(cfg, call, p, book, next).value.1.transfers)
    requires
      var w, s := Free(false), Meant(Free(false), cfg, cfg.target, b);
      Eval(w, s, Operations(cfg, call, p, book, next).value.0)[1].rows == Eval(w, s, p)[1].rows
    ensures Uncorrelated(p)
    decreases p, 1
  {
    var w, s := Free(false), Meant(Free(false), cfg, cfg.target, b);
    if p.Node? {
      var qs := OperationsAll(cfg, call, p.inputs, book, next).value.0;
      NodeInjective(s, p.op, p.columns, 1, qs, 1, p.inputs, false);
      OuterNeededAll(cfg, call, p.inputs, book, next, b);
    } else if p.Dependent? {
      DependentAtZero(cfg, call, p, book, next, b);
      AskedInjective(p.owner, p.code, Eval(w, s, p.input)[0].rows, Eval(w, s, p.input)[1].rows);
      SameForAllOuter(s, p.input);
      StandsAloneUncorrelated(p.input);
    } else if !Leaf(p) {
      OuterNeeded(cfg, call, p.input, book, next, b);
    }
  }

  lemma {:induction false} OuterNeededAll(cfg: Config, call: Call, ks: seq<Plan>, book: Book, next: nat, b: Bound)
    requires OperationsAll(cfg, call, ks, book, next).Done?
    requires Agrees(Free(false), cfg, b, OperationsAll(cfg, call, ks, book, next).value.1.transfers)
    requires
      var w, s := Free(false), Meant(Free(false), cfg, cfg.target, b);
      var qs := OperationsAll(cfg, call, ks, book, next).value.0;
      forall i :: 0 <= i < |ks| ==> Eval(w, s, qs[i])[1].rows == Eval(w, s, ks[i])[1].rows
    ensures forall k :: k in ks ==> Uncorrelated(k)
    decreases ks, 0
  {
    if ks != [] {
      var (q, b1, n1) := Operations(cfg, call, ks[0], book, next).value;
      var all := OperationsAll(cfg, call, ks, book, next).value.0;
      var qs := OperationsAll(cfg, call, ks[1..], b1, n1).value.0;
      assert all == [q] + qs && all[0] == q && forall i :: 0 <= i < |qs| ==> qs[i] == all[i + 1];
      OperationsAllExtend(cfg, call, ks[1..], b1, n1);
      OuterNeeded(cfg, call, ks[0], book, next, b);
      OuterNeededAll(cfg, call, ks[1..], b1, n1, b);
      assert forall k :: k in ks <==> k == ks[0] || k in ks[1..];
    }
  }

  lemma RouteOuter(cfg: Config, p: Plan, next: nat, b: Bound)
    requires Route(cfg, p, next).Done? && Agrees(Free(false), cfg, b, Route(cfg, p, next).value.transfers)
    requires
      var w, s := Free(false), Meant(Free(false), cfg, cfg.target, b);
      Eval(w, s, Route(cfg, p, next).value.plan)[1].rows == Eval(w, s, p)[1].rows
    ensures Uncorrelated(p)
  {
    var call := Call(next, Scans(p));
    var (q, book, n) := Operations(cfg, call, p, Book(Reserved(p), []), next + 1).value;
    FreeIsLawful(false);
    IslandsExtend(cfg, call, q, book);
    IslandsMeaning(Free(false), cfg, call, q, book, b);
    OuterNeeded(cfg, call, p, Book(Reserved(p), []), next + 1, b);
  }

  // ---------------------------------------------------------------- qualifiers

  ghost predicate SameAtZero(s: Site, q: Plan, p: Plan, visible: bool) {
    var r, r' := Eval(Free(true), s, q)[0], Eval(Free(true), s, p)[0];
    r.rows == r'.rows && (visible ==> r.schema == r'.schema)
  }

  lemma {:induction false} QualifiersNeeded(cfg: Config, call: Call, p: Plan, book: Book, next: nat, b: Bound,
      visible: bool)
    requires Operations(cfg, call, p, book, next).Done?
    requires Agrees(Free(true), cfg, b, Operations(cfg, call, p, book, next).value.1.transfers)
    requires SameAtZero(Meant(Free(true), cfg, cfg.target, b), Operations(cfg, call, p, book, next).value.0, p, visible)
    ensures QualifiersKept(cfg, p, visible)
    decreases p, 1
  {
    var s := Meant(Free(true), cfg, cfg.target, b);
    if p.Node? {
      var qs := OperationsAll(cfg, call, p.inputs, book, next).value.0;
      NodeInjective(s, p.op, p.columns, 0, qs, 0, p.inputs, true);
      QualifiersNeededAll(cfg, call, p.inputs, book, next, b);
    } else if p.Dependent? {
      DependentQualifiers(cfg, call, p, book, next, b, visible);
    } else if !Leaf(p) {
      QualifiersNeeded(cfg, call, p.input, book, next, b, false);
    }
  }

  lemma {:induction false} DependentQualifiers(cfg: Config, call: Call, p: Plan, book: Book, next: nat, b: Bound,
      visible: bool)
    requires p.Dependent? && Operations(cfg, call, p, book, next).Done?
    requires Agrees(Free(true), cfg, b, Operations(cfg, call, p, book, next).value.1.transfers)
    requires SameAtZero(Meant(Free(true), cfg, cfg.target, b), Operations(cfg, call, p, book, next).value.0, p, visible)
    ensures QualifiersKept(cfg, p, visible)
    decreases p, 0
  {
    var w, inner := Free(true), Route(cfg, p.input, next).value;
    var s := Meant(w, cfg, cfg.target, b);
    DependentBinds(w, cfg, call, p, book, inner, b, 0);
    AskedInjective(p.owner, p.code, Eval(w, s, inner.plan)[0].rows, Eval(w, s, p.input)[0].rows);
    RouteQualifiers(cfg, p.input, next, b, false);
    if visible && p.owner !in cfg.adapters {
      var q := CompletedBy(cfg, call, book, p, inner.plan, inner.transfers).0;
      assert Eval(w, s, q)[0].schema == Renamed(q.names, Eval(w, s, q.input)[0].schema);
    }
  }

  lemma {:induction false} QualifiersNeededAll(cfg: Config, call: Call, ks: seq<Plan>, book: Book, next: nat, b: Bound)
    requires OperationsAll(cfg, call, ks, book, next).Done?
    requires Agrees(Free(true), cfg, b, OperationsAll(cfg, call, ks, book, next).value.1.transfers)
    requires
      var s := Meant(Free(true), cfg, cfg.target, b);
      var qs := OperationsAll(cfg, call, ks, book, next).value.0;
      forall i :: 0 <= i < |ks| ==> SameAtZero(s, qs[i], ks[i], true)
    ensures forall k :: k in ks ==> QualifiersKept(cfg, k, true)
    decreases ks, 0
  {
    if ks != [] {
      var (q, b1, n1) := Operations(cfg, call, ks[0], book, next).value;
      var all := OperationsAll(cfg, call, ks, book, next).value.0;
      var qs := OperationsAll(cfg, call, ks[1..], b1, n1).value.0;
      assert all == [q] + qs && all[0] == q && forall i :: 0 <= i < |qs| ==> qs[i] == all[i + 1];
      OperationsAllExtend(cfg, call, ks[1..], b1, n1);
      QualifiersNeeded(cfg, call, ks[0], book, next, b, true);
      QualifiersNeededAll(cfg, call, ks[1..], b1, n1, b);
      assert forall k :: k in ks <==> k == ks[0] || k in ks[1..];
    }
  }

  lemma {:induction false} RouteQualifiers(cfg: Config, p: Plan, next: nat, b: Bound, visible: bool)
    requires Route(cfg, p, next).Done? && Agrees(Free(true), cfg, b, Route(cfg, p, next).value.transfers)
    requires SameAtZero(Meant(Free(true), cfg, cfg.target, b), Route(cfg, p, next).value.plan, p, visible)
    ensures QualifiersKept(cfg, p, visible)
    decreases p, 2
  {
    var call := Call(next, Scans(p));
    var (q, book, n) := Operations(cfg, call, p, Book(Reserved(p), []), next + 1).value;
    FreeIsLawful(true);
    IslandsExtend(cfg, call, q, book);
    IslandsMeaning(Free(true), cfg, call, q, book, b);
    QualifiersNeeded(cfg, call, p, Book(Reserved(p), []), next + 1, b, visible);
  }

  // ---------------------------------------------------------------- the theorem

  /** As meant, a plan without generated names reads nothing that is bound. */
  lemma MeantOriginal(w: World, cfg: Config, p: Plan, b: Bound)
    requires Original(p)
    ensures Eval(w, Meant(w, cfg, cfg.target, b), p) == Federated(w, cfg, p)
  {
    EvalAgrees(w, Meant(w, cfg, cfg.target, b), Meant(w, cfg, cfg.target, map[]), p);
  }

  lemma FaithfulNeeded(cfg: Config, p: Plan, next: nat)
    requires Original(p) && Route(cfg, p, next).Done? && Preserved(Free(false), cfg, p, Route(cfg, p, next).value)
    ensures Faithful(cfg, Route(cfg, p, next).value)
  {
    var r := Route(cfg, p, next).value;
    var b := Aim(cfg, r.transfers);
    RouteOrderly(cfg, p, next);
    RouteRead(cfg, p, next);
    MeantRunAgrees(Free(false), cfg, r.transfers);
    RouteAtZero(cfg, p, next, b);
    MeantOriginal(Free(false), cfg, p, b);
    LeavesReadAlike(There(cfg.target, Run(r.transfers)), Ought(cfg, cfg.target, b), r.plan);
    RightRouteIsFaithful(cfg, r, Call(next, Scans(p)), r.next);
  }

  /** A faithful route in a world where it preserves meaning: the routed plan as meant is the plan. */
  lemma MeantIsPlan(w: World, cfg: Config, p: Plan, next: nat)
    requires Original(p) && Route(cfg, p, next).Done?
    requires Faithful(cfg, Route(cfg, p, next).value) && Preserved(w, cfg, p, Route(cfg, p, next).value)
    ensures
      var r := Route(cfg, p, next).value;
      var b := MeantRun(w, cfg, r.transfers);
      && Agrees(w, cfg, b, r.transfers)
      && Eval(w, Meant(w, cfg, cfg.target, b), r.plan) == Eval(w, Meant(w, cfg, cfg.target, b), p)
  {
    var r := Route(cfg, p, next).value;
    RouteOrderly(cfg, p, next);
    MeantRunAgrees(w, cfg, r.transfers);
    FaithfulResult(w, cfg, r);
    MeantOriginal(w, cfg, p, MeantRun(w, cfg, r.transfers));
  }

  lemma UncorrelatedNeeded(cfg: Config, p: Plan, next: nat)
    requires Original(p) && Route(cfg, p, next).Done?
    requires Faithful(cfg, Route(cfg, p, next).value) && Preserved(Free(false), cfg, p, Route(cfg, p, next).value)
    ensures Uncorrelated(p)
  {
    MeantIsPlan(Free(false), cfg, p, next);
    RouteOuter(cfg, p, next, Aim(cfg, Route(cfg, p, next).value.transfers));
  }

  lemma QualifiersKeptNeeded(cfg: Config, p: Plan, next: nat)
    requires Original(p) && Route(cfg, p, next).Done?
    requires Faithful(cfg, Route(cfg, p, next).value) && Preserved(Free(true), cfg, p, Route(cfg, p, next).value)
    ensures QualifiersKept(cfg, p, true)
  {
    MeantIsPlan(Free(true), cfg, p, next);
    RouteQualifiers(cfg, p, next, MeantRun(Free(true), cfg, Route(cfg, p, next).value.transfers), true);
  }

  /** For every plan, ownership and printability: routing preserves meaning in every lawful world
      if and only if every scan of the transfers and of the routed plan reads what was meant by it,
      inputs of operations do not depend on outer rows, and no visible qualifier is lost. */
  lemma RoutingExact(cfg: Config, p: Plan, next: nat)
    requires Original(p) && Route(cfg, p, next).Done?
    ensures
      var r := Route(cfg, p, next).value;
      Faithful(cfg, r) && Routable(cfg, p) <==> forall w: World :: Lawful(w) ==> Preserved(w, cfg, p, r)
  {
    var r := Route(cfg, p, next).value;
    if Faithful(cfg, r) && Routable(cfg, p) {
      forall w: World | Lawful(w) ensures Preserved(w, cfg, p, r) { RoutePreservesMeaning(w, cfg, p, next); }
    }
    FreeIsLawful(false);
    FreeIsLawful(true);
    if Preserved(Free(false), cfg, p, r) && Preserved(Free(true), cfg, p, r) {
      FaithfulNeeded(cfg, p, next);
      UncorrelatedNeeded(cfg, p, next);
      QualifiersKeptNeeded(cfg, p, next);
    }
  }
}
