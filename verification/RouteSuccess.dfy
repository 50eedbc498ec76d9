/** Exactly when routing succeeds, and what it then leaves behind. */
module RouteSuccess {
  import opened Text
  import opened Plans
  import opened ExchangeNames
  import opened Routing
  import opened TransferOrder
  import opened RouteSafety
  import opened RouteCuts

  // ---------------------------------------------------------------- the conditions

  /** A leaf whose name is declared for another engine than the target. */
  predicate Foreign(cfg: Config, p: Plan) {
    match p
    case Scan(t, _) => Abroad(cfg, Join(t))
    case Exchanged(x, _) => Abroad(cfg, x)
    case _ => false
  }

  predicate Abroad(cfg: Config, key: string) {
    Owner(cfg.declared, key).Some? && Owner(cfg.declared, key).value != cfg.target
  }

  lemma ForeignLeaf(cfg: Config, p: Plan)
    requires Leaf(p)
    ensures Foreign(cfg, p) <==> !NoForeignScan(cfg, p)
  {
    if p.Scan? {
      assert Scans(p) == {p.table} && Keys(p) == {Join(p.table)};
    } else {
      assert Keys(p) == {p.name};
    }
  }

  predicate OutsideOperations(p: Plan, path: Path)
    requires Leads(p, path)
  {
    forall n: nat :: n <= |path| ==> !OnTheWay(p, path, n).Dependent?
  }

  predicate InsideCut(cfg: Config, p: Plan, path: Path)
    requires Leads(p, path)
  {
    exists n: nat :: n <= |path| && Cuttable(cfg, OnTheWay(p, path, n))
  }

  /** Every leaf of another engine is in a subtree that can be sent, or in the input of an operation. */
  ghost predicate Covered(cfg: Config, p: Plan) {
    forall path :: Leads(p, path) && Foreign(cfg, At(p, path)) && OutsideOperations(p, path) ==> InsideCut(cfg, p, path)
  }

  /** The outermost dependent operations, from left to right. */
  function Dependents(p: Plan): seq<Plan>
    decreases p, 1
  {
    match p
    case Scan(_, _) => []
    case Exchanged(_, _) => []
    case Project(_, i) => Dependents(i)
    case Restore(_, i) => Dependents(i)
    case Aliased(_, i) => Dependents(i)
    case Node(_, _, ks) => DependentsOf(ks)
    case Dependent(_, _, _, _) => [p]
  }

  function DependentsOf(ks: seq<Plan>): seq<Plan>
    decreases ks, 0
  {
    if ks == [] then [] else Dependents(ks[0]) + DependentsOf(ks[1..])
  }

  /** The input of the operation can be routed by call number `from`, and the target prints the result;
      `to` is the next free number. */
  predicate Routes(cfg: Config, d: Plan, from: nat, to: nat) {
    && d.Dependent? && Route(cfg, d.input, from).Done?
    && Route(cfg, d.input, from).value.next == to && cfg.prints(Route(cfg, d.input, from).value.plan, cfg.target)
  }

  /** The inputs can be routed one after the other. */
  ghost predicate Chained(cfg: Config, ds: seq<Plan>, from: nat, to: nat) {
    exists ns: seq<nat> :: Chain(cfg, ds, ns) && ns[0] == from && ns[|ds|] == to
  }

  ghost predicate InputsRoute(cfg: Config, ds: seq<Plan>, from: nat) {
    exists to :: Chained(cfg, ds, from, to)
  }

  predicate Chain(cfg: Config, ds: seq<Plan>, ns: seq<nat>) {
    |ns| == |ds| + 1 && forall i :: 0 <= i < |ds| ==> Routes(cfg, ds[i], ns[i], ns[i + 1])
  }

  lemma {:induction false} ChainedBoth(cfg: Config, a: seq<Plan>, b: seq<Plan>, x: nat, z: nat)
    ensures Chained(cfg, a + b, x, z) <==> exists y :: Chained(cfg, a, x, y) && Chained(cfg, b, y, z)
  {
    if Chained(cfg, a + b, x, z) {
      var ns :| Chain(cfg, a + b, ns) && ns[0] == x && ns[|a + b|] == z;
      ChainSplit(cfg, a, b, ns);
      assert Chained(cfg, a, x, ns[|a|]) && Chained(cfg, b, ns[|a|], z);
    }
    if y :| Chained(cfg, a, x, y) && Chained(cfg, b, y, z) {
      var ns :| Chain(cfg, a, ns) && ns[0] == x && ns[|a|] == y;
      var ms :| Chain(cfg, b, ms) && ms[0] == y && ms[|b|] == z;
      ChainJoin(cfg, a, b, ns, ms);
    }
  }

  lemma ChainSplit(cfg: Config, a: seq<Plan>, b: seq<Plan>, ns: seq<nat>)
    requires Chain(cfg, a + b, ns)
    ensures Chain(cfg, a, ns[..|a| + 1]) && Chain(cfg, b, ns[|a|..])
  {
    forall i | 0 <= i < |a| ensures Routes(cfg, a[i], ns[i], ns[i + 1]) { assert (a + b)[i] == a[i]; }
    forall i | 0 <= i < |b| ensures Routes(cfg, b[i], ns[|a| + i], ns[|a| + i + 1]) { assert (a + b)[|a| + i] == b[i]; }
  }

  lemma ChainJoin(cfg: Config, a: seq<Plan>, b: seq<Plan>, ns: seq<nat>, ms: seq<nat>)
    requires Chain(cfg, a, ns) && Chain(cfg, b, ms) && ns[|a|] == ms[0]
    ensures Chain(cfg, a + b, ns + ms[1..])
  {
    var all := ns + ms[1..];
    forall i | 0 <= i < |a + b| ensures Routes(cfg, (a + b)[i], all[i], all[i + 1]) {
      if i < |a| {
        assert Routes(cfg, a[i], ns[i], ns[i + 1]);
      } else {
        assert Routes(cfg, b[i - |a|], ms[i - |a|], ms[i - |a| + 1]) && all[i] == ms[i - |a|];
      }
    }
  }

  lemma ChainedNone(cfg: Config, x: nat, y: nat)
    ensures Chained(cfg, [], x, y) <==> x == y
  {
    if x == y { assert Chain(cfg, [], [x]); }
  }

  lemma ChainedOne(cfg: Config, d: Plan, x: nat, y: nat)
    ensures Chained(cfg, [d], x, y) <==> Routes(cfg, d, x, y)
  {
    if Routes(cfg, d, x, y) { assert Chain(cfg, [d], [x, y]); }
    if Chained(cfg, [d], x, y) {
      var ns :| Chain(cfg, [d], ns) && ns[0] == x && ns[1] == y;
      assert Routes(cfg, [d][0], ns[0], ns[1]);
    }
  }

  // ---------------------------------------------------------------- the first pass

  /** The first pass succeeds exactly when the inputs of its operations can be routed in order. */
  lemma {:induction false} OperationsExactly(cfg: Config, call: Call, p: Plan, book: Book, next: nat, n: nat)
    ensures
      var r := Operations(cfg, call, p, book, next);
      (r.Done? && r.value.2 == n) <==> Chained(cfg, Dependents(p), next, n)
    decreases p, 1
  {
    if p.Node? {
      OperationsAllExactly(cfg, call, p.inputs, book, next, n);
    } else if p.Dependent? {
      ChainedOne(cfg, p, next, n);
    } else if Leaf(p) {
      ChainedNone(cfg, next, n);
    } else {
      OperationsExactly(cfg, call, p.input, book, next, n);
    }
  }

  lemma {:induction false} OperationsAllExactly(cfg: Config, call: Call, ks: seq<Plan>, book: Book, next: nat, n: nat)
    ensures
      var r := OperationsAll(cfg, call, ks, book, next);
      (r.Done? && r.value.2 == n) <==> Chained(cfg, DependentsOf(ks), next, n)
    decreases ks, 0
  {
    if ks == [] {
      ChainedNone(cfg, next, n);
    } else {
      ChainedBoth(cfg, Dependents(ks[0]), DependentsOf(ks[1..]), next, n);
      var r := Operations(cfg, call, ks[0], book, next);
      if r.Done? {
        OperationsExactly(cfg, call, ks[0], book, next, r.value.2);
        OperationsAllExactly(cfg, call, ks[1..], r.value.1, r.value.2, n);
      }
      forall y | Chained(cfg, Dependents(ks[0]), next, y) ensures r.Done? && r.value.2 == y {
        OperationsExactly(cfg, call, ks[0], book, next, y);
      }
    }
  }

  // ---------------------------------------------------------------- coverage, input by input

  lemma CoveredWhenCut(cfg: Config, p: Plan)
    requires Cuttable(cfg, p)
    ensures Covered(cfg, p)
  {
    forall path | Leads(p, path) ensures InsideCut(cfg, p, path) { assert OnTheWay(p, path, 0) == p; }
  }

  lemma CoveredBelow(cfg: Config, p: Plan, path: Path)
    requires path != [] && Leads(p, path) && !p.Dependent? && !Cuttable(cfg, p)
    ensures
      var q := Inputs(p)[path[0]];
      && Leads(q, path[1..]) && At(p, path) == At(q, path[1..])
      && (OutsideOperations(p, path) <==> OutsideOperations(q, path[1..]))
      && (InsideCut(cfg, p, path) <==> InsideCut(cfg, q, path[1..]))
  {
    var q := Inputs(p)[path[0]];
    assert OnTheWay(p, path, 0) == p;
    forall n: nat | n < |path| ensures OnTheWay(p, path, n + 1) == OnTheWay(q, path[1..], n) {
      OneStepDown(p, path, n + 1);
    }
    if OutsideOperations(p, path) {
      forall n: nat | n <= |path[1..]| ensures !OnTheWay(q, path[1..], n).Dependent? {
        assert !OnTheWay(p, path, n + 1).Dependent?;
      }
    }
    if OutsideOperations(q, path[1..]) {
      forall n: nat | n <= |path| ensures !OnTheWay(p, path, n).Dependent? {
        if n > 0 { assert OnTheWay(p, path, n) == OnTheWay(q, path[1..], n - 1); }
      }
    }
    if n: nat :| n <= |path| && Cuttable(cfg, OnTheWay(p, path, n)) {
      assert n > 0 && Cuttable(cfg, OnTheWay(q, path[1..], n - 1));
    }
    if n: nat :| n <= |path[1..]| && Cuttable(cfg, OnTheWay(q, path[1..], n)) {
      assert Cuttable(cfg, OnTheWay(p, path, n + 1));
    }
  }

  lemma CoveredExactly(cfg: Config, p: Plan)
    requires !Cuttable(cfg, p) && !p.Dependent?
    ensures Covered(cfg, p) <==> !Foreign(cfg, p) && forall n :: 0 <= n < |Inputs(p)| ==> Covered(cfg, Inputs(p)[n])
  {
    assert OnTheWay(p, [], 0) == p && At(p, []) == p && !InsideCut(cfg, p, []) && OutsideOperations(p, []);
    if Covered(cfg, p) {
      forall n, path | 0 <= n < |Inputs(p)| && Leads(Inputs(p)[n], path) && Foreign(cfg, At(Inputs(p)[n], path)) &&
        OutsideOperations(Inputs(p)[n], path)
        ensures InsideCut(cfg, Inputs(p)[n], path)
      {
        assert ([n] + path)[1..] == path && Leads(p, [n] + path);
        CoveredBelow(cfg, p, [n] + path);
      }
    } else {
      var path :| Leads(p, path) && Foreign(cfg, At(p, path)) && OutsideOperations(p, path) && !InsideCut(cfg, p, path);
      if path != [] { CoveredBelow(cfg, p, path); }
    }
  }

  lemma NoForeignInputs(cfg: Config, p: Plan)
    requires !Leaf(p)
    ensures NoForeignScan(cfg, p) <==> forall n :: 0 <= n < |Inputs(p)| ==> NoForeignScan(cfg, Inputs(p)[n])
  {
    forall x ensures x in Keys(p) <==> exists n :: 0 <= n < |Inputs(p)| && x in Keys(Inputs(p)[n]) {
      KeysAreOfInputs(p, x);
    }
  }

  // ---------------------------------------------------------------- the second pass

  /** No name that the pass made is declared for another engine than the target. */
  predicate NoForeignName(cfg: Config, ts: seq<Transfer>) {
    forall x :: x in Names(ts) && Owner(cfg.declared, x).Some? ==> Owner(cfg.declared, x).value == cfg.target
  }

  predicate NoForeignNameAt(cfg: Config, call: Call, p: Plan, book: Book, n: nat)
    requires n < |Inputs(p)|
  {
    NoForeignName(cfg, AddedAt(Pass(cfg, call), Inputs(p), book, n))
  }

  lemma NoForeignNameBelow(cfg: Config, call: Call, p: Plan, book: Book)
    requires !Cuttable(cfg, p)
    ensures
      var kept := TryCut(cfg, call, p, book).book;
      NoForeignName(cfg, Made(cfg, call, p, book)) <==>
      forall n :: 0 <= n < |Inputs(p)| ==> NoForeignNameAt(cfg, call, p, kept, n)
  {
    var kept := TryCut(cfg, call, p, book).book;
    if NoForeignName(cfg, Made(cfg, call, p, book)) {
      forall n | 0 <= n < |Inputs(p)| ensures NoForeignNameAt(cfg, call, p, kept, n) {
        FewerNames(cfg, call, p, book, n);
      }
    }
    if forall n :: 0 <= n < |Inputs(p)| ==> NoForeignNameAt(cfg, call, p, kept, n) {
      forall x | x in Names(Made(cfg, call, p, book)) && Owner(cfg.declared, x).Some?
        ensures Owner(cfg.declared, x).value == cfg.target
      {
        MadeByInputs(cfg, call, p, book, x);
        var n :| 0 <= n < |Inputs(p)| && x in Names(AddedAt(Pass(cfg, call), Inputs(p), kept, n));
        assert NoForeignNameAt(cfg, call, p, kept, n);
      }
    }
  }

  /** The second pass leaves no leaf of another engine exactly when all were covered and no name that it
      made belongs to another engine. */
  lemma {:induction false} IslandsExactly(cfg: Config, call: Call, p: Plan, book: Book)
    requires Flat(p)
    ensures
      NoForeignScan(cfg, Islands(cfg, call, p, book).0) <==>
      Covered(cfg, p) && NoForeignName(cfg, Made(cfg, call, p, book))
    decreases p
  {
    var q := Islands(cfg, call, p, book).0;
    CutExactly(cfg, call, p, book);
    var cut := TryCut(cfg, call, p, book);
    if cut.Cut? {
      CoveredWhenCut(cfg, p);
      IslandsCut(cfg, call, p, book);
      CutLeavesName(cfg, p, q, Made(cfg, call, p, book));
    } else {
      InputsVisited(cfg, call, p, cut.book);
      CoveredExactly(cfg, p);
      NoForeignNameBelow(cfg, call, p, book);
      forall n | 0 <= n < |Inputs(p)|
        ensures NoForeignScan(cfg, Inputs(q)[n]) <==>
          Covered(cfg, Inputs(p)[n]) && NoForeignNameAt(cfg, call, p, cut.book, n)
      {
        IslandsExactly(cfg, call, Inputs(p)[n], BookAt(Pass(cfg, call), Inputs(p), cut.book, n));
      }
      if Leaf(p) { ForeignLeaf(cfg, p); } else { NoForeignInputs(cfg, q); }
    }
  }

  lemma CutLeavesName(cfg: Config, p: Plan, q: Plan, ts: seq<Transfer>)
    requires Cuttable(cfg, p) && CutOut(cfg, p, Cuts(cfg, p), q, ts)
    ensures NoForeignScan(cfg, q) <==> NoForeignName(cfg, ts)
  {
    assert CutAt(cfg, p, [], q, ts[0]);
    assert Keys(q) == {ts[0].name} == Names(ts);
  }

  // ---------------------------------------------------------------- what the first pass changes

  lemma {:induction false} WithoutOperations(p: Plan)
    ensures Dependents(p) == [] <==> Flat(p)
    ensures Dependents(p) != [] ==> !SelfContained(p)
    decreases p, 1
  {
    if p.Node? {
      WithoutOperationsIn(p.inputs);
    } else if !Leaf(p) && !p.Dependent? {
      WithoutOperations(p.input);
    }
  }

  lemma {:induction false} WithoutOperationsIn(ks: seq<Plan>)
    ensures DependentsOf(ks) == [] <==> forall k :: k in ks ==> Flat(k)
    ensures DependentsOf(ks) != [] ==> exists k :: k in ks && !SelfContained(k)
    decreases ks, 0
  {
    if ks != [] {
      WithoutOperations(ks[0]);
      WithoutOperationsIn(ks[1..]);
      assert forall k :: k in ks <==> k == ks[0] || k in ks[1..];
    }
  }

  /** No declared table has a name that looks generated. */
  predicate OrdinaryDeclarations(cfg: Config) {
    forall i :: 0 <= i < |cfg.declared| ==> !StartsWith(Join(cfg.declared[i].table), PREFIX)
  }

  lemma GeneratedHasNoOwner(cfg: Config, x: string)
    requires OrdinaryDeclarations(cfg) && StartsWith(x, PREFIX)
    ensures Owner(cfg.declared, x).None?
  {
    if Owner(cfg.declared, x).Some? { OwnedIsDeclared(cfg.declared, x); }
  }

  /** What the first pass makes of a plan: no operation is left; a plan without operations stays as it is;
      where there was one, something is read that nobody owns; and the same leaves are covered. */
  ghost predicate Prepared(cfg: Config, p: Plan, q: Plan) {
    && Flat(q) && (Covered(cfg, q) <==> Covered(cfg, p))
    && if Dependents(p) == [] then q == p else exists x :: x in Keys(q) && Owner(cfg.declared, x).None?
  }

  lemma PreparedIsNotCut(cfg: Config, p: Plan, q: Plan)
    requires Dependents(p) != [] && exists x :: x in Keys(q) && Owner(cfg.declared, x).None?
    ensures !Cuttable(cfg, p) && !Cuttable(cfg, q)
  {
    WithoutOperations(p);
    OwnersAreNeeded(cfg, q);
  }

  lemma {:induction false} OperationsPrepare(cfg: Config, call: Call, p: Plan, book: Book, next: nat)
    requires OrdinaryDeclarations(cfg) && Operations(cfg, call, p, book, next).Done?
    ensures Prepared(cfg, p, Operations(cfg, call, p, book, next).value.0)
    decreases p, 1
  {
    var q := Operations(cfg, call, p, book, next).value.0;
    if p.Dependent? {
      PreparedOperation(cfg, call, p, book, Route(cfg, p.input, next).value);
    } else if !Leaf(p) {
      if p.Node? {
        OperationsAllPrepare(cfg, call, p.inputs, book, next);
      } else {
        OperationsPrepare(cfg, call, p.input, book, next);
      }
      PreparedAbove(cfg, p, q);
    } else {
      WithoutOperations(p);
    }
  }

  lemma {:induction false} OperationsAllPrepare(cfg: Config, call: Call, ks: seq<Plan>, book: Book, next: nat)
    requires OrdinaryDeclarations(cfg) && OperationsAll(cfg, call, ks, book, next).Done?
    ensures
      var qs := OperationsAll(cfg, call, ks, book, next).value.0;
      forall n :: 0 <= n < |ks| ==> Prepared(cfg, ks[n], qs[n])
    decreases ks, 0
  {
    if ks != [] {
      OperationsPrepare(cfg, call, ks[0], book, next);
      var (q, b, n) := Operations(cfg, call, ks[0], book, next).value;
      OperationsAllPrepare(cfg, call, ks[1..], b, n);
    }
  }

  lemma PreparedOperation(cfg: Config, call: Call, p: Plan, book: Book, inner: Routed)
    requires OrdinaryDeclarations(cfg) && p.Dependent?
    ensures Prepared(cfg, p, CompletedBy(cfg, call, book, p, inner.plan, inner.transfers).0)
  {
    var (q, b) := CompletedBy(cfg, call, book, p, inner.plan, inner.transfers);
    var t := b.transfers[|book.transfers + inner.transfers|];
    CompletedByShape(cfg, call, p, book, inner.plan, inner.transfers);
    GeneratedHasNoOwner(cfg, t.name);
    assert t.name in Keys(q) && Keys(q) == {t.name};
    forall path | Leads(q, path) ensures !Foreign(cfg, At(q, path)) {
      KeysAt(q, path);
      if Leaf(At(q, path)) { ForeignLeaf(cfg, At(q, path)); }
    }
    forall path | Leads(p, path) ensures !OutsideOperations(p, path) { assert OnTheWay(p, path, 0) == p; }
  }

  lemma PreparedAbove(cfg: Config, p: Plan, q: Plan)
    requires SameTop(p, q) && !Leaf(p) && !p.Dependent?
    requires forall n :: 0 <= n < |Inputs(p)| ==> Prepared(cfg, Inputs(p)[n], Inputs(q)[n])
    ensures Prepared(cfg, p, q)
  {
    InputsWithout(p);
    WithoutOperations(p);
    FlatInputs(q);
    if Dependents(p) == [] {
      assert Inputs(p) == Inputs(q);
      SameInputsSame(p, q);
    } else {
      var n :| 0 <= n < |Inputs(p)| && Dependents(Inputs(p)[n]) != [];
      assert Prepared(cfg, Inputs(p)[n], Inputs(q)[n]);
      var x :| x in Keys(Inputs(q)[n]) && Owner(cfg.declared, x).None?;
      KeysOfInput(q, n);
      assert x in Keys(q);
      PreparedIsNotCut(cfg, p, q);
      CoveredExactly(cfg, p);
      CoveredExactly(cfg, q);
    }
  }

  lemma {:induction false} FlatInputs(p: Plan)
    requires !Leaf(p) && !p.Dependent?
    ensures Flat(p) <==> forall n :: 0 <= n < |Inputs(p)| ==> Flat(Inputs(p)[n])
  {
    if p.Node? {
      assert forall n :: 0 <= n < |p.inputs| ==> p.inputs[n] in p.inputs;
      if forall n :: 0 <= n < |Inputs(p)| ==> Flat(Inputs(p)[n]) {
        forall k | k in p.inputs ensures Flat(k) {
          var n :| 0 <= n < |p.inputs| && p.inputs[n] == k;
          assert Flat(Inputs(p)[n]);
        }
      }
    } else {
      assert Inputs(p)[0] == p.input;
    }
  }

  lemma {:induction false} InputsWithout(p: Plan)
    requires !Leaf(p) && !p.Dependent?
    ensures Dependents(p) == [] <==> forall n :: 0 <= n < |Inputs(p)| ==> Dependents(Inputs(p)[n]) == []
  {
    WithoutOperations(p);
    forall n | 0 <= n < |Inputs(p)| ensures Dependents(Inputs(p)[n]) == [] <==> Flat(Inputs(p)[n]) {
      WithoutOperations(Inputs(p)[n]);
    }
    FlatInputs(p);
  }

  // ---------------------------------------------------------------- routing

  /** Routing succeeds exactly when every foreign leaf lies in a subtree that can be sent or in the input of
      an operation, and the inputs of the operations can be routed one after the other. */
  lemma {:induction false} RouteExactly(cfg: Config, p: Plan, next: nat)
    requires OrdinaryDeclarations(cfg)
    ensures
      Route(cfg, p, next).Done? <==> Covered(cfg, p) && InputsRoute(cfg, Dependents(p), next + 1)
  {
    var call, book := Call(next, Scans(p)), Book(Reserved(p), []);
    var r := Operations(cfg, call, p, book, next + 1);
    if r.Done? {
      var (q, b, n) := r.value;
      OperationsExactly(cfg, call, p, book, next + 1, n);
      OperationsPrepare(cfg, call, p, book, next + 1);
      IslandsExactly(cfg, call, q, b);
      MadeIsUnowned(cfg, call, q, b);
    }
    if InputsRoute(cfg, Dependents(p), next + 1) {
      var from := next + 1;
      var to :| Chained(cfg, Dependents(p), from, to);
      OperationsExactly(cfg, call, p, book, from, to);
    }
  }

  lemma {:induction false} MadeIsUnowned(cfg: Config, call: Call, p: Plan, book: Book)
    requires OrdinaryDeclarations(cfg)
    ensures Unowned(cfg, Made(cfg, call, p, book))
    decreases p
  {
    CutExactly(cfg, call, p, book);
    PassAdds(cfg, call);
    var cut := TryCut(cfg, call, p, book);
    if cut.Cut? {
      var t := cut.book.transfers[|book.transfers|];
      assert Made(cfg, call, p, book) == [t];
      GeneratedHasNoOwner(cfg, t.name);
    } else {
      forall x | x in Names(Made(cfg, call, p, book)) ensures Owner(cfg.declared, x).None? {
        MadeByInputs(cfg, call, p, book, x);
        var n :| 0 <= n < |Inputs(p)| && x in Names(AddedAt(Pass(cfg, call), Inputs(p), cut.book, n));
        MadeIsUnowned(cfg, call, Inputs(p)[n], BookAt(Pass(cfg, call), Inputs(p), cut.book, n));
      }
    }
  }

  /** Whatever names are declared: the first pass must succeed, and of its plan every foreign leaf must be
      covered and no name that the second pass makes be declared for another engine. */
  lemma RouteExactlyAny(cfg: Config, p: Plan, next: nat)
    ensures
      var call := Call(next, Scans(p));
      var first := Operations(cfg, call, p, Book(Reserved(p), []), next + 1);
      Route(cfg, p, next).Done? <==>
        first.Done? && Covered(cfg, first.value.0) && NoForeignName(cfg, Made(cfg, call, first.value.0, first.value.1))
  {
    var call, book := Call(next, Scans(p)), Book(Reserved(p), []);
    var first := Operations(cfg, call, p, book, next + 1);
    if first.Done? {
      OperationsFlat(cfg, call, p, book, next + 1);
      IslandsExactly(cfg, call, first.value.0, first.value.1);
    }
  }

  lemma {:induction false} OperationsFlat(cfg: Config, call: Call, p: Plan, book: Book, next: nat)
    requires Operations(cfg, call, p, book, next).Done?
    ensures Flat(Operations(cfg, call, p, book, next).value.0)
    decreases p, 1
  {
    if p.Node? {
      OperationsAllFlat(cfg, call, p.inputs, book, next);
    } else if !Leaf(p) && !p.Dependent? {
      OperationsFlat(cfg, call, p.input, book, next);
    }
  }

  lemma {:induction false} OperationsAllFlat(cfg: Config, call: Call, ks: seq<Plan>, book: Book, next: nat)
    requires OperationsAll(cfg, call, ks, book, next).Done?
    ensures forall k :: k in OperationsAll(cfg, call, ks, book, next).value.0 ==> Flat(k)
    decreases ks, 0
  {
    if ks != [] {
      OperationsFlat(cfg, call, ks[0], book, next);
      var (q, b, n) := Operations(cfg, call, ks[0], book, next).value;
      OperationsAllFlat(cfg, call, ks[1..], b, n);
    }
  }

  /** A routed plan has the transfers of the first pass and then one for each topmost subtree that could be
      sent, from left to right; its relations are read in their places, and nothing more can be cut. */
  lemma RoutedCuts(cfg: Config, p: Plan, next: nat)
    requires Route(cfg, p, next).Done?
    ensures
      var r, call := Route(cfg, p, next).value, Call(next, Scans(p));
      var (q, book, _) := Operations(cfg, call, p, Book(Reserved(p), []), next + 1).value;
      var ts := Made(cfg, call, q, book);
      && r.transfers == book.transfers + ts
      && CutOut(cfg, q, Cuts(cfg, q), r.plan, ts) && LeftToRight(Cuts(cfg, q))
      && (forall path :: path in Cuts(cfg, q) <==> Topmost(cfg, q, path))
      && NothingCuttable(cfg, r.plan)
  {
    var call := Call(next, Scans(p));
    var (q, book, n) := Operations(cfg, call, p, Book(Reserved(p), []), next + 1).value;
    var r := Route(cfg, p, next).value;
    IslandsCut(cfg, call, q, book);
    CutsLeftToRight(cfg, q);
    forall path ensures path in Cuts(cfg, q) <==> Topmost(cfg, q, path) { CutsAreTopmost(cfg, q, path); }
    forall path | Leads(r.plan, path) ensures !Cuttable(cfg, At(r.plan, path)) {
      KeysAt(r.plan, path);
      HomelyIsNotCut(cfg, At(r.plan, path));
    }
  }

  lemma HomelyIsNotCut(cfg: Config, p: Plan)
    requires NoForeignScan(cfg, p)
    ensures !Cuttable(cfg, p)
  {
    if Keys(p) == {} {
      OwnersAreNeeded(cfg, p);
    } else {
      var k :| k in Keys(p);
      assert IslandSource(cfg, p).Some? ==> Owner(cfg.declared, k) == IslandSource(cfg, p);
    }
  }
}
