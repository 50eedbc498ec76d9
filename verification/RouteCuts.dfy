/** Which subtrees the second pass cuts: all that can be sent and lie under no other one. */
module RouteCuts {
  import opened Text
  import opened Plans
  import opened ExchangeNames
  import opened Routing
  import opened TransferOrder

  // ---------------------------------------------------------------- subtrees

  /** The way from a plan to a subtree: which input to take at each step. */
  type Path = seq<nat>

  function Inputs(p: Plan): seq<Plan> {
    match p
    case Scan(_, _) => []
    case Exchanged(_, _) => []
    case Project(_, i) => [i]
    case Restore(_, i) => [i]
    case Aliased(_, i) => [i]
    case Node(_, _, ks) => ks
    case Dependent(_, _, _, i) => [i]
  }

  predicate Leads(p: Plan, path: Path) {
    path == [] || (path[0] < |Inputs(p)| && Leads(Inputs(p)[path[0]], path[1..]))
  }

  function At(p: Plan, path: Path): Plan
    requires Leads(p, path)
  {
    if path == [] then p else At(Inputs(p)[path[0]], path[1..])
  }

  lemma {:induction false} LeadsPrefix(p: Plan, path: Path, n: nat)
    requires Leads(p, path) && n <= |path|
    ensures Leads(p, path[..n])
  {
    if n > 0 {
      LeadsPrefix(Inputs(p)[path[0]], path[1..], n - 1);
      assert path[..n][1..] == path[1..][..n - 1];
    }
  }

  /** The subtree n steps down the path. */
  function OnTheWay(p: Plan, path: Path, n: nat): Plan
    requires Leads(p, path) && n <= |path|
  {
    LeadsPrefix(p, path, n);
    At(p, path[..n])
  }

  lemma OneStepDown(p: Plan, path: Path, n: nat)
    requires Leads(p, path) && 0 < n <= |path|
    ensures Leads(Inputs(p)[path[0]], path[1..])
    ensures OnTheWay(p, path, n) == OnTheWay(Inputs(p)[path[0]], path[1..], n - 1)
  {
    LeadsPrefix(p, path, n);
    assert path[..n][1..] == path[1..][..n - 1] && path[..n][0] == path[0];
  }

  // ---------------------------------------------------------------- owners

  /** What may be part of a subtree for the engine: its relations, and operators that refer neither to an
      outer row nor to a function of an engine. */
  predicate BelongsTo(cfg: Config, p: Plan, e: Engine) {
    match p
    case Scan(t, _) => Owner(cfg.declared, Join(t)) == Some(e)
    case Exchanged(x, _) => Owner(cfg.declared, x) == Some(e)
    case Node(op, _, _) => !op.outer && !op.native
    case Dependent(_, _, _, _) => false
    case _ => true
  }

  ghost predicate AllBelongTo(cfg: Config, p: Plan, e: Engine) {
    forall path :: Leads(p, path) ==> BelongsTo(cfg, At(p, path), e)
  }

  ghost predicate HasLeaf(p: Plan) {
    exists path :: Leads(p, path) && Leaf(At(p, path))
  }

  /** A subtree is an island of an engine exactly when that is not the target, the subtree has a leaf, and
      every part of it belongs to the engine. */
  lemma SourceExactly(cfg: Config, p: Plan, e: Engine)
    ensures IslandSource(cfg, p) == Some(e) <==> e != cfg.target && HasLeaf(p) && AllBelongTo(cfg, p, e)
  {
    PartsBelong(cfg, p, e);
    LeafHasKey(p);
    if Keys(p) == {} { assert Sources(cfg, p) == {}; }
    if e != cfg.target && HasLeaf(p) && AllBelongTo(cfg, p, e) { OneSource(cfg, p, e); }
  }

  lemma OneSource(cfg: Config, p: Plan, e: Engine)
    requires Keys(p) != {} && OwnedBy(cfg, p, e)
    ensures AllOwned(cfg, p) && Sources(cfg, p) == {e} && exists k :: k in Keys(p) && Owner(cfg.declared, k) == Some(e)
  {
    var k :| k in Keys(p);
    assert Owner(cfg.declared, k) == Some(e);
    assert e in Sources(cfg, p);
  }

  predicate OwnedBy(cfg: Config, p: Plan, e: Engine) {
    forall k :: k in Keys(p) ==> Owner(cfg.declared, k) == Some(e)
  }

  lemma {:induction false} PartsBelong(cfg: Config, p: Plan, e: Engine)
    ensures AllBelongTo(cfg, p, e) <==> SelfContained(p) && OwnedBy(cfg, p, e)
    decreases p
  {
    forall n | 0 <= n < |Inputs(p)|
      ensures AllBelongTo(cfg, Inputs(p)[n], e) <==> SelfContained(Inputs(p)[n]) && OwnedBy(cfg, Inputs(p)[n], e)
    {
      PartsBelong(cfg, Inputs(p)[n], e);
    }
    PartsOfInputs(cfg, p, e);
    if Leaf(p) {
      LeafOwned(cfg, p, e);
    } else {
      OwnedInputs(cfg, p, e);
      ClosedInputs(p);
    }
  }

  lemma {:induction false} LeafOwned(cfg: Config, p: Plan, e: Engine)
    requires Leaf(p)
    ensures SelfContained(p) && (OwnedBy(cfg, p, e) <==> BelongsTo(cfg, p, e))
  {
    if p.Scan? {
      assert p.table in Scans(p);
      assert Join(p.table) in Keys(p);
    } else {
      assert p.name in Exchanges(p);
    }
  }

  lemma OwnedInputs(cfg: Config, p: Plan, e: Engine)
    requires !Leaf(p)
    ensures OwnedBy(cfg, p, e) <==> forall n :: 0 <= n < |Inputs(p)| ==> OwnedBy(cfg, Inputs(p)[n], e)
  {
    KeysOfInputs(p);
    if forall n :: 0 <= n < |Inputs(p)| ==> OwnedBy(cfg, Inputs(p)[n], e) {
      forall k | k in Keys(p) ensures Owner(cfg.declared, k) == Some(e) {
        var n :| 0 <= n < |Inputs(p)| && k in Keys(Inputs(p)[n]);
        assert OwnedBy(cfg, Inputs(p)[n], e);
      }
    }
  }

  lemma PartsOfInputs(cfg: Config, p: Plan, e: Engine)
    ensures AllBelongTo(cfg, p, e) <==>
      BelongsTo(cfg, p, e) && forall n :: 0 <= n < |Inputs(p)| ==> AllBelongTo(cfg, Inputs(p)[n], e)
  {
    assert At(p, []) == p;
    if AllBelongTo(cfg, p, e) {
      forall n, path | 0 <= n < |Inputs(p)| && Leads(Inputs(p)[n], path)
        ensures BelongsTo(cfg, At(Inputs(p)[n], path), e)
      {
        assert ([n] + path)[1..] == path && Leads(p, [n] + path);
      }
    }
    if BelongsTo(cfg, p, e) && forall n :: 0 <= n < |Inputs(p)| ==> AllBelongTo(cfg, Inputs(p)[n], e) {
      forall path | Leads(p, path) ensures BelongsTo(cfg, At(p, path), e) {
        if path != [] { assert AllBelongTo(cfg, Inputs(p)[path[0]], e) && Leads(Inputs(p)[path[0]], path[1..]); }
      }
    }
  }

  lemma {:induction false} ClosedInputs(p: Plan)
    requires !Leaf(p)
    ensures SelfContained(p) <==>
      && !p.Dependent? && (p.Node? ==> !p.op.outer && !p.op.native)
      && forall n :: 0 <= n < |Inputs(p)| ==> SelfContained(Inputs(p)[n])
  {
    if p.Node? {
      forall k | k in p.inputs ensures exists n :: 0 <= n < |Inputs(p)| && Inputs(p)[n] == k {
        var n :| 0 <= n < |p.inputs| && p.inputs[n] == k;
        assert Inputs(p)[n] == k;
      }
    } else {
      assert Inputs(p)[0] == p.input;
    }
  }

  /** The keys of an operator are those of its inputs. */
  lemma {:induction false} KeysOfInputs(p: Plan)
    requires !Leaf(p)
    ensures forall x :: x in Keys(p) <==> exists n :: 0 <= n < |Inputs(p)| && x in Keys(Inputs(p)[n])
  {
    forall x ensures x in Keys(p) <==> exists n :: 0 <= n < |Inputs(p)| && x in Keys(Inputs(p)[n]) {
      KeysAreOfInputs(p, x);
    }
  }

  lemma {:induction false} LeafHasKey(p: Plan)
    ensures HasLeaf(p) <==> Keys(p) != {}
    decreases p
  {
    if Leaf(p) {
      assert At(p, []) == p;
      assert p.Scan? ==> p.table in Scans(p);
      assert p.Scan? ==> Join(p.table) in Keys(p);
      assert p.Exchanged? ==> p.name in Keys(p);
    } else {
      forall n | 0 <= n < |Inputs(p)| ensures HasLeaf(Inputs(p)[n]) <==> Keys(Inputs(p)[n]) != {} {
        LeafHasKey(Inputs(p)[n]);
      }
      KeysOfInputs(p);
      LeafOfInputs(p);
      if Keys(p) != {} { var k :| k in Keys(p); }
      if n :| 0 <= n < |Inputs(p)| && Keys(Inputs(p)[n]) != {} {
        var k :| k in Keys(Inputs(p)[n]);
        assert k in Keys(p);
      }
    }
  }

  lemma LeafOfInputs(p: Plan)
    requires !Leaf(p)
    ensures HasLeaf(p) <==> exists n :: 0 <= n < |Inputs(p)| && HasLeaf(Inputs(p)[n])
  {
    if HasLeaf(p) {
      var path :| Leads(p, path) && Leaf(At(p, path));
      assert Leads(Inputs(p)[path[0]], path[1..]) && Leaf(At(Inputs(p)[path[0]], path[1..]));
    }
    if n :| 0 <= n < |Inputs(p)| && HasLeaf(Inputs(p)[n]) {
      var path :| Leads(Inputs(p)[n], path) && Leaf(At(Inputs(p)[n], path));
      assert ([n] + path)[1..] == path && Leads(p, [n] + path) && Leaf(At(p, [n] + path));
    }
  }

  lemma KeysOfInput(p: Plan, n: nat)
    requires n < |Inputs(p)|
    ensures Keys(Inputs(p)[n]) <= Keys(p)
  {
    if p.Node? { LeavesOfInput(p.inputs, p.inputs[n]); }
  }

  lemma {:induction false} KeysAreOfInputs(p: Plan, x: string)
    requires !Leaf(p)
    ensures x in Keys(p) <==> exists n :: 0 <= n < |Inputs(p)| && x in Keys(Inputs(p)[n])
  {
    if p.Node? {
      KeysOfMany(p.inputs, x);
      assert Scans(p) == AllScans(p.inputs) && Inputs(p) == p.inputs;
      if n :| 0 <= n < |p.inputs| && x in Keys(p.inputs[n]) { KeysOfInput(p, n); }
      if x in Keys(p) {
        var n :| 0 <= n < |p.inputs| && x in Keys(p.inputs[n]);
        assert x in Keys(Inputs(p)[n]);
      }
    } else {
      assert Inputs(p)[0] == p.input && Scans(p) == Scans(p.input) && Exchanges(p) == Exchanges(p.input);
    }
  }

  lemma {:induction false} KeysOfMany(ks: seq<Plan>, x: string)
    ensures
      x in (set t | t in AllScans(ks) :: Join(t)) + AllExchanges(ks) <==>
      exists n :: 0 <= n < |ks| && x in Keys(ks[n])
  {
    if ks != [] {
      KeysOfMany(ks[1..], x);
      if n :| 0 <= n < |ks| && x in Keys(ks[n]) { assert n > 0 ==> x in Keys(ks[1..][n - 1]); }
      if n :| 0 <= n < |ks[1..]| && x in Keys(ks[1..][n]) { assert x in Keys(ks[n + 1]); }
    }
  }

  // ---------------------------------------------------------------- what can be sent

  /** The engine can take the subtree: its adapter lowers it, or it prints as SQL over columns that can be
      exchanged and that have one qualifier. */
  predicate Sendable(cfg: Config, p: Plan, e: Engine) {
    if e in cfg.adapters then cfg.lowers(p, e)
    else cfg.exchangeable(p) && cfg.prints(Export(p), e) && OneQualifier(SchemaOf(p))
  }

  predicate Cuttable(cfg: Config, p: Plan) {
    IslandSource(cfg, p).Some? && Sendable(cfg, p, IslandSource(cfg, p).value)
  }

  /** The transfer asks the owner of the subtree for exactly the subtree. */
  predicate Sends(cfg: Config, t: Transfer, p: Plan) {
    && IslandSource(cfg, p) == Some(t.engine)
    && t.plan == (if t.engine in cfg.adapters then p else Export(p))
    && t.completion == (if t.engine in cfg.adapters then Closed else Plain)
  }

  /** The plan reads nothing but the relation of that name, under the columns of the subtree. */
  predicate Reads(q: Plan, name: string, p: Plan) {
    Exchanges(q) == {name} && Scans(q) == {} && SchemaOf(q) == SchemaOf(p)
  }

  lemma ReplacementSchema(name: string, s: seq<Column>)
    requires OneQualifier(s)
    ensures SchemaOf(SqlReplacement(name, s)) == s
  {
    var projected := Project(NamesOf(s), ExchangeScan(name, |s|));
    var r := SchemaOf(projected);
    assert |SchemaOf(ExchangeScan(name, |s|))| == |s|;
    assert forall i :: 0 <= i < |s| ==> r[i] == Column(None, s[i].name);
    if s[0].qualifier.Some? {
      assert Requalified(s[0].qualifier.value, r) == s;
    } else {
      assert r == s;
    }
  }

  /** A subtree is cut exactly when it can be sent. Then one transfer sends it under a name that was free
      and is taken from now on; else no transfer is made, though a name may be taken. */
  lemma CutExactly(cfg: Config, call: Call, p: Plan, book: Book)
    ensures TryCut(cfg, call, p, book).Cut? <==> Cuttable(cfg, p)
    ensures
      var cut := TryCut(cfg, call, p, book);
      if cut.Keep? then cut.book.transfers == book.transfers && book.reserved <= cut.book.reserved
      else
        && |cut.book.transfers| == |book.transfers| + 1
        && var t := cut.book.transfers[|book.transfers|];
           && cut.book == Book(book.reserved + {t.name}, book.transfers + [t])
           && t.name !in book.reserved && GeneratedBy(t.name, call.id) && t.call == call
           && Sends(cfg, t, p) && Reads(cut.plan, t.name, p)
  {
    if Cuttable(cfg, p) {
      CutShape(cfg, call, p, book);
      var t := TryCut(cfg, call, p, book).book.transfers[|book.transfers|];
      if t.engine !in cfg.adapters { ReplacementSchema(t.name, SchemaOf(p)); }
    }
  }

  // ---------------------------------------------------------------- which subtrees are cut

  /** The subtree can be sent, and nothing above it can. */
  predicate Topmost(cfg: Config, p: Plan, path: Path) {
    Leads(p, path) && Cuttable(cfg, At(p, path)) && forall n: nat :: n < |path| ==> !Cuttable(cfg, OnTheWay(p, path, n))
  }

  predicate LeftOf(a: Path, b: Path) {
    exists n: nat :: n < |a| && n < |b| && a[..n] == b[..n] && a[n] < b[n]
  }

  /** The ways to the topmost subtrees that can be sent, from left to right. */
  function Cuts(cfg: Config, p: Plan): seq<Path>
    decreases p, 1, 0
  {
    if Cuttable(cfg, p) then [[]] else CutsFrom(cfg, p, 0)
  }

  function CutsFrom(cfg: Config, p: Plan, n: nat): seq<Path>
    decreases p, 0, |Inputs(p)| - n
  {
    if n >= |Inputs(p)| then [] else Under(n, Cuts(cfg, Inputs(p)[n])) + CutsFrom(cfg, p, n + 1)
  }

  function Under(n: nat, paths: seq<Path>): (r: seq<Path>)
    ensures |r| == |paths| && forall i :: 0 <= i < |paths| ==> r[i] == [n] + paths[i]
  {
    seq(|paths|, i requires 0 <= i < |paths| => [n] + paths[i])
  }

  lemma {:induction false} InCutsFrom(cfg: Config, p: Plan, n: nat, path: Path)
    ensures path in CutsFrom(cfg, p, n) <==>
      path != [] && n <= path[0] < |Inputs(p)| && path[1..] in Cuts(cfg, Inputs(p)[path[0]])
    decreases |Inputs(p)| - n
  {
    if n < |Inputs(p)| {
      InCutsFrom(cfg, p, n + 1, path);
      var paths := Cuts(cfg, Inputs(p)[n]);
      if path in Under(n, paths) {
        var i :| 0 <= i < |paths| && path == Under(n, paths)[i];
        assert path[1..] == paths[i];
      }
      if path != [] && path[0] == n && path[1..] in paths {
        var i :| 0 <= i < |paths| && path[1..] == paths[i];
        assert path == [n] + paths[i] == Under(n, paths)[i];
      }
    }
  }

  lemma TopmostBelow(cfg: Config, p: Plan, path: Path)
    requires !Cuttable(cfg, p) && path != [] && path[0] < |Inputs(p)|
    ensures Topmost(cfg, p, path) <==> Topmost(cfg, Inputs(p)[path[0]], path[1..])
  {
    var q, rest := Inputs(p)[path[0]], path[1..];
    if Leads(q, rest) {
      forall n: nat | 0 < n < |path| ensures OnTheWay(p, path, n) == OnTheWay(q, rest, n - 1) {
        OneStepDown(p, path, n);
      }
      assert OnTheWay(p, path, 0) == p;
      if Topmost(cfg, p, path) {
        forall n: nat | n < |rest| ensures !Cuttable(cfg, OnTheWay(q, rest, n)) {
          assert OnTheWay(p, path, n + 1) == OnTheWay(q, rest, n);
        }
      }
    }
  }

  /** The list has every topmost subtree that can be sent, and nothing else. */
  lemma {:induction false} CutsAreTopmost(cfg: Config, p: Plan, path: Path)
    ensures path in Cuts(cfg, p) <==> Topmost(cfg, p, path)
    decreases |path|
  {
    if Cuttable(cfg, p) {
      if path != [] && Leads(p, path) { assert OnTheWay(p, path, 0) == p; }
    } else {
      InCutsFrom(cfg, p, 0, path);
      if path != [] && path[0] < |Inputs(p)| {
        TopmostBelow(cfg, p, path);
        CutsAreTopmost(cfg, Inputs(p)[path[0]], path[1..]);
      }
    }
  }

  ghost predicate LeftToRight(paths: seq<Path>) {
    forall i, j :: 0 <= i < j < |paths| ==> LeftOf(paths[i], paths[j])
  }

  lemma UnderLeftToRight(n: nat, paths: seq<Path>)
    requires LeftToRight(paths)
    ensures LeftToRight(Under(n, paths))
  {
    forall i, j | 0 <= i < j < |paths| ensures LeftOf(Under(n, paths)[i], Under(n, paths)[j]) {
      assert LeftOf(paths[i], paths[j]);
      var k: nat :| k < |paths[i]| && k < |paths[j]| && paths[i][..k] == paths[j][..k] && paths[i][k] < paths[j][k];
      var a, b := [n] + paths[i], [n] + paths[j];
      assert a[..k + 1] == [n] + paths[i][..k] && b[..k + 1] == [n] + paths[j][..k];
      assert a[k + 1] == paths[i][k] && b[k + 1] == paths[j][k];
    }
  }

  lemma {:induction false} CutsLeftToRight(cfg: Config, p: Plan)
    ensures LeftToRight(Cuts(cfg, p))
    decreases p, 1, 0
  {
    if !Cuttable(cfg, p) { CutsFromLeftToRight(cfg, p, 0); }
  }

  lemma {:induction false} CutsFromLeftToRight(cfg: Config, p: Plan, n: nat)
    ensures LeftToRight(CutsFrom(cfg, p, n))
    decreases p, 0, |Inputs(p)| - n
  {
    if n < |Inputs(p)| {
      var here, later := Under(n, Cuts(cfg, Inputs(p)[n])), CutsFrom(cfg, p, n + 1);
      CutsLeftToRight(cfg, Inputs(p)[n]);
      UnderLeftToRight(n, Cuts(cfg, Inputs(p)[n]));
      CutsFromLeftToRight(cfg, p, n + 1);
      forall i, j | 0 <= i < |here| && 0 <= j < |later| ensures LeftOf(here[i], later[j]) {
        InCutsFrom(cfg, p, n + 1, later[j]);
        assert here[i][..0] == later[j][..0] && here[i][0] < later[j][0];
      }
      var all := here + later;
      forall i, j | 0 <= i < j < |all| ensures LeftOf(all[i], all[j]) {
        if i < |here| <= j { assert LeftOf(here[i], later[j - |here|]); }
      }
    }
  }

  // ---------------------------------------------------------------- inputs one by one

  type Visitor = (Plan, Book) -> (Plan, Book)

  /** The book with which input n is visited. */
  function BookAt(visit: Visitor, ks: seq<Plan>, book: Book, n: nat): Book
    requires n <= |ks|
  {
    if n == 0 then book else visit(ks[n - 1], BookAt(visit, ks, book, n - 1)).1
  }

  lemma {:induction false} BookAtNext(visit: Visitor, ks: seq<Plan>, book: Book, n: nat)
    requires n < |ks|
    ensures BookAt(visit, ks[1..], visit(ks[0], book).1, n) == BookAt(visit, ks, book, n + 1)
  {
    if n > 0 { BookAtNext(visit, ks, book, n - 1); }
  }

  ghost predicate Adds(visit: Visitor) {
    forall p, b: Book :: b.transfers <= visit(p, b).1.transfers
  }

  /** The transfers that a visit adds. */
  function Added(visit: Visitor, p: Plan, book: Book): seq<Transfer> {
    var ts := visit(p, book).1.transfers;
    if book.transfers <= ts then ts[|book.transfers|..] else []
  }

  function AddedAt(visit: Visitor, ks: seq<Plan>, book: Book, n: nat): seq<Transfer>
    requires n < |ks|
  {
    Added(visit, ks[n], BookAt(visit, ks, book, n))
  }

  lemma {:induction false} AddedByAll(visit: Visitor, ks: seq<Plan>, book: Book, n: nat, x: string)
    requires Adds(visit) && n <= |ks|
    ensures
      var end := BookAt(visit, ks, book, n).transfers;
      && book.transfers <= end
      && (x in Names(end[|book.transfers|..]) <==> exists i :: 0 <= i < n && x in Names(AddedAt(visit, ks, book, i)))
  {
    if n > 0 {
      AddedByAll(visit, ks, book, n - 1, x);
      var last, end := BookAt(visit, ks, book, n - 1).transfers, BookAt(visit, ks, book, n).transfers;
      var earlier, added := last[|book.transfers|..], AddedAt(visit, ks, book, n - 1);
      assert end == last + added && end[|book.transfers|..] == earlier + added;
      NamesConcat(earlier, added);
    }
  }

  function Pass(cfg: Config, call: Call): Visitor {
    (p, book) => Islands(cfg, call, p, book)
  }

  lemma PassAdds(cfg: Config, call: Call)
    ensures Adds(Pass(cfg, call))
  {
    forall p, b: Book ensures b.transfers <= Pass(cfg, call)(p, b).1.transfers { IslandsExtend(cfg, call, p, b); }
  }

  lemma {:induction false} AllNext(cfg: Config, call: Call, ks: seq<Plan>, book: Book, n: nat)
    requires 0 < n < |ks|
    ensures
      IslandsAll(cfg, call, ks, book).0[n] == IslandsAll(cfg, call, ks[1..], Pass(cfg, call)(ks[0], book).1).0[n - 1]
  {
  }

  lemma {:induction false} PassAt(cfg: Config, call: Call, ks: seq<Plan>, book: Book, n: nat)
    requires n < |ks|
    ensures
      var visit := Pass(cfg, call);
      IslandsAll(cfg, call, ks, book).0[n] == visit(ks[n], BookAt(visit, ks, book, n)).0
  {
    if n > 0 {
      var visit, rest := Pass(cfg, call), ks[1..];
      var b := visit(ks[0], book).1;
      PassAt(cfg, call, rest, b, n - 1);
      BookAtNext(visit, ks, book, n - 1);
      AllNext(cfg, call, ks, book, n);
    }
  }

  lemma {:induction false} PassEnds(cfg: Config, call: Call, ks: seq<Plan>, book: Book)
    ensures IslandsAll(cfg, call, ks, book).1 == BookAt(Pass(cfg, call), ks, book, |ks|)
  {
    if ks != [] {
      PassEnds(cfg, call, ks[1..], Pass(cfg, call)(ks[0], book).1);
      BookAtNext(Pass(cfg, call), ks, book, |ks| - 1);
    }
  }

  /** The same operator over as many inputs. */
  predicate SameTop(p: Plan, q: Plan) {
    && |Inputs(p)| == |Inputs(q)|
    && match p
       case Scan(_, _) => q == p
       case Exchanged(_, _) => q == p
       case Project(ns, _) => q.Project? && q.names == ns
       case Restore(s, _) => q.Restore? && q.columns == s
       case Aliased(a, _) => q.Aliased? && q.alias == a
       case Node(op, s, _) => q.Node? && q.op == op && q.columns == s
       case Dependent(c, o, s, _) => q.Dependent? && q.code == c && q.owner == o && q.columns == s
  }

  lemma BelowInputs(cfg: Config, call: Call, p: Plan, book: Book)
    ensures
      var (q, b) := IslandsBelow(cfg, call, p, book);
      SameTop(p, q) && (Inputs(q), b) == IslandsAll(cfg, call, Inputs(p), book)
  {
    if !Leaf(p) && !p.Node? {
      var (q, b) := Islands(cfg, call, p.input, book);
      assert [p.input][1..] == [] && [q] + [] == [q] && IslandsAll(cfg, call, [], b) == ([], b);
    }
  }

  /** What becomes of the inputs when the operator itself is kept. */
  lemma InputsVisited(cfg: Config, call: Call, p: Plan, book: Book)
    ensures
      var (q, b) := IslandsBelow(cfg, call, p, book);
      var visit, ks := Pass(cfg, call), Inputs(p);
      && SameTop(p, q) && b == BookAt(visit, ks, book, |ks|)
      && forall n :: 0 <= n < |ks| ==> Inputs(q)[n] == visit(ks[n], BookAt(visit, ks, book, n)).0
  {
    BelowInputs(cfg, call, p, book);
    PassEnds(cfg, call, Inputs(p), book);
    var visit, ks := Pass(cfg, call), Inputs(p);
    forall n | 0 <= n < |ks|
      ensures IslandsAll(cfg, call, ks, book).0[n] == visit(ks[n], BookAt(visit, ks, book, n)).0
    {
      PassAt(cfg, call, ks, book, n);
    }
  }

  // ---------------------------------------------------------------- what becomes of the plan

  /** One transfer for each of the ways, in order; each sends the subtree there, and in the result its
      relation is read there. */
  ghost predicate CutOut(cfg: Config, p: Plan, paths: seq<Path>, q: Plan, ts: seq<Transfer>) {
    |paths| == |ts| && forall i :: 0 <= i < |ts| ==> CutAt(cfg, p, paths[i], q, ts[i])
  }

  predicate CutAt(cfg: Config, p: Plan, path: Path, q: Plan, t: Transfer) {
    Leads(p, path) && Leads(q, path) && Sends(cfg, t, At(p, path)) && Reads(At(q, path), t.name, At(p, path))
  }

  lemma CutOutUnder(cfg: Config, p: Plan, n: nat, paths: seq<Path>, q: Plan, ts: seq<Transfer>)
    requires n < |Inputs(p)| && n < |Inputs(q)| && CutOut(cfg, Inputs(p)[n], paths, Inputs(q)[n], ts)
    ensures CutOut(cfg, p, Under(n, paths), q, ts)
  {
    forall i | 0 <= i < |ts| ensures CutAt(cfg, p, Under(n, paths)[i], q, ts[i]) {
      assert ([n] + paths[i])[1..] == paths[i];
      assert CutAt(cfg, Inputs(p)[n], paths[i], Inputs(q)[n], ts[i]);
    }
  }

  lemma CutOutBoth(cfg: Config, p: Plan, a: seq<Path>, b: seq<Path>, q: Plan, s: seq<Transfer>, t: seq<Transfer>)
    requires CutOut(cfg, p, a, q, s) && CutOut(cfg, p, b, q, t)
    ensures CutOut(cfg, p, a + b, q, s + t)
  {
    forall i | 0 <= i < |s + t| ensures CutAt(cfg, p, (a + b)[i], q, (s + t)[i]) {
      if i < |s| { assert CutAt(cfg, p, a[i], q, s[i]); } else { assert CutAt(cfg, p, b[i - |s|], q, t[i - |s|]); }
    }
  }

  /** The transfers that the second pass makes for a plan. */
  function Made(cfg: Config, call: Call, p: Plan, book: Book): seq<Transfer> {
    Added(Pass(cfg, call), p, book)
  }

  /** The transfers of the second pass send the topmost subtrees that can be sent, from left to right. */
  lemma {:induction false} IslandsCut(cfg: Config, call: Call, p: Plan, book: Book)
    ensures
      var (q, b) := Islands(cfg, call, p, book);
      var ts := Made(cfg, call, p, book);
      b.transfers == book.transfers + ts && CutOut(cfg, p, Cuts(cfg, p), q, ts)
    decreases p
  {
    CutExactly(cfg, call, p, book);
    PassAdds(cfg, call);
    var cut := TryCut(cfg, call, p, book);
    if cut.Cut? {
      var t := cut.book.transfers[|book.transfers|];
      assert Made(cfg, call, p, book) == [t];
      assert CutAt(cfg, p, [], cut.plan, t);
    } else {
      var q := IslandsBelow(cfg, call, p, cut.book).0;
      var visit := Pass(cfg, call);
      InputsVisited(cfg, call, p, cut.book);
      forall n | 0 <= n < |Inputs(p)|
        ensures InputCut(cfg, visit, p, cut.book, q, n)
      {
        IslandsCut(cfg, call, Inputs(p)[n], BookAt(visit, Inputs(p), cut.book, n));
      }
      CutOutFrom(cfg, visit, p, cut.book, q, 0);
    }
  }

  ghost predicate InputCut(cfg: Config, visit: Visitor, p: Plan, book: Book, q: Plan, n: nat)
    requires n < |Inputs(p)| == |Inputs(q)|
  {
    CutOut(cfg, Inputs(p)[n], Cuts(cfg, Inputs(p)[n]), Inputs(q)[n], AddedAt(visit, Inputs(p), book, n))
  }

  lemma {:induction false} CutOutFrom(cfg: Config, visit: Visitor, p: Plan, book: Book, q: Plan, n: nat)
    requires n <= |Inputs(p)| == |Inputs(q)| && Adds(visit)
    requires forall n :: 0 <= n < |Inputs(p)| ==> InputCut(cfg, visit, p, book, q, n)
    ensures
      var ks := Inputs(p);
      var at, end := BookAt(visit, ks, book, n).transfers, BookAt(visit, ks, book, |ks|).transfers;
      at <= end && CutOut(cfg, p, CutsFrom(cfg, p, n), q, end[|at|..])
    decreases |Inputs(p)| - n
  {
    if n < |Inputs(p)| {
      var at, next := BookAt(visit, Inputs(p), book, n).transfers, BookAt(visit, Inputs(p), book, n + 1).transfers;
      CutOutFrom(cfg, visit, p, book, q, n + 1);
      assert InputCut(cfg, visit, p, book, q, n) && AddedAt(visit, Inputs(p), book, n) == next[|at|..];
      CutOutNext(cfg, p, n, q, at, next, BookAt(visit, Inputs(p), book, |Inputs(p)|).transfers);
    }
  }

  lemma CutOutNext(cfg: Config, p: Plan, n: nat, q: Plan, at: seq<Transfer>, next: seq<Transfer>, end: seq<Transfer>)
    requires n < |Inputs(p)| && n < |Inputs(q)| && at <= next <= end
    requires CutOut(cfg, Inputs(p)[n], Cuts(cfg, Inputs(p)[n]), Inputs(q)[n], next[|at|..])
    requires CutOut(cfg, p, CutsFrom(cfg, p, n + 1), q, end[|next|..])
    ensures CutOut(cfg, p, CutsFrom(cfg, p, n), q, end[|at|..])
  {
    var here := Under(n, Cuts(cfg, Inputs(p)[n]));
    CutOutUnder(cfg, p, n, Cuts(cfg, Inputs(p)[n]), q, next[|at|..]);
    CutOutBoth(cfg, p, here, CutsFrom(cfg, p, n + 1), q, next[|at|..], end[|next|..]);
    assert end[|at|..] == next[|at|..] + end[|next|..];
  }

  /** Operators above all cuts stay what and where they are. */
  lemma {:induction false} RestIsKept(cfg: Config, call: Call, p: Plan, book: Book, path: Path)
    requires Leads(p, path) && forall n: nat :: n <= |path| ==> !Cuttable(cfg, OnTheWay(p, path, n))
    ensures
      var q := Islands(cfg, call, p, book).0;
      Leads(q, path) && SameTop(At(p, path), At(q, path))
    decreases |path|
  {
    assert OnTheWay(p, path, 0) == p;
    CutExactly(cfg, call, p, book);
    var kept := TryCut(cfg, call, p, book).book;
    InputsVisited(cfg, call, p, kept);
    if path != [] {
      forall n: nat | n <= |path[1..]| ensures !Cuttable(cfg, OnTheWay(Inputs(p)[path[0]], path[1..], n)) {
        OneStepDown(p, path, n + 1);
      }
      RestIsKept(cfg, call, Inputs(p)[path[0]], BookAt(Pass(cfg, call), Inputs(p), kept, path[0]), path[1..]);
    }
  }

  // ---------------------------------------------------------------- nothing more can be cut

  ghost predicate NothingCuttable(cfg: Config, p: Plan) {
    forall path :: Leads(p, path) ==> !Cuttable(cfg, At(p, path))
  }

  predicate Unowned(cfg: Config, ts: seq<Transfer>) {
    forall x :: x in Names(ts) ==> Owner(cfg.declared, x).None?
  }

  /** The names made for a plan that is not cut are those made for its inputs. */
  lemma MadeByInputs(cfg: Config, call: Call, p: Plan, book: Book, x: string)
    requires !Cuttable(cfg, p)
    ensures
      var visit, kept := Pass(cfg, call), TryCut(cfg, call, p, book).book;
      x in Names(Made(cfg, call, p, book)) <==>
      exists n :: 0 <= n < |Inputs(p)| && x in Names(AddedAt(visit, Inputs(p), kept, n))
  {
    var visit, kept := Pass(cfg, call), TryCut(cfg, call, p, book).book;
    CutExactly(cfg, call, p, book);
    PassAdds(cfg, call);
    InputsVisited(cfg, call, p, kept);
    AddedByAll(visit, Inputs(p), kept, |Inputs(p)|, x);
  }

  lemma NothingCuttableFrom(cfg: Config, p: Plan)
    requires !Cuttable(cfg, p) && forall n :: 0 <= n < |Inputs(p)| ==> NothingCuttable(cfg, Inputs(p)[n])
    ensures NothingCuttable(cfg, p)
  {
    forall path | Leads(p, path) ensures !Cuttable(cfg, At(p, path)) {
      if path != [] { assert Leads(Inputs(p)[path[0]], path[1..]); }
    }
  }

  lemma {:induction false} KeysAt(p: Plan, path: Path)
    requires Leads(p, path)
    ensures Keys(At(p, path)) <= Keys(p)
  {
    if path != [] {
      KeysOfInput(p, path[0]);
      KeysAt(Inputs(p)[path[0]], path[1..]);
    }
  }

  /** What reads nothing at all or something that nobody owns cannot be cut. */
  lemma OwnersAreNeeded(cfg: Config, p: Plan)
    requires Keys(p) == {} || exists k :: k in Keys(p) && Owner(cfg.declared, k).None?
    ensures !Cuttable(cfg, p)
  {
    if Keys(p) == {} { assert Sources(cfg, p) == {}; }
  }

  lemma ReplacementStays(cfg: Config, q: Plan, name: string, p: Plan)
    requires Reads(q, name, p) && Owner(cfg.declared, name).None?
    ensures NothingCuttable(cfg, q)
  {
    assert Keys(q) == {name};
    forall path | Leads(q, path) ensures !Cuttable(cfg, At(q, path)) {
      KeysAt(q, path);
      assert Keys(At(q, path)) == {} || name in Keys(At(q, path));
      OwnersAreNeeded(cfg, At(q, path));
    }
  }

  lemma NotAbove(cfg: Config, p: Plan, path: Path, q: Plan, t: Transfer)
    requires CutAt(cfg, p, path, q, t) && Owner(cfg.declared, t.name).None?
    ensures !Cuttable(cfg, q)
  {
    KeysAt(q, path);
    assert t.name in Keys(At(q, path));
    OwnersAreNeeded(cfg, q);
  }

  lemma SameInputsSame(p: Plan, q: Plan)
    requires SameTop(p, q) && Inputs(p) == Inputs(q)
    ensures p == q
  {
    if !Leaf(p) && !p.Node? { assert [p.input][0] == [q.input][0]; }
  }

  /** After the second pass nothing is left that could be cut, as long as no declared table has one of the
      names that the pass made. */
  lemma {:induction false} NothingLeft(cfg: Config, call: Call, p: Plan, book: Book)
    requires Unowned(cfg, Made(cfg, call, p, book))
    ensures
      var q := Islands(cfg, call, p, book).0;
      NothingCuttable(cfg, q) && (Made(cfg, call, p, book) == [] ==> q == p)
    decreases p
  {
    var q := Islands(cfg, call, p, book).0;
    var ts := Made(cfg, call, p, book);
    CutExactly(cfg, call, p, book);
    IslandsCut(cfg, call, p, book);
    var cut := TryCut(cfg, call, p, book);
    if cut.Cut? {
      assert CutAt(cfg, p, [], q, ts[0]) && ts[0].name in Names(ts);
      ReplacementStays(cfg, q, ts[0].name, p);
    } else {
      InputsVisited(cfg, call, p, cut.book);
      forall n | 0 <= n < |Inputs(p)|
        ensures NothingCuttable(cfg, Inputs(q)[n]) && (ts == [] ==> Inputs(q)[n] == Inputs(p)[n])
      {
        var at := BookAt(Pass(cfg, call), Inputs(p), cut.book, n);
        FewerNames(cfg, call, p, book, n);
        NothingLeft(cfg, call, Inputs(p)[n], at);
      }
      NothingLeftHere(cfg, p, q, ts);
    }
  }

  lemma FewerNames(cfg: Config, call: Call, p: Plan, book: Book, n: nat)
    requires !Cuttable(cfg, p) && n < |Inputs(p)|
    ensures
      var part := AddedAt(Pass(cfg, call), Inputs(p), TryCut(cfg, call, p, book).book, n);
      Names(part) <= Names(Made(cfg, call, p, book)) && (Made(cfg, call, p, book) == [] ==> part == [])
  {
    var part := AddedAt(Pass(cfg, call), Inputs(p), TryCut(cfg, call, p, book).book, n);
    forall x | x in Names(part) ensures x in Names(Made(cfg, call, p, book)) { MadeByInputs(cfg, call, p, book, x); }
    NoNames(part);
  }

  lemma NoNames(ts: seq<Transfer>)
    ensures Names(ts) == {} <==> ts == []
  {
    if ts != [] { assert ts[0].name in Names(ts); }
  }

  lemma NothingLeftHere(cfg: Config, p: Plan, q: Plan, ts: seq<Transfer>)
    requires SameTop(p, q) && !Cuttable(cfg, p) && CutOut(cfg, p, Cuts(cfg, p), q, ts) && Unowned(cfg, ts)
    requires forall n :: 0 <= n < |Inputs(p)| ==>
      NothingCuttable(cfg, Inputs(q)[n]) && (ts == [] ==> Inputs(q)[n] == Inputs(p)[n])
    ensures NothingCuttable(cfg, q) && (ts == [] ==> q == p)
  {
    if ts == [] {
      assert Inputs(q) == Inputs(p);
      SameInputsSame(p, q);
    } else {
      assert CutAt(cfg, p, Cuts(cfg, p)[0], q, ts[0]) && ts[0].name in Names(ts);
      NotAbove(cfg, p, Cuts(cfg, p)[0], q, ts[0]);
    }
    NothingCuttableFrom(cfg, q);
  }
}
