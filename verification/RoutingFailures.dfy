/** Plans that routing accepts and whose meaning it does not preserve, each breaking one part of
    the condition for that. */
module RoutingFailures {
  import opened Text
  import opened Plans
  import opened ExchangeNames
  import opened Routing
  import opened TransferOrder
  import opened RouteExecution
  import opened RouteExactness
  import opened RouteSafety

  function Any(): Column { Column(None, "a") }

  function Table1(name: string): Plan { Scan([name], [Any()]) }

  ghost function Setup(declared: seq<Declared>, adapters: set<Engine>): Config {
    Config("t", declared, adapters, p => true, (p, e) => true, (p, e) => true)
  }

  /** Routing accepts the plan, and some lawful world tells the difference. */
  ghost predicate Misrouted(cfg: Config, p: Plan) {
    && Original(p) && Routable(cfg, p) && Route(cfg, p, 1).Done?
    && exists w: World :: Lawful(w) && !Preserved(w, cfg, p, Route(cfg, p, 1).value)
  }

  lemma UnfaithfulIsMisrouted(cfg: Config, p: Plan)
    requires Original(p) && Routable(cfg, p) && Route(cfg, p, 1).Done? && !Faithful(cfg, Route(cfg, p, 1).value)
    ensures Misrouted(cfg, p)
  {
    RoutingExact(cfg, p, 1);
  }

  lemma JoinOne(name: string)
    ensures Join([name]) == name && Bare([name]) == name
  {
  }

  lemma OneScan(name: string)
    ensures Keys(Table1(name)) == {name} && Reserved(Table1(name)) == {name} && Original(Table1(name))
  {
    JoinOne(name);
    assert Scans(Table1(name)) == {[name]};
  }

  lemma OneOwner(cfg: Config, p: Plan, key: string)
    requires Keys(p) == {key} && SelfContained(p)
    ensures IslandSource(cfg, p) ==
      if Owner(cfg.declared, key).Some? && Owner(cfg.declared, key).value != cfg.target
      then Owner(cfg.declared, key)
      else None
  {
    if Owner(cfg.declared, key).Some? {
      assert key in Keys(p);
      var e := Owner(cfg.declared, key).value;
      assert Sources(cfg, p) == {e} && |{e}| == 1;
    }
  }

  lemma TwoOwners(a: Declared, b: Declared, key: string)
    ensures Owner([a, b], key) ==
      if Join(b.table) == key then Some(b.engine) else if Join(a.table) == key then Some(a.engine) else None
  {
    var two, one := [a, b], [a];
    assert two[..|two| - 1] == one && one[..|one| - 1] == [];
    assert Owner(one, key) == if Join(a.table) == key then Some(a.engine) else None;
  }

  /** A table of a foreign SQL engine is cut out under the first exchange name. */
  lemma CutTable(cfg: Config, call: Call, name: string, e: Engine, n: string)
    requires Owner(cfg.declared, name) == Some(e) && e != cfg.target && e !in cfg.adapters
    requires cfg.exchangeable(Table1(name)) && cfg.prints(Export(Table1(name)), e)
    requires n == BaseName(Exchange, call.id, 0) && n != name
    ensures
      Islands(cfg, call, Table1(name), Book({name}, []))
        == (SqlReplacement(n, [Any()]), Book({name, n}, [Transfer(e, Export(Table1(name)), n, Plain, call)]))
  {
    OneScan(name);
    OneOwner(cfg, Table1(name), name);
    assert Fresh({name}, n) == n && {name} + {n} == {name, n};
    assert SchemaOf(Table1(name)) == [Any()] && OneQualifier([Any()]);
    var made := Transfer(e, Export(Table1(name)), n, Plain, call);
    assert [] + [made] == [made];
  }

  lemma ReplacementKeys(n: string)
    ensures Keys(SqlReplacement(n, [Any()])) == {n}
  {
    var scan := ExchangeScan(n, 1);
    assert Exchanges(scan) == {n} && Scans(scan) == {};
    assert Exchanges(Project(NamesOf([Any()]), scan)) == {n} && Scans(Project(NamesOf([Any()]), scan)) == {};
  }

  // ---------------------------------------------------------------- shared dotted names

  const DOTTED: Declared := Declared(["a.b"], "s1")
  const QUALIFIED: Declared := Declared(["a", "b"], "s2")

  lemma SharedOwner()
    ensures Owner([DOTTED, QUALIFIED], "a.b") == Some("s2")
    ensures forall n :: n != "a.b" ==> Owner([DOTTED, QUALIFIED], n).None?
  {
    assert Join(["a", "b"]) == "a" + "." + Join(["b"]) && ["a", "b"][1..] == ["b"];
    assert "a" + "." + "b" == "a.b";
    JoinOne("a.b");
    forall n ensures Owner([DOTTED, QUALIFIED], n) == if n == "a.b" then Some("s2") else None {
      TwoOwners(DOTTED, QUALIFIED, n);
    }
  }

  ghost function Strayed(): Transfer {
    Transfer("s2", Export(Table1("a.b")), BaseName(Exchange, 1, 0), Plain, Call(1, Scans(Table1("a.b"))))
  }

  lemma SharedRoute()
    ensures
      Route(Setup([DOTTED, QUALIFIED], {}), Table1("a.b"), 1)
        == Done(Routed(SqlReplacement(Strayed().name, [Any()]), [Strayed()], 2))
  {
    var cfg, p, call := Setup([DOTTED, QUALIFIED], {}), Table1("a.b"), Call(1, Scans(Table1("a.b")));
    SharedOwner();
    assert Strayed().name[0] == '_' && "a.b"[0] == 'a';
    OneScan("a.b");
    assert Operations(cfg, call, p, Book({"a.b"}, []), 2) == Done((p, Book({"a.b"}, []), 2));
    CutTable(cfg, call, "a.b", "s2", Strayed().name);
    ReplacementKeys(Strayed().name);
  }

  /** Tables "a.b" and a.b are different but share one entry of the owner map, so the scan of the
      first goes to the engine of the second. */
  lemma SharedJoinMisroutes()
    ensures Misrouted(Setup([DOTTED, QUALIFIED], {}), Table1("a.b")) && Flat(Table1("a.b"))
  {
    var cfg, p := Setup([DOTTED, QUALIFIED], {}), Table1("a.b");
    SharedRoute();
    OneScan("a.b");
    HomeOfFirst(cfg, DOTTED, QUALIFIED);
    var ts := [Strayed()];
    assert Scans(Export(p)) == Scans(p) && ["a.b"] in Scans(p);
    assert !ReadsRight(cfg, ts[0].engine, BoundFor(ts, 0), ts[0].plan);
    UnfaithfulIsMisrouted(cfg, p);
  }

  lemma HomeOfFirst(cfg: Config, a: Declared, b: Declared)
    requires cfg.declared == [a, b] && a.table != b.table
    ensures Home(cfg, a.table) == a.engine
  {
    var two, one := [a, b], [a];
    assert two[..|two| - 1] == one;
    assert HomeIn(one, a.table, cfg.target) == a.engine;
  }

  // ---------------------------------------------------------------- closed requests

  const OPERATED: string := BaseName(Operation, 1, 0)

  function Ask(): Plan { Dependent(5, "t", [Any()], Table1("x")) }

  ghost function Remote(): Config {
    Setup([Declared(["x"], "t"), Declared([OPERATED], "a")], {"a"})
  }

  lemma RemoteOwners()
    ensures Owner(Remote().declared, "x") == Some("t") && Owner(Remote().declared, OPERATED) == Some("a")
    ensures OPERATED != "x"
  {
    JoinOne("x");
    JoinOne(OPERATED);
    assert OPERATED[0] == '_' && "x"[0] == 'x';
    TwoOwners(Declared(["x"], "t"), Declared([OPERATED], "a"), "x");
    TwoOwners(Declared(["x"], "t"), Declared([OPERATED], "a"), OPERATED);
  }

  lemma InputStays()
    ensures Route(Remote(), Table1("x"), 2) == Done(Routed(Table1("x"), [], 3))
  {
    var cfg, p, call := Remote(), Table1("x"), Call(2, Scans(Table1("x")));
    OneScan("x");
    RemoteOwners();
    OneOwner(cfg, p, "x");
    assert Operations(cfg, call, p, Book({"x"}, []), 3) == Done((p, Book({"x"}, []), 3));
    assert Islands(cfg, call, p, Book({"x"}, [])) == (p, Book({"x"}, []));
  }

  /** The plan that takes the place of the operation. */
  function Reader(): Plan { Project(NamesOf([Any()]), ExchangeScan(OPERATED, 1)) }

  ghost function First(): Transfer { Transfer("t", Table1("x"), OPERATED, Apply("t", 5), Call(1, Scans(Ask()))) }

  lemma OperationReplaced()
    ensures
      Operations(Remote(), Call(1, Scans(Ask())), Ask(), Book({"x"}, []), 2)
        == Done((Reader(), Book({"x", OPERATED}, [First()]), 3))
  {
    InputStays();
    RemoteOwners();
    var none: seq<Transfer> := [];
    assert none + none == [] && none + none + [First()] == [First()];
    assert Fresh({"x"}, OPERATED) == OPERATED && {"x"} + {OPERATED} == {"x", OPERATED};
  }

  ghost function Second(): Transfer {
    Transfer("a", Reader(), Fresh({"x", OPERATED}, BaseName(Request, 1, 1)), Closed, Call(1, Scans(Ask())))
  }

  function Reread(name: string): Plan { Restore(SchemaOf(Reader()), ExchangeScan(name, |SchemaOf(Reader())|)) }

  lemma ReaderKeys()
    ensures Exchanges(Reader()) == {OPERATED} && Scans(Reader()) == {} && Keys(Reader()) == {OPERATED}
    ensures forall n :: Keys(Reread(n)) == {n}
  {
    assert Exchanges(ExchangeScan(OPERATED, 1)) == {OPERATED} && Scans(ExchangeScan(OPERATED, 1)) == {};
    forall n ensures Keys(Reread(n)) == {n} {
      var scan := ExchangeScan(n, |SchemaOf(Reader())|);
      assert Exchanges(scan) == {n} && Scans(scan) == {};
    }
  }

  lemma ReaderCut()
    ensures
      Islands(Remote(), Call(1, Scans(Ask())), Reader(), Book({"x", OPERATED}, [First()]))
        == (Reread(Second().name), Book({"x", OPERATED, Second().name}, [First(), Second()]))
  {
    ReaderKeys();
    RemoteOwners();
    OneOwner(Remote(), Reader(), OPERATED);
    assert {"x", OPERATED} + {Second().name} == {"x", OPERATED, Second().name};
    assert [First()] + [Second()] == [First(), Second()];
  }

  lemma AskRoute()
    ensures Original(Ask()) && Scans(Ask()) == {["x"]}
    ensures Route(Remote(), Ask(), 1) == Done(Routed(Reread(Second().name), [First(), Second()], 3))
  {
    OneScan("x");
    assert Scans(Ask()) == {["x"]} && Reserved(Ask()) == {"x"} && Original(Ask());
    OperationReplaced();
    ReaderCut();
    ReaderKeys();
    JoinOne("x");
    JoinOne(OPERATED);
    TwoOwners(Declared(["x"], "t"), Declared([OPERATED], "a"), Second().name);
  }

  /** A table that an adapter declares, and that the plan never scans, bears the name of the
      operation's exchange relation. The relation is then read by a closed request, into which
      nothing is bound. Nothing else is unusual. */
  lemma ClosedRequestMisroutes()
    ensures Misrouted(Remote(), Ask())
    ensures WellOwned(Remote(), Ask()) && forall t :: t in Scans(Ask()) ==> !StartsWith(Bare(t), PREFIX)
  {
    RemoteIsOtherwiseOrdinary();
    ApartIsWellOwned(Remote(), Ask());
    AskIsUnfaithful();
    UnfaithfulIsMisrouted(Remote(), Ask());
  }

  lemma AskIsUnfaithful()
    ensures Original(Ask()) && Routable(Remote(), Ask()) && Route(Remote(), Ask(), 1).Done?
    ensures !Faithful(Remote(), Route(Remote(), Ask(), 1).value)
  {
    AskIsRoutable();
    AskRoute();
    SecondMisreads();
    var routed := Routed(Reread(Second().name), [First(), Second()], 3);
    assert Route(Remote(), Ask(), 1) == Done(routed);
  }

  lemma AskIsRoutable()
    ensures Original(Ask()) && Routable(Remote(), Ask())
  {
  }

  lemma SecondMisreads()
    ensures !Faithful(Remote(), Routed(Reread(Second().name), [First(), Second()], 3))
  {
    ReaderKeys();
    var ts := [First(), Second()];
    assert OPERATED in Exchanges(ts[1].plan) && BoundFor(ts, 1) == {};
    assert !ReadsRight(Remote(), ts[1].engine, BoundFor(ts, 1), ts[1].plan);
  }

  /** Only the name of a table that is not scanned is unusual here. */
  lemma RemoteIsOtherwiseOrdinary()
    ensures JoinsApart(Remote(), Ask()) && forall t :: t in Scans(Ask()) ==> !StartsWith(Bare(t), PREFIX)
  {
    JoinOne("x");
    JoinOne(OPERATED);
    assert OPERATED[0] == '_' && PREFIX[0] == '_' && "x"[0] == 'x';
    assert Scans(Ask()) == {["x"]};
  }

  // ---------------------------------------------------------------- nested routes

  /** The name that the second routing call gives its first exchange relation. */
  const TAKEN: string := BaseName(Exchange, 2, 0)

  function Both(other: Plan): Plan { Node(Operator(0, false, false), [Any()], [Table1(TAKEN), other]) }

  ghost function Local(): Config {
    Setup([Declared(["x"], "s"), Declared([TAKEN], "t")], {})
  }

  lemma LocalOwners()
    ensures Owner(Local().declared, "x") == Some("s") && Owner(Local().declared, TAKEN) == Some("t") && TAKEN != "x"
    ensures forall n :: n != "x" && n != TAKEN ==> Owner(Local().declared, n).None?
  {
    JoinOne("x");
    JoinOne(TAKEN);
    assert TAKEN[0] == '_' && "x"[0] == 'x';
    forall n
      ensures Owner(Local().declared, n) == if n == TAKEN then Some("t") else if n == "x" then Some("s") else None
    {
      TwoOwners(Declared(["x"], "s"), Declared([TAKEN], "t"), n);
    }
  }

  ghost function Inner(): Transfer { Transfer("s", Export(Table1("x")), TAKEN, Plain, Call(2, Scans(Table1("x")))) }

  lemma InnerRoute()
    ensures Route(Local(), Table1("x"), 2) == Done(Routed(SqlReplacement(TAKEN, [Any()]), [Inner()], 3))
  {
    var cfg, p, call := Local(), Table1("x"), Call(2, Scans(Table1("x")));
    OneScan("x");
    LocalOwners();
    assert Operations(cfg, call, p, Book({"x"}, []), 3) == Done((p, Book({"x"}, []), 3));
    CutTable(cfg, call, "x", "s", TAKEN);
    ReplacementKeys(TAKEN);
  }

  lemma OuterPlan()
    ensures
      var p := Both(Ask());
      Scans(p) == {[TAKEN], ["x"]} && Original(p) && TAKEN in Reserved(p) && "x" in Reserved(p) && Routable(Local(), p)
  {
    var p := Both(Ask());
    assert p.inputs[1..] == [Ask()] && [Ask()][1..] == [];
    assert Scans(Ask()) == {["x"]} && Exchanges(Ask()) == {} && AllScans([Ask()]) == {["x"]} &&
      AllExchanges([Ask()]) == {};
    JoinOne(TAKEN);
    JoinOne("x");
    assert Bare([TAKEN]) in Reserved(p) && Bare(["x"]) in Reserved(p);
  }

  /** What the first pass makes of the plan. */
  ghost function Replaced(): (Plan, Book) {
    var p := Both(Ask());
    CompletedBy(Local(), Call(1, Scans(p)), Book(Reserved(p), []), Ask(), SqlReplacement(TAKEN, [Any()]), [Inner()])
  }

  lemma OuterOperations()
    ensures
      var p := Both(Ask());
      Operations(Local(), Call(1, Scans(p)), p, Book(Reserved(p), []), 2) == Done((Both(Replaced().0), Replaced().1, 3))
  {
    var cfg, p, call := Local(), Both(Ask()), Call(1, Scans(Both(Ask())));
    var start := Book(Reserved(p), []);
    InnerRoute();
    var (q, b) := Replaced();
    assert Operations(cfg, call, Ask(), start, 2) == Done((q, b, 3));
    assert [Ask()][1..] == [] && p.inputs[1..] == [Ask()];
    assert OperationsAll(cfg, call, [], b, 3) == Done(([], b, 3));
    assert [q] + [] == [q] && [Table1(TAKEN)] + [q] == [Table1(TAKEN), q];
    var rest := OperationsAll(cfg, call, [Ask()], start, 2);
    assert rest == Done(([q], b, 3));
    assert Operations(cfg, call, Table1(TAKEN), start, 2) == Done((Table1(TAKEN), start, 2));
    assert OperationsAll(cfg, call, p.inputs, start, 2) == Done(([Table1(TAKEN), q], b, 3));
  }

  lemma BothLeaves(q: Plan, name: string)
    requires q.Project? && q.input.Exchanged? && q.input.name == name
    ensures Keys(q) == {name} && Keys(q.input) == {name}
    ensures Scans(Both(q)) == {[TAKEN]} && Exchanges(Both(q)) == {name} && Keys(Both(q)) == {TAKEN, name}
  {
    var ks := Both(q).inputs;
    assert Scans(q) == {} && Exchanges(q) == {name} && Scans(Table1(TAKEN)) == {[TAKEN]} &&
      Exchanges(Table1(TAKEN)) == {};
    assert ks[1..] == [q] && [q][1..] == [];
    assert AllScans([q]) == Scans(q) + AllScans([]) && AllExchanges([q]) == Exchanges(q) + AllExchanges([]);
    assert AllScans(ks) == Scans(ks[0]) + AllScans([q]) && AllExchanges(ks) == Exchanges(ks[0]) + AllExchanges([q]);
    JoinOne(TAKEN);
    assert Join([TAKEN]) in Keys(Both(q));
  }

  /** Nothing is left to cut: the table is the target's and the relation has no owner. */
  lemma NothingToCut(q: Plan, name: string, call: Call, book: Book)
    requires q.Project? && q.input.Exchanged? && q.input.name == name && Owner(Local().declared, name).None?
    ensures Islands(Local(), call, Both(q), book) == (Both(q), book) && NoForeignScan(Local(), Both(q))
  {
    var cfg, p := Local(), Both(q);
    LocalOwners();
    BothLeaves(q, name);
    assert IslandSource(cfg, p).None?;
    InputsStay(q, name, call, book);
    assert IslandsBelow(cfg, call, p, book) == (p, book);
  }

  lemma InputsStay(q: Plan, name: string, call: Call, book: Book)
    requires q.Project? && q.input.Exchanged? && q.input.name == name && Owner(Local().declared, name).None?
    ensures IslandsAll(Local(), call, [Table1(TAKEN), q], book) == ([Table1(TAKEN), q], book)
  {
    var cfg := Local();
    LocalOwners();
    OneScan(TAKEN);
    BothLeaves(q, name);
    OneOwner(cfg, Table1(TAKEN), TAKEN);
    OneOwner(cfg, q, name);
    OneOwner(cfg, q.input, name);
    assert Islands(cfg, call, Table1(TAKEN), book) == (Table1(TAKEN), book);
    assert Islands(cfg, call, q.input, book) == (q.input, book);
    assert Islands(cfg, call, q, book) == (q, book);
    var ks := [Table1(TAKEN), q];
    assert ks[1..] == [q] && [q][1..] == [];
    assert IslandsAll(cfg, call, [], book) == ([], book);
    var rest := IslandsAll(cfg, call, [q], book);
    assert rest.0 == [q] && rest.1 == book;
    var all := IslandsAll(cfg, call, ks, book);
    assert all.0 == [Table1(TAKEN)] + [q] == ks && all.1 == book;
  }

  lemma OuterRoute()
    ensures Route(Local(), Both(Ask()), 1) == Done(Routed(Both(Replaced().0), Replaced().1.transfers, 3))
    ensures TAKEN in Names(Replaced().1.transfers) && [TAKEN] in Scans(Both(Replaced().0))
  {
    var cfg, p, call := Local(), Both(Ask()), Call(1, Scans(Both(Ask())));
    OuterPlan();
    OuterOperations();
    var (q, b) := Replaced();
    CompletedByShape(cfg, call, Ask(), Book(Reserved(p), []), SqlReplacement(TAKEN, [Any()]), [Inner()]);
    LocalOwners();
    NothingToCut(q, b.transfers[1].name, call, b);
    assert b.transfers[0] == Inner();
  }

  /** A nested routing call reserves only the names of its own input, so it can take the name of
      a table that the enclosing plan scans. */
  lemma NestedRouteMisroutes()
    ensures Misrouted(Local(), Both(Ask()))
  {
    OuterRoute();
    OuterPlan();
    var r := Route(Local(), Both(Ask()), 1).value;
    assert |[TAKEN]| == 1 && [TAKEN][0] in Names(r.transfers);
    assert !ReadsRight(Local(), "t", Names(r.transfers), r.plan);
    UnfaithfulIsMisrouted(Local(), Both(Ask()));
  }

  // ---------------------------------------------------------------- outer rows and qualifiers

  /** Routing accepts the plan and reads what was meant, and still some lawful world tells the
      difference. */
  ghost predicate Changed(cfg: Config, p: Plan) {
    && Original(p) && JoinsApart(cfg, p) && OrdinaryNames(cfg, p) && Route(cfg, p, 1).Done?
    && exists w: World :: Lawful(w) && !Preserved(w, cfg, p, Route(cfg, p, 1).value)
  }

  /** A relation without tables, which may depend on the outer row. */
  function Made(outer: bool): Plan { Node(Operator(0, outer, false), [Any()], []) }

  lemma MadeStays(cfg: Config, outer: bool, call: Call)
    ensures Scans(Made(outer)) == {} && Exchanges(Made(outer)) == {} && Original(Made(outer))
    ensures Operations(cfg, call, Made(outer), Book({}, []), call.id + 1) ==
      Done((Made(outer), Book({}, []), call.id + 1))
    ensures Islands(cfg, call, Made(outer), Book({}, [])) == (Made(outer), Book({}, []))
  {
    assert AllScans([]) == {} && AllExchanges([]) == {};
    assert Keys(Made(outer)) == {};
    assert Sources(cfg, Made(outer)) == {};
    assert IslandSource(cfg, Made(outer)).None?;
    assert OperationsAll(cfg, call, [], Book({}, []), call.id + 1) == Done(([], Book({}, []), call.id + 1));
    assert IslandsAll(cfg, call, [], Book({}, [])) == ([], Book({}, []));
    assert TryCut(cfg, call, Made(outer), Book({}, [])) == Keep(Book({}, []));
  }

  lemma OperationRoutes(outer: bool, c: Column)
    ensures
      var cfg, p := Setup([], {}), Dependent(5, "t", [c], Made(outer));
      Original(p) && JoinsApart(cfg, p) && OrdinaryNames(cfg, p) && Route(cfg, p, 1).Done?
  {
    var cfg, p := Setup([], {}), Dependent(5, "t", [c], Made(outer));
    MadeStays(cfg, outer, Call(2, {}));
    assert Reserved(p.input) == {} && Reserved(p) == {} && Scans(p) == {};
    assert Route(cfg, p.input, 2) == Done(Routed(p.input, [], 3));
    assert forall k :: Owner(cfg.declared, k).None?;
  }

  /** An operation whose input looks at the outer row is asked once, for no outer row. */
  lemma OuterInputChanges()
    ensures Changed(Setup([], {}), Dependent(5, "t", [Any()], Made(true)))
  {
    var cfg, p := Setup([], {}), Dependent(5, "t", [Any()], Made(true));
    OperationRoutes(true, Any());
    assert !StandsAlone(Made(true)) && !Routable(cfg, p);
    RoutingExact(cfg, p, 1);
  }

  /** An operation answered by SQL loses the qualifiers of its columns. */
  lemma QualifierChanges()
    ensures Changed(Setup([], {}), Dependent(5, "t", [Column(Some("q"), "a")], Made(false)))
  {
    var cfg, p := Setup([], {}), Dependent(5, "t", [Column(Some("q"), "a")], Made(false));
    OperationRoutes(false, Column(Some("q"), "a"));
    RoutingExact(cfg, p, 1);
  }
}
