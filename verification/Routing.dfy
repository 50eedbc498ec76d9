/** The federation router: operations first, then the largest closed single-owner
    subtrees, each replaced by a fresh exchange relation. */
module Routing {
  import opened Text
  import opened Plans
  import opened ExchangeNames

  datatype Declared = Declared(table: Table, engine: Engine)

  /** `declared`: the request's tables with their engines; two of them never have the same
      parts. `adapters`: engines reached by typed requests instead of SQL. The three predicates
      are arbitrary: which column types have exchange names, which plans a dialect can
      print and which plans an adapter can lower. */
  datatype Config = Config(
    target: Engine,
    declared: seq<Declared>,
    adapters: set<Engine>,
    exchangeable: Plan -> bool,
    prints: (Plan, Engine) -> bool,
    lowers: (Plan, Engine) -> bool)

  /** `Closed` is a request to an adapter: it has no SQL into which relations could be bound. */
  datatype Completion = Plain | Closed | Apply(engine: Engine, code: int)
  /** A routing call: its number and the tables that its plan scans. */
  datatype Call = Call(id: nat, scope: set<Table>)
  datatype Transfer = Transfer(engine: Engine, plan: Plan, name: string, completion: Completion, call: Call)
  datatype Book = Book(reserved: set<string>, transfers: seq<Transfer>)
  datatype Routed = Routed(plan: Plan, transfers: seq<Transfer>, next: nat)

  // ---------------------------------------------------------------- ownership

  /** The parts joined by dots: what the router looks tables up by. */
  function Join(t: Table): string {
    if t == [] then "" else if |t| == 1 then t[0] else t[0] + "." + Join(t[1..])
  }

  /** The router's owner map, filled in the order of declaration. */
  function Owner(ds: seq<Declared>, key: string): Option<Engine> {
    if ds == [] then None
    else if Join(ds[|ds| - 1].table) == key then Some(ds[|ds| - 1].engine)
    else Owner(ds[..|ds| - 1], key)
  }

  /** The engine that a table was declared for. */
  function Home(cfg: Config, t: Table): Engine {
    HomeIn(cfg.declared, t, cfg.target)
  }

  function HomeIn(ds: seq<Declared>, t: Table, target: Engine): Engine {
    if ds == [] then target
    else if ds[|ds| - 1].table == t then ds[|ds| - 1].engine
    else HomeIn(ds[..|ds| - 1], t, target)
  }

  /** The keys under which the leaves of a plan are looked up. */
  function Keys(p: Plan): set<string> {
    (set t | t in Scans(p) :: Join(t)) + Exchanges(p)
  }

  function Bare(t: Table): string {
    if t == [] then "" else t[|t| - 1]
  }

  function Aliases(p: Plan): set<string> {
    match p
    case Scan(_, _) => {}
    case Exchanged(_, _) => {}
    case Project(_, i) => Aliases(i)
    case Restore(_, i) => Aliases(i)
    case Aliased(a, i) => {a} + Aliases(i)
    case Node(_, _, ks) => set k, a | k in ks && a in Aliases(k) :: a
    case Dependent(_, _, _, i) => Aliases(i)
  }

  function Reserved(p: Plan): set<string> {
    (set t | t in Scans(p) :: Bare(t)) + Exchanges(p) + Aliases(p)
  }

  function Sources(cfg: Config, p: Plan): set<Engine> {
    set k | k in Keys(p) && Owner(cfg.declared, k).Some? :: Owner(cfg.declared, k).value
  }

  lemma SingletonMember<T>(s: set<T>, x: T, y: T)
    requires |s| == 1 && x in s && y in s
    ensures x == y
  {
    assert |s - {x}| == 0;
  }

  predicate AllOwned(cfg: Config, p: Plan) {
    forall k :: k in Keys(p) ==> Owner(cfg.declared, k).Some?
  }

  /** The owner of a closed subtree whose leaves are looked up with exactly one owner that is
      not the target. */
  function IslandSource(cfg: Config, p: Plan): (r: Option<Engine>)
    ensures r.Some? ==>
      SelfContained(p) && r.value != cfg.target && forall k :: k in Keys(p) ==> Owner(cfg.declared, k) == r
    ensures r.None? <==>
      !(SelfContained(p) && AllOwned(cfg, p) && |Sources(cfg, p)| == 1 && cfg.target !in Sources(cfg, p))
  {
    var sources := Sources(cfg, p);
    if SelfContained(p) && AllOwned(cfg, p) && |sources| == 1 && cfg.target !in sources then
      assert sources != {};
      assert forall x, y :: x in sources && y in sources ==> x == y by {
        forall x, y | x in sources && y in sources ensures x == y { SingletonMember(sources, x, y); }
      }
      var e :| e in sources;
      assert forall k :: k in Keys(p) ==> Owner(cfg.declared, k).value in sources;
      Some(e)
    else None
  }

  // ---------------------------------------------------------------- islands

  function CellNames(n: nat): (r: seq<string>)
    ensures |r| == n
  {
    seq(n, i requires 0 <= i => "__c" + Dec(i))
  }

  function NamesOf(s: seq<Column>): (r: seq<string>)
    ensures |r| == |s|
  {
    seq(|s|, i requires 0 <= i < |s| => s[i].name)
  }

  function Export(p: Plan): Plan {
    Project(CellNames(|SchemaOf(p)|), p)
  }

  predicate OneQualifier(s: seq<Column>) {
    s != [] && forall i :: 0 <= i < |s| ==> s[i].qualifier == s[0].qualifier
  }

  function ExchangeScan(name: string, n: nat): Plan {
    Exchanged(name, Requalified(name, Renamed(CellNames(n), seq(n, i => Column(None, "")))))
  }

  /** Reads the exchange relation back under the columns of the replaced subtree. */
  function SqlReplacement(name: string, s: seq<Column>): Plan
    requires OneQualifier(s)
  {
    var projected := Project(NamesOf(s), ExchangeScan(name, |s|));
    match s[0].qualifier
    case Some(q) => Aliased(q, projected)
    case None => projected
  }

  /** First pass result for one subtree: cut here, or descend with this book. */
  datatype Cut = Cut(plan: Plan, book: Book) | Keep(book: Book)

  function TryCut(cfg: Config, call: Call, p: Plan, book: Book): Cut {
    match IslandSource(cfg, p)
    case None => Keep(book)
    case Some(src) =>
      if src in cfg.adapters then
        if cfg.lowers(p, src) then
          var name := Fresh(book.reserved, BaseName(Request, call.id, |book.transfers|));
          Cut(Restore(SchemaOf(p), ExchangeScan(name, |SchemaOf(p)|)),
              Book(book.reserved + {name}, book.transfers + [Transfer(src, p, name, Closed, call)]))
        else Keep(book)
      else if cfg.exchangeable(p) && cfg.prints(Export(p), src) then
        var name := Fresh(book.reserved, BaseName(Exchange, call.id, |book.transfers|));
        var reserved := book.reserved + {name};
        if OneQualifier(SchemaOf(p)) then
          Cut(SqlReplacement(name, SchemaOf(p)),
              Book(reserved, book.transfers + [Transfer(src, Export(p), name, Plain, call)]))
        else Keep(Book(reserved, book.transfers))
      else Keep(book)
  }

  /** Second pass: cut the topmost islands, left to right. */
  function Islands(cfg: Config, call: Call, p: Plan, book: Book): (Plan, Book)
    decreases p, 1
  {
    match TryCut(cfg, call, p, book)
    case Cut(q, done) => (q, done)
    case Keep(kept) => IslandsBelow(cfg, call, p, kept)
  }

  function IslandsBelow(cfg: Config, call: Call, p: Plan, book: Book): (Plan, Book)
    decreases p, 0
  {
    match p
    case Scan(_, _) => (p, book)
    case Exchanged(_, _) => (p, book)
    case Project(ns, i) => var (q, b) := Islands(cfg, call, i, book); (Project(ns, q), b)
    case Restore(s, i) => var (q, b) := Islands(cfg, call, i, book); (Restore(s, q), b)
    case Aliased(a, i) => var (q, b) := Islands(cfg, call, i, book); (Aliased(a, q), b)
    case Node(op, s, ks) => var (qs, b) := IslandsAll(cfg, call, ks, book); (Node(op, s, qs), b)
    case Dependent(c, o, s, i) => var (q, b) := Islands(cfg, call, i, book); (Dependent(c, o, s, q), b)
  }

  function IslandsAll(cfg: Config, call: Call, ks: seq<Plan>, book: Book): (r: (seq<Plan>, Book))
    ensures |r.0| == |ks|
    decreases ks, 2
  {
    if ks == [] then ([], book)
    else
      var (q, b) := Islands(cfg, call, ks[0], book);
      var (qs, b') := IslandsAll(cfg, call, ks[1..], b);
      ([q] + qs, b')
  }

  // ---------------------------------------------------------------- operations

  function CompletedBy(cfg: Config, call: Call, book: Book, d: Plan, src: Plan, deps: seq<Transfer>): (Plan, Book)
    requires d.Dependent?
  {
    var ts := book.transfers + deps;
    var request := d.owner in cfg.adapters;
    var name := Fresh(book.reserved, BaseName(if request then Request else Operation, call.id, |ts|));
    var scan := ExchangeScan(name, |d.columns|);
    (if request then Restore(d.columns, scan) else Project(NamesOf(d.columns), scan),
     Book(book.reserved + {name}, ts + [Transfer(cfg.target, src, name, Apply(d.owner, d.code), call)]))
  }

  /** First pass: every dependent operation routes its own input, then becomes a transfer. */
  function Operations(cfg: Config, call: Call, p: Plan, book: Book, next: nat): Outcome<(Plan, Book, nat)>
    decreases p, 1
  {
    match p
    case Scan(_, _) => Done((p, book, next))
    case Exchanged(_, _) => Done((p, book, next))
    case Project(ns, i) =>
      (match Operations(cfg, call, i, book, next)
       case Failed => Failed
       case Done((q, b, n)) => Done((Project(ns, q), b, n)))
    case Restore(s, i) =>
      (match Operations(cfg, call, i, book, next)
       case Failed => Failed
       case Done((q, b, n)) => Done((Restore(s, q), b, n)))
    case Aliased(a, i) =>
      (match Operations(cfg, call, i, book, next)
       case Failed => Failed
       case Done((q, b, n)) => Done((Aliased(a, q), b, n)))
    case Node(op, s, ks) =>
      (match OperationsAll(cfg, call, ks, book, next)
       case Failed => Failed
       case Done((qs, b, n)) => Done((Node(op, s, qs), b, n)))
    case Dependent(_, _, _, i) =>
      (match Route(cfg, i, next)
       case Failed => Failed
       case Done(inner) =>
         if cfg.prints(inner.plan, cfg.target) then
           var (q, b) := CompletedBy(cfg, call, book, p, inner.plan, inner.transfers);
           Done((q, b, inner.next))
         else Failed)
  }

  function OperationsAll(cfg: Config, call: Call, ks: seq<Plan>, book: Book, next: nat)
    : (r: Outcome<(seq<Plan>, Book, nat)>)
    ensures r.Done? ==> |r.value.0| == |ks|
    decreases ks, 0
  {
    if ks == [] then Done(([], book, next))
    else
      match Operations(cfg, call, ks[0], book, next)
      case Failed => Failed
      case Done((q, b, n)) =>
        match OperationsAll(cfg, call, ks[1..], b, n)
        case Failed => Failed
        case Done((qs, b', n')) => Done(([q] + qs, b', n'))
  }

  /** No table of another engine may be left for the target to resolve by accident. */
  predicate NoForeignScan(cfg: Config, p: Plan) {
    forall k :: k in Keys(p) && Owner(cfg.declared, k).Some? ==> Owner(cfg.declared, k).value == cfg.target
  }

  function Route(cfg: Config, p: Plan, next: nat): Outcome<Routed>
    decreases p, 2
  {
    var call := Call(next, Scans(p));
    match Operations(cfg, call, p, Book(Reserved(p), []), next + 1)
    case Failed => Failed
    case Done((q, book, n)) =>
      var (r, done) := Islands(cfg, call, q, book);
      if NoForeignScan(cfg, r) then Done(Routed(r, done.transfers, n)) else Failed
  }

  // ---------------------------------------------------------------- meaning

  type Bound = map<string, seq<Row>>

  /** What is meant at a site: a table means the one its engine holds, an exchange name means the
      relation given for it. */
  ghost function Meant(w: World, cfg: Config, host: Engine, b: Bound): Site {
    Site(host, (t: Table) => w.tables(Home(cfg, t), t), (x: string) => if x in b then b[x] else [])
  }

  /** The meaning of a plan before routing: operators on the target, tables where they live. */
  ghost function Federated(w: World, cfg: Config, p: Plan): imap<Outer, Rel> {
    Eval(w, Meant(w, cfg, cfg.target, map[]), p)
  }

  /** The rows a transfer is meant to deliver. */
  ghost function Intended(w: World, cfg: Config, b: Bound, t: Transfer): seq<Row> {
    var rows := Eval(w, Meant(w, cfg, t.engine, b), t.plan)[0].rows;
    if t.completion.Apply? then w.answer(t.completion.engine, t.completion.code, rows) else rows
  }

  /** Every transfer's name is bound to what the transfer is meant to deliver. */
  ghost predicate Agrees(w: World, cfg: Config, b: Bound, ts: seq<Transfer>) {
    forall i :: 0 <= i < |ts| ==> ts[i].name in b && b[ts[i].name] == Intended(w, cfg, b, ts[i])
  }

  /** Inputs of dependent operations do not depend on an outer row. */
  predicate Uncorrelated(p: Plan) {
    match p
    case Scan(_, _) => true
    case Exchanged(_, _) => true
    case Project(_, i) => Uncorrelated(i)
    case Restore(_, i) => Uncorrelated(i)
    case Aliased(_, i) => Uncorrelated(i)
    case Node(_, _, ks) => forall k :: k in ks ==> Uncorrelated(k)
    case Dependent(_, _, _, i) => Uncorrelated(i) && StandsAlone(i)
  }

  predicate Unqualified(cs: seq<Column>) {
    forall j :: 0 <= j < |cs| ==> cs[j].qualifier == None
  }

  /** An operation answered by SQL has unqualified output columns where something sees them:
      operators see the qualifiers of their inputs, projections and aliases replace them. */
  predicate QualifiersKept(cfg: Config, p: Plan, visible: bool) {
    match p
    case Scan(_, _) => true
    case Exchanged(_, _) => true
    case Project(_, i) => QualifiersKept(cfg, i, false)
    case Restore(_, i) => QualifiersKept(cfg, i, false)
    case Aliased(_, i) => QualifiersKept(cfg, i, false)
    case Node(_, _, ks) => forall k :: k in ks ==> QualifiersKept(cfg, k, true)
    case Dependent(_, o, s, i) => QualifiersKept(cfg, i, false) && (visible && o !in cfg.adapters ==> Unqualified(s))
  }

  predicate SameNames(a: seq<Column>, b: seq<Column>) {
    |a| == |b| && forall j :: 0 <= j < |a| ==> a[j].name == b[j].name
  }

  /** The same relation for every outer row, up to qualifiers that nothing sees. */
  ghost predicate Near(m: imap<Outer, Rel>, m': imap<Outer, Rel>, visible: bool) {
    forall c: Outer ::
      && c in m && c in m' && m[c].rows == m'[c].rows && SameNames(m[c].schema, m'[c].schema)
      && (visible ==> m[c].schema == m'[c].schema)
  }

  lemma NearIsSame(m: imap<Outer, Rel>, m': imap<Outer, Rel>)
    requires Near(m, m', true)
    ensures m == m'
  {
    assert forall c: Outer :: c in m && c in m' && m[c] == m'[c];
  }

  lemma SameIsNear(m: imap<Outer, Rel>, m': imap<Outer, Rel>, visible: bool)
    requires m == m' && forall c: Outer :: c in m
    ensures Near(m, m', visible)
  {
  }

  lemma RenamedNear(names: seq<string>, a: seq<Column>, b: seq<Column>)
    requires SameNames(a, b)
    ensures Renamed(names, a) == Renamed(names, b)
  {
  }

  lemma RequalifiedNear(q: string, a: seq<Column>, b: seq<Column>)
    requires SameNames(a, b)
    ensures Requalified(q, a) == Requalified(q, b)
  {
  }

  /** No outer reference anywhere, so one evaluation serves every outer row. */
  predicate StandsAlone(p: Plan) {
    match p
    case Scan(_, _) => true
    case Exchanged(_, _) => true
    case Project(_, i) => StandsAlone(i)
    case Restore(_, i) => StandsAlone(i)
    case Aliased(_, i) => StandsAlone(i)
    case Node(op, _, ks) => !op.outer && forall k :: k in ks ==> StandsAlone(k)
    case Dependent(_, _, _, i) => StandsAlone(i)
  }

  lemma {:induction false} StandsAloneConstant(w: World, s: Site, p: Plan, c: Outer, d: Outer)
    requires Lawful(w) && StandsAlone(p)
    ensures Eval(w, s, p)[c] == Eval(w, s, p)[d]
  {
    if p.Node? {
      var rs := EvalAll(w, s, p.inputs);
      forall i, x: Outer, y: Outer | 0 <= i < |rs| ensures x in rs[i] && y in rs[i] && rs[i][x] == rs[i][y] {
        StandsAloneConstant(w, s, p.inputs[i], x, y);
      }
      assert w.operate(s.host, p.op, c, rs) == w.operate(s.host, p.op, d, rs);
    } else if !Leaf(p) {
      StandsAloneConstant(w, s, p.input, c, d);
    }
  }

  /** Reading an exchange relation back restores the exact columns and rows. */
  lemma SqlReplacementMeaning(w: World, s: Site, name: string, cs: seq<Column>, c: Outer)
    requires OneQualifier(cs)
    ensures Eval(w, s, SqlReplacement(name, cs))[c] == Rel(cs, s.exchange(name))
  {
    var scan := ExchangeScan(name, |cs|);
    var projected := Project(NamesOf(cs), scan);
    assert AnyOuter(c);
    assert scan.name == name && |Eval(w, s, scan)[c].schema| == |cs|;
    var r := Eval(w, s, projected)[c];
    assert |r.schema| == |cs| && r.rows == s.exchange(name);
    assert forall i :: 0 <= i < |cs| ==> r.schema[i] == Column(None, cs[i].name);
    if cs[0].qualifier.Some? {
      assert Requalified(cs[0].qualifier.value, r.schema) == cs;
    } else {
      assert r.schema == cs;
    }
  }

  /** An island means the same on its engine as on the target. */
  lemma IslandMeaning(w: World, cfg: Config, b: Bound, p: Plan, e: Engine, c: Outer)
    requires Lawful(w) && SelfContained(p)
    ensures Eval(w, Meant(w, cfg, e, b), p)[0] == Eval(w, Meant(w, cfg, cfg.target, b), p)[c]
  {
    SelfContainedAgrees(w, Meant(w, cfg, e, b), Meant(w, cfg, cfg.target, b), p, 0, c);
  }

  lemma CutMeaningAt(w: World, cfg: Config, call: Call, p: Plan, book: Book, b: Bound, c: Outer)
    requires Lawful(w) && TryCut(cfg, call, p, book).Cut?
    requires Agrees(w, cfg, b, TryCut(cfg, call, p, book).book.transfers)
    ensures
      var s := Meant(w, cfg, cfg.target, b);
      Eval(w, s, TryCut(cfg, call, p, book).plan)[c] == Eval(w, s, p)[c]
  {
    var s := Meant(w, cfg, cfg.target, b);
    var t := TryCut(cfg, call, p, book).book.transfers[|book.transfers|];
    var src := IslandSource(cfg, p).value;
    IslandMeaning(w, cfg, b, p, src, c);
    EvalSchema(w, s, p, c);
    assert b[t.name] == Intended(w, cfg, b, t) == Eval(w, Meant(w, cfg, src, b), p)[0].rows;
    if src in cfg.adapters {
      var scan := ExchangeScan(t.name, |SchemaOf(p)|);
      assert AnyOuter(c);
      assert scan.name == t.name && Eval(w, s, scan)[c].rows == b[t.name];
    } else {
      SqlReplacementMeaning(w, s, t.name, SchemaOf(p), c);
    }
  }

  /** Cutting one island keeps the relation of the subtree. */
  lemma CutMeaning(w: World, cfg: Config, call: Call, p: Plan, book: Book, b: Bound)
    requires Lawful(w) && TryCut(cfg, call, p, book).Cut?
    requires Agrees(w, cfg, b, TryCut(cfg, call, p, book).book.transfers)
    ensures
      var s := Meant(w, cfg, cfg.target, b);
      Eval(w, s, TryCut(cfg, call, p, book).plan) == Eval(w, s, p)
  {
    var s := Meant(w, cfg, cfg.target, b);
    var m, m' := Eval(w, s, TryCut(cfg, call, p, book).plan), Eval(w, s, p);
    forall c: Outer ensures m[c] == m'[c] { CutMeaningAt(w, cfg, call, p, book, b, c); }
  }

  lemma {:induction false} IslandsExtend(cfg: Config, call: Call, p: Plan, book: Book)
    ensures book.transfers <= Islands(cfg, call, p, book).1.transfers
    decreases p, 1
  {
    match TryCut(cfg, call, p, book)
    case Cut(_, _) =>
    case Keep(kept) =>
      if p.Node? {
        IslandsAllExtend(cfg, call, p.inputs, kept);
      } else if !Leaf(p) {
        IslandsExtend(cfg, call, p.input, kept);
      }
  }

  lemma {:induction false} IslandsAllExtend(cfg: Config, call: Call, ks: seq<Plan>, book: Book)
    ensures book.transfers <= IslandsAll(cfg, call, ks, book).1.transfers
    decreases ks, 0
  {
    if ks != [] {
      IslandsExtend(cfg, call, ks[0], book);
      IslandsAllExtend(cfg, call, ks[1..], Islands(cfg, call, ks[0], book).1);
    }
  }

  lemma {:induction false} IslandsMeaning(w: World, cfg: Config, call: Call, p: Plan, book: Book, b: Bound)
    requires Lawful(w) && Agrees(w, cfg, b, Islands(cfg, call, p, book).1.transfers)
    ensures
      var s := Meant(w, cfg, cfg.target, b);
      Eval(w, s, Islands(cfg, call, p, book).0) == Eval(w, s, p)
    decreases p, 1
  {
    match TryCut(cfg, call, p, book)
    case Cut(_, _) => CutMeaning(w, cfg, call, p, book, b);
    case Keep(kept) => IslandsBelowMeaning(w, cfg, call, p, kept, b);
  }

  lemma {:induction false} IslandsBelowMeaning(w: World, cfg: Config, call: Call, p: Plan, book: Book, b: Bound)
    requires Lawful(w) && Agrees(w, cfg, b, IslandsBelow(cfg, call, p, book).1.transfers)
    ensures
      var s := Meant(w, cfg, cfg.target, b);
      Eval(w, s, IslandsBelow(cfg, call, p, book).0) == Eval(w, s, p)
    decreases p, 0
  {
    if p.Node? {
      IslandsAllMeaning(w, cfg, call, p.inputs, book, b);
    } else if !Leaf(p) {
      IslandsMeaning(w, cfg, call, p.input, book, b);
    }
  }

  lemma {:induction false} IslandsAllMeaning(w: World, cfg: Config, call: Call, ks: seq<Plan>, book: Book, b: Bound)
    requires Lawful(w) && Agrees(w, cfg, b, IslandsAll(cfg, call, ks, book).1.transfers)
    ensures
      var s := Meant(w, cfg, cfg.target, b);
      EvalAll(w, s, IslandsAll(cfg, call, ks, book).0) == EvalAll(w, s, ks)
    decreases ks, 0
  {
    if ks != [] {
      var (q, b1) := Islands(cfg, call, ks[0], book);
      IslandsAllExtend(cfg, call, ks[1..], b1);
      IslandsMeaning(w, cfg, call, ks[0], book, b);
      IslandsAllMeaning(w, cfg, call, ks[1..], b1, b);
      var qs := IslandsAll(cfg, call, ks[1..], b1).0;
      assert ([q] + qs)[1..] == qs;
    }
  }

  lemma AgreesSlice(w: World, cfg: Config, b: Bound, ts: seq<Transfer>, lo: nat, hi: nat)
    requires Agrees(w, cfg, b, ts) && lo <= hi <= |ts|
    ensures Agrees(w, cfg, b, ts[lo..hi])
  {
    forall i | 0 <= i < hi - lo
      ensures var t := ts[lo..hi][i]; t.name in b && b[t.name] == Intended(w, cfg, b, t)
    {
      assert ts[lo..hi][i] == ts[lo + i];
    }
  }

  lemma {:induction false} OperationsExtend(cfg: Config, call: Call, p: Plan, book: Book, next: nat)
    requires Operations(cfg, call, p, book, next).Done?
    ensures book.transfers <= Operations(cfg, call, p, book, next).value.1.transfers
    decreases p, 1
  {
    if p.Node? {
      OperationsAllExtend(cfg, call, p.inputs, book, next);
    } else if !Leaf(p) && !p.Dependent? {
      OperationsExtend(cfg, call, p.input, book, next);
    }
  }

  lemma {:induction false} OperationsAllExtend(cfg: Config, call: Call, ks: seq<Plan>, book: Book, next: nat)
    requires OperationsAll(cfg, call, ks, book, next).Done?
    ensures book.transfers <= OperationsAll(cfg, call, ks, book, next).value.1.transfers
    decreases ks, 0
  {
    if ks != [] {
      OperationsExtend(cfg, call, ks[0], book, next);
      var (q, b, n) := Operations(cfg, call, ks[0], book, next).value;
      OperationsAllExtend(cfg, call, ks[1..], b, n);
    }
  }

  lemma DependentMeaningAt(w: World, cfg: Config, call: Call, p: Plan, book: Book, src: Plan, deps: seq<Transfer>,
                           b: Bound, c: Outer)
    requires Lawful(w) && p.Dependent? && StandsAlone(p.input)
    requires Agrees(w, cfg, b, CompletedBy(cfg, call, book, p, src, deps).1.transfers)
    requires Eval(w, Meant(w, cfg, cfg.target, b), src)[0].rows ==
             Eval(w, Meant(w, cfg, cfg.target, b), p.input)[0].rows
    ensures
      var s := Meant(w, cfg, cfg.target, b);
      var r, r' := Eval(w, s, CompletedBy(cfg, call, book, p, src, deps).0)[c], Eval(w, s, p)[c];
      && r.rows == r'.rows && SameNames(r.schema, r'.schema)
      && (p.owner in cfg.adapters || Unqualified(p.columns) ==> r.schema == r'.schema)
  {
    var s := Meant(w, cfg, cfg.target, b);
    var (q, book') := CompletedBy(cfg, call, book, p, src, deps);
    var t := book'.transfers[|book.transfers + deps|];
    var scan := ExchangeScan(t.name, |p.columns|);
    assert scan.name == t.name && b[t.name] == Intended(w, cfg, b, t);
    assert AnyOuter(c);
    StandsAloneConstant(w, s, p.input, 0, c);
    assert Intended(w, cfg, b, t) == Eval(w, s, p)[c].rows;
    assert Eval(w, s, scan)[c].rows == b[t.name];
    if p.owner !in cfg.adapters {
      assert |Eval(w, s, scan)[c].schema| == |p.columns|;
      assert Eval(w, s, q)[c].schema == Renamed(NamesOf(p.columns), Eval(w, s, scan)[c].schema);
    }
  }

  /** Replacing a dependent operation by its transfer keeps its relation, given that
      the routed input has the rows of the input. */
  lemma DependentMeaning(w: World, cfg: Config, call: Call, p: Plan, book: Book, src: Plan, deps: seq<Transfer>,
                         b: Bound, visible: bool)
    requires Lawful(w) && p.Dependent? && Uncorrelated(p) && QualifiersKept(cfg, p, visible)
    requires Agrees(w, cfg, b, CompletedBy(cfg, call, book, p, src, deps).1.transfers)
    requires Eval(w, Meant(w, cfg, cfg.target, b), src)[0].rows ==
             Eval(w, Meant(w, cfg, cfg.target, b), p.input)[0].rows
    ensures
      var s := Meant(w, cfg, cfg.target, b);
      Near(Eval(w, s, CompletedBy(cfg, call, book, p, src, deps).0), Eval(w, s, p), visible)
  {
    var s := Meant(w, cfg, cfg.target, b);
    var m, m' := Eval(w, s, CompletedBy(cfg, call, book, p, src, deps).0), Eval(w, s, p);
    forall c: Outer
      ensures m[c].rows == m'[c].rows && SameNames(m[c].schema, m'[c].schema) &&
        (visible ==> m[c].schema == m'[c].schema)
    {
      DependentMeaningAt(w, cfg, call, p, book, src, deps, b, c);
    }
  }

  /** A pass-through node above relations that are near. */
  lemma WrappedNear(w: World, s: Site, p: Plan, i: Plan, j: Plan, visible: bool)
    requires Near(Eval(w, s, i), Eval(w, s, j), false)
    ensures p.Project? ==> Near(Eval(w, s, Project(p.names, i)), Eval(w, s, Project(p.names, j)), visible)
    ensures p.Restore? ==> Near(Eval(w, s, Restore(p.columns, i)), Eval(w, s, Restore(p.columns, j)), visible)
    ensures p.Aliased? ==> Near(Eval(w, s, Aliased(p.alias, i)), Eval(w, s, Aliased(p.alias, j)), visible)
  {
    var m, m' := Eval(w, s, i), Eval(w, s, j);
    forall c: Outer
      ensures p.Project? ==> Renamed(p.names, m[c].schema) == Renamed(p.names, m'[c].schema)
      ensures p.Aliased? ==> Requalified(p.alias, m[c].schema) == Requalified(p.alias, m'[c].schema)
    {
      if p.Project? { RenamedNear(p.names, m[c].schema, m'[c].schema); }
      if p.Aliased? { RequalifiedNear(p.alias, m[c].schema, m'[c].schema); }
    }
  }

  lemma {:induction false} OperationsMeaning(w: World, cfg: Config, call: Call, p: Plan, book: Book, next: nat,
                                             b: Bound, visible: bool)
    requires Lawful(w) && Uncorrelated(p) && QualifiersKept(cfg, p, visible)
    requires Operations(cfg, call, p, book, next).Done?
    requires Agrees(w, cfg, b, Operations(cfg, call, p, book, next).value.1.transfers)
    ensures
      var s := Meant(w, cfg, cfg.target, b);
      Near(Eval(w, s, Operations(cfg, call, p, book, next).value.0), Eval(w, s, p), visible)
    decreases p, 1
  {
    var s := Meant(w, cfg, cfg.target, b);
    if p.Node? {
      OperationsAllMeaning(w, cfg, call, p.inputs, book, next, b);
      SameIsNear(Eval(w, s, Operations(cfg, call, p, book, next).value.0), Eval(w, s, p), visible);
    } else if p.Dependent? {
      var inner := Route(cfg, p.input, next).value;
      var ts := CompletedBy(cfg, call, book, p, inner.plan, inner.transfers).1.transfers;
      var n := |book.transfers|;
      AgreesSlice(w, cfg, b, ts, n, n + |inner.transfers|);
      assert ts[n..n + |inner.transfers|] == inner.transfers;
      RouteMeaning(w, cfg, p.input, next, b, false);
      DependentMeaning(w, cfg, call, p, book, inner.plan, inner.transfers, b, visible);
    } else if Leaf(p) {
      SameIsNear(Eval(w, s, p), Eval(w, s, p), visible);
    } else {
      OperationsMeaning(w, cfg, call, p.input, book, next, b, false);
      WrappedNear(w, s, p, Operations(cfg, call, p.input, book, next).value.0, p.input, visible);
    }
  }

  lemma {:induction false} OperationsAllMeaning(w: World, cfg: Config, call: Call, ks: seq<Plan>, book: Book, next: nat,
                                                b: Bound)
    requires Lawful(w) && OperationsAll(cfg, call, ks, book, next).Done?
    requires forall k :: k in ks ==> Uncorrelated(k) && QualifiersKept(cfg, k, true)
    requires Agrees(w, cfg, b, OperationsAll(cfg, call, ks, book, next).value.1.transfers)
    ensures
      var s := Meant(w, cfg, cfg.target, b);
      EvalAll(w, s, OperationsAll(cfg, call, ks, book, next).value.0) == EvalAll(w, s, ks)
    decreases ks, 0
  {
    if ks != [] {
      var s := Meant(w, cfg, cfg.target, b);
      var (q, b1, n1) := Operations(cfg, call, ks[0], book, next).value;
      OperationsAllExtend(cfg, call, ks[1..], b1, n1);
      OperationsMeaning(w, cfg, call, ks[0], book, next, b, true);
      NearIsSame(Eval(w, s, q), Eval(w, s, ks[0]));
      OperationsAllMeaning(w, cfg, call, ks[1..], b1, n1, b);
      var qs := OperationsAll(cfg, call, ks[1..], b1, n1).value.0;
      assert ([q] + qs)[1..] == qs;
    }
  }

  /** If every name means what its transfer is meant to deliver, the routed plan means what the
      plan means. Whether names do mean that when the transfers are executed is another matter. */
  lemma {:induction false} RouteMeaning(w: World, cfg: Config, p: Plan, next: nat, b: Bound, visible: bool)
    requires Lawful(w) && Uncorrelated(p) && QualifiersKept(cfg, p, visible) && Route(cfg, p, next).Done?
    requires Agrees(w, cfg, b, Route(cfg, p, next).value.transfers)
    ensures
      var s := Meant(w, cfg, cfg.target, b);
      Near(Eval(w, s, Route(cfg, p, next).value.plan), Eval(w, s, p), visible)
    decreases p, 2
  {
    var call := Call(next, Scans(p));
    var (q, book, n) := Operations(cfg, call, p, Book(Reserved(p), []), next + 1).value;
    IslandsExtend(cfg, call, q, book);
    IslandsMeaning(w, cfg, call, q, book, b);
    OperationsMeaning(w, cfg, call, p, Book(Reserved(p), []), next + 1, b, visible);
  }
}
