/** Relational plans as the federation router sees them, and what they mean at a site: an
    engine together with what table names and exchange names stand for there. */
module Plans {
  import opened Text

  datatype Value = Int(number: int) | Str(text: string) | List(items: seq<Value>)
  type Row = seq<Value>
  type Engine = string
  /** A possibly qualified table reference, one string per part. */
  type Table = seq<string>
  /** The outer row that a correlated expression may refer to. */
  type Outer = int

  datatype Column = Column(qualifier: Option<string>, name: string)
  datatype Rel = Rel(schema: seq<Column>, rows: seq<Row>)

  /** `outer`: some expression refers to an outer row.
      `native`: some expression calls a function declared on the executing engine. */
  datatype Operator = Operator(code: int, outer: bool, native: bool)

  /** `Exchanged` is the scan of a generated relation. It prints like any other scan; the model
      keeps the two apart so that theorems can say which one was meant. */
  datatype Plan =
    | Scan(table: Table, columns: seq<Column>)
    | Exchanged(name: string, columns: seq<Column>)
    | Project(names: seq<string>, input: Plan)
    | Restore(columns: seq<Column>, input: Plan)
    | Aliased(alias: string, input: Plan)
    | Node(op: Operator, columns: seq<Column>, inputs: seq<Plan>)
    | Dependent(code: int, owner: Engine, columns: seq<Column>, input: Plan)

  /** An arbitrary federation: table contents per engine, what an operator computes on
      an engine from its inputs (each a relation per outer row), and what a dependent
      operation answers for its input rows. */
  datatype World = World(
    tables: (Engine, Table) -> seq<Row>,
    operate: (Engine, Operator, Outer, seq<imap<Outer, Rel>>) -> seq<Row>,
    answer: (Engine, int, seq<Row>) -> seq<Row>)

  /** The inputs are the same for every outer row. */
  ghost predicate Constant(ks: seq<imap<Outer, Rel>>) {
    forall i, x: Outer, y: Outer :: 0 <= i < |ks| ==> x in ks[i] && y in ks[i] && ks[i][x] == ks[i][y]
  }

  /** What the two operator flags promise about an evaluator: without outer references the result
      varies only if an input does, and without native functions the engine does not matter. */
  ghost predicate Lawful(w: World) {
    && (forall e, o: Operator, c, d, ks ::
          !o.outer && Constant(ks) ==> w.operate(e, o, c, ks) == w.operate(e, o, d, ks))
    && (forall e, f, o: Operator, c, ks :: !o.native ==> w.operate(e, o, c, ks) == w.operate(f, o, c, ks))
  }

  datatype Site = Site(host: Engine, table: Table -> seq<Row>, exchange: string -> seq<Row>)

  predicate AnyOuter(c: Outer) {
    true
  }

  function Renamed(names: seq<string>, s: seq<Column>): (r: seq<Column>)
    ensures |r| == |s|
  {
    seq(|s|, i requires 0 <= i < |s| => Column(None, if i < |names| then names[i] else s[i].name))
  }

  function Requalified(alias: string, s: seq<Column>): (r: seq<Column>)
    ensures |r| == |s|
  {
    seq(|s|, i requires 0 <= i < |s| => Column(Some(alias), s[i].name))
  }

  function SchemaOf(p: Plan): seq<Column> {
    match p
    case Scan(_, s) => s
    case Exchanged(_, s) => s
    case Project(names, input) => Renamed(names, SchemaOf(input))
    case Restore(s, _) => s
    case Aliased(a, input) => Requalified(a, SchemaOf(input))
    case Node(_, s, _) => s
    case Dependent(_, _, s, _) => s
  }

  predicate Leaf(p: Plan) {
    p.Scan? || p.Exchanged?
  }

  /** The tables a plan scans. */
  function Scans(p: Plan): set<Table> {
    match p
    case Scan(t, _) => {t}
    case Exchanged(_, _) => {}
    case Project(_, i) => Scans(i)
    case Restore(_, i) => Scans(i)
    case Aliased(_, i) => Scans(i)
    case Node(_, _, ks) => AllScans(ks)
    case Dependent(_, _, _, i) => Scans(i)
  }

  function AllScans(ks: seq<Plan>): set<Table> {
    if ks == [] then {} else Scans(ks[0]) + AllScans(ks[1..])
  }

  /** The generated relations a plan scans. */
  function Exchanges(p: Plan): set<string> {
    match p
    case Scan(_, _) => {}
    case Exchanged(x, _) => {x}
    case Project(_, i) => Exchanges(i)
    case Restore(_, i) => Exchanges(i)
    case Aliased(_, i) => Exchanges(i)
    case Node(_, _, ks) => AllExchanges(ks)
    case Dependent(_, _, _, i) => Exchanges(i)
  }

  function AllExchanges(ks: seq<Plan>): set<string> {
    if ks == [] then {} else Exchanges(ks[0]) + AllExchanges(ks[1..])
  }

  lemma {:induction false} LeavesOfInput(ks: seq<Plan>, k: Plan)
    requires k in ks
    ensures Scans(k) <= AllScans(ks) && Exchanges(k) <= AllExchanges(ks)
  {
    if k != ks[0] {
      LeavesOfInput(ks[1..], k);
    }
  }

  /** No expression below refers to an outer row or to an engine function. */
  predicate SelfContained(p: Plan) {
    match p
    case Scan(_, _) => true
    case Exchanged(_, _) => true
    case Project(_, i) => SelfContained(i)
    case Restore(_, i) => SelfContained(i)
    case Aliased(_, i) => SelfContained(i)
    case Node(op, _, ks) => !op.outer && !op.native && forall k :: k in ks ==> SelfContained(k)
    case Dependent(_, _, _, _) => false
  }

  /** The relation a plan denotes for every outer row. */
  ghost function Eval(w: World, s: Site, p: Plan): (m: imap<Outer, Rel>)
    ensures forall c :: c in m
  {
    match p
    case Scan(t, cs) => (imap c: Outer | AnyOuter(c) :: Rel(cs, s.table(t)))
    case Exchanged(x, cs) => (imap c: Outer | AnyOuter(c) :: Rel(cs, s.exchange(x)))
    case Project(names, i) =>
      var r := Eval(w, s, i);
      (imap c: Outer :: Rel(Renamed(names, r[c].schema), r[c].rows))
    case Restore(cs, i) =>
      var r := Eval(w, s, i);
      (imap c: Outer :: Rel(cs, r[c].rows))
    case Aliased(a, i) =>
      var r := Eval(w, s, i);
      (imap c: Outer :: Rel(Requalified(a, r[c].schema), r[c].rows))
    case Node(op, cs, ks) =>
      var rs := EvalAll(w, s, ks);
      (imap c: Outer :: Rel(cs, w.operate(s.host, op, c, rs)))
    case Dependent(code, owner, cs, i) =>
      var r := Eval(w, s, i);
      (imap c: Outer :: Rel(cs, w.answer(owner, code, r[c].rows)))
  }

  ghost function EvalAll(w: World, s: Site, ks: seq<Plan>): (rs: seq<imap<Outer, Rel>>)
    ensures |rs| == |ks|
    ensures forall i :: 0 <= i < |ks| ==> rs[i] == Eval(w, s, ks[i])
  {
    if ks == [] then [] else [Eval(w, s, ks[0])] + EvalAll(w, s, ks[1..])
  }

  lemma {:induction false} EvalSchema(w: World, s: Site, p: Plan, c: Outer)
    ensures Eval(w, s, p)[c].schema == SchemaOf(p)
  {
    match p
    case Scan(_, _) =>
    case Exchanged(_, _) =>
    case Project(_, i) => EvalSchema(w, s, i, c);
    case Restore(_, _) =>
    case Aliased(_, i) => EvalSchema(w, s, i, c);
    case Node(_, _, _) =>
    case Dependent(_, _, _, _) =>
  }

  /** Two sites give the leaves of a plan the same rows. */
  ghost predicate SameLeaves(s: Site, s': Site, p: Plan) {
    && (forall t :: t in Scans(p) ==> s.table(t) == s'.table(t))
    && (forall x :: x in Exchanges(p) ==> s.exchange(x) == s'.exchange(x))
  }

  /** A plan depends on its site only through the host and the leaves. */
  lemma {:induction false} EvalAgrees(w: World, s: Site, s': Site, p: Plan)
    requires s.host == s'.host && SameLeaves(s, s', p)
    ensures Eval(w, s, p) == Eval(w, s', p)
  {
    if p.Node? {
      forall i | 0 <= i < |p.inputs| ensures EvalAll(w, s, p.inputs)[i] == EvalAll(w, s', p.inputs)[i] {
        LeavesOfInput(p.inputs, p.inputs[i]);
        EvalAgrees(w, s, s', p.inputs[i]);
      }
      assert EvalAll(w, s, p.inputs) == EvalAll(w, s', p.inputs);
    } else if Leaf(p) {
      assert p.Scan? ==> p.table in Scans(p);
      assert p.Exchanged? ==> p.name in Exchanges(p);
    } else {
      EvalAgrees(w, s, s', p.input);
    }
  }

  /** A self-contained plan gives the same relation on any engine and for any outer row,
      as long as its leaves hold the same rows. */
  lemma {:induction false} SelfContainedAgrees(w: World, s: Site, s': Site, p: Plan, c: Outer, d: Outer)
    requires Lawful(w) && SelfContained(p) && SameLeaves(s, s', p)
    ensures Eval(w, s, p)[c] == Eval(w, s', p)[d]
    decreases p, 1
  {
    if p.Node? {
      var rs := EvalAll(w, s, p.inputs);
      InputsAgree(w, s, s', p);
      OperatorAgrees(w, s.host, s'.host, p.op, c, d, rs);
    } else if Leaf(p) {
      assert p.Scan? ==> p.table in Scans(p);
      assert p.Exchanged? ==> p.name in Exchanges(p);
    } else {
      SelfContainedAgrees(w, s, s', p.input, c, d);
    }
  }

  lemma {:induction false} InputsAgree(w: World, s: Site, s': Site, p: Plan)
    requires Lawful(w) && p.Node? && SelfContained(p) && SameLeaves(s, s', p)
    ensures EvalAll(w, s, p.inputs) == EvalAll(w, s', p.inputs) && Constant(EvalAll(w, s, p.inputs))
    decreases p, 0
  {
    var rs, rs' := EvalAll(w, s, p.inputs), EvalAll(w, s', p.inputs);
    forall i, x, y | 0 <= i < |p.inputs| ensures rs[i][x] == rs'[i][y] && rs[i][x] == rs[i][y] {
      LeavesOfInput(p.inputs, p.inputs[i]);
      SelfContainedAgrees(w, s, s', p.inputs[i], x, y);
      SelfContainedAgrees(w, s, s, p.inputs[i], x, y);
    }
    forall i | 0 <= i < |p.inputs| ensures rs[i] == rs'[i] {
      forall x: Outer ensures rs[i][x] == rs'[i][x] {}
    }
  }

  lemma OperatorAgrees(w: World, e: Engine, f: Engine, op: Operator, c: Outer, d: Outer, rs: seq<imap<Outer, Rel>>)
    requires Lawful(w) && !op.outer && !op.native && Constant(rs)
    ensures w.operate(e, op, c, rs) == w.operate(f, op, d, rs)
  {
    assert w.operate(e, op, c, rs) == w.operate(f, op, c, rs);
    assert w.operate(f, op, c, rs) == w.operate(f, op, d, rs);
  }
}
