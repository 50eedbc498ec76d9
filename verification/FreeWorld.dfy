/** A world in which rows record how they were made: two evaluations of a plan give the same
    rows exactly when they read the same rows at every leaf. */
module FreeWorld {
  import opened Plans

  function Parts(t: Table): seq<Value> {
    if t == [] then [] else [Str(t[0])] + Parts(t[1..])
  }

  function Rows(rows: seq<Row>): Value {
    List(seq(|rows|, i requires 0 <= i < |rows| => List(rows[i])))
  }

  function ColumnValue(c: Column): Value {
    List([if c.qualifier.Some? then Str(c.qualifier.value) else Int(0), Str(c.name)])
  }

  function Columns(cs: seq<Column>): Value {
    List(seq(|cs|, i requires 0 <= i < |cs| => ColumnValue(cs[i])))
  }

  /** The only row of a table names the engine and the table. */
  function Origin(e: Engine, t: Table): Row {
    [Int(0), Str(e), List(Parts(t))]
  }

  /** What an operator notes of a relation: its rows and, if `columns`, its columns. */
  function Noted(r: Rel, columns: bool): Value {
    List([Rows(r.rows), if columns then Columns(r.schema) else Int(0)])
  }

  ghost function NotedAll(ks: seq<imap<Outer, Rel>>, c: Outer, columns: bool): (r: seq<Value>)
    ensures |r| == |ks| && forall i :: 0 <= i < |ks| && c in ks[i] ==> r[i] == Noted(ks[i][c], columns)
  {
    seq(|ks|, i requires 0 <= i < |ks| => if c in ks[i] then Noted(ks[i][c], columns) else Int(0))
  }

  ghost function Made(e: Engine, o: Operator, c: Outer, ks: seq<imap<Outer, Rel>>, columns: bool): Row {
    [Int(1), Int(o.code), Int(if o.outer then c else 0), Str(if o.native then e else ""),
      List(NotedAll(ks, c, columns))]
  }

  function Asked(e: Engine, code: int, rows: seq<Row>): Row {
    [Int(2), Str(e), Int(code), Rows(rows)]
  }

  ghost function Free(columns: bool): World {
    World((e, t) => [Origin(e, t)],
          (e, o, c, ks) => [Made(e, o, c, ks, columns)],
          (e, code, rows) => [Asked(e, code, rows)])
  }

  lemma FreeIsLawful(columns: bool)
    ensures Lawful(Free(columns))
  {
    forall e, o: Operator, c, d, ks | !o.outer && Constant(ks)
      ensures Made(e, o, c, ks, columns) == Made(e, o, d, ks, columns)
    {
      assert NotedAll(ks, c, columns) == NotedAll(ks, d, columns);
    }
  }

  // ---------------------------------------------------------------- nothing is lost

  lemma {:induction false} PartsInjective(t: Table, u: Table)
    requires Parts(t) == Parts(u)
    ensures t == u
  {
    if t != [] && u != [] {
      assert Parts(t)[0] == Parts(u)[0] && Parts(t)[1..] == Parts(u)[1..];
      PartsInjective(t[1..], u[1..]);
      assert t == [t[0]] + t[1..] && u == [u[0]] + u[1..];
    }
  }

  lemma OriginInjective(e: Engine, t: Table, f: Engine, u: Table)
    requires [Origin(e, t)] == [Origin(f, u)]
    ensures e == f && t == u
  {
    var a, b := [Origin(e, t)][0], [Origin(f, u)][0];
    assert a == b && a[1] == b[1] && a[2] == b[2];
    PartsInjective(t, u);
  }

  lemma RowsInjective(a: seq<Row>, b: seq<Row>)
    requires Rows(a) == Rows(b)
    ensures a == b
  {
    assert |Rows(a).items| == |a| && |Rows(b).items| == |b|;
    assert forall i :: 0 <= i < |a| ==> Rows(a).items[i] == List(a[i]) && Rows(b).items[i] == List(b[i]);
  }

  lemma ColumnsInjective(a: seq<Column>, b: seq<Column>)
    requires Columns(a) == Columns(b)
    ensures a == b
  {
    assert |Columns(a).items| == |a| && |Columns(b).items| == |b|;
    forall i | 0 <= i < |a| ensures a[i] == b[i] {
      assert Columns(a).items[i] == ColumnValue(a[i]) && Columns(b).items[i] == ColumnValue(b[i]);
      assert ColumnValue(a[i]).items[0] == ColumnValue(b[i]).items[0];
      assert ColumnValue(a[i]).items[1] == ColumnValue(b[i]).items[1];
    }
  }

  lemma NotedInjective(a: Rel, b: Rel, columns: bool)
    requires Noted(a, columns) == Noted(b, columns)
    ensures a.rows == b.rows && (columns ==> a.schema == b.schema)
  {
    assert Noted(a, columns).items[0] == Noted(b, columns).items[0];
    assert Noted(a, columns).items[1] == Noted(b, columns).items[1];
    RowsInjective(a.rows, b.rows);
    if columns { ColumnsInjective(a.schema, b.schema); }
  }

  /** Equal results of an operator come from equal inputs. */
  lemma MadeInjective(e: Engine, o: Operator, c: Outer, ks: seq<imap<Outer, Rel>>, d: Outer, ls: seq<imap<Outer, Rel>>,
                      columns: bool)
    requires |ks| == |ls| && (forall i :: 0 <= i < |ks| ==> c in ks[i] && d in ls[i])
    requires [Made(e, o, c, ks, columns)] == [Made(e, o, d, ls, columns)]
    ensures o.outer ==> c == d
    ensures forall i :: 0 <= i < |ks| ==>
      ks[i][c].rows == ls[i][d].rows && (columns ==> ks[i][c].schema == ls[i][d].schema)
  {
    var a, b := [Made(e, o, c, ks, columns)][0], [Made(e, o, d, ls, columns)][0];
    assert a == b && a[2] == b[2] && a[4] == b[4];
    var x, y := NotedAll(ks, c, columns), NotedAll(ls, d, columns);
    forall i | 0 <= i < |ks|
      ensures ks[i][c].rows == ls[i][d].rows && (columns ==> ks[i][c].schema == ls[i][d].schema)
    {
      assert x[i] == y[i];
      NotedInjective(ks[i][c], ls[i][d], columns);
    }
  }

  lemma AskedInjective(e: Engine, code: int, a: seq<Row>, b: seq<Row>)
    requires [Asked(e, code, a)] == [Asked(e, code, b)]
    ensures a == b
  {
    assert [Asked(e, code, a)][0][3] == [Asked(e, code, b)][0][3];
    RowsInjective(a, b);
  }

  lemma MadeIsNoOrigin(e: Engine, o: Operator, c: Outer, ks: seq<imap<Outer, Rel>>, columns: bool, f: Engine, t: Table)
    ensures [Made(e, o, c, ks, columns)] != [Origin(f, t)]
  {
    var a, b := Made(e, o, c, ks, columns), Origin(f, t);
    assert a[0] != b[0] && [a][0] == a && [b][0] == b;
  }

  lemma AskedIsNoOrigin(e: Engine, code: int, rows: seq<Row>, f: Engine, t: Table)
    ensures [Asked(e, code, rows)] != [Origin(f, t)]
  {
    var a, b := Asked(e, code, rows), Origin(f, t);
    assert a[0] != b[0] && [a][0] == a && [b][0] == b;
  }

  // ---------------------------------------------------------------- plans

  /** Equal results of a node come from equal inputs. */
  lemma NodeInjective(s: Site, o: Operator, cs: seq<Column>, c: Outer, ks: seq<Plan>, d: Outer, ls: seq<Plan>,
      columns: bool)
    requires |ks| == |ls|
    requires Eval(Free(columns), s, Node(o, cs, ks))[c].rows == Eval(Free(columns), s, Node(o, cs, ls))[d].rows
    ensures o.outer ==> c == d
    ensures forall i :: 0 <= i < |ks| ==>
      var r, r' := Eval(Free(columns), s, ks[i])[c], Eval(Free(columns), s, ls[i])[d];
      r.rows == r'.rows && (columns ==> r.schema == r'.schema)
  {
    var w := Free(columns);
    MadeInjective(s.host, o, c, EvalAll(w, s, ks), d, EvalAll(w, s, ls), columns);
  }

  /** Equal rows mean that every leaf was read alike. */
  lemma {:induction false} LeavesReadAlike(s: Site, s': Site, p: Plan)
    requires s.host == s'.host && Eval(Free(false), s, p)[0].rows == Eval(Free(false), s', p)[0].rows
    ensures SameLeaves(s, s', p)
    decreases p, 1
  {
    var w := Free(false);
    assert AnyOuter(0);
    if p.Node? {
      MadeInjective(s.host, p.op, 0, EvalAll(w, s, p.inputs), 0, EvalAll(w, s', p.inputs), false);
      AllLeavesReadAlike(s, s', p.inputs);
    } else if p.Dependent? {
      AskedInjective(p.owner, p.code, Eval(w, s, p.input)[0].rows, Eval(w, s', p.input)[0].rows);
      LeavesReadAlike(s, s', p.input);
    } else if !Leaf(p) {
      LeavesReadAlike(s, s', p.input);
    }
  }

  lemma {:induction false} AllLeavesReadAlike(s: Site, s': Site, ks: seq<Plan>)
    requires s.host == s'.host
    requires forall i :: 0 <= i < |ks| ==> Eval(Free(false), s, ks[i])[0].rows == Eval(Free(false), s', ks[i])[0].rows
    ensures forall t :: t in AllScans(ks) ==> s.table(t) == s'.table(t)
    ensures forall x :: x in AllExchanges(ks) ==> s.exchange(x) == s'.exchange(x)
    decreases ks, 0
  {
    if ks != [] {
      LeavesReadAlike(s, s', ks[0]);
      AllLeavesReadAlike(s, s', ks[1..]);
    }
  }

  /** A plan whose only row names a table reads that row at a leaf. */
  lemma {:induction false} OriginIsLeaf(s: Site, p: Plan, e: Engine, t: Table)
    requires Eval(Free(false), s, p)[0].rows == [Origin(e, t)]
    ensures || (exists u :: u in Scans(p) && s.table(u) == [Origin(e, t)])
            || (exists x :: x in Exchanges(p) && s.exchange(x) == [Origin(e, t)])
  {
    var w := Free(false);
    assert AnyOuter(0);
    if p.Node? {
      MadeIsNoOrigin(s.host, p.op, 0, EvalAll(w, s, p.inputs), false, e, t);
    } else if p.Dependent? {
      AskedIsNoOrigin(p.owner, p.code, Eval(w, s, p.input)[0].rows, e, t);
    } else if p.Scan? {
      assert p.table in Scans(p);
    } else if p.Exchanged? {
      assert p.name in Exchanges(p);
    } else {
      OriginIsLeaf(s, p.input, e, t);
    }
  }
}
