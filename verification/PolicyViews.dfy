/** Policy rewriting of query plans: a scan of a restricted table becomes a scan of its raw
    rows, filtered, then masked, and only then treated as the query asked. */
module PolicyViews {
  import opened Text

  type Cell = Option<int>
  type Row = seq<Cell>
  type Table = string
  /** The outer row that a correlated expression may refer to. */
  type Outer = int

  /** `Refer` is a computation that also looks at an outer row. */
  datatype Expr = Column(index: nat) | Call(code: int) | Refer(code: int) | Cast(inner: Expr, ty: int)

  /** No outer row is looked at. */
  predicate Local(e: Expr) {
    match e
    case Column(_) => true
    case Call(_) => true
    case Refer(_) => false
    case Cast(inner, _) => Local(inner)
  }

  /** Policy texts are bound against their table alone, so they see no outer row. */
  type LocalExpr = e: Expr | Local(e) witness Column(0)

  datatype Plan =
    | Scan(table: Table, filters: seq<Expr>, projection: Option<seq<nat>>, fetch: Option<nat>)
    | Filter(condition: Expr, input: Plan)
    | Project(exprs: seq<Expr>, input: Plan)
    | Limit(count: nat, input: Plan)
    | Aliased(alias: Table, input: Plan)
    | Node(code: int, inputs: seq<Plan>)

  datatype FieldSpec = FieldSpec(name: string, ty: int)
  /** Policy expressions as text; masks by column name. */
  datatype Policy = Policy(rows: seq<string>, masks: map<string, string>)

  /** Arbitrary tables, scalar functions, casts and operators; an operator gets each input as a
      relation per outer row, so it may be a correlated subquery. `bind` and `boolean` say what
      binding a policy text against a table gives and whether the result is boolean. */
  datatype World = World(
    rows: Table -> seq<Row>,
    fields: Table -> seq<FieldSpec>,
    call: (int, Row) -> Cell,
    refer: (int, Outer, Row) -> Cell,
    cast: (int, Cell) -> Cell,
    operate: (int, Outer, seq<imap<Outer, seq<Row>>>) -> seq<Row>,
    bind: (string, Table) -> Option<LocalExpr>,
    boolean: (Expr, Table) -> bool)

  function EvalExpr(w: World, e: Expr, c: Outer, r: Row): Cell {
    match e
    case Column(i) => if i < |r| then r[i] else None
    case Call(f) => w.call(f, r)
    case Refer(f) => w.refer(f, c, r)
    case Cast(inner, ty) => w.cast(ty, EvalExpr(w, inner, c, r))
  }

  /** A row is kept only when the predicate is true, not when it is unknown. */
  predicate Keeps(w: World, e: Expr, c: Outer, r: Row) {
    EvalExpr(w, e, c, r) == Some(1)
  }

  function FilterRows(w: World, e: Expr, c: Outer, rs: seq<Row>): seq<Row> {
    if rs == [] then []
    else (if Keeps(w, e, c, rs[0]) then [rs[0]] else []) + FilterRows(w, e, c, rs[1..])
  }

  function FilterAll(w: World, es: seq<Expr>, c: Outer, rs: seq<Row>): seq<Row> {
    if es == [] then rs else FilterRows(w, es[|es| - 1], c, FilterAll(w, es[..|es| - 1], c, rs))
  }

  function ProjectRow(w: World, es: seq<Expr>, c: Outer, r: Row): Row {
    seq(|es|, i requires 0 <= i < |es| => EvalExpr(w, es[i], c, r))
  }

  function ProjectRows(w: World, es: seq<Expr>, c: Outer, rs: seq<Row>): seq<Row> {
    seq(|rs|, i requires 0 <= i < |rs| => ProjectRow(w, es, c, rs[i]))
  }

  function Columns(ix: seq<nat>): seq<Expr> {
    seq(|ix|, i requires 0 <= i < |ix| => Column(ix[i]))
  }

  function Take(n: nat, rs: seq<Row>): seq<Row> {
    if n <= |rs| then rs[..n] else rs
  }

  function ScanRows(w: World, scan: Plan, c: Outer): seq<Row>
    requires scan.Scan?
  {
    var kept := FilterAll(w, scan.filters, c, w.rows(scan.table));
    var shown := if scan.projection.Some? then ProjectRows(w, Columns(scan.projection.value), c, kept) else kept;
    if scan.fetch.Some? then Take(scan.fetch.value, shown) else shown
  }

  /** The rows of a plan for every outer row. */
  ghost function Eval(w: World, p: Plan): (m: imap<Outer, seq<Row>>)
    ensures forall c :: c in m
  {
    match p
    case Scan(_, _, _, _) => (imap c: Outer :: ScanRows(w, p, c))
    case Filter(e, i) =>
      var r := Eval(w, i);
      (imap c: Outer :: FilterRows(w, e, c, r[c]))
    case Project(es, i) =>
      var r := Eval(w, i);
      (imap c: Outer :: ProjectRows(w, es, c, r[c]))
    case Limit(n, i) =>
      var r := Eval(w, i);
      (imap c: Outer :: Take(n, r[c]))
    case Aliased(_, i) => Eval(w, i)
    case Node(code, ks) =>
      var rs := EvalAll(w, ks);
      (imap c: Outer :: w.operate(code, c, rs))
  }

  ghost function EvalAll(w: World, ks: seq<Plan>): seq<imap<Outer, seq<Row>>> {
    if ks == [] then [] else [Eval(w, ks[0])] + EvalAll(w, ks[1..])
  }

  predicate Restricts(p: Policy) {
    p.rows != [] || p.masks != map[]
  }

  /** The bound row filters, all of them boolean. */
  function BoundFilters(w: World, t: Table, texts: seq<string>): Outcome<seq<Expr>> {
    if texts == [] then Done([])
    else
      match BoundFilters(w, t, texts[..|texts| - 1])
      case Failed => Failed
      case Done(es) =>
        match w.bind(texts[|texts| - 1], t)
        case None => Failed
        case Some(e) => if w.boolean(e, t) then Done(es + [e]) else Failed
  }

  /** The first n output columns: the mask, cast to the column's type, or the column itself. */
  function MaskColumns(w: World, t: Table, masks: map<string, string>, n: nat): Outcome<seq<Expr>>
    requires n <= |w.fields(t)|
  {
    if n == 0 then Done([])
    else
      match MaskColumns(w, t, masks, n - 1)
      case Failed => Failed
      case Done(es) =>
        var f := w.fields(t)[n - 1];
        if f.name in masks then
          match w.bind(masks[f.name], t)
          case None => Failed
          case Some(e) => Done(es + [Cast(e, f.ty)])
        else Done(es + [Column(n - 1)])
  }

  /** The policy view of a table: filter raw rows, then mask what is left. */
  function ViewRows(w: World, t: Table, filters: seq<Expr>, columns: seq<Expr>): seq<Row> {
    ProjectRows(w, columns, 0, FilterAll(w, filters, 0, w.rows(t)))
  }

  predicate Bindable(w: World, t: Table, p: Policy) {
    BoundFilters(w, t, p.rows).Done? && MaskColumns(w, t, p.masks, |w.fields(t)|).Done?
  }

  /** The same world with every restricted table replaced by its view. */
  function WithViews(w: World, decisions: map<Table, Policy>): World {
    w.(rows := t =>
      if t in decisions && Restricts(decisions[t]) && Bindable(w, t, decisions[t]) then
        ViewRows(w, t, BoundFilters(w, t, decisions[t].rows).value,
                 MaskColumns(w, t, decisions[t].masks, |w.fields(t)|).value)
      else w.rows(t))
  }

  function Filtered(es: seq<Expr>, p: Plan): Plan {
    if es == [] then p else Filter(es[|es| - 1], Filtered(es[..|es| - 1], p))
  }

  function Masked(t: Table, filters: seq<Expr>, columns: seq<Expr>): Plan {
    Aliased(t, Project(columns, Filtered(filters, Scan(t, [], None, None))))
  }

  function Shown(scan: Plan, view: Plan): Plan
    requires scan.Scan?
  {
    var shown := if scan.projection.Some? then Project(Columns(scan.projection.value), view) else view;
    if scan.fetch.Some? then Limit(scan.fetch.value, shown) else shown
  }

  function SecuredScan(scan: Plan, filters: seq<Expr>, columns: seq<Expr>): Plan
    requires scan.Scan?
  {
    Shown(scan, Filtered(scan.filters, Masked(scan.table, filters, columns)))
  }

  // ---------------------------------------------------------------- the rewriting

  method BindFilters(w: World, t: Table, texts: seq<string>) returns (r: Outcome<seq<Expr>>)
    ensures r == BoundFilters(w, t, texts)
  {
    var es := [];
    for i := 0 to |texts|
      invariant BoundFilters(w, t, texts[..i]) == Done(es)
    {
      assert texts[..i + 1][..i] == texts[..i];
      var e := w.bind(texts[i], t);
      if e.None? || !w.boolean(e.value, t) {
        FiltersFail(w, t, texts, i + 1);
        return Failed;
      }
      es := es + [e.value];
    }
    assert texts[..|texts|] == texts;
    return Done(es);
  }

  lemma {:induction false} FiltersFail(w: World, t: Table, texts: seq<string>, n: nat)
    requires n <= |texts| && BoundFilters(w, t, texts[..n]).Failed?
    ensures BoundFilters(w, t, texts).Failed?
  {
    if n == |texts| {
      assert texts[..n] == texts;
    } else {
      assert texts[..|texts| - 1][..n] == texts[..n];
      FiltersFail(w, t, texts[..|texts| - 1], n);
    }
  }

  method BindMasks(w: World, t: Table, masks: map<string, string>) returns (r: Outcome<seq<Expr>>)
    ensures r == MaskColumns(w, t, masks, |w.fields(t)|)
  {
    var es := [];
    for i := 0 to |w.fields(t)|
      invariant MaskColumns(w, t, masks, i) == Done(es)
    {
      var f := w.fields(t)[i];
      if f.name in masks {
        var e := w.bind(masks[f.name], t);
        if e.None? {
          MasksFail(w, t, masks, i + 1, |w.fields(t)|);
          return Failed;
        }
        es := es + [Cast(e.value, f.ty)];
      } else {
        es := es + [Column(i)];
      }
    }
    return Done(es);
  }

  lemma {:induction false} MasksFail(w: World, t: Table, masks: map<string, string>, n: nat, m: nat)
    requires n <= m <= |w.fields(t)| && MaskColumns(w, t, masks, n).Failed?
    ensures MaskColumns(w, t, masks, m).Failed?
  {
    if n < m { MasksFail(w, t, masks, n, m - 1); }
  }

  /** Secures one scan: fails exactly when the policy of its table does not bind; otherwise the new
      plan returns over the raw table what the scan returns over the policy view. */
  method SecureScan(w: World, decisions: map<Table, Policy>, scan: Plan) returns (r: Outcome<Plan>)
    requires scan.Scan?
    ensures r == Secured(w, decisions, scan)
    ensures r.Done? <==>
      scan.table in decisions && Restricts(decisions[scan.table]) ==> CanBind(w, scan.table, decisions[scan.table])
    ensures r.Done? ==> forall v :: PolicyWorld(w, decisions, v) ==> Eval(w, r.value) == Eval(v, scan)
  {
    if scan.table in decisions { BindableExactly(w, scan.table, decisions[scan.table]); }
    forall v | PolicyWorld(w, decisions, v) && Secured(w, decisions, scan).Done?
      ensures Eval(w, Secured(w, decisions, scan).value) == Eval(v, scan)
    {
      ScanMeaning(w, v, decisions, scan);
    }
    if scan.table !in decisions || !Restricts(decisions[scan.table]) {
      return Done(scan);
    }
    var policy := decisions[scan.table];
    var filters := BindFilters(w, scan.table, policy.rows);
    if filters.Failed? {
      return Failed;
    }
    var columns := BindMasks(w, scan.table, policy.masks);
    if columns.Failed? {
      return Failed;
    }
    return Done(SecuredScan(scan, filters.value, columns.value));
  }

  function Secured(w: World, decisions: map<Table, Policy>, scan: Plan): Outcome<Plan>
    requires scan.Scan?
  {
    if scan.table !in decisions || !Restricts(decisions[scan.table]) then Done(scan)
    else
      match BoundFilters(w, scan.table, decisions[scan.table].rows)
      case Failed => Failed
      case Done(filters) =>
        match MaskColumns(w, scan.table, decisions[scan.table].masks, |w.fields(scan.table)|)
        case Failed => Failed
        case Done(columns) => Done(SecuredScan(scan, filters, columns))
  }

  /** Rewrites every scan of the plan, bottom up. */
  function Apply(w: World, decisions: map<Table, Policy>, p: Plan): Outcome<Plan> {
    match p
    case Scan(_, _, _, _) => Secured(w, decisions, p)
    case Filter(e, i) => (match Apply(w, decisions, i) case Failed => Failed case Done(q) => Done(Filter(e, q)))
    case Project(es, i) => (match Apply(w, decisions, i) case Failed => Failed case Done(q) => Done(Project(es, q)))
    case Limit(n, i) => (match Apply(w, decisions, i) case Failed => Failed case Done(q) => Done(Limit(n, q)))
    case Aliased(a, i) => (match Apply(w, decisions, i) case Failed => Failed case Done(q) => Done(Aliased(a, q)))
    case Node(c, ks) => (match ApplyAll(w, decisions, ks) case Failed => Failed case Done(qs) => Done(Node(c, qs)))
  }

  function ApplyAll(w: World, decisions: map<Table, Policy>, ks: seq<Plan>): Outcome<seq<Plan>> {
    if ks == [] then Done([])
    else
      match Apply(w, decisions, ks[0])
      case Failed => Failed
      case Done(q) =>
        match ApplyAll(w, decisions, ks[1..])
        case Failed => Failed
        case Done(qs) => Done([q] + qs)
  }

  // ---------------------------------------------------------------- what a view shows

  /** The policy keeps a raw row: every filter text, bound to the table, is true of it. */
  predicate Passes(w: World, t: Table, p: Policy, raw: Row) {
    forall k :: 0 <= k < |p.rows| ==>
      w.bind(p.rows[k], t).Some? && EvalExpr(w, w.bind(p.rows[k], t).value, 0, raw) == Some(1)
  }

  /** What a row of the view shows of a raw row: in a masked column the value of the mask, bound to the
      table and cast to the column's type, in any other column the raw cell. */
  predicate Shows(w: World, t: Table, p: Policy, raw: Row, shown: Row) {
    && |shown| == |w.fields(t)|
    && forall i :: 0 <= i < |shown| ==>
         var f := w.fields(t)[i];
         if f.name in p.masks then
           && w.bind(p.masks[f.name], t).Some?
           && shown[i] == w.cast(f.ty, EvalExpr(w, w.bind(p.masks[f.name], t).value, 0, raw))
         else shown[i] == if i < |raw| then raw[i] else None
  }

  /** The view has one row for each raw row that the policy keeps, in the same order. */
  predicate IsView(w: World, t: Table, p: Policy, raw: seq<Row>, view: seq<Row>) {
    if raw == [] then view == []
    else if Passes(w, t, p, raw[0]) then
      view != [] && Shows(w, t, p, raw[0], view[0]) && IsView(w, t, p, raw[1..], view[1..])
    else IsView(w, t, p, raw[1..], view)
  }

  /** The policy can be bound: its filters to boolean expressions, the masks of existing columns to any. */
  predicate CanBind(w: World, t: Table, p: Policy) {
    && (forall k :: 0 <= k < |p.rows| ==>
          w.bind(p.rows[k], t).Some? && w.boolean(w.bind(p.rows[k], t).value, t))
    && (forall i :: 0 <= i < |w.fields(t)| && w.fields(t)[i].name in p.masks ==>
          w.bind(p.masks[w.fields(t)[i].name], t).Some?)
  }

  lemma {:induction false} FiltersBound(w: World, t: Table, texts: seq<string>)
    ensures BoundFilters(w, t, texts).Done? <==>
      forall k :: 0 <= k < |texts| ==> w.bind(texts[k], t).Some? && w.boolean(w.bind(texts[k], t).value, t)
    ensures BoundFilters(w, t, texts).Done? ==>
      var es := BoundFilters(w, t, texts).value;
      |es| == |texts| && forall k :: 0 <= k < |texts| ==> es[k] == w.bind(texts[k], t).value
  {
    if texts != [] {
      var n := |texts| - 1;
      FiltersBound(w, t, texts[..n]);
      assert forall k :: 0 <= k < n ==> texts[..n][k] == texts[k];
    }
  }

  lemma {:induction false} MasksBound(w: World, t: Table, masks: map<string, string>, n: nat)
    requires n <= |w.fields(t)|
    ensures MaskColumns(w, t, masks, n).Done? <==>
      forall i :: 0 <= i < n && w.fields(t)[i].name in masks ==> w.bind(masks[w.fields(t)[i].name], t).Some?
    ensures MaskColumns(w, t, masks, n).Done? ==>
      var es := MaskColumns(w, t, masks, n).value;
      |es| == n && forall i :: 0 <= i < n ==>
        var f := w.fields(t)[i];
        es[i] == if f.name in masks then Cast(w.bind(masks[f.name], t).value, f.ty) else Column(i)
  {
    if n > 0 { MasksBound(w, t, masks, n - 1); }
  }

  /** A policy binds exactly when each of its filters and masks does. */
  lemma BindableExactly(w: World, t: Table, p: Policy)
    ensures Bindable(w, t, p) <==> CanBind(w, t, p)
  {
    FiltersBound(w, t, p.rows);
    MasksBound(w, t, p.masks, |w.fields(t)|);
  }

  lemma {:induction false} FilterAllKeeps(w: World, es: seq<Expr>, c: Outer, rs: seq<Row>)
    requires rs != []
    ensures FilterAll(w, es, c, rs) ==
      (if forall k :: 0 <= k < |es| ==> Keeps(w, es[k], c, rs[0]) then [rs[0]] else []) + FilterAll(w, es, c, rs[1..])
  {
    if es != [] {
      var n := |es| - 1;
      FilterAllKeeps(w, es[..n], c, rs);
      assert forall k :: 0 <= k < n ==> es[..n][k] == es[k];
      var rest := FilterAll(w, es[..n], c, rs[1..]);
      assert ([rs[0]] + rest)[1..] == rest;
      assert [] + rest == rest;
    } else {
      assert [rs[0]] + rs[1..] == rs;
    }
  }

  lemma {:induction false} FilterAllNone(w: World, es: seq<Expr>, c: Outer)
    ensures FilterAll(w, es, c, []) == []
  {
    if es != [] { FilterAllNone(w, es[..|es| - 1], c); }
  }

  /** Filtering and masking rows gives the view of them. */
  lemma {:induction false} RowsAreView(w: World, t: Table, p: Policy, raw: seq<Row>)
    requires Bindable(w, t, p)
    ensures
      var filters, columns := BoundFilters(w, t, p.rows).value, MaskColumns(w, t, p.masks, |w.fields(t)|).value;
      IsView(w, t, p, raw, ProjectRows(w, columns, 0, FilterAll(w, filters, 0, raw)))
  {
    var filters, columns := BoundFilters(w, t, p.rows).value, MaskColumns(w, t, p.masks, |w.fields(t)|).value;
    if raw == [] {
      FilterAllNone(w, filters, 0);
    } else {
      RowsAreView(w, t, p, raw[1..]);
      FilterAllKeeps(w, filters, 0, raw);
      FiltersBound(w, t, p.rows);
      MasksBound(w, t, p.masks, |w.fields(t)|);
      var rest := FilterAll(w, filters, 0, raw[1..]);
      assert Passes(w, t, p, raw[0]) <==> forall k :: 0 <= k < |filters| ==> Keeps(w, filters[k], 0, raw[0]);
      if Passes(w, t, p, raw[0]) {
        assert ProjectRows(w, columns, 0, [raw[0]] + rest)[1..] == ProjectRows(w, columns, 0, rest);
        assert Shows(w, t, p, raw[0], ProjectRow(w, columns, 0, raw[0]));
      } else {
        assert [] + rest == rest;
      }
    }
  }

  /** A world in which every table that a policy restricts is its policy view and all else is the same. */
  ghost predicate PolicyWorld(w: World, decisions: map<Table, Policy>, v: World) {
    && SameFunctions(w, v)
    && forall t ::
         if t in decisions && (decisions[t].rows != [] || decisions[t].masks != map[]) then
           CanBind(w, t, decisions[t]) ==> IsView(w, t, decisions[t], w.rows(t), v.rows(t))
         else v.rows(t) == w.rows(t)
  }

  lemma {:induction false} ViewIsUnique(w: World, t: Table, p: Policy, raw: seq<Row>, one: seq<Row>, two: seq<Row>)
    requires IsView(w, t, p, raw, one) && IsView(w, t, p, raw, two)
    ensures one == two
  {
    if raw != [] {
      if Passes(w, t, p, raw[0]) {
        ViewIsUnique(w, t, p, raw[1..], one[1..], two[1..]);
        assert one[0] == two[0];
        assert one == [one[0]] + one[1..] && two == [two[0]] + two[1..];
      } else {
        ViewIsUnique(w, t, p, raw[1..], one, two);
      }
    }
  }

  /** The view that rewriting is proved against is the policy view. */
  lemma WithViewsIsPolicyWorld(w: World, decisions: map<Table, Policy>)
    ensures PolicyWorld(w, decisions, WithViews(w, decisions))
  {
    forall t | t in decisions && Restricts(decisions[t]) && CanBind(w, t, decisions[t])
      ensures IsView(w, t, decisions[t], w.rows(t), WithViews(w, decisions).rows(t))
    {
      BindableExactly(w, t, decisions[t]);
      RowsAreView(w, t, decisions[t], w.rows(t));
    }
  }

  // ---------------------------------------------------------------- meaning

  predicate AllLocal(es: seq<Expr>) {
    forall i :: 0 <= i < |es| ==> Local(es[i])
  }

  lemma {:induction false} FiltersLocal(w: World, t: Table, texts: seq<string>)
    requires BoundFilters(w, t, texts).Done?
    ensures AllLocal(BoundFilters(w, t, texts).value)
  {
    if texts != [] { FiltersLocal(w, t, texts[..|texts| - 1]); }
  }

  lemma {:induction false} MasksLocal(w: World, t: Table, masks: map<string, string>, n: nat)
    requires n <= |w.fields(t)| && MaskColumns(w, t, masks, n).Done?
    ensures AllLocal(MaskColumns(w, t, masks, n).value)
  {
    if n > 0 { MasksLocal(w, t, masks, n - 1); }
  }

  lemma {:induction false} LocalValue(w: World, e: Expr, c: Outer, d: Outer, r: Row)
    requires Local(e)
    ensures EvalExpr(w, e, c, r) == EvalExpr(w, e, d, r)
  {
    if e.Cast? { LocalValue(w, e.inner, c, d, r); }
  }

  lemma {:induction false} LocalFilter(w: World, e: Expr, c: Outer, d: Outer, rs: seq<Row>)
    requires Local(e)
    ensures FilterRows(w, e, c, rs) == FilterRows(w, e, d, rs)
  {
    if rs != [] {
      LocalValue(w, e, c, d, rs[0]);
      LocalFilter(w, e, c, d, rs[1..]);
    }
  }

  lemma {:induction false} LocalFilters(w: World, es: seq<Expr>, c: Outer, d: Outer, rs: seq<Row>)
    requires AllLocal(es)
    ensures FilterAll(w, es, c, rs) == FilterAll(w, es, d, rs)
  {
    if es != [] {
      LocalFilters(w, es[..|es| - 1], c, d, rs);
      LocalFilter(w, es[|es| - 1], c, d, FilterAll(w, es[..|es| - 1], c, rs));
    }
  }

  lemma LocalProjection(w: World, es: seq<Expr>, c: Outer, d: Outer, rs: seq<Row>)
    requires AllLocal(es)
    ensures ProjectRows(w, es, c, rs) == ProjectRows(w, es, d, rs)
  {
    forall i | 0 <= i < |rs| ensures ProjectRow(w, es, c, rs[i]) == ProjectRow(w, es, d, rs[i]) {
      forall j | 0 <= j < |es| ensures EvalExpr(w, es[j], c, rs[i]) == EvalExpr(w, es[j], d, rs[i]) {
        LocalValue(w, es[j], c, d, rs[i]);
      }
    }
  }

  /** Views change which rows tables hold and nothing else. */
  ghost predicate SameFunctions(w: World, v: World) {
    w.call == v.call && w.refer == v.refer && w.cast == v.cast && w.operate == v.operate
  }

  lemma {:induction false} SameExpr(w: World, v: World, e: Expr, c: Outer, r: Row)
    requires SameFunctions(w, v)
    ensures EvalExpr(w, e, c, r) == EvalExpr(v, e, c, r)
  {
    if e.Cast? { SameExpr(w, v, e.inner, c, r); }
  }

  lemma {:induction false} SameFilter(w: World, v: World, e: Expr, c: Outer, rs: seq<Row>)
    requires SameFunctions(w, v)
    ensures FilterRows(w, e, c, rs) == FilterRows(v, e, c, rs)
  {
    if rs != [] {
      SameExpr(w, v, e, c, rs[0]);
      SameFilter(w, v, e, c, rs[1..]);
    }
  }

  lemma {:induction false} SameFilters(w: World, v: World, es: seq<Expr>, c: Outer, rs: seq<Row>)
    requires SameFunctions(w, v)
    ensures FilterAll(w, es, c, rs) == FilterAll(v, es, c, rs)
  {
    if es != [] {
      SameFilters(w, v, es[..|es| - 1], c, rs);
      SameFilter(w, v, es[|es| - 1], c, FilterAll(w, es[..|es| - 1], c, rs));
    }
  }

  lemma SameProjection(w: World, v: World, es: seq<Expr>, c: Outer, rs: seq<Row>)
    requires SameFunctions(w, v)
    ensures ProjectRows(w, es, c, rs) == ProjectRows(v, es, c, rs)
  {
    forall i | 0 <= i < |rs| ensures ProjectRow(w, es, c, rs[i]) == ProjectRow(v, es, c, rs[i]) {
      forall j | 0 <= j < |es| ensures EvalExpr(w, es[j], c, rs[i]) == EvalExpr(v, es[j], c, rs[i]) {
        SameExpr(w, v, es[j], c, rs[i]);
      }
    }
  }

  lemma {:induction false} EvalFiltered(w: World, es: seq<Expr>, p: Plan, c: Outer)
    ensures Eval(w, Filtered(es, p))[c] == FilterAll(w, es, c, Eval(w, p)[c])
  {
    if es != [] { EvalFiltered(w, es[..|es| - 1], p, c); }
  }

  /** Filtering and masking the bare scan gives the view, for every outer row. */
  lemma MaskedIsView(w: World, t: Table, filters: seq<Expr>, columns: seq<Expr>, c: Outer)
    requires AllLocal(filters) && AllLocal(columns)
    ensures Eval(w, Masked(t, filters, columns))[c] == ViewRows(w, t, filters, columns)
  {
    var bare := Scan(t, [], None, None);
    EvalScan(w, bare, c);
    EvalFiltered(w, filters, bare, c);
    LocalFilters(w, filters, c, 0, w.rows(t));
    LocalProjection(w, columns, c, 0, FilterAll(w, filters, 0, w.rows(t)));
    EvalProject(w, columns, Filtered(filters, bare), c);
  }

  /** The secured scan over raw rows is the original scan over the view. */
  lemma SecuredScanMeaning(w: World, v: World, scan: Plan, filters: seq<Expr>, columns: seq<Expr>, c: Outer)
    requires scan.Scan? && SameFunctions(w, v) && AllLocal(filters) && AllLocal(columns)
    requires v.rows(scan.table) == ViewRows(w, scan.table, filters, columns)
    ensures Eval(w, SecuredScan(scan, filters, columns))[c] == Eval(v, scan)[c]
  {
    var masked := Masked(scan.table, filters, columns);
    MaskedIsView(w, scan.table, filters, columns, c);
    EvalFiltered(w, scan.filters, masked, c);
    SameFilters(w, v, scan.filters, c, v.rows(scan.table));
    var kept := FilterAll(v, scan.filters, c, v.rows(scan.table));
    assert Eval(w, Filtered(scan.filters, masked))[c] == kept;
    ShownAlike(w, v, scan, Filtered(scan.filters, masked), c);
  }

  /** A scan's projection and fetch, as plan nodes, do what they do inside the scan. */
  lemma ShownAlike(w: World, v: World, scan: Plan, view: Plan, c: Outer)
    requires scan.Scan? && SameFunctions(w, v)
    requires Eval(w, view)[c] == FilterAll(v, scan.filters, c, v.rows(scan.table))
    ensures Eval(w, Shown(scan, view))[c] == Eval(v, scan)[c]
  {
    EvalScan(v, scan, c);
    var kept := Eval(w, view)[c];
    var shown, rows := view, kept;
    if scan.projection.Some? {
      var columns := Columns(scan.projection.value);
      SameProjection(w, v, columns, c, kept);
      EvalProject(w, columns, view, c);
      shown, rows := Project(columns, view), ProjectRows(v, columns, c, kept);
    }
    assert Eval(w, shown)[c] == rows;
    if scan.fetch.Some? { EvalLimit(w, scan.fetch.value, shown, c); }
  }

  lemma EvalScan(w: World, scan: Plan, c: Outer)
    requires scan.Scan?
    ensures Eval(w, scan)[c] == ScanRows(w, scan, c)
  {
  }

  lemma EvalProject(w: World, es: seq<Expr>, p: Plan, c: Outer)
    ensures Eval(w, Project(es, p))[c] == ProjectRows(w, es, c, Eval(w, p)[c])
  {
  }

  lemma EvalLimit(w: World, n: nat, p: Plan, c: Outer)
    ensures Eval(w, Limit(n, p))[c] == Take(n, Eval(w, p)[c])
  {
  }

  /** The same for a scan whose table may or may not be restricted. */
  lemma ScanMeaning(w: World, v: World, decisions: map<Table, Policy>, scan: Plan)
    requires scan.Scan? && PolicyWorld(w, decisions, v) && Secured(w, decisions, scan).Done?
    ensures Eval(w, Secured(w, decisions, scan).value) == Eval(v, scan)
  {
    var m, m' := Eval(w, Secured(w, decisions, scan).value), Eval(v, scan);
    forall c: Outer ensures m[c] == m'[c] { ScanMeaningAt(w, v, decisions, scan, c); }
  }

  lemma ScanMeaningAt(w: World, v: World, decisions: map<Table, Policy>, scan: Plan, c: Outer)
    requires scan.Scan? && PolicyWorld(w, decisions, v) && Secured(w, decisions, scan).Done?
    ensures Eval(w, Secured(w, decisions, scan).value)[c] == Eval(v, scan)[c]
  {
    var t := scan.table;
    if t in decisions && Restricts(decisions[t]) {
      FiltersLocal(w, t, decisions[t].rows);
      MasksLocal(w, t, decisions[t].masks, |w.fields(t)|);
      RowsAreTheView(w, v, decisions, t);
      SecuredScanMeaning(w, v, scan, BoundFilters(w, t, decisions[t].rows).value,
                         MaskColumns(w, t, decisions[t].masks, |w.fields(t)|).value, c);
    } else {
      SameFilters(w, v, scan.filters, c, w.rows(t));
      if scan.projection.Some? {
        SameProjection(w, v, Columns(scan.projection.value), c, FilterAll(w, scan.filters, c, w.rows(t)));
      }
    }
  }

  lemma RowsAreTheView(w: World, v: World, decisions: map<Table, Policy>, t: Table)
    requires PolicyWorld(w, decisions, v) && t in decisions && Restricts(decisions[t]) && Bindable(w, t, decisions[t])
    ensures v.rows(t) == ViewRows(w, t, BoundFilters(w, t, decisions[t].rows).value,
                                  MaskColumns(w, t, decisions[t].masks, |w.fields(t)|).value)
  {
    BindableExactly(w, t, decisions[t]);
    RowsAreView(w, t, decisions[t], w.rows(t));
    ViewIsUnique(w, t, decisions[t], w.rows(t), v.rows(t),
                 ViewRows(w, t, BoundFilters(w, t, decisions[t].rows).value,
                          MaskColumns(w, t, decisions[t].masks, |w.fields(t)|).value));
  }

  /** Policy rewriting equals policy views: the rewritten plan over raw tables returns exactly
      what the original returns over the views, scan filters, projection and fetch included. */
  lemma {:induction false} ApplyMeaning(w: World, v: World, decisions: map<Table, Policy>, p: Plan)
    requires PolicyWorld(w, decisions, v) && Apply(w, decisions, p).Done?
    ensures Eval(w, Apply(w, decisions, p).value) == Eval(v, p)
    decreases p, 1
  {
    var m, m' := Eval(w, Apply(w, decisions, p).value), Eval(v, p);
    match p
    case Scan(_, _, _, _) => ScanMeaning(w, v, decisions, p);
    case Filter(e, i) =>
      ApplyMeaning(w, v, decisions, i);
      forall c: Outer ensures m[c] == m'[c] { SameFilter(w, v, e, c, Eval(v, i)[c]); }
    case Project(es, i) =>
      ApplyMeaning(w, v, decisions, i);
      forall c: Outer ensures m[c] == m'[c] { SameProjection(w, v, es, c, Eval(v, i)[c]); }
    case Limit(_, i) => ApplyMeaning(w, v, decisions, i);
    case Aliased(_, i) => ApplyMeaning(w, v, decisions, i);
    case Node(_, ks) => ApplyAllMeaning(w, v, decisions, ks);
  }

  lemma {:induction false} ApplyAllMeaning(w: World, v: World, decisions: map<Table, Policy>, ks: seq<Plan>)
    requires PolicyWorld(w, decisions, v) && ApplyAll(w, decisions, ks).Done?
    ensures EvalAll(w, ApplyAll(w, decisions, ks).value) == EvalAll(v, ks)
    decreases ks, 0
  {
    if ks != [] {
      ApplyMeaning(w, v, decisions, ks[0]);
      ApplyAllMeaning(w, v, decisions, ks[1..]);
      var q := Apply(w, decisions, ks[0]).value;
      var qs := ApplyAll(w, decisions, ks[1..]).value;
      assert ([q] + qs)[1..] == qs;
    }
  }

  /** Every policy that a scan of the plan is subject to can be bound. */
  predicate AllBindable(w: World, decisions: map<Table, Policy>, p: Plan) {
    match p
    case Scan(t, _, _, _) =>
      t in decisions && (decisions[t].rows != [] || decisions[t].masks != map[]) ==> CanBind(w, t, decisions[t])
    case Node(_, ks) => forall k :: k in ks ==> AllBindable(w, decisions, k)
    case Filter(_, i) => AllBindable(w, decisions, i)
    case Project(_, i) => AllBindable(w, decisions, i)
    case Limit(_, i) => AllBindable(w, decisions, i)
    case Aliased(_, i) => AllBindable(w, decisions, i)
  }

  /** A query is refused exactly when a policy of a scanned table cannot be bound. */
  lemma {:induction false} RefusedExactly(w: World, decisions: map<Table, Policy>, p: Plan)
    ensures Apply(w, decisions, p).Done? <==> AllBindable(w, decisions, p)
    decreases p, 1
  {
    if p.Node? {
      AllRefusedExactly(w, decisions, p.inputs);
    } else if !p.Scan? {
      RefusedExactly(w, decisions, p.input);
    } else if p.table in decisions {
      BindableExactly(w, p.table, decisions[p.table]);
    }
  }

  lemma {:induction false} AllRefusedExactly(w: World, decisions: map<Table, Policy>, ks: seq<Plan>)
    ensures ApplyAll(w, decisions, ks).Done? <==> forall k :: k in ks ==> AllBindable(w, decisions, k)
    decreases ks, 0
  {
    if ks != [] {
      RefusedExactly(w, decisions, ks[0]);
      AllRefusedExactly(w, decisions, ks[1..]);
      assert forall k :: k in ks <==> k == ks[0] || k in ks[1..];
    }
  }
}
