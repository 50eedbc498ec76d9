/** Binding several completed inputs to one statement: an input whose column types and
    batches equal those of an earlier input selects from it instead of repeating rows. */
module SharedInputs {
  import opened Text

  type Cell = Option<int>
  datatype RawBatch = RawBatch(width: nat, rows: seq<seq<Cell>>)
  type Batch = b: RawBatch | forall r :: r in b.rows ==> |r| == b.width witness RawBatch(0, [])
  datatype Spec = Spec(ty: string, nullable: bool)
  datatype Input = Input(name: string, columns: seq<Spec>, batches: seq<Batch>)
  datatype Cte = Values(name: string, rows: seq<seq<Cell>>) | Copy(name: string, from: string)
  type Convert = (Cell, string) -> Outcome<Cell>

  /** Exchange conversion never turns NULL into a value or a value into NULL. */
  ghost predicate NullFaithful(convert: Convert) {
    forall c, ty :: convert(c, ty).Done? ==> (convert(c, ty).value.None? <==> c.None?)
  }

  function BoundRow(convert: Convert, columns: seq<Spec>, row: seq<Cell>): (r: Outcome<seq<Cell>>)
    requires |columns| == |row|
  {
    if row == [] then Done([])
    else
      match convert(row[0], columns[0].ty)
      case Failed => Failed
      case Done(c) =>
        if c.None? && !columns[0].nullable then Failed
        else
          match BoundRow(convert, columns[1..], row[1..])
          case Failed => Failed
          case Done(rest) => Done([c] + rest)
  }

  function BoundRows(convert: Convert, columns: seq<Spec>, rows: seq<seq<Cell>>): Outcome<seq<seq<Cell>>>
    requires forall r :: r in rows ==> |r| == |columns|
  {
    if rows == [] then Done([])
    else
      match BoundRow(convert, columns, rows[0])
      case Failed => Failed
      case Done(r) =>
        match BoundRows(convert, columns, rows[1..])
        case Failed => Failed
        case Done(rest) => Done([r] + rest)
  }

  function BoundBatches(convert: Convert, columns: seq<Spec>, batches: seq<Batch>): Outcome<seq<seq<Cell>>>
  {
    if batches == [] then Done([])
    else if batches[0].width != |columns| then Failed
    else
      match BoundRows(convert, columns, batches[0].rows)
      case Failed => Failed
      case Done(rows) =>
        match BoundBatches(convert, columns, batches[1..])
        case Failed => Failed
        case Done(rest) => Done(rows + rest)
  }

  /** The relation an input gets when it is bound on its own. */
  function Separate(convert: Convert, x: Input): Outcome<seq<seq<Cell>>>
  {
    if x.columns == [] then Failed else BoundBatches(convert, x.columns, x.batches)
  }

  /** The row with every cell converted to the type of its column; NULL only where that is allowed. */
  predicate RowConverts(convert: Convert, columns: seq<Spec>, row: seq<Cell>, r: seq<Cell>) {
    && |r| == |row| == |columns|
    && forall j :: 0 <= j < |r| ==> convert(row[j], columns[j].ty) == Done(r[j]) && (r[j].Some? || columns[j].nullable)
  }

  predicate RowsConvert(convert: Convert, columns: seq<Spec>, rows: seq<seq<Cell>>, r: seq<seq<Cell>>) {
    |r| == |rows| && forall i :: 0 <= i < |r| ==> RowConverts(convert, columns, rows[i], r[i])
  }

  function AllRows(batches: seq<Batch>): seq<seq<Cell>> {
    if batches == [] then [] else batches[0].rows + AllRows(batches[1..])
  }

  lemma {:induction false} RowExactly(convert: Convert, columns: seq<Spec>, row: seq<Cell>, r: seq<Cell>)
    requires |columns| == |row|
    ensures BoundRow(convert, columns, row) == Done(r) <==> RowConverts(convert, columns, row, r)
  {
    if row != [] {
      if r == [] {
        assert !RowConverts(convert, columns, row, r);
      } else {
        RowExactly(convert, columns[1..], row[1..], r[1..]);
        assert r == [r[0]] + r[1..];
        assert RowConverts(convert, columns, row, r) <==>
          && convert(row[0], columns[0].ty) == Done(r[0]) && (r[0].Some? || columns[0].nullable)
          && RowConverts(convert, columns[1..], row[1..], r[1..])
        by {
          RowConvertsCons(convert, columns, row, r);
        }
      }
    }
  }

  lemma RowConvertsCons(convert: Convert, columns: seq<Spec>, row: seq<Cell>, r: seq<Cell>)
    requires row != [] && r != [] && columns != []
    ensures RowConverts(convert, columns, row, r) <==>
      && convert(row[0], columns[0].ty) == Done(r[0]) && (r[0].Some? || columns[0].nullable)
      && RowConverts(convert, columns[1..], row[1..], r[1..])
  {
    if RowConverts(convert, columns[1..], row[1..], r[1..]) {
      forall j | 1 <= j < |r|
        ensures RowConverts(convert, columns[1..], row[1..], r[1..]) ==>
          convert(row[j], columns[j].ty) == Done(r[j]) && (r[j].Some? || columns[j].nullable)
      {
        assert row[j] == row[1..][j - 1] && columns[j] == columns[1..][j - 1] && r[j] == r[1..][j - 1];
      }
    }
  }

  lemma {:induction false} RowsExactly(convert: Convert, columns: seq<Spec>, rows: seq<seq<Cell>>, r: seq<seq<Cell>>)
    requires forall x :: x in rows ==> |x| == |columns|
    ensures BoundRows(convert, columns, rows) == Done(r) <==> RowsConvert(convert, columns, rows, r)
  {
    if rows != [] && r != [] {
      RowExactly(convert, columns, rows[0], r[0]);
      RowsExactly(convert, columns, rows[1..], r[1..]);
      assert r == [r[0]] + r[1..];
      RowsConvertSplit(convert, columns, [rows[0]], rows[1..], [r[0]], r[1..]);
      assert rows == [rows[0]] + rows[1..];
      var head := BoundRow(convert, columns, rows[0]);
      if head.Done? { RowExactly(convert, columns, rows[0], head.value); }
    }
  }

  lemma RowsConvertSplit(convert: Convert, columns: seq<Spec>, a: seq<seq<Cell>>, b: seq<seq<Cell>>,
      r: seq<seq<Cell>>, s: seq<seq<Cell>>)
    requires |a| == |r|
    ensures RowsConvert(convert, columns, a + b, r + s) <==>
      RowsConvert(convert, columns, a, r) && RowsConvert(convert, columns, b, s)
  {
    if RowsConvert(convert, columns, a + b, r + s) {
      forall i | 0 <= i < |r| ensures RowConverts(convert, columns, a[i], r[i]) {
        assert (a + b)[i] == a[i] && (r + s)[i] == r[i];
      }
      forall i | 0 <= i < |s| ensures RowConverts(convert, columns, b[i], s[i]) {
        assert (a + b)[|a| + i] == b[i] && (r + s)[|r| + i] == s[i];
      }
    }
  }

  lemma {:induction false} BatchesExactly(convert: Convert, columns: seq<Spec>, batches: seq<Batch>, r: seq<seq<Cell>>)
    ensures BoundBatches(convert, columns, batches) == Done(r) <==>
      (forall b :: b in batches ==> b.width == |columns|) && RowsConvert(convert, columns, AllRows(batches), r)
  {
    if batches != [] {
      var rows, rest := batches[0].rows, batches[1..];
      assert forall b :: b in batches <==> b == batches[0] || b in rest;
      if batches[0].width == |columns| && |rows| <= |r| {
        var n := |rows|;
        RowsExactly(convert, columns, rows, r[..n]);
        BatchesExactly(convert, columns, rest, r[n..]);
        assert r == r[..n] + r[n..];
        RowsConvertSplit(convert, columns, rows, AllRows(rest), r[..n], r[n..]);
      }
      if batches[0].width == |columns| {
        var head, tail := BoundRows(convert, columns, rows), BoundBatches(convert, columns, rest);
        if head.Done? { RowsExactly(convert, columns, rows, head.value); }
        if head.Done? && tail.Done? && r == head.value + tail.value {
          assert r[..|rows|] == head.value && r[|rows|..] == tail.value;
        }
      }
    }
  }

  /** An input can be bound exactly when it has columns, its batches have as many, and every cell converts
      to the type of its column, NULL only where that is allowed; it gets the converted rows in order. */
  lemma SeparateExactly(convert: Convert, x: Input, r: seq<seq<Cell>>)
    ensures Separate(convert, x) == Done(r) <==>
      && x.columns != [] && (forall b :: b in x.batches ==> b.width == |x.columns|)
      && RowsConvert(convert, x.columns, AllRows(x.batches), r)
  {
    BatchesExactly(convert, x.columns, x.batches, r);
  }

  predicate SameTypes(a: seq<Spec>, b: seq<Spec>) {
    |a| == |b| && forall i :: 0 <= i < |a| ==> a[i].ty == b[i].ty
  }

  predicate RowAdmits(columns: seq<Spec>, row: seq<Cell>) {
    forall i :: 0 <= i < |row| && i < |columns| && row[i].None? ==> columns[i].nullable
  }

  predicate NullsAllowed(x: Input) {
    forall b, r :: b in x.batches && r in b.rows ==> RowAdmits(x.columns, r)
  }

  lemma {:induction false} RowShared(convert: Convert, a: seq<Spec>, b: seq<Spec>, row: seq<Cell>)
    requires NullFaithful(convert) && SameTypes(a, b) && |a| == |row| && BoundRow(convert, a, row).Done?
    ensures BoundRow(convert, b, row).Done? <==> RowAdmits(b, row)
    ensures BoundRow(convert, b, row).Done? ==> BoundRow(convert, b, row) == BoundRow(convert, a, row)
  {
    if row != [] {
      RowShared(convert, a[1..], b[1..], row[1..]);
      assert RowAdmits(b, row) <==> (row[0].None? ==> b[0].nullable) && RowAdmits(b[1..], row[1..]) by {
        assert forall i :: 0 <= i < |row| - 1 ==> row[1..][i] == row[i + 1] && b[1..][i] == b[i + 1];
        assert forall i :: 1 <= i < |row| ==> row[i] == row[1..][i - 1] && b[i] == b[1..][i - 1];
      }
    }
  }

  lemma {:induction false} RowsShared(convert: Convert, a: seq<Spec>, b: seq<Spec>, rows: seq<seq<Cell>>)
    requires NullFaithful(convert) && SameTypes(a, b) && (forall r :: r in rows ==> |r| == |a|)
    requires BoundRows(convert, a, rows).Done?
    ensures BoundRows(convert, b, rows).Done? <==> forall r :: r in rows ==> RowAdmits(b, r)
    ensures BoundRows(convert, b, rows).Done? ==> BoundRows(convert, b, rows) == BoundRows(convert, a, rows)
  {
    if rows != [] {
      RowShared(convert, a, b, rows[0]);
      RowsShared(convert, a, b, rows[1..]);
      assert forall r :: r in rows <==> r == rows[0] || r in rows[1..];
    }
  }

  lemma {:induction false} BatchesShared(convert: Convert, a: seq<Spec>, b: seq<Spec>, batches: seq<Batch>)
    requires NullFaithful(convert) && SameTypes(a, b)
    requires BoundBatches(convert, a, batches).Done?
    ensures BoundBatches(convert, b, batches).Done? <==> forall x, r :: x in batches && r in x.rows ==> RowAdmits(b, r)
    ensures BoundBatches(convert, b, batches).Done? ==>
      BoundBatches(convert, b, batches) == BoundBatches(convert, a, batches)
  {
    if batches != [] {
      RowsShared(convert, a, b, batches[0].rows);
      BatchesShared(convert, a, b, batches[1..]);
      assert forall x :: x in batches <==> x == batches[0] || x in batches[1..];
    }
  }

  /** Sharing loses nothing: given that the earlier input was bound, the later one can be bound
      on its own exactly when its NULL check passes, and then to the same relation. */
  lemma SharingAgrees(convert: Convert, earlier: Input, later: Input)
    requires NullFaithful(convert)
    requires SameTypes(earlier.columns, later.columns) && earlier.batches == later.batches
    requires Separate(convert, earlier).Done?
    ensures Separate(convert, later).Done? <==> NullsAllowed(later)
    ensures Separate(convert, later).Done? ==> Separate(convert, later) == Separate(convert, earlier)
  {
    BatchesShared(convert, earlier.columns, later.columns, later.batches);
  }

  predicate Shares(a: Input, b: Input) {
    SameTypes(a.columns, b.columns) && a.batches == b.batches
  }

  method FindShared(inputs: seq<Input>, index: nat) returns (r: Option<nat>)
    requires index < |inputs|
    ensures r.Some? ==> r.value < index && Shares(inputs[r.value], inputs[index])
    ensures r.None? ==> forall j :: 0 <= j < index ==> !Shares(inputs[j], inputs[index])
  {
    for j := 0 to index
      invariant forall k :: 0 <= k < j ==> !Shares(inputs[k], inputs[index])
    {
      if Shares(inputs[j], inputs[index]) {
        return Some(j);
      }
    }
    return None;
  }

  /** What a list of CTEs binds, read in order. */
  function Env(ctes: seq<Cte>): map<string, seq<seq<Cell>>> {
    if ctes == [] then map[]
    else
      var env := Env(ctes[..|ctes| - 1]);
      match ctes[|ctes| - 1]
      case Values(name, rows) => env[name := rows]
      case Copy(name, from) => if from in env then env[name := env[from]] else env
  }

  function NamesUpTo(inputs: seq<Input>, n: nat): set<string>
    requires n <= |inputs|
  {
    if n == 0 then {} else NamesUpTo(inputs, n - 1) + {inputs[n - 1].name}
  }

  lemma {:induction false} SeenName(inputs: seq<Input>, n: nat, name: string)
    requires n <= |inputs|
    ensures name in NamesUpTo(inputs, n) <==> exists i :: 0 <= i < n && inputs[i].name == name
  {
    if n > 0 {
      SeenName(inputs, n - 1, name);
    }
  }

  /** No name repeats an existing relation or an earlier input. */
  predicate FreshNames(existing: set<string>, inputs: seq<Input>, n: nat)
    requires n <= |inputs|
  {
    && (forall i :: 0 <= i < n ==> inputs[i].name !in existing)
    && (forall i, j :: 0 <= i < j < n ==> inputs[i].name != inputs[j].name)
  }

  predicate AllSeparate(convert: Convert, inputs: seq<Input>, n: nat)
    requires n <= |inputs|
  {
    forall i :: 0 <= i < n ==> Separate(convert, inputs[i]).Done?
  }

  /** The first n inputs, and nothing else, are bound to their separate relations. */
  predicate EnvBinds(convert: Convert, inputs: seq<Input>, n: nat, env: map<string, seq<seq<Cell>>>)
    requires n <= |inputs|
  {
    && env.Keys == NamesUpTo(inputs, n)
    && forall i :: 0 <= i < n ==> inputs[i].name in env && Done(env[inputs[i].name]) == Separate(convert, inputs[i])
  }

  predicate BoundTo(convert: Convert, inputs: seq<Input>, n: nat, ctes: seq<Cte>)
    requires n <= |inputs|
  {
    EnvBinds(convert, inputs, n, Env(ctes))
  }

  lemma EnvBindsNext(convert: Convert, inputs: seq<Input>, n: nat, env: map<string, seq<seq<Cell>>>,
      rows: seq<seq<Cell>>)
    requires n < |inputs| && EnvBinds(convert, inputs, n, env) && inputs[n].name !in env
    requires Separate(convert, inputs[n]) == Done(rows)
    ensures EnvBinds(convert, inputs, n + 1, env[inputs[n].name := rows])
  {
    forall i | 0 <= i < n ensures inputs[i].name != inputs[n].name {
      assert inputs[i].name in env;
    }
  }

  lemma EnvSnoc(ctes: seq<Cte>, cte: Cte, rows: seq<seq<Cell>>)
    requires cte.Values? ==> cte.rows == rows
    requires cte.Copy? ==> cte.from in Env(ctes) && Env(ctes)[cte.from] == rows
    ensures Env(ctes + [cte]) == Env(ctes)[cte.name := rows]
  {
    assert (ctes + [cte])[..|ctes|] == ctes;
  }

  lemma AppendBinding(convert: Convert, inputs: seq<Input>, n: nat, ctes: seq<Cte>, cte: Cte, j: nat)
    requires n < |inputs|
    requires BoundTo(convert, inputs, n, ctes) && cte.name == inputs[n].name && cte.name !in Env(ctes)
    requires Separate(convert, inputs[n]).Done?
    requires cte.Values? ==> Done(cte.rows) == Separate(convert, inputs[n])
    requires cte.Copy? ==>
      j < n && cte.from == inputs[j].name && Separate(convert, inputs[j]) == Separate(convert, inputs[n])
    ensures BoundTo(convert, inputs, n + 1, ctes + [cte])
  {
    var rows := Separate(convert, inputs[n]).value;
    if cte.Copy? { assert inputs[j].name in Env(ctes); }
    EnvSnoc(ctes, cte, rows);
    EnvBindsNext(convert, inputs, n, Env(ctes), rows);
  }

  method BindInput(convert: Convert, inputs: seq<Input>, n: nat, ctes: seq<Cte>) returns (r: Outcome<Cte>)
    requires NullFaithful(convert)
    requires n < |inputs| && AllSeparate(convert, inputs, n) && BoundTo(convert, inputs, n, ctes)
    requires inputs[n].name !in Env(ctes)
    ensures r.Done? <==> Separate(convert, inputs[n]).Done?
    ensures r.Done? ==> r.value.name == inputs[n].name && BoundTo(convert, inputs, n + 1, ctes + [r.value])
  {
    var x := inputs[n];
    var shared := FindShared(inputs, n);
    if shared.Some? {
      SharingAgrees(convert, inputs[shared.value], x);
      if !NullsAllowed(x) {
        return Failed;
      }
      r := Done(Copy(x.name, inputs[shared.value].name));
      AppendBinding(convert, inputs, n, ctes, r.value, shared.value);
    } else {
      var rows := Separate(convert, x);
      if rows.Failed? {
        return Failed;
      }
      r := Done(Values(x.name, rows.value));
      AppendBinding(convert, inputs, n, ctes, r.value, 0);
    }
  }

  /** The statement can take all inputs: no name clash, and each could be bound on its own. */
  predicate Acceptable(convert: Convert, existing: set<string>, inputs: seq<Input>, n: nat)
    requires n <= |inputs|
  {
    FreshNames(existing, inputs, n) && AllSeparate(convert, inputs, n)
  }

  lemma Clashes(existing: set<string>, inputs: seq<Input>, n: nat)
    requires n < |inputs| && inputs[n].name in existing + NamesUpTo(inputs, n)
    ensures !FreshNames(existing, inputs, |inputs|)
  {
    SeenName(inputs, n, inputs[n].name);
  }

  lemma StaysFresh(existing: set<string>, inputs: seq<Input>, n: nat)
    requires n < |inputs| && FreshNames(existing, inputs, n) && inputs[n].name !in existing + NamesUpTo(inputs, n)
    ensures FreshNames(existing, inputs, n + 1)
  {
    SeenName(inputs, n, inputs[n].name);
  }

  lemma NextAcceptable(convert: Convert, existing: set<string>, inputs: seq<Input>, n: nat)
    requires n < |inputs| && Acceptable(convert, existing, inputs, n)
    ensures inputs[n].name !in existing + NamesUpTo(inputs, n) && Separate(convert, inputs[n]).Done? ==>
      Acceptable(convert, existing, inputs, n + 1)
    ensures inputs[n].name in existing + NamesUpTo(inputs, n) || Separate(convert, inputs[n]).Failed? ==>
      !Acceptable(convert, existing, inputs, |inputs|)
  {
    if inputs[n].name in existing + NamesUpTo(inputs, n) {
      Clashes(existing, inputs, n);
    } else {
      StaysFresh(existing, inputs, n);
    }
  }

  method BindNext(convert: Convert, existing: set<string>, names: set<string>, inputs: seq<Input>, n: nat,
      ctes: seq<Cte>)
    returns (r: Outcome<Cte>)
    requires NullFaithful(convert) && n < |inputs| && names == existing + NamesUpTo(inputs, n)
    requires Acceptable(convert, existing, inputs, n) && BoundTo(convert, inputs, n, ctes)
    ensures r.Done? ==>
      Acceptable(convert, existing, inputs, n + 1) && BoundTo(convert, inputs, n + 1, ctes + [r.value])
    ensures r.Failed? ==> !Acceptable(convert, existing, inputs, |inputs|)
  {
    NextAcceptable(convert, existing, inputs, n);
    if inputs[n].name in names {
      return Failed;
    }
    r := BindInput(convert, inputs, n, ctes);
  }

  /** Every input is bound exactly as it would be on its own, and the statement is refused
      exactly when some input could not be bound on its own or a name repeats. */
  method BindRegion(convert: Convert, existing: set<string>, inputs: seq<Input>) returns (r: Outcome<seq<Cte>>)
    requires NullFaithful(convert)
    ensures r.Done? <==> Acceptable(convert, existing, inputs, |inputs|)
    ensures r.Done? ==> BoundTo(convert, inputs, |inputs|, r.value)
  {
    var names := existing;
    var ctes := [];
    for n := 0 to |inputs|
      invariant names == existing + NamesUpTo(inputs, n)
      invariant Acceptable(convert, existing, inputs, n) && BoundTo(convert, inputs, n, ctes)
    {
      var cte := BindNext(convert, existing, names, inputs, n, ctes);
      if cte.Failed? {
        return Failed;
      }
      names := names + {inputs[n].name};
      ctes := ctes + [cte.value];
    }
    return Done(ctes);
  }
}
