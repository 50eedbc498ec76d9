/** Gathering policy decisions: one job per decision, answered concurrently and processed in
    arrival order. */
module PolicyDecisions {
  import opened Text
  import opened Indices

  /** A policy expression; `legal`: non-blank text without impersonation. */
  datatype View = View(text: string, legal: bool)

  /** `Allow` and `BatchAllow` name the tables that the job asks access to. */
  datatype Kind =
    | Allow(table: string)
    | BatchAllow(tables: seq<string>)
    | Rows(table: string)
    | Mask(table: string, column: string)
    | Masks(table: string, columns: seq<string>)

  /** A decoded response; `Malformed` is JSON of the wrong shape. */
  datatype Value =
    | Truth(allowed: bool)
    | Nothing
    | Indices(indices: seq<nat>)
    | Filters(views: seq<View>)
    | OneMask(view: View)
    | ManyMasks(masks: seq<(nat, View)>)
    | Malformed

  datatype Result = Result(kind: Kind, value: Value)
  type Cell = (string, string)
  /** Row filters by table and masks by table and column. */
  datatype Restrictions = Restrictions(rows: map<string, seq<View>>, masks: map<Cell, View>)

  // ---------------------------------------------------------------- one response

  function Members(s: seq<nat>): set<nat> {
    set i | i in s
  }

  /** The code's three tests on a batch answer. */
  predicate BatchAccepted(size: nat, indices: seq<nat>) {
    var allowed := Members(indices);
    |allowed| == |indices| && (forall i :: i in allowed ==> i < size) && |allowed| == size
  }

  lemma {:induction false} DistinctSize(s: seq<nat>)
    ensures |Members(s)| <= |s|
    ensures |Members(s)| == |s| <==> forall i :: i in s ==> multiset(s)[i] == 1
  {
    if s == [] {
      assert Members(s) == {};
    } else {
      var front, last := s[..|s| - 1], s[|s| - 1];
      DistinctSize(front);
      assert s == front + [last];
      assert Members(s) == Members(front) + {last};
      if last in front {
        assert Members(s) == Members(front);
        assert multiset(front)[last] >= 1 && multiset(s)[last] >= 2 && last in s;
      } else {
        assert |Members(s)| == |Members(front)| + 1;
        assert forall i :: i in front ==> i in s && multiset(s)[i] == multiset(front)[i];
        assert multiset(front)[last] == 0 && multiset(s)[last] == 1;
        assert forall i :: i in s ==> i in front || i == last;
      }
    }
  }

  /** Lists every index below `size` once, and nothing else. */
  ghost predicate ListsEachOnce(size: nat, indices: seq<nat>) {
    forall i: nat :: multiset(indices)[i] == if i < size then 1 else 0
  }

  /** A batch answer is accepted exactly when every index below the batch length is listed
      once and nothing else is listed. */
  lemma BatchAcceptedExactly(size: nat, indices: seq<nat>)
    ensures BatchAccepted(size, indices) <==> ListsEachOnce(size, indices)
  {
    DistinctSize(indices);
    if BatchAccepted(size, indices) {
      SubsetOfSameSize(Members(indices), Below(size));
      forall i: nat ensures multiset(indices)[i] == if i < size then 1 else 0 {
        assert i in indices <==> i in Members(indices);
        assert i in Members(indices) <==> i < size;
      }
    }
    if ListsEachOnce(size, indices) {
      forall i: nat ensures i in Members(indices) <==> i in Below(size) {
        assert multiset(indices)[i] > 0 <==> i in indices;
      }
      assert Members(indices) == Below(size);
    }
  }

  predicate DistinctIndices(ms: seq<(nat, View)>) {
    forall i, j :: 0 <= i < j < |ms| ==> ms[i].0 != ms[j].0
  }

  /** Whether a response by itself is acceptable. */
  predicate Acceptable(r: Result) {
    match r.kind
    case Allow(_) => r.value == Truth(true)
    case BatchAllow(ts) => r.value.Indices? && BatchAccepted(|ts|, r.value.indices)
    case Rows(_) => r.value.Filters? && forall v :: v in r.value.views ==> v.legal
    case Mask(_, _) => r.value == Nothing || (r.value.OneMask? && r.value.view.legal)
    case Masks(_, cs) =>
      && r.value.ManyMasks? && DistinctIndices(r.value.masks)
      && forall m :: m in r.value.masks ==> m.0 < |cs| && m.1.legal
  }

  /** The row filters and masks that an acceptable response contributes. */
  function RowsOf(r: Result): map<string, seq<View>> {
    if r.kind.Rows? && r.value.Filters? then map[r.kind.table := r.value.views] else map[]
  }

  function MaskList(table: string, cs: seq<string>, ms: seq<(nat, View)>): map<Cell, View>
    requires forall m :: m in ms ==> m.0 < |cs|
  {
    if ms == [] then map[]
    else
      var last := ms[|ms| - 1];
      MaskList(table, cs, ms[..|ms| - 1])[(table, cs[last.0]) := last.1]
  }

  function MasksOf(r: Result): map<Cell, View>
    requires Acceptable(r)
  {
    match r.kind
    case Mask(t, c) => if r.value.OneMask? then map[(t, c) := r.value.view] else map[]
    case Masks(t, cs) => MaskList(t, cs, r.value.masks)
    case _ => map[]
  }

  // ---------------------------------------------------------------- the loop

  /** The decisions a job may fill in. */
  function RowTarget(k: Kind): set<string> {
    if k.Rows? then {k.table} else {}
  }

  function MaskTarget(k: Kind): set<Cell> {
    match k
    case Mask(t, c) => {(t, c)}
    case Masks(t, cs) => set c | c in cs :: (t, c)
    case _ => {}
  }

  predicate NoRepeats(cs: seq<string>) {
    forall i, j :: 0 <= i < j < |cs| ==> cs[i] != cs[j]
  }

  /** Jobs are built so that no two of them, and no two positions of one, fill the same slot. */
  predicate Separate(rs: seq<Result>) {
    && (forall i :: 0 <= i < |rs| && rs[i].kind.Masks? ==> NoRepeats(rs[i].kind.columns))
    && (forall i, j :: 0 <= i < |rs| && 0 <= j < |rs| && i != j ==>
          RowTarget(rs[i].kind) !! RowTarget(rs[j].kind) && MaskTarget(rs[i].kind) !! MaskTarget(rs[j].kind))
  }

  lemma {:induction false} MaskListKeys(table: string, cs: seq<string>, ms: seq<(nat, View)>, x: nat)
    requires (forall m :: m in ms ==> m.0 < |cs|) && NoRepeats(cs) && x < |cs|
    ensures (table, cs[x]) in MaskList(table, cs, ms) <==> exists k :: 0 <= k < |ms| && ms[k].0 == x
    ensures MaskList(table, cs, ms).Keys <= MaskTarget(Masks(table, cs))
  {
    if ms != [] {
      MaskListKeys(table, cs, ms[..|ms| - 1], x);
      var last := ms[|ms| - 1];
      assert (table, cs[x]) == (table, cs[last.0]) <==> x == last.0;
    }
  }

  lemma RepeatedIndex(table: string, cs: seq<string>, ms: seq<(nat, View)>, k: nat)
    requires k < |ms| && (forall m :: m in ms[..k] ==> m.0 < |cs|) && NoRepeats(cs) && ms[k].0 < |cs|
    requires (table, cs[ms[k].0]) in MaskList(table, cs, ms[..k])
    ensures !DistinctIndices(ms)
  {
    MaskListKeys(table, cs, ms[..k], ms[k].0);
    var j :| 0 <= j < k && ms[..k][j].0 == ms[k].0;
    assert ms[j].0 == ms[k].0;
  }

  lemma NewIndex(table: string, cs: seq<string>, ms: seq<(nat, View)>, k: nat)
    requires k < |ms| && (forall m :: m in ms[..k] ==> m.0 < |cs|) && NoRepeats(cs) && ms[k].0 < |cs|
    requires DistinctIndices(ms[..k])
    ensures (table, cs[ms[k].0]) !in MaskList(table, cs, ms[..k]) ==> DistinctIndices(ms[..k + 1])
  {
    MaskListKeys(table, cs, ms[..k], ms[k].0);
    assert forall j :: 0 <= j < k ==> ms[..k][j] == ms[j] == ms[..k + 1][j];
  }

  /** Inserts the masks of one chunk; a repeated column stops everything. */
  method InsertMasks(start: map<Cell, View>, table: string, cs: seq<string>, ms: seq<(nat, View)>)
    returns (r: Outcome<map<Cell, View>>)
    requires NoRepeats(cs) && start.Keys !! MaskTarget(Masks(table, cs))
    ensures r.Done? <==> Acceptable(Result(Masks(table, cs), ManyMasks(ms)))
    ensures r.Done? ==> r.value == start + MaskList(table, cs, ms)
  {
    var masks := start;
    for k := 0 to |ms|
      invariant forall m :: m in ms[..k] ==> m.0 < |cs| && m.1.legal
      invariant DistinctIndices(ms[..k]) && masks == start + MaskList(table, cs, ms[..k])
    {
      var (index, view) := ms[k];
      assert ms[k] in ms && ms[..k + 1] == ms[..k] + [ms[k]] && ms[..k + 1][..k] == ms[..k];
      if !view.legal || index >= |cs| {
        return Failed;
      }
      NewIndex(table, cs, ms, k);
      assert cs[index] in cs && (table, cs[index]) in MaskTarget(Masks(table, cs));
      if (table, cs[index]) in masks {
        RepeatedIndex(table, cs, ms, k);
        return Failed;
      }
      masks := masks[(table, cs[index]) := view];
    }
    assert ms[..|ms|] == ms;
    return Done(masks);
  }

  function Start(tables: set<string>): Restrictions {
    Restrictions(map t | t in tables :: [], map[])
  }

  /** Everything the first n results contribute, on top of the defaults. */
  function Merged(tables: set<string>, rs: seq<Result>): Restrictions
    requires forall i :: 0 <= i < |rs| ==> Acceptable(rs[i])
  {
    if rs == [] then Start(tables)
    else
      var before := Merged(tables, rs[..|rs| - 1]);
      var last := rs[|rs| - 1];
      Restrictions(before.rows + RowsOf(last), before.masks + MasksOf(last))
  }

  lemma {:induction false} MergedTargets(tables: set<string>, rs: seq<Result>, k: Kind)
    requires (forall i :: 0 <= i < |rs| ==> Acceptable(rs[i]) && MaskTarget(rs[i].kind) !! MaskTarget(k))
    requires forall i :: 0 <= i < |rs| && rs[i].kind.Masks? ==> NoRepeats(rs[i].kind.columns)
    ensures Merged(tables, rs).masks.Keys !! MaskTarget(k)
  {
    if rs != [] {
      MergedTargets(tables, rs[..|rs| - 1], k);
      ContributionInTarget(rs[|rs| - 1]);
    }
  }

  lemma ContributionInTarget(r: Result)
    requires Acceptable(r) && (r.kind.Masks? ==> NoRepeats(r.kind.columns))
    ensures MasksOf(r).Keys <= MaskTarget(r.kind) && RowsOf(r).Keys <= RowTarget(r.kind)
  {
    if r.kind.Masks? && r.value.masks != [] {
      MaskListKeys(r.kind.table, r.kind.columns, r.value.masks, r.value.masks[0].0);
    }
  }

  method Admit(before: Restrictions, r: Result) returns (next: Outcome<Restrictions>)
    requires before.masks.Keys !! MaskTarget(r.kind) && (r.kind.Masks? ==> NoRepeats(r.kind.columns))
    ensures next.Done? <==> Acceptable(r)
    ensures next.Done? ==> next.value == Restrictions(before.rows + RowsOf(r), before.masks + MasksOf(r))
  {
    match r.kind {
      case Allow(_) =>
        if r.value != Truth(true) { return Failed; }
        next := Done(before);
      case BatchAllow(ts) =>
        if !r.value.Indices? { return Failed; }
        if !BatchAccepted(|ts|, r.value.indices) { return Failed; }
        next := Done(before);
      case Rows(t) =>
        if !r.value.Filters? || exists v :: v in r.value.views && !v.legal { return Failed; }
        next := Done(before.(rows := before.rows[t := r.value.views]));
      case Mask(t, c) =>
        if r.value == Nothing { return Done(before); }
        if !r.value.OneMask? || !r.value.view.legal { return Failed; }
        next := Done(before.(masks := before.masks[(t, c) := r.value.view]));
      case Masks(t, cs) =>
        if !r.value.ManyMasks? { return Failed; }
        var masks := InsertMasks(before.masks, t, cs, r.value.masks);
        if masks.Failed? { return Failed; }
        next := Done(before.(masks := masks.value));
    }
  }

  // ---------------------------------------------------------------- order independence

  predicate AllAcceptable(rs: seq<Result>) {
    forall i :: 0 <= i < |rs| ==> Acceptable(rs[i])
  }

  /** A merged entry comes from exactly the one response whose job may fill it. */
  lemma {:induction false} MergedMask(tables: set<string>, rs: seq<Result>, c: Cell)
    requires AllAcceptable(rs) && Separate(rs)
    ensures c in Merged(tables, rs).masks <==> exists i :: 0 <= i < |rs| && c in MasksOf(rs[i])
    ensures forall i :: 0 <= i < |rs| && c in MasksOf(rs[i]) ==> Merged(tables, rs).masks[c] == MasksOf(rs[i])[c]
  {
    if rs != [] {
      var n := |rs| - 1;
      var front := rs[..n];
      assert Separate(front);
      MergedMask(tables, front, c);
      assert forall i :: 0 <= i < n ==> front[i] == rs[i];
      if c in MasksOf(rs[n]) {
        ContributionInTarget(rs[n]);
        forall i | 0 <= i < n ensures c !in MasksOf(rs[i]) { ContributionInTarget(rs[i]); }
      }
    }
  }

  lemma {:induction false} MergedRowPresent(tables: set<string>, rs: seq<Result>, t: string)
    requires AllAcceptable(rs) && Separate(rs)
    ensures t in Merged(tables, rs).rows <==> t in tables || exists i :: 0 <= i < |rs| && t in RowsOf(rs[i])
  {
    if rs != [] {
      var n := |rs| - 1;
      var front := rs[..n];
      assert Separate(front);
      MergedRowPresent(tables, front, t);
      assert forall i :: 0 <= i < n ==> front[i] == rs[i];
    }
  }

  lemma {:induction false} MergedRow(tables: set<string>, rs: seq<Result>, t: string, k: nat)
    requires AllAcceptable(rs) && Separate(rs) && k < |rs| && t in RowsOf(rs[k])
    ensures t in Merged(tables, rs).rows && Merged(tables, rs).rows[t] == RowsOf(rs[k])[t]
  {
    MergedRowPresent(tables, rs, t);
    var n := |rs| - 1;
    var front := rs[..n];
    if k < n {
      assert Separate(front) && front[k] == rs[k];
      MergedRow(tables, front, t, k);
      assert RowTarget(rs[k].kind) !! RowTarget(rs[n].kind);
      assert t !in RowsOf(rs[n]);
    }
  }

  lemma {:induction false} UnfilledRow(tables: set<string>, rs: seq<Result>, t: string)
    requires AllAcceptable(rs) && Separate(rs) && t in tables && forall i :: 0 <= i < |rs| ==> t !in RowsOf(rs[i])
    ensures t in Merged(tables, rs).rows && Merged(tables, rs).rows[t] == []
  {
    MergedRowPresent(tables, rs, t);
    if rs != [] {
      var front := rs[..|rs| - 1];
      assert Separate(front);
      assert forall i :: 0 <= i < |front| ==> front[i] == rs[i];
      UnfilledRow(tables, front, t);
    }
  }

  lemma SameMembers(a: seq<Result>, b: seq<Result>, i: nat) returns (j: nat)
    requires multiset(a) == multiset(b) && i < |a|
    ensures j < |b| && b[j] == a[i]
  {
    assert a[i] in multiset(a);
    assert a[i] in b;
    j :| 0 <= j < |b| && b[j] == a[i];
  }

  lemma AcceptableInAnyOrder(a: seq<Result>, b: seq<Result>)
    requires multiset(a) == multiset(b) && AllAcceptable(a)
    ensures AllAcceptable(b)
  {
    forall i | 0 <= i < |b| ensures Acceptable(b[i]) { var j := SameMembers(b, a, i); }
  }

  lemma {:induction false} TwoPositions(a: seq<Result>, x: Result) returns (i: nat, j: nat)
    requires multiset(a)[x] >= 2
    ensures i < j < |a| && a[i] == x && a[j] == x
  {
    var n := |a| - 1;
    assert a == a[..n] + [a[n]];
    if a[n] == x {
      assert x in a[..n];
      i :| 0 <= i < n && a[..n][i] == x;
      j := n;
    } else {
      i, j := TwoPositions(a[..n], x);
    }
  }

  lemma {:induction false} CountTwo(b: seq<Result>, i: nat, j: nat)
    requires i < j < |b| && b[i] == b[j]
    ensures multiset(b)[b[i]] >= 2
  {
    assert b == b[..j] + [b[j]] + b[j + 1..];
    assert b[..j][i] == b[i];
    assert b[i] in multiset(b[..j]);
  }

  predicate Apart(x: Kind, y: Kind) {
    RowTarget(x) !! RowTarget(y) && MaskTarget(x) !! MaskTarget(y)
  }

  lemma ApartInAnyOrder(a: seq<Result>, b: seq<Result>, i: nat, j: nat)
    requires multiset(a) == multiset(b) && Separate(a) && i < j < |b|
    ensures Apart(b[i].kind, b[j].kind)
  {
    if b[i] == b[j] {
      CountTwo(b, i, j);
      var k, l := TwoPositions(a, b[i]);
      assert Apart(a[k].kind, a[l].kind);
    } else {
      var k := SameMembers(b, a, i);
      var l := SameMembers(b, a, j);
      assert Apart(a[k].kind, a[l].kind);
    }
  }

  lemma SeparateInAnyOrder(a: seq<Result>, b: seq<Result>)
    requires multiset(a) == multiset(b) && Separate(a)
    ensures Separate(b)
  {
    forall i | 0 <= i < |b| && b[i].kind.Masks? ensures NoRepeats(b[i].kind.columns) { var k := SameMembers(b, a, i); }
    forall i, j | 0 <= i < |b| && 0 <= j < |b| && i != j
      ensures RowTarget(b[i].kind) !! RowTarget(b[j].kind) && MaskTarget(b[i].kind) !! MaskTarget(b[j].kind)
    {
      ApartInAnyOrder(a, b, if i < j then i else j, if i < j then j else i);
    }
  }

  /** Every arrival order gives the same success or failure and the same restrictions. */
  lemma OrderIndependent(tables: set<string>, a: seq<Result>, b: seq<Result>)
    requires multiset(a) == multiset(b) && Separate(a)
    ensures Separate(b) && (AllAcceptable(a) <==> AllAcceptable(b))
    ensures AllAcceptable(a) ==> Merged(tables, a) == Merged(tables, b)
  {
    SeparateInAnyOrder(a, b);
    if AllAcceptable(a) { AcceptableInAnyOrder(a, b); }
    if AllAcceptable(b) { AcceptableInAnyOrder(b, a); }
    if AllAcceptable(a) {
      var x, y := Merged(tables, a), Merged(tables, b);
      forall c ensures c in x.masks <==> c in y.masks { SameMask(tables, a, b, c); }
      forall c | c in x.masks ensures x.masks[c] == y.masks[c] { SameMask(tables, a, b, c); }
      assert x.masks == y.masks;
      forall t ensures t in x.rows <==> t in y.rows { SameRow(tables, a, b, t); }
      forall t | t in x.rows ensures x.rows[t] == y.rows[t] { SameRow(tables, a, b, t); }
      assert x.rows == y.rows;
    }
  }

  lemma SameMask(tables: set<string>, a: seq<Result>, b: seq<Result>, c: Cell)
    requires multiset(a) == multiset(b) && Separate(a) && Separate(b) && AllAcceptable(a) && AllAcceptable(b)
    ensures c in Merged(tables, a).masks <==> c in Merged(tables, b).masks
    ensures c in Merged(tables, a).masks ==> Merged(tables, a).masks[c] == Merged(tables, b).masks[c]
  {
    MergedMask(tables, a, c);
    MergedMask(tables, b, c);
    if i :| 0 <= i < |a| && c in MasksOf(a[i]) { var j := SameMembers(a, b, i); }
    if i :| 0 <= i < |b| && c in MasksOf(b[i]) { var j := SameMembers(b, a, i); }
  }

  lemma SameRow(tables: set<string>, a: seq<Result>, b: seq<Result>, t: string)
    requires multiset(a) == multiset(b) && Separate(a) && Separate(b) && AllAcceptable(a) && AllAcceptable(b)
    ensures t in Merged(tables, a).rows <==> t in Merged(tables, b).rows
    ensures t in Merged(tables, a).rows ==> Merged(tables, a).rows[t] == Merged(tables, b).rows[t]
  {
    MergedRowPresent(tables, a, t);
    MergedRowPresent(tables, b, t);
    if i :| 0 <= i < |a| && t in RowsOf(a[i]) {
      var j := SameMembers(a, b, i);
      MergedRow(tables, a, t, i);
      MergedRow(tables, b, t, j);
    } else {
      forall i | 0 <= i < |b| ensures t !in RowsOf(b[i]) { var j := SameMembers(b, a, i); }
      if t in tables {
        UnfilledRow(tables, a, t);
        UnfilledRow(tables, b, t);
      }
    }
  }

  // ---------------------------------------------------------------- what responses give

  /** What makes a response acceptable, kind by kind. */
  ghost predicate AcceptableMeans(r: Result) {
    && (r.kind.Allow? ==> (Acceptable(r) <==> r.value == Truth(true)))
    && (r.kind.BatchAllow? ==>
          (Acceptable(r) <==> r.value.Indices? && ListsEachOnce(|r.kind.tables|, r.value.indices)))
    && (r.kind.Rows? ==> (Acceptable(r) <==> r.value.Filters? && forall v :: v in r.value.views ==> v.legal))
    && (r.kind.Mask? ==> (Acceptable(r) <==> r.value == Nothing || (r.value.OneMask? && r.value.view.legal)))
    && (r.kind.Masks? ==>
          (Acceptable(r) <==>
             && r.value.ManyMasks? && (forall m :: m in r.value.masks ==> m.0 < |r.kind.columns| && m.1.legal)
             && forall j, k :: 0 <= j < k < |r.value.masks| ==> r.value.masks[j].0 != r.value.masks[k].0))
  }

  lemma AcceptableExactly(r: Result)
    ensures AcceptableMeans(r)
  {
    if r.kind.BatchAllow? && r.value.Indices? { BatchAcceptedExactly(|r.kind.tables|, r.value.indices); }
  }

  /** The response gives this mask to this column. */
  ghost predicate Says(r: Result, t: string, c: string, v: View) {
    || (r.kind == Mask(t, c) && r.value == OneMask(v))
    || (r.kind.Masks? && r.kind.table == t && r.value.ManyMasks? &&
        exists k :: 0 <= k < |r.kind.columns| && r.kind.columns[k] == c && (k, v) in r.value.masks)
  }

  /** Each table has the filters of its response, in their order, or none if nobody was asked. */
  ghost predicate GivesRows(tables: set<string>, rs: seq<Result>, made: Restrictions) {
    && (forall t :: t in made.rows <==> t in tables || exists i :: 0 <= i < |rs| && rs[i].kind == Rows(t))
    && (forall i :: 0 <= i < |rs| && rs[i].kind.Rows? && rs[i].value.Filters? ==>
          rs[i].kind.table in made.rows && made.rows[rs[i].kind.table] == rs[i].value.views)
    && (forall t :: t in made.rows && (forall i :: 0 <= i < |rs| ==> rs[i].kind != Rows(t)) ==> made.rows[t] == [])
  }

  ghost predicate SaidBy(rs: seq<Result>, t: string, c: string, v: View) {
    exists i :: 0 <= i < |rs| && Says(rs[i], t, c, v)
  }

  predicate HasMask(made: Restrictions, t: string, c: string, v: View) {
    (t, c) in made.masks && made.masks[(t, c)] == v
  }

  /** A column has exactly the mask that a response gives it. */
  ghost predicate GivesMasks(rs: seq<Result>, made: Restrictions) {
    forall t, c, v :: HasMask(made, t, c, v) <==> SaidBy(rs, t, c, v)
  }

  lemma {:induction false} MaskListSays(t: string, cs: seq<string>, ms: seq<(nat, View)>, c: string, v: View)
    requires (forall m :: m in ms ==> m.0 < |cs|) && NoRepeats(cs) && DistinctIndices(ms)
    ensures (t, c) in MaskList(t, cs, ms) && MaskList(t, cs, ms)[(t, c)] == v <==>
      exists k :: 0 <= k < |cs| && cs[k] == c && (k, v) in ms
  {
    if ms != [] {
      var n := |ms| - 1;
      MaskListSays(t, cs, ms[..n], c, v);
      assert ms == ms[..n] + [ms[n]];
      if c == cs[ms[n].0] {
        forall k | 0 <= k < |cs| && cs[k] == c && (k, v) in ms ensures ms[n] == (k, v) {
          assert k == ms[n].0;
          var j :| 0 <= j <= n && ms[j] == (k, v);
        }
      }
    }
  }

  lemma MasksOfSays(r: Result, t: string, c: string, v: View)
    requires Acceptable(r) && (r.kind.Masks? ==> NoRepeats(r.kind.columns))
    ensures (t, c) in MasksOf(r) && MasksOf(r)[(t, c)] == v <==> Says(r, t, c, v)
  {
    if r.kind.Masks? {
      if r.kind.table == t {
        MaskListSays(t, r.kind.columns, r.value.masks, c, v);
      } else {
        ContributionInTarget(r);
        assert (t, c) !in MaskTarget(r.kind);
      }
    }
  }

  lemma MergedGives(tables: set<string>, rs: seq<Result>)
    requires AllAcceptable(rs) && Separate(rs)
    ensures GivesRows(tables, rs, Merged(tables, rs)) && GivesMasks(rs, Merged(tables, rs))
  {
    MergedGivesRows(tables, rs);
    forall t, c, v ensures HasMask(Merged(tables, rs), t, c, v) <==> SaidBy(rs, t, c, v) {
      MergedSays(tables, rs, t, c, v);
    }
  }

  lemma MergedGivesRows(tables: set<string>, rs: seq<Result>)
    requires AllAcceptable(rs) && Separate(rs)
    ensures GivesRows(tables, rs, Merged(tables, rs))
  {
    var made := Merged(tables, rs);
    forall t ensures t in made.rows <==> t in tables || exists i :: 0 <= i < |rs| && rs[i].kind == Rows(t) {
      MergedRowPresent(tables, rs, t);
      assert forall i :: 0 <= i < |rs| ==> (t in RowsOf(rs[i]) <==> rs[i].kind == Rows(t));
    }
    forall i | 0 <= i < |rs| && rs[i].kind.Rows?
      ensures rs[i].kind.table in made.rows && made.rows[rs[i].kind.table] == rs[i].value.views
    {
      MergedRow(tables, rs, rs[i].kind.table, i);
    }
    forall t | t in made.rows && forall i :: 0 <= i < |rs| ==> rs[i].kind != Rows(t) ensures made.rows[t] == [] {
      assert forall i :: 0 <= i < |rs| ==> t !in RowsOf(rs[i]);
      MergedRowPresent(tables, rs, t);
      UnfilledRow(tables, rs, t);
    }
  }

  lemma MergedSays(tables: set<string>, rs: seq<Result>, t: string, c: string, v: View)
    requires AllAcceptable(rs) && Separate(rs)
    ensures HasMask(Merged(tables, rs), t, c, v) <==> SaidBy(rs, t, c, v)
  {
    MergedMask(tables, rs, (t, c));
    forall i | 0 <= i < |rs|
      ensures (t, c) in MasksOf(rs[i]) && MasksOf(rs[i])[(t, c)] == v <==> Says(rs[i], t, c, v)
    {
      MasksOfSays(rs[i], t, c, v);
    }
  }

  /** Processes the responses in arrival order. Success means that every access decision is the value
      true or lists each table of its batch once, and that all row filters and masks are legal and in
      range; the restrictions are then exactly those that the responses give. */
  method Gather(tables: set<string>, rs: seq<Result>) returns (r: Outcome<Restrictions>)
    requires Separate(rs)
    ensures r.Done? <==>
      && (forall i :: 0 <= i < |rs| && rs[i].kind.Allow? ==> rs[i].value == Truth(true))
      && (forall i :: 0 <= i < |rs| && rs[i].kind.BatchAllow? ==>
            rs[i].value.Indices? && ListsEachOnce(|rs[i].kind.tables|, rs[i].value.indices))
      && (forall i :: 0 <= i < |rs| && rs[i].kind.Rows? ==>
            rs[i].value.Filters? && forall v :: v in rs[i].value.views ==> v.legal)
      && (forall i :: 0 <= i < |rs| && rs[i].kind.Mask? ==>
            rs[i].value == Nothing || (rs[i].value.OneMask? && rs[i].value.view.legal))
      && (forall i :: 0 <= i < |rs| && rs[i].kind.Masks? ==>
            && rs[i].value.ManyMasks?
            && (forall m :: m in rs[i].value.masks ==> m.0 < |rs[i].kind.columns| && m.1.legal)
            && (forall j, k :: 0 <= j < k < |rs[i].value.masks| ==>
                  rs[i].value.masks[j].0 != rs[i].value.masks[k].0))
    ensures r.Done? ==> AllAcceptable(rs) && r.value == Merged(tables, rs)
    ensures r.Done? ==> GivesRows(tables, rs, r.value) && GivesMasks(rs, r.value)
  {
    var current := Start(tables);
    forall i | 0 <= i < |rs| ensures AcceptableMeans(rs[i]) { AcceptableExactly(rs[i]); }
    for n := 0 to |rs|
      invariant forall i :: 0 <= i < n ==> Acceptable(rs[i])
      invariant current == Merged(tables, rs[..n])
    {
      assert rs[..n + 1][..n] == rs[..n];
      MergedTargets(tables, rs[..n], rs[n].kind);
      var next := Admit(current, rs[n]);
      if next.Failed? {
        return Failed;
      }
      current := next.value;
    }
    assert rs[..|rs|] == rs;
    MergedGives(tables, rs);
    return Done(current);
  }

  // ---------------------------------------------------------------- chunked masks

  /** The answer of a per-column job that corresponds to a chunk's answer. */
  function ColumnAnswer(ms: seq<(nat, View)>, x: nat): Value {
    if ms == [] then Nothing
    else if ms[|ms| - 1].0 == x then OneMask(ms[|ms| - 1].1)
    else ColumnAnswer(ms[..|ms| - 1], x)
  }

  /** Chunked and per-column masking agree: a chunk leaves each of its columns exactly the mask
      that asking for the column by itself would have left. */
  lemma {:induction false} ChunkAgrees(table: string, cs: seq<string>, ms: seq<(nat, View)>, x: nat)
    requires NoRepeats(cs) && x < |cs| && Acceptable(Result(Masks(table, cs), ManyMasks(ms)))
    ensures
      var single := Result(Mask(table, cs[x]), ColumnAnswer(ms, x));
      var c := (table, cs[x]);
      && Acceptable(single)
      && (c in MaskList(table, cs, ms) <==> c in MasksOf(single))
      && (c in MaskList(table, cs, ms) ==> MaskList(table, cs, ms)[c] == MasksOf(single)[c])
  {
    if ms != [] {
      var front := ms[..|ms| - 1];
      assert DistinctIndices(front) && forall m :: m in front ==> m in ms;
      ChunkAgrees(table, cs, front, x);
      assert (table, cs[x]) == (table, cs[ms[|ms| - 1].0]) <==> x == ms[|ms| - 1].0;
    }
  }
}
