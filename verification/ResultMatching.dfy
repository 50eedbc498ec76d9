/** Comparison of query results up to row order, blank-node labels and the spelling of numbers. */
module ResultMatching {
  import opened Text
  import opened Indices

  datatype Term =
    | Uri(value: string)
    | Bnode(node: string)
    | Literal(value: string, datatypeIri: string, lang: Option<string>)
  type Cell = Option<Term>
  type Row = seq<Cell>
  type Renaming = map<string, string>

  /** How numbers are normalised: which datatypes are numeric and the stored form of a lexical
      value. */
  datatype Numbers = Numbers(numeric: set<string>, stored: (string, string) -> string)

  predicate SameNumericValue(a: Term, b: Term, N: Numbers) {
    && a.Literal? && b.Literal?
    && a.datatypeIri == b.datatypeIri && a.datatypeIri in N.numeric
    && a.lang == b.lang
    && N.stored(a.value, a.datatypeIri) == N.stored(b.value, b.datatypeIri)
  }

  // ---------------------------------------------------------------- what matching means

  predicate Injective(f: Renaming) {
    forall x, y :: x in f && y in f && f[x] == f[y] ==> x == y
  }

  /** Two cells match under a renaming of blank nodes. */
  predicate CellMatches(a: Cell, b: Cell, f: Renaming, N: Numbers) {
    match (a, b)
    case (Some(Bnode(x)), Some(Bnode(y))) => x in f && f[x] == y
    case (Some(s), Some(t)) => s == t || SameNumericValue(s, t, N)
    case (_, _) => a == b
  }

  predicate RowMatches(a: Row, b: Row, f: Renaming, N: Numbers) {
    |a| == |b| && forall c :: 0 <= c < |a| ==> CellMatches(a[c], b[c], f, N)
  }

  /** A choice of different rows. */
  predicate Choice(p: seq<nat>, from: set<nat>) {
    && (forall k :: 0 <= k < |p| ==> p[k] in from)
    && (forall k, l :: 0 <= k < l < |p| ==> p[k] != p[l])
  }

  predicate Aligned(actual: seq<Row>, expected: seq<Row>, p: seq<nat>, f: Renaming, N: Numbers) {
    |p| == |expected| && forall k :: 0 <= k < |p| ==> p[k] < |actual| && RowMatches(actual[p[k]], expected[k], f, N)
  }

  function Identity(n: nat): seq<nat> {
    seq(n, i => i)
  }

  /** One permutation of the rows and one injective renaming, global to all rows, match every term;
      an ordered comparison takes the rows as they come. */
  ghost predicate Isomorphic(actual: seq<Row>, expected: seq<Row>, ordered: bool, N: Numbers) {
    && |actual| == |expected|
    && exists p: seq<nat>, f: Renaming :: Witness(actual, expected, ordered, p, f, N)
  }

  predicate Witness(actual: seq<Row>, expected: seq<Row>, ordered: bool, p: seq<nat>, f: Renaming, N: Numbers) {
    && Injective(f) && Choice(p, Below(|actual|)) && Aligned(actual, expected, p, f, N)
    && (ordered ==> p == Identity(|expected|))
  }

  // ---------------------------------------------------------------- terms

  predicate Extends(g: Renaming, f: Renaming) {
    forall x :: x in f ==> x in g && g[x] == f[x]
  }

  /** What matching a pair of terms does to the mapping. */
  function MatchCell(a: Cell, b: Cell, m: Renaming, N: Numbers): Option<Renaming> {
    match (a, b)
    case (Some(Bnode(x)), Some(Bnode(y))) =>
      if x in m then (if m[x] == y then Some(m) else None)
      else if y in m.Values then None
      else Some(m[x := y])
    case (Some(s), Some(t)) => if s == t || SameNumericValue(s, t, N) then Some(m) else None
    case (_, _) => if a == b then Some(m) else None
  }

  /** The mapping grows just enough: it works for every larger renaming that matches. */
  lemma MatchCellExact(a: Cell, b: Cell, m: Renaming, N: Numbers)
    requires Injective(m)
    ensures var r := MatchCell(a, b, m, N);
      r.Some? ==> Injective(r.value) && Extends(r.value, m) && CellMatches(a, b, r.value, N)
    ensures forall g: Renaming :: Injective(g) && Extends(g, m) && CellMatches(a, b, g, N) ==>
      MatchCell(a, b, m, N).Some? && Extends(g, MatchCell(a, b, m, N).value)
  {
  }

  lemma MatchStays(a: Row, b: Row, m: Renaming, g: Renaming, N: Numbers)
    requires RowMatches(a, b, m, N) && Extends(g, m)
    ensures RowMatches(a, b, g, N)
  {
    forall c | 0 <= c < |a| ensures CellMatches(a[c], b[c], g, N) { assert CellMatches(a[c], b[c], m, N); }
  }

  class Mapping {
    var pairs: Renaming

    constructor (pairs: Renaming)
      ensures this.pairs == pairs
    {
      this.pairs := pairs;
    }

    /** Matches two terms, entering a new pair of blank nodes. */
    method MatchTerm(a: Cell, b: Cell, N: Numbers) returns (ok: bool)
      modifies this
      ensures ok <==> MatchCell(a, b, old(pairs), N).Some?
      ensures pairs == if ok then MatchCell(a, b, old(pairs), N).value else old(pairs)
    {
      if a.None? || b.None? {
        return a == b;
      }
      if a.value.Bnode? && b.value.Bnode? {
        var left, right := a.value.node, b.value.node;
        if left in pairs {
          return pairs[left] == right;
        }
        if right in pairs.Values {
          return false;
        }
        pairs := pairs[left := right];
        return true;
      }
      return a == b || SameNumericValue(a.value, b.value, N);
    }

    /** Matches two rows of the same length term by term, stopping at the first difference. */
    method MatchRow(a: Row, b: Row, N: Numbers) returns (ok: bool)
      requires |a| == |b| && Injective(pairs)
      modifies this
      ensures ok ==> Injective(pairs) && Extends(pairs, old(pairs)) && RowMatches(a, b, pairs, N)
      ensures forall g: Renaming :: Injective(g) && Extends(g, old(pairs)) && RowMatches(a, b, g, N) ==>
        ok && Extends(g, pairs)
    {
      for c := 0 to |a|
        invariant Injective(pairs) && Extends(pairs, old(pairs)) && RowMatches(a[..c], b[..c], pairs, N)
        invariant forall g: Renaming :: Injective(g) && Extends(g, old(pairs)) && RowMatches(a, b, g, N) ==>
          Extends(g, pairs)
      {
        ghost var before := pairs;
        MatchCellExact(a[c], b[c], before, N);
        ok := MatchTerm(a[c], b[c], N);
        if !ok {
          return;
        }
        MatchStays(a[..c], b[..c], before, pairs, N);
        RowSnoc(a, b, c, pairs, N);
      }
      assert a[..|a|] == a && b[..|b|] == b;
      return true;
    }
  }

  lemma RowSnoc(a: Row, b: Row, c: nat, f: Renaming, N: Numbers)
    requires c < |a| == |b| && RowMatches(a[..c], b[..c], f, N) && CellMatches(a[c], b[c], f, N)
    ensures RowMatches(a[..c + 1], b[..c + 1], f, N)
  {
    assert forall d :: 0 <= d < c ==> a[..c + 1][d] == a[..c][d] && b[..c + 1][d] == b[..c][d];
  }

  // ---------------------------------------------------------------- search

  /** The rest of the expected rows can be matched with remaining rows under a renaming that
      extends the mapping. */
  ghost predicate Solvable(actual: seq<Row>, expected: seq<Row>, ordered: bool, index: nat, remaining: set<nat>,
      m: Renaming, N: Numbers)
    requires index <= |expected|
  {
    exists p: seq<nat>, f: Renaming :: Solution(actual, expected, ordered, index, remaining, m, p, f, N)
  }

  predicate Solution(actual: seq<Row>, expected: seq<Row>, ordered: bool, index: nat, remaining: set<nat>,
      m: Renaming, p: seq<nat>, f: Renaming, N: Numbers)
    requires index <= |expected|
  {
    && Injective(f) && Extends(f, m) && Choice(p, remaining) && Aligned(actual, expected[index..], p, f, N)
    && (ordered ==> forall k :: 0 <= k < |p| ==> p[k] == index + k)
  }

  lemma SolutionStart(actual: seq<Row>, expected: seq<Row>, ordered: bool, index: nat, remaining: set<nat>,
      m: Renaming, i: nat, n: Renaming, p: seq<nat>, f: Renaming, N: Numbers)
    requires index < |expected| && i in remaining && i < |actual| && (ordered ==> i == index)
    requires RowMatches(actual[i], expected[index], n, N) && Extends(n, m)
    requires Solution(actual, expected, ordered, index + 1, remaining - {i}, n, p, f, N)
    ensures Solution(actual, expected, ordered, index, remaining, m, [i] + p, f, N)
  {
    var q := [i] + p;
    MatchStays(actual[i], expected[index], n, f, N);
    forall k | 0 <= k < |q|
      ensures q[k] in remaining && q[k] < |actual| && RowMatches(actual[q[k]], expected[index..][k], f, N)
    {
      if k > 0 {
        assert q[k] == p[k - 1] && expected[index..][k] == expected[index + 1..][k - 1];
      }
    }
    forall k, l | 0 <= k < l < |q| ensures q[k] != q[l] {
      assert q[l] == p[l - 1];
      if k > 0 { assert q[k] == p[k - 1]; }
    }
  }

  lemma SolutionRest(actual: seq<Row>, expected: seq<Row>, ordered: bool, index: nat, remaining: set<nat>,
      m: Renaming, n: Renaming, p: seq<nat>, f: Renaming, N: Numbers)
    requires index < |expected| && Solution(actual, expected, ordered, index, remaining, m, p, f, N) && Extends(f, n)
    ensures p != [] && p[0] < |actual| && RowMatches(actual[p[0]], expected[index], f, N)
    ensures Solution(actual, expected, ordered, index + 1, remaining - {p[0]}, n, p[1..], f, N)
  {
    var q := p[1..];
    assert expected[index..][0] == expected[index];
    forall k | 0 <= k < |q|
      ensures q[k] in remaining - {p[0]} && q[k] < |actual| && RowMatches(actual[q[k]], expected[index + 1..][k], f, N)
    {
      assert q[k] == p[k + 1] && expected[index..][k + 1] == expected[index + 1..][k];
    }
  }

  /** One candidate: the rows match and the rest can then be matched. */
  method Try(actual: seq<Row>, expected: seq<Row>, ordered: bool, index: nat, remaining: set<nat>, m: Renaming,
      i: nat, N: Numbers) returns (found: bool)
    requires index < |expected| && Injective(m) && remaining <= Below(|actual|) && i in remaining &&
      (ordered ==> i == index)
    ensures found ==> Solvable(actual, expected, ordered, index, remaining, m, N)
    ensures forall p: seq<nat>, f: Renaming ::
      Solution(actual, expected, ordered, index, remaining, m, p, f, N) && p[0] == i ==> found
    decreases |expected| - index, 0, 0
  {
    var copy := new Mapping(m);
    var a, b := actual[i], expected[index];
    var rowOk := false;
    if |a| == |b| {
      rowOk := copy.MatchRow(a, b, N);
    }
    if !rowOk {
      forall p: seq<nat>, f: Renaming | Solution(actual, expected, ordered, index, remaining, m, p, f, N) && p[0] == i
        ensures false
      {
        SolutionRest(actual, expected, ordered, index, remaining, m, m, p, f, N);
      }
      return false;
    }
    ghost var n := copy.pairs;
    found := Visit(actual, expected, ordered, index + 1, remaining - {i}, copy.pairs, N);
    if found {
      ghost var p, f :| Solution(actual, expected, ordered, index + 1, remaining - {i}, n, p, f, N);
      SolutionStart(actual, expected, ordered, index, remaining, m, i, n, p, f, N);
    }
    forall p: seq<nat>, f: Renaming | Solution(actual, expected, ordered, index, remaining, m, p, f, N) && p[0] == i
      ensures found
    {
      SolutionRest(actual, expected, ordered, index, remaining, m, m, p, f, N);
      SolutionRest(actual, expected, ordered, index, remaining, m, n, p, f, N);
    }
  }

  /** The backtracking search over the remaining rows, in any order. */
  method Visit(actual: seq<Row>, expected: seq<Row>, ordered: bool, index: nat, remaining: set<nat>, m: Renaming,
      N: Numbers) returns (found: bool)
    requires index <= |expected| && Injective(m) && remaining <= Below(|actual|)
    ensures found <==> Solvable(actual, expected, ordered, index, remaining, m, N)
    decreases |expected| - index, 1, 0
  {
    if index == |expected| {
      assert Solution(actual, expected, ordered, index, remaining, m, [], m, N);
      return true;
    }
    var candidates := if ordered then (if index in remaining then {index} else {}) else remaining;
    forall p: seq<nat>, f: Renaming | Solution(actual, expected, ordered, index, remaining, m, p, f, N)
      ensures p[0] in candidates
    {
      assert p[0] in remaining;
    }
    while candidates != {}
      invariant candidates <= remaining && (ordered ==> candidates <= {index})
      invariant forall p: seq<nat>, f: Renaming ::
        Solution(actual, expected, ordered, index, remaining, m, p, f, N) ==> p[0] in candidates
      decreases |expected| - index, 0, 1, |candidates|
    {
      var i :| i in candidates;
      found := Try(actual, expected, ordered, index, remaining, m, i, N);
      if found {
        return;
      }
      candidates := candidates - {i};
    }
    return false;
  }

  /** Sound and complete: true exactly when the results are isomorphic. */
  method RowsEqual(actual: seq<Row>, expected: seq<Row>, ordered: bool, N: Numbers) returns (same: bool)
    ensures same <==> Isomorphic(actual, expected, ordered, N)
    ensures same <==> |actual| == |expected| && Rewrites(actual, expected, ordered, N)
  {
    IsomorphicExactly(actual, expected, ordered, N);
    if |actual| != |expected| {
      return false;
    }
    same := Visit(actual, expected, ordered, 0, Below(|actual|), map[], N);
    assert expected[0..] == expected;
    forall p: seq<nat>, f: Renaming
      ensures Solution(actual, expected, ordered, 0, Below(|actual|), map[], p, f, N) <==>
        Witness(actual, expected, ordered, p, f, N)
    {
      if |p| == |expected| {
        assert p == Identity(|expected|) <==> forall k :: 0 <= k < |p| ==> p[k] == k;
      }
    }
  }

  // ---------------------------------------------------------------- an equivalence

  /** A term with its number, if it is one, in stored form. */
  function Normal(t: Term, N: Numbers): Term {
    if t.Literal? && t.datatypeIri in N.numeric then t.(value := N.stored(t.value, t.datatypeIri)) else t
  }

  lemma NumbersByNormalForm(s: Term, t: Term, N: Numbers)
    ensures s == t || SameNumericValue(s, t, N) <==> Normal(s, N) == Normal(t, N)
  {
  }

  /** A row with its blank nodes renamed and its numbers in stored form. */
  function Written(r: Row, f: Renaming, N: Numbers): (w: Row)
    ensures |w| == |r|
  {
    seq(|r|, c requires 0 <= c < |r| =>
      match r[c]
      case None => None
      case Some(Bnode(x)) => Some(Bnode(if x in f then f[x] else x))
      case Some(t) => Some(Normal(t, N)))
  }

  predicate LabelsIn(r: Row, f: Renaming) {
    forall c :: 0 <= c < |r| && r[c].Some? && r[c].value.Bnode? ==> r[c].value.node in f
  }

  lemma RowsMatchExactly(a: Row, b: Row, f: Renaming, N: Numbers)
    ensures RowMatches(a, b, f, N) <==> LabelsIn(a, f) && Written(a, f, N) == Written(b, map[], N)
  {
    if RowMatches(a, b, f, N) {
      forall c | 0 <= c < |a| ensures Written(a, f, N)[c] == Written(b, map[], N)[c] {
        assert CellMatches(a[c], b[c], f, N);
      }
    }
    if LabelsIn(a, f) && Written(a, f, N) == Written(b, map[], N) {
      forall c | 0 <= c < |a| ensures CellMatches(a[c], b[c], f, N) {
        assert Written(a, f, N)[c] == Written(b, map[], N)[c];
      }
    }
  }

  /** Some order of the rows and some injective renaming of their blank nodes turn the result into the
      expected one, written with numbers in stored form. */
  ghost predicate Rewrites(actual: seq<Row>, expected: seq<Row>, ordered: bool, N: Numbers) {
    exists p: seq<nat>, f: Renaming :: RewritesBy(actual, expected, ordered, p, f, N)
  }

  predicate RewritesBy(actual: seq<Row>, expected: seq<Row>, ordered: bool, p: seq<nat>, f: Renaming, N: Numbers) {
    && |p| == |expected| && (ordered ==> forall k :: 0 <= k < |p| ==> p[k] == k)
    && (forall k, l :: 0 <= k < l < |p| ==> p[k] != p[l])
    && (forall x, y :: x in f && y in f && x != y ==> f[x] != f[y])
    && forall k :: 0 <= k < |p| ==>
         p[k] < |actual| && LabelsIn(actual[p[k]], f) && Written(actual[p[k]], f, N) == Written(expected[k], map[], N)
  }

  /** What two equal results have in common, without comparing terms. */
  lemma IsomorphicExactly(actual: seq<Row>, expected: seq<Row>, ordered: bool, N: Numbers)
    ensures Isomorphic(actual, expected, ordered, N) <==>
      |actual| == |expected| && Rewrites(actual, expected, ordered, N)
  {
    forall p: seq<nat>, f: Renaming
      ensures Witness(actual, expected, ordered, p, f, N) <==> RewritesBy(actual, expected, ordered, p, f, N)
    {
      WitnessExactly(actual, expected, ordered, p, f, N);
    }
  }

  lemma WitnessExactly(actual: seq<Row>, expected: seq<Row>, ordered: bool, p: seq<nat>, f: Renaming, N: Numbers)
    ensures Witness(actual, expected, ordered, p, f, N) <==> RewritesBy(actual, expected, ordered, p, f, N)
  {
    forall k | 0 <= k < |p| && k < |expected| && p[k] < |actual|
      ensures RowMatches(actual[p[k]], expected[k], f, N) <==>
        LabelsIn(actual[p[k]], f) && Written(actual[p[k]], f, N) == Written(expected[k], map[], N)
    {
      RowsMatchExactly(actual[p[k]], expected[k], f, N);
    }
    if |p| == |expected| { assert p == Identity(|expected|) <==> forall k :: 0 <= k < |p| ==> p[k] == k; }
  }

  lemma Reflexive(rows: seq<Row>, ordered: bool, N: Numbers)
    ensures Isomorphic(rows, rows, ordered, N)
  {
    var f: Renaming := SelfMap(Labels(rows));
    var p := Identity(|rows|);
    forall k | 0 <= k < |rows| ensures RowMatches(rows[k], rows[k], f, N) {
      forall c | 0 <= c < |rows[k]| ensures CellMatches(rows[k][c], rows[k][c], f, N) {
        LabelsHas(rows, k, c);
      }
    }
    assert Witness(rows, rows, ordered, p, f, N);
  }

  function SelfMap(xs: set<string>): Renaming {
    map x | x in xs :: x
  }

  function RowLabels(r: Row): set<string> {
    if r == [] then {}
    else (if r[0].Some? && r[0].value.Bnode? then {r[0].value.node} else {}) + RowLabels(r[1..])
  }

  function Labels(rows: seq<Row>): set<string> {
    if rows == [] then {} else RowLabels(rows[0]) + Labels(rows[1..])
  }

  lemma {:induction false} RowLabelsHas(r: Row, c: nat)
    requires c < |r| && r[c].Some? && r[c].value.Bnode?
    ensures r[c].value.node in RowLabels(r)
  {
    if c > 0 { RowLabelsHas(r[1..], c - 1); }
  }

  lemma {:induction false} LabelsHas(rows: seq<Row>, k: nat, c: nat)
    requires k < |rows| && c < |rows[k]|
    ensures var t := rows[k][c]; t.Some? && t.value.Bnode? ==> t.value.node in Labels(rows)
  {
    if k > 0 {
      LabelsHas(rows[1..], k - 1, c);
    } else if rows[0][c].Some? && rows[0][c].value.Bnode? {
      RowLabelsHas(rows[0], c);
    }
  }

  function Composed(f: Renaming, g: Renaming): Renaming {
    map x | x in f && f[x] in g :: g[f[x]]
  }

  lemma CellsCompose(a: Cell, b: Cell, c: Cell, f: Renaming, g: Renaming, N: Numbers)
    requires CellMatches(a, b, f, N) && CellMatches(b, c, g, N)
    ensures CellMatches(a, c, Composed(f, g), N)
  {
  }

  lemma RowsCompose(a: Row, b: Row, c: Row, f: Renaming, g: Renaming, N: Numbers)
    requires RowMatches(a, b, f, N) && RowMatches(b, c, g, N)
    ensures RowMatches(a, c, Composed(f, g), N)
  {
    forall i | 0 <= i < |a|
      ensures CellMatches(a[i], c[i], Composed(f, g), N)
    {
      CellsCompose(a[i], b[i], c[i], f, g, N);
    }
  }

  lemma Transitive(a: seq<Row>, b: seq<Row>, c: seq<Row>, ordered: bool, N: Numbers)
    requires Isomorphic(a, b, ordered, N) && Isomorphic(b, c, ordered, N)
    ensures Isomorphic(a, c, ordered, N)
  {
    var p, f :| Witness(a, b, ordered, p, f, N);
    var q, g :| Witness(b, c, ordered, q, g, N);
    var n := |a|;
    var r: seq<nat> := seq(n, k requires 0 <= k < n => p[q[k]]);
    forall k, l | 0 <= k < l < n ensures r[k] != r[l] { assert q[k] != q[l]; }
    forall k | 0 <= k < n
      ensures RowMatches(a[r[k]], c[k], Composed(f, g), N)
    {
      RowsCompose(a[r[k]], b[q[k]], c[k], f, g, N);
    }
    assert Witness(a, c, ordered, r, Composed(f, g), N);
  }

  function Inverse(f: Renaming): Renaming
    requires Injective(f)
  {
    map y | y in f.Values :: (var x :| x in f && f[x] == y; x)
  }

  lemma InverseMaps(f: Renaming)
    requires Injective(f)
    ensures Injective(Inverse(f)) && forall x :: x in f ==> f[x] in Inverse(f) && Inverse(f)[f[x]] == x
  {
    forall x | x in f ensures f[x] in Inverse(f) && Inverse(f)[f[x]] == x {
      assert f[x] in f.Values;
    }
    forall y, z | y in Inverse(f) && z in Inverse(f) && Inverse(f)[y] == Inverse(f)[z] ensures y == z {
      assert f[Inverse(f)[y]] == y && f[Inverse(f)[z]] == z;
    }
  }

  lemma RowsInvert(a: Row, b: Row, f: Renaming, N: Numbers)
    requires Injective(f) && RowMatches(a, b, f, N)
    ensures RowMatches(b, a, Inverse(f), N)
  {
    InverseMaps(f);
    forall i | 0 <= i < |a| ensures CellMatches(b[i], a[i], Inverse(f), N) { assert CellMatches(a[i], b[i], f, N); }
  }

  function Elements(p: seq<nat>): set<nat> {
    if p == [] then {} else Elements(p[1..]) + {p[0]}
  }

  lemma {:induction false} ElementsSize(p: seq<nat>, from: set<nat>)
    requires Choice(p, from)
    ensures Elements(p) <= from && |Elements(p)| == |p| && forall i :: i in Elements(p) <==> i in p
  {
    if p != [] {
      assert Choice(p[1..], from);
      ElementsSize(p[1..], from);
      assert p[0] !in p[1..];
    }
  }

  /** A choice of all rows has an inverse. */
  lemma InversePermutation(p: seq<nat>, n: nat) returns (q: seq<nat>)
    requires Choice(p, Below(n)) && |p| == n
    ensures |q| == n && Choice(q, Below(n)) && forall i :: 0 <= i < n ==> p[q[i]] == i
  {
    q := [];
    for i := 0 to n
      invariant |q| == i && forall k :: 0 <= k < i ==> q[k] < n && p[q[k]] == k
    {
      var k := PositionOf(p, n, i);
      q := q + [k];
    }
  }

  lemma PositionOf(p: seq<nat>, n: nat, i: nat) returns (k: nat)
    requires Choice(p, Below(n)) && |p| == n && i < n
    ensures k < n && p[k] == i
  {
    ElementsSize(p, Below(n));
    SubsetOfSameSize(Elements(p), Below(n));
    assert i in Elements(p);
    k :| 0 <= k < n && p[k] == i;
  }

  lemma Symmetric(a: seq<Row>, b: seq<Row>, ordered: bool, N: Numbers)
    requires Isomorphic(a, b, ordered, N)
    ensures Isomorphic(b, a, ordered, N)
  {
    var p, f :| Witness(a, b, ordered, p, f, N);
    var q := InversePermutation(p, |a|);
    InverseMaps(f);
    forall k | 0 <= k < |a| ensures RowMatches(b[q[k]], a[k], Inverse(f), N) { RowsInvert(a[p[q[k]]], b[q[k]], f, N); }
    if ordered {
      forall k | 0 <= k < |a| ensures q[k] == k { assert p[q[k]] == q[k]; }
      assert q == Identity(|a|);
    }
    assert Witness(b, a, ordered, q, Inverse(f), N);
  }
}
