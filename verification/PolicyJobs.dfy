/** Building the policy jobs of a query: who asks for which decision. */
module PolicyJobs {
  import opened Text
  import opened PolicyDecisions

  /** A table that the query reads, with the columns it needs; both come sorted and without
      repetition. */
  datatype Table = Table(name: string, columns: seq<string>)

  /** Which decision endpoints are configured. */
  datatype Setup = Setup(batchAllow: bool, rows: bool, batchMasks: bool, masks: bool, maxBatch: nat)

  predicate DistinctTables(ts: seq<Table>) {
    && (forall i :: 0 <= i < |ts| ==> NoRepeats(ts[i].columns))
    && (forall i, j :: 0 <= i < j < |ts| ==> ts[i].name != ts[j].name)
  }

  // ---------------------------------------------------------------- what jobs cover

  function CellsOf(name: string, cs: seq<string>): set<Cell> {
    if cs == [] then {} else CellsOf(name, cs[..|cs| - 1]) + {(name, cs[|cs| - 1])}
  }

  function AllCells(ts: seq<Table>): set<Cell> {
    if ts == [] then {} else AllCells(ts[..|ts| - 1]) + CellsOf(ts[|ts| - 1].name, ts[|ts| - 1].columns)
  }

  function AllNames(ts: seq<Table>): set<string> {
    if ts == [] then {} else AllNames(ts[..|ts| - 1]) + {ts[|ts| - 1].name}
  }

  function RowsAsked(ks: seq<Kind>): set<string> {
    if ks == [] then {} else RowsAsked(ks[..|ks| - 1]) + RowTarget(ks[|ks| - 1])
  }

  function MasksAsked(ks: seq<Kind>): set<Cell> {
    if ks == [] then {} else MasksAsked(ks[..|ks| - 1]) + MaskTarget(ks[|ks| - 1])
  }

  function AccessOf(k: Kind): seq<string> {
    match k
    case Allow(t) => [t]
    case BatchAllow(ts) => ts
    case _ => []
  }

  /** The tables that access decisions are asked about, in order. */
  function Authorised(ks: seq<Kind>): seq<string> {
    if ks == [] then [] else Authorised(ks[..|ks| - 1]) + AccessOf(ks[|ks| - 1])
  }

  function NamesIn(ts: seq<Table>): (r: seq<string>)
    ensures |r| == |ts|
  {
    seq(|ts|, i requires 0 <= i < |ts| => ts[i].name)
  }

  /** Each job asks for something that no earlier job asks for. */
  predicate Unshared(ks: seq<Kind>) {
    ks == [] ||
    (var front, last := ks[..|ks| - 1], ks[|ks| - 1];
     && Unshared(front)
     && RowTarget(last) !! RowsAsked(front) && MaskTarget(last) !! MasksAsked(front)
     && (last.Masks? ==> NoRepeats(last.columns)))
  }

  /** The state of the job list: what has been asked so far. */
  ghost predicate Asked(ks: seq<Kind>, rows: set<string>, masks: set<Cell>, tables: seq<string>) {
    Unshared(ks) && RowsAsked(ks) == rows && MasksAsked(ks) == masks && Authorised(ks) == tables
  }

  lemma Push(ks: seq<Kind>, k: Kind, rows: set<string>, masks: set<Cell>, tables: seq<string>)
    requires Asked(ks, rows, masks, tables) && RowTarget(k) !! rows && MaskTarget(k) !! masks
    requires k.Masks? ==> NoRepeats(k.columns)
    ensures Asked(ks + [k], rows + RowTarget(k), masks + MaskTarget(k), tables + AccessOf(k))
  {
    assert (ks + [k])[..|ks|] == ks;
  }

  // ---------------------------------------------------------------- cells

  lemma {:induction false} CellsAre(name: string, cs: seq<string>)
    ensures CellsOf(name, cs) == MaskTarget(Masks(name, cs))
  {
    if cs != [] {
      var front := cs[..|cs| - 1];
      CellsAre(name, front);
      assert cs == front + [cs[|cs| - 1]];
      forall c: Cell
        ensures c in MaskTarget(Masks(name, cs)) <==>
          c in MaskTarget(Masks(name, front)) || c == (name, cs[|cs| - 1])
      {
      }
    }
  }

  lemma {:induction false} CellsConcat(name: string, a: seq<string>, b: seq<string>)
    ensures CellsOf(name, a + b) == CellsOf(name, a) + CellsOf(name, b)
  {
    if b == [] {
      assert a + b == a;
    } else {
      var front := b[..|b| - 1];
      assert (a + b)[..|a + b| - 1] == a + front;
      CellsConcat(name, a, front);
    }
  }

  lemma {:induction false} InCells(name: string, cs: seq<string>, c: Cell)
    ensures c in CellsOf(name, cs) <==> c.0 == name && c.1 in cs
  {
    if cs != [] {
      InCells(name, cs[..|cs| - 1], c);
      assert cs == cs[..|cs| - 1] + [cs[|cs| - 1]];
    }
  }

  lemma ApartCells(name: string, a: seq<string>, b: seq<string>)
    requires forall x, y :: 0 <= x < |a| && 0 <= y < |b| ==> a[x] != b[y]
    ensures CellsOf(name, a) !! CellsOf(name, b)
  {
    forall c: Cell ensures !(c in CellsOf(name, a) && c in CellsOf(name, b)) {
      InCells(name, a, c);
      InCells(name, b, c);
    }
  }

  lemma ChunkCells(name: string, cs: seq<string>, i: nat, j: nat)
    requires NoRepeats(cs) && i <= j <= |cs|
    ensures CellsOf(name, cs[..j]) == CellsOf(name, cs[..i]) + CellsOf(name, cs[i..j])
    ensures CellsOf(name, cs[i..j]) !! CellsOf(name, cs[..i]) && NoRepeats(cs[i..j])
    ensures CellsOf(name, cs[i..j]) <= CellsOf(name, cs)
  {
    assert cs[..j] == cs[..i] + cs[i..j] && cs == cs[..j] + cs[j..];
    CellsConcat(name, cs[..i], cs[i..j]);
    CellsConcat(name, cs[..j], cs[j..]);
    ApartCells(name, cs[i..j], cs[..i]);
  }

  lemma CellsHaveName(name: string, cs: seq<string>, c: Cell)
    requires c in CellsOf(name, cs)
    ensures c.0 == name
  {
    CellsAre(name, cs);
  }

  lemma {:induction false} OtherTables(ts: seq<Table>, name: string)
    requires forall i :: 0 <= i < |ts| ==> ts[i].name != name
    ensures name !in AllNames(ts) && forall c :: c in AllCells(ts) ==> c.0 != name
  {
    if ts != [] {
      var last := ts[|ts| - 1];
      OtherTables(ts[..|ts| - 1], name);
      forall c | c in CellsOf(last.name, last.columns)
        ensures c.0 == last.name
      {
        CellsHaveName(last.name, last.columns, c);
      }
    }
  }

  // ---------------------------------------------------------------- the loops

  /** One access decision per table, or one per batch of tables. */
  method AccessJobs(ts: seq<Table>, s: Setup) returns (jobs: seq<Kind>)
    requires s.maxBatch > 0
    ensures Asked(jobs, {}, {}, NamesIn(ts))
  {
    jobs := [];
    var names := NamesIn(ts);
    var done := 0;
    while done < |ts|
      invariant done <= |ts| && Asked(jobs, {}, {}, names[..done])
    {
      var size := if !s.batchAllow then 1 else if |ts| - done < s.maxBatch then |ts| - done else s.maxBatch;
      var job := if s.batchAllow then BatchAllow(names[done..done + size]) else Allow(names[done]);
      Push(jobs, job, {}, {}, names[..done]);
      assert names[..done] + AccessOf(job) == names[..done + size];
      jobs, done := jobs + [job], done + size;
    }
    assert names[..|ts|] == names;
  }

  /** The mask jobs of one table: chunks, or one job per column. */
  method MaskJobs(jobs: seq<Kind>, t: Table, s: Setup, ghost rows: set<string>, ghost masks: set<Cell>,
      ghost access: seq<string>) returns (r: seq<Kind>)
    requires s.maxBatch > 0 && NoRepeats(t.columns) && Asked(jobs, rows, masks, access)
    requires masks !! CellsOf(t.name, t.columns)
    ensures Asked(r, rows, if s.batchMasks || s.masks then masks + CellsOf(t.name, t.columns) else masks, access)
  {
    r := jobs;
    if !s.batchMasks && !s.masks {
      return;
    }
    var i := 0;
    while i < |t.columns|
      invariant i <= |t.columns| && Asked(r, rows, masks + CellsOf(t.name, t.columns[..i]), access)
    {
      var j := if !s.batchMasks then i + 1 else if |t.columns| - i < s.maxBatch then |t.columns| else i + s.maxBatch;
      var job := if s.batchMasks then Masks(t.name, t.columns[i..j]) else Mask(t.name, t.columns[i]);
      PushChunk(r, t, i, j, job, rows, masks, access);
      r, i := r + [job], j;
    }
    assert t.columns[..|t.columns|] == t.columns;
  }

  lemma PushChunk(r: seq<Kind>, t: Table, i: nat, j: nat, job: Kind, rows: set<string>, masks: set<Cell>,
                  access: seq<string>)
    requires i < j <= |t.columns| && NoRepeats(t.columns) && masks !! CellsOf(t.name, t.columns)
    requires job == Masks(t.name, t.columns[i..j]) || (j == i + 1 && job == Mask(t.name, t.columns[i]))
    requires Asked(r, rows, masks + CellsOf(t.name, t.columns[..i]), access)
    ensures Asked(r + [job], rows, masks + CellsOf(t.name, t.columns[..j]), access)
  {
    ChunkCells(t.name, t.columns, i, j);
    JobCells(t, i, j, job);
    var before := masks + CellsOf(t.name, t.columns[..i]);
    Push(r, job, rows, before, access);
    assert before + MaskTarget(job) == masks + CellsOf(t.name, t.columns[..j]);
    assert rows + RowTarget(job) == rows;
  }

  lemma JobCells(t: Table, i: nat, j: nat, job: Kind)
    requires i < j <= |t.columns|
    requires job == Masks(t.name, t.columns[i..j]) || (j == i + 1 && job == Mask(t.name, t.columns[i]))
    ensures MaskTarget(job) == CellsOf(t.name, t.columns[i..j])
  {
    CellsAre(t.name, t.columns[i..j]);
    if job.Mask? {
      var one := t.columns[i..j];
      assert one == [t.columns[i]] && one[..0] == [];
    }
  }

  /** The row-filter and mask jobs of one table. */
  method TableJobs(jobs: seq<Kind>, ts: seq<Table>, n: nat, s: Setup) returns (r: seq<Kind>)
    requires s.maxBatch > 0 && DistinctTables(ts) && n < |ts| && Covers(jobs, ts, n, s)
    ensures Covers(r, ts, n + 1, s)
  {
    var t := ts[n];
    ghost var before := ts[..n];
    OtherTables(before, t.name);
    assert ts[..n + 1][..n] == before;
    forall c | c in CellsOf(t.name, t.columns) ensures c !in AllCells(before) { CellsHaveName(t.name, t.columns, c); }
    r := jobs;
    if s.rows {
      Push(r, Rows(t.name), RowsBefore(ts, n, s), CellsBefore(ts, n, s), NamesIn(ts));
      r := r + [Rows(t.name)];
      assert CellsBefore(ts, n, s) + MaskTarget(Rows(t.name)) == CellsBefore(ts, n, s);
    }
    r := MaskJobs(r, t, s, RowsBefore(ts, n + 1, s), CellsBefore(ts, n, s), NamesIn(ts));
  }

  ghost function RowsBefore(ts: seq<Table>, n: nat, s: Setup): set<string>
    requires n <= |ts|
  {
    if s.rows then AllNames(ts[..n]) else {}
  }

  ghost function CellsBefore(ts: seq<Table>, n: nat, s: Setup): set<Cell>
    requires n <= |ts|
  {
    if s.batchMasks || s.masks then AllCells(ts[..n]) else {}
  }

  /** The jobs ask for access to every table once and, of the first n tables, for every configured
      row filter and column mask once. */
  ghost predicate Covers(jobs: seq<Kind>, ts: seq<Table>, n: nat, s: Setup)
    requires n <= |ts|
  {
    Asked(jobs, RowsBefore(ts, n, s), CellsBefore(ts, n, s), NamesIn(ts))
  }

  method BuildJobs(ts: seq<Table>, s: Setup) returns (jobs: seq<Kind>)
    requires s.maxBatch > 0 && DistinctTables(ts)
    ensures Covers(jobs, ts, |ts|, s)
  {
    jobs := AccessJobs(ts, s);
    for n := 0 to |ts|
      invariant Covers(jobs, ts, n, s)
    {
      jobs := TableJobs(jobs, ts, n, s);
    }
  }

  // ---------------------------------------------------------------- separation

  lemma {:induction false} EarlierAsked(ks: seq<Kind>, i: nat)
    requires i < |ks|
    ensures RowTarget(ks[i]) <= RowsAsked(ks) && MaskTarget(ks[i]) <= MasksAsked(ks)
  {
    if i < |ks| - 1 { EarlierAsked(ks[..|ks| - 1], i); }
  }

  lemma {:induction false} UnsharedApart(ks: seq<Kind>, i: nat, j: nat)
    requires Unshared(ks) && i < j < |ks|
    ensures RowTarget(ks[i]) !! RowTarget(ks[j]) && MaskTarget(ks[i]) !! MaskTarget(ks[j])
    ensures (ks[i].Masks? ==> NoRepeats(ks[i].columns)) && (ks[j].Masks? ==> NoRepeats(ks[j].columns))
  {
    var front := ks[..|ks| - 1];
    if j < |ks| - 1 {
      UnsharedApart(front, i, j);
    } else {
      EarlierAsked(front, i);
      UnsharedNoRepeats(ks, i);
    }
  }

  lemma {:induction false} UnsharedNoRepeats(ks: seq<Kind>, i: nat)
    requires Unshared(ks) && i < |ks|
    ensures ks[i].Masks? ==> NoRepeats(ks[i].columns)
  {
    if i < |ks| - 1 { UnsharedNoRepeats(ks[..|ks| - 1], i); }
  }

  /** Answers to built jobs never fill the same slot twice, so their order does not matter. */
  lemma AnswersSeparate(jobs: seq<Kind>, rs: seq<Result>)
    requires Unshared(jobs) && |rs| == |jobs| && forall i :: 0 <= i < |jobs| ==> rs[i].kind == jobs[i]
    ensures Separate(rs)
  {
    forall i | 0 <= i < |rs| && rs[i].kind.Masks? ensures NoRepeats(rs[i].kind.columns) { UnsharedNoRepeats(jobs, i); }
    forall i, j | 0 <= i < |rs| && 0 <= j < |rs| && i != j
      ensures RowTarget(rs[i].kind) !! RowTarget(rs[j].kind) && MaskTarget(rs[i].kind) !! MaskTarget(rs[j].kind)
    {
      UnsharedApart(jobs, if i < j then i else j, if i < j then j else i);
    }
  }

  /** However the answers to the built jobs arrive, the outcome is the same. */
  lemma ArrivalOrderIrrelevant(tables: set<string>, jobs: seq<Kind>, rs: seq<Result>, arrived: seq<Result>)
    requires Unshared(jobs) && |rs| == |jobs| && forall i :: 0 <= i < |jobs| ==> rs[i].kind == jobs[i]
    requires multiset(arrived) == multiset(rs)
    ensures Separate(arrived) && (AllAcceptable(rs) <==> AllAcceptable(arrived))
    ensures AllAcceptable(rs) ==> Merged(tables, rs) == Merged(tables, arrived)
  {
    AnswersSeparate(jobs, rs);
    OrderIndependent(tables, rs, arrived);
  }

  // ---------------------------------------------------------------- decisions for a query

  lemma {:induction false} RowsAskedBy(ks: seq<Kind>, t: string) returns (i: nat)
    requires t in RowsAsked(ks)
    ensures i < |ks| && ks[i] == Rows(t)
  {
    var n := |ks| - 1;
    if ks[n] == Rows(t) {
      i := n;
    } else {
      i := RowsAskedBy(ks[..n], t);
    }
  }

  lemma {:induction false} MaskAskedBy(ks: seq<Kind>, c: Cell) returns (i: nat)
    requires c in MasksAsked(ks)
    ensures i < |ks| && (ks[i] == Mask(c.0, c.1) || (ks[i].Masks? && ks[i].table == c.0 && c.1 in ks[i].columns))
  {
    var n := |ks| - 1;
    if c in MaskTarget(ks[n]) {
      i := n;
    } else {
      i := MaskAskedBy(ks[..n], c);
    }
  }

  lemma {:induction false} AccessAskedBy(ks: seq<Kind>, t: string) returns (i: nat)
    requires t in Authorised(ks)
    ensures i < |ks| && (ks[i] == Allow(t) || (ks[i].BatchAllow? && t in ks[i].tables))
  {
    var n := |ks| - 1;
    if t in AccessOf(ks[n]) {
      i := n;
    } else {
      i := AccessAskedBy(ks[..n], t);
    }
  }

  lemma {:induction false} NameAmong(ts: seq<Table>, i: nat)
    requires i < |ts|
    ensures ts[i].name in AllNames(ts)
  {
    if i < |ts| - 1 { NameAmong(ts[..|ts| - 1], i); }
  }

  lemma {:induction false} CellAmong(ts: seq<Table>, i: nat, c: string)
    requires i < |ts| && c in ts[i].columns
    ensures (ts[i].name, c) in AllCells(ts)
  {
    if i < |ts| - 1 {
      CellAmong(ts[..|ts| - 1], i, c);
    } else {
      InCells(ts[i].name, ts[i].columns, (ts[i].name, c));
    }
  }

  type Policy = Kind -> Value

  /** The policy allows the table: by the value true, or by listing it in a batch. */
  ghost predicate Allowed(policy: Policy, t: string) {
    || policy(Allow(t)) == Truth(true)
    || exists ts, k :: 0 <= k < |ts| && ts[k] == t && policy(BatchAllow(ts)).Indices? &&
         k in policy(BatchAllow(ts)).indices
  }

  /** The policy's word on a column, asked alone or in a chunk: its mask, or that it has none. */
  ghost predicate MaskedAs(policy: Policy, t: string, c: string, made: Restrictions) {
    || (policy(Mask(t, c)) == Nothing && (t, c) !in made.masks)
    || (policy(Mask(t, c)).OneMask? && (t, c) in made.masks && made.masks[(t, c)] == policy(Mask(t, c)).view)
    || exists cs, k :: 0 <= k < |cs| && cs[k] == c && policy(Masks(t, cs)).ManyMasks? &&
         forall v :: HasMask(made, t, c, v) <==> (k, v) in policy(Masks(t, cs)).masks
  }

  method Asking(jobs: seq<Kind>, policy: Policy) returns (rs: seq<Result>)
    ensures |rs| == |jobs| && forall i :: 0 <= i < |jobs| ==> rs[i] == Result(jobs[i], policy(jobs[i]))
  {
    rs := seq(|jobs|, i requires 0 <= i < |jobs| => Result(jobs[i], policy(jobs[i])));
  }

  /** Decides a query: builds the jobs, asks the policy and gathers the answers. Success means that the
      policy allows every table that the query reads, and that each table then has the row filters and
      each column the mask that the policy gives it, wherever these are configured. */
  method Decide(ts: seq<Table>, s: Setup, policy: Policy) returns (r: Outcome<Restrictions>)
    requires s.maxBatch > 0 && DistinctTables(ts)
    ensures r.Done? ==> forall i :: 0 <= i < |ts| ==> Allowed(policy, ts[i].name)
    ensures r.Done? && s.rows ==> forall i :: 0 <= i < |ts| ==>
      && policy(Rows(ts[i].name)).Filters? && ts[i].name in r.value.rows
      && r.value.rows[ts[i].name] == policy(Rows(ts[i].name)).views
    ensures r.Done? && !s.rows ==> forall i :: 0 <= i < |ts| ==>
      ts[i].name in r.value.rows && r.value.rows[ts[i].name] == []
    ensures r.Done? && (s.masks || s.batchMasks) ==> forall i, c :: 0 <= i < |ts| && c in ts[i].columns ==>
      MaskedAs(policy, ts[i].name, c, r.value)
    ensures r.Done? && !s.masks && !s.batchMasks ==> r.value.masks == map[]
  {
    var jobs := BuildJobs(ts, s);
    var rs := Asking(jobs, policy);
    AnswersSeparate(jobs, rs);
    var names := set i | 0 <= i < |ts| :: ts[i].name;
    r := Gather(names, rs);
    if r.Done? {
      forall i | 0 <= i < |ts| ensures Allowed(policy, ts[i].name) { TableAllowed(ts, s, policy, jobs, rs, i); }
      RowsDecided(ts, s, policy, jobs, rs, names, r.value);
      forall i, c | (s.masks || s.batchMasks) && 0 <= i < |ts| && c in ts[i].columns
        ensures MaskedAs(policy, ts[i].name, c, r.value)
      {
        ColumnDecided(ts, s, policy, jobs, rs, r.value, i, c);
      }
      if !s.masks && !s.batchMasks { NothingMasked(jobs, rs, r.value); }
    }
  }

  ghost predicate Answered(jobs: seq<Kind>, policy: Policy, rs: seq<Result>) {
    |rs| == |jobs| && forall i :: 0 <= i < |jobs| ==> rs[i] == Result(jobs[i], policy(jobs[i]))
  }

  lemma TableAllowed(ts: seq<Table>, s: Setup, policy: Policy, jobs: seq<Kind>, rs: seq<Result>, i: nat)
    requires Covers(jobs, ts, |ts|, s) && Answered(jobs, policy, rs) && i < |ts|
    requires forall j :: 0 <= j < |rs| && rs[j].kind.Allow? ==> rs[j].value == Truth(true)
    requires forall j :: 0 <= j < |rs| && rs[j].kind.BatchAllow? ==>
      rs[j].value.Indices? && ListsEachOnce(|rs[j].kind.tables|, rs[j].value.indices)
    ensures Allowed(policy, ts[i].name)
  {
    assert NamesIn(ts)[i] == ts[i].name;
    var j := AccessAskedBy(jobs, ts[i].name);
    if jobs[j].BatchAllow? {
      var k :| 0 <= k < |jobs[j].tables| && jobs[j].tables[k] == ts[i].name;
      assert multiset(rs[j].value.indices)[k] == 1 && k in rs[j].value.indices;
    }
  }

  ghost predicate RowDecided(policy: Policy, s: Setup, t: string, made: Restrictions) {
    && t in made.rows
    && if s.rows then policy(Rows(t)).Filters? && made.rows[t] == policy(Rows(t)).views else made.rows[t] == []
  }

  lemma RowsDecided(ts: seq<Table>, s: Setup, policy: Policy, jobs: seq<Kind>, rs: seq<Result>, names: set<string>,
                    made: Restrictions)
    requires Covers(jobs, ts, |ts|, s) && Answered(jobs, policy, rs) && GivesRows(names, rs, made)
    requires names == set i | 0 <= i < |ts| :: ts[i].name
    requires forall j :: 0 <= j < |rs| && rs[j].kind.Rows? ==> rs[j].value.Filters?
    ensures forall i :: 0 <= i < |ts| ==> RowDecided(policy, s, ts[i].name, made)
  {
    assert ts[..|ts|] == ts;
    forall i | 0 <= i < |ts| ensures RowDecided(policy, s, ts[i].name, made) {
      NameAmong(ts, i);
      if s.rows {
        var j := RowsAskedBy(jobs, ts[i].name);
      } else {
        forall j | 0 <= j < |rs| ensures rs[j].kind != Rows(ts[i].name) { EarlierAsked(jobs, j); }
      }
    }
  }

  lemma ColumnDecided(ts: seq<Table>, s: Setup, policy: Policy, jobs: seq<Kind>, rs: seq<Result>, made: Restrictions,
                      i: nat, c: string)
    requires Covers(jobs, ts, |ts|, s) && Answered(jobs, policy, rs) && GivesMasks(rs, made) && Separate(rs)
    requires (s.masks || s.batchMasks) && i < |ts| && c in ts[i].columns
    requires forall j :: 0 <= j < |rs| && rs[j].kind.Mask? ==> rs[j].value == Nothing || rs[j].value.OneMask?
    requires forall j :: 0 <= j < |rs| && rs[j].kind.Masks? ==> rs[j].value.ManyMasks?
    ensures MaskedAs(policy, ts[i].name, c, made)
  {
    var t := ts[i].name;
    assert ts[..|ts|] == ts;
    CellAmong(ts, i, c);
    var j := MaskAskedBy(jobs, (t, c));
    assert (t, c) in MaskTarget(rs[j].kind);
    forall n, v | 0 <= n < |rs| && Says(rs[n], t, c, v) ensures n == j {
      assert (t, c) in MaskTarget(rs[n].kind);
    }
    if jobs[j].Masks? {
      ChunkDecided(policy, t, c, jobs[j], rs, made, j);
    } else {
      forall v ensures HasMask(made, t, c, v) <==> rs[j].value == OneMask(v) {
        assert SaidBy(rs, t, c, v) <==> Says(rs[j], t, c, v);
      }
      if (t, c) in made.masks { assert HasMask(made, t, c, made.masks[(t, c)]); }
      if rs[j].value.OneMask? { assert HasMask(made, t, c, rs[j].value.view); }
    }
  }

  lemma ChunkDecided(policy: Policy, t: string, c: string, job: Kind, rs: seq<Result>, made: Restrictions, j: nat)
    requires GivesMasks(rs, made) && Separate(rs) && j < |rs| && rs[j] == Result(job, policy(job))
    requires job.Masks? && job.table == t && c in job.columns && rs[j].value.ManyMasks?
    requires forall n, v :: 0 <= n < |rs| && Says(rs[n], t, c, v) ==> n == j
    ensures MaskedAs(policy, t, c, made)
  {
    var cs := job.columns;
    var k :| 0 <= k < |cs| && cs[k] == c;
    assert job == Masks(t, cs) && NoRepeats(cs);
    forall v ensures HasMask(made, t, c, v) <==> (k, v) in policy(Masks(t, cs)).masks {
      assert Says(rs[j], t, c, v) <==> (k, v) in rs[j].value.masks;
      assert SaidBy(rs, t, c, v) <==> Says(rs[j], t, c, v);
    }
  }

  lemma {:induction false} MaskWasAsked(jobs: seq<Kind>, rs: seq<Result>, made: Restrictions, c: Cell)
    requires |rs| == |jobs| && (forall i :: 0 <= i < |jobs| ==> rs[i].kind == jobs[i])
    requires GivesMasks(rs, made) && c in made.masks
    ensures c in MasksAsked(jobs)
  {
    var v := made.masks[c];
    assert (c.0, c.1) == c && HasMask(made, c.0, c.1, v);
    assert SaidBy(rs, c.0, c.1, v);
    var i :| 0 <= i < |rs| && Says(rs[i], c.0, c.1, v);
    EarlierAsked(jobs, i);
    assert c in MaskTarget(jobs[i]);
  }

  lemma NothingMasked(jobs: seq<Kind>, rs: seq<Result>, made: Restrictions)
    requires |rs| == |jobs| && (forall i :: 0 <= i < |jobs| ==> rs[i].kind == jobs[i])
    requires MasksAsked(jobs) == {} && GivesMasks(rs, made)
    ensures made.masks == map[]
  {
    forall c ensures c !in made.masks {
      if c in made.masks { MaskWasAsked(jobs, rs, made, c); }
    }
  }
}
