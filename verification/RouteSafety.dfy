/** What a caller can check before routing so that every scan reads what was meant by it. */
module RouteSafety {
  import opened Text
  import opened Plans
  import opened ExchangeNames
  import opened Routing
  import opened TransferOrder
  import opened RouteExecution

  /** No table that the plan scans shares its dotted name with another declared table. */
  predicate JoinsApart(cfg: Config, p: Plan) {
    forall t, i :: t in Scans(p) && 0 <= i < |cfg.declared| && Join(cfg.declared[i].table) == Join(t) ==>
      cfg.declared[i].table == t
  }

  /** Where the router takes a table to live: what its dotted name is declared for, else the target. */
  function TakenFor(cfg: Config, t: Table): Engine {
    var o := Owner(cfg.declared, Join(t));
    if o.Some? then o.value else cfg.target
  }

  /** The router takes every scanned table to live where it was declared. */
  predicate WellOwned(cfg: Config, p: Plan) {
    forall t :: t in Scans(p) ==> TakenFor(cfg, t) == Home(cfg, t)
  }

  /** No declared or scanned table has a name that looks generated. */
  predicate OrdinaryNames(cfg: Config, p: Plan) {
    && (forall i :: 0 <= i < |cfg.declared| ==> !StartsWith(Join(cfg.declared[i].table), PREFIX))
    && (forall t :: t in Scans(p) && |t| == 1 ==> !StartsWith(t[0], PREFIX))
  }

  predicate Flat(p: Plan) {
    match p
    case Scan(_, _) => true
    case Exchanged(_, _) => true
    case Project(_, i) => Flat(i)
    case Restore(_, i) => Flat(i)
    case Aliased(_, i) => Flat(i)
    case Node(_, _, ks) => forall k :: k in ks ==> Flat(k)
    case Dependent(_, _, _, _) => false
  }

  // ---------------------------------------------------------------- owners

  lemma {:induction false} OwnerIsHome(ds: seq<Declared>, t: Table, target: Engine)
    requires forall i :: 0 <= i < |ds| && Join(ds[i].table) == Join(t) ==> ds[i].table == t
    ensures HomeIn(ds, t, target) == if Owner(ds, Join(t)).Some? then Owner(ds, Join(t)).value else target
  {
    if ds != [] {
      OwnerIsHome(ds[..|ds| - 1], t, target);
    }
  }

  lemma ApartIsWellOwned(cfg: Config, p: Plan)
    requires JoinsApart(cfg, p)
    ensures WellOwned(cfg, p)
  {
    forall t | t in Scans(p) ensures TakenFor(cfg, t) == Home(cfg, t) {
      OwnerIsHome(cfg.declared, t, cfg.target);
    }
  }

  lemma {:induction false} OwnedIsDeclared(ds: seq<Declared>, key: string)
    requires Owner(ds, key).Some?
    ensures exists i :: 0 <= i < |ds| && Join(ds[i].table) == key
  {
    var n := |ds| - 1;
    if Join(ds[n].table) != key {
      OwnedIsDeclared(ds[..n], key);
      var i :| 0 <= i < n && Join(ds[..n][i].table) == key;
      assert Join(ds[i].table) == key;
    }
  }

  lemma GeneratedIsUnowned(cfg: Config, p: Plan, x: string)
    requires OrdinaryNames(cfg, p) && StartsWith(x, PREFIX)
    ensures Owner(cfg.declared, x).None?
  {
    if Owner(cfg.declared, x).Some? { OwnedIsDeclared(cfg.declared, x); }
  }

  /** A transfer runs where the owner map puts everything it reads. */
  predicate Housed(cfg: Config, t: Transfer) {
    if t.completion.Apply? then t.engine == cfg.target && NoForeignScan(cfg, t.plan)
    else forall k :: k in Keys(t.plan) ==> Owner(cfg.declared, k) == Some(t.engine)
  }

  predicate AllHoused(cfg: Config, ts: seq<Transfer>) {
    forall i :: 0 <= i < |ts| ==> Housed(cfg, ts[i])
  }

  lemma {:induction false} IslandsHoused(cfg: Config, call: Call, p: Plan, book: Book)
    requires AllHoused(cfg, book.transfers)
    ensures AllHoused(cfg, Islands(cfg, call, p, book).1.transfers)
    decreases p, 1
  {
    match TryCut(cfg, call, p, book)
    case Cut(_, done) =>
      CutShape(cfg, call, p, book);
      assert Keys(done.transfers[|book.transfers|].plan) == Keys(p);
    case Keep(kept) =>
      if p.Node? {
        IslandsAllHoused(cfg, call, p.inputs, kept);
      } else if !Leaf(p) {
        IslandsHoused(cfg, call, p.input, kept);
      }
  }

  lemma {:induction false} IslandsAllHoused(cfg: Config, call: Call, ks: seq<Plan>, book: Book)
    requires AllHoused(cfg, book.transfers)
    ensures AllHoused(cfg, IslandsAll(cfg, call, ks, book).1.transfers)
    decreases ks, 2
  {
    if ks != [] {
      IslandsHoused(cfg, call, ks[0], book);
      IslandsAllHoused(cfg, call, ks[1..], Islands(cfg, call, ks[0], book).1);
    }
  }

  lemma {:induction false} OperationsHoused(cfg: Config, call: Call, p: Plan, book: Book, next: nat)
    requires AllHoused(cfg, book.transfers) && Operations(cfg, call, p, book, next).Done?
    ensures AllHoused(cfg, Operations(cfg, call, p, book, next).value.1.transfers)
    decreases p, 1
  {
    if p.Node? {
      OperationsAllHoused(cfg, call, p.inputs, book, next);
    } else if p.Dependent? {
      RouteHoused(cfg, p.input, next);
      var inner := Route(cfg, p.input, next).value;
      CompletedByShape(cfg, call, p, book, inner.plan, inner.transfers);
    } else if !Leaf(p) {
      OperationsHoused(cfg, call, p.input, book, next);
    }
  }

  lemma {:induction false} OperationsAllHoused(cfg: Config, call: Call, ks: seq<Plan>, book: Book, next: nat)
    requires AllHoused(cfg, book.transfers) && OperationsAll(cfg, call, ks, book, next).Done?
    ensures AllHoused(cfg, OperationsAll(cfg, call, ks, book, next).value.1.transfers)
    decreases ks, 0
  {
    if ks != [] {
      OperationsHoused(cfg, call, ks[0], book, next);
      var (q, b, n) := Operations(cfg, call, ks[0], book, next).value;
      OperationsAllHoused(cfg, call, ks[1..], b, n);
    }
  }

  /** Every transfer runs where the owner map puts everything it reads, and the routed plan reads
      nothing that the map gives to another engine than the target. */
  lemma {:induction false} RouteHoused(cfg: Config, p: Plan, next: nat)
    requires Route(cfg, p, next).Done?
    ensures AllHoused(cfg, Route(cfg, p, next).value.transfers) && NoForeignScan(cfg, Route(cfg, p, next).value.plan)
    decreases p, 2
  {
    var call := Call(next, Scans(p));
    OperationsHoused(cfg, call, p, Book(Reserved(p), []), next + 1);
    var (q, book, n) := Operations(cfg, call, p, Book(Reserved(p), []), next + 1).value;
    IslandsHoused(cfg, call, q, book);
  }

  // ---------------------------------------------------------------- plans without operations

  lemma {:induction false} FlatOperations(cfg: Config, call: Call, p: Plan, book: Book, next: nat)
    requires Flat(p)
    ensures Operations(cfg, call, p, book, next) == Done((p, book, next))
    decreases p, 1
  {
    if p.Node? {
      FlatOperationsAll(cfg, call, p.inputs, book, next);
    } else if !Leaf(p) {
      FlatOperations(cfg, call, p.input, book, next);
    }
  }

  lemma {:induction false} FlatOperationsAll(cfg: Config, call: Call, ks: seq<Plan>, book: Book, next: nat)
    requires forall k :: k in ks ==> Flat(k)
    ensures OperationsAll(cfg, call, ks, book, next) == Done((ks, book, next))
    decreases ks, 0
  {
    if ks != [] {
      FlatOperations(cfg, call, ks[0], book, next);
      FlatOperationsAll(cfg, call, ks[1..], book, next);
      assert [ks[0]] + ks[1..] == ks;
    }
  }

  predicate ReadsTablesOnly(ts: seq<Transfer>) {
    forall i :: 0 <= i < |ts| ==> Exchanges(ts[i].plan) == {}
  }

  lemma {:induction false} OriginalIslands(cfg: Config, call: Call, p: Plan, book: Book)
    requires Original(p) && ReadsTablesOnly(book.transfers)
    ensures ReadsTablesOnly(Islands(cfg, call, p, book).1.transfers)
    decreases p, 1
  {
    match TryCut(cfg, call, p, book)
    case Cut(_, _) => CutShape(cfg, call, p, book);
    case Keep(kept) =>
      if p.Node? {
        OriginalIslandsAll(cfg, call, p.inputs, kept);
      } else if !Leaf(p) {
        OriginalIslands(cfg, call, p.input, kept);
      }
  }

  lemma {:induction false} OriginalIslandsAll(cfg: Config, call: Call, ks: seq<Plan>, book: Book)
    requires AllExchanges(ks) == {} && ReadsTablesOnly(book.transfers)
    ensures ReadsTablesOnly(IslandsAll(cfg, call, ks, book).1.transfers)
    decreases ks, 2
  {
    if ks != [] {
      OriginalIslands(cfg, call, ks[0], book);
      OriginalIslandsAll(cfg, call, ks[1..], Islands(cfg, call, ks[0], book).1);
    }
  }

  // ---------------------------------------------------------------- the lemma

  /** Exchange names are no scanned tables, and exchange relations that closed requests read. */
  predicate NoCapture(p: Plan, ts: seq<Transfer>) {
    && (forall t :: t in Scans(p) && |t| == 1 ==> t[0] !in Names(ts))
    && (forall i :: 0 <= i < |ts| && ts[i].completion.Closed? ==> Exchanges(ts[i].plan) == {})
  }

  lemma OrderlyNames(ts: seq<Transfer>, call: Call, hi: nat, x: string)
    requires Orderly(ts, call, hi) && x in Names(ts)
    ensures StartsWith(x, PREFIX)
  {
    var i :| 0 <= i < |ts| && ts[i].name == x;
    assert Scoped(ts[i]);
  }

  lemma OrdinaryReads(cfg: Config, p: Plan, ts: seq<Transfer>, call: Call, hi: nat, i: nat, x: string)
    requires Orderly(ts, call, hi) && OrdinaryNames(cfg, p) && i < |ts| && Housed(cfg, ts[i]) &&
      !ts[i].completion.Apply?
    ensures x !in Exchanges(ts[i].plan)
  {
    if x in Exchanges(ts[i].plan) {
      assert x in Names(ts[..i]) && x in Keys(ts[i].plan);
      assert x in Names(ts);
      OrderlyNames(ts, call, hi, x);
      GeneratedIsUnowned(cfg, p, x);
    }
  }

  lemma OrdinaryIsNoCapture(cfg: Config, p: Plan, next: nat)
    requires Original(p) && Route(cfg, p, next).Done? && OrdinaryNames(cfg, p)
    ensures NoCapture(p, Route(cfg, p, next).value.transfers)
  {
    var r, call := Route(cfg, p, next).value, Call(next, Scans(p));
    RouteOrderly(cfg, p, next);
    RouteHoused(cfg, p, next);
    forall x | x in Names(r.transfers) ensures StartsWith(x, PREFIX) { OrderlyNames(r.transfers, call, r.next, x); }
    forall i, x | 0 <= i < |r.transfers| && r.transfers[i].completion.Closed?
      ensures x !in Exchanges(r.transfers[i].plan)
    {
      OrdinaryReads(cfg, p, r.transfers, call, r.next, i, x);
    }
  }

  lemma FlatIsNoCapture(cfg: Config, p: Plan, next: nat)
    requires Original(p) && Route(cfg, p, next).Done? && Flat(p)
    ensures NoCapture(p, Route(cfg, p, next).value.transfers)
  {
    var r, call, book := Route(cfg, p, next).value, Call(next, Scans(p)), Book(Reserved(p), []);
    RouteOrderly(cfg, p, next);
    FlatOperations(cfg, call, p, book, next + 1);
    OriginalIslands(cfg, call, p, book);
    forall i | 0 <= i < |r.transfers| ensures [r.transfers[i].name] !in Scans(p) {
      assert Scoped(r.transfers[i]) && Within(r.transfers[i], call, r.next);
    }
    assert forall t: Table :: |t| == 1 ==> [t[0]] == t;
  }

  lemma TransferFaithful(cfg: Config, p: Plan, ts: seq<Transfer>, call: Call, hi: nat, k: nat)
    requires Orderly(ts, call, hi) && call.scope == Scans(p) && AllHoused(cfg, ts) && NoCapture(p, ts) &&
      WellOwned(cfg, p)
    requires k < |ts|
    ensures ReadsRight(cfg, ts[k].engine, BoundFor(ts, k), ts[k].plan)
  {
    var x := ts[k];
    assert Scoped(x) && Within(x, call, hi) && Housed(cfg, x);
    assert forall y :: y in Names(ts[..k]) ==> y in Names(ts);
    forall t | t in Scans(x.plan) ensures Home(cfg, t) == x.engine {
      assert t in Scans(p) && Join(t) in Keys(x.plan);
    }
  }

  /** Without dependent operations, reserving the names of the plan suffices, whatever tables are
      called; with them it suffices that no declared or scanned table has a name that looks
      generated. In either case the router must take every table to live where it was declared. */
  lemma NeverConfused(cfg: Config, p: Plan, next: nat)
    requires Original(p) && Route(cfg, p, next).Done? && WellOwned(cfg, p)
    requires Flat(p) || OrdinaryNames(cfg, p)
    ensures Faithful(cfg, Route(cfg, p, next).value)
  {
    var r, call := Route(cfg, p, next).value, Call(next, Scans(p));
    RouteOrderly(cfg, p, next);
    RouteHoused(cfg, p, next);
    if Flat(p) { FlatIsNoCapture(cfg, p, next); } else { OrdinaryIsNoCapture(cfg, p, next); }
    forall k | 0 <= k < |r.transfers|
      ensures ReadsRight(cfg, r.transfers[k].engine, BoundFor(r.transfers, k), r.transfers[k].plan)
    {
      TransferFaithful(cfg, p, r.transfers, call, r.next, k);
    }
    forall t | t in Scans(r.plan) ensures Home(cfg, t) == cfg.target {
      assert Join(t) in Keys(r.plan);
    }
  }
}
