/** The exact condition, in terms of the plan and the declared tables, for routing to preserve meaning
    when names are ordinary or there are no dependent operations. */
module RouteChecks {
  import opened Plans
  import opened Routing
  import opened TransferOrder
  import opened RouteExecution
  import opened RouteExactness
  import opened RouteSafety

  // ---------------------------------------------------------------- no scan is lost

  /** The tables that transfers scan. */
  function Shipped(ts: seq<Transfer>): set<Table> {
    if ts == [] then {} else Shipped(ts[..|ts| - 1]) + Scans(ts[|ts| - 1].plan)
  }

  lemma ShippedAppend(ts: seq<Transfer>, t: Transfer)
    ensures Shipped(ts + [t]) == Shipped(ts) + Scans(t.plan)
  {
    assert (ts + [t])[..|ts|] == ts;
  }

  lemma {:induction false} ShippedConcat(ts: seq<Transfer>, ds: seq<Transfer>)
    ensures Shipped(ts + ds) == Shipped(ts) + Shipped(ds)
  {
    if ds == [] {
      assert ts + ds == ts;
    } else {
      var n := |ds| - 1;
      assert (ts + ds)[..|ts + ds| - 1] == ts + ds[..n];
      ShippedConcat(ts, ds[..n]);
    }
  }

  lemma {:induction false} ShippedSomewhere(ts: seq<Transfer>, t: Table) returns (i: nat)
    requires t in Shipped(ts)
    ensures i < |ts| && t in Scans(ts[i].plan)
  {
    var n := |ts| - 1;
    if t in Scans(ts[n].plan) {
      i := n;
    } else {
      i := ShippedSomewhere(ts[..n], t);
    }
  }

  lemma {:induction false} IslandsKeepScans(cfg: Config, call: Call, p: Plan, book: Book)
    ensures
      var (q, b) := Islands(cfg, call, p, book);
      Shipped(book.transfers) <= Shipped(b.transfers) && Scans(p) <= Scans(q) + Shipped(b.transfers)
    decreases p, 1
  {
    match TryCut(cfg, call, p, book)
    case Cut(_, _) =>
      CutShape(cfg, call, p, book);
      ShippedAppend(book.transfers, TryCut(cfg, call, p, book).book.transfers[|book.transfers|]);
    case Keep(kept) =>
      assert kept.transfers == book.transfers;
      if p.Node? {
        IslandsAllKeepScans(cfg, call, p.inputs, kept);
      } else if !Leaf(p) {
        IslandsKeepScans(cfg, call, p.input, kept);
      }
  }

  lemma {:induction false} IslandsAllKeepScans(cfg: Config, call: Call, ks: seq<Plan>, book: Book)
    ensures
      var (qs, b) := IslandsAll(cfg, call, ks, book);
      Shipped(book.transfers) <= Shipped(b.transfers) && AllScans(ks) <= AllScans(qs) + Shipped(b.transfers)
    decreases ks, 2
  {
    if ks != [] {
      IslandsKeepScans(cfg, call, ks[0], book);
      var (q, b) := Islands(cfg, call, ks[0], book);
      IslandsAllKeepScans(cfg, call, ks[1..], b);
      var qs := IslandsAll(cfg, call, ks[1..], b).0;
      assert ([q] + qs)[1..] == qs;
    }
  }

  lemma {:induction false} OperationsKeepScans(cfg: Config, call: Call, p: Plan, book: Book, next: nat)
    requires Operations(cfg, call, p, book, next).Done?
    ensures
      var (q, b, n) := Operations(cfg, call, p, book, next).value;
      Shipped(book.transfers) <= Shipped(b.transfers) && Scans(p) <= Scans(q) + Shipped(b.transfers)
    decreases p, 1
  {
    if p.Node? {
      OperationsAllKeepScans(cfg, call, p.inputs, book, next);
    } else if p.Dependent? {
      var inner := Route(cfg, p.input, next).value;
      var ts := book.transfers + inner.transfers;
      RouteKeepsScans(cfg, p.input, next);
      CompletedByShape(cfg, call, p, book, inner.plan, inner.transfers);
      ShippedConcat(book.transfers, inner.transfers);
      ShippedAppend(ts, CompletedBy(cfg, call, book, p, inner.plan, inner.transfers).1.transfers[|ts|]);
    } else if !Leaf(p) {
      OperationsKeepScans(cfg, call, p.input, book, next);
    }
  }

  lemma {:induction false} OperationsAllKeepScans(cfg: Config, call: Call, ks: seq<Plan>, book: Book, next: nat)
    requires OperationsAll(cfg, call, ks, book, next).Done?
    ensures
      var (qs, b, n) := OperationsAll(cfg, call, ks, book, next).value;
      Shipped(book.transfers) <= Shipped(b.transfers) && AllScans(ks) <= AllScans(qs) + Shipped(b.transfers)
    decreases ks, 0
  {
    if ks != [] {
      OperationsKeepScans(cfg, call, ks[0], book, next);
      var (q, b, n) := Operations(cfg, call, ks[0], book, next).value;
      OperationsAllKeepScans(cfg, call, ks[1..], b, n);
      var qs := OperationsAll(cfg, call, ks[1..], b, n).value.0;
      assert ([q] + qs)[1..] == qs;
    }
  }

  /** Every table that the plan scans is scanned by the routed plan or by a transfer. */
  lemma {:induction false} RouteKeepsScans(cfg: Config, p: Plan, next: nat)
    requires Route(cfg, p, next).Done?
    ensures
      var r := Route(cfg, p, next).value;
      Scans(p) <= Scans(r.plan) + Shipped(r.transfers)
    decreases p, 2
  {
    var call, book := Call(next, Scans(p)), Book(Reserved(p), []);
    OperationsKeepScans(cfg, call, p, book, next + 1);
    var (q, b, n) := Operations(cfg, call, p, book, next + 1).value;
    IslandsKeepScans(cfg, call, q, b);
  }

  // ---------------------------------------------------------------- the condition

  /** A faithful route has taken every table to live where it was declared. */
  lemma FaithfulIsWellOwned(cfg: Config, p: Plan, next: nat)
    requires Route(cfg, p, next).Done? && Faithful(cfg, Route(cfg, p, next).value)
    ensures WellOwned(cfg, p)
  {
    var r := Route(cfg, p, next).value;
    RouteKeepsScans(cfg, p, next);
    RouteHoused(cfg, p, next);
    forall t | t in Scans(p) ensures TakenFor(cfg, t) == Home(cfg, t) {
      if t in Scans(r.plan) {
        assert Join(t) in Keys(r.plan);
      } else {
        var i := ShippedSomewhere(r.transfers, t);
        assert Housed(cfg, r.transfers[i]) && Join(t) in Keys(r.transfers[i].plan);
      }
    }
  }

  /** What can be checked before the call is exact: with ordinary names, or without dependent operations
      whatever names are, an accepted plan keeps its meaning in every lawful world if and only if the
      router takes every scanned table to live where it was declared, inputs of operations do not
      depend on outer rows and no visible qualifier is lost. */
  lemma CheckedExactly(cfg: Config, p: Plan, next: nat)
    requires Original(p) && Route(cfg, p, next).Done? && (Flat(p) || OrdinaryNames(cfg, p))
    ensures
      WellOwned(cfg, p) && Routable(cfg, p) <==>
      forall w: World :: Lawful(w) ==> Preserved(w, cfg, p, Route(cfg, p, next).value)
  {
    RoutingExact(cfg, p, next);
    if WellOwned(cfg, p) { NeverConfused(cfg, p, next); }
    if Faithful(cfg, Route(cfg, p, next).value) { FaithfulIsWellOwned(cfg, p, next); }
  }
}
