/** What the list of transfers looks like: names are distinct and generated, every exchange
    relation that is read is made by an earlier transfer, and every one that is made is read. */
module TransferOrder {
  import opened Text
  import opened Plans
  import opened ExchangeNames
  import opened Routing

  function Names(ts: seq<Transfer>): set<string> {
    set t | t in ts :: t.name
  }

  predicate Distinct(ts: seq<Transfer>) {
    forall i, j :: 0 <= i < j < |ts| ==> ts[i].name != ts[j].name
  }

  /** Each transfer reads exchange relations of earlier transfers only. */
  predicate Earlier(ts: seq<Transfer>) {
    forall i, x :: 0 <= i < |ts| && x in Exchanges(ts[i].plan) ==> x in Names(ts[..i])
  }

  /** A transfer scans tables that its routing call saw, and its name is not one of them. */
  predicate Scoped(t: Transfer) {
    GeneratedBy(t.name, t.call.id) && Scans(t.plan) <= t.call.scope && [t.name] !in t.call.scope
  }

  /** Made by `call` or by a call numbered below `hi` inside it. */
  predicate Within(t: Transfer, call: Call, hi: nat) {
    && call.id <= t.call.id < hi && t.call.scope <= call.scope
    && (t.call.id == call.id ==> t.call == call)
  }

  /** What a transfer reads saw no more tables than the transfer. */
  predicate Nested(ts: seq<Transfer>) {
    forall i, j :: 0 <= j < i < |ts| && ts[j].name in Exchanges(ts[i].plan) ==> ts[j].call.scope <= ts[i].call.scope
  }

  predicate Orderly(ts: seq<Transfer>, call: Call, hi: nat) {
    && Distinct(ts) && Earlier(ts) && Nested(ts)
    && forall i :: 0 <= i < |ts| ==> Scoped(ts[i]) && Within(ts[i], call, hi)
  }

  /** While a call is running, the names it handed out and those of its tables are reserved. */
  predicate Recorded(ts: seq<Transfer>, call: Call, reserved: set<string>) {
    && (forall i :: 0 <= i < |ts| && ts[i].call.id == call.id ==> ts[i].name in reserved)
    && (forall t :: t in call.scope ==> Bare(t) in reserved)
  }

  predicate BookOk(book: Book, call: Call, hi: nat) {
    Orderly(book.transfers, call, hi) && Recorded(book.transfers, call, book.reserved) && call.id < hi
  }

  lemma DistinctAppend(ts: seq<Transfer>, t: Transfer, call: Call, hi: nat, reserved: set<string>)
    requires Orderly(ts, call, hi) && Recorded(ts, call, reserved)
    requires t.call == call && GeneratedBy(t.name, call.id) && t.name !in reserved
    ensures Distinct(ts + [t]) && Recorded(ts + [t], call, reserved + {t.name}) && [t.name] !in call.scope
  {
    forall i | 0 <= i < |ts| ensures ts[i].name != t.name {
      assert Scoped(ts[i]);
      if ts[i].call.id != call.id { DifferentCallsDiffer(ts[i].name, ts[i].call.id, t.name, call.id); }
    }
    assert Bare([t.name]) == t.name;
  }

  lemma EarlierAppend(ts: seq<Transfer>, t: Transfer)
    requires Earlier(ts) && Exchanges(t.plan) <= Names(ts)
    ensures Earlier(ts + [t]) && Names(ts + [t]) == Names(ts) + {t.name}
  {
    var us := ts + [t];
    forall i, x | 0 <= i < |us| && x in Exchanges(us[i].plan) ensures x in Names(us[..i]) {
      if i < |ts| { assert us[..i] == ts[..i]; } else { assert us[..i] == ts; }
    }
  }

  lemma OrderlyAppend(ts: seq<Transfer>, t: Transfer, call: Call, hi: nat, reserved: set<string>)
    requires Orderly(ts, call, hi) && Recorded(ts, call, reserved) && call.id < hi
    requires t.call == call && GeneratedBy(t.name, call.id) && t.name !in reserved
    requires Scans(t.plan) <= call.scope && Exchanges(t.plan) <= Names(ts)
    ensures Orderly(ts + [t], call, hi) && Recorded(ts + [t], call, reserved + {t.name})
    ensures Names(ts + [t]) == Names(ts) + {t.name}
  {
    DistinctAppend(ts, t, call, hi, reserved);
    EarlierAppend(ts, t);
    var us := ts + [t];
    forall i, j | 0 <= j < i < |us| && us[j].name in Exchanges(us[i].plan)
      ensures us[j].call.scope <= us[i].call.scope
    {
      assert Within(ts[j], call, hi);
    }
    assert forall i :: 0 <= i < |us| ==> us[i] == if i < |ts| then ts[i] else t;
  }

  lemma {:induction false} NamesConcat(ts: seq<Transfer>, ds: seq<Transfer>)
    ensures Names(ts + ds) == Names(ts) + Names(ds)
  {
  }

  lemma EarlierConcat(ts: seq<Transfer>, ds: seq<Transfer>)
    requires Earlier(ts) && Earlier(ds)
    ensures Earlier(ts + ds)
  {
    var us := ts + ds;
    forall i, x | 0 <= i < |us| && x in Exchanges(us[i].plan) ensures x in Names(us[..i]) {
      if i < |ts| {
        assert us[..i] == ts[..i];
      } else {
        assert us[..i] == ts + ds[..i - |ts|];
        NamesConcat(ts, ds[..i - |ts|]);
      }
    }
  }

  lemma NestedConcat(ts: seq<Transfer>, ds: seq<Transfer>)
    requires Nested(ts) && Nested(ds) && Earlier(ds) && Distinct(ts + ds)
    ensures Nested(ts + ds)
  {
    var us := ts + ds;
    assert forall n :: 0 <= n < |ds| ==> us[|ts| + n] == ds[n];
    forall i, j | 0 <= j < |ts| <= i < |us| ensures us[j].name !in Exchanges(us[i].plan) {
      assert us[j].name !in Names(ds[..i - |ts|]);
    }
  }

  lemma OrderlyConcat(ts: seq<Transfer>, ds: seq<Transfer>, call: Call, inner: Call, hi: nat, hi': nat,
      reserved: set<string>)
    requires Orderly(ts, call, hi) && Orderly(ds, inner, hi') && Recorded(ts, call, reserved)
    requires inner.id == hi && inner.scope <= call.scope && call.id < hi <= hi'
    ensures Orderly(ts + ds, call, hi') && Recorded(ts + ds, call, reserved)
    ensures Names(ts + ds) == Names(ts) + Names(ds)
  {
    var us := ts + ds;
    forall i, j | 0 <= i < |ts| <= j < |us| ensures us[i].name != us[j].name {
      assert Scoped(ts[i]) && Within(ts[i], call, hi) && us[j] == ds[j - |ts|];
      assert Scoped(ds[j - |ts|]) && Within(ds[j - |ts|], inner, hi');
      DifferentCallsDiffer(us[i].name, us[i].call.id, us[j].name, us[j].call.id);
    }
    assert Distinct(us);
    EarlierConcat(ts, ds);
    NestedConcat(ts, ds);
    forall i | 0 <= i < |us| ensures Scoped(us[i]) && Within(us[i], call, hi') {
      if i < |ts| { assert Within(ts[i], call, hi); } else { assert Within(ds[i - |ts|], inner, hi'); }
    }
  }

  // ---------------------------------------------------------------- the second pass

  lemma CutShape(cfg: Config, call: Call, p: Plan, book: Book)
    requires TryCut(cfg, call, p, book).Cut?
    ensures
      var cut := TryCut(cfg, call, p, book);
      && |cut.book.transfers| == |book.transfers| + 1
      && var t := cut.book.transfers[|book.transfers|];
         && cut.book.transfers == book.transfers + [t] && cut.book.reserved == book.reserved + {t.name}
         && Scans(cut.plan) == {} && Exchanges(cut.plan) == {t.name}
         && Scans(t.plan) == Scans(p) && Exchanges(t.plan) == Exchanges(p)
         && t.call == call && t.name !in book.reserved && GeneratedBy(t.name, call.id)
         && IslandSource(cfg, p) == Some(t.engine) && !t.completion.Apply?
  {
    var cut := TryCut(cfg, call, p, book);
    var t := cut.book.transfers[|book.transfers|];
    var src := IslandSource(cfg, p).value;
    StampOfFresh(if src in cfg.adapters then Request else Exchange, call.id, |book.transfers|, t.name);
    if src !in cfg.adapters {
      assert Scans(Export(p)) == Scans(p) && Exchanges(Export(p)) == Exchanges(p);
      var projected := Project(NamesOf(SchemaOf(p)), ExchangeScan(t.name, |SchemaOf(p)|));
      assert Exchanges(projected) == {t.name} && Scans(projected) == {};
    }
  }

  lemma CutOrderly(cfg: Config, call: Call, p: Plan, book: Book, hi: nat)
    requires BookOk(book, call, hi) && TryCut(cfg, call, p, book).Cut?
    requires Scans(p) <= call.scope && Exchanges(p) <= Names(book.transfers)
    ensures
      var cut := TryCut(cfg, call, p, book);
      && BookOk(cut.book, call, hi) && Scans(cut.plan) <= call.scope
      && Exchanges(cut.plan) <= Names(cut.book.transfers) && Names(book.transfers) <= Names(cut.book.transfers)
  {
    CutShape(cfg, call, p, book);
    var t := TryCut(cfg, call, p, book).book.transfers[|book.transfers|];
    OrderlyAppend(book.transfers, t, call, hi, book.reserved);
  }

  lemma {:induction false} IslandsOrderly(cfg: Config, call: Call, p: Plan, book: Book, hi: nat)
    requires BookOk(book, call, hi) && Scans(p) <= call.scope && Exchanges(p) <= Names(book.transfers)
    ensures
      var (q, b) := Islands(cfg, call, p, book);
      && BookOk(b, call, hi) && Scans(q) <= call.scope && Exchanges(q) <= Names(b.transfers)
      && Names(book.transfers) <= Names(b.transfers)
    decreases p, 1
  {
    match TryCut(cfg, call, p, book)
    case Cut(_, _) => CutOrderly(cfg, call, p, book, hi);
    case Keep(kept) =>
      assert kept.transfers == book.transfers && book.reserved <= kept.reserved;
      if p.Node? {
        IslandsAllOrderly(cfg, call, p.inputs, kept, hi);
      } else if !Leaf(p) {
        IslandsOrderly(cfg, call, p.input, kept, hi);
        var (q, b) := Islands(cfg, call, p.input, kept);
        var r := IslandsBelow(cfg, call, p, kept).0;
        assert Scans(r) == Scans(q) && Exchanges(r) == Exchanges(q);
      }
  }

  lemma {:induction false} IslandsAllOrderly(cfg: Config, call: Call, ks: seq<Plan>, book: Book, hi: nat)
    requires BookOk(book, call, hi) && AllScans(ks) <= call.scope && AllExchanges(ks) <= Names(book.transfers)
    ensures
      var (qs, b) := IslandsAll(cfg, call, ks, book);
      && BookOk(b, call, hi) && AllScans(qs) <= call.scope && AllExchanges(qs) <= Names(b.transfers)
      && Names(book.transfers) <= Names(b.transfers)
    decreases ks, 2
  {
    if ks != [] {
      IslandsOrderly(cfg, call, ks[0], book, hi);
      var (q, b) := Islands(cfg, call, ks[0], book);
      IslandsAllOrderly(cfg, call, ks[1..], b, hi);
      var qs := IslandsAll(cfg, call, ks[1..], b).0;
      assert ([q] + qs)[1..] == qs;
    }
  }

  // ---------------------------------------------------------------- the first pass

  lemma CompletedByShape(cfg: Config, call: Call, p: Plan, book: Book, src: Plan, deps: seq<Transfer>)
    requires p.Dependent?
    ensures
      var (q, b) := CompletedBy(cfg, call, book, p, src, deps);
      var ts := book.transfers + deps;
      && |b.transfers| == |ts| + 1
      && var t := b.transfers[|ts|];
         && b.transfers == ts + [t] && b.reserved == book.reserved + {t.name}
         && Scans(q) == {} && Exchanges(q) == {t.name}
         && t.plan == src && t.engine == cfg.target && t.call == call && t.completion.Apply?
         && t.name !in book.reserved && GeneratedBy(t.name, call.id)
  {
    var ts := book.transfers + deps;
    var t := CompletedBy(cfg, call, book, p, src, deps).1.transfers[|ts|];
    StampOfFresh(if p.owner in cfg.adapters then Request else Operation, call.id, |ts|, t.name);
    var scan := ExchangeScan(t.name, |p.columns|);
    assert Exchanges(scan) == {t.name} && Scans(scan) == {};
  }

  lemma DependentOrderly(cfg: Config, call: Call, p: Plan, book: Book, inner: Routed, next: nat)
    requires p.Dependent? && BookOk(book, call, next) && next <= inner.next && Scans(p) <= call.scope
    requires Scans(inner.plan) <= Scans(p.input) && Exchanges(inner.plan) <= Names(inner.transfers)
    requires Orderly(inner.transfers, Call(next, Scans(p.input)), inner.next)
    ensures
      var (q, b) := CompletedBy(cfg, call, book, p, inner.plan, inner.transfers);
      && BookOk(b, call, inner.next) && Scans(q) <= call.scope && Exchanges(q) <= Names(b.transfers)
      && Names(book.transfers) <= Names(b.transfers)
  {
    var ts := book.transfers + inner.transfers;
    var called := Call(next, Scans(p.input));
    OrderlyConcat(book.transfers, inner.transfers, call, called, next, inner.next, book.reserved);
    CompletedByShape(cfg, call, p, book, inner.plan, inner.transfers);
    var t := CompletedBy(cfg, call, book, p, inner.plan, inner.transfers).1.transfers[|ts|];
    OrderlyAppend(ts, t, call, inner.next, book.reserved);
  }

  lemma {:induction false} OperationsOrderly(cfg: Config, call: Call, p: Plan, book: Book, next: nat)
    requires BookOk(book, call, next) && Scans(p) <= call.scope && Exchanges(p) == {}
    requires Operations(cfg, call, p, book, next).Done?
    ensures
      var (q, b, n) := Operations(cfg, call, p, book, next).value;
      && next <= n && BookOk(b, call, n) && Scans(q) <= call.scope && Exchanges(q) <= Names(b.transfers)
      && Names(book.transfers) <= Names(b.transfers)
    decreases p, 1
  {
    if p.Node? {
      OperationsAllOrderly(cfg, call, p.inputs, book, next);
    } else if p.Dependent? {
      RouteOrderly(cfg, p.input, next);
      DependentOrderly(cfg, call, p, book, Route(cfg, p.input, next).value, next);
    } else if !Leaf(p) {
      OperationsOrderly(cfg, call, p.input, book, next);
    }
  }

  lemma {:induction false} OperationsAllOrderly(cfg: Config, call: Call, ks: seq<Plan>, book: Book, next: nat)
    requires BookOk(book, call, next) && AllScans(ks) <= call.scope && AllExchanges(ks) == {}
    requires OperationsAll(cfg, call, ks, book, next).Done?
    ensures
      var (qs, b, n) := OperationsAll(cfg, call, ks, book, next).value;
      && next <= n && BookOk(b, call, n) && AllScans(qs) <= call.scope && AllExchanges(qs) <= Names(b.transfers)
      && Names(book.transfers) <= Names(b.transfers)
    decreases ks, 0
  {
    if ks != [] {
      OperationsOrderly(cfg, call, ks[0], book, next);
      var (q, b, n) := Operations(cfg, call, ks[0], book, next).value;
      OperationsAllOrderly(cfg, call, ks[1..], b, n);
      var qs := OperationsAll(cfg, call, ks[1..], b, n).value.0;
      assert ([q] + qs)[1..] == qs;
    }
  }

  /** A plan as users write it, without generated relations. */
  predicate Original(p: Plan) {
    Exchanges(p) == {}
  }

  /** Exchange names are pairwise distinct, every exchange relation a transfer reads is made
      by an earlier transfer, tables that are scanned were scanned by the plan, and no name is
      that of a table which the routing call that made it has seen. */
  lemma {:induction false} RouteOrderly(cfg: Config, p: Plan, next: nat)
    requires Original(p) && Route(cfg, p, next).Done?
    ensures
      var r := Route(cfg, p, next).value;
      && next < r.next && Scans(r.plan) <= Scans(p) && Exchanges(r.plan) <= Names(r.transfers)
      && Orderly(r.transfers, Call(next, Scans(p)), r.next)
    decreases p, 2
  {
    var call, book := Call(next, Scans(p)), Book(Reserved(p), []);
    assert BookOk(book, call, next + 1);
    OperationsOrderly(cfg, call, p, book, next + 1);
    var (q, b, n) := Operations(cfg, call, p, book, next + 1).value;
    IslandsOrderly(cfg, call, q, b, n);
  }

  // ---------------------------------------------------------------- everything made is read

  function Uses(ts: seq<Transfer>): set<string> {
    if ts == [] then {} else Uses(ts[..|ts| - 1]) + Exchanges(ts[|ts| - 1].plan)
  }

  lemma UsesAppend(ts: seq<Transfer>, t: Transfer)
    ensures Uses(ts + [t]) == Uses(ts) + Exchanges(t.plan) && Names(ts + [t]) == Names(ts) + {t.name}
  {
    assert (ts + [t])[..|ts|] == ts;
  }

  lemma {:induction false} UsesConcat(ts: seq<Transfer>, ds: seq<Transfer>)
    ensures Uses(ts + ds) == Uses(ts) + Uses(ds)
  {
    if ds == [] {
      assert ts + ds == ts;
    } else {
      var n := |ds| - 1;
      assert (ts + ds)[..|ts + ds| - 1] == ts + ds[..n];
      UsesConcat(ts, ds[..n]);
    }
  }

  lemma {:induction false} UsedSomewhere(ts: seq<Transfer>, x: string) returns (i: nat)
    requires x in Uses(ts)
    ensures i < |ts| && x in Exchanges(ts[i].plan)
  {
    var n := |ts| - 1;
    if x in Exchanges(ts[n].plan) {
      i := n;
    } else {
      i := UsedSomewhere(ts[..n], x);
    }
  }

  lemma {:induction false} IslandsRead(cfg: Config, call: Call, p: Plan, book: Book)
    ensures
      var (q, b) := Islands(cfg, call, p, book);
      && Names(b.transfers) <= Names(book.transfers) + Exchanges(q) && Uses(book.transfers) <= Uses(b.transfers)
      && Exchanges(p) <= Exchanges(q) + Uses(b.transfers)
    decreases p, 1
  {
    match TryCut(cfg, call, p, book)
    case Cut(_, _) =>
      CutShape(cfg, call, p, book);
      UsesAppend(book.transfers, TryCut(cfg, call, p, book).book.transfers[|book.transfers|]);
    case Keep(kept) =>
      assert kept.transfers == book.transfers;
      if p.Node? {
        IslandsAllRead(cfg, call, p.inputs, kept);
      } else if !Leaf(p) {
        IslandsRead(cfg, call, p.input, kept);
      }
  }

  lemma {:induction false} IslandsAllRead(cfg: Config, call: Call, ks: seq<Plan>, book: Book)
    ensures
      var (qs, b) := IslandsAll(cfg, call, ks, book);
      && Names(b.transfers) <= Names(book.transfers) + AllExchanges(qs) && Uses(book.transfers) <= Uses(b.transfers)
      && AllExchanges(ks) <= AllExchanges(qs) + Uses(b.transfers)
    decreases ks, 2
  {
    if ks != [] {
      IslandsRead(cfg, call, ks[0], book);
      var (q, b) := Islands(cfg, call, ks[0], book);
      IslandsAllRead(cfg, call, ks[1..], b);
      var qs := IslandsAll(cfg, call, ks[1..], b).0;
      assert ([q] + qs)[1..] == qs;
    }
  }

  lemma {:induction false} OperationsRead(cfg: Config, call: Call, p: Plan, book: Book, next: nat)
    requires Original(p) && Operations(cfg, call, p, book, next).Done?
    ensures
      var (q, b, n) := Operations(cfg, call, p, book, next).value;
      && Names(b.transfers) <= Names(book.transfers) + Exchanges(q) + Uses(b.transfers)
      && Uses(book.transfers) <= Uses(b.transfers)
    decreases p, 1
  {
    if p.Node? {
      OperationsAllRead(cfg, call, p.inputs, book, next);
    } else if p.Dependent? {
      var inner := Route(cfg, p.input, next).value;
      var ts := book.transfers + inner.transfers;
      RouteRead(cfg, p.input, next);
      CompletedByShape(cfg, call, p, book, inner.plan, inner.transfers);
      NamesConcat(book.transfers, inner.transfers);
      UsesConcat(book.transfers, inner.transfers);
      UsesAppend(ts, CompletedBy(cfg, call, book, p, inner.plan, inner.transfers).1.transfers[|ts|]);
    } else if !Leaf(p) {
      OperationsRead(cfg, call, p.input, book, next);
    }
  }

  lemma {:induction false} OperationsAllRead(cfg: Config, call: Call, ks: seq<Plan>, book: Book, next: nat)
    requires AllExchanges(ks) == {} && OperationsAll(cfg, call, ks, book, next).Done?
    ensures
      var (qs, b, n) := OperationsAll(cfg, call, ks, book, next).value;
      && Names(b.transfers) <= Names(book.transfers) + AllExchanges(qs) + Uses(b.transfers)
      && Uses(book.transfers) <= Uses(b.transfers)
    decreases ks, 0
  {
    if ks != [] {
      OperationsRead(cfg, call, ks[0], book, next);
      var (q, b, n) := Operations(cfg, call, ks[0], book, next).value;
      OperationsAllRead(cfg, call, ks[1..], b, n);
      var qs := OperationsAll(cfg, call, ks[1..], b, n).value.0;
      assert ([q] + qs)[1..] == qs;
    }
  }

  /** Every exchange relation that is made is read by the routed plan or by a transfer. */
  lemma {:induction false} RouteRead(cfg: Config, p: Plan, next: nat)
    requires Original(p) && Route(cfg, p, next).Done?
    ensures
      var r := Route(cfg, p, next).value;
      Names(r.transfers) <= Exchanges(r.plan) + Uses(r.transfers)
    decreases p, 2
  {
    var call, book := Call(next, Scans(p)), Book(Reserved(p), []);
    OperationsRead(cfg, call, p, book, next + 1);
    var (q, b, n) := Operations(cfg, call, p, book, next + 1).value;
    IslandsRead(cfg, call, q, b);
  }
}
