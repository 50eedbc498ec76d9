/** Generation-stamped handles. A handle names an address and the generation that was current
    for it; pruning forgets addresses that exist in neither native view. */
module BridgeHandles {
  import opened BridgeGraph

  datatype Address =
    | VertexAt(tag: string, row: nat)
    | EdgeAt(tag: string, row: nat)
    | VertexPropertyAt(owner: Handle, key: string, row: nat)
    | FieldAt(owner: Handle, key: string)
  datatype Handle = Handle(session: string, address: Address, generation: nat)

  type Generations = map<Address, nat>
  /** `next`: the generation the next new address gets. */
  datatype Table = Table(session: string, generations: Generations, next: nat)

  function SlotOf(a: Address): Slot {
    match a
    case VertexAt(l, r) => Vertex(l, r)
    case EdgeAt(l, r) => Edge(l, r)
    case VertexPropertyAt(o, k, r) => VertexProperty(SlotOf(o.address), k, r)
    case FieldAt(o, k) => Field(SlotOf(o.address), k)
  }

  predicate Current(t: Table, h: Handle) {
    h.session == t.session && h.address in t.generations && t.generations[h.address] == h.generation
  }

  /** Whether a handle resolves in a view, owners first. */
  predicate Resolves(t: Table, g: Graph, h: Handle)
    decreases h.address
  {
    && Current(t, h) && SlotOf(h.address) in g.cells
    && match h.address
       case VertexAt(_, _) => true
       case EdgeAt(_, _) => true
       case VertexPropertyAt(o, _, _) => Resolves(t, g, o)
       case FieldAt(o, _) => Resolves(t, g, o)
  }

  lemma {:induction false} ResolvedIsLive(t: Table, g: Graph, h: Handle)
    requires Resolves(t, g, h)
    ensures Live(g, SlotOf(h.address))
    decreases h.address
  {
    if h.address.VertexPropertyAt? || h.address.FieldAt? { ResolvedIsLive(t, g, h.address.owner); }
  }

  /** The handle of an address: its current generation, or a new one. */
  function Stamp(t: Table, a: Address): (r: (Handle, Table))
    ensures r.1.session == t.session && t.next <= r.1.next
  {
    if a in t.generations then (Handle(t.session, a, t.generations[a]), t)
    else (Handle(t.session, a, t.next), Table(t.session, t.generations[a := t.next], t.next + 1))
  }

  function Issue(t: Table, s: Slot): (r: (Handle, Table))
    ensures SlotOf(r.0.address) == s && Current(r.1, r.0)
    decreases s
  {
    match s
    case Vertex(l, row) => Stamp(t, VertexAt(l, row))
    case Edge(l, row) => Stamp(t, EdgeAt(l, row))
    case VertexProperty(o, k, row) => var (h, t') := Issue(t, o); Stamp(t', VertexPropertyAt(h, k, row))
    case Field(o, k) => var (h, t') := Issue(t, o); Stamp(t', FieldAt(h, k))
  }

  function Entry(t: Table, a: Address): Handle
    requires a in t.generations
  {
    Handle(t.session, a, t.generations[a])
  }

  /** Keeps exactly the addresses that resolve in the working or the committed view. */
  function Pruned(t: Table, working: Graph, committed: Graph): Table {
    t.(generations := map a | a in t.generations &&
      (Resolves(t, working, Entry(t, a)) || Resolves(t, committed, Entry(t, a)))
                      :: t.generations[a])
  }

  // ---------------------------------------------------------------- what tables know

  /** The handles of the owners in an address were issued before generation n. */
  predicate OwnersKnown(a: Address, n: nat)
    decreases a
  {
    match a
    case VertexAt(_, _) => true
    case EdgeAt(_, _) => true
    case VertexPropertyAt(o, _, _) => o.generation < n && OwnersKnown(o.address, n)
    case FieldAt(o, _) => o.generation < n && OwnersKnown(o.address, n)
  }

  ghost predicate TableOk(t: Table) {
    forall a :: a in t.generations ==> t.generations[a] < t.next && OwnersKnown(a, t.next)
  }

  /** t' knows all that t knows, and what it knows besides is newer. */
  ghost predicate Extends(t: Table, t': Table) {
    && t'.session == t.session && t.next <= t'.next
    && (forall a :: a in t.generations ==> a in t'.generations && t'.generations[a] == t.generations[a])
    && (forall a :: a in t'.generations && a !in t.generations ==> t.next <= t'.generations[a])
  }

  lemma {:induction false} OwnersStayKnown(a: Address, n: nat, m: nat)
    requires OwnersKnown(a, n) && n <= m
    ensures OwnersKnown(a, m)
    decreases a
  {
    if a.VertexPropertyAt? || a.FieldAt? { OwnersStayKnown(a.owner.address, n, m); }
  }

  lemma ExtendsTwice(a: Table, b: Table, c: Table)
    requires Extends(a, b)
    ensures Extends(b, c) ==> Extends(a, c)
  {
  }

  lemma StampExtends(t: Table, a: Address)
    requires TableOk(t) && OwnersKnown(a, t.next)
    ensures var (h, t') := Stamp(t, a);
      && TableOk(t') && Extends(t, t') && Current(t', h) && h.generation < t'.next && OwnersKnown(h.address, t'.next)
  {
    var (h, t') := Stamp(t, a);
    forall b | b in t'.generations ensures OwnersKnown(b, t'.next) {
      OwnersStayKnown(b, t.next, t'.next);
    }
  }

  lemma {:induction false} IssueExtends(t: Table, s: Slot)
    requires TableOk(t)
    ensures var (h, t') := Issue(t, s);
      && TableOk(t') && Extends(t, t') && Current(t', h) && h.generation < t'.next && OwnersKnown(h.address, t'.next)
    decreases s
  {
    match s
    case Vertex(l, row) => StampExtends(t, VertexAt(l, row));
    case Edge(l, row) => StampExtends(t, EdgeAt(l, row));
    case VertexProperty(o, k, row) =>
      IssueExtends(t, o);
      var (h, t') := Issue(t, o);
      StampExtends(t', VertexPropertyAt(h, k, row));
    case Field(o, k) =>
      IssueExtends(t, o);
      var (h, t') := Issue(t, o);
      StampExtends(t', FieldAt(h, k));
  }

  lemma {:induction false} ResolvesInExtension(t: Table, t': Table, g: Graph, h: Handle)
    requires Extends(t, t') && Resolves(t, g, h)
    ensures Resolves(t', g, h)
    decreases h.address
  {
    if h.address.VertexPropertyAt? || h.address.FieldAt? { ResolvesInExtension(t, t', g, h.address.owner); }
  }

  /** An issued handle of a live element resolves. */
  lemma {:induction false} IssueResolves(t: Table, g: Graph, s: Slot)
    requires TableOk(t) && Live(g, s)
    ensures Resolves(Issue(t, s).1, g, Issue(t, s).0)
    decreases s
  {
    IssueExtends(t, s);
    if s.VertexProperty? || s.Field? {
      var (h, t') := Issue(t, s.owner);
      IssueResolves(t, g, s.owner);
      IssueExtends(t, s.owner);
      StampExtends(t', if s.Field? then FieldAt(h, s.key) else VertexPropertyAt(h, s.key, s.row));
      ResolvesInExtension(t', Issue(t, s).1, g, h);
    }
  }

  /** An old handle that resolves in an extension resolved before. */
  lemma {:induction false} OldHandleResolves(t: Table, t': Table, g: Graph, h: Handle)
    requires TableOk(t) && Extends(t, t') && Resolves(t', g, h) && h.generation < t.next
    ensures Resolves(t, g, h)
    decreases h.address
  {
    assert h.address in t.generations;
    if h.address.VertexPropertyAt? || h.address.FieldAt? { OldHandleResolves(t, t', g, h.address.owner); }
  }

  /** Only one handle of a slot resolves. */
  lemma {:induction false} ResolvedIsUnique(t: Table, g: Graph, h: Handle, i: Handle)
    requires Resolves(t, g, h) && Resolves(t, g, i) && SlotOf(h.address) == SlotOf(i.address)
    ensures h == i
    decreases h.address
  {
    if h.address.VertexPropertyAt? || h.address.FieldAt? {
      ResolvedIsUnique(t, g, h.address.owner, i.address.owner);
    }
  }

  // ---------------------------------------------------------------- safety

  /** Committed graph first, then the saved graphs, the working graph last; each continues
      all graphs before it. */
  ghost predicate Lineage(views: seq<Graph>) {
    && views != []
    && (forall i :: 0 <= i < |views| ==> WellAllocated(views[i]))
    && (forall i, j :: 0 <= i < j < |views| ==> Descends(views[i], views[j]))
  }

  function Last(views: seq<Graph>): Graph
    requires views != []
  {
    views[|views| - 1]
  }

  /** In this view the address, if present at all, is the element it was issued for. */
  ghost predicate Denotes(g: Graph, a: Address, who: Ident) {
    Present(g, SlotOf(a)) ==> Identity(g, SlotOf(a)) == who
  }

  type Issued = set<(Handle, Ident)>

  /** Generations are never reissued; every current handle that was ever issued denotes the
      element it was issued for in every view; no known address can be allocated again. */
  ghost predicate Safe(views: seq<Graph>, t: Table, issued: Issued)
    requires views != []
  {
    && TableOk(t) && (forall a :: a in t.generations ==> Allocated(Last(views), SlotOf(a)))
    && (forall p :: p in issued ==> p.0.generation < t.next)
    && (forall p, i :: p in issued && Current(t, p.0) && 0 <= i < |views| ==> Denotes(views[i], p.0.address, p.1))
  }

  /** The theorem the invariant is for: a resolving handle is the element it was issued for. */
  lemma ResolvedHandleIsGenuine(views: seq<Graph>, t: Table, issued: Issued, i: nat, h: Handle, who: Ident)
    requires Lineage(views) && Safe(views, t, issued) && i < |views| && (h, who) in issued && Resolves(t, views[i], h)
    ensures Present(views[i], SlotOf(h.address)) && Identity(views[i], SlotOf(h.address)) == who
  {
    ResolvedIsLive(t, views[i], h);
    LiveIsPresent(views[i], SlotOf(h.address));
    var p := (h, who);
    assert p in issued && Current(t, p.0);
  }

  /** In a lineage, all views that hold an address agree on who it is. */
  lemma LineageAgrees(views: seq<Graph>, i: nat, j: nat, s: Slot)
    requires Lineage(views) && i < |views| && j < |views| && Present(views[i], s) && Present(views[j], s)
    ensures Identity(views[i], s) == Identity(views[j], s)
  {
    PresentIsAllocated(views[i], s);
    PresentIsAllocated(views[j], s);
    if i < j { SameIdentity(views[i], views[j], s); }
    else if j < i { SameIdentity(views[j], views[i], s); }
  }

  lemma StampKeepsSafe(views: seq<Graph>, t: Table, issued: Issued, a: Address, i: nat)
    requires Lineage(views) && Safe(views, t, issued) && i < |views| && Present(views[i], SlotOf(a))
    requires OwnersKnown(a, t.next)
    ensures
      var (h, t') := Stamp(t, a);
      Safe(views, t', issued + {(h, Identity(views[i], SlotOf(a)))})
  {
    var (h, t') := Stamp(t, a);
    var who := Identity(views[i], SlotOf(a));
    StampExtends(t, a);
    PresentIsAllocated(views[i], SlotOf(a));
    if i < |views| - 1 { StillAllocated(views[i], Last(views), SlotOf(a)); }
    forall p, k | p in issued + {(h, who)} && Current(t', p.0) && 0 <= k < |views|
      ensures Denotes(views[k], p.0.address, p.1)
    {
      if p == (h, who) {
        if Present(views[k], SlotOf(a)) { LineageAgrees(views, i, k, SlotOf(a)); }
      } else {
        assert p in issued && Current(t, p.0);
      }
    }
  }

  /** The handles issued along with a handle: its own and those of its owners. */
  ghost function Witnesses(t: Table, g: Graph, s: Slot): Issued
    requires Present(g, s)
    decreases s
  {
    var own := {(Issue(t, s).0, Identity(g, s))};
    if s.VertexProperty? || s.Field? then Witnesses(t, g, s.owner) + own else own
  }

  lemma {:induction false} IssueKeepsSafe(views: seq<Graph>, t: Table, issued: Issued, s: Slot, i: nat)
    requires Lineage(views) && Safe(views, t, issued) && i < |views| && Present(views[i], s)
    ensures Safe(views, Issue(t, s).1, issued + Witnesses(t, views[i], s))
    decreases s
  {
    match s
    case Vertex(l, r) => StampKeepsSafe(views, t, issued, VertexAt(l, r), i);
    case Edge(l, r) => StampKeepsSafe(views, t, issued, EdgeAt(l, r), i);
    case VertexProperty(o, k, r) =>
      IssueKeepsSafe(views, t, issued, o, i);
      IssueExtends(t, o);
      var (h, t') := Issue(t, o);
      StampKeepsSafe(views, t', issued + Witnesses(t, views[i], o), VertexPropertyAt(h, k, r), i);
      SameUnion(issued, Witnesses(t, views[i], o), {(Issue(t, s).0, Identity(views[i], s))});
    case Field(o, k) =>
      IssueKeepsSafe(views, t, issued, o, i);
      IssueExtends(t, o);
      var (h, t') := Issue(t, o);
      StampKeepsSafe(views, t', issued + Witnesses(t, views[i], o), FieldAt(h, k), i);
      SameUnion(issued, Witnesses(t, views[i], o), {(Issue(t, s).0, Identity(views[i], s))});
  }

  lemma SameUnion(a: Issued, b: Issued, c: Issued)
    ensures a + b + c == a + (b + c)
  {
  }

  /** Replacing the working graph by a continuation of it. */
  lemma MutationKeepsSafe(views: seq<Graph>, t: Table, issued: Issued, g: Graph)
    requires Lineage(views) && Safe(views, t, issued) && WellAllocated(g) && Descends(Last(views), g)
    ensures Lineage(views[..|views| - 1] + [g]) && Safe(views[..|views| - 1] + [g], t, issued)
  {
    var n := |views| - 1;
    var views' := views[..n] + [g];
    forall i | 0 <= i < n ensures Descends(views[i], g) { DescendsTransitive(views[i], views[n], g); }
    assert Last(views') == g;
    forall a | a in t.generations ensures Allocated(g, SlotOf(a)) { StillAllocated(views[n], g, SlotOf(a)); }
    forall p, i | p in issued && Current(t, p.0) && 0 <= i < |views'| ensures Denotes(views'[i], p.0.address, p.1) {
      assert p.0.address in t.generations;
      if i < n { assert Denotes(views[i], p.0.address, p.1); }
      else if Present(g, SlotOf(p.0.address)) {
        SameIdentity(views[n], g, SlotOf(p.0.address));
        assert Denotes(views[n], p.0.address, p.1);
      }
    }
  }

  lemma DescendsReflexive(g: Graph)
    ensures Descends(g, g)
  {
  }

  /** Saving a copy of the working graph. */
  lemma SaveKeepsSafe(views: seq<Graph>, t: Table, issued: Issued)
    requires Lineage(views) && Safe(views, t, issued)
    ensures Lineage(views + [Last(views)]) && Safe(views + [Last(views)], t, issued)
  {
    var n := |views|;
    var views' := views + [Last(views)];
    DescendsReflexive(Last(views));
    forall i, j | 0 <= i < j < |views'| ensures Descends(views'[i], views'[j]) {
      if j == n && i < n - 1 { assert Descends(views[i], views[n - 1]); }
    }
    forall p, i | p in issued && Current(t, p.0) && 0 <= i < |views'| ensures Denotes(views'[i], p.0.address, p.1) {
      assert Denotes(views[if i == n then n - 1 else i], p.0.address, p.1);
    }
  }

  /** Any non-empty selection of views in order that keeps the working graph. */
  lemma DropKeepsSafe(views: seq<Graph>, t: Table, issued: Issued, k: nat)
    requires Lineage(views) && Safe(views, t, issued) && k + 1 < |views|
    ensures Lineage(views[..k] + views[k + 1..]) && Safe(views[..k] + views[k + 1..], t, issued)
  {
    var views' := views[..k] + views[k + 1..];
    assert forall i :: 0 <= i < |views'| ==> views'[i] == views[if i < k then i else i + 1];
    assert Last(views') == Last(views);
    forall p, i | p in issued && Current(t, p.0) && 0 <= i < |views'| ensures Denotes(views'[i], p.0.address, p.1) {
      assert Denotes(views[if i < k then i else i + 1], p.0.address, p.1);
    }
  }

  /** Going back to an earlier view and pruning: this is where numbers become free again. */
  lemma RestoreKeepsSafe(views: seq<Graph>, t: Table, issued: Issued, n: nat)
    requires Lineage(views) && Safe(views, t, issued) && 0 < n <= |views|
    ensures Lineage(views[..n]) && Safe(views[..n], Pruned(t, views[n - 1], views[0]), issued)
  {
    var views' := views[..n];
    var t' := Pruned(t, views[n - 1], views[0]);
    assert Last(views') == views[n - 1];
    forall a | a in t'.generations ensures Allocated(Last(views'), SlotOf(a)) {
      if Resolves(t, views[n - 1], Entry(t, a)) {
        ResolvedIsLive(t, views[n - 1], Entry(t, a));
        LiveIsAllocated(views[n - 1], SlotOf(a));
      } else {
        ResolvedIsLive(t, views[0], Entry(t, a));
        LiveIsAllocated(views[0], SlotOf(a));
        if n > 1 { StillAllocated(views[0], views[n - 1], SlotOf(a)); }
      }
    }
    forall p, i | p in issued && Current(t', p.0) && 0 <= i < n ensures Denotes(views'[i], p.0.address, p.1) {
      assert Current(t, p.0) && Denotes(views[i], p.0.address, p.1);
    }
  }

  /** Committing makes the working graph the committed one, then prunes. */
  lemma CommitKeepsSafe(views: seq<Graph>, t: Table, issued: Issued)
    requires Lineage(views) && Safe(views, t, issued)
    ensures
      var g := Last(views);
      Lineage([g, g]) && Safe([g, g], Pruned(t, g, g), issued)
  {
    var g := Last(views);
    DescendsReflexive(g);
    var t' := Pruned(t, g, g);
    forall p, i | p in issued && Current(t', p.0) && 0 <= i < 2 ensures Denotes([g, g][i], p.0.address, p.1) {
      assert Current(t, p.0) && Denotes(views[|views| - 1], p.0.address, p.1);
    }
  }

  /** Pruning keeps every handle that resolves in either view. */
  lemma {:induction false} PruneKeepsResolving(t: Table, working: Graph, committed: Graph, g: Graph, h: Handle)
    requires g == working || g == committed
    ensures Resolves(Pruned(t, working, committed), g, h) <==> Resolves(t, g, h)
    decreases h.address
  {
    if h.address.VertexPropertyAt? || h.address.FieldAt? {
      PruneKeepsResolving(t, working, committed, g, h.address.owner);
    }
  }
}
