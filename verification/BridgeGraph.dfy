/** The property graph behind the JVM bridge, reduced to what identity needs: cells at
    addresses whose rows come from counters that are copied with the graph and never go
    down along one lineage. `born` is the number of the request that created a cell; no
    operation looks at it. */
module BridgeGraph {
  import opened Text

  datatype Slot =
    | Vertex(tag: string, row: nat)
    | Edge(tag: string, row: nat)
    | VertexProperty(owner: Slot, key: string, row: nat)
    | Field(owner: Slot, key: string)

  datatype Cell = Cell(born: nat, value: int, ends: Option<(Slot, Slot)>)
  datatype Graph = Graph(
    cells: map<Slot, Cell>,
    vertexRows: map<string, nat>,
    edgeRows: map<string, nat>,
    propertyRows: nat)

  /** Who an element is: its creation, or the named field of its owner. */
  datatype Ident = Created(slot: Slot, born: nat) | FieldOf(owner: Ident, key: string)

  function Rows(m: map<string, nat>, tag: string): nat {
    if tag in m then m[tag] else 0
  }

  predicate Allocated(g: Graph, s: Slot) {
    match s
    case Vertex(l, r) => r < Rows(g.vertexRows, l)
    case Edge(l, r) => r < Rows(g.edgeRows, l)
    case VertexProperty(o, _, r) => Allocated(g, o) && r < g.propertyRows
    case Field(o, _) => Allocated(g, o)
  }

  predicate Live(g: Graph, s: Slot) {
    match s
    case Vertex(_, _) => s in g.cells
    case Edge(_, _) => s in g.cells
    case VertexProperty(o, _, _) => s in g.cells && Live(g, o)
    case Field(o, _) => s in g.cells && Live(g, o)
  }

  /** All created parts of the address exist; a field itself may be unset. */
  predicate Present(g: Graph, s: Slot) {
    match s
    case Vertex(_, _) => s in g.cells
    case Edge(_, _) => s in g.cells
    case VertexProperty(o, _, _) => s in g.cells && Present(g, o)
    case Field(o, _) => Present(g, o)
  }

  function Identity(g: Graph, s: Slot): Ident
    requires Present(g, s)
  {
    match s
    case Field(o, k) => FieldOf(Identity(g, o), k)
    case _ => Created(s, g.cells[s].born)
  }

  lemma {:induction false} LiveIsPresent(g: Graph, s: Slot)
    requires Live(g, s)
    ensures Present(g, s)
  {
    if s.VertexProperty? || s.Field? { LiveIsPresent(g, s.owner); }
  }

  predicate WellAllocated(g: Graph) {
    forall s :: s in g.cells ==> Allocated(g, s)
  }

  lemma {:induction false} PresentIsAllocated(g: Graph, s: Slot)
    requires WellAllocated(g) && Present(g, s)
    ensures Allocated(g, s)
  {
    if s.Field? { PresentIsAllocated(g, s.owner); }
  }

  /** g' continues g: no counter goes down, and nothing that g had allocated reappears in g'
      as another creation. */
  ghost predicate Descends(g: Graph, g': Graph) {
    && (forall l :: Rows(g.vertexRows, l) <= Rows(g'.vertexRows, l))
    && (forall l :: Rows(g.edgeRows, l) <= Rows(g'.edgeRows, l))
    && g.propertyRows <= g'.propertyRows
    && (forall s :: s in g'.cells && !s.Field? && Allocated(g, s) ==>
      s in g.cells && g.cells[s].born == g'.cells[s].born)
  }

  lemma {:induction false} StillAllocated(g: Graph, g': Graph, s: Slot)
    requires Descends(g, g') && Allocated(g, s)
    ensures Allocated(g', s)
  {
    if s.VertexProperty? || s.Field? { StillAllocated(g, g', s.owner); }
  }

  lemma DescendsTransitive(a: Graph, b: Graph, c: Graph)
    requires Descends(a, b) && Descends(b, c)
    ensures Descends(a, c)
  {
    forall s | s in c.cells && !s.Field? && Allocated(a, s) ensures s in a.cells && a.cells[s].born == c.cells[s].born {
      StillAllocated(a, b, s);
    }
  }

  /** An address allocated in the ancestor and present in the descendant is the same element. */
  lemma {:induction false} SameIdentity(g: Graph, g': Graph, s: Slot)
    requires Descends(g, g') && Allocated(g, s) && Present(g', s)
    ensures Present(g, s) && Identity(g, s) == Identity(g', s)
  {
    if s.VertexProperty? || s.Field? { SameIdentity(g, g', s.owner); }
  }

  // ---------------------------------------------------------------- mutations

  datatype Action =
    | AddVertex(tag: string, value: int)
    | AddEdge(tag: string, src: Slot, dst: Slot, value: int)
    | AddProperty(owner: Slot, key: string, value: int)
    | SetField(owner: Slot, key: string, value: int)
    | Update(slot: Slot, value: int)
    | Remove(slot: Slot)

  /** A single graph mutation of request number `now`; None when the graph refuses it. */
  function Act(g: Graph, a: Action, now: nat): Option<Graph> {
    match a
    case AddVertex(l, v) =>
      var r := Rows(g.vertexRows, l);
      Some(g.(cells := g.cells[Vertex(l, r) := Cell(now, v, None)], vertexRows := g.vertexRows[l := r + 1]))
    case AddEdge(l, s, d, v) =>
      var r := Rows(g.edgeRows, l);
      if s.Vertex? && d.Vertex? && Live(g, s) && Live(g, d) then
        Some(g.(cells := g.cells[Edge(l, r) := Cell(now, v, Some((s, d)))], edgeRows := g.edgeRows[l := r + 1]))
      else None
    case AddProperty(o, k, v) =>
      if o.Vertex? && Live(g, o) then
        Some(g.(cells := g.cells[VertexProperty(o, k, g.propertyRows) := Cell(now, v, None)],
                propertyRows := g.propertyRows + 1))
      else None
    case SetField(o, k, v) =>
      if (o.Edge? || o.VertexProperty?) && Live(g, o) then Some(g.(cells := g.cells[Field(o, k) := Cell(now, v, None)]))
      else None
    case Update(s, v) =>
      if Live(g, s) then Some(g.(cells := g.cells[s := g.cells[s].(value := v)])) else None
    case Remove(s) =>
      if Live(g, s) then Some(g.(cells := map x | x in g.cells && x != s && !Incident(g.cells[x], s) :: g.cells[x]))
      else None
  }

  /** Removing a vertex removes its edges. */
  predicate Incident(c: Cell, s: Slot) {
    c.ends.Some? && (c.ends.value.0 == s || c.ends.value.1 == s)
  }

  lemma {:induction false} LiveIsAllocated(g: Graph, s: Slot)
    requires WellAllocated(g) && Live(g, s)
    ensures Allocated(g, s)
  {
    LiveIsPresent(g, s);
    PresentIsAllocated(g, s);
  }

  lemma {:induction false} GrowthKeepsAllocation(g: Graph, g': Graph, s: Slot)
    requires forall l :: Rows(g.vertexRows, l) <= Rows(g'.vertexRows, l)
    requires forall l :: Rows(g.edgeRows, l) <= Rows(g'.edgeRows, l)
    requires g.propertyRows <= g'.propertyRows && Allocated(g, s)
    ensures Allocated(g', s)
  {
    if s.VertexProperty? || s.Field? { GrowthKeepsAllocation(g, g', s.owner); }
  }

  /** Every mutation continues the lineage. */
  lemma ActDescends(g: Graph, a: Action, now: nat)
    requires WellAllocated(g) && Act(g, a, now).Some?
    ensures WellAllocated(Act(g, a, now).value) && Descends(g, Act(g, a, now).value)
  {
    var g' := Act(g, a, now).value;
    if a.AddProperty? || a.SetField? { LiveIsAllocated(g, a.owner); }
    forall s | s in g'.cells ensures Allocated(g', s) {
      if s in g.cells { GrowthKeepsAllocation(g, g', s); }
      else if s.VertexProperty? || s.Field? { GrowthKeepsAllocation(g, g', s.owner); }
    }
  }
}
