/** What mutation steps do to the memory of the store, and what a read can see of it. */
module BridgeMemory {
  import opened Text
  import opened BridgeGraph
  import opened BridgeHandles

  type Runtime = map<Handle, int>
  datatype Data = Data(graph: Graph, runtime: Runtime)
  /** What a mutation request does, step by step. `Abort` is any error on the way. */
  datatype Step =
    | Do(action: Action)
    | Hand(slot: Slot)
    | PutRuntime(slot: Slot, value: int)
    | DropRuntime(slot: Slot)
    | Abort

  /** What a request works on. */
  datatype Memory = Memory(handles: Table, graph: Graph, runtime: Runtime)

  /** One step; the handle of an element is issued where the step needs it. */
  function Stepped(m: Memory, step: Step, now: nat): Option<Memory> {
    match step
    case Do(a) => (match Act(m.graph, a, now) case None => None case Some(g) => Some(m.(graph := g)))
    case Hand(s) => if Live(m.graph, s) then Some(m.(handles := Issue(m.handles, s).1)) else None
    case PutRuntime(s, v) =>
      if !Live(m.graph, s) then None
      else
        var (h, t) := Issue(m.handles, s);
        Some(m.(handles := t, runtime := m.runtime[h := v]))
    case DropRuntime(s) =>
      if !Live(m.graph, s) then None
      else
        var (h, t) := Issue(m.handles, s);
        Some(m.(handles := t, runtime := m.runtime - {h}))
    case Abort => None
  }

  /** The effect of a whole script, or None if any step is refused. */
  function Played(m: Memory, script: seq<Step>, now: nat): Option<Memory> {
    if script == [] then Some(m)
    else match Played(m, script[..|script| - 1], now)
    case None => None
    case Some(m') => Stepped(m', script[|script| - 1], now)
  }

  lemma {:induction false} PlayedPrefix(m: Memory, script: seq<Step>, now: nat, n: nat)
    requires n <= |script| && Played(m, script[..n], now).None?
    ensures Played(m, script, now).None?
  {
    if n == |script| {
      assert script[..n] == script;
    } else {
      assert script[..|script| - 1][..n] == script[..n];
      PlayedPrefix(m, script[..|script| - 1], now, n);
    }
  }

  // ---------------------------------------------------------------- what can be seen

  /** What holds of the memory of a store: addresses known to the handle table are allocated, and runtime
      values belong to handles that were issued. */
  ghost predicate MemoryOk(m: Memory) {
    && WellAllocated(m.graph) && TablesOk(m)
    && (forall a :: a in m.handles.generations ==> Allocated(m.graph, SlotOf(a)))
  }

  ghost predicate TablesOk(m: Memory) {
    TableOk(m.handles) && RuntimeKnown(m.runtime, m.handles.next)
  }

  /** Runtime values belong to handles that were issued before generation n. */
  ghost predicate RuntimeKnown(runtime: Runtime, n: nat) {
    forall h :: h in runtime ==> h.generation < n
  }

  /** The handle has a runtime value, which hides the stored value of the slot. */
  ghost predicate Hides(m: Memory, s: Slot, h: Handle) {
    Resolves(m.handles, m.graph, h) && SlotOf(h.address) == s && h in m.runtime
  }

  /** What a read shows of a slot: nothing unless it is live, the runtime value if there is one, else the
      stored value. */
  ghost function Seen(m: Memory, s: Slot): Option<int> {
    if !Live(m.graph, s) then None
    else if exists h :: Hides(m, s, h) then
      var h :| Hides(m, s, h);
      Some(m.runtime[h])
    else Some(m.graph.cells[s].value)
  }

  lemma SeenThrough(m: Memory, s: Slot, h: Handle)
    requires Resolves(m.handles, m.graph, h) && SlotOf(h.address) == s
    ensures Live(m.graph, s) && Seen(m, s) == Some(if h in m.runtime then m.runtime[h] else m.graph.cells[s].value)
  {
    ResolvedIsLive(m.handles, m.graph, h);
    forall i | Hides(m, s, i) ensures i == h { ResolvedIsUnique(m.handles, m.graph, h, i); }
    if h in m.runtime { assert Hides(m, s, h); }
  }

  /** Issuing handles changes nothing that can be seen. */
  lemma SeenInExtension(m: Memory, t: Table, s: Slot)
    requires TablesOk(m) && Extends(m.handles, t)
    ensures Seen(m.(handles := t), s) == Seen(m, s)
  {
    var m' := m.(handles := t);
    forall h: Handle ensures Hides(m', s, h) <==> Hides(m, s, h) {
      if Hides(m', s, h) { OldHandleResolves(m.handles, t, m.graph, h); }
      if Hides(m, s, h) { ResolvesInExtension(m.handles, t, m.graph, h); }
    }
    if h :| Hides(m, s, h) {
      SeenThrough(m, s, h);
      SeenThrough(m', s, h);
    }
  }

  /** The handle that is issued for a slot shows what can be seen of it. */
  lemma SeenAtIssue(m: Memory, s: Slot)
    requires TablesOk(m) && Live(m.graph, s)
    ensures var h := Issue(m.handles, s).0;
      Seen(m, s) == Some(if h in m.runtime then m.runtime[h] else m.graph.cells[s].value)
  {
    var (h, t) := Issue(m.handles, s);
    IssueExtends(m.handles, s);
    IssueResolves(m.handles, m.graph, s);
    SeenInExtension(m, t, s);
    SeenThrough(m.(handles := t), s, h);
  }

  /** The answer of a read: one handle and value for each slot that can be seen, in order. */
  ghost predicate ReadsAs(m: Memory, slots: seq<Slot>, seen: seq<(Handle, int)>) {
    if slots == [] then seen == []
    else
      var n, k := |slots| - 1, |seen| - 1;
      match Seen(m, slots[n])
      case None => ReadsAs(m, slots[..n], seen)
      case Some(x) =>
        seen != [] && SlotOf(seen[k].0.address) == slots[n] && seen[k].1 == x && ReadsAs(m, slots[..n], seen[..k])
  }

  lemma ReadsSnoc(m: Memory, slots: seq<Slot>, seen: seq<(Handle, int)>, s: Slot, one: seq<(Handle, int)>)
    requires ReadsAs(m, slots, seen)
    requires match Seen(m, s)
      case None => one == []
      case Some(x) => |one| == 1 && SlotOf(one[0].0.address) == s && one[0].1 == x
    ensures ReadsAs(m, slots + [s], seen + one)
  {
    assert (slots + [s])[..|slots|] == slots;
    assert seen + [] == seen;
    if one != [] { assert (seen + one)[..|seen|] == seen; }
  }

  // ---------------------------------------------------------------- what steps show

  predicate Under(s: Slot, top: Slot)
    decreases s
  {
    s == top || ((s.VertexProperty? || s.Field?) && Under(s.owner, top))
  }

  /** Removing `top` takes the slot away: it is the element, an edge of it, or belongs to one of these. */
  predicate Gone(g: Graph, s: Slot, top: Slot)
    decreases s
  {
    || s == top
    || (s in g.cells && Incident(g.cells[s], top))
    || ((s.VertexProperty? || s.Field?) && Gone(g, s.owner, top))
  }

  ghost predicate SameSeen(m: Memory, m': Memory) {
    forall s :: Seen(m', s) == Seen(m, s)
  }

  /** One new element shows its value and everything else what it did. */
  ghost predicate Born(m: Memory, m': Memory, c: Slot, v: int) {
    Seen(m, c) == None && Seen(m', c) == Some(v) && forall s :: s != c ==> Seen(m', s) == Seen(m, s)
  }

  /** A stored value shows unless a runtime value hides it. */
  ghost predicate Stores(m: Memory, s: Slot, v: int) {
    && (forall h :: Hides(m, s, h) ==> Seen(m, s) == Some(m.runtime[h]))
    && ((forall h :: !Hides(m, s, h)) ==> Seen(m, s) == Some(v))
  }

  /** What each step makes a later read show. */
  ghost predicate StepShows(m: Memory, step: Step, m': Memory) {
    match step
    case Do(AddVertex(l, v)) => exists r :: Born(m, m', Vertex(l, r), v)
    case Do(AddEdge(l, a, b, v)) =>
      && Seen(m, a).Some? && Seen(m, b).Some?
      && exists r :: Born(m, m', Edge(l, r), v) && m'.graph.cells[Edge(l, r)].ends == Some((a, b))
    case Do(AddProperty(o, k, v)) => Seen(m, o).Some? && exists r :: Born(m, m', VertexProperty(o, k, r), v)
    case Do(SetField(o, k, v)) =>
      && Seen(m, o).Some? && Stores(m', Field(o, k), v)
      && forall s :: !Under(s, Field(o, k)) ==> Seen(m', s) == Seen(m, s)
    case Do(Update(s, v)) =>
      Seen(m, s).Some? && Stores(m', s, v) && forall x :: x != s ==> Seen(m', x) == Seen(m, x)
    case Do(Remove(s)) =>
      Seen(m, s).Some? && forall x :: Seen(m', x) == if Gone(m.graph, x, s) then None else Seen(m, x)
    case Hand(s) => Seen(m, s).Some? && SameSeen(m, m')
    case PutRuntime(s, v) =>
      Seen(m, s).Some? && Seen(m', s) == Some(v) && forall x :: x != s ==> Seen(m', x) == Seen(m, x)
    case DropRuntime(s) =>
      && Seen(m, s).Some? && s in m.graph.cells && Seen(m', s) == Some(m.graph.cells[s].value)
      && forall x :: x != s ==> Seen(m', x) == Seen(m, x)
    case Abort => false
  }

  /** The steps that go through. */
  ghost predicate Allows(m: Memory, step: Step) {
    match step
    case Do(AddVertex(_, _)) => true
    case Do(AddEdge(_, a, b, _)) => a.Vertex? && b.Vertex? && Seen(m, a).Some? && Seen(m, b).Some?
    case Do(AddProperty(o, _, _)) => o.Vertex? && Seen(m, o).Some?
    case Do(SetField(o, _, _)) => (o.Edge? || o.VertexProperty?) && Seen(m, o).Some?
    case Do(Update(s, _)) => Seen(m, s).Some?
    case Do(Remove(s)) => Seen(m, s).Some?
    case Hand(s) => Seen(m, s).Some?
    case PutRuntime(s, _) => Seen(m, s).Some?
    case DropRuntime(s) => Seen(m, s).Some?
    case Abort => false
  }

  // ---------------------------------------------------------------- graph changes

  /** The slot and its owners are there in both graphs or in neither, with the same stored value. */
  predicate SameChain(g: Graph, g': Graph, s: Slot)
    decreases s
  {
    && (s in g.cells <==> s in g'.cells)
    && ((s.VertexProperty? || s.Field?) ==> SameChain(g, g', s.owner))
  }

  lemma {:induction false} SameChainResolves(g: Graph, g': Graph, t: Table, h: Handle)
    requires SameChain(g, g', SlotOf(h.address))
    ensures Resolves(t, g, h) <==> Resolves(t, g', h)
    decreases h.address
  {
    if h.address.VertexPropertyAt? || h.address.FieldAt? { SameChainResolves(g, g', t, h.address.owner); }
  }

  lemma {:induction false} SameChainLive(g: Graph, g': Graph, s: Slot)
    requires SameChain(g, g', s)
    ensures Live(g, s) <==> Live(g', s)
    decreases s
  {
    if s.VertexProperty? || s.Field? { SameChainLive(g, g', s.owner); }
  }

  lemma SeenUnchanged(m: Memory, g: Graph, s: Slot)
    requires SameChain(m.graph, g, s)
    requires s in m.graph.cells ==> m.graph.cells[s].value == g.cells[s].value
    ensures Seen(m.(graph := g), s) == Seen(m, s)
  {
    var m' := m.(graph := g);
    SameChainLive(m.graph, g, s);
    forall h: Handle ensures Hides(m', s, h) <==> Hides(m, s, h) {
      if SlotOf(h.address) == s { SameChainResolves(m.graph, g, m.handles, h); }
    }
    if Live(m.graph, s) {
      LiveHasCell(m.graph, s);
      if h :| Hides(m, s, h) {
        SeenThrough(m, s, h);
        SeenThrough(m', s, h);
      }
    }
  }

  lemma LiveHasCell(g: Graph, s: Slot)
    requires Live(g, s)
    ensures s in g.cells
  {
  }

  lemma {:induction false} UnderUnallocated(g: Graph, s: Slot, c: Slot)
    requires WellAllocated(g) && Under(s, c) && !Allocated(g, c)
    ensures !Allocated(g, s) && s !in g.cells
    decreases s
  {
    if s != c { UnderUnallocated(g, s.owner, c); }
  }

  lemma {:induction false} NotUnderSameChain(g: Graph, g': Graph, s: Slot, c: Slot)
    requires !Under(s, c) && forall x :: x != c ==> (x in g.cells <==> x in g'.cells)
    ensures SameChain(g, g', s)
    decreases s
  {
    if s.VertexProperty? || s.Field? { NotUnderSameChain(g, g', s.owner, c); }
  }

  function Depth(s: Slot): nat {
    if s.VertexProperty? || s.Field? then 1 + Depth(s.owner) else 0
  }

  lemma {:induction false} UnderIsDeeper(s: Slot, top: Slot)
    requires Under(s, top)
    ensures Depth(top) <= Depth(s)
    decreases s
  {
    if s != top { UnderIsDeeper(s.owner, top); }
  }

  lemma OwnerNotUnder(o: Slot, k: string)
    ensures !Under(o, Field(o, k))
  {
    if Under(o, Field(o, k)) { UnderIsDeeper(o, Field(o, k)); }
  }

  lemma NotLiveNotSeen(m: Memory, s: Slot)
    requires s !in m.graph.cells
    ensures Seen(m, s) == None
  {
  }

  /** A new cell at an address that was never allocated. */
  lemma NewCell(m: Memory, g: Graph, c: Slot, cell: Cell)
    requires MemoryOk(m) && !Allocated(m.graph, c) && g.cells == m.graph.cells[c := cell] && Live(g, c)
    ensures Born(m, m.(graph := g), c, cell.value)
  {
    var m' := m.(graph := g);
    UnderUnallocated(m.graph, c, c);
    NotLiveNotSeen(m, c);
    forall h: Handle ensures !Hides(m', c, h) {
      if SlotOf(h.address) == c { assert h.address !in m.handles.generations; }
    }
    forall s | s != c ensures Seen(m', s) == Seen(m, s) {
      if Under(s, c) {
        UnderUnallocated(m.graph, s, c);
        NotLiveNotSeen(m, s);
        NotLiveNotSeen(m', s);
      } else {
        NotUnderSameChain(m.graph, g, s, c);
        SeenUnchanged(m, g, s);
      }
    }
  }

  lemma StoresWhatIsStored(m: Memory, s: Slot)
    requires Live(m.graph, s)
    ensures Stores(m, s, m.graph.cells[s].value)
  {
    forall h | Hides(m, s, h) ensures Seen(m, s) == Some(m.runtime[h]) { SeenThrough(m, s, h); }
  }

  // ---------------------------------------------------------------- steps

  lemma ActAllowed(m: Memory, a: Action, now: nat)
    ensures Act(m.graph, a, now).Some? <==> Allows(m, Do(a))
  {
  }

  lemma UpdateShows(m: Memory, s: Slot, cell: Cell, g: Graph)
    requires MemoryOk(m) && g.cells == m.graph.cells[s := cell] && Live(g, s)
    ensures Stores(m.(graph := g), s, cell.value)
    ensures forall x :: !Under(x, s) ==> Seen(m.(graph := g), x) == Seen(m, x)
    ensures s in m.graph.cells ==> forall x :: x != s ==> Seen(m.(graph := g), x) == Seen(m, x)
  {
    StoresWhatIsStored(m.(graph := g), s);
    forall x | !Under(x, s) ensures Seen(m.(graph := g), x) == Seen(m, x) {
      NotUnderSameChain(m.graph, g, x, s);
      SeenUnchanged(m, g, x);
    }
    if s in m.graph.cells {
      forall x | x != s ensures Seen(m.(graph := g), x) == Seen(m, x) {
        SameCellsSameChain(m.graph, g, x);
        SeenUnchanged(m, g, x);
      }
    }
  }

  lemma {:induction false} SameCellsSameChain(g: Graph, g': Graph, s: Slot)
    requires forall x :: x in g.cells <==> x in g'.cells
    ensures SameChain(g, g', s)
    decreases s
  {
    if s.VertexProperty? || s.Field? { SameCellsSameChain(g, g', s.owner); }
  }

  lemma {:induction false} RemovedChain(g: Graph, g': Graph, s: Slot, top: Slot)
    requires g'.cells == map x | x in g.cells && x != top && !Incident(g.cells[x], top) :: g.cells[x]
    ensures !Gone(g, s, top) ==> SameChain(g, g', s)
    ensures Gone(g, s, top) ==> !Live(g', s)
    decreases s
  {
    if s.VertexProperty? || s.Field? { RemovedChain(g, g', s.owner, top); }
  }

  lemma RemoveShows(m: Memory, top: Slot, g: Graph)
    requires g.cells == map x | x in m.graph.cells && x != top && !Incident(m.graph.cells[x], top) :: m.graph.cells[x]
    ensures forall x :: Seen(m.(graph := g), x) == if Gone(m.graph, x, top) then None else Seen(m, x)
  {
    forall x ensures Seen(m.(graph := g), x) == if Gone(m.graph, x, top) then None else Seen(m, x) {
      RemovedChain(m.graph, g, x, top);
      if !Gone(m.graph, x, top) { SeenUnchanged(m, g, x); }
    }
  }

  lemma ActShows(m: Memory, a: Action, now: nat)
    requires MemoryOk(m) && Act(m.graph, a, now).Some?
    ensures StepShows(m, Do(a), m.(graph := Act(m.graph, a, now).value))
  {
    var g := Act(m.graph, a, now).value;
    match a
    case AddVertex(l, v) => NewCell(m, g, Vertex(l, Rows(m.graph.vertexRows, l)), Cell(now, v, None));
    case AddEdge(l, s, d, v) => NewCell(m, g, Edge(l, Rows(m.graph.edgeRows, l)), Cell(now, v, Some((s, d))));
    case AddProperty(o, k, v) =>
      var c := VertexProperty(o, k, m.graph.propertyRows);
      NotUnderSameChain(m.graph, g, o, c);
      SameChainLive(m.graph, g, o);
      NewCell(m, g, c, Cell(now, v, None));
    case SetField(o, k, v) =>
      OwnerNotUnder(o, k);
      NotUnderSameChain(m.graph, g, o, Field(o, k));
      SameChainLive(m.graph, g, o);
      UpdateShows(m, Field(o, k), Cell(now, v, None), g);
    case Update(s, v) =>
      LiveHasCell(m.graph, s);
      SameCellsSameChain(m.graph, g, s);
      SameChainLive(m.graph, g, s);
      UpdateShows(m, s, m.graph.cells[s].(value := v), g);
    case Remove(s) => RemoveShows(m, s, g);
  }

  lemma ActKeepsOk(m: Memory, a: Action, now: nat)
    requires MemoryOk(m) && Act(m.graph, a, now).Some?
    ensures MemoryOk(m.(graph := Act(m.graph, a, now).value))
  {
    var g := Act(m.graph, a, now).value;
    ActDescends(m.graph, a, now);
    forall b | b in m.handles.generations ensures Allocated(g, SlotOf(b)) { StillAllocated(m.graph, g, SlotOf(b)); }
  }

  lemma {:induction false} IssueAllocated(m: Memory, s: Slot)
    requires MemoryOk(m) && Allocated(m.graph, s)
    ensures MemoryOk(m.(handles := Issue(m.handles, s).1))
    decreases s
  {
    IssueExtends(m.handles, s);
    if s.VertexProperty? || s.Field? { IssueAllocated(m, s.owner); }
  }

  /** A handle is issued and its runtime value set or dropped; nothing else that is seen changes. */
  lemma RuntimeShows(m: Memory, s: Slot, value: Option<int>)
    requires MemoryOk(m) && Live(m.graph, s)
    ensures
      var (h, t) := Issue(m.handles, s);
      var m' := Memory(t, m.graph, if value.Some? then m.runtime[h := value.value] else m.runtime - {h});
      && MemoryOk(m') && Seen(m', s) == Some(if value.Some? then value.value else m.graph.cells[s].value)
      && forall x :: x != s ==> Seen(m', x) == Seen(m, x)
  {
    var (h, t) := Issue(m.handles, s);
    var known := m.(handles := t);
    var m' := Memory(t, m.graph, if value.Some? then m.runtime[h := value.value] else m.runtime - {h});
    LiveIsAllocated(m.graph, s);
    IssueAllocated(m, s);
    IssueExtends(m.handles, s);
    IssueResolves(m.handles, m.graph, s);
    SeenThrough(m', s, h);
    forall x | x != s ensures Seen(m', x) == Seen(m, x) {
      SeenInExtension(m, t, x);
      OtherRuntime(known, m', h, x);
    }
  }

  lemma OtherRuntime(m: Memory, m': Memory, h: Handle, s: Slot)
    requires m'.handles == m.handles && m'.graph == m.graph && SlotOf(h.address) != s
    requires forall i :: i != h ==> (i in m.runtime <==> i in m'.runtime)
    requires forall i :: i != h && i in m.runtime ==> m.runtime[i] == m'.runtime[i]
    ensures Seen(m', s) == Seen(m, s)
  {
    forall i: Handle ensures Hides(m', s, i) <==> Hides(m, s, i) {
    }
    if i :| Hides(m, s, i) {
      SeenThrough(m, s, i);
      SeenThrough(m', s, i);
    }
  }

  lemma HandShows(m: Memory, s: Slot)
    requires MemoryOk(m) && Live(m.graph, s)
    ensures var m' := m.(handles := Issue(m.handles, s).1); MemoryOk(m') && SameSeen(m, m')
  {
    LiveIsAllocated(m.graph, s);
    IssueAllocated(m, s);
    IssueExtends(m.handles, s);
    forall x ensures Seen(m.(handles := Issue(m.handles, s).1), x) == Seen(m, x) {
      SeenInExtension(m, Issue(m.handles, s).1, x);
    }
  }

  /** Each step goes through exactly when it is allowed, and then shows what it should. */
  lemma SteppedShows(m: Memory, step: Step, now: nat)
    requires MemoryOk(m)
    ensures Stepped(m, step, now).Some? <==> Allows(m, step)
    ensures Stepped(m, step, now).Some? ==>
      MemoryOk(Stepped(m, step, now).value) && StepShows(m, step, Stepped(m, step, now).value)
  {
    match step
    case Do(a) =>
      ActAllowed(m, a, now);
      if Act(m.graph, a, now).Some? {
        ActShows(m, a, now);
        ActKeepsOk(m, a, now);
      }
    case Hand(s) => if Live(m.graph, s) { HandShows(m, s); }
    case PutRuntime(s, v) => if Live(m.graph, s) { RuntimeShows(m, s, Some(v)); }
    case DropRuntime(s) =>
      if Live(m.graph, s) {
        LiveHasCell(m.graph, s);
        RuntimeShows(m, s, None);
      }
    case Abort =>
  }

  // ---------------------------------------------------------------- scripts

  /** The memories between the steps of a script, each step showing what it should. */
  ghost predicate Unfolds(trace: seq<Memory>, script: seq<Step>, n: nat) {
    |trace| == n + 1 && n <= |script| && forall k :: 0 <= k < n ==> StepShows(trace[k], script[k], trace[k + 1])
  }

  /** A script that succeeds shows its steps one after the other. */
  ghost predicate ScriptShows(m: Memory, script: seq<Step>, m': Memory) {
    exists trace :: Unfolds(trace, script, |script|) && trace[0] == m && trace[|script|] == m'
  }

  /** A script fails at a step that is not allowed after those before it. */
  ghost predicate ScriptStops(m: Memory, script: seq<Step>) {
    exists trace, n: nat :: n < |script| && Unfolds(trace, script, n) && trace[0] == m && !Allows(trace[n], script[n])
  }

  lemma {:induction false} PlayedShows(m: Memory, script: seq<Step>, now: nat)
    requires MemoryOk(m)
    ensures Played(m, script, now).Some? ==>
      MemoryOk(Played(m, script, now).value) && ScriptShows(m, script, Played(m, script, now).value)
    ensures Played(m, script, now).None? ==> ScriptStops(m, script)
  {
    if script == [] {
      assert Unfolds([m], script, 0);
    } else {
      var n := |script| - 1;
      var front := script[..n];
      PlayedShows(m, front, now);
      if Played(m, front, now).None? {
        StopsLater(m, script);
      } else {
        LastOfPlayed(m, script, now);
      }
    }
  }

  lemma StopsLater(m: Memory, script: seq<Step>)
    requires script != [] && ScriptStops(m, script[..|script| - 1])
    ensures ScriptStops(m, script)
  {
    var front := script[..|script| - 1];
    var trace, k: nat :| k < |front| && Unfolds(trace, front, k) && trace[0] == m && !Allows(trace[k], front[k]);
    assert Unfolds(trace, script, k);
  }

  lemma LastOfPlayed(m: Memory, script: seq<Step>, now: nat)
    requires MemoryOk(m) && script != [] && Played(m, script[..|script| - 1], now).Some?
    requires MemoryOk(Played(m, script[..|script| - 1], now).value)
    requires ScriptShows(m, script[..|script| - 1], Played(m, script[..|script| - 1], now).value)
    ensures Played(m, script, now).Some? ==>
      MemoryOk(Played(m, script, now).value) && ScriptShows(m, script, Played(m, script, now).value)
    ensures Played(m, script, now).None? ==> ScriptStops(m, script)
  {
    var n := |script| - 1;
    var mid := Played(m, script[..n], now).value;
    var trace :| Unfolds(trace, script[..n], |script[..n]|) && trace[0] == m && trace[|script[..n]|] == mid;
    SteppedShows(mid, script[n], now);
    LastStep(trace, script, now);
  }

  lemma LastStep(trace: seq<Memory>, script: seq<Step>, now: nat)
    requires script != [] && Unfolds(trace, script[..|script| - 1], |script| - 1) && MemoryOk(trace[|script| - 1])
    ensures
      var n := |script| - 1;
      var next := Stepped(trace[n], script[n], now);
      if next.Some? then ScriptShows(trace[0], script, next.value) else ScriptStops(trace[0], script)
  {
    var n := |script| - 1;
    SteppedShows(trace[n], script[n], now);
    var next := Stepped(trace[n], script[n], now);
    if next.Some? {
      var longer := trace + [next.value];
      assert forall k :: 0 <= k < n ==> longer[k] == trace[k] && script[..n][k] == script[k];
      assert Unfolds(longer, script, n + 1);
    } else {
      assert Unfolds(trace, script, n);
    }
  }
}
