/** The native store behind the JVM executor: a committed view, a working view, nested atomic
    blocks that a failure poisons, and handles that outlive rollbacks safely. */
module BridgeStore {
  import opened Text
  import opened BridgeGraph
  import opened BridgeHandles
  import opened BridgeMemory

  datatype Savepoint = Savepoint(id: nat, graph: Graph, runtime: Runtime, failed: bool)

  /** `Invalid` is a request that fails on the way; `Misaddressed` is one whose view is not a boolean,
      or that asks the committed view for more than a read: it is refused before anything else. */
  datatype Request =
    | Mutate(setter: bool, script: seq<Step>)
    | Look(given: seq<Handle>, slots: seq<Slot>)
    | LookCommitted(given: seq<Handle>, slots: seq<Slot>)
    | BeginBlock
    | RollbackTo(id: nat)
    | Release(id: nat)
    | Commit(persists: bool)
    | Rollback
    | Close
    | Invalid
    | Misaddressed

  datatype Response = Ok(seen: seq<(Handle, int)>) | Error

  /** Only property setters touch the runtime map. */
  predicate Proper(r: Request) {
    r.Mutate? && !r.setter ==> forall i :: 0 <= i < |r.script| ==> !r.script[i].PutRuntime? && !r.script[i].DropRuntime?
  }

  // ---------------------------------------------------------------- what callers may rely on

  /** The states a caller can tell apart: `current` is the state left by the last surviving
      successful mutation; `saved` are the states at the open blocks. */
  datatype Spec = Spec(committed: Data, current: Data, saved: seq<(nat, Data)>, poisoned: bool, closed: bool)

  function Refuse(s: Spec): Spec {
    if s.saved == [] then s else s.(poisoned := true)
  }

  /** `ok`: the request was answered; `after`: the data a successful mutation left. */
  function SpecNext(s: Spec, r: Request, ok: bool, after: Data, newId: nat): Spec {
    if s.closed || r.LookCommitted? || r.Misaddressed? || (s.poisoned && !r.RollbackTo? && !r.Close?) then s
    else match r
    case Mutate(_, _) => if ok then s.(current := after) else Refuse(s)
    case Look(_, _) => if ok then s else Refuse(s)
    case LookCommitted(_, _) => s
    case BeginBlock => s.(saved := s.saved + [(newId, s.current)])
    case RollbackTo(id) =>
      if s.saved != [] && s.saved[|s.saved| - 1].0 == id then
        s.(current := s.saved[|s.saved| - 1].1, saved := s.saved[..|s.saved| - 1], poisoned := false)
      else Refuse(s)
    case Release(id) =>
      if s.saved != [] && s.saved[|s.saved| - 1].0 == id then s.(saved := s.saved[..|s.saved| - 1])
      else Refuse(s)
    case Commit(persists) => if s.saved == [] && persists then s.(committed := s.current) else Refuse(s)
    case Rollback => if s.saved == [] then s.(current := s.committed) else Refuse(s)
    case Close => s.(current := s.committed, saved := [], poisoned := false, closed := true)
    case Invalid => Refuse(s)
    case Misaddressed => s
  }

  /** The control requests that succeed on an open store: blocks are completed from the inside out, and
      transactions outside blocks. */
  predicate Completes(s: Spec, r: Request) {
    match r
    case BeginBlock => true
    case RollbackTo(id) => s.saved != [] && s.saved[|s.saved| - 1].0 == id
    case Release(id) => s.saved != [] && s.saved[|s.saved| - 1].0 == id
    case Commit(persists) => s.saved == [] && persists
    case Rollback => s.saved == []
    case Close => true
    case _ => false
  }

  datatype Event = Event(request: Request, ok: bool, after: Data, newId: nat)

  function SpecRun(s: Spec, es: seq<Event>): Spec {
    if es == [] then s
    else
      var e := es[|es| - 1];
      SpecNext(SpecRun(s, es[..|es| - 1]), e.request, e.ok, e.after, e.newId)
  }

  /** Blocks are all or nothing: whatever happens inside, including failures, nested blocks and
      reads, rolling back to the block restores the state at its start. */
  lemma {:induction false} BlockUndone(s: Spec, id: nat, es: seq<Event>, ok: bool, after: Data, newId: nat)
    requires !s.closed && !s.poisoned
    requires
      var open := SpecNext(s, BeginBlock, true, s.current, id);
      forall n :: 0 <= n <= |es| ==> |SpecRun(open, es[..n]).saved| > |s.saved|
    requires
      var open := SpecNext(s, BeginBlock, true, s.current, id);
      |SpecRun(open, es).saved| == |s.saved| + 1
    ensures
      var open := SpecNext(s, BeginBlock, true, s.current, id);
      SpecNext(SpecRun(open, es), RollbackTo(id), ok, after, newId) == s
  {
    var start := SpecNext(s, BeginBlock, true, s.current, id);
    assert es[..|es|] == es;
    InsideBlock(start, |s.saved|, es);
    UndoBlock(s, id, SpecRun(start, es), ok, after, newId);
  }

  lemma UndoBlock(s: Spec, id: nat, end: Spec, ok: bool, after: Data, newId: nat)
    requires !s.closed && !s.poisoned && !end.closed && end.committed == s.committed
    requires end.saved == s.saved + [(id, s.current)]
    ensures SpecNext(end, RollbackTo(id), ok, after, newId) == s
  {
    assert end.saved[..|s.saved|] == s.saved && end.saved[|s.saved|] == (id, s.current);
  }

  lemma {:induction false} InsideBlock(start: Spec, depth: nat, es: seq<Event>)
    requires !start.closed && |start.saved| == depth + 1
    requires forall n :: 0 <= n <= |es| ==> |SpecRun(start, es[..n]).saved| > depth
    ensures
      var end := SpecRun(start, es);
      |end.saved| > depth && end.saved[..depth + 1] == start.saved && end.committed == start.committed && !end.closed
  {
    if es != [] {
      var front := es[..|es| - 1];
      forall n | 0 <= n <= |front| ensures |SpecRun(start, front[..n]).saved| > depth {
        assert front[..n] == es[..n];
      }
      InsideBlock(start, depth, front);
      assert es[..|es|] == es;
    } else {
      assert es[..0] == es;
    }
  }

  function Shown(d: Data, h: Handle): int
    requires SlotOf(h.address) in d.graph.cells
  {
    if h in d.runtime then d.runtime[h] else d.graph.cells[SlotOf(h.address)].value
  }

  ghost predicate Recorded(g: Graph, seen: seq<(Handle, int)>, issued: Issued) {
    forall i :: 0 <= i < |seen| ==>
      Present(g, SlotOf(seen[i].0.address)) && (seen[i].0, Identity(g, SlotOf(seen[i].0.address))) in issued
  }

  // ---------------------------------------------------------------- moments of a run

  /** What a store remembers, and what callers may rely on. */
  datatype Moment = Moment(spec: Spec, memory: Memory, nextSavepoint: nat, requests: nat, issued: Issued)

  ghost function DataOf(m: Moment): Data {
    Data(m.memory.graph, m.memory.runtime)
  }

  /** Outside a poisoned block the working data are the state that callers rely on. */
  ghost predicate Regular(m: Moment) {
    !m.spec.closed ==>
      && MemoryOk(m.memory)
      && if m.spec.poisoned then m.spec.saved != [] else DataOf(m) == m.spec.current
  }

  /** The memory that a committed read works on. */
  function Committed(m: Moment): Memory {
    Memory(m.memory.handles, m.spec.committed.graph, m.spec.committed.runtime)
  }

  ghost predicate AllResolve(t: Table, g: Graph, given: seq<Handle>) {
    forall k :: 0 <= k < |given| ==> Resolves(t, g, given[k])
  }

  /** The requests that succeed. */
  ghost predicate Accepts(m: Moment, r: Request) {
    && !m.spec.closed && !r.Misaddressed?
    && if r.LookCommitted? then AllResolve(m.memory.handles, m.spec.committed.graph, r.given)
       else
         && (m.spec.poisoned ==> r.RollbackTo? || r.Close?)
         && if r.Mutate? then Played(m.memory, r.script, m.requests + 1).Some?
            else if r.Look? then AllResolve(m.memory.handles, m.memory.graph, r.given)
            else Completes(m.spec, r)
  }

  /** What a successful request leaves behind or answers. A mutation shows its steps one after the other,
      a read answers what can be seen, blocks save, release and restore the data, and the committed data
      are what was committed last. */
  ghost predicate Effect(m: Moment, r: Request, seen: seq<(Handle, int)>, m': Moment) {
    && m'.nextSavepoint == m.nextSavepoint + (if r.BeginBlock? then 1 else 0)
    && (!r.Commit? ==> m'.spec.committed == m.spec.committed)
    && match r
       case Mutate(_, script) =>
         Played(m.memory, script, m'.requests) == Some(m'.memory) && ScriptShows(m.memory, script, m'.memory)
       case Look(_, slots) =>
         && ReadsAs(m.memory, slots, seen) && Recorded(m.memory.graph, seen, m'.issued) && DataOf(m') == DataOf(m)
       case LookCommitted(_, slots) =>
         && ReadsAs(Committed(m), slots, seen) && Recorded(m.spec.committed.graph, seen, m'.issued)
         && DataOf(m') == DataOf(m)
       case BeginBlock => DataOf(m') == DataOf(m) && m'.spec.saved == m.spec.saved + [(m.nextSavepoint, DataOf(m))]
       case RollbackTo(id) =>
         && m.spec.saved != [] && m.spec.saved[|m.spec.saved| - 1] == (id, DataOf(m'))
         && m'.spec.saved == m.spec.saved[..|m.spec.saved| - 1] && !m'.spec.poisoned
       case Release(id) =>
         && m.spec.saved != [] && m.spec.saved[|m.spec.saved| - 1].0 == id && DataOf(m') == DataOf(m)
         && m'.spec.saved == m.spec.saved[..|m.spec.saved| - 1]
       case Commit(_) =>
         DataOf(m') == DataOf(m) && m'.spec.committed == DataOf(m) && m'.spec.saved == m.spec.saved == []
       case Rollback => DataOf(m') == m.spec.committed && m'.spec.saved == m.spec.saved == []
       case Close => m'.spec.closed
       case Invalid => false
       case Misaddressed => false
  }

  /** What a request that fails leaves: committed data and saved blocks as they were; outside blocks all
      data; in a block nothing but poison, unless it could not have changed anything. */
  ghost predicate Failure(m: Moment, r: Request, m': Moment) {
    && m'.nextSavepoint == m.nextSavepoint && m'.spec.committed == m.spec.committed && m'.spec.saved == m.spec.saved
    && (!m.spec.closed && m.spec.saved == [] ==> DataOf(m') == DataOf(m))
    && (!m.spec.closed && m.spec.saved != [] && !r.LookCommitted? && !r.Misaddressed? ==> m'.spec.poisoned)
    && (r.Mutate? && !m.spec.closed && !m.spec.poisoned ==> ScriptStops(m.memory, r.script))
  }

  ghost predicate Moves(m: Moment, r: Request, resp: Response, m': Moment) {
    && m'.requests == m.requests + 1 && m.issued <= m'.issued
    && (resp.Ok? <==> Accepts(m, r))
    && m'.spec == SpecNext(m.spec, r, resp.Ok?, DataOf(m'), m.nextSavepoint)
    && if resp.Ok? then Effect(m, r, resp.seen, m') else Failure(m, r, m')
  }

  lemma {:induction false} ControlMoves(m: Moment, r: Request, ok: bool, m': Moment)
    requires Regular(m) && Regular(m') && !m.spec.closed && (m.spec.poisoned ==> r.RollbackTo? || r.Close?)
    requires !r.Mutate? && !r.Look? && !r.LookCommitted? && !r.Misaddressed?
    requires m'.requests == m.requests + 1 && m.issued <= m'.issued && (ok <==> Completes(m.spec, r))
    requires m'.nextSavepoint == m.nextSavepoint + if r.BeginBlock? then 1 else 0
    requires m'.spec == SpecNext(m.spec, r, ok, DataOf(m'), m.nextSavepoint)
    ensures Moves(m, r, if ok then Ok([]) else Error, m')
  {
  }

  lemma {:induction false} MutationMoves(m: Moment, r: Request, ok: bool, m': Moment)
    requires Regular(m) && Regular(m') && !m.spec.closed && !m.spec.poisoned && r.Mutate?
    requires m'.requests == m.requests + 1 && m.issued <= m'.issued && m'.nextSavepoint == m.nextSavepoint
    requires Played(m.memory, r.script, m'.requests) == if ok then Some(m'.memory) else None
    requires m'.spec == SpecNext(m.spec, r, ok, DataOf(m'), m.nextSavepoint)
    ensures Moves(m, r, if ok then Ok([]) else Error, m')
  {
    PlayedShows(m.memory, r.script, m'.requests);
    assert Accepts(m, r) <==> ok;
    if ok {
      assert Effect(m, r, [], m');
    } else {
      assert Failure(m, r, m');
    }
  }

  function SavedGraphs(sps: seq<Savepoint>): (gs: seq<Graph>)
    ensures |gs| == |sps|
  {
    seq(|sps|, i requires 0 <= i < |sps| => sps[i].graph)
  }

  class Store {
    const session: string
    var graph: Graph
    var checkpoint: Graph
    var runtime: Runtime
    var checkpointRuntime: Runtime
    var savepoints: seq<Savepoint>
    var nextSavepoint: nat
    var handles: Table
    var closed: bool
    /** Number of requests so far; the birth stamp of new cells. */
    var requests: nat
    ghost var issued: Issued
    ghost var spec: Spec

    ghost function Views(): seq<Graph>
      reads this
    {
      [checkpoint] + SavedGraphs(savepoints) + [graph]
    }

    function Mem(): Memory
      reads this
    {
      Memory(handles, graph, runtime)
    }

    ghost predicate HandlesValid()
      reads this
    {
      Lineage(Views()) && Safe(Views(), handles, issued) && handles.session == session && RuntimesOk()
    }

    ghost predicate RuntimesOk()
      reads this
    {
      && RuntimeKnown(runtime, handles.next) && RuntimeKnown(checkpointRuntime, handles.next)
      && forall i :: 0 <= i < |savepoints| ==> RuntimeKnown(savepoints[i].runtime, handles.next)
    }

    lemma NowIsRegular()
      requires Valid()
      ensures Regular(Now())
    {
      if !closed { assert Last(Views()) == graph && Views()[|Views()| - 1] == graph; }
    }

    ghost predicate SpecValid()
      reads this
    {
      && spec.committed == Data(checkpoint, checkpointRuntime)
      && |spec.saved| == |savepoints|
      && (forall i :: 0 <= i < |savepoints| ==>
            spec.saved[i] == (savepoints[i].id, Data(savepoints[i].graph, savepoints[i].runtime)))
      && (forall i :: 0 <= i < |savepoints| - 1 ==> !savepoints[i].failed)
      && (spec.poisoned <==> savepoints != [] && savepoints[|savepoints| - 1].failed)
      && (!spec.poisoned ==> spec.current == Data(graph, runtime))
    }

    ghost predicate Valid()
      reads this
    {
      && spec.closed == closed && (closed ==> savepoints == [])
      && (!closed ==> HandlesValid() && SpecValid())
    }

    constructor (session: string, g: Graph)
      requires WellAllocated(g)
      ensures Valid() && !closed && issued == {}
      ensures spec == Spec(Data(g, map[]), Data(g, map[]), [], false, false)
    {
      this.session := session;
      graph := g;
      checkpoint := g;
      runtime := map[];
      checkpointRuntime := map[];
      savepoints := [];
      nextSavepoint := 1;
      handles := Table(session, map[], 1);
      closed := false;
      requests := 0;
      issued := {};
      spec := Spec(Data(g, map[]), Data(g, map[]), [], false, false);
      new;
      DescendsReflexive(g);
      assert Views() == [g, g];
    }

    // -------------------------------------------------------------- handles

    /** Issues the handle of an element of the current view. */
    method HandleOf(s: Slot, ghost views: seq<Graph>, ghost i: nat) returns (h: Handle)
      requires Lineage(views) && Safe(views, handles, issued) && i < |views| && views[i] == graph && Present(graph, s)
      requires handles.session == session
      modifies this`handles, this`issued
      ensures Safe(views, handles, issued) && handles.session == session && old(issued) <= issued
      ensures (h, handles) == Issue(old(handles), s) && (h, Identity(graph, s)) in issued
      ensures Extends(old(handles), handles) && h.generation < handles.next
    {
      IssueExtends(handles, s);
      IssueKeepsSafe(views, handles, issued, s, i);
      IssueSession(handles, s);
      ghost var more := Witnesses(handles, graph, s);
      var (issuedHandle, table) := Issue(handles, s);
      h := issuedHandle;
      handles := table;
      issued := issued + more;
    }

    /** A writer may have removed what committed readers still see: such addresses stay. */
    method PruneHandles()
      modifies this`handles
      ensures handles == Pruned(old(handles), graph, checkpoint)
    {
      var t := handles;
      var candidates := set a | a in t.generations && !Resolves(t, graph, Entry(t, a));
      var invalid := set a | a in candidates && !Resolves(t, checkpoint, Entry(t, a));
      handles := t.(generations := t.generations - invalid);
      assert handles.generations == Pruned(t, graph, checkpoint).generations;
    }

    // -------------------------------------------------------------- requests

    /** The handle of a live element, for a step that needs it. */
    method HandTo(s: Slot, ghost base: seq<Graph>) returns (h: Option<Handle>)
      requires Lineage(base + [graph]) && Safe(base + [graph], handles, issued) && handles.session == session
      modifies this`handles, this`issued
      ensures Safe(base + [graph], handles, issued) && handles.session == session && old(issued) <= issued
      ensures old(handles.next) <= handles.next
      ensures h.Some? <==> Live(graph, s)
      ensures if h.None? then handles == old(handles)
              else (h.value, handles) == Issue(old(handles), s) && h.value.generation < handles.next
    {
      if !Live(graph, s) {
        return None;
      }
      ghost var views := base + [graph];
      assert views[|base|] == graph;
      LiveIsPresent(graph, s);
      var issuedHandle := HandleOf(s, views, |base|);
      h := Some(issuedHandle);
    }

    method Change(action: Action, ghost base: seq<Graph>) returns (ok: bool)
      requires Lineage(base + [graph]) && Safe(base + [graph], handles, issued)
      modifies this`graph
      ensures Lineage(base + [graph]) && Safe(base + [graph], handles, issued)
      ensures Act(old(graph), action, requests) == if ok then Some(graph) else None
      ensures !ok ==> graph == old(graph)
    {
      ghost var views := base + [graph];
      assert Last(views) == graph && views[..|base|] == base;
      var next := Act(graph, action, requests);
      ok := next.Some?;
      if ok {
        ActDescends(graph, action, requests);
        MutationKeepsSafe(views, handles, issued, next.value);
        graph := next.value;
      }
    }

    method RunStep(step: Step, ghost base: seq<Graph>) returns (ok: bool)
      requires Lineage(base + [graph]) && Safe(base + [graph], handles, issued) && handles.session == session
      requires RuntimesOk()
      modifies this`graph, this`runtime, this`handles, this`issued
      ensures Lineage(base + [graph]) && Safe(base + [graph], handles, issued) && handles.session == session
      ensures RuntimesOk() && old(handles.next) <= handles.next && old(issued) <= issued
      ensures !step.PutRuntime? && !step.DropRuntime? ==> runtime == old(runtime)
      ensures Stepped(old(Mem()), step, requests) == if ok then Some(Mem()) else None
    {
      var h;
      match step {
        case Do(action) => ok := Change(action, base);
        case Hand(slot) =>
          h := HandTo(slot, base);
          ok := h.Some?;
        case PutRuntime(slot, v) =>
          h := HandTo(slot, base);
          ok := h.Some?;
          if ok { runtime := runtime[h.value := v]; }
        case DropRuntime(slot) =>
          h := HandTo(slot, base);
          ok := h.Some?;
          if ok { runtime := runtime - {h.value}; }
        case Abort => ok := false;
      }
    }

    /** Stops at the first error and leaves whatever was done so far. */
    method RunScript(script: seq<Step>, ghost base: seq<Graph>) returns (ok: bool)
      requires Lineage(base + [graph]) && Safe(base + [graph], handles, issued) && handles.session == session
      requires RuntimesOk()
      modifies this`graph, this`runtime, this`handles, this`issued
      ensures Lineage(base + [graph]) && Safe(base + [graph], handles, issued) && handles.session == session
      ensures RuntimesOk() && old(handles.next) <= handles.next && old(issued) <= issued
      ensures (forall i :: 0 <= i < |script| ==> !script[i].PutRuntime? && !script[i].DropRuntime?) ==>
        runtime == old(runtime)
      ensures Played(old(Mem()), script, requests) == if ok then Some(Mem()) else None
    {
      for i := 0 to |script|
        invariant Played(old(Mem()), script[..i], requests) == Some(Mem())
        invariant Lineage(base + [graph]) && Safe(base + [graph], handles, issued) && handles.session == session
        invariant RuntimesOk() && old(handles.next) <= handles.next
        invariant (forall i :: 0 <= i < |script| ==> !script[i].PutRuntime? && !script[i].DropRuntime?) ==>
          runtime == old(runtime)
        invariant old(issued) <= issued
      {
        assert script[..i + 1][..i] == script[..i];
        ok := RunStep(script[i], base);
        if !ok {
          PlayedPrefix(old(Mem()), script, requests, i + 1);
          return false;
        }
      }
      assert script[..|script|] == script;
      ok := true;
    }

    method ResolveAll(given: seq<Handle>) returns (ok: bool)
      ensures ok <==> AllResolve(handles, graph, given)
    {
      for k := 0 to |given|
        invariant forall j :: 0 <= j < k ==> Resolves(handles, graph, given[j])
      {
        if !Resolves(handles, graph, given[k]) {
          return false;
        }
      }
      return true;
    }

    /** Encodes the live elements asked for. */
    method EncodeMany(slots: seq<Slot>, ghost views: seq<Graph>, ghost i: nat) returns (seen: seq<(Handle, int)>)
      requires Lineage(views) && Safe(views, handles, issued) && i < |views| && views[i] == graph
      requires handles.session == session && RuntimesOk()
      modifies this`handles, this`issued
      ensures Safe(views, handles, issued) && handles.session == session && old(issued) <= issued && RuntimesOk()
      ensures ReadsAs(old(Mem()), slots, seen) && Recorded(graph, seen, issued)
    {
      ghost var m := Mem();
      seen := [];
      for k := 0 to |slots|
        invariant Safe(views, handles, issued) && handles.session == session && old(issued) <= issued
        invariant Extends(m.handles, handles) && m == Memory(m.handles, graph, runtime) && RuntimesOk()
        invariant ReadsAs(m, slots[..k], seen) && Recorded(graph, seen, issued)
      {
        assert slots[..k + 1] == slots[..k] + [slots[k]];
        var one := [];
        if Live(graph, slots[k]) {
          one := EncodeOne(slots[k], views, i, m);
        }
        ReadsSnoc(m, slots[..k], seen, slots[k], one);
        seen := seen + one;
      }
      assert slots[..|slots|] == slots;
    }

    method EncodeOne(s: Slot, ghost views: seq<Graph>, ghost i: nat, ghost m: Memory) returns (one: seq<(Handle, int)>)
      requires Lineage(views) && Safe(views, handles, issued) && i < |views| && views[i] == graph
      requires handles.session == session && RuntimesOk() && Live(graph, s)
      requires m == Memory(m.handles, graph, runtime) && Extends(m.handles, handles) && TablesOk(m)
      modifies this`handles, this`issued
      ensures Safe(views, handles, issued) && handles.session == session && old(issued) <= issued && RuntimesOk()
      ensures Extends(m.handles, handles)
      ensures |one| == 1 && SlotOf(one[0].0.address) == s && Some(one[0].1) == Seen(m, s)
      ensures Recorded(graph, one, issued)
    {
      LiveIsPresent(graph, s);
      LiveHasCell(graph, s);
      SeenInExtension(m, handles, s);
      SeenAtIssue(Mem(), s);
      ExtendsTwice(m.handles, handles, Issue(handles, s).1);
      var h := HandleOf(s, views, i);
      one := [(h, Shown(Data(graph, runtime), h))];
    }

    /** Resolves the given handles, then encodes the live elements asked for. */
    method Encode(given: seq<Handle>, slots: seq<Slot>, ghost views: seq<Graph>, ghost i: nat) returns (r: Response)
      requires Lineage(views) && Safe(views, handles, issued) && i < |views| && views[i] == graph
      requires handles.session == session && RuntimesOk()
      modifies this`handles, this`issued
      ensures Safe(views, handles, issued) && handles.session == session && old(issued) <= issued && RuntimesOk()
      ensures r.Ok? <==> AllResolve(old(handles), graph, given)
      ensures r.Ok? ==> ReadsAs(old(Mem()), slots, r.seen) && Recorded(graph, r.seen, issued)
    {
      var ok := ResolveAll(given);
      if !ok {
        return Error;
      }
      var seen := EncodeMany(slots, views, i);
      r := Ok(seen);
    }

    method ProtocolError()
      requires Valid()
      modifies this`savepoints, this`spec
      ensures Valid() && spec == if old(spec).closed then old(spec) else Refuse(old(spec))
    {
      if savepoints != [] {
        var n := |savepoints| - 1;
        ghost var views := Views();
        savepoints := savepoints[n := savepoints[n].(failed := true)];
        spec := Refuse(spec);
        assert Views() == views;
      }
    }

    /** Runs a script with its own checkpoint: on failure graph and handles go back. */
    method TryAlone(script: seq<Step>) returns (ok: bool)
      requires HandlesValid() && savepoints == []
      modifies this`graph, this`runtime, this`handles, this`issued
      ensures HandlesValid() && old(issued) <= issued && old(handles.next) <= handles.next
      ensures Played(old(Mem()), script, requests) == if ok then Some(Mem()) else None
      ensures !ok ==> graph == old(graph)
      ensures (forall i :: 0 <= i < |script| ==> !script[i].PutRuntime? && !script[i].DropRuntime?) ==>
        runtime == old(runtime)
    {
      var before := graph;
      ghost var base := [checkpoint, graph];
      SaveKeepsSafe(Views(), handles, issued);
      assert Views() + [Last(Views())] == base + [graph];
      ok := RunScript(script, base);
      ghost var views := base + [graph];
      if ok {
        DropKeepsSafe(views, handles, issued, 1);
        assert views[..1] + views[2..] == Views();
      } else {
        RestoreKeepsSafe(views, handles, issued, 2);
        graph := before;
        assert views[..2] == Views();
        PruneHandles();
      }
    }

    method TryInBlock(script: seq<Step>) returns (ok: bool)
      requires HandlesValid()
      modifies this`graph, this`runtime, this`handles, this`issued
      ensures HandlesValid() && old(issued) <= issued && old(handles.next) <= handles.next
      ensures Played(old(Mem()), script, requests) == if ok then Some(Mem()) else None
    {
      ghost var base := [checkpoint] + SavedGraphs(savepoints);
      assert Views() == base + [graph];
      ok := RunScript(script, base);
      assert Views() == base + [graph];
    }

    /** Outside a block a failed mutation restores its own checkpoint; inside one it leaves the
        partial effects behind and poisons the block. */
    method DoMutate(setter: bool, script: seq<Step>) returns (ok: bool)
      requires Valid() && !closed && !spec.poisoned && Proper(Mutate(setter, script))
      modifies this
      ensures Valid() && !closed && old(issued) <= issued && requests == old(requests)
      ensures nextSavepoint == old(nextSavepoint)
      ensures spec == SpecNext(old(spec), Mutate(setter, script), ok, Data(graph, runtime), old(nextSavepoint))
      ensures Played(old(Mem()), script, requests) == if ok then Some(Mem()) else None
    {
      if savepoints == [] {
        ok := MutateAlone(setter, script);
      } else {
        ok := MutateInBlock(script);
      }
    }

    method MutateAlone(setter: bool, script: seq<Step>) returns (ok: bool)
      requires Valid() && !closed && savepoints == [] && Proper(Mutate(setter, script))
      modifies this`graph, this`runtime, this`handles, this`issued, this`spec
      ensures Valid() && old(issued) <= issued
      ensures spec == if ok then old(spec).(current := Data(graph, runtime)) else old(spec)
      ensures Played(old(Mem()), script, requests) == if ok then Some(Mem()) else None
    {
      var before := runtime;
      ok := TryAlone(script);
      if ok {
        spec := spec.(current := Data(graph, runtime));
      } else if setter {
        runtime := before;
      }
    }

    method MutateInBlock(script: seq<Step>) returns (ok: bool)
      requires Valid() && !closed && !spec.poisoned && savepoints != []
      modifies this
      ensures Valid() && !closed && old(issued) <= issued && requests == old(requests)
      ensures nextSavepoint == old(nextSavepoint)
      ensures spec == if ok then old(spec).(current := Data(graph, runtime)) else old(spec).(poisoned := true)
      ensures Played(old(Mem()), script, requests) == if ok then Some(Mem()) else None
    {
      ok := TryInBlock(script);
      if ok {
        spec := spec.(current := Data(graph, runtime));
      } else {
        PoisonTop();
        spec := spec.(poisoned := true);
      }
    }

    method PoisonTop()
      requires savepoints != []
      modifies this`savepoints
      ensures |savepoints| == |old(savepoints)| && SavedGraphs(savepoints) == SavedGraphs(old(savepoints))
      ensures forall i :: 0 <= i < |savepoints| - 1 ==> savepoints[i] == old(savepoints)[i]
      ensures savepoints[|savepoints| - 1] == old(savepoints)[|savepoints| - 1].(failed := true)
    {
      var n := |savepoints| - 1;
      savepoints := savepoints[n := savepoints[n].(failed := true)];
      assert SavedGraphs(savepoints) == SavedGraphs(old(savepoints));
    }

    method DoLook(given: seq<Handle>, slots: seq<Slot>) returns (r: Response)
      requires Valid() && !closed && !spec.poisoned
      modifies this
      ensures Valid() && !closed && old(issued) <= issued && requests == old(requests)
      ensures nextSavepoint == old(nextSavepoint)
      ensures spec == SpecNext(old(spec), Look(given, slots), r.Ok?, Data(graph, runtime), old(nextSavepoint))
      ensures graph == old(graph) && runtime == old(runtime)
      ensures r.Ok? <==> AllResolve(old(handles), graph, given)
      ensures r.Ok? ==> ReadsAs(old(Mem()), slots, r.seen) && Recorded(graph, r.seen, issued)
    {
      ghost var views := Views();
      assert views[|views| - 1] == graph;
      r := Encode(given, slots, views, |views| - 1);
      assert Views() == views;
      if r.Error? {
        ProtocolError();
      }
    }

    method DoLookCommitted(given: seq<Handle>, slots: seq<Slot>) returns (r: Response)
      requires Valid() && !closed
      modifies this
      ensures Valid() && !closed && old(issued) <= issued && requests == old(requests)
      ensures nextSavepoint == old(nextSavepoint)
      ensures spec == old(spec) && graph == old(graph) && runtime == old(runtime) && savepoints == old(savepoints)
      ensures r.Ok? <==> AllResolve(old(handles), checkpoint, given)
      ensures r.Ok? ==>
        ReadsAs(old(Memory(handles, checkpoint, checkpointRuntime)), slots, r.seen) &&
        Recorded(checkpoint, r.seen, issued)
    {
      r := ReadCommitted(given, slots);
    }

    /** Swaps the two native views around one read. */
    method ReadCommitted(given: seq<Handle>, slots: seq<Slot>) returns (r: Response)
      requires HandlesValid()
      modifies this`graph, this`checkpoint, this`runtime, this`checkpointRuntime, this`handles, this`issued
      ensures HandlesValid() && old(issued) <= issued && graph == old(graph) && checkpoint == old(checkpoint)
      ensures runtime == old(runtime) && checkpointRuntime == old(checkpointRuntime)
      ensures r.Ok? <==> AllResolve(old(handles), checkpoint, given)
      ensures r.Ok? ==>
        ReadsAs(old(Memory(handles, checkpoint, checkpointRuntime)), slots, r.seen) &&
        Recorded(checkpoint, r.seen, issued)
    {
      ghost var views := Views();
      graph, checkpoint := checkpoint, graph;
      runtime, checkpointRuntime := checkpointRuntime, runtime;
      r := Encode(given, slots, views, 0);
      graph, checkpoint := checkpoint, graph;
      runtime, checkpointRuntime := checkpointRuntime, runtime;
      assert Views() == views;
    }

    method DoBeginBlock()
      requires Valid() && !closed && !spec.poisoned
      modifies this
      ensures Valid() && !closed && issued == old(issued) && requests == old(requests)
      ensures nextSavepoint == old(nextSavepoint) + 1
      ensures spec == SpecNext(old(spec), BeginBlock, true, Data(graph, runtime), old(nextSavepoint))
    {
      SaveKeepsSafe(Views(), handles, issued);
      ghost var views := Views();
      savepoints := savepoints + [Savepoint(nextSavepoint, graph, runtime, false)];
      spec := spec.(saved := spec.saved + [(nextSavepoint, spec.current)]);
      nextSavepoint := nextSavepoint + 1;
      assert Views() == views + [Last(views)];
    }

    /** Leaves the innermost block without restoring anything. */
    method DoRelease(id: nat) returns (ok: bool)
      requires Valid() && !closed && !spec.poisoned
      modifies this
      ensures Valid() && !closed && issued == old(issued) && requests == old(requests)
      ensures nextSavepoint == old(nextSavepoint)
      ensures spec == SpecNext(old(spec), Release(id), ok, Data(graph, runtime), old(nextSavepoint))
      ensures ok <==> old(spec).saved != [] && old(spec).saved[|old(spec).saved| - 1].0 == id
    {
      if savepoints == [] || savepoints[|savepoints| - 1].id != id {
        ProtocolError();
        return false;
      }
      ghost var views := Views();
      var n := |savepoints| - 1;
      DropKeepsSafe(views, handles, issued, n + 1);
      savepoints := savepoints[..n];
      spec := spec.(saved := spec.saved[..n]);
      assert Views() == views[..n + 1] + views[n + 2..];
      ok := true;
    }

    /** Restores what the innermost block saved; this is also the way out of a poisoned block. */
    method DoRollbackTo(id: nat) returns (ok: bool)
      requires Valid() && !closed
      modifies this
      ensures Valid() && !closed && issued == old(issued) && requests == old(requests)
      ensures nextSavepoint == old(nextSavepoint)
      ensures spec == SpecNext(old(spec), RollbackTo(id), ok, Data(graph, runtime), old(nextSavepoint))
      ensures ok <==> old(spec).saved != [] && old(spec).saved[|old(spec).saved| - 1].0 == id
    {
      if savepoints == [] || savepoints[|savepoints| - 1].id != id {
        ProtocolError();
        return false;
      }
      var restored := PopAndRestore();
      runtime := restored;
      assert HandlesValid();
      spec := spec.(current := spec.saved[|savepoints|].1, saved := spec.saved[..|savepoints|], poisoned := false);
      ok := true;
    }

    method PopAndRestore() returns (saved: Runtime)
      requires HandlesValid() && savepoints != []
      modifies this`graph, this`savepoints, this`handles
      ensures HandlesValid() && savepoints == old(savepoints)[..|old(savepoints)| - 1]
      ensures graph == old(savepoints)[|savepoints|].graph && saved == old(savepoints)[|savepoints|].runtime
      ensures RuntimeKnown(saved, handles.next)
    {
      ghost var views := Views();
      var n := |savepoints| - 1;
      RestoreKeepsSafe(views, handles, issued, n + 2);
      saved := savepoints[n].runtime;
      graph := savepoints[n].graph;
      savepoints := savepoints[..n];
      assert views[n + 1] == graph && views[0] == checkpoint;
      PruneHandles();
      assert Views() == views[..n + 2];
    }

    method RestoreCommitted()
      requires HandlesValid() && savepoints == []
      modifies this`graph, this`handles
      ensures HandlesValid() && graph == checkpoint
    {
      ghost var views := Views();
      RestoreKeepsSafe(views, handles, issued, 1);
      graph := checkpoint;
      PruneHandles();
      SaveKeepsSafe(views[..1], handles, issued);
      assert Views() == views[..1] + [Last(views[..1])];
    }

    method DoCommit(persists: bool) returns (ok: bool)
      requires Valid() && !closed && !spec.poisoned
      modifies this
      ensures Valid() && !closed && issued == old(issued) && requests == old(requests)
      ensures nextSavepoint == old(nextSavepoint)
      ensures spec == SpecNext(old(spec), Commit(persists), ok, Data(graph, runtime), old(nextSavepoint))
      ensures ok <==> old(spec).saved == [] && persists
    {
      if savepoints != [] || !persists {
        ProtocolError();
        return false;
      }
      CommitKeepsSafe(Views(), handles, issued);
      checkpoint := graph;
      checkpointRuntime := runtime;
      PruneHandles();
      spec := spec.(committed := spec.current);
      assert Views() == [graph, graph];
      ok := true;
    }

    method DoRollback() returns (ok: bool)
      requires Valid() && !closed && !spec.poisoned
      modifies this
      ensures Valid() && !closed && issued == old(issued) && requests == old(requests)
      ensures nextSavepoint == old(nextSavepoint)
      ensures spec == SpecNext(old(spec), Rollback, ok, Data(graph, runtime), old(nextSavepoint))
      ensures ok <==> old(spec).saved == []
    {
      if savepoints != [] {
        ProtocolError();
        return false;
      }
      RestoreCommitted();
      runtime := checkpointRuntime;
      spec := spec.(current := spec.committed);
      ok := true;
    }

    method DoClose()
      requires Valid() && !closed
      modifies this
      ensures Valid() && closed && issued == old(issued) && requests == old(requests)
      ensures nextSavepoint == old(nextSavepoint)
      ensures spec == SpecNext(old(spec), Close, true, Data(graph, runtime), old(nextSavepoint))
      ensures graph == old(checkpoint) && handles.generations == map[]
    {
      graph := checkpoint;
      runtime := checkpointRuntime;
      checkpoint := Graph(map[], map[], map[], 0);
      checkpointRuntime := map[];
      savepoints := [];
      handles := handles.(generations := map[]);
      closed := true;
      spec := spec.(current := spec.committed, saved := [], poisoned := false, closed := true);
    }

    method Control(r: Request) returns (ok: bool)
      requires Valid() && !closed && !r.Mutate? && !r.Look? && !r.LookCommitted? && !r.Misaddressed?
      requires spec.poisoned ==> r.RollbackTo? || r.Close?
      modifies this
      ensures Valid() && old(issued) <= issued && requests == old(requests)
      ensures nextSavepoint == old(nextSavepoint) + if r.BeginBlock? then 1 else 0
      ensures spec == SpecNext(old(spec), r, ok, Data(graph, runtime), old(nextSavepoint))
      ensures ok <==> Completes(old(spec), r)
    {
      ok := true;
      match r {
        case BeginBlock => DoBeginBlock();
        case RollbackTo(id) => ok := DoRollbackTo(id);
        case Release(id) => ok := DoRelease(id);
        case Commit(persists) => ok := DoCommit(persists);
        case Rollback => ok := DoRollback();
        case Close => DoClose();
        case Invalid => ProtocolError(); ok := false;
      }
    }

    ghost function Now(): Moment
      reads this
    {
      Moment(spec, Mem(), nextSavepoint, requests, issued)
    }

    /** One request. It is accepted exactly when it may be, and the caller-visible state moves exactly
        as the specification says, so no partial effect of a failed request is ever released,
        committed or read. */
    method Process(r: Request) returns (resp: Response)
      requires Valid() && Proper(r)
      modifies this
      ensures Valid() && Regular(Now())
      ensures Moves(old(Now()), r, resp, Now())
    {
      NowIsRegular();
      requests := requests + 1;
      if closed || r.Misaddressed? || (!r.LookCommitted? && Blocked() && !r.RollbackTo? && !r.Close?) {
        return Error;
      }
      if r.LookCommitted? || r.Look? {
        resp := ReadRequest(r);
      } else {
        resp := WriteRequest(r);
      }
    }

    ghost function Before(): Moment
      reads this
      requires requests > 0
    {
      Now().(requests := requests - 1)
    }

    method ReadRequest(r: Request) returns (resp: Response)
      requires Valid() && requests > 0 && !closed && (r.LookCommitted? || (r.Look? && !Blocked()))
      modifies this
      ensures Valid() && Regular(Now()) && Moves(old(Before()), r, resp, Now())
    {
      if r.LookCommitted? {
        resp := DoLookCommitted(r.given, r.slots);
      } else {
        resp := DoLook(r.given, r.slots);
      }
      NowIsRegular();
    }

    method WriteRequest(r: Request) returns (resp: Response)
      requires Valid() && requests > 0 && !closed && Proper(r)
      requires !r.LookCommitted? && !r.Look? && !r.Misaddressed? && (Blocked() ==> r.RollbackTo? || r.Close?)
      modifies this
      ensures Valid() && Regular(Now()) && Moves(old(Before()), r, resp, Now())
    {
      var ok;
      ghost var before := Before();
      NowIsRegular();
      if r.Mutate? {
        ok := DoMutate(r.setter, r.script);
        NowIsRegular();
        MutationMoves(before, r, ok, Now());
      } else {
        ok := Control(r);
        NowIsRegular();
        ControlMoves(before, r, ok, Now());
      }
      resp := if ok then Ok([]) else Error;
    }

    predicate Blocked()
      reads this
    {
      savepoints != [] && savepoints[|savepoints| - 1].failed
    }

    /** Handle safety, in both native views, at any moment of any run. */
    lemma Genuine(h: Handle, who: Ident)
      requires Valid() && !closed && (h, who) in issued
      ensures Resolves(handles, graph, h) ==>
        Present(graph, SlotOf(h.address)) && Identity(graph, SlotOf(h.address)) == who
      ensures Resolves(handles, checkpoint, h) ==>
        Present(checkpoint, SlotOf(h.address)) && Identity(checkpoint, SlotOf(h.address)) == who
    {
      var views := Views();
      assert views[0] == checkpoint && views[|views| - 1] == graph;
      if Resolves(handles, graph, h) { ResolvedHandleIsGenuine(views, handles, issued, |views| - 1, h, who); }
      if Resolves(handles, checkpoint, h) { ResolvedHandleIsGenuine(views, handles, issued, 0, h, who); }
    }
  }

  ghost predicate IsRun(trace: seq<Moment>, rs: seq<Request>, resps: seq<Response>) {
    && |trace| == |rs| + 1 && |resps| == |rs|
    && (forall i :: 0 <= i < |trace| ==> Regular(trace[i]))
    && (forall i :: 0 <= i < |rs| ==> Moves(trace[i], rs[i], resps[i], trace[i + 1]))
  }

  lemma RunSnoc(trace: seq<Moment>, rs: seq<Request>, resps: seq<Response>, m: Moment, r: Request, resp: Response)
    requires IsRun(trace, rs, resps) && Regular(m) && Moves(trace[|rs|], r, resp, m)
    ensures IsRun(trace + [m], rs + [r], resps + [resp])
  {
    var trace', rs', resps' := trace + [m], rs + [r], resps + [resp];
    forall i | 0 <= i < |rs'| ensures Moves(trace'[i], rs'[i], resps'[i], trace'[i + 1]) {
      if i < |rs| { assert Moves(trace[i], rs[i], resps[i], trace[i + 1]); }
    }
  }

  /** What callers know of a run: each request, whether it succeeded, and what a mutation left. */
  ghost function EventsOf(trace: seq<Moment>, rs: seq<Request>, resps: seq<Response>, n: nat): (es: seq<Event>)
    requires |trace| == |rs| + 1 && |resps| == |rs| && n <= |rs|
    ensures |es| == n
  {
    seq(n, i requires 0 <= i < n => Event(rs[i], resps[i].Ok?, DataOf(trace[i + 1]), trace[i].nextSavepoint))
  }

  /** The caller-visible state is, at every moment, the specification run over what callers know. */
  lemma {:induction false} RunFollowsSpec(trace: seq<Moment>, rs: seq<Request>, resps: seq<Response>, n: nat)
    requires IsRun(trace, rs, resps) && n <= |rs|
    ensures trace[n].spec == SpecRun(trace[0].spec, EventsOf(trace, rs, resps, n))
  {
    if n > 0 {
      RunFollowsSpec(trace, rs, resps, n - 1);
      var es := EventsOf(trace, rs, resps, n);
      assert es[..n - 1] == EventsOf(trace, rs, resps, n - 1);
      assert Moves(trace[n - 1], rs[n - 1], resps[n - 1], trace[n]);
    }
  }

  /** What each successful read of a run returned: what can be seen of the state left by the last
      surviving successful mutation, or of the last commit. */
  ghost predicate ReadRight(trace: seq<Moment>, rs: seq<Request>, resps: seq<Response>, i: nat)
    requires |trace| == |rs| + 1 && |resps| == |rs| && i < |rs|
  {
    var spec := SpecRun(trace[0].spec, EventsOf(trace, rs, resps, i + 1));
    && (resps[i].Ok? && rs[i].Look? ==>
          DataOf(trace[i]) == spec.current && ReadsAs(trace[i].memory, rs[i].slots, resps[i].seen))
    && (resps[i].Ok? && rs[i].LookCommitted? ==>
          trace[i].spec.committed == spec.committed && ReadsAs(Committed(trace[i]), rs[i].slots, resps[i].seen))
  }

  /** What each successful mutation left: its steps, one after the other, show on the state that callers
      relied on. */
  ghost predicate MutationRight(trace: seq<Moment>, rs: seq<Request>, resps: seq<Response>, i: nat)
    requires |trace| == |rs| + 1 && |resps| == |rs| && i < |rs|
  {
    resps[i].Ok? && rs[i].Mutate? ==>
      && DataOf(trace[i]) == SpecRun(trace[0].spec, EventsOf(trace, rs, resps, i)).current
      && DataOf(trace[i + 1]) == SpecRun(trace[0].spec, EventsOf(trace, rs, resps, i + 1)).current
      && ScriptShows(trace[i].memory, rs[i].script, trace[i + 1].memory)
  }

  ghost predicate AllRight(trace: seq<Moment>, rs: seq<Request>, resps: seq<Response>)
    requires |trace| == |rs| + 1 && |resps| == |rs|
  {
    forall i :: 0 <= i < |rs| ==> ReadRight(trace, rs, resps, i) && MutationRight(trace, rs, resps, i)
  }

  lemma RunIsRight(trace: seq<Moment>, rs: seq<Request>, resps: seq<Response>)
    requires IsRun(trace, rs, resps)
    ensures AllRight(trace, rs, resps)
  {
    forall i | 0 <= i < |rs| ensures ReadRight(trace, rs, resps, i) && MutationRight(trace, rs, resps, i) {
      RunFollowsSpec(trace, rs, resps, i);
      RunFollowsSpec(trace, rs, resps, i + 1);
      assert Moves(trace[i], rs[i], resps[i], trace[i + 1]) && Regular(trace[i]);
    }
  }

  /** A runtime value that a mutation set last is what the next read of the element shows. */
  lemma {:induction false} RuntimeValueIsRead(
    trace: seq<Moment>, rs: seq<Request>, resps: seq<Response>, i: nat, s: Slot, v: int
  )
    requires IsRun(trace, rs, resps) && i + 1 < |rs| && resps[i].Ok? && resps[i + 1].Ok?
    requires rs[i].Mutate? && rs[i].script != [] && rs[i].script[|rs[i].script| - 1] == PutRuntime(s, v)
    requires rs[i + 1].Look? && rs[i + 1].slots == [s]
    ensures |resps[i + 1].seen| == 1 && SlotOf(resps[i + 1].seen[0].0.address) == s && resps[i + 1].seen[0].1 == v
  {
    assert Moves(trace[i], rs[i], resps[i], trace[i + 1]);
    assert Moves(trace[i + 1], rs[i + 1], resps[i + 1], trace[i + 2]);
    var n := |rs[i].script|;
    var steps :| Unfolds(steps, rs[i].script, n) && steps[0] == trace[i].memory && steps[n] == trace[i + 1].memory;
    assert StepShows(steps[n - 1], rs[i].script[n - 1], steps[n]);
    assert ReadsAs(trace[i + 1].memory, [], resps[i + 1].seen[..|resps[i + 1].seen| - 1]);
  }

  /** Any requests in any order: the moments of the run lead from the state before to the state after,
      each request is accepted exactly when it may be, the caller-visible state is the specification
      run, and reads and mutations are right against it. Every handle ever handed out stays on
      record, so `Genuine` applies to it after any number of later requests. */
  method Serve(store: Store, rs: seq<Request>) returns (resps: seq<Response>, ghost trace: seq<Moment>)
    requires store.Valid() && forall i :: 0 <= i < |rs| ==> Proper(rs[i])
    modifies store
    ensures store.Valid() && old(store.issued) <= store.issued && IsRun(trace, rs, resps)
    ensures trace[0] == old(store.Now()) && trace[|rs|] == store.Now()
    ensures store.spec == SpecRun(old(store.spec), EventsOf(trace, rs, resps, |rs|))
    ensures AllRight(trace, rs, resps)
  {
    store.NowIsRegular();
    resps, trace := [], [store.Now()];
    for i := 0 to |rs|
      invariant store.Valid() && old(store.issued) <= store.issued && IsRun(trace, rs[..i], resps)
      invariant trace[0] == old(store.Now()) && trace[i] == store.Now()
    {
      var r := store.Process(rs[i]);
      RunSnoc(trace, rs[..i], resps, store.Now(), rs[i], r);
      assert rs[..i + 1] == rs[..i] + [rs[i]];
      resps, trace := resps + [r], trace + [store.Now()];
    }
    assert rs[..|rs|] == rs;
    RunFollowsSpec(trace, rs, resps, |rs|);
    RunIsRight(trace, rs, resps);
  }

  lemma {:induction false} IssueSession(t: Table, s: Slot)
    ensures Issue(t, s).1.session == t.session
    decreases s
  {
    if s.VertexProperty? || s.Field? { IssueSession(t, s.owner); }
  }
}
