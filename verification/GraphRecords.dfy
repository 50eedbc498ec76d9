/** A durable graph is a checkpoint overridden by overlay records. Persisting writes one
    record per touched element plus one metadata record per touched label or type. */
module GraphRecords {
  import opened Text

  type Ref = (string, int)
  datatype Key = NodeKey(element: Ref) | EdgeKey(element: Ref) | NodeMeta(family: string) | EdgeMeta(family: string)
  type Contents = map<Key, int>
  /** A record says what its entry is, including that there is none. */
  type Records = map<Key, Option<int>>
  datatype Record = Record(key: Key, payload: Option<int>)
  datatype Pending = Pending(nodes: set<Ref>, edges: set<Ref>)
  datatype Graph = Graph(contents: Contents, pending: Pending)
  datatype Db = Db(revision: int, checkpoint: Contents, records: Records)

  const BATCH: nat := 256
  const NOTHING := Pending({}, {})

  function Lookup(c: Contents, k: Key): Option<int> {
    if k in c then Some(c[k]) else None
  }

  function Applied(checkpoint: Contents, records: Records): Contents {
    (map k | k in checkpoint && k !in records :: checkpoint[k]) +
    (map k | k in records && records[k].Some? :: records[k].value)
  }

  function StateOf(db: Db): Contents {
    Applied(db.checkpoint, db.records)
  }

  function Touched(p: Pending): set<Key> {
    (set n | n in p.nodes :: NodeKey(n)) + (set e | e in p.edges :: EdgeKey(e)) +
    (set n | n in p.nodes :: NodeMeta(n.0)) + (set e | e in p.edges :: EdgeMeta(e.0))
  }

  /** Entries of the pending elements, and the metadata of their labels and types. */
  lemma TouchedExactly(p: Pending, k: Key)
    ensures k in Touched(p) <==> match k
      case NodeKey(n) => n in p.nodes
      case EdgeKey(e) => e in p.edges
      case NodeMeta(name) => exists n :: n in p.nodes && n.0 == name
      case EdgeMeta(ty) => exists e :: e in p.edges && e.0 == ty
  {
    match k
    case NodeKey(_) =>
    case EdgeKey(_) =>
    case NodeMeta(name) =>
      if n :| n in p.nodes && n.0 == name { assert NodeMeta(n.0) in Touched(p); }
    case EdgeMeta(ty) =>
      if e :| e in p.edges && e.0 == ty { assert EdgeMeta(e.0) in Touched(p); }
  }

  /** A statement changes only entries of elements it has marked as pending. */
  predicate Tracked(before: Graph, after: Graph) {
    && before.pending.nodes <= after.pending.nodes && before.pending.edges <= after.pending.edges
    && forall k :: k in before.contents.Keys + after.contents.Keys && k !in Touched(after.pending) ==>
         Lookup(before.contents, k) == Lookup(after.contents, k)
  }

  function Overlay(c: Contents, keys: set<Key>): Records {
    map k | k in keys :: Lookup(c, k)
  }

  /** A state with the entries that a graph has touched replaced by the graph's. */
  function Overridden(state: Contents, g: Graph): Contents {
    (map k | k in state && k !in Touched(g.pending) :: state[k]) +
    (map k | k in g.contents && k in Touched(g.pending) :: g.contents[k])
  }

  /** The graph agrees with a state on everything that it has not touched. */
  predicate AgreesElsewhere(state: Contents, g: Graph) {
    forall k :: k in state.Keys + g.contents.Keys && k !in Touched(g.pending) ==>
      Lookup(state, k) == Lookup(g.contents, k)
  }

  lemma SameLookups(a: Contents, b: Contents)
    requires forall k :: Lookup(a, k) == Lookup(b, k)
    ensures a == b
  {
    assert forall k :: k in a <==> Lookup(a, k).Some?;
    assert forall k :: k in b <==> Lookup(b, k).Some?;
    assert a.Keys == b.Keys;
    forall k | k in a ensures a[k] == b[k] { assert Lookup(a, k) == Lookup(b, k); }
  }

  /** Records of the touched entries override exactly those. */
  lemma OverlaidState(db: Db, g: Graph)
    ensures Applied(db.checkpoint, db.records + Overlay(g.contents, Touched(g.pending))) == Overridden(StateOf(db), g)
  {
    var keys := Touched(g.pending);
    var after, state := Applied(db.checkpoint, db.records + Overlay(g.contents, keys)), StateOf(db);
    forall k ensures Lookup(after, k) == Lookup(Overridden(state, g), k) {
      if k in keys {
        assert Lookup(after, k) == Lookup(g.contents, k);
      } else {
        assert Lookup(after, k) == Lookup(state, k);
      }
    }
    SameLookups(after, Overridden(state, g));
  }

  /** The overridden state is the graph exactly when nothing else differed. */
  lemma OverriddenExactly(state: Contents, g: Graph)
    ensures Overridden(state, g) == g.contents <==> AgreesElsewhere(state, g)
  {
    var r := Overridden(state, g);
    assert forall k :: Lookup(r, k) == if k in Touched(g.pending) then Lookup(g.contents, k) else Lookup(state, k);
    if AgreesElsewhere(state, g) {
      forall k ensures Lookup(r, k) == Lookup(g.contents, k) {
        if k !in Touched(g.pending) && k !in state && k !in g.contents {
          assert Lookup(state, k) == Lookup(g.contents, k);
        }
      }
      SameLookups(r, g.contents);
    }
  }

  lemma TrackedAgrees(state: Contents, before: Graph, after: Graph)
    requires state == before.contents && Tracked(before, after)
    ensures AgreesElsewhere(state, after)
  {
  }

  /** Overriding the touched entries of the stored state gives the new state exactly. */
  lemma PersistedState(db: Db, before: Graph, after: Graph)
    requires StateOf(db) == before.contents && Tracked(before, after)
    ensures Applied(db.checkpoint, db.records + Overlay(after.contents, Touched(after.pending))) == after.contents
  {
    OverlaidState(db, after);
    TrackedAgrees(StateOf(db), before, after);
    OverriddenExactly(StateOf(db), after);
  }

  lemma NothingTouched(before: Graph, after: Graph)
    requires Tracked(before, after) && after.pending == NOTHING
    ensures before.contents == after.contents
  {
    assert Touched(NOTHING) == {};
    assert forall k :: k in before.contents.Keys + after.contents.Keys ==>
      Lookup(before.contents, k) == Lookup(after.contents, k);
    assert before.contents.Keys == after.contents.Keys;
  }

  lemma CompactedState(c: Contents)
    ensures Applied(c, map[]) == c
  {
  }

  function Upserted(records: Records, rs: seq<Record>): Records {
    if rs == [] then records
    else Upserted(records, rs[..|rs| - 1])[rs[|rs| - 1].key := rs[|rs| - 1].payload]
  }

  function KeysOf(rs: seq<Record>): set<Key> {
    if rs == [] then {} else KeysOf(rs[..|rs| - 1]) + {rs[|rs| - 1].key}
  }

  predicate Accurate(rs: seq<Record>, c: Contents) {
    forall i :: 0 <= i < |rs| ==> rs[i].payload == Lookup(c, rs[i].key)
  }

  /** The records say what the graph holds under exactly these keys. */
  predicate Describes(rs: seq<Record>, c: Contents, keys: set<Key>) {
    Accurate(rs, c) && KeysOf(rs) == keys
  }

  lemma {:induction false} KeysOfConcat(a: seq<Record>, b: seq<Record>)
    ensures KeysOf(a + b) == KeysOf(a) + KeysOf(b)
  {
    if b == [] {
      assert a + b == a;
    } else {
      assert (a + b)[..|a + b| - 1] == a + b[..|b| - 1];
      KeysOfConcat(a, b[..|b| - 1]);
    }
  }

  lemma {:induction false} UpsertConcat(records: Records, a: seq<Record>, b: seq<Record>)
    ensures Upserted(records, a + b) == Upserted(Upserted(records, a), b)
  {
    if b == [] {
      assert a + b == a;
    } else {
      assert (a + b)[..|a + b| - 1] == a + b[..|b| - 1];
      UpsertConcat(records, a, b[..|b| - 1]);
    }
  }

  /** Upserting accurate records, in any order and with repetitions, gives the overlay. */
  lemma {:induction false} UpsertedOverlay(records: Records, rs: seq<Record>, c: Contents, keys: set<Key>)
    requires Describes(rs, c, keys)
    ensures Upserted(records, rs) == records + Overlay(c, keys)
  {
    if rs != [] {
      var front := rs[..|rs| - 1];
      UpsertedOverlay(records, front, c, KeysOf(front));
    }
  }

  method RecordsFor(c: Contents, keys: set<Key>) returns (rs: seq<Record>)
    ensures Describes(rs, c, keys)
  {
    rs := [];
    var rest := keys;
    while rest != {}
      invariant rest <= keys && Describes(rs, c, keys - rest)
      decreases rest
    {
      var k :| k in rest;
      assert (rs + [Record(k, Lookup(c, k))])[..|rs|] == rs;
      rs := rs + [Record(k, Lookup(c, k))];
      rest := rest - {k};
    }
    assert keys - rest == keys;
  }

  /** Elements first, then the metadata of the touched labels and relationship types. */
  method IncrementalRecords(g: Graph) returns (rs: seq<Record>)
    ensures Describes(rs, g.contents, Touched(g.pending))
  {
    var p := g.pending;
    var nodes := RecordsFor(g.contents, set n | n in p.nodes :: NodeKey(n));
    var edges := RecordsFor(g.contents, set e | e in p.edges :: EdgeKey(e));
    var labels := RecordsFor(g.contents, set n | n in p.nodes :: NodeMeta(n.0));
    var types := RecordsFor(g.contents, set e | e in p.edges :: EdgeMeta(e.0));
    KeysOfConcat(nodes, edges);
    KeysOfConcat(nodes + edges, labels);
    KeysOfConcat(nodes + edges + labels, types);
    rs := nodes + edges + labels + types;
  }
}
