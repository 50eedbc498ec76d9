/** The in-memory catalog: relationship declarations edited optimistically by revision. */
module Catalog {
  import opened Text

  datatype Kind = Stored | Computed | Cypher
  datatype Entry = Entry(name: string, definition: int)
  /** The three lists of relationship declarations, and everything else in a schema. */
  datatype Schema = Schema(edges: seq<Entry>, computed: seq<Entry>, cypher: seq<Entry>, rest: int)

  const MAX_REVISION: int := 0x7FFF_FFFF_FFFF_FFFF

  /** Which declarations and which schemas pass their own validation. */
  datatype Checks = Checks(declaration: (Kind, Entry) -> bool, schema: Schema -> bool)

  datatype Edit =
    | Register(kind: Kind, entry: Entry)
    | Remove(name: string)
    | Exchange(name: string, kind: Kind, entry: Entry)

  // ---------------------------------------------------------------- edits

  predicate Has(es: seq<Entry>, name: string) {
    exists i :: 0 <= i < |es| && es[i].name == name
  }

  predicate Declares(s: Schema, name: string) {
    Has(s.edges, name) || Has(s.computed, name) || Has(s.cypher, name)
  }

  function Without(es: seq<Entry>, name: string): seq<Entry> {
    if es == [] then []
    else
      var front := Without(es[..|es| - 1], name);
      if es[|es| - 1].name == name then front else front + [es[|es| - 1]]
  }

  function Dropped(s: Schema, name: string): Schema {
    s.(edges := Without(s.edges, name), computed := Without(s.computed, name), cypher := Without(s.cypher, name))
  }

  function Pushed(s: Schema, kind: Kind, e: Entry): Schema {
    match kind
    case Stored => s.(edges := s.edges + [e])
    case Computed => s.(computed := s.computed + [e])
    case Cypher => s.(cypher := s.cypher + [e])
  }

  predicate EntryOk(kind: Kind, e: Entry, c: Checks) {
    e.name != "" && c.declaration(kind, e)
  }

  /** What an edit makes of a schema, if it is accepted. */
  function Edited(s: Schema, edit: Edit, c: Checks): Option<Schema> {
    var r := match edit
      case Register(kind, e) => if EntryOk(kind, e, c) && !Declares(s, e.name) then Some(Pushed(s, kind, e)) else None
      case Remove(name) => if Declares(s, name) then Some(Dropped(s, name)) else None
      case Exchange(name, kind, e) =>
        if !EntryOk(kind, e, c) || e.name != name || !Declares(s, name) then None
        else Some(Pushed(Dropped(s, name), kind, e));
    if r.Some? && c.schema(r.value) then r else None
  }

  method Retain(es: seq<Entry>, name: string) returns (kept: seq<Entry>, found: bool)
    ensures kept == Without(es, name) && (found <==> Has(es, name))
  {
    kept, found := [], false;
    for i := 0 to |es|
      invariant kept == Without(es[..i], name) && (found <==> exists k :: 0 <= k < i && es[k].name == name)
    {
      assert es[..i + 1][..i] == es[..i];
      if es[i].name == name {
        found := true;
      } else {
        kept := kept + [es[i]];
      }
    }
    assert es[..|es|] == es;
  }

  // ---------------------------------------------------------------- what an edit means

  function ListOf(s: Schema, kind: Kind): seq<Entry> {
    match kind
    case Stored => s.edges
    case Computed => s.computed
    case Cypher => s.cypher
  }

  predicate Increasing(places: seq<nat>) {
    forall i, j :: 0 <= i < j < |places| ==> places[i] < places[j]
  }

  ghost predicate KeptAt(es: seq<Entry>, name: string, r: seq<Entry>, places: seq<nat>) {
    && Increasing(places) && |places| == |r|
    && (forall i :: 0 <= i < |r| ==> places[i] < |es| && r[i] == es[places[i]])
    && (forall k: nat :: k in places <==> k < |es| && es[k].name != name)
  }

  /** The list has the entries of the other one, in order, but for those of the name. */
  ghost predicate AllBut(es: seq<Entry>, name: string, r: seq<Entry>) {
    exists places :: KeptAt(es, name, r, places)
  }

  /** The schema after a registration, removal or exchange, list by list. */
  ghost predicate EditGives(s: Schema, edit: Edit, t: Schema) {
    && t.rest == s.rest
    && match edit
       case Register(kind, e) =>
         forall k :: ListOf(t, k) == if k == kind then ListOf(s, k) + [e] else ListOf(s, k)
       case Remove(name) => forall k :: AllBut(ListOf(s, k), name, ListOf(t, k))
       case Exchange(name, kind, e) =>
         forall k ::
           if k == kind then AllButThen(ListOf(s, k), name, ListOf(t, k), e)
           else AllBut(ListOf(s, k), name, ListOf(t, k))
  }

  ghost predicate AllButThen(es: seq<Entry>, name: string, r: seq<Entry>, e: Entry) {
    r != [] && r[|r| - 1] == e && AllBut(es, name, r[..|r| - 1])
  }

  /** An entry of the name is in one of the lists. */
  ghost predicate Named(s: Schema, name: string) {
    exists k: Kind, i :: 0 <= i < |ListOf(s, k)| && ListOf(s, k)[i].name == name
  }

  /** A new name must be free, an old one taken, and an entry named and valid; so must be the result. */
  ghost predicate EditAllowed(s: Schema, edit: Edit, c: Checks) {
    match edit
    case Register(kind, e) => e.name != "" && c.declaration(kind, e) && !Named(s, e.name)
    case Remove(name) => Named(s, name)
    case Exchange(name, kind, e) => e.name != "" && c.declaration(kind, e) && e.name == name && Named(s, name)
  }

  lemma {:induction false} WithoutIsAllBut(es: seq<Entry>, name: string) returns (places: seq<nat>)
    ensures KeptAt(es, name, Without(es, name), places)
  {
    if es == [] {
      places := [];
    } else {
      var n := |es| - 1;
      places := WithoutIsAllBut(es[..n], name);
      KeptSnoc(es[..n], name, Without(es[..n], name), places, es[n]);
      assert es == es[..n] + [es[n]];
      if es[n].name != name { places := places + [n]; }
    }
  }

  lemma KeptSnoc(es: seq<Entry>, name: string, r: seq<Entry>, places: seq<nat>, e: Entry)
    requires KeptAt(es, name, r, places)
    ensures
      if e.name == name then KeptAt(es + [e], name, r, places) else KeptAt(es + [e], name, r + [e], places + [|es|])
  {
    var all, more := es + [e], places + [|es|];
    assert forall k :: 0 <= k < |es| ==> all[k] == es[k];
    assert forall k: nat :: k in more <==> k in places || k == |es|;
  }

  lemma {:induction false} SamePlaces(a: seq<nat>, b: seq<nat>)
    requires Increasing(a) && Increasing(b) && forall k: nat :: k in a <==> k in b
    ensures a == b
  {
    assert a != [] ==> a[0] in a;
    assert b != [] ==> b[0] in b;
    if a != [] && b != [] {
      var n, m := |a| - 1, |b| - 1;
      assert a[n] in b && b[m] in a;
      assert a[n] == b[m];
      forall k: nat ensures k in a[..n] <==> k in b[..m] {
        assert k in a[..n] <==> k in a && k != a[n];
        assert k in b[..m] <==> k in b && k != b[m];
      }
      SamePlaces(a[..n], b[..m]);
      assert a == a[..n] + [a[n]] && b == b[..m] + [b[m]];
    }
  }

  /** The remaining list is determined. */
  lemma AllButExactly(es: seq<Entry>, name: string, r: seq<Entry>)
    ensures AllBut(es, name, r) <==> r == Without(es, name)
  {
    var places := WithoutIsAllBut(es, name);
    if AllBut(es, name, r) {
      var other :| KeptAt(es, name, r, other);
      SamePlaces(places, other);
    }
  }

  lemma NamedExactly(s: Schema, name: string)
    ensures Named(s, name) <==> Declares(s, name)
  {
    assert ListOf(s, Stored) == s.edges && ListOf(s, Computed) == s.computed && ListOf(s, Cypher) == s.cypher;
    if i :| 0 <= i < |s.edges| && s.edges[i].name == name { assert ListOf(s, Stored)[i].name == name; }
    if i :| 0 <= i < |s.computed| && s.computed[i].name == name { assert ListOf(s, Computed)[i].name == name; }
    if i :| 0 <= i < |s.cypher| && s.cypher[i].name == name { assert ListOf(s, Cypher)[i].name == name; }
  }

  lemma SameLists(s: Schema, t: Schema)
    requires s.rest == t.rest && forall k :: ListOf(s, k) == ListOf(t, k)
    ensures s == t
  {
    assert ListOf(s, Stored) == ListOf(t, Stored) && ListOf(s, Computed) == ListOf(t, Computed);
    assert ListOf(s, Cypher) == ListOf(t, Cypher);
  }

  lemma DroppedExactly(s: Schema, name: string, t: Schema)
    ensures t == Dropped(s, name) <==> t.rest == s.rest && forall k :: AllBut(ListOf(s, k), name, ListOf(t, k))
  {
    forall k: Kind
      ensures AllBut(ListOf(s, k), name, ListOf(t, k)) <==> ListOf(t, k) == ListOf(Dropped(s, name), k)
    {
      AllButExactly(ListOf(s, k), name, ListOf(t, k));
    }
    if t.rest == s.rest && forall k :: AllBut(ListOf(s, k), name, ListOf(t, k)) { SameLists(t, Dropped(s, name)); }
  }

  lemma PushedExactly(s: Schema, kind: Kind, e: Entry, t: Schema)
    ensures t == Pushed(s, kind, e) <==>
      t.rest == s.rest && forall k :: ListOf(t, k) == if k == kind then ListOf(s, k) + [e] else ListOf(s, k)
  {
    forall k: Kind ensures ListOf(Pushed(s, kind, e), k) == if k == kind then ListOf(s, k) + [e] else ListOf(s, k) {}
    if t.rest == s.rest && forall k :: ListOf(t, k) == if k == kind then ListOf(s, k) + [e] else ListOf(s, k) {
      SameLists(t, Pushed(s, kind, e));
    }
  }

  lemma ExchangedExactly(s: Schema, name: string, kind: Kind, e: Entry, t: Schema)
    ensures t == Pushed(Dropped(s, name), kind, e) <==> EditGives(s, Exchange(name, kind, e), t)
  {
    var d := Dropped(s, name);
    DroppedExactly(s, name, d);
    PushedExactly(d, kind, e, t);
    forall k: Kind
      ensures ListOf(t, k) == ListOf(d, k) + [e] <==> AllButThen(ListOf(s, k), name, ListOf(t, k), e)
      ensures ListOf(t, k) == ListOf(d, k) <==> AllBut(ListOf(s, k), name, ListOf(t, k))
    {
      AllButExactly(ListOf(s, k), name, ListOf(t, k));
      ThenExactly(ListOf(s, k), name, ListOf(t, k), e);
      AllButExactly(ListOf(s, k), name, ListOf(d, k));
    }
  }

  lemma ThenExactly(es: seq<Entry>, name: string, r: seq<Entry>, e: Entry)
    ensures AllButThen(es, name, r, e) <==> r == Without(es, name) + [e]
  {
    if r != [] {
      AllButExactly(es, name, r[..|r| - 1]);
      assert r == r[..|r| - 1] + [r[|r| - 1]];
    }
    var w := Without(es, name) + [e];
    assert w[..|w| - 1] == Without(es, name);
  }

  /** An edit is accepted exactly when it is allowed and gives a valid schema, and gives just that one. */
  lemma EditedExactly(s: Schema, edit: Edit, c: Checks, t: Schema)
    ensures Edited(s, edit, c) == Some(t) <==> EditAllowed(s, edit, c) && EditGives(s, edit, t) && c.schema(t)
  {
    match edit
    case Register(kind, e) => NamedExactly(s, e.name); PushedExactly(s, kind, e, t);
    case Remove(name) => NamedExactly(s, name); DroppedExactly(s, name, t);
    case Exchange(name, kind, e) => NamedExactly(s, name); ExchangedExactly(s, name, kind, e, t);
  }

  // ---------------------------------------------------------------- unique names

  function NamesIn(es: seq<Entry>): multiset<string> {
    if es == [] then multiset{} else NamesIn(es[..|es| - 1]) + multiset{es[|es| - 1].name}
  }

  function Names(s: Schema): multiset<string> {
    NamesIn(s.edges) + NamesIn(s.computed) + NamesIn(s.cypher)
  }

  ghost predicate UniqueNames(s: Schema) {
    forall name :: Names(s)[name] <= 1
  }

  lemma {:induction false} HasNamed(es: seq<Entry>, name: string)
    ensures Has(es, name) <==> NamesIn(es)[name] > 0
  {
    if es != [] {
      var n := |es| - 1;
      HasNamed(es[..n], name);
      assert Has(es, name) <==> Has(es[..n], name) || es[n].name == name by {
        if Has(es, name) {
          var i :| 0 <= i < |es| && es[i].name == name;
          assert i < n ==> es[..n][i].name == name;
        }
        if Has(es[..n], name) {
          var i :| 0 <= i < n && es[..n][i].name == name;
          assert es[i].name == name;
        }
      }
    }
  }

  lemma {:induction false} WithoutNames(es: seq<Entry>, name: string)
    ensures NamesIn(Without(es, name)) == NamesIn(es)[name := 0]
  {
    if es != [] {
      var n := |es| - 1;
      WithoutNames(es[..n], name);
      var front := Without(es[..n], name);
      if es[n].name != name { assert (front + [es[n]])[..|front|] == front; }
    }
  }

  lemma PushedNames(s: Schema, kind: Kind, e: Entry)
    ensures Names(Pushed(s, kind, e)) == Names(s) + multiset{e.name}
  {
    assert (s.edges + [e])[..|s.edges|] == s.edges;
    assert (s.computed + [e])[..|s.computed|] == s.computed;
    assert (s.cypher + [e])[..|s.cypher|] == s.cypher;
  }

  lemma DroppedNames(s: Schema, name: string)
    ensures Names(Dropped(s, name)) == Names(s)[name := 0]
  {
    WithoutNames(s.edges, name);
    WithoutNames(s.computed, name);
    WithoutNames(s.cypher, name);
  }

  lemma DeclaresNamed(s: Schema, name: string)
    ensures Declares(s, name) <==> Names(s)[name] > 0
  {
    HasNamed(s.edges, name);
    HasNamed(s.computed, name);
    HasNamed(s.cypher, name);
  }

  /** What an accepted edit does to the names. */
  lemma EditedNames(s: Schema, edit: Edit, c: Checks)
    requires Edited(s, edit, c).Some?
    ensures Names(Edited(s, edit, c).value) == match edit
      case Register(_, e) => Names(s) + multiset{e.name}
      case Remove(name) => Names(s)[name := 0]
      case Exchange(name, _, _) => Names(s)[name := 1]
  {
    match edit
    case Register(kind, e) => PushedNames(s, kind, e);
    case Remove(name) => DroppedNames(s, name);
    case Exchange(name, kind, e) => DroppedNames(s, name); PushedNames(Dropped(s, name), kind, e);
  }

  lemma EditKeepsUnique(s: Schema, edit: Edit, c: Checks)
    requires UniqueNames(s) && Edited(s, edit, c).Some?
    ensures UniqueNames(Edited(s, edit, c).value)
  {
    EditedNames(s, edit, c);
    if edit.Register? { DeclaresNamed(s, edit.entry.name); }
  }

  lemma {:induction false} WithoutAbsent(es: seq<Entry>, name: string)
    requires !Has(es, name)
    ensures Without(es, name) == es
  {
    if es != [] {
      var n := |es| - 1;
      assert forall i :: 0 <= i < n ==> es[..n][i] == es[i];
      WithoutAbsent(es[..n], name);
      assert es == es[..n] + [es[n]];
    }
  }

  /** Removing what was just registered gives the schema back. */
  lemma RegisterThenRemove(s: Schema, kind: Kind, e: Entry, c: Checks)
    requires Edited(s, Register(kind, e), c).Some? && c.schema(s)
    ensures Edited(Edited(s, Register(kind, e), c).value, Remove(e.name), c) == Some(s)
  {
    PushedNames(s, kind, e);
    DeclaresNamed(Pushed(s, kind, e), e.name);
    DropPushed(s, kind, e);
  }

  lemma WithoutLast(es: seq<Entry>, e: Entry)
    requires !Has(es, e.name)
    ensures Without(es + [e], e.name) == es
  {
    assert (es + [e])[..|es|] == es;
    WithoutAbsent(es, e.name);
  }

  lemma DropPushed(s: Schema, kind: Kind, e: Entry)
    requires !Declares(s, e.name)
    ensures Dropped(Pushed(s, kind, e), e.name) == s
  {
    WithoutAbsent(s.edges, e.name);
    WithoutAbsent(s.computed, e.name);
    WithoutAbsent(s.cypher, e.name);
    match kind
    case Stored => WithoutLast(s.edges, e);
    case Computed => WithoutLast(s.computed, e);
    case Cypher => WithoutLast(s.cypher, e);
  }

  // ---------------------------------------------------------------- the catalog and its callers

  /** A success: an edit of the schema of the expected revision, or a whole new schema. */
  datatype Change = Edit(edit: Edit) | Whole(schema: Schema)

  ghost predicate Results(s: Schema, change: Change, t: Schema, c: Checks) {
    match change
    case Edit(edit) => Edited(s, edit, c) == Some(t)
    case Whole(schema) => t == schema
  }

  /** A call that has read the catalog and not yet replaced it. */
  datatype Call = Call(expected: int, edit: Edit, proposed: Schema)

  /** Calls interleave between reading the snapshot and replacing it under the write lock. */
  datatype Event =
    | Begin(id: nat, expected: int, edit: Edit)
    | Finish(id: nat)
    | ReplaceWhole(expected: int, schema: Schema)

  /** The catalog and its calls at one moment. */
  datatype Moment = Moment(schema: Schema, revision: int, calls: map<nat, Call>)

  /** The change that an event makes if it succeeds. */
  ghost predicate Makes(m: Moment, event: Event, change: Change) {
    match event
    case Begin(_, _, _) => false
    case Finish(id) => id in m.calls && change == Edit(m.calls[id].edit)
    case ReplaceWhole(_, schema) => change == Whole(schema)
  }

  /** An event succeeds exactly when the revision is the one it expects and can go up. */
  ghost predicate Succeeds(m: Moment, event: Event) {
    match event
    case Begin(_, _, _) => false
    case Finish(id) => id in m.calls && m.calls[id].expected == m.revision < MAX_REVISION
    case ReplaceWhole(expected, _) => expected == m.revision < MAX_REVISION
  }

  ghost function CallsAfter(m: Moment, event: Event, c: Checks): map<nat, Call> {
    match event
    case Begin(id, expected, edit) =>
      if expected == m.revision && id !in m.calls && Edited(m.schema, edit, c).Some?
      then m.calls[id := Call(expected, edit, Edited(m.schema, edit, c).value)]
      else m.calls
    case Finish(id) => m.calls - {id}
    case ReplaceWhole(_, _) => m.calls
  }

  /** One event. Only a success changes the schema and the revision. */
  ghost predicate Moves(m: Moment, event: Event, c: Checks, m': Moment, answer: Option<int>) {
    && m'.calls == CallsAfter(m, event, c)
    && if Succeeds(m, event) then
         && answer == Some(m.revision + 1) && m'.revision == m.revision + 1
         && m'.schema == (if event.Finish? then m.calls[event.id].proposed else event.schema)
       else answer == None && m'.revision == m.revision && m'.schema == m.schema
  }

  class InMemoryCatalog {
    const checks: Checks
    const first: int
    var schema: Schema
    var revision: int
    var calls: map<nat, Call>
    /** The schema of every revision since the first, and what led from each to the next. */
    ghost var history: seq<Schema>
    ghost var changes: seq<Change>

    /** A new catalog starts at revision 1, a resolved one at the revision it was resolved at. */
    constructor (checks: Checks, schema: Schema, revision: int)
      ensures Valid() && this.checks == checks && first == this.revision == revision
      ensures history == [schema] && calls == map[]
    {
      this.checks, this.schema, first, this.revision, calls := checks, schema, revision, revision, map[];
      history, changes := [schema], [];
    }

    /** No update is lost: each revision's schema is the change of the one before it. */
    ghost predicate Valid()
      reads this
    {
      && |history| == |changes| + 1 && revision == first + |changes| && schema == history[|changes|]
      && (forall k :: 0 <= k < |changes| ==> Results(history[k], changes[k], history[k + 1], checks))
      && (forall id :: id in calls ==> Started(calls[id]))
    }

    ghost predicate Started(call: Call)
      reads this
    {
      && first <= call.expected < first + |history|
      && Edited(history[call.expected - first], call.edit, checks) == Some(call.proposed)
    }

    /** Replaces the schema if the revision is the expected one. */
    method Replace(expected: int, next: Schema, ghost change: Change) returns (r: Option<int>)
      requires Valid() && (revision == expected ==> Results(schema, change, next, checks))
      modifies this`schema, this`revision, this`history, this`changes
      ensures Valid()
      ensures r == if old(revision) == expected && expected < MAX_REVISION then Some(expected + 1) else None
      ensures r.Some? ==>
        revision == r.value && schema == next && history == old(history) + [next] && changes == old(changes) + [change]
      ensures r.None? ==> unchanged(this)
    {
      if revision != expected || revision >= MAX_REVISION {
        return None;
      }
      schema, revision := next, revision + 1;
      history, changes := history + [next], changes + [change];
      return Some(revision);
    }

    /** The first half of a registration, removal or exchange. */
    method Propose(edit: Edit) returns (r: Option<Schema>)
      ensures r == Edited(schema, edit, checks)
    {
      var next := schema;
      if edit.Register? {
        if !EntryOk(edit.kind, edit.entry, checks) || Declares(schema, edit.entry.name) {
          return None;
        }
        next := Pushed(schema, edit.kind, edit.entry);
      } else {
        if edit.Exchange? && (!EntryOk(edit.kind, edit.entry, checks) || edit.entry.name != edit.name) {
          return None;
        }
        var edges, inEdges := Retain(schema.edges, edit.name);
        var computed, inComputed := Retain(schema.computed, edit.name);
        var cypher, inCypher := Retain(schema.cypher, edit.name);
        if !inEdges && !inComputed && !inCypher {
          return None;
        }
        next := Schema(edges, computed, cypher, schema.rest);
        if edit.Exchange? {
          next := Pushed(next, edit.kind, edit.entry);
        }
      }
      return if checks.schema(next) then Some(next) else None;
    }

    ghost function Now(): Moment
      reads this
    {
      Moment(schema, revision, calls)
    }

    /** One step of any caller. A success applies the call's own edit to exactly the schema of its
        expected revision and gives the next revision. */
    method Step(event: Event) returns (r: Option<int>)
      requires Valid()
      modifies this
      ensures Valid() && Moves(old(Now()), event, checks, Now(), r)
      ensures r.None? ==> history == old(history) && changes == old(changes)
      ensures r.Some? ==>
        && history == old(history) + [schema] && |changes| == |old(changes)| + 1 && old(changes) <= changes
        && Makes(old(Now()), event, changes[|old(changes)|])
    {
      match event {
        case Begin(id, expected, edit) =>
          r := None;
          if revision == expected && id !in calls {
            var proposed := Propose(edit);
            if proposed.Some? {
              calls := calls[id := Call(expected, edit, proposed.value)];
            }
          }
        case Finish(id) =>
          if id !in calls {
            return None;
          }
          r := FinishCall(id);
        case ReplaceWhole(expected, next) =>
          r := Replace(expected, next, Whole(next));
      }
    }

    method FinishCall(id: nat) returns (r: Option<int>)
      requires Valid() && id in calls
      modifies this
      ensures Valid() && calls == old(calls) - {id}
      ensures r.None? ==>
        history == old(history) && changes == old(changes) && schema == old(schema) && revision == old(revision)
      ensures r.Some? <==> old(calls[id].expected) == old(revision) < MAX_REVISION
      ensures r.Some? ==>
        r.value == revision == old(revision) + 1 && history == old(history) + [schema] &&
        schema == old(calls[id].proposed)
      ensures r.Some? ==> changes == old(changes) + [Edit(old(calls[id].edit))]
    {
      var call := calls[id];
      calls := calls - {id};
      r := Replace(call.expected, call.proposed, Edit(call.edit));
    }
  }

  // ---------------------------------------------------------------- runs

  ghost predicate IsRun(trace: seq<Moment>, events: seq<Event>, answers: seq<Option<int>>, c: Checks) {
    && |trace| == |events| + 1 && |answers| == |events| && trace[0].calls == map[]
    && forall n :: 0 <= n < |events| ==> Moves(trace[n], events[n], c, trace[n + 1], answers[n])
  }

  lemma RunSnoc(trace: seq<Moment>, events: seq<Event>, answers: seq<Option<int>>, c: Checks,
                m: Moment, event: Event, answer: Option<int>)
    requires IsRun(trace, events, answers, c) && Moves(trace[|events|], event, c, m, answer)
    ensures IsRun(trace + [m], events + [event], answers + [answer], c)
  {
    var trace', events', answers' := trace + [m], events + [event], answers + [answer];
    forall n | 0 <= n < |events'| ensures Moves(trace'[n], events'[n], c, trace'[n + 1], answers'[n]) {
      if n < |events| { assert Moves(trace[n], events[n], c, trace[n + 1], answers[n]); }
    }
  }

  /** A schema changes only together with the revision, which never goes down. */
  lemma {:induction false} RevisionNamesSchema(
    trace: seq<Moment>, events: seq<Event>, answers: seq<Option<int>>, c: Checks, j: nat, i: nat)
    requires IsRun(trace, events, answers, c) && j <= i <= |events|
    ensures trace[j].revision <= trace[i].revision
    ensures trace[j].revision == trace[i].revision ==> trace[j].schema == trace[i].schema
    decreases i
  {
    if j < i {
      RevisionNamesSchema(trace, events, answers, c, j, i - 1);
      assert Moves(trace[i - 1], events[i - 1], c, trace[i], answers[i - 1]);
    }
  }

  /** The event j began the call that is open under the id before event i. */
  ghost predicate Began(trace: seq<Moment>, events: seq<Event>, c: Checks, id: nat, j: nat, i: nat)
    requires j < i <= |events| && |trace| == |events| + 1 && id in trace[i].calls
  {
    var call := trace[i].calls[id];
    && events[j] == Begin(id, call.expected, call.edit)
    && trace[j].revision == call.expected && Edited(trace[j].schema, call.edit, c) == Some(call.proposed)
    && forall k :: j < k < i ==> events[k] != Finish(id)
  }

  lemma {:induction false} CallBegan(
    trace: seq<Moment>, events: seq<Event>, answers: seq<Option<int>>, c: Checks, id: nat, i: nat) returns (j: nat)
    requires IsRun(trace, events, answers, c) && i <= |events| && id in trace[i].calls
    ensures j < i && Began(trace, events, c, id, j, i)
    decreases i
  {
    assert Moves(trace[i - 1], events[i - 1], c, trace[i], answers[i - 1]);
    if id in trace[i - 1].calls {
      j := CallBegan(trace, events, answers, c, id, i - 1);
    } else {
      j := i - 1;
    }
  }

  /** What event i, if it succeeds, has done: it was asked for at the revision before its answer, an
      edit by the Begin of its own call, and its own change was made to the schema as it was then. */
  ghost predicate Applied(trace: seq<Moment>, events: seq<Event>, c: Checks, i: nat, v: int)
    requires i < |events| && |trace| == |events| + 1
  {
    && trace[i].revision == v - 1 && trace[i + 1].revision == v
    && match events[i]
       case Begin(_, _, _) => false
       case ReplaceWhole(expected, schema) => expected == v - 1 && trace[i + 1].schema == schema
       case Finish(id) =>
         id in trace[i].calls && exists j ::
           && 0 <= j < i && Began(trace, events, c, id, j, i) && events[j].expected == v - 1
           && EditAllowed(trace[i].schema, events[j].edit, c)
           && EditGives(trace[i].schema, events[j].edit, trace[i + 1].schema) && c.schema(trace[i + 1].schema)
  }

  /** No update is lost: every success applies its own edit to the latest schema, although the edit was
      worked out from an earlier reading. */
  lemma NoUpdateLost(trace: seq<Moment>, events: seq<Event>, answers: seq<Option<int>>, c: Checks, i: nat)
    requires IsRun(trace, events, answers, c) && i < |events| && answers[i].Some?
    ensures Applied(trace, events, c, i, answers[i].value)
  {
    assert Moves(trace[i], events[i], c, trace[i + 1], answers[i]);
    if events[i].Finish? {
      var j := CallBegan(trace, events, answers, c, events[i].id, i);
      RevisionNamesSchema(trace, events, answers, c, j, i);
      EditedExactly(trace[i].schema, events[j].edit, c, trace[i + 1].schema);
    }
  }

  /** Two calls that read the same revision do not both succeed. */
  lemma AnswersIncrease(
    trace: seq<Moment>, events: seq<Event>, answers: seq<Option<int>>, c: Checks, i: nat, j: nat)
    requires IsRun(trace, events, answers, c) && i < j < |events| && answers[i].Some? && answers[j].Some?
    ensures answers[i].value < answers[j].value
  {
    assert Moves(trace[i], events[i], c, trace[i + 1], answers[i]);
    assert Moves(trace[j], events[j], c, trace[j + 1], answers[j]);
    RevisionNamesSchema(trace, events, answers, c, i + 1, j);
  }

  /** Every revision was answered to the event that made it. */
  lemma {:induction false} RevisionAnswered(
    trace: seq<Moment>, events: seq<Event>, answers: seq<Option<int>>, c: Checks, n: nat, v: int) returns (i: nat)
    requires IsRun(trace, events, answers, c) && n <= |events| && trace[0].revision < v <= trace[n].revision
    ensures i < n && answers[i] == Some(v)
    decreases n
  {
    assert Moves(trace[n - 1], events[n - 1], c, trace[n], answers[n - 1]);
    if v <= trace[n - 1].revision {
      i := RevisionAnswered(trace, events, answers, c, n - 1, v);
    } else {
      i := n - 1;
    }
  }

  lemma ResultUnique(s: Schema, change: Change, t: Schema, c: Checks)
    requires UniqueNames(s) && Results(s, change, t, c) && (change.Whole? ==> UniqueNames(change.schema))
    ensures UniqueNames(t)
  {
    if change.Edit? { EditKeepsUnique(s, change.edit, c); }
  }

  /** The whole schemas that callers pass have unique names. */
  ghost predicate WholesUnique(events: seq<Event>) {
    forall i :: 0 <= i < |events| && events[i].ReplaceWhole? ==> UniqueNames(events[i].schema)
  }

  /** Each answer is the revision of the change that its own event made. */
  ghost predicate Recorded(trace: seq<Moment>, events: seq<Event>, answers: seq<Option<int>>,
                           first: int, changes: seq<Change>)
    requires |trace| == |events| + 1 && |answers| == |events|
  {
    forall i :: 0 <= i < |events| && answers[i].Some? ==>
      && first < answers[i].value <= first + |changes|
      && Makes(trace[i], events[i], changes[answers[i].value - first - 1])
  }

  lemma RecordedSnoc(trace: seq<Moment>, events: seq<Event>, answers: seq<Option<int>>, first: int,
                     changes: seq<Change>, m: Moment, event: Event, answer: Option<int>, changes': seq<Change>)
    requires |trace| == |events| + 1 && |answers| == |events| && Recorded(trace, events, answers, first, changes)
    requires changes <= changes'
    requires answer.Some? ==>
      && answer.value == first + |changes'| && |changes'| == |changes| + 1
      && Makes(trace[|events|], event, changes'[|changes|])
    ensures Recorded(trace + [m], events + [event], answers + [answer], first, changes')
  {
    var trace', events', answers' := trace + [m], events + [event], answers + [answer];
    forall i | 0 <= i < |events'| && answers'[i].Some?
      ensures first < answers'[i].value <= first + |changes'|
      ensures Makes(trace'[i], events'[i], changes'[answers'[i].value - first - 1])
    {
      if i < |events| { assert answers[i].Some? && Makes(trace[i], events[i], changes[answers[i].value - first - 1]); }
    }
  }

  /** A run together with the catalog's record of its changes. */
  ghost predicate RecordedRun(trace: seq<Moment>, events: seq<Event>, answers: seq<Option<int>>, c: Checks,
                              first: int, changes: seq<Change>)
  {
    IsRun(trace, events, answers, c) && Recorded(trace, events, answers, first, changes)
  }

  lemma RecordedRunSnoc(trace: seq<Moment>, events: seq<Event>, answers: seq<Option<int>>, c: Checks, first: int,
                        changes: seq<Change>, m: Moment, event: Event, answer: Option<int>, changes': seq<Change>)
    requires RecordedRun(trace, events, answers, c, first, changes)
    requires Moves(trace[|events|], event, c, m, answer) && changes <= changes'
    requires answer.Some? ==>
      && answer.value == first + |changes'| && |changes'| == |changes| + 1
      && Makes(trace[|events|], event, changes'[|changes|])
    ensures RecordedRun(trace + [m], events + [event], answers + [answer], c, first, changes')
  {
    RunSnoc(trace, events, answers, c, m, event, answer);
    RecordedSnoc(trace, events, answers, first, changes, m, event, answer, changes');
  }

  ghost predicate AllUnique(history: seq<Schema>) {
    forall k :: 0 <= k < |history| ==> UniqueNames(history[k])
  }

  lemma StepUnique(before: seq<Schema>, after: seq<Schema>, change: Change, c: Checks)
    requires AllUnique(before) && before != [] && |after| == |before| + 1 && before <= after
    requires Results(after[|before| - 1], change, after[|before|], c) && (change.Whole? ==> UniqueNames(change.schema))
    ensures AllUnique(after)
  {
    ResultUnique(after[|before| - 1], change, after[|before|], c);
  }

  /** What holds of every run, however the calls interleave: each success makes its own change to the
      latest schema and is answered with the revision this gives, successes are exactly those that
      expect the current revision, and every revision was answered to the event that made it. */
  ghost predicate Linear(trace: seq<Moment>, events: seq<Event>, answers: seq<Option<int>>, c: Checks)
    requires |trace| == |events| + 1 && |answers| == |events|
  {
    && (forall i :: 0 <= i < |events| ==> (answers[i].Some? <==> Succeeds(trace[i], events[i])))
    && (forall i :: 0 <= i < |events| && answers[i].Some? ==> Applied(trace, events, c, i, answers[i].value))
    && (forall i, j :: 0 <= i < j < |events| && answers[i].Some? && answers[j].Some? ==>
          answers[i].value < answers[j].value)
    && (forall v :: trace[0].revision < v <= trace[|events|].revision ==> Some(v) in answers)
  }

  lemma RunIsLinear(trace: seq<Moment>, events: seq<Event>, answers: seq<Option<int>>, c: Checks)
    requires IsRun(trace, events, answers, c)
    ensures Linear(trace, events, answers, c)
  {
    forall i | 0 <= i < |events| ensures answers[i].Some? <==> Succeeds(trace[i], events[i]) {
      assert Moves(trace[i], events[i], c, trace[i + 1], answers[i]);
    }
    forall i | 0 <= i < |events| && answers[i].Some? ensures Applied(trace, events, c, i, answers[i].value) {
      NoUpdateLost(trace, events, answers, c, i);
    }
    forall i, j | 0 <= i < j < |events| && answers[i].Some? && answers[j].Some?
      ensures answers[i].value < answers[j].value
    {
      AnswersIncrease(trace, events, answers, c, i, j);
    }
    forall v | trace[0].revision < v <= trace[|events|].revision ensures Some(v) in answers {
      var i := RevisionAnswered(trace, events, answers, c, |events|, v);
    }
  }

  method PlayNext(catalog: InMemoryCatalog, ghost trace: seq<Moment>, ghost events: seq<Event>,
                  ghost answers: seq<Option<int>>, event: Event, ghost unique: bool)
    returns (r: Option<int>)
    requires catalog.Valid() && RecordedRun(trace, events, answers, catalog.checks, catalog.first, catalog.changes)
    requires trace[|events|] == catalog.Now()
    requires unique ==> AllUnique(catalog.history) && (event.ReplaceWhole? ==> UniqueNames(event.schema))
    modifies catalog
    ensures catalog.Valid() && catalog.history[0] == old(catalog.history[0])
    ensures RecordedRun(trace + [catalog.Now()], events + [event], answers + [r], catalog.checks, catalog.first,
                        catalog.changes)
    ensures unique ==> AllUnique(catalog.history)
  {
    ghost var before, changes, c := catalog.history, catalog.changes, catalog.checks;
    r := catalog.Step(event);
    RecordedRunSnoc(trace, events, answers, c, catalog.first, changes, catalog.Now(), event, r, catalog.changes);
    if r.Some? && unique { StepUnique(before, catalog.history, catalog.changes[|changes|], c); }
  }

  /** The events one after the other. */
  method Play(checks: Checks, initial: Schema, revision: int, events: seq<Event>)
    returns (catalog: InMemoryCatalog, answers: seq<Option<int>>, ghost trace: seq<Moment>)
    ensures catalog.Valid() && catalog.checks == checks && catalog.first == revision && catalog.history[0] == initial
    ensures RecordedRun(trace, events, answers, checks, revision, catalog.changes)
    ensures trace[0] == Moment(initial, revision, map[]) && trace[|events|] == catalog.Now()
    ensures UniqueNames(initial) && WholesUnique(events) ==> AllUnique(catalog.history)
  {
    catalog := new InMemoryCatalog(checks, initial, revision);
    answers := [];
    trace := [catalog.Now()];
    ghost var unique := UniqueNames(initial) && WholesUnique(events);
    for n := 0 to |events|
      invariant catalog.Valid() && catalog.checks == checks && catalog.first == revision
      invariant catalog.history[0] == initial
      invariant RecordedRun(trace, events[..n], answers, checks, revision, catalog.changes)
      invariant trace[0] == Moment(initial, revision, map[]) && trace[n] == catalog.Now()
      invariant unique ==> AllUnique(catalog.history)
    {
      assert events[..n + 1] == events[..n] + [events[n]];
      var r := PlayNext(catalog, trace, events[..n], answers, events[n], unique);
      answers := answers + [r];
      trace := trace + [catalog.Now()];
    }
    assert events[..|events|] == events;
  }

  /** Every interleaving: the moments lead from the initial to the final catalog, the run is linear,
      the catalog's record of changes is that of the answers, and names stay unique in every
      revision. */
  method Run(checks: Checks, initial: Schema, revision: int, events: seq<Event>)
    returns (catalog: InMemoryCatalog, answers: seq<Option<int>>, ghost trace: seq<Moment>)
    ensures catalog.Valid() && catalog.checks == checks && catalog.first == revision && catalog.history[0] == initial
    ensures IsRun(trace, events, answers, checks) && Linear(trace, events, answers, checks)
    ensures trace[0] == Moment(initial, revision, map[]) && trace[|events|] == catalog.Now()
    ensures Recorded(trace, events, answers, revision, catalog.changes)
    ensures UniqueNames(initial) && WholesUnique(events) ==> AllUnique(catalog.history)
  {
    catalog, answers, trace := Play(checks, initial, revision, events);
    RunIsLinear(trace, events, answers, checks);
  }
}
