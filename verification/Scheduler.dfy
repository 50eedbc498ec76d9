/** The streaming scheduler: it starts each transfer's statement, decides which streams to
    drain to disk before going on, and registers each result as a one-shot or a replayable
    input of later statements. The model logs what the scheduler does to connections. */
module Scheduler {
  import opened Text

  /** `key`: identity shared by aliases of one connection. */
  datatype Session = Session(key: Option<string>, concurrent: bool)
  type Key = (bool, string)

  /** Single-part relation names in a statement, one entry per occurrence. */
  datatype Sql = Sql(empty: bool, names: seq<string>)
  datatype Completion = Plain | Operation(engine: string) | Request(engine: string)
  datatype Transfer = Transfer(source: string, sql: Sql, name: string, completion: Completion)
  datatype Plan = Plan(target: string, transfers: seq<Transfer>, sql: Sql)

  /** `Start`: a statement begins on a connection and holds it until its stream is drained.
      A dependent operation starts its statements lazily, so it counts as holding its
      connection from the moment it is set up. */
  datatype Event = Start(conn: Key, stream: nat) | Drain(stream: nat) | Open(name: string)

  type Sessions = map<string, Session>

  function Conn(ss: Sessions, name: string): Key
    requires name in ss
  {
    match ss[name].key
    case Some(k) => (true, k)
    case None => (false, name)
  }

  /** Every engine that the plan names has a session, and an empty statement names nothing. */
  predicate Runnable(ss: Sessions, p: Plan) {
    && p.target in ss && (p.sql.empty ==> p.sql.names == [])
    && forall i :: 0 <= i < |p.transfers| ==>
         var t := p.transfers[i];
         && t.source in ss && (t.sql.empty ==> t.sql.names == [])
         && (!t.completion.Plain? ==> t.completion.engine in ss)
  }

  predicate Touches(ss: Sessions, t: Transfer, c: Key)
    requires t.source in ss && (!t.completion.Plain? ==> t.completion.engine in ss)
  {
    Conn(ss, t.source) == c || (!t.completion.Plain? && Conn(ss, t.completion.engine) == c)
  }

  /** The connection is needed again by the final statement or by a transfer from `n` on. */
  predicate NeededFrom(ss: Sessions, p: Plan, n: nat, c: Key)
    requires Runnable(ss, p)
  {
    || Conn(ss, p.target) == c
    || exists i :: n <= i < |p.transfers| && Touches(ss, p.transfers[i], c)
  }

  function Count(names: seq<string>, name: string): nat {
    multiset(names)[name]
  }

  function UsesUpTo(p: Plan, n: nat, name: string): nat
    requires n <= |p.transfers|
  {
    if n == 0 then 0 else UsesUpTo(p, n - 1, name) + Count(p.transfers[n - 1].sql.names, name)
  }

  function Uses(p: Plan, name: string): nat {
    UsesUpTo(p, |p.transfers|, name) + Count(p.sql.names, name)
  }

  predicate ClosedRequest(t: Transfer) {
    t.completion.Request? && t.sql.empty
  }

  /** The input cursor must be drained before anything else uses its connection. */
  predicate DrainsInput(ss: Sessions, p: Plan, i: nat)
    requires Runnable(ss, p) && i < |p.transfers|
  {
    var t := p.transfers[i];
    && !ss[t.source].concurrent
    && (|| (t.completion.Operation? && Conn(ss, t.completion.engine) == Conn(ss, t.source))
        || NeededFrom(ss, p, i + 1, Conn(ss, t.source)))
  }

  predicate DependentReentry(ss: Sessions, p: Plan, i: nat)
    requires Runnable(ss, p) && i < |p.transfers|
  {
    var t := p.transfers[i];
    t.completion.Operation? && !ss[t.completion.engine].concurrent &&
      NeededFrom(ss, p, i + 1, Conn(ss, t.completion.engine))
  }

  /** The result is written to disk and may be opened any number of times. */
  predicate Replayable(ss: Sessions, p: Plan, i: nat)
    requires Runnable(ss, p) && i < |p.transfers|
  {
    DependentReentry(ss, p, i) || Uses(p, p.transfers[i].name) > 1
  }

  /** A statement opens each produced relation that it names once, however often it names it. */
  function Opens(p: Plan, n: nat, names: seq<string>): seq<Event>
    requires n <= |p.transfers|
  {
    if names == [] then []
    else
      var last := names[|names| - 1];
      Opens(p, n, names[..|names| - 1]) +
      if Produced(p, n, last) && last !in names[..|names| - 1] then [Open(last)] else []
  }

  predicate Produced(p: Plan, n: nat, name: string)
    requires n <= |p.transfers|
  {
    exists i :: 0 <= i < n && p.transfers[i].name == name
  }

  function InputEvents(ss: Sessions, p: Plan, i: nat): seq<Event>
    requires Runnable(ss, p) && i < |p.transfers|
  {
    var t := p.transfers[i];
    if ClosedRequest(t) then []
    else
      Opens(p, i, t.sql.names) + [Start(Conn(ss, t.source), 2 * i)]
      + if DrainsInput(ss, p, i) then [Drain(2 * i)] else []
  }

  function CompletionEvents(ss: Sessions, p: Plan, i: nat): seq<Event>
    requires Runnable(ss, p) && i < |p.transfers|
  {
    var t := p.transfers[i];
    (if t.completion.Operation? then [Start(Conn(ss, t.completion.engine), 2 * i + 1)] else [])
    + if Replayable(ss, p, i) then [Drain(if t.completion.Operation? then 2 * i + 1 else 2 * i)] else []
  }

  /** What running a transfer does. */
  function EventsOf(ss: Sessions, p: Plan): nat -> seq<Event>
    requires Runnable(ss, p)
  {
    (i: nat) => if i < |p.transfers| then InputEvents(ss, p, i) + CompletionEvents(ss, p, i) else []
  }

  function Chain(events: nat -> seq<Event>, n: nat): seq<Event> {
    if n == 0 then [] else Chain(events, n - 1) + events(n - 1)
  }

  function Log(ss: Sessions, p: Plan, n: nat): seq<Event>
    requires Runnable(ss, p)
  {
    Chain(EventsOf(ss, p), n)
  }

  function FullLog(ss: Sessions, p: Plan): seq<Event>
    requires Runnable(ss, p)
  {
    var n := |p.transfers|;
    Log(ss, p, n) + Opens(p, n, p.sql.names) + [Start(Conn(ss, p.target), 2 * n)]
  }

  predicate DistinctNames(p: Plan, n: nat)
    requires n <= |p.transfers|
  {
    forall i, j :: 0 <= i < j < n ==> p.transfers[i].name != p.transfers[j].name
  }

  // ---------------------------------------------------------------- the loop

  method OpenInputs(p: Plan, n: nat, completed: set<string>, names: seq<string>) returns (log: seq<Event>)
    requires n <= |p.transfers| && forall x :: x in completed <==> Produced(p, n, x)
    ensures log == Opens(p, n, names)
  {
    log := [];
    var seen: set<string> := {};
    for k := 0 to |names|
      invariant log == Opens(p, n, names[..k]) && forall x :: x in seen <==> x in names[..k]
    {
      assert names[..k + 1][..k] == names[..k];
      if names[k] in completed && names[k] !in seen {
        log := log + [Open(names[k])];
      }
      assert names[..k + 1] == names[..k] + [names[k]];
      seen := seen + {names[k]};
    }
    assert names[..|names|] == names;
  }

  /** Whether the connection of `endpoint` is used after transfer `index`. */
  method ReusedLater(ss: Sessions, p: Plan, index: nat, endpoint: string) returns (r: bool)
    requires Runnable(ss, p) && index < |p.transfers| && endpoint in ss
    ensures r <==> NeededFrom(ss, p, index + 1, Conn(ss, endpoint))
  {
    if Conn(ss, endpoint) == Conn(ss, p.target) {
      return true;
    }
    for i := index + 1 to |p.transfers|
      invariant forall j :: index < j < i ==> !Touches(ss, p.transfers[j], Conn(ss, endpoint))
    {
      if Touches(ss, p.transfers[i], Conn(ss, endpoint)) {
        return true;
      }
    }
    return false;
  }

  method StartInput(ss: Sessions, p: Plan, i: nat, completed: set<string>) returns (log: seq<Event>)
    requires Runnable(ss, p) && i < |p.transfers| && forall x :: x in completed <==> Produced(p, i, x)
    ensures log == InputEvents(ss, p, i)
  {
    var t := p.transfers[i];
    if ClosedRequest(t) {
      return [];
    }
    var opens := OpenInputs(p, i, completed, t.sql.names);
    log := opens + [Start(Conn(ss, t.source), 2 * i)];
    var reused := ReusedLater(ss, p, i, t.source);
    var sameDependent := t.completion.Operation? && Conn(ss, t.completion.engine) == Conn(ss, t.source);
    if !ss[t.source].concurrent && (sameDependent || reused) {
      log := log + [Drain(2 * i)];
    }
  }

  method Complete(ss: Sessions, p: Plan, i: nat) returns (log: seq<Event>, replayable: bool)
    requires Runnable(ss, p) && i < |p.transfers|
    ensures log == CompletionEvents(ss, p, i) && replayable == Replayable(ss, p, i)
  {
    var t := p.transfers[i];
    log := [];
    var reentry := false;
    if t.completion.Operation? {
      log := [Start(Conn(ss, t.completion.engine), 2 * i + 1)];
      var reused := ReusedLater(ss, p, i, t.completion.engine);
      reentry := !ss[t.completion.engine].concurrent && reused;
    }
    replayable := reentry || Uses(p, t.name) > 1;
    if replayable {
      log := log + [Drain(if t.completion.Operation? then 2 * i + 1 else 2 * i)];
    }
  }

  method RunTransfer(ss: Sessions, p: Plan, i: nat, completed: set<string>) returns (log: seq<Event>, replayable: bool)
    requires Runnable(ss, p) && i < |p.transfers| && forall x :: x in completed <==> Produced(p, i, x)
    ensures log == InputEvents(ss, p, i) + CompletionEvents(ss, p, i) && replayable == Replayable(ss, p, i)
  {
    var started := StartInput(ss, p, i, completed);
    var finished;
    finished, replayable := Complete(ss, p, i);
    log := started + finished;
  }

  /** The registered inputs after n transfers: every produced name, as it was spooled or not. */
  predicate Registered(ss: Sessions, p: Plan, n: nat, replayable: map<string, bool>)
    requires Runnable(ss, p) && n <= |p.transfers|
  {
    && (forall x :: x in replayable ==> Produced(p, n, x))
    && (forall j :: 0 <= j < n ==> p.transfers[j].name in replayable)
    && (forall j {:trigger Replayable(ss, p, j)} :: 0 <= j < n ==>
      replayable[p.transfers[j].name] == Replayable(ss, p, j))
  }

  lemma RegisterNext(ss: Sessions, p: Plan, n: nat, replayable: map<string, bool>)
    requires Runnable(ss, p) && n < |p.transfers| && Registered(ss, p, n, replayable)
    requires p.transfers[n].name !in replayable && DistinctNames(p, n)
    ensures Registered(ss, p, n + 1, replayable[p.transfers[n].name := Replayable(ss, p, n)]) && DistinctNames(p, n + 1)
  {
    forall j | 0 <= j < n ensures p.transfers[j].name != p.transfers[n].name {
      assert p.transfers[j].name in replayable;
    }
  }

  /** The first n transfers do what `events` says. */
  ghost predicate Traces(ss: Sessions, p: Plan, events: nat -> seq<Event>, n: nat)
    requires Runnable(ss, p) && n <= |p.transfers|
  {
    n == 0 || (Traces(ss, p, events, n - 1) && events(n - 1) == EventsOf(ss, p)(n - 1))
  }

  lemma {:induction false} TracesAt(ss: Sessions, p: Plan, events: nat -> seq<Event>, n: nat, i: nat)
    requires Runnable(ss, p) && i < n <= |p.transfers| && Traces(ss, p, events, n)
    ensures events(i) == InputEvents(ss, p, i) + CompletionEvents(ss, p, i)
  {
    if i < n - 1 { TracesAt(ss, p, events, n - 1, i); }
  }

  lemma {:induction false} EventsTrace(ss: Sessions, p: Plan, n: nat)
    requires Runnable(ss, p) && n <= |p.transfers|
    ensures Traces(ss, p, EventsOf(ss, p), n)
  {
    if n > 0 { EventsTrace(ss, p, n - 1); }
  }

  /** What the loop knows after n transfers; `ok` is false once a relation name was repeated. */
  ghost predicate Reached(ss: Sessions, p: Plan, events: nat -> seq<Event>, n: nat, ok: bool, log: seq<Event>,
      replayable: map<string, bool>)
    requires Runnable(ss, p)
  {
    && n <= |p.transfers| && log == Chain(events, n)
    && (if ok then DistinctNames(p, n) && Registered(ss, p, n, replayable) else !DistinctNames(p, |p.transfers|))
  }

  /** One round of the loop: a repeated relation name is found after its transfer was started. */
  method Advance(ss: Sessions, p: Plan, i: nat, log: seq<Event>, replayable: map<string, bool>,
      ghost events: nat -> seq<Event>)
    returns (ok: bool, longer: seq<Event>, next: map<string, bool>)
    requires Runnable(ss, p) && i < |p.transfers| && Traces(ss, p, events, |p.transfers|)
    requires Reached(ss, p, events, i, true, log, replayable)
    ensures Reached(ss, p, events, i + 1, ok, longer, next)
  {
    TracesAt(ss, p, events, |p.transfers|, i);
    var name := p.transfers[i].name;
    var more, again := RunTransfer(ss, p, i, replayable.Keys);
    longer, next := log + more, replayable;
    ok := name !in replayable;
    if ok {
      RegisterNext(ss, p, i, replayable);
      next := replayable[name := again];
    } else {
      assert Produced(p, i, name);
    }
  }

  lemma ReachedNothing(ss: Sessions, p: Plan, events: nat -> seq<Event>)
    requires Runnable(ss, p)
    ensures Reached(ss, p, events, 0, true, [], map[])
  {
    assert DistinctNames(p, 0);
    assert Registered(ss, p, 0, map[]);
  }

  method RunTransfers(ss: Sessions, p: Plan, ghost events: nat -> seq<Event>)
    returns (ok: bool, log: seq<Event>, replayable: map<string, bool>, reached: nat)
    requires Runnable(ss, p) && Traces(ss, p, events, |p.transfers|)
    ensures Reached(ss, p, events, reached, ok, log, replayable) && (ok ==> reached == |p.transfers|)
  {
    ok, log, replayable, reached := true, [], map[], 0;
    ReachedNothing(ss, p, events);
    while ok && reached < |p.transfers|
      invariant Reached(ss, p, events, reached, ok, log, replayable)
    {
      ok, log, replayable := Advance(ss, p, reached, log, replayable, events);
      reached := reached + 1;
    }
  }

  // ---------------------------------------------------------------- safety

  function After(before: set<(nat, Key)>, e: Event): set<(nat, Key)> {
    if e.Start? then before + {(e.stream, e.conn)}
    else if e.Drain? then set h | h in before && h.0 != e.stream
    else before
  }

  /** The streams still open after a log, with the connection each one holds. */
  function Holders(log: seq<Event>): set<(nat, Key)> {
    if log == [] then {} else After(Holders(log[..|log| - 1]), log[|log| - 1])
  }

  /** Whenever a statement starts on an exclusive connection, nothing else holds it. */
  predicate Exclusive(log: seq<Event>, exclusive: set<Key>) {
    log == [] ||
    (&& Exclusive(log[..|log| - 1], exclusive)
     && (log[|log| - 1].Start? && log[|log| - 1].conn in exclusive ==>
           forall h :: h in Holders(log[..|log| - 1]) ==> h.1 != log[|log| - 1].conn))
  }

  /** Connections on which only one statement may be active. */
  function ExclusiveKeys(ss: Sessions): set<Key> {
    set n | n in ss && !ss[n].concurrent :: Conn(ss, n)
  }

  /** Statement concurrency is a property of the connection, not of the alias. */
  predicate ConsistentAliases(ss: Sessions) {
    forall a, b :: a in ss && b in ss && Conn(ss, a) == Conn(ss, b) ==> ss[a].concurrent == ss[b].concurrent
  }

  lemma Extend(log: seq<Event>, e: Event, exclusive: set<Key>)
    requires Exclusive(log, exclusive)
    requires e.Start? && e.conn in exclusive ==> forall h :: h in Holders(log) ==> h.1 != e.conn
    ensures Exclusive(log + [e], exclusive)
    ensures Holders(log + [e]) == After(Holders(log), e)
  {
    assert (log + [e])[..|log|] == log;
  }

  lemma {:induction false} ExtendOpens(log: seq<Event>, p: Plan, n: nat, names: seq<string>, exclusive: set<Key>)
    requires Exclusive(log, exclusive) && n <= |p.transfers|
    ensures Exclusive(log + Opens(p, n, names), exclusive) && Holders(log + Opens(p, n, names)) == Holders(log)
  {
    if names == [] {
      assert log + [] == log;
    } else {
      var front := Opens(p, n, names[..|names| - 1]);
      ExtendOpens(log, p, n, names[..|names| - 1], exclusive);
      var last := names[|names| - 1];
      if Produced(p, n, last) && last !in names[..|names| - 1] {
        Extend(log + front, Open(last), exclusive);
        assert log + (front + [Open(last)]) == (log + front) + [Open(last)];
      } else {
        assert front + [] == front;
      }
    }
  }

  /** No stream that is still open holds an exclusive connection that is needed from n on. */
  predicate Released(ss: Sessions, p: Plan, n: nat, holders: set<(nat, Key)>)
    requires Runnable(ss, p)
  {
    forall h :: h in holders && h.1 in ExclusiveKeys(ss) ==> !NeededFrom(ss, p, n, h.1)
  }

  lemma KeyIsExclusive(ss: Sessions, name: string)
    requires ConsistentAliases(ss) && name in ss
    ensures Conn(ss, name) in ExclusiveKeys(ss) <==> !ss[name].concurrent
  {
  }

  lemma TouchedIsNeeded(ss: Sessions, p: Plan, i: nat, c: Key, holders: set<(nat, Key)>)
    requires Runnable(ss, p) && i < |p.transfers| && Released(ss, p, i, holders)
    requires Touches(ss, p.transfers[i], c) && c in ExclusiveKeys(ss)
    ensures forall h :: h in holders ==> h.1 != c
  {
    assert NeededFrom(ss, p, i, c);
  }

  lemma StillReleased(ss: Sessions, p: Plan, i: nat, holders: set<(nat, Key)>)
    requires Runnable(ss, p) && i < |p.transfers| && Released(ss, p, i, holders)
    ensures Released(ss, p, i + 1, holders)
  {
    forall c | NeededFrom(ss, p, i + 1, c) ensures NeededFrom(ss, p, i, c) {
    }
  }

  function InputHolders(ss: Sessions, p: Plan, i: nat, holders: set<(nat, Key)>): set<(nat, Key)>
    requires Runnable(ss, p) && i < |p.transfers|
  {
    if ClosedRequest(p.transfers[i]) then holders
    else
      var started := After(holders, Start(Conn(ss, p.transfers[i].source), 2 * i));
      if DrainsInput(ss, p, i) then After(started, Drain(2 * i)) else started
  }

  lemma InputLog(ss: Sessions, p: Plan, i: nat, log: seq<Event>, x: set<Key>)
    requires Runnable(ss, p) && i < |p.transfers| && Exclusive(log, x)
    requires
      var c := Conn(ss, p.transfers[i].source);
      c in x ==> forall h :: h in Holders(log) ==> h.1 != c
    ensures
      var log' := log + InputEvents(ss, p, i);
      Exclusive(log', x) && Holders(log') == InputHolders(ss, p, i, Holders(log))
  {
    var t := p.transfers[i];
    if ClosedRequest(t) {
      assert log + [] == log;
    } else {
      var start := Start(Conn(ss, t.source), 2 * i);
      var l1 := log + Opens(p, i, t.sql.names);
      ExtendOpens(log, p, i, t.sql.names, x);
      Extend(l1, start, x);
      if DrainsInput(ss, p, i) {
        Extend(l1 + [start], Drain(2 * i), x);
        assert log + InputEvents(ss, p, i) == (l1 + [start]) + [Drain(2 * i)];
      } else {
        assert log + InputEvents(ss, p, i) == l1 + [start];
      }
    }
  }

  /** Once the input is started, and drained where needed, the dependent connection is free. */
  lemma InputReleases(ss: Sessions, p: Plan, i: nat, holders: set<(nat, Key)>)
    requires Runnable(ss, p) && ConsistentAliases(ss) && i < |p.transfers| && Released(ss, p, i, holders)
    ensures
      var after := InputHolders(ss, p, i, holders);
      var t := p.transfers[i];
      && Released(ss, p, i + 1, after)
      && (t.completion.Operation? && Conn(ss, t.completion.engine) in ExclusiveKeys(ss) ==>
            forall h :: h in after ==> h.1 != Conn(ss, t.completion.engine))
  {
    var t := p.transfers[i];
    StillReleased(ss, p, i, holders);
    KeyIsExclusive(ss, t.source);
    if t.completion.Operation? && Conn(ss, t.completion.engine) in ExclusiveKeys(ss) {
      TouchedIsNeeded(ss, p, i, Conn(ss, t.completion.engine), holders);
    }
  }

  function CompletionHolders(ss: Sessions, p: Plan, i: nat, holders: set<(nat, Key)>): set<(nat, Key)>
    requires Runnable(ss, p) && i < |p.transfers|
  {
    var t := p.transfers[i];
    var s := if t.completion.Operation? then 2 * i + 1 else 2 * i;
    var started := if t.completion.Operation? then After(holders, Start(Conn(ss, t.completion.engine), s)) else holders;
    if Replayable(ss, p, i) then After(started, Drain(s)) else started
  }

  lemma CompletionLog(ss: Sessions, p: Plan, i: nat, log: seq<Event>, x: set<Key>)
    requires Runnable(ss, p) && i < |p.transfers| && Exclusive(log, x)
    requires
      var t := p.transfers[i];
      t.completion.Operation? && Conn(ss, t.completion.engine) in x ==>
        forall h :: h in Holders(log) ==> h.1 != Conn(ss, t.completion.engine)
    ensures
      var log' := log + CompletionEvents(ss, p, i);
      Exclusive(log', x) && Holders(log') == CompletionHolders(ss, p, i, Holders(log))
  {
    var t := p.transfers[i];
    var l1 := log;
    var s := 2 * i;
    if t.completion.Operation? {
      s := 2 * i + 1;
      Extend(log, Start(Conn(ss, t.completion.engine), s), x);
      l1 := log + [Start(Conn(ss, t.completion.engine), s)];
    }
    if Replayable(ss, p, i) {
      Extend(l1, Drain(s), x);
      assert log + CompletionEvents(ss, p, i) == l1 + [Drain(s)];
    } else {
      assert log + CompletionEvents(ss, p, i) == l1;
    }
  }

  lemma CompletionReleases(ss: Sessions, p: Plan, i: nat, holders: set<(nat, Key)>)
    requires Runnable(ss, p) && ConsistentAliases(ss) && i < |p.transfers| && Released(ss, p, i + 1, holders)
    ensures Released(ss, p, i + 1, CompletionHolders(ss, p, i, holders))
  {
    var t := p.transfers[i];
    if t.completion.Operation? {
      KeyIsExclusive(ss, t.completion.engine);
    }
  }

  lemma TransferKeepsExclusive(ss: Sessions, p: Plan, i: nat, log: seq<Event>)
    requires Runnable(ss, p) && ConsistentAliases(ss) && i < |p.transfers|
    requires Exclusive(log, ExclusiveKeys(ss)) && Released(ss, p, i, Holders(log))
    ensures
      var log' := log + (InputEvents(ss, p, i) + CompletionEvents(ss, p, i));
      Exclusive(log', ExclusiveKeys(ss)) && Released(ss, p, i + 1, Holders(log'))
  {
    var x := ExclusiveKeys(ss);
    var c := Conn(ss, p.transfers[i].source);
    if c in x { TouchedIsNeeded(ss, p, i, c, Holders(log)); }
    InputLog(ss, p, i, log, x);
    InputReleases(ss, p, i, Holders(log));
    CompletionLog(ss, p, i, log + InputEvents(ss, p, i), x);
    CompletionReleases(ss, p, i, InputHolders(ss, p, i, Holders(log)));
    assert log + (InputEvents(ss, p, i) + CompletionEvents(ss, p, i)) ==
           (log + InputEvents(ss, p, i)) + CompletionEvents(ss, p, i);
  }

  lemma LogExclusive(ss: Sessions, p: Plan, n: nat)
    requires Runnable(ss, p) && ConsistentAliases(ss) && n <= |p.transfers|
    ensures Exclusive(Log(ss, p, n), ExclusiveKeys(ss)) && Released(ss, p, n, Holders(Log(ss, p, n)))
  {
    for i := 0 to n
      invariant Exclusive(Log(ss, p, i), ExclusiveKeys(ss)) && Released(ss, p, i, Holders(Log(ss, p, i)))
    {
      TransferKeepsExclusive(ss, p, i, Log(ss, p, i));
    }
  }

  /** Scheduler safety: in every run, completed or stopped after some transfers, a statement starts
      on an exclusive connection only when no earlier stream on that connection is open, aliases
      included. */
  lemma NeverTwoActiveStatements(ss: Sessions, p: Plan)
    requires Runnable(ss, p) && ConsistentAliases(ss)
    ensures Exclusive(FullLog(ss, p), ExclusiveKeys(ss))
    ensures forall n :: 0 <= n <= |p.transfers| ==> Exclusive(Log(ss, p, n), ExclusiveKeys(ss))
  {
    var n := |p.transfers|;
    forall i | 0 <= i <= |p.transfers| ensures Exclusive(Log(ss, p, i), ExclusiveKeys(ss)) { LogExclusive(ss, p, i); }
    LogExclusive(ss, p, n);
    ExtendOpens(Log(ss, p, n), p, n, p.sql.names, ExclusiveKeys(ss));
    Extend(Log(ss, p, n) + Opens(p, n, p.sql.names), Start(Conn(ss, p.target), 2 * n), ExclusiveKeys(ss));
  }

  /** A plan that reads from one alias and executes on another. */
  function Across(a: string, b: string): Plan {
    Plan(b, [Transfer(a, Sql(false, []), "x", Plain)], Sql(false, ["x"]))
  }

  lemma AcrossInput(ss: Sessions, a: string, b: string)
    requires a in ss && b in ss && ss[a].concurrent
    ensures Runnable(ss, Across(a, b)) && Log(ss, Across(a, b), 1) == [Start(Conn(ss, a), 0)]
  {
    var p := Across(a, b);
    assert Count([], "x") == 0 && Count(["x"], "x") == 1;
    assert UsesUpTo(p, 0, "x") == 0 && UsesUpTo(p, 1, "x") == 0 && Uses(p, "x") == 1;
    assert Opens(p, 0, []) == [];
    assert InputEvents(ss, p, 0) == [Start(Conn(ss, a), 0)] && CompletionEvents(ss, p, 0) == [];
    assert Log(ss, p, 0) == [];
  }

  lemma AcrossLog(ss: Sessions, a: string, b: string)
    requires a in ss && b in ss && ss[a].concurrent
    ensures Runnable(ss, Across(a, b))
    ensures FullLog(ss, Across(a, b)) == [Start(Conn(ss, a), 0), Open("x"), Start(Conn(ss, b), 2)]
  {
    var p := Across(a, b);
    AcrossInput(ss, a, b);
    assert p.transfers[0].name == "x" && Produced(p, 1, "x");
    assert ["x"][..0] == [] && Opens(p, 1, []) == [] && Opens(p, 1, ["x"]) == [Open("x")];
  }

  lemma StillHeld(k: Key)
    ensures (0, k) in Holders([Start(k, 0), Open("x")])
  {
    assert [Start(k, 0), Open("x")][..1] == [Start(k, 0)] && [Start(k, 0)][..0] == [];
    assert Holders([Start(k, 0)]) == {(0, k)};
  }

  /** Any two aliases that disagree about one connection defeat the scheduler. */
  lemma InconsistentAliasesCollide(ss: Sessions, a: string, b: string)
    requires a in ss && b in ss && Conn(ss, a) == Conn(ss, b) && ss[a].concurrent && !ss[b].concurrent
    ensures Runnable(ss, Across(a, b)) && !Exclusive(FullLog(ss, Across(a, b)), ExclusiveKeys(ss))
  {
    var k := Conn(ss, b);
    AcrossLog(ss, a, b);
    var log := [Start(k, 0), Open("x"), Start(k, 2)];
    assert log[..2] == [Start(k, 0), Open("x")];
    StillHeld(k);
    assert k in ExclusiveKeys(ss);
  }

  /** Every run of every plan is safe if and only if aliases of one connection agree. */
  lemma SafeExactly(ss: Sessions)
    ensures ConsistentAliases(ss) <==> forall p :: Runnable(ss, p) ==> Exclusive(FullLog(ss, p), ExclusiveKeys(ss))
  {
    if ConsistentAliases(ss) {
      forall p | Runnable(ss, p)
        ensures Exclusive(FullLog(ss, p), ExclusiveKeys(ss))
      {
        NeverTwoActiveStatements(ss, p);
      }
    } else {
      var a, b :| a in ss && b in ss && Conn(ss, a) == Conn(ss, b) && ss[a].concurrent != ss[b].concurrent;
      if ss[a].concurrent { InconsistentAliasesCollide(ss, a, b); } else { InconsistentAliasesCollide(ss, b, a); }
    }
  }

  // ---------------------------------------------------------------- one-shot inputs

  function OpenCount(log: seq<Event>, name: string): nat {
    multiset(log)[Open(name)]
  }

  lemma CountSnoc(names: seq<string>, name: string)
    requires names != []
    ensures Count(names, name) == Count(names[..|names| - 1], name) + if names[|names| - 1] == name then 1 else 0
  {
    assert names == names[..|names| - 1] + [names[|names| - 1]];
  }

  lemma {:induction false} OpensCount(p: Plan, n: nat, names: seq<string>, name: string)
    requires n <= |p.transfers|
    ensures OpenCount(Opens(p, n, names), name) == if Produced(p, n, name) && name in names then 1 else 0
    ensures OpenCount(Opens(p, n, names), name) <= Count(names, name)
  {
    if names != [] {
      var k := |names| - 1;
      OpensCount(p, n, names[..k], name);
      CountSnoc(names, name);
      assert name in names <==> name in names[..k] || name == names[k];
    }
  }

  lemma CountConcat(a: seq<Event>, b: seq<Event>, name: string)
    ensures OpenCount(a + b, name) == OpenCount(a, name) + OpenCount(b, name)
  {
  }

  lemma InputOpens(ss: Sessions, p: Plan, i: nat, name: string)
    requires Runnable(ss, p) && i < |p.transfers|
    ensures OpenCount(InputEvents(ss, p, i), name) <= Count(p.transfers[i].sql.names, name)
  {
    OpensCount(p, i, p.transfers[i].sql.names, name);
  }

  lemma CompletionOpensNothing(ss: Sessions, p: Plan, i: nat, name: string)
    requires Runnable(ss, p) && i < |p.transfers|
    ensures OpenCount(CompletionEvents(ss, p, i), name) == 0
  {
  }

  lemma EventsOpens(ss: Sessions, p: Plan, i: nat, name: string)
    requires Runnable(ss, p) && i < |p.transfers|
    ensures OpenCount(EventsOf(ss, p)(i), name) <= Count(p.transfers[i].sql.names, name)
  {
    InputOpens(ss, p, i, name);
    CompletionOpensNothing(ss, p, i, name);
    CountConcat(InputEvents(ss, p, i), CompletionEvents(ss, p, i), name);
  }

  function Total(counts: nat -> nat, n: nat): nat {
    if n == 0 then 0 else Total(counts, n - 1) + counts(n - 1)
  }

  lemma {:induction false} ChainOpens(events: nat -> seq<Event>, counts: nat -> nat, n: nat, name: string)
    requires forall k: nat :: k < n ==> OpenCount(events(k), name) <= counts(k)
    ensures OpenCount(Chain(events, n), name) <= Total(counts, n)
  {
    if n > 0 {
      ChainOpens(events, counts, n - 1, name);
      CountConcat(Chain(events, n - 1), events(n - 1), name);
    }
  }

  lemma {:induction false} UsesAreTotal(p: Plan, n: nat, name: string, counts: nat -> nat)
    requires n <= |p.transfers| && forall k: nat :: k < n ==> counts(k) == Count(p.transfers[k].sql.names, name)
    ensures UsesUpTo(p, n, name) == Total(counts, n)
  {
    if n > 0 { UsesAreTotal(p, n - 1, name, counts); }
  }

  /** No relation is opened more often than statements name it. */
  lemma LogOpens(ss: Sessions, p: Plan, n: nat, name: string)
    requires Runnable(ss, p) && n <= |p.transfers|
    ensures OpenCount(Log(ss, p, n), name) <= UsesUpTo(p, n, name)
  {
    var events := EventsOf(ss, p);
    var counts := (k: nat) => if k < |p.transfers| then Count(p.transfers[k].sql.names, name) else 0;
    forall k: nat | k < n ensures OpenCount(events(k), name) <= counts(k) { EventsOpens(ss, p, k, name); }
    ChainOpens(events, counts, n, name);
    UsesAreTotal(p, n, name, counts);
  }

  lemma {:induction false} UsesGrow(p: Plan, n: nat, name: string)
    requires n <= |p.transfers|
    ensures UsesUpTo(p, n, name) <= Uses(p, name)
    decreases |p.transfers| - n
  {
    if n < |p.transfers| { UsesGrow(p, n + 1, name); }
  }

  /** Each one-shot input is opened at most once in every run, completed or stopped. */
  lemma OneShotOpenedOnce(ss: Sessions, p: Plan, i: nat)
    requires Runnable(ss, p) && i < |p.transfers| && !Replayable(ss, p, i)
    ensures OpenCount(FullLog(ss, p), p.transfers[i].name) <= 1
    ensures forall n :: 0 <= n <= |p.transfers| ==> OpenCount(Log(ss, p, n), p.transfers[i].name) <= 1
  {
    var n, name := |p.transfers|, p.transfers[i].name;
    forall k | 0 <= k <= n ensures OpenCount(Log(ss, p, k), name) <= 1 {
      LogOpens(ss, p, k, name);
      UsesGrow(p, k, name);
    }
    LogOpens(ss, p, n, name);
    OpensCount(p, n, p.sql.names, name);
  }
}
