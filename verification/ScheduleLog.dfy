/** What a scheduler's log holds, event by event: which statements start and in which order, which
    inputs each of them opens, and which streams are drained. */
module ScheduleLog {
  import opened Text
  import opened Scheduler

  // ---------------------------------------------------------------- reading a plan

  /** The SQL of statement i; the final statement comes after those of the transfers. */
  function SqlOf(p: Plan, i: nat): Sql
    requires i <= |p.transfers|
  {
    if i < |p.transfers| then p.transfers[i].sql else p.sql
  }

  function ConnOf(ss: Sessions, p: Plan, i: nat): Key
    requires Runnable(ss, p) && i <= |p.transfers|
  {
    Conn(ss, if i < |p.transfers| then p.transfers[i].source else p.target)
  }

  /** Statement i is run: only a request without SQL has none. */
  predicate Runs(p: Plan, i: nat)
    requires i <= |p.transfers|
  {
    i < |p.transfers| && p.transfers[i].completion.Request? ==> !p.transfers[i].sql.empty
  }

  /** Statement i is run, names the relation, and an earlier transfer has made it. */
  predicate Reads(p: Plan, i: nat, x: string)
    requires i <= |p.transfers|
  {
    Runs(p, i) && x in SqlOf(p, i).names && exists j :: 0 <= j < i && p.transfers[j].name == x
  }

  /** A later transfer or the final statement works on the connection. */
  predicate UsedAfter(ss: Sessions, p: Plan, i: nat, c: Key)
    requires Runnable(ss, p)
  {
    || Conn(ss, p.target) == c
    || exists j :: i < j < |p.transfers| &&
         (Conn(ss, p.transfers[j].source) == c ||
          (!p.transfers[j].completion.Plain? && Conn(ss, p.transfers[j].completion.engine) == c))
  }

  predicate Occurs(p: Plan, i: nat, k: nat, x: string) {
    i <= |p.transfers| && k < |SqlOf(p, i).names| && SqlOf(p, i).names[k] == x
  }

  /** The relation is named in two places, in one statement or in two. */
  ghost predicate NamedTwice(p: Plan, x: string) {
    exists i: nat, k: nat, j: nat, l: nat :: Occurs(p, i, k, x) && Occurs(p, j, l, x) && (i < j || (i == j && k < l))
  }

  // ---------------------------------------------------------------- segments

  /** The events of statement i; those of a transfer include its completion. */
  function Segment(ss: Sessions, p: Plan, i: nat): seq<Event>
    requires Runnable(ss, p) && i <= |p.transfers|
  {
    if i < |p.transfers| then InputEvents(ss, p, i) + CompletionEvents(ss, p, i)
    else Opens(p, i, p.sql.names) + [Start(Conn(ss, p.target), 2 * i)]
  }

  function Segments(ss: Sessions, p: Plan, n: nat): (r: seq<seq<Event>>)
    requires Runnable(ss, p) && n <= |p.transfers| + 1
    ensures |r| == n && forall i :: 0 <= i < n ==> r[i] == Segment(ss, p, i)
  {
    seq(n, i requires 0 <= i < n => Segment(ss, p, i))
  }

  function Concat(segments: seq<seq<Event>>): seq<Event> {
    if segments == [] then [] else Concat(segments[..|segments| - 1]) + segments[|segments| - 1]
  }

  lemma {:induction false} LogIsSegments(ss: Sessions, p: Plan, n: nat)
    requires Runnable(ss, p) && n <= |p.transfers|
    ensures Log(ss, p, n) == Concat(Segments(ss, p, n))
  {
    if n > 0 {
      LogIsSegments(ss, p, n - 1);
      assert Segments(ss, p, n)[..n - 1] == Segments(ss, p, n - 1);
    }
  }

  lemma FullLogIsSegments(ss: Sessions, p: Plan)
    requires Runnable(ss, p)
    ensures FullLog(ss, p) == Concat(Segments(ss, p, |p.transfers| + 1))
  {
    var n := |p.transfers|;
    LogIsSegments(ss, p, n);
    assert Segments(ss, p, n + 1)[..n] == Segments(ss, p, n);
  }

  // ---------------------------------------------------------------- one segment

  lemma {:induction false} OpensAreOpens(p: Plan, n: nat, names: seq<string>)
    requires n <= |p.transfers|
    ensures forall k :: 0 <= k < |Opens(p, n, names)| ==> Opens(p, n, names)[k].Open?
  {
    if names != [] { OpensAreOpens(p, n, names[..|names| - 1]); }
  }

  /** The inputs that statement i opens before it starts. */
  function Inputs(p: Plan, i: nat): seq<Event>
    requires i <= |p.transfers|
  {
    if Runs(p, i) then Opens(p, i, SqlOf(p, i).names) else []
  }

  lemma InputsExactly(p: Plan, i: nat)
    requires i <= |p.transfers|
    ensures forall k :: 0 <= k < |Inputs(p, i)| ==> Inputs(p, i)[k].Open?
    ensures forall x :: multiset(Inputs(p, i))[Open(x)] == if Reads(p, i, x) then 1 else 0
  {
    if Runs(p, i) {
      OpensAreOpens(p, i, SqlOf(p, i).names);
      forall x ensures multiset(Inputs(p, i))[Open(x)] == if Reads(p, i, x) then 1 else 0 {
        OpensCount(p, i, SqlOf(p, i).names, x);
      }
    }
  }

  /** The input cursor of transfer i is drained before its completion goes on. */
  predicate DrainsCursor(ss: Sessions, p: Plan, i: nat)
    requires Runnable(ss, p) && i < |p.transfers|
  {
    var t := p.transfers[i];
    && Runs(p, i) && !ss[t.source].concurrent
    && ((t.completion.Operation? && Conn(ss, t.completion.engine) == Conn(ss, t.source))
        || UsedAfter(ss, p, i, Conn(ss, t.source)))
  }

  /** The result of transfer i is written to disk. */
  ghost predicate Stored(ss: Sessions, p: Plan, i: nat)
    requires Runnable(ss, p) && i < |p.transfers|
  {
    var t := p.transfers[i];
    || NamedTwice(p, t.name)
    || (t.completion.Operation? && !ss[t.completion.engine].concurrent
        && UsedAfter(ss, p, i, Conn(ss, t.completion.engine)))
  }

  lemma UsedAfterIsNeeded(ss: Sessions, p: Plan, i: nat, c: Key)
    requires Runnable(ss, p) && i < |p.transfers|
    ensures UsedAfter(ss, p, i, c) <==> NeededFrom(ss, p, i + 1, c)
  {
    if j :| i < j < |p.transfers| && Touches(ss, p.transfers[j], c) {
      assert UsedAfter(ss, p, i, c);
    }
    if UsedAfter(ss, p, i, c) && Conn(ss, p.target) != c {
      var j :| i < j < |p.transfers| &&
        (Conn(ss, p.transfers[j].source) == c ||
         (!p.transfers[j].completion.Plain? && Conn(ss, p.transfers[j].completion.engine) == c));
      assert Touches(ss, p.transfers[j], c);
    }
  }

  /** Opens exactly the relations that statement i reads, each once. */
  ghost predicate OpensInputs(p: Plan, i: nat, inputs: seq<Event>)
    requires i <= |p.transfers|
  {
    && (forall k :: 0 <= k < |inputs| ==> inputs[k].Open?)
    && (forall x :: multiset(inputs)[Open(x)] == if Reads(p, i, x) then 1 else 0)
  }

  /** The start of statement i and the drain of its cursor, if needed. */
  ghost function Started(ss: Sessions, p: Plan, i: nat): seq<Event>
    requires Runnable(ss, p) && i <= |p.transfers|
  {
    (if Runs(p, i) then [Start(ConnOf(ss, p, i), 2 * i)] else []) +
    (if i < |p.transfers| && DrainsCursor(ss, p, i) then [Drain(2 * i)] else [])
  }

  /** The start of the dependent operation of transfer i and the drain to disk, if needed. */
  ghost function Completed(ss: Sessions, p: Plan, i: nat): seq<Event>
    requires Runnable(ss, p) && i < |p.transfers|
  {
    var t := p.transfers[i];
    (if t.completion.Operation? then [Start(Conn(ss, t.completion.engine), 2 * i + 1)] else []) +
    (if Stored(ss, p, i) then [Drain(if t.completion.Operation? then 2 * i + 1 else 2 * i)] else [])
  }

  /** What follows the inputs of statement i. */
  ghost function Rest(ss: Sessions, p: Plan, i: nat): seq<Event>
    requires Runnable(ss, p) && i <= |p.transfers|
  {
    Started(ss, p, i) + if i < |p.transfers| then Completed(ss, p, i) else []
  }

  /** The part of the log that belongs to statement i. */
  ghost predicate IsSegment(ss: Sessions, p: Plan, i: nat, s: seq<Event>)
    requires Runnable(ss, p) && i <= |p.transfers|
  {
    exists inputs :: OpensInputs(p, i, inputs) && s == inputs + Rest(ss, p, i)
  }

  lemma InputExactly(ss: Sessions, p: Plan, i: nat)
    requires Runnable(ss, p) && i < |p.transfers|
    ensures InputEvents(ss, p, i) == Inputs(p, i) + Started(ss, p, i)
  {
    UsedAfterIsNeeded(ss, p, i, Conn(ss, p.transfers[i].source));
    assert DrainsCursor(ss, p, i) <==> !ClosedRequest(p.transfers[i]) && DrainsInput(ss, p, i);
  }

  lemma CompletionExactly(ss: Sessions, p: Plan, i: nat)
    requires Runnable(ss, p) && i < |p.transfers|
    ensures CompletionEvents(ss, p, i) == Completed(ss, p, i)
  {
    StoredIsReplayable(ss, p, i);
  }

  lemma SegmentExactly(ss: Sessions, p: Plan, i: nat)
    requires Runnable(ss, p) && i <= |p.transfers|
    ensures IsSegment(ss, p, i, Segment(ss, p, i))
  {
    InputsExactly(p, i);
    if i < |p.transfers| {
      InputExactly(ss, p, i);
      CompletionExactly(ss, p, i);
    }
    assert Segment(ss, p, i) == Inputs(p, i) + Rest(ss, p, i);
    assert OpensInputs(p, i, Inputs(p, i));
  }

  /** A log is the statements one after the other: each opens exactly the relations that it reads, each
      once, then starts, and then come the drains and the dependent statement of its transfer. */
  ghost predicate IsLog(ss: Sessions, p: Plan, n: nat, log: seq<Event>)
    requires Runnable(ss, p) && n <= |p.transfers| + 1
  {
    exists segments :: |segments| == n && log == Concat(segments) && forall i :: 0 <= i < n ==>
      IsSegment(ss, p, i, segments[i])
  }

  /** The log of a complete run, and of one that stops after n transfers. */
  lemma LogExactly(ss: Sessions, p: Plan)
    requires Runnable(ss, p)
    ensures IsLog(ss, p, |p.transfers| + 1, FullLog(ss, p))
    ensures forall n :: 0 <= n <= |p.transfers| ==> IsLog(ss, p, n, Log(ss, p, n))
  {
    FullLogIsSegments(ss, p);
    SegmentsExactly(ss, p, |p.transfers| + 1);
    forall n | 0 <= n <= |p.transfers| ensures IsLog(ss, p, n, Log(ss, p, n)) {
      LogIsSegments(ss, p, n);
      SegmentsExactly(ss, p, n);
    }
  }

  lemma SegmentsExactly(ss: Sessions, p: Plan, n: nat)
    requires Runnable(ss, p) && n <= |p.transfers| + 1
    ensures IsLog(ss, p, n, Concat(Segments(ss, p, n)))
  {
    forall i | 0 <= i < n ensures IsSegment(ss, p, i, Segments(ss, p, n)[i]) { SegmentExactly(ss, p, i); }
  }

  // ---------------------------------------------------------------- how often an input is opened

  /** The statements before n that read the relation. */
  function Readers(p: Plan, n: nat, x: string): set<nat>
    requires n <= |p.transfers| + 1
  {
    set i: nat | i < n && Reads(p, i, x)
  }

  lemma RestOpensNothing(ss: Sessions, p: Plan, i: nat, x: string)
    requires Runnable(ss, p) && i <= |p.transfers|
    ensures multiset(Rest(ss, p, i))[Open(x)] == 0
  {
    var started, completed := Started(ss, p, i), if i < |p.transfers| then Completed(ss, p, i) else [];
    assert forall k :: 0 <= k < |started| ==> started[k] != Open(x);
    assert forall k :: 0 <= k < |completed| ==> completed[k] != Open(x);
    assert Open(x) !in started && Open(x) !in completed;
    assert multiset(Rest(ss, p, i)) == multiset(started) + multiset(completed);
  }

  lemma SegmentOpens(ss: Sessions, p: Plan, i: nat, s: seq<Event>, x: string)
    requires Runnable(ss, p) && i <= |p.transfers| && IsSegment(ss, p, i, s)
    ensures OpenCount(s, x) == if Reads(p, i, x) then 1 else 0
  {
    var inputs :| OpensInputs(p, i, inputs) && s == inputs + Rest(ss, p, i);
    RestOpensNothing(ss, p, i, x);
    CountConcat(inputs, Rest(ss, p, i), x);
  }

  lemma {:induction false} SegmentsOpen(ss: Sessions, p: Plan, n: nat, segments: seq<seq<Event>>, x: string)
    requires Runnable(ss, p) && n <= |p.transfers| + 1 && |segments| == n
    requires forall i :: 0 <= i < n ==> IsSegment(ss, p, i, segments[i])
    ensures OpenCount(Concat(segments), x) == |Readers(p, n, x)|
  {
    if n == 0 {
      assert Readers(p, 0, x) == {};
    } else {
      SegmentsOpen(ss, p, n - 1, segments[..n - 1], x);
      SegmentOpens(ss, p, n - 1, segments[n - 1], x);
      CountConcat(Concat(segments[..n - 1]), segments[n - 1], x);
      NextReader(p, n - 1, x);
      assert Concat(segments) == Concat(segments[..n - 1]) + segments[n - 1];
    }
  }

  lemma NextReader(p: Plan, n: nat, x: string)
    requires n <= |p.transfers|
    ensures |Readers(p, n + 1, x)| == |Readers(p, n, x)| + if Reads(p, n, x) then 1 else 0
  {
    assert Readers(p, n + 1, x) == Readers(p, n, x) + if Reads(p, n, x) then {n} else {};
  }

  /** In a complete run a relation is opened exactly once by each statement that reads it. */
  lemma OpenedExactly(ss: Sessions, p: Plan, x: string)
    requires Runnable(ss, p)
    ensures OpenCount(FullLog(ss, p), x) == |Readers(p, |p.transfers| + 1, x)|
  {
    LogExactly(ss, p);
    var n := |p.transfers| + 1;
    var segments :| |segments| == n && FullLog(ss, p) == Concat(segments) && forall i :: 0 <= i < n ==>
      IsSegment(ss, p, i, segments[i]);
    SegmentsOpen(ss, p, n, segments, x);
  }

  // ---------------------------------------------------------------- occurrences

  lemma {:induction false} CountPositive(names: seq<string>, x: string)
    ensures Count(names, x) > 0 <==> exists k :: 0 <= k < |names| && names[k] == x
    ensures Count(names, x) > 1 <==> exists k, l :: 0 <= k < l < |names| && names[k] == x && names[l] == x
  {
    if names != [] {
      var n := |names| - 1;
      CountPositive(names[..n], x);
      CountSnoc(names, x);
      assert forall k :: 0 <= k < n ==> names[..n][k] == names[k];
    }
  }

  /** The relation is named in statement i. */
  ghost predicate Somewhere(p: Plan, i: nat, x: string) {
    exists k: nat :: Occurs(p, i, k, x)
  }

  lemma CountAt(p: Plan, i: nat, x: string)
    requires i <= |p.transfers|
    ensures Count(SqlOf(p, i).names, x) > 0 <==> Somewhere(p, i, x)
    ensures Count(SqlOf(p, i).names, x) > 1 <==>
      exists k: nat, l: nat :: k < l && Occurs(p, i, k, x) && Occurs(p, i, l, x)
  {
    CountPositive(SqlOf(p, i).names, x);
    if k :| 0 <= k < |SqlOf(p, i).names| && SqlOf(p, i).names[k] == x { assert Occurs(p, i, k, x); }
    if k, l :| 0 <= k < l < |SqlOf(p, i).names| && SqlOf(p, i).names[k] == x && SqlOf(p, i).names[l] == x {
      assert Occurs(p, i, k, x) && Occurs(p, i, l, x);
    }
  }

  ghost predicate TwiceBefore(p: Plan, n: nat, x: string) {
    exists i: nat, k: nat, j: nat, l: nat ::
      j < n && Occurs(p, i, k, x) && Occurs(p, j, l, x) && (i < j || (i == j && k < l))
  }

  lemma {:induction false} UsesBefore(p: Plan, n: nat, x: string)
    requires n <= |p.transfers|
    ensures UsesUpTo(p, n, x) > 0 <==> exists i: nat :: i < n && Somewhere(p, i, x)
    ensures UsesUpTo(p, n, x) > 1 <==> TwiceBefore(p, n, x)
  {
    if n > 0 {
      UsesBefore(p, n - 1, x);
      OneMore(p, n - 1, x, UsesUpTo(p, n - 1, x));
    }
  }

  lemma OneMore(p: Plan, n: nat, x: string, before: nat)
    requires n <= |p.transfers|
    requires before > 0 <==> exists i: nat :: i < n && Somewhere(p, i, x)
    requires before > 1 <==> TwiceBefore(p, n, x)
    ensures
      var now := before + Count(SqlOf(p, n).names, x);
      && (now > 0 <==> exists i: nat :: i < n + 1 && Somewhere(p, i, x))
      && (now > 1 <==> TwiceBefore(p, n + 1, x))
  {
    CountAt(p, n, x);
    var here := Count(SqlOf(p, n).names, x);
    if before > 0 && here > 0 {
      var i: nat :| i < n && Somewhere(p, i, x);
      var k: nat :| Occurs(p, i, k, x);
      var l: nat :| Occurs(p, n, l, x);
      assert TwiceBefore(p, n + 1, x);
    }
    if here > 1 {
      var k: nat, l: nat :| k < l && Occurs(p, n, k, x) && Occurs(p, n, l, x);
      assert TwiceBefore(p, n + 1, x);
    }
    if before > 1 { assert TwiceBefore(p, n + 1, x); }
    if TwiceBefore(p, n + 1, x) {
      var i: nat, k: nat, j: nat, l: nat :|
        j < n + 1 && Occurs(p, i, k, x) && Occurs(p, j, l, x) && (i < j || (i == j && k < l));
      if j < n { assert TwiceBefore(p, n, x); }
      assert Somewhere(p, i, x) && Somewhere(p, j, x);
    }
  }

  lemma UsesTwice(p: Plan, x: string)
    ensures Uses(p, x) > 1 <==> NamedTwice(p, x)
  {
    var n := |p.transfers|;
    UsesBefore(p, n, x);
    OneMore(p, n, x, UsesUpTo(p, n, x));
    assert TwiceBefore(p, n + 1, x) <==> NamedTwice(p, x);
  }

  // ---------------------------------------------------------------- the executor

  /** Runs the plan; a repeated relation name stops it. The log is exactly that of the statements, and a
      relation is registered as replayable exactly when it is stored. Whatever happens, what was done is
      safe: no two statements on an exclusive connection, and no one-shot input opened twice. */
  method Execute(ss: Sessions, p: Plan) returns (ok: bool, log: seq<Event>, replayable: map<string, bool>, reached: nat)
    requires Runnable(ss, p)
    ensures ok <==> DistinctNames(p, |p.transfers|)
    ensures ok ==> log == FullLog(ss, p) && IsLog(ss, p, |p.transfers| + 1, log)
    ensures ok ==> forall i :: 0 <= i < |p.transfers| ==>
      p.transfers[i].name in replayable && (replayable[p.transfers[i].name] <==> Stored(ss, p, i))
    ensures !ok ==> reached <= |p.transfers| && log == Log(ss, p, reached) && IsLog(ss, p, reached, log)
    ensures ConsistentAliases(ss) ==> Exclusive(log, ExclusiveKeys(ss))
    ensures forall i :: 0 <= i < |p.transfers| && !Stored(ss, p, i) ==> OpenCount(log, p.transfers[i].name) <= 1
  {
    EventsTrace(ss, p, |p.transfers|);
    ok, log, replayable, reached := RunTransfers(ss, p, EventsOf(ss, p));
    if ok {
      var opens := OpenInputs(p, |p.transfers|, replayable.Keys, p.sql.names);
      log := log + opens + [Start(Conn(ss, p.target), 2 * |p.transfers|)];
    }
    forall i | 0 <= i < |p.transfers| ensures Stored(ss, p, i) <==> Replayable(ss, p, i) {
      StoredIsReplayable(ss, p, i);
    }
    LogIsSafe(ss, p, log, reached);
    LogExactly(ss, p);
  }

  lemma StoredIsReplayable(ss: Sessions, p: Plan, i: nat)
    requires Runnable(ss, p) && i < |p.transfers|
    ensures Stored(ss, p, i) <==> Replayable(ss, p, i)
  {
    var t := p.transfers[i];
    if t.completion.Operation? { UsedAfterIsNeeded(ss, p, i, Conn(ss, t.completion.engine)); }
    UsesTwice(p, t.name);
  }

  lemma LogIsSafe(ss: Sessions, p: Plan, log: seq<Event>, reached: nat)
    requires Runnable(ss, p) && (log == FullLog(ss, p) || (reached <= |p.transfers| && log == Log(ss, p, reached)))
    ensures ConsistentAliases(ss) ==> Exclusive(log, ExclusiveKeys(ss))
    ensures forall i :: 0 <= i < |p.transfers| && !Replayable(ss, p, i) ==> OpenCount(log, p.transfers[i].name) <= 1
  {
    if ConsistentAliases(ss) { NeverTwoActiveStatements(ss, p); }
    forall i | 0 <= i < |p.transfers| && !Replayable(ss, p, i) ensures OpenCount(log, p.transfers[i].name) <= 1 {
      OneShotOpenedOnce(ss, p, i);
    }
  }
}
