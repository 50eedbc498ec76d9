/** Managed graph engines over one database. Every engine caches the graph of one revision and
    may have one transaction, explicit or automatic. Storage calls answer or fail as the
    arbitrary function `fails` says. */
module ManagedEngine {
  import opened Text
  import opened GraphRecords

  /** A transaction of one connection: its snapshot and its own view of the data. */
  datatype Txn = Txn(base: Db, view: Db, wrote: bool)
  /** A mutating statement that is being executed. */
  datatype Statement = Statement(before: Graph, automatic: bool)
  datatype Start = Started | Refused | Recovered | Stranded

  function Clean(c: Contents): Graph {
    Graph(c, NOTHING)
  }

  class Database {
    var committed: Db
    /** Every version ever committed, by revision. */
    ghost var history: map<int, Db>
    /** The engine whose open transaction has updated the revision row. */
    var writer: Option<nat>

    ghost predicate Valid()
      reads this
    {
      && committed.revision in history && history[committed.revision] == committed
      && forall r :: r in history ==> r <= committed.revision && history[r].revision == r
    }

    constructor (initial: Contents)
      ensures Valid() && committed == Db(0, initial, map[]) && history == map[0 := committed] && writer == None
    {
      committed := Db(0, initial, map[]);
      history := map[0 := Db(0, initial, map[])];
      writer := None;
    }
  }

  /** Only the holder of the revision row publishes, and it started from what is committed. */
  ghost predicate TxnOk(id: nat, txn: Option<Txn>, committed: Db, history: map<int, Db>, writer: Option<nat>) {
    && (writer == Some(id) <==> txn.Some? && txn.value.wrote)
    && (txn.Some? ==>
          && txn.value.base.revision in history && history[txn.value.base.revision] == txn.value.base
          && (if txn.value.wrote then txn.value.base == committed && txn.value.view.revision > committed.revision
              else txn.value.view == txn.value.base))
  }

  /** The cache of a revision is the committed graph of that revision. */
  ghost predicate CachedVersion(graph: Graph, loaded: Option<int>, history: map<int, Db>) {
    loaded.Some? ==> loaded.value in history && graph == Clean(StateOf(history[loaded.value]))
  }

  /** The cached revision is one that was committed. */
  ghost predicate Known(loaded: Option<int>, history: map<int, Db>) {
    loaded.Some? ==> loaded.value in history
  }

  /** The cache is the transaction's own view. */
  ghost predicate CachedView(graph: Graph, loaded: Option<int>, txn: Option<Txn>) {
    txn.Some? && loaded == Some(txn.value.view.revision) && graph == Clean(StateOf(txn.value.view))
  }

  /** Nothing is published, or one new version with a higher revision. */
  ghost predicate Advances(c: Db, h: map<int, Db>, c': Db, h': map<int, Db>) {
    (c' == c && h' == h) || (c'.revision > c.revision && h' == h[c'.revision := c'])
  }

  /** What one engine may do to the shared database while others have transactions open. */
  ghost predicate Yields(id: nat, c: Db, h: map<int, Db>, w: Option<nat>, c': Db, h': map<int, Db>, w': Option<nat>) {
    && (forall r :: r in h ==> r in h' && h'[r] == h[r])
    && Advances(c, h, c', h')
    && (w.Some? && w != Some(id) ==> w' == w && c' == c)
    && (w' == w || w' == None || w' == Some(id))
  }

  lemma VersionStays(graph: Graph, loaded: Option<int>, h: map<int, Db>, h': map<int, Db>)
    requires forall r :: r in h ==> r in h' && h'[r] == h[r]
    ensures CachedVersion(graph, loaded, h) ==> CachedVersion(graph, loaded, h')
    ensures Known(loaded, h) ==> Known(loaded, h')
  {
    if loaded.Some? && Known(loaded, h) {
      var r: int := loaded.value;
      assert r in h && h'[r] == h[r];
    }
  }

  /** What another engine does to the database leaves a transaction and a cache intact. */
  lemma Undisturbed(id: nat, other: nat, txn: Option<Txn>, graph: Graph, loaded: Option<int>,
                    c: Db, h: map<int, Db>, w: Option<nat>, c': Db, h': map<int, Db>, w': Option<nat>)
    requires id != other && TxnOk(id, txn, c, h, w) && Yields(other, c, h, w, c', h', w')
    ensures TxnOk(id, txn, c', h', w')
    ensures CachedVersion(graph, loaded, h) ==> CachedVersion(graph, loaded, h')
    ensures Known(loaded, h) ==> Known(loaded, h')
  {
    if txn.Some? { assert txn.value.base.revision in h; }
    VersionStays(graph, loaded, h, h');
  }

  /** A committed transaction installs its view as one new version, or nothing if it only read. */
  ghost predicate Published(t: Txn, c: Db, h: map<int, Db>, c': Db, h': map<int, Db>) {
    if t.wrote then c' == t.view && h' == h[t.view.revision := t.view] else c' == c && h' == h
  }

  /** From call c on: reading the revision and undoing fail, or, if the data must be read as well,
      reading it and undoing fail. */
  ghost predicate NeitherWorks(fails: nat -> bool, c: nat, outdated: bool) {
    if fails(c) then fails(c + 1) else outdated && fails(c + 1) && fails(c + 2)
  }

  /** BEGIN answers at call c, and then refresh and rollback fail. */
  ghost predicate DoubleFault(fails: nat -> bool, c: nat, outdated: bool) {
    !fails(c) && NeitherWorks(fails, c + 1, outdated)
  }

  /** Two calls in succession failed among those from a to b. */
  ghost predicate FaultyPair(fails: nat -> bool, a: nat, b: nat) {
    exists k, l :: a <= k < l < b && l == k + 1 && fails(k) && fails(l)
  }

  class GraphEngine {
    const db: Database
    const id: nat
    const fails: nat -> bool
    var calls: nat
    var txn: Option<Txn>
    var graph: Graph
    var loaded: Option<int>
    var inTransaction: bool
    var failed: bool
    var statement: Option<Statement>

    ghost predicate TxnValid()
      reads this, db
    {
      db.Valid() && TxnOk(id, txn, db.committed, db.history, db.writer)
    }

    ghost predicate Wrote()
      reads this
    {
      txn.Some? && txn.value.wrote
    }

    /** The cached revision names the cached graph: a committed version, or the view of the open
        transaction once it has written. Nothing is said of a failed transaction. */
    ghost predicate Sound()
      reads this, db
    {
      && (!inTransaction || (!failed && !Wrote()) ==> CachedVersion(graph, loaded, db.history))
      && (inTransaction && !failed && Wrote() ==> CachedView(graph, loaded, txn))
    }

    /** Inside a transaction the cached revision is that of its view. */
    ghost predicate Fresh()
      reads this
    {
      inTransaction && !failed ==> txn.Some? && loaded == Some(txn.value.view.revision)
    }

    /** Cache coherence: outside a transaction the cache is the committed graph of its revision,
        inside one it is the transaction's view. */
    ghost predicate Coherent()
      reads this, db
    {
      && (!inTransaction ==> CachedVersion(graph, loaded, db.history))
      && (inTransaction && !failed ==> CachedView(graph, loaded, txn))
    }

    /** What holds of every engine at all times, coherent or not. */
    ghost predicate Valid()
      reads this, db
    {
      && TxnValid()
      && (!inTransaction || (!failed && !Wrote()) ==> Known(loaded, db.history))
      && (inTransaction && !failed && Wrote() ==> loaded == Some(txn.value.view.revision))
      && (statement.Some? ==> inTransaction && !failed && statement.value.before == graph)
      && (statement.Some? && statement.value.automatic ==> Fresh())
    }

    lemma CoherentExactly()
      requires Valid()
      ensures Coherent() <==> Sound() && Fresh()
    {
    }

    constructor (db: Database, id: nat, fails: nat -> bool)
      requires db.Valid() && db.writer != Some(id)
      ensures this.db == db && this.id == id && this.fails == fails && calls == 0
      ensures Valid() && Coherent() && !inTransaction && !failed && statement == None && loaded == None && txn == None
    {
      this.db := db;
      this.id := id;
      this.fails := fails;
      calls := 0;
      txn := None;
      graph := Clean(map[]);
      loaded := None;
      inTransaction := false;
      failed := false;
      statement := None;
    }

    /** No storage call since call c has failed. */
    ghost predicate Answered(c: nat)
      reads this
    {
      forall k :: c <= k < calls ==> !fails(k)
    }

    /** The transaction holds the revision row, or can get it. */
    ghost predicate MayWrite()
      reads this, db
    {
      txn.Some? && (txn.value.wrote || (db.writer == None && db.committed == txn.value.base))
    }

    method Answers() returns (ok: bool)
      modifies this`calls
      ensures ok <==> !fails(old(calls))
      ensures calls == old(calls) + 1
    {
      ok := !fails(calls);
      calls := calls + 1;
    }

    // -------------------------------------------------------------- storage statements

    method SqlBegin() returns (ok: bool)
      requires TxnValid()
      modifies this`calls, this`txn
      ensures TxnValid() && calls == old(calls) + 1
      ensures ok <==> old(txn).None? && !fails(old(calls))
      ensures txn == if ok then Some(Txn(db.committed, db.committed, false)) else old(txn)
    {
      ok := Answers();
      ok := ok && txn.None?;
      if ok {
        txn := Some(Txn(db.committed, db.committed, false));
      }
    }

    /** Publishes the view. A failed COMMIT may or may not have ended the transaction. */
    method SqlCommit() returns (ok: bool)
      requires TxnValid()
      modifies this`calls, this`txn, db
      ensures calls > old(calls) && (ok ==> calls == old(calls) + 1)
      ensures TxnValid() &&
        Yields(id, old(db.committed), old(db.history), old(db.writer), db.committed, db.history, db.writer)
      ensures ok ==>
        old(txn).Some? && txn.None? &&
        Published(old(txn).value, old(db.committed), old(db.history), db.committed, db.history)
      ensures !ok ==>
        db.committed == old(db.committed) && db.history == old(db.history) && (txn == old(txn) || txn.None?)
      ensures ok <==> old(txn).Some? && !fails(old(calls))
    {
      ok := Answers();
      if ok && txn.Some? {
        if txn.value.wrote {
          db.committed := txn.value.view;
          db.history := db.history[txn.value.view.revision := txn.value.view];
          db.writer := None;
        }
        txn := None;
      } else {
        ok := false;
        var gone := Answers();
        if gone {
          Discard();
        }
      }
    }

    method Discard()
      requires TxnValid()
      modifies this`txn, db`writer
      ensures TxnValid() && txn.None?
      ensures Yields(id, db.committed, db.history, old(db.writer), db.committed, db.history, db.writer)
    {
      if db.writer == Some(id) {
        db.writer := None;
      }
      txn := None;
    }

    /** False only for an error other than "no transaction is active". */
    method SqlRollback() returns (ok: bool)
      requires TxnValid()
      modifies this`calls, this`txn, db`writer
      ensures calls == old(calls) + 1
      ensures TxnValid()
      ensures Yields(id, db.committed, db.history, old(db.writer), db.committed, db.history, db.writer)
      ensures ok <==> old(txn).None? || !fails(old(calls))
      ensures if ok then txn.None? else txn == old(txn) && db.writer == old(db.writer)
    {
      ok := Answers();
      ok := ok || txn.None?;
      if ok {
        Discard();
      }
    }

    /** Locks the revision row: fails when another engine holds it or has committed since. */
    method AdvanceRevision() returns (ok: bool)
      requires TxnValid()
      modifies this`calls, this`txn, db`writer
      ensures calls == old(calls) + 1 && (ok <==> old(MayWrite()) && !fails(old(calls)))
      ensures TxnValid()
      ensures Yields(id, db.committed, db.history, old(db.writer), db.committed, db.history, db.writer)
      ensures ok ==> old(txn).Some? && txn == Some(Txn(old(txn).value.base,
        old(txn).value.view.(revision := old(txn).value.view.revision + 1), true))
      ensures !ok ==> txn == old(txn) && db.writer == old(db.writer)
    {
      ok := Answers();
      ok := ok && txn.Some? && (txn.value.wrote || (db.writer == None && db.committed == txn.value.base));
      if ok {
        txn := Some(Txn(txn.value.base, txn.value.view.(revision := txn.value.view.revision + 1), true));
        db.writer := Some(id);
      }
    }

    // -------------------------------------------------------------- cache

    /** How many storage calls a refresh makes: the revision, and the data if it is another one. */
    function Needed(c: nat, cached: Option<int>, revision: int): nat {
      if fails(c) || cached == Some(revision) then 1 else 2
    }

    /** The graph is reloaded when the snapshot has another revision, and then it is right. */
    method RefreshSnapshot() returns (ok: bool)
      requires TxnValid() && txn.Some?
      modifies this`calls, this`graph, this`loaded
      ensures ok ==> loaded == Some(txn.value.view.revision)
      ensures ok && old(loaded) != loaded ==> graph == Clean(StateOf(txn.value.view))
      ensures !ok || old(loaded) == loaded ==> graph == old(graph) && loaded == old(loaded)
      ensures ok <==>
        !fails(old(calls)) && (old(loaded) == Some(txn.value.view.revision) || !fails(old(calls) + 1))
      ensures calls == old(calls) + Needed(old(calls), old(loaded), txn.value.view.revision)
    {
      ok := Answers();
      if !ok || loaded == Some(txn.value.view.revision) {
        return;
      }
      ok := Answers();
      if !ok {
        return;
      }
      graph := Clean(StateOf(txn.value.view));
      loaded := Some(txn.value.view.revision);
    }

    /** One snapshot supplies revision, checkpoint and records, even outside a transaction. The cache
        afterwards is sound if it was, or if it was reloaded or dropped. */
    method Refresh() returns (ok: bool)
      requires TxnValid() && Known(loaded, db.history) && (inTransaction ==> txn.Some? && !txn.value.wrote)
      modifies this`calls, this`graph, this`loaded, this`txn, db
      ensures calls >= old(calls)
      ensures ok <==> (inTransaction || old(txn).None?) && Answered(old(calls))
      ensures TxnValid() && Known(loaded, db.history)
      ensures Yields(id, old(db.committed), old(db.history), old(db.writer), db.committed, db.history, db.writer)
      ensures db.committed == old(db.committed) && db.history == old(db.history)
      ensures inTransaction ==> txn == old(txn) && db.writer == old(db.writer)
      ensures inTransaction && ok ==> loaded == Some(txn.value.view.revision)
      ensures inTransaction && !ok ==> loaded == old(loaded) && graph == old(graph)
      ensures !inTransaction && ok ==> loaded == Some(db.committed.revision) && txn.None?
      ensures loaded == old(loaded) && loaded.Some? ==> graph == old(graph)
      ensures loaded != old(loaded) ==> CachedVersion(graph, loaded, db.history)
      ensures inTransaction ==>
        (ok <==> !fails(old(calls)) && (old(loaded) == Some(txn.value.view.revision) || !fails(old(calls) + 1)))
      ensures inTransaction ==> calls == old(calls) + Needed(old(calls), old(loaded), txn.value.view.revision)
    {
      var automatic := !inTransaction;
      if automatic {
        ok := SqlBegin();
        if !ok {
          return false;
        }
      }
      ok := RefreshSnapshot();
      if automatic {
        if ok {
          ok := SqlCommit();
          if !ok {
            var _ := SqlRollback();
            loaded := None;
          }
        } else {
          var _ := SqlRollback();
        }
      }
    }

    // -------------------------------------------------------------- transactions

    /** A begin now would be left open by a double fault: BEGIN answers, the refresh fails at one of
        its calls and the rollback that follows fails too. */
    ghost predicate Strands()
      reads this, db
    {
      !inTransaction && txn.None? && DoubleFault(fails, calls, loaded != Some(db.committed.revision))
    }

    /** The same with an outdated cache, which the open transaction then goes on to use. */
    ghost predicate Misleads()
      reads this, db
    {
      Strands() && loaded != Some(db.committed.revision)
    }

    /** A transaction that starts is fresh. If both the refresh and the rollback that should undo the
        transaction fail, it stays open with the old cache, and is fresh exactly when the cached
        revision happens to be the current one. The cache is sound if it was. */
    method Begin() returns (r: Start)
      requires Valid() && statement.None?
      modifies this, db
      ensures calls >= old(calls)
      ensures r == Started <==> !old(inTransaction) && old(txn).None? && Answered(old(calls))
      ensures Valid() && statement.None? && db.committed == old(db.committed) && db.history == old(db.history)
      ensures Yields(id, old(db.committed), old(db.history), old(db.writer), db.committed, db.history, db.writer)
      ensures old(Sound()) ==> Sound()
      ensures old(inTransaction) ==> r == Refused
      ensures r == Started ==>
        inTransaction && !failed && Fresh() && txn == Some(Txn(db.committed, db.committed, false))
      ensures r == Started && old(loaded) != Some(db.committed.revision) ==> Sound()
      ensures r == Started && old(loaded) == Some(db.committed.revision) ==> graph == old(graph)
      ensures r == Refused ==>
        inTransaction == old(inTransaction) && failed == old(failed) && txn == old(txn) && graph == old(graph) &&
          loaded == old(loaded)
      ensures r == Recovered ==> !inTransaction && Coherent()
      ensures r == Stranded ==>
        && inTransaction && !failed && txn == Some(Txn(db.committed, db.committed, false))
        && graph == old(graph) && loaded == old(loaded) && (Fresh() <==> old(loaded) == Some(db.committed.revision))
      ensures r == Stranded <==> old(Strands())
      ensures r == Stranded ==> FaultyPair(fails, old(calls), calls)
      ensures !old(inTransaction) ==> (Fresh() <==> !old(Misleads()))
    {
      if inTransaction {
        return Refused;
      }
      var ok := SqlBegin();
      if !ok {
        return Refused;
      }
      inTransaction := true;
      failed := false;
      r := RefreshBegun();
    }

    /** Refreshes a transaction that has just begun, or undoes it. */
    method RefreshBegun() returns (r: Start)
      requires Valid() && statement.None? && inTransaction && !failed &&
        txn == Some(Txn(db.committed, db.committed, false))
      modifies this, db
      ensures Valid() && statement.None? && db.committed == old(db.committed) && db.history == old(db.history)
      ensures Yields(id, old(db.committed), old(db.history), old(db.writer), db.committed, db.history, db.writer)
      ensures calls > old(calls) && (r == Started <==> Answered(old(calls))) && r != Refused
      ensures r == Started ==> inTransaction && !failed && Fresh() && txn == old(txn)
      ensures r == Started && old(loaded) != Some(db.committed.revision) ==> Sound()
      ensures r == Started && old(loaded) == Some(db.committed.revision) ==> graph == old(graph)
      ensures r == Recovered ==> !inTransaction && Coherent()
      ensures r == Stranded ==>
        && inTransaction && !failed && txn == old(txn) && graph == old(graph) && loaded == old(loaded)
        && FaultyPair(fails, old(calls), calls)
      ensures r == Stranded <==> NeitherWorks(fails, old(calls), old(loaded) != Some(db.committed.revision))
    {
      var ok := Refresh();
      if ok {
        return Started;
      }
      ghost var c := calls - 1;
      assert fails(c);
      r := AbandonBegin();
      assert r == Stranded ==> fails(c) && fails(c + 1);
    }

    /** Undoes a transaction whose refresh failed. */
    method AbandonBegin() returns (r: Start)
      requires Valid() && statement.None? && inTransaction && !failed &&
        txn == Some(Txn(db.committed, db.committed, false))
      modifies this, db
      ensures calls >= old(calls)
      ensures Valid() && statement.None? && db.committed == old(db.committed) && db.history == old(db.history)
      ensures Yields(id, old(db.committed), old(db.history), old(db.writer), db.committed, db.history, db.writer)
      ensures r == Recovered ==> !inTransaction && Coherent()
      ensures r == Recovered || r == Stranded
      ensures r == Stranded ==>
        inTransaction && !failed && txn == old(txn) && graph == old(graph) && loaded == old(loaded)
      ensures r == Stranded <==> fails(old(calls))
      ensures calls > old(calls)
    {
      var undone := SqlRollback();
      if !undone {
        return Stranded;
      }
      var _ := FinishRollback();
      return Recovered;
    }

    /** After a commit the engine is coherent exactly when its cache was sound, fresh or not. */
    method Commit() returns (ok: bool)
      requires Valid() && statement.None?
      modifies this`calls, this`txn, this`inTransaction, this`failed, db
      ensures calls >= old(calls)
      ensures ok ==> old(txn).Some?
      ensures old(inTransaction) && !old(failed) && old(txn).Some? && Answered(old(calls)) ==> ok
      ensures Valid() && statement.None?
      ensures Yields(id, old(db.committed), old(db.history), old(db.writer), db.committed, db.history, db.writer)
      ensures ok ==> old(inTransaction) && !old(failed) && !inTransaction && old(txn).Some?
      ensures ok ==> Published(old(txn).value, old(db.committed), old(db.history), db.committed, db.history)
      ensures ok ==> (Coherent() <==> old(Sound()))
      ensures !ok ==>
        db.committed == old(db.committed) && db.history == old(db.history) && inTransaction == old(inTransaction)
      ensures !ok && inTransaction ==> failed
      ensures !inTransaction ==> failed == old(failed)
      ensures !ok && !inTransaction ==> txn == old(txn)
    {
      if !inTransaction || failed {
        return false;
      }
      ok := SqlCommit();
      if !ok {
        failed := true;
        return false;
      }
      inTransaction := false;
    }

    /** After the storage transaction is gone: forget the cache and read the committed graph. */
    method FinishRollback() returns (ok: bool)
      requires TxnValid() && txn.None? && statement.None?
      modifies this`calls, this`graph, this`loaded, this`txn, this`inTransaction, this`failed, db
      ensures calls >= old(calls)
      ensures ok <==> Answered(old(calls))
      ensures Valid() && Coherent() && !inTransaction && !failed
      ensures Yields(id, old(db.committed), old(db.history), old(db.writer), db.committed, db.history, db.writer)
      ensures db.committed == old(db.committed) && db.history == old(db.history)
      ensures ok ==> graph == Clean(StateOf(db.committed)) && loaded == Some(db.committed.revision)
    {
      inTransaction := false;
      failed := false;
      loaded := None;
      ok := Refresh();
    }

    /** Success gives the committed graph; the only failures that change nothing are those of the
        storage and the absence of a transaction. */
    method Rollback() returns (ok: bool)
      requires Valid() && statement.None?
      modifies this, db
      ensures calls >= old(calls)
      ensures ok ==> old(inTransaction)
      ensures old(inTransaction) && Answered(old(calls)) ==> ok
      ensures Valid() && statement.None? && db.committed == old(db.committed) && db.history == old(db.history)
      ensures Yields(id, old(db.committed), old(db.history), old(db.writer), db.committed, db.history, db.writer)
      ensures ok ==> !inTransaction && !failed && Coherent() && graph == Clean(StateOf(db.committed))
      ensures !ok ==>
        || (!inTransaction && Coherent() && old(inTransaction))
        || (inTransaction == old(inTransaction) && failed == old(failed) && txn == old(txn) && graph == old(graph)
            && loaded == old(loaded) && db.writer == old(db.writer))
    {
      if !inTransaction {
        return false;
      }
      ok := SqlRollback();
      if !ok {
        return false;
      }
      ok := FinishRollback();
    }

    // -------------------------------------------------------------- persistence

    /** Upserts the records into the transaction's view, 256 at a time. */
    method UpsertBatches(rs: seq<Record>) returns (ok: bool)
      requires TxnValid() && txn.Some? && txn.value.wrote
      modifies this`calls, this`txn
      ensures calls >= old(calls)
      ensures Answered(old(calls)) ==> ok
      ensures TxnValid()
      ensures ok ==> txn == Some(old(txn).value.(view :=
        old(txn).value.view.(records := Upserted(old(txn).value.view.records, rs))))
    {
      var i := 0;
      ghost var start := txn.value;
      assert rs[..0] == [];
      while i < |rs|
        invariant 0 <= i <= |rs| && TxnValid() && calls >= old(calls)
        invariant txn == Some(start.(view := start.view.(records := Upserted(start.view.records, rs[..i]))))
      {
        var end := if i + BATCH <= |rs| then i + BATCH else |rs|;
        ok := Answers();
        if !ok {
          return false;
        }
        UpsertConcat(start.view.records, rs[..i], rs[i..end]);
        assert rs[..i] + rs[i..end] == rs[..end];
        txn := Some(txn.value.(view := txn.value.view.(records := Upserted(txn.value.view.records, rs[i..end]))));
        i := end;
      }
      assert rs[..i] == rs;
      ok := true;
    }

    /** Advances the revision and writes the records of the touched entries, which override exactly
        those. */
    method WriteRecords() returns (ok: bool)
      requires TxnValid()
      modifies this`calls, this`txn, db`writer
      ensures TxnValid() && calls >= old(calls)
      ensures (ok ==> old(MayWrite())) && (old(MayWrite()) && Answered(old(calls)) ==> ok)
      ensures Yields(id, db.committed, db.history, old(db.writer), db.committed, db.history, db.writer)
      ensures ok ==>
        && old(txn).Some? && txn.Some? && txn.value.wrote
        && txn.value.view.revision == old(txn).value.view.revision + 1
        && StateOf(txn.value.view) == Overridden(StateOf(old(txn).value.view), graph)
        && (StateOf(txn.value.view) == graph.contents <==> AgreesElsewhere(StateOf(old(txn).value.view), graph))
    {
      var rs := IncrementalRecords(graph);
      ok := AdvanceRevision();
      if ok {
        ok := UpsertBatches(rs);
        if ok {
          ghost var view := old(txn).value.view;
          UpsertedOverlay(view.records, rs, graph.contents, Touched(graph.pending));
          OverlaidState(view, graph);
          OverriddenExactly(StateOf(view), graph);
        }
      }
    }

    /** Writes the pending changes. The transaction's view is then its old state with the touched
        entries overridden, under the next revision; the cache is the view exactly when it agreed
        with the old state on everything that was not touched. */
    method Persist() returns (ok: bool)
      requires TxnValid() && inTransaction && !failed && statement.None?
      requires !Wrote() ==> Known(loaded, db.history)
      requires Wrote() ==> loaded == Some(txn.value.view.revision)
      modifies this`calls, this`txn, this`loaded, this`failed, this`graph, db`writer
      ensures calls >= old(calls)
      ensures old(graph).pending == NOTHING ==> ok
      ensures old(graph).pending != NOTHING ==>
        (ok ==> old(MayWrite())) && (old(MayWrite()) && Answered(old(calls)) ==> ok)
      ensures Valid() && inTransaction
      ensures Yields(id, db.committed, db.history, old(db.writer), db.committed, db.history, db.writer)
      ensures ok ==> !failed && graph == Clean(old(graph).contents)
      ensures ok && old(graph).pending == NOTHING ==>
        txn == old(txn) && loaded == old(loaded) && db.writer == old(db.writer)
      ensures ok && old(graph).pending != NOTHING ==>
        && old(txn).Some? && txn.Some? && txn.value.wrote && Fresh()
        && txn.value.view.revision == old(txn).value.view.revision + 1
        && StateOf(txn.value.view) == Overridden(StateOf(old(txn).value.view), old(graph))
        && (Sound() <==> AgreesElsewhere(StateOf(old(txn).value.view), old(graph)))
      ensures !ok ==>
        graph == old(graph) && (failed || (txn == old(txn) && loaded == old(loaded) && db.writer == old(db.writer)))
    {
      if graph.pending == NOTHING {
        return true;
      }
      ok := Answers();
      if !ok {
        return false;
      }
      ok := WriteRecords();
      if !ok {
        failed := true;
        return false;
      }
      loaded := Some(txn.value.view.revision);
      graph := graph.(pending := NOTHING);
    }

    /** Replaces checkpoint and records by one payload. The view is then the cached graph, whatever it
        was before. */
    method PersistCheckpointPayload(payload: Contents) returns (ok: bool)
      requires TxnValid() && inTransaction && !failed && payload == graph.contents && statement.None?
      modifies this`calls, this`txn, this`loaded, this`failed, this`graph, db`writer
      ensures calls >= old(calls)
      ensures (ok ==> old(MayWrite())) && (old(MayWrite()) && Answered(old(calls)) ==> ok)
      ensures TxnValid() && inTransaction && (ok ==> Valid())
      ensures Yields(id, db.committed, db.history, old(db.writer), db.committed, db.history, db.writer)
      ensures ok ==>
        !failed && graph == Clean(payload) && CachedView(graph, loaded, txn) &&
        txn.value.view.records == map[] && txn.value.wrote
      ensures !ok ==> graph == old(graph) && failed
    {
      ok := AdvanceRevision();
      if ok {
        ok := Answers();
        if ok {
          txn := Some(txn.value.(view := txn.value.view.(checkpoint := payload)));
          ok := Answers();
          if ok {
            txn := Some(txn.value.(view := txn.value.view.(records := map[])));
          }
        }
      }
      if !ok {
        failed := true;
        return false;
      }
      CompactedState(payload);
      loaded := Some(txn.value.view.revision);
      graph := graph.(pending := NOTHING);
    }

    method PersistCheckpoint() returns (ok: bool)
      requires TxnValid() && inTransaction && !failed && statement.None?
      modifies this`calls, this`txn, this`loaded, this`failed, this`graph, db`writer
      ensures calls >= old(calls)
      ensures (ok ==> old(MayWrite())) && (old(MayWrite()) && Answered(old(calls)) ==> ok)
      ensures TxnValid() && inTransaction && (ok ==> Valid())
      ensures Yields(id, db.committed, db.history, old(db.writer), db.committed, db.history, db.writer)
      ensures ok ==>
        && !failed && graph == Clean(old(graph).contents) && CachedView(graph, loaded, txn)
        && txn.value.view.records == map[] && txn.value.wrote
      ensures !ok ==>
        graph == old(graph) && (failed || (txn == old(txn) && loaded == old(loaded) && db.writer == old(db.writer)))
    {
      ok := Answers();
      if ok {
        ok := PersistCheckpointPayload(graph.contents);
      }
    }

    method FinishAutomatic() returns (ok: bool)
      requires Valid() && statement.None? && CachedView(graph, loaded, txn) && inTransaction && !failed
      modifies this, db
      ensures calls >= old(calls)
      ensures Answered(old(calls)) ==> ok
      ensures Valid() && statement.None?
      ensures Yields(id, old(db.committed), old(db.history), old(db.writer), db.committed, db.history, db.writer)
      ensures ok ==> Published(old(txn).value, old(db.committed), old(db.history), db.committed, db.history)
      ensures ok ==> graph == old(graph) && !inTransaction && !failed
      ensures !ok ==> db.committed == old(db.committed)
      ensures Coherent()
    {
      ok := Commit();
      if !ok {
        var _ := Rollback();
      }
    }

    /** The revision row is free for a transaction of its own, or for the open one. */
    ghost predicate CanStore()
      reads this, db
    {
      if inTransaction then MayWrite() else txn.None? && db.writer == None
    }

    /** Compacts the overlay. A coherent engine leaves the visible graph as it is; inside a
        transaction the view becomes the cached graph, right or wrong. */
    method Checkpoint() returns (ok: bool)
      requires Valid() && statement.None?
      modifies this, db
      ensures calls >= old(calls)
      ensures ok ==> !old(failed) && old(CanStore()) && inTransaction == old(inTransaction) && !failed
      ensures !old(failed) && old(CanStore()) && Answered(old(calls)) ==> ok
      ensures !ok ==> db.committed == old(db.committed)
      ensures Valid() && statement.None?
      ensures Yields(id, old(db.committed), old(db.history), old(db.writer), db.committed, db.history, db.writer)
      ensures ok ==> Coherent()
      ensures (old(Sound()) ==> Sound()) && (old(inTransaction) && old(Fresh()) ==> Fresh())
      ensures !old(inTransaction) ==> (Fresh() <==> old(failed) || !old(Misleads()))
      ensures !old(inTransaction) && !Fresh() ==> FaultyPair(fails, old(calls), calls)
      ensures ok && old(Coherent()) && !old(inTransaction) ==>
        db.committed.records == map[] && StateOf(db.committed) == old(StateOf(db.committed))
      ensures ok && old(inTransaction) ==>
        txn.Some? && txn.value.view.records == map[] && StateOf(txn.value.view) == old(graph).contents
    {
      if failed {
        return false;
      }
      var automatic := !inTransaction;
      if automatic {
        var started := Begin();
        if started != Started {
          return false;
        }
      }
      ok := PersistCheckpoint();
      if !ok {
        if automatic {
          var _ := Rollback();
        }
        return false;
      }
      if automatic {
        ok := FinishAutomatic();
      }
    }

    /** Imports a graph, with its encoding when that was prepared before. */
    method ReplaceGraph(g: Graph, payload: Option<Contents>) returns (ok: bool)
      requires Valid() && statement.None?
      requires payload.Some? ==> payload.value == g.contents
      modifies this, db
      ensures calls >= old(calls)
      ensures ok ==> old(CanStore()) && (old(inTransaction) ==> !old(failed))
      ensures ok ==> inTransaction == old(inTransaction) && !failed
      ensures old(CanStore()) && (old(inTransaction) ==> !old(failed)) && Answered(old(calls)) ==> ok
      ensures Valid() && statement.None?
      ensures Yields(id, old(db.committed), old(db.history), old(db.writer), db.committed, db.history, db.writer)
      ensures ok ==> graph == Clean(g.contents) && Coherent()
      ensures (old(Sound()) ==> Sound()) && (old(inTransaction) && old(Fresh()) ==> Fresh())
      ensures !old(inTransaction) ==> (Fresh() <==> !old(Misleads()))
      ensures !old(inTransaction) && !Fresh() ==> FaultyPair(fails, old(calls), calls)
      ensures ok && !old(inTransaction) ==> StateOf(db.committed) == g.contents
      ensures !ok ==> db.committed == old(db.committed)
      ensures !ok && old(inTransaction) ==> graph == old(graph)
    {
      var automatic := !inTransaction;
      if automatic {
        var started := Begin();
        if started != Started {
          return false;
        }
      }
      if failed {
        return false;
      }
      var previous := graph;
      graph := g;
      if payload.Some? {
        ok := PersistCheckpointPayload(payload.value);
      } else {
        ok := PersistCheckpoint();
      }
      if !ok {
        graph := previous;
        if automatic {
          var _ := Rollback();
        }
        return false;
      }
      if automatic {
        ok := FinishAutomatic();
      }
    }

    // -------------------------------------------------------------- statements

    /** Starts a mutating statement; its execution may be interrupted or interleaved. */
    method BeginStatement() returns (ok: bool)
      requires Valid() && statement.None?
      modifies this, db
      ensures calls >= old(calls)
      ensures ok ==> !old(failed) && (old(inTransaction) || old(txn).None?)
      ensures !old(failed) && (old(inTransaction) || old(txn).None?) && Answered(old(calls)) ==> ok
      ensures Valid() && (ok <==> statement.Some?) && db.committed == old(db.committed)
      ensures Yields(id, old(db.committed), old(db.history), old(db.writer), db.committed, db.history, db.writer)
      ensures old(Sound()) ==> Sound()
      ensures old(inTransaction) ==>
        (old(Fresh()) ==> Fresh()) && graph == old(graph) && loaded == old(loaded) && txn == old(txn)
      ensures !old(inTransaction) ==> (Fresh() <==> old(failed) || !old(Misleads()))
      ensures !old(inTransaction) && !Fresh() ==> FaultyPair(fails, old(calls), calls)
      ensures ok ==> (statement.value.automatic <==> !old(inTransaction)) && (statement.value.automatic ==> Fresh())
      ensures ok && Coherent() ==> txn.Some? && graph.contents == StateOf(txn.value.view)
    {
      if failed {
        return false;
      }
      var automatic := !inTransaction;
      if automatic {
        var started := Begin();
        if started != Started {
          return false;
        }
      }
      statement := Some(Statement(graph, automatic));
      ok := true;
    }

    /** `result`: the graph after execution, or None when execution failed or was cancelled. A
        statement that writes keeps the cache sound exactly when the cache agreed with the view on
        everything it did not touch; it always did if it was coherent. */
    method FinishStatement(result: Option<Graph>) returns (ok: bool)
      requires Valid() && statement.Some?
      requires result.Some? ==> Tracked(graph, result.value)
      modifies this, db
      ensures calls >= old(calls)
      ensures ok ==> result.Some? && (result.value.pending == NOTHING || old(MayWrite()))
      ensures result.Some? && (result.value.pending == NOTHING || old(MayWrite())) && Answered(old(calls)) ==> ok
      ensures Valid() && statement.None?
      ensures Yields(id, old(db.committed), old(db.history), old(db.writer), db.committed, db.history, db.writer)
      ensures old(Coherent()) ==> Coherent()
      ensures ok ==> result.Some? && graph == Clean(result.value.contents)
      ensures ok && old(statement).value.automatic && result.value.pending != NOTHING ==>
        old(txn).Some? && db.committed.revision == old(txn).value.view.revision + 1
        && StateOf(db.committed) == Overridden(StateOf(old(txn).value.view), result.value)
      ensures ok && !old(statement).value.automatic ==> inTransaction && !failed
      ensures ok && !old(statement).value.automatic && result.value.pending == NOTHING ==>
        txn == old(txn) && loaded == old(loaded)
      ensures ok && !old(statement).value.automatic && result.value.pending != NOTHING ==>
        && old(txn).Some? && txn.Some? && txn.value.wrote && Fresh()
        && StateOf(txn.value.view) == Overridden(StateOf(old(txn).value.view), result.value)
        && (Sound() <==> AgreesElsewhere(StateOf(old(txn).value.view), result.value))
      ensures old(statement).value.automatic ==> if ok then !inTransaction else Coherent()
      ensures !ok ==> db.committed == old(db.committed)
      ensures !ok && !old(statement).value.automatic ==>
        inTransaction && graph == old(graph) && (failed || (txn == old(txn) && loaded == old(loaded)))
    {
      var started := statement.value;
      statement := None;
      ok := result.Some?;
      if ok {
        ok := PersistResult(result.value);
        if ok && started.automatic {
          ok := Commit();
        }
      }
      if !ok {
        Undo(started);
      }
    }

    /** Installs and persists the graph that a statement has made of the cached one. */
    method PersistResult(result: Graph) returns (ok: bool)
      requires Valid() && inTransaction && !failed && statement.None? && Tracked(graph, result)
      modifies this`calls, this`txn, this`loaded, this`failed, this`graph, db`writer
      ensures calls >= old(calls)
      ensures result.pending == NOTHING ==> ok
      ensures result.pending != NOTHING ==>
        (ok ==> old(MayWrite())) && (old(MayWrite()) && Answered(old(calls)) ==> ok)
      ensures Valid() && inTransaction && statement.None?
      ensures Yields(id, db.committed, db.history, old(db.writer), db.committed, db.history, db.writer)
      ensures ok ==> !failed && graph == Clean(result.contents) && (old(Coherent()) ==> Sound() && Fresh())
      ensures ok && result.pending == NOTHING ==>
        txn == old(txn) && loaded == old(loaded) && db.writer == old(db.writer)
      ensures ok && result.pending != NOTHING ==>
        && old(txn).Some? && txn.Some? && txn.value.wrote && Fresh()
        && txn.value.view.revision == old(txn).value.view.revision + 1
        && StateOf(txn.value.view) == Overridden(StateOf(old(txn).value.view), result)
        && (Sound() <==> AgreesElsewhere(StateOf(old(txn).value.view), result))
      ensures !ok ==> failed || (txn == old(txn) && loaded == old(loaded) && db.writer == old(db.writer))
    {
      if Coherent() { TrackedAgrees(StateOf(txn.value.view), graph, result); }
      if result.pending == NOTHING { NothingTouched(graph, result); }
      graph := result;
      ok := Persist();
    }

    /** The cleanup that also runs when the caller drops the statement. */
    method Undo(s: Statement)
      requires TxnValid() && statement.None? && inTransaction
      requires !failed && !Wrote() ==> Known(loaded, db.history)
      requires !failed && Wrote() ==> loaded == Some(txn.value.view.revision)
      modifies this, db
      ensures calls >= old(calls)
      ensures Valid() && statement.None? && db.committed == old(db.committed)
      ensures Yields(id, old(db.committed), old(db.history), old(db.writer), db.committed, db.history, db.writer)
      ensures !s.automatic ==>
        && graph == s.before && inTransaction && failed == old(failed) && txn == old(txn) && loaded == old(loaded)
        && db.history == old(db.history)
      ensures s.automatic ==> Coherent()
    {
      graph := s.before;
      if s.automatic && inTransaction {
        var ok := Rollback();
        if !ok {
          failed := true;
        }
      }
    }

    /** A read of a coherent engine sees the committed graph, or the view of its own transaction.
        Outside a transaction, a cache of another revision is reloaded and right again. */
    method Read() returns (r: Option<Contents>)
      requires Valid() && statement.None?
      modifies this, db
      ensures calls >= old(calls)
      ensures r.Some? <==> !old(failed) && (old(inTransaction) || (old(txn).None? && Answered(old(calls))))
      ensures Valid() && statement.None? && db.committed == old(db.committed) && db.history == old(db.history)
      ensures Yields(id, old(db.committed), old(db.history), old(db.writer), db.committed, db.history, db.writer)
      ensures old(Sound()) ==> Sound()
      ensures inTransaction == old(inTransaction) && failed == old(failed)
      ensures r.Some? ==> r.value == graph.contents
      ensures r.Some? && Coherent() && !inTransaction ==> r.value == StateOf(db.committed)
      ensures r.Some? && Coherent() && inTransaction ==> txn.Some? && r.value == StateOf(txn.value.view)
      ensures r.Some? && !inTransaction ==> loaded == Some(db.committed.revision)
      ensures r.Some? && !inTransaction && old(loaded) != Some(db.committed.revision) ==> Coherent()
      ensures r.Some? && !inTransaction && old(loaded) == Some(db.committed.revision) ==> graph == old(graph)
      ensures old(inTransaction) ==> txn == old(txn) && graph == old(graph) && loaded == old(loaded)
      ensures old(inTransaction) && !old(failed) ==> r == Some(old(graph).contents)
    {
      if failed {
        return None;
      }
      if !inTransaction {
        var ok := Refresh();
        if !ok {
          return None;
        }
      }
      return Some(graph.contents);
    }
  }

  // ---------------------------------------------------------------- commands

  datatype Command =
    | DoBegin | DoCommit | DoRollback | DoCheckpoint | DoRead
    | DoReplace(graph: Graph, encoded: bool)
    | DoStart | DoFinish(result: Option<Graph>)

  /** Whether a command succeeded, and what it read. */
  datatype Reply = Reply(ok: bool, seen: Option<Contents>)

  /** One engine at one moment. */
  datatype State = State(
    calls: nat, txn: Option<Txn>, graph: Graph, loaded: Option<int>, inTransaction: bool, failed: bool,
    statement: Option<Statement>)

  /** The database at one moment. */
  datatype Data = Data(committed: Db, history: map<int, Db>, writer: Option<nat>)

  ghost function StateNow(e: GraphEngine): State
    reads e
  {
    State(e.calls, e.txn, e.graph, e.loaded, e.inTransaction, e.failed, e.statement)
  }

  ghost function DataNow(db: Database): Data
    reads db
  {
    Data(db.committed, db.history, db.writer)
  }

  ghost predicate WroteAt(s: State) {
    s.txn.Some? && s.txn.value.wrote
  }

  /** The same as of the engine itself, at one moment. */
  ghost predicate FreshAt(s: State) {
    s.inTransaction && !s.failed ==> s.txn.Some? && s.loaded == Some(s.txn.value.view.revision)
  }

  ghost predicate SoundAt(s: State, d: Data) {
    && (!s.inTransaction || (!s.failed && !WroteAt(s)) ==> CachedVersion(s.graph, s.loaded, d.history))
    && (s.inTransaction && !s.failed && WroteAt(s) ==> CachedView(s.graph, s.loaded, s.txn))
  }

  ghost predicate CoherentAt(s: State, d: Data) {
    && (!s.inTransaction ==> CachedVersion(s.graph, s.loaded, d.history))
    && (s.inTransaction && !s.failed ==> CachedView(s.graph, s.loaded, s.txn))
  }

  /** What a read should see: the transaction's own view, or what is committed. */
  ghost function VisibleAt(s: State, d: Data): Contents {
    if s.inTransaction && s.txn.Some? then StateOf(s.txn.value.view) else StateOf(d.committed)
  }

  /** The command loses the engine's way: it begins a transaction with an outdated cache, BEGIN
      answers, and a double fault leaves the transaction open. */
  ghost predicate Loses(s: State, d: Data, c: Command, fails: nat -> bool) {
    && s.statement.None? && !s.inTransaction && s.txn.None?
    && s.loaded != Some(d.committed.revision) && DoubleFault(fails, s.calls, true)
    && (c.DoBegin? || c.DoReplace? || ((c.DoCheckpoint? || c.DoStart?) && !s.failed))
  }

  /** The command may write on top of an outdated cache. */
  ghost predicate WritesLost(s: State, c: Command) {
    s.statement.Some? && !FreshAt(s) && c.DoFinish? && c.result.Some? && c.result.value.pending != NOTHING
  }

  ghost predicate MayWriteAt(s: State, d: Data) {
    s.txn.Some? && (s.txn.value.wrote || (d.writer == None && d.committed == s.txn.value.base))
  }

  ghost predicate CanStoreAt(s: State, d: Data) {
    if s.inTransaction then MayWriteAt(s, d) else s.txn.None? && d.writer == None
  }

  /** The command is allowed and meets no conflict. */
  ghost predicate Permitted(s: State, d: Data, c: Command) {
    if s.statement.Some? then
      && c.DoFinish? && c.result.Some? && Tracked(s.graph, c.result.value)
      && (c.result.value.pending == NOTHING || MayWriteAt(s, d))
    else
      match c
      case DoBegin => !s.inTransaction && s.txn.None?
      case DoCommit => s.inTransaction && !s.failed && s.txn.Some?
      case DoRollback => s.inTransaction
      case DoCheckpoint => !s.failed && CanStoreAt(s, d)
      case DoRead => !s.failed && (s.inTransaction || s.txn.None?)
      case DoReplace(_, _) => (s.inTransaction ==> !s.failed) && CanStoreAt(s, d)
      case DoStart => !s.failed && (s.inTransaction || s.txn.None?)
      case DoFinish(_) => false
  }

  /** What a command that succeeds does to what can be seen. */
  ghost predicate Effect(s: State, d: Data, c: Command, s': State, d': Data) {
    match c
    case DoBegin =>
      s'.inTransaction && s'.txn == Some(Txn(d.committed, d.committed, false)) && d'.committed == d.committed
    case DoCommit =>
      && !s'.inTransaction && s.txn.Some?
      && Published(s.txn.value, d.committed, d.history, d'.committed, d'.history)
    case DoRollback => !s'.inTransaction && s'.graph == Clean(StateOf(d.committed)) && d'.committed == d.committed
    case DoCheckpoint =>
      && (s.inTransaction ==> VisibleAt(s', d') == s.graph.contents)
      && (CoherentAt(s, d) ==> VisibleAt(s', d') == VisibleAt(s, d))
    case DoRead => d'.committed == d.committed
    case DoReplace(g, _) => VisibleAt(s', d') == g.contents
    case DoStart => s'.statement.Some? && s'.inTransaction && d'.committed == d.committed
    case DoFinish(result) =>
      && result.Some?
      && (result.value.pending != NOTHING ==>
            s.txn.Some? && VisibleAt(s', d') == Overridden(StateOf(s.txn.value.view), result.value))
  }

  /** What one command does to its engine. A fresh engine stays fresh exactly when the command does not
      lose the way, for which two storage calls in succession must fail; a sound one stays sound unless
      it writes while lost. Only what is permitted succeeds, and then has its effect; it does succeed
      if every storage call answers. What a coherent engine reads is what it should see. */
  ghost predicate Performed(s: State, d: Data, c: Command, fails: nat -> bool, s': State, d': Data, reply: Reply) {
    && s.calls <= s'.calls
    && (FreshAt(s) ==> (FreshAt(s') <==> !Loses(s, d, c, fails)))
    && (Loses(s, d, c, fails) ==> FaultyPair(fails, s.calls, s'.calls))
    && (SoundAt(s, d) && !WritesLost(s, c) ==> SoundAt(s', d'))
    && (Permitted(s, d, c) && (forall k :: s.calls <= k < s'.calls ==> !fails(k)) ==> reply.ok)
    && (reply.ok ==> Permitted(s, d, c) && Effect(s, d, c, s', d'))
    && (!reply.ok ==> d'.committed == d.committed)
    && (reply.seen.Some? <==> c.DoRead? && reply.ok)
    && (reply.seen.Some? && CoherentAt(s', d') ==> reply.seen.value == VisibleAt(s', d'))
  }

  method BeginCommand(e: GraphEngine) returns (reply: Reply)
    requires e.Valid() && e.statement.None?
    modifies e, e.db
    ensures e.Valid() && Yields(e.id, old(e.db.committed), old(e.db.history), old(e.db.writer),
                                e.db.committed, e.db.history, e.db.writer)
    ensures Performed(old(StateNow(e)), old(DataNow(e.db)), DoBegin, e.fails, StateNow(e), DataNow(e.db), reply)
  {
    var r := e.Begin();
    reply := Reply(r == Started, None);
  }

  method CommitCommand(e: GraphEngine) returns (reply: Reply)
    requires e.Valid() && e.statement.None?
    modifies e, e.db
    ensures e.Valid() && Yields(e.id, old(e.db.committed), old(e.db.history), old(e.db.writer),
                                e.db.committed, e.db.history, e.db.writer)
    ensures Performed(old(StateNow(e)), old(DataNow(e.db)), DoCommit, e.fails, StateNow(e), DataNow(e.db), reply)
  {
    var ok := e.Commit();
    reply := Reply(ok, None);
  }

  method RollbackCommand(e: GraphEngine) returns (reply: Reply)
    requires e.Valid() && e.statement.None?
    modifies e, e.db
    ensures e.Valid() && Yields(e.id, old(e.db.committed), old(e.db.history), old(e.db.writer),
                                e.db.committed, e.db.history, e.db.writer)
    ensures Performed(old(StateNow(e)), old(DataNow(e.db)), DoRollback, e.fails, StateNow(e), DataNow(e.db), reply)
  {
    var ok := e.Rollback();
    reply := Reply(ok, None);
  }

  method CheckpointCommand(e: GraphEngine) returns (reply: Reply)
    requires e.Valid() && e.statement.None?
    modifies e, e.db
    ensures e.Valid() && Yields(e.id, old(e.db.committed), old(e.db.history), old(e.db.writer),
                                e.db.committed, e.db.history, e.db.writer)
    ensures Performed(old(StateNow(e)), old(DataNow(e.db)), DoCheckpoint, e.fails, StateNow(e), DataNow(e.db), reply)
  {
    var ok := e.Checkpoint();
    reply := Reply(ok, None);
  }

  method ReadCommand(e: GraphEngine) returns (reply: Reply)
    requires e.Valid() && e.statement.None?
    modifies e, e.db
    ensures e.Valid() && Yields(e.id, old(e.db.committed), old(e.db.history), old(e.db.writer),
                                e.db.committed, e.db.history, e.db.writer)
    ensures Performed(old(StateNow(e)), old(DataNow(e.db)), DoRead, e.fails, StateNow(e), DataNow(e.db), reply)
  {
    var seen := e.Read();
    reply := Reply(seen.Some?, seen);
  }

  method ReplaceCommand(e: GraphEngine, g: Graph, encoded: bool) returns (reply: Reply)
    requires e.Valid() && e.statement.None?
    modifies e, e.db
    ensures e.Valid() && Yields(e.id, old(e.db.committed), old(e.db.history), old(e.db.writer),
                                e.db.committed, e.db.history, e.db.writer)
    ensures Performed(old(StateNow(e)), old(DataNow(e.db)), DoReplace(g, encoded), e.fails,
                      StateNow(e), DataNow(e.db), reply)
  {
    var ok := e.ReplaceGraph(g, if encoded then Some(g.contents) else None);
    reply := Reply(ok, None);
  }

  method StartCommand(e: GraphEngine) returns (reply: Reply)
    requires e.Valid() && e.statement.None?
    modifies e, e.db
    ensures e.Valid() && Yields(e.id, old(e.db.committed), old(e.db.history), old(e.db.writer),
                                e.db.committed, e.db.history, e.db.writer)
    ensures Performed(old(StateNow(e)), old(DataNow(e.db)), DoStart, e.fails, StateNow(e), DataNow(e.db), reply)
  {
    var ok := e.BeginStatement();
    reply := Reply(ok, None);
  }

  method FinishCommand(e: GraphEngine, result: Option<Graph>) returns (reply: Reply)
    requires e.Valid() && e.statement.Some? && (result.Some? ==> Tracked(e.graph, result.value))
    modifies e, e.db
    ensures e.Valid() && Yields(e.id, old(e.db.committed), old(e.db.history), old(e.db.writer),
                                e.db.committed, e.db.history, e.db.writer)
    ensures Performed(old(StateNow(e)), old(DataNow(e.db)), DoFinish(result), e.fails,
                      StateNow(e), DataNow(e.db), reply)
  {
    e.CoherentExactly();
    if result.Some? && result.value.pending == NOTHING { NothingTouched(e.graph, result.value); }
    ghost var h := e.db.history;
    var ok := e.FinishStatement(result);
    e.CoherentExactly();
    VersionStays(e.graph, e.loaded, h, e.db.history);
    reply := Reply(ok, None);
  }

  /** One command of one engine. While a statement runs, its engine takes no other command. */
  method Step(e: GraphEngine, c: Command) returns (reply: Reply)
    requires e.Valid()
    modifies e, e.db
    ensures e.Valid() && Yields(e.id, old(e.db.committed), old(e.db.history), old(e.db.writer),
                                e.db.committed, e.db.history, e.db.writer)
    ensures Performed(old(StateNow(e)), old(DataNow(e.db)), c, e.fails, StateNow(e), DataNow(e.db), reply)
  {
    if e.statement.Some? {
      if c.DoFinish? && (c.result.None? || Tracked(e.graph, c.result.value)) {
        reply := FinishCommand(e, c.result);
      } else {
        reply := Reply(false, None);
      }
      return;
    }
    match c {
      case DoBegin => reply := BeginCommand(e);
      case DoCommit => reply := CommitCommand(e);
      case DoRollback => reply := RollbackCommand(e);
      case DoCheckpoint => reply := CheckpointCommand(e);
      case DoRead => reply := ReadCommand(e);
      case DoReplace(g, encoded) => reply := ReplaceCommand(e, g, encoded);
      case DoStart => reply := StartCommand(e);
      case DoFinish(_) => reply := Reply(false, None);
    }
  }

  // ---------------------------------------------------------------- traces

  type Script = seq<(nat, Command)>

  /** The database and all engines at one moment. */
  datatype Moment = Moment(data: Data, engines: seq<State>)

  /** Coherent means sound and fresh, for every engine. */
  ghost predicate Regular(m: Moment) {
    forall i :: 0 <= i < |m.engines| ==>
      (CoherentAt(m.engines[i], m.data) <==> SoundAt(m.engines[i], m.data) && FreshAt(m.engines[i]))
  }

  ghost predicate Kept(s: State, d: Data, s': State, d': Data) {
    s' == s && (SoundAt(s, d) ==> SoundAt(s', d'))
  }

  /** One command of engine k: at most one new version is published, engine k performs the command and
      the other engines keep their state and their soundness. */
  ghost predicate Moves(m: Moment, k: nat, c: Command, fails: seq<nat -> bool>, m': Moment, reply: Reply) {
    && Advances(m.data.committed, m.data.history, m'.data.committed, m'.data.history)
    && |m.engines| == |m'.engines| == |fails|
    && (forall i :: 0 <= i < |fails| && i != k ==> Kept(m.engines[i], m.data, m'.engines[i], m'.data))
    && (if k < |fails| then Performed(m.engines[k], m.data, c, fails[k], m'.engines[k], m'.data, reply)
        else m' == m && reply == Reply(false, None))
  }

  /** The moments of a run, with the replies. */
  ghost predicate IsRun(trace: seq<Moment>, script: Script, fails: seq<nat -> bool>, replies: seq<Reply>) {
    && |trace| == |script| + 1 && |replies| == |script|
    && (forall n :: 0 <= n < |trace| ==> |trace[n].engines| == |fails| && Regular(trace[n]))
    && (forall n :: 0 <= n < |script| ==>
          Moves(trace[n], script[n].0, script[n].1, fails, trace[n + 1], replies[n]))
  }

  /** No command of engine i before step n lost the way. */
  ghost predicate NeverLost(trace: seq<Moment>, script: Script, fails: seq<nat -> bool>, i: nat, n: nat)
    requires n <= |script| < |trace| && i < |fails| && forall j :: 0 <= j < |trace| ==> |trace[j].engines| == |fails|
  {
    forall j :: 0 <= j < n && script[j].0 == i ==> !Loses(trace[j].engines[i], trace[j].data, script[j].1, fails[i])
  }

  /** No command of engine i before step n wrote while lost. */
  ghost predicate NeverWroteLost(trace: seq<Moment>, script: Script, i: nat, n: nat)
    requires n <= |script| < |trace| && forall j :: 0 <= j < |trace| ==> i < |trace[j].engines|
  {
    forall j :: 0 <= j < n && script[j].0 == i ==> !WritesLost(trace[j].engines[i], script[j].1)
  }

  lemma {:induction false} FreshUntilLost(
    trace: seq<Moment>, script: Script, fails: seq<nat -> bool>, replies: seq<Reply>, i: nat, n: nat)
    requires IsRun(trace, script, fails, replies) && n <= |script| && i < |fails|
    requires FreshAt(trace[0].engines[i]) && NeverLost(trace, script, fails, i, n)
    ensures FreshAt(trace[n].engines[i]) && NeverWroteLost(trace, script, i, n)
  {
    if n > 0 {
      FreshUntilLost(trace, script, fails, replies, i, n - 1);
      assert Moves(trace[n - 1], script[n - 1].0, script[n - 1].1, fails, trace[n], replies[n - 1]);
    }
  }

  /** An engine that never wrote while lost has a sound cache, whatever else happened, and so is
      coherent again as soon as its transaction is over. */
  lemma {:induction false} SoundUntilWritten(
    trace: seq<Moment>, script: Script, fails: seq<nat -> bool>, replies: seq<Reply>, i: nat, n: nat)
    requires IsRun(trace, script, fails, replies) && n <= |script| && i < |fails|
    requires SoundAt(trace[0].engines[i], trace[0].data) && NeverWroteLost(trace, script, i, n)
    ensures SoundAt(trace[n].engines[i], trace[n].data)
    ensures !trace[n].engines[i].inTransaction || trace[n].engines[i].failed ==>
      CoherentAt(trace[n].engines[i], trace[n].data)
  {
    if n > 0 {
      SoundUntilWritten(trace, script, fails, replies, i, n - 1);
      assert Moves(trace[n - 1], script[n - 1].0, script[n - 1].1, fails, trace[n], replies[n - 1]);
    }
    assert Regular(trace[n]);
  }

  /** An engine that never lost its way is coherent. */
  lemma CoherentUntilLost(
    trace: seq<Moment>, script: Script, fails: seq<nat -> bool>, replies: seq<Reply>, i: nat, n: nat)
    requires IsRun(trace, script, fails, replies) && n <= |script| && i < |fails|
    requires CoherentAt(trace[0].engines[i], trace[0].data) && NeverLost(trace, script, fails, i, n)
    ensures CoherentAt(trace[n].engines[i], trace[n].data)
  {
    assert Regular(trace[0]) && Regular(trace[n]);
    FreshUntilLost(trace, script, fails, replies, i, n);
    SoundUntilWritten(trace, script, fails, replies, i, n);
  }

  /** The first command that loses the way leaves the engine incoherent. */
  lemma LostIsIncoherent(
    trace: seq<Moment>, script: Script, fails: seq<nat -> bool>, replies: seq<Reply>, i: nat, n: nat)
    requires IsRun(trace, script, fails, replies) && n < |script| && script[n].0 == i < |fails|
    requires CoherentAt(trace[0].engines[i], trace[0].data) && NeverLost(trace, script, fails, i, n)
    ensures CoherentAt(trace[n + 1].engines[i], trace[n + 1].data) <==>
      !Loses(trace[n].engines[i], trace[n].data, script[n].1, fails[i])
  {
    assert Regular(trace[0]) && Regular(trace[n + 1]);
    FreshUntilLost(trace, script, fails, replies, i, n);
    assert Moves(trace[n], script[n].0, script[n].1, fails, trace[n + 1], replies[n]);
    if !Loses(trace[n].engines[i], trace[n].data, script[n].1, fails[i]) {
      CoherentUntilLost(trace, script, fails, replies, i, n + 1);
    }
  }

  lemma {:induction false} CallsGoOn(
    trace: seq<Moment>, script: Script, fails: seq<nat -> bool>, replies: seq<Reply>, i: nat, m: nat, n: nat)
    requires IsRun(trace, script, fails, replies) && m <= n <= |script| && i < |fails|
    ensures trace[m].engines[i].calls <= trace[n].engines[i].calls
    decreases n
  {
    if m < n {
      CallsGoOn(trace, script, fails, replies, i, m, n - 1);
      assert Moves(trace[n - 1], script[n - 1].0, script[n - 1].1, fails, trace[n], replies[n - 1]);
    }
  }

  /** Losing the way takes two failures in succession. */
  lemma {:induction false} LostTakesTwoFailures(
    trace: seq<Moment>, script: Script, fails: seq<nat -> bool>, replies: seq<Reply>, i: nat, n: nat)
    requires IsRun(trace, script, fails, replies) && n <= |script| && i < |fails|
    requires !FaultyPair(fails[i], trace[0].engines[i].calls, trace[n].engines[i].calls)
    ensures NeverLost(trace, script, fails, i, n)
  {
    CallsGoOn(trace, script, fails, replies, i, 0, n);
    if n > 0 {
      CallsGoOn(trace, script, fails, replies, i, 0, n - 1);
      assert Moves(trace[n - 1], script[n - 1].0, script[n - 1].1, fails, trace[n], replies[n - 1]);
      var a, b, c := trace[0].engines[i].calls, trace[n - 1].engines[i].calls, trace[n].engines[i].calls;
      assert FaultyPair(fails[i], a, b) || FaultyPair(fails[i], b, c) ==> FaultyPair(fails[i], a, c);
      LostTakesTwoFailures(trace, script, fails, replies, i, n - 1);
    }
  }

  /** Everything that engine i read is what it should have seen then. */
  ghost predicate ReadsRight(trace: seq<Moment>, script: Script, replies: seq<Reply>, i: nat)
    requires |trace| == |script| + 1 && |replies| == |script|
    requires forall n :: 0 <= n < |trace| ==> i < |trace[n].engines|
  {
    forall n :: 0 <= n < |script| && script[n].0 == i && replies[n].seen.Some? ==>
      replies[n].seen.value == VisibleAt(trace[n + 1].engines[i], trace[n + 1].data)
  }

  /** An engine of which no two storage calls fail in succession is coherent, and everything it reads
      is what it should see. */
  lemma QuietEngineIsRight(trace: seq<Moment>, script: Script, fails: seq<nat -> bool>, replies: seq<Reply>, i: nat)
    requires IsRun(trace, script, fails, replies) && i < |fails|
    requires CoherentAt(trace[0].engines[i], trace[0].data)
    requires !FaultyPair(fails[i], trace[0].engines[i].calls, trace[|script|].engines[i].calls)
    ensures forall n :: 0 <= n <= |script| ==> CoherentAt(trace[n].engines[i], trace[n].data)
    ensures ReadsRight(trace, script, replies, i)
  {
    forall n | 0 <= n <= |script| ensures CoherentAt(trace[n].engines[i], trace[n].data) {
      CallsGoOn(trace, script, fails, replies, i, n, |script|);
      LostTakesTwoFailures(trace, script, fails, replies, i, n);
      CoherentUntilLost(trace, script, fails, replies, i, n);
    }
    forall n | 0 <= n < |script| && script[n].0 == i && replies[n].seen.Some?
      ensures replies[n].seen.value == VisibleAt(trace[n + 1].engines[i], trace[n + 1].data)
    {
      assert Moves(trace[n], script[n].0, script[n].1, fails, trace[n + 1], replies[n]);
    }
  }

  lemma RunSnoc(trace: seq<Moment>, script: Script, fails: seq<nat -> bool>, replies: seq<Reply>,
                k: nat, c: Command, m: Moment, reply: Reply)
    requires IsRun(trace, script, fails, replies)
    requires Moves(trace[|script|], k, c, fails, m, reply) && Regular(m)
    ensures IsRun(trace + [m], script + [(k, c)], fails, replies + [reply])
  {
    var trace', script', replies' := trace + [m], script + [(k, c)], replies + [reply];
    assert forall n :: 0 <= n < |trace| ==> trace'[n] == trace[n];
    forall n | 0 <= n < |script'|
      ensures Moves(trace'[n], script'[n].0, script'[n].1, fails, trace'[n + 1], replies'[n])
    {
      if n < |script| { assert Moves(trace[n], script[n].0, script[n].1, fails, trace[n + 1], replies[n]); }
    }
  }

  // ---------------------------------------------------------------- whole runs

  ghost predicate AllValid(db: Database, es: seq<GraphEngine>)
    reads db, es
  {
    && db.Valid()
    && (forall i :: 0 <= i < |es| ==> es[i].db == db && es[i].Valid())
    && (forall i, j :: 0 <= i < j < |es| ==> es[i].id != es[j].id)
  }

  ghost function Now(db: Database, es: seq<GraphEngine>): Moment
    reads db, es
  {
    Moment(DataNow(db), seq(|es|, i requires 0 <= i < |es| reads es => StateNow(es[i])))
  }

  ghost function Faults(es: seq<GraphEngine>): (fs: seq<nat -> bool>)
    ensures |fs| == |es| && forall i :: 0 <= i < |es| ==> fs[i] == es[i].fails
  {
    seq(|es|, i requires 0 <= i < |es| => es[i].fails)
  }

  lemma NowIsRegular(db: Database, es: seq<GraphEngine>)
    requires AllValid(db, es)
    ensures Regular(Now(db, es))
  {
    forall i | 0 <= i < |es|
      ensures es[i].Coherent() <==> es[i].Sound() && es[i].Fresh()
    {
      es[i].CoherentExactly();
    }
  }

  /** A step of one engine leaves all others as they were. */
  method StepAmong(db: Database, es: seq<GraphEngine>, k: nat, c: Command) returns (reply: Reply)
    requires AllValid(db, es) && k < |es|
    modifies db, es
    ensures AllValid(db, es)
    ensures Advances(old(db.committed), old(db.history), db.committed, db.history)
    ensures forall r :: r in old(db.history) ==> r in db.history && db.history[r] == old(db.history)[r]
    ensures forall i :: 0 <= i < |es| && i != k ==>
      Kept(old(StateNow(es[i])), old(DataNow(db)), StateNow(es[i]), DataNow(db))
    ensures Performed(old(StateNow(es[k])), old(DataNow(db)), c, es[k].fails, StateNow(es[k]), DataNow(db), reply)
  {
    assert forall j :: 0 <= j < |es| && j != k ==> es[j].id != es[k].id && es[j] != es[k];
    reply := Step(es[k], c);
    forall j | 0 <= j < |es| && j != k
      ensures es[j].Valid() && (old(es[j].Sound()) ==> es[j].Sound())
    {
      assert old(es[j].Valid());
      var e := es[j];
      Undisturbed(e.id, es[k].id, e.txn, e.graph, e.loaded, old(db.committed), old(db.history), old(db.writer),
                  db.committed, db.history, db.writer);
    }
  }

  /** One command as a move from moment to moment. */
  method MoveOn(db: Database, es: seq<GraphEngine>, k: nat, c: Command) returns (reply: Reply)
    requires AllValid(db, es)
    modifies db, es
    ensures AllValid(db, es) && Regular(Now(db, es))
    ensures Moves(old(Now(db, es)), k, c, Faults(es), Now(db, es), reply)
    ensures forall r :: r in old(db.history) ==> r in db.history && db.history[r] == old(db.history)[r]
  {
    reply := Reply(false, None);
    if k < |es| {
      reply := StepAmong(db, es, k, c);
    }
    NowIsRegular(db, es);
  }

  /** Any number of engines, any commands in any order, any storage failures. The moments of the run
      lead from the state before to the state after and every step moves as specified. No committed
      version is ever rewritten, so a revision number names one graph even though rolled-back numbers
      are reused. An engine of which no two storage calls in succession failed is coherent, and its
      reads were right. */
  method Run(db: Database, es: seq<GraphEngine>, script: Script) returns (replies: seq<Reply>, ghost trace: seq<Moment>)
    requires AllValid(db, es) && forall i :: 0 <= i < |es| ==> es[i].Coherent()
    modifies db, es
    ensures AllValid(db, es) && IsRun(trace, script, Faults(es), replies)
    ensures trace[0] == old(Now(db, es)) && trace[|script|] == Now(db, es)
    ensures forall r :: r in old(db.history) ==> r in db.history && db.history[r] == old(db.history)[r]
    ensures forall i :: 0 <= i < |es| && !FaultyPair(es[i].fails, old(es[i].calls), es[i].calls) ==>
      es[i].Coherent() && ReadsRight(trace, script, replies, i)
  {
    replies := [];
    trace := [Now(db, es)];
    NowIsRegular(db, es);
    for n := 0 to |script|
      invariant AllValid(db, es) && IsRun(trace, script[..n], Faults(es), replies)
      invariant trace[0] == old(Now(db, es)) && trace[n] == Now(db, es)
      invariant forall r :: r in old(db.history) ==> r in db.history && db.history[r] == old(db.history)[r]
    {
      var (k, c) := script[n];
      var reply := MoveOn(db, es, k, c);
      RunSnoc(trace, script[..n], Faults(es), replies, k, c, Now(db, es), reply);
      assert script[..n + 1] == script[..n] + [(k, c)];
      replies := replies + [reply];
      trace := trace + [Now(db, es)];
    }
    assert script[..|script|] == script;
    forall i | 0 <= i < |es| && !FaultyPair(es[i].fails, old(es[i].calls), es[i].calls)
      ensures es[i].Coherent() && ReadsRight(trace, script, replies, i)
    {
      assert old(es[i].Coherent());
      QuietEngineIsRight(trace, script, Faults(es), replies, i);
    }
  }

  // ---------------------------------------------------------------- the exception

  /** For every engine in this situation: its cache is outdated, BEGIN answers, and neither the refresh
      nor the rollback works. The transaction is then open and not marked failed, and a read inside it
      returns the outdated graph. */
  method LostReadsStaleGraph(e: GraphEngine) returns (seen: Contents)
    requires e.Valid() && e.Coherent() && e.statement.None? && e.loaded.Some? && e.Misleads()
    modifies e, e.db
    ensures e.Valid() && e.inTransaction && !e.failed && e.Sound() && !e.Fresh() && !e.Coherent()
    ensures old(e.loaded).value in e.db.history && seen == StateOf(e.db.history[old(e.loaded).value])
    ensures e.txn == Some(Txn(e.db.committed, e.db.committed, false)) && e.graph == old(e.graph)
  {
    var r := e.Begin();
    var read := e.Read();
    seen := read.value;
  }

  /** A lost engine that writes and commits: if all storage calls answer, the engine is coherent
      again, and its next read is right, exactly when the outdated graph agreed with the committed
      one on everything that the statement did not touch. Otherwise it answers wrongly outside every
      transaction until another revision is committed. */
  method LostWrite(e: GraphEngine, result: Graph) returns (ok: bool, seen: Contents)
    requires e.Valid() && e.statement.None? && e.inTransaction && !e.failed
    requires e.txn == Some(Txn(e.db.committed, e.db.committed, false))
    requires Tracked(e.graph, result) && result.pending != NOTHING
    modifies e, e.db
    ensures e.Valid()
    ensures ok ==> !e.inTransaction && e.loaded == Some(e.db.committed.revision)
    ensures ok ==> StateOf(e.db.committed) == Overridden(StateOf(old(e.db.committed)), result)
    ensures ok ==> (e.Coherent() <==> AgreesElsewhere(StateOf(old(e.db.committed)), result))
    ensures ok ==> (seen == StateOf(e.db.committed) <==> AgreesElsewhere(StateOf(old(e.db.committed)), result))
  {
    seen := map[];
    ok := e.BeginStatement();
    if ok {
      ok := e.FinishStatement(Some(result));
    }
    if ok {
      ok := e.Commit();
    }
    if ok {
      OverriddenExactly(StateOf(old(e.db.committed)), result);
      var read := e.Read();
      ok := read.Some?;
      if ok {
        seen := read.value;
      }
    }
  }
}
