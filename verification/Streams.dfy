/** Owned batch streams and their sources: a stream ends at its first error, a one-shot source
    is handed out once, and a spooled source replays the same batches every time. */
module Streams {
  import opened Text

  const MAX_ROWS: nat := 0xFFFF_FFFF_FFFF_FFFF

  /** `clean`: no NULL in a column that the schema declares non-nullable. */
  datatype Batch = Batch(schema: int, rows: nat, clean: bool, data: seq<int>)
  datatype Item = Ok(batch: Batch) | Err

  predicate Accepts(schema: int, item: Item) {
    item.Ok? && item.batch.schema == schema && item.batch.clean
  }

  /** What a consumer gets from a producer: the accepted prefix, then at most one error. */
  function Yield(schema: int, items: seq<Item>): (out: seq<Item>)
    ensures |out| <= |items|
    ensures forall i :: 0 <= i < |out| ==>
      if items[i].Ok? && items[i].batch.schema == schema && items[i].batch.clean then out[i] == items[i]
      else out[i] == Err
    ensures forall i :: 0 <= i < |out| - 1 ==> out[i].Ok?
    ensures |out| < |items| ==> out != [] && out[|out| - 1] == Err
  {
    if items == [] then []
    else if Accepts(schema, items[0]) then [items[0]] + Yield(schema, items[1..])
    else [Err]
  }

  predicate Complete(out: seq<Item>) {
    forall i :: 0 <= i < |out| ==> out[i].Ok?
  }

  function Batches(out: seq<Item>): (bs: seq<Batch>)
    requires Complete(out)
    ensures |bs| == |out|
  {
    seq(|out|, i requires 0 <= i < |out| => out[i].batch)
  }

  function Items(bs: seq<Batch>): (out: seq<Item>)
    ensures |out| == |bs| && Complete(out)
  {
    seq(|bs|, i requires 0 <= i < |bs| => Ok(bs[i]))
  }

  function TotalRows(bs: seq<Batch>): nat {
    if bs == [] then 0 else TotalRows(bs[..|bs| - 1]) + bs[|bs| - 1].rows
  }

  lemma {:induction false} TotalRowsPrefix(bs: seq<Batch>, n: nat)
    requires n <= |bs|
    ensures TotalRows(bs[..n]) <= TotalRows(bs)
  {
    if n == |bs| {
      assert bs[..n] == bs;
    } else {
      TotalRowsPrefix(bs[..|bs| - 1], n);
      assert bs[..|bs| - 1][..n] == bs[..n];
    }
  }

  /** Replaying stored batches of one schema yields exactly those batches. */
  lemma {:induction false} YieldOfItems(schema: int, bs: seq<Batch>)
    requires forall i :: 0 <= i < |bs| ==> Accepts(schema, Ok(bs[i]))
    ensures Yield(schema, Items(bs)) == Items(bs)
  {
    if bs != [] {
      YieldOfItems(schema, bs[1..]);
      assert Items(bs)[1..] == Items(bs[1..]);
    }
  }

  /** Taking one item of a stream: an error means that the stream is not complete. */
  lemma TakeOne(taken: seq<Batch>, rest: seq<Item>)
    requires rest != []
    ensures rest[0] == Err ==> !Complete(Items(taken) + rest)
    ensures rest[0].Ok? ==> Items(taken) + rest == Items(taken + [rest[0].batch]) + rest[1..]
  {
    var all := Items(taken) + rest;
    assert all[|taken|] == rest[0];
  }

  lemma AllTaken(taken: seq<Batch>, all: seq<Item>)
    requires all == Items(taken)
    ensures Complete(all) && Batches(all) == taken
  {
  }

  class BatchStream {
    const schema: int
    var inner: seq<Item>
    var failed: bool

    constructor (schema: int, items: seq<Item>)
      ensures this.schema == schema && Remaining() == Yield(schema, items)
    {
      this.schema := schema;
      inner := items;
      failed := false;
    }

    function Remaining(): seq<Item>
      reads this
    {
      if failed then [] else Yield(schema, inner)
    }

    /** After an error or the end, the producer is dropped and nothing follows. */
    method Next() returns (r: Option<Item>)
      modifies this
      ensures r.Some? <==> old(Remaining()) != []
      ensures r.Some? ==> r.value == old(Remaining())[0] && Remaining() == old(Remaining())[1..]
      ensures r.None? ==> Remaining() == []
      ensures r.None? || r.value == Err ==> failed && inner == []
      ensures r.Some? && r.value.Ok? ==>
        r == Some(old(inner)[0]) && r.value.batch.schema == schema && r.value.batch.clean && inner == old(inner)[1..]
      ensures r == Some(Err) ==>
        old(inner)[0].Err? || old(inner)[0].batch.schema != schema || !old(inner)[0].batch.clean
    {
      if failed {
        inner := [];
        return None;
      }
      if inner == [] {
        failed := true;
        return None;
      }
      var item := inner[0];
      if Accepts(schema, item) {
        inner := inner[1..];
        return Some(item);
      }
      failed := true;
      inner := [];
      return Some(Err);
    }

    /** Every batch, or failure when the stream ends in an error. */
    method CollectBatches() returns (r: Outcome<seq<Batch>>)
      modifies this
      ensures r.Done? <==> Complete(old(Remaining()))
      ensures r.Done? ==> r.value == Batches(old(Remaining())) && Remaining() == []
    {
      ghost var all := Remaining();
      var batches := [];
      var more := true;
      while more
        invariant all == Items(batches) + Remaining()
        invariant !more ==> Remaining() == []
        decreases |Remaining()|, more
      {
        ghost var rest := Remaining();
        var item := Next();
        if item.None? {
          more := false;
        } else {
          TakeOne(batches, rest);
          if item.value == Err {
            return Failed;
          }
          batches := batches + [item.value.batch];
        }
      }
      AllTaken(batches, all);
      return Done(batches);
    }
  }

  /** What one call of a replay factory gives: a stream's schema and items, or its own error. */
  type Opening = Outcome<(int, seq<Item>)>

  /** Clones of a source share this object, so a one-shot stream has one slot. `factory` answers
      each call of a replayable source, which may fail or give another schema. */
  class BatchSource {
    const schema: int
    const factory: Option<nat -> Opening>
    const estimate: Option<nat>
    var slot: Option<BatchStream>
    var calls: nat

    constructor Once(stream: BatchStream)
      ensures schema == stream.schema && factory == None && estimate == None
      ensures slot == Some(stream) && calls == 0
    {
      schema := stream.schema;
      factory := None;
      estimate := None;
      slot := Some(stream);
      calls := 0;
    }

    constructor Replayable(schema: int, factory: nat -> Opening, estimate: Option<nat>)
      ensures this.schema == schema && this.factory == Some(factory) && this.estimate == estimate
      ensures slot == None && calls == 0
    {
      this.schema := schema;
      this.factory := Some(factory);
      this.estimate := estimate;
      slot := None;
      calls := 0;
    }

    /** What the next call of the factory gives. */
    function Upcoming(): Opening
      reads this
      requires factory.Some?
    {
      factory.value(calls)
    }

    /** A one-shot stream is handed out once; every later call fails. A replayable source asks its
        factory each time. A stream of another schema is refused. */
    method Open() returns (r: Outcome<BatchStream>)
      modifies this`slot, this`calls
      ensures factory.None? ==>
        && (r.Done? <==> old(slot).Some? && old(slot).value.schema == schema)
        && (r.Done? ==> r.value == old(slot).value)
        && slot.None? && calls == old(calls)
      ensures factory.Some? ==>
        && (r.Done? <==> old(Upcoming()).Done? && old(Upcoming()).value.0 == schema)
        && (r.Done? ==> fresh(r.value) && r.value.Remaining() == Yield(schema, old(Upcoming()).value.1))
        && slot == old(slot) && calls == old(calls) + 1
      ensures r.Done? ==> r.value.schema == schema
    {
      var stream;
      if factory.Some? {
        var opening := factory.value(calls);
        calls := calls + 1;
        if opening.Failed? {
          return Failed;
        }
        stream := new BatchStream(opening.value.0, opening.value.1);
      } else {
        if slot.None? {
          return Failed;
        }
        stream := slot.value;
        slot := None;
      }
      if stream.schema != schema {
        return Failed;
      }
      return Done(stream);
    }
  }

  /** How the file behaves: creating it with its header, each write, the end, and for each later
      reading whether it opens and how many batches can be read. */
  datatype File = File(create: bool, write: nat -> bool, finish: bool, read: nat -> Option<nat>)

  /** A reading of the stored batches: an error follows the last one that can be read. */
  function Reading(schema: int, bs: seq<Batch>, readable: Option<nat>): Opening {
    match readable
    case None => Failed
    case Some(k) => Done((schema, if k < |bs| then Items(bs[..k]) + [Err] else Items(bs)))
  }

  /** Exactly when a stream can be stored. */
  ghost predicate Storable(out: seq<Item>, file: File) {
    && Complete(out) && TotalRows(Batches(out)) <= MAX_ROWS
    && file.create && file.finish && forall k :: 0 <= k < |out| ==> file.write(k)
  }

  /** A stream that is partly stored. */
  ghost predicate Storing(all: seq<Item>, written: seq<Batch>, rest: seq<Item>, rows: nat, file: File) {
    && all == Items(written) + rest && rows == TotalRows(written) <= MAX_ROWS
    && forall k :: 0 <= k < |written| ==> file.write(k)
  }

  /** An error, an overflow or a failed write: the stream cannot be stored. */
  lemma StoringFails(all: seq<Item>, written: seq<Batch>, rest: seq<Item>, rows: nat, file: File)
    requires Storing(all, written, rest, rows, file) && rest != []
    requires rest[0] == Err || rows + rest[0].batch.rows > MAX_ROWS || !file.write(|written|)
    ensures !Storable(all, file)
  {
    TakeOne(written, rest);
    if rest[0].Ok? {
      RowsSnoc(written, rest[0].batch);
      TooManyRows(all, written + [rest[0].batch], rest[1..]);
    }
  }

  lemma StoringGoesOn(all: seq<Item>, written: seq<Batch>, rest: seq<Item>, rows: nat, file: File)
    requires Storing(all, written, rest, rows, file) && rest != []
    requires rest[0].Ok? && rows + rest[0].batch.rows <= MAX_ROWS && file.write(|written|)
    ensures Storing(all, written + [rest[0].batch], rest[1..], rows + rest[0].batch.rows, file)
  {
    TakeOne(written, rest);
    RowsSnoc(written, rest[0].batch);
  }

  lemma StoringEnds(all: seq<Item>, written: seq<Batch>, rows: nat, file: File)
    requires Storing(all, written, [], rows, file)
    ensures Complete(all) && Batches(all) == written
    ensures Storable(all, file) <==> file.create && file.finish
  {
    AllTaken(written, all);
  }

  /** Copies a stream to storage, counting rows in 64 bits. */
  method WriteAll(stream: BatchStream, file: File) returns (r: Outcome<(seq<Batch>, nat)>)
    modifies stream
    ensures r.Done? <==> Storable(old(stream.Remaining()), file)
    ensures r.Done? ==> r.value.0 == Batches(old(stream.Remaining())) && r.value.1 == TotalRows(r.value.0)
    ensures r.Done? ==> stream.Remaining() == []
  {
    ghost var all := stream.Remaining();
    if !file.create {
      return Failed;
    }
    var written: seq<Batch> := [];
    var rows: nat := 0;
    var more := true;
    while more
      invariant Storing(all, written, stream.Remaining(), rows, file)
      invariant !more ==> stream.Remaining() == []
      decreases |stream.Remaining()|, more
    {
      ghost var rest := stream.Remaining();
      var item := stream.Next();
      if item.None? {
        more := false;
      } else {
        var failed := item.value == Err || rows + item.value.batch.rows > MAX_ROWS || !file.write(|written|);
        if failed {
          StoringFails(all, written, rest, rows, file);
          return Failed;
        }
        StoringGoesOn(all, written, rest, rows, file);
        written := written + [item.value.batch];
        rows := rows + item.value.batch.rows;
      }
    }
    StoringEnds(all, written, rows, file);
    if !file.finish {
      return Failed;
    }
    return Done((written, rows));
  }

  lemma RowsSnoc(bs: seq<Batch>, b: Batch)
    ensures TotalRows(bs + [b]) == TotalRows(bs) + b.rows
  {
    assert (bs + [b])[..|bs|] == bs;
  }

  lemma TooManyRows(all: seq<Item>, some: seq<Batch>, rest: seq<Item>)
    requires all == Items(some) + rest
    ensures Complete(all) ==> TotalRows(some) <= TotalRows(Batches(all))
  {
    if Complete(all) {
      assert Batches(all)[..|some|] == some;
      TotalRowsPrefix(Batches(all), |some|);
    }
  }

  /** A reading yields the stored batches that can be read, then an error unless these are all. */
  lemma ReadingYields(schema: int, bs: seq<Batch>, k: nat)
    requires forall i :: 0 <= i < |bs| ==> Accepts(schema, Ok(bs[i]))
    ensures Yield(schema, Reading(schema, bs, Some(k)).value.1) == Reading(schema, bs, Some(k)).value.1
  {
    if k < |bs| {
      YieldThenError(schema, bs[..k]);
    } else {
      YieldOfItems(schema, bs);
    }
  }

  lemma {:induction false} YieldThenError(schema: int, bs: seq<Batch>)
    requires forall i :: 0 <= i < |bs| ==> Accepts(schema, Ok(bs[i]))
    ensures Yield(schema, Items(bs) + [Err]) == Items(bs) + [Err]
  {
    if bs != [] {
      YieldThenError(schema, bs[1..]);
      assert (Items(bs) + [Err])[1..] == Items(bs[1..]) + [Err];
    }
  }

  /** Each call of the factory is a reading of the stored batches. */
  ghost predicate ReadsBack(factory: nat -> Opening, schema: int, bs: seq<Batch>, file: File) {
    forall n: nat :: factory(n) == Reading(schema, bs, file.read(n))
  }

  /** Drains a stream to storage. It succeeds exactly when the stream has no error, its row count
      fits 64 bits and no file operation fails. Every reading of the new source then gives exactly
      what the stream would have given, up to the first batch that can no longer be read. */
  method Spool(stream: BatchStream, file: File) returns (r: Outcome<BatchSource>)
    modifies stream
    ensures
      var out := old(stream.Remaining());
      r.Done? <==>
        && (forall k :: 0 <= k < |out| ==> out[k].Ok?) && TotalRows(Batches(out)) < 0x1_0000_0000_0000_0000
        && file.create && (forall k :: 0 <= k < |out| ==> file.write(k)) && file.finish
    ensures r.Done? ==>
      && fresh(r.value) && r.value.schema == stream.schema && r.value.calls == 0 && stream.Remaining() == []
      && r.value.estimate == Some(TotalRows(Batches(old(stream.Remaining()))))
      && r.value.factory.Some?
      && ReadsBack(r.value.factory.value, stream.schema, Batches(old(stream.Remaining())), file)
      && Yield(stream.schema, Items(Batches(old(stream.Remaining())))) == old(stream.Remaining())
  {
    ghost var all := stream.Remaining();
    var written := WriteAll(stream, file);
    if written.Failed? {
      return Failed;
    }
    var schema, batches := stream.schema, written.value.0;
    var source := new BatchSource.Replayable(
      schema, (n: nat) => Reading(schema, batches, file.read(n)), Some(written.value.1));
    assert Items(batches) == all;
    YieldOfItems(schema, batches);
    return Done(source);
  }

  /** Reading a spooled stream twice: each reading gives all batches exactly when the file can be
      read to its end that time. */
  method ReplayTwice(stream: BatchStream, file: File) returns (r: Outcome<(Outcome<seq<Batch>>, Outcome<seq<Batch>>)>)
    modifies stream
    ensures r.Done? <==> Storable(old(stream.Remaining()), file)
    ensures r.Done? ==>
      && r.value.0 == Replayed(old(stream.Remaining()), file.read(0))
      && r.value.1 == Replayed(old(stream.Remaining()), file.read(1))
  {
    ghost var all := stream.Remaining();
    var spooled := Spool(stream, file);
    if spooled.Failed? {
      return Failed;
    }
    var first := ReadAll(spooled.value, all, file);
    var second := ReadAll(spooled.value, all, file);
    return Done((first, second));
  }

  /** What a reading of a stored stream collects. */
  function Replayed(out: seq<Item>, readable: Option<nat>): Outcome<seq<Batch>> {
    if readable.Some? && readable.value >= |out| && Complete(out) then Done(Batches(out)) else Failed
  }

  method ReadAll(source: BatchSource, ghost all: seq<Item>, ghost file: File) returns (r: Outcome<seq<Batch>>)
    requires Complete(all) && source.factory.Some?
    requires forall i :: 0 <= i < |all| ==> Accepts(source.schema, all[i])
    requires ReadsBack(source.factory.value, source.schema, Batches(all), file)
    modifies source`slot, source`calls
    ensures source.calls == old(source.calls) + 1
    ensures r == Replayed(all, file.read(old(source.calls)))
  {
    ghost var readable := file.read(source.calls);
    var reader := source.Open();
    if reader.Failed? {
      return Failed;
    }
    ReadingYields(source.schema, Batches(all), readable.value);
    ReadingComplete(source.schema, all, readable.value);
    r := reader.value.CollectBatches();
  }

  lemma ReadingComplete(schema: int, all: seq<Item>, k: nat)
    requires Complete(all)
    ensures var items := Reading(schema, Batches(all), Some(k)).value.1;
      (Complete(items) <==> k >= |all|) && (k >= |all| ==> items == all)
  {
    var bs := Batches(all);
    if k < |bs| {
      assert (Items(bs[..k]) + [Err])[k] == Err;
    }
  }
}
