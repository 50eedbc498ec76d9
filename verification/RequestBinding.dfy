/** Request templates: parameters are bound to payload slots named by JSON pointers. */
module RequestBinding {
  import opened Text
  import opened JsonPointers

  datatype Binding = Binding(pointer: string, parameter: nat, sqlNull: bool)
  datatype Template = Template(adapter: string, parameters: nat, request: Json, bindings: seq<Binding>)
  /** A parameter: its payload form, unless it has none (a number that is not finite), and its
      SQL null bit. */
  datatype Argument = Argument(payload: Option<Json>, isNull: bool)
  /** NULL is encoded as null. */
  type Parameter = a: Argument | a.isNull ==> a.payload == Some(Null) witness Argument(None, false)

  predicate Exists(d: Json, pointer: string) {
    IsPointer(pointer) && Lookup(d, PathOf(pointer)).Some?
  }

  /** The binding names a parameter and a slot of the payload. */
  predicate Aims(t: Template, b: Binding) {
    b.parameter < t.parameters && Exists(t.request, b.pointer)
  }

  /** What validation promises about a template. */
  predicate Valid(t: Template) {
    && t.adapter != ""
    && (forall i :: 0 <= i < |t.bindings| ==> Aims(t, t.bindings[i]))
    && (forall i, j :: 0 <= i < j < |t.bindings| ==> !TextOverlap(t.bindings[i].pointer, t.bindings[j].pointer))
  }

  /** Does the pointer overlap one taken before? */
  method OverlapsAny(taken: seq<string>, p: string) returns (found: bool)
    ensures found <==> exists k :: 0 <= k < |taken| && TextOverlap(taken[k], p)
  {
    for k := 0 to |taken|
      invariant forall j :: 0 <= j < k ==> !TextOverlap(taken[j], p)
    {
      if TextOverlap(taken[k], p) {
        return true;
      }
    }
    return false;
  }

  /** The first n bindings meet the conditions. */
  predicate ValidUpTo(t: Template, n: nat)
    requires n <= |t.bindings|
  {
    && (forall i :: 0 <= i < n ==> Aims(t, t.bindings[i]))
    && (forall i, j :: 0 <= i < j < n ==> !TextOverlap(t.bindings[i].pointer, t.bindings[j].pointer))
  }

  lemma ValidUpToNext(t: Template, n: nat)
    requires n < |t.bindings|
    ensures ValidUpTo(t, n + 1) <==>
      && ValidUpTo(t, n) && Aims(t, t.bindings[n])
      && forall k :: 0 <= k < n ==> !TextOverlap(t.bindings[k].pointer, t.bindings[n].pointer)
  {
  }

  method Validate(t: Template) returns (ok: bool)
    ensures ok <==> Valid(t)
  {
    if t.adapter == "" {
      return false;
    }
    var pointers: seq<string> := [];
    for i := 0 to |t.bindings|
      invariant |pointers| == i && forall k :: 0 <= k < i ==> pointers[k] == t.bindings[k].pointer
      invariant ValidUpTo(t, i)
    {
      var b := t.bindings[i];
      ValidUpToNext(t, i);
      var taken := OverlapsAny(pointers, b.pointer);
      if b.parameter >= t.parameters || !Exists(t.request, b.pointer) || taken {
        assert !ValidUpTo(t, i + 1);
        return false;
      }
      pointers := pointers + [b.pointer];
    }
    return true;
  }

  /** A write: a location and the value it gets. */
  datatype Write = Write(path: Path, value: Json)

  function WriteOf(b: Binding, ps: seq<Parameter>): Write
    requires IsPointer(b.pointer) && b.parameter < |ps| && ps[b.parameter].payload.Some?
  {
    Write(PathOf(b.pointer), if b.sqlNull then Bool(ps[b.parameter].isNull) else ps[b.parameter].payload.value)
  }

  function AllPut(d: Json, ws: seq<Write>): Json {
    if ws == [] then d
    else Put(AllPut(d, ws[..|ws| - 1]), ws[|ws| - 1].path, ws[|ws| - 1].value)
  }

  /** Writes that overlap are one and the same write. */
  predicate Harmless(ws: seq<Write>) {
    forall i, j :: 0 <= i < j < |ws| ==> ws[i] == ws[j] || !PathOverlap(ws[i].path, ws[j].path)
  }

  predicate Encodable(ps: seq<Parameter>) {
    forall i :: 0 <= i < |ps| ==> ps[i].payload.Some?
  }

  /** The bindings aim at pointers and known parameters. */
  predicate InRange(bs: seq<Binding>, ps: seq<Parameter>) {
    forall i :: 0 <= i < |bs| ==> IsPointer(bs[i].pointer) && bs[i].parameter < |ps|
  }

  function Writes(bs: seq<Binding>, ps: seq<Parameter>): (ws: seq<Write>)
    requires Encodable(ps) && InRange(bs, ps)
    ensures |ws| == |bs| && forall i :: 0 <= i < |bs| ==> ws[i] == WriteOf(bs[i], ps)
  {
    seq(|bs|, i requires 0 <= i < |bs| => WriteOf(bs[i], ps))
  }

  lemma {:induction false} WrittenElsewhere(d: Json, ws: seq<Write>, q: Path)
    requires forall i :: 0 <= i < |ws| ==> !PathOverlap(ws[i].path, q)
    ensures Lookup(AllPut(d, ws), q) == Lookup(d, q)
  {
    if ws != [] {
      var front := ws[..|ws| - 1];
      WrittenElsewhere(d, front, q);
      LookupPutElsewhere(AllPut(d, front), ws[|ws| - 1].path, ws[|ws| - 1].value, q);
    }
  }

  /** Each written location holds its value in the end. */
  lemma {:induction false} WrittenThere(d: Json, ws: seq<Write>, k: nat)
    requires Harmless(ws) && k < |ws| && Lookup(d, ws[k].path).Some?
    ensures Lookup(AllPut(d, ws), ws[k].path) == Some(ws[k].value)
  {
    var n := |ws| - 1;
    var front := ws[..n];
    if k < n {
      WrittenThere(d, front, k);
      if ws[k] == ws[n] {
        LookupPut(AllPut(d, front), ws[n].path, ws[n].value);
      } else {
        LookupPutElsewhere(AllPut(d, front), ws[n].path, ws[n].value, ws[k].path);
      }
    } else {
      SlotStillThere(d, ws, n);
      LookupPut(AllPut(d, front), ws[n].path, ws[n].value);
    }
  }

  /** A slot of the payload is still there when its turn comes. */
  lemma {:induction false} SlotStillThere(d: Json, ws: seq<Write>, k: nat)
    requires Harmless(ws) && k < |ws| && Lookup(d, ws[k].path).Some?
    ensures Lookup(AllPut(d, ws[..k]), ws[k].path).Some?
    decreases k, 0
  {
    SlotStays(d, ws[..k], ws[k]);
  }

  lemma {:induction false} SlotStays(d: Json, ws: seq<Write>, w: Write)
    requires Lookup(d, w.path).Some?
    requires forall i :: 0 <= i < |ws| ==> ws[i] == w || !PathOverlap(ws[i].path, w.path)
    ensures Lookup(AllPut(d, ws), w.path).Some?
  {
    if ws != [] {
      var n := |ws| - 1;
      SlotStays(d, ws[..n], w);
      if ws[n] == w {
        LookupPut(AllPut(d, ws[..n]), w.path, w.value);
      } else {
        LookupPutElsewhere(AllPut(d, ws[..n]), ws[n].path, ws[n].value, w.path);
      }
    }
  }

  function Without<T>(ws: seq<T>, k: nat): (r: seq<T>)
    requires k < |ws|
    ensures |r| == |ws| - 1 && forall i :: 0 <= i < |r| ==> r[i] == ws[if i < k then i else i + 1]
    ensures multiset(ws) == multiset(r) + multiset{ws[k]}
  {
    assert ws == ws[..k] + [ws[k]] + ws[k + 1..];
    ws[..k] + ws[k + 1..]
  }

  lemma WithoutHarmless(ws: seq<Write>, k: nat)
    requires Harmless(ws) && k < |ws|
    ensures Harmless(Without(ws, k))
  {
  }

  lemma FrontHarmless(ws: seq<Write>)
    requires Harmless(ws) && ws != []
    ensures Harmless(ws[..|ws| - 1])
  {
  }

  lemma WithoutFront<T>(ws: seq<T>, k: nat)
    requires k < |ws| - 1
    ensures Without(ws, k) == Without(ws[..|ws| - 1], k) + [ws[|ws| - 1]]
  {
  }

  lemma AllPutSnoc(d: Json, ws: seq<Write>, w: Write)
    ensures AllPut(d, ws + [w]) == Put(AllPut(d, ws), w.path, w.value)
  {
    assert (ws + [w])[..|ws|] == ws;
  }

  /** Moving a write to the end changes nothing. */
  lemma {:induction false} MoveLast(d: Json, ws: seq<Write>, k: nat)
    requires Harmless(ws) && k < |ws|
    ensures AllPut(d, ws) == Put(AllPut(d, Without(ws, k)), ws[k].path, ws[k].value)
    decreases |ws|
  {
    var n := |ws| - 1;
    var front := ws[..n];
    assert ws == front + [ws[n]];
    AllPutSnoc(d, front, ws[n]);
    if k == n {
      assert Without(ws, k) == front;
    } else {
      FrontHarmless(ws);
      MoveLast(d, front, k);
      WithoutFront(ws, k);
      var rest := Without(front, k);
      AllPutSnoc(d, rest, ws[n]);
      if ws[k] != ws[n] {
        PutCommutes(AllPut(d, rest), ws[k].path, ws[k].value, ws[n].path, ws[n].value);
      }
    }
  }

  lemma SameSize<T>(a: seq<T>, b: seq<T>)
    requires multiset(a) == multiset(b)
    ensures |a| == |b|
  {
    assert |multiset(a)| == |a| && |multiset(b)| == |b|;
  }

  lemma FrontMultiset<T>(b: seq<T>)
    requires b != []
    ensures multiset(b) == multiset(b[..|b| - 1]) + multiset{b[|b| - 1]}
  {
    assert b == b[..|b| - 1] + [b[|b| - 1]];
  }

  lemma Occurs<T>(a: seq<T>, b: seq<T>) returns (k: nat)
    requires b != [] && multiset(a) == multiset(b)
    ensures k < |a| && a[k] == b[|b| - 1]
    ensures multiset(Without(a, k)) == multiset(b[..|b| - 1])
  {
    var w := b[|b| - 1];
    assert w in multiset(a);
    k :| 0 <= k < |a| && a[k] == w;
    FrontMultiset(b);
    assert multiset(Without(a, k)) == multiset(a) - multiset{w};
    assert multiset(b[..|b| - 1]) == multiset(b) - multiset{w};
  }

  /** Any order of disjoint writes gives the same document. */
  lemma {:induction false} AnyOrder(d: Json, a: seq<Write>, b: seq<Write>)
    requires Harmless(a) && multiset(a) == multiset(b)
    ensures AllPut(d, a) == AllPut(d, b)
    decreases |b|
  {
    SameSize(a, b);
    if b != [] {
      var k := Occurs(a, b);
      MoveLast(d, a, k);
      WithoutHarmless(a, k);
      AnyOrder(d, Without(a, k), b[..|b| - 1]);
    }
  }

  // ---------------------------------------------------------------- binding

  /** The arguments of one call: as many as declared, each with a payload form. */
  predicate Arguments(t: Template, ps: seq<Parameter>) {
    |ps| == t.parameters && Encodable(ps)
  }

  lemma ValidInRange(t: Template, ps: seq<Parameter>)
    requires Valid(t) && Arguments(t, ps)
    ensures InRange(t.bindings, ps)
  {
    assert forall i :: 0 <= i < |t.bindings| ==> Aims(t, t.bindings[i]);
  }

  /** The payload with the slots filled one by one; a missing slot is an error. */
  function Bound(d: Json, bs: seq<Binding>, ps: seq<Parameter>): Outcome<Json>
    requires Encodable(ps) && InRange(bs, ps)
  {
    if bs == [] then Done(d)
    else
      var b := bs[|bs| - 1];
      match Bound(d, bs[..|bs| - 1], ps)
      case Failed => Failed
      case Done(e) =>
        if Exists(e, b.pointer) then Done(Put(e, PathOf(b.pointer), WriteOf(b, ps).value)) else Failed
  }

  /** Success means that every write was made, in order. */
  lemma {:induction false} BoundIsPut(d: Json, bs: seq<Binding>, ps: seq<Parameter>)
    requires Encodable(ps) && InRange(bs, ps) && Bound(d, bs, ps).Done?
    ensures Bound(d, bs, ps).value == AllPut(d, Writes(bs, ps))
  {
    if bs != [] {
      WritesFront(bs, ps);
      BoundIsPut(d, bs[..|bs| - 1], ps);
    }
  }

  /** Harmless writes to existing slots all find their slot. */
  lemma {:induction false} BoundSucceeds(d: Json, bs: seq<Binding>, ps: seq<Parameter>)
    requires Encodable(ps) && InRange(bs, ps) && Harmless(Writes(bs, ps))
    requires forall i :: 0 <= i < |bs| ==> Exists(d, bs[i].pointer)
    ensures Bound(d, bs, ps).Done?
  {
    if bs != [] {
      var n := |bs| - 1;
      WritesFront(bs, ps);
      FrontHarmless(Writes(bs, ps));
      BoundSucceeds(d, bs[..n], ps);
      BoundIsPut(d, bs[..n], ps);
      SlotStillThere(d, Writes(bs, ps), n);
    }
  }

  /** One slot: a missing slot is an error. */
  method Fill(request: Json, b: Binding, ps: seq<Parameter>) returns (r: Outcome<Json>)
    requires b.parameter < |ps| && ps[b.parameter].payload.Some?
    ensures r.Done? <==> Exists(request, b.pointer)
    ensures r.Done? ==> r.value == Put(request, PathOf(b.pointer), WriteOf(b, ps).value)
  {
    if !Exists(request, b.pointer) {
      return Failed;
    }
    r := Done(Put(request, PathOf(b.pointer), WriteOf(b, ps).value));
  }

  /** The loop over the bindings. */
  method FillAll(d: Json, bs: seq<Binding>, ps: seq<Parameter>) returns (r: Outcome<Json>)
    requires Encodable(ps) && InRange(bs, ps)
    ensures r == Bound(d, bs, ps)
  {
    r := Done(d);
    for k := 0 to |bs|
      invariant InRange(bs[..k], ps) && r.Done? && r == Bound(d, bs[..k], ps)
    {
      assert bs[..k + 1][..k] == bs[..k];
      r := Fill(r.value, bs[k], ps);
      if r.Failed? {
        BoundFails(d, bs, k + 1, ps);
        return;
      }
    }
    assert bs[..|bs|] == bs;
  }

  lemma {:induction false} BoundFails(d: Json, bs: seq<Binding>, n: nat, ps: seq<Parameter>)
    requires Encodable(ps) && InRange(bs, ps) && n <= |bs| && InRange(bs[..n], ps) && Bound(d, bs[..n], ps).Failed?
    ensures Bound(d, bs, ps).Failed?
  {
    if n == |bs| {
      assert bs[..n] == bs;
    } else {
      assert bs[..|bs| - 1][..n] == bs[..n];
      BoundFails(d, bs[..|bs| - 1], n, ps);
    }
  }

  // ---------------------------------------------------------------- when every pointer is honoured

  /** Two bindings name disjoint locations or bind the same thing to the same location. */
  predicate Agreeable(a: Binding, b: Binding)
    requires IsPointer(a.pointer) && IsPointer(b.pointer)
  {
    || !PathOverlap(PathOf(a.pointer), PathOf(b.pointer))
    || (PathOf(a.pointer) == PathOf(b.pointer) && a.parameter == b.parameter && a.sqlNull == b.sqlNull)
  }

  predicate Compatible(bs: seq<Binding>) {
    && (forall i :: 0 <= i < |bs| ==> IsPointer(bs[i].pointer))
    && forall i, j :: 0 <= i < j < |bs| ==> Agreeable(bs[i], bs[j])
  }

  lemma CompatibleHarmless(bs: seq<Binding>, ps: seq<Parameter>)
    requires Compatible(bs) && InRange(bs, ps) && Encodable(ps)
    ensures Harmless(Writes(bs, ps))
  {
    var ws := Writes(bs, ps);
    forall i, j | 0 <= i < j < |ws| ensures ws[i] == ws[j] || !PathOverlap(ws[i].path, ws[j].path) {
      assert Agreeable(bs[i], bs[j]);
    }
  }

  /** Every pointer holds its parameter or null bit in the end. */
  ghost predicate Honours(d: Json, bs: seq<Binding>, ps: seq<Parameter>)
    requires Encodable(ps) && InRange(bs, ps)
  {
    forall i :: 0 <= i < |bs| ==>
      Lookup(d, PathOf(bs[i].pointer)) ==
        Some(if bs[i].sqlNull then Bool(ps[bs[i].parameter].isNull) else ps[bs[i].parameter].payload.value)
  }

  /** Nothing else changed. */
  ghost predicate KeepsRest(d: Json, e: Json, bs: seq<Binding>)
    requires forall i :: 0 <= i < |bs| ==> IsPointer(bs[i].pointer)
  {
    forall q: Path :: (forall i :: 0 <= i < |bs| ==> !PathOverlap(PathOf(bs[i].pointer), q)) ==>
      Lookup(e, q) == Lookup(d, q)
  }

  lemma BoundKeepsRest(d: Json, bs: seq<Binding>, ps: seq<Parameter>)
    requires Encodable(ps) && InRange(bs, ps) && Bound(d, bs, ps).Done?
    ensures KeepsRest(d, Bound(d, bs, ps).value, bs)
  {
    var ws := Writes(bs, ps);
    BoundIsPut(d, bs, ps);
    forall q: Path | forall i :: 0 <= i < |bs| ==> !PathOverlap(PathOf(bs[i].pointer), q)
      ensures Lookup(AllPut(d, ws), q) == Lookup(d, q)
    {
      forall i | 0 <= i < |ws| ensures !PathOverlap(ws[i].path, q) { assert ws[i] == WriteOf(bs[i], ps); }
      WrittenElsewhere(d, ws, q);
    }
  }

  lemma CompatibleHonours(t: Template, ps: seq<Parameter>)
    requires Valid(t) && Compatible(t.bindings) && Arguments(t, ps) && InRange(t.bindings, ps)
    ensures Bound(t.request, t.bindings, ps).Done?
    ensures Honours(Bound(t.request, t.bindings, ps).value, t.bindings, ps)
  {
    var ws := Writes(t.bindings, ps);
    assert forall i :: 0 <= i < |t.bindings| ==> Aims(t, t.bindings[i]);
    CompatibleHarmless(t.bindings, ps);
    BoundSucceeds(t.request, t.bindings, ps);
    BoundIsPut(t.request, t.bindings, ps);
    forall i | 0 <= i < |t.bindings|
      ensures Lookup(AllPut(t.request, ws), PathOf(t.bindings[i].pointer)) == Some(WriteOf(t.bindings[i], ps).value)
    {
      WrittenThere(t.request, ws, i);
    }
  }

  /** Binds a template, or fails on a wrong number of arguments, an invalid template, an argument
      without payload or a slot that an earlier write has removed. No slot is removed and each
      pointer holds its parameter or null bit in the end if the bindings are compatible; whatever
      they are, every disjoint location is unchanged. */
  method Bind(t: Template, ps: seq<Parameter>) returns (r: Outcome<Json>)
    ensures r.Done? ==> Arguments(t, ps) && Valid(t) && InRange(t.bindings, ps)
    ensures r.Done? ==> r == Bound(t.request, t.bindings, ps) && KeepsRest(t.request, r.value, t.bindings)
    ensures r.Failed? && Arguments(t, ps) && Valid(t) ==>
      InRange(t.bindings, ps) && Bound(t.request, t.bindings, ps).Failed? && !Compatible(t.bindings)
    ensures r.Done? && Compatible(t.bindings) ==> Honours(r.value, t.bindings, ps)
    ensures r.Done? && Compatible(t.bindings) ==> forall i :: 0 <= i < |t.bindings| ==>
      var b, slot := t.bindings[i], Lookup(r.value, PathOf(t.bindings[i].pointer));
      slot == Some(if b.sqlNull then Bool(ps[b.parameter].isNull) else ps[b.parameter].payload.value)
  {
    if |ps| != t.parameters {
      return Failed;
    }
    var ok := Validate(t);
    if !ok || exists i :: 0 <= i < |ps| && ps[i].payload.None? {
      return Failed;
    }
    ValidInRange(t, ps);
    r := FillAll(t.request, t.bindings, ps);
    if r.Done? { BoundKeepsRest(t.request, t.bindings, ps); }
    if Compatible(t.bindings) { CompatibleHonours(t, ps); }
  }

  /** Arguments that tell two bindings apart: NULL for one parameter and different numbers for the
      others. */
  function Telling(n: nat, a: nat): (ps: seq<Parameter>)
    ensures |ps| == n && Encodable(ps)
    ensures forall i :: 0 <= i < n ==>
      ps[i] == if i == a then Argument(Some(Null), true) else Argument(Some(Number(i)), false)
  {
    seq(n, i requires 0 <= i < n => if i == a then Argument(Some(Null), true) else Argument(Some(Number(i)), false))
  }

  lemma LookupBelow(d: Json, p: Path, q: Path)
    requires p < q && Lookup(d, p).Some? && Simple(Lookup(d, p).value)
    ensures Lookup(d, q).None?
    decreases |p|
  {
    if p != [] {
      assert p[0] == q[0];
      LookupBelow(Child(d, p[0]).value, p[1..], q[1..]);
    }
  }

  lemma ToldApart(a: Binding, b: Binding, n: nat)
    requires IsPointer(a.pointer) && IsPointer(b.pointer) && a.parameter < n && b.parameter < n
    requires a.parameter != b.parameter || a.sqlNull != b.sqlNull
    ensures WriteOf(a, Telling(n, a.parameter)).value != WriteOf(b, Telling(n, a.parameter)).value
  {
    var ps := Telling(n, a.parameter);
    assert ps[a.parameter] == Argument(Some(Null), true);
    assert b.parameter != a.parameter ==> ps[b.parameter] == Argument(Some(Number(b.parameter)), false);
  }

  /** No document honours two bindings that are not agreeable, for telling arguments. */
  lemma NoneHonours(d: Json, bs: seq<Binding>, n: nat, i: nat, j: nat)
    requires i < |bs| && j < |bs| && InRange(bs, Telling(n, bs[i].parameter)) && !Agreeable(bs[i], bs[j])
    ensures !Honours(d, bs, Telling(n, bs[i].parameter))
  {
    var ps := Telling(n, bs[i].parameter);
    var p, q := PathOf(bs[i].pointer), PathOf(bs[j].pointer);
    var x, y := WriteOf(bs[i], ps).value, WriteOf(bs[j], ps).value;
    if p == q { ToldApart(bs[i], bs[j], n); }
    assert Honours(d, bs, ps) ==> Lookup(d, p) == Some(x);
    assert Honours(d, bs, ps) ==> Lookup(d, q) == Some(y);
    NotBoth(d, p, x, q, y);
  }

  predicate Simple(v: Json) {
    !v.Array? && !v.Object?
  }

  lemma NotBoth(d: Json, p: Path, x: Json, q: Path, y: Json)
    requires PathOverlap(p, q) && Simple(x) && Simple(y) && (p == q ==> x != y)
    ensures !(Lookup(d, p) == Some(x) && Lookup(d, q) == Some(y))
  {
    if p < q && Lookup(d, p) == Some(x) {
      LookupBelow(d, p, q);
    } else if q < p && Lookup(d, q) == Some(y) {
      LookupBelow(d, q, p);
    }
  }

  /** For a valid template, binding honours every pointer, whatever the arguments, if and only if
      the bindings are compatible. */
  lemma HonouredExactly(t: Template)
    requires Valid(t)
    ensures Compatible(t.bindings) <==>
      forall ps :: Arguments(t, ps) ==>
        InRange(t.bindings, ps) && Bound(t.request, t.bindings, ps).Done? &&
        Honours(Bound(t.request, t.bindings, ps).value, t.bindings, ps)
  {
    if Compatible(t.bindings) {
      forall ps | Arguments(t, ps)
        ensures InRange(t.bindings, ps) && Bound(t.request, t.bindings, ps).Done? &&
                Honours(Bound(t.request, t.bindings, ps).value, t.bindings, ps)
      {
        ValidInRange(t, ps);
        CompatibleHonours(t, ps);
      }
    } else {
      assert forall i :: 0 <= i < |t.bindings| ==> Aims(t, t.bindings[i]);
      var i, j :| 0 <= i < j < |t.bindings| && !Agreeable(t.bindings[i], t.bindings[j]);
      var ps := Telling(t.parameters, t.bindings[i].parameter);
      assert Arguments(t, ps);
      ValidInRange(t, ps);
      if Bound(t.request, t.bindings, ps).Done? {
        NoneHonours(Bound(t.request, t.bindings, ps).value, t.bindings, t.parameters, i, j);
      }
    }
  }

  /** Valid templates whose pointers follow the grammar of section 3 of RFC 6901 are compatible. */
  lemma WellFormedCompatible(t: Template)
    requires Valid(t) && forall i :: 0 <= i < |t.bindings| ==> WellFormed(t.bindings[i].pointer)
    ensures Compatible(t.bindings)
  {
    forall i, j | 0 <= i < j < |t.bindings| ensures Agreeable(t.bindings[i], t.bindings[j]) {
      OverlapExactly(t.bindings[i].pointer, t.bindings[j].pointer);
    }
  }

  /** A member called "~" and two pointers to it, one with the tilde as it is. */
  const BARE_TILDE: Template := Template(
    "a", 2, Object(map["~" := Null]), [Binding("/~", 0, false), Binding("/~0", 1, false)])

  /** Validation compares texts, so it lets a bare tilde name a slot twice. */
  lemma BareTildeCollides()
    ensures Valid(BARE_TILDE) && !Compatible(BARE_TILDE.bindings)
  {
    var t := BARE_TILDE;
    assert Tokens("/~") == ["~"] && Tokens("/~0") == ["~0"] by {
      TokensCons("~", "");
      TokensCons("~0", "");
      assert "/" + "~" + "" == "/~" && "/" + "~0" + "" == "/~0";
      assert ["~"] + [] == ["~"] && ["~0"] + [] == ["~0"];
    }
    assert Decode("~") == "~" && Decode("~0") == "~" by {
      assert Unescape1("") == "" && Unescape0("") == "";
      assert "~"[1..] == "" && "~0"[1..] == "0" && "0"[1..] == "" && "~0"[2..] == "";
      assert Unescape1("0") == "0" && Unescape1("~0") == "~0";
    }
    assert PathOf("/~") == ["~"] && PathOf("/~0") == ["~"];
    assert Lookup(t.request, ["~"]).Some? by {
      assert ["~"][1..] == [];
    }
    assert !Agreeable(t.bindings[0], t.bindings[1]);
  }

  // ---------------------------------------------------------------- order

  lemma SameRange(bs: seq<Binding>, cs: seq<Binding>, ps: seq<Parameter>)
    requires InRange(bs, ps) && multiset(bs) == multiset(cs)
    ensures InRange(cs, ps)
  {
    forall i | 0 <= i < |cs| ensures IsPointer(cs[i].pointer) && cs[i].parameter < |ps| {
      assert cs[i] in multiset(bs);
    }
  }

  lemma WritesWithout(bs: seq<Binding>, k: nat, ps: seq<Parameter>)
    requires Encodable(ps) && InRange(bs, ps) && k < |bs|
    ensures InRange(Without(bs, k), ps) && Writes(Without(bs, k), ps) == Without(Writes(bs, ps), k)
  {
  }

  lemma WritesFront(bs: seq<Binding>, ps: seq<Parameter>)
    requires Encodable(ps) && InRange(bs, ps) && bs != []
    ensures InRange(bs[..|bs| - 1], ps) && Writes(bs[..|bs| - 1], ps) == Writes(bs, ps)[..|bs| - 1]
  {
  }

  /** Reordering the bindings reorders the writes. */
  lemma {:induction false} WritesReordered(bs: seq<Binding>, cs: seq<Binding>, ps: seq<Parameter>)
    requires Encodable(ps) && InRange(bs, ps) && InRange(cs, ps) && multiset(bs) == multiset(cs)
    ensures multiset(Writes(bs, ps)) == multiset(Writes(cs, ps))
    decreases |cs|
  {
    SameSize(bs, cs);
    if cs != [] {
      var k := Occurs(bs, cs);
      WritesWithout(bs, k, ps);
      WritesFront(cs, ps);
      WritesReordered(Without(bs, k), cs[..|cs| - 1], ps);
      FrontMultiset(Writes(cs, ps));
    }
  }

  /** A template whose compatible bindings are listed in another order binds to the same document. */
  lemma BindingOrderIrrelevant(t: Template, cs: seq<Binding>, ps: seq<Parameter>)
    requires Valid(t) && Compatible(t.bindings) && Arguments(t, ps) && multiset(cs) == multiset(t.bindings)
    ensures InRange(t.bindings, ps) && InRange(cs, ps)
    ensures Bound(t.request, cs, ps) == Bound(t.request, t.bindings, ps)
  {
    ValidInRange(t, ps);
    SameRange(t.bindings, cs, ps);
    WritesReordered(t.bindings, cs, ps);
    CompatibleHarmless(t.bindings, ps);
    CompatibleHonours(t, ps);
    BoundIsPut(t.request, t.bindings, ps);
    AnyOrder(t.request, Writes(t.bindings, ps), Writes(cs, ps));
    ReorderedHarmless(Writes(t.bindings, ps), Writes(cs, ps));
    forall i | 0 <= i < |cs| ensures Exists(t.request, cs[i].pointer) {
      assert cs[i] in multiset(t.bindings);
      var k :| 0 <= k < |t.bindings| && t.bindings[k] == cs[i];
      assert Aims(t, t.bindings[k]);
    }
    BoundSucceeds(t.request, cs, ps);
    BoundIsPut(t.request, cs, ps);
  }

  lemma ReorderedHarmless(a: seq<Write>, b: seq<Write>)
    requires Harmless(a) && multiset(a) == multiset(b)
    ensures Harmless(b)
  {
    forall i, j | 0 <= i < j < |b| ensures b[i] == b[j] || !PathOverlap(b[i].path, b[j].path) {
      assert b[i] in multiset(a) && b[j] in multiset(a);
      var k :| 0 <= k < |a| && a[k] == b[i];
      var l :| 0 <= l < |a| && a[l] == b[j];
      assert k != l ==> a[k] == a[l] || !PathOverlap(a[k].path, a[l].path);
    }
  }
}
