/** JSON documents and RFC 6901 pointers: reference tokens, unescaping, lookup and update. */
module JsonPointers {
  import opened Text

  datatype Json =
    | Null
    | Bool(flag: bool)
    | Number(value: int)
    | String(text: string)
    | Array(items: seq<Json>)
    | Object(fields: map<string, Json>)

  type Path = seq<string>

  // ---------------------------------------------------------------- tokens

  predicate NoSlash(s: string) {
    forall i :: 0 <= i < |s| ==> s[i] != '/'
  }

  predicate Raw(ts: seq<string>) {
    forall i :: 0 <= i < |ts| ==> NoSlash(ts[i])
  }

  /** Splits at every slash. */
  function Split(s: string): (ts: seq<string>)
    ensures ts != [] && Raw(ts)
  {
    if s == [] then [""]
    else
      var rest := Split(s[1..]);
      if s[0] == '/' then [""] + rest else [[s[0]] + rest[0]] + rest[1..]
  }

  /** Empty, or starting with a slash. */
  predicate IsPointer(p: string) {
    p == "" || p[0] == '/'
  }

  function Tokens(p: string): (ts: seq<string>)
    requires IsPointer(p)
    ensures Raw(ts)
  {
    if p == "" then [] else Split(p[1..])
  }

  /** The pointer that a list of raw tokens is written as. */
  function Written(ts: seq<string>): string {
    if ts == [] then "" else "/" + ts[0] + Written(ts[1..])
  }

  lemma {:induction false} WrittenSplit(s: string)
    ensures Written(Split(s)) == "/" + s
  {
    if s == [] {
      assert Split(s)[1..] == [];
    } else {
      WrittenSplit(s[1..]);
      var rest := Split(s[1..]);
      assert "/" + rest[0] + Written(rest[1..]) == "/" + s[1..];
      assert rest[0] + Written(rest[1..]) == s[1..] by {
        assert ("/" + rest[0] + Written(rest[1..]))[1..] == rest[0] + Written(rest[1..]);
        assert ("/" + s[1..])[1..] == s[1..];
      }
      if s[0] == '/' {
        assert ([""] + rest)[1..] == rest;
        assert s == "/" + s[1..];
      } else {
        assert ([[s[0]] + rest[0]] + rest[1..])[1..] == rest[1..];
        assert "/" + ([s[0]] + rest[0]) + Written(rest[1..]) == "/" + ([s[0]] + (rest[0] + Written(rest[1..])));
        assert s == [s[0]] + s[1..];
      }
    }
  }

  lemma WrittenTokens(p: string)
    requires IsPointer(p)
    ensures Written(Tokens(p)) == p
  {
    if p != "" {
      WrittenSplit(p[1..]);
      assert p == "/" + p[1..];
    }
  }

  lemma {:induction false} SplitFirst(t: string, rest: string)
    requires NoSlash(t) && (rest == "" || rest[0] == '/')
    ensures Split(t + rest) == if rest == "" then [t] else [t] + Split(rest[1..])
  {
    if t == "" {
      assert t + rest == rest;
    } else {
      assert (t + rest)[1..] == t[1..] + rest;
      SplitFirst(t[1..], rest);
      assert [t[0]] + t[1..] == t;
      var inner := Split(t[1..] + rest);
      assert inner[0] == t[1..];
    }
  }

  lemma TokensCons(t: string, rest: string)
    requires NoSlash(t) && IsPointer(rest)
    ensures IsPointer("/" + t + rest) && Tokens("/" + t + rest) == [t] + Tokens(rest)
  {
    assert ("/" + t + rest)[1..] == t + rest;
    SplitFirst(t, rest);
  }

  lemma {:induction false} TokensWritten(ts: seq<string>)
    requires Raw(ts)
    ensures IsPointer(Written(ts)) && Tokens(Written(ts)) == ts
  {
    if ts != [] {
      TokensWritten(ts[1..]);
      TokensCons(ts[0], Written(ts[1..]));
      assert ts == [ts[0]] + ts[1..];
    }
  }

  lemma {:induction false} WrittenConcat(a: seq<string>, b: seq<string>)
    ensures Written(a + b) == Written(a) + Written(b)
  {
    if a == [] {
      assert a + b == b;
    } else {
      assert (a + b)[1..] == a[1..] + b;
      WrittenConcat(a[1..], b);
    }
  }

  // ---------------------------------------------------------------- escapes

  /** Every occurrence of "~1" becomes "/". */
  function Unescape1(s: string): string {
    if s == [] then []
    else if |s| >= 2 && s[0] == '~' && s[1] == '1' then ['/'] + Unescape1(s[2..])
    else [s[0]] + Unescape1(s[1..])
  }

  /** Every occurrence of "~0" becomes "~". */
  function Unescape0(s: string): string {
    if s == [] then []
    else if |s| >= 2 && s[0] == '~' && s[1] == '0' then ['~'] + Unescape0(s[2..])
    else [s[0]] + Unescape0(s[1..])
  }

  function Decode(t: string): string {
    Unescape0(Unescape1(t))
  }

  /** Section 3 of RFC 6901: a tilde is always followed by 0 or 1. */
  predicate WellEscaped(t: string) {
    t == [] ||
    (if t[0] == '~' then |t| >= 2 && (t[1] == '0' || t[1] == '1') && WellEscaped(t[2..]) else WellEscaped(t[1..]))
  }

  function Encode(t: string): string {
    if t == [] then []
    else (if t[0] == '/' then "~1" else if t[0] == '~' then "~0" else [t[0]]) + Encode(t[1..])
  }

  /** Unescaping in the two passes of section 4 of RFC 6901 is undone by escaping, so
      different well-formed tokens name different members. */
  lemma {:induction false} EncodeDecode(t: string)
    requires NoSlash(t) && WellEscaped(t)
    ensures Encode(Decode(t)) == t
  {
    if t != [] {
      if t[0] == '~' {
        var rest := t[2..];
        EncodeDecode(rest);
        assert t == t[..2] + rest;
        if t[1] == '1' {
          var once := Unescape1(t);
          assert once == ['/'] + Unescape1(rest) && once[1..] == Unescape1(rest);
          assert Decode(t) == ['/'] + Decode(rest);
          assert Decode(t)[1..] == Decode(rest);
        } else {
          assert t[1..][1..] == rest;
          var tail := Unescape1(t[1..]);
          assert tail == ['0'] + Unescape1(rest);
          var once := Unescape1(t);
          assert once == ['~'] + tail && once[2..] == Unescape1(rest);
          assert Decode(t) == ['~'] + Decode(rest);
          assert Decode(t)[1..] == Decode(rest);
        }
      } else {
        var rest := t[1..];
        EncodeDecode(rest);
        var once := Unescape1(t);
        assert once[1..] == Unescape1(rest);
        assert Decode(t) == [t[0]] + Decode(rest);
        assert Decode(t)[1..] == Decode(rest);
      }
    }
  }

  predicate WellFormed(p: string) {
    IsPointer(p) && forall i :: 0 <= i < |Tokens(p)| ==> WellEscaped(Tokens(p)[i])
  }

  function PathOf(p: string): (path: Path)
    requires IsPointer(p)
    ensures |path| == |Tokens(p)| && forall i :: 0 <= i < |path| ==> path[i] == Decode(Tokens(p)[i])
  {
    seq(|Tokens(p)|, i requires 0 <= i < |Tokens(p)| => Decode(Tokens(p)[i]))
  }

  // ---------------------------------------------------------------- overlap

  /** The validator's test on pointer texts. */
  predicate TextOverlap(p: string, q: string) {
    || p == q || p == "" || q == ""
    || (q <= p && p[|q|..] != [] && p[|q|] == '/')
    || (p <= q && q[|p|..] != [] && q[|p|] == '/')
  }

  predicate PathOverlap(a: Path, b: Path) {
    a <= b || b <= a
  }

  predicate TextPrefix(p: string, q: string) {
    p <= q && (|p| == |q| || q[|p|] == '/')
  }

  lemma TextPrefixGivesTokens(p: string, q: string)
    requires IsPointer(p) && IsPointer(q) && TextPrefix(p, q)
    ensures Tokens(p) <= Tokens(q)
  {
    var rest := q[|p|..];
    assert q == p + rest && IsPointer(rest);
    WrittenTokens(p);
    WrittenTokens(rest);
    WrittenConcat(Tokens(p), Tokens(rest));
    TokensWritten(Tokens(p) + Tokens(rest));
  }

  lemma TokensGiveTextPrefix(p: string, q: string)
    requires IsPointer(p) && IsPointer(q) && Tokens(p) <= Tokens(q)
    ensures TextPrefix(p, q)
  {
    var more := Tokens(q)[|Tokens(p)|..];
    assert Tokens(q) == Tokens(p) + more;
    WrittenTokens(p);
    WrittenTokens(q);
    WrittenConcat(Tokens(p), more);
    TokensWritten(more);
    assert q == p + Written(more);
  }

  lemma TextPrefixIsTokenPrefix(p: string, q: string)
    requires IsPointer(p) && IsPointer(q)
    ensures TextPrefix(p, q) <==> Tokens(p) <= Tokens(q)
  {
    if TextPrefix(p, q) { TextPrefixGivesTokens(p, q); }
    if Tokens(p) <= Tokens(q) { TokensGiveTextPrefix(p, q); }
  }

  lemma TokenPrefixIsPathPrefix(p: string, q: string)
    requires WellFormed(p) && WellFormed(q)
    ensures Tokens(p) <= Tokens(q) <==> PathOf(p) <= PathOf(q)
  {
    var a, b := Tokens(p), Tokens(q);
    if PathOf(p) <= PathOf(q) {
      forall i | 0 <= i < |a| ensures a[i] == b[i] {
        EncodeDecode(a[i]);
        EncodeDecode(b[i]);
        assert PathOf(p)[i] == PathOf(q)[i];
      }
      assert a == b[..|a|];
    }
    if a <= b {
      assert forall i :: 0 <= i < |a| ==> a[i] == b[i];
    }
  }

  /** On well-formed pointers the textual test finds exactly the overlapping locations. */
  lemma OverlapExactly(p: string, q: string)
    requires WellFormed(p) && WellFormed(q)
    ensures TextOverlap(p, q) <==> PathOverlap(PathOf(p), PathOf(q))
  {
    TextPrefixIsTokenPrefix(p, q);
    TextPrefixIsTokenPrefix(q, p);
    TokenPrefixIsPathPrefix(p, q);
    TokenPrefixIsPathPrefix(q, p);
    assert TextOverlap(p, q) <==> TextPrefix(p, q) || TextPrefix(q, p);
  }

  // ---------------------------------------------------------------- documents

  /** Canonical array indices only: no sign and no leading zero. */
  function Index(t: string): Option<nat> {
    if t == "" || !AllDigits(t) || (t[0] == '0' && |t| != 1) then None else Some(ParseDec(t))
  }

  lemma IndexInjective(s: string, t: string)
    requires Index(s).Some? && Index(s) == Index(t)
    ensures s == t
  {
    DecOfParse(s);
    DecOfParse(t);
  }

  function Child(d: Json, t: string): Option<Json> {
    match d
    case Object(m) => if t in m then Some(m[t]) else None
    case Array(xs) => if Index(t).Some? && Index(t).value < |xs| then Some(xs[Index(t).value]) else None
    case _ => None
  }

  function WithChild(d: Json, t: string, v: Json): Json
    requires Child(d, t).Some?
  {
    match d
    case Object(m) => Object(m[t := v])
    case Array(xs) => Array(xs[Index(t).value := v])
  }

  function Lookup(d: Json, p: Path): Option<Json>
    decreases |p|
  {
    if p == [] then Some(d)
    else if Child(d, p[0]).Some? then Lookup(Child(d, p[0]).value, p[1..])
    else None
  }

  function Put(d: Json, p: Path, v: Json): Json
    decreases |p|
  {
    if p == [] then v
    else if Child(d, p[0]).Some? then WithChild(d, p[0], Put(Child(d, p[0]).value, p[1..], v))
    else d
  }

  lemma ChildOfWithChild(d: Json, t: string, v: Json, u: string)
    requires Child(d, t).Some?
    ensures Child(WithChild(d, t, v), u) == if u == t then Some(v) else Child(d, u)
  {
    if d.Array? && u != t && Index(u).Some? && Index(u) == Index(t) { IndexInjective(u, t); }
  }

  lemma {:induction false} LookupPut(d: Json, p: Path, v: Json)
    requires Lookup(d, p).Some?
    ensures Lookup(Put(d, p, v), p) == Some(v)
    decreases |p|
  {
    if p != [] {
      var c := Child(d, p[0]).value;
      LookupPut(c, p[1..], v);
      ChildOfWithChild(d, p[0], Put(c, p[1..], v), p[0]);
    }
  }

  /** Writing one location leaves every disjoint location as it was. */
  lemma {:induction false} LookupPutElsewhere(d: Json, p: Path, v: Json, q: Path)
    requires !PathOverlap(p, q)
    ensures Lookup(Put(d, p, v), q) == Lookup(d, q)
    decreases |p|
  {
    assert [] <= p && [] <= q;
    if Child(d, p[0]).Some? {
      var c := Child(d, p[0]).value;
      ChildOfWithChild(d, p[0], Put(c, p[1..], v), q[0]);
      if p[0] == q[0] {
        TailsDisjoint(p, q);
        LookupPutElsewhere(c, p[1..], v, q[1..]);
      }
    }
  }

  lemma TailsDisjoint(p: Path, q: Path)
    requires p != [] && q != [] && p[0] == q[0] && !PathOverlap(p, q)
    ensures !PathOverlap(p[1..], q[1..])
  {
    assert p == [p[0]] + p[1..] && q == [q[0]] + q[1..];
    assert p[1..] <= q[1..] ==> p <= q;
    assert q[1..] <= p[1..] ==> q <= p;
  }

  lemma WithChildCommutes(d: Json, t: string, v: Json, u: string, x: Json)
    requires t != u && Child(d, t).Some? && Child(d, u).Some?
    ensures Child(WithChild(d, t, v), u).Some? && Child(WithChild(d, u, x), t).Some?
    ensures WithChild(WithChild(d, t, v), u, x) == WithChild(WithChild(d, u, x), t, v)
  {
    ChildOfWithChild(d, t, v, u);
    ChildOfWithChild(d, u, x, t);
    if d.Array? && Index(u) == Index(t) { IndexInjective(u, t); }
  }

  lemma WithChildTwice(d: Json, t: string, v: Json, x: Json)
    requires Child(d, t).Some?
    ensures Child(WithChild(d, t, v), t).Some? && WithChild(WithChild(d, t, v), t, x) == WithChild(d, t, x)
  {
  }

  /** Writes to disjoint locations commute. */
  lemma {:induction false} PutCommutes(d: Json, p: Path, v: Json, q: Path, x: Json)
    requires !PathOverlap(p, q)
    ensures Put(Put(d, p, v), q, x) == Put(Put(d, q, x), p, v)
    decreases |p|
  {
    assert [] <= p && [] <= q;
    var cp, cq := Child(d, p[0]), Child(d, q[0]);
    if p[0] == q[0] {
      if cp.Some? {
        TailsDisjoint(p, q);
        PutCommutes(cp.value, p[1..], v, q[1..], x);
        WithChildTwice(d, p[0], Put(cp.value, p[1..], v), Put(Put(cp.value, p[1..], v), q[1..], x));
        WithChildTwice(d, p[0], Put(cp.value, q[1..], x), Put(Put(cp.value, q[1..], x), p[1..], v));
      }
    } else {
      if cp.Some? { ChildOfWithChild(d, p[0], Put(cp.value, p[1..], v), q[0]); }
      if cq.Some? { ChildOfWithChild(d, q[0], Put(cq.value, q[1..], x), p[0]); }
      if cp.Some? && cq.Some? {
        WithChildCommutes(d, p[0], Put(cp.value, p[1..], v), q[0], Put(cq.value, q[1..], x));
      }
    }
  }
}
