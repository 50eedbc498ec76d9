/** Generated relation names: `__orchiddb_<kind>_<id>_<n>` plus underscores until the
    name is unused in the plan being routed. */
module ExchangeNames {
  import opened Text

  datatype Kind = Exchange | Operation | Request

  const PREFIX := "__orchiddb_"

  function KindText(k: Kind): string {
    match k
    case Exchange => "exchange_"
    case Operation => "operation_"
    case Request => "request_"
  }

  function BaseName(k: Kind, id: nat, n: nat): string {
    PREFIX + KindText(k) + Dec(id) + "_" + Dec(n)
  }

  /** How the names look. */
  lemma NamesLook(id: nat, n: nat)
    ensures BaseName(Exchange, id, n) == "__orchiddb_exchange_" + Dec(id) + "_" + Dec(n)
    ensures BaseName(Operation, id, n) == "__orchiddb_operation_" + Dec(id) + "_" + Dec(n)
    ensures BaseName(Request, id, n) == "__orchiddb_request_" + Dec(id) + "_" + Dec(n)
  {
    assert PREFIX + "exchange_" == "__orchiddb_exchange_" && PREFIX + "operation_" == "__orchiddb_operation_";
    assert PREFIX + "request_" == "__orchiddb_request_";
  }

  /** The first padded form of `name` outside `reserved`. */
  function Fresh(reserved: set<string>, name: string): (r: string)
    ensures r !in reserved && name <= r
    decreases |reserved|
  {
    if name !in reserved then name
    else
      var r := Fresh(reserved - {name}, name + "_");
      assert |r| > |name|;
      r
  }

  function Underscores(n: nat): string {
    if n == 0 then "" else "_" + Underscores(n - 1)
  }

  /** All shorter padded forms are reserved. */
  lemma {:induction false} FreshIsFirst(reserved: set<string>, name: string) returns (n: nat)
    ensures Fresh(reserved, name) == name + Underscores(n)
    ensures forall m: nat :: m < n ==> name + Underscores(m) in reserved
    decreases |reserved|
  {
    if name !in reserved {
      n := 0;
      assert name + "" == name;
    } else {
      var k := FreshIsFirst(reserved - {name}, name + "_");
      n := k + 1;
      assert name + "_" + Underscores(k) == name + Underscores(n);
      forall m: nat | m < n ensures name + Underscores(m) in reserved {
        if m == 0 {
          assert name + "" == name;
        } else {
          assert name + "_" + Underscores(m - 1) in reserved - {name};
          assert name + "_" + Underscores(m - 1) == name + Underscores(m);
        }
      }
    }
  }

  method PickFresh(reserved: set<string>, base: string) returns (name: string)
    ensures name == Fresh(reserved, base)
  {
    name := base;
    ghost var rest := reserved;
    while name in reserved
      invariant rest <= reserved && forall s :: s in reserved && s !in rest ==> |s| < |name|
      invariant Fresh(rest, name) == Fresh(reserved, base)
      decreases |rest|
    {
      assert name in rest;
      rest := rest - {name};
      name := name + "_";
    }
  }

  function DigitPrefix(s: string): (d: string)
    ensures d <= s && AllDigits(d)
  {
    if s == [] || !IsDigit(s[0]) then [] else [s[0]] + DigitPrefix(s[1..])
  }

  lemma {:induction false} DigitPrefixOf(d: string, rest: string)
    requires AllDigits(d) && (rest == [] || !IsDigit(rest[0]))
    ensures DigitPrefix(d + rest) == d
  {
    if d == [] {
      assert d + rest == rest;
    } else {
      assert (d + rest)[1..] == d[1..] + rest;
      DigitPrefixOf(d[1..], rest);
    }
  }

  /** The routing-call id embedded in a generated name. */
  function Stamp(name: string): string {
    var skip := if |name| <= 11 then 0
                else if name[11] == 'e' then 20 else if name[11] == 'o' then 21 else 19;
    if skip <= |name| then DigitPrefix(name[skip..]) else []
  }

  predicate GeneratedBy(name: string, id: nat) {
    StartsWith(name, PREFIX) && Stamp(name) == Dec(id)
  }

  /** Padding never changes which routing call a name belongs to. */
  lemma StampOfFresh(k: Kind, id: nat, n: nat, name: string)
    requires BaseName(k, id, n) <= name
    ensures GeneratedBy(name, id)
  {
    var rest := "_" + Dec(n) + name[|BaseName(k, id, n)|..];
    assert name == PREFIX + KindText(k) + (Dec(id) + rest);
    StampAfterKind(k, Dec(id) + rest);
    DigitPrefixOf(Dec(id), rest);
  }

  lemma StampAfterKind(k: Kind, rest: string)
    ensures StartsWith(PREFIX + KindText(k) + rest, PREFIX) && Stamp(PREFIX + KindText(k) + rest) == DigitPrefix(rest)
  {
    var head := PREFIX + KindText(k);
    var name := head + rest;
    assert |PREFIX| == 11 && name[11] == KindText(k)[0];
    assert name[|head|..] == rest;
  }

  lemma DifferentCallsDiffer(a: string, i: nat, b: string, j: nat)
    requires GeneratedBy(a, i) && GeneratedBy(b, j) && i != j
    ensures a != b
  {
    ParseOfDec(i);
    ParseOfDec(j);
  }
}
