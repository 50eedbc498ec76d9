/** Names are stable: encoding the type that a written name decodes to gives the same name, whatever
    characters domain names hold. */
module TypeNameStability {
  import opened Text
  import opened TypeNames

  /** A written name, or text that ends in a colon and one, is no JSON text. */
  ghost predicate Rejects(read: string -> Option<Pairs>, J: Codec, a: string, t: Type) {
    TypeName(t, J).Some? ==> read(TypeName(t, J).value).None? && read(a + ":" + TypeName(t, J).value).None?
  }

  ghost predicate RejectsNames(read: string -> Option<Pairs>, J: Codec) {
    forall a: string, t: Type :: Rejects(read, J, a, t)
  }

  /** Written field lists are JSON arrays. */
  ghost predicate Bracketed(J: Codec) {
    forall ps: Pairs :: J.write(ps) != "" && J.write(ps)[0] == '['
  }

  ghost predicate Apart(J: Codec, sorted: string -> Option<Pairs>) {
    Lawful(J, sorted) && Bracketed(J) && RejectsNames(J.read, J) && RejectsNames(sorted, J)
  }

  // ---------------------------------------------------------------- first characters

  predicate StartsLower(s: string) {
    s != "" && 'a' <= s[0] <= 'z'
  }

  lemma SimpleStartsLower(t: Type)
    requires SimpleName(t).Some?
    ensures StartsLower(SimpleName(t).value)
  {
    TimestampNames();
  }

  lemma NameStartsLower(t: Type, J: Codec)
    requires TypeName(t, J).Some?
    ensures StartsLower(TypeName(t, J).value)
  {
    var s := TypeName(t, J).value;
    if IsDomain(t) || IsList(t) || t.Struct? || t.Decimal128? {
      assert "json"[0] == 'j' && "domain:"[0] == 'd' && "list:"[0] == 'l' && "struct_fields:"[0] == 's' &&
        "decimal:"[0] == 'd';
      assert s[0] == 'j' || s[0] == 'd' || s[0] == 'l' || s[0] == 's';
    } else {
      SimpleStartsLower(t);
    }
  }

  lemma SimpleTypeNoColon(s: string)
    requires SimpleType(s).Some?
    ensures ':' !in s && StartsLower(s)
  {
  }

  /** Text that starts with none of the letters of a compound name and holds a colon, or starts
      with no letter at all, is no type name. */
  lemma NoTypeName(s: string, J: Codec, sorted: string -> Option<Pairs>)
    requires Lawful(J, sorted) && s != "" && s[0] != 'd' && s[0] != 'l' && s[0] != 's'
    requires ':' in s || !StartsLower(s)
    ensures TypeOf(s, J, sorted).None?
  {
    assert "domain:"[0] == 'd' && "list:"[0] == 'l' && "struct_fields:"[0] == 's' && "struct:"[0] == 's' &&
      "decimal:"[0] == 'd';
    assert !("domain:" <= s) && !("list:" <= s) && !("struct_fields:" <= s) && !("struct:" <= s) && !("decimal:" <= s);
    if SimpleType(s).Some? { SimpleTypeNoColon(s); }
  }

  // ---------------------------------------------------------------- the first word

  lemma Regroup(p: string, word: string, more: string, name: string)
    ensures p + (word + ":" + more) + ":" + name == p + word + ":" + (more + ":" + name)
  {
  }

  lemma Regroup2(word: string, more: string, name: string)
    ensures word + ":" + more + ":" + name == word + ":" + (more + ":" + name)
  {
  }

  /** A compound name after "domain:" is read as a domain name and a storage name. */
  lemma Nest(head: string, start: string, word: string, x: string)
    requires start == word + ":"
    ensures head + (start + x) == head + word + ":" + x
  {
  }

  lemma NestTwo(head: string, start: string, word: string, n: string, x: string)
    requires start == word + ":"
    ensures head + (start + n + ":" + x) == head + word + ":" + (n + ":" + x)
  {
  }

  lemma Words()
    ensures "domain:" == "domain" + ":" && "list:" == "list" + ":" && "decimal:" == "decimal" + ":"
    ensures "struct_fields:" == "struct_fields" + ":" && "struct:" == "struct" + ":"
    ensures ':' !in "domain" && ':' !in "list" && ':' !in "decimal" && ':' !in "struct_fields" && ':' !in "struct"
  {
  }

  /** A word and a colon at the start of `a:name`: the word is `a`, or `a` goes on after it. */
  lemma WordFirst(word: string, a: string, name: string) returns (rest: Option<string>)
    requires ':' !in word && word + ":" <= a + ":" + name
    ensures rest.None? ==> a == word
    ensures rest.Some? ==> a == word + ":" + rest.value && |rest.value| < |a|
  {
    var s := a + ":" + name;
    assert s[|a|] == ':' && s[|word|] == (word + ":")[|word|] == ':';
    assert forall i :: 0 <= i < |word| ==> s[i] == (word + ":")[i] == word[i];
    assert |a| >= |word|;
    if |a| == |word| {
      assert a == s[..|a|] == word;
      rest := None;
    } else {
      assert a == s[..|a|];
      rest := Some(a[|word| + 1..]);
      assert a == word + ":" + rest.value;
    }
  }

  lemma DomainStable(word: string, storage: string, u: Type, J: Codec, sorted: string -> Option<Pairs>)
    requires Lawful(J, sorted) && ':' !in word && TypeOf("domain:" + word + ":" + storage, J, sorted) == Some(u)
    ensures DomainWord(word) && TypeOf(storage, J, sorted).Some?
    ensures
      TypeName(TypeOf(storage, J, sorted).value, J) == Some(storage) ==>
        TypeName(u, J) == Some("domain:" + word + ":" + storage)
  {
    DomainReads(word, storage, J, sorted);
    DomainTypeName(word, TypeOf(storage, J, sorted).value);
  }

  lemma ListStable(x: string, u: Type, J: Codec, sorted: string -> Option<Pairs>)
    requires Lawful(J, sorted) && TypeOf("list:" + x, J, sorted) == Some(u)
    ensures TypeOf(x, J, sorted).Some?
    ensures TypeName(TypeOf(x, J, sorted).value, J) == Some(x) ==> TypeName(u, J) == Some("list:" + x)
  {
    ListReads(x, J, sorted);
  }

  // ---------------------------------------------------------------- names

  /** Reading a written name gives a type of that name. */
  lemma {:induction false} NameStable(t: Type, u: Type, J: Codec, sorted: string -> Option<Pairs>)
    requires Apart(J, sorted) && TypeName(t, J).Some? && TypeOf(TypeName(t, J).value, J, sorted) == Some(u)
    ensures TypeName(u, J) == TypeName(t, J)
    decreases |TypeName(t, J).value|, 1
  {
    if IsJson(t) {
      JsonReads(t, J, sorted);
      NormalName(t, J);
    } else if IsDomain(t) {
      DomainNameStable(t, u, J, sorted);
    } else if IsList(t) {
      var x := TypeName(t.item.ty, J).value;
      ListStable(x, u, J, sorted);
      NameStable(t.item.ty, TypeOf(x, J, sorted).value, J, sorted);
    } else if t.Struct? {
      StructNameStable(t, u, J, sorted);
    } else {
      LeafReads(t, J, sorted);
      NormalLeafName(t, J);
    }
  }

  lemma {:induction false} DomainNameStable(t: Type, u: Type, J: Codec, sorted: string -> Option<Pairs>)
    requires Apart(J, sorted) && TypeName(t, J).Some? && TypeOf(TypeName(t, J).value, J, sorted) == Some(u)
    requires IsDomain(t) && !IsJson(t)
    ensures TypeName(u, J) == TypeName(t, J)
    decreases |TypeName(t, J).value|, 0
  {
    var name, inner := DomainName(t), t.fields[0].ty;
    var storage := TypeName(inner, J).value;
    match SplitOnce(name)
    case None =>
      DomainStable(name, storage, u, J, sorted);
      NameStable(inner, TypeOf(storage, J, sorted).value, J, sorted);
    case Some((word, more)) =>
      assert name == word + ":" + more;
      Regroup("domain:", word, more, storage);
      DomainStable(word, more + ":" + storage, u, J, sorted);
      SuffixStable(more, inner, TypeOf(more + ":" + storage, J, sorted).value, J, sorted);
  }

  /** The same for text that ends in a colon and a written name. */
  lemma {:induction false} SuffixStable(a: string, t: Type, u: Type, J: Codec, sorted: string -> Option<Pairs>)
    requires Apart(J, sorted) && TypeName(t, J).Some?
    requires TypeOf(a + ":" + TypeName(t, J).value, J, sorted) == Some(u)
    ensures TypeName(u, J) == Some(a + ":" + TypeName(t, J).value)
    decreases |a| + 1 + |TypeName(t, J).value|, 1
  {
    var name := TypeName(t, J).value;
    var s := a + ":" + name;
    if "domain:" <= s {
      Words();
      var rest := WordFirst("domain", a, name);
      if rest.None? {
        assert s == "domain:" + name;
        AfterDomain(t, u, J, sorted);
      } else {
        assert a == "domain:" + rest.value;
        SuffixAfterDomain(rest.value, t, u, J, sorted);
      }
    } else if "list:" <= s {
      SuffixAfterList(a, t, u, J, sorted);
    } else {
      SuffixElse(a, t, J, sorted);
    }
  }

  lemma {:induction false} SuffixAfterList(a: string, t: Type, u: Type, J: Codec, sorted: string -> Option<Pairs>)
    requires Apart(J, sorted) && TypeName(t, J).Some? && "list:" <= a + ":" + TypeName(t, J).value
    requires TypeOf(a + ":" + TypeName(t, J).value, J, sorted) == Some(u)
    ensures TypeName(u, J) == Some(a + ":" + TypeName(t, J).value)
    decreases |a| + 1 + |TypeName(t, J).value|, 0
  {
    var name := TypeName(t, J).value;
    Words();
    var rest := WordFirst("list", a, name);
    if rest.None? {
      ListStable(name, u, J, sorted);
      NameStable(t, TypeOf(name, J, sorted).value, J, sorted);
    } else {
      var x := rest.value + ":" + name;
      Regroup2("list", rest.value, name);
      ListStable(x, u, J, sorted);
      SuffixStable(rest.value, t, TypeOf(x, J, sorted).value, J, sorted);
    }
  }

  lemma {:induction false} SuffixAfterDomain(a: string, t: Type, u: Type, J: Codec, sorted: string -> Option<Pairs>)
    requires Apart(J, sorted) && TypeName(t, J).Some?
    requires TypeOf("domain:" + a + ":" + TypeName(t, J).value, J, sorted) == Some(u)
    ensures TypeName(u, J) == Some("domain:" + a + ":" + TypeName(t, J).value)
    decreases |a| + 8 + |TypeName(t, J).value|, 0
  {
    var name := TypeName(t, J).value;
    match SplitOnce(a)
    case None =>
      DomainStable(a, name, u, J, sorted);
      NameStable(t, TypeOf(name, J, sorted).value, J, sorted);
    case Some((word, more)) =>
      Regroup("domain:", word, more, name);
      DomainStable(word, more + ":" + name, u, J, sorted);
      SuffixStable(more, t, TypeOf(more + ":" + name, J, sorted).value, J, sorted);
  }

  /** A written name after "domain:": its own first word is taken for a domain name. */
  lemma {:induction false} AfterDomain(t: Type, u: Type, J: Codec, sorted: string -> Option<Pairs>)
    requires Apart(J, sorted) && TypeName(t, J).Some? && TypeOf("domain:" + TypeName(t, J).value, J, sorted) == Some(u)
    ensures TypeName(u, J) == Some("domain:" + TypeName(t, J).value)
    decreases 7 + |TypeName(t, J).value|, 0
  {
    if IsDomain(t) && !IsJson(t) {
      AfterDomainDomain(t, u, J, sorted);
    } else if IsList(t) {
      AfterDomainList(t, u, J, sorted);
    } else {
      AfterDomainElse(t, J, sorted);
    }
  }

  lemma {:induction false} AfterDomainDomain(t: Type, u: Type, J: Codec, sorted: string -> Option<Pairs>)
    requires Apart(J, sorted) && TypeName(t, J).Some? && TypeOf("domain:" + TypeName(t, J).value, J, sorted) == Some(u)
    requires IsDomain(t) && !IsJson(t)
    ensures TypeName(u, J) == Some("domain:" + TypeName(t, J).value)
    decreases 6 + |TypeName(t, J).value|, 2
  {
    var name, inner := DomainName(t), t.fields[0].ty;
    var storage := TypeName(inner, J).value;
    Words();
    NestTwo("domain:", "domain:", "domain", name, storage);
    DomainStable("domain", name + ":" + storage, u, J, sorted);
    SuffixStable(name, inner, TypeOf(name + ":" + storage, J, sorted).value, J, sorted);
  }

  lemma {:induction false} AfterDomainList(t: Type, u: Type, J: Codec, sorted: string -> Option<Pairs>)
    requires Apart(J, sorted) && TypeName(t, J).Some? && TypeOf("domain:" + TypeName(t, J).value, J, sorted) == Some(u)
    requires IsList(t)
    ensures TypeName(u, J) == Some("domain:" + TypeName(t, J).value)
    decreases 6 + |TypeName(t, J).value|, 2
  {
    var x := TypeName(t.item.ty, J).value;
    Words();
    Nest("domain:", "list:", "list", x);
    DomainStable("list", x, u, J, sorted);
    NameStable(t.item.ty, TypeOf(x, J, sorted).value, J, sorted);
  }

  lemma AfterDomainElse(t: Type, J: Codec, sorted: string -> Option<Pairs>)
    requires Apart(J, sorted) && TypeName(t, J).Some? && (!IsDomain(t) || IsJson(t)) && !IsList(t)
    ensures TypeOf("domain:" + TypeName(t, J).value, J, sorted).None?
  {
    if t.Decimal128? {
      AfterDomainDecimal(t.precision, t.scale, J, sorted);
    } else if t.Struct? && !IsJson(t) {
      AfterDomainFields(FieldNames(t.fields, J).value, J, sorted);
    } else {
      if IsJson(t) { JsonNoColon(); } else { SimpleNoColon(t); }
      DomainNeedsColon(TypeName(t, J).value, J, sorted);
    }
  }

  lemma JsonNoColon()
    ensures ':' !in "json"
  {
  }

  lemma AfterDomainFields(ps: Pairs, J: Codec, sorted: string -> Option<Pairs>)
    requires Apart(J, sorted)
    ensures TypeOf("domain:" + ("struct_fields:" + J.write(ps)), J, sorted).None?
  {
    Words();
    Nest("domain:", "struct_fields:", "struct_fields", J.write(ps));
    DomainReads("struct_fields", J.write(ps), J, sorted);
    NoTypeName(J.write(ps), J, sorted);
  }

  lemma AfterDomainDecimal(p: int, s: int, J: Codec, sorted: string -> Option<Pairs>)
    requires Lawful(J, sorted)
    ensures TypeOf("domain:" + ("decimal:" + Signed(p) + ":" + Signed(s)), J, sorted).None?
  {
    Words();
    NestTwo("domain:", "decimal:", "decimal", Signed(p), Signed(s));
    DomainReads("decimal", Signed(p) + ":" + Signed(s), J, sorted);
    NumberIsNoType(p, Signed(s), J, sorted);
  }

  lemma DomainNeedsColon(name: string, J: Codec, sorted: string -> Option<Pairs>)
    requires Lawful(J, sorted) && ':' !in name
    ensures TypeOf("domain:" + name, J, sorted).None?
  {
    var s := "domain:" + name;
    assert "domain:" <= s && s[7..] == name;
    NoSplit(name);
  }

  lemma {:induction false} NoSplit(s: string)
    requires ':' !in s
    ensures SplitOnce(s).None?
  {
    if s != "" { NoSplit(s[1..]); }
  }

  lemma SimpleNoColon(t: Type)
    requires SimpleName(t).Some?
    ensures ':' !in SimpleName(t).value
  {
    SimpleReads(t);
    SimpleTypeNoColon(SimpleName(t).value);
  }

  lemma NumberIsNoType(v: int, more: string, J: Codec, sorted: string -> Option<Pairs>)
    requires Lawful(J, sorted)
    ensures TypeOf(Signed(v) + ":" + more, J, sorted).None?
  {
    var s := Signed(v) + ":" + more;
    MagnitudeReads(if v < 0 then -v else v);
    assert IsDigit(Dec(if v < 0 then -v else v)[0]);
    assert s[0] == Signed(v)[0] && (s[0] == '-' || IsDigit(s[0]));
    assert s[|Signed(v)|] == ':';
    NoTypeName(s, J, sorted);
  }

  /** No other kind of name can end in a colon and a written name. */
  lemma SuffixElse(a: string, t: Type, J: Codec, sorted: string -> Option<Pairs>)
    requires Apart(J, sorted) && TypeName(t, J).Some?
    requires var s := a + ":" + TypeName(t, J).value; !("domain:" <= s) && !("list:" <= s)
    ensures TypeOf(a + ":" + TypeName(t, J).value, J, sorted).None?
  {
    var s := a + ":" + TypeName(t, J).value;
    assert s[|a|] == ':';
    Words();
    if "struct_fields:" <= s {
      JsonRejects("struct_fields", a, t, J.read, J);
      FieldsText(s, J, sorted);
    } else if "struct:" <= s {
      JsonRejects("struct", a, t, sorted, J);
      OlderText(s, J, sorted);
    } else if "decimal:" <= s {
      DecimalRejects(a, t, J);
      DecimalText(s, J, sorted);
    } else {
      PlainText(s, J, sorted);
    }
  }

  lemma FieldsText(s: string, J: Codec, sorted: string -> Option<Pairs>)
    requires Lawful(J, sorted) && "struct_fields:" <= s && J.read(s[14..]).None?
    ensures TypeOf(s, J, sorted).None?
  {
    assert s[0] == 's' && "domain:"[0] == 'd' && "list:"[0] == 'l';
    assert !("domain:" <= s) && !("list:" <= s);
  }

  lemma OlderText(s: string, J: Codec, sorted: string -> Option<Pairs>)
    requires Lawful(J, sorted) && "struct:" <= s && sorted(s[7..]).None?
    ensures TypeOf(s, J, sorted).None?
  {
    assert s[0] == 's' && s[6] == ':' && "domain:"[0] == 'd' && "list:"[0] == 'l' && "struct_fields:"[6] == '_';
    assert !("domain:" <= s) && !("list:" <= s) && !("struct_fields:" <= s);
  }

  lemma DecimalText(s: string, J: Codec, sorted: string -> Option<Pairs>)
    requires Lawful(J, sorted) && "decimal:" <= s && DecimalType(s[8..]).None?
    ensures TypeOf(s, J, sorted).None?
  {
    assert s == "decimal:" + s[8..];
    DecimalReads(s[8..], J, sorted);
  }

  lemma PlainText(s: string, J: Codec, sorted: string -> Option<Pairs>)
    requires Lawful(J, sorted) && ':' in s
    requires !("domain:" <= s) && !("list:" <= s) && !("struct_fields:" <= s) && !("struct:" <= s) && !("decimal:" <= s)
    ensures TypeOf(s, J, sorted).None?
  {
    if SimpleType(s).Some? { SimpleTypeNoColon(s); }
  }

  lemma JsonRejects(word: string, a: string, t: Type, read: string -> Option<Pairs>, J: Codec)
    requires TypeName(t, J).Some? && RejectsNames(read, J) && ':' !in word &&
      word + ":" <= a + ":" + TypeName(t, J).value
    ensures read((a + ":" + TypeName(t, J).value)[|word| + 1..]).None?
  {
    var name := TypeName(t, J).value;
    var rest := WordFirst(word, a, name);
    assert Rejects(read, J, if rest.Some? then rest.value else "", t);
    if rest.None? {
      assert (a + ":" + name)[|word| + 1..] == name;
    } else {
      assert (a + ":" + name)[|word| + 1..] == rest.value + ":" + name;
    }
  }

  lemma DecimalRejects(a: string, t: Type, J: Codec)
    requires TypeName(t, J).Some? && "decimal:" <= a + ":" + TypeName(t, J).value
    ensures DecimalType((a + ":" + TypeName(t, J).value)[8..]).None?
  {
    var name := TypeName(t, J).value;
    NameStartsLower(t, J);
    Words();
    var rest := WordFirst("decimal", a, name);
    if rest.None? {
      assert (a + ":" + name)[8..] == name;
      NoDecimal(name);
    } else {
      assert (a + ":" + name)[8..] == rest.value + ":" + name;
      NoDecimalAfter(rest.value, name);
    }
  }

  lemma LetterIsNoNumber(s: string, negative: bool)
    requires StartsLower(s)
    ensures ParseSigned(s, negative).None?
  {
    assert !IsDigit(s[0]);
  }

  lemma NoDecimal(s: string)
    requires StartsLower(s)
    ensures DecimalType(s).None?
  {
    var split := SplitOnce(s);
    if split.Some? {
      var left := split.value.0;
      assert s == left + ":" + split.value.1 && s[|left|] == ':' && |left| > 0 && left[0] == s[0];
      LetterIsNoNumber(left, false);
    }
  }

  lemma NoDecimalAfter(a: string, s: string)
    requires StartsLower(s)
    ensures DecimalType(a + ":" + s).None?
  {
    match SplitOnce(a)
    case None =>
      SplitAfterWord(a, s);
      if ':' !in s { LetterIsNoNumber(s, true); }
    case Some((word, more)) =>
      assert a + ":" + s == word + ":" + (more + ":" + s);
      SplitAfterWord(word, more + ":" + s);
      assert (more + ":" + s)[|more|] == ':';
  }

  // ---------------------------------------------------------------- structs

  lemma {:induction false} StructNameStable(t: Type, u: Type, J: Codec, sorted: string -> Option<Pairs>)
    requires Apart(J, sorted) && TypeName(t, J).Some? && TypeOf(TypeName(t, J).value, J, sorted) == Some(u)
    requires t.Struct? && !IsDomain(t)
    ensures TypeName(u, J) == TypeName(t, J)
    decreases |TypeName(t, J).value|, 0
  {
    var ps := FieldNames(t.fields, J).value;
    FieldsTextReads(t, u, ps, J, sorted);
    FieldNamesStable(t.fields, u.fields, |J.write(ps)| + 13, J, sorted);
    SameFieldNames(t, u);
    NameOfStruct(t, ps, J);
    NameOfStruct(u, ps, J);
  }

  lemma NameOfStruct(t: Type, ps: Pairs, J: Codec)
    requires t.Struct? && !IsDomain(t) && FieldNames(t.fields, J) == Some(ps)
    ensures TypeName(t, J) == Some("struct_fields:" + J.write(ps))
  {
  }

  lemma FieldsTextReads(t: Type, u: Type, ps: Pairs, J: Codec, sorted: string -> Option<Pairs>)
    requires Lawful(J, sorted) && TypeName(t, J).Some? && TypeOf(TypeName(t, J).value, J, sorted) == Some(u)
    requires t.Struct? && !IsDomain(t) && FieldNames(t.fields, J) == Some(ps)
    ensures u.Struct? && Within(ps, |J.write(ps)| + 13) && FieldsOf(ps, |J.write(ps)| + 13, J, sorted) == Some(u.fields)
    ensures |TypeName(t, J).value| == |J.write(ps)| + 14
  {
    assert TypeName(t, J).value == "struct_fields:" + J.write(ps);
    StructReads(ps, J, sorted);
  }

  lemma {:induction false} FieldNamesStable(fields: seq<Field>, us: seq<Field>, n: nat, J: Codec,
      sorted: string -> Option<Pairs>)
    requires Apart(J, sorted) && FieldNames(fields, J).Some? && Within(FieldNames(fields, J).value, n)
    requires FieldsOf(FieldNames(fields, J).value, n, J, sorted) == Some(us)
    ensures FieldNames(us, J) == FieldNames(fields, J)
    ensures |us| == |fields| && forall i :: 0 <= i < |us| ==> us[i].name == fields[i].name
    decreases n, |fields| + 2
  {
    if fields != [] {
      var ps := FieldNames(fields, J).value;
      assert ps[1..] == FieldNames(fields[1..], J).value;
      assert forall i :: 0 <= i < |ps| - 1 ==> ps[1..][i] == ps[i + 1];
      assert us[1..] == FieldsOf(ps[1..], n, J, sorted).value;
      assert ps[0] == (fields[0].name, TypeName(fields[0].ty, J).value);
      NameStable(fields[0].ty, us[0].ty, J, sorted);
      FieldNamesStable(fields[1..], us[1..], n, J, sorted);
    }
  }

  lemma SameFieldNames(t: Type, u: Type)
    requires t.Struct? && u.Struct? && !IsDomain(t)
    requires |u.fields| == |t.fields| && forall i :: 0 <= i < |u.fields| ==> u.fields[i].name == t.fields[i].name
    ensures !IsDomain(u)
  {
  }

  /** For every type whose name decodes, encoding the decoded type gives the same name. */
  lemma NameIsStable(t: Type, J: Codec, sorted: string -> Option<Pairs>)
    requires Apart(J, sorted) && TypeName(t, J).Some? && TypeOf(TypeName(t, J).value, J, sorted).Some?
    ensures TypeName(TypeOf(TypeName(t, J).value, J, sorted).value, J) == TypeName(t, J)
  {
    NameStable(t, TypeOf(TypeName(t, J).value, J, sorted).value, J, sorted);
  }
}
