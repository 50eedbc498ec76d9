/** Inside and outside of JSON string literals: letters stand inside only, so text that ends in a
    colon and a type name is no JSON text of strings. */
module JsonTokens {
  import opened Text
  import opened TypeNames
  import opened JsonPairs
  import opened TypeNameStability

  datatype State = Outside | Inside | Escaped | Digits(left: nat)

  predicate Mark(c: char) {
    c == '[' || c == ']' || c == '{' || c == '}' || c == ',' || c == ':'
  }

  function After(st: State, c: char): Option<State> {
    match st
    case Outside => if c == QUOTE then Some(Inside) else if Mark(c) || Space(c) then Some(Outside) else None
    case Inside => Some(if c == QUOTE then Outside else if c == BACKSLASH then Escaped else Inside)
    case Escaped => if c == 'u' then Some(Digits(4)) else if ShortMeaning(c).Some? then Some(Inside) else None
    case Digits(n) => if HexValue(c).None? then None else Some(if n <= 1 then Inside else Digits(n - 1))
  }

  function Lexed(st: State, s: string): Option<State>
    decreases |s|
  {
    if s == "" then Some(st)
    else
      match After(st, s[0])
      case None => None
      case Some(next) => Lexed(next, s[1..])
  }

  function Then(st: Option<State>, s: string): Option<State> {
    if st.None? then None else Lexed(st.value, s)
  }

  lemma {:induction false} LexedConcat(st: State, a: string, b: string)
    ensures Lexed(st, a + b) == Then(Lexed(st, a), b)
    decreases |a|
  {
    if a == "" {
      assert a + b == b;
    } else {
      assert (a + b)[1..] == a[1..] + b && (a + b)[0] == a[0];
      match After(st, a[0])
      case None =>
      case Some(next) => LexedConcat(next, a[1..], b);
    }
  }

  // ---------------------------------------------------------------- what the readers accept

  lemma CharLexed(s: string)
    requires ReadChar(s).Some?
    ensures Lexed(Inside, s) == Lexed(Inside, ReadChar(s).value.1)
  {
    var rest := ReadChar(s).value.1;
    if s[0] != BACKSLASH {
      assert After(Inside, s[0]) == Some(Inside);
    } else if s[1] != 'u' {
      assert s[1..][1..] == s[2..] && s[1..][0] == s[1];
      assert Lexed(Inside, s) == Lexed(Escaped, s[1..]);
    } else {
      UnicodeLexed(s);
      if Leading(CodeAt(s).value) {
        UnicodeLexed(s[6..]);
        assert s[6..][6..] == s[12..];
      }
    }
  }

  lemma UnicodeLexed(s: string)
    requires CodeAt(s).Some?
    ensures Lexed(Inside, s) == Lexed(Inside, s[6..])
  {
    var h := s[2..6];
    assert h[0] == s[2] && h[1] == s[3] && h[2] == s[4] && h[3] == s[5];
    assert s[1..][0] == s[1] && s[2..][0] == s[2] && s[3..][0] == s[3] && s[4..][0] == s[4] && s[5..][0] == s[5];
    assert s[1..][1..] == s[2..] && s[2..][1..] == s[3..] && s[3..][1..] == s[4..] && s[4..][1..] == s[5..];
    assert s[5..][1..] == s[6..];
    assert Lexed(Inside, s) == Lexed(Escaped, s[1..]) == Lexed(Digits(4), s[2..]);
    assert Lexed(Digits(4), s[2..]) == Lexed(Digits(3), s[3..]) == Lexed(Digits(2), s[4..]);
    assert Lexed(Digits(2), s[4..]) == Lexed(Digits(1), s[5..]) == Lexed(Inside, s[6..]);
  }

  lemma {:induction false} StringLexed(s: string)
    requires ReadString(s).Some?
    ensures Lexed(Inside, s) == Lexed(Outside, ReadString(s).value.1)
    decreases |s|
  {
    if s[0] == QUOTE {
      assert After(Inside, s[0]) == Some(Outside);
    } else {
      CharLexed(s);
      StringLexed(ReadChar(s).value.1);
    }
  }

  lemma MarkLexed(s: string, mark: char)
    requires ReadAfter(s, mark).Some? && Mark(mark)
    ensures Lexed(Outside, s) == Lexed(Outside, ReadAfter(s, mark).value)
  {
    SpaceLexed(s);
    assert After(Outside, SkipSpace(s)[0]) == Some(Outside);
  }

  lemma {:induction false} SpaceLexed(s: string)
    ensures Lexed(Outside, s) == Lexed(Outside, SkipSpace(s))
  {
    if s != "" && Space(s[0]) {
      assert After(Outside, s[0]) == Some(Outside);
      SpaceLexed(s[1..]);
    }
  }

  lemma ClosedLexed(s: string, mark: char)
    requires Closes(s, mark) && Mark(mark)
    ensures Lexed(Outside, s) == Some(Outside)
  {
    MarkLexed(s, mark);
    SpaceLexed(ReadAfter(s, mark).value);
  }

  lemma QuotedLexed(s: string)
    requires ReadQuoted(s).Some?
    ensures Lexed(Outside, s) == Lexed(Outside, ReadQuoted(s).value.1)
  {
    SpaceLexed(s);
    assert After(Outside, SkipSpace(s)[0]) == Some(Inside);
    StringLexed(SkipSpace(s)[1..]);
  }

  lemma PairLexed(s: string)
    requires ReadPair(s).Some?
    ensures Lexed(Outside, s) == Lexed(Outside, ReadPair(s).value.1)
  {
    var s1 := ReadAfter(s, '[').value;
    var s2 := ReadQuoted(s1).value.1;
    var s3 := ReadAfter(s2, ',').value;
    var s4 := ReadQuoted(s3).value.1;
    MarkLexed(s, '[');
    QuotedLexed(s1);
    MarkLexed(s2, ',');
    QuotedLexed(s3);
    MarkLexed(s4, ']');
  }

  lemma {:induction false} ItemsLexed(s: string)
    requires ReadItems(s).Some?
    ensures Lexed(Outside, s) == Some(Outside)
    decreases |s|
  {
    PairLexed(s);
    var rest := ReadPair(s).value.1;
    if Closes(rest, ']') {
      ClosedLexed(rest, ']');
    } else {
      MarkLexed(rest, ',');
      ItemsLexed(ReadAfter(rest, ',').value);
    }
  }

  lemma MemberLexed(s: string)
    requires ReadMember(s).Some?
    ensures Lexed(Outside, s) == Lexed(Outside, ReadMember(s).value.1)
  {
    var s1 := ReadQuoted(s).value.1;
    var s2 := ReadAfter(s1, ':').value;
    QuotedLexed(s);
    MarkLexed(s1, ':');
    QuotedLexed(s2);
  }

  lemma {:induction false} MembersLexed(s: string, before: Pairs, n: nat)
    requires |s| <= n && Shorter(before, n) && ReadMembers(s, before, n).Some?
    ensures Lexed(Outside, s) == Some(Outside)
    decreases |s|
  {
    MemberLexed(s);
    var (m, rest) := ReadMember(s).value;
    if Closes(rest, '}') {
      ClosedLexed(rest, '}');
    } else {
      MarkLexed(rest, ',');
      MembersLexed(ReadAfter(rest, ',').value, Insert(before, m.0, m.1), n);
    }
  }

  /** Both readers accept only text that closes every string and has nothing but marks and white space
      outside. */
  lemma AcceptedLexed(s: string)
    requires Read(s).Some? || ReadObject(s).Some?
    ensures Lexed(Outside, s) == Some(Outside)
  {
    var mark, close := if Read(s).Some? then '[' else '{', if Read(s).Some? then ']' else '}';
    var rest := ReadAfter(s, mark).value;
    MarkLexed(s, mark);
    if Closes(rest, close) {
      ClosedLexed(rest, close);
    } else if Read(s).Some? {
      ItemsLexed(rest);
    } else {
      MembersLexed(rest, [], |rest|);
    }
  }

  // ---------------------------------------------------------------- names

  const J: Codec := Codec(Write, Read)

  /** No quote and no backslash: inside stays inside. */
  predicate Plain(s: string) {
    forall i :: 0 <= i < |s| ==> s[i] != QUOTE && s[i] != BACKSLASH
  }

  lemma {:induction false} PlainLexed(s: string)
    requires Plain(s)
    ensures Lexed(Inside, s) == Some(Inside)
  {
    if s != "" {
      assert After(Inside, s[0]) == Some(Inside);
      PlainLexed(s[1..]);
    }
  }

  lemma LetterLexed(s: string)
    requires StartsLower(s)
    ensures Lexed(Outside, s).None?
  {
  }

  lemma SimplePlain(t: Type)
    requires SimpleName(t).Some?
    ensures Plain(SimpleName(t).value)
  {
    TimestampNames();
  }

  lemma SignedPlain(v: int)
    ensures Plain(Signed(v))
  {
    var digits := Dec(if v < 0 then -v else v);
    assert forall i :: 0 <= i < |digits| ==> IsDigit(digits[i]);
  }

  /** Escaped text has no quote of its own: read outside, it never gets inside. */
  lemma {:induction false} EscapedOutside(x: string)
    ensures Lexed(Outside, EscapeAll(x)) == None || Lexed(Outside, EscapeAll(x)) == Some(Outside)
  {
    if x != "" {
      var rest := EscapeAll(x[1..]);
      LexedConcat(Outside, Escape(x[0]), rest);
      EscapedOutside(x[1..]);
      OneEscapedOutside(x[0]);
    }
  }

  lemma OneEscapedOutside(c: char)
    ensures Lexed(Outside, Escape(c)) == None || Lexed(Outside, Escape(c)) == Some(Outside)
  {
    var s := Escape(c);
    if s[0] == BACKSLASH {
      assert After(Outside, s[0]).None?;
    } else {
      assert s == [c] && c != QUOTE && s[1..] == "";
    }
  }

  lemma ItemsShape(ps: Pairs) returns (rest: string)
    requires ps != []
    ensures WriteItems(ps) == WritePair(ps[0]) + rest
  {
    rest := if |ps| == 1 then "]" else "," + WriteItems(ps[1..]);
  }

  lemma PairShape(name: string, ty: string, rest: string)
    ensures
      "[" + ("[" + ([QUOTE] + name + [QUOTE]) + "," + ([QUOTE] + ty + [QUOTE]) + "]" + rest)
        == "[[" + ([QUOTE] + (name + ([QUOTE, ',', QUOTE] + (ty + ([QUOTE] + "]" + rest)))))
  {
  }

  lemma EscapedLetter(x: string, more: string)
    requires StartsLower(x)
    ensures StartsLower(EscapeAll(x) + more)
  {
    assert Escape(x[0]) == [x[0]];
    assert EscapeAll(x) == [x[0]] + EscapeAll(x[1..]);
    assert (EscapeAll(x) + more)[0] == x[0];
  }

  /** Where a closed string was expected, a field list opens one, and its type name falls outside. */
  lemma FieldsLexed(ps: Pairs)
    requires ps == [] || StartsLower(ps[0].1)
    ensures Lexed(Inside, Write(ps)) != Some(Outside)
  {
    if ps == [] {
      PlainLexed("[]");
    } else {
      var rest := ItemsShape(ps);
      var name, ty := EscapeAll(ps[0].0), EscapeAll(ps[0].1);
      PairShape(name, ty, rest);
      var tail := ty + ([QUOTE] + "]" + rest);
      FirstPairLexed(name, tail, ps[0].0);
      EscapedLetter(ps[0].1, [QUOTE] + "]" + rest);
      LetterLexed(tail);
    }
  }

  lemma FirstPairLexed(name: string, tail: string, x: string)
    requires name == EscapeAll(x)
    ensures
      var r := Lexed(Inside, "[[" + ([QUOTE] + (name + ([QUOTE, ',', QUOTE] + tail))));
      r.None? || r == Lexed(Outside, tail)
  {
    var s3 := [QUOTE, ',', QUOTE] + tail;
    var s2 := name + s3;
    var s1 := [QUOTE] + s2;
    LexedConcat(Inside, "[[", s1);
    PlainLexed("[[");
    assert s1[1..] == s2 && Lexed(Inside, s1) == Lexed(Outside, s2);
    LexedConcat(Outside, name, s3);
    EscapedOutside(x);
    SeparatorLexed(tail);
  }

  lemma SeparatorLexed(tail: string)
    ensures Lexed(Outside, [QUOTE, ',', QUOTE] + tail) == Lexed(Outside, tail)
  {
    var s := [QUOTE, ',', QUOTE] + tail;
    assert s[1..][1..] == s[2..] && s[2..][1..] == tail && s[1..][0] == ',' && s[2..][0] == QUOTE;
    assert Lexed(Outside, s) == Lexed(Inside, s[1..]) == Lexed(Inside, s[2..]) == Lexed(Outside, tail);
  }

  lemma PlainThen(a: string, b: string)
    requires Plain(a)
    ensures Lexed(Inside, a + b) == Lexed(Inside, b)
  {
    LexedConcat(Inside, a, b);
    PlainLexed(a);
  }

  /** After a colon that stands anywhere, a written name never ends the text properly. */
  lemma ColonThen(st: State, name: string)
    requires StartsLower(name) && Lexed(Inside, name) != Some(Outside)
    ensures Lexed(st, ":" + name) != Some(Outside)
  {
    var s := ":" + name;
    assert s[0] == ':' && s[1..] == name;
    if st.Outside? { LetterLexed(name); }
  }

  lemma {:induction false} NameLexed(t: Type)
    requires TypeName(t, J).Some?
    ensures Lexed(Inside, TypeName(t, J).value) != Some(Outside)
    decreases t, 1
  {
    if IsDomain(t) {
      if IsJson(t) { PlainLexed("json"); } else { DomainLexed(t); }
    } else if IsList(t) {
      NameLexed(t.item.ty);
      PlainThen("list:", TypeName(t.item.ty, J).value);
    } else if t.Struct? {
      StructLexed(t);
    } else if t.Decimal128? {
      DecimalLexed(t.precision, t.scale);
    } else {
      SimplePlain(t);
      PlainLexed(SimpleName(t).value);
    }
  }

  lemma StructLexed(t: Type)
    requires TypeName(t, J).Some? && t.Struct? && !IsDomain(t)
    ensures Lexed(Inside, TypeName(t, J).value) != Some(Outside)
  {
    var ps := FieldNames(t.fields, J).value;
    NameOfStruct(t, ps, J);
    FirstStartsLower(t.fields);
    FieldsLexed(ps);
    PlainThen("struct_fields:", Write(ps));
  }

  lemma FirstStartsLower(fields: seq<Field>)
    requires FieldNames(fields, J).Some?
    ensures FieldNames(fields, J).value != [] ==> StartsLower(FieldNames(fields, J).value[0].1)
  {
    if fields != [] { NameStartsLower(fields[0].ty, J); }
  }

  lemma {:induction false} DomainLexed(t: Type)
    requires TypeName(t, J).Some? && IsDomain(t) && !IsJson(t)
    ensures Lexed(Inside, TypeName(t, J).value) != Some(Outside)
    decreases t, 0
  {
    var name, storage := DomainName(t), TypeName(t.fields[0].ty, J).value;
    NameLexed(t.fields[0].ty);
    NameStartsLower(t.fields[0].ty, J);
    assert "domain:" + name + ":" + storage == "domain:" + (name + (":" + storage));
    PlainThen("domain:", name + (":" + storage));
    LexedConcat(Inside, name, ":" + storage);
    if Lexed(Inside, name).Some? { ColonThen(Lexed(Inside, name).value, storage); }
  }

  lemma DecimalLexed(p: int, s: int)
    ensures Lexed(Inside, "decimal:" + Signed(p) + ":" + Signed(s)) != Some(Outside)
  {
    SignedPlain(p);
    SignedPlain(s);
    var all := "decimal:" + Signed(p) + ":" + Signed(s);
    assert Plain(all);
    PlainLexed(all);
  }

  /** No reader accepts a written name, or text that ends in a colon and one. */
  lemma NamesRejected(a: string, t: Type)
    requires TypeName(t, J).Some?
    ensures Lexed(Outside, TypeName(t, J).value) != Some(Outside)
    ensures Lexed(Outside, a + ":" + TypeName(t, J).value) != Some(Outside)
  {
    var name := TypeName(t, J).value;
    NameStartsLower(t, J);
    NameLexed(t);
    LetterLexed(name);
    assert a + ":" + name == a + (":" + name);
    LexedConcat(Outside, a, ":" + name);
    if Lexed(Outside, a).Some? { ColonThen(Lexed(Outside, a).value, name); }
  }

  lemma StartsWithBracket(ps: Pairs)
    ensures Write(ps) != "" && Write(ps)[0] == '['
  {
  }

  lemma BothReject(a: string, t: Type)
    requires TypeName(t, J).Some?
    ensures Read(TypeName(t, J).value).None? && Read(a + ":" + TypeName(t, J).value).None?
    ensures ReadObject(TypeName(t, J).value).None? && ReadObject(a + ":" + TypeName(t, J).value).None?
  {
    var name := TypeName(t, J).value;
    NamesRejected(a, t);
    if Read(name).Some? || ReadObject(name).Some? { AcceptedLexed(name); }
    if Read(a + ":" + name).Some? || ReadObject(a + ":" + name).Some? { AcceptedLexed(a + ":" + name); }
  }

  /** The readers meet every hypothesis of the type-name theorems. */
  lemma CompactIsApart()
    ensures Apart(J, ReadObject)
  {
    CompactIsLawful();
    forall ps: Pairs ensures J.write(ps) != "" && J.write(ps)[0] == '[' { StartsWithBracket(ps); }
    var older := ReadObject;
    forall a: string, t: Type ensures Rejects(J.read, J, a, t) && Rejects(older, J, a, t) {
      if TypeName(t, J).Some? { BothReject(a, t); }
    }
  }

  /** With these readers: for every type, decoding its name gives the type back exactly when the type
      is readable and in normal form, and whatever a name decodes to has that name. */
  lemma CompactNames(t: Type)
    requires TypeName(t, J).Some?
    ensures Lawful(J, ReadObject)
    ensures TypeOf(TypeName(t, J).value, J, ReadObject) == Some(t) <==> Readable(t) && Normal(t) == t
    ensures
      var u := TypeOf(TypeName(t, J).value, J, ReadObject);
      u.Some? ==> TypeName(u.value, J) == TypeName(t, J)
  {
    CompactIsApart();
    RoundTripExactly(t, J, ReadObject);
    if TypeOf(TypeName(t, J).value, J, ReadObject).Some? { NameIsStable(t, J, ReadObject); }
  }
}
