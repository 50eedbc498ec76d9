/** JSON arrays of string pairs, written compactly and read with white space and all escapes: a lawful
    codec for the field lists of struct type names. */
module JsonPairs {
  import opened Text
  import TypeNames

  type Pairs = TypeNames.Pairs

  // ---------------------------------------------------------------- characters

  function Hex(d: nat): char
    requires d < 16
  {
    "0123456789abcdef"[d]
  }

  function HexValue(c: char): Option<nat> {
    if '0' <= c <= '9' then Some((c - '0') as nat)
    else if 'a' <= c <= 'f' then Some(10 + (c - 'a') as nat)
    else if 'A' <= c <= 'F' then Some(10 + (c - 'A') as nat)
    else None
  }

  const QUOTE: char := '\"'
  const BACKSLASH: char := '\\'
  const BACKSPACE: char := 8 as char
  const FORM_FEED: char := 12 as char

  /** The letter of a short escape. */
  function ShortEscape(c: char): Option<char> {
    if c == QUOTE then Some(QUOTE)
    else if c == BACKSLASH then Some(BACKSLASH)
    else if c == '\n' then Some('n')
    else if c == '\r' then Some('r')
    else if c == '\t' then Some('t')
    else if c == BACKSPACE then Some('b')
    else if c == FORM_FEED then Some('f')
    else None
  }

  function ShortMeaning(e: char): Option<char> {
    if e == QUOTE then Some(QUOTE)
    else if e == BACKSLASH then Some(BACKSLASH)
    else if e == '/' then Some('/')
    else if e == 'n' then Some('\n')
    else if e == 'r' then Some('\r')
    else if e == 't' then Some('\t')
    else if e == 'b' then Some(BACKSPACE)
    else if e == 'f' then Some(FORM_FEED)
    else None
  }

  function Escape(c: char): (s: string)
    ensures s != ""
  {
    if ShortEscape(c).Some? then [BACKSLASH, ShortEscape(c).value]
    else if c < ' ' then [BACKSLASH, 'u', '0', '0', Hex(c as nat / 16), Hex(c as nat % 16)]
    else [c]
  }

  /** Four hexadecimal digits. */
  function Code(s: string): (r: Option<nat>)
    requires |s| == 4
    ensures r.Some? ==> r.value < 0x10000
  {
    var a, b, c, d := HexValue(s[0]), HexValue(s[1]), HexValue(s[2]), HexValue(s[3]);
    if a.None? || b.None? || c.None? || d.None? then None
    else Some(4096 * a.value + 256 * b.value + 16 * c.value + d.value)
  }

  predicate Leading(v: nat) {
    0xD800 <= v < 0xDC00
  }

  predicate Trailing(v: nat) {
    0xDC00 <= v < 0xE000
  }

  /** The code of an escape at the start, if there is one. */
  function CodeAt(s: string): (r: Option<nat>)
    ensures r.Some? ==> |s| >= 6 && s[0] == BACKSLASH && s[1] == 'u' && Code(s[2..6]) == r && r.value < 0x10000
  {
    if |s| >= 6 && s[0] == BACKSLASH && s[1] == 'u' then Code(s[2..6]) else None
  }

  /** A character above the first plane is escaped as two surrogates, which never stand alone. */
  function ReadEscape(s: string): (r: Option<(char, string)>)
    ensures r.Some? ==> |r.value.1| < |s|
  {
    match CodeAt(s)
    case None => None
    case Some(v) =>
      if Trailing(v) then None
      else if !Leading(v) then Some((v as char, s[6..]))
      else
        match CodeAt(s[6..])
        case None => None
        case Some(w) =>
          if Trailing(w) then Some(((0x10000 + 0x400 * (v - 0xD800) + (w - 0xDC00)) as char, s[12..])) else None
  }

  /** One character of a string literal, escaped or not. */
  function ReadChar(s: string): (r: Option<(char, string)>)
    ensures r.Some? ==> |r.value.1| < |s|
  {
    if s == "" || s[0] == QUOTE || s[0] < ' ' then None
    else if s[0] != BACKSLASH then Some((s[0], s[1..]))
    else if |s| < 2 then None
    else if s[1] == 'u' then ReadEscape(s)
    else if ShortMeaning(s[1]).Some? then Some((ShortMeaning(s[1]).value, s[2..]))
    else None
  }

  lemma ControlDigits(c: char)
    requires c < ' '
    ensures Code(['0', '0', Hex(c as nat / 16), Hex(c as nat % 16)]) == Some(c as nat)
  {
    var n := c as nat;
    assert HexValue(Hex(n / 16)) == Some(n / 16) && HexValue(Hex(n % 16)) == Some(n % 16);
  }

  lemma ReadEscaped(c: char, rest: string)
    ensures ReadChar(Escape(c) + rest) == Some((c, rest))
  {
    var s := Escape(c) + rest;
    if ShortEscape(c).Some? {
      assert s[2..] == rest;
    } else if c < ' ' {
      ControlDigits(c);
      assert s[6..] == rest && s[2..6] == Escape(c)[2..];
    } else {
      assert s[1..] == rest;
    }
  }

  // ---------------------------------------------------------------- strings

  function EscapeAll(x: string): string {
    if x == "" then "" else Escape(x[0]) + EscapeAll(x[1..])
  }

  /** The rest of a string literal after its opening quote. */
  function ReadString(s: string): (r: Option<(string, string)>)
    ensures r.Some? ==> |r.value.0| + |r.value.1| < |s|
    decreases |s|
  {
    if s == "" then None
    else if s[0] == QUOTE then Some(("", s[1..]))
    else
      match ReadChar(s)
      case None => None
      case Some((c, rest)) =>
        match ReadString(rest)
        case None => None
        case Some((x, after)) => Some(([c] + x, after))
  }

  lemma EscapeNoQuote(c: char)
    ensures Escape(c)[0] != QUOTE
  {
  }

  lemma {:induction false} ReadWrittenString(x: string, rest: string)
    ensures ReadString(EscapeAll(x) + ([QUOTE] + rest)) == Some((x, rest))
  {
    var tail := [QUOTE] + rest;
    if x == "" {
      assert EscapeAll(x) + tail == tail && tail[1..] == rest;
    } else {
      var more := EscapeAll(x[1..]) + tail;
      assert EscapeAll(x) + tail == Escape(x[0]) + more;
      assert (Escape(x[0]) + more)[0] == Escape(x[0])[0];
      EscapeNoQuote(x[0]);
      ReadEscaped(x[0], more);
      ReadWrittenString(x[1..], rest);
      assert [x[0]] + x[1..] == x;
    }
  }

  // ---------------------------------------------------------------- pairs

  function WriteString(x: string): string {
    [QUOTE] + EscapeAll(x) + [QUOTE]
  }

  function WritePair(p: (string, string)): string {
    "[" + WriteString(p.0) + "," + WriteString(p.1) + "]"
  }

  /** The pairs of an array after its opening bracket, with the closing one. */
  function WriteItems(ps: Pairs): string
    requires ps != []
  {
    WritePair(ps[0]) + (if |ps| == 1 then "]" else "," + WriteItems(ps[1..]))
  }

  function Write(ps: Pairs): string {
    if ps == [] then "[]" else "[" + WriteItems(ps)
  }

  predicate Space(c: char) {
    c == ' ' || c == '\t' || c == '\n' || c == '\r'
  }

  function SkipSpace(s: string): (r: string)
    ensures |r| <= |s|
  {
    if s != "" && Space(s[0]) then SkipSpace(s[1..]) else s
  }

  /** What follows a mark, which white space may precede. */
  function ReadAfter(s: string, mark: char): (r: Option<string>)
    ensures r.Some? ==> |r.value| < |s|
  {
    var t := SkipSpace(s);
    if t != "" && t[0] == mark then Some(t[1..]) else None
  }

  /** The mark is the last of the text. */
  predicate Closes(s: string, mark: char) {
    ReadAfter(s, mark).Some? && SkipSpace(ReadAfter(s, mark).value) == ""
  }

  lemma NoSpace(mark: char, rest: string)
    requires !Space(mark)
    ensures ReadAfter([mark] + rest, mark) == Some(rest)
    ensures forall other :: other != mark ==> ReadAfter([mark] + rest, other).None?
  {
    assert SkipSpace([mark] + rest) == [mark] + rest;
  }

  function ReadQuoted(s: string): (r: Option<(string, string)>)
    ensures r.Some? ==> |r.value.0| + |r.value.1| < |s|
  {
    match ReadAfter(s, QUOTE)
    case None => None
    case Some(rest) => ReadString(rest)
  }

  function ReadPair(s: string): (r: Option<((string, string), string)>)
    ensures r.Some? ==> |r.value.0.1| + |r.value.1| < |s|
  {
    match ReadAfter(s, '[')
    case None => None
    case Some(s1) =>
      match ReadQuoted(s1)
      case None => None
      case Some((a, s2)) =>
        match ReadAfter(s2, ',')
        case None => None
        case Some(s3) =>
          match ReadQuoted(s3)
          case None => None
          case Some((b, s4)) =>
            match ReadAfter(s4, ']')
            case None => None
            case Some(s5) => Some(((a, b), s5))
  }

  function ReadItems(s: string): (r: Option<Pairs>)
    ensures r.Some? ==> forall i :: 0 <= i < |r.value| ==> |r.value[i].1| < |s|
    decreases |s|
  {
    match ReadPair(s)
    case None => None
    case Some((p, rest)) =>
      if Closes(rest, ']') then Some([p])
      else
        match ReadAfter(rest, ',')
        case None => None
        case Some(more) =>
          match ReadItems(more)
          case None => None
          case Some(ps) => Some([p] + ps)
  }

  function Read(s: string): (r: Option<Pairs>)
    ensures r.Some? ==> forall i :: 0 <= i < |r.value| ==> |r.value[i].1| < |s|
  {
    match ReadAfter(s, '[')
    case None => None
    case Some(rest) => if Closes(rest, ']') then Some([]) else ReadItems(rest)
  }

  lemma ReadWrittenQuoted(x: string, rest: string)
    ensures ReadQuoted(WriteString(x) + rest) == Some((x, rest))
  {
    var s := WriteString(x) + rest;
    assert s == [QUOTE] + (EscapeAll(x) + ([QUOTE] + rest));
    NoSpace(QUOTE, EscapeAll(x) + ([QUOTE] + rest));
    ReadWrittenString(x, rest);
  }

  lemma ReadWrittenPair(p: (string, string), rest: string)
    ensures ReadPair(WritePair(p) + rest) == Some((p, rest))
  {
    var s := WritePair(p) + rest;
    var s4 := [']'] + rest;
    var s3 := WriteString(p.1) + s4;
    var s2 := [','] + s3;
    var s1 := WriteString(p.0) + s2;
    assert s == ['['] + s1;
    NoSpace('[', s1);
    ReadWrittenQuoted(p.0, s2);
    NoSpace(',', s3);
    ReadWrittenQuoted(p.1, s4);
    NoSpace(']', rest);
  }

  lemma {:induction false} ReadWrittenItems(ps: Pairs)
    requires ps != []
    ensures ReadItems(WriteItems(ps)) == Some(ps)
  {
    if |ps| == 1 {
      ReadWrittenPair(ps[0], "]");
      NoSpace(']', "");
      assert "]" == [']'] + "" && ps == [ps[0]];
    } else {
      ReadWrittenItems(ps[1..]);
      ReadMore(ps[0], WriteItems(ps[1..]));
      assert ps == [ps[0]] + ps[1..];
    }
  }

  lemma ReadMore(p: (string, string), items: string)
    requires ReadItems(items).Some?
    ensures ReadItems(WritePair(p) + ("," + items)) == Some([p] + ReadItems(items).value)
  {
    var rest := [','] + items;
    assert "," + items == rest;
    ReadWrittenPair(p, rest);
    NoSpace(',', items);
    assert ReadAfter(rest, ']').None? && ReadAfter(rest, ',') == Some(items);
  }

  lemma ReadWritten(ps: Pairs)
    ensures Read(Write(ps)) == Some(ps)
  {
    NoSpace(']', "");
    if ps == [] {
      NoSpace('[', "]");
      assert "[]" == ['['] + "]" && "]" == [']'] + "";
    } else {
      NoSpace('[', WriteItems(ps));
      assert Write(ps) == ['['] + WriteItems(ps);
      assert WriteItems(ps) == ['['] + WriteItems(ps)[1..];
      NoSpace('[', WriteItems(ps)[1..]);
      ReadWrittenItems(ps);
    }
  }

  // ---------------------------------------------------------------- objects

  predicate Before(a: string, b: string) {
    b != "" && (a == "" || a[0] < b[0] || (a[0] == b[0] && Before(a[1..], b[1..])))
  }

  /** Enters a member in the order of names; a repeated name keeps the last value. */
  function Insert(ps: Pairs, k: string, v: string): (r: Pairs)
    ensures forall i :: 0 <= i < |r| ==> r[i].1 == v || exists j :: 0 <= j < |ps| && ps[j].1 == r[i].1
  {
    if ps == [] then [(k, v)]
    else if ps[0].0 == k then [(k, v)] + ps[1..]
    else if Before(k, ps[0].0) then [(k, v)] + ps
    else [ps[0]] + Insert(ps[1..], k, v)
  }

  function ReadMember(s: string): (r: Option<((string, string), string)>)
    ensures r.Some? ==> |r.value.0.1| + |r.value.1| < |s|
  {
    match ReadQuoted(s)
    case None => None
    case Some((k, s1)) =>
      match ReadAfter(s1, ':')
      case None => None
      case Some(s2) =>
        match ReadQuoted(s2)
        case None => None
        case Some((v, s3)) => Some(((k, v), s3))
  }

  predicate Shorter(ps: Pairs, n: nat) {
    forall i :: 0 <= i < |ps| ==> |ps[i].1| < n
  }

  /** The members of an object after its opening brace, added to those read before. */
  function ReadMembers(s: string, before: Pairs, ghost n: nat): (r: Option<Pairs>)
    requires |s| <= n && Shorter(before, n)
    ensures r.Some? ==> Shorter(r.value, n)
    decreases |s|
  {
    match ReadMember(s)
    case None => None
    case Some((m, rest)) =>
      var now := Insert(before, m.0, m.1);
      if Closes(rest, '}') then Some(now)
      else
        match ReadAfter(rest, ',')
        case None => None
        case Some(more) => ReadMembers(more, now, n)
  }

  /** The older form of struct types: an object, whose members come sorted by name. */
  function ReadObject(s: string): (r: Option<Pairs>)
    ensures r.Some? ==> Shorter(r.value, |s|)
  {
    match ReadAfter(s, '{')
    case None => None
    case Some(rest) => if Closes(rest, '}') then Some([]) else ReadMembers(rest, [], |rest|)
  }

  /** The type-name theorems hold of these readers. */
  lemma CompactIsLawful()
    ensures TypeNames.Lawful(TypeNames.Codec(Write, Read), ReadObject)
  {
    forall ps: Pairs ensures Read(Write(ps)) == Some(ps) { ReadWritten(ps); }
    var J, O := TypeNames.Codec(Write, Read), TypeNames.Codec(Write, ReadObject);
    assert forall s: string :: O.read(s) == ReadObject(s) && J.read(s) == Read(s);
    assert TypeNames.Shrinks(O) by {
      forall s: string, i: nat | O.read(s).Some? && i < |O.read(s).value| ensures |O.read(s).value[i].1| < |s| {
        assert Shorter(ReadObject(s).value, |s|);
      }
    }
  }
}
