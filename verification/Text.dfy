/** Decimal text and small string facts shared by the generated names, the type
    names, the permission filter and the date formatter. */
module Text {

  datatype Option<+T> = None | Some(value: T)
  datatype Outcome<+T> = Done(value: T) | Failed

  predicate IsDigit(c: char) {
    '0' <= c <= '9'
  }

  predicate AllDigits(s: string) {
    forall i :: 0 <= i < |s| ==> IsDigit(s[i])
  }

  function Digit(d: nat): (c: char)
    requires d < 10
    ensures IsDigit(c) && DigitValue(c) == d
  {
    d as char + '0'
  }

  function DigitValue(c: char): (d: nat)
    requires IsDigit(c)
    ensures d < 10
  {
    (c - '0') as nat
  }

  /** Canonical decimal text: no sign, no leading zero except for "0". */
  function Dec(n: nat): (s: string)
    ensures 0 < |s| && AllDigits(s)
    ensures s[0] == '0' <==> n == 0
    ensures |s| == 1 <==> n < 10
  {
    if n < 10 then [Digit(n)] else Dec(n / 10) + [Digit(n % 10)]
  }

  function ParseDec(s: string): nat
    requires AllDigits(s)
  {
    if s == [] then 0 else 10 * ParseDec(s[..|s| - 1]) + DigitValue(s[|s| - 1])
  }

  /** Printing is undone by parsing, so decimal text is injective. */
  lemma {:induction false} ParseOfDec(n: nat)
    ensures ParseDec(Dec(n)) == n
  {
    var s := Dec(n);
    if n >= 10 {
      ParseOfDec(n / 10);
      assert s[..|s| - 1] == Dec(n / 10);
    } else {
      assert s[..0] == [];
    }
  }

  lemma DecSnoc(n: nat, d: nat)
    requires n > 0 && d < 10
    ensures Dec(10 * n + d) == Dec(n) + [Digit(d)]
  {
    assert (10 * n + d) / 10 == n && (10 * n + d) % 10 == d;
  }

  /** Canonical digit text is the only text that printing its value gives back. */
  lemma {:induction false} DecOfParse(s: string)
    requires s != [] && AllDigits(s) && (s[0] == '0' ==> |s| == 1)
    ensures Dec(ParseDec(s)) == s
  {
    var front := s[..|s| - 1];
    if |s| == 1 {
      assert front == [];
    } else {
      DecOfParse(front);
      ParsePositive(front);
      DecSnoc(ParseDec(front), DigitValue(s[|s| - 1]));
      assert s == front + [s[|s| - 1]];
    }
  }

  lemma {:induction false} ParsePositive(s: string)
    requires s != [] && AllDigits(s) && s[0] != '0'
    ensures ParseDec(s) > 0
  {
    if |s| > 1 {
      ParsePositive(s[..|s| - 1]);
    } else {
      assert s[..0] == [];
    }
  }

  predicate StartsWith(s: string, prefix: string) {
    prefix <= s
  }

  /** Canonical decimal text of an integer. */
  function Signed(v: int): string {
    if v < 0 then "-" + Dec(-v) else Dec(v)
  }

  /** A signed decimal number as the integer parsers of the source accept it. */
  function ParseSigned(s: string, negative: bool): Option<int> {
    if s != "" && s[0] == '+' then Magnitude(s[1..])
    else if s != "" && s[0] == '-' && negative then Negated(Magnitude(s[1..]))
    else Magnitude(s)
  }

  function Magnitude(digits: string): Option<int> {
    if digits == "" || !AllDigits(digits) then None else Some(ParseDec(digits))
  }

  function Negated(v: Option<int>): Option<int> {
    if v.Some? then Some(-v.value) else None
  }

  lemma MagnitudeReads(n: nat)
    ensures Magnitude(Dec(n)) == Some(n) && Dec(n)[0] != '+' && Dec(n)[0] != '-'
  {
    ParseOfDec(n);
    assert IsDigit(Dec(n)[0]);
  }

  lemma SignedReads(v: int)
    ensures ParseSigned(Signed(v), true) == Some(v)
    ensures ParseSigned(Signed(v), false) == if v < 0 then None else Some(v)
  {
    MagnitudeReads(if v < 0 then -v else v);
    if v < 0 {
      var s := Signed(v);
      assert s[0] == '-' && s[1..] == Dec(-v);
      assert !IsDigit(s[0]) && !AllDigits(s);
    }
  }
}
