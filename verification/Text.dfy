/** Text as both ends of the tracker connection use it: decimal numbers, lines, string order. */
module Text {
  import opened Options

  const INT_MIN := -0x8000_0000
  const INT_MAX := 0x7fff_ffff

  // ----- to_string and stoi -----

  predicate IsDigit(c: char) {
    '0' <= c <= '9'
  }

  function Digit(d: nat): (c: char)
    requires d < 10
    ensures IsDigit(c) && DigitValue(c) == d
  {
    (('0' as int) + d) as char
  }

  function DigitValue(c: char): nat
    requires IsDigit(c)
  {
    (c as int) - ('0' as int)
  }

  function Decimal(n: nat): (s: string)
    ensures |s| > 0 && forall i | 0 <= i < |s| :: IsDigit(s[i])
  {
    if n < 10 then [Digit(n)] else Decimal(n / 10) + [Digit(n % 10)]
  }

  /** to_string. */
  function ToString(n: int): string {
    if n < 0 then "-" + Decimal(-n) else Decimal(n)
  }

  function LeadingDigits(s: string): (d: string)
    ensures |d| <= |s| && forall i | 0 <= i < |d| :: IsDigit(d[i])
  {
    if s == [] || !IsDigit(s[0]) then [] else [s[0]] + LeadingDigits(s[1..])
  }

  function DigitsValue(d: string): nat
    requires forall i | 0 <= i < |d| :: IsDigit(d[i])
  {
    if d == [] then 0 else 10 * DigitsValue(d[..|d| - 1]) + DigitValue(d[|d| - 1])
  }

  predicate IsSpace(c: char) {
    c == ' ' || '\t' <= c <= '\r'
  }

  function SkipSpaces(s: string): string {
    if s != [] && IsSpace(s[0]) then SkipSpaces(s[1..]) else s
  }

  /** stoi: blanks, an optional sign, then as many digits as there are; None when it throws. */
  function Stoi(s: string): Option<int> {
    var t := SkipSpaces(s);
    var negative := t != [] && t[0] == '-';
    var signed := negative || (t != [] && t[0] == '+');
    var d := LeadingDigits(if signed then t[1..] else t);
    var v: int := if negative then -(DigitsValue(d) as int) else DigitsValue(d);
    if d == [] || v < INT_MIN || v > INT_MAX then None else Some(v)
  }

  lemma {:induction false} DecimalValue(n: nat)
    ensures DigitsValue(Decimal(n)) == n
  {
    if n >= 10 {
      DecimalValue(n / 10);
      var d := Decimal(n);
      assert d[..|d| - 1] == Decimal(n / 10);
    } else {
      assert DigitsValue([]) == 0;
    }
  }

  // ----- stoi on any text -----

  /** s is blanks, a sign or none, digits, and something that does not go on with a digit. */
  ghost predicate Numeral(s: string, blanks: string, sign: string, d: string, rest: string) {
    && s == blanks + sign + d + rest
    && (forall i | 0 <= i < |blanks| :: IsSpace(blanks[i]))
    && IsSign(sign)
    && d != [] && (forall i | 0 <= i < |d| :: IsDigit(d[i]))
    && (rest == [] || !IsDigit(rest[0]))
  }

  predicate IsSign(sign: string) {
    |sign| == 0 || (|sign| == 1 && (sign[0] == '-' || sign[0] == '+'))
  }

  function Signed(sign: string, d: string): int
    requires forall i | 0 <= i < |d| :: IsDigit(d[i])
  {
    if |sign| == 1 && sign[0] == '-' then -(DigitsValue(d) as int) else DigitsValue(d)
  }

  lemma {:induction false} SkipsBlanks(blanks: string, t: string)
    requires forall i | 0 <= i < |blanks| :: IsSpace(blanks[i])
    requires t == [] || !IsSpace(t[0])
    ensures SkipSpaces(blanks + t) == t
  {
    if blanks == [] {
      assert blanks + t == t;
    } else {
      assert (blanks + t)[1..] == blanks[1..] + t;
      SkipsBlanks(blanks[1..], t);
    }
  }

  lemma {:induction false} DigitsStop(d: string, rest: string)
    requires forall i | 0 <= i < |d| :: IsDigit(d[i])
    requires rest == [] || !IsDigit(rest[0])
    ensures LeadingDigits(d + rest) == d
  {
    if d == [] {
      assert d + rest == rest;
    } else {
      assert (d + rest)[1..] == d[1..] + rest;
      DigitsStop(d[1..], rest);
    }
  }

  /** What stoi makes of a text that is a sign or none, and u, once its blanks are skipped. */
  lemma StoiOfSigned(s: string, sign: string, u: string)
    requires SkipSpaces(s) == sign + u && IsSign(sign)
    requires sign == [] && u != [] ==> u[0] != '-' && u[0] != '+'
    ensures var d := LeadingDigits(u);
            Stoi(s) == if d != [] && INT_MIN <= Signed(sign, d) <= INT_MAX then Some(Signed(sign, d)) else None
  {
    var t := SkipSpaces(s);
    if sign == [] {
      assert t == u;
    } else {
      assert t[0] == sign[0] && t[1..] == u;
    }
  }

  /** stoi on a numeral, whatever surrounds it: its value if that is a 32-bit integer, otherwise it throws. */
  lemma StoiOfNumeral(s: string, blanks: string, sign: string, d: string, rest: string)
    requires Numeral(s, blanks, sign, d, rest)
    ensures Stoi(s) == if INT_MIN <= Signed(sign, d) <= INT_MAX then Some(Signed(sign, d)) else None
  {
    var u := d + rest;
    assert s == blanks + (sign + u);
    assert (sign + u)[0] == if sign == [] then d[0] else sign[0];
    SkipsBlanks(blanks, sign + u);
    DigitsStop(d, rest);
    StoiOfSigned(s, sign, u);
  }

  lemma {:induction false} BlanksOf(s: string) returns (blanks: string)
    ensures s == blanks + SkipSpaces(s) && forall i | 0 <= i < |blanks| :: IsSpace(blanks[i])
  {
    blanks := [];
    if s != [] && IsSpace(s[0]) {
      var more := BlanksOf(s[1..]);
      blanks := [s[0]] + more;
    }
  }

  lemma {:induction false} RestOf(s: string) returns (rest: string)
    ensures s == LeadingDigits(s) + rest && (rest == [] || !IsDigit(rest[0]))
  {
    rest := s;
    if s != [] && IsDigit(s[0]) {
      rest := RestOf(s[1..]);
    }
  }

  lemma NumeralOf(s: string) returns (blanks: string, sign: string, d: string, rest: string)
    requires Stoi(s).Some?
    ensures Numeral(s, blanks, sign, d, rest)
  {
    blanks := BlanksOf(s);
    var u;
    sign, u := SignOf(SkipSpaces(s));
    StoiOfSigned(s, sign, u);
    d := LeadingDigits(u);
    rest := RestOf(u);
    FourParts(blanks, sign, d, rest);
  }

  lemma SignOf(t: string) returns (sign: string, u: string)
    ensures t == sign + u && IsSign(sign)
    ensures sign == [] && u != [] ==> u[0] != '-' && u[0] != '+'
  {
    sign := if t != [] && (t[0] == '-' || t[0] == '+') then t[..1] else [];
    u := t[|sign|..];
  }

  lemma FourParts(a: string, b: string, c: string, d: string)
    ensures a + (b + (c + d)) == a + b + c + d
  {}

  ghost predicate Reads(s: string, v: int) {
    exists blanks, sign, d, rest :: Numeral(s, blanks, sign, d, rest) && Signed(sign, d) == v
  }

  /** stoi gives v exactly when the text starts with a numeral of that value. */
  lemma StoiIsExact(s: string, v: int)
    ensures Stoi(s) == Some(v) <==> INT_MIN <= v <= INT_MAX && Reads(s, v)
  {
    if Stoi(s) == Some(v) {
      var blanks, sign, d, rest := NumeralOf(s);
      StoiOfNumeral(s, blanks, sign, d, rest);
    }
    if Reads(s, v) {
      var blanks, sign, d, rest :| Numeral(s, blanks, sign, d, rest) && Signed(sign, d) == v;
      StoiOfNumeral(s, blanks, sign, d, rest);
    }
  }

  lemma DigitsAreANumeral(sign: string, d: string)
    requires IsSign(sign) && d != [] && forall i | 0 <= i < |d| :: IsDigit(d[i])
    ensures Numeral(sign + d, [], sign, d, [])
  {
    assert [] + sign + d + [] == sign + d;
  }

  lemma ToStringSplits(n: int)
    ensures n < 0 ==> ToString(n) == ['-'] + Decimal(-n)
    ensures n >= 0 ==> ToString(n) == [] + Decimal(n)
  {}

  /** stoi undoes to_string on 32-bit integers. */
  lemma StoiOfToString(n: int)
    requires INT_MIN <= n <= INT_MAX
    ensures Stoi(ToString(n)) == Some(n)
  {
    var m := if n < 0 then -n else n;
    var sign: string := if n < 0 then ['-'] else [];
    DecimalValue(m);
    ToStringSplits(n);
    DigitsAreANumeral(sign, Decimal(m));
    StoiOfNumeral(sign + Decimal(m), [], sign, Decimal(m), []);
  }

  // ----- lines -----

  predicate OneLine(s: string) {
    '\n' !in s
  }

  /** Lines written one after the other, each ended by a newline. */
  function Render(lines: seq<string>): string {
    if lines == [] then "" else lines[0] + "\n" + Render(lines[1..])
  }

  lemma ConcatAssociates(a: string, b: string, c: string)
    ensures (a + b) + c == a + (b + c)
  {}

  lemma {:induction false} RenderConcat(a: seq<string>, b: seq<string>)
    ensures Render(a + b) == Render(a) + Render(b)
  {
    if a == [] {
      assert a + b == b;
    } else {
      RenderConcat(a[1..], b);
      assert a + b == [a[0]] + (a[1..] + b);
      ConcatAssociates(a[0] + "\n", Render(a[1..]), Render(b));
    }
  }

  /** find('\n', start): -1 stands for npos. */
  function FindNewline(s: string, start: nat): (i: int)
    ensures i == -1 || (start <= i < |s| && s[i] == '\n')
    ensures forall j | start <= j < (if i == -1 then |s| else i) :: s[j] != '\n'
    decreases |s| - start
  {
    if start >= |s| then -1
    else if s[start] == '\n' then start
    else FindNewline(s, start + 1)
  }

  /** The complete lines of a text from a position on; an unterminated rest is not a line. */
  function LinesFrom(s: string, start: nat): seq<string>
    decreases |s| - start
  {
    var e := FindNewline(s, start);
    if e == -1 then [] else [s[start..e]] + LinesFrom(s, e + 1)
  }

  /** Splitting rendered one-line texts gives them back. */
  lemma {:induction false} LinesOfRender(before: string, lines: seq<string>)
    requires forall i | 0 <= i < |lines| :: OneLine(lines[i])
    ensures LinesFrom(before + Render(lines), |before|) == lines
    decreases |lines|
  {
    var s := before + Render(lines);
    if lines == [] {
      assert s == before;
    } else {
      var line := lines[0];
      var before' := before + line + "\n";
      assert s == before' + Render(lines[1..]);
      var e := |before| + |line|;
      assert s[|before|..e] == line && s[e] == '\n';
      forall j | |before| <= j < e ensures s[j] != '\n' {
        assert s[j] == line[j - |before|];
      }
      LinesOfRender(before', lines[1..]);
      assert |before'| == e + 1;
      assert lines == [line] + lines[1..];
    }
  }

  // ----- the order of std::string -----

  predicate Less(a: string, b: string) {
    if b == [] then false
    else if a == [] then true
    else if a[0] != b[0] then a[0] < b[0]
    else Less(a[1..], b[1..])
  }

  lemma {:induction false} LessIsTotal(a: string, b: string)
    ensures !(Less(a, b) && Less(b, a))
    ensures a == b <==> !Less(a, b) && !Less(b, a)
  {
    if a != [] && b != [] && a[0] == b[0] {
      LessIsTotal(a[1..], b[1..]);
      assert a == [a[0]] + a[1..] && b == [b[0]] + b[1..];
    }
  }

  lemma {:induction false} LessIsTransitive(a: string, b: string, c: string)
    requires Less(a, b) && Less(b, c)
    ensures Less(a, c)
  {
    if a != [] && a[0] == b[0] == c[0] {
      LessIsTransitive(a[1..], b[1..], c[1..]);
    }
  }

  /** a and b agree before i, where a ends or has the smaller character. */
  ghost predicate SmallerAt(a: string, b: string, i: nat) {
    i <= |a| && i < |b| && a[..i] == b[..i] && (i == |a| || a[i] < b[i])
  }

  /** Less is the lexicographic order, a proper prefix coming first. */
  lemma {:induction false} LessIsLexicographic(a: string, b: string)
    ensures Less(a, b) <==> exists i: nat :: SmallerAt(a, b, i)
  {
    forall i: nat | i > 0 && SmallerAt(a, b, i) ensures a[0] == b[0] {
      assert a[..i][0] == b[..i][0];
    }
    if a == [] || b == [] || a[0] != b[0] {
      assert Less(a, b) ==> SmallerAt(a, b, 0);
    } else {
      LessIsLexicographic(a[1..], b[1..]);
      if i: nat :| SmallerAt(a[1..], b[1..], i) {
        assert a[..i + 1] == [a[0]] + a[1..][..i] && b[..i + 1] == [b[0]] + b[1..][..i];
        assert SmallerAt(a, b, i + 1);
      }
      if i: nat :| SmallerAt(a, b, i) {
        assert a[1..][..i - 1] == a[..i][1..] && b[1..][..i - 1] == b[..i][1..];
        assert SmallerAt(a[1..], b[1..], i - 1);
      }
    }
  }
}
