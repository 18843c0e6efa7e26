/**
  System.Int32 parsing as the validation code uses it: `int.Parse(s)` and
  `int.TryParse(s, out v)` with the default NumberStyles.Integer, that is
  optional leading white space, an optional sign, one or more decimal digits,
  optional trailing white space, and the value in the Int32 range. Like the
  .NET parser, trailing NUL characters are tolerated, and a string that is
  malformed is reported as a format error even when its digits overflow.
*/
module Int32Parsing {
  import opened Wrappers

  const Int32Min: int := -0x8000_0000
  const Int32Max: int := 0x7FFF_FFFF

  predicate InInt32Range(v: int) {
    Int32Min <= v <= Int32Max
  }

  /** The exceptions that the argument validation can observe */
  datatype Exception = IndexOutOfRangeException | FormatException | OverflowException

  /** White space for number parsing: U+0009 to U+000D and U+0020 */
  predicate IsWhite(c: char) {
    c == ' ' || '\t' <= c <= '\r'
  }

  predicate IsDigit(c: char) {
    '0' <= c <= '9'
  }

  predicate IsSign(c: char) {
    c == '+' || c == '-'
  }

  predicate AllWhite(s: string) {
    forall i :: 0 <= i < |s| ==> IsWhite(s[i])
  }

  predicate AllDigits(s: string) {
    forall i :: 0 <= i < |s| ==> IsDigit(s[i])
  }

  predicate AllNul(s: string) {
    forall i :: 0 <= i < |s| ==> s[i] == '\0'
  }

  /** Length of the longest white-space prefix of `s` */
  function LeadingWhite(s: string): (n: nat)
    ensures n <= |s|
    ensures forall i :: 0 <= i < n ==> IsWhite(s[i])
    ensures n < |s| ==> !IsWhite(s[n])
  {
    if s != [] && IsWhite(s[0]) then 1 + LeadingWhite(s[1..]) else 0
  }

  /** Length of the longest digit prefix of `s` */
  function LeadingDigits(s: string): (n: nat)
    ensures n <= |s|
    ensures forall i :: 0 <= i < n ==> IsDigit(s[i])
    ensures n < |s| ==> !IsDigit(s[n])
  {
    if s != [] && IsDigit(s[0]) then 1 + LeadingDigits(s[1..]) else 0
  }

  /** The value of a string of decimal digits, most significant first */
  function DigitsValue(ds: string): nat
    requires AllDigits(ds)
  {
    if ds == [] then 0
    else 10 * DigitsValue(ds[..|ds| - 1]) + (ds[|ds| - 1] as int - '0' as int)
  }

  /** `int.Parse(s)`: the value, or the exception it throws */
  function ParseInt32(s: string): (r: Result<int, Exception>)
    ensures r.Success? ==> InInt32Range(r.value)
    ensures r.Failure? ==> r.error == FormatException || r.error == OverflowException
  {
    ParseSigned(s[LeadingWhite(s)..])
  }

  /** The text after the leading white space: an optional sign, then the digits */
  function ParseSigned(t: string): (r: Result<int, Exception>)
    ensures r.Success? ==> InInt32Range(r.value)
    ensures r.Failure? ==> r.error == FormatException || r.error == OverflowException
  {
    if t != [] && IsSign(t[0]) then ParseDigits(t[0] == '-', t[1..]) else ParseDigits(false, t)
  }

  /** The text after the sign: digits, then white space and NULs only */
  function ParseDigits(negative: bool, u: string): (r: Result<int, Exception>)
    ensures r.Success? ==> InInt32Range(r.value)
    ensures r.Failure? ==> r.error == FormatException || r.error == OverflowException
  {
    var n := LeadingDigits(u);
    var tail := u[n..];
    if n == 0 || !AllNul(tail[LeadingWhite(tail)..]) then Failure(FormatException)
    else RangeChecked(SignedValue(negative, u[..n]))
  }

  /** The last step of the parse: the value inside the Int32 range, an overflow outside it */
  function RangeChecked(v: int): (r: Result<int, Exception>)
    ensures r.Success? <==> InInt32Range(v)
    ensures r.Success? ==> r.value == v
    ensures r.Failure? ==> r.error == OverflowException
  {
    if InInt32Range(v) then Success(v) else Failure(OverflowException)
  }

  /** The signed value a sign string and a digit string denote */
  function SignedValue(negative: bool, ds: string): int
    requires AllDigits(ds)
  {
    var magnitude: int := DigitsValue(ds);
    if negative then -magnitude else magnitude
  }

  /** `int.TryParse(s, out v)`: the same grammar as `int.Parse`, with no exception */
  function TryParseInt32(s: string): (r: Option<int>)
    ensures r.Some? ==> ParseInt32(s) == Success(r.value)
    ensures r.None? ==> ParseInt32(s).Failure?
  {
    match ParseInt32(s)
    case Success(v) => Some(v)
    case Failure(_) => None
  }

  /** The decimal digit for 0 <= d < 10 */
  function DigitChar(d: nat): (c: char)
    requires d < 10
    ensures IsDigit(c) && c as int - '0' as int == d
  {
    ('0' as int + d) as char
  }

  /** The shortest decimal representation of `n` */
  function Decimal(n: nat): (ds: string)
    ensures ds != [] && AllDigits(ds)
  {
    if n < 10 then [DigitChar(n)] else Decimal(n / 10) + [DigitChar(n % 10)]
  }

  /** `n.ToString()` with the invariant culture */
  function Show(n: int): string {
    if n < 0 then "-" + Decimal(-n) else Decimal(n)
  }

  lemma {:induction false} DecimalValue(n: nat)
    ensures DigitsValue(Decimal(n)) == n
  {
    if n >= 10 {
      var ds := Decimal(n);
      assert ds[..|ds| - 1] == Decimal(n / 10);
      DecimalValue(n / 10);
    }
  }

  lemma {:induction false} LeadingWhiteAfter(ws: string, rest: string)
    requires AllWhite(ws)
    requires rest == [] || !IsWhite(rest[0])
    ensures LeadingWhite(ws + rest) == |ws|
  {
    if ws != [] {
      assert (ws + rest)[1..] == ws[1..] + rest;
      LeadingWhiteAfter(ws[1..], rest);
    } else {
      assert ws + rest == rest;
    }
  }

  lemma {:induction false} LeadingDigitsAfter(ds: string, rest: string)
    requires AllDigits(ds)
    requires rest == [] || !IsDigit(rest[0])
    ensures LeadingDigits(ds + rest) == |ds|
  {
    if ds != [] {
      assert (ds + rest)[1..] == ds[1..] + rest;
      LeadingDigitsAfter(ds[1..], rest);
    } else {
      assert ds + rest == rest;
    }
  }

  /**
    Every string of the shape white space, optional sign, digits, white
    space, NULs parses to the signed value of its digits, or overflows.
  */
  lemma ParseWellFormed(ws: string, sign: string, ds: string, trail: string, nuls: string)
    requires AllWhite(ws) && AllWhite(trail) && AllNul(nuls)
    requires sign == "" || sign == "+" || sign == "-"
    requires ds != [] && AllDigits(ds)
    ensures ParseInt32(ws + sign + ds + trail + nuls)
         == var v := SignedValue(sign == "-", ds);
            if InInt32Range(v) then Success(v) else Failure(OverflowException)
  {
    var end := trail + nuls;
    var body := sign + ds + end;
    assert ws + sign + ds + trail + nuls == ws + body;
    LeadingWhiteAfter(ws, body);
    assert (ws + body)[|ws|..] == body;
    ParseSignedWellFormed(sign, ds, end);
    ParseDigitsWellFormed(sign == "-", ds, trail, nuls);
  }

  lemma ParseSignedWellFormed(sign: string, ds: string, end: string)
    requires sign == "" || sign == "+" || sign == "-"
    requires ds != [] && AllDigits(ds)
    ensures ParseSigned(sign + ds + end) == ParseDigits(sign == "-", ds + end)
  {
    var body := sign + ds + end;
    if sign == "" {
      assert body == ds + end;
    } else {
      assert body[0] == sign[0];
      assert body[1..] == ds + end;
    }
  }

  lemma ParseDigitsWellFormed(negative: bool, ds: string, trail: string, nuls: string)
    requires AllWhite(trail) && AllNul(nuls)
    requires ds != [] && AllDigits(ds)
    ensures var v := SignedValue(negative, ds);
      ParseDigits(negative, ds + (trail + nuls)) == if InInt32Range(v) then Success(v) else Failure(OverflowException)
  {
    var end := trail + nuls;
    var u := ds + end;
    assert end == [] || !IsDigit(end[0]);
    LeadingDigitsAfter(ds, end);
    assert u[..|ds|] == ds;
    assert u[|ds|..] == end;
    LeadingWhiteAfter(trail, nuls);
    assert end[|trail|..] == nuls;
  }

  /** A digit stage without a format error splits its text into digits, white space and NULs */
  lemma ParsedDigitsShape(negative: bool, u: string) returns (ds: string, trail: string, nuls: string)
    requires ParseDigits(negative, u) != Failure(FormatException)
    ensures u == ds + trail + nuls
    ensures ds != [] && AllDigits(ds) && AllWhite(trail) && AllNul(nuls)
    ensures ParseDigits(negative, u) == RangeChecked(SignedValue(negative, ds))
  {
    var n := LeadingDigits(u);
    var tail := u[n..];
    var t := LeadingWhite(tail);
    ds, trail, nuls := u[..n], tail[..t], tail[t..];
    assert tail == trail + nuls;
    assert u == ds + tail;
  }

  /** The sign stage splits its text into an optional sign and the digit stage's text */
  lemma ParsedSignedShape(t: string) returns (sign: string, u: string)
    ensures t == sign + u
    ensures sign == "" || sign == "+" || sign == "-"
    ensures ParseSigned(t) == ParseDigits(sign == "-", u)
  {
    if t != [] && IsSign(t[0]) {
      sign, u := [t[0]], t[1..];
      assert t == sign + u;
    } else {
      sign, u := "", t;
      assert t == sign + u;
    }
  }

  lemma Regroup(a: string, b: string, c: string, d: string, e: string)
    ensures a + (b + (c + d + e)) == a + b + c + d + e
  {
    assert b + (c + d + e) == b + c + d + e;
  }

  /** The shape of a well-formed integer text with its pieces named */
  predicate WellFormedAs(s: string, ws: string, sign: string, ds: string, trail: string, nuls: string) {
    && s == ws + sign + ds + trail + nuls
    && AllWhite(ws) && (sign == "" || sign == "+" || sign == "-")
    && ds != [] && AllDigits(ds) && AllWhite(trail) && AllNul(nuls)
  }

  /**
    The converse of ParseWellFormed: a string that does not raise a format
    error is white space, an optional sign, digits, white space and NULs, in
    that order, and parses to the signed value of those digits, or overflows
    when that value is outside the Int32 range. So a token that is malformed
    anywhere, digits or not, is a format error and never an overflow.
  */
  lemma ParsedShape(s: string)
    requires ParseInt32(s) != Failure(FormatException)
    ensures exists ws, sign, ds, trail, nuls ::
      WellFormedAs(s, ws, sign, ds, trail, nuls) && ParseInt32(s) == RangeChecked(SignedValue(sign == "-", ds))
  {
    var w := LeadingWhite(s);
    var ws := s[..w];
    var sign, u := ParsedSignedShape(s[w..]);
    var ds, trail, nuls := ParsedDigitsShape(sign == "-", u);
    assert s == ws + s[w..];
    assert ParseInt32(s) == RangeChecked(SignedValue(sign == "-", ds));
    Regroup(ws, sign, ds, trail, nuls);
    assert WellFormedAs(s, ws, sign, ds, trail, nuls);
  }

  /** "12abc" holds digits but is a format error, not a value or an overflow */
  lemma DigitsThenLetters()
    ensures ParseInt32("12abc") == Failure(FormatException)
  {
    assert LeadingWhite("12abc") == 0;
    assert LeadingDigits("12abc") == 2 by {
      assert "12abc"[1..] == "2abc" && "2abc"[1..] == "abc";
    }
    assert "12abc"[2..] == "abc";
    assert !AllNul("abc");
  }

  /** Printing an integer and parsing it back gives the integer, or an overflow outside the Int32 range */
  lemma ShowRoundTrip(n: int)
    ensures ParseInt32(Show(n)) == if InInt32Range(n) then Success(n) else Failure(OverflowException)
  {
    var m: nat := if n < 0 then -n else n;
    var sign := if n < 0 then "-" else "";
    var ds := Decimal(m);
    DecimalValue(m);
    assert SignedValue(n < 0, ds) == n;
    calc {
      ParseInt32(Show(n));
    == { assert Show(n) == "" + sign + ds + "" + ""; }
      ParseInt32("" + sign + ds + "" + "");
    == { ParseWellFormed("", sign, ds, "", ""); }
      if InInt32Range(SignedValue(sign == "-", ds)) then Success(SignedValue(sign == "-", ds)) else Failure(OverflowException);
    }
  }

  /** A string with no decimal digit in it is a format error, never a value */
  lemma NoDigitsIsFormatError(s: string)
    requires forall i :: 0 <= i < |s| ==> !IsDigit(s[i])
    ensures ParseInt32(s) == Failure(FormatException)
  { }

}
