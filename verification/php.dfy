/**
 * The PHP values and the PHP built-ins that the request pipeline relies on:
 * `is_numeric`, `strlen`, `implode` (with `explode` as its inverse),
 * `filter_var(..., FILTER_VALIDATE_INT)` and the decimal form of an integer.
 *
 * PHP strings are byte strings. In this model each `char` stands for one
 * byte, so `strlen($s)` is `|s|`.
 */
module Php {
  import opened Wrappers

  /**
   * A request value as the validator sees it: a query-string scalar, an
   * array-style parameter (`isbn[]=...`), or null (the framework turns an
   * empty parameter into null before validation).
   */
  datatype Value = Str(s: string) | List(items: seq<Value>) | Null

  // ---------------------------------------------------------------------
  // Characters

  predicate IsDigit(c: char) { '0' <= c <= '9' }

  predicate AllDigits(s: string) { forall i :: 0 <= i < |s| ==> IsDigit(s[i]) }

  predicate IsSign(c: char) { c == '+' || c == '-' }

  /** The whitespace `is_numeric` allows around a number: space, \t, \n, \r, \v and \f. */
  predicate IsWhitespace(c: char) {
    c == ' ' || c == '\t' || c == '\n' || c == '\r' || c == '\U{000B}' || c == '\U{000C}'
  }

  /** Every character that can occur in a numeric string. */
  predicate IsNumberChar(c: char) {
    IsDigit(c) || IsSign(c) || c == '.' || c == 'e' || c == 'E' || IsWhitespace(c)
  }

  /** The position of the first character of `s` that is in `cs`, or `|s|` if there is none. */
  function IndexOf(s: string, cs: set<char>): (k: nat)
    ensures k <= |s|
    ensures forall i :: 0 <= i < k ==> s[i] !in cs
    ensures k < |s| ==> s[k] in cs
  {
    if |s| == 0 || s[0] in cs then 0 else 1 + IndexOf(s[1..], cs)
  }

  /** IndexOf finds the first position whose character is in `cs`. */
  lemma IndexOfIs(s: string, cs: set<char>, k: nat)
    requires k <= |s|
    requires forall i :: 0 <= i < k ==> s[i] !in cs
    requires k < |s| ==> s[k] in cs
    ensures IndexOf(s, cs) == k
  {
  }

  // ---------------------------------------------------------------------
  // is_numeric: the PHP 8 numeric-string grammar
  //
  //   LNUM      [0-9]+
  //   DNUM      [0-9]* "." LNUM  |  LNUM "." [0-9]*
  //   EXPONENT  (LNUM | DNUM) [eE] [+-]? LNUM
  //   NUMERIC   WHITESPACE* [+-]? (LNUM | DNUM | EXPONENT) WHITESPACE*
  //
  // recognised left to right by the automaton below. Hexadecimal, octal,
  // binary and '_'-separated forms are not numeric strings.

  /** Where the recogniser stands after reading a prefix. */
  datatype ScanState =
    | Leading     // only whitespace so far
    | Signed      // a sign, no digit yet
    | IntDigits   // LNUM
    | BareDot     // a '.' with no digit before it
    | FracDigits  // DNUM: digits and one '.', at least one digit
    | ExpMark     // a mantissa and 'e' or 'E'
    | ExpSign     // ... and the exponent's sign
    | ExpDigits   // EXPONENT: the exponent's digits
    | Trailing    // a complete number and then whitespace
    | Rejected    // no extension of the prefix is numeric

  /** The prefixes that are themselves complete numeric strings. */
  predicate IsAccepting(st: ScanState) {
    st == IntDigits || st == FracDigits || st == ExpDigits || st == Trailing
  }

  /** Reading one more character. */
  function Step(st: ScanState, c: char): (next: ScanState)
  {
    match st
    case Leading =>
      if IsWhitespace(c) then Leading
      else if IsSign(c) then Signed
      else if IsDigit(c) then IntDigits
      else if c == '.' then BareDot
      else Rejected
    case Signed =>
      if IsDigit(c) then IntDigits else if c == '.' then BareDot else Rejected
    case IntDigits =>
      if IsDigit(c) then IntDigits
      else if c == '.' then FracDigits
      else if c == 'e' || c == 'E' then ExpMark
      else if IsWhitespace(c) then Trailing
      else Rejected
    case BareDot =>
      if IsDigit(c) then FracDigits else Rejected
    case FracDigits =>
      if IsDigit(c) then FracDigits
      else if c == 'e' || c == 'E' then ExpMark
      else if IsWhitespace(c) then Trailing
      else Rejected
    case ExpMark =>
      if IsSign(c) then ExpSign else if IsDigit(c) then ExpDigits else Rejected
    case ExpSign =>
      if IsDigit(c) then ExpDigits else Rejected
    case ExpDigits =>
      if IsDigit(c) then ExpDigits else if IsWhitespace(c) then Trailing else Rejected
    case Trailing =>
      if IsWhitespace(c) then Trailing else Rejected
    case Rejected => Rejected
  }

  /** The state reached from `st` by reading `s`. */
  function Scan(st: ScanState, s: string): (last: ScanState)
    decreases |s|
  {
    if |s| == 0 then st else Scan(Step(st, s[0]), s[1..])
  }

  /** The states reached only after reading at least one digit. */
  predicate SawDigit(st: ScanState) {
    st == IntDigits || st == FracDigits || st == ExpMark || st == ExpSign || st == ExpDigits || st == Trailing
  }

  /** A state that has seen a digit can only be reached by reading one. */
  lemma {:induction false} ScanNeedsDigit(st: ScanState, s: string)
    requires IsAccepting(Scan(st, s))
    ensures SawDigit(st) || exists i :: 0 <= i < |s| && IsDigit(s[i])
    decreases |s|
  {
    if |s| > 0 {
      ScanNeedsDigit(Step(st, s[0]), s[1..]);
      if exists i :: 0 <= i < |s[1..]| && IsDigit(s[1..][i]) {
        var i :| 0 <= i < |s[1..]| && IsDigit(s[1..][i]);
        assert IsDigit(s[i + 1]);
      } else if !SawDigit(st) {
        assert IsDigit(s[0]);
      }
    }
  }

  /** `is_numeric($s)` for a string `$s`: it always holds at least one digit. */
  predicate IsNumeric(s: string)
    ensures IsNumeric(s) ==> exists i :: 0 <= i < |s| && IsDigit(s[i])
  {
    if IsAccepting(Scan(Leading, s)) then ScanNeedsDigit(Leading, s); true else false
  }

  /** `is_numeric($v)` for a request value: arrays and null are never numeric. */
  predicate IsNumericValue(v: Value) {
    v.Str? && IsNumeric(v.s)
  }

  /** Digits keep the recogniser among the digits of the integer part, the fraction or the exponent. */
  lemma {:induction false} ScanDigits(st: ScanState, s: string)
    requires st == IntDigits || st == FracDigits || st == ExpDigits
    requires AllDigits(s)
    ensures Scan(st, s) == st
  {
    if |s| > 0 {
      assert IsDigit(s[0]);
      ScanDigits(st, s[1..]);
    }
  }

  /** A non-empty string of digits is numeric. */
  lemma AllDigitsIsNumeric(s: string)
    requires |s| > 0 && AllDigits(s)
    ensures IsNumeric(s)
  {
    assert IsDigit(s[0]);
    ScanDigits(IntDigits, s[1..]);
  }

  /** Once rejected, always rejected. */
  lemma {:induction false} ScanRejected(s: string)
    ensures Scan(Rejected, s) == Rejected
  {
    if |s| > 0 {
      ScanRejected(s[1..]);
    }
  }

  /** A character outside the numeric alphabet rejects the string, wherever it stands. */
  lemma {:induction false} ScanForeignChar(st: ScanState, s: string, i: nat)
    requires i < |s| && !IsNumberChar(s[i])
    ensures Scan(st, s) == Rejected
    decreases |s|
  {
    if i == 0 {
      ScanRejected(s[1..]);
    } else {
      ScanForeignChar(Step(st, s[0]), s[1..], i - 1);
    }
  }

  /** A numeric string is made only of digits, signs, '.', 'e', 'E' and whitespace. */
  lemma NumericChars(s: string)
    requires IsNumeric(s)
    ensures forall i :: 0 <= i < |s| ==> IsNumberChar(s[i])
  {
    forall i | 0 <= i < |s| ensures IsNumberChar(s[i]) {
      if !IsNumberChar(s[i]) {
        ScanForeignChar(Leading, s, i);
      }
    }
  }

  /** A numeric string never contains the ';' that separates joined ISBNs. */
  lemma NumericHasNoSemicolon(s: string)
    requires IsNumeric(s)
    ensures ';' !in s
  {
    NumericChars(s);
  }

  /** `is_numeric` admits a leading sign: "-123456789" has ten bytes and is numeric. */
  lemma SignedIsNumeric()
    ensures IsNumeric("-123456789") && !AllDigits("-123456789")
  {
    var s := "-123456789";
    assert Step(Leading, s[0]) == Signed;
    assert Step(Signed, s[1]) == IntDigits;
    ScanDigits(IntDigits, s[2..]);
  }

  /** `is_numeric` admits a decimal point: "1.23456789" has ten bytes and is numeric. */
  lemma DecimalIsNumeric()
    ensures IsNumeric("1.23456789") && !AllDigits("1.23456789")
  {
    var s := "1.23456789";
    assert Step(Leading, s[0]) == IntDigits;
    assert Step(IntDigits, s[1]) == FracDigits;
    ScanDigits(FracDigits, s[2..]);
  }

  /** `is_numeric` admits an exponent and surrounding whitespace. */
  lemma ExponentIsNumeric()
    ensures IsNumeric(" 1e1234567") && !AllDigits(" 1e1234567")
  {
    var s := " 1e1234567";
    assert Step(Leading, s[0]) == Leading;
    assert Step(Leading, s[1]) == IntDigits;
    assert Step(IntDigits, s[2]) == ExpMark;
    assert Step(ExpMark, s[3]) == ExpDigits;
    ScanDigits(ExpDigits, s[4..]);
  }

  /** An ASCII letter. */
  predicate IsLetter(c: char) { 'a' <= c <= 'z' || 'A' <= c <= 'Z' }

  /** A letter other than the exponent mark makes a string non-numeric, wherever it stands. */
  lemma LettersAreNotNumeric(s: string, i: nat)
    requires i < |s| && IsLetter(s[i]) && s[i] != 'e' && s[i] != 'E'
    ensures !IsNumeric(s)
  {
    ScanForeignChar(Leading, s, i);
  }

  // ---------------------------------------------------------------------
  // implode and explode

  /** `implode($sep, $pieces)`: the pieces in order, with `sep` between neighbours. */
  function Implode(sep: string, pieces: seq<string>): (joined: string)
    ensures |pieces| > 0 ==> |joined| == TotalLength(pieces) + (|pieces| - 1) * |sep|
    ensures |pieces| > 0 ==> pieces[0] <= joined
  {
    if |pieces| == 0 then ""
    else if |pieces| == 1 then pieces[0]
    else pieces[0] + sep + Implode(sep, pieces[1..])
  }

  /** The combined length of `pieces`. */
  function TotalLength(pieces: seq<string>): (total: nat)
  {
    if |pieces| == 0 then 0 else |pieces[0]| + TotalLength(pieces[1..])
  }

  /** `explode($sep, $s)` for a one-byte separator: the pieces between successive separators. */
  function Explode(sep: char, s: string): (pieces: seq<string>)
    ensures |pieces| >= 1
    decreases |s|
  {
    var k := IndexOf(s, {sep});
    if k == |s| then [s] else [s[..k]] + Explode(sep, s[k + 1..])
  }

  /** Splitting a joined list on the separator gives back the list, when no piece holds the separator. */
  lemma {:induction false} ExplodeImplode(sep: char, pieces: seq<string>)
    requires |pieces| >= 1
    requires forall i :: 0 <= i < |pieces| ==> sep !in pieces[i]
    ensures Explode(sep, Implode([sep], pieces)) == pieces
  {
    var p := pieces[0];
    IndexOfIs(p, {sep}, |p|);
    if |pieces| > 1 {
      var rest := Implode([sep], pieces[1..]);
      var s := p + [sep] + rest;
      IndexOfIs(s, {sep}, |p|);
      assert s[..|p|] == p && s[|p| + 1..] == rest;
      ExplodeImplode(sep, pieces[1..]);
      assert pieces == [p] + pieces[1..];
    }
  }

  /** Joining is injective on non-empty lists whose pieces do not hold the separator. */
  lemma ImplodeInjective(sep: char, xs: seq<string>, ys: seq<string>)
    requires |xs| >= 1 && |ys| >= 1
    requires forall i :: 0 <= i < |xs| ==> sep !in xs[i]
    requires forall i :: 0 <= i < |ys| ==> sep !in ys[i]
    requires Implode([sep], xs) == Implode([sep], ys)
    ensures xs == ys
  {
    ExplodeImplode(sep, xs);
    ExplodeImplode(sep, ys);
  }

  // ---------------------------------------------------------------------
  // Integers and their decimal form

  const Int64Min: int := -0x8000_0000_0000_0000
  const Int64Max: int := 0x7FFF_FFFF_FFFF_FFFF

  /** The number a string of decimal digits denotes. */
  function DigitsValue(d: string): (value: nat)
    requires AllDigits(d)
  {
    if |d| == 0 then 0 else 10 * DigitsValue(d[..|d| - 1]) + (d[|d| - 1] as int - '0' as int)
  }

  /** Digits without a redundant leading zero: "0", or a first digit other than '0'. */
  predicate IsCanonicalDigits(d: string) {
    |d| > 0 && AllDigits(d) && (d[0] != '0' || |d| == 1)
  }

  /**
   * `filter_var($s, FILTER_VALIDATE_INT)`: an optional sign, then "0" or digits
   * that do not start with '0', denoting a value in the 64-bit range.
   */
  function ParseInt(s: string): (r: Option<int>)
    ensures r.Some? ==> Int64Min <= r.value <= Int64Max
    ensures r.Some? ==> IsIntForm(s, r.value)
  {
    var d := if |s| > 0 && IsSign(s[0]) then s[1..] else s;
    if !IsCanonicalDigits(d) then None
    else
      var v: int := DigitsValue(d);
      var n := if |s| > 0 && s[0] == '-' then -v else v;
      if Int64Min <= n <= Int64Max then
        CanonicalRoundTrip(d);
        assert |s| > 0 && IsSign(s[0]) ==> s == [s[0]] + d;
        Some(n)
      else None
  }

  function DigitChar(n: nat): (c: char)
    requires n < 10
    ensures IsDigit(c) && c as int - '0' as int == n
  {
    ('0' as int + n) as char
  }

  /** The decimal form of a natural number, as PHP writes `(string)$n`. */
  function NatToString(n: nat): (s: string)
    ensures IsCanonicalDigits(s)
    ensures DigitsValue(s) == n
  {
    if n < 10 then [DigitChar(n)]
    else
      var p := NatToString(n / 10);
      var s := p + [DigitChar(n % 10)];
      assert s[..|s| - 1] == p;
      s
  }

  /** The decimal form of an integer, with a '-' before a negative one. */
  function IntToString(n: int): (s: string)
  {
    if n < 0 then "-" + NatToString(-n) else NatToString(n)
  }

  /**
   * The spellings of `n` that `FILTER_VALIDATE_INT` accepts: its decimal form,
   * that form after a '+', and "-0" for zero.
   */
  predicate IsIntForm(s: string, n: int) {
    s == IntToString(n) || s == "+" + IntToString(n) || (n == 0 && s == "-0")
  }

  /** Canonical digits with a non-zero first digit denote a positive number. */
  lemma {:induction false} CanonicalPositive(d: string)
    requires |d| > 0 && AllDigits(d) && d[0] != '0'
    ensures DigitsValue(d) > 0
    decreases |d|
  {
    if |d| > 1 {
      CanonicalPositive(d[..|d| - 1]);
    }
  }

  /** Canonical digits are the decimal form of the number they denote. */
  lemma {:induction false} CanonicalRoundTrip(d: string)
    requires IsCanonicalDigits(d)
    ensures NatToString(DigitsValue(d)) == d
    decreases |d|
  {
    if |d| > 1 {
      var p := d[..|d| - 1];
      CanonicalRoundTrip(p);
      CanonicalPositive(p);
      var n := DigitsValue(d);
      assert n == 10 * DigitsValue(p) + (d[|d| - 1] as int - '0' as int);
      assert n / 10 == DigitsValue(p) && DigitChar(n % 10) == d[|d| - 1];
      assert NatToString(n) == NatToString(n / 10) + [DigitChar(n % 10)];
      assert d == p + [d[|d| - 1]];
    }
  }

  /** Reading back the decimal form of a 64-bit integer gives that integer. */
  lemma ParseIntToString(n: int)
    requires Int64Min <= n <= Int64Max
    ensures ParseInt(IntToString(n)) == Some(n)
  {
    if n < 0 {
      assert IntToString(n)[1..] == NatToString(-n);
    }
  }
}
