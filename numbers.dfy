/** Stand-ins for the Go library routines the core relies on: unicode.IsDigit
    and unicode.IsSpace (character classes), strconv.ParseFloat and
    strconv.FormatFloat(x, 'f', -1, 64) (numbers as text), strconv.ParseInt
    and fmt's "%d" (task ids as text), strings.HasPrefix and
    strings.TrimPrefix. Numbers are exact reals, not binary floating point. */
module Numbers {
  import opened Wrappers

  /** unicode.IsDigit, restricted to the ASCII digits. */
  predicate IsDigit(c: char) {
    '0' <= c <= '9'
  }

  /** unicode.IsSpace, restricted to its Latin-1 members. */
  predicate IsSpace(c: char) {
    c == ' ' || c == '\t' || c == '\n' || c == '\r' || c == '\U{000B}' || c == '\U{000C}'
    || c == '\U{0085}' || c == '\U{00A0}'
  }

  predicate AllDigits(s: string) {
    forall i :: 0 <= i < |s| ==> IsDigit(s[i])
  }

  /** The value of a decimal digit (0 for any other character). */
  function DigitValue(c: char): nat {
    if IsDigit(c) then (c as int) - ('0' as int) else 0
  }

  function DigitChar(d: nat): (c: char)
    requires d < 10
    ensures IsDigit(c) && DigitValue(c) == d
  {
    ('0' as int + d) as char
  }

  /** The value of a decimal digit string, most significant digit first. */
  function DigitsValue(s: string): nat {
    if s == [] then 0 else DigitsValue(s[..|s| - 1]) * 10 + DigitValue(s[|s| - 1])
  }

  /** fmt's "%d" for a natural number: no sign, no leading zeros. */
  function NatToString(n: nat): (r: string)
    ensures r != [] && AllDigits(r) && DigitsValue(r) == n
  {
    if n < 10 then [DigitChar(n)]
    else
      var prefix := NatToString(n / 10);
      var r := prefix + [DigitChar(n % 10)];
      assert r[..|r| - 1] == prefix;
      r
  }

  /** fmt's "%d". */
  function IntToString(n: int): string {
    if n < 0 then "-" + NatToString(-n) else NatToString(n)
  }

  /** strings.HasPrefix. */
  predicate HasPrefix(s: string, prefix: string) {
    prefix <= s
  }

  /** strings.TrimPrefix. */
  function TrimPrefix(s: string, prefix: string): (r: string)
    ensures prefix <= s ==> s == prefix + r
    ensures !(prefix <= s) ==> r == s
  {
    if prefix <= s then s[|prefix|..] else s
  }

  const Int64Min: int := -0x8000_0000_0000_0000
  const Int64Max: int := 0x7FFF_FFFF_FFFF_FFFF

  /** A sign ("", "+" or "-") and one or more decimal digits. */
  predicate Decimal(sign: string, digits: string) {
    (sign == "" || sign == "+" || sign == "-") && digits != [] && AllDigits(digits)
  }

  /** The integer a sign and its digits denote. */
  function Signed(sign: string, digits: string): int {
    if sign == "-" then -(DigitsValue(digits) as int) else DigitsValue(digits)
  }

  /** strconv.ParseInt(s, 10, 64): the text is accepted exactly when it splits
      into an optional sign and one or more decimal digits whose value fits
      in 64 bits, and then it reads as that value. */
  function ParseInt(s: string): (r: Option<int>)
    ensures forall k :: 0 <= k <= 1 && k <= |s| && Decimal(s[..k], s[k..]) ==>
      r == if Int64Min <= Signed(s[..k], s[k..]) <= Int64Max then Some(Signed(s[..k], s[k..])) else None
    ensures r.Some? ==> exists k :: 0 <= k <= 1 && k <= |s| && Decimal(s[..k], s[k..])
    ensures r.Some? ==> Int64Min <= r.value <= Int64Max
  {
    var signed := |s| > 0 && (s[0] == '+' || s[0] == '-');
    var body := if signed then s[1..] else s;
    var k := if signed then 1 else 0;
    assert s[k..] == body && (signed ==> s[..k] == [s[0]]);
    if body == [] || !AllDigits(body) then None
    else
      var v: int := if signed && s[0] == '-' then -(DigitsValue(body) as int) else DigitsValue(body);
      assert Decimal(s[..k], body) && v == Signed(s[..k], body);
      if Int64Min <= v <= Int64Max then Some(v) else None
  }

  /** The dependency token fmt.Sprintf("id%d", n). */
  function Placeholder(n: int): string {
    "id" + IntToString(n)
  }

  /** strconv.ParseInt(strings.TrimPrefix(s, "id"), 10, 64): reads the task id
      back out of an operand. */
  function ParseId(s: string): Option<int> {
    ParseInt(TrimPrefix(s, "id"))
  }

  /** IntToString writes a leading '-' exactly for negative numbers. */
  lemma SignOf(n: int)
    ensures IntToString(n) != [] && (IntToString(n)[0] == '-' <==> n < 0)
  {
    if n >= 0 {
      assert IsDigit(IntToString(n)[0]);
    }
  }

  /** Distinct ids give distinct placeholders. */
  lemma PlaceholderInjective(m: int, n: int)
    requires Placeholder(m) == Placeholder(n)
    ensures m == n
  {
    var a := IntToString(m);
    var b := IntToString(n);
    assert a == Placeholder(m)[2..] && b == Placeholder(n)[2..];
    SignOf(m);
    SignOf(n);
    if m < 0 && n < 0 {
      assert a[1..] == NatToString(-m) && b[1..] == NatToString(-n);
    }
  }

  /** A placeholder is never read as a number: it starts with a letter. */
  lemma PlaceholderNotNumber(n: int)
    ensures ParseNum(Placeholder(n)).None?
  {
    var s := Placeholder(n);
    assert s[0] == 'i';
    ParseLeading(s);
  }

  /** Every 64-bit id survives being written as a placeholder and read back. */
  lemma PlaceholderRoundTrip(n: int)
    requires Int64Min <= n <= Int64Max
    ensures ParseId(Placeholder(n)) == Some(n)
  {
    var text := IntToString(n);
    assert "id" <= Placeholder(n);
    assert TrimPrefix(Placeholder(n), "id") == text;
    if n >= 0 {
      assert text[..0] == "" && text[0..] == text;
      assert Decimal(text[..0], text[0..]) && Signed(text[..0], text[0..]) == n;
    } else {
      assert text[..1] == "-" && text[1..] == NatToString(-n);
      assert Decimal(text[..1], text[1..]) && Signed(text[..1], text[1..]) == n;
    }
  }

  /** Index of the first '.' in s, or |s| if there is none. */
  function DotIndex(s: string): (k: nat)
    ensures k <= |s|
    ensures k < |s| ==> s[k] == '.'
    ensures forall i :: 0 <= i < k ==> s[i] != '.'
  {
    if s == [] || s[0] == '.' then 0 else 1 + DotIndex(s[1..])
  }

  /** The value of the digits after a decimal point: 0.d1d2d3... */
  function FractionValue(s: string): (v: real)
    ensures 0.0 <= v <= 1.0
  {
    if s == [] then 0.0 else (DigitValue(s[0]) as real + FractionValue(s[1..])) / 10.0
  }

  /** An unsigned decimal literal: digits, optionally a '.' and more digits,
      with at least one digit in all. */
  function ParseUnsigned(s: string): Option<real> {
    var k := DotIndex(s);
    ParseParts(s[..k], if k < |s| then s[k + 1..] else [])
  }

  /** The digits before and after the point, read as a literal. */
  function ParseParts(whole: string, fraction: string): Option<real> {
    if |whole| + |fraction| > 0 && AllDigits(whole) && AllDigits(fraction)
    then Some(DigitsValue(whole) as real + FractionValue(fraction))
    else None
  }

  /** strconv.ParseFloat(s, 64) on plain decimal literals with an optional sign. */
  function ParseNum(s: string): Option<real> {
    var signed := |s| > 0 && (s[0] == '+' || s[0] == '-');
    var body := if signed then s[1..] else s;
    match ParseUnsigned(body)
    case None => None
    case Some(v) => Some(if signed && s[0] == '-' then -v else v)
  }

  /** Text that starts with a character other than a digit, a point or a
      sign is no number. */
  lemma ParseLeading(s: string)
    requires s != [] && !IsDigit(s[0]) && s[0] != '.' && s[0] != '+' && s[0] != '-'
    ensures ParseNum(s).None?
  {
    var k := DotIndex(s);
    assert k > 0;
    assert s[..k][0] == s[0];
  }

  /** A single character that is neither a digit, a point nor a sign is no number. */
  lemma ParseLetter(c: char)
    requires !IsDigit(c) && c != '.' && c != '+' && c != '-'
    ensures ParseNum([c]).None?
  {
    var s := [c];
    assert s[1..] == [];
    assert DotIndex(s) == 1;
    assert s[..1] == s;
    assert !IsDigit(s[0]);
  }

  /** The most digits after the point the model writes. A float64 needs at
      most 17 significant digits to be read back, so the cut-off stands in
      for FormatFloat's shortest exact rendering. */
  const FractionDigits: nat := 17

  /** At most k decimal digits of a fraction in [0, 1), stopping as soon as
      nothing is left; a zero digit left last by the cut-off is dropped. */
  function FracDigits(f: real, k: nat): (r: string)
    requires 0.0 <= f < 1.0
    ensures |r| <= k && AllDigits(r)
    ensures r != [] ==> r[|r| - 1] != '0'
    decreases k
  {
    if k == 0 || f == 0.0 then []
    else
      var t := f * 10.0;
      var d := t.Floor;
      var rest := t - d as real;
      var tail := FracDigits(rest, k - 1);
      if tail == [] && d == 0 then [] else
        [DigitChar(d)] + tail
  }

  /** A non-negative x with at most k digits after the point. */
  function FormatNonNegative(x: real, k: nat): (r: string)
    requires x >= 0.0
  {
    var n := x.Floor;
    Render(NatToString(n), FracDigits(x - n as real, k))
  }

  /** Integer digits, then a point and the fraction digits when there are any. */
  function Render(whole: string, fraction: string): string {
    whole + (if fraction == [] then [] else "." + fraction)
  }

  /** strconv.FormatFloat(x, 'f', -1, 64): a '-' for negative values, the
      integer digits, and the fraction without trailing zeros. */
  function FormatNum(x: real): (r: string)
    ensures r != []
    ensures forall i :: 0 <= i < |r| ==> IsDigit(r[i]) || r[i] == '.' || r[i] == '-'
  {
    if x < 0.0 then "-" + FormatNonNegative(-x, FractionDigits) else FormatNonNegative(x, FractionDigits)
  }

  predicate IsWhole(x: real) {
    x.Floor as real == x
  }

  /** x multiplied by 10, k times. */
  function Scale(x: real, k: nat): real {
    if k == 0 then x else 10.0 * Scale(x, k - 1)
  }

  /** x has at most k decimal digits after the point. */
  predicate HasDigitsWithin(x: real, k: nat) {
    IsWhole(Scale(x, k))
  }

  lemma {:induction false} ScaleLinear(x: real, y: real, k: nat)
    ensures Scale(x - y, k) == Scale(x, k) - Scale(y, k)
  {
    if k > 0 {
      ScaleLinear(x, y, k - 1);
    }
  }

  lemma {:induction false} ScaleShift(x: real, k: nat)
    requires k > 0
    ensures Scale(x * 10.0, k - 1) == Scale(x, k)
  {
    if k > 1 {
      ScaleShift(x, k - 1);
    }
  }

  /** Integers have no digits after the point. */
  lemma {:induction false} IntegerHasDigitsWithin(z: int, k: nat)
    ensures HasDigitsWithin(z as real, k)
  {
    if k > 0 {
      IntegerHasDigitsWithin(z, k - 1);
      var m := Scale(z as real, k - 1).Floor;
      assert Scale(z as real, k) == (10 * m) as real;
    }
  }

  /** Removing an integer part keeps the number of fractional digits. */
  lemma ShiftHasDigitsWithin(x: real, z: int, k: nat)
    requires HasDigitsWithin(x, k)
    ensures HasDigitsWithin(x - z as real, k)
  {
    ScaleLinear(x, z as real, k);
    IntegerHasDigitsWithin(z, k);
    var m := Scale(x, k).Floor;
    var p := Scale(z as real, k).Floor;
    assert Scale(x - z as real, k) == (m - p) as real;
  }

  /** Negation keeps the number of fractional digits. */
  lemma {:induction false} ScaleNegate(x: real, k: nat)
    ensures Scale(-x, k) == -Scale(x, k)
  {
    if k > 0 {
      ScaleNegate(x, k - 1);
    }
  }

  lemma NegateHasDigitsWithin(x: real, k: nat)
    requires HasDigitsWithin(x, k)
    ensures HasDigitsWithin(-x, k)
  {
    ScaleNegate(x, k);
    var m := Scale(x, k).Floor;
    assert Scale(-x, k) == (-m) as real;
  }

  /** A fraction with at most k decimal digits is rendered exactly. */
  lemma {:induction false} FracDigitsValue(f: real, k: nat)
    requires 0.0 <= f < 1.0 && HasDigitsWithin(f, k)
    ensures FractionValue(FracDigits(f, k)) == f
    decreases k
  {
    if k == 0 {
      assert Scale(f, 0) == f;
    } else if f != 0.0 {
      var t := f * 10.0;
      var d := t.Floor;
      var rest := t - d as real;
      ScaleShift(f, k);
      ShiftHasDigitsWithin(t, d, k - 1);
      FracDigitsValue(rest, k - 1);
      var tail := FracDigits(rest, k - 1);
      assert FractionValue(tail) == rest;
      assert tail != [] || d != 0;
      var r := [DigitChar(d)] + tail;
      assert FracDigits(f, k) == r;
      assert r[1..] == tail;
      assert FractionValue(r) == (d as real + rest) / 10.0;
    }
  }

  lemma {:induction false} DotIndexOfDigits(whole: string, rest: string)
    requires AllDigits(whole)
    requires rest == [] || rest[0] == '.'
    ensures DotIndex(whole + rest) == |whole|
  {
    if whole != [] {
      var text := whole + rest;
      assert text[0] == whole[0];
      assert text[1..] == whole[1..] + rest;
      assert AllDigits(whole[1..]) by {
        forall i | 0 <= i < |whole| - 1 ensures IsDigit(whole[1..][i]) {
          assert whole[1..][i] == whole[i + 1];
        }
      }
      DotIndexOfDigits(whole[1..], rest);
    } else {
      assert whole + rest == rest;
    }
  }

  /** A run of digits reads back as its value. */
  lemma ParseWhole(whole: string)
    requires whole != [] && AllDigits(whole)
    ensures ParseUnsigned(whole) == Some(DigitsValue(whole) as real)
  {
    DotIndexOfDigits(whole, []);
    assert whole + [] == whole;
    assert whole[..|whole|] == whole;
  }

  /** A run of digits, as ParseNum reads it. */
  lemma ParseDigits(s: string)
    requires s != [] && AllDigits(s)
    ensures ParseNum(s) == Some(DigitsValue(s) as real)
  {
    assert IsDigit(s[0]);
    ParseWhole(s);
  }

  /** A literal with a point splits at that point. */
  lemma ParseSplit(text: string, whole: string, fraction: string)
    requires AllDigits(whole) && AllDigits(fraction) && |whole| + |fraction| > 0
    requires text == whole + ['.'] + fraction
    ensures ParseUnsigned(text) == ParseParts(whole, fraction)
  {
    DotIndexOfDigits(whole, ['.'] + fraction);
    assert text == whole + (['.'] + fraction);
    assert text[..|whole|] == whole;
    assert text[|whole| + 1..] == fraction;
  }

  lemma FormatNonNegativeParses(x: real, k: nat)
    requires x >= 0.0 && HasDigitsWithin(x, k)
    ensures var text := FormatNonNegative(x, k); IsDigit(text[0]) && ParseUnsigned(text) == Some(x)
  {
    FractionRendered(x, k);
    RenderedParses(NatToString(x.Floor), FracDigits(x - x.Floor as real, k));
  }

  /** The digits rendered after the point spell the fractional part exactly. */
  lemma FractionRendered(x: real, k: nat)
    requires x >= 0.0 && HasDigitsWithin(x, k)
    ensures FractionValue(FracDigits(x - x.Floor as real, k)) == x - x.Floor as real
  {
    ShiftHasDigitsWithin(x, x.Floor, k);
    FracDigitsValue(x - x.Floor as real, k);
  }

  /** A rendered number reads back as integer part plus fraction. */
  lemma RenderedParses(whole: string, fraction: string)
    requires whole != [] && AllDigits(whole) && AllDigits(fraction)
    ensures var text := Render(whole, fraction);
      IsDigit(text[0]) && ParseUnsigned(text) == Some(DigitsValue(whole) as real + FractionValue(fraction))
  {
    var text := Render(whole, fraction);
    assert text[0] == whole[0];
    if fraction == [] {
      assert text == whole;
      ParseWhole(whole);
    } else {
      assert text == whole + ['.'] + fraction;
      ParseSplit(text, whole, fraction);
      PartsValue(whole, fraction);
    }
  }

  lemma PartsValue(whole: string, fraction: string)
    requires AllDigits(whole) && AllDigits(fraction) && whole != []
    ensures ParseParts(whole, fraction) == Some(DigitsValue(whole) as real + FractionValue(fraction))
  {
  }

  /** FormatNum and ParseNum are inverse on every value with at most
      FractionDigits digits after the point, integers included. */
  lemma FormatRoundTrip(x: real)
    requires HasDigitsWithin(x, FractionDigits)
    ensures ParseNum(FormatNum(x)) == Some(x)
  {
    if x < 0.0 {
      NegateHasDigitsWithin(x, FractionDigits);
      FormatNonNegativeParses(-x, FractionDigits);
      assert ("-" + FormatNonNegative(-x, FractionDigits))[1..] == FormatNonNegative(-x, FractionDigits);
    } else {
      FormatNonNegativeParses(x, FractionDigits);
    }
  }

  lemma FormatIntegerRoundTrip(n: int)
    ensures ParseNum(FormatNum(n as real)) == Some(n as real)
  {
    IntegerHasDigitsWithin(n, FractionDigits);
    FormatRoundTrip(n as real);
  }

  /** A whole non-negative number is written with its digits alone. */
  lemma FormatWhole(n: nat)
    ensures FormatNum(n as real) == NatToString(n)
  {
    assert (n as real).Floor == n;
    assert FracDigits(0.0, FractionDigits) == [];
  }
}
