/** The pieces of PHP value semantics the authorization code relies on:
    string truthiness, scalar values with loose (`==`) comparison, and `explode`. */
module Php {
  import Decimal
  import opened Common

  /** A PHP string is falsy when it is empty or exactly "0". */
  predicate Truthy(s: string) {
    s != "" && s != "0"
  }

  /** A scalar as stored in a JSON condition map or taken from a route. */
  datatype Scalar = Null | Bool(b: bool) | Int(i: int) | Str(s: string)

  /** Conversion to bool, as `(bool)$v`. */
  predicate ToBool(v: Scalar) {
    match v
    case Null => false
    case Bool(b) => b
    case Int(i) => i != 0
    case Str(s) => Truthy(s)
  }

  /** The whitespace PHP allows around a numeric string. */
  predicate IsSpace(c: char) {
    c == ' ' || c == '\t' || c == '\n' || c == '\r' || c == '\U{000B}' || c == '\U{000C}'
  }

  function TrimLeft(s: string): (r: string)
    ensures |r| <= |s|
    ensures r == [] || !IsSpace(r[0])
  {
    if |s| > 0 && IsSpace(s[0]) then TrimLeft(s[1..]) else s
  }

  function TrimRight(s: string): (r: string)
    ensures |r| <= |s|
    ensures r == [] || !IsSpace(r[|r| - 1])
  {
    if |s| > 0 && IsSpace(s[|s| - 1]) then TrimRight(s[..|s| - 1]) else s
  }

  predicate AllDigits(s: string) {
    forall i :: 0 <= i < |s| ==> Decimal.IsDigit(s[i])
  }

  /** 10 to the power `n`. */
  function Pow10(n: nat): (r: nat)
    ensures r >= 1
  {
    if n == 0 then 1 else 10 * Pow10(n - 1)
  }

  /** The position of the first character of `s` that is in `cs`, or `|s|`
      when there is none. */
  function Find(s: string, cs: set<char>): (k: nat)
    ensures k <= |s| && (k < |s| ==> s[k] in cs)
    ensures forall i :: 0 <= i < k ==> s[i] !in cs
  {
    if |s| == 0 || s[0] in cs then 0
    else
      var k := Find(s[1..], cs);
      assert forall i :: 1 <= i < k + 1 ==> s[i] == s[1..][i - 1];
      k + 1
  }

  /** The value of an exponent: an optional sign and one or more digits. */
  function Exponent(e: string): Option<int> {
    if |e| >= 1 && AllDigits(e) then Some(Decimal.Parse(e))
    else if |e| >= 2 && (e[0] == '+' || e[0] == '-') && AllDigits(e[1..]) then
      Some(if e[0] == '-' then -(Decimal.Parse(e[1..]) as int) else Decimal.Parse(e[1..]))
    else None
  }

  /** A number as a coefficient and a power of ten: coefficient · 10^exponent. */
  datatype Numeral = Numeral(coefficient: int, exponent: int)

  /** The text after an optional leading sign. */
  function Unsigned(t: string): (r: string)
    ensures |r| <= |t|
  {
    if |t| > 0 && (t[0] == '+' || t[0] == '-') then t[1..] else t
  }

  /** The part before the exponent marker. */
  function MantissaPart(body: string): (m: string)
    ensures m <= body
  {
    body[..Find(body, {'e', 'E'})]
  }

  /** The exponent after the marker, 0 without a marker, `None` when malformed. */
  function ExponentPart(body: string): Option<int> {
    var k := Find(body, {'e', 'E'});
    if k == |body| then Some(0) else Exponent(body[k + 1..])
  }

  /** The digits of a mantissa without its point. */
  function DigitsPart(m: string): string {
    var j := Find(m, {'.'});
    if j < |m| then m[..j] + m[j + 1..] else m
  }

  /** The number of digits after the point. */
  function FractionLength(m: string): nat {
    var j := Find(m, {'.'});
    if j < |m| then |m| - j - 1 else 0
  }

  /** The number a trimmed string spells: an optional sign, digits with at
      most one '.' and at least one digit (`7`, `7.`, `.5`, `7.25`), and an
      optional exponent introduced by `e` or `E`; `None` for anything else
      (hexadecimal, `INF` and leading-numeric strings such as "1abc" are not
      numbers). */
  function Number(t: string): Option<Numeral> {
    var body := Unsigned(t);
    var m := MantissaPart(body);
    var digits := DigitsPart(m);
    var e := ExponentPart(body);
    if |digits| >= 1 && AllDigits(digits) && e.Some? then
      Some(Numeral(Coefficient(t, digits), e.value - FractionLength(m)))
    else None
  }

  /** The value of `digits`, negated when `t` starts with a minus sign. */
  function Coefficient(t: string, digits: string): (c: int)
    requires AllDigits(digits)
    ensures c == Decimal.Parse(digits) || c == -(Decimal.Parse(digits) as int)
    ensures (|t| > 0 && Decimal.IsDigit(t[0])) ==> c == Decimal.Parse(digits)
  {
    var c: int := Decimal.Parse(digits);
    if |t| > 0 && t[0] == '-' then -c else c
  }

  /** Two numerals denote the same number. */
  predicate SameValue(a: Numeral, b: Numeral) {
    if a.exponent >= b.exponent then a.coefficient * Pow10(a.exponent - b.exponent) == b.coefficient
    else a.coefficient == b.coefficient * Pow10(b.exponent - a.exponent)
  }

  lemma SameValueSymmetric(a: Numeral, b: Numeral)
    ensures SameValue(a, b) == SameValue(b, a)
    ensures SameValue(a, a)
  {
  }

  /** A numeric string: a number with optional leading and trailing
      whitespace. */
  predicate IsNumeric(s: string) {
    Number(TrimRight(TrimLeft(s))).Some?
  }

  function NumericValue(s: string): Numeral
    requires IsNumeric(s)
  {
    Number(TrimRight(TrimLeft(s))).value
  }

  /** The decimal form of an integer, as `(string)$i`. */
  function IntToString(i: int): string {
    if i < 0 then "-" + Decimal.Show(-i) else Decimal.Show(i)
  }

  /** PHP 8 loose equality `==` between two scalars: numbers and numeric
      strings compare by value, any other string compares as a string. */
  predicate LooseEq(a: Scalar, b: Scalar) {
    match (a, b)
    case (Null, Null) => true
    case (Bool(x), _) => x == ToBool(b)
    case (_, Bool(y)) => ToBool(a) == y
    case (Null, Str(t)) => t == ""
    case (Str(t), Null) => t == ""
    case (Null, Int(j)) => j == 0
    case (Int(i), Null) => i == 0
    case (Int(i), Int(j)) => i == j
    case (Int(i), Str(t)) => IntEqString(i, t)
    case (Str(t), Int(i)) => IntEqString(i, t)
    case (Str(t), Str(u)) => StringEqString(t, u)
  }

  /** An integer against a string: by value when the string is numeric,
      otherwise as the integer's decimal form. */
  predicate IntEqString(i: int, t: string) {
    if IsNumeric(t) then SameValue(Numeral(i, 0), NumericValue(t)) else IntToString(i) == t
  }

  /** Two strings: by value when both are numeric, otherwise character for
      character. */
  predicate StringEqString(t: string, u: string) {
    if IsNumeric(t) && IsNumeric(u) then SameValue(NumericValue(t), NumericValue(u)) else t == u
  }

  /** `==` is symmetric and reflexive on scalars. */
  lemma LooseEqSymmetric(a: Scalar, b: Scalar)
    ensures LooseEq(a, b) == LooseEq(b, a)
    ensures LooseEq(a, a)
  {
    if a.Str? && IsNumeric(a.s) {
      SameValueSymmetric(NumericValue(a.s), NumericValue(a.s));
      if b.Str? && IsNumeric(b.s) {
        SameValueSymmetric(NumericValue(a.s), NumericValue(b.s));
      }
    }
  }

  /** Trailing zeros do not change a number: `c` scaled up by `10^k` with
      the exponent lowered by `k` denotes the same number, both ways round. */
  lemma SameValueScaled(c: int, e: int, k: nat)
    ensures SameValue(Numeral(c * Pow10(k), e - k), Numeral(c, e))
    ensures SameValue(Numeral(c, e), Numeral(c * Pow10(k), e - k))
  {
  }

  /** A number or numeric string compared with a numeric string compares
      by value. */
  lemma NumericEquality(a: Scalar, b: Scalar)
    requires a.Int? || (a.Str? && IsNumeric(a.s))
    requires b.Str? && IsNumeric(b.s)
    ensures LooseEq(a, b) == SameValue(if a.Int? then Numeral(a.i, 0) else NumericValue(a.s), NumericValue(b.s))
  {
  }

  /** No character of `s` is in `cs`: the search runs to the end. */
  lemma FindNone(s: string, cs: set<char>)
    requires forall i :: 0 <= i < |s| ==> s[i] !in cs
    ensures Find(s, cs) == |s|
  {
  }

  /** The parts of text without a sign, exponent marker or point are the
      text itself. */
  lemma PlainParts(t: string)
    requires forall i :: 0 <= i < |t| ==> t[i] !in {'+', '-', 'e', 'E', '.'}
    ensures Unsigned(t) == t && MantissaPart(t) == t && ExponentPart(t) == Some(0)
    ensures DigitsPart(t) == t && FractionLength(t) == 0
  {
    FindNone(t, {'e', 'E'});
    FindNone(t, {'.'});
  }

  /** Text without a sign, exponent marker or point spells a number exactly
      when it is all digits. */
  lemma PlainNumber(t: string)
    requires |t| >= 1 && forall i :: 0 <= i < |t| ==> t[i] !in {'+', '-', 'e', 'E', '.'}
    ensures Number(t).Some? <==> AllDigits(t)
  {
    PlainParts(t);
  }

  /** Text whose parts carry no sign and no exponent is the value of its
      digits, scaled down by the length of its fraction. */
  lemma UnsignedNumber(t: string, digits: string, n: nat)
    requires |t| >= 1 && Decimal.IsDigit(t[0])
    requires Unsigned(t) == t && MantissaPart(t) == t && ExponentPart(t) == Some(0)
    requires DigitsPart(t) == digits && FractionLength(t) == n
    requires |digits| >= 1 && AllDigits(digits)
    ensures Number(t) == Some(Numeral(Decimal.Parse(digits), -(n as int)))
  {
    assert Number(t) == Some(Numeral(Coefficient(t, digits), -(n as int)));
  }

  /** Text without surrounding whitespace, sign, exponent marker or point
      is numeric exactly when it is all digits. */
  lemma PlainNumeric(t: string)
    requires |t| >= 1 && !IsSpace(t[0]) && !IsSpace(t[|t| - 1])
    requires forall i :: 0 <= i < |t| ==> t[i] !in {'+', '-', 'e', 'E', '.'}
    ensures IsNumeric(t) <==> AllDigits(t)
  {
    Untrimmed(t);
    PlainNumber(t);
  }

  /** A string of digits is its own value. */
  lemma DigitsNumber(t: string)
    requires |t| >= 1 && AllDigits(t)
    ensures Number(t) == Some(Numeral(Decimal.Parse(t), 0))
  {
    PlainParts(t);
    assert Number(t) == Some(Numeral(Coefficient(t, t), 0));
  }

  /** The search stops at the first character of `cs`. */
  lemma FindAt(s: string, cs: set<char>, k: nat)
    requires k < |s| && s[k] in cs && forall i :: 0 <= i < k ==> s[i] !in cs
    ensures Find(s, cs) == k
  {
  }

  /** The parts of digits, a '.' and digits: no sign, no exponent, the
      digits on both sides together and the length of the fraction. */
  lemma PointParts(w: string, f: string)
    requires |w| >= 1 && AllDigits(w) && AllDigits(f)
    ensures var t := w + "." + f;
      Unsigned(t) == t && MantissaPart(t) == t && ExponentPart(t) == Some(0) &&
      DigitsPart(t) == w + f && FractionLength(t) == |f|
  {
    var t := w + "." + f;
    assert t[0] == w[0];
    assert forall i :: 0 <= i < |t| ==> t[i] == '.' || Decimal.IsDigit(t[i]);
    FindNone(t, {'e', 'E'});
    assert forall i :: 0 <= i < |w| ==> t[i] == w[i];
    FindAt(t, {'.'}, |w|);
    assert t[..|w|] == w && t[|w| + 1..] == f;
  }

  /** Digits, a '.' and digits spell the digits together, scaled down by
      the length of the fraction. */
  lemma PointNumber(w: string, f: string)
    requires |w| >= 1 && AllDigits(w) && AllDigits(f)
    ensures Number(w + "." + f) == Some(Numeral(Decimal.Parse(w + f), -|f|))
  {
    var t := w + "." + f;
    PointParts(w, f);
    assert t[0] == w[0];
    assert AllDigits(w + f);
    UnsignedNumber(t, w + f, |f|);
  }

  /** Text without trimmable whitespace at either end is left as it is. */
  lemma Untrimmed(t: string)
    requires |t| >= 1 && !IsSpace(t[0]) && !IsSpace(t[|t| - 1])
    ensures TrimRight(TrimLeft(t)) == t
  {
  }

  /** Digits alone are a numeric string worth their own value. */
  lemma NumericDigits(t: string)
    requires |t| >= 1 && AllDigits(t)
    ensures IsNumeric(t) && NumericValue(t) == Numeral(Decimal.Parse(t), 0)
  {
    Untrimmed(t);
    DigitsNumber(t);
  }

  /** Digits, a '.' and digits are a numeric string worth the digits
      together, scaled down by the length of the fraction. */
  lemma NumericPoint(w: string, f: string)
    requires |w| >= 1 && |f| >= 1 && AllDigits(w) && AllDigits(f)
    ensures IsNumeric(w + "." + f)
    ensures NumericValue(w + "." + f) == Numeral(Decimal.Parse(w + f), -|f|)
  {
    var t := w + "." + f;
    assert TrimRight(TrimLeft(t)) == t by {
      assert t[0] == w[0] && t[|t| - 1] == f[|f| - 1];
      Untrimmed(t);
    }
    assert Number(t) == Some(Numeral(Decimal.Parse(w + f), -|f|)) by {
      PointNumber(w, f);
    }
  }

  /** A stored integer equals the route string that spells it: `42 == "42"`. */
  lemma IntMatchesItsDecimalString(n: nat)
    ensures LooseEq(Int(n), Str(Decimal.Show(n)))
    ensures LooseEq(Str(Decimal.Show(n)), Int(n))
  {
    var t := Decimal.Show(n);
    Untrimmed(t);
    DigitsNumber(t);
    Decimal.ParseShow(n);
  }

  /** A point and a zero do not change a whole number: "1.0" == "1" and
      1 == "1.0", for every run of digits. */
  lemma LooseEqDecimalPoint(w: string)
    requires |w| >= 1 && AllDigits(w)
    ensures LooseEq(Str(w + ".0"), Str(w))
    ensures LooseEq(Int(Decimal.Parse(w)), Str(w + ".0"))
  {
    var t, p := w + ".0", Decimal.Parse(w);
    var q := p * Pow10(1);
    assert IsNumeric(t) && NumericValue(t) == Numeral(q, -1) by {
      assert t == w + "." + "0";
      NumericPoint(w, "0");
      assert (w + "0")[..|w|] == w;
      assert Pow10(1) == 10;
    }
    NumericDigits(w);
    SameValueScaled(p, 0, 1);
    NumericEquality(Str(t), Str(w));
    NumericEquality(Int(p), Str(t));
  }

  /** An exponent scales the mantissa: "1e3" == 1000. */
  lemma LooseEqExponent()
    ensures LooseEq(Str("1e3"), Int(1000))
  {
    var t := "1e3";
    Untrimmed(t);
    assert Unsigned(t) == t;
    assert Find(t, {'e', 'E'}) == 1;
    assert MantissaPart(t) == "1" && t[2..] == "3";
    assert Exponent("3") == Some(3) && ExponentPart(t) == Some(3);
    FindNone("1", {'.'});
    assert DigitsPart("1") == "1" && FractionLength("1") == 0;
    assert Number(t) == Some(Numeral(1, 3));
    assert Pow10(3) == 1000;
  }

  /** Whitespace around a number is ignored: " 2 " == 2. */
  lemma LooseEqSpaced()
    ensures LooseEq(Str(" 2 "), Int(2))
  {
    assert TrimLeft(" 2 ") == "2 " && TrimRight("2 ") == "2";
    DigitsNumber("2");
  }

  /** A string that is not numeric compares as a string: "abc" == 0 and
      "1abc" == 1 are false. */
  lemma LooseEqNonNumeric()
    ensures !LooseEq(Str("abc"), Int(0))
    ensures !LooseEq(Str("1abc"), Int(1))
  {
    var word, lead := "abc", "1abc";
    PlainNumeric(word);
    PlainNumeric(lead);
    assert !Decimal.IsDigit(word[0]) && !Decimal.IsDigit(lead[1]);
    assert IntToString(0) != word && IntToString(1) != lead;
  }

  /** `explode($sep, $s)`: the pieces of `s` between occurrences of `sep`. */
  function Explode(sep: char, s: string): (parts: seq<string>)
    ensures |parts| >= 1
    ensures forall i :: 0 <= i < |parts| ==> sep !in parts[i]
    ensures sep !in s ==> parts == [s]
  {
    if |s| == 0 then [""]
    else
      var rest := Explode(sep, s[1..]);
      if s[0] == sep then [""] + rest
      else
        assert s == [s[0]] + s[1..];
        [[s[0]] + rest[0]] + rest[1..]
  }

  /** `implode($sep, $parts)`. */
  function Join(parts: seq<string>, sep: char): string
    requires |parts| >= 1
  {
    if |parts| == 1 then parts[0] else parts[0] + [sep] + Join(parts[1..], sep)
  }

  /** Exploding loses nothing: joining the pieces gives the string back. */
  lemma {:induction false} JoinExplode(sep: char, s: string)
    ensures Join(Explode(sep, s), sep) == s
  {
    if |s| > 0 {
      var rest := Explode(sep, s[1..]);
      JoinExplode(sep, s[1..]);
      if s[0] != sep {
        var parts := [[s[0]] + rest[0]] + rest[1..];
        assert parts[1..] == rest[1..];
        if |rest| > 1 {
          assert Join(rest, sep) == rest[0] + [sep] + Join(rest[1..], sep);
        }
        assert Join(parts, sep) == [s[0]] + Join(rest, sep);
      } else {
        assert ([""] + rest)[1..] == rest;
      }
    }
  }

  /** A string made of a piece without the separator, the separator, and a rest
      explodes into that piece followed by the pieces of the rest. */
  lemma {:induction false} ExplodeAtFirst(sep: char, a: string, b: string)
    requires sep !in a
    ensures Explode(sep, a + [sep] + b) == [a] + Explode(sep, b)
  {
    if |a| > 0 {
      assert (a + [sep] + b)[1..] == a[1..] + [sep] + b;
      ExplodeAtFirst(sep, a[1..], b);
      assert a == [a[0]] + a[1..];
    } else {
      assert a + [sep] + b == [sep] + b;
    }
  }
}
