/**
 * The JavaScript built-ins that the page-range resolver relies on:
 * the global `Number` conversion of a string, `Math.max`/`Math.min`,
 * `+`/`-` on numbers, `ToLength` (used by `Array.from`),
 * the whitespace `String.prototype.trim` strips, `String.prototype.split`
 * on one character,
 * and `String(n)` for a non-negative integer.
 *
 * Only integer-valued numbers are modelled: a JS number is either an
 * exact integer, one of the two infinities, or NaN.
 */
module JsBuiltins {
  import opened Wrappers

  datatype JsNumber = Finite(n: int) | PosInfinity | NegInfinity | NaN

  /** Number.MAX_SAFE_INTEGER, the upper bound of ToLength. */
  const MaxSafeInteger: nat := 0x1F_FFFF_FFFF_FFFF

  /** The largest length an Array may have (2^32 - 1). */
  const MaxArrayLength: nat := 0xFFFF_FFFF

  // ---------------------------------------------------------------------
  // Arithmetic and comparison

  /** The numeric order `x < y` on non-NaN numbers (false when either is NaN). */
  predicate Less(x: JsNumber, y: JsNumber)
  {
    match (x, y)
    case (Finite(a), Finite(b)) => a < b
    case (NegInfinity, Finite(_)) => true
    case (NegInfinity, PosInfinity) => true
    case (Finite(_), PosInfinity) => true
    case _ => false
  }

  /** Math.max(x, y). */
  function Max(x: JsNumber, y: JsNumber): JsNumber
  {
    if x.NaN? || y.NaN? then NaN else if Less(x, y) then y else x
  }

  /** Math.min(x, y). */
  function Min(x: JsNumber, y: JsNumber): JsNumber
  {
    if x.NaN? || y.NaN? then NaN else if Less(y, x) then y else x
  }

  /** x + y, with the IEEE rules for infinities (Infinity + -Infinity is NaN). */
  function Add(x: JsNumber, y: JsNumber): JsNumber
  {
    if x.NaN? || y.NaN? then NaN
    else if x.Finite? && y.Finite? then Finite(x.n + y.n)
    else if (x.PosInfinity? && y.NegInfinity?) || (x.NegInfinity? && y.PosInfinity?) then NaN
    else if x.PosInfinity? || y.PosInfinity? then PosInfinity
    else NegInfinity
  }

  function Negate(x: JsNumber): JsNumber
  {
    match x
    case Finite(a) => Finite(-a)
    case PosInfinity => NegInfinity
    case NegInfinity => PosInfinity
    case NaN => NaN
  }

  /** x - y. */
  function Sub(x: JsNumber, y: JsNumber): JsNumber
  {
    Add(x, Negate(y))
  }

  /** ToLength: the length `Array.from` reads from `{ length: x }`. */
  function ToLength(x: JsNumber): nat
  {
    match x
    case NaN => 0
    case NegInfinity => 0
    case PosInfinity => MaxSafeInteger
    case Finite(a) => if a <= 0 then 0 else if a <= MaxSafeInteger then a else MaxSafeInteger
  }

  /** Less is a strict total order on the non-NaN numbers, with the infinities at the ends. */
  lemma LessOrder(x: JsNumber, y: JsNumber, z: JsNumber)
    ensures !Less(x, x)
    ensures Less(x, y) ==> !Less(y, x)
    ensures Less(x, y) && Less(y, z) ==> Less(x, z)
    ensures !x.NaN? && !y.NaN? ==> Less(x, y) || Less(y, x) || x == y
    ensures x.NaN? ==> !Less(x, y) && !Less(y, x)
  {
  }

  /**
   * Math.max and Math.min are NaN exactly when an argument is, and
   * otherwise return one of the arguments that is not below (not above)
   * the other.
   */
  lemma MaxMin(x: JsNumber, y: JsNumber)
    ensures Max(x, y).NaN? <==> x.NaN? || y.NaN?
    ensures Min(x, y).NaN? <==> x.NaN? || y.NaN?
    ensures !x.NaN? && !y.NaN? ==> (Max(x, y) == x || Max(x, y) == y) && !Less(Max(x, y), x) && !Less(Max(x, y), y)
    ensures !x.NaN? && !y.NaN? ==> (Min(x, y) == x || Min(x, y) == y) && !Less(x, Min(x, y)) && !Less(y, Min(x, y))
  {
  }

  /** Integer arithmetic on finite numbers; NaN from NaN and from opposite infinities. */
  lemma AddSub(x: JsNumber, y: JsNumber)
    ensures x.Finite? && y.Finite? ==> Add(x, y) == Finite(x.n + y.n) && Sub(x, y) == Finite(x.n - y.n)
    ensures Add(x, y).NaN? <==> x.NaN? || y.NaN? || (x.PosInfinity? && y.NegInfinity?) || (x.NegInfinity? && y.PosInfinity?)
    ensures Sub(x, y).NaN? <==> x.NaN? || y.NaN? || (x.PosInfinity? && y.PosInfinity?) || (x.NegInfinity? && y.NegInfinity?)
  {
  }

  /** ToLength clamps into [0, 2^53 - 1]; NaN and -Infinity give 0. */
  lemma ToLengthRange(x: JsNumber)
    ensures ToLength(x) <= MaxSafeInteger
    ensures x.Finite? && 0 <= x.n <= MaxSafeInteger ==> ToLength(x) == x.n
    ensures x.NaN? || x.NegInfinity? || (x.Finite? && x.n <= 0) ==> ToLength(x) == 0
    ensures x.PosInfinity? || (x.Finite? && x.n >= MaxSafeInteger) ==> ToLength(x) == MaxSafeInteger
  {
  }

  // ---------------------------------------------------------------------
  // Strings

  /** The characters `String.prototype.trim` and `Number` strip: WhiteSpace and LineTerminator. */
  predicate IsWhitespace(c: char)
  {
    c == '\t' || c == '\n' || c == '\U{000B}' || c == '\U{000C}' || c == '\r' || c == ' '
    || c == '\U{00A0}' || c == '\U{1680}' || ('\U{2000}' <= c <= '\U{200A}')
    || c == '\U{2028}' || c == '\U{2029}' || c == '\U{202F}' || c == '\U{205F}'
    || c == '\U{3000}' || c == '\U{FEFF}'
  }

  /** Joins pieces with `sep` between them: the inverse of Split. */
  function Join(pieces: seq<string>, sep: char): string
    requires |pieces| >= 1
  {
    if |pieces| == 1 then pieces[0] else pieces[0] + [sep] + Join(pieces[1..], sep)
  }

  /**
   * String.prototype.split(sep) for a one-character separator: the text
   * is cut at every occurrence of the separator, and the pieces between
   * them are returned in order, always at least one (`"".split(",")` is
   * `[""]`). Written character by character: a separator starts a new
   * piece, any other character joins the first piece of the rest.
   */
  function Split(s: string, sep: char): (r: seq<string>)
    ensures |r| >= 1
  {
    if s == [] then [[]]
    else
      var rest := Split(s[1..], sep);
      if s[0] == sep then [[]] + rest else [[s[0]] + rest[0]] + rest[1..]
  }

  // ---------------------------------------------------------------------
  // Number(text)

  /** The value of character `c` as a digit in base `radix`, if it is one. */
  function DigitValue(c: char, radix: nat): (r: Option<nat>)
    ensures r.Some? ==> r.value < radix
  {
    var v: int :=
      if '0' <= c <= '9' then c as int - '0' as int
      else if 'a' <= c <= 'z' then c as int - 'a' as int + 10
      else if 'A' <= c <= 'Z' then c as int - 'A' as int + 10
      else radix;
    if 0 <= v < radix then Some(v) else None
  }

  /**
   * The value of a digit string in base `radix`, most significant digit
   * first; None when some character is not a digit of that base.
   */
  function ParseDigits(u: string, radix: nat): Option<nat>
  {
    if u == [] then Some(0)
    else
      match (ParseDigits(u[..|u| - 1], radix), DigitValue(u[|u| - 1], radix))
      case (Some(high), Some(low)) => Some(high * radix + low)
      case _ => None
  }

  predicate IsDecimalDigit(c: char)
  {
    '0' <= c <= '9'
  }

  /** The position of the first character of `u` in `stops`, or |u| when there is none. */
  function FirstOf(u: string, stops: set<char>): (r: nat)
    ensures r <= |u|
    ensures forall k :: 0 <= k < r ==> u[k] !in stops
    ensures r < |u| ==> u[r] in stops
  {
    if u == [] then 0 else if u[0] in stops then 0 else 1 + FirstOf(u[1..], stops)
  }

  function Pow10(k: nat): (r: nat)
    ensures r >= 1
  {
    if k == 0 then 1 else 10 * Pow10(k - 1)
  }

  /** The exponent after 'e' or 'E': an optional sign and one or more decimal digits. */
  function Exponent(x: string): Option<int>
  {
    var digits := if x != [] && (x[0] == '+' || x[0] == '-') then x[1..] else x;
    if digits == [] || ParseDigits(digits, 10).None? then None
    else
      var v: int := ParseDigits(digits, 10).value;
      Some(if x[0] == '-' then -v else v)
  }

  /**
   * A StrUnsignedDecimalLiteral other than `Infinity`: a mantissa, then an
   * optional exponent introduced by 'e' or 'E'.
   */
  function DecimalValue(u: string): JsNumber
  {
    var e := FirstOf(u, {'e', 'E'});
    MantissaValue(u[..e], if e == |u| then Some(0) else Exponent(u[e + 1..]))
  }

  /** The mantissa: digits with an optional '.' and fraction digits, at least one digit in all. */
  function MantissaValue(mantissa: string, exponent: Option<int>): JsNumber
  {
    var d := FirstOf(mantissa, {'.'});
    ScaledValue(mantissa[..d], if d == |mantissa| then [] else mantissa[d + 1..], exponent)
  }

  /**
   * The value whole.fraction * 10^exponent: the digits of whole and fraction
   * read as one integer, shifted by the exponent less the fraction's length.
   */
  function ScaledValue(whole: string, fraction: string, exponent: Option<int>): JsNumber
  {
    if (whole == [] && fraction == []) || exponent.None? then NaN
    else
      match ParseDigits(whole + fraction, 10)
      case Some(m) => Shift(m, exponent.value - |fraction|)
      case None => NaN
  }

  /**
   * m * 10^scale. A value that is not an integer lies outside this model of
   * numbers and is read as NaN.
   */
  function Shift(m: nat, scale: int): JsNumber
    decreases if scale < 0 then -scale else scale
  {
    if scale == 0 then Finite(m)
    else if scale > 0 then Shift(m * 10, scale - 1)
    else if m % 10 == 0 then Shift(m / 10, scale + 1)
    else NaN
  }

  /** Shifting left multiplies by a power of ten. */
  lemma {:induction false} ShiftLeft(m: nat, x: nat)
    ensures Shift(m, x) == Finite(m * Pow10(x))
    decreases x
  {
    if x > 0 {
      ShiftLeft(m * 10, x - 1);
      assert m * 10 * Pow10(x - 1) == m * Pow10(x);
    }
  }

  /** An unsigned decimal literal: `Infinity` or a decimal literal. */
  function UnsignedDecimal(u: string): JsNumber
  {
    if u == "Infinity" then PosInfinity else DecimalValue(u)
  }

  /** A non-empty, already trimmed numeric literal (StringNumericLiteral). */
  function NumericLiteral(t: string): JsNumber
    requires t != []
  {
    if |t| >= 2 && t[0] == '0' && (t[1] == 'x' || t[1] == 'X' || t[1] == 'o' || t[1] == 'O' || t[1] == 'b' || t[1] == 'B') then
      var radix := if t[1] == 'x' || t[1] == 'X' then 16 else if t[1] == 'o' || t[1] == 'O' then 8 else 2;
      var u := t[2..];
      if u != [] && ParseDigits(u, radix).Some? then Finite(ParseDigits(u, radix).value) else NaN
    else if t[0] == '+' then UnsignedDecimal(t[1..])
    else if t[0] == '-' then Negate(UnsignedDecimal(t[1..]))
    else UnsignedDecimal(t)
  }

  /**
   * The global `Number(text)`: the text is stripped of whitespace at both
   * ends (as `String.prototype.trim` does), then whitespace-only text is 0
   * and unparsable text is NaN. The stripping is written one character at
   * a time, first from the front and then from the back.
   */
  function ToNumber(text: string): JsNumber
    decreases |text|
  {
    if text == [] then Finite(0)
    else if IsWhitespace(text[0]) then ToNumber(text[1..])
    else if IsWhitespace(text[|text| - 1]) then ToNumber(text[..|text| - 1])
    else NumericLiteral(text)
  }

  /** `String(n)` for a non-negative integer: decimal digits, no leading zero. */
  function NatToString(n: nat): (s: string)
    ensures |s| >= 1 && forall i :: 0 <= i < |s| ==> IsDecimalDigit(s[i])
    ensures |s| > 1 ==> s[0] != '0'
  {
    var d := [('0' as int + n % 10) as char];
    if n < 10 then d else NatToString(n / 10) + d
  }

  // ---------------------------------------------------------------------
  // Properties

  /** Text without whitespace at either end is read as a numeric literal as it stands. */
  lemma ToNumberOfLiteral(s: string)
    requires s != [] && !IsWhitespace(s[0]) && !IsWhitespace(s[|s| - 1])
    ensures ToNumber(s) == NumericLiteral(s)
  {
  }

  /** Text made only of whitespace converts to 0, as `Number("")` and `Number("  ")` do. */
  lemma {:induction false} ToNumberBlank(text: string)
    requires forall i :: 0 <= i < |text| ==> IsWhitespace(text[i])
    ensures ToNumber(text) == Finite(0)
    decreases |text|
  {
    if text != [] {
      ToNumberBlank(text[1..]);
    }
  }

  /** Trailing whitespace may be stripped first: the order of stripping does not matter. */
  lemma {:induction false} ToNumberStripLast(s: string)
    requires s != [] && IsWhitespace(s[|s| - 1])
    ensures ToNumber(s) == ToNumber(s[..|s| - 1])
    decreases |s|
  {
    if IsWhitespace(s[0]) && |s| >= 2 {
      ToNumberStripLast(s[1..]);
      assert s[1..][..|s| - 2] == s[..|s| - 1][1..];
    }
  }

  /** Whitespace around a number does not change it: Number(" 3 ") == Number("3"). */
  lemma {:induction false} ToNumberIgnoresSurroundingWhitespace(ws1: string, text: string, ws2: string)
    requires forall i :: 0 <= i < |ws1| ==> IsWhitespace(ws1[i])
    requires forall i :: 0 <= i < |ws2| ==> IsWhitespace(ws2[i])
    ensures ToNumber(ws1 + text + ws2) == ToNumber(text)
    decreases |ws1| + |ws2|
  {
    var s := ws1 + text + ws2;
    if ws2 != [] {
      ToNumberStripLast(s);
      assert s[..|s| - 1] == ws1 + text + ws2[..|ws2| - 1];
      ToNumberIgnoresSurroundingWhitespace(ws1, text, ws2[..|ws2| - 1]);
    } else if ws1 != [] {
      assert s[1..] == ws1[1..] + text + ws2;
      ToNumberIgnoresSurroundingWhitespace(ws1[1..], text, ws2);
    } else {
      assert s == text;
    }
  }

  /** Reading back the decimal digits of `n` gives `n`. */
  lemma {:induction false} DigitsOfNatToString(n: nat)
    ensures ParseDigits(NatToString(n), 10) == Some(n)
  {
    var s := NatToString(n);
    if n >= 10 {
      DigitsOfNatToString(n / 10);
      assert s[..|s| - 1] == NatToString(n / 10);
    }
  }

  /** A text with no character of `stops` is searched to its end. */
  lemma FirstOfNone(u: string, stops: set<char>)
    requires forall k :: 0 <= k < |u| ==> u[k] !in stops
    ensures FirstOf(u, stops) == |u|
  {
  }

  /** A string of decimal digits always parses. */
  lemma {:induction false} DigitsParse(u: string)
    requires forall i :: 0 <= i < |u| ==> IsDecimalDigit(u[i])
    ensures ParseDigits(u, 10).Some?
  {
    if u != [] {
      DigitsParse(u[..|u| - 1]);
    }
  }

  /** A plain digit string is read as the integer it spells. */
  lemma DigitsValue(u: string)
    requires u != [] && forall i :: 0 <= i < |u| ==> IsDecimalDigit(u[i])
    ensures ParseDigits(u, 10).Some? && DecimalValue(u) == Finite(ParseDigits(u, 10).value)
  {
    DigitsParse(u);
    FirstOfNone(u, {'e', 'E'});
    assert u[..|u|] == u;
    assert DecimalValue(u) == MantissaValue(u, Some(0));
    FirstOfNone(u, {'.'});
    assert MantissaValue(u, Some(0)) == ScaledValue(u, [], Some(0));
    assert u + [] == u;
  }

  /** `Number(String(n)) == n`: the round trip through the default range text. */
  lemma ToNumberOfNatToString(n: nat)
    ensures ToNumber(NatToString(n)) == Finite(n)
  {
    var s := NatToString(n);
    assert IsDecimalDigit(s[0]) && IsDecimalDigit(s[|s| - 1]);
    ToNumberOfLiteral(s);
    DigitsOfNatToString(n);
    assert s != "Infinity" by { assert IsDecimalDigit(s[0]); }
    DigitsValue(s);
  }

  /** A prefix with no character of `stops` is skipped whole. */
  lemma {:induction false} FirstOfAfter(u: string, t: string, stops: set<char>)
    requires forall k :: 0 <= k < |u| ==> u[k] !in stops
    ensures FirstOf(u + t, stops) == |u| + FirstOf(t, stops)
  {
    if u != [] {
      assert (u + t)[0] == u[0] && u[0] !in stops;
      assert (u + t)[1..] == u[1..] + t;
      assert FirstOf(u + t, stops) == 1 + FirstOf(u[1..] + t, stops);
      assert forall k :: 0 <= k < |u| - 1 ==> u[1..][k] == u[k + 1];
      FirstOfAfter(u[1..], t, stops);
    } else {
      assert u + t == t;
    }
  }

  /**
   * A literal that starts with a decimal digit and is no 0x/0o/0b literal
   * is read as a decimal literal.
   */
  lemma ToNumberOfDecimal(u: string)
    requires u != [] && IsDecimalDigit(u[0]) && !IsWhitespace(u[|u| - 1])
    requires |u| >= 2 ==> u[1] !in {'x', 'X', 'o', 'O', 'b', 'B'}
    ensures ToNumber(u) == DecimalValue(u)
  {
    ToNumberOfLiteral(u);
    assert u != "Infinity";
  }

  /** A literal without 'e' or 'E' has the exponent 0. */
  lemma WithoutExponent(u: string)
    requires forall k :: 0 <= k < |u| ==> u[k] !in {'e', 'E'}
    ensures DecimalValue(u) == MantissaValue(u, Some(0))
  {
    FirstOfNone(u, {'e', 'E'});
    assert u[..|u|] == u;
  }

  /** The mantissa ends at the first 'e'. */
  lemma WithExponent(m: string, x: string)
    requires forall k :: 0 <= k < |m| ==> m[k] !in {'e', 'E'}
    ensures DecimalValue(m + "e" + x) == MantissaValue(m, Exponent(x))
  {
    var u := m + "e" + x;
    assert u == m + ("e" + x);
    FirstOfAfter(m, "e" + x, {'e', 'E'});
    assert u[..|m|] == m && u[|m| + 1..] == x;
  }

  /** A mantissa without '.' has no fraction digits. */
  lemma WithoutFraction(w: string, exponent: Option<int>)
    requires forall k :: 0 <= k < |w| ==> w[k] != '.'
    ensures MantissaValue(w, exponent) == ScaledValue(w, [], exponent)
  {
    FirstOfNone(w, {'.'});
    assert w[..|w|] == w;
  }

  /** The fraction digits follow the first '.'. */
  lemma WithFraction(w: string, f: string, exponent: Option<int>)
    requires forall k :: 0 <= k < |w| ==> w[k] != '.'
    ensures MantissaValue(w + "." + f, exponent) == ScaledValue(w, f, exponent)
  {
    var u := w + "." + f;
    assert u == w + ("." + f);
    FirstOfAfter(w, "." + f, {'.'});
    assert u[..|w|] == w && u[|w| + 1..] == f;
  }

  /** A trailing "0" digit multiplies by ten. */
  lemma ParseDigitsZero(w: string)
    requires ParseDigits(w, 10).Some?
    ensures ParseDigits(w + "0", 10) == Some(ParseDigits(w, 10).value * 10)
  {
    assert (w + "0")[..|w|] == w;
  }

  /** The digits w followed by ".0" have the value of w. */
  lemma ZeroFractionValue(w: string)
    requires w != [] && forall k :: 0 <= k < |w| ==> IsDecimalDigit(w[k])
    ensures ParseDigits(w, 10).Some? && DecimalValue(w + ".0") == Finite(ParseDigits(w, 10).value)
  {
    DigitsParse(w);
    ZeroFractionParts(w);
    ZeroFractionScaled(w);
  }

  lemma ZeroFractionParts(w: string)
    requires forall k :: 0 <= k < |w| ==> IsDecimalDigit(w[k])
    ensures DecimalValue(w + ".0") == ScaledValue(w, "0", Some(0))
  {
    var u := w + ".0";
    forall k | 0 <= k < |u|
      ensures u[k] !in {'e', 'E'}
    {
      if k < |w| {
        assert u[k] == w[k];
      }
    }
    WithoutExponent(u);
    assert w + "." + "0" == u;
    WithFraction(w, "0", Some(0));
  }

  lemma ZeroFractionScaled(w: string)
    requires w != [] && ParseDigits(w, 10).Some?
    ensures ScaledValue(w, "0", Some(0)) == Finite(ParseDigits(w, 10).value)
  {
    var n := ParseDigits(w, 10).value;
    ParseDigitsZero(w);
    assert Shift(n * 10, -1) == Shift(n, 0);
  }

  /** `Number(String(n) + ".0") == n`: a zero fraction does not change the value. */
  lemma ToNumberOfZeroFraction(n: nat)
    ensures ToNumber(NatToString(n) + ".0") == Finite(n)
  {
    var w := NatToString(n);
    var u := w + ".0";
    assert u[0] == w[0] && u[|u| - 1] == '0';
    assert |u| >= 2 ==> u[1] !in {'x', 'X', 'o', 'O', 'b', 'B'} by {
      if |w| >= 2 { assert u[1] == w[1]; } else { assert u[1] == '.'; }
    }
    ToNumberOfDecimal(u);
    DigitsOfNatToString(n);
    ZeroFractionValue(w);
  }

  /** The digits w followed by "e" and the digits x have the value of w times 10^x. */
  lemma ExponentValue(w: string, x: string)
    requires w != [] && forall k :: 0 <= k < |w| ==> IsDecimalDigit(w[k])
    requires x != [] && forall k :: 0 <= k < |x| ==> IsDecimalDigit(x[k])
    ensures ParseDigits(w, 10).Some? && ParseDigits(x, 10).Some?
    ensures DecimalValue(w + "e" + x) == Finite(ParseDigits(w, 10).value * Pow10(ParseDigits(x, 10).value))
  {
    DigitsParse(w);
    DigitsParse(x);
    WithExponent(w, x);
    assert Exponent(x) == Some(ParseDigits(x, 10).value as int);
    WithoutFraction(w, Exponent(x));
    ExponentScaled(w, ParseDigits(x, 10).value);
  }

  lemma ExponentScaled(w: string, x: nat)
    requires w != [] && ParseDigits(w, 10).Some?
    ensures ScaledValue(w, [], Some(x)) == Finite(ParseDigits(w, 10).value * Pow10(x))
  {
    assert w + [] == w;
    ShiftLeft(ParseDigits(w, 10).value, x);
  }

  /** `Number(String(n) + "e" + String(x)) == n * 10^x`. */
  lemma ToNumberOfExponent(n: nat, x: nat)
    ensures ToNumber(NatToString(n) + "e" + NatToString(x)) == Finite(n * Pow10(x))
  {
    var w := NatToString(n);
    var k := NatToString(x);
    var u := w + "e" + k;
    assert u[0] == w[0] && u[|u| - 1] == k[|k| - 1] && IsDecimalDigit(k[|k| - 1]);
    assert |u| >= 2 ==> u[1] !in {'x', 'X', 'o', 'O', 'b', 'B'} by {
      if |w| >= 2 { assert u[1] == w[1]; } else { assert u[1] == 'e'; }
    }
    ToNumberOfDecimal(u);
    DigitsOfNatToString(n);
    DigitsOfNatToString(x);
    ExponentValue(w, k);
  }

  /** Text without the separator splits into itself alone. */
  lemma {:induction false} SplitNoSeparator(s: string, sep: char)
    requires sep !in s
    ensures Split(s, sep) == [s]
  {
    if s != [] {
      SplitNoSeparator(s[1..], sep);
      assert s == [s[0]] + s[1..];
    }
  }

  /** Splitting distributes over a separator: the pieces keep their order. */
  lemma {:induction false} SplitConcat(a: string, sep: char, b: string)
    ensures Split(a + [sep] + b, sep) == Split(a, sep) + Split(b, sep)
  {
    if a == [] {
      var s := a + [sep] + b;
      assert s[0] == sep && s[1..] == b;
    } else {
      SplitConcat(a[1..], sep, b);
      SplitConcatCons(a, sep, b);
    }
  }

  /** The inductive step of SplitConcat: the first character of `a` ends or joins the first piece. */
  lemma SplitConcatCons(a: string, sep: char, b: string)
    requires a != []
    requires Split(a[1..] + [sep] + b, sep) == Split(a[1..], sep) + Split(b, sep)
    ensures Split(a + [sep] + b, sep) == Split(a, sep) + Split(b, sep)
  {
    var s := a + [sep] + b;
    assert s[0] == a[0] && s[1..] == a[1..] + [sep] + b;
    SplitFirst(s, sep);
    SplitFirst(a, sep);
    if a[0] == sep {
      AppendFront([], Split(a[1..], sep), Split(b, sep));
    } else {
      AppendFirstPiece(a[0], Split(a[1..], sep), Split(b, sep));
    }
  }

  /** Sequence concatenation is associative, with a new first element. */
  lemma AppendFront(x: string, r: seq<string>, t: seq<string>)
    ensures [x] + (r + t) == ([x] + r) + t
  {
  }

  /** A character put in front of the first piece of `r + t`, with `r` non-empty. */
  lemma AppendFirstPiece(c: char, r: seq<string>, t: seq<string>)
    requires |r| >= 1
    ensures var q := r + t; [[c] + q[0]] + q[1..] == ([[c] + r[0]] + r[1..]) + t
  {
    var q := r + t;
    assert q[0] == r[0] && q[1..] == r[1..] + t;
  }

  /** One step of Split: the first character is a separator or joins the first piece. */
  lemma SplitFirst(s: string, sep: char)
    requires s != []
    ensures var rest := Split(s[1..], sep);
      Split(s, sep) == if s[0] == sep then [[]] + rest else [[s[0]] + rest[0]] + rest[1..]
  {
  }

  /** The pieces hold no separator. */
  lemma {:induction false} SplitPieces(s: string, sep: char)
    ensures forall k :: 0 <= k < |Split(s, sep)| ==> sep !in Split(s, sep)[k]
  {
    if s != [] {
      SplitPieces(s[1..], sep);
      var rest := Split(s[1..], sep);
      if s[0] != sep {
        assert sep !in [s[0]] + rest[0];
      }
    }
  }

  /** A character in front of the first piece is a character in front of the joined text. */
  lemma JoinPrepend(c: char, pieces: seq<string>, sep: char)
    requires |pieces| >= 1
    ensures Join([[c] + pieces[0]] + pieces[1..], sep) == [c] + Join(pieces, sep)
  {
    var q := [[c] + pieces[0]] + pieces[1..];
    assert q[0] == [c] + pieces[0] && q[1..] == pieces[1..];
    if |pieces| >= 2 {
      assert [c] + pieces[0] + [sep] + Join(pieces[1..], sep) == [c] + (pieces[0] + [sep] + Join(pieces[1..], sep));
    }
  }

  /** Joining the pieces with the separator gives the text back. */
  lemma {:induction false} JoinSplit(s: string, sep: char)
    ensures Join(Split(s, sep), sep) == s
  {
    if s != [] {
      var rest := Split(s[1..], sep);
      JoinSplit(s[1..], sep);
      if s[0] == sep {
        var q := [[]] + rest;
        assert q[0] == [] && q[1..] == rest;
        assert s == [] + [sep] + s[1..];
      } else {
        JoinPrepend(s[0], rest, sep);
        assert s == [s[0]] + s[1..];
      }
    }
  }
}
