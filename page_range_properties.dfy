/**
 * What `parseRange` promises: exact runs for well-formed ranges, the
 * clamping policy, empty contributions for inverted or NaN ranges, token
 * order and repeated pages kept, and the full default range.
 */
module PageRangeProperties {
  import opened Wrappers
  import opened JsBuiltins
  import opened PageRange

  /** Page number `n` clamped into [1, max] (`Math.max(1, Math.min(max, n))`). */
  function ClampPage(n: int, max: nat): int
  {
    if n > max then (if 1 > max then 1 else max) else if n < 1 then 1 else n
  }

  /**
   * The reference result of a range token whose ends are the integers a and
   * b: the 0-based run from max(1, a) - 1 to min(max, b) - 1, empty when the
   * clamped end is below the clamped start or the run is too long for an
   * Array (the RangeError is caught).
   */
  function ClampedRun(a: int, b: int, max: nat): seq<int>
  {
    var s := if a < 1 then 1 else a;
    var e := if b > max then max else b;
    if e < s || e - s + 1 > MaxArrayLength then [] else Indices(s - 1, e - s + 1)
  }

  /** `t` is the text of the integer `n` and holds neither ',' nor '-'. */
  predicate NumberText(t: string, n: int)
  {
    ',' !in t && '-' !in t && ToNumber(t) == Finite(n)
  }

  // ---------------------------------------------------------------------
  // The filter and the flatMap

  lemma {:induction false} KeepIndicesConcat(xs: seq<JsNumber>, ys: seq<JsNumber>, max: nat)
    ensures KeepIndices(xs + ys, max) == KeepIndices(xs, max) + KeepIndices(ys, max)
  {
    if xs == [] {
      assert xs + ys == ys;
    } else {
      var head := if xs[0].Finite? && 0 <= xs[0].n < max then [xs[0].n as nat] else [];
      assert (xs + ys)[0] == xs[0] && (xs + ys)[1..] == xs[1..] + ys;
      KeepIndicesConcat(xs[1..], ys, max);
      calc {
        KeepIndices(xs + ys, max);
        head + KeepIndices(xs[1..] + ys, max);
        head + (KeepIndices(xs[1..], max) + KeepIndices(ys, max));
        (head + KeepIndices(xs[1..], max)) + KeepIndices(ys, max);
      }
    }
  }

  /** The filter keeps only valid 0-based indices of a `max`-page document. */
  lemma {:induction false} KeepIndicesBound(xs: seq<JsNumber>, max: nat)
    ensures |KeepIndices(xs, max)| <= |xs|
    ensures forall k :: 0 <= k < |KeepIndices(xs, max)| ==> KeepIndices(xs, max)[k] < max
  {
    if xs != [] {
      KeepIndicesBound(xs[1..], max);
    }
  }

  /**
   * Every index `parseRange` returns is a valid 0-based page index of a
   * document of `max` pages, and a thrown error yields no index at all.
   */
  lemma ParseRangeBounds(range: string, max: nat)
    ensures forall i :: i in ParseRange(range, max) ==> i < max
    ensures Throws(range, max) ==> ParseRange(range, max) == []
  {
    var e := ExpandParts(Split(range, ','), max);
    if e.Some? {
      KeepIndicesBound(e.value, max);
    }
  }

  /** The filter against zero pages keeps nothing. */
  lemma {:induction false} KeepIndicesNoPages(xs: seq<JsNumber>)
    ensures KeepIndices(xs, 0) == []
  {
    if xs != [] {
      KeepIndicesNoPages(xs[1..]);
    }
  }

  /** A document without pages keeps nothing, whatever the range text. */
  lemma NoPages(range: string)
    ensures ParseRange(range, 0) == []
  {
    var e := ExpandParts(Split(range, ','), 0);
    if e.Some? {
      KeepIndicesNoPages(e.value);
    }
  }

  /** When every value is already a valid index, the filter keeps all of them, in order. */
  lemma {:induction false} KeepIndicesAllValid(xs: seq<JsNumber>, max: nat)
    requires forall k :: 0 <= k < |xs| ==> xs[k].Finite? && 0 <= xs[k].n < max
    ensures |KeepIndices(xs, max)| == |xs|
    ensures forall k :: 0 <= k < |xs| ==> KeepIndices(xs, max)[k] == xs[k].n
  {
    if xs != [] {
      var rest := xs[1..];
      assert forall k :: 0 <= k < |rest| ==> rest[k] == xs[k + 1];
      KeepIndicesAllValid(rest, max);
      assert KeepIndices(xs, max) == [xs[0].n as nat] + KeepIndices(rest, max);
    }
  }

  lemma {:induction false} FlatMapConcat<T, U>(p: seq<T>, q: seq<T>, f: T -> Option<seq<U>>)
    ensures FlatMap(p + q, f) ==
      if FlatMap(p, f).None? || FlatMap(q, f).None? then None
      else Some(FlatMap(p, f).value + FlatMap(q, f).value)
  {
    if p == [] {
      assert p + q == q;
      if FlatMap(q, f).Some? {
        assert [] + FlatMap(q, f).value == FlatMap(q, f).value;
      }
    } else {
      assert (p + q)[1..] == p[1..] + q;
      FlatMapConcat(p[1..], q, f);
      if f(p[0]).Some? && FlatMap(p[1..], f).Some? && FlatMap(q, f).Some? {
        var x, y, z := f(p[0]).value, FlatMap(p[1..], f).value, FlatMap(q, f).value;
        assert x + (y + z) == (x + y) + z;
      }
    }
  }

  lemma FlatMapSingle<T, U>(x: T, f: T -> Option<seq<U>>)
    ensures FlatMap([x], f) == f(x)
  {
    assert [x][1..] == [];
    if f(x).Some? {
      assert f(x).value + [] == f(x).value;
    }
  }

  /** A text without commas is one token: its result is that token's, filtered. */
  lemma OneToken(part: string, max: nat)
    requires ',' !in part
    ensures ExpandParts(Split(part, ','), max) == ExpandPart(part, max)
    ensures ParseRange(part, max) == if ExpandPart(part, max).None? then [] else KeepIndices(ExpandPart(part, max).value, max)
  {
    SplitNoSeparator(part, ',');
    FlatMapSingle(part, (p: string) => ExpandPart(p, max));
  }

  lemma ParseOneToken(part: string, max: nat, xs: seq<JsNumber>)
    requires ',' !in part
    requires ExpandPart(part, max) == Some(xs)
    ensures ParseRange(part, max) == KeepIndices(xs, max)
  {
    OneToken(part, max);
  }

  // ---------------------------------------------------------------------
  // Range tokens "a-b"

  lemma RunOfFinite(s: int, e: int)
    ensures Run(Finite(s), Finite(e)) ==
      if e < s then Some([])
      else if e - s + 1 > MaxArrayLength then None
      else Some(seq(e - s + 1, k => Finite(s - 1 + k)))
  {
    assert Add(Sub(Finite(e), Finite(s)), Finite(1)) == Finite(e - s + 1);
    if s <= e && e - s + 1 <= MaxArrayLength {
      var r := Run(Finite(s), Finite(e)).value;
      var t := seq(e - s + 1, k => Finite(s - 1 + k));
      assert |r| == |t|;
      forall k | 0 <= k < |r| ensures r[k] == t[k] {
        assert Sub(Finite(s), Finite(1)) == Finite(s - 1);
      }
      assert r == t;
    }
  }

  lemma KeepRun(s: int, e: int, max: nat)
    requires 1 <= s <= e <= max
    ensures KeepIndices(seq(e - s + 1, k => Finite(s - 1 + k)), max) == Indices(s - 1, e - s + 1)
  {
    var xs := seq(e - s + 1, k => Finite(s - 1 + k));
    assert forall k :: 0 <= k < |xs| ==> xs[k] == Finite(s - 1 + k);
    KeepIndicesAllValid(xs, max);
    var r := KeepIndices(xs, max);
    assert forall k :: 0 <= k < |r| ==> r[k] == Indices(s - 1, e - s + 1)[k];
  }

  lemma RunToken(part: string, max: nat, s: int, e: int)
    requires ',' !in part && 1 <= s && e <= max
    requires ExpandPart(part, max) == Run(Finite(s), Finite(e))
    ensures ParseRange(part, max) == if e < s || e - s + 1 > MaxArrayLength then [] else Indices(s - 1, e - s + 1)
  {
    RunOfFinite(s, e);
    if e < s {
      ParseOneToken(part, max, []);
    } else if e - s + 1 > MaxArrayLength {
      OneToken(part, max);
    } else {
      var xs := seq(e - s + 1, k => Finite(s - 1 + k));
      ParseOneToken(part, max, xs);
      KeepRun(s, e, max);
    }
  }

  /** For ends already inside the clamp, the reference result is the plain run. */
  lemma ClampedRunOfClamped(s: int, e: int, max: nat)
    requires 1 <= s && e <= max
    ensures ClampedRun(s, e, max) == if e < s || e - s + 1 > MaxArrayLength then [] else Indices(s - 1, e - s + 1)
  {
  }

  /** Clamping ends that are already clamped changes nothing. */
  lemma ClampedRunClamped(a: int, b: int, max: nat)
    ensures ClampedRun(if a < 1 then 1 else a, if b > max then max else b, max) == ClampedRun(a, b, max)
  {
  }

  /** The ends of a range token raised to at least 1 and lowered to at most max. */
  lemma ClampEnds(a: int, b: int, max: nat)
    ensures ExpandRange(Finite(a), Finite(b), max) == Run(Finite(if a < 1 then 1 else a), Finite(if b > max then max else b))
  {
  }

  /** A token containing '-' is expanded as a range between its two ends. */
  lemma RangePart(part: string, max: nat)
    requires '-' in part
    ensures ExpandPart(part, max) == ExpandRange(RangeEnds(part).0, RangeEnds(part).1, max)
  {
  }

  /** A range token whose two ends are the numbers a and b gives their clamped run. */
  lemma RangeToken(part: string, max: nat, a: int, b: int)
    requires ',' !in part && '-' in part && RangeEnds(part) == (Finite(a), Finite(b))
    ensures ParseRange(part, max) == ClampedRun(a, b, max)
  {
    var s, e := if a < 1 then 1 else a, if b > max then max else b;
    RangePart(part, max);
    ClampEnds(a, b, max);
    RunToken(part, max, s, e);
    ClampedRunOfClamped(s, e, max);
    ClampedRunClamped(a, b, max);
  }

  /** A range token with a NaN end ("abc-3", "1-x") contributes nothing. */
  lemma RangeTokenNaN(part: string, max: nat)
    requires ',' !in part && '-' in part && (RangeEnds(part).0.NaN? || RangeEnds(part).1.NaN?)
    ensures ParseRange(part, max) == []
  {
    OneToken(part, max);
  }

  /**
   * In `x + "-" + y` the start is the number `x` and the end is the number
   * before any further '-' in `y`: "1-2-3" is read as 1-2.
   */
  lemma RangeEndsOfText(x: string, y: string)
    requires '-' !in x
    ensures '-' in x + "-" + y
    ensures RangeEnds(x + "-" + y) == (ToNumber(x), ToNumber(Split(y, '-')[0]))
  {
    assert x + "-" + y == x + ['-'] + y;
    assert (x + "-" + y)[|x|] == '-';
    SplitConcat(x, '-', y);
    SplitNoSeparator(x, '-');
    var pieces := Split(x + "-" + y, '-');
    assert pieces == [x] + Split(y, '-');
    assert pieces[1..] == Split(y, '-');
    assert Numbers(pieces)[1] == Numbers(pieces[1..])[0];
  }

  /** Joining two comma-free texts with '-' adds no comma. */
  lemma NoCommaAdded(x: string, y: string)
    requires ',' !in x && ',' !in y
    ensures ',' !in x + "-" + y
  {
    assert x + "-" + y == x + ("-" + y);
  }

  /** The clamp formula for a range token "x-y" whose ends are the integers a and b. */
  lemma ClampedRange(x: string, y: string, a: int, b: int, max: nat)
    requires NumberText(x, a) && NumberText(y, b)
    ensures ParseRange(x + "-" + y, max) == ClampedRun(a, b, max)
  {
    RangeEndsOfText(x, y);
    SplitNoSeparator(y, '-');
    NoCommaAdded(x, y);
    RangeToken(x + "-" + y, max, a, b);
  }

  /** Ends already inside [1, max] are not moved by the clamp. */
  lemma ClampedRunInside(a: int, b: int, max: nat)
    requires 1 <= a <= b <= max
    ensures ClampedRun(a, b, max) == if b - a + 1 <= MaxArrayLength then Indices(a - 1, b - a + 1) else []
  {
  }

  /** For 1 <= a <= b <= max, the text "a-b" resolves to exactly [a-1, a, ..., b-1]. */
  lemma ExactRange(a: nat, b: nat, max: nat)
    requires 1 <= a <= b <= max && b - a + 1 <= MaxArrayLength
    ensures ParseRange(NatToString(a) + "-" + NatToString(b), max) == Indices(a - 1, b - a + 1)
  {
    NatToStringIsNumberText(a);
    NatToStringIsNumberText(b);
    ClampedRange(NatToString(a), NatToString(b), a, b, max);
    ClampedRunInside(a, b, max);
  }

  /** The decimal text of a natural number is a number text. */
  lemma NatToStringIsNumberText(n: nat)
    ensures NumberText(NatToString(n), n)
  {
    ToNumberOfNatToString(n);
    var t := NatToString(n);
    assert forall i :: 0 <= i < |t| ==> IsDecimalDigit(t[i]);
  }

  lemma DefaultRangeText(n: nat)
    ensures DefaultRange(n) == NatToString(1) + "-" + NatToString(n)
  {
    assert NatToString(1) == "1";
  }

  /** The default range "1-N" of an N-page document selects every page, in order. */
  lemma FullRange(n: nat)
    ensures ParseRange(DefaultRange(n), n) == if n <= MaxArrayLength then Indices(0, n) else []
  {
    NatToStringIsNumberText(1);
    NatToStringIsNumberText(n);
    DefaultRangeText(n);
    ClampedRange(NatToString(1), NatToString(n), 1, n, n);
    if n >= 1 {
      ClampedRunInside(1, n, n);
    }
  }

  // ---------------------------------------------------------------------
  // Single page numbers

  /** The filter keeps one value exactly when it is a valid index. */
  lemma KeepOne(x: JsNumber, max: nat)
    ensures KeepIndices([x], max) == if x.Finite? && 0 <= x.n < max then [x.n as nat] else []
  {
    assert [x][1..] == [];
  }

  /** The value `Math.max(1, Math.min(max, v)) - 1` of a page-number token. */
  lemma PageValue(v: JsNumber, max: nat)
    ensures var x := Sub(Max(Finite(1), Min(Finite(max), v)), Finite(1));
      (v.NaN? ==> x.NaN?) &&
      (v.Finite? ==> x == Finite(ClampPage(v.n, max) - 1)) &&
      (v.PosInfinity? ==> x == Finite((if max < 1 then 1 else max) - 1)) &&
      (v.NegInfinity? ==> x == Finite(0))
  {
  }

  /** What the filter keeps of the value of a page-number token. */
  lemma KeptPage(v: JsNumber, max: nat)
    ensures var kept := KeepIndices([Sub(Max(Finite(1), Min(Finite(max), v)), Finite(1))], max);
      (v.NaN? || max == 0 ==> kept == []) &&
      (v.Finite? && max >= 1 ==> kept == [ClampPage(v.n, max) - 1]) &&
      (v.PosInfinity? && max >= 1 ==> kept == [max - 1])
  {
    KeepOne(Sub(Max(Finite(1), Min(Finite(max), v)), Finite(1)), max);
    PageValue(v, max);
  }

  /** A token without '-' is expanded as one page number. */
  lemma PagePart(part: string, max: nat)
    requires '-' !in part
    ensures ExpandPart(part, max) == Some([Sub(Max(Finite(1), Min(Finite(max), ToNumber(part))), Finite(1))])
  {
  }

  /**
   * A token without '-' is one page number: clamped into [1, max] (so a
   * number past the end selects the last page, and Infinity does too), NaN
   * contributes nothing, and with max = 0 nothing survives the filter.
   */
  lemma SingleToken(part: string, max: nat, v: JsNumber)
    requires ',' !in part && '-' !in part && ToNumber(part) == v
    ensures v.NaN? || max == 0 ==> ParseRange(part, max) == []
    ensures v.Finite? && max >= 1 ==> ParseRange(part, max) == [ClampPage(v.n, max) - 1]
    ensures v.PosInfinity? && max >= 1 ==> ParseRange(part, max) == [max - 1]
  {
    var x := Sub(Max(Finite(1), Min(Finite(max), v)), Finite(1));
    PagePart(part, max);
    ParseOneToken(part, max, [x]);
    KeptPage(v, max);
  }

  /** Blank text is `Number("")`, that is 0, so a blank token selects the first page when there is one. */
  lemma BlankText(text: string, max: nat)
    requires max >= 1
    requires forall i :: 0 <= i < |text| ==> IsWhitespace(text[i])
    ensures ParseRange(text, max) == [0]
  {
    ToNumberBlank(text);
    assert ',' !in text && '-' !in text by {
      assert !IsWhitespace(',') && !IsWhitespace('-');
    }
    SingleToken(text, max, Finite(0));
  }

  // ---------------------------------------------------------------------
  // Several tokens

  /**
   * Tokens are resolved independently and concatenated in text order, with
   * no sorting and no removal of repeated pages; an error in either half
   * empties the whole result.
   */
  lemma CommaConcat(a: string, b: string, max: nat)
    ensures ParseRange(a + "," + b, max) ==
      if Throws(a, max) || Throws(b, max) then [] else ParseRange(a, max) + ParseRange(b, max)
  {
    assert a + "," + b == a + [','] + b;
    SplitConcat(a, ',', b);
    FlatMapConcat(Split(a, ','), Split(b, ','), (p: string) => ExpandPart(p, max));
    if !Throws(a, max) && !Throws(b, max) {
      KeepIndicesConcat(ExpandParts(Split(a, ','), max).value, ExpandParts(Split(b, ','), max).value, max);
    }
  }

  /** A trailing comma adds an empty token, which selects the first page. */
  lemma TrailingComma(a: string, max: nat)
    requires max >= 1 && !Throws(a, max)
    ensures ParseRange(a + ",", max) == ParseRange(a, max) + [0]
  {
    CommaConcat(a, "", max);
    assert a + "," + "" == a + ",";
    BlankText("", max);
    OneToken("", max);
  }

  // ---------------------------------------------------------------------
  // The catch is reachable only for absurd page counts

  lemma ExpandRangeNeverThrows(start: JsNumber, end: JsNumber, max: nat)
    requires max <= MaxArrayLength
    ensures ExpandRange(start, end, max).Some?
  {
    var s, e := Max(Finite(1), start), Min(Finite(max), end);
    assert s.NaN? || s.PosInfinity? || (s.Finite? && s.n >= 1);
    assert e.NaN? || e.NegInfinity? || (e.Finite? && e.n <= max);
  }

  lemma ExpandPartNeverThrows(part: string, max: nat)
    requires max <= MaxArrayLength
    ensures ExpandPart(part, max).Some?
  {
    if '-' in part {
      RangePart(part, max);
      ExpandRangeNeverThrows(RangeEnds(part).0, RangeEnds(part).1, max);
    }
  }

  lemma {:induction false} NoPartThrows(parts: seq<string>, max: nat)
    requires max <= MaxArrayLength
    ensures FlatMap(parts, (p: string) => ExpandPart(p, max)).Some?
  {
    if parts != [] {
      ExpandPartNeverThrows(parts[0], max);
      NoPartThrows(parts[1..], max);
    }
  }

  /** For any real page count, the tokens' selections are simply concatenated. */
  lemma TokensConcat(a: string, b: string, max: nat)
    requires max <= MaxArrayLength
    ensures ParseRange(a + "," + b, max) == ParseRange(a, max) + ParseRange(b, max)
  {
    NeverThrows(a, max);
    NeverThrows(b, max);
    CommaConcat(a, b, max);
  }

  /** With fewer than 2^32 pages no range text makes `parseRange` throw. */
  lemma NeverThrows(range: string, max: nat)
    requires max <= MaxArrayLength
    ensures !Throws(range, max)
  {
    NoPartThrows(Split(range, ','), max);
    assert ExpandParts(Split(range, ','), max) == FlatMap(Split(range, ','), (p: string) => ExpandPart(p, max));
  }
}
