/**
 * The page-range resolver of the PDF merger (`parseRange`): a text such as
 * "1-3,5" and the page count of a document become the 0-based indices of
 * the pages to copy, in the order the text names them.
 */
module PageRange {
  import opened Wrappers
  import opened JsBuiltins

  /**
   * `Array.from({ length: end - start + 1 }, (_, i) => start - 1 + i)`.
   * None stands for the RangeError that `Array.from` throws when the
   * length exceeds the largest array length.
   */
  function Run(start: JsNumber, end: JsNumber): Option<seq<JsNumber>>
  {
    var len := ToLength(Add(Sub(end, start), Finite(1)));
    if len > MaxArrayLength then None
    else Some(seq(len, k => Add(Sub(start, Finite(1)), Finite(k))))
  }

  /** `pieces.map(Number)`. */
  function Numbers(pieces: seq<string>): (r: seq<JsNumber>)
    ensures |r| == |pieces|
    ensures forall k :: 0 <= k < |pieces| ==> r[k] == ToNumber(pieces[k])
  {
    if pieces == [] then [] else [ToNumber(pieces[0])] + Numbers(pieces[1..])
  }

  /**
   * `let [start, end] = part.split('-').map(Number)`: the numbers written
   * before the first '-' and between the first and second '-' (a missing
   * second piece would be `undefined`, which is NaN).
   */
  function RangeEnds(part: string): (JsNumber, JsNumber)
  {
    var numbers := Numbers(Split(part, '-'));
    (numbers[0], if |numbers| >= 2 then numbers[1] else NaN)
  }

  /** A range token: the start raised to at least 1, the end lowered to at most max, then the run. */
  function ExpandRange(start: JsNumber, end: JsNumber, max: nat): Option<seq<JsNumber>>
  {
    Run(Max(Finite(1), start), Min(Finite(max), end))
  }

  /** A page-number token: `Math.max(1, Math.min(max, page)) - 1`. */
  function ExpandPage(page: JsNumber, max: nat): Option<seq<JsNumber>>
  {
    Some([Sub(Max(Finite(1), Min(Finite(max), page)), Finite(1))])
  }

  /**
   * The values one comma-separated token contributes before the final
   * filter (the callback of `flatMap`): a token containing '-' is a range,
   * any other token is one page number.
   */
  function ExpandPart(part: string, max: nat): Option<seq<JsNumber>>
  {
    if '-' in part then
      var (start, end) := RangeEnds(part);
      ExpandRange(start, end, max)
    else
      ExpandPage(ToNumber(part), max)
  }

  /**
   * `flatMap` with a callback that may throw (None): the concatenation of
   * the callback's results, or None as soon as one call throws.
   */
  function FlatMap<T, U>(xs: seq<T>, f: T -> Option<seq<U>>): Option<seq<U>>
  {
    if xs == [] then Some([])
    else
      match f(xs[0])
      case None => None
      case Some(ys) =>
        match FlatMap(xs[1..], f)
        case None => None
        case Some(zs) => Some(ys + zs)
  }

  /** The tokens of a range text expanded by `flatMap`; None when some token throws. */
  function ExpandParts(parts: seq<string>, max: nat): Option<seq<JsNumber>>
  {
    FlatMap(parts, part => ExpandPart(part, max))
  }

  /** `.filter(i => !isNaN(i) && i >= 0 && i < max)`. */
  function KeepIndices(xs: seq<JsNumber>, max: nat): seq<nat>
  {
    if xs == [] then []
    else (if xs[0].Finite? && 0 <= xs[0].n < max then [xs[0].n as nat] else []) + KeepIndices(xs[1..], max)
  }

  /** True when evaluating the range text throws (and `parseRange` catches it). */
  predicate Throws(range: string, max: nat)
  {
    ExpandParts(Split(range, ','), max).None?
  }

  /** `parseRange(range, max)`: a thrown error yields []. */
  function ParseRange(range: string, max: nat): seq<nat>
  {
    match ExpandParts(Split(range, ','), max)
    case None => []
    case Some(xs) => KeepIndices(xs, max)
  }

  /** The default range text given to a document of `count` pages (`1-${count}`). */
  function DefaultRange(count: nat): string
  {
    "1-" + NatToString(count)
  }

  /** The contiguous run of indices lo, lo + 1, ..., lo + len - 1. */
  function Indices(lo: int, len: nat): seq<int>
  {
    seq(len, k => lo + k)
  }
}
