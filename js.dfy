/** The few ECMAScript semantics the feed's sort comparator runs through:
    the `Date` constructor applied to one argument, subtraction of two dates,
    and the coercion `Array.prototype.sort` applies to a comparator's result
    (CompareArrayElements, section 23.1.3.30.2 of ECMA-262). Numbers are the
    integers time values are made of, plus NaN. */
module Js {
  import opened Content

  datatype Number = NaN | Finite(value: int)

  /** TimeClip: a time value outside the representable range becomes NaN. */
  function TimeClip(n: Number): (r: Number)
    ensures r.Finite? ==> -MaxTimeValue <= r.value <= MaxTimeValue
    ensures r.NaN? <==> n.NaN? || !(-MaxTimeValue <= n.value <= MaxTimeValue)
    ensures r.Finite? ==> r == n
  {
    match n
    case NaN => NaN
    case Finite(t) => if -MaxTimeValue <= t <= MaxTimeValue then Finite(t) else NaN
  }

  /** `Array.prototype.toString` on an array of strings: the elements joined by ",". */
  function JoinWithCommas(items: seq<string>): string {
    if |items| == 0 then ""
    else if |items| == 1 then items[0]
    else items[0] + "," + JoinWithCommas(items[1..])
  }

  /** The time value of `new Date(v)`. A date copies its time value; a string
      (or an array, through its string form) goes to the host's date parser
      `parse`; anything else is converted by ToNumber, so `undefined` is NaN. */
  function NewDate(v: JsValue, parse: string -> Number): (n: Number)
    ensures n.Finite? ==> -MaxTimeValue <= n.value <= MaxTimeValue
    ensures v.DateObj? ==> n == Finite(v.time)
    ensures v.Undefined? ==> n.NaN?
  {
    match v
    case Undefined => NaN
    case Str(s) => TimeClip(parse(s))
    case Bool(b) => Finite(if b then 1 else 0)
    case StrArray(items) => TimeClip(parse(JoinWithCommas(items)))
    case DateObj(t) => Finite(t)
  }

  /** `x - y` on two dates: the difference of their time values, NaN when
      either is NaN. */
  function Sub(x: Number, y: Number): (r: Number)
    ensures r.NaN? <==> x.NaN? || y.NaN?
  {
    if x.Finite? && y.Finite? then Finite(x.value - y.value) else NaN
  }

  /** The number `sort` compares against zero once the comparator returned
      `v`: NaN counts as +0. */
  function CompareArrayElements(v: Number): int {
    match v
    case NaN => 0
    case Finite(x) => x
  }
}
