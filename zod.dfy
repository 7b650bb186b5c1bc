/** The pieces of zod's object validation the input schemas use: required,
    optional and nullable fields, arrays of validated items, and the ISO
    date-time string check of `z.string().datetime()`. */
module Zod {
  import opened Wrappers

  /** `z.T()`: the key must be present with a value. */
  predicate IsRequired<T>(m: Maybe<T>) {
    m.Defined?
  }

  /** `z.T().optional()`: the key may be missing, but `null` is refused. */
  predicate IsOptional<T>(m: Maybe<T>) {
    !m.Null?
  }

  /** The value of an optional, non-nullable field once validated. */
  function Optional<T>(m: Maybe<T>): (r: Option<T>)
    requires IsOptional(m)
    ensures r.None? <==> m.Undefined?
    ensures r.Some? ==> r.value == m.value
  {
    m.ToOption()
  }

  /** `z.array(item)`: every element must pass `item`; the parsed elements
      keep their positions. */
  function ParseAll<A, B>(xs: seq<A>, item: A -> Option<B>): (r: Option<seq<B>>)
    ensures r.Some? <==> forall i :: 0 <= i < |xs| ==> item(xs[i]).Some?
    ensures r.Some? ==> |r.value| == |xs| && forall i :: 0 <= i < |xs| ==> item(xs[i]) == Some(r.value[i])
  {
    if xs == [] then Some([])
    else
      match (item(xs[0]), ParseAll(xs[1..], item))
      case (Some(y), Some(ys)) =>
        assert forall i :: 1 <= i < |xs| ==> xs[i] == xs[1..][i - 1];
        Some([y] + ys)
      case (None, _) => None
      case (_, None) =>
        assert forall i :: 1 <= i < |xs| ==> xs[i] == xs[1..][i - 1];
        None
  }

  predicate IsDecimalDigit(c: char) {
    '0' <= c <= '9'
  }

  predicate AllDecimalDigits(s: string) {
    forall i :: 0 <= i < |s| ==> IsDecimalDigit(s[i])
  }

  /** The optional fractional part of a date-time: empty, or '.' and digits. */
  predicate IsFraction(f: string) {
    f == [] || (|f| >= 2 && f[0] == '.' && AllDecimalDigits(f[1..]))
  }

  /** `z.string().datetime()` with its default options: the shape
      `YYYY-MM-DDTHH:MM:SS[.fraction]Z`, in UTC with no offset. */
  predicate IsIsoDateTime(s: string) {
    && |s| >= 20
    && AllDecimalDigits(s[0..4]) && s[4] == '-'
    && AllDecimalDigits(s[5..7]) && s[7] == '-'
    && AllDecimalDigits(s[8..10]) && s[10] == 'T'
    && AllDecimalDigits(s[11..13]) && s[13] == ':'
    && AllDecimalDigits(s[14..16]) && s[16] == ':'
    && AllDecimalDigits(s[17..19])
    && IsFraction(s[19..|s| - 1]) && s[|s| - 1] == 'Z'
  }

  /** A list of date-time strings. */
  predicate AllIsoDateTimes(ds: seq<string>) {
    forall i :: 0 <= i < |ds| ==> IsIsoDateTime(ds[i])
  }
}
