/** Small shared helpers: an optional value and the JavaScript notion of a
    "falsy" request field (absent, the empty string, or the number zero). */
module Common {

  datatype Option<+T> = None | Some(value: T)

  /** A JSON number field fails `!x` when it is absent or zero. */
  predicate FalsyNumber(x: Option<real>) {
    x.None? || x.value == 0.0
  }

  /** A JSON integer field fails `!x` when it is absent or zero. */
  predicate FalsyInt(x: Option<int>) {
    x.None? || x.value == 0
  }

  /** A JSON string field fails `!x` when it is absent or empty. */
  predicate FalsyString(x: Option<string>) {
    x.None? || x.value == ""
  }

  function Min(a: int, b: int): int {
    if a <= b then a else b
  }

  /** Every element is strictly smaller than the next, so no element repeats. */
  predicate Increasing(s: seq<nat>) {
    forall j, k :: 0 <= j < k < |s| ==> s[j] < s[k]
  }
}
