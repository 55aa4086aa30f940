/** Circular indexing over the angularly sorted incident roads. */
module Wraparound {

  /** Rust's `%` on signed integers: the remainder truncates toward zero, so
      it takes the sign of the dividend (Dafny's own `%` never goes negative).
      Stated as repeated subtraction of the divisor toward zero. */
  function TruncRem(a: int, n: int): (r: int)
    requires n > 0
    ensures -n < r < n
    ensures a >= 0 ==> r >= 0
    ensures a <= 0 ==> r <= 0
    ensures -n < a < n ==> r == a
    ensures a == -n ==> r == 0
    ensures n <= a < 2 * n ==> r == a - n
    decreases if a < 0 then -a else a
  {
    if a >= n then TruncRem(a - n, n)
    else if a <= -n then TruncRem(a + n, n)
    else a
  }

  /** `((idx % n) + n) % n` with Rust's remainder: the position in `[0, n)`
      that `idx` lands on once wrapped, for indices up to one turn away. */
  function WrapIndex(idx: int, n: int): (k: int)
    requires n > 0
    ensures 0 <= k < n
    ensures -n <= idx < 0 ==> k == idx + n
    ensures 0 <= idx < n ==> k == idx
    ensures n <= idx < 2 * n ==> k == idx - n
  {
    TruncRem(TruncRem(idx, n) + n, n)
  }

  /** The element of `s` at `idx`, wrapping around in both directions. */
  function WraparoundGet<T>(s: seq<T>, idx: int): T
    requires |s| > 0
  {
    s[WrapIndex(idx, |s|)]
  }

  /** In range the lookup is plain indexing; one turn before the start or
      past the end it wraps to the element a whole turn away. */
  lemma WraparoundGetAt<T>(s: seq<T>, idx: int)
    requires |s| > 0
    ensures 0 <= idx < |s| ==> WraparoundGet(s, idx) == s[idx]
    ensures -|s| <= idx < 0 ==> WraparoundGet(s, idx) == s[idx + |s|]
    ensures |s| <= idx < 2 * |s| ==> WraparoundGet(s, idx) == s[idx - |s|]
  {
  }
}
