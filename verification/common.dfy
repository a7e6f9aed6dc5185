/** Small shared vocabulary: an optional value (JavaScript's `null` / `undefined`)
    and the `Math.min` used by the progress computation. */
module Common {

  /** A value that may be missing (`null` or `undefined` in the source). */
  datatype Option<+T> = None | Some(value: T)

  /** JavaScript's `o ?? fallback`. */
  function OrElse<T>(o: Option<T>, fallback: T): T {
    if o.Some? then o.value else fallback
  }

  /** `Math.min` on two reals. */
  function MinReal(a: real, b: real): (r: real)
    ensures r <= a && r <= b
    ensures r == a || r == b
  {
    if a <= b then a else b
  }
}
