/** The few primitives of Rust that the layout code relies on: `Option`,
    `min`, and the 32-bit integer behaviour of `u32` subtraction and of the
    `as i32` cast. Integers in the rest of the model are unbounded; these
    functions spell out the width where it matters. */
module Prelude {

  datatype Option<T> = None | Some(value: T)

  /** `Ord::min`. */
  function Min(a: int, b: int): (r: int)
    ensures r <= a && r <= b
    ensures r == a || r == b
  {
    if a <= b then a else b
  }

  const U32Limit: nat := 0x1_0000_0000
  const I32Limit: nat := 0x8000_0000

  predicate IsU32(n: int) {
    0 <= n < U32Limit
  }

  /** `a - b` on `u32` as a release build computes it: modulo 2^32. */
  function WrappingSub(a: int, b: int): (r: nat)
    ensures IsU32(r)
    ensures 0 <= a - b < U32Limit ==> r == a - b
    ensures -(U32Limit as int) <= a - b < 0 ==> r == U32Limit + a - b
  {
    (a - b) % U32Limit
  }

  /** The `as i32` cast of a `u32`: the same 32 bits read in two's complement. */
  function AsI32(u: int): (r: int)
    ensures -(I32Limit as int) <= r < I32Limit
    ensures (r - u) % U32Limit == 0
    ensures 0 <= u < I32Limit ==> r == u
  {
    var m := u % U32Limit;
    if m < I32Limit then m else m - U32Limit
  }

  /** A wrapped `u32` difference read back as `i32` is the true signed
      difference whenever that difference fits in an `i32`: this is what a
      release build draws when the subtraction underflows. */
  lemma WrapThenCastIsDifference(a: int, b: int)
    requires -(I32Limit as int) <= a - b < I32Limit
    ensures AsI32(WrappingSub(a, b)) == a - b
  {
  }

  // Two steps of multiplication that the solver does not always find alone.

  lemma MulMonotone(a: nat, b: nat, c: nat)
    requires a <= b
    ensures a * c <= b * c
  {
  }

  lemma MulPredecessor(n: nat, a: nat)
    requires n >= 1
    ensures (n - 1) * a + a == n * a
  {
  }
}
