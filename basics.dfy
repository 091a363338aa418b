/** Small shared vocabulary: an optional value and the "at least one" clamp. */
module Basics {

  /** Python's `None` / a present value. */
  datatype Option<T> = None | Some(value: T)

  /** `max(1, n)`: a table always shows at least one column. */
  function Max1(n: int): (r: nat)
    ensures r >= 1 && r >= n
    ensures n >= 1 ==> r == n
    ensures n < 1 ==> r == 1
  {
    if n < 1 then 1 else n
  }
}
