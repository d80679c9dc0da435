/** The one failure the rules engine can meet: `pop()` on an empty free-space list. */
module Wrappers {

  /** Either a value, or the `IndexError` that Python's `list.pop()` raises on an empty list. */
  datatype Result<T> = Ok(value: T) | IndexError

  datatype Option<T> = None | Some(value: T)

  /** `range(n)` runs `max(n, 0)` times; sizes given as plain integers are clamped the same way. */
  function Clamp(n: int): (r: nat)
    ensures n >= 0 ==> r == n
    ensures n < 0 ==> r == 0
  {
    if n < 0 then 0 else n
  }

  function Min(a: int, b: int): (r: int)
    ensures r <= a && r <= b && (r == a || r == b)
  {
    if a <= b then a else b
  }
}
