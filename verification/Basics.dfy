/** Small things every part uses. */
module Basics {

  datatype Option<+T> = None | Some(value: T)

  function Min(a: int, b: int): int { if a < b then a else b }

  /** A list without its entry `k`. */
  function Cut<T>(xs: seq<T>, k: nat): (r: seq<T>)
    requires k < |xs|
    ensures |r| == |xs| - 1 && forall j | 0 <= j < |r| :: r[j] == xs[if j < k then j else j + 1]
  {
    xs[..k] + xs[k + 1..]
  }
}
