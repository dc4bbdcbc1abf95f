/** Small shared datatypes and arithmetic. */
module Wrappers {
  datatype Option<+T> = None | Some(value: T)

  /** A JavaScript number, as far as a caller can tell it apart here. */
  datatype Number = NotFinite | Finite(value: real)

  function Min(a: int, b: int): (m: int)
    ensures m <= a && m <= b && (m == a || m == b)
  {
    if a < b then a else b
  }

  function Max(a: int, b: int): (m: int)
    ensures m >= a && m >= b && (m == a || m == b)
  {
    if a < b then b else a
  }

  /** Distance from zero. */
  function Abs(a: int): (r: nat)
    ensures r * r == a * a
  {
    if a < 0 then -a else a
  }

  /** Math.round: the nearest integer, and of two the larger. */
  function Round(value: real): (r: int)
    ensures r as real - 0.5 <= value < r as real + 0.5
  {
    (value + 0.5).Floor
  }

  /** The largest element: Math.max(...values). */
  function MaxOf(values: seq<int>): (m: int)
    requires values != []
    ensures m in values && forall v :: v in values ==> v <= m
  {
    if |values| == 1 then values[0]
    else
      assert values == [values[0]] + values[1..];
      Max(values[0], MaxOf(values[1..]))
  }

  /** The smallest element: Math.min(...values). */
  function MinOf(values: seq<int>): (m: int)
    requires values != []
    ensures m in values && forall v :: v in values ==> m <= v
  {
    if |values| == 1 then values[0]
    else
      assert values == [values[0]] + values[1..];
      Min(values[0], MinOf(values[1..]))
  }
}
