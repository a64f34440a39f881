/** Python's `round` in exact arithmetic: to nearest, halves to even. */
module Rounding {

  function RoundHalfEven(x: real): (r: int)
    ensures -0.5 <= r as real - x <= 0.5
    ensures x == x.Floor as real ==> r == x.Floor
    ensures x - x.Floor as real == 0.5 ==> r % 2 == 0
  {
    var floor := x.Floor;
    var part := x - floor as real;
    if part < 0.5 || (part == 0.5 && floor % 2 == 0) then floor else floor + 1
  }

  /** `round(x, digits)` for `scale == 10**digits`. */
  function RoundTo(x: real, scale: int): real
    requires scale > 0
  {
    RoundHalfEven(x * scale as real) as real / scale as real
  }

  /** Rounding never moves a value across an integer. */
  lemma RoundKeepsOrder(x: real, y: real)
    requires x <= y
    ensures RoundHalfEven(x) <= RoundHalfEven(y)
  {
    assert x.Floor <= y.Floor;
    if x.Floor == y.Floor {
      assert x - x.Floor as real <= y - y.Floor as real;
    }
  }
}
