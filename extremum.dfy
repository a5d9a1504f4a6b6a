/** Running minimum and maximum over the first `length` cells of an array
    (`MIN`, `MAX` in lqmm.c). Both read `x[0]` unconditionally, so the array
    must hold at least one cell; for `length <= 1` the answer is `x[0]`. */
module Extremum {

  method Min(x: array<real>, length: int) returns (minv: real)
    requires 1 <= x.Length && length <= x.Length
    ensures forall i :: 0 <= i < length ==> minv <= x[i]
    ensures minv == x[0] || exists i :: 1 <= i < length && minv == x[i]
  {
    minv := x[0];
    var i := 1;
    while i < length
      invariant 1 <= i <= if length < 1 then 1 else length
      invariant forall r :: 0 <= r < i ==> minv <= x[r]
      invariant minv == x[0] || exists r :: 1 <= r < i && minv == x[r]
    {
      if minv > x[i] {
        minv := x[i];
      }
      i := i + 1;
    }
  }

  method Max(x: array<real>, length: int) returns (maxv: real)
    requires 1 <= x.Length && length <= x.Length
    ensures forall i :: 0 <= i < length ==> x[i] <= maxv
    ensures maxv == x[0] || exists i :: 1 <= i < length && maxv == x[i]
  {
    maxv := x[0];
    var i := 1;
    while i < length
      invariant 1 <= i <= if length < 1 then 1 else length
      invariant forall r :: 0 <= r < i ==> x[r] <= maxv
      invariant maxv == x[0] || exists r :: 1 <= r < i && maxv == x[r]
    {
      if maxv < x[i] {
        maxv := x[i];
      }
      i := i + 1;
    }
  }
}
