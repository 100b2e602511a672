/** Shared by the simulators: an optional value, for the null pointer a
    queue returns when it is empty, and C++ integer operations that differ
    from Dafny's. */
module Common {

  datatype Option<T> = None | Some(value: T)

  /** The value of a % b in C++: truncating division, so the remainder takes the
      sign of the dividend. The contract pins the value only for a
      non-negative dividend and a positive divisor, the only case the
      simulators use; otherwise it states the sign and the bound. */
  function CRem(a: int, b: int): (r: int)
    requires b != 0
    ensures a >= 0 ==> 0 <= r < (if b > 0 then b else -b)
    ensures a <= 0 ==> -(if b > 0 then b else -b) < r <= 0
    ensures a >= 0 && b > 0 ==> r == a % b
  {
    var m := if b > 0 then b else -b;
    if a >= 0 then a % m else -((-a) % m)
  }

  /** The distance between two integers, as C++'s abs of their difference. */
  function Dist(a: int, b: int): (r: nat)
    ensures r == a - b || r == b - a
  {
    if a >= b then a - b else b - a
  }
}
