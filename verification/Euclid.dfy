/** The greatest common divisor loop of the argument permuter, and the facts about
    divisors that the cycle-following rotation needs. */
module Euclid {

  /** Euclid's algorithm as a recursion; the reference for the loop in `Gcd`. */
  ghost function GcdOf(a: nat, b: nat): (g: nat)
    requires 0 < b
    ensures 0 < g <= b
    decreases b
  {
    if a % b == 0 then b else GcdOf(b, a % b)
  }

  method Gcd(a0: nat, b0: nat) returns (g: nat)
    requires 0 < b0
    ensures g == GcdOf(a0, b0)
  {
    var a, b := a0, b0;
    var c := a % b;
    while c != 0
      invariant 0 < b && c == a % b
      invariant GcdOf(a, b) == GcdOf(a0, b0)
      decreases c
    {
      a := b;
      b := c;
      c := a % b;
    }
    g := b;
  }

  lemma Recombine(a: int, b: int, q: int, r: int, g: int, x: int, y: int)
    requires a == b * q + r && b == g * x && r == g * y
    ensures a == g * (q * x + y)
  {
    assert (g * x) * q == g * (q * x);
  }

  lemma NotNegative(q: int, x: int)
    requires 0 <= q && 0 <= x
    ensures 0 <= q * x
  {
  }

  lemma {:induction false} GcdDivides(a: nat, b: nat) returns (x: nat, y: nat)
    requires 0 < b
    ensures a == GcdOf(a, b) * x
    ensures b == GcdOf(a, b) * y
    decreases b
  {
    var q, r := a / b, a % b;
    assert a == b * q + r && 0 <= q;
    if r == 0 {
      x, y := q, 1;
    } else {
      var x', y' := GcdDivides(b, r);
      Recombine(a, b, q, r, GcdOf(b, r), x', y');
      NotNegative(q, x');
      x, y := q * x' + y', x';
    }
  }

  /** The gcd is an integer combination of its arguments. */
  lemma {:induction false} Bezout(a: nat, b: nat) returns (u: int, v: int)
    requires 0 < b
    ensures u * a + v * b == GcdOf(a, b)
    decreases b
  {
    if a % b == 0 {
      u, v := 0, 1;
    } else {
      var u', v' := Bezout(b, a % b);
      u, v := v', u' - v' * (a / b);
      var q := a / b;
      assert a % b == a - q * b;
      assert v' * (a - q * b) == v' * a - v' * (q * b);
      assert (u' - v' * q) * b == u' * b - (v' * q) * b;
      assert v' * (q * b) == (v' * q) * b;
    }
  }

  lemma PositiveFactor(d: int, z: int)
    requires 0 < d && 0 < d * z
    ensures 0 < z
  {}

  lemma AtLeastOnce(l: int, q: int)
    requires 0 <= l && 1 <= q
    ensures l <= l * q
  {}

  /** Nothing larger divides both arguments: any common divisor divides the gcd. */
  lemma GcdIsGreatest(a: nat, b: nat, d: nat, x: nat, y: nat)
    requires 0 < b && 0 < d
    requires a == d * x && b == d * y
    ensures exists z: nat :: GcdOf(a, b) == d * z
    ensures d <= GcdOf(a, b)
  {
    var u, v := Bezout(a, b);
    var z := u * x + v * y;
    assert u * (d * x) + v * (d * y) == d * z;
    assert GcdOf(a, b) == d * z;
    assert 0 < z by { PositiveFactor(d, z); }
    AtLeastOnce(d, z);
  }

  /** A multiple of l strictly between -l and l is zero. */
  lemma SmallMultiple(l: int, q: int, r: int)
    requires r == l * q
    requires -l < r < l
    ensures r == 0
  {
    if q >= 1 {
      AtLeastOnce(l, q);
    } else if q <= -1 {
      AtLeastOnce(l, -q);
    }
  }
}
