/** Floor division, congruence and greatest common divisors, as far as the media clock needs them. */
module Arithmetic {

  lemma {:induction false} DivBounds(a: int, b: int)
    requires 0 < b
    ensures b * (a / b) <= a < b * (a / b) + b
  {
  }

  lemma {:induction false} MulMonotone(k: int, a: int, b: int)
    requires 0 <= k && a <= b
    ensures k * a <= k * b
  {
  }

  lemma {:induction false} DivUnique(a: int, b: int, q: int)
    requires 0 < b && b * q <= a < b * q + b
    ensures a / b == q
  {
    DivBounds(a, b);
    var d := a / b;
    if d < q {
      MulMonotone(b, d + 1, q);
    } else if q < d {
      MulMonotone(b, q + 1, d);
    }
  }

  lemma {:induction false} DivMonotone(a: int, b: int, k: int)
    requires 0 < k && a <= b
    ensures a / k <= b / k
  {
    DivBounds(a, k);
    DivBounds(b, k);
    if b / k < a / k {
      MulMonotone(k, b / k + 1, a / k);
    }
  }

  lemma {:induction false} DivNonNegative(a: nat, b: int)
    requires 0 < b
    ensures 0 <= a / b
  {
    DivBelow(a, b, 0);
  }

  /** `a / k < q` exactly when `a < k * q`. */
  lemma {:induction false} DivBelow(a: int, k: int, q: int)
    requires 0 < k
    ensures a / k < q <==> a < k * q
  {
    DivBounds(a, k);
    if a / k < q {
      MulMonotone(k, a / k + 1, q);
    } else {
      MulMonotone(k, q, a / k);
    }
  }

  lemma {:induction false} MultipleHasNoRemainder(k: int, z: int)
    requires 0 < k
    ensures (k * z) % k == 0
  {
    DivUnique(k * z, k, z);
  }

  lemma {:induction false} RemainderBelow(a: nat, m: nat)
    requires 0 < m && a % m != 0
    ensures 1 <= a && (a - 1) % m == a % m - 1
  {
    var q, r := a / m, a % m;
    assert a == m * q + r;
    DivUnique(a - 1, m, q);
  }

  function Gcd(a: nat, b: nat): (g: nat)
    ensures 0 < a || 0 < b ==> 0 < g
    decreases b
  {
    if b == 0 then a else Gcd(b, a % b)
  }

  lemma {:induction false} BezoutStep(a: int, b: int, q: int, r: int, g: int, m: int, k: int, x: int, y: int)
    requires a == b * q + r && b == g * m && r == g * k && x * b + y * r == g
    ensures a == g * (m * q + k)
    ensures y * a + (x - y * q) * b == g
  {
  }

  lemma {:induction false} Distribute(a: int, b: int, c: int)
    ensures a * (b + c) == a * b + a * c
  {
  }

  /** The gcd divides both numbers, and is an integer combination of them. */
  lemma {:induction false} Bezout(a: nat, b: nat) returns (m: nat, k: nat, x: int, y: int)
    requires 0 < a
    ensures a == Gcd(a, b) * m && b == Gcd(a, b) * k
    ensures x * a + y * b == Gcd(a, b)
    decreases b
  {
    if b == 0 {
      m, k, x, y := 1, 0, 1, 0;
    } else {
      var q, r := a / b, a % b;
      var m', k', x', y' := Bezout(b, r);
      BezoutStep(a, b, q, r, Gcd(b, r), m', k', x', y');
      m, k, x, y := m' * q + k', m', y', x' - y' * q;
    }
  }

  lemma {:induction false} SharedFactor(t: int, a: int, b: int, g: int, m: int, k: int, w: int)
    requires a == g * m && b == g * k && t == m * w
    ensures t * b == a * (w * k)
  {
  }

  lemma {:induction false} OwnFactor(t: int, a: int, b: int, g: int, m: int, k: int, x: int, y: int, z: int)
    requires 0 < g && a == g * m && b == g * k && x * a + y * b == g && t * b == a * z
    ensures t == m * (t * x + y * z)
  {
  }

  lemma {:induction false} SharedDivides(t: nat, a: nat, b: nat, g: nat, m: nat, k: nat)
    requires 0 < m && 0 < a && a == g * m && b == g * k && t % m == 0
    ensures (t * b) % a == 0
  {
    var w := t / m;
    SharedFactor(t, a, b, g, m, k, w);
    MultipleHasNoRemainder(a, w * k);
  }

  lemma {:induction false} OwnDivides(t: nat, a: nat, b: nat, g: nat, m: nat, k: nat, x: int, y: int)
    requires 0 < g && 0 < m && 0 < a && a == g * m && b == g * k && x * a + y * b == g && (t * b) % a == 0
    ensures t % m == 0
  {
    var z := (t * b) / a;
    OwnFactor(t, a, b, g, m, k, x, y, z);
    MultipleHasNoRemainder(m, t * x + y * z);
  }

  /** `a` divides `t * b` exactly when its part not shared with `b` divides `t`. */
  lemma {:induction false} DividesProduct(t: nat, a: nat, b: nat)
    requires 0 < a
    ensures 0 < a / Gcd(a, b)
    ensures (t * b) % a == 0 <==> t % (a / Gcd(a, b)) == 0
  {
    var m, k, x, y := Bezout(a, b);
    var g := Gcd(a, b);
    DivUnique(a, g, m);
    if t % m == 0 {
      SharedDivides(t, a, b, g, m, k);
    }
    if (t * b) % a == 0 {
      OwnDivides(t, a, b, g, m, k, x, y);
    }
  }
}
