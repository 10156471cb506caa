/** Integer facts shared by the other modules. */
module Arithmetic {

  function Min(x: int, y: int): int {
    if x < y then x else y
  }

  function Max(x: int, y: int): int {
    if x < y then y else x
  }

  lemma MulMonotone(a: int, b: int, c: nat)
    requires a <= b
    ensures a * c <= b * c
  {
    assert (b - a) * c >= 0;
  }

  lemma MulAssoc(x: int, y: int, z: int)
    ensures (x * y) * z == x * (y * z)
  {
  }

  lemma Distribute(x: int, y: int, z: int)
    ensures x * (y + z) == x * y + x * z
    ensures x * (y - z) == x * y - x * z
  {
  }

  /** A nonzero multiple of d is at least d away from zero. */
  lemma NonzeroMultiple(d: nat, k: int)
    ensures k > 0 ==> d * k >= d
    ensures k < 0 ==> d * k + d <= 0
  {
    if k > 0 {
      MulMonotone(1, k, d);
    } else if k < 0 {
      MulMonotone(k, -1, d);
    }
  }

  lemma DivMod(a: int, b: int)
    requires b > 0
    ensures a == (a / b) * b + a % b
  {
  }

  lemma ModUnique(x: int, q: int, r: int, d: int)
    requires 0 <= r < d
    requires x == d * q + r
    ensures x % d == r && x / d == q
  {
    var q', r' := x / d, x % d;
    assert x == d * q' + r';
    NonzeroMultiple(d, q - q');
    Distribute(d, q, q');
  }

  lemma ModShift(x: int, k: int, d: int)
    requires d > 0
    ensures (x + d * k) % d == x % d
  {
    var q, r := x / d, x % d;
    Distribute(d, q, k);
    ModUnique(x + d * k, q + k, r, d);
  }

  lemma ModPlusOne(x: int, d: int)
    requires d > 0
    ensures (x % d + 1) % d == (x + 1) % d
  {
    ModShift(x % d + 1, x / d, d);
  }

  lemma QuotientFits(a: nat, b: nat)
    requires b > 0
    ensures 0 <= (a / b) * b <= a && 0 <= a / b <= a
  {
    DivMod(a, b);
    NonzeroMultiple(b, a / b);
    MulMonotone(1, b, if a / b >= 0 then a / b else 0);
  }

  lemma QuotientBelow(r: nat, g: nat, t: nat)
    requires g > 0 && r < g * t
    ensures r / g < t && r == r % g + g * (r / g)
  {
    var a := r / g;
    NonzeroMultiple(g, a - t + 1);
    Distribute(g, a - t, 1);
    Distribute(g, a, t);
  }

  /** Greatest common divisor by Euclid's recursion. */
  function Gcd(a: nat, b: nat): (g: nat)
    requires b > 0
    ensures g > 0
    decreases b
  {
    if a % b == 0 then b else Gcd(b, a % b)
  }

  /** One step of Euclid: Bezout data for (b, r) yields those for (k*b + r, b). */
  lemma BezoutStep(g: int, k: int, b: int, r: int, p: int, q: int, x: int, y: int)
    requires b == g * p && r == g * q && x * b + y * r == g
    ensures k * b + r == g * (k * p + q)
    ensures y * (k * b + r) + (x - y * k) * b == g
  {
    calc {
      g * (k * p + q);
      g * (k * p) + g * q;
      { MulAssoc(g, k, p); MulAssoc(k, g, p); }
      k * (g * p) + g * q;
    }
    calc {
      y * (k * b + r) + (x - y * k) * b;
      { Distribute(y, k * b, r); Distribute(b, x, y * k); }
      y * (k * b) + y * r + x * b - (y * k) * b;
      { MulAssoc(y, k, b); }
      y * r + x * b;
    }
  }

  /** The cofactors of both arguments and the coefficients of Bezout's identity. */
  lemma {:induction false} Bezout(a: nat, b: nat) returns (qa: nat, qb: nat, x: int, y: int)
    requires b > 0
    ensures a == Gcd(a, b) * qa
    ensures b == Gcd(a, b) * qb
    ensures x * a + y * b == Gcd(a, b)
    decreases b
  {
    var k, r := a / b, a % b;
    DivMod(a, b);
    if r == 0 {
      qa, qb, x, y := k, 1, 0, 1;
    } else {
      var p, q, x', y' := Bezout(b, r);
      var g := Gcd(b, r);
      BezoutStep(g, k, b, r, p, q, x', y');
      MulMonotone(0, k, p);
      qa, qb, x, y := k * p + q, p, y', x' - y' * k;
    }
  }

  /** Gcd is a common divisor, and every common divisor divides it. */
  lemma GcdIsGreatest(a: nat, b: nat, d: nat)
    requires b > 0
    ensures a % Gcd(a, b) == 0 && b % Gcd(a, b) == 0
    ensures d > 0 && a % d == 0 && b % d == 0 ==> Gcd(a, b) % d == 0 && d <= Gcd(a, b)
  {
    var qa, qb, x, y := Bezout(a, b);
    var g := Gcd(a, b);
    ModUnique(a, qa, 0, g);
    ModUnique(b, qb, 0, g);
    if d > 0 && a % d == 0 && b % d == 0 {
      CommonFactor(a, b, d, x, y);
      var k := x * (a / d) + y * (b / d);
      NonzeroMultiple(d, k);
      ModUnique(g, k, 0, d);
    }
  }

  lemma CommonFactor(a: nat, b: nat, d: nat, x: int, y: int)
    requires d > 0 && a % d == 0 && b % d == 0
    ensures x * a + y * b == d * (x * (a / d) + y * (b / d))
  {
    var ka, kb := a / d, b / d;
    calc {
      d * (x * ka + y * kb);
      { Distribute(d, x * ka, y * kb); }
      d * (x * ka) + d * (y * kb);
      { MulAssoc(d, x, ka); MulAssoc(x, d, ka); MulAssoc(d, y, kb); MulAssoc(y, d, kb); }
      x * (d * ka) + y * (d * kb);
    }
  }
}
