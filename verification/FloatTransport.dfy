/** How a double travels: as a 53-bit integer mantissa and an exponent (common/SoapyRPCPacker.cpp). */
module FloatTransport {
  import opened Bytes

  const MANT_DIG: int := 53

  // ---------- products, under a name so that a proof can choose where it calculates with them ----------

  function Product(a: real, b: real): real {
    a * b
  }

  lemma Commutes(a: real, b: real)
    ensures Product(a, b) == Product(b, a)
  {
  }

  lemma Associates(a: real, b: real, c: real)
    ensures Product(Product(a, b), c) == Product(a, Product(b, c))
  {
  }

  lemma Doubles(a: real, b: real)
    ensures Product(a, 2.0 * b) == 2.0 * Product(a, b)
    ensures Product(2.0 * a, b) == 2.0 * Product(a, b)
  {
  }

  lemma Negates(a: real, b: real)
    ensures Product(-a, b) == -Product(a, b)
  {
  }

  lemma WholeProduct(j: int, k: int)
    ensures Product(j as real, k as real) == (j * k) as real
  {
  }

  lemma Orders(a: real, b: real, c: real)
    requires c > 0.0
    ensures a < b <==> Product(a, c) < Product(b, c)
    ensures Product(0.0, c) == 0.0 && Product(1.0, c) == c && Product(0.5, c) == c / 2.0
  {
  }

  // ---------- powers of two ----------

  function Pow2(n: int): (p: real)
    ensures p > 0.0
    decreases if n < 0 then -n else n
  {
    if n == 0 then 1.0 else if n > 0 then 2.0 * Pow2(n - 1) else Pow2(n + 1) / 2.0
  }

  lemma Pow2Next(n: int)
    ensures Pow2(n + 1) == 2.0 * Pow2(n)
  {
  }

  lemma {:induction false} Pow2Add(a: int, b: int)
    ensures Pow2(a + b) == Product(Pow2(a), Pow2(b))
    decreases if b < 0 then -b else b
  {
    if b == 0 {
    } else {
      hide Product, Pow2;
      if b > 0 {
        Pow2Add(a, b - 1);
        Pow2Next(a + b - 1);
        Pow2Next(b - 1);
        Doubles(Pow2(a), Pow2(b - 1));
      } else {
        Pow2Add(a, b + 1);
        Pow2Next(a + b);
        Pow2Next(b);
        Doubles(Pow2(a), Pow2(b));
      }
    }
  }

  lemma {:induction false} Pow2Monotone(a: int, b: int)
    requires a <= b
    ensures Pow2(a) <= Pow2(b)
    decreases b - a
  {
    if a < b {
      Pow2Monotone(a, b - 1);
      Pow2Next(b - 1);
    }
  }

  lemma {:induction false} Pow2Whole(n: nat) returns (k: int)
    ensures k > 0 && Pow2(n) == k as real
  {
    if n == 0 {
      k := 1;
    } else {
      k := Pow2Whole(n - 1);
      k := 2 * k;
    }
  }

  lemma Pow2Of53()
    ensures Pow2(MANT_DIG) == 0x20_0000_0000_0000 as real
  {
    Pow2Of10();
    Pow2Add(10, 10);
    Pow2Add(20, 20);
    Pow2Add(40, 10);
    WholeProduct(1024, 1024);
    WholeProduct(0x10_0000, 0x10_0000);
    WholeProduct(0x100_0000_0000, 1024);
    hide Pow2, Product;
    Pow2Next(50);
    Pow2Next(51);
    Pow2Next(52);
  }

  lemma Pow2Of10()
    ensures Pow2(10) == 1024.0
  {
    assert Pow2(5) == 32.0;
  }

  // ---------- frexp ----------

  datatype Split = Split(fraction: real, exp: int)

  /** How many halvings or doublings are left, at most. */
  ghost function Steps(x: real): nat
    requires x > 0.0
  {
    if x >= 1.0 then x.Floor else if x < 0.5 then (1.0 / x).Floor else 0
  }

  lemma HalvingStops(x: real)
    requires x >= 1.0
    ensures Steps(x / 2.0) < Steps(x)
  {
  }

  lemma DoublingStops(x: real)
    requires 0.0 < x < 0.5
    ensures Steps(2.0 * x) < Steps(x)
  {
    var y := 1.0 / x;
    assert y * x == 1.0;
    assert y > 2.0;
    assert 1.0 / (2.0 * x) == y / 2.0;
  }

  /** std::frexp of a positive number. */
  function FrexpPositive(x: real): (s: Split)
    requires x > 0.0
    ensures x == Product(s.fraction, Pow2(s.exp))
    ensures 0.5 <= s.fraction < 1.0
    decreases Steps(x)
  {
    hide Product, Pow2, Steps;
    if x >= 1.0 then
      HalvingStops(x);
      var s := FrexpPositive(x / 2.0);
      Pow2Next(s.exp);
      Doubles(s.fraction, Pow2(s.exp));
      Split(s.fraction, s.exp + 1)
    else if x < 0.5 then
      DoublingStops(x);
      var s := FrexpPositive(2.0 * x);
      Pow2Next(s.exp - 1);
      Doubles(s.fraction, Pow2(s.exp - 1));
      Split(s.fraction, s.exp - 1)
    else
      TimesOne(x);
      Split(x, 0)
  }

  lemma TimesOne(x: real)
    ensures Product(x, Pow2(0)) == x
  {
  }

  /** std::frexp: the fraction is 0, or its size is at least a half and less than one. */
  function Frexp(x: real): (s: Split)
    ensures x == Product(s.fraction, Pow2(s.exp))
    ensures x == 0.0 ==> s == Split(0.0, 0)
    ensures x != 0.0 ==> 0.5 <= (if x < 0.0 then -s.fraction else s.fraction) < 1.0
  {
    hide Product, Pow2;
    TimesOne(0.0);
    if x == 0.0 then Split(0.0, 0)
    else if x > 0.0 then FrexpPositive(x)
    else
      var s := FrexpPositive(-x);
      Negates(s.fraction, Pow2(s.exp));
      Split(-s.fraction, s.exp)
  }

  /** The cast to an integer, towards zero. */
  function Truncated(x: real): int {
    if x >= 0.0 then x.Floor else -((-x).Floor)
  }

  /** The mantissa that is sent: ldexp of the fraction, as an integer. */
  function Mantissa(x: real): int {
    Truncated(Product(Frexp(x).fraction, Pow2(MANT_DIG)))
  }

  function Exponent(x: real): int {
    Frexp(x).exp
  }

  /** What the receiver makes of the two integers. */
  function Ldexp(man: int, exp: int): real {
    Product(man as real, Pow2(exp - MANT_DIG))
  }

  // ---------- doubles ----------

  /** The finite doubles: a 53-bit integer times a power of two in range. */
  ghost predicate IsDouble(x: real) {
    exists k: int, q: int :: Scaled(x, k, q)
  }

  ghost predicate Scaled(x: real, k: int, q: int) {
    -1074 <= q <= 971 && -0x20_0000_0000_0000 < k < 0x20_0000_0000_0000 && x == Product(k as real, Pow2(q))
  }

  /** A positive double's exponent exceeds the place of its lowest bit by 1 to 53. */
  lemma ExponentRange(x: real, k: int, q: int)
    requires x > 0.0 && Scaled(x, k, q)
    ensures q < FrexpPositive(x).exp <= q + MANT_DIG && k > 0
  {
    hide Product, Pow2, FrexpPositive;
    var s := FrexpPositive(x);
    var p := Pow2(q);
    Orders(0.0, k as real, p);
    if k > 1 {
      Orders(1.0, k as real, p);
    }
    assert p <= x;
    Orders(s.fraction, 1.0, Pow2(s.exp));
    if s.fraction > 0.5 {
      Orders(0.5, s.fraction, Pow2(s.exp));
    } else {
      Orders(0.5, 0.5, Pow2(s.exp));
    }
    assert Pow2(s.exp) / 2.0 <= x < Pow2(s.exp);
    if s.exp <= q {
      Pow2Monotone(s.exp, q);
    }
    Pow2Of53();
    Pow2Add(q, MANT_DIG);
    Commutes(p, Pow2(MANT_DIG));
    Orders(k as real, Pow2(MANT_DIG), p);
    if s.exp > q + MANT_DIG {
      Pow2Monotone(q + MANT_DIG, s.exp - 1);
      Pow2Next(s.exp - 1);
    }
  }

  /** The scaled fraction of a positive double is a whole number. */
  lemma FractionWhole(x: real, k: int, q: int) returns (man: int)
    requires x > 0.0 && Scaled(x, k, q)
    ensures Product(FrexpPositive(x).fraction, Pow2(MANT_DIG)) == man as real && 0 <= man < 0x20_0000_0000_0000
  {
    hide Product, Pow2, FrexpPositive;
    var s := FrexpPositive(x);
    ExponentRange(x, k, q);
    var n := q + MANT_DIG - s.exp;
    var w := Pow2Whole(n);
    Pow2Add(s.exp, n);
    Pow2Add(q, MANT_DIG);
    man := k * w;
    WholeProduct(k, w);
    Cancel(s.fraction, Pow2(MANT_DIG), k as real, w as real, Pow2(s.exp), Pow2(q));
    Pow2Of53();
    Orders(s.fraction, 1.0, Pow2(MANT_DIG));
    Orders(0.0, s.fraction, Pow2(MANT_DIG));
  }

  /** f * a == k * b and a * w == b * m give f * m == k * w. */
  lemma Cancel(f: real, m: real, k: real, w: real, a: real, b: real)
    requires a > 0.0 && Product(f, a) == Product(k, b) && Product(a, w) == Product(b, m)
    ensures Product(f, m) == Product(k, w)
  {
    hide Product;
    calc {
      Product(Product(f, m), a);
      { Commutes(f, m); Associates(m, f, a); Commutes(m, Product(f, a)); }
      Product(Product(k, b), m);
      { Associates(k, b, m); }
      Product(k, Product(a, w));
      { Commutes(a, w); Associates(k, w, a); }
      Product(Product(k, w), a);
    }
    Orders(Product(f, m), Product(k, w), a);
    Orders(Product(k, w), Product(f, m), a);
  }

  lemma TruncatedWhole(x: real, n: int)
    requires x == n as real
    ensures Truncated(x) == n
  {
  }

  /** Exact transport: of every finite double the mantissa fits 64 bits and the exponent 32, and the receiver
      recombines them to the same number. */
  lemma DoubleRoundTrip(x: real)
    requires IsDouble(x)
    ensures Fits(8, Mantissa(x)) && Fits(4, Exponent(x))
    ensures Ldexp(Mantissa(x), Exponent(x)) == x
  {
    PowersOf256();
    hide Pow256;
    var k: int, q: int :| Scaled(x, k, q);
    if x == 0.0 {
      ZeroTravels();
    } else {
      hide Product, Pow2, FrexpPositive, Truncated;
      Negates(k as real, Pow2(q));
      var y, j := if x < 0.0 then -x else x, if x < 0.0 then -k else k;
      assert Scaled(y, j, q);
      ExponentRange(y, j, q);
      var man := FractionWhole(y, j, q);
      var s := FrexpPositive(y);
      Negates(s.fraction, Pow2(MANT_DIG));
      var m := if x < 0.0 then -man else man;
      TruncatedWhole(Product(Frexp(x).fraction, Pow2(MANT_DIG)), m);
      assert Mantissa(x) == m && Exponent(x) == s.exp;
      Pow2Add(s.exp - MANT_DIG, MANT_DIG);
      Commutes(Pow2(s.exp - MANT_DIG), Pow2(MANT_DIG));
      Associates(Frexp(x).fraction, Pow2(MANT_DIG), Pow2(s.exp - MANT_DIG));
    }
  }

  lemma ZeroTravels()
    ensures Mantissa(0.0) == 0 && Exponent(0.0) == 0 && Ldexp(0, 0) == 0.0
  {
  }
}
