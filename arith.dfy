/** Integer helpers shared by several puzzles: divisibility, Python's `math.gcd`
    and `math.lcm`, sums and counts over sequences. */
module Arith {

  /** `d` divides `n` (for a positive `d`). */
  predicate Divides(d: int, n: int)
  {
    d > 0 && n % d == 0
  }

  lemma MultipleMod(d: int, q: int)
    requires d > 0
    ensures (d * q) % d == 0 && (d * q) / d == q
  {
    var n := d * q;
    var r := n % d;
    var s := n / d;
    assert n == d * s + r;
    assert d * (q - s) == r;
    MulSign(d, q - s);
  }

  lemma MulSign(d: int, k: int)
    requires d > 0
    ensures k >= 1 ==> d * k >= d
    ensures k <= -1 ==> d * k <= -d
  {
    assert d * k - d == d * (k - 1);
    assert d * k + d == d * (k + 1);
  }

  /** A divisor of `x` and `y` divides `k * x + l * y`. */
  lemma DividesCombination(d: int, x: int, y: int, k: int, l: int)
    requires Divides(d, x) && Divides(d, y)
    ensures Divides(d, k * x + l * y)
  {
    var p, q := x / d, y / d;
    assert x == d * p;
    assert y == d * q;
    assert k * x + l * y == d * (k * p + l * q) by {
      assert k * (d * p) == d * (k * p);
      assert l * (d * q) == d * (l * q);
    }
    MultipleMod(d, k * p + l * q);
  }

  /** Euclid's algorithm, as Python's `math.gcd` on non-negative arguments. */
  function Gcd(a: nat, b: nat): (g: nat)
    ensures a > 0 || b > 0 ==> g > 0
    decreases b
  {
    if b == 0 then a else Gcd(b, a % b)
  }

  /** The gcd divides both arguments. */
  lemma {:induction false} GcdDivides(a: nat, b: nat)
    requires a > 0 || b > 0
    ensures Divides(Gcd(a, b), a) && Divides(Gcd(a, b), b)
    decreases b
  {
    if b == 0 {
      MultipleMod(a, 0);
    } else {
      GcdDivides(b, a % b);
      var g := Gcd(b, a % b);
      DivModSplit(a, b);
      DividesCombination(g, b, a % b, a / b, 1);
    }
  }

  lemma DivModSplit(a: nat, b: nat)
    requires b > 0
    ensures a == (a / b) * b + 1 * (a % b)
  {
  }

  lemma DivModRest(a: nat, b: nat)
    requires b > 0
    ensures a % b == 1 * a + (-(a / b)) * b
  {
  }

  /** Every common divisor divides the gcd. */
  lemma {:induction false} GcdIsGreatest(a: nat, b: nat, d: int)
    requires Divides(d, a) && Divides(d, b)
    ensures Divides(d, Gcd(a, b))
    decreases b
  {
    if b != 0 {
      DivModRest(a, b);
      DividesCombination(d, a, b, 1, -(a / b));
      GcdIsGreatest(b, a % b, d);
    }
  }

  /** Bezout coefficients from the extended Euclidean algorithm. */
  lemma {:induction false} Bezout(a: nat, b: nat) returns (x: int, y: int)
    ensures a * x + b * y == Gcd(a, b)
    decreases b
  {
    if b == 0 {
      x, y := 1, 0;
    } else {
      var x', y' := Bezout(b, a % b);
      var q := a / b;
      assert a == q * b + a % b;
      x, y := y', x' - q * y';
      calc {
        a * x + b * y;
        a * y' + b * x' - b * q * y';
        { assert a * y' == (q * b + a % b) * y' == q * b * y' + (a % b) * y'; }
        b * x' + (a % b) * y';
      }
    }
  }

  /** Python's `math.lcm` of two naturals: 0 if either is 0. */
  function Lcm(a: nat, b: nat): nat
  {
    if a == 0 || b == 0 then 0 else a / Gcd(a, b) * b
  }

  /** For positive arguments the lcm is a positive common multiple. */
  lemma LcmIsCommonMultiple(a: nat, b: nat)
    requires a > 0 && b > 0
    ensures Lcm(a, b) > 0 && Divides(a, Lcm(a, b)) && Divides(b, Lcm(a, b))
  {
    GcdDivides(a, b);
    var g := Gcd(a, b);
    var a1, b1 := a / g, b / g;
    assert a == g * a1;
    assert b == g * b1;
    MulSign(g, a1);
    var l := a1 * b;
    assert l > 0;
    assert l == a * b1 by {
      assert a1 * (g * b1) == (g * a1) * b1;
    }
    MultipleMod(b, a1);
    MultipleMod(a, b1);
  }

  /** The lcm of positive arguments divides each of their positive common
      multiples, so it is the least one. */
  lemma LcmDividesCommonMultiple(a: nat, b: nat, m: int)
    requires a > 0 && b > 0 && m > 0 && Divides(a, m) && Divides(b, m)
    ensures Divides(Lcm(a, b), m)
  {
    var l := LcmTimesGcd(a, b);
    var g := Gcd(a, b);
    var x, y := Bezout(a, b);
    var k, j := m / a, m / b;
    assert m == a * k;
    assert m == b * j;
    var c := x * j + y * k;
    BezoutMultiple(a, b, g, x, y, m, k, j);
    Cancel(g, m, l, c);
    MultipleMod(l, c);
  }

  /** For positive arguments, the lcm times the gcd is the product. */
  lemma LcmTimesGcd(a: nat, b: nat) returns (l: nat)
    requires a > 0 && b > 0
    ensures l == Lcm(a, b) && l > 0 && Gcd(a, b) > 0 && a * b == Gcd(a, b) * l
  {
    GcdDivides(a, b);
    var g := Gcd(a, b);
    var a1 := a / g;
    assert a == g * a1;
    l := a1 * b;
    assert a * b == g * l by {
      assert (g * a1) * b == g * (a1 * b);
    }
    MulSign(g, a1);
    MulSign(a1, b);
  }

  lemma BezoutMultiple(a: int, b: int, g: int, x: int, y: int, m: int, k: int, j: int)
    requires a * x + b * y == g && m == a * k && m == b * j
    ensures m * g == a * b * (x * j + y * k)
  {
    calc {
      m * g;
      m * (a * x + b * y);
      m * a * x + m * b * y;
      { assert m * a * x == (b * j) * a * x; assert m * b * y == (a * k) * b * y; }
      (b * j) * a * x + (a * k) * b * y;
      a * b * (x * j + y * k);
    }
  }

  lemma Cancel(g: int, m: int, l: int, c: int)
    requires g > 0 && m * g == (g * l) * c
    ensures m == l * c
  {
    assert g * (m - l * c) == 0;
    MulSign(g, m - l * c);
  }

  /** `math.lcm(*xs)`: the fold of `Lcm` from 1. */
  function LcmOf(xs: seq<nat>): nat
  {
    if xs == [] then 1 else Lcm(LcmOf(xs[..|xs| - 1]), xs[|xs| - 1])
  }

  /** For positive entries, `LcmOf` is a positive common multiple of all of
      them that divides every positive common multiple. */
  lemma {:induction false} LcmOfIsLeast(xs: seq<nat>)
    requires forall i :: 0 <= i < |xs| ==> xs[i] > 0
    ensures LcmOf(xs) > 0
    ensures forall i :: 0 <= i < |xs| ==> Divides(xs[i], LcmOf(xs))
    ensures forall m :: m > 0 && (forall i :: 0 <= i < |xs| ==> Divides(xs[i], m)) ==> Divides(LcmOf(xs), m)
  {
    if xs == [] {
      forall m | m > 0 ensures Divides(1, m) { }
    } else {
      var init := xs[..|xs| - 1];
      var last := xs[|xs| - 1];
      LcmOfIsLeast(init);
      var l0 := LcmOf(init);
      LcmIsCommonMultiple(l0, last);
      var l := Lcm(l0, last);
      forall i | 0 <= i < |xs| ensures Divides(xs[i], l)
      {
        if i < |xs| - 1 {
          assert xs[i] == init[i];
          DividesTransitive(xs[i], l0, l);
        }
      }
      forall m | m > 0 && (forall i :: 0 <= i < |xs| ==> Divides(xs[i], m))
        ensures Divides(l, m)
      {
        assert forall i :: 0 <= i < |init| ==> Divides(init[i], m) by {
          forall i | 0 <= i < |init| ensures Divides(init[i], m) {
            assert init[i] == xs[i];
          }
        }
        assert Divides(last, m);
        LcmDividesCommonMultiple(l0, last, m);
      }
    }
  }

  lemma DividesTransitive(a: int, b: int, c: int)
    requires Divides(a, b) && Divides(b, c)
    ensures Divides(a, c)
  {
    var p, q := b / a, c / b;
    assert b == a * p;
    assert c == b * q;
    assert c == a * (p * q);
    MultipleMod(a, p * q);
  }

  /** Sum of a sequence of integers. */
  function Sum(xs: seq<int>): int
  {
    if xs == [] then 0 else Sum(xs[..|xs| - 1]) + xs[|xs| - 1]
  }

  lemma {:induction false} SumAppend(xs: seq<int>, ys: seq<int>)
    ensures Sum(xs + ys) == Sum(xs) + Sum(ys)
    decreases |ys|
  {
    if ys == [] {
      assert xs + ys == xs;
    } else {
      var ys' := ys[..|ys| - 1];
      assert (xs + ys)[..|xs + ys| - 1] == xs + ys';
      SumAppend(xs, ys');
    }
  }

  function Min(a: int, b: int): int { if a <= b then a else b }
  function Max(a: int, b: int): int { if a >= b then a else b }
  function Abs(a: int): nat { if a < 0 then -a else a }
}
