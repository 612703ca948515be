/** `pyledgertools/functions.py`: the magnitude bucket of an amount and
    the greatest common divisor of a list of amounts in whole cents. The
    same GCD appears again in `pyledgertools/train_from_ledger.py`. */
module Functions {
  import opened Wrappers
  import opened Numbers

  // ---------------------------------------------------------------------
  // amount_group
  // ---------------------------------------------------------------------

  function Magnitude(v: real): real {
    if v < 0.0 then -v else v
  }

  /** The width of the bucket an amount of magnitude `a` falls into; the
      smallest bucket is the one below ten. */
  function BucketSize(a: real): nat {
    if a >= 1000.0 then 1000 else if a >= 100.0 then 100 else 10
  }

  /** `int(a / size) * size` for a magnitude `a`: the largest multiple
      of `size` not above `a`. */
  function Truncated(a: real, size: nat): (g: nat)
    requires size > 0 && a >= 0.0
    ensures g % size == 0
    ensures g as real <= a < (g + size) as real
  {
    var q := a / size as real;
    var f := q.Floor;
    assert f as real <= q < f as real + 1.0;
    assert q * size as real == a;
    assert f * size >= 0;
    var g := f * size;
    assert g as real == f as real * size as real;
    assert g as real <= a by {
      var diff := q - f as real;
      assert diff >= 0.0;
      assert diff * size as real >= 0.0;
      assert a - g as real == diff * size as real;
    }
    assert a < (g + size) as real by {
      var diff := f as real + 1.0 - q;
      assert diff > 0.0;
      assert diff * size as real > 0.0;
      assert (g + size) as real - a == diff * size as real;
    }
    MultipleMod(size, f);
    assert g == size * f;
    g
  }

  /** `amount_group`: `n` for a negative amount and `p` otherwise, then
      the magnitude cut down to a multiple of 1000, 100 or 10, or `0`
      below ten. */
  function AmountGroup(v: real): string {
    var prefix := if v < 0.0 then "n" else "p";
    var a := Magnitude(v);
    if a >= 1000.0 then prefix + NatToString(Truncated(a, 1000))
    else if a >= 100.0 then prefix + NatToString(Truncated(a, 100))
    else if a >= 10.0 then prefix + NatToString(Truncated(a, 10))
    else prefix + "0"
  }

  /** The group names the sign and a bucket: its digits read back as a
      multiple g of the bucket size with g <= |v| < g + size. */
  lemma AmountGroupBucket(v: real)
    ensures var r := AmountGroup(v);
      |r| >= 2 && r[0] == (if v < 0.0 then 'n' else 'p') && AllDigits(r[1..]) &&
      var g := DigitsValue(r[1..]);
      var size := BucketSize(Magnitude(v));
      g % size == 0 && g as real <= Magnitude(v) < (g + size) as real
  {
    var a := Magnitude(v);
    var prefix := if v < 0.0 then "n" else "p";
    var size := BucketSize(a);
    if a >= 10.0 {
      var g := Truncated(a, size);
      assert AmountGroup(v) == prefix + NatToString(g);
      assert (prefix + NatToString(g))[1..] == NatToString(g);
    } else {
      assert AmountGroup(v)[1..] == "0" == NatToString(0);
    }
  }

  /** Ten is the first amount outside the smallest bucket. */
  lemma AmountGroupExamples()
    ensures AmountGroup(0.0) == "p0"
    ensures AmountGroup(-9.99) == "n0"
  {
  }

  // ---------------------------------------------------------------------
  // GCD
  // ---------------------------------------------------------------------

  /** `int(x)`: truncation toward zero. */
  function Truncate(x: real): int {
    if x >= 0.0 then x.Floor else -((-x).Floor)
  }

  /** `int(d * 100)`: an amount in whole cents, the fraction of a cent cut
      off toward zero. */
  function Cents(d: real): int {
    Truncate(d * 100.0)
  }

  function Abs(n: int): nat {
    if n < 0 then -n else n
  }

  /** `d` divides `n`: zero divides only zero. */
  predicate Divides(d: int, n: int) {
    if d == 0 then n == 0 else n % d == 0
  }

  /** Euclid's algorithm on natural numbers. */
  function GcdNat(a: nat, b: nat): nat
    decreases b
  {
    if b == 0 then a else GcdNat(b, a % b)
  }

  /** `math.gcd`: the greatest common divisor of the magnitudes. */
  function Gcd(a: int, b: int): nat {
    GcdNat(Abs(a), Abs(b))
  }

  lemma MultipleMod(d: int, m: int)
    requires d != 0
    ensures (d * m) % d == 0
  {
    var n := d * m;
    var k := n / d;
    var r := n % d;
    assert n == d * k + r && 0 <= r < Abs(d);
    assert d * (m - k) == r;
    if m - k != 0 {
      MulAtLeast(d, m - k);
    }
  }

  lemma MulAtLeast(d: int, t: int)
    requires d != 0 && t != 0
    ensures Abs(d * t) >= Abs(d)
  {
    var x: int, y: int := Abs(d), Abs(t);
    assert x * (y - 1) >= 0;
    assert x * y >= x;
    assert Abs(d * t) == x * y by {
      if d < 0 && t < 0 {
        assert d * t == x * y;
      } else if d < 0 {
        assert d * t == -(x * y);
      } else if t < 0 {
        assert d * t == -(x * y);
      } else {
        assert d * t == x * y;
      }
    }
  }

  /** A common divisor of x and y divides x * q + y. */
  lemma DividesLinear(d: int, x: int, y: int, q: int)
    requires Divides(d, x) && Divides(d, y)
    ensures Divides(d, x * q + y)
  {
    if d != 0 {
      var i, j := x / d, y / d;
      assert x == d * i && y == d * j;
      assert x * q + y == d * (i * q + j) by {
        assert x * q == d * (i * q);
      }
      MultipleMod(d, i * q + j);
    }
  }

  lemma DividesTransitive(a: int, b: int, c: int)
    requires Divides(a, b) && Divides(b, c)
    ensures Divides(a, c)
  {
    if b == 0 {
      assert c == 0;
      DividesLinear(a, b, 0, 0);
    } else {
      assert c == b * (c / b);
      DividesLinear(a, b, 0, c / b);
      assert Divides(a, b * (c / b) + 0);
    }
  }

  lemma DividesNegate(d: int, n: int)
    requires Divides(d, n)
    ensures Divides(d, -n) && Divides(d, Abs(n))
  {
    DividesLinear(d, n, 0, -1);
    assert n * -1 + 0 == -n;
  }

  lemma DividesFromAbs(d: int, n: int)
    requires Divides(d, Abs(n))
    ensures Divides(d, n)
  {
    if n < 0 {
      DividesNegate(d, Abs(n));
      assert n == -(Abs(n) as int);
    }
  }

  lemma DividesSelf(n: int)
    ensures Divides(n, n)
  {
    if n != 0 {
      MultipleMod(n, 1);
    }
  }

  lemma DividesZero(d: int)
    ensures Divides(d, 0)
  {
  }

  /** Euclid's result divides both numbers. */
  lemma {:induction false} GcdNatDivides(a: nat, b: nat)
    ensures Divides(GcdNat(a, b), a) && Divides(GcdNat(a, b), b)
    decreases b
  {
    var g := GcdNat(a, b);
    if b == 0 {
      DividesSelf(a);
      DividesZero(a);
    } else {
      GcdNatDivides(b, a % b);
      assert a == b * (a / b) + a % b;
      DividesLinear(g, b, a % b, a / b);
    }
  }

  /** Every common divisor of both numbers divides Euclid's result. */
  lemma {:induction false} GcdNatGreatest(a: nat, b: nat, d: int)
    requires Divides(d, a) && Divides(d, b)
    ensures Divides(d, GcdNat(a, b))
    decreases b
  {
    if b != 0 {
      assert a % b == b * -(a / b) + a;
      DividesLinear(d, b, a, -(a / b));
      GcdNatGreatest(b, a % b, d);
    }
  }

  /** `math.gcd` is a common divisor, and every common divisor divides
      it. */
  lemma GcdSpec(a: int, b: int, d: int)
    ensures Divides(Gcd(a, b), a) && Divides(Gcd(a, b), b)
    ensures Divides(d, a) && Divides(d, b) ==> Divides(d, Gcd(a, b))
  {
    GcdNatDivides(Abs(a), Abs(b));
    DividesFromAbs(Gcd(a, b), a);
    DividesFromAbs(Gcd(a, b), b);
    if Divides(d, a) && Divides(d, b) {
      DividesNegate(d, a);
      DividesNegate(d, b);
      GcdNatGreatest(Abs(a), Abs(b), d);
    }
  }

  /** The loop of `GCD`: the first amount, then `gcd` with each later one
      from left to right. */
  function FoldGcd(cents: seq<int>): int
    requires |cents| > 0
  {
    if |cents| == 1 then cents[0]
    else Gcd(FoldGcd(cents[..|cents| - 1]), cents[|cents| - 1])
  }

  /** The result divides every amount. */
  lemma {:induction false} FoldGcdDivides(cents: seq<int>)
    requires |cents| > 0
    ensures forall i :: 0 <= i < |cents| ==> Divides(FoldGcd(cents), cents[i])
  {
    if |cents| == 1 {
      DividesSelf(cents[0]);
    } else {
      var init := cents[..|cents| - 1];
      var c := cents[|cents| - 1];
      FoldGcdDivides(init);
      GcdSpec(FoldGcd(init), c, 0);
      forall i | 0 <= i < |cents|
        ensures Divides(FoldGcd(cents), cents[i])
      {
        if i < |cents| - 1 {
          assert cents[i] == init[i];
          DividesTransitive(FoldGcd(cents), FoldGcd(init), cents[i]);
        }
      }
    }
  }

  /** Every common divisor of the amounts divides the result, which is
      therefore the greatest common divisor. */
  lemma {:induction false} FoldGcdGreatest(cents: seq<int>, d: int)
    requires |cents| > 0
    requires forall i :: 0 <= i < |cents| ==> Divides(d, cents[i])
    ensures Divides(d, FoldGcd(cents))
  {
    if |cents| > 1 {
      var init := cents[..|cents| - 1];
      assert forall i :: 0 <= i < |init| ==> init[i] == cents[i];
      FoldGcdGreatest(init, d);
      GcdSpec(FoldGcd(init), cents[|cents| - 1], d);
    }
  }

  /** With two or more amounts the result is never negative; a single
      amount is returned as it is, sign included. */
  lemma FoldGcdSign(cents: seq<int>)
    requires |cents| > 0
    ensures |cents| >= 2 ==> FoldGcd(cents) >= 0
    ensures |cents| == 1 ==> FoldGcd(cents) == cents[0]
  {
  }

  /** The amounts in whole cents. */
  function CentsOf(dollars: seq<real>): seq<int> {
    seq(|dollars|, i requires 0 <= i < |dollars| => Cents(dollars[i]))
  }

  /** What `GCD` returns: the divisor in cents, divided by 100; an empty
      list raises IndexError. */
  function GcdOf(dollars: seq<real>): Result<real, Exception> {
    if |dollars| == 0 then Failure(IndexError)
    else Success(FoldGcd(CentsOf(dollars)) as real / 100.0)
  }

  /** `GCD`, as its loop computes it. */
  method GCD(dollars: seq<real>) returns (r: Result<real, Exception>)
    ensures r == GcdOf(dollars)
  {
    var cents := seq(|dollars|, i requires 0 <= i < |dollars| => Cents(dollars[i]));
    if |cents| == 0 {
      return Failure(IndexError);
    }
    var res := cents[0];
    for i := 1 to |cents|
      invariant res == FoldGcd(cents[..i])
    {
      assert cents[..i + 1][..i] == cents[..i];
      res := Gcd(res, cents[i]);
    }
    assert cents[..|cents|] == cents;
    return Success(res as real / 100.0);
  }

  /** The divisor found divides every amount in cents and is divided by
      every common divisor of them. */
  lemma GcdOfSpec(dollars: seq<real>, d: int)
    requires |dollars| > 0
    ensures GcdOf(dollars).Success?
    ensures var g := FoldGcd(CentsOf(dollars));
      GcdOf(dollars).value == g as real / 100.0 &&
      (forall i :: 0 <= i < |dollars| ==> Divides(g, Cents(dollars[i]))) &&
      ((forall i :: 0 <= i < |dollars| ==> Divides(d, Cents(dollars[i]))) ==> Divides(d, g))
  {
    var cents := CentsOf(dollars);
    assert forall i :: 0 <= i < |dollars| ==> cents[i] == Cents(dollars[i]);
    FoldGcdDivides(cents);
    if forall i :: 0 <= i < |dollars| ==> Divides(d, Cents(dollars[i])) {
      FoldGcdGreatest(cents, d);
    }
  }

  /** Truncation to cents is exact for amounts with at most two decimals:
      a single amount comes back unchanged. */
  lemma GcdOfSingle(c: int)
    ensures GcdOf([c as real / 100.0]) == Success(c as real / 100.0)
  {
    assert Cents(c as real / 100.0) == c by {
      assert (c as real / 100.0) * 100.0 == c as real;
    }
    assert CentsOf([c as real / 100.0]) == [c];
  }
}
