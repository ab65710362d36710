/**
 * Python's integer operators over Dafny's unbounded `int`.
 *
 * Dafny's `/` and `%` are Euclidean (the remainder is never negative), while
 * Python's `//` and `%` floor: the remainder takes the sign of the divisor.
 * The two agree for a positive divisor and differ for a negative one, which
 * `add_points` can produce, so the model uses the functions below wherever the
 * source writes `//` or `%`.
 */
module PyInt {

  function Abs(x: int): nat
  {
    if x < 0 then -x else x
  }

  /** Python's `a // b`: the largest q with q <= a / b (exact quotient). */
  function PyFloorDiv(a: int, b: int): (q: int)
    requires b != 0
    ensures b > 0 ==> b * q <= a < b * q + b
    ensures b < 0 ==> b * q + b < a <= b * q
  {
    if b > 0 || a % b == 0 then a / b else a / b - 1
  }

  /** Python's `a % b`, defined from `//` as Python defines it. */
  function PyMod(a: int, b: int): (r: int)
    requires b != 0
    ensures b > 0 ==> 0 <= r < b
    ensures b < 0 ==> b < r <= 0
    ensures (a - r) % b == 0
  {
    var q := PyFloorDiv(a, b);
    MultipleMod(b, q);
    a - b * q
  }

  /** A multiple of d leaves no Euclidean remainder modulo d. */
  lemma MultipleMod(d: int, m: int)
    requires d != 0
    ensures (d * m) % d == 0
  {
    var x := d * m;
    var k := m - x / d;
    assert d * k == x % d by {
      assert x == d * (x / d) + x % d;
    }
    ProductBound(d, k);
  }

  /** A non-zero multiple of d is at least |d| away from zero. */
  lemma ProductBound(d: int, k: int)
    ensures k > 0 && d > 0 ==> d * k >= d
    ensures k < 0 && d > 0 ==> d * k <= -d
    ensures k > 0 && d < 0 ==> d * k <= d
    ensures k < 0 && d < 0 ==> d * k >= -d
  {
  }

  /** For a positive divisor, Python's `%` and `//` are Dafny's. */
  lemma PyModPositive(a: int, b: int)
    requires b > 0
    ensures PyFloorDiv(a, b) == a / b
    ensures PyMod(a, b) == a % b
  {
  }

  /** Python's `v % m` is 0 exactly when m divides v. */
  lemma PyModZero(v: int, m: int)
    requires m != 0
    ensures PyMod(v, m) == 0 <==> v % m == 0
  {
    if v % m == 0 {
      assert v == m * (v / m) + v % m;
    }
  }

  /** A value already in Python's residue range for m is its own remainder. */
  lemma PyModOfResidue(v: int, m: int)
    requires m > 0 && 0 <= v < m
    ensures PyMod(v, m) == v
  {
    PyModPositive(v, m);
  }

  /** Two numbers leave the same remainder modulo m exactly when m divides their difference. */
  lemma CongruentIff(u: int, v: int, m: int)
    requires m > 0
    ensures u % m == v % m <==> (u - v) % m == 0
  {
    var qu, qv := u / m, v / m;
    assert u == m * qu + u % m;
    assert v == m * qv + v % m;
    assert u - v == m * (qu - qv) + (u % m - v % m);
    if u % m == v % m {
      MultipleMod(m, qu - qv);
    } else {
      var k := (u - v) / m;
      assert u - v == m * k + (u - v) % m;
      if (u - v) % m == 0 {
        assert m * (k - (qu - qv)) == u % m - v % m;
        ProductBound(m, k - (qu - qv));
        assert false;
      }
    }
  }

  /** `b ** e` for a natural exponent. */
  function Pow(b: int, e: nat): int
    decreases e
  {
    if e == 0 then 1 else b * Pow(b, e - 1)
  }

  /** `2 ** k`. */
  function Pow2(k: nat): (r: nat)
    ensures r >= 1
  {
    if k == 0 then 1 else 2 * Pow2(k - 1)
  }

  lemma {:induction false} PowPositive(b: int, e: nat)
    requires b >= 1
    ensures Pow(b, e) >= 1
    decreases e
  {
    if e > 0 {
      PowPositive(b, e - 1);
      assert b * Pow(b, e - 1) >= Pow(b, e - 1) by {
        ProductBound(Pow(b, e - 1), b);
      }
    }
  }

  lemma {:induction false} PowOfOne(e: nat)
    ensures Pow(1, e) == 1
    decreases e
  {
    if e > 0 {
      PowOfOne(e - 1);
    }
  }
}
