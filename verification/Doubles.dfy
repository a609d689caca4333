/**
 The double-precision numbers of the code (section 8.5 of ECMA-262, 5th edition): a result is
 rounded to a nearest number of 53 significant bits. Exponents are not bounded, since nothing
 here comes near their limits, and ties may go either way.
 */
module Doubles {
  import opened Digits
  import opened JsWord

  /** m times 2 to the e. */
  ghost function Scaled(m: int, e: int): real
    decreases if e < 0 then -e else e
  {
    if e < 0 then Scaled(m, e + 1) / 2.0 else if e > 0 then 2.0 * Scaled(m, e - 1) else m as real
  }

  ghost predicate IsDouble(r: real) {
    exists m, e :: -DOUBLE_LIMIT <= m <= DOUBLE_LIMIT && r == Scaled(m, e)
  }

  function Distance(x: real, y: real): real {
    if x < y then y - x else x - y
  }

  ghost predicate RoundsToNearest(fl: real -> real) {
    && (forall x :: IsDouble(fl(x)))
    && (forall x, d :: IsDouble(d) ==> Distance(fl(x), x) <= Distance(d, x))
  }

  lemma IntegerIsDouble(n: int)
    requires -DOUBLE_LIMIT <= n <= DOUBLE_LIMIT
    ensures IsDouble(n as real)
  {
    assert Scaled(n, 0) == n as real;
  }

  /** Rounding does not cross a double. */
  lemma RoundsAbove(fl: real -> real, x: real, n: int)
    requires RoundsToNearest(fl) && -DOUBLE_LIMIT <= n <= DOUBLE_LIMIT && n as real <= x
    ensures n as real <= fl(x)
  {
    IntegerIsDouble(n);
    assert Distance(fl(x), x) <= Distance(n as real, x);
  }

  /** The nearest multiple of 1/p to x is a double, if x is not too large. */
  lemma NearbyDouble(x: real, j: nat, p: real, e: real) returns (d: real)
    requires p == Pow(2, j) as real > 0.0 && 0.0 <= x && x * p <= DOUBLE_LIMIT as real && e * p == 0.5
    ensures IsDouble(d) && Distance(d, x) <= e
  {
    var m := (x * p + 0.5).Floor;
    d := m as real / p;
    assert d * p == m as real;
    ScaledDown(m, j);
    var i: int := -1 * j;
    Quotient(m as real, Scaled(m, i), p);
    HalfAway(m as real, d, x, p, e);
  }

  lemma HalfAway(m: real, d: real, x: real, p: real, e: real)
    requires p > 0.0 && d * p == m && Distance(m, x * p) <= 0.5 && e * p == 0.5
    ensures Distance(d, x) <= e
  {
    DistanceTimes(d, x, p);
    var far := Distance(d, x);
    assert far * p <= 0.5;
    Cancelled(far, e, p);
  }

  lemma {:induction false} ScaledDown(m: int, j: int)
    requires 0 <= j
    ensures Scaled(m, -j) * Pow(2, j) as real == m as real
  {
    if j > 0 {
      ScaledDown(m, j - 1);
      var r, q := Scaled(m, 1 - j), Pow(2, j - 1) as real;
      assert Scaled(m, -j) == r / 2.0 && Pow(2, j) as real == 2.0 * q;
      assert (r / 2.0) * (2.0 * q) == r * q;
    }
  }

  lemma Quotient(m: real, r: real, p: real)
    requires p > 0.0 && r * p == m
    ensures r == m / p
  {
  }

  lemma DistanceTimes(x: real, y: real, p: real)
    requires p > 0.0
    ensures Distance(x, y) * p == Distance(x * p, y * p)
  {
    if x < y {
      assert (y - x) * p == y * p - x * p;
      assert (y - x) * p > 0.0;
    } else {
      assert (x - y) * p == x * p - y * p;
      assert (x - y) * p >= 0.0;
    }
  }

  /** A number of at most 2^53/p is rounded by at most e = 1/2p. */
  lemma RoundingError(fl: real -> real, x: real, j: nat, p: real, e: real)
    requires p == Pow(2, j) as real > 0.0 && 0.0 <= x && x * p <= DOUBLE_LIMIT as real && e * p == 0.5
    requires RoundsToNearest(fl)
    ensures x - e <= fl(x) <= x + e
  {
    var d := NearbyDouble(x, j, p, e);
    Nearest(fl, x, d);
  }

  lemma Nearest(fl: real -> real, x: real, d: real)
    requires RoundsToNearest(fl) && IsDouble(d)
    ensures Distance(fl(x), x) <= Distance(d, x)
  {
  }

  lemma Cancelled(x: real, y: real, p: real)
    requires p > 0.0 && x * p <= y * p
    ensures x <= y
  {
    assert (x - y) * p == x * p - y * p;
  }

  lemma TimesMono(x: real, y: real, p: real)
    requires x <= y && 0.0 <= p
    ensures x * p <= y * p
  {
  }

  lemma PositiveFactor(x: real, p: real)
    requires x * p > 0.0 && p > 0.0
    ensures x > 0.0
  {
  }

  /** The powers of two that scale the quotient estimate. */
  lemma Powers()
    ensures Pow(2, 25) == 0x200_0000 && Pow(2, 51) == 0x8_0000_0000_0000 && Pow(2, 52) == 0x10_0000_0000_0000
    ensures Pow(2, 80) == 0x1_0000_0000_0000_0000_0000
  {
    var n := 5;
    assert Pow(2, n) == 32;
    PowProduct(n, n, 0x20, 0x20);
    PowProduct(2 * n, 2 * n, 0x400, 0x400);
    PowProduct(4 * n, n, 0x10_0000, 0x20);
    PowProduct(4 * n, 4 * n, 0x10_0000, 0x10_0000);
    PowProduct(8 * n, 2 * n, 0x100_0000_0000, 0x400);
    PowProduct(8 * n, 8 * n, 0x100_0000_0000, 0x100_0000_0000);
    assert Pow(2, 10 * n + 1) == 2 * Pow(2, 10 * n) && Pow(2, 10 * n + 2) == 2 * Pow(2, 10 * n + 1);
  }

  lemma PowProduct(m: nat, n: nat, p: int, q: int)
    requires Pow(2, m) == p && Pow(2, n) == q
    ensures Pow(2, m + n) == p * q
  {
    PowAdd(2, m, n);
  }

  // ----- There is such a rounding

  lemma {:induction false} ScaledOf(m: int, e: int)
    ensures Scaled(m, e) == m as real * Scaled(1, e) && Scaled(1, e) > 0.0
    decreases if e < 0 then -e else e
  {
    if e < 0 {
      ScaledOf(m, e + 1);
      Halved(m as real, Scaled(1, e + 1));
    } else if e > 0 {
      ScaledOf(m, e - 1);
      Doubled(m as real, Scaled(1, e - 1));
    }
  }

  lemma Halved(m: real, u: real)
    ensures m * u / 2.0 == m * (u / 2.0)
  {
  }

  lemma Doubled(m: real, u: real)
    ensures 2.0 * (m * u) == m * (2.0 * u)
  {
  }

  /** x has 53 significant bits above exponent e. */
  ghost predicate Exponent(x: real, e: int) {
    4503599627370496.0 * Scaled(1, e) <= x <= 9007199254740992.0 * Scaled(1, e)
  }

  lemma {:induction false} ExponentAbove(x: real, e: int, n: nat) returns (r: int)
    requires 4503599627370496.0 * Scaled(1, e) <= x <= n as real * (4503599627370496.0 * Scaled(1, e))
    ensures Exponent(x, r)
    decreases n
  {
    var v := 4503599627370496.0 * Scaled(1, e);
    ScaledOf(1, e);
    if x <= 2.0 * v { return e; }
    PositiveFactor(n as real - 2.0, v);
    assert Scaled(1, e + 1) == 2.0 * Scaled(1, e);
    TimesMono(n as real, 2.0 * (n - 1) as real, v);
    r := ExponentAbove(x, e + 1, n - 1);
  }

  lemma {:induction false} ExponentBelow(x: real, e: int, n: nat) returns (r: int)
    requires 0.0 < x <= 9007199254740992.0 * Scaled(1, e) && 4503599627370496.0 * Scaled(1, e) <= n as real * x
    ensures Exponent(x, r)
    decreases n
  {
    var v := 4503599627370496.0 * Scaled(1, e);
    if v <= x { return e; }
    PositiveFactor(n as real - 1.0, x);
    assert Scaled(1, e) == 2.0 * Scaled(1, e - 1);
    var w := 4503599627370496.0 * Scaled(1, e - 1);
    HalvedBound(v, w, n as real, x);
    r := ExponentBelow(x, e - 1, n - 1);
  }

  lemma HalvedBound(v: real, w: real, n: real, x: real)
    requires v == 2.0 * w && v <= n * x && 2.0 <= n && 0.0 < x
    ensures w <= (n - 1.0) * x
  {
    TimesMono(n, 2.0 * (n - 1.0), x);
    assert (2.0 * (n - 1.0)) * x == 2.0 * ((n - 1.0) * x);
  }

  lemma HasExponent(x: real) returns (e: int)
    requires x > 0.0
    ensures Exponent(x, e)
  {
    assert Scaled(1, 0) == 1.0;
    if 4503599627370496.0 <= x {
      var n: nat := x.Floor + 1;
      e := ExponentAbove(x, 0, n);
    } else {
      var q := 4503599627370496.0 / x;
      assert q * x == 4503599627370496.0;
      var n: nat := q.Floor + 1;
      TimesMono(q, n as real, x);
      e := ExponentBelow(x, 0, n);
    }
  }

  /** A double with an exponent of at least e is a multiple of 2^e. */
  lemma {:induction false} OnGrid(m: int, f: int, e: int) returns (k: int)
    requires e <= f
    ensures Scaled(m, f) == k as real * Scaled(1, e)
    decreases f - e
  {
    if e == f {
      ScaledOf(m, e);
      return m;
    }
    var h := OnGrid(m, f - 1, e);
    assert Scaled(m, f) == 2.0 * Scaled(m, f - 1);
    k := 2 * h;
    Regrouped(h, Scaled(1, e));
  }

  lemma Regrouped(h: int, u: real)
    ensures 2.0 * (h as real * u) == (2 * h) as real * u
  {
  }

  /** One with a smaller exponent is at most 2^52 times 2^e. */
  lemma BelowGrid(m: int, f: int, e: int)
    requires m <= DOUBLE_LIMIT && f < e
    ensures Scaled(m, f) <= 4503599627370496.0 * Scaled(1, e)
  {
    ScaledOf(m, f);
    HalfOrLess(f, e);
    TimesHalf(m as real, Scaled(1, f), Scaled(1, e));
  }

  lemma TimesHalf(m: real, u: real, v: real)
    requires m <= 9007199254740992.0 && 0.0 < 2.0 * u <= v
    ensures m * u <= 4503599627370496.0 * v
  {
    TimesMono(m, 9007199254740992.0, u);
  }

  lemma {:induction false} HalfOrLess(f: int, e: int)
    requires f < e
    ensures 0.0 < 2.0 * Scaled(1, f) <= Scaled(1, e)
    decreases e - f
  {
    ScaledOf(1, f);
    assert Scaled(1, e) == 2.0 * Scaled(1, e - 1);
    if f < e - 1 { HalfOrLess(f, e - 1); }
  }

  /** The nearest integer. */
  lemma NearestInteger(y: real, m: int, k: int)
    requires m == (y + 0.5).Floor
    ensures Distance(m as real, y) <= Distance(k as real, y)
  {
    assert m as real - 0.5 <= y < m as real + 0.5;
    if k > m { assert k as real >= m as real + 1.0; } else if k < m { assert k as real <= m as real - 1.0; }
  }

  ghost predicate IsNearest(d: real, x: real) {
    IsDouble(d) && forall c :: IsDouble(c) ==> Distance(d, x) <= Distance(c, x)
  }

  lemma DistanceMono(a: real, b: real, y: real, u: real)
    requires 0.0 < u && Distance(a, y) <= Distance(b, y)
    ensures Distance(a * u, y * u) <= Distance(b * u, y * u)
  {
    DistanceTimes(a, y, u);
    DistanceTimes(b, y, u);
    TimesMono(Distance(a, y), Distance(b, y), u);
  }

  lemma CloserThan(u: real, y: real, m: int, k: int)
    requires 0.0 < u && m == (y + 0.5).Floor
    ensures Distance(m as real * u, y * u) <= Distance(k as real * u, y * u)
  {
    NearestInteger(y, m, k);
    DistanceMono(m as real, k as real, y, u);
  }

  lemma NearerThanMultiple(u: real, y: real, m: int, k: int, x: real, d: real, c: real)
    requires 0.0 < u && m == (y + 0.5).Floor && x == y * u && d == m as real * u && c == k as real * u
    ensures Distance(d, x) <= Distance(c, x)
  {
    CloserThan(u, y, m, k);
  }

  lemma NearerThanSmaller(u: real, y: real, m: int, x: real, d: real, c: real)
    requires 0.0 < u && m == (y + 0.5).Floor && x == y * u && d == m as real * u && c <= 4503599627370496.0 * u <= x
    ensures Distance(d, x) <= Distance(c, x)
  {
    var h := 4503599627370496.0 * u;
    NearerThanMultiple(u, y, m, 0x10_0000_0000_0000, x, d, h);
    Farther(c, h, x);
  }

  lemma NearestOnGrid(x: real, e: int, u: real, y: real, m: int, d: real, c: real)
    requires u == Scaled(1, e) > 0.0 && x == y * u && 4503599627370496.0 * u <= x && m == (y + 0.5).Floor
    requires d == m as real * u && IsDouble(c)
    ensures Distance(d, x) <= Distance(c, x)
  {
    var m', f :| -DOUBLE_LIMIT <= m' <= DOUBLE_LIMIT && c == Scaled(m', f);
    if e <= f {
      var k := OnGrid(m', f, e);
      NearerThanMultiple(u, y, m, k, x, d, c);
    } else {
      BelowGrid(m', f, e);
      NearerThanSmaller(u, y, m, x, d, c);
    }
  }

  lemma Farther(c: real, h: real, x: real)
    requires c <= h <= x
    ensures Distance(h, x) <= Distance(c, x)
  {
  }

  lemma Grid(x: real, e: int) returns (u: real, y: real, m: int)
    requires Exponent(x, e)
    ensures u == Scaled(1, e) > 0.0 && y * u == x && m == (y + 0.5).Floor && 0 <= m <= DOUBLE_LIMIT
  {
    u := Scaled(1, e);
    ScaledOf(1, e);
    y := x / u;
    assert y * u == x;
    OverGrid(x, u, y);
    m := (y + 0.5).Floor;
  }

  lemma OverGrid(x: real, u: real, y: real)
    requires 0.0 < u && y * u == x && 4503599627370496.0 * u <= x <= 9007199254740992.0 * u
    ensures 4503599627370496.0 <= y <= 9007199254740992.0
  {
    Cancelled(4503599627370496.0, y, u);
    Cancelled(y, 9007199254740992.0, u);
  }

  lemma NearestPositive(x: real) returns (d: real)
    requires x > 0.0
    ensures IsNearest(d, x)
  {
    var e := HasExponent(x);
    var u, y, m := Grid(x, e);
    ScaledOf(m, e);
    d := Scaled(m, e);
    forall c | IsDouble(c) ensures Distance(d, x) <= Distance(c, x) {
      NearestOnGrid(x, e, u, y, m, d, c);
    }
  }

  lemma NegatedIsDouble(r: real)
    requires IsDouble(r)
    ensures IsDouble(-r)
  {
    var m, e :| -DOUBLE_LIMIT <= m <= DOUBLE_LIMIT && r == Scaled(m, e);
    ScaledOf(m, e);
    ScaledOf(-m, e);
    assert -r == Scaled(-m, e);
  }

  lemma NearestExists(x: real)
    ensures exists d :: IsNearest(d, x)
  {
    if x > 0.0 {
      var d := NearestPositive(x);
    } else if x < 0.0 {
      var d := NearestPositive(-x);
      NegatedIsDouble(d);
      forall c | IsDouble(c) ensures Distance(-d, x) <= Distance(c, x) {
        NegatedIsDouble(c);
        assert Distance(d, -x) <= Distance(-c, -x);
      }
      assert IsNearest(-d, x);
    } else {
      IntegerIsDouble(0);
      assert IsNearest(0.0, x);
    }
  }

  ghost function Rounded(x: real): (d: real)
    ensures IsNearest(d, x)
  {
    NearestExists(x);
    var d :| IsNearest(d, x);
    d
  }

  lemma RoundingExists()
    ensures RoundsToNearest(Rounded)
  {
  }
}
