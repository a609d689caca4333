/**
 benchmarks/crypto.js:470-473 and 487: the quotient-digit estimate from the two leading
 digits of dividend and divisor, computed in double precision with its five roundings. It is
 one of the estimates the division accepts, and at most one above the true digit.
 */
module QuotientEstimate {
  import opened Digits
  import opened BignumMath
  import opened DivisionMath
  import opened Doubles

  const F: int := 0x100_0000        // 2^BI_F1 == 2^24
  const FV: int := 0x10_0000_0000_0000  // 2^52

  /** The divisor's leading 52 bits. */
  function LeadingBits(ys: seq<int>): int
    requires |ys| > 0
  {
    ys[|ys| - 1] * F + (if |ys| > 1 then ys[|ys| - 2] / 16 else 0)
  }

  /** Products, quotients and sums are rounded by fl; everything else is exact. */
  function DoubleEstimate(fl: real -> real, xs: seq<int>, ys: seq<int>): int {
    if |ys| == 0 || |xs| < 2 || LeadingBits(ys) == 0 then 0
    else if xs[|xs| - 1] == ys[|ys| - 1] then B - 1
    else FloorOfSum(fl, xs[|xs| - 1], xs[|xs| - 2] + 16, LeadingBits(ys))
  }

  function Over(fl: real -> real, n: int, yt: int): real
    requires yt != 0
  {
    fl(n as real / yt as real)
  }

  function Times(fl: real -> real, x: int, d: real): real {
    fl(x as real * d)
  }

  /** floor(x*d1 + n*d2) with d1 = 2^52/yt and d2 = 2^24/yt. */
  function FloorOfSum(fl: real -> real, x: int, n: int, yt: int): int
    requires yt != 0
  {
    fl(SumOf(fl, x, n, yt)).Floor
  }

  /** The sum as the code computes it, before its own rounding. */
  function SumOf(fl: real -> real, x: int, n: int, yt: int): real
    requires yt != 0
  {
    Times(fl, x, Over(fl, FV, yt)) + Times(fl, n, Over(fl, F, yt))
  }

  // ----- The five roundings

  const E26: real := 1.0 / 67108864.0                     // 2^-26
  const E52: real := 1.0 / 4503599627370496.0             // 2^-52
  const E53: real := 1.0 / 9007199254740992.0             // 2^-53
  const E81: real := 1.0 / 2417851639229258349412352.0    // 2^-81

  /** y is x up to an error of e. */
  ghost predicate Near(y: real, x: real, e: real) {
    x - e <= y <= x + e
  }

  lemma Ratio(n: int, y: int, c: int)
    requires 0 < y && 0 <= n <= c * y
    ensures var r := n as real / y as real; r * y as real == n as real && 0.0 <= r <= c as real
  {
    var r := n as real / y as real;
    assert r * y as real == n as real;
    Cancelled(r, c as real, y as real);
    Cancelled(0.0, r, y as real);
  }

  // What fl does to numbers of the four sizes that occur.

  lemma RoundsFactor(fl: real -> real, u: real)
    requires RoundsToNearest(fl) && 0.0 <= u <= 2.0
    ensures Near(fl(u), u, E53) && 0.0 <= fl(u)
  {
    Powers();
    RoundingError(fl, u, 52, 4503599627370496.0, E53);
    RoundsAbove(fl, u, 0);
  }

  lemma RoundsSmallFactor(fl: real -> real, w: real)
    requires RoundsToNearest(fl) && 0.0 <= w * B as real <= 2.0
    ensures Near(fl(w), w, E81) && 0.0 <= fl(w)
  {
    Powers();
    RoundingError(fl, w, 80, 1208925819614629174706176.0, E81);
    RoundsAbove(fl, w, 0);
  }

  lemma RoundsProduct(fl: real -> real, y: real)
    requires RoundsToNearest(fl) && 0.0 <= y <= B as real
    ensures Near(fl(y), y, E26) && 0.0 <= fl(y)
  {
    Powers();
    RoundingError(fl, y, 25, 33554432.0, E26);
    RoundsAbove(fl, y, 0);
  }

  lemma RoundsSmallProduct(fl: real -> real, y: real)
    requires RoundsToNearest(fl) && 0.0 <= y <= 4.0
    ensures Near(fl(y), y, E52) && 0.0 <= fl(y)
  {
    Powers();
    RoundingError(fl, y, 51, 2251799813685248.0, E52);
    RoundsAbove(fl, y, 0);
  }

  // What the errors add up to.

  /** d1 is between 1 and 2, d2 is 2^28 times smaller. */
  lemma Factors(yt: int, u: real, w: real)
    requires 0 < yt && FV <= 2 * yt && u == FV as real / yt as real && w == F as real / yt as real
    ensures 0.0 <= u <= 2.0 && w * B as real == u
    ensures u * yt as real == FV as real && w * yt as real == F as real
  {
    Ratio(FV, yt, 2);
  }

  lemma TimesNear(n: real, d: real, u: real, e: real, bound: real, e': real)
    requires 0.0 <= n <= bound && Near(d, u, e) && 0.0 <= e && bound * e <= e'
    ensures Near(n * d, n * u, e')
  {
    Product(n, d - (u - e));
    Product(n, u + e - d);
    Product(bound - n, e);
    assert n * (d - (u - e)) == n * d - n * u + n * e && n * (u + e - d) == n * u + n * e - n * d;
    assert (bound - n) * e == bound * e - n * e;
  }

  lemma NearTimes(d: real, u: real, e: real, n: real)
    requires 0.0 <= n && Near(d, u, e) && 0.0 <= e
    ensures Near(d * n, u * n, e * n)
  {
    TimesMono(d, u + e, n);
    TimesMono(u - e, d, n);
    assert (u + e) * n == u * n + e * n && (u - e) * n == u * n - e * n;
  }

  lemma Product(n: real, d: real)
    requires 0.0 <= n && 0.0 <= d
    ensures 0.0 <= n * d
  {
  }

  lemma ErrorSizes()
    ensures B as real * E53 <= 2.0 * E26 && (B + 15) as real * E81 <= E52
    ensures 0.0 < E26 <= 0.01 && 0.0 < E52 <= 0.01 && 0.0 < E53 && 0.0 < E81
  {
  }

  lemma LargeProduct(x: int, u: real, d: real, yt: int)
    requires 0 <= x < B && 0 < yt && x * FV <= (B - 1) * yt && u * yt as real == FV as real && Near(d, u, E53)
      && 0.0 <= d
    ensures 0.0 <= x as real * d <= B as real && Near(x as real * d, x as real * u, 2.0 * E26)
  {
    var n := x as real;
    LargeRange(x, u, yt);
    ErrorSizes();
    TimesNear(n, d, u, E53, B as real, 2.0 * E26);
    Product(n, d);
  }

  lemma LargeRange(x: int, u: real, yt: int)
    requires 0 < yt && x * FV <= (B - 1) * yt && u * yt as real == FV as real
    ensures x as real * u <= (B - 1) as real
  {
    var n, y, c := x as real, yt as real, (B - 1) as real;
    assert (n * u) * y == n * (u * y) == (x * FV) as real;
    assert c * y == ((B - 1) * yt) as real;
    Cancelled(n * u, c, y);
  }

  lemma SmallProduct(n: int, w: real, d: real)
    requires 0 <= n <= B + 15 && Near(d, w, E81) && 0.0 <= d && 0.0 <= w * B as real <= 2.0
    ensures 0.0 <= n as real * d <= 4.0 && Near(n as real * d, n as real * w, E52)
  {
    var r := n as real;
    ErrorSizes();
    TimesNear(r, d, w, E81, (B + 15) as real, E52);
    SmallRange(r, w);
    Product(r, d);
  }

  lemma SmallRange(r: real, w: real)
    requires 0.0 <= r <= 268435471.0 && 0.0 <= w * 268435456.0 <= 2.0
    ensures r * w <= 3.0
  {
    TimesAtMost(r, 268435471.0, w, 3.0);
  }

  lemma TimesAtMost(r: real, c: real, w: real, b: real)
    requires r <= c && 0.0 <= w && c * w <= b
    ensures r * w <= b
  {
    TimesMono(r, c, w);
  }

  /** The largest error of the sum. */
  const E: real := 3.0 * E26 + 2.0 * E52

  /** s is t/yt up to that error. */
  ghost predicate IsQuotient(s: real, t: int, yt: int) {
    Near(s * yt as real, t as real, E * yt as real)
  }

  lemma SumNear(x: int, n: int, yt: int, u: real, w: real, a: real, b: real, s: real, t: int)
    requires 0 < yt && u * yt as real == FV as real && w * yt as real == F as real
    requires Near(a, x as real * u, 3.0 * E26) && Near(b, n as real * w, 2.0 * E52)
    requires s == a + b && t == F * (x * B + n)
    ensures IsQuotient(s, t, yt)
  {
    var y, v := yt as real, x as real * u + n as real * w;
    ExactSum(x, n, y, u, w, v, t);
    ErrorSizes();
    NearTimes(s, v, E, y);
  }

  lemma ExactSum(x: int, n: int, y: real, u: real, w: real, v: real, t: int)
    requires u * y == FV as real && w * y == F as real && t == F * (x * B + n) && v == x as real * u + n as real * w
    ensures v * y == t as real
  {
    var p, q := x as real, n as real;
    assert (p * u) * y == p * (u * y) && (q * w) * y == q * (w * y);
    assert (p * u + q * w) * y == (p * u) * y + (q * w) * y;
  }

  /** The error is less than what adding 16 to the second digit gains. */
  lemma SumAtLeast(s: real, lead: int, yt: int, k: int, t: int)
    requires 0 < yt < FV && s < k as real && IsQuotient(s, t, yt) && t == F * (lead + 16)
    ensures F * (lead + 1) <= k * yt
  {
    var y := yt as real;
    Product(k as real - s, y);
    assert (k as real - s) * y == k as real * y - s * y;
    assert E * y <= (15 * F) as real;
    assert (F * (lead + 1)) as real <= k as real * y == (k * yt) as real;
  }

  lemma SumAtMost(s: real, t: int, yt: int)
    requires 0 < yt && FV <= 2 * yt && t <= B * yt + 15 * F && IsQuotient(s, t, yt)
    ensures s <= B as real + 0.25 + E
  {
    var y, c := yt as real, B as real + 0.25 + E;
    assert t as real <= B as real * y + 0.25 * y;
    assert c * y == B as real * y + 0.25 * y + E * y;
    Cancelled(s, c, y);
  }

  /** The divisor is at least its leading bits in place. */
  lemma LeadingBitsBelow(ys: seq<int>)
    requires Divisor(ys)
    ensures LeadingBits(ys) * P(|ys| - 1) <= F * V(ys)
  {
    var n := |ys|;
    var p := P(n - 1);
    ValBound(B, ys[..n - 1]);
    if n > 1 {
      var y0, y1, q := ys[n - 1], ys[n - 2], P(n - 2);
      ValTop(B, ys[..n - 1]);
      BitsArith(V(ys), y0, y1, y1 / 16, q);
    } else {
      assert (ys[0] * F) * p == F * (ys[0] * p);
    }
  }

  lemma BitsArith(v: int, y0: int, y1: int, h: int, q: int)
    requires y1 * q + y0 * (B * q) <= v && 16 * h <= y1 && 0 < q
    ensures (y0 * F + h) * (B * q) <= F * v
  {
    MulMono(16 * h, y1, q);
    assert (y0 * F + h) * (B * q) == F * (y0 * (B * q)) + F * ((16 * h) * q);
  }

  /** The leading digits bound the dividend from above and its top digit from the divisor's. */
  lemma LeadingDigits(xs: seq<int>, ys: seq<int>)
    requires Divisor(ys) && |xs| == |ys| + 1 && AllWords(xs) && V(xs) < B * V(ys)
    ensures V(xs) < (xs[|xs| - 1] * B + xs[|xs| - 2] + 1) * P(|ys| - 1)
    ensures xs[|xs| - 1] <= ys[|ys| - 1]
  {
    var n := |ys|;
    var x1, x2, y0, p := xs[n], xs[n - 1], ys[n - 1], P(n - 1);
    ValTop(B, xs);
    ValTop(B, xs[..n]);
    ValTop(B, ys);
    assert V(xs) < (x1 * B + x2 + 1) * p by {
      assert (x1 * B + x2 + 1) * p == x1 * (B * p) + (x2 + 1) * p;
    }
    TopDigits(V(xs), x1, V(ys), y0, p);
  }

  lemma TopDigits(x: int, x1: int, y: int, y0: int, p: int)
    requires x1 * (B * p) <= x < B * y && y < (y0 + 1) * p && 0 < p
    ensures x1 <= y0
  {
    assert B * ((y0 + 1) * p) == (y0 + 1) * (B * p);
    if x1 > y0 {
      MulMono(y0 + 1, x1, B * p);
      assert false;
    }
  }

  lemma EstimateArith(x: int, y: int, lead: int, p: int, yt: int, q: int)
    requires x < (lead + 1) * p && yt * p <= F * y && F * (lead + 1) <= (q + 1) * yt && 0 < p && 0 <= q
    ensures x < (q + 1) * y
  {
    MulMono(F * (lead + 1), (q + 1) * yt, p);
    MulMono(yt * p, F * y, q + 1);
    assert ((q + 1) * yt) * p == (yt * p) * (q + 1);
    assert F * ((lead + 1) * p) == (F * (lead + 1)) * p;
    assert (F * y) * (q + 1) == F * ((q + 1) * y);
  }

  lemma DigitsAllow(x1: int, x2: int, y0: int, yt: int)
    requires 0 <= x1 < y0 < B && x2 < B && y0 * F <= yt < FV
    ensures x1 * FV <= (B - 1) * yt && F * (x1 * B + x2 + 16) <= B * yt + 15 * F
  {
  }

  lemma LargeTerm(fl: real -> real, x: int, yt: int, u: real, d: real)
    requires RoundsToNearest(fl) && 0 <= x < B && 0 < yt && x * FV <= (B - 1) * yt
    requires u * yt as real == FV as real && Near(d, u, E53) && 0.0 <= d
    ensures 0.0 <= Times(fl, x, d) && Near(Times(fl, x, d), x as real * u, 3.0 * E26)
  {
    LargeProduct(x, u, d, yt);
    var y := x as real * d;
    RoundsProduct(fl, y);
  }

  lemma SmallTerm(fl: real -> real, n: int, w: real, d: real)
    requires RoundsToNearest(fl) && 0 <= n <= B + 15 && 0.0 <= w * B as real <= 2.0 && Near(d, w, E81) && 0.0 <= d
    ensures 0.0 <= Times(fl, n, d) && Near(Times(fl, n, d), n as real * w, 2.0 * E52)
  {
    SmallProduct(n, w, d);
    var y := n as real * d;
    RoundsSmallProduct(fl, y);
  }

  lemma RoundedFactors(fl: real -> real, yt: int, u: real, w: real)
    requires RoundsToNearest(fl) && 0 < yt && FV <= 2 * yt && u == FV as real / yt as real
      && w == F as real / yt as real
    ensures Near(Over(fl, FV, yt), u, E53) && 0.0 <= Over(fl, FV, yt)
    ensures Near(Over(fl, F, yt), w, E81) && 0.0 <= Over(fl, F, yt)
  {
    Factors(yt, u, w);
    RoundsFactor(fl, u);
    RoundsSmallFactor(fl, w);
  }

  lemma SumOfNear(fl: real -> real, x: int, n: int, yt: int, t: int)
    requires RoundsToNearest(fl) && 0 <= x < B && 0 <= n <= B + 15 && 0 < yt && FV <= 2 * yt
    requires x * FV <= (B - 1) * yt && t == F * (x * B + n)
    ensures 0.0 <= SumOf(fl, x, n, yt) && IsQuotient(SumOf(fl, x, n, yt), t, yt)
  {
    var u, w := FV as real / yt as real, F as real / yt as real;
    Factors(yt, u, w);
    RoundedFactors(fl, yt, u, w);
    var d1, d2 := Over(fl, FV, yt), Over(fl, F, yt);
    LargeTerm(fl, x, yt, u, d1);
    SmallTerm(fl, n, w, d2);
    var a, b := Times(fl, x, d1), Times(fl, n, d2);
    SumNear(x, n, yt, u, w, a, b, SumOf(fl, x, n, yt), t);
  }

  lemma RoundedSum(fl: real -> real, s: real)
    requires RoundsToNearest(fl) && 0.0 <= s <= B as real + 0.25 + E
    ensures var q := fl(s).Floor; 0 <= q <= B && s < (q + 1) as real
  {
    RoundsAbove(fl, s, 0);
    IntegerIsDouble(B);
    Nearest(fl, s, B as real);
    var q := fl(s).Floor;
    if s >= (q + 1) as real {
      RoundsAbove(fl, s, q + 1);
      assert false;
    }
  }

  /** q is in range and not below any digit the leading ones allow. */
  ghost predicate Covers(q: int, x1: int, x2: int, yt: int) {
    0 <= q <= B && F * (x1 * B + x2 + 1) <= (q + 1) * yt
  }

  lemma SumWithin(fl: real -> real, x1: int, x2: int, y0: int, yt: int)
    requires RoundsToNearest(fl) && 0 <= x1 < y0 < B <= 2 * y0 && 0 <= x2 < B && y0 * F <= yt < FV
    ensures Covers(FloorOfSum(fl, x1, x2 + 16, yt), x1, x2, yt)
  {
    var t := F * (x1 * B + x2 + 16);
    DigitsAllow(x1, x2, y0, yt);
    SumOfNear(fl, x1, x2 + 16, yt, t);
    var s := SumOf(fl, x1, x2 + 16, yt);
    SumAtMost(s, t, yt);
    RoundedSum(fl, s);
    SumAtLeast(s, x1 * B + x2, yt, fl(s).Floor + 1, t);
  }

  lemma LeadingBitsRange(ys: seq<int>)
    requires Divisor(ys)
    ensures ys[|ys| - 1] * F <= LeadingBits(ys) < FV
  {
  }

  /** What the division asks of an estimate for these digits. */
  ghost predicate Accepted(xs: seq<int>, ys: seq<int>, q: int) {
    0 <= q <= B && V(xs) < (q + 1) * V(ys)
  }

  lemma EstimateAccepted(xs: seq<int>, ys: seq<int>, q: int)
    requires Divisor(ys) && |xs| == |ys| + 1 && AllWords(xs) && V(xs) < B * V(ys)
    requires xs[|xs| - 1] == ys[|ys| - 1] ==> q == B - 1
    requires xs[|xs| - 1] < ys[|ys| - 1] ==> Covers(q, xs[|xs| - 1], xs[|xs| - 2], LeadingBits(ys))
    ensures Accepted(xs, ys, q)
  {
    LeadingDigits(xs, ys);
    LeadingBitsBelow(ys);
    if xs[|xs| - 1] != ys[|ys| - 1] {
      EstimateArith(V(xs), V(ys), xs[|xs| - 1] * B + xs[|xs| - 2], P(|ys| - 1), LeadingBits(ys), q);
    }
  }

  lemma EstimateCases(fl: real -> real, xs: seq<int>, ys: seq<int>, x1: int, x2: int, y0: int, yt: int)
    requires |xs| == |ys| + 1 && |ys| > 0 && x1 == xs[|xs| - 1] && x2 == xs[|xs| - 2] && y0 == ys[|ys| - 1]
    requires yt == LeadingBits(ys) != 0
    ensures DoubleEstimate(fl, xs, ys) == if x1 == y0 then B - 1 else FloorOfSum(fl, x1, x2 + 16, yt)
  {
  }

  lemma EstimateWithin(fl: real -> real, xs: seq<int>, ys: seq<int>)
    requires RoundsToNearest(fl) && Divisor(ys) && |xs| == |ys| + 1 && AllWords(xs) && V(xs) < B * V(ys)
    ensures Accepted(xs, ys, DoubleEstimate(fl, xs, ys))
  {
    var x1, x2, y0, yt := xs[|xs| - 1], xs[|xs| - 2], ys[|ys| - 1], LeadingBits(ys);
    LeadingBitsRange(ys);
    EstimateCases(fl, xs, ys, x1, x2, y0, yt);
    if x1 < y0 { SumWithin(fl, x1, x2, y0, yt); }
    EstimateAccepted(xs, ys, DoubleEstimate(fl, xs, ys));
  }

  /** However ties are rounded, the estimate of the code is one the division accepts. */
  lemma DoubleEstimateIsEstimate(fl: real -> real)
    requires RoundsToNearest(fl)
    ensures Estimates((xs, ys) => DoubleEstimate(fl, xs, ys))
  {
    var est := (xs, ys) => DoubleEstimate(fl, xs, ys);
    forall xs, ys | Divisor(ys) && |xs| == |ys| + 1 && AllWords(xs) && V(xs) < B * V(ys)
      ensures Accepted(xs, ys, est(xs, ys))
    {
      EstimateWithin(fl, xs, ys);
    }
  }

  // ----- The estimate is not far off

  /** The divisor is less than its leading bits and one more in place. */
  lemma {:induction false} LeadingBitsAbove(ys: seq<int>)
    requires Divisor(ys)
    ensures F * V(ys) < (LeadingBits(ys) + 1) * P(|ys| - 1)
  {
    var n := |ys|;
    if n > 1 {
      var y0, y1, q := ys[n - 1], ys[n - 2], P(n - 2);
      ValTop(B, ys[..n - 1]);
      assert V(ys) == V(ys[..n - 1]) + y0 * P(n - 1);
      AboveArith(V(ys), y0, y1, y1 / 16, q);
    } else {
      assert P(0) == 1 && ys == [ys[0]];
      ValOne(ys[0]);
    }
  }

  lemma AboveArith(v: int, y0: int, y1: int, h: int, q: int)
    requires v < (y1 + 1) * q + y0 * (B * q) && y1 + 1 <= 16 * (h + 1) && 0 < q
    ensures F * v < (y0 * F + h + 1) * (B * q)
  {
    MulMono(y1 + 1, 16 * (h + 1), q);
    assert (y0 * F + h + 1) * (B * q) == F * (y0 * (B * q)) + F * ((16 * (h + 1)) * q);
  }

  /** The dividend is at least what its two leading digits say. */
  lemma {:induction false} LeadingAtLeast(xs: seq<int>, n: nat)
    requires AllWords(xs) && |xs| == n + 1 && n > 0
    ensures (xs[n] * B + xs[n - 1]) * P(n - 1) <= V(xs) && xs[n] * (B * P(n - 1)) <= V(xs)
  {
    var p := P(n - 1);
    ValTop(B, xs[..n]);
    ValBound(B, xs[..n]);
    assert V(xs) == V(xs[..n]) + xs[n] * P(n) && P(n) == B * p;
    assert (xs[n] * B + xs[n - 1]) * p == xs[n] * (B * p) + xs[n - 1] * p;
  }

  /** If k is above the quotient, the sum is less than half above k. */
  lemma SumBelow(s: real, t: int, yt: int, lead: int, k: int)
    requires IsQuotient(s, t, yt) && t == F * (lead + 16) && FV <= 2 * yt && yt < FV
    requires F * lead < k * (yt + 1) && 0 <= k <= B
    ensures s < k as real + 0.5
  {
    var y, m := yt as real, k * yt;
    assert F * lead < m + k by { assert k * (yt + 1) == k * yt + k; }
    assert E * y <= (15 * F) as real;
    assert s * y < m as real + 0.5 * y by { assert t + 15 * F <= m + 47 * F; }
    HalfAbove(s, k, yt, m);
  }

  lemma HalfAbove(s: real, k: int, yt: int, m: int)
    requires 0 < yt && m == k * yt && s * yt as real < m as real + 0.5 * yt as real
    ensures s < k as real + 0.5
  {
    var c := k as real;
    assert m as real == c * yt as real;
    assert (c + 0.5) * yt as real == c * yt as real + 0.5 * yt as real;
    StrictlyCancelled(s, c + 0.5, yt as real);
  }

  lemma StrictlyCancelled(x: real, y: real, p: real)
    requires p > 0.0 && x * p < y * p
    ensures x < y
  {
    assert (x - y) * p == x * p - y * p;
  }

  /** What is less than half above k is not rounded to k + 1. */
  lemma RoundsDown(fl: real -> real, s: real, k: int)
    requires RoundsToNearest(fl) && 0 <= k <= B && s < k as real + 0.5
    ensures fl(s).Floor <= k
  {
    IntegerIsDouble(k);
    Nearest(fl, s, k as real);
  }

  lemma CrossBelow(x: int, y: int, lead: int, p: int, yt: int, k: int)
    requires lead * p <= x < k * y && F * y < (yt + 1) * p && 0 < p && 0 <= k
    ensures F * lead < k * (yt + 1)
  {
    MulMono(F * y, (yt + 1) * p, k);
    assert k * ((yt + 1) * p) == (k * (yt + 1)) * p && F * (lead * p) == (F * lead) * p;
    assert k * (F * y) == F * (k * y);
    if F * lead >= k * (yt + 1) {
      MulMono(k * (yt + 1), F * lead, p);
      assert false;
    }
  }

  /** With equal leading digits B - 1 is at most one too large. */
  lemma EqualDigits(x: int, y: int, y0: int, p: int)
    requires y0 * (B * p) <= x && y < (y0 + 1) * p && 0 < p && B <= 2 * y0 + 2
    ensures (B - 2) * y <= x
  {
    MulMono(y, (y0 + 1) * p, B - 2);
    assert (B - 2) * ((y0 + 1) * p) == ((B - 2) * (y0 + 1)) * p;
    MulMono((B - 2) * (y0 + 1), y0 * B, p);
    assert (y0 * B) * p == y0 * (B * p);
  }

  /** q is at most one above the quotient digit. */
  ghost predicate Close(xs: seq<int>, ys: seq<int>, q: int) {
    (q - 1) * V(ys) <= V(xs)
  }

  lemma {:induction false} EqualDigitsClose(xs: seq<int>, ys: seq<int>)
    requires Divisor(ys) && |xs| == |ys| + 1 && AllWords(xs) && xs[|xs| - 1] == ys[|ys| - 1]
    ensures Close(xs, ys, B - 1)
  {
    var n := |ys|;
    LeadingAtLeast(xs, n);
    ValTop(B, ys);
    EqualDigits(V(xs), V(ys), ys[n - 1], P(n - 1));
  }

  lemma {:induction false} SumDigitsClose(fl: real -> real, xs: seq<int>, ys: seq<int>, x1: int, x2: int, yt: int)
    requires RoundsToNearest(fl) && Divisor(ys) && |xs| == |ys| + 1 && AllWords(xs)
    requires x1 == xs[|ys|] < ys[|ys| - 1] && x2 == xs[|ys| - 1] && yt == LeadingBits(ys) != 0
    ensures Close(xs, ys, FloorOfSum(fl, x1, x2 + 16, yt))
  {
    DigitsBound(xs, ys, x1, x2, yt, P(|ys| - 1));
    SumClose(fl, x1, x2, ys[|ys| - 1], yt, V(xs), V(ys), P(|ys| - 1));
  }

  lemma {:induction false} DigitsBound(xs: seq<int>, ys: seq<int>, x1: int, x2: int, yt: int, p: int)
    requires Divisor(ys) && |xs| == |ys| + 1 && AllWords(xs) && p == P(|ys| - 1)
    requires x1 == xs[|ys|] && x2 == xs[|ys| - 1] && yt == LeadingBits(ys)
    ensures 0 <= x1 < B && 0 <= x2 < B && ys[|ys| - 1] * F <= yt < FV
    ensures (x1 * B + x2) * p <= V(xs) && F * V(ys) < (yt + 1) * p && 0 <= V(xs) && 0 <= V(ys)
  {
    LeadingBitsRange(ys);
    LeadingAtLeast(xs, |ys|);
    LeadingBitsAbove(ys);
    ValBound(B, xs);
    ValBound(B, ys);
  }

  /** The estimate of the code is the quotient digit or one more, so that at most one divisor has to be added back. */
  lemma {:induction false} EstimateClose(fl: real -> real, xs: seq<int>, ys: seq<int>)
    requires RoundsToNearest(fl) && Divisor(ys) && |xs| == |ys| + 1 && AllWords(xs) && V(xs) < B * V(ys)
    ensures Accepted(xs, ys, DoubleEstimate(fl, xs, ys)) && Close(xs, ys, DoubleEstimate(fl, xs, ys))
  {
    EstimateWithin(fl, xs, ys);
    var x1, x2, y0, yt := xs[|xs| - 1], xs[|xs| - 2], ys[|ys| - 1], LeadingBits(ys);
    LeadingBitsRange(ys);
    LeadingDigits(xs, ys);
    EstimateCases(fl, xs, ys, x1, x2, y0, yt);
    if x1 == y0 { EqualDigitsClose(xs, ys); } else { SumDigitsClose(fl, xs, ys, x1, x2, yt); }
  }

  lemma {:induction false} SumClose(fl: real -> real, x1: int, x2: int, y0: int, yt: int, x: int, y: int, p: int)
    requires RoundsToNearest(fl) && 0 <= x1 < y0 < B <= 2 * y0 && 0 <= x2 < B && y0 * F <= yt < FV
    requires (x1 * B + x2) * p <= x && F * y < (yt + 1) * p && 0 < p && 0 <= x && 0 <= y
    ensures (FloorOfSum(fl, x1, x2 + 16, yt) - 1) * y <= x
  {
    SumWithin(fl, x1, x2, y0, yt);
    var k := FloorOfSum(fl, x1, x2 + 16, yt) - 1;
    if k >= 0 && k * y > x { TooLarge(fl, x1, x2, y0, yt, x, y, p, k); }
    if k < 0 { MulMono(k, 0, y); }
  }

  lemma {:induction false} TooLarge(fl: real -> real, x1: int, x2: int, y0: int, yt: int, x: int, y: int, p: int,
      k: int)
    requires RoundsToNearest(fl) && 0 <= x1 < y0 < B <= 2 * y0 && 0 <= x2 < B && y0 * F <= yt < FV
    requires (x1 * B + x2) * p <= x < k * y && F * y < (yt + 1) * p && 0 < p && 0 <= k <= B
    ensures FloorOfSum(fl, x1, x2 + 16, yt) <= k
  {
    CrossBelow(x, y, x1 * B + x2, p, yt, k);
    SumNotAbove(fl, x1, x2, y0, yt, k);
  }

  lemma {:induction false} SumNotAbove(fl: real -> real, x1: int, x2: int, y0: int, yt: int, k: int)
    requires RoundsToNearest(fl) && 0 <= x1 < y0 < B <= 2 * y0 && 0 <= x2 < B && y0 * F <= yt < FV
    requires F * (x1 * B + x2) < k * (yt + 1) && 0 <= k <= B
    ensures FloorOfSum(fl, x1, x2 + 16, yt) <= k
  {
    var lead, t := x1 * B + x2, F * (x1 * B + x2 + 16);
    DigitsAllow(x1, x2, y0, yt);
    SumOfNear(fl, x1, x2 + 16, yt, t);
    var s := SumOf(fl, x1, x2 + 16, yt);
    SumBelow(s, t, yt, lead, k);
    RoundsDown(fl, s, k);
  }
}
