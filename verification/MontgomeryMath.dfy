/** Congruences behind Montgomery reduction (benchmarks/crypto.js:529-600). */
module MontgomeryMath {
  import opened Digits
  import opened BignumMath
  import opened DivisionMath

  /** a and b leave the same remainder. */
  ghost predicate Congruent(a: int, b: int, m: int) {
    m > 0 && a % m == b % m
  }

  lemma CongruentIf(a: int, b: int, m: int, k: int)
    requires m > 0 && a == b + m * k
    ensures Congruent(a, b, m)
  {
    DivModUnique(a, m, b / m + k, b % m);
  }

  lemma CongruentBy(a: int, b: int, m: int) returns (k: int)
    requires Congruent(a, b, m)
    ensures a == b + m * k
  {
    k := a / m - b / m;
    assert m * k == m * (a / m) - m * (b / m);
  }

  /** One Newton step squares the modulus: y' == y*(2 - x*y) modulo n, which divides n0^2. */
  lemma Newton(x: int, y: int, n0: int, k: int, n: int, f: int, y': int, e: int) returns (k': int)
    requires x * y == 1 + n0 * k && n0 * n0 == n * f && y' == y * (2 - x * y) + n * e
    ensures x * y' == 1 + n * k'
  {
    k' := x * e - k * k * f;
    var z := x * y;
    assert x * (y * (2 - z)) == z * (2 - z);
    assert (1 + n0 * k) * (1 - n0 * k) == 1 - (n0 * n0) * (k * k);
    assert (n * f) * (k * k) == n * (k * k * f);
    assert x * (y * (2 - z) + n * e) == x * (y * (2 - z)) + n * (x * e);
    assert n * (x * e - k * k * f) == n * (x * e) - n * (k * k * f);
  }

  /** The first approximation: an odd number is its own inverse modulo 4. */
  lemma OddInverse4(x: int) returns (k: int)
    requires x % 2 == 1
    ensures x * (x % 4) == 1 + 4 * k
  {
    var y, q := x % 4, x / 4;
    k := if y == 1 then q else 3 * q + 2;
    assert x == 4 * q + y;
  }

  /** Newton with x*y and the result each reduced by some multiple of n. */
  lemma NewtonReduced(x: int, y: int, n0: int, k: int, n: int, f: int, p: int, i: int, j: int, y': int)
      returns (k': int)
    requires x * y == 1 + n0 * k && n0 * n0 == n * f && p == x * y - n * i && y' == y * (2 - p) - n * j
    ensures x * y' == 1 + n * k'
  {
    assert y * (2 - (x * y - n * i)) == y * (2 - x * y) + n * (i * y);
    assert n * (i * y - j) == n * (i * y) - n * j;
    k' := Newton(x, y, n0, k, n, f, y', i * y - j);
  }

  /** Masking a factor before multiplying takes a multiple of n off the product. */
  lemma MaskedFactor(x: int, y: int, n: int)
    requires n > 0
    ensures (x % n) * y == x * y - n * ((x / n) * y)
  {
    assert x % n == x - n * (x / n);
    assert (x - n * (x / n)) * y == x * y - n * ((x / n) * y);
  }

  /** The negated inverse, moved into 1..B-1. */
  lemma NegInverse(x: int, y: int, k: int, r: int)
    requires x * y == 1 + B * k && -B < y < B && r == (if y > 0 then B - y else -y)
    ensures 0 < r < B && (x * r + 1) % B == 0
  {
    assert y != 0;
    assert x * (B - y) == B * x - x * y;
    assert x * (-y) == -(x * y);
    CongruentIf(x * r + 1, 0, B, if y > 0 then x - k else -k);
  }

  /** Splitting x and mp at bit 15: the low 28 bits of the product need only three partial products. */
  lemma SplitProduct(x: int, mp: int)
    requires 0 <= x < B && 0 <= mp < B
    ensures var j, xh, mpl, mph := x % 0x8000, x / 0x8000, mp % 0x8000, mp / 0x8000;
      var mid := j * mph + xh * mpl;
      && 0 <= mid < 0x8000_0000 && 0 <= j * mpl + (mid % 0x2000) * 0x8000 < 0x8000_0000
      && (j * mpl + (mid % 0x2000) * 0x8000) % B == (x * mp) % B
  {
    var j, xh, mpl, mph := x % 0x8000, x / 0x8000, mp % 0x8000, mp / 0x8000;
    var mid := j * mph + xh * mpl;
    MulRange(j, mph, 0x8000, 0x2000);
    MulRange(xh, mpl, 0x2000, 0x8000);
    MulRange(j, mpl, 0x8000, 0x8000);
    HalfProducts(0x8000, j, xh, mpl, mph);
    assert xh * mpl + mph * j == mid;
    CongruentIf(x * mp, j * mpl + (mid % 0x2000) * 0x8000, B, mid / 0x2000 + 4 * (xh * mph));
  }

  /** The chosen multiple of m clears digit i. */
  lemma ClearsDigit(x: int, mp: int, m0: int, u: int)
    requires (m0 * mp + 1) % B == 0 && u == (x * mp) % B
    ensures (x + u * m0) % B == 0
  {
    var a, b := (m0 * mp + 1) / B, (x * mp) / B;
    assert u == x * mp - B * b && m0 * mp == B * a - 1;
    assert u * m0 == x * (m0 * mp) - B * (b * m0);
    assert x * (B * a - 1) == B * (x * a) - x;
    CongruentIf(x + u * m0, 0, B, x * a - b * m0);
  }

  /** If the sum is divisible by B, so is its lowest digit, which is then 0. */
  lemma LowDigitZero(out: seq<int>, c: int, ws: seq<int>, u: int, ds: seq<int>)
    requires AmEq(out, c, ws, u, ds, 0) && |out| > 0 && AllWords(out) && (ws[0] + u * ds[0]) % B == 0
    ensures out[0] == 0
  {
    LowDigit(out, 0);
    LowDigit(ws, 0);
    LowDigit(ds, 0);
    assert out[0..] == out && ws[0..] == ws && ds[0..] == ds;
    LowZeroArith(out[0], V(out[1..]), c, P(|out| - 1), ws[0], V(ws[1..]), u, ds[0], V(ds[1..]));
  }

  lemma LowZeroArith(o0: int, o: int, c: int, p: int, w0: int, w: int, u: int, d0: int, d: int)
    requires (o0 + B * o) + c * (B * p) == (w0 + B * w) + u * (d0 + B * d) + 0
    requires 0 <= o0 < B && (w0 + u * d0) % B == 0
    ensures o0 == 0
  {
    assert c * (B * p) == B * (c * p);
    assert u * (d0 + B * d) == u * d0 + B * (u * d);
    CongruentIf(o0, w0 + u * d0, B, w + u * d - o - c * p);
  }

  /** y*R == x + m*u reads as y == x/R modulo m. */
  lemma Reduced(y: int, r: int, x: int, m: int, u: int, y': int, k: int)
    requires 0 < m && y * r == x + m * u && y' == y - m * k
    ensures Congruent(y' * r, x, m)
  {
    assert (y - m * k) * r == y * r - m * (k * r);
    CongruentIf(y' * r, x, m, u - k * r);
  }

  lemma QuotientBelow(y: int, r: int, x: int, m: int, u: int)
    requires 0 < r && 0 < m && y * r == x + m * u && x < m * r && u < r
    ensures y < 2 * m
  {
    MulMono(u, r - 1, m);
    assert (r - 1) * m == m * r - m;
    assert (2 * m) * r == 2 * (m * r);
    if y >= 2 * m {
      MulMono(2 * m, y, r);
      assert false;
    }
  }

  /** After i steps the number is x0 plus a multiple of m, and its low i digits are zero. */
  ghost predicate MontEq(w: seq<int>, n: nat, i: nat, x0: int, m: int, u: int) {
    && i <= n <= |w| && V(w[..n]) == x0 + m * u && 0 <= u < P(i)
    && forall k :: 0 <= k < i ==> w[k] == 0
  }

  lemma MontStep(v: int, v': int, x0: int, m: int, u: int, u0: int, i: nat, t: nat) returns (u': int)
    requires v == x0 + m * u && v' == v + P(i) * (u0 * m + 0) && 0 <= u < P(i) && 0 <= u0 < B
    requires 0 <= x0 < m * P(t) && m < P(t) && i < t
    ensures v' == x0 + m * u' && 0 <= u' < P(i + 1)
    ensures v' < P(2 * t + 1)
  {
    u' := MontArith(v, v', x0, m, u, u0, P(i));
    PowMonotone(B, i + 1, t);
    PowAdd(B, t, t);
    MontRange(v', x0, m, u', P(t));
  }

  lemma MontArith(v: int, v': int, x0: int, m: int, u: int, u0: int, p: int) returns (u': int)
    requires v == x0 + m * u && v' == v + p * (u0 * m + 0) && 0 <= u < p && 0 <= u0 < B
    ensures v' == x0 + m * u' && 0 <= u' < B * p
  {
    u' := u + u0 * p;
    assert m * (u + u0 * p) == m * u + p * (u0 * m);
    MulMono(0, u0, p);
    MulMono(u0, B - 1, p);
    assert (B - 1) * p == B * p - p;
  }

  lemma MontRange(v: int, x0: int, m: int, u: int, r: int)
    requires v == x0 + m * u && x0 < m * r && u < r && 0 <= m < r
    ensures v < B * (r * r)
  {
    MulMono(u, r, m);
    MulMono(m, r, r);
    assert 0 <= r * r by { MulMono(0, r, r); }
    MulMono(2, B, r * r);
  }

  /** A full top digit would make the number too large. */
  lemma CarryStays(w: seq<int>, j: nat, n: nat)
    requires j < n <= |w| && w[j] >= B && V(w[..n]) < P(n)
    requires forall k :: 0 <= k < n && k != j ==> 0 <= w[k] < B
    ensures j + 1 < n
  {
    if j == n - 1 {
      TopBelow(w, n);
      assert false;
    }
  }

  lemma DropZeros(w: seq<int>, t: nat)
    requires AllWords(w) && t <= |w| && forall k :: 0 <= k < t ==> w[k] == 0
    ensures V(w) == V(w[t..]) * P(t) && 0 <= V(w[t..])
  {
    ValSplit(B, w, t);
    ValZeros(B, w[..t]);
    ValBound(B, w[t..]);
    OnlyHigh(V(w), V(w[..t]), P(t), V(w[t..]));
  }

  lemma OnlyHigh(v: int, low: int, p: int, high: int)
    requires v == low + p * high && low == 0
    ensures v == high * p
  {
  }

  /** A number below m*B^t has at most 2t digits. */
  lemma ProductLength(xs: seq<int>, ms: seq<int>)
    requires AllWords(xs) && AllWords(ms) && (|xs| > 0 ==> xs[|xs| - 1] != 0) && V(xs) < V(ms) * P(|ms|)
    ensures |xs| <= 2 * |ms|
  {
    ValBound(B, ms);
    PowAdd(B, |ms|, |ms|);
    MulMono(V(ms), P(|ms|), P(|ms|));
    ShorterThan(xs, 2 * |ms|);
  }
}
