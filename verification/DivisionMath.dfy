/**
 The number theory of the in-place long division of benchmarks/crypto.js:452-502:
 while digit k is being produced, the working number is

   L + B^k * (g*C + X) + B^(k+ys+1) * Q

 where X are the ys + 1 digits being divided, Y the divisor, C = B^ys - Y its
 complement, g the digit tried, L the digits not reached yet and Q the finished digits.
 */
module DivisionMath {
  import opened Digits
  import opened BignumMath
  import opened NumberBits

  /** A normalised divisor: its top digit has the top bit set. */
  ghost predicate Divisor(ys: seq<int>) {
    AllWords(ys) && |ys| > 0 && 2 * ys[|ys| - 1] >= B
  }

  /** Every way to estimate a quotient digit from the digits of the remainder and of the divisor. */
  type Estimate = est: (seq<int>, seq<int>) -> int | Estimates(est) witness HighestEstimate

  function HighestEstimate(xs: seq<int>, ys: seq<int>): (q: int)
    ensures Divisor(ys) && V(xs) < B * V(ys) ==> q == B && V(xs) < (q + 1) * V(ys)
  {
    assert Divisor(ys) ==> V(ys) > 0 by { if Divisor(ys) { DivisorRange(ys); } }
    B
  }

  /** What est may return: at least the true quotient digit, at most B. */
  ghost predicate Estimates(est: (seq<int>, seq<int>) -> int) {
    forall xs, ys :: Divisor(ys) && |xs| == |ys| + 1 && AllWords(xs) && V(xs) < B * V(ys) ==>
      && 0 <= est(xs, ys) <= B
      && V(xs) < (est(xs, ys) + 1) * V(ys)
  }

  /** rs holds, below digit j + ys, a remainder and, from there up, the quotient found so far. */
  ghost predicate DivInv(rs: seq<int>, j: nat, ys: nat, y: int, total: int) {
    && j + ys <= |rs|
    && V(rs[..j + ys]) < y * P(j)
    && V(rs[..j + ys]) + y * P(j) * V(rs[j + ys..]) == total
  }

  ghost predicate Trial(w: int, k: nat, ys: nat, x: int, lo: int, q: int, c: int, g: int) {
    w == lo + P(k) * (g * c + x) + P(k + ys + 1) * q
  }

  /** The numbers in play when digit k of an n-digit working number is produced. */
  ghost predicate Window(n: nat, k: nat, ys: nat, x: int, lo: int, q: int, y: int, c: int) {
    && 0 <= lo < P(k) && 0 <= x < B * y && 0 <= q && 0 < y < P(ys) && c == P(ys) - y
    && k + ys < n && P(n - 1) <= lo + P(k) * x + P(k + ys + 1) * q
  }

  lemma OpenWindow(rs: seq<int>, k: nat, ys: nat, y: int, total: int)
    requires AllWords(rs) && k + ys < |rs| && rs[|rs| - 1] != 0 && DivInv(rs, k + 1, ys, y, total) && 0 < y < P(ys)
    ensures var x, lo, q := V(rs[k..k + ys + 1]), V(rs[..k]), V(rs[k + ys + 1..]);
      && Window(|rs|, k, ys, x, lo, q, y, P(ys) - y)
      && Trial(V(rs), k, ys, x, lo, q, P(ys) - y, 0)
      && lo + P(k) * x + y * (B * P(k)) * q == total
  {
    WindowParts(rs, k, ys);
    assert (k + 1) + ys == k + ys + 1;
    WindowBelow(V(rs[..k]), P(k), V(rs[k..k + ys + 1]), y);
    NormalRange(rs, 0);
  }

  lemma WindowParts(rs: seq<int>, k: nat, ys: nat)
    requires AllWords(rs) && k + ys < |rs|
    ensures var x, lo, q := V(rs[k..k + ys + 1]), V(rs[..k]), V(rs[k + ys + 1..]);
      && 0 <= x && 0 <= lo < P(k) && 0 <= q
      && V(rs) == lo + P(k) * x + P(k + ys + 1) * q
      && V(rs[..k + ys + 1]) == lo + P(k) * x
  {
    assert rs[..|rs|] == rs;
    ThreeParts(rs, k, ys + 1, |rs|);
    assert rs[k + ys + 1..|rs|] == rs[k + ys + 1..];
    assert rs[..k + ys + 1] == rs[..k] + rs[k..k + ys + 1];
    ValConcat(B, rs[..k], rs[k..k + ys + 1]);
    ValBound(B, rs[..k]);
    ValBound(B, rs[k..k + ys + 1]);
    ValBound(B, rs[k + ys + 1..]);
  }

  lemma WindowBelow(lo: int, p: int, x: int, y: int)
    requires 0 <= lo && 0 < p && lo + p * x < y * (B * p)
    ensures x < B * y
  {
    assert y * (B * p) == (B * y) * p;
    if x >= B * y {
      MulMono(B * y, x, p);
      assert false;
    }
  }

  /** The digits being divided stay below B^(ys+1) for every trial digit that is not too small. */
  lemma TrialRange(n: nat, k: nat, ys: nat, x: int, lo: int, q: int, y: int, c: int, g: int)
    requires Window(n, k, ys, x, lo, q, y, c) && 0 <= g <= B && x < (g + 1) * y
    ensures 0 <= g * c + x < B * P(ys)
    ensures g * c + x == g * P(ys) + (x - g * y)
    ensures 0 <= lo + P(k) * (g * c + x) < P(k + ys + 1)
  {
    TrialArith(x, y, P(ys), g);
    PowAdd(B, k, ys + 1);
    TrialPlace(lo, P(k), g * c + x, P(ys + 1));
  }

  lemma TrialPlace(lo: int, p: int, z: int, u: int)
    requires 0 <= lo < p && 0 <= z < u
    ensures 0 <= lo + p * z < p * u
  {
    MulMono(0, z, p);
    MulMono(z, u - 1, p);
    assert (u - 1) * p == p * u - p;
  }

  lemma TrialArith(x: int, y: int, p: int, g: int)
    requires 0 <= x < B * y && 0 < y < p && 0 <= g <= B && x < (g + 1) * y
    ensures 0 <= g * (p - y) + x < B * p && g * (p - y) + x == g * p + (x - g * y)
  {
    assert g * (p - y) == g * p - g * y;
    assert (g + 1) * y == g * y + y;
    MulMono(0, g, p - y);
    if g < B {
      MulMono(g + 1, B, p);
      assert (g + 1) * p == g * p + p;
    }
  }

  /** Reading the trial back from the digits: digit k + ys tells whether g was too large. */
  lemma ReadTrial(rs: seq<int>, n: nat, k: nat, ys: nat, x: int, lo: int, q: int, y: int, c: int, g: int)
    requires AllWords(rs) && |rs| == n && Window(n, k, ys, x, lo, q, y, c)
    requires 0 <= g <= B && x < (g + 1) * y && Trial(V(rs), k, ys, x, lo, q, c, g)
    ensures V(rs[k + ys + 1..]) == q && V(rs[..k + ys + 1]) == lo + P(k) * (g * c + x)
    ensures rs[k + ys] < g <==> x < g * y
    ensures x >= g * y ==> rs[k + ys] == g && V(rs[..k + ys]) == lo + P(k) * (x - g * y)
  {
    var i, p, z := k + ys, P(k + ys), g * c + x;
    TrialRange(n, k, ys, x, lo, q, y, c, g);
    ValSplit(B, rs, i + 1);
    ValBound(B, rs[..i + 1]);
    SplitUnique(V(rs[..i + 1]), V(rs[i + 1..]), lo + P(k) * z, q, P(i + 1));
    SliceSnoc(rs, 0, i);
    ValSnoc(B, rs[..i], rs[i]);
    ValBound(B, rs[..i]);
    PowAdd(B, k, ys);
    ReadDigit(V(rs[..i]), rs[i], lo, P(k), P(ys), x - g * y, g);
  }

  lemma ReadDigit(v: int, d: int, lo: int, p: int, q: int, e: int, g: int)
    requires 0 <= v < p * q && 0 <= lo < p && 0 < q && e < q
    requires v + d * (p * q) == lo + p * (g * q + e)
    ensures d < g <==> e < 0
    ensures e >= 0 ==> d == g && v == lo + p * e
  {
    var m := p * q;
    assert p * (g * q + e) == g * m + p * e;
    if e >= 0 {
      MulMono(0, e, p);
      MulMono(e, q - 1, p);
      assert (q - 1) * p == m - p;
      SplitUnique(v, d, lo + p * e, g, m);
    } else {
      MulMono(e, -1, p);
      if d >= g {
        MulMono(g, d, m);
        assert false;
      }
    }
  }

  /** Once g is the true digit the window closes and the invariant holds one digit lower. */
  lemma CloseWindow(rs: seq<int>, n: nat, k: nat, ys: nat, x: int, lo: int, q: int, y: int, c: int, g: int, total: int)
    requires AllWords(rs) && |rs| == n && Window(n, k, ys, x, lo, q, y, c)
    requires 0 <= g <= B && g * y <= x < (g + 1) * y && Trial(V(rs), k, ys, x, lo, q, c, g)
    requires lo + P(k) * x + y * (B * P(k)) * q == total
    ensures DivInv(rs, k, ys, y, total)
  {
    ReadTrial(rs, n, k, ys, x, lo, q, y, c, g);
    LowDigit(rs, k + ys);
    RemainderBelow(lo, P(k), x - g * y, y, x, g);
    CloseArith(lo, P(k), x, g, y, q, total);
  }

  lemma RemainderBelow(lo: int, p: int, e: int, y: int, x: int, g: int)
    requires 0 <= lo < p && e == x - g * y && x < (g + 1) * y
    ensures lo + p * e < y * p
  {
    assert (g + 1) * y == g * y + y;
    MulMono(e, y - 1, p);
    assert (y - 1) * p == y * p - p;
  }

  lemma CloseArith(lo: int, p: int, x: int, g: int, y: int, q: int, total: int)
    requires lo + p * x + y * (B * p) * q == total
    ensures lo + p * (x - g * y) + y * p * (g + B * q) == total
  {
    assert p * (x - g * y) == p * x - p * (g * y);
    assert y * p * (g + B * q) == y * p * g + y * p * (B * q);
    assert y * p * g == p * (g * y);
    assert y * p * (B * q) == y * (B * p) * q;
  }

  lemma TrialDown(w: int, n: nat, k: nat, ys: nat, x: int, lo: int, q: int, y: int, c: int, g: int)
    requires Window(n, k, ys, x, lo, q, y, c) && Trial(w, k, ys, x, lo, q, c, g) && 0 < g
    ensures Trial(w - P(k) * c, k, ys, x, lo, q, c, g - 1)
    ensures P(n - 1) <= w - P(k) * c <= w
  {
    var p := P(k);
    assert p * (g * c + x) - p * c == p * ((g - 1) * c + x);
    assert p * ((g - 1) * c + x) == p * x + p * ((g - 1) * c);
    MulMono(0, g - 1, c);
    MulMono(0, (g - 1) * c, p);
    MulMono(0, c, p);
  }

  /** The length of a positive number is fixed by the powers it lies between. */
  lemma NormalLength(w: seq<int>, n: nat)
    requires AllWords(w) && (|w| > 0 ==> w[|w| - 1] != 0) && n > 0 && P(n - 1) <= V(w) < P(n)
    ensures |w| == n
  {
    NormalRange(w, 0);
    if |w| > n {
      PowMonotone(B, n, |w| - 1);
      assert false;
    }
    if |w| < n {
      PowMonotone(B, |w|, n - 1);
      assert false;
    }
  }

  lemma TrialUp(w0: int, w: int, k: nat, ys: nat, x: int, lo: int, q: int, c: int, g: int)
    requires Trial(w0, k, ys, x, lo, q, c, 0) && w == w0 + P(k) * (g * c + 0)
    ensures Trial(w, k, ys, x, lo, q, c, g)
    ensures 0 <= g && 0 <= c ==> w0 <= w
  {
    assert P(k) * (g * c + x) == P(k) * (g * c) + P(k) * x;
    if 0 <= g && 0 <= c {
      MulMono(0, g, c);
      MulMono(0, g * c, P(k));
    }
  }

  /** The digit that received the carry is still a digit. */
  lemma TrialDigits(r: seq<int>, n: nat, k: nat, ys: nat, x: int, lo: int, q: int, y: int, c: int, g: int)
    requires Window(n, k, ys, x, lo, q, y, c) && 0 <= g <= B && x < (g + 1) * y && k + ys < n <= |r|
    requires Trial(V(r[..n]), k, ys, x, lo, q, c, g) && q == V(r[k + ys + 1..n])
    requires WordsIn(r, 0, k + ys)
    ensures r[k + ys] < B
  {
    TrialRange(n, k, ys, x, lo, q, y, c, g);
    ValSplit(B, r[..n], k + ys + 1);
    assert r[..n][..k + ys + 1] == r[..k + ys + 1] && r[..n][k + ys + 1..] == r[k + ys + 1..n];
    TopBelow(r, k + ys + 1);
  }

  /** A number of the same length that is no smaller still has a non-zero top digit. */
  lemma StaysFull(a: seq<int>, a': seq<int>)
    requires AllWords(a) && AllWords(a') && |a| == |a'| > 0 && a[|a| - 1] != 0 && V(a) <= V(a')
    ensures a'[|a| - 1] != 0
  {
    NormalRange(a, 0);
    ValTop(B, a');
  }

  lemma DivisorRange(ys: seq<int>)
    requires Divisor(ys)
    ensures 0 < V(ys) < P(|ys|)
  {
    ValBound(B, ys);
    ValTop(B, ys);
    MulMono(1, ys[|ys| - 1], P(|ys| - 1));
  }

  /** The top digit of m needs 28 - b more bits. */
  lemma TopBits(ms: seq<int>, b: nat)
    requires AllWords(ms) && |ms| > 0 && ms[|ms| - 1] != 0 && BitSize(ms[|ms| - 1], b)
    ensures 0 < b <= DB
  {
    if b > DB {
      PowMonotone(2, DB, b - 1);
      TwoTo28();
      assert false;
    }
  }

  lemma ShiftBySmall(x: int, n: nat)
    requires n < DB
    ensures n % DB == n && n / DB == 0 && x * (Pow(2, n % DB) * P(n / DB)) == Pow(2, n) * x
  {
    assert P(0) == 1;
  }

  /** Shifting by 28 - b bits keeps the length and sets the top bit. */
  lemma NormalisedDivisor(ms: seq<int>, ys: seq<int>, b: nat)
    requires AllWords(ms) && |ms| > 0 && BitSize(ms[|ms| - 1], b) && b <= DB
    requires AllWords(ys) && (|ys| > 0 ==> ys[|ys| - 1] != 0) && V(ys) == Pow(2, DB - b) * V(ms)
    ensures |ys| == |ms| && Divisor(ys)
  {
    var d, p, u := ms[|ms| - 1], P(|ms| - 1), Pow(2, DB - b);
    ValTop(B, ms);
    PowAdd(2, b, DB - b);
    PowAdd(2, b - 1, DB - b);
    TwoTo28();
    NormalisedArith(V(ms), d, p, u, Pow(2, b - 1));
    assert p <= (B / 2) * p by { MulMono(1, B / 2, p); }
    NormalLength(ys, |ms|);
    ValTop(B, ys);
    if 2 * ys[|ys| - 1] < B {
      MulMono(ys[|ys| - 1] + 1, B / 2, p);
      assert false;
    }
  }

  lemma NormalisedArith(v: int, d: int, p: int, u: int, h: int)
    requires d * p <= v < (d + 1) * p && h <= d < 2 * h && 2 * (h * u) == B && 0 < u && 0 < p
    ensures (B / 2) * p <= u * v < B * p
  {
    MulMono(h, d, p);
    MulMono(d + 1, 2 * h, p);
    MulMono(h * p, v, u);
    MulMono(v + 1, 2 * h * p, u);
    assert (h * p) * u == (h * u) * p;
    assert (2 * h * p) * u == (2 * (h * u)) * p;
  }

  lemma NotShorter(xs: seq<int>, rs: seq<int>, n: nat)
    requires AllWords(xs) && AllWords(rs) && (|xs| > 0 ==> xs[|xs| - 1] != 0) && V(rs) == Pow(2, n) * V(xs)
    ensures |xs| <= |rs|
  {
    ValBound(B, xs);
    ScaleUp(V(xs), Pow(2, n));
    assert V(xs) <= V(rs);
    ValBound(B, rs);
    if |rs| < |xs| {
      NormalRange(xs, 0);
      PowMonotone(B, |rs|, |xs| - 1);
      assert false;
    }
  }

  lemma ShorterThan(ws: seq<int>, n: nat)
    requires AllWords(ws) && (|ws| > 0 ==> ws[|ws| - 1] != 0) && V(ws) < P(n)
    ensures |ws| <= n
  {
    if |ws| > n {
      NormalRange(ws, 0);
      PowMonotone(B, n, |ws| - 1);
      assert false;
    }
  }

  /** rs < 2*ys*B^j, so at most one leading 1 comes off. */
  lemma LeadingOne(rs: seq<int>, ys: seq<int>, j: nat)
    requires AllWords(rs) && Divisor(ys) && |rs| == |ys| + j && P(j) * V(ys) <= V(rs)
    ensures P(|rs|) <= V(rs) + 1 * P(|rs|) - P(j) * V(ys) < P(|rs| + 1)
    ensures V(rs) - P(j) * V(ys) < V(ys) * P(j)
  {
    ValBound(B, rs);
    ValTop(B, ys);
    HalfArith(V(ys), ys[|ys| - 1], P(|ys| - 1));
    PowAdd(B, j, |ys|);
    LeadingArith(P(|ys|), V(ys), P(j));
  }

  lemma HalfArith(v: int, d: int, p: int)
    requires d * p <= v && B <= 2 * d && 0 < p
    ensures B * p <= 2 * v
  {
    MulMono(B, 2 * d, p);
    assert (2 * d) * p == 2 * (d * p);
  }

  lemma LeadingArith(p: int, v: int, q: int)
    requires p <= 2 * v && 0 < q
    ensures q * p <= 2 * (q * v) && q * v == v * q
  {
    MulMono(p, 2 * v, q);
    assert (2 * v) * q == 2 * (q * v);
  }

  lemma LeadingDone(ws: seq<int>, ys: seq<int>, j: nat, total: int)
    requires AllWords(ws) && |ws| == |ys| + j + 1 && 0 <= total - P(j) * V(ys) < V(ys) * P(j) && V(ys) < P(|ys|)
    requires V(ws) == total + 1 * P(|ys| + j) - P(j) * V(ys)
    ensures DivInv(ws, j, |ys|, V(ys), total)
  {
    var n, rem := |ys| + j, total - P(j) * V(ys);
    ValSplit(B, ws, n);
    ValBound(B, ws[..n]);
    PowAdd(B, j, |ys|);
    MulMono(V(ys), P(|ys|), P(j));
    SplitUnique(V(ws[..n]), V(ws[n..]), rem, 1, P(n));
    assert j + |ys| == n;
    assert V(ys) * P(j) * 1 == P(j) * V(ys);
  }

  /** Dividing u*x by u*m leaves u times the remainder. */
  lemma DivResult(r: int, q: int, u: int, x: int, m: int)
    requires 0 <= r < u * m * P(0) && r + u * m * P(0) * q == u * x && 0 < u && 0 < m
    ensures q == x / m && r == u * (x % m)
  {
    assert P(0) == 1;
    var e := x - m * q;
    assert r == u * e by { assert u * (x - m * q) == u * x - u * m * q; }
    if e < 0 {
      MulMono(e, -1, u);
      assert false;
    }
    if e >= m {
      MulMono(m, e, u);
      assert false;
    }
    DivModUnique(x, m, q, e);
  }

  lemma FloorExact(u: int, e: int, q: int)
    requires 0 < u && IsFloor(u * e, P(0) * u, q)
    ensures q == e
  {
    assert P(0) == 1;
    if q > e {
      MulMono(e + 1, q, u);
      assert false;
    }
    if q < e {
      MulMono(q + 1, e, u);
      assert false;
    }
  }

  lemma SmallDividend(x: int, m: int)
    requires 0 <= x < m
    ensures x / m == 0 && x % m == x
  {
    DivModUnique(x, m, 0, x);
  }
}
