/** benchmarks/crypto.js:1056-1095: the Barrett reducer. */
module BarrettReducer {
  import opened Digits
  import opened BignumMath
  import opened DivisionMath
  import opened Bignum
  import opened Division
  import opened PartialProducts

  /** What mu == floor(B^2k / m) and the shifted dividend are short by. */
  ghost predicate BarrettSetup(m: int, mu: int, f: int, k: nat) {
    k > 0 && P(k - 1) <= m < P(k) && mu * m == P(2 * k) - f && 0 <= f < m && 0 <= mu
  }

  /**
   The estimated quotient never exceeds the true one, and the remainder it leaves is
   below (k + 3)*m, hence below B^(k+1) for every length the digits allow.
   */
  lemma BarrettEstimate(x: int, m: int, mu: int, f: int, k: nat, a: int, g: int, q: int)
    requires BarrettSetup(m, mu, f, k) && 0 <= x < P(2 * k) && 0 <= q && 0 <= a
    requires x == g + P(k - 1) * a && 0 <= g < P(k - 1)
    requires UpperProduct(q, mu * a, k + 1)
    ensures 0 <= x - q * m < (k + 3) * m
  {
    var n, u, l, c := P(2 * k), P(k + 1), P(k - 1), k + 1;
    var e := mu * a - u * q;
    assert (k + 1) + (k - 1) == 2 * k;
    PowAdd(B, k + 1, k - 1);
    Shortfall(u, q, c, mu * a, m);
    BarrettArith(n, u, l, x, m, mu, f, a, g, q, e, c);
  }

  lemma Shortfall(u: int, q: int, c: int, product: int, m: int)
    requires u * q <= product < u * (q + c)
    ensures 0 <= product - u * q < u * c && (c + 2) * m == m + m + c * m
  {
    assert u * (q + c) == u * q + u * c;
  }

  lemma BarrettArith(n: int, u: int, l: int, x: int, m: int, mu: int, f: int, a: int, g: int, q: int, e: int, c: int)
    requires n == u * l && 0 < u && 0 < l && 0 < m && 0 <= c
    requires mu * m == n - f && 0 <= f < m && f <= n && x == g + l * a && 0 <= g < l && 0 <= a && 0 <= x < n
    requires mu * a == u * q + e && 0 <= e < u * c && 0 <= mu
    ensures 0 <= x - q * m < l + m + c * m
  {
    BarrettIdentity(n, u, l, x, m, mu, f, a, g, q, e);
    BarrettBounds(n, u, l, m, f, a, g, e, c, x);
    MulMono(1, u, l);
    Squeeze(n, x - q * m, l + m + c * m);
  }

  lemma BarrettIdentity(n: int, u: int, l: int, x: int, m: int, mu: int, f: int, a: int, g: int, q: int, e: int)
    requires n == u * l && mu * m == n - f && x == g + l * a && mu * a == u * q + e
    ensures n * (x - q * m) == n * g + f * (l * a) + e * (l * m)
  {
    assert (mu * a) * (l * m) == (mu * m) * (l * a);
    assert (u * q + e) * (l * m) == (u * q) * (l * m) + e * (l * m);
    assert (u * q) * (l * m) == (u * l) * (q * m);
    assert (n - f) * (l * a) == n * (l * a) - f * (l * a);
    assert n * (g + l * a - q * m) == n * g + n * (l * a) - n * (q * m);
  }

  lemma Squeeze(n: int, d: int, s: int)
    requires 0 < n && 0 <= n * d < s * n
    ensures 0 <= d < s
  {
    if d < 0 {
      MulMono(d, -1, n);
      assert false;
    }
    if d >= s {
      MulMono(s, d, n);
      assert false;
    }
  }

  lemma BarrettBounds(n: int, u: int, l: int, m: int, f: int, a: int, g: int, e: int, c: int, x: int)
    requires n == u * l && 0 < u && 0 < l && 0 < m && 0 <= f < m && 0 <= g < l && 0 <= a && x == g + l * a < n
    requires 0 <= e < u * c && 0 <= c
    ensures 0 <= n * g + f * (l * a) + e * (l * m) < (l + m + c * m) * n
  {
    MulMono(0, l, a);
    MulMono(0, f, l * a);
    MulMono(f, m, l * a);
    MulMono(l * a, n, m);
    MulMono(0, g, n);
    MulMono(g, l - 1, n);
    MulMono(0, l, m);
    MulMono(0, e, l * m);
    MulMono(e, u * c, l * m);
    assert (u * c) * (l * m) == (c * m) * (u * l);
    assert (l - 1) * n == l * n - n;
    assert (l + m + c * m) * n == l * n + m * n + (c * m) * n;
  }

  /** x and q*m taken modulo B^(k+1) still give the true remainder once the smaller is lifted. */
  lemma BarrettWrap(x: int, qm: int, p: int, w: int, r2: int)
    requires p > 0 && 0 <= x - qm < p && w == x % p && r2 == qm % p
    ensures r2 < p && x - qm == if w < r2 then w + p - r2 else w - r2
  {
    var i, j := x / p, qm / p;
    assert x - qm == (w - r2) + p * (i - j);
    if w < r2 {
      SplitUnique(x - qm, 0, w + p - r2, i - j - 1, p);
    } else {
      SplitUnique(x - qm, 0, w - r2, i - j, p);
    }
  }

  /** k + 3 multiples of m stay below B^(k+1). */
  lemma BarrettFits(m: int, k: nat, d: int)
    requires 0 <= d < (k + 3) * m && m < P(k) && k + 4 <= B && 0 < m
    ensures d < P(k + 1)
  {
    MulMono(k + 3, B, m);
    MulMono(m, P(k), B);
  }

  /** B^n, by shifting 1. */
  method PowerOfBase(n: nat) returns (r: BigInteger)
    ensures fresh(r) && NonNegative(r) && r.Value() == P(n)
  {
    r := new BigInteger();
    var one := new BigInteger();
    one.FromInt(1);
    one.DlShiftTo(n, r);
    NormalRange(one.words[..one.t], 0);
    assert r.words[..r.t][r.t - 1] == one.words[..one.t][one.t - 1];
  }

  /** floor(B^2k / m), with the scratch number it came from. */
  method Reciprocal(m: BigInteger, est: Estimate) returns (mu: BigInteger, r2: BigInteger)
    requires NonNegative(m) && 0 < m.t
    ensures fresh(mu) && fresh(r2) && mu != r2 && NonNegative(mu)
    ensures m.Value() > 0 && BarrettSetup(m.Value(), mu.Value(), P(2 * m.t) % m.Value(), m.t)
  {
    r2 := PowerOfBase(2 * m.t);
    NormalRange(m.words[..m.t], 0);
    mu := QuotientOf(r2, m, est);
    ReciprocalSetup(m.Value(), mu.Value(), m.t);
  }

  lemma ReciprocalSetup(m: int, mu: int, k: nat)
    requires k > 0 && P(k - 1) <= m < P(k) && mu == P(2 * k) / m
    ensures BarrettSetup(m, mu, P(2 * k) % m, k)
  {
    QuotientTimes(P(2 * k), m);
    NonNegativeQuotient(P(2 * k), m);
  }

  /** x / m in a new number. */
  method QuotientOf(x: BigInteger, m: BigInteger, est: Estimate) returns (q: BigInteger)
    requires NonNegative(x) && NonNegative(m) && m.Value() > 0
    ensures fresh(q) && NonNegative(q) && q.Value() == x.Value() / m.Value()
  {
    q := new BigInteger();
    x.Positive();
    DivRemTo(x, m, q, null, est);
    NonNegativeQuotient(x.Value(), m.Value());
    q.Positive();
  }

  lemma NonNegativeQuotient(x: int, m: int)
    requires x >= 0 && m > 0
    ensures TruncQuotient(x, m) == x / m >= 0
  {
  }

  lemma QuotientTimes(n: int, m: int)
    requires m > 0
    ensures (n / m) * m == n - n % m && 0 <= n % m < m
  {
  }

  /** Keeps only the low n digits. */
  method Truncate(x: BigInteger, n: nat)
    requires NonNegative(x)
    modifies x`t
    ensures NonNegative(x) && x.Value() == old(x.Value()) % P(n)
  {
    ghost var w := x.words[..x.t];
    ValBound(B, w);
    if x.t > n {
      ValSplit(B, w, n);
      ValBound(B, w[..n]);
      DivModUnique(V(w), P(n), V(w[n..]), V(w[..n]));
      assert w[..n] == x.words[..n];
      x.t := n;
      x.Clamp();
    } else {
      PowMonotone(B, x.t, n);
      SmallMod(V(w), P(x.t), P(n));
    }
  }

  /** x = (x - r2) mod B^w, given both reduced; d is the true difference. */
  method WrapSub(x: BigInteger, r2: BigInteger, w: nat, ghost d: int)
    requires x != r2 && NonNegative(x) && NonNegative(r2) && r2.Value() < P(w)
    requires d == (if x.Value() < r2.Value() then x.Value() + P(w) - r2.Value() else x.Value() - r2.Value())
    modifies x
    ensures NonNegative(x) && x.Value() == d
  {
    x.Positive();
    var c := x.CompareTo(r2);
    while c < 0
      invariant NonNegative(x) && SameSign(c, x.Value() - r2.Value())
      invariant x.Value() == old(x.Value()) || (old(x.Value()) < r2.Value() && x.Value() == old(x.Value()) + P(w))
      decreases r2.Value() - x.Value()
    {
      x.DAddOffset(1, w);
      c := x.CompareTo(r2);
    }
    x.SubTo(r2, x);
    x.Positive();
  }

  /** Subtracts m until x is below it. */
  method SubtractDown(x: BigInteger, m: BigInteger)
    requires x != m && NonNegative(x) && NonNegative(m) && m.Value() > 0
    modifies x
    ensures NonNegative(x) && x.Value() == old(x.Value()) % m.Value()
  {
    ghost var v, mv, q := x.Value(), m.Value(), 0;
    x.Positive();
    var c := x.CompareTo(m);
    while c >= 0
      invariant NonNegative(x) && m.Value() == mv && x.Value() >= 0 && SameSign(c, x.Value() - mv)
      invariant IsMultiplePlus(v, mv, q, x.Value())
      decreases x.Value()
    {
      OneMore(v, mv, q, x.Value());
      x.SubTo(m, x);
      x.Positive();
      q := q + 1;
      c := x.CompareTo(m);
    }
    DivModUnique(v, mv, q, x.Value());
  }

  ghost predicate IsMultiplePlus(v: int, m: int, q: int, x: int) {
    v == m * q + x
  }

  lemma OneMore(v: int, m: int, q: int, x: int)
    requires IsMultiplePlus(v, m, q, x)
    ensures IsMultiplePlus(v, m, q + 1, x - m)
  {
    assert m * (q + 1) == m * q + m;
  }

  /** The two correction loops. */
  method FinishReduce(x: BigInteger, m: BigInteger, r2: BigInteger, ghost d: int)
    requires x != m && x != r2 && m != r2 && NonNegative(x) && NonNegative(r2) && r2.Value() < P(m.t + 1)
    requires NonNegative(m) && m.Value() > 0
    requires d == (if x.Value() < r2.Value() then x.Value() + P(m.t + 1) - r2.Value() else x.Value() - r2.Value())
    modifies x
    ensures NonNegative(x) && x.Value() == d % m.Value()
  {
    WrapSub(x, r2, m.t + 1, d);
    SubtractDown(x, m);
  }

  /** x = (xv - q*m) mod m from x = xv mod B^(k+1), with r2 as scratch. */
  method SubtractMultiple(x: BigInteger, m: BigInteger, q: BigInteger, r2: BigInteger, ghost xv: int)
    requires x != m && x != r2 && x != q && m != r2 && q != r2 && NonNegative(x) && NonNegative(m) && m.Value() > 0
    requires x.Value() == xv % P(m.t + 1) && NonNegative(q) && q.t <= m.t + 1
    requires 0 <= xv - q.Value() * m.Value() < P(m.t + 1)
    modifies x, r2
    ensures NonNegative(x) && x.Value() == (xv - q.Value() * m.Value()) % m.Value()
  {
    ghost var mv, qv, p := m.Value(), q.Value(), P(m.t + 1);
    ghost var qm := qv * mv;
    MultiplyLowerTo(m, q, m.t + 1, r2);
    assert r2.Value() == qm % p by { assert mv * qv == qm; }
    BarrettWrap(xv, qm, p, x.Value(), r2.Value());
    FinishReduce(x, m, r2, xv - qm);
  }

  class Barrett {
    const m: BigInteger
    const mu: BigInteger
    const r2: BigInteger
    const q3: BigInteger

    ghost predicate Valid()
      reads m, mu, r2, q3
    {
      && m != mu && m != r2 && m != q3 && mu != r2 && mu != q3 && r2 != q3
      && NonNegative(m) && NonNegative(mu) && m.t + 4 <= B
      && m.Value() > 0 && BarrettSetup(m.Value(), mu.Value(), P(2 * m.t) % m.Value(), m.t)
    }

    constructor (m: BigInteger, est: Estimate)
      requires NonNegative(m) && 0 < m.t && m.t + 4 <= B
      ensures Valid() && this.m == m && fresh(mu) && fresh(r2) && fresh(q3)
    {
      var mu, r2 := Reciprocal(m, est);
      var q3 := new BigInteger();
      this.m, this.mu, this.r2, this.q3 := m, mu, r2, q3;
    }

    /** q3 = an estimate of x/m, and x keeps only its low k + 1 digits. */
    method EstimateQuotient(x: BigInteger)
      requires Valid() && x != m && x != mu && x != r2 && x != q3
      requires NonNegative(x) && x.Value() < P(2 * m.t)
      modifies x, r2, q3
      ensures Valid() && NonNegative(x) && x.Value() == old(x.Value()) % P(m.t + 1)
      ensures NonNegative(q3) && q3.t <= m.t + 1
      ensures 0 <= old(x.Value()) - q3.Value() * m.Value() < P(m.t + 1)
    {
      ghost var xv, mv, k := x.Value(), m.Value(), m.t;
      x.Positive();
      ShorterThan(x.words[..x.t], 2 * k);
      ghost var g := x.DropDigits(m.t - 1, r2);
      r2.Positive();
      Truncate(x, m.t + 1);
      MultiplyUpperTo(mu, r2, m.t + 1, q3);
      q3.Positive();
      BarrettEstimate(xv, mv, mu.Value(), P(2 * k) % mv, k, r2.Value(), g, q3.Value());
      BarrettFits(mv, k, xv - q3.Value() * mv);
      QuotientLength(q3.words[..q3.t], q3.Value() * mv, mv, k, xv);
    }

    /** x = x mod m, in place, for x < B^2k. */
    method Reduce(x: BigInteger)
      requires Valid() && x != m && x != mu && x != r2 && x != q3
      requires NonNegative(x) && x.Value() < P(2 * m.t)
      modifies x, r2, q3
      ensures Valid() && NonNegative(x) && x.Value() == old(x.Value()) % m.Value()
    {
      ghost var xv := x.Value();
      EstimateQuotient(x);
      SameRemainder(xv, q3.Value(), m.Value());
      TakeRemainder(x, xv);
    }

    /** x = (xv - q3*m) mod m from x = xv mod B^(k+1). */
    method TakeRemainder(x: BigInteger, ghost xv: int)
      requires Valid() && x != m && x != mu && x != r2 && x != q3
      requires NonNegative(x) && x.Value() == xv % P(m.t + 1) && NonNegative(q3) && q3.t <= m.t + 1
      requires 0 <= xv - q3.Value() * m.Value() < P(m.t + 1)
      modifies x, r2
      ensures Valid() && NonNegative(x) && x.Value() == (xv - q3.Value() * m.Value()) % m.Value()
    {
      SubtractMultiple(x, m, q3, r2, xv);
    }
  }

  /** The estimated quotient has at most k + 1 digits. */
  lemma QuotientLength(qs: seq<int>, qm: int, m: int, k: nat, x: int)
    requires AllWords(qs) && (|qs| > 0 ==> qs[|qs| - 1] != 0) && k > 0 && P(k - 1) <= m
    requires qm == V(qs) * m && qm <= x < P(2 * k)
    ensures |qs| <= k + 1
  {
    ValBound(B, qs);
    PowAdd(B, k + 1, k - 1);
    if V(qs) >= P(k + 1) {
      MulMono(P(k + 1), V(qs), m);
      MulMono(P(k - 1), m, P(k + 1));
      assert false;
    }
    ShorterThan(qs, k + 1);
  }

  lemma SameRemainder(x: int, q: int, m: int)
    requires m > 0
    ensures (x - q * m) % m == x % m
  {
    DivModUnique(x - q * m, m, x / m - q, x % m);
  }
}
