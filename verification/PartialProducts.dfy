/**
 benchmarks/crypto.js:1026-1054: products that keep only the lower or only the upper
 digits. The upper one leaves out the partial products below digit n - 1, so its
 result may be too small; by how much is part of its contract.
 */
module PartialProducts {
  import opened Digits
  import opened BignumMath
  import opened Bignum
  import opened Division

  /** r stands for x*a without the digits below n: never too large, and short by less than n. */
  ghost predicate UpperProduct(r: int, xa: int, n: nat) {
    P(n) * r <= xa < P(n) * (r + n)
  }

  /** After the rows below i: x*a[..i] == u*B^k + dropped, with less than B^(k+1) dropped per row below k. */
  ghost predicate UpperEq(u: int, x: int, a: int, i: nat, k: nat, dropped: int) {
    x * a == P(k) * u + dropped && 0 <= dropped <= (if i < k then i else k) * P(k + 1)
  }

  lemma UpperStart(x: seq<int>, a: seq<int>, i: nat, k: nat)
    requires AllWords(x) && AllWords(a) && i <= |a| && (i > 0 ==> |x| + i <= k)
    ensures UpperEq(0, V(x), V(a[..i]), i, k, V(x) * V(a[..i]))
  {
    ValBound(B, x);
    ValBound(B, a[..i]);
    ProductBelow(V(x), V(a[..i]), P(|x|), P(i));
    if i > 0 {
      PowAdd(B, |x|, i);
      PowMonotone(B, |x| + i, k + 1);
      ScaleUp(P(k + 1), i);
      assert P(k + 1) * i == i * P(k + 1);
    } else {
      assert a[..0] == [];
    }
  }

  lemma ProductBelow(x: int, a: int, p: int, q: int)
    requires 0 <= x < p && 0 <= a < q
    ensures 0 <= x * a <= p * q
  {
    MulMono(0, x, a);
    MulMono(x, p, a);
    MulMono(a, q, p);
  }

  /** One row: the digits of x from k - i up are added, those below are dropped. */
  lemma UpperRow(u: int, x: seq<int>, a: seq<int>, i: nat, k: nat, dropped: int)
    requires AllWords(x) && AllWords(a) && i < |a| && i <= k <= |x| + i
    requires UpperEq(u, V(x), V(a[..i]), i, k, dropped)
    ensures UpperEq(u + a[i] * V(x[k - i..]), V(x), V(a[..i + 1]), i + 1, k, dropped + a[i] * P(i) * V(x[..k - i]))
  {
    var lo, hi, d := V(x[..k - i]), V(x[k - i..]), a[i];
    ValSplit(B, x, k - i);
    ValBound(B, x[..k - i]);
    SliceSnoc(a, 0, i);
    ValSnoc(B, a[..i], d);
    PowAdd(B, i, k - i);
    if i == k { assert x[..0] == []; }
    UpperRowArith(u, lo, hi, V(a[..i]), d, P(i), P(k - i), dropped, V(x), P(k), P(k + 1), V(a[..i + 1]), i, k);
  }

  lemma UpperRowArith(u: int, lo: int, hi: int, a: int, d: int, p: int, q: int, dropped: int, x: int, pk: int,
      pk1: int, a': int, i: nat, k: nat)
    requires x == lo + q * hi && x * a == pk * u + dropped && pk == p * q && pk1 == B * pk && a' == a + d * p && i <= k
    requires 0 <= dropped <= (if i < k then i else k) * pk1 && 0 <= d < B && 0 < p && 0 <= lo < q
      && (i == k ==> lo == 0)
    ensures x * a' == pk * (u + d * hi) + (dropped + d * p * lo)
    ensures 0 <= dropped + d * p * lo <= (if i + 1 < k then i + 1 else k) * pk1
  {
    RowArith2(u, lo, hi, a, d, p, q, dropped, x);
    DroppedRow(d, p, lo, q);
    assert (i + 1) * pk1 == i * pk1 + pk1;
  }

  lemma RowArith2(u: int, lo: int, hi: int, a: int, d: int, p: int, q: int, dropped: int, x: int)
    requires x == lo + q * hi && x * a == (p * q) * u + dropped
    ensures x * (a + d * p) == (p * q) * (u + d * hi) + (dropped + d * p * lo)
  {
    assert x * (a + d * p) == x * a + (lo + q * hi) * (d * p);
    assert (lo + q * hi) * (d * p) == d * p * lo + (p * q) * (d * hi);
    assert (p * q) * (u + d * hi) == (p * q) * u + (p * q) * (d * hi);
  }

  lemma DroppedRow(d: int, p: int, lo: int, q: int)
    requires 0 <= d < B && 0 < p && 0 <= lo < q
    ensures 0 <= d * p * lo <= B * (p * q)
  {
    MulMono(0, d, p);
    MulMono(d, B, p);
    MulMono(0, d * p, lo);
    MulMono(d * p, B * p, lo);
    MulMono(lo, q, B * p);
    assert (B * p) * lo == lo * (B * p) && q * (B * p) == B * (p * q);
  }

  /** Dropping one more digit at the end. */
  lemma UpperDone(u: int, x: int, a: int, i: nat, k: nat, dropped: int, r: int, e: int)
    requires UpperEq(u, x, a, i, k, dropped) && u == e + P(1) * r && 0 <= e < P(1)
    ensures UpperProduct(r, x * a, k + 1)
  {
    var p := P(k);
    assert P(1) == B * P(0) == B;
    MulMono(0, e, p);
    MulMono(e, B - 1, p);
    assert (B - 1) * p == B * p - p;
    assert p * (r * B + e) == (B * p) * r + e * p;
    MulMono(if i < k then i else k, k, P(k + 1));
    assert (B * p) * (r + (k + 1)) == (B * p) * r + k * (B * p) + B * p;
  }

  /** Row i of an upper product: adds a_i*x[k-i..] at digit 0 and stores the carry above. */
  method UpperRowTo(x: BigInteger, a: BigInteger, i: nat, k: nat, r: BigInteger, ghost dropped: int)
    returns (ghost dropped': int)
    requires NonNegative(x) && NonNegative(a) && r != x && r != a && i < a.t && i <= k <= x.t + i
    requires var n := x.t + i - k; WordsIn(r.words, 0, n)
    requires UpperEq(V(r.words[..x.t + i - k]), x.Value(), V(a.words[..i]), i, k, dropped)
    modifies r`words
    ensures WordsIn(r.words, 0, x.t + i + 1 - k)
    ensures UpperEq(V(r.words[..x.t + i + 1 - k]), x.Value(), V(a.words[..i + 1]), i + 1, k, dropped')
  {
    var n := x.t + i - k;
    ghost var r0, xs, as_ := r.words[..n], x.words[..x.t], a.words[..a.t];
    var c := x.AmAdd(k - i, a.words[i], r, 0, 0, n, n);
    ghost var r1 := r.words;
    assert x.words[k - i..k - i + n] == xs[k - i..];
    assert as_[..i] == a.words[..i] && as_[..i + 1] == a.words[..i + 1];
    UpperRow(V(r0), xs, as_, i, k, dropped);
    dropped' := dropped + a.words[i] * P(i) * V(xs[..k - i]);
    r.words := Put(r.words, n, c);
    assert r.words[..n + 1] == r1[..n] + [c];
    CarryStored(r1[..n], c, r0, a.words[i], xs[k - i..]);
  }

  /** The carry of a row that starts at digit 0, stored above it. */
  lemma CarryStored(r1: seq<int>, c: int, r0: seq<int>, d: int, xs: seq<int>)
    requires Accumulated(r1, c, |r1|, r0, 0, d, xs, 0)
    ensures V(r1 + [c]) == V(r0) + d * V(xs)
  {
    ValSnoc(B, r1, c);
    assert P(0) == 1;
  }

  /** All rows of an upper product. */
  method UpperRows(x: BigInteger, a: BigInteger, k: nat, r: BigInteger, len: nat) returns (ghost dropped: int)
    requires NonNegative(x) && NonNegative(a) && r != x && r != a && a.t <= k + 1
    requires len == (if x.t + a.t >= k then x.t + a.t - k else 0)
    requires len <= |r.words| && forall l :: 0 <= l < len ==> r.words[l] == 0
    modifies r`words
    ensures WordsIn(r.words, 0, len) && UpperEq(V(r.words[..len]), x.Value(), V(a.words[..a.t]), a.t, k, dropped)
  {
    var i := if k > x.t then k - x.t else 0;
    ghost var i' := if i < a.t then i else a.t;
    UpperStart(x.words[..x.t], a.words[..a.t], i', k);
    assert a.words[..a.t][..i'] == a.words[..i'];
    dropped := x.Value() * V(a.words[..i']);
    ghost var n := if i < a.t then x.t + i - k else len;
    ValZeros(B, r.words[..n]);
    if i < a.t { dropped := UpperRowsFrom(x, a, i, k, r, dropped); }
  }

  method UpperRowsFrom(x: BigInteger, a: BigInteger, i0: nat, k: nat, r: BigInteger, ghost dropped0: int)
    returns (ghost dropped: int)
    requires NonNegative(x) && NonNegative(a) && r != x && r != a && i0 < a.t <= k + 1 && k <= x.t + i0
    requires WordsIn(r.words, 0, x.t + i0 - k)
    requires UpperEq(V(r.words[..x.t + i0 - k]), x.Value(), V(a.words[..i0]), i0, k, dropped0)
    modifies r`words
    ensures WordsIn(r.words, 0, x.t + a.t - k)
    ensures UpperEq(V(r.words[..x.t + a.t - k]), x.Value(), V(a.words[..a.t]), a.t, k, dropped)
  {
    var i := i0;
    dropped := dropped0;
    while i < a.t
      invariant i0 <= i <= a.t && WordsIn(r.words, 0, x.t + i - k)
      invariant UpperEq(V(r.words[..x.t + i - k]), x.Value(), V(a.words[..i]), i, k, dropped)
    {
      dropped := UpperRowTo(x, a, i, k, r, dropped);
      i := i + 1;
    }
  }

  /** r = x*a without its lower n words, n > 0, for x, a >= 0 and a of at most n digits. */
  method MultiplyUpperTo(x: BigInteger, a: BigInteger, n: nat, r: BigInteger)
    requires NonNegative(x) && NonNegative(a) && r != x && r != a && 0 < n && a.t <= n
    modifies r
    ensures NonNegative(r) && UpperProduct(r.Value(), x.Value() * a.Value(), n)
  {
    var k := n - 1;
    var len := if x.t + a.t >= k then x.t + a.t - k else 0;
    r.ZeroTo(len);
    r.s, r.t := 0, len;
    ghost var dropped := UpperRows(x, a, k, r, len);
    ghost var u := V(r.words[..len]);
    assert r.Value() == u;
    r.Clamp();
    r.Positive();
    ghost var e := r.DropDigits(1, r);
    UpperDone(u, x.Value(), a.Value(), a.t, k, dropped, r.Value(), e);
  }

  /** r == x*a up to a multiple of B^n. */
  ghost predicate LowerEq(r: int, x: int, a: int, n: nat, k: int) {
    x * a == r + P(n) * k
  }

  /** Adding a full row x*d at digit i. */
  lemma LowerFull(r: int, x: int, a: int, n: nat, k: int, d: int, i: nat)
    requires LowerEq(r, x, a, n, k)
    ensures LowerEq(r + P(i) * (d * x + 0), x, a + d * P(i), n, k)
  {
    RowArith(x, a, d, P(i));
  }

  /** Adding only the digits of a row that stay below B^n. */
  lemma LowerCut(r: int, r': int, x: seq<int>, a: int, n: nat, k: int, d: int, i: nat, c: int)
    requires i <= n <= |x| + i && LowerEq(r, V(x), a, n, k)
    requires r' + c * P(n) == r + P(i) * (d * V(x[..n - i]) + 0)
    ensures LowerEq(r', V(x), a + d * P(i), n, k + c + d * V(x[n - i..]))
  {
    ValSplit(B, x, n - i);
    PowAdd(B, i, n - i);
    CutArith(V(x), a, d, P(i), P(n - i), V(x[..n - i]), V(x[n - i..]), r, r', k, c);
  }

  lemma CutArith(x: int, a: int, d: int, p: int, q: int, lo: int, hi: int, r: int, r': int, k: int, c: int)
    requires x == lo + q * hi && x * a == r + (p * q) * k && r' + c * (p * q) == r + p * (d * lo + 0)
    ensures x * (a + d * p) == r' + (p * q) * (k + c + d * hi)
  {
    assert x * (a + d * p) == x * a + (lo + q * hi) * (d * p);
    assert (lo + q * hi) * (d * p) == p * (d * lo) + (p * q) * (d * hi);
    assert (p * q) * (k + c + d * hi) == (p * q) * k + c * (p * q) + (p * q) * (d * hi);
  }

  /** Row i of a lower product that still fits: like a full product's row, over zeros. */
  method LowerRowTo(x: BigInteger, a: BigInteger, i: nat, r: BigInteger, n: nat, ghost k: int)
    requires NonNegative(x) && NonNegative(a) && r != x && r != a && i < a.t && x.t + i < n
    requires WordsIn(r.words, 0, n) && forall l :: x.t + i <= l < n ==> r.words[l] == 0
    requires LowerEq(V(r.words[..n]), x.Value(), V(a.words[..i]), n, k)
    modifies r`words
    ensures WordsIn(r.words, 0, n) && forall l :: x.t + i + 1 <= l < n ==> r.words[l] == 0
    ensures LowerEq(V(r.words[..n]), x.Value(), V(a.words[..i + 1]), n, k)
  {
    ghost var r0 := r.words;
    var c := x.AmAdd(0, a.words[i], r, i, 0, x.t, n);
    ghost var r1 := r.words;
    assert x.words[0..0 + x.t] == x.words[..x.t];
    LowerFull(V(r0[..n]), x.Value(), V(a.words[..i]), n, k, a.words[i], i);
    SliceSnoc(a.words, 0, i);
    ValSnoc(B, a.words[..i], a.words[i]);
    Bump(r1, i + x.t, c, n);
    r.words := r.words[i + x.t := c];
  }

  /** Row i of a lower product, cut off at digit n. */
  method LowerCutTo(x: BigInteger, a: BigInteger, i: nat, r: BigInteger, n: nat, ghost k: int) returns (ghost k': int)
    requires NonNegative(x) && NonNegative(a) && r != x && r != a && i < a.t && i <= n <= x.t + i
    requires WordsIn(r.words, 0, n) && LowerEq(V(r.words[..n]), x.Value(), V(a.words[..i]), n, k)
    modifies r`words
    ensures WordsIn(r.words, 0, n) && LowerEq(V(r.words[..n]), x.Value(), V(a.words[..i + 1]), n, k')
  {
    ghost var r0, xs := r.words, x.words[..x.t];
    var c := x.AmAdd(0, a.words[i], r, i, 0, n - i, n);
    assert x.words[0..0 + (n - i)] == xs[..n - i];
    LowerCut(V(r0[..n]), V(r.words[..n]), xs, V(a.words[..i]), n, k, a.words[i], i, c);
    k' := k + c + a.words[i] * V(xs[n - i..]);
    SliceSnoc(a.words, 0, i);
    ValSnoc(B, a.words[..i], a.words[i]);
  }

  /** All rows of a lower product. */
  method LowerRows(x: BigInteger, a: BigInteger, n: nat, r: BigInteger, len: nat) returns (ghost k: int)
    requires NonNegative(x) && NonNegative(a) && r != x && r != a && a.t <= n
    requires len == (if x.t + a.t < n then x.t + a.t else n)
    requires len <= |r.words| && forall l :: 0 <= l < len ==> r.words[l] == 0
    modifies r`words
    ensures WordsIn(r.words, 0, len) && LowerEq(V(r.words[..len]), x.Value(), V(a.words[..a.t]), len, k)
  {
    k := 0;
    ValZeros(B, r.words[..len]);
    var i, j := 0, len - x.t;
    while i < j
      invariant 0 <= i && (i <= j || i == 0) && WordsIn(r.words, 0, len) && len <= |r.words|
      invariant forall l :: x.t + i <= l < len ==> r.words[l] == 0
      invariant LowerEq(V(r.words[..len]), x.Value(), V(a.words[..i]), len, k)
    {
      LowerRowTo(x, a, i, r, len, k);
      i := i + 1;
    }
    j := if a.t < n then a.t else n;
    while i < j
      invariant i <= j && (i < j ==> len == n <= x.t + i) && WordsIn(r.words, 0, len)
      invariant LowerEq(V(r.words[..len]), x.Value(), V(a.words[..i]), len, k)
    {
      k := LowerCutTo(x, a, i, r, len, k);
      i := i + 1;
    }
  }

  lemma LowerDone(v: int, xs: seq<int>, as_: seq<int>, len: nat, n: nat, k: int)
    requires AllWords(xs) && AllWords(as_) && len == (if |xs| + |as_| < n then |xs| + |as_| else n)
    requires 0 <= v < P(len) && LowerEq(v, V(xs), V(as_), len, k)
    ensures v == (V(xs) * V(as_)) % P(n)
  {
    var xa := V(xs) * V(as_);
    DivModUnique(xa, P(len), k, v);
    if len < n {
      ValBound(B, xs);
      ValBound(B, as_);
      PowAdd(B, |xs|, |as_|);
      StrictlyBelow(V(xs), V(as_), P(|xs|), P(|as_|));
      PowMonotone(B, len, n);
      SmallMod(xa, P(len), P(n));
    }
  }

  lemma SmallMod(x: int, p: int, q: int)
    requires 0 <= x < p <= q
    ensures x % p == x == x % q
  {
    DivModUnique(x, p, 0, x);
    DivModUnique(x, q, 0, x);
  }

  lemma StrictlyBelow(x: int, a: int, p: int, q: int)
    requires 0 <= x < p && 0 <= a < q
    ensures 0 <= x * a < p * q
  {
    MulRange(x, a, p, q);
    assert (p - 1) * (q - 1) == p * q - p - q + 1;
  }

  /** r = the lower n words of x*a, for x, a >= 0 and a of at most n digits. */
  method MultiplyLowerTo(x: BigInteger, a: BigInteger, n: nat, r: BigInteger)
    requires NonNegative(x) && NonNegative(a) && r != x && r != a && a.t <= n
    modifies r
    ensures NonNegative(r) && r.Value() == (x.Value() * a.Value()) % P(n)
  {
    var len := if x.t + a.t < n then x.t + a.t else n;
    ghost var product := (x.Value() * a.Value()) % P(n);
    r.ZeroTo(len);
    r.s, r.t := 0, len;
    ghost var k := LowerRows(x, a, n, r, len);
    ghost var v := V(r.words[..len]);
    ValBound(B, r.words[..len]);
    LowerDone(v, x.words[..x.t], a.words[..a.t], len, n, k);
    assert r.Value() == v == product;
    r.Clamp();
    r.Positive();
  }
}
