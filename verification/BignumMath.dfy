/**
 Arithmetic of base-2^28 digit sequences: the facts that each digit loop of the
 big-integer code relies on, stated on sequences and plain integers.
 */
module BignumMath {
  import opened Digits
  import opened JsWord

  const DB: int := 28
  const B: int := 0x1000_0000
  const HOLE: int := -1

  ghost predicate AllWords(s: seq<int>) { IsDigits(B, s) }

  /** a[i..j] holds base-B digits. */
  ghost predicate WordsIn(a: seq<int>, i: nat, j: nat) {
    i <= j <= |a| && forall k :: i <= k < j ==> 0 <= a[k] < B
  }

  /** a and a0 differ at most inside [i, j). */
  ghost predicate SameOutside(a: seq<int>, a0: seq<int>, i: nat, j: nat) {
    |a| == |a0| && (forall k :: 0 <= k < i && k < |a| ==> a[k] == a0[k]) && (forall k :: j <= k < |a| ==> a[k] == a0[k])
  }

  /** From n on nothing has changed. */
  ghost predicate SameFrom(a: seq<int>, a0: seq<int>, n: nat) {
    |a0| <= |a| && forall k :: n <= k < |a0| ==> a[k] == a0[k]
  }

  ghost function V(s: seq<int>): int { Val(B, s) }
  ghost function P(n: nat): (p: int)
    ensures p > 0
  {
    Pow(B, n)
  }

  /** a[i] = v on a JavaScript array, which grows as needed and leaves holes below i. */
  function Put(a: seq<int>, i: nat, v: int): (r: seq<int>)
    ensures |r| == (if i < |a| then |a| else i + 1) && r[i] == v
    ensures forall k :: 0 <= k < |a| && k != i ==> r[k] == a[k]
  {
    if i < |a| then a[i := v] else a + seq(i - |a|, _ => HOLE) + [v]
  }

  /** Schoolbook product of two half-word pairs. */
  lemma HalfProducts(k: int, xl: int, xh: int, l: int, h: int)
    ensures (xh * k + xl) * (h * k + l) == (xh * h) * (k * k) + (xh * l + h * xl) * k + xl * l
  {
    var p := h * k + l;
    assert (xh * k + xl) * p == xh * k * p + xl * p;
    assert xl * p == xl * (h * k) + xl * l;
    assert xh * k * p == xh * k * (h * k) + xh * k * l;
  }

  /** Everything but the carry's bound, from the half words' product. */
  lemma Am3Carry(xx: int, ll: int, hh: int, m: int, w: int, c: int)
    requires 0 <= ll < B && 0 <= hh && 0 <= m && 0 <= w < B && 0 <= c < 3 * B
    requires xx == hh * B + m * 0x4000 + ll
    ensures var lo := ll + (m % 0x4000) * 0x4000 + w + c;
      && 0 <= lo < 6 * B
      && lo % B + (lo / B + m / 0x4000 + hh) * B == xx + w + c
  {
  }

  lemma Am3Digit(x: int, d: int, w: int, c: int)
    requires 0 <= x < 2 * B && 0 <= d < B && 0 <= w < B && 0 <= c < 3 * B
    ensures var xl, xh, l, h := x % 0x4000, x / 0x4000, d % 0x4000, d / 0x4000;
      var m := xh * l + h * xl;
      var lo := xl * l + (m % 0x4000) * 0x4000 + w + c;
      var c' := lo / B + m / 0x4000 + xh * h;
      && 0 <= m < 3 * B && 0 <= lo < 6 * B
      && lo % B + c' * B == x * d + w + c
      && 0 <= c' <= 2 * B
  {
    var xl, xh, l, h := x % 0x4000, x / 0x4000, d % 0x4000, d / 0x4000;
    var m := xh * l + h * xl;
    MulRange(xl, l, 0x4000, 0x4000);
    MulRange(xh, l, 0x8000, 0x4000);
    MulRange(h, xl, 0x4000, 0x4000);
    MulRange(xh, h, 0x8000, 0x4000);
    HalfProducts(0x4000, xl, xh, l, h);
    Am3Carry(x * d, xl * l, xh * h, m, w, c);
    MulRange(x, d, 2 * B, B);
  }

  /** The digit step of am3: new word and new carry. */
  method Am3Word(d: int, x: int, w: int, c: int) returns (w': int, c': int)
    requires 0 <= x < 2 * B && 0 <= d < B && 0 <= w < B && 0 <= c < 3 * B
    ensures 0 <= w' < B && 0 <= c' <= 2 * B && w' + c' * B == x * d + w + c
  {
    Am3Digit(x, d, w, c);
    var xl, xh := Mask(x, 0x4000), Shr(x, 0x4000);
    var l := Mask(d, 0x4000);
    var h := Shr(d, 0x4000);
    var m := xh * l + h * xl;
    l := xl * l + Shl(Mask(m, 0x4000), 0x4000) + w + c;
    c' := Shr(l, B) + Shr(m, 0x4000) + xh * h;
    w' := Mask(l, B);
  }

  lemma MulRange(x: int, y: int, m: int, n: int)
    requires 0 <= x < m && 0 <= y < n
    ensures 0 <= x * y <= (m - 1) * (n - 1)
  {
    MulMono(0, x, y);
    MulMono(x, m - 1, y);
    MulMono(y, n - 1, m - 1);
  }

  /** A top digit that only repeats the sign carries no value. */
  lemma DropSignWord(w: seq<int>, s: int)
    requires |w| > 0 && (s == 0 || s == -1) && w[|w| - 1] == (if s == 0 then 0 else B - 1)
    ensures V(w) + s * P(|w|) == V(w[..|w| - 1]) + s * P(|w| - 1)
  {
    var p := P(|w| - 1);
    assert P(|w|) == B * p;
    assert s == 0 ==> s * P(|w|) == 0 && w[|w| - 1] * p == 0;
  }

  lemma WordsShifted(a: seq<int>, w: seq<int>, n: nat, t: nat, s: int, v: int)
    requires t + n <= |a| && WordsIn(w, 0, t)
    requires forall k :: n <= k < t + n ==> a[k] == w[k - n]
    requires forall k :: 0 <= k < n ==> a[k] == 0
    ensures WordsIn(a, 0, t + n) && a[..t + n] == Zeros(n) + w[..t]
    requires v == V(w[..t]) + s * P(t)
    ensures V(a[..t + n]) + s * P(t + n) == P(n) * v
  {
    ShiftedValue(w[..t], n, s);
    forall k | n <= k < t + n ensures 0 <= a[k] < B {
      assert a[k] == w[k - n];
    }
  }

  function Signed(minus: bool, v: int): int {
    if minus then -v else v
  }

  ghost predicate SameSign(r: int, d: int) {
    (r > 0 <==> d > 0) && (r < 0 <==> d < 0)
  }

  /** Without a redundant top digit the length bounds the value from both sides. */
  lemma NormalRange(w: seq<int>, s: int)
    requires AllWords(w) && (s == 0 || s == -1)
    requires |w| > 0 ==> w[|w| - 1] != (if s == 0 then 0 else B - 1)
    ensures var x := V(w) + s * P(|w|);
      if s == 0 then 0 <= x < P(|w|) && (|w| > 0 ==> P(|w| - 1) <= x)
      else -P(|w|) <= x < 0 && (|w| > 0 ==> x < -P(|w| - 1))
  {
    ValBound(B, w);
    if |w| > 0 {
      var d, p := w[|w| - 1], P(|w| - 1);
      ValTop(B, w);
      if s == 0 {
        MulMono(1, d, p);
      } else {
        MulMono(d + 1, B - 1, p);
        assert (B - 1) * p == B * p - p;
      }
    }
  }

  /** Equal above position i and smaller there means smaller. */
  lemma ValCompare(x: seq<int>, y: seq<int>, i: nat)
    requires |x| == |y| && i < |x| && AllWords(x) && AllWords(y) && x[i] < y[i]
    requires forall k :: i < k < |x| ==> x[k] == y[k]
    ensures V(x) < V(y)
  {
    ValSplit(B, x, i + 1);
    ValSplit(B, y, i + 1);
    assert x[i + 1..] == y[i + 1..];
    ValTop(B, x[..i + 1]);
    ValTop(B, y[..i + 1]);
    MulMono(x[i] + 1, y[i], P(i));
  }

  /** The digits produced so far plus the pending carry amount to x. */
  ghost predicate CarryEq(out: seq<int>, c: int, x: int) {
    V(out) + c * P(|out|) == x
  }

  /** Emitting the low digit of c + d and keeping the rest as carry. */
  lemma PushWord(a: seq<int>, i: nat, c: int, d: int, x: int)
    requires i <= |a| && CarryEq(a[..i], c, x)
    ensures var a' := Put(a, i, (c + d) % B);
      a'[..i + 1] == a[..i] + [(c + d) % B] && CarryEq(a'[..i + 1], (c + d) / B, x + d * P(i))
  {
    var v, p := c + d, P(i);
    assert Put(a, i, v % B)[..i + 1] == a[..i] + [v % B];
    ValSnoc(B, a[..i], v % B);
    CarrySplit(v, p);
    assert v * p == c * p + d * p;
  }

  lemma NegMul(x: int, p: int)
    ensures (-x) * p == -(x * p)
  {
  }

  lemma CarrySplit(v: int, p: int)
    ensures (v % B) * p + (v / B) * (B * p) == v * p
  {
    assert (v % B) * p + (v / B) * (B * p) == (v % B + (v / B) * B) * p;
  }

  lemma SubWord(r: seq<int>, i: nat, c: int, w: seq<int>, a: seq<int>)
    requires i <= |r| && i < |w| && i < |a| && CarryEq(r[..i], c, V(w[..i]) - V(a[..i]))
    ensures var v := c + w[i] - a[i];
      CarryEq(Put(r, i, v % B)[..i + 1], v / B, V(w[..i + 1]) - V(a[..i + 1]))
  {
    var p := P(i);
    PushWord(r, i, c, w[i] - a[i], V(w[..i]) - V(a[..i]));
    SliceSnoc(w, 0, i);
    SliceSnoc(a, 0, i);
    ValSnoc(B, w[..i], w[i]);
    ValSnoc(B, a[..i], a[i]);
    assert (w[i] - a[i]) * p == w[i] * p - a[i] * p;
  }

  lemma TailWord(r: seq<int>, i: nat, c: int, o: seq<int>, minus: bool, x: int)
    requires i <= |r| && i < |o| && CarryEq(r[..i], c, x + Signed(minus, V(o[..i])))
    ensures var v := c + Signed(minus, o[i]);
      CarryEq(Put(r, i, v % B)[..i + 1], v / B, x + Signed(minus, V(o[..i + 1])))
  {
    var p := P(i);
    PushWord(r, i, c, Signed(minus, o[i]), x + Signed(minus, V(o[..i])));
    SliceSnoc(o, 0, i);
    ValSnoc(B, o[..i], o[i]);
    NegMul(o[i], p);
  }

  /** The operands' signs enter the carry at the first digit they lack. */
  lemma AddSign(out: seq<int>, c: int, s: int, x: int)
    requires CarryEq(out, c, x)
    ensures CarryEq(out, c + s, x + s * P(|out|)) && CarryEq(out, c - s, x - s * P(|out|))
  {
    var p := P(|out|);
    assert (c + s) * p == c * p + s * p && (c - s) * p == c * p - s * p;
  }

  /** A last carry of -2..1 becomes a sign and at most one more digit. */
  lemma FinishSub(a: seq<int>, i: nat, c: int, x: int)
    requires i <= |a| && -2 <= c <= 1 && CarryEq(a[..i], c, x)
    ensures c == -2 ==> V(Put(a, i, B + c)[..i + 1]) - P(i + 1) == x
    ensures c == 1 ==> V(Put(a, i, c)[..i + 1]) == x
    ensures -1 <= c <= 0 ==> V(a[..i]) + c * P(i) == x
  {
    if c == -2 || c == 1 {
      var d := if c == 1 then 1 else B - 2;
      assert Put(a, i, d)[..i + 1] == a[..i] + [d];
      ValSnoc(B, a[..i], d);
      assert (B - 2) * P(i) == P(i + 1) - 2 * P(i);
    }
  }

  /** The final carry never exceeds the multiplier. */
  lemma AmCarry(out: seq<int>, c: int, ws: seq<int>, x: int, ds: seq<int>, c0: int)
    requires AmEq(out, c, ws, x, ds, c0) && AllWords(out) && AllWords(ws) && AllWords(ds) && 0 <= c0 <= x
    ensures c <= x
  {
    ValBound(B, out);
    ValBound(B, ws);
    ValBound(B, ds);
    CarryBound(V(out), c, P(|out|), V(ws), x, V(ds), c0);
  }

  lemma CarryBound(out: int, c: int, p: int, w: int, x: int, d: int, c0: int)
    requires 0 <= out && 0 < p && w < p && d < p && 0 <= c0 <= x && out + c * p == w + x * d + c0
    ensures c <= x
  {
    MulMono(d, p - 1, x);
    assert x * (p - 1) == x * p - x;
    if c > x {
      MulMono(x + 1, c, p);
      assert false;
    }
  }

  /** out, with carry c pending at digit k, is w plus (x*ds + c0)*B^j. */
  ghost predicate Accumulated(out: seq<int>, c: int, k: nat, w: seq<int>, j: nat, x: int, ds: seq<int>, c0: int) {
    V(out) + c * P(k) == V(w) + P(j) * (x * V(ds) + c0)
  }

  /** am on digits j..j+n of a longer number adds (x*ds + c0)*B^j, up to the carry it returns. */
  lemma AmPlace(a: seq<int>, a0: seq<int>, j: nat, n: nat, m: nat, c: int, x: int, ds: seq<int>, c0: int)
    requires j + n <= m <= |a| && SameOutside(a, a0, j, j + n)
    requires AmEq(a[j..j + n], c, a0[j..j + n], x, ds, c0)
    ensures Accumulated(a[..m], c, j + n, a0[..m], j, x, ds, c0)
  {
    ThreeParts(a, j, n, m);
    ThreeParts(a0, j, n, m);
    assert a[..j] == a0[..j] && a[j + n..m] == a0[j + n..m];
    PowAdd(B, j, n);
    PlaceArith(P(j), P(n), V(a[j..j + n]), c, V(a0[j..j + n]), x * V(ds) + c0);
  }

  lemma PlaceArith(p: int, q: int, v: int, c: int, v0: int, y: int)
    requires v + c * q == v0 + y
    ensures p * v + c * (p * q) == p * v0 + p * y
  {
    assert p * v + c * (p * q) == p * (v + c * q);
    assert p * (v0 + y) == p * v0 + p * y;
  }

  lemma ThreeParts(a: seq<int>, j: nat, n: nat, m: nat)
    requires j + n <= m <= |a|
    ensures V(a[..m]) == V(a[..j]) + P(j) * V(a[j..j + n]) + P(j + n) * V(a[j + n..m])
  {
    assert a[..m] == a[..j + n] + a[j + n..m];
    ValConcat(B, a[..j + n], a[j + n..m]);
    assert a[..j + n] == a[..j] + a[j..j + n];
    ValConcat(B, a[..j], a[j..j + n]);
  }

  ghost predicate IsProduct(r: seq<int>, xs: seq<int>, ys: seq<int>) {
    V(r) == V(xs) * V(ys)
  }

  /** One row of the schoolbook product. */
  lemma MulRow(r0: seq<int>, r1: seq<int>, c: int, k: nat, xs: seq<int>, ys: seq<int>, i: nat)
    requires i < |ys| && k <= |r1| && IsProduct(r0, xs, ys[..i])
    requires Accumulated(r1[..k], c, k, r0, i, ys[i], xs, 0)
    ensures IsProduct(Put(r1, k, c)[..k + 1], xs, ys[..i + 1])
  {
    assert Put(r1, k, c)[..k + 1] == r1[..k] + [c];
    ValSnoc(B, r1[..k], c);
    SliceSnoc(ys, 0, i);
    ValSnoc(B, ys[..i], ys[i]);
    RowArith(V(xs), V(ys[..i]), ys[i], P(i));
  }

  lemma RowArith(x: int, y: int, d: int, p: int)
    ensures x * (y + d * p) == x * y + p * (d * x + 0)
  {
    assert x * (d * p) == p * (d * x);
    assert x * (y + d * p) == x * y + x * (d * p);
  }

  lemma SignProduct(x: int, y: int, x': int, y': int)
    requires (x' == x || x' == -x) && (y' == y || y' == -y)
    ensures (x' == x && y' == y) || (x' == -x && y' == -y) ==> x' * y' == x * y
    ensures (x' == x && y' == -y) || (x' == -x && y' == y) ==> -(x' * y') == x * y
  {
    NegMul(x, y);
    NegMul(y, x);
    NegMul(x, -y);
  }

  /** What is still missing from the square after i rows is the square of the digits from i up. */
  ghost predicate SquareEq(v: int, xs: seq<int>, i: nat) {
    i <= |xs| && v + P(2 * i) * (V(xs[i..]) * V(xs[i..])) == V(xs) * V(xs)
  }

  /** The digit the next row's carry goes to is at most 1, and everything above it is still zero. */
  ghost predicate SquareTop(r: seq<int>, k: nat, n: nat) {
    n <= |r| && (k < n ==> 0 <= r[k] <= 1) && forall l :: k < l < n ==> r[l] == 0
  }

  lemma Bump(a: seq<int>, k: nat, d: int, m: nat)
    requires k < m <= |a|
    ensures V(a[k := a[k] + d][..m]) == V(a[..m]) + d * P(k)
  {
    var a' := a[k := a[k] + d];
    OneDigit(a, k, m);
    OneDigit(a', k, m);
    assert a'[..k] == a[..k] && a'[k + 1..m] == a[k + 1..m];
    assert (a[k] + d) * P(k) == a[k] * P(k) + d * P(k);
  }

  lemma OneDigit(a: seq<int>, k: nat, m: nat)
    requires k < m <= |a|
    ensures V(a[..m]) == V(a[..k]) + a[k] * P(k) + P(k + 1) * V(a[k + 1..m])
  {
    assert a[..m] == a[..k + 1] + a[k + 1..m];
    ValConcat(B, a[..k + 1], a[k + 1..m]);
    SliceSnoc(a, 0, k);
    ValSnoc(B, a[..k], a[k]);
  }

  /** Moving B at digit j to one more at digit j + 1. */
  lemma CarryUp(w: seq<int>, j: nat, n: nat)
    requires j + 1 < n <= |w|
    ensures var w1 := w[j := w[j] - B]; V(w1[j + 1 := w1[j + 1] + 1][..n]) == V(w[..n])
  {
    Bump(w, j, -B, n);
    Bump(w[j := w[j] - B], j + 1, 1, n);
  }

  lemma TopDigit(w: seq<int>, n: nat)
    requires 0 < n <= |w| && w[n - 1] >= B && forall k :: 0 <= k < n - 1 ==> 0 <= w[k] < B
    ensures P(n) <= V(w[..n])
  {
    SliceSnoc(w, 0, n - 1);
    ValSnoc(B, w[..n - 1], w[n - 1]);
    ValBound(B, w[..n - 1]);
    MulMono(B, w[n - 1], P(n - 1));
  }

  lemma SquareStep(r0: seq<int>, r1: seq<int>, r2: seq<int>, xs: seq<int>, i: nat, c: int, c': int, k: nat)
    requires i + 1 < |xs| && SquareEq(V(r0), xs, i)
    requires Accumulated(r1, c, 2 * i + 1, r0, 2 * i, xs[i], [xs[i]], 0)
    requires Accumulated(r2, c', k, r1, 2 * i + 1, 2 * xs[i], xs[i + 1..], c)
    ensures SquareEq(V(r2) + c' * P(k), xs, i + 1)
  {
    LowDigit(xs, i);
    ValOne(xs[i]);
    SquareArith(P(2 * i), V(r0), V(r1), V(r2) + c' * P(k), c, xs[i], V(xs[i + 1..]));
  }

  lemma ValOne(d: int)
    ensures V([d]) == d
  {
    assert [d] == [] + [d];
    ValSnoc(B, [], d);
  }

  lemma LowDigit(xs: seq<int>, i: nat)
    requires i < |xs|
    ensures V(xs[i..]) == xs[i] + B * V(xs[i + 1..])
  {
    assert xs[i..] == [xs[i]] + xs[i + 1..];
    ValConcat(B, [xs[i]], xs[i + 1..]);
  }

  lemma SquareArith(p: int, v0: int, v1: int, v: int, c: int, x: int, y: int)
    requires v1 + c * (B * p) == v0 + p * (x * x + 0)
    requires v == v1 + (B * p) * (2 * x * y + c)
    ensures v + (B * (B * p)) * (y * y) == v0 + p * ((x + B * y) * (x + B * y))
  {
    assert (B * p) * (2 * x * y + c) == 2 * B * (p * (x * y)) + c * (B * p);
    assert p * ((x + B * y) * (x + B * y)) == p * (x * x) + 2 * B * (p * (x * y)) + (B * (B * p)) * (y * y);
  }

  lemma SquareLast(r0: seq<int>, r: seq<int>, xs: seq<int>, c: int, n: nat)
    requires |xs| > 0 && AllWords(xs) && SquareEq(V(r0), xs, |xs| - 1)
    requires n == 2 * |xs| && WordsIn(r, 0, n) && 0 <= c
    requires Accumulated(r[..n], c, n - 1, r0, n - 2, xs[|xs| - 1], [xs[|xs| - 1]], 0)
    ensures var r' := r[n - 1 := r[n - 1] + c];
      V(r'[..n]) == V(xs) * V(xs) && r'[n - 1] < B
  {
    var d := xs[|xs| - 1];
    assert xs[|xs| - 1..] == [d];
    ValOne(d);
    Bump(r, n - 1, c, n);
    var r' := r[n - 1 := r[n - 1] + c];
    assert V(r'[..n]) == V(xs) * V(xs);
    SquareBelow(xs);
    TopBelow(r', n);
  }

  lemma SquareBelow(xs: seq<int>)
    requires AllWords(xs)
    ensures V(xs) * V(xs) < P(2 * |xs|)
  {
    var v, p := V(xs), P(|xs|);
    ValBound(B, xs);
    PowAdd(B, |xs|, |xs|);
    MulRange(v, v, p, p);
    assert (p - 1) * (p - 1) == p * p - 2 * p + 1;
  }

  /** A number below B^n cannot have a top digit of B or more. */
  lemma TopBelow(a: seq<int>, n: nat)
    requires 0 < n && WordsIn(a, 0, n - 1) && n <= |a| && V(a[..n]) < P(n)
    ensures a[n - 1] < B
  {
    SliceSnoc(a, 0, n - 1);
    ValSnoc(B, a[..n - 1], a[n - 1]);
    ValBound(B, a[..n - 1]);
    if a[n - 1] >= B {
      MulMono(B, a[n - 1], P(n - 1));
      assert false;
    }
  }

  /** Splitting a digit at bit 28 - k: the two units multiply to the base. */
  lemma HalfWords(k: nat)
    requires k <= DB
    ensures Pow(2, k) * Pow(2, DB - k) == B && Pow(2, k) <= B && Pow(2, DB - k) <= B
  {
    PowAdd(2, k, DB - k);
    TwoTo28();
    ScaleUp(Pow(2, k), Pow(2, DB - k));
    ScaleUp(Pow(2, DB - k), Pow(2, k));
  }

  lemma TwoTo28()
    ensures Pow(2, DB) == B
  {
    assert Pow(2, 7) == 128;
    PowAdd(2, 7, 7);
    PowAdd(2, 14, 14);
  }

  /** B^t as a power of two. */
  lemma {:induction false} BaseIsTwos(t: nat)
    ensures P(t) == Pow(2, DB * t)
  {
    if t > 0 {
      BaseIsTwos(t - 1);
      PowAdd(2, DB, DB * (t - 1));
      TwoTo28();
    }
  }

  /** hi, with c still to be written below it, is u*xs under an incoming c0. */
  ghost predicate LShiftEq(hi: seq<int>, c: int, xs: seq<int>, u: int, c0: int) {
    V(hi) * B + c == u * V(xs) + c0 * P(|xs|)
  }

  lemma LShiftSign(s: int, u: int, v: int)
    requires (s == 0 || s == -1) && 0 < u <= B && u * v == B
    ensures var c := (s * u) % B; 0 <= c <= B - u && c % u == 0 && c == s * u - s * B
  {
    if s == -1 {
      assert (B - u) == u * (v - 1);
      ModMultiple(v - 1, u);
      assert (-u) % B == B - u;
    }
  }

  lemma ModMultiple(k: int, u: int)
    requires u > 0
    ensures (u * k) % u == 0
  {
    DivModUnique(u * k, u, k, 0);
  }

  /** Quotient and remainder are determined by their defining equation. */
  lemma DivModUnique(a: int, d: int, q: int, r: int)
    requires d > 0 && a == d * q + r && 0 <= r < d
    ensures a / d == q && a % d == r
  {
    var e := a / d - q;
    assert d * e == r - a % d;
    if e >= 1 {
      MulMono(1, e, d);
      assert false;
    }
    if e <= -1 {
      MulMono(e, -1, d);
      assert false;
    }
  }

  lemma LShiftWord(hi: seq<int>, c: int, xs: seq<int>, u: int, c0: int, d: int, e: int, c': int)
    requires LShiftEq(hi, c, xs, u, c0) && (e - c) * B + c' == u * d
    ensures LShiftEq([e] + hi, c', [d] + xs, u, c0)
  {
    ValConcat(B, [e], hi);
    ValConcat(B, [d], xs);
    ValOne(e);
    ValOne(d);
    LShiftArith(V(hi), c, V(xs), u, c0, P(|xs|), d, e, c');
  }

  lemma DigitHalves(d: int, u: int, v: int)
    requires 0 < u && 0 < v && u * v == B && 0 <= d < B
    ensures 0 <= d / v < u && (d / v) * B + (d % v) * u == u * d && 0 <= (d % v) * u <= B - u
  {
    var k, l := d / v, d % v;
    assert d == v * k + l;
    if k >= u {
      MulMono(u, k, v);
      assert false;
    }
    assert k * (u * v) + l * u == u * (v * k + l);
    MulMono(l, v - 1, u);
    assert (v - 1) * u == B - u;
    MulMono(0, l, u);
  }

  lemma LShiftArith(h: int, c: int, x: int, u: int, c0: int, p: int, d: int, e: int, c': int)
    requires h * B + c == u * x + c0 * p && (e - c) * B + c' == u * d
    ensures (e + B * h) * B + c' == u * (d + B * x) + c0 * (B * p)
  {
    assert (e + B * h) * B + c' == u * d + B * (h * B + c);
    assert u * (d + B * x) == u * d + B * (u * x);
    assert c0 * (B * p) == B * (c0 * p);
  }

  lemma LShiftDone(hi: seq<int>, c: int, xs: seq<int>, u: int, c0: int, ds: nat, s: int)
    requires LShiftEq(hi, c, xs, u, c0) && |hi| == |xs| && c0 == s * u - s * B
    ensures V(Zeros(ds) + [c] + hi) + s * P(|hi| + ds + 1) == (V(xs) + s * P(|xs|)) * (u * P(ds))
  {
    var z := Zeros(ds);
    assert z + [c] + hi == z + ([c] + hi);
    ValConcat(B, z, [c] + hi);
    ValConcat(B, [c], hi);
    ValOne(c);
    ValZeros(B, z);
    PowAdd(B, ds, |hi| + 1);
    ShiftedArith(P(ds), V(hi), c, V(xs), u, c0, P(|xs|), s);
  }

  lemma ShiftedArith(q: int, h: int, c: int, x: int, u: int, c0: int, p: int, s: int)
    requires h * B + c == u * x + c0 * p && c0 == s * u - s * B
    ensures q * (c + B * h) + s * (q * (B * p)) == (x + s * p) * (u * q)
  {
    assert c + B * h + s * (B * p) == u * (x + s * p) by {
      assert c0 * p == s * u * p - s * B * p;
      assert u * (x + s * p) == u * x + s * u * p;
    }
    assert q * (c + B * h) + s * (q * (B * p)) == q * (c + B * h + s * (B * p));
    assert (x + s * p) * (u * q) == q * (u * (x + s * p));
  }

  /** out is xs shifted right by the unit u, without the bits above xs. */
  ghost predicate RShiftEq(out: seq<int>, xs: seq<int>, u: int) {
    |out| == |xs| > 0 && u > 0 && u * V(out) + xs[0] % u == V(xs)
  }

  ghost predicate IsFloor(x: int, d: int, q: int) {
    d * q <= x < d * (q + 1)
  }

  lemma DigitParts(d: int, u: int, v: int)
    requires 0 < u && 0 < v && u * v == B && 0 <= d < B
    ensures 0 <= d / u < v && 0 <= d % u < u
  {
    if d / u >= v {
      MulMono(v, d / u, u);
      assert false;
    }
  }

  lemma RShiftFirst(d: int, u: int)
    requires u > 0
    ensures RShiftEq([d / u], [d], u)
  {
    ValOne(d);
    ValOne(d / u);
  }

  lemma RShiftWord(r: seq<int>, k: nat, xs: seq<int>, u: int, v: int, d: int, h: int, l: int)
    requires 0 < k <= |r| && u * v == B && RShiftEq(r[..k], xs, u) && d == u * h + l
    ensures RShiftEq(Put(r[k - 1 := r[k - 1] + l * v], k, h)[..k + 1], xs + [d], u)
  {
    var r1 := r[k - 1 := r[k - 1] + l * v];
    assert Put(r1, k, h)[..k + 1] == r1[..k] + [h];
    ValSnoc(B, r1[..k], h);
    Bump(r, k - 1, l * v, k);
    ValSnoc(B, xs, d);
    RShiftArith(u, v, V(r[..k]), l, h, d, P(k - 1));
  }

  lemma RShiftArith(u: int, v: int, o: int, l: int, h: int, d: int, p: int)
    requires u * v == B && d == u * h + l
    ensures u * (o + (l * v) * p + h * (B * p)) == u * o + d * (B * p)
  {
    assert u * ((l * v) * p) == l * ((u * v) * p);
    assert u * (h * (B * p)) == (u * h) * (B * p);
    assert d * (B * p) == (u * h) * (B * p) + l * (B * p);
    assert u * (o + (l * v) * p + h * (B * p)) == u * o + u * ((l * v) * p) + u * (h * (B * p));
  }

  lemma SignBits(s: int, u: int)
    requires u > 0 && (s == 0 || s == -1)
    ensures s % u == (if s == 0 then 0 else u - 1)
  {
    if s == -1 {
      DivModUnique(-1, u, -1, u - 1);
    }
  }

  /** Putting the sign's bits on top makes the shift a floor division. */
  lemma RShiftDone(r: seq<int>, ws: seq<int>, ds: nat, k: nat, u: int, v: int, s: int, m: int)
    requires 0 < k <= |r| && |ws| == ds + k && AllWords(ws) && u * v == B
    requires RShiftEq(r[..k], ws[ds..], u) && m + u * s == s
    ensures IsFloor(V(ws) + s * P(|ws|), P(ds) * u, V(r[k - 1 := r[k - 1] + m * v][..k]) + s * P(k))
  {
    Bump(r, k - 1, m * v, k);
    ValSplit(B, ws, ds);
    ValBound(B, ws[..ds]);
    PowAdd(B, ds, k);
    SignArith(u, v, V(r[..k]), m, s, P(k - 1));
    FloorArith(V(ws[..ds]), P(ds), u, V(r[..k]) + m * v * P(k - 1) + s * P(k), ws[ds..][0] % u);
    SumArith(P(ds), V(ws[ds..]), s, P(k));
  }

  lemma SumArith(p: int, x: int, s: int, q: int)
    ensures p * (x + s * q) == p * x + s * (p * q)
  {
    assert p * (x + s * q) == p * x + p * (s * q);
    assert p * (s * q) == s * (p * q);
  }

  lemma SignArith(u: int, v: int, o: int, m: int, s: int, p: int)
    requires u * v == B && m + u * s == s
    ensures u * (o + m * v * p + s * (B * p)) == u * o + s * (B * p)
  {
    assert u * (m * v * p) == m * ((u * v) * p);
    assert u * (s * (B * p)) == (u * s) * (B * p);
    assert (m + u * s) * (B * p) == m * (B * p) + (u * s) * (B * p);
    assert u * (o + m * v * p + s * (B * p)) == u * o + u * (m * v * p) + u * (s * (B * p));
  }

  lemma FloorArith(lo: int, p: int, u: int, q: int, e: int)
    requires 0 <= lo < p && 0 <= e < u
    ensures IsFloor(lo + p * (u * q + e), p * u, q)
  {
    MulMono(0, e, p);
    MulMono(e, u - 1, p);
    assert p * (u * q + e) == p * u * q + e * p;
    assert (p * u) * (q + 1) == p * u * q + p * u;
    assert (u - 1) * p == p * u - p;
  }

  /** Shifting by at least the whole length leaves only the sign. */
  lemma ShiftedOut(ws: seq<int>, s: int, ds: nat, u: int)
    requires AllWords(ws) && |ws| <= ds && u > 0 && (s == 0 || s == -1)
    ensures IsFloor(V(ws) + s * P(|ws|), P(ds) * u, s)
  {
    ValBound(B, ws);
    PowMonotone(B, |ws|, ds);
    ScaleUp(P(ds), u);
  }

  lemma SplitUnique(a: int, b: int, a': int, b': int, p: int)
    requires 0 <= a < p && 0 <= a' < p && a + p * b == a' + p * b'
    ensures a == a' && b == b'
  {
    DivModUnique(a + p * b, p, b, a);
    DivModUnique(a + p * b, p, b', a');
  }

  function Zeros(n: nat): (z: seq<int>)
    ensures |z| == n && forall k :: 0 <= k < n ==> z[k] == 0
  {
    seq(n, _ => 0)
  }

  /** Inserting k zeros below a number multiplies it by B^k. */
  lemma ShiftedValue(w: seq<int>, k: nat, s: int)
    ensures V(Zeros(k) + w) == P(k) * V(w)
    ensures V(Zeros(k) + w) + s * P(k + |w|) == P(k) * (V(w) + s * P(|w|))
  {
    ValZeros(B, Zeros(k));
    ValConcat(B, Zeros(k), w);
    PowAdd(B, k, |w|);
    SumArith(P(k), V(w), s, P(|w|));
  }

  lemma SliceSnoc(a: seq<int>, i: nat, j: nat)
    requires i <= j < |a|
    ensures a[i..j + 1] == a[i..j] + [a[j]]
  {
  }

  /** Writing the digit just above a[i..j] leaves the rest alone. */
  lemma SliceUpdate(a: seq<int>, i: nat, j: nat, d: int)
    requires i <= j < |a|
    ensures var a' := a[j := d];
      a'[i..j + 1] == a[i..j] + [d]
  {
  }

  /** What am has achieved over |out| digits. */
  ghost predicate AmEq(out: seq<int>, c: int, ws: seq<int>, x: int, ds: seq<int>, c0: int) {
    MulAdd(B, out, c, ws, x, ds, c0)
  }

  /** w + (n - 1)*w in place is n*w. */
  lemma TimesItself(out: seq<int>, c: int, w: seq<int>, n: int)
    requires AmEq(out, c, w, n - 1, w, 0) && |out| == |w|
    ensures V(out) + c * P(|out|) == V(w) * n
  {
    var v := V(w);
    assert v + (n - 1) * v == v * n;
  }

  /** A number that fits its digits leaves no carry but its sign. */
  lemma CarrySmall(w: seq<int>, c: int, x: int)
    requires AllWords(w) && CarryEq(w, c, x)
    ensures -P(|w|) <= x < P(|w|) ==> -1 <= c <= 0
  {
    ValBound(B, w);
    var p := P(|w|);
    if c > 0 { MulMono(1, c, p); }
    if c < -1 { MulMono(c, -2, p); }
  }
}
