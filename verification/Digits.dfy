/**
 Positional notation: little-endian digit sequences in an arbitrary base and the
 integer each one stands for. Everything the big-integer code computes is stated
 in terms of `Val`.
 */
module Digits {

  /** b to the n. */
  function Pow(b: nat, n: nat): (p: nat)
    requires b > 0
    ensures p > 0
  {
    if n == 0 then 1 else b * Pow(b, n - 1)
  }

  ghost predicate IsDigits(b: nat, s: seq<int>) {
    forall k :: 0 <= k < |s| ==> 0 <= s[k] < b
  }

  /** The integer a little-endian digit sequence denotes. */
  ghost function Val(b: nat, s: seq<int>): int
    requires b > 0
  {
    if |s| == 0 then 0 else Val(b, s[..|s| - 1]) + s[|s| - 1] * Pow(b, |s| - 1)
  }

  lemma {:induction false} PowAdd(b: nat, m: nat, n: nat)
    requires b > 0
    ensures Pow(b, m + n) == Pow(b, m) * Pow(b, n)
  {
    if m > 0 {
      PowAdd(b, m - 1, n);
      var p, q := Pow(b, m - 1), Pow(b, n);
      assert b * (p * q) == (b * p) * q;
    }
  }

  lemma {:induction false} PowMonotone(b: nat, m: nat, n: nat)
    requires b > 0 && m <= n
    ensures Pow(b, m) <= Pow(b, n)
  {
    PowAdd(b, m, n - m);
    ScaleUp(Pow(b, m), Pow(b, n - m));
  }

  lemma ScaleUp(p: nat, q: nat)
    requires q > 0
    ensures p <= p * q
  {
    assert p * q == p + p * (q - 1);
  }

  /** Appending a most significant digit. */
  lemma ValSnoc(b: nat, s: seq<int>, d: int)
    requires b > 0
    ensures Val(b, s + [d]) == Val(b, s) + d * Pow(b, |s|)
  {
    assert (s + [d])[..|s|] == s;
  }

  lemma {:induction false} ValBound(b: nat, s: seq<int>)
    requires b > 0 && IsDigits(b, s)
    ensures 0 <= Val(b, s) < Pow(b, |s|)
  {
    if |s| > 0 {
      var p := Pow(b, |s| - 1);
      ValBound(b, s[..|s| - 1]);
      MulMono(0, s[|s| - 1], p);
      MulMono(s[|s| - 1], b - 1, p);
      assert (b - 1) * p == b * p - p;
    }
  }

  lemma MulMono(x: int, y: int, p: int)
    requires x <= y && 0 <= p
    ensures x * p <= y * p
  {
    assert y * p - x * p == (y - x) * p;
  }

  /** Reading a digit sequence in two pieces. */
  lemma {:induction false} ValConcat(b: nat, lo: seq<int>, hi: seq<int>)
    requires b > 0
    ensures Val(b, lo + hi) == Val(b, lo) + Pow(b, |lo|) * Val(b, hi)
    decreases |hi|
  {
    if |hi| == 0 {
      assert lo + hi == lo;
    } else {
      var h, d := hi[..|hi| - 1], hi[|hi| - 1];
      assert lo + hi == (lo + h) + [d];
      ValSnoc(b, lo + h, d);
      ValConcat(b, lo, h);
      PowAdd(b, |lo|, |h|);
      ConcatStep(Val(b, lo), Pow(b, |lo|), Pow(b, |h|), Val(b, h), d, Pow(b, |lo + h|), Val(b, lo + h),
        Val(b, lo + hi), Val(b, hi));
    }
  }

  lemma ConcatStep(x: int, p: int, q: int, v: int, d: int, pq: int, front: int, whole: int, w: int)
    requires front == x + p * v && pq == p * q && whole == front + d * pq && w == v + d * q
    ensures whole == x + p * w
  {
    assert p * v + d * (p * q) == p * (v + d * q);
  }

  lemma ValSplit(b: nat, s: seq<int>, k: nat)
    requires b > 0 && k <= |s|
    ensures Val(b, s) == Val(b, s[..k]) + Pow(b, k) * Val(b, s[k..])
  {
    assert s == s[..k] + s[k..];
    ValConcat(b, s[..k], s[k..]);
  }

  lemma {:induction false} ValZeros(b: nat, s: seq<int>)
    requires b > 0 && forall k :: 0 <= k < |s| ==> s[k] == 0
    ensures Val(b, s) == 0
  {
    if |s| > 0 {
      ValZeros(b, s[..|s| - 1]);
    }
  }

  /** A non-zero top digit makes the value at least that power of the base. */
  lemma ValTop(b: nat, s: seq<int>)
    requires b > 0 && IsDigits(b, s) && |s| > 0
    ensures s[|s| - 1] * Pow(b, |s| - 1) <= Val(b, s) < (s[|s| - 1] + 1) * Pow(b, |s| - 1)
  {
    ValBound(b, s[..|s| - 1]);
  }

  /** out + c*b^n == ws + x*ds + c0 over n digits each. */
  ghost predicate MulAdd(b: nat, out: seq<int>, c: int, ws: seq<int>, x: int, ds: seq<int>, c0: int) {
    b > 0 && |out| == |ws| == |ds| && Val(b, out) + c * Pow(b, |out|) == Val(b, ws) + x * Val(b, ds) + c0
  }

  /** One more digit. */
  lemma MulAddExtend(b: nat, x: int, c0: int, c: int, c': int,
                     done: seq<int>, w': int, ws: seq<int>, w: int, ds: seq<int>, d: int)
    requires MulAdd(b, done, c, ws, x, ds, c0) && w' + c' * b == x * d + w + c
    ensures MulAdd(b, done + [w'], c', ws + [w], x, ds + [d], c0)
  {
    ValSnoc(b, done, w');
    ValSnoc(b, ws, w);
    ValSnoc(b, ds, d);
    MulAddStep(b, Pow(b, |done|), w', c', x, d, w, c, Val(b, ds));
  }

  lemma MulAddStep(b: int, p: int, w': int, c': int, x: int, d: int, w: int, c: int, v: int)
    requires w' + c' * b == x * d + w + c
    ensures w' * p + c' * (b * p) - c * p == w * p + x * (v + d * p) - x * v
  {
    assert w' * p + c' * (b * p) == (w' + c' * b) * p;
    assert (x * d + w + c) * p == x * d * p + w * p + c * p;
    assert x * (v + d * p) == x * v + x * d * p;
  }
}
