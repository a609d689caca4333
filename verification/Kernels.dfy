/**
 benchmarks/crypto.js:69-140: the alternative multiply-accumulate kernels for 26-bit
 digits, on plain digit arrays. (am3, the one in use, is BigInteger.Am3.)
 */
module Kernels {
  import opened Digits
  import opened JsWord
  import opened BignumMath

  const B26: int := 0x400_0000

  ghost predicate Digits26(a: seq<int>) { IsDigits(B26, a) }

  /** The largest sum a digit step can need, with carry c, is an exact double. */
  predicate Exact(x: int, c: int) {
    (x + 1) * (B26 - 1) + c <= DOUBLE_LIMIT
  }

  function Larger(x: int, c: int): int { if x < c then c else x }

  /**
   am1: one double-precision product per digit. If the first sum is exact, all are: the carry
   never exceeds the larger of multiplier and first carry.
   */
  method Am1(this_: array<int>, i0: nat, x: int, w: array<int>, j0: nat, c0: int, n: nat) returns (c: int)
    requires (this_ == w ==> i0 == j0) && 0 <= x < 2 * B26 && 0 <= c0 < 3 * B26 && Exact(x, c0)
    requires i0 + n <= this_.Length && j0 + n <= w.Length && Digits26(this_[..]) && Digits26(w[..])
    modifies w
    ensures Digits26(w[..]) && 0 <= c <= Larger(x, c0) && SameOutside(w[..], old(w[..]), j0, j0 + n)
    ensures MulAdd(B26, w[j0..j0 + n], c, old(w[j0..j0 + n]), x, old(this_[i0..i0 + n]), c0)
  {
    var i, j := i0, j0;
    ghost var ds := this_[..];
    c := c0;
    while j < j0 + n
      invariant j0 <= j <= j0 + n && i - i0 == j - j0 && 0 <= c <= Larger(x, c0)
        && SameOutside(w[..], old(w[..]), j0, j)
      invariant forall k :: 0 <= k < w.Length ==> 0 <= w[k] < B26
      invariant forall k :: 0 <= k < |ds| && (this_ != w || k >= j) ==> this_[k] == ds[k]
      invariant MulAdd(B26, w[j0..j], c, old(w[..])[j0..j], x, ds[i0..i], c0)
    {
      assert this_[i] == ds[i];
      var w', c' := Am1Word(this_[i], x, w[j], c);
      StoreDigit(w, j0, j, w', x, c0, c, c', old(w[..]), ds, i0, i);
      c, i, j := c', i + 1, j + 1;
    }
  }

  /** Stores one digit of the result: the equation holds for one digit more. */
  method StoreDigit(w: array<int>, ghost j0: nat, j: nat, d: int, ghost x: int, ghost c0: int, ghost c: int,
      ghost c': int, ghost old_: seq<int>, ghost ds: seq<int>, ghost i0: nat, ghost i: nat)
    requires j0 <= j < w.Length && |old_| == w.Length && i0 <= i < |ds| && SameOutside(w[..], old_, j0, j)
    requires 0 <= d < B26 && Digits26(w[..]) && d + c' * B26 == x * ds[i] + w[j] + c && i - i0 == j - j0
    requires MulAdd(B26, w[j0..j], c, old_[j0..j], x, ds[i0..i], c0)
    modifies w
    ensures w[..] == old(w[..])[j := d] && Digits26(w[..]) && SameOutside(w[..], old_, j0, j + 1)
    ensures MulAdd(B26, w[j0..j + 1], c', old_[j0..j + 1], x, ds[i0..i + 1], c0)
  {
    ghost var w0 := w[..];
    MulAddExtend(B26, x, c0, c, c', w0[j0..j], d, old_[j0..j], w0[j], ds[i0..i], ds[i]);
    w[j] := d;
    assert w[..] == w0[j := d];
    Extended(w[..], w0, old_, ds, i0, i, j0, j);
  }

  lemma Extended(w: seq<int>, w0: seq<int>, old_: seq<int>, t: seq<int>, i0: nat, i: nat, j0: nat, j: nat)
    requires j0 <= j < |w| == |w0| == |old_| && i0 <= i < |t| && w == w0[j := w[j]]
    ensures w[j0..j + 1] == w0[j0..j] + [w[j]] && old_[j0..j + 1] == old_[j0..j] + [old_[j]]
    ensures t[i0..i + 1] == t[i0..i] + [t[i]]
  {
  }

  method Am1Word(d: int, x: int, w: int, c: int) returns (w': int, c': int)
    requires 0 <= x < 2 * B26 && 0 <= d < B26 && 0 <= w < B26 && 0 <= c && Exact(x, c)
    ensures 0 <= w' < B26 && 0 <= c' <= Larger(x, c) && w' + c' * B26 == x * d + w + c
  {
    SumRange(x, d, w, c);
    var v := x * d + w + c;
    assert v <= DOUBLE_LIMIT;
    c' := v / B26;
    w' := (v % 0x1_0000_0000) % B26;
    LowBits(v);
  }

  /** Masking after the conversion to 32 bits gives the low digit. */
  lemma LowBits(v: int)
    requires 0 <= v
    ensures 0 <= (v % 0x1_0000_0000) % B26 < B26 && (v % 0x1_0000_0000) % B26 + (v / B26) * B26 == v
  {
  }

  /** The sum is exact, and small enough for the next carry. */
  lemma SumRange(x: int, d: int, w: int, c: int)
    requires 0 <= x < 2 * B26 && 0 <= d < B26 && 0 <= w < B26 && 0 <= c && Exact(x, c)
    ensures 0 <= x * d + w + c <= (x + 1) * (B26 - 1) + c <= DOUBLE_LIMIT
    ensures (x * d + w + c) / B26 <= Larger(x, c)
  {
    MulMono(0, x, d);
    MulMono(d, B26 - 1, x);
  }

  /**
   The comment above am1 allows carries up to 3*B; with those the sum of a digit step
   stays an exact double for all digits exactly when Exact(x, c) holds, which it does for
   every carry up to x, and which x = 2B - 1, c = 3B - 1 violates.
   */
  lemma Am1ExactIff(x: int, c: int)
    requires 0 <= x < 2 * B26 && 0 <= c < 3 * B26
    ensures (forall d, w :: 0 <= d < B26 && 0 <= w < B26 ==> StepSum(x, d, w, c) <= DOUBLE_LIMIT)
            <==> Exact(x, c)
    ensures c <= x ==> Exact(x, c)
    ensures x == 2 * B26 - 1 && c == 3 * B26 - 1 ==> !Exact(x, c)
  {
    assert StepSum(x, B26 - 1, B26 - 1, c) == (x + 1) * (B26 - 1) + c;
    if Exact(x, c) {
      forall d, w | 0 <= d < B26 && 0 <= w < B26 ensures StepSum(x, d, w, c) <= DOUBLE_LIMIT {
        MulMono(d, B26 - 1, x);
      }
    }
  }

  ghost function StepSum(x: int, d: int, w: int, c: int): int {
    x * d + w + c
  }

  /** am4: 13-bit halves; every intermediate stays within 29 bits. */
  method Am4(this_: array<int>, i0: nat, x: int, w: array<int>, j0: nat, c0: int, n: nat) returns (c: int)
    requires (this_ == w ==> i0 == j0) && 0 <= x < 2 * B26 && 0 <= c0 < 3 * B26
    requires i0 + n <= this_.Length && j0 + n <= w.Length && Digits26(this_[..]) && Digits26(w[..])
    modifies w
    ensures Digits26(w[..]) && 0 <= c < 3 * B26 && SameOutside(w[..], old(w[..]), j0, j0 + n)
    ensures MulAdd(B26, w[j0..j0 + n], c, old(w[j0..j0 + n]), x, old(this_[i0..i0 + n]), c0)
  {
    var i, j := i0, j0;
    ghost var ds := this_[..];
    c := c0;
    while j < j0 + n
      invariant j0 <= j <= j0 + n && i - i0 == j - j0 && 0 <= c < 3 * B26 && SameOutside(w[..], old(w[..]), j0, j)
      invariant forall k :: 0 <= k < w.Length ==> 0 <= w[k] < B26
      invariant forall k :: 0 <= k < |ds| && (this_ != w || k >= j) ==> this_[k] == ds[k]
      invariant MulAdd(B26, w[j0..j], c, old(w[..])[j0..j], x, ds[i0..i], c0)
    {
      assert this_[i] == ds[i];
      var w', c' := Am4Word(this_[i], x, w[j], c);
      StoreDigit(w, j0, j, w', x, c0, c, c', old(w[..]), ds, i0, i);
      c, i, j := c', i + 1, j + 1;
    }
  }

  method Am4Word(d: int, x: int, w: int, c: int) returns (w': int, c': int)
    requires 0 <= x < 2 * B26 && 0 <= d < B26 && 0 <= w < B26 && 0 <= c < 3 * B26
    ensures 0 <= w' < B26 && 0 <= c' <= 2 * B26 && w' + c' * B26 == x * d + w + c
  {
    Am4Digit(x, d, w, c);
    var xl, xh := Mask(x, 0x2000), Shr(x, 0x2000);
    var l := Mask(d, 0x2000);
    var h := Shr(d, 0x2000);
    var m := xh * l + h * xl;
    l := xl * l + Shl(Mask(m, 0x2000), 0x2000) + w + c;
    assert m < 0x2000_0000 && l < 0x2000_0000;
    c' := Shr(l, B26) + Shr(m, 0x2000) + xh * h;
    w' := Mask(l, B26);
  }

  lemma Am4Digit(x: int, d: int, w: int, c: int)
    requires 0 <= x < 2 * B26 && 0 <= d < B26 && 0 <= w < B26 && 0 <= c < 3 * B26
    ensures var xl, xh, l, h := x % 0x2000, x / 0x2000, d % 0x2000, d / 0x2000;
      var m := xh * l + h * xl;
      var lo := xl * l + (m % 0x2000) * 0x2000 + w + c;
      var c' := lo / B26 + m / 0x2000 + xh * h;
      && 0 <= m < 3 * B26 && 0 <= lo < 6 * B26
      && lo % B26 + c' * B26 == x * d + w + c
      && 0 <= c' <= 2 * B26
  {
    var xl, xh, l, h := x % 0x2000, x / 0x2000, d % 0x2000, d / 0x2000;
    MulRange(xl, l, 0x2000, 0x2000);
    MulRange(xh, l, 0x4000, 0x2000);
    MulRange(h, xl, 0x2000, 0x2000);
    MulRange(xh, h, 0x4000, 0x2000);
    HalfProducts(0x2000, xl, xh, l, h);
    Am4Carry(x * d, xl * l, xh * h, xh * l + h * xl, w, c);
    MulRange(x, d, 2 * B26, B26);
  }

  lemma Am4Carry(xx: int, ll: int, hh: int, m: int, w: int, c: int)
    requires 0 <= ll < B26 && 0 <= hh && 0 <= m && 0 <= w < B26 && 0 <= c < 3 * B26
    requires xx == hh * B26 + m * 0x2000 + ll
    ensures var lo := ll + (m % 0x2000) * 0x2000 + w + c;
      && 0 <= lo < 6 * B26
      && lo % B26 + (lo / B26 + m / 0x2000 + hh) * B26 == xx + w + c
  {
  }
}
