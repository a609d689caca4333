/** benchmarks/crypto.js:529-612: the Montgomery reducer. */
module MontgomeryReducer {
  import opened Digits
  import opened JsWord
  import opened BignumMath
  import opened MontgomeryMath
  import opened Bignum
  import opened Division

  /** Doubles the precision of y == 1/x from n0 = 4 to 16 or from 16 to 256. */
  method NewtonByte(x: int, y: int, n0: int, n: int, ghost k: int) returns (y': int, ghost k': int)
    requires 0 <= x < B && 0 <= y < n0 && (n0, n) in {(4, 0x10), (0x10, 0x100)} && x * y == 1 + n0 * k
    ensures 0 <= y' < n && x * y' == 1 + n * k'
  {
    MaskedFactor(x, y, n);
    var xr := Mask(x, n);
    assert 0 <= xr < 0x100;
    MulRange(xr, y, 0x100, 0x10);
    var p := xr * y;
    MulRange(p, y, 0x1000, 0x10);
    var v := y * (2 - p);
    assert v == 2 * y - p * y;
    y' := Mask(v, n);
    assert y' == v - n * (v / n);
    k' := NewtonReduced(x, y, n0, k, n, 1, p, (x / n) * y, v / n, y');
  }

  /** From 8 to 16 bits, with the product masked as well. */
  method NewtonHalf(x: int, y: int, ghost k: int) returns (y': int, ghost k': int)
    requires 0 <= x < B && 0 <= y < 0x100 && x * y == 1 + 0x100 * k
    ensures 0 <= y' < 0x1_0000 && x * y' == 1 + 0x1_0000 * k'
  {
    ghost var n := 0x1_0000;
    MaskedFactor(x, y, n);
    MulRange(Mask(x, n), y, n, 0x100);
    var p := Mask(Mask(x, 0x1_0000) * y, 0x1_0000);
    ghost var i := ((x % n) * y) / n;
    MulMono(0, p, y);
    MulMono(p, n, y);
    y' := Mask(y * (2 - p), 0x1_0000);
    k' := NewtonReduced(x, y, 0x100, k, n, 1, p, (x / n) * y + i, (y * (2 - p)) / n, y');
  }

  /** From 16 to 28 bits in double precision; the result may be negative. */
  method NewtonFull(x: int, y: int, ghost k: int) returns (y': int, ghost k': int)
    requires 0 <= x < B && 0 <= y < 0x1_0000 && x * y == 1 + 0x1_0000 * k
    ensures -B < y' < B && x * y' == 1 + B * k'
  {
    MulRange(x, y, B, 0x1_0000);
    var xy := x * y;
    ghost var i := RemQuotient(xy, B);
    var p := JsRem(xy, B);
    FactorRange(p, y);
    var v := y * (2 - p);
    ghost var j := RemQuotient(v, B);
    y' := JsRem(v, B);
    k' := NewtonReduced(x, y, 0x1_0000, k, B, 16, p, i, j, y');
  }

  /** What the remainder of a double operand takes off it. */
  lemma RemQuotient(a: int, b: int) returns (q: int)
    requires b > 0 && -DOUBLE_LIMIT < a < DOUBLE_LIMIT
    ensures JsRem(a, b) == a - b * q && -b < JsRem(a, b) < b && (a >= 0 ==> JsRem(a, b) >= 0)
  {
    q := if a >= 0 then a / b else -((-a) / b);
  }

  lemma FactorRange(p: int, y: int)
    requires 0 <= p < B && 0 <= y < 0x1_0000
    ensures -DOUBLE_LIMIT < y * (2 - p) < DOUBLE_LIMIT
  {
    MulMono(0, p, y);
    MulMono(p, B, y);
    assert y * (2 - p) == 2 * y - p * y;
  }

  /** -1/x modulo 2^28 for an odd first digit, by Newton iteration; 0 for an even number. */
  method InvDigit(m: BigInteger) returns (r: int)
    requires m.Valid()
    ensures if m.t >= 1 && m.words[0] % 2 == 1 then 0 < r < B && (m.words[0] * r + 1) % B == 0 else r == 0
  {
    if m.t < 1 { return 0; }
    var x := m.words[0];
    if Mask(x, 2) == 0 { return 0; }
    var y := Mask(x, 4);
    ghost var k := OddInverse4(x);
    y, k := NewtonByte(x, y, 4, 0x10, k);
    y, k := NewtonByte(x, y, 0x10, 0x100, k);
    y, k := NewtonHalf(x, y, k);
    y, k := NewtonFull(x, y, k);
    r := if y > 0 then B - y else -y;
    NegInverse(x, y, k, r);
  }

  /** Moves an overflow at digit j0 upwards; the value says it cannot leave the n digits. */
  method PropagateCarry(x: BigInteger, j0: nat, n: nat)
    requires j0 < n <= |x.words| && 0 <= x.words[j0] < 2 * B
    requires forall k :: 0 <= k < n && k != j0 ==> 0 <= x.words[k] < B
    requires V(x.words[..n]) < P(n)
    modifies x`words
    ensures |x.words| == old(|x.words|) && WordsIn(x.words, 0, n)
    ensures V(x.words[..n]) == old(V(x.words[..n]))
    ensures forall k :: 0 <= k < j0 ==> x.words[k] == old(x.words[k])
  {
    var j := j0;
    while x.words[j] >= B
      invariant j0 <= j < n <= |x.words| == old(|x.words|)
      invariant forall k :: 0 <= k < n && k != j ==> 0 <= x.words[k] < B
      invariant 0 <= x.words[j] < 2 * B
      invariant V(x.words[..n]) == old(V(x.words[..n]))
      invariant forall k :: 0 <= k < j0 ==> x.words[k] == old(x.words[k])
      decreases n - j
    {
      CarryStays(x.words, j, n);
      CarryUp(x.words, j, n);
      x.words := x.words[j := x.words[j] - B];
      j := j + 1;
      x.words := x.words[j := x.words[j] + 1];
    }
  }

  class Montgomery {
    const m: BigInteger
    const mp: int
    const mpl: int
    const mph: int
    const um: int  // as the power of two above the mask
    const mt2: nat

    /** The modulus is odd and mp is -1/m modulo B. */
    ghost predicate Valid()
      reads m
    {
      && NonNegative(m) && m.t > 0 && (m.words[0] * mp + 1) % B == 0 && 0 < mp < B
      && mpl == mp % 0x8000 && mph == mp / 0x8000 && um == 0x2000 && mt2 == 2 * m.t
    }

    constructor (m: BigInteger)
      requires NonNegative(m) && m.t > 0 && m.words[0] % 2 == 1
      ensures Valid() && this.m == m
    {
      var inv := InvDigit(m);
      this.m := m;
      mp := inv;
      mpl := Mask(inv, 0x8000);
      mph := Shr(inv, 0x8000);
      um := 0x2000;
      mt2 := 2 * m.t;
    }

    /** u0 = d*mp mod 2^28 from 15-bit halves. */
    method Multiplier(d: int) returns (u0: int)
      requires Valid() && 0 <= d < B
      ensures 0 <= u0 < B && (d + u0 * m.words[0]) % B == 0
    {
      SplitProduct(d, mp);
      var j := Mask(d, 0x8000);
      u0 := Mask(j * mpl + Shl(Mask(j * mph + Shr(d, 0x8000) * mpl, um), 0x8000), B);
      ClearsDigit(d, mp, m.words[0], u0);
    }

    /** x += u0*m*B^i with the carry left in digit i + t; digit i becomes 0. */
    method AddMultiple(x: BigInteger, i: nat, n: nat, u0: int)
      requires Valid() && x != m && i < m.t && n == mt2 + 1 && WordsIn(x.words, 0, n)
      requires 0 <= u0 < B && (x.words[i] + u0 * m.words[0]) % B == 0
      modifies x`words
      ensures |x.words| == old(|x.words|) && x.words[i] == 0 && 0 <= x.words[i + m.t] < 2 * B
      ensures forall k :: 0 <= k < n && k != i + m.t ==> 0 <= x.words[k] < B
      ensures forall k :: 0 <= k < i ==> x.words[k] == old(x.words)[k]
      ensures V(x.words[..n]) == old(V(x.words[..n])) + P(i) * (u0 * m.Value() + 0)
    {
      var t := m.t;
      ghost var w0, ms := x.words, m.words[..t];
      var c := m.Am3(0, u0, x, i, 0, t);
      ghost var w1 := x.words;
      assert m.words[0..0 + t] == ms && ms[0] == m.words[0];
      AmCarry(w1[i..i + t], c, w0[i..i + t], u0, ms, 0);
      LowDigitZero(w1[i..i + t], c, w0[i..i + t], u0, ms);
      assert w1[i] == w1[i..i + t][0];
      AmPlace(w1, w0, i, t, n, c, u0, ms, 0);
      Bump(w1, i + t, c, n);
      x.words := x.words[i + t := x.words[i + t] + c];
    }

    /** Adds the multiple of m that clears digit i. */
    method ClearDigit(x: BigInteger, i: nat, n: nat, ghost x0: int, ghost u: int) returns (ghost u': int)
      requires Valid() && x != m && i < m.t && n == mt2 + 1 && WordsIn(x.words, 0, n)
      requires MontEq(x.words, n, i, x0, m.Value(), u) && 0 <= x0 < m.Value() * P(m.t)
      modifies x`words
      ensures |x.words| == old(|x.words|) && WordsIn(x.words, 0, n)
      ensures MontEq(x.words, n, i + 1, x0, m.Value(), u')
    {
      var u0 := Multiplier(x.words[i]);
      ghost var v := V(x.words[..n]);
      ValBound(B, m.words[..m.t]);
      AddMultiple(x, i, n, u0);
      u' := MontStep(v, V(x.words[..n]), x0, m.Value(), u, u0, i, m.t);
      PropagateCarry(x, i + m.t, n);
    }

    /** Clears the low t digits one by one. */
    method ClearDigits(x: BigInteger, n: nat, ghost x0: int) returns (ghost u: int)
      requires Valid() && x != m && n == mt2 + 1 && x.Valid() && x.s == 0 && x.t == n
      requires x.Value() == x0 < m.Value() * P(m.t)
      modifies x`words
      ensures x.Valid() && MontEq(x.words, n, m.t, x0, m.Value(), u)
    {
      ValBound(B, x.words[..n]);
      u := 0;
      var i := 0;
      while i < m.t
        invariant 0 <= i <= m.t && x.Valid() && MontEq(x.words, n, i, x0, m.Value(), u)
      {
        u := ClearDigit(x, i, n, x0, u);
        i := i + 1;
      }
    }

    /** Drops the cleared digits and subtracts m once if needed. */
    method Finish(x: BigInteger, ghost x0: int, ghost u: int)
      requires Valid() && x != m && x.Valid() && x.s == 0 && x.t == mt2 + 1
      requires MontEq(x.words, x.t, m.t, x0, m.Value(), u) && 0 <= x0 < m.Value() * P(m.t)
      modifies x
      ensures NonNegative(x) && x.Value() < m.Value() && Congruent(x.Value() * P(m.t), x0, m.Value())
    {
      ghost var w, mv, r := x.words[..x.t], m.Value(), P(m.t);
      ghost var y := V(w[m.t..]);
      DropZeros(w, m.t);
      NormalRange(m.words[..m.t], 0);
      QuotientBelow(y, r, x0, mv, u);
      x.Clamp();
      x.Positive();
      ghost var e := x.DropDigits(m.t, x);
      assert y * r == r * y;
      SplitUnique(e, x.Value(), 0, y, r);
      Reduced(y, r, x0, mv, u, y, 0);
      Reduced(y, r, x0, mv, u, y - mv, 1);
      var order := x.CompareTo(m);
      if order >= 0 {
        x.SubTo(m, x);
        x.Positive();
      }
    }

    /** x = x/R mod m, in place, for x < m*R with R = B^t. */
    method Reduce(x: BigInteger)
      requires Valid() && x != m && NonNegative(x) && x.Value() < m.Value() * P(m.t)
      modifies x
      ensures NonNegative(x) && x.Value() < m.Value()
      ensures Congruent(x.Value() * P(m.t), old(x.Value()), m.Value())
    {
      ghost var x0 := x.Value();
      ProductLength(x.words[..x.t], m.words[..m.t]);
      NormalRange(x.words[..x.t], 0);
      x.PadTo(mt2 + 1);
      ghost var u := ClearDigits(x, mt2 + 1, x0);
      Finish(x, x0, u);
    }
  }
}
