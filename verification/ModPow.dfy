/**
 benchmarks/crypto.js:1097-1155: modular exponentiation by a sliding window over the
 exponent's bits, for whichever reducer the sizes select.
 */
module ModularExponentiation {
  import opened Digits
  import opened JsWord
  import opened BignumMath
  import opened NumberBits
  import opened DivisionMath
  import opened ModArith
  import opened WindowMath
  import opened Bignum
  import opened Division
  import opened BarrettReducer
  import opened MontgomeryReducer
  import opened Reducers
  import Doubles
  import QuotientEstimate

  /** g[i] holds b^(2i+1), in numbers outside avoid. (The code's g has only odd indices 2i+1.) */
  ghost predicate Table(g: seq<BigInteger>, avoid: set<BigInteger>, mv: int, sc: int, b: int)
    reads g
  {
    forall i :: 0 <= i < |g| ==> g[i] !in avoid && Holds(g[i], mv, sc, Power(b, 2 * i + 1))
  }

  /** The next entry: base^(2i+1) = base^2 * base^(2i-1). */
  method NextPower(z: Reducer, est: Estimate, g2: BigInteger, prev: BigInteger, ghost mv: int, ghost sc: int,
      ghost b: int,
      ghost n: nat)
    returns (h: BigInteger)
    requires Ready(z, mv, sc) && g2 !in Scratch(z) && prev !in Scratch(z)
    requires Holds(g2, mv, sc, Power(b, 2)) && Holds(prev, mv, sc, Power(b, n))
    modifies Scratch(z)
    ensures Ready(z, mv, sc) && fresh(h) && Holds(h, mv, sc, Power(b, n + 2))
  {
    h := new BigInteger();
    PowerAdd(b, 2, n);
    MulTo(z, est, g2, prev, h, mv, sc, Power(b, 2), Power(b, n));
  }

  /** base^2 in reduced form. */
  method SquareOf(z: Reducer, est: Estimate, g1: BigInteger, ghost mv: int, ghost sc: int, ghost b: int)
      returns (g2: BigInteger)
    requires Ready(z, mv, sc) && g1 !in Scratch(z) && Holds(g1, mv, sc, b)
    modifies Scratch(z)
    ensures Ready(z, mv, sc) && fresh(g2) && Holds(g2, mv, sc, Power(b, 2))
  {
    g2 := new BigInteger();
    assert Power(b, 2) == b * Power(b, 1) == b * (b * Power(b, 0));
    SqrTo(z, est, g1, g2, mv, sc, b);
  }

  /** One more entry at the end of the table. */
  method AddEntry(z: Reducer, est: Estimate, g0: seq<BigInteger>, g2: BigInteger, ghost mv: int, ghost sc: int,
      ghost b: int)
    returns (g: seq<BigInteger>)
    requires Ready(z, mv, sc) && g2 !in Scratch(z) && Holds(g2, mv, sc, Power(b, 2))
    requires 0 < |g0| && g2 !in g0 && Table(g0, Scratch(z), mv, sc, b)
    modifies Scratch(z)
    ensures Ready(z, mv, sc) && |g| == |g0| + 1 && fresh(g[|g0|]) && forall i :: 0 <= i < |g0| ==> g[i] == g0[i]
    ensures Table(g, Scratch(z), mv, sc, b) && Holds(g2, mv, sc, Power(b, 2))
  {
    var h := NextPower(z, est, g2, g0[|g0| - 1], mv, sc, b, 2 * |g0| - 1);
    g := g0 + [h];
    assert forall i :: 0 <= i < |g0| ==> g[i] == g0[i];
  }

  /** The powers base^1, base^3, ..., base^(2^k - 1), in reduced form. */
  method BuildTable(z: Reducer, est: Estimate, x: BigInteger, k: nat, ghost mv: int, ghost sc: int)
      returns (g: seq<BigInteger>)
    requires Ready(z, mv, sc) && x.Normal() && x !in Internals(z) && 0 < k
    modifies Scratch(z)
    ensures Ready(z, mv, sc) && 2 * |g| == Pow(2, k) && Table(g, Scratch(z), mv, sc, x.Value())
    ensures forall i :: 0 <= i < |g| ==> g[i] == x || fresh(g[i])
  {
    ghost var b := x.Value();
    var half := Pow(2, k - 1);
    var g1 := Convert(z, est, x, mv, sc);
    g := [g1];
    FirstEntry(g1, Scratch(z), mv, sc, b);
    if k > 1 {
      PowMonotone(2, 1, k - 1);
      var g2 := SquareOf(z, est, g1, mv, sc, b);
      g := FillTable(z, est, g1, g2, half, mv, sc, b);
    }
  }

  lemma FirstEntry(g1: BigInteger, avoid: set<BigInteger>, mv: int, sc: int, b: int)
    requires g1 !in avoid && Holds(g1, mv, sc, b)
    ensures Table([g1], avoid, mv, sc, b)
  {
    assert Power(b, 1) == b * Power(b, 0);
  }

  /** Adds entries, each from the one before and the square. */
  method FillTable(z: Reducer, est: Estimate, g1: BigInteger, g2: BigInteger, half: nat, ghost mv: int, ghost sc: int,
      ghost b: int)
      returns (g: seq<BigInteger>)
    requires Ready(z, mv, sc) && g2 !in Scratch(z) && g1 != g2 && 1 <= half
    requires Holds(g2, mv, sc, Power(b, 2)) && Table([g1], Scratch(z), mv, sc, b)
    modifies Scratch(z)
    ensures Ready(z, mv, sc) && |g| == half && Table(g, Scratch(z), mv, sc, b)
    ensures forall i :: 0 <= i < |g| ==> g[i] == g1 || fresh(g[i])
  {
    g := [g1];
    while |g| < half
      invariant 1 <= |g| <= half && Ready(z, mv, sc) && Holds(g2, mv, sc, Power(b, 2))
      invariant forall i :: 0 <= i < |g| ==> (g[i] == g1 || fresh(g[i])) && g[i] != g2
      invariant Table(g, Scratch(z), mv, sc, b)
    {
      g := AddEntry(z, est, g, g2, mv, sc, b);
    }
  }

  /** Where digit j, bit i is: the number of exponent bits from there down. */
  ghost function Bits(j: int, i: int): int {
    DB * j + i + 1
  }

  /** The reading position: pre has been read, q is left, and (j, i) is the next bit unless all are read. */
  ghost predicate At(e: BigInteger, j: int, i: int, pre: int, q: int)
    reads e
  {
    && NonNegative(e) && -1 <= j < e.t && 0 <= i < DB && 0 <= Bits(j, i)
    && Reading(e.Value(), Bits(j, i), pre, q)
  }

  /** The k bits from (j, i) down, possibly from two digits, padded with zeros below bit 0. */
  method ReadWindow(e: BigInteger, j: int, i: int, k: int, ghost pre: int, ghost q: int) returns (w: int)
    requires At(e, j, i, pre, q) && 0 <= j && 0 < k <= 6
    ensures Leading(q, Bits(j, i), k, w) && 0 <= w < Pow(2, k)
  {
    var k1 := k - 1;
    ghost var es := e.words[..e.t];
    if i >= k1 {
      assert es[j] == e.words[j];
      w := Mask(Shr(e.words[j], Pow(2, i - k1)), Pow(2, k));
      WindowInside(es, j, i, k, pre, q, w);
    } else {
      w := ReadAcross(e, j, i, k, pre, q);
    }
  }

  /** A window that needs bits of the digit below, or zeros when there is none. */
  method ReadAcross(e: BigInteger, j: int, i: int, k: int, ghost pre: int, ghost q: int) returns (w: int)
    requires At(e, j, i, pre, q) && 0 <= j && 0 < k <= 6 && i < k - 1
    ensures Leading(q, Bits(j, i), k, w) && 0 <= w < Pow(2, k)
  {
    ghost var es := e.words[..e.t];
    w := HighPart(e.words[j], i, k);
    SixBits(k);
    if j > 0 {
      w := WithLowPart(w, e.words[j - 1], k - 1 - i);
      WindowAcross(es, j, i, k, pre, q, w);
    } else {
      WindowPadded(es, i, k, pre, q, w);
    }
  }

  /** The bits of a digit from bit i down, moved up to make room for the rest of a window of k bits. */
  method HighPart(d: int, i: int, k: int) returns (w: int)
    requires 0 <= d < B && 0 <= i < k - 1 && k <= 6
    ensures w == (d % Pow(2, i + 1)) * Pow(2, k - 1 - i) && 0 <= w <= Pow(2, k) - Pow(2, k - 1 - i)
      && w % Pow(2, k - 1 - i) == 0
  {
    var s := k - 1 - i;
    PowAdd(2, i + 1, s);
    var top := Mask(d, Pow(2, i + 1));
    ShiftedTop(top, Pow(2, i + 1), Pow(2, s));
    SixBits(k);
    w := Shl(top, Pow(2, s));
  }

  /** The s highest bits of the digit below. */
  method WithLowPart(w0: int, d: int, s: int) returns (w: int)
    requires 0 <= d < B && 0 < s < DB && 0 <= w0 < 64 && w0 % Pow(2, s) == 0
    ensures w == w0 + d / Pow(2, DB - s) && w0 <= w < w0 + Pow(2, s)
  {
    HalfWords(s);
    DigitParts(d, Pow(2, DB - s), Pow(2, s));
    w := Or(w0, Shr(d, Pow(2, DB - s)), Pow(2, s));
  }

  lemma ShiftedTop(top: int, u: int, v: int)
    requires 0 <= top < u && 0 < v
    ensures 0 <= top * v <= u * v - v && (top * v) % v == 0
  {
    MulMono(0, top, v);
    MulMono(top, u - 1, v);
    assert (u - 1) * v == u * v - v;
    ModMultiple(top, v);
    assert v * top == top * v;
  }

  lemma SixBits(k: nat)
    requires k <= 6
    ensures Pow(2, k) <= 64
  {
    PowMonotone(2, k, 6);
    assert Pow(2, 6) == 64;
  }

  /** Drops trailing zeros: the window becomes odd and fits the bits that are left. */
  method Strip(w0: int, k: nat, ghost q: int, ghost p: nat) returns (w: int, n: nat)
    requires 0 < k && 0 < p && Leading(q, p, k, w0) && 0 <= w0 < Pow(2, k) && Pow(2, p - 1) <= q < Pow(2, p)
    requires Pow(2, k) <= 64
    ensures w % 2 == 1 && 0 < w < Pow(2, k) && 0 < n <= k && n <= p && Leading(q, p, n, w)
  {
    w, n := w0, k;
    LeadsWithOne(q, p, n, w);
    while Mask(w, 2) == 0
      invariant 0 < n <= k && 1 <= w < Pow(2, k) && Leading(q, p, n, w) && (n == 1 ==> w == 1)
      decreases w
    {
      LeadingHalf(q, p, n, w);
      w, n := Shr(w, 2), n - 1;
      LeadsWithOne(q, p, n, w);
    }
    OddLeading(q, p, n, w);
  }

  /** Moves the reading position n bits down. */
  method Advance(e: BigInteger, j0: int, i0: int, n: nat, ghost pre: int, ghost q: int, ghost pre': int, ghost q': int)
    returns (j: int, i: int)
    requires At(e, j0, i0, pre, q) && 0 <= j0 && 0 < n <= 6 && n <= Bits(j0, i0)
    requires Reading(e.Value(), Bits(j0, i0) - n, pre', q')
    ensures At(e, j, i, pre', q') && Bits(j, i) == Bits(j0, i0) - n
  {
    j, i := j0, i0 - n;
    if i < 0 {
      i, j := i + DB, j - 1;
    }
  }

  /** c with n zero bits behind it. */
  function Shifted(c: nat, n: nat): nat {
    MulMono(0, c, Pow(2, n));
    c * Pow(2, n)
  }

  lemma SquarePower(b: int, c: nat, s: nat)
    ensures Power(b, Shifted(c, s)) * Power(b, Shifted(c, s)) == Power(b, Shifted(c, s + 1))
  {
    var n := Shifted(c, s);
    PowerAdd(b, n, n);
    assert c * (2 * Pow(2, s)) == n + n;
  }

  /** Two numbers the accumulator alternates between. */
  ghost predicate Accumulators(r: BigInteger, r2: BigInteger, z: Reducer, e: BigInteger, g: seq<BigInteger>) {
    r != r2 && r !in Parts(z) && r2 !in Parts(z) && r != e && r2 != e && r !in g && r2 !in g
  }

  /** Two squarings, by way of r2. */
  method SquareTwice(z: Reducer, est: Estimate, r: BigInteger, r2: BigInteger, ghost mv: int, ghost sc: int,
      ghost b: int,
      ghost c: nat, ghost n: nat)
    requires Ready(z, mv, sc) && r != r2 && r !in Parts(z) && r2 !in Parts(z)
      && Holds(r, mv, sc, Power(b, Shifted(c, n)))
    modifies r, r2, Scratch(z)
    ensures Ready(z, mv, sc) && Holds(r, mv, sc, Power(b, Shifted(c, n + 2)))
  {
    SquarePower(b, c, n);
    SquarePower(b, c, n + 1);
    SqrTo(z, est, r, r2, mv, sc, Power(b, Shifted(c, n)));
    SqrTo(z, est, r2, r, mv, sc, Power(b, Shifted(c, n + 1)));
  }

  /** Squarings in r, two at a time, until at most one is left. */
  method SquarePairs(z: Reducer, est: Estimate, r: BigInteger, r2: BigInteger, n0: nat,
                     ghost mv: int, ghost sc: int, ghost b: int, ghost c: nat)
    returns (n: nat)
    requires Ready(z, mv, sc) && r != r2 && r !in Parts(z) && r2 !in Parts(z) && Holds(r, mv, sc, Power(b, c))
    modifies r, r2, Scratch(z)
    ensures n <= 1 && n <= n0 && Ready(z, mv, sc) && Holds(r, mv, sc, Power(b, Shifted(c, n0 - n)))
  {
    n := n0;
    assert Shifted(c, 0) == c;
    while n > 1
      invariant 0 <= n <= n0 && Ready(z, mv, sc) && Holds(r, mv, sc, Power(b, Shifted(c, n0 - n)))
    {
      SquareTwice(z, est, r, r2, mv, sc, b, c, n0 - n);
      n := n - 2;
    }
  }

  /** n squarings, two at a time; the result ends up in r2. */
  method SquareTimes(z: Reducer, est: Estimate, r0: BigInteger, s0: BigInteger, n0: nat,
                     ghost mv: int, ghost sc: int, ghost b: int, ghost c: nat)
    returns (r: BigInteger, r2: BigInteger)
    requires Ready(z, mv, sc) && r0 != s0 && r0 !in Parts(z) && s0 !in Parts(z) && Holds(r0, mv, sc, Power(b, c))
    modifies r0, s0, Scratch(z)
    ensures Ready(z, mv, sc) && ((r == r0 && r2 == s0) || (r == s0 && r2 == r0))
    ensures Holds(r2, mv, sc, Power(b, Shifted(c, n0)))
  {
    r, r2 := r0, s0;
    var n := SquarePairs(z, est, r, r2, n0, mv, sc, b, c);
    if n > 0 {
      SquarePower(b, c, n0 - 1);
      SqrTo(z, est, r, r2, mv, sc, Power(b, Shifted(c, n0 - 1)));
    } else {
      r, r2 := r2, r;
    }
  }

  /** Whether the next bit is a one. */
  method NextIsOne(e: BigInteger, j: int, i: int, ghost pre: int, ghost q: int) returns (bit: bool)
    requires At(e, j, i, pre, q) && 0 <= j
    ensures bit <==> Pow(2, Bits(j, i) - 1) <= q
  {
    NextBit(e.words[..e.t], j, i, pre, q);
    var d, u := e.words[j], Pow(2, i);
    ShiftedDigit(d, u);
    bit := Mask(Shr(d, u), 2) != 0;
  }

  lemma ShiftedDigit(d: int, u: int)
    requires 0 <= d < B && 0 < u
    ensures 0 <= d / u <= d
  {
    if d / u > d {
      MulMono(d + 1, d / u, u);
      MulMono(1, u, d + 1);
    }
  }

  /** One zero bit: square and move down. */
  method SkipZero(z: Reducer, est: Estimate, e: BigInteger, r: BigInteger, r2: BigInteger, j0: int, i0: int,
                  ghost mv: int, ghost sc: int, ghost b: int, ghost pre: int, ghost q: int)
    returns (j: int, i: int)
    requires Ready(z, mv, sc) && Accumulators(r, r2, z, e, []) && e !in Scratch(z)
    requires At(e, j0, i0, pre, q) && 0 <= j0 && q < Pow(2, Bits(j0, i0) - 1) && Holds(r, mv, sc, Power(b, pre))
    modifies r2, Scratch(z)
    ensures Ready(z, mv, sc) && Holds(r2, mv, sc, Power(b, 2 * pre))
    ensures At(e, j, i, 2 * pre, q) && Bits(j, i) == Bits(j0, i0) - 1
  {
    ConsumeZero(e.Value(), Bits(j0, i0), pre, q);
    j, i := Advance(e, j0, i0, 1, pre, q, 2 * pre, q);
    PowerAdd(b, pre, pre);
    SqrTo(z, est, r, r2, mv, sc, Power(b, pre));
  }

  /** Squares once for every zero bit that follows. */
  method SkipZeros(z: Reducer, est: Estimate, e: BigInteger, r0: BigInteger, s0: BigInteger, j0: int, i0: int,
                   ghost mv: int, ghost sc: int, ghost b: int, ghost pre0: int, ghost q: int)
    returns (r: BigInteger, r2: BigInteger, j: int, i: int, ghost pre: int)
    requires Ready(z, mv, sc) && Accumulators(r0, s0, z, e, []) && e !in Scratch(z) && At(e, j0, i0, pre0, q)
    requires Holds(r0, mv, sc, Power(b, pre0))
    modifies r0, s0, Scratch(z)
    ensures Ready(z, mv, sc) && ((r == r0 && r2 == s0) || (r == s0 && r2 == r0))
    ensures At(e, j, i, pre, q) && Bits(j, i) <= Bits(j0, i0) && Holds(r, mv, sc, Power(b, pre))
    ensures 0 <= j ==> Pow(2, Bits(j, i) - 1) <= q
  {
    r, r2, j, i, pre := r0, s0, j0, i0, pre0;
    while j >= 0
      invariant Ready(z, mv, sc) && ((r == r0 && r2 == s0) || (r == s0 && r2 == r0))
      invariant At(e, j, i, pre, q) && Bits(j, i) <= Bits(j0, i0) && Holds(r, mv, sc, Power(b, pre))
      decreases Bits(j, i)
    {
      var one := NextIsOne(e, j, i, pre, q);
      if one { break; }
      j, i := SkipZero(z, est, e, r, r2, j, i, mv, sc, b, pre, q);
      r, r2, pre := r2, r, 2 * pre;
    }
  }

  /** r = r^(2^n) * g[w], or just g[w] the first time. */
  method ApplyWindow(z: Reducer, est: Estimate, g: seq<BigInteger>, r0: BigInteger, s0: BigInteger, w: int, n: nat,
      first: bool,
                     ghost mv: int, ghost sc: int, ghost b: int, ghost pre: nat)
    returns (r: BigInteger, r2: BigInteger)
    requires Ready(z, mv, sc) && Table(g, Scratch(z), mv, sc, b) && w % 2 == 1 && 0 < w < 2 * |g|
    requires r0 != s0 && r0 !in Parts(z) && s0 !in Parts(z) && r0 !in g && s0 !in g
    requires if first then pre == 0 else Holds(r0, mv, sc, Power(b, pre))
    modifies r0, s0, Scratch(z)
    ensures Ready(z, mv, sc) && ((r == r0 && r2 == s0) || (r == s0 && r2 == r0))
    ensures Holds(r, mv, sc, Power(b, Shifted(pre, n) + w))
  {
    var gw := g[w / 2];
    assert Holds(gw, mv, sc, Power(b, w)) by { assert 2 * (w / 2) + 1 == w; }
    if first {
      r, r2 := r0, s0;
      gw.CopyTo(r);
      assert r.words[..r.t] == gw.words[..gw.t];
      assert Shifted(0, n) == 0;
    } else {
      r, r2 := SquareAndTimes(z, est, gw, r0, s0, w, n, mv, sc, b, pre);
    }
  }

  method SquareAndTimes(z: Reducer, est: Estimate, gw: BigInteger, r0: BigInteger, s0: BigInteger, ghost w: nat, n: nat,
                        ghost mv: int, ghost sc: int, ghost b: int, ghost pre: nat)
    returns (r: BigInteger, r2: BigInteger)
    requires Ready(z, mv, sc) && gw !in Scratch(z) && Holds(gw, mv, sc, Power(b, w))
    requires r0 != s0 && r0 !in Parts(z) && s0 !in Parts(z) && gw != r0 && gw != s0 && Holds(r0, mv, sc, Power(b, pre))
    modifies r0, s0, Scratch(z)
    ensures Ready(z, mv, sc) && ((r == r0 && r2 == s0) || (r == s0 && r2 == r0))
    ensures Holds(r, mv, sc, Power(b, Shifted(pre, n) + w))
  {
    ghost var c := Shifted(pre, n);
    r, r2 := SquareTimes(z, est, r0, s0, n, mv, sc, b, pre);
    TimesEntry(z, est, r2, gw, r, mv, sc, b, c, w);
  }

  /** r = r2 * g[w]. */
  method TimesEntry(z: Reducer, est: Estimate, r2: BigInteger, gw: BigInteger, r: BigInteger, ghost mv: int,
      ghost sc: int,
      ghost b: int, ghost c: nat, ghost w: nat)
    requires Ready(z, mv, sc) && r2 !in Scratch(z) && gw !in Scratch(z) && r !in Parts(z) && r != r2 && r != gw
    requires Holds(r2, mv, sc, Power(b, c)) && Holds(gw, mv, sc, Power(b, w))
    modifies r, Scratch(z)
    ensures Ready(z, mv, sc) && Holds(r, mv, sc, Power(b, c + w))
  {
    PowerAdd(b, c, w);
    MulTo(z, est, r2, gw, r, mv, sc, Power(b, c), Power(b, w));
  }

  /** Reads a window, strips it and moves past it. */
  method TakeWindow(e: BigInteger, j0: int, i0: int, k: nat, ghost pre0: nat, ghost q0: int)
    returns (w: int, n: nat, j: int, i: int, ghost pre: int, ghost q: int)
    requires At(e, j0, i0, pre0, q0) && 0 <= j0 && 0 < k <= 6 && Pow(2, Bits(j0, i0) - 1) <= q0
    ensures w % 2 == 1 && 0 < w < Pow(2, k) && pre == Shifted(pre0, n) + w
    ensures At(e, j, i, pre, q) && Bits(j, i) < Bits(j0, i0)
  {
    SixBits(k);
    w := ReadWindow(e, j0, i0, k, pre0, q0);
    w, n := Strip(w, k, q0, Bits(j0, i0));
    Consume(e.Value(), Bits(j0, i0), pre0, q0, n, w);
    pre, q := Shifted(pre0, n) + w, q0 - w * Pow(2, Bits(j0, i0) - n);
    j, i := Advance(e, j0, i0, n, pre0, q0, pre, q);
  }

  /** One window: read it, strip it, fold it in, and move past it and the zeros behind it. */
  method WindowStep(z: Reducer, est: Estimate, e: BigInteger, g: seq<BigInteger>, r0: BigInteger, s0: BigInteger,
      j0: int, i0: int,
                    k: nat, first: bool, ghost mv: int, ghost sc: int, ghost b: int, ghost pre0: nat, ghost q0: int)
    returns (r: BigInteger, r2: BigInteger, j: int, i: int, ghost pre: int, ghost q: int)
    requires Ready(z, mv, sc) && Table(g, Scratch(z), mv, sc, b) && 0 < k <= 6 && 2 * |g| == Pow(2, k)
    requires Accumulators(r0, s0, z, e, g) && e !in Scratch(z)
    requires At(e, j0, i0, pre0, q0) && 0 <= j0 && Pow(2, Bits(j0, i0) - 1) <= q0
    requires if first then pre0 == 0 else Holds(r0, mv, sc, Power(b, pre0))
    modifies r0, s0, Scratch(z)
    ensures Ready(z, mv, sc) && ((r == r0 && r2 == s0) || (r == s0 && r2 == r0))
    ensures At(e, j, i, pre, q) && 0 <= pre && Bits(j, i) < Bits(j0, i0) && Holds(r, mv, sc, Power(b, pre))
    ensures 0 <= j ==> Pow(2, Bits(j, i) - 1) <= q
  {
    var w, n;
    w, n, j, i, pre, q := TakeWindow(e, j0, i0, k, pre0, q0);
    r, r2 := ApplyWindow(z, est, g, r0, s0, w, n, first, mv, sc, b, pre0);
    r, r2, j, i, pre := SkipZeros(z, est, e, r, r2, j, i, mv, sc, b, pre, q);
  }

  /** The exponent's highest bit. */
  method StartAt(e: BigInteger) returns (j: int, i: int)
    requires NonNegative(e) && e.t > 0
    ensures 0 <= j && At(e, j, i, 0, e.Value()) && Pow(2, Bits(j, i) - 1) <= e.Value()
  {
    j := e.t - 1;
    var nb := NBits(e.words[j]);
    TopBits(e.words[..e.t], nb);
    StartReading(e.words[..e.t], nb);
    i := nb - 1;
  }

  /** The loop over the exponent. */
  method ReadExponent(z: Reducer, est: Estimate, e: BigInteger, g: seq<BigInteger>, r0: BigInteger, s0: BigInteger,
      k: nat, ghost mv: int, ghost sc: int, ghost b: int)
    returns (r: BigInteger)
    requires Ready(z, mv, sc) && Table(g, Scratch(z), mv, sc, b) && 0 < k <= 6 && 2 * |g| == Pow(2, k)
    requires Accumulators(r0, s0, z, e, g) && e !in Scratch(z) && NonNegative(e) && e.t > 0
    modifies r0, s0, Scratch(z)
    ensures Ready(z, mv, sc) && e.Value() > 0 && Holds(r, mv, sc, Power(b, e.Value()))
  {
    var j, i := StartAt(e);
    var r2;
    ghost var pre: int, q: int, ev: nat := 0, 0, e.Value();
    r, r2, j, i, pre, q := WindowStep(z, est, e, g, r0, s0, j, i, k, true, mv, sc, b, 0, ev);
    r := ReadRest(z, est, e, g, r, r2, j, i, k, mv, sc, b, pre, q, ev);
  }

  /** The windows after the first. */
  method ReadRest(z: Reducer, est: Estimate, e: BigInteger, g: seq<BigInteger>, r0: BigInteger, s0: BigInteger,
      j0: int, i0: int, k: nat, ghost mv: int, ghost sc: int, ghost b: int, ghost pre0: int, ghost q0: int,
        ghost ev: nat)
    returns (r: BigInteger)
    requires Ready(z, mv, sc) && Table(g, Scratch(z), mv, sc, b) && 0 < k <= 6 && 2 * |g| == Pow(2, k)
    requires Accumulators(r0, s0, z, e, g) && e !in Scratch(z)
    requires At(e, j0, i0, pre0, q0) && 0 <= pre0 && (0 <= j0 ==> Pow(2, Bits(j0, i0) - 1) <= q0)
      && Holds(r0, mv, sc, Power(b, pre0)) && ev == e.Value()
    modifies r0, s0, Scratch(z)
    ensures Ready(z, mv, sc) && Holds(r, mv, sc, Power(b, ev))
  {
    var r2, j, i;
    r, r2, j, i := r0, s0, j0, i0;
    ghost var pre, q := pre0, q0;
    while j >= 0
      invariant Ready(z, mv, sc) && ((r == r0 && r2 == s0) || (r == s0 && r2 == r0))
      invariant Table(g, Scratch(z), mv, sc, b) && At(e, j, i, pre, q) && 0 <= pre
        && (0 <= j ==> Pow(2, Bits(j, i) - 1) <= q)
      invariant Holds(r, mv, sc, Power(b, pre))
      decreases Bits(j, i)
    {
      r, r2, j, i, pre, q := WindowStep(z, est, e, g, r, r2, j, i, k, false, mv, sc, b, pre, q);
    }
    AllRead(ev, pre, q);
  }

  lemma AllRead(e: int, pre: int, q: int)
    requires Reading(e, 0, pre, q)
    ensures pre == e
  {
    assert Pow(2, 0) == 1;
  }

  /** Which reducer the code picks. */
  method ChooseReducer(m: BigInteger, bits: int, est: Estimate) returns (z: Reducer, ghost sc: int)
    requires NonNegative(m) && m.Value() > 0 && (m.Value() % 2 == 0 ==> m.t + 4 <= B)
    ensures Ready(z, m.Value(), sc) && Modulus(z) == m
    ensures forall o :: o in Parts(z) ==> o == m || fresh(o)
  {
    LowestDigit(m.words[..m.t]);
    if bits < 8 {
      z, sc := Classic(m), 1;
    } else if Mask(m.words[0], 2) == 0 {
      var b := new Barrett(m, est);
      z, sc := ByBarrett(b), 1;
    } else {
      var y := new Montgomery(m);
      z, sc := ByMontgomery(y), P(m.t);
    }
  }

  lemma LowestDigit(w: seq<int>)
    requires |w| > 0
    ensures w[0] % 2 == V(w) % 2
  {
    LowDigit(w, 0);
    assert w[0..] == w;
  }

  /** The window width the code picks for an exponent of the given number of bits. */
  function WindowWidth(bits: int): nat {
    if bits < 18 then 1 else if bits < 48 then 3 else if bits < 144 then 4 else if bits < 768 then 5 else 6
  }

  /**
   x^e mod m for e >= 0 and m >= 1, whatever the sign of x and however quotient digits are
   estimated; 1 for e == 0, whatever m is.
   */
  method ModPow(x: BigInteger, e: BigInteger, m: BigInteger, est: Estimate) returns (r: BigInteger)
    requires x.Normal() && NonNegative(e) && NonNegative(m) && m.Value() > 0 && (m.Value() % 2 == 0 ==> m.t + 4 <= B)
    ensures NonNegative(r)
    ensures e.Value() > 0 ==> r.Value() == Power(x.Value(), e.Value()) % m.Value()
    ensures e.Value() <= 0 ==> r.Value() == 1
  {
    r := new BigInteger();
    r.FromInt(1);
    ghost var ev, mv := e.Value(), m.Value();
    NormalRange(e.words[..e.t], 0);
    if e.t <= 0 { return; }
    var nb := NBits(e.words[e.t - 1]);
    var bits := DB * (e.t - 1) + nb;
    var k := WindowWidth(bits);
    var z, sc := ChooseReducer(m, bits, est);
    r := RunModPow(z, est, x, e, r, k, mv, sc);
  }

  /** ModPow with the estimate of the code, in double precision. */
  method ModPowInDoubles(x: BigInteger, e: BigInteger, m: BigInteger, fl: real -> real) returns (r: BigInteger)
    requires x.Normal() && NonNegative(e) && NonNegative(m) && m.Value() > 0 && (m.Value() % 2 == 0 ==> m.t + 4 <= B)
    requires Doubles.RoundsToNearest(fl)
    ensures NonNegative(r) && r.Value() == if e.Value() > 0 then Power(x.Value(), e.Value()) % m.Value() else 1
  {
    QuotientEstimate.DoubleEstimateIsEstimate(fl);
    r := ModPow(x, e, m, (xs, ys) => QuotientEstimate.DoubleEstimate(fl, xs, ys));
  }

  /** Precomputation, loop and conversion back. */
  method RunModPow(z: Reducer, est: Estimate, x: BigInteger, e: BigInteger, r0: BigInteger, k: nat, ghost mv: int,
      ghost sc: int)
    returns (r: BigInteger)
    requires Ready(z, mv, sc) && x.Normal() && NonNegative(e) && e.t > 0 && 0 < k <= 6
    requires x !in Internals(z) && e !in Scratch(z) && r0 !in Parts(z) && r0 != x && r0 != e
    modifies r0, Scratch(z)
    ensures NonNegative(r) && e.Value() > 0 && r.Value() == Power(x.Value(), e.Value()) % mv
  {
    ghost var b := x.Value();
    var g := BuildTable(z, est, x, k, mv, sc);
    var r2 := new BigInteger();
    r := ReadExponent(z, est, e, g, r0, r2, k, mv, sc, b);
    r := Revert(z, r, mv, sc, Power(b, e.Value()));
  }
}
