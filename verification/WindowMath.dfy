/**
 The bits of an exponent as the sliding window of benchmarks/crypto.js:1127-1153 sees
 them: with p bits still to read, e == pre*2^p + q.
 */
module WindowMath {
  import opened Digits
  import opened BignumMath

  /** pre are the bits read, q the p bits to come. */
  ghost predicate Reading(e: int, p: nat, pre: int, q: int) {
    e == pre * Pow(2, p) + q && 0 <= q < Pow(2, p) && 0 <= pre
  }

  /** w are the n leading bits of the p-bit number q, padded with zeros when n > p. */
  ghost predicate Leading(q: int, p: nat, n: nat, w: int) {
    if n <= p then w * Pow(2, p - n) <= q < (w + 1) * Pow(2, p - n)
    else w == q * Pow(2, n - p)
  }

  lemma Halve(n: nat)
    requires n > 0
    ensures Pow(2, n) == 2 * Pow(2, n - 1)
  {
  }

  /** Dropping a trailing zero from the window. */
  lemma LeadingHalf(q: int, p: nat, n: nat, w: int)
    requires Leading(q, p, n, w) && n > 0 && w % 2 == 0
    ensures Leading(q, p, n - 1, w / 2)
  {
    if n <= p {
      Halve(p - n + 1);
      HalfWindow(q, Pow(2, p - n), w, w / 2);
    } else {
      Halve(n - p);
      HalfPadded(q, Pow(2, n - p - 1), w, w / 2);
    }
  }

  lemma HalfWindow(q: int, a: int, w: int, h: int)
    requires w == 2 * h && w * a <= q < (w + 1) * a && 0 < a
    ensures h * (2 * a) <= q < (h + 1) * (2 * a)
  {
    assert h * (2 * a) == w * a && (h + 1) * (2 * a) == (w + 1) * a + a;
  }

  lemma HalfPadded(q: int, a: int, w: int, h: int)
    requires w == 2 * h && w == q * (2 * a)
    ensures h == q * a
  {
    assert q * (2 * a) == 2 * (q * a);
  }

  /** A window that starts with a one is not zero, and of one bit it is 1. */
  lemma LeadsWithOne(q: int, p: nat, n: nat, w: int)
    requires Leading(q, p, n, w) && n > 0 && p > 0 && Pow(2, p - 1) <= q < Pow(2, p)
    ensures 1 <= w && (n == 1 ==> w == 1)
  {
    if n <= p {
      var a := Pow(2, p - n);
      PowMonotone(2, p - n, p - 1);
      if w < 1 {
        MulMono(w + 1, 1, a);
        assert false;
      }
      if n == 1 && w >= 2 {
        MulMono(2, w, a);
        Halve(p);
        assert false;
      }
    } else {
      MulMono(1, q, Pow(2, n - p));
    }
  }

  /** An odd window lies within the bits that are there. */
  lemma OddLeading(q: int, p: nat, n: nat, w: int)
    requires Leading(q, p, n, w) && w % 2 == 1
    ensures n <= p
  {
    if n > p {
      EvenPadded(q, p, n, w);
      assert false;
    }
  }

  lemma EvenPadded(q: int, p: nat, n: nat, w: int)
    requires n > p && w == q * Pow(2, n - p)
    ensures w % 2 == 0
  {
    Halve(n - p);
    TwiceIsEven(q, Pow(2, n - p - 1));
  }

  lemma TwiceIsEven(q: int, x: int)
    ensures (q * (2 * x)) % 2 == 0
  {
    var y := q * x;
    assert q * (2 * x) == 2 * y;
  }

  /** Consuming an n-bit window. */
  lemma Consume(e: int, p: nat, pre: int, q: int, n: nat, w: int)
    requires Reading(e, p, pre, q) && n <= p && Leading(q, p, n, w) && 0 <= w
    ensures Reading(e, p - n, pre * Pow(2, n) + w, q - w * Pow(2, p - n))
  {
    PowAdd(2, p - n, n);
    ConsumeArith(pre, w, q, Pow(2, p - n), Pow(2, n));
  }

  lemma ConsumeArith(pre: int, w: int, q: int, a: int, b: int)
    requires 0 <= pre && 0 <= w && 0 < b && w * a <= q < (w + 1) * a
    ensures pre * (a * b) + q == (pre * b + w) * a + (q - w * a) && 0 <= q - w * a < a && 0 <= pre * b + w
  {
    assert (pre * b + w) * a == pre * (a * b) + w * a;
    assert (w + 1) * a == w * a + a;
    MulMono(0, pre, b);
  }

  /** Consuming a zero bit. */
  lemma ConsumeZero(e: int, p: nat, pre: int, q: int)
    requires Reading(e, p, pre, q) && p > 0 && q < Pow(2, p - 1)
    ensures Reading(e, p - 1, 2 * pre, q)
  {
    Halve(p);
    assert pre * (2 * Pow(2, p - 1)) == (2 * pre) * Pow(2, p - 1);
  }

  /** At digit j and bit i: what is still to read is the low i + 1 bits of the digit and everything below. */
  lemma UnreadDigits(es: seq<int>, j: nat, i: nat, pre: int, q: int)
    requires AllWords(es) && j < |es| && i < DB && Reading(V(es), DB * j + i + 1, pre, q)
    ensures q == (es[j] % Pow(2, i + 1)) * P(j) + V(es[..j])
    ensures Pow(2, DB * j + i + 1) == Pow(2, i + 1) * P(j)
  {
    var d, u, v, lo, hi := es[j], Pow(2, i + 1), Pow(2, DB - i - 1), V(es[..j]), V(es[j + 1..]);
    var dq := d % u;
    BaseIsTwos(j);
    PowAdd(2, i + 1, DB * j);
    HalfWords(i + 1);
    ValSplit(B, es, j);
    LowDigit(es, j);
    ValBound(B, es[..j]);
    DigitSplit(V(es), d, u, v, lo, hi, P(j));
    LowPart(dq, u, lo, P(j));
    ghost var m := u * P(j);
    assert pre * m == m * pre;
    SplitUnique(q, pre, dq * P(j) + lo, d / u + v * hi, m);
  }

  lemma DigitSplit(e: int, d: int, u: int, v: int, lo: int, hi: int, p: int)
    requires e == lo + p * (d + B * hi) && u * v == B && u > 0
    ensures e == ((d % u) * p + lo) + (u * p) * (d / u + v * hi)
  {
    var k, l := d / u, d % u;
    assert d == u * k + l;
    assert p * (d + B * hi) == p * d + p * (B * hi);
    assert p * (u * k + l) == (u * p) * k + l * p;
    assert p * ((u * v) * hi) == (u * p) * (v * hi);
    assert (u * p) * (k + v * hi) == (u * p) * k + (u * p) * (v * hi);
  }

  lemma LowPart(l: int, u: int, lo: int, p: int)
    requires 0 <= l < u && 0 <= lo < p
    ensures 0 <= l * p + lo < u * p
  {
    MulMono(0, l, p);
    MulMono(l, u - 1, p);
    assert (u - 1) * p == u * p - p;
  }

  /** A window inside one digit. */
  lemma WindowInside(es: seq<int>, j: nat, i: nat, k: nat, pre: int, q: int, w: int)
    requires AllWords(es) && j < |es| && i < DB && 0 < k <= i + 1 && Reading(V(es), DB * j + i + 1, pre, q)
    requires w == (es[j] / Pow(2, i + 1 - k)) % Pow(2, k)
    ensures Leading(q, DB * j + i + 1, k, w)
  {
    UnreadDigits(es, j, i, pre, q);
    var a, b, d := Pow(2, i + 1 - k), Pow(2, k), es[j];
    PowAdd(2, i + 1 - k, k);
    PowAdd(2, i + 1 - k, DB * j);
    BaseIsTwos(j);
    DivThenMod(d, a, b);
    ValBound(B, es[..j]);
    ScaledWindow(d % (a * b), a, w, P(j), V(es[..j]));
  }

  /** (d / a) % b reads bits out of d % (a*b). */
  lemma DivThenMod(d: int, a: int, b: int)
    requires a > 0 && b > 0
    ensures a * b > 0
    ensures var w := (d / a) % b; w * a <= d % (a * b) < (w + 1) * a
  {
    MulMono(1, a, b);
    NestedDivision(d, a, b, d / a, d % a, (d / a) / b, (d / a) % b);
  }

  lemma NestedDivision(d: int, a: int, b: int, c: int, l: int, h: int, w: int)
    requires d == a * c + l && 0 <= l < a && c == b * h + w && 0 <= w < b && 0 < a * b
    ensures d % (a * b) == w * a + l && w * a <= w * a + l < (w + 1) * a
  {
    var m := a * b;
    assert a * (b * h + w) == m * h + w * a;
    MulMono(0, w, a);
    MulMono(w, b - 1, a);
    assert (b - 1) * a == m - a && (w + 1) * a == w * a + a;
    DivModUnique(d, m, h, w * a + l);
  }

  lemma ScaledWindow(dq: int, a: int, w: int, p: int, lo: int)
    requires w * a <= dq < (w + 1) * a && 0 <= lo < p
    ensures w * (a * p) <= dq * p + lo < (w + 1) * (a * p)
  {
    MulMono(w * a, dq, p);
    MulMono(dq + 1, (w + 1) * a, p);
    assert (w * a) * p == w * (a * p) && ((w + 1) * a) * p == (w + 1) * (a * p);
    assert (dq + 1) * p == dq * p + p;
  }

  /** A window across digits j and j - 1. */
  lemma WindowAcross(es: seq<int>, j: nat, i: nat, k: nat, pre: int, q: int, w: int)
    requires AllWords(es) && 0 < j < |es| && i + 1 < k <= DB && Reading(V(es), DB * j + i + 1, pre, q)
    requires w == (es[j] % Pow(2, i + 1)) * Pow(2, k - i - 1) + es[j - 1] / Pow(2, DB - (k - i - 1))
    ensures Leading(q, DB * j + i + 1, k, w)
  {
    UnreadDigits(es, j, i, pre, q);
    var s := k - i - 1;
    var u, c, dq, d := Pow(2, s), Pow(2, DB - s), es[j] % Pow(2, i + 1), es[j - 1];
    HalfWords(s);
    SliceSnoc(es, 0, j - 1);
    ValSnoc(B, es[..j - 1], d);
    ValBound(B, es[..j - 1]);
    BaseIsTwos(j - 1);
    PowAdd(2, DB - s, DB * (j - 1));
    assert DB * j + i + 1 - k == (DB - s) + DB * (j - 1);
    AcrossArith(dq, u, c, d, w, P(j - 1), V(es[..j - 1]));
  }

  lemma AcrossArith(dq: int, u: int, c: int, d: int, w: int, p: int, lo: int)
    requires u * c == B && 0 < c && w == dq * u + d / c && 0 <= lo < p
    ensures w * (c * p) <= dq * (B * p) + (lo + d * p) < (w + 1) * (c * p)
  {
    var h, l := d / c, d % c;
    assert d == c * h + l;
    assert (dq * u + h) * (c * p) == dq * ((u * c) * p) + (c * h) * p;
    assert d * p == (c * h) * p + l * p;
    assert (w + 1) * (c * p) == w * (c * p) + c * p;
    MulMono(0, l, p);
    MulMono(l, c - 1, p);
    assert (c - 1) * p == c * p - p;
  }

  /** A window that runs past the lowest bit. */
  lemma WindowPadded(es: seq<int>, i: nat, k: nat, pre: int, q: int, w: int)
    requires AllWords(es) && 0 < |es| && i + 1 < k && i < DB && Reading(V(es), i + 1, pre, q)
    requires w == (es[0] % Pow(2, i + 1)) * Pow(2, k - i - 1)
    ensures Leading(q, i + 1, k, w)
  {
    UnreadDigits(es, 0, i, pre, q);
    assert es[..0] == [] && P(0) == 1;
  }

  /** Testing bit i of digit j tells whether the next bit to read is a one. */
  lemma NextBit(es: seq<int>, j: nat, i: nat, pre: int, q: int)
    requires AllWords(es) && j < |es| && i < DB && Reading(V(es), DB * j + i + 1, pre, q)
    ensures (es[j] / Pow(2, i)) % 2 == 0 <==> q < Pow(2, DB * j + i)
  {
    assert Pow(2, 1) == 2 * Pow(2, 0);
    WindowInside(es, j, i, 1, pre, q, (es[j] / Pow(2, i)) % 2);
    var a := Pow(2, DB * j + i);
    Halve(DB * j + i + 1);
  }

  /** The exponent's top digit starts the reading. */
  lemma StartReading(es: seq<int>, b: nat)
    requires AllWords(es) && |es| > 0 && 0 < b <= DB && Pow(2, b - 1) <= es[|es| - 1] < Pow(2, b)
    ensures var p := DB * (|es| - 1) + b; Reading(V(es), p, 0, V(es)) && Pow(2, p - 1) <= V(es)
  {
    var j, d := |es| - 1, es[|es| - 1];
    ValTop(B, es);
    BaseIsTwos(j);
    PowAdd(2, b, DB * j);
    PowAdd(2, b - 1, DB * j);
    MulMono(Pow(2, b - 1), d, P(j));
    MulMono(d + 1, Pow(2, b), P(j));
  }
}
