/** Modular arithmetic and powers used by the modular exponentiation. */
module ModArith {
  import opened Digits
  import opened BignumMath
  import opened MontgomeryMath

  /** b to the n, for any integer b. */
  ghost function Power(b: int, n: nat): int {
    if n == 0 then 1 else b * Power(b, n - 1)
  }

  lemma {:induction false} PowerAdd(b: int, m: nat, n: nat)
    ensures Power(b, m + n) == Power(b, m) * Power(b, n)
  {
    if m > 0 {
      PowerAdd(b, m - 1, n);
      var p, q := Power(b, m - 1), Power(b, n);
      assert b * (p * q) == (b * p) * q;
    }
  }

  lemma CongruentMul(a: int, b: int, c: int, d: int, m: int)
    requires Congruent(a, b, m) && Congruent(c, d, m)
    ensures Congruent(a * c, b * d, m)
  {
    var i := CongruentBy(a, b, m);
    var j := CongruentBy(c, d, m);
    ProductOfSums(b, d, m, i, j);
    CongruentIf(a * c, b * d, m, b * j + i * d + m * (i * j));
  }

  lemma ProductOfSums(b: int, d: int, m: int, i: int, j: int)
    ensures (b + m * i) * (d + m * j) == b * d + m * (b * j + i * d + m * (i * j))
  {
    var e := d + m * j;
    assert (b + m * i) * e == b * e + m * (i * e);
    assert b * e == b * d + m * (b * j);
    assert i * e == i * d + m * (i * j);
  }

  lemma CongruentMod(a: int, m: int)
    requires m > 0
    ensures Congruent(a % m, a, m)
  {
    CongruentIf(a % m, a, m, -(a / m));
  }

  lemma CongruentSmall(a: int, b: int, m: int)
    requires Congruent(a, b, m) && 0 <= a < m
    ensures a == b % m
  {
    DivModUnique(a, m, 0, a);
  }

  /** Every power of two has an inverse modulo an odd number. */
  lemma {:induction false} TwoInverse(k: nat, m: int)
    requires m > 0 && m % 2 == 1
    ensures Congruent(Pow(2, k) * Power((m + 1) / 2, k), 1, m)
  {
    var h := (m + 1) / 2;
    if k == 0 {
      assert Pow(2, 0) * Power(h, 0) == 1;
    } else {
      TwoInverse(k - 1, m);
      var p, q := Pow(2, k - 1), Power(h, k - 1);
      CongruentIf(2 * h, 1, m, 1);
      CongruentMul(2 * h, 1, p * q, 1, m);
      assert (2 * p) * (h * q) == (2 * h) * (p * q);
    }
  }

  /** A common factor B^t cancels modulo an odd number. */
  lemma CancelBase(a: int, b: int, t: nat, m: int)
    requires m > 0 && m % 2 == 1 && Congruent(a * P(t), b * P(t), m)
    ensures Congruent(a, b, m)
  {
    var r, i := P(t), Power((m + 1) / 2, DB * t);
    BaseIsTwos(t);
    TwoInverse(DB * t, m);
    CongruentMul(a * r, b * r, i, i, m);
    CongruentMul(a, a, r * i, 1, m);
    CongruentMul(b, b, r * i, 1, m);
    assert (a * r) * i == a * (r * i) && (b * r) * i == b * (r * i);
  }

  /** The product of two residues, reduced. */
  lemma MulResidues(a: int, b: int, m: int)
    requires m > 0
    ensures ((a % m) * (b % m)) % m == (a * b) % m
  {
    CongruentMod(a, m);
    CongruentMod(b, m);
    CongruentMul(a % m, a, b % m, b, m);
  }

  /** Montgomery form: if r*R == x*y with x == a*R and y == b*R, then r == a*b*R. */
  lemma MulMontgomery(r: int, x: int, y: int, a: int, b: int, t: nat, m: int)
    requires m > 0 && m % 2 == 1 && 0 <= r < m && Congruent(r * P(t), x * y, m)
    requires x == (a * P(t)) % m && y == (b * P(t)) % m
    ensures r == (a * b * P(t)) % m
  {
    var q := P(t);
    CongruentMod(a * q, m);
    CongruentMod(b * q, m);
    CongruentMul(x, a * q, y, b * q, m);
    assert (a * q) * (b * q) == (a * b * q) * q;
    CancelBase(r, a * b * q, t, m);
    CongruentSmall(r, a * b * q, m);
  }

  /** Leaving Montgomery form. */
  lemma RevertMontgomery(r: int, x: int, a: int, t: nat, m: int)
    requires m > 0 && m % 2 == 1 && 0 <= r < m && Congruent(r * P(t), x, m) && x == (a * P(t)) % m
    ensures r == a % m
  {
    CongruentMod(a * P(t), m);
    CancelBase(r, a, t, m);
    CongruentSmall(r, a, m);
  }
}
