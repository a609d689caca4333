/**
 benchmarks/crypto.js:620-637: exponentiation by a small exponent, one bit at a time. It
 computes what the sliding window computes.
 */
module SmallExponentiation {
  import opened Digits
  import opened JsWord
  import opened BignumMath
  import opened NumberBits
  import opened DivisionMath
  import opened ModArith
  import opened Bignum
  import opened Division
  import opened MontgomeryReducer
  import opened Reducers
  import opened ModularExponentiation

  /** (e & (1<<i)) > 0 for i < 31. */
  predicate TestBit(e: int, i: nat) {
    (e / Pow(2, i)) % 2 == 1
  }

  /** The bits of e from i up are twice those from i + 1 up, and bit i. */
  lemma NextPrefix(e: int, i: nat)
    requires 0 <= e
    ensures e / Pow(2, i) == 2 * (e / Pow(2, i + 1)) + (if TestBit(e, i) then 1 else 0)
    ensures 0 <= e / Pow(2, i + 1)
  {
    var u := Pow(2, i);
    DivTwice(e, u);
    var d := e / u;
    assert d == 2 * (d / 2) + d % 2;
    MulMono(0, e / (2 * u), 2 * u);
  }

  lemma DivTwice(e: int, u: int)
    requires 0 <= e && 0 < u
    ensures e / (2 * u) == (e / u) / 2 && 0 <= e / (2 * u)
  {
    var d := e / u;
    var h := d / 2;
    var r := e - h * (2 * u);
    assert e == u * d + e % u;
    MulMono(2 * h, d, u);
    MulMono(d, 2 * h + 1, u);
    assert h * (2 * u) == (2 * h) * u;
    assert (2 * h + 1) * u == (2 * h) * u + u;
    DivModUnique(e, 2 * u, h, r);
    MulMono(0, d, u);
  }

  /** The leading bit alone. */
  lemma FirstPrefix(e: int, nb: nat)
    requires BitSize(e, nb)
    ensures e / Pow(2, nb - 1) == 1
  {
    WindowMath.Halve(nb);
    DivModUnique(e, Pow(2, nb - 1), 1, e - Pow(2, nb - 1));
  }

  /** One bit: square, and multiply by the base if it is set. */
  method BitStep(z: Reducer, est: Estimate, e: int, g: BigInteger, r0: BigInteger, s0: BigInteger, i: nat,
                 ghost mv: int, ghost sc: int, ghost b: int) returns (r: BigInteger, r2: BigInteger)
    requires Ready(z, mv, sc) && r0 != s0 && r0 !in Parts(z) && s0 !in Parts(z) && g !in Scratch(z) && g != r0
      && g != s0
    requires 0 <= e && Holds(g, mv, sc, b) && 0 <= e / Pow(2, i + 1) && Holds(r0, mv, sc, Power(b, e / Pow(2, i + 1)))
    modifies r0, s0, Scratch(z)
    ensures Ready(z, mv, sc) && ((r == r0 && r2 == s0) || (r == s0 && r2 == r0))
    ensures 0 <= e / Pow(2, i) && Holds(r, mv, sc, Power(b, e / Pow(2, i)))
  {
    ghost var c := e / Pow(2, i + 1);
    NextPrefix(e, i);
    PowerAdd(b, c, c);
    SqrTo(z, est, r0, s0, mv, sc, Power(b, c));
    if TestBit(e, i) {
      assert Power(b, 1) == b * Power(b, 0);
      TimesEntry(z, est, s0, g, r0, mv, sc, b, 2 * c, 1);
      r, r2 := r0, s0;
    } else {
      r, r2 := s0, r0;
    }
  }

  /** The bits below the leading one. */
  method ReadBits(z: Reducer, est: Estimate, e: int, g: BigInteger, r0: BigInteger, s0: BigInteger, i0: int,
                  ghost mv: int, ghost sc: int, ghost b: int) returns (r: BigInteger)
    requires Ready(z, mv, sc) && r0 != s0 && r0 !in Parts(z) && s0 !in Parts(z) && g !in Scratch(z) && g != r0
      && g != s0
    requires 0 < e && 0 <= i0 && Holds(g, mv, sc, b) && 0 <= e / Pow(2, i0)
      && Holds(r0, mv, sc, Power(b, e / Pow(2, i0)))
    modifies r0, s0, Scratch(z)
    ensures Ready(z, mv, sc) && Holds(r, mv, sc, Power(b, e))
  {
    var r2, i := s0, i0;
    r := r0;
    while i > 0
      invariant 0 <= i && Ready(z, mv, sc) && ((r == r0 && r2 == s0) || (r == s0 && r2 == r0))
      invariant Holds(g, mv, sc, b) && 0 <= e / Pow(2, i) && Holds(r, mv, sc, Power(b, e / Pow(2, i)))
    {
      i := i - 1;
      r, r2 := BitStep(z, est, e, g, r, r2, i, mv, sc, b);
    }
    assert Pow(2, 0) == 1;
  }

  /** bnpExp: x^e in the arithmetic of the reducer, and 1 for an exponent out of range. */
  method Exp(x: BigInteger, e: int, z: Reducer, est: Estimate, ghost mv: int, ghost sc: int) returns (r: BigInteger)
    requires Ready(z, mv, sc) && x.Normal() && x !in Internals(z)
    modifies Scratch(z)
    ensures NonNegative(r)
    ensures if 1 <= e <= 0xffff_ffff then r.Value() == Power(x.Value(), e) % mv else r.Value() == 1
  {
    ghost var b := x.Value();
    r := new BigInteger();
    if e > 0xffff_ffff || e < 1 {
      r.FromInt(1);
      return;
    }
    var r2 := new BigInteger();
    var g := Convert(z, est, x, mv, sc);
    r := AllBits(z, est, e, g, r, r2, mv, sc, b);
    r := Revert(z, r, mv, sc, Power(b, e));
  }

  /** All bits of the exponent, beginning with a copy of the base. */
  method AllBits(z: Reducer, est: Estimate, e: int, g: BigInteger, r0: BigInteger, s0: BigInteger,
                 ghost mv: int, ghost sc: int, ghost b: int) returns (r: BigInteger)
    requires Ready(z, mv, sc) && r0 != s0 && r0 !in Parts(z) && s0 !in Parts(z) && g !in Scratch(z) && g != r0
      && g != s0
    requires 0 < e <= 0xffff_ffff && Holds(g, mv, sc, b)
    modifies r0, s0, Scratch(z)
    ensures Ready(z, mv, sc) && Holds(r, mv, sc, Power(b, e))
  {
    var nb := NBits(e);
    FirstPrefix(e, nb);
    g.CopyTo(r0);
    assert r0.words[..r0.t] == g.words[..g.t];
    assert Power(b, 1) == b * Power(b, 0);
    r := ReadBits(z, est, e, g, r0, s0, nb - 1, mv, sc, b);
  }

  /** bnModPowInt: x^e mod m. */
  method ModPowInt(x: BigInteger, e: int, m: BigInteger, est: Estimate) returns (r: BigInteger)
    requires x.Normal() && NonNegative(m) && m.Value() > 0
    ensures NonNegative(r)
    ensures if 1 <= e <= 0xffff_ffff then r.Value() == Power(x.Value(), e) % m.Value() else r.Value() == 1
  {
    NormalRange(m.words[..m.t], 0);
    LowestDigit(m.words[..m.t]);
    if e < 256 || Mask(m.words[0], 2) == 0 {
      r := Exp(x, e, Classic(m), est, m.Value(), 1);
    } else {
      var y := new Montgomery(m);
      r := Exp(x, e, ByMontgomery(y), est, m.Value(), P(m.t));
    }
  }

  // ----- Without a modulus

  /** One bit with the null reducer, which does not reduce. */
  method PlainStep(e: int, g: BigInteger, r0: BigInteger, s0: BigInteger, i: nat, ghost b: int)
      returns (r: BigInteger, r2: BigInteger)
    requires r0 != s0 && g != r0 && g != s0 && g.Valid() && g.Value() == b
    requires 0 <= e && 0 <= e / Pow(2, i + 1) && r0.Valid() && r0.Value() == Power(b, e / Pow(2, i + 1))
    modifies r0, s0
    ensures ((r == r0 && r2 == s0) || (r == s0 && r2 == r0))
    ensures 0 <= e / Pow(2, i) && r.Normal() && r.Value() == Power(b, e / Pow(2, i))
  {
    ghost var c := e / Pow(2, i + 1);
    NextPrefix(e, i);
    PowerAdd(b, c, c);
    r0.SquareTo(s0);
    if TestBit(e, i) {
      assert Power(b, 1) == b * Power(b, 0);
      PowerAdd(b, 2 * c, 1);
      s0.MultiplyTo(g, r0);
      r, r2 := r0, s0;
    } else {
      r, r2 := s0, r0;
    }
  }

  /** bnPow: x^e itself, for every x; 1 for an exponent out of range. */
  method PowInt(x: BigInteger, e: int) returns (r: BigInteger)
    requires x.Normal()
    ensures r.Normal() && r.Value() == if 1 <= e <= 0xffff_ffff then Power(x.Value(), e) else 1
  {
    ghost var b := x.Value();
    r := new BigInteger();
    if e > 0xffff_ffff || e < 1 {
      r.FromInt(1);
      return;
    }
    var r2 := new BigInteger();
    var nb := NBits(e);
    FirstPrefix(e, nb);
    x.CopyTo(r);
    assert r.words[..r.t] == x.words[..x.t];
    assert Power(b, 1) == b * Power(b, 0);
    var i := nb - 1;
    while i > 0
      invariant 0 <= i && fresh(r) && fresh(r2) && r != r2 && x.Value() == b
      invariant 0 <= e / Pow(2, i) && r.Normal() && r.Value() == Power(b, e / Pow(2, i))
    {
      i := i - 1;
      r, r2 := PlainStep(e, x, r, r2, i, b);
    }
    assert Pow(2, 0) == 1;
  }
}
