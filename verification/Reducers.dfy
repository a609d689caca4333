/**
 benchmarks/crypto.js: the three modular reducers behind one interface. Each keeps
 residues in its own form; `Holds` says which residue a number stands for.
 */
module Reducers {
  import opened Digits
  import opened BignumMath
  import opened DivisionMath
  import opened ModArith
  import opened Bignum
  import opened Division
  import opened BarrettReducer
  import opened MontgomeryReducer

  datatype Reducer = Classic(m: BigInteger) | ByBarrett(b: Barrett) | ByMontgomery(z: Montgomery)

  function Modulus(z: Reducer): BigInteger {
    match z
    case Classic(m) => m
    case ByBarrett(b) => b.m
    case ByMontgomery(z) => z.m
  }

  /** The numbers a reducer overwrites while it works. */
  function Scratch(z: Reducer): set<BigInteger> {
    if z.ByBarrett? then {z.b.r2, z.b.q3} else {}
  }

  /** The numbers a reducer made for itself. */
  function Internals(z: Reducer): set<BigInteger> {
    Scratch(z) + (if z.ByBarrett? then {z.b.mu} else {})
  }

  /** Everything a reducer depends on. */
  function Parts(z: Reducer): set<BigInteger> {
    {Modulus(z)} + Internals(z)
  }

  /** z is ready to reduce modulo mv and keeps residues multiplied by sc. */
  ghost predicate Ready(z: Reducer, mv: int, sc: int)
    reads Parts(z)
  {
    && NonNegative(Modulus(z)) && Modulus(z).Value() == mv > 0
    && match z
       case Classic(_) => sc == 1
       case ByBarrett(b) => b.Valid() && sc == 1
       case ByMontgomery(z) => z.Valid() && mv % 2 == 1 && sc == P(z.m.t)
  }

  /** x is the reduced form of the residue of v. */
  ghost predicate Holds(x: BigInteger, mv: int, sc: int, v: int)
    reads x
  {
    mv > 0 && NonNegative(x) && x.Value() == (v * sc) % mv
  }

  /** x mod m, not negative whatever the sign of x, in a new number. */
  method Mod(x: BigInteger, m: BigInteger, est: Estimate) returns (r: BigInteger)
    requires x.Normal() && NonNegative(m) && m.Value() > 0
    ensures fresh(r) && NonNegative(r) && r.Value() == x.Value() % m.Value()
  {
    r := new BigInteger();
    ghost var xv, mv := x.Value(), m.Value();
    var pt := MagnitudeOf(x);
    DivRemTo(pt, m, null, r, est);
    r.Positive();
    FromMagnitude(x, m, r, xv);
  }

  /** Turns the residue r of the magnitude of xv into that of xv itself. */
  method FromMagnitude(x: BigInteger, m: BigInteger, r: BigInteger, ghost v: int)
    requires x.Normal() && NonNegative(m) && NonNegative(r) && r != x && r != m && m.Value() > 0
    requires (x.Value() < 0 <==> v < 0) && r.Value() == Magnitude(v) % m.Value()
    modifies r
    ensures NonNegative(r) && r.Value() == v % m.Value()
  {
    ghost var mv := m.Value();
    x.Positive();
    ModOfNegative(v, mv);
    if x.s < 0 {
      var zero := new BigInteger();
      var c := r.CompareTo(zero);
      if c > 0 { m.SubTo(r, r); }
    }
    r.Positive();
  }

  lemma ModOfNegative(v: int, m: int)
    requires m > 0
    ensures v % m == if v >= 0 || Magnitude(v) % m == 0 then Magnitude(v) % m else m - Magnitude(v) % m
  {
    if v < 0 {
      var a := Magnitude(v);
      var q, r := a / m, a % m;
      assert a == m * q + r;
      if r == 0 {
        assert v == m * (-q) + 0;
        DivModUnique(v, m, -q, 0);
      } else {
        assert m * (-q - 1) == -(m * q) - m;
        DivModUnique(v, m, -q - 1, m - r);
      }
    }
  }

  method ConvertClassic(x: BigInteger, m: BigInteger, est: Estimate) returns (r: BigInteger)
    requires x.Normal() && NonNegative(m) && m.Value() > 0
    ensures (r == x || fresh(r)) && NonNegative(r) && r.Value() == x.Value() % m.Value()
  {
    x.Positive();
    if x.s < 0 {
      r := Mod(x, m, est);
      return;
    }
    var c := x.CompareTo(m);
    if c >= 0 {
      r := Mod(x, m, est);
    } else {
      SmallDividend(x.Value(), m.Value());
      r := x;
    }
  }

  method ConvertBarrett(x: BigInteger, b: Barrett, est: Estimate) returns (r: BigInteger)
    requires x.Normal() && b.Valid() && x !in {b.mu, b.r2, b.q3}
    modifies b.r2, b.q3
    ensures b.Valid() && (r == x || fresh(r)) && NonNegative(r) && r.Value() == old(x.Value()) % b.m.Value()
  {
    x.Positive();
    if x.s < 0 || x.t > 2 * b.m.t {
      r := Mod(x, b.m, est);
      return;
    }
    var c := x.CompareTo(b.m);
    if c < 0 {
      SmallDividend(x.Value(), b.m.Value());
      r := x;
    } else {
      r := ReduceCopy(x, b);
    }
  }

  method ReduceCopy(x: BigInteger, b: Barrett) returns (r: BigInteger)
    requires NonNegative(x) && b.Valid() && x !in {b.mu, b.r2, b.q3} && x.t <= 2 * b.m.t
    modifies b.r2, b.q3
    ensures b.Valid() && fresh(r) && NonNegative(r) && r.Value() == old(x.Value()) % b.m.Value()
  {
    r := new BigInteger();
    ValBound(B, x.words[..x.t]);
    PowMonotone(B, x.t, 2 * b.m.t);
    x.CopyTo(r);
    assert r.words[..r.t] == x.words[..x.t];
    b.Reduce(r);
  }

  /** x*R mod m. */
  method ConvertMontgomery(x: BigInteger, z: Montgomery, est: Estimate) returns (r: BigInteger)
    requires x.Normal() && z.Valid() && z.m.Value() > 0
    ensures fresh(r) && NonNegative(r) && r.Value() == (x.Value() * P(z.m.t)) % z.m.Value()
  {
    ghost var xv, p := x.Value(), P(z.m.t);
    var pt := MagnitudeOf(x);
    r := ShiftedResidue(pt, z.m, est);
    ScaleMagnitude(xv, p);
    FromMagnitude(x, z.m, r, xv * p);
  }

  lemma ScaleMagnitude(x: int, p: int)
    requires p > 0
    ensures Magnitude(x * p) == Magnitude(x) * p && (x < 0 <==> x * p < 0)
  {
    if x < 0 { MulMono(x, -1, p); } else { MulMono(0, x, p); }
    assert (-x) * p == -(x * p);
  }

  method ShiftedResidue(x: BigInteger, m: BigInteger, est: Estimate) returns (r: BigInteger)
    requires NonNegative(x) && NonNegative(m) && m.Value() > 0
    ensures fresh(r) && NonNegative(r) && r.Value() == (x.Value() * P(m.t)) % m.Value()
  {
    r := new BigInteger();
    ghost var xv := x.Value();
    NormalRange(m.words[..m.t], 0);
    x.DlShiftTo(m.t, r);
    if x.t == 0 {
      assert forall k :: 0 <= k < r.t ==> r.words[k] == r.words[..r.t][k];
      DivideZero(r, m);
      SmallDividend(0, m.Value());
      return;
    }
    assert r.words[..r.t][r.t - 1] == x.words[..x.t][x.t - 1];
    assert r.Value() == xv * P(m.t);
    DivideInPlace(r, m, est);
  }

  /** r = r mod m, the dividend and the remainder being the same number. */
  method DivideInPlace(r: BigInteger, m: BigInteger, est: Estimate)
    requires NonNegative(r) && NonNegative(m) && r != m && m.Value() > 0
    modifies r
    ensures NonNegative(r) && r.Value() == old(r.Value()) % m.Value()
  {
    r.Positive();
    DivRemTo(r, m, null, r, est);
    r.Positive();
  }

  method Convert(z: Reducer, est: Estimate, x: BigInteger, ghost mv: int, ghost sc: int) returns (r: BigInteger)
    requires Ready(z, mv, sc) && x.Normal() && x !in Internals(z)
    modifies Scratch(z)
    ensures Ready(z, mv, sc) && (r == x || fresh(r)) && Holds(r, mv, sc, x.Value())
  {
    match z
    case Classic(m) => r := ConvertClassic(x, m, est);
    case ByBarrett(b) => r := ConvertBarrett(x, b, est);
    case ByMontgomery(y) => r := ConvertMontgomery(x, y, est);
  }

  /** r becomes reduced in place; products of two residues are always small enough. */
  method ReduceProduct(z: Reducer, est: Estimate, r: BigInteger, ghost mv: int, ghost sc: int,
                       ghost x: int, ghost y: int, ghost a: int, ghost b: int)
    requires Ready(z, mv, sc) && r !in Parts(z) && NonNegative(r) && r.Value() == x * y
    requires x == (a * sc) % mv && y == (b * sc) % mv
    modifies r, Scratch(z)
    ensures Ready(z, mv, sc) && Holds(r, mv, sc, a * b)
  {
    ghost var t := Modulus(z).t;
    ValBound(B, Modulus(z).words[..t]);
    ResidueProduct(x, y, mv, t);
    match z
    case Classic(m) =>
      PlainProduct(x, y, a, b, sc, mv);
      DivideInPlace(r, m, est);
    case ByBarrett(br) =>
      PlainProduct(x, y, a, b, sc, mv);
      br.Reduce(r);
    case ByMontgomery(mg) =>
      ReduceMontgomery(mg, r, mv, x, y, a, b);
  }

  lemma PlainProduct(x: int, y: int, a: int, b: int, sc: int, m: int)
    requires m > 0 && sc == 1 && x == (a * sc) % m && y == (b * sc) % m
    ensures (x * y) % m == ((a * b) * sc) % m
  {
    MulResidues(a, b, m);
  }

  method ReduceMontgomery(mg: Montgomery, r: BigInteger, ghost mv: int, ghost x: int, ghost y: int, ghost a: int,
      ghost b: int)
    requires r != mg.m && NonNegative(mg.m) && mg.Valid() && mg.m.Value() == mv > 0 && mv % 2 == 1 && NonNegative(r)
    requires r.Value() == x * y && 0 <= x * y < mv * P(mg.m.t)
    requires x == (a * P(mg.m.t)) % mv && y == (b * P(mg.m.t)) % mv
    modifies r
    ensures Holds(r, mv, P(mg.m.t), a * b)
  {
    mg.Reduce(r);
    r.Positive();
    MulMontgomery(r.Value(), x, y, a, b, mg.m.t, mv);
  }

  lemma ResidueProduct(x: int, y: int, m: int, t: nat)
    requires 0 <= x < m && 0 <= y < m < P(t)
    ensures 0 <= x * y < P(2 * t) && x * y < m * P(t)
  {
    MulRange(x, y, m, m);
    assert (m - 1) * (m - 1) == m * m - 2 * m + 1;
    MulMono(m, P(t), m);
    PowAdd(B, t, t);
    MulMono(m, P(t), P(t));
  }

  method MulTo(z: Reducer, est: Estimate, x: BigInteger, y: BigInteger, r: BigInteger,
               ghost mv: int, ghost sc: int, ghost a: int, ghost b: int)
    requires Ready(z, mv, sc) && r !in Parts(z) && x !in Scratch(z) && y !in Scratch(z) && r != x && r != y
    requires Holds(x, mv, sc, a) && Holds(y, mv, sc, b)
    modifies r, Scratch(z)
    ensures Ready(z, mv, sc) && Holds(r, mv, sc, a * b)
  {
    ghost var xv, yv := x.Value(), y.Value();
    x.MultiplyTo(y, r);
    MulMono(0, xv, yv);
    r.Positive();
    ReduceProduct(z, est, r, mv, sc, xv, yv, a, b);
  }

  method SqrTo(z: Reducer, est: Estimate, x: BigInteger, r: BigInteger, ghost mv: int, ghost sc: int, ghost a: int)
    requires Ready(z, mv, sc) && r !in Parts(z) && x !in Scratch(z) && r != x && Holds(x, mv, sc, a)
    modifies r, Scratch(z)
    ensures Ready(z, mv, sc) && Holds(r, mv, sc, a * a)
  {
    ghost var xv := x.Value();
    x.SquareTo(r);
    MulMono(0, xv, xv);
    r.Positive();
    ReduceProduct(z, est, r, mv, sc, xv, xv, a, a);
  }

  method Revert(z: Reducer, x: BigInteger, ghost mv: int, ghost sc: int, ghost v: int) returns (r: BigInteger)
    requires Ready(z, mv, sc) && Holds(x, mv, sc, v)
    ensures NonNegative(r) && r.Value() == v % mv
  {
    if z.ByMontgomery? {
      r := new BigInteger();
      x.CopyTo(r);
      assert r.words[..r.t] == x.words[..x.t];
      var mg := z.z;
      ghost var t, xv := mg.m.t, x.Value();
      ScaleUp(mv, P(t));
      mg.Reduce(r);
      r.Positive();
      RevertMontgomery(r.Value(), xv, v, t, mv);
    } else {
      r := x;
    }
  }
}
