/**
 benchmarks/crypto.js:450-502: in-place long division. The working number r holds
 the remainder in its low digits and collects the quotient in its high ones.
 */
module Division {
  import opened Digits
  import opened BignumMath
  import opened DivisionMath
  import opened NumberBits
  import opened Bignum

  /** A positive number using exactly n digits. */
  ghost predicate Uses(r: BigInteger, n: nat)
    reads r
  {
    r.Normal() && r.s == 0 && r.t == n > 0
  }

  /** r - t, one trial digit less, when that was still too large. */
  method TakeBack(r: BigInteger, t: BigInteger, n: nat, ghost k: nat, ghost ys: nat,
                  ghost x: int, ghost lo: int, ghost q: int, ghost y: int, ghost c: int, ghost g: int)
    requires r != t && r.Valid() && r.s == 0 && r.t == n > 0 && t.Valid() && t.Value() == P(k) * c
    requires Window(n, k, ys, x, lo, q, y, c) && k + ys < n && 0 < g <= B && x < g * y
    requires Trial(V(r.words[..n]), k, ys, x, lo, q, c, g)
    modifies r
    ensures Uses(r, n) && Trial(V(r.words[..n]), k, ys, x, lo, q, c, g - 1)
    ensures r.words[k + ys] < g - 1 <==> x < (g - 1) * y
  {
    ghost var w := V(r.words[..n]);
    ValBound(B, r.words[..n]);
    TrialDown(w, n, k, ys, x, lo, q, y, c, g);
    r.SubTo(t, r);
    assert r.Value() == w - P(k) * c;
    r.Positive();
    NormalLength(r.words[..r.t], n);
    ReadTrial(r.words[..n], n, k, ys, x, lo, q, y, c, g - 1);
  }

  method AddBack(r: BigInteger, t: BigInteger, n: nat, k: nat, ys: nat, qd: int,
                 ghost x: int, ghost lo: int, ghost q: int, ghost y: int, ghost c: int)
    returns (ghost g: int)
    requires r != t && r.Valid() && r.s == 0 && r.t == n && k + ys < n && t.Valid() && t.Value() == P(k) * c
    requires Window(n, k, ys, x, lo, q, y, c) && 0 < qd <= B && x < qd * y
    requires Trial(V(r.words[..n]), k, ys, x, lo, q, c, qd)
    modifies r
    ensures Uses(r, n) && 0 <= g < B && g * y <= x < (g + 1) * y
    ensures Trial(V(r.words[..n]), k, ys, x, lo, q, c, g)
  {
    TakeBack(r, t, n, k, ys, x, lo, q, y, c, qd);
    var qd' := qd - 1;
    while r.words[k + ys] < qd'
      invariant 0 <= qd' < B && x < (qd' + 1) * y && Uses(r, n)
      invariant Trial(V(r.words[..n]), k, ys, x, lo, q, c, qd')
      invariant r.words[k + ys] < qd' <==> x < qd' * y
      decreases qd'
    {
      TakeBack(r, t, n, k, ys, x, lo, q, y, c, qd');
      qd' := qd' - 1;
    }
    g := qd';
  }

  /** Adds qd copies of the complemented divisor at digit k, so that digit k + ys counts up towards qd. */
  method TryDigit(r: BigInteger, yc: BigInteger, n: nat, k: nat, ys: nat, qd: int,
                  ghost x: int, ghost lo: int, ghost q: int, ghost y: int, ghost c: int)
    requires r != yc && Uses(r, n) && k + ys < n && yc.Valid() && yc.t == ys && V(yc.words[..ys]) == c
    requires Window(n, k, ys, x, lo, q, y, c) && 0 <= qd <= B && NotBelow(qd, x, y)
    requires Trial(V(r.words[..n]), k, ys, x, lo, q, c, 0) && q == V(r.words[k + ys + 1..n])
    modifies r`words
    ensures Uses(r, n) && Trial(V(r.words[..n]), k, ys, x, lo, q, c, qd)
  {
    ghost var r0 := r.words;
    var d := yc.AmAdd(0, qd, r, k, 0, ys, n);
    assert yc.words[0..0 + ys] == yc.words[..ys];
    ghost var r1 := r.words;
    Bump(r1, k + ys, d, n);
    r.words := r.words[k + ys := r.words[k + ys] + d];
    TrialUp(V(r0[..n]), V(r.words[..n]), k, ys, x, lo, q, c, qd);
    assert r.words[k + ys + 1..n] == r0[k + ys + 1..n];
    TrialDigits(r.words, n, k, ys, x, lo, q, y, c, qd);
    StaysFull(r0[..n], r.words[..n]);
  }

  /** Lowers a trial digit that was too large to the true one. */
  method CorrectDigit(r: BigInteger, yc: BigInteger, t: BigInteger, n: nat, k: nat, ys: nat, qd: int,
                      ghost x: int, ghost lo: int, ghost q: int, ghost y: int, ghost c: int)
    returns (ghost g: int)
    requires r != yc && r != t && yc != t && Uses(r, n) && k + ys < n
    requires yc.Valid() && yc.Value() == c
    requires Window(n, k, ys, x, lo, q, y, c) && 0 <= qd <= B && NotBelow(qd, x, y)
    requires Trial(V(r.words[..n]), k, ys, x, lo, q, c, qd)
    modifies r, t
    ensures Uses(r, n) && 0 <= g <= B && g * y <= x < (g + 1) * y
    ensures Trial(V(r.words[..n]), k, ys, x, lo, q, c, g)
  {
    g := qd;
    ReadTrial(r.words[..n], n, k, ys, x, lo, q, y, c, qd);
    if r.words[k + ys] < qd {
      yc.DlShiftTo(k, t);
      g := AddBack(r, t, n, k, ys, qd, x, lo, q, y, c);
    }
  }

  /** Before the digit is known, the parts of the working number add up to what is being divided. */
  ghost predicate Conserved(lo: int, k: nat, x: int, y: int, q: int, total: int) {
    lo + P(k) * x + y * (B * P(k)) * q == total
  }

  /** qd is at least the true digit. */
  ghost predicate NotBelow(qd: int, x: int, y: int) {
    x < (qd + 1) * y
  }

  /** What holds when a digit is estimated. */
  lemma OpenDigit(rs: seq<int>, k: nat, yd: seq<int>, est: Estimate, total: int, qd: int, y: int,
      c: int)
      returns (x: int, lo: int, q: int)
    requires y == V(yd) && c == P(|yd|) - y
    requires AllWords(rs) && k + |yd| < |rs| && rs[|rs| - 1] != 0 && DivInv(rs, k + 1, |yd|, V(yd), total)
    requires Divisor(yd) && qd == est(rs[k..k + |yd| + 1], yd)
    ensures q == V(rs[k + |yd| + 1..])
    ensures Window(|rs|, k, |yd|, x, lo, q, y, c) && Trial(V(rs), k, |yd|, x, lo, q, c, 0)
    ensures Conserved(lo, k, x, y, q, total) && 0 <= qd <= B && NotBelow(qd, x, y)
  {
    x, lo, q := V(rs[k..k + |yd| + 1]), V(rs[..k]), V(rs[k + |yd| + 1..]);
    DivisorRange(yd);
    OpenWindow(rs, k, |yd|, V(yd), total);
    Estimated(est, rs[k..k + |yd| + 1], yd);
  }

  lemma Estimated(est: Estimate, xs: seq<int>, ys: seq<int>)
    requires Divisor(ys) && |xs| == |ys| + 1 && AllWords(xs) && V(xs) < B * V(ys)
    ensures 0 <= est(xs, ys) <= B && V(xs) < (est(xs, ys) + 1) * V(ys)
  {
  }

  /** One quotient digit. */
  method DivStep(r: BigInteger, yc: BigInteger, t: BigInteger, n: nat, k: nat, yd: seq<int>,
                 est: Estimate, ghost total: int)
    requires r != yc && r != t && yc != t && Divisor(yd)
    requires Uses(r, n) && k + |yd| < n
    requires yc.Valid() && yc.s == 0 && yc.t == |yd| && V(yc.words[..yc.t]) == P(|yd|) - V(yd)
    requires DivInv(r.words[..n], k + 1, |yd|, V(yd), total)
    modifies r, t
    ensures Uses(r, n) && DivInv(r.words[..n], k, |yd|, V(yd), total)
  {
    ghost var y, c := V(yd), P(|yd|) - V(yd);
    var qd;
    ghost var x, lo, q;
    qd, x, lo, q := EstimateDigit(r, n, k, yd, est, total, y, c);
    FillDigit(r, yc, t, n, k, |yd|, qd, x, lo, q, y, c, total);
  }

  /** Estimates the digit from the leading digits of the remainder and of the divisor. */
  method EstimateDigit(r: BigInteger, n: nat, k: nat, yd: seq<int>, est: Estimate, ghost total: int,
      ghost y: int, ghost c: int)
      returns (qd: int, ghost x: int, ghost lo: int, ghost q: int)
    requires Divisor(yd) && Uses(r, n) && k + |yd| < n && y == V(yd) && c == P(|yd|) - y
    requires DivInv(r.words[..n], k + 1, |yd|, y, total)
    ensures Window(n, k, |yd|, x, lo, q, y, c) && Trial(V(r.words[..n]), k, |yd|, x, lo, q, c, 0)
    ensures q == V(r.words[k + |yd| + 1..n]) && Conserved(lo, k, x, y, q, total) && 0 <= qd <= B && NotBelow(qd, x, y)
  {
    var ys := |yd|;
    ghost var rs := r.words[..n];
    var window := r.words[k..k + ys + 1];
    assert rs[k..k + ys + 1] == window && rs[k + ys + 1..] == r.words[k + ys + 1..n];
    qd := est(window, yd);
    x, lo, q := OpenDigit(rs, k, yd, est, total, qd, y, c);
  }

  /** Adds the trial digit's multiples, corrects it, and restores the invariant one digit lower. */
  method FillDigit(r: BigInteger, yc: BigInteger, t: BigInteger, n: nat, k: nat, ys: nat, qd: int,
                   ghost x: int, ghost lo: int, ghost q: int, ghost y: int, ghost c: int, ghost total: int)
    requires r != yc && r != t && yc != t && Uses(r, n)
    requires yc.Valid() && yc.s == 0 && yc.t == ys && V(yc.words[..ys]) == c
    requires Window(n, k, ys, x, lo, q, y, c) && 0 <= qd <= B && NotBelow(qd, x, y)
    requires Trial(V(r.words[..n]), k, ys, x, lo, q, c, 0) && q == V(r.words[k + ys + 1..n])
    requires Conserved(lo, k, x, y, q, total)
    modifies r, t
    ensures Uses(r, n) && DivInv(r.words[..n], k, ys, y, total)
  {
    TryDigit(r, yc, n, k, ys, qd, x, lo, q, y, c);
    ghost var g := CorrectDigit(r, yc, t, n, k, ys, qd, x, lo, q, y, c);
    CloseWindow(r.words[..n], n, k, ys, x, lo, q, y, c, g, total);
  }

  ghost predicate NonNegative(x: BigInteger)
    reads x
  {
    x.Normal() && x.s == 0
  }

  /** Shifts divisor and dividend left until the divisor's top bit is set. */
  method Normalise(x: BigInteger, m: BigInteger, y: BigInteger, r: BigInteger) returns (nsh: nat)
    requires NonNegative(x) && NonNegative(m) && m.t > 0 && x.t >= m.t
    requires y != x && y != m && y != r
    modifies y, r
    ensures nsh < DB && NonNegative(y) && NonNegative(r) && y.t == old(m.t) <= r.t && Divisor(y.words[..y.t])
    ensures y.Value() == Pow(2, nsh) * old(m.Value()) && r.Value() == Pow(2, nsh) * old(x.Value())
  {
    ghost var xs := x.words[..x.t];
    nsh := NormaliseDivisor(m, y);
    if nsh > 0 {
      x.LShiftTo(nsh, r);
      ShiftBySmall(old(x.Value()), nsh);
    } else {
      x.CopyTo(r);
    }
    NotShorter(xs, r.words[..r.t], nsh);
  }

  method NormaliseDivisor(m: BigInteger, y: BigInteger) returns (nsh: nat)
    requires NonNegative(m) && m.t > 0 && y != m
    modifies y
    ensures nsh < DB && NonNegative(y) && y.t == m.t && Divisor(y.words[..y.t]) && y.Value() == Pow(2, nsh) * m.Value()
  {
    ghost var ms := m.words[..m.t];
    var b := NBits(m.words[m.t - 1]);
    TopBits(ms, b);
    nsh := DB - b;
    if nsh > 0 {
      m.LShiftTo(nsh, y);
      ShiftBySmall(m.Value(), nsh);
    } else {
      m.CopyTo(y);
    }
    NormalisedDivisor(ms, y.words[..y.t], b);
  }

  /** r >= t == y*B^j: stores a quotient digit 1 above r and takes t away. */
  method TakeOne(r: BigInteger, t: BigInteger, ghost ys: seq<int>, ghost j: nat)
    requires r != t && Uses(r, |ys| + j) && Divisor(ys) && t.Valid() && t.Value() == P(j) * V(ys) <= r.Value()
    modifies r
    ensures Uses(r, |ys| + j + 1) && DivInv(r.words[..r.t], j, |ys|, V(ys), old(r.Value()))
  {
    var n := r.t;
    ghost var rs, v := r.words[..n], P(j) * V(ys);
    DivisorRange(ys);
    LeadingOne(rs, ys, j);
    ghost var s := V(rs) + 1 * P(n);
    OneAbove(r, s);
    r.SubTo(t, r);
    TookOne(r, n, s - v);
    LeadingDone(r.words[..n + 1], ys, j, V(rs));
  }

  /** Stores a digit 1 above the top digit. */
  method OneAbove(r: BigInteger, ghost s: int)
    requires Uses(r, r.t) && s == V(r.words[..r.t]) + 1 * P(r.t)
    modifies r
    ensures r.Valid() && r.s == 0 && r.t == old(r.t) + 1 && r.Value() == s
  {
    ghost var rs := r.words[..r.t];
    r.words, r.t := Put(r.words, r.t, 1), r.t + 1;
    assert r.words[..r.t] == rs + [1];
    ValSnoc(B, rs, 1);
  }

  lemma TookOne(r: BigInteger, n: nat, v: int)
    requires r.Normal() && r.Value() == v && P(n) <= v < P(n + 1)
    ensures Uses(r, n + 1) && V(r.words[..n + 1]) == v
  {
    r.Positive();
    NormalLength(r.words[..r.t], n + 1);
  }

  /** Sets r up for the loop: a leading quotient digit of 1 is split off if there is one. */
  method LeadingDigit(y: BigInteger, r: BigInteger, t: BigInteger) returns (n: nat)
    requires y != r && y != t && r != t && NonNegative(y) && NonNegative(r) && y.t <= r.t && Divisor(y.words[..y.t])
    modifies r, t
    ensures Uses(r, n) && n >= old(r.t)
    ensures DivInv(r.words[..n], old(r.t) - y.t, y.t, V(y.words[..y.t]), old(r.Value()))
  {
    n := r.t;
    var j: nat := n - y.t;
    y.DlShiftTo(j, t);
    assert t.words[..t.t][t.t - 1] == y.words[..y.t][y.t - 1];
    var order := r.CompareTo(t);
    if order >= 0 {
      TakeOne(r, t, y.words[..y.t], j);
      n := n + 1;
    } else {
      assert r.words[..n][..j + y.t] == r.words[..n] && r.words[..n][j + y.t..] == [];
    }
  }

  /** y = B^ys - y, padded with zeros to ys digits. */
  method Complement(y: BigInteger, t: BigInteger)
    requires y != t && NonNegative(y) && Divisor(y.words[..y.t])
    modifies y, t
    ensures y.Valid() && y.s == 0 && y.t == old(y.t) && V(y.words[..y.t]) == P(y.t) - old(V(y.words[..y.t]))
  {
    var ys := y.t;
    DivisorRange(y.words[..ys]);
    var one := new BigInteger();
    one.FromInt(1);
    one.DlShiftTo(ys, t);
    t.SubTo(y, y);
    y.Positive();
    NormalRange(y.words[..y.t], 0);
    ShorterThan(y.words[..y.t], ys);
    y.PadTo(ys);
  }

  /** All quotient digits below the leading one, most significant first. */
  method DivLoop(r: BigInteger, yc: BigInteger, t: BigInteger, n: nat, j0: nat, yd: seq<int>,
                 est: Estimate, ghost total: int)
    requires r != yc && r != t && yc != t && Divisor(yd) && Uses(r, n) && j0 + |yd| <= n
    requires yc.Valid() && yc.s == 0 && yc.t == |yd| && V(yc.words[..yc.t]) == P(|yd|) - V(yd)
    requires DivInv(r.words[..n], j0, |yd|, V(yd), total)
    modifies r, t
    ensures Uses(r, n) && DivInv(r.words[..n], 0, |yd|, V(yd), total)
  {
    var j := j0;
    while j > 0
      invariant 0 <= j <= j0 && Uses(r, n) && DivInv(r.words[..n], j, |yd|, V(yd), total)
    {
      j := j - 1;
      DivStep(r, yc, t, n, j, yd, est, total);
    }
  }

  /** Takes the quotient digits off the top of r and shifts the remainder back. */
  method Extract(r: BigInteger, q: BigInteger?, n: nat, ys: nat, nsh: nat, ghost x: int, ghost m: int)
    requires r != q && Uses(r, n) && ys <= n && nsh < DB && 0 <= x && 0 < m
    requires DivInv(r.words[..n], 0, ys, Pow(2, nsh) * m, Pow(2, nsh) * x)
    modifies r, if q == null then {} else {q}
    ensures NonNegative(r) && r.Value() == x % m
    ensures q != null ==> NonNegative(q) && q.Value() == x / m
  {
    ghost var rs, u := r.words[..n], Pow(2, nsh);
    assert rs[..0 + ys] == r.words[..ys] && rs[0 + ys..] == r.words[ys..n];
    ValBound(B, r.words[..ys]);
    DivResult(V(r.words[..ys]), V(r.words[ys..n]), u, x, m);
    if q != null {
      r.DrShiftTo(ys, q);
      assert q.t > 0 ==> q.words[..q.t][q.t - 1] == r.words[n - 1];
    }
    r.t := ys;
    ShiftBack(r, nsh, x % m);
  }

  /** Undoes the shift that normalised the operands. */
  method ShiftBack(r: BigInteger, nsh: nat, ghost rem: int)
    requires r.Valid() && r.s == 0 && nsh < DB && 0 <= rem && r.Value() == Pow(2, nsh) * rem
    modifies r
    ensures NonNegative(r) && r.Value() == rem
  {
    ghost var u := Pow(2, nsh);
    r.Clamp();
    r.Positive();
    if nsh > 0 {
      ShiftBySmall(rem, nsh);
      r.RShiftTo(nsh, r);
      FloorExact(u, rem, r.Value());
    }
  }

  /** Divides r by a normalised y in place; y and t are used as scratch. */
  method Quotient(y: BigInteger, r: BigInteger, t: BigInteger, est: Estimate) returns (n: nat)
    requires y != r && y != t && r != t && NonNegative(y) && NonNegative(r) && y.t <= r.t
    requires Divisor(y.words[..y.t])
    modifies y, r, t
    ensures Uses(r, n) && old(y.t) <= n && DivInv(r.words[..n], 0, old(y.t), old(y.Value()), old(r.Value()))
  {
    var i, yd := r.t, y.words[..y.t];
    ghost var total := r.Value();
    assert y.Value() == V(yd);
    n := LeadingDigit(y, r, t);
    ghost var rs := r.words[..n];
    assert DivInv(rs, i - |yd|, |yd|, V(yd), total);
    Complement(y, t);
    assert r.words[..n] == rs;
    DivLoop(r, y, t, n, i - |yd|, yd, est, total);
  }

  /** The case where the dividend is at least as long as the divisor. */
  method LongDivide(x: BigInteger, m: BigInteger, q: BigInteger?, r: BigInteger, est: Estimate)
    requires NonNegative(x) && NonNegative(m) && 0 < m.t <= x.t && q != r
    modifies r, if q == null then {} else {q}
    ensures old(m.Value()) > 0 && NonNegative(r) && r.Value() == old(x.Value()) % old(m.Value())
    ensures q != null ==> NonNegative(q) && q.Value() == old(x.Value()) / old(m.Value())
  {
    ghost var xv, mv := x.Value(), m.Value();
    NormalRange(x.words[..x.t], 0);
    NormalRange(m.words[..m.t], 0);
    var y := new BigInteger();
    var nsh := Normalise(x, m, y, r);
    var ys := y.t;
    var t: BigInteger;
    if q == null { t := new BigInteger(); } else { t := q; }
    var n := Quotient(y, r, t, est);
    Extract(r, q, n, ys, nsh, xv, mv);
  }

  /** The quotient and the remainder of the operator that rounds towards zero. */
  function TruncQuotient(x: int, m: int): int
    requires m != 0
  {
    var q := Magnitude(x) / Magnitude(m);
    if (x < 0) == (m < 0) then q else -q
  }

  function TruncRemainder(x: int, m: int): int
    requires m != 0
  {
    var r := Magnitude(x) % Magnitude(m);
    if x < 0 then -r else r
  }

  function Magnitude(x: int): (r: int)
    ensures r >= 0 && (r == 0 <==> x == 0)
  {
    if x < 0 then -x else x
  }

  /** They are a division with remainder. */
  lemma TruncDivision(x: int, m: int)
    requires m != 0
    ensures x == TruncQuotient(x, m) * m + TruncRemainder(x, m)
    ensures Magnitude(TruncRemainder(x, m)) < Magnitude(m)
    ensures TruncRemainder(x, m) != 0 ==> (TruncRemainder(x, m) < 0 <==> x < 0)
  {
    var a, b := Magnitude(x), Magnitude(m);
    assert a == (a / b) * b + a % b;
    assert (-(a / b)) * b == -((a / b) * b) && (a / b) * (-b) == -((a / b) * b) && (-(a / b)) * (-b) == (a / b) * b;
  }

  /** x = -x, in place. */
  method NegateInPlace(x: BigInteger)
    requires x.Valid()
    modifies x
    ensures x.Normal() && x.Value() == -old(x.Value())
  {
    var zero := new BigInteger();
    zero.SubTo(x, x);
  }

  /**
   Divides this = x by m, rounding towards zero; the quotient goes to q and the remainder to
   rem, either of which may be absent. A zero divisor leaves both untouched. If q is x, the
   remainder is wrong exactly when x is not 0 and has fewer digits than m: q is then cleared
   before x is copied to rem.
   */
  method DivRemTo(x: BigInteger, m: BigInteger, q: BigInteger?, rem: BigInteger?, est: Estimate)
    requires x.Normal() && m.Normal() && (q != null ==> q != rem)
    modifies if q == null then {} else {q}, if rem == null then {} else {rem}
    ensures old(m.Value()) != 0 && q != null ==>
      q.Normal() && q.Value() == TruncQuotient(old(x.Value()), old(m.Value()))
    ensures old(m.Value()) != 0 && rem != null ==>
      rem.Normal() && (rem.Value() == TruncRemainder(old(x.Value()), old(m.Value())) <==>
        !(q == x && old(x.Value()) != 0 && FewerDigits(old(x.Value()), old(m.Value()))))
    ensures old(m.Value()) == 0 ==> (q != null ==> unchanged(q)) && (rem != null ==> unchanged(rem))
  {
    ghost var xv, mv := x.Value(), m.Value();
    var ts, ms := x.s, m.s;
    var pm := MagnitudeOf(m);
    if pm.t <= 0 { return; }
    var pt := MagnitudeOf(x);
    if pt.t < pm.t {
      ShorterIsSmaller(pt, pm);
      DivideShort(x, q, rem, mv);
    } else {
      NotShorterDigits(pt, pm);
      DivideSigned(pt, pm, q, rem, ts, ms, est, xv, mv);
    }
  }

  /** 1 divided by B with the quotient in place of the 1: the remainder is not 1. */
  method QuotientOverDividendFails(est: Estimate) returns (rem: BigInteger)
    ensures rem.Valid() && rem.Value() != TruncRemainder(1, B)
  {
    var x := new BigInteger();
    var m := new BigInteger();
    rem := new BigInteger();
    x.FromInt(1);
    x.DlShiftTo(1, m);
    NormalRange(x.words[..x.t], 0);
    assert m.words[..m.t][m.t - 1] == x.words[..x.t][x.t - 1];
    assert P(1) == B * P(0) == B;
    assert FewerDigits(1, B) by { assert Magnitude(1) < P(1) <= Magnitude(B); }
    DivRemTo(x, m, x, rem, est);
  }

  /** The magnitude of a number, which has no digits only for zero; the sign digit says which sign it lost. */
  method MagnitudeOf(x: BigInteger) returns (r: BigInteger)
    requires x.Normal()
    ensures NonNegative(r) && r.Value() == Magnitude(x.Value()) && (r == x || fresh(r))
    ensures (r.t == 0 <==> x.Value() == 0) && x.s == if x.Value() < 0 then -1 else 0
  {
    x.Positive();
    r := x.Abs();
    NormalRange(r.words[..r.t], 0);
  }

  /** x has fewer digits than m: a power of the base lies between them. */
  ghost predicate FewerDigits(x: int, m: int) {
    exists k: nat :: Magnitude(x) < P(k) <= Magnitude(m)
  }

  lemma ShorterIsSmaller(x: BigInteger, y: BigInteger)
    requires NonNegative(x) && NonNegative(y) && x.t < y.t
    ensures x.Value() < P(x.t) <= y.Value()
  {
    NormalRange(x.words[..x.t], 0);
    NormalRange(y.words[..y.t], 0);
    PowMonotone(B, x.t, y.t - 1);
  }

  lemma NotShorterDigits(x: BigInteger, y: BigInteger)
    requires NonNegative(x) && NonNegative(y) && 0 < y.t <= x.t
    ensures forall k: nat :: !(x.Value() < P(k) <= y.Value())
  {
    NormalRange(x.words[..x.t], 0);
    NormalRange(y.words[..y.t], 0);
    forall k: nat ensures !(x.Value() < P(k) <= y.Value()) {
      if k < x.t { PowMonotone(B, k, x.t - 1); } else { PowMonotone(B, y.t, k); }
    }
  }

  /** A dividend shorter than the divisor is its own remainder. */
  method DivideShort(x: BigInteger, q: BigInteger?, rem: BigInteger?, ghost mv: int)
    requires x.Normal() && (q != null ==> q != rem) && Magnitude(x.Value()) < Magnitude(mv)
    modifies if q == null then {} else {q}, if rem == null then {} else {rem}
    ensures q != null ==> q.Normal() && q.Value() == TruncQuotient(old(x.Value()), mv)
    ensures rem != null ==>
      rem.Normal() && (rem.Value() == TruncRemainder(old(x.Value()), mv) <==> q != x || old(x.Value()) == 0)
  {
    ghost var xv := x.Value();
    SmallDividend(Magnitude(xv), Magnitude(mv));
    if q != null { q.FromInt(0); }
    if rem != null { x.CopyTo(rem); }
  }

  /** The magnitudes are divided, then the signs set. */
  method DivideSigned(pt: BigInteger, pm: BigInteger, q: BigInteger?, rem: BigInteger?, ts: int, ms: int,
      est: Estimate, ghost xv: int, ghost mv: int)
    requires NonNegative(pt) && NonNegative(pm) && 0 < pm.t <= pt.t && (q != null ==> q != rem)
    requires pt.Value() == Magnitude(xv) && pm.Value() == Magnitude(mv) && mv != 0
    requires ts == (if xv < 0 then -1 else 0) && ms == (if mv < 0 then -1 else 0)
    modifies if q == null then {} else {q}, if rem == null then {} else {rem}
    ensures q != null ==> q.Normal() && q.Value() == TruncQuotient(xv, mv)
    ensures rem != null ==> rem.Normal() && rem.Value() == TruncRemainder(xv, mv)
  {
    var r := rem;
    if r == null { r := new BigInteger(); }
    LongDivide(pt, pm, q, r, est);
    if q != null && ts != ms { NegateInPlace(q); }
    if ts < 0 { NegateInPlace(r); }
  }

  // ----- A dividend of zero digits

  /** A number whose lowest digit is 1 and whose other n - 1 digits are 0. */
  lemma OneThenZeros(w: seq<int>)
    requires |w| > 0 && w[0] == 1 && forall k :: 0 < k < |w| ==> w[k] == 0
    ensures V(w) == 1
  {
    var rest := w[1..];
    assert w == [1] + rest;
    ValConcat(B, [1], rest);
    ValOne(1);
    ValZeros(B, rest);
  }

  lemma FloorOfOne(u: int, q: int)
    requires u >= 2 && IsFloor(1, u, q)
    ensures q == 0
  {
    if q > 0 { MulMono(1, q, u); }
    if q < 0 { MulMono(q + 1, 0, u); }
  }

  /** The only digit of 1. */
  lemma DigitOfOne(w: seq<int>)
    requires AllWords(w) && (|w| > 0 ==> w[|w| - 1] != 0) && V(w) == 1
    ensures w == [1]
  {
    NormalRange(w, 0);
    if |w| == 1 { assert w == [w[0]]; ValOne(w[0]); }
  }

  /**
   divRemTo without a quotient, in place, on as many zero digits as the divisor has, which is
   what montConvert makes of 0. If the operands have to be shifted, shifting leaves the dividend
   no digits; the divisor is then shifted by a negative amount, a digit 1 is stored and nothing
   subtracted from it, and the final shift moves the 1 out again. No quotient digit is looked
   for.
   */
  method DivideZero(x: BigInteger, m: BigInteger)
    requires x.Valid() && x.s == 0 && 0 < x.t == m.t && (forall k :: 0 <= k < x.t ==> x.words[k] == 0)
      && NonNegative(m) && x != m
    modifies x
    ensures NonNegative(x) && x.Value() == 0
  {
    var y := new BigInteger();
    var t := new BigInteger();
    ghost var ws := x.words[..x.t];
    ValZeros(B, ws);
    var nsh := NormaliseDivisor(m, y);
    var ys := y.t;
    if nsh > 0 {
      ShiftBySmall(0, nsh);
      x.LShiftTo(nsh, x);
      NormalRange(x.words[..x.t], 0);
      y.DlShiftTo(x.t - ys, t);
      StoreOne(x, y, t, nsh, ys);
    } else {
      x.CopyTo(x);
      assert x.words[..x.t] == ws;
      KeepZeros(x, y, t, ys);
    }
  }

  /** No digits are shifted out: the divisor is larger, and the dividend stays as it is. */
  method KeepZeros(x: BigInteger, y: BigInteger, t: BigInteger, ys: nat)
    requires x != y && x != t && y != t && x.Valid() && x.s == 0 && x.t == ys == y.t && x.Value() == 0
    requires NonNegative(y) && Divisor(y.words[..y.t])
    modifies x, y, t
    ensures NonNegative(x) && x.Value() == 0
  {
    y.DlShiftTo(0, t);
    NormalRange(y.words[..y.t], 0);
    var c := x.CompareTo(t);
    assert c < 0;
    Complement(y, t);
    x.t := ys;
    x.Clamp();
  }

  method StoreOne(x: BigInteger, y: BigInteger, t: BigInteger, nsh: nat, ys: nat)
    requires x != t && x.Normal() && x.s == 0 && x.t == 0 && t.Valid() && t.t == 0 && t.s == 0 && 0 < nsh < DB
      && 0 < ys < |x.words|
    requires forall k :: 0 <= k <= ys ==> x.words[k] == 0
    requires y != x && y != t && NonNegative(y) && Divisor(y.words[..y.t])
    modifies x, y, t
    ensures NonNegative(x) && x.Value() == 0
  {
    var c := x.CompareTo(t);
    if c >= 0 {
      ValOne(1);
      x.words, x.t := Put(x.words, x.t, 1), x.t + 1;
      assert x.words[..1] == [1];
      x.SubTo(t, x);
      x.Positive();
      DigitOfOne(x.words[..x.t]);
      assert x.words[0] == x.words[..x.t][0];
      assert P(1) == B * P(0) == B;
    }
    Complement(y, t);
    x.t := ys;
    OneThenZeros(x.words[..ys]);
    x.Clamp();
    ShiftOut(x, nsh);
  }

  method ShiftOut(x: BigInteger, nsh: nat)
    requires x.Normal() && x.s == 0 && x.Value() == 1 && 0 < nsh < DB
    modifies x
    ensures NonNegative(x) && x.Value() == 0
  {
    var u := Pow(2, nsh);
    PowMonotone(2, 1, nsh);
    assert Pow(2, 1) == 2 && P(0) == 1;
    x.RShiftTo(nsh, x);
    assert IsFloor(1, u, x.Value()) by { assert nsh / DB == 0 && nsh % DB == nsh; }
    FloorOfOne(u, x.Value());
  }
}
