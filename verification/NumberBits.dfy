/** benchmarks/crypto.js: bit counts of a digit. */
module NumberBits {
  import opened Digits
  import opened JsWord

  /** r is the position just above x's highest set bit. */
  ghost predicate BitSize(x: int, r: nat) {
    r > 0 && Pow(2, r - 1) <= x < Pow(2, r)
  }

  /** The bit length of x by binary search; 1 for x == 0. */
  method NBits(x0: int) returns (r: nat)
    requires 0 <= x0 < 0x1_0000_0000
    ensures x0 > 0 ==> BitSize(x0, r)
    ensures x0 == 0 ==> r == 1
  {
    var x := x0;
    r := 1;
    x, r := Halve(x, r, 16, 0x1_0000, x0);
    x, r := Halve(x, r, 8, 0x100, x0);
    x, r := Halve(x, r, 4, 0x10, x0);
    x, r := Halve(x, r, 2, 4, x0);
    x, r := Halve(x, r, 1, 2, x0);
  }

  /** x0 has been narrowed to its bits from r - 1 up. */
  ghost predicate Narrowed(x0: int, x: int, r: nat) {
    r > 0 && 0 <= x && x * Pow(2, r - 1) <= x0 < (x + 1) * Pow(2, r - 1)
  }

  /** One step of the search: if anything is set from bit k up, keep only that part. */
  method Halve(x: int, r: nat, k: nat, unit: int, ghost x0: int) returns (x': int, r': nat)
    requires 0 <= x < 0x1_0000_0000 && (k, unit) in {(16, 0x1_0000), (8, 0x100), (4, 0x10), (2, 4), (1, 2)}
    requires x < unit * unit && Narrowed(x0, x, r) && (r == 1 || x > 0)
    ensures 0 <= x' < unit && Narrowed(x0, x', r') && (x == 0 ==> r' == r) && (x > 0 ==> x' > 0)
  {
    var t := if k == 16 then Ushr(x, unit) else Shr(x, unit);
    x', r' := x, r;
    if t != 0 {
      assert Pow(2, k) == unit by { SmallPowers(); }
      PowAdd(2, r - 1, k);
      NarrowArith(x0, x, t, x % unit, Pow(2, r - 1), unit);
      x', r' := t, r + k;
    }
  }

  lemma SmallPowers()
    ensures Pow(2, 1) == 2 && Pow(2, 2) == 4 && Pow(2, 4) == 0x10 && Pow(2, 8) == 0x100 && Pow(2, 16) == 0x1_0000
  {
    PowAdd(2, 4, 4);
    PowAdd(2, 8, 8);
  }

  lemma NarrowArith(x0: int, x: int, t: int, l: int, p: int, unit: int)
    requires x == unit * t + l && 0 <= l < unit && p > 0 && x * p <= x0 < (x + 1) * p
    ensures t * (p * unit) <= x0 < (t + 1) * (p * unit)
  {
    MulMono(unit * t, x, p);
    MulMono(x + 1, unit * (t + 1), p);
    assert t * (p * unit) == (unit * t) * p && (t + 1) * (p * unit) == (unit * (t + 1)) * p;
  }
}
