/**
 benchmarks/richards.js:374-384: the shift register v1 of the idle task, as a number. Its low
 bit chooses the device; SeedShifts says that the next value is v1 >> 1, and for an odd v1
 that with the bits of 0xD008 exchanged.
 */
module RichardsSeed {
  import opened Digits
  import BignumMath

  function Bit(x: int, unit: int): int
    requires unit > 0
  {
    (x / unit) % 2
  }

  /** x ^ unit for a power of two. */
  function Flip(x: int, unit: int): int
    requires unit > 0
  {
    if Bit(x, unit) == 0 then x + unit else x - unit
  }

  predicate Odd(seed: int) { seed % 2 == 1 }

  function NextSeed(seed: int): int {
    if Odd(seed) then Flip(Flip(Flip(Flip(seed / 2, 0x8000), 0x4000), 0x1000), 8) else seed / 2
  }

  predicate IsSeed(seed: int) { 0 <= seed < 0x1_0000 }

  // ----- Flipping a bit

  lemma FlipSame(x: int, unit: int)
    requires unit > 0
    ensures Bit(Flip(x, unit), unit) == 1 - Bit(x, unit)
  {
    Carry(x, unit, if Bit(x, unit) == 0 then 1 else -1);
  }

  lemma Carry(x: int, unit: int, n: int)
    requires unit > 0
    ensures (x + n * unit) / unit == x / unit + n
  {
    var q, r := x / unit, x % unit;
    assert unit * (q + n) == unit * q + n * unit;
    BignumMath.DivModUnique(x + n * unit, unit, q + n, r);
  }

  /** A lower bit stays. */
  lemma FlipBelow(x: int, unit: int, low: int, m: int)
    requires low > 0 && m > 0 && unit == 2 * m * low
    ensures Bit(Flip(x, unit), low) == Bit(x, low)
  {
    Carry(x, low, 2 * m);
    Carry(x, low, -(2 * m));
    assert (2 * m) * low == unit && -(2 * m) * low == -unit;
    EvenAway(x / low, m);
  }

  lemma EvenAway(y: int, m: int)
    ensures (y + 2 * m) % 2 == y % 2 && (y + -(2 * m)) % 2 == y % 2
  {
  }

  /** A higher bit stays. */
  lemma FlipAbove(x: int, unit: int, high: int, m: int)
    requires unit > 0 && m > 0 && high == 2 * m * unit
    ensures Bit(Flip(x, unit), high) == Bit(x, high)
  {
    var y := Flip(x, unit);
    Carry(x, unit, if Bit(x, unit) == 0 then 1 else -1);
    assert (y / unit) / 2 == (x / unit) / 2;
    DividedTwice(x, unit, 2 * m);
    DividedTwice(y, unit, 2 * m);
    DividedTwice(x / unit, 2, m);
    DividedTwice(y / unit, 2, m);
  }

  lemma DividedTwice(x: int, a: int, b: int)
    requires a > 0 && b > 0
    ensures (x / a) / b == x / (b * a)
  {
    var q, r := x / a, x % a;
    var p, t := q / b, q % b;
    MulMono(t, b - 1, a);
    MulMono(0, t, a);
    assert (b - 1) * a == b * a - a;
    assert a * q == a * (b * p + t) == (b * a) * p + t * a;
    BignumMath.DivModUnique(x, b * a, p, t * a + r);
  }

  /** Flipping bit k changes that bit and no other. */
  lemma FlipBit(x: int, k: nat, i: nat)
    ensures Bit(Flip(x, Pow(2, k)), Pow(2, i)) == if i == k then 1 - Bit(x, Pow(2, i)) else Bit(x, Pow(2, i))
  {
    if i == k {
      FlipSame(x, Pow(2, k));
    } else if i < k {
      Twice(k, i);
      FlipBelow(x, Pow(2, k), Pow(2, i), Pow(2, k - 1 - i));
    } else {
      Twice(i, k);
      FlipAbove(x, Pow(2, k), Pow(2, i), Pow(2, i - 1 - k));
    }
  }

  lemma Twice(k: nat, i: nat)
    requires i < k
    ensures Pow(2, k) == 2 * Pow(2, k - 1 - i) * Pow(2, i)
  {
    PowAdd(2, k - 1 - i, i);
    var a, b := Pow(2, k - 1 - i), Pow(2, i);
    assert 2 * (a * b) == 2 * a * b;
  }

  lemma Units()
    ensures Pow(2, 3) == 8 && Pow(2, 12) == 0x1000 && Pow(2, 14) == 0x4000 && Pow(2, 15) == 0x8000
  {
    var n := 3;
    assert Pow(2, n) == 8;
    PowAdd(2, n, n);
    PowAdd(2, 2 * n, 2 * n);
    assert Pow(2, 4 * n + 2) == 2 * Pow(2, 4 * n + 1) && Pow(2, 4 * n + 1) == 2 * Pow(2, 4 * n);
    assert Pow(2, 4 * n + 3) == 2 * Pow(2, 4 * n + 2);
  }

  /** The bits of 0xD008. */
  predicate IsTap(i: nat) { i in {3, 12, 14, 15} }

  lemma Taps()
    ensures Pow(2, 3) + Pow(2, 12) + Pow(2, 14) + Pow(2, 15) == 0xD008
  {
    Units();
  }

  /** Every bit of the next seed is the one above it in the seed, exchanged by an odd seed where 0xD008 has a 1. */
  lemma SeedShifts(seed: int, i: nat)
    ensures Bit(NextSeed(seed), Pow(2, i)) ==
      if Odd(seed) && IsTap(i) then 1 - Bit(seed / 2, Pow(2, i)) else Bit(seed / 2, Pow(2, i))
  {
    Units();
    if Odd(seed) {
      var a := Flip(seed / 2, Pow(2, 15));
      var b := Flip(a, Pow(2, 14));
      var c := Flip(b, Pow(2, 12));
      FlipBit(seed / 2, 15, i);
      FlipBit(a, 14, i);
      FlipBit(b, 12, i);
      FlipBit(c, 3, i);
    }
  }

  lemma SeedStays(seed: int)
    requires IsSeed(seed)
    ensures IsSeed(NextSeed(seed))
  {
  }
}
