/**
 benchmarks/crypto.js: the BigInteger object. A number is an array of base-2^28
 digits, a count t of digits in use and a sign digit s (0 or -1, two's
 complement); digits at t and above are left over from earlier uses and mean nothing.
 */
module Bignum {
  import opened Digits
  import opened JsWord
  import opened BignumMath

  class BigInteger {
    var words: seq<int>
    var t: nat
    var s: int

    ghost predicate Valid()
      reads this
    {
      WordsIn(words, 0, t) && (s == 0 || s == -1)
    }

    /** No redundant sign digit at the top. */
    ghost predicate Normal()
      reads this
    {
      Valid() && (t > 0 ==> words[t - 1] != (if s == 0 then 0 else B - 1))
    }

    /** Two's complement with sign digit s. */
    ghost function Value(): int
      reads this
      requires Valid()
    {
      V(words[..t]) + s * P(t)
    }

    constructor ()
      ensures Normal() && Value() == 0 && t == 0 && s == 0
    {
      words, t, s := [], 0, 0;
    }

    /** Sets a small value. Below -1 the code names a variable that does not exist. */
    method FromInt(x: int)
      requires -1 <= x < B
      modifies this
      ensures Normal() && Value() == x && s == (if x < 0 then -1 else 0)
    {
      t := 1;
      s := if x < 0 then -1 else 0;
      if x > 0 {
        words := Put(words, 0, x);
        assert words[..1] == [x];
        ValOne(x);
      } else {
        t := 0;
      }
    }

    method Clamp()
      requires Valid()
      modifies this`t
      ensures Normal() && Value() == old(Value()) && t <= old(t)
      ensures forall k :: t <= k < old(t) ==> words[k] == Mask(s, B)
    {
      var c := Mask(s, B);
      while t > 0 && words[t - 1] == c
        invariant Valid() && Value() == old(Value()) && t <= old(t)
        invariant forall k :: t <= k < old(t) ==> words[k] == c
        decreases t
      {
        DropSignWord(words[..t], s);
        assert words[..t][..t - 1] == words[..t - 1];
        t := t - 1;
      }
    }

    /** while(t < n) this[t++] = 0 on a non-negative number. */
    method PadTo(n: nat)
      requires Valid() && s == 0
      modifies this
      ensures Valid() && s == 0 && t == (if old(t) < n then n else old(t)) && Value() == old(Value())
    {
      while t < n
        invariant Valid() && s == 0 && (t <= n || t == old(t)) && old(t) <= t && Value() == old(Value())
      {
        ghost var w := words[..t];
        words := Put(words, t, 0);
        assert words[..t + 1] == w + [0];
        ValSnoc(B, w, 0);
        t := t + 1;
      }
    }

    method CopyTo(r: BigInteger)
      requires Valid()
      modifies r
      ensures r.Valid() && r.t == old(t) && r.s == old(s) && r.words[..r.t] == old(words[..t])
      ensures |r.words| >= old(|r.words|)
    {
      ghost var w0 := words;
      var i := t;
      while i > 0
        invariant 0 <= i <= t == old(t) && s == old(s) && |r.words| >= old(|r.words|)
        invariant t <= |words| && forall k :: 0 <= k < t ==> words[k] == w0[k]
        invariant i < t ==> t <= |r.words|
        invariant forall k :: i <= k < t ==> k < |r.words| && r.words[k] == w0[k]
      {
        i := i - 1;
        r.words := Put(r.words, i, words[i]);
      }
      r.t := t;
      r.s := s;
    }

    /** The digits, n places up; from the top, because r may be this number. No digit is looked for below index 0. */
    method CopyUp(n: int, r: BigInteger)
      requires Valid() && 0 <= t + n && (n < 0 ==> r != this)
      modifies r`words
      ensures t > 0 ==> t + n <= |r.words|
      ensures forall k :: 0 <= k && n <= k < t + n ==> r.words[k] == old(words[k - n])
      ensures t + n == 0 ==> r.words == old(r.words)
    {
      ghost var w0 := words;
      var i := t;
      while i > 0
        invariant 0 <= i <= t && (i < t ==> t + n <= |r.words|) && (t + n == 0 ==> r.words == old(r.words))
        invariant i <= |words| && forall k :: 0 <= k < i ==> words[k] == w0[k]
        invariant forall k :: 0 <= k && i + n <= k < t + n ==> r.words[k] == w0[k - n]
      {
        i := i - 1;
        if i + n >= 0 { r.words := Put(r.words, i + n, words[i]); }
      }
    }

    /** Zeros in the n lowest digits. */
    method ClearLow(n: nat)
      modifies this`words
      ensures n <= |words| && |words| >= old(|words|)
      ensures forall k :: 0 <= k < n ==> words[k] == 0
      ensures forall k :: n <= k < old(|words|) ==> words[k] == old(words)[k]
    {
      ghost var w0 := words;
      var i := n;
      while i > 0
        invariant 0 <= i <= n && |words| >= |w0| && (i < n ==> n <= |words|)
        invariant forall k :: i <= k < n ==> words[k] == 0
        invariant forall k :: n <= k < |w0| ==> words[k] == w0[k]
      {
        i := i - 1;
        words := Put(words, i, 0);
      }
    }

    /** For a negative n the lowest digits are lost; r then has to be another number, or others get overwritten. */
    method DlShiftTo(n: int, r: BigInteger)
      requires Valid() && 0 <= t + n && (n < 0 ==> r != this)
      modifies r
      ensures r.Valid() && r.t == old(t) + n && r.s == old(s)
      ensures n >= 0 ==> r.words[..r.t] == Zeros(n) + old(words[..t]) && r.Value() == P(n) * old(Value())
      ensures n < 0 ==> r.words[..r.t] == old(words[-n..t])
      ensures r.t == 0 && n < 0 ==> r.words == old(r.words)
    {
      ghost var w0, v := words, Value();
      CopyUp(n, r);
      if n >= 0 { r.ClearLow(n); }
      r.s, r.t := s, t + n;
      if n >= 0 {
        WordsShifted(r.words, w0, n, old(t), s, v);
        assert r.Value() == P(n) * v;
      }
    }

    method DrShiftTo(n: nat, r: BigInteger)
      requires Valid()
      modifies r
      ensures r.Valid() && r.t == (if n <= old(t) then old(t) - n else 0) && r.s == old(s)
      ensures n <= old(t) ==> r.words[..r.t] == old(words[n..t])
    {
      ghost var w0 := words;
      var i := n;
      while i < t
        invariant n <= i && (i <= t || i == n) && t == old(t) && s == old(s)
        invariant t <= |words| && forall k :: i <= k < t ==> words[k] == w0[k]
        invariant i - n <= |r.words| && forall k :: 0 <= k < i - n ==> r.words[k] == w0[k + n]
      {
        r.words := Put(r.words, i - n, words[i]);
        i := i + 1;
      }
      r.s, r.t := s, if t >= n then t - n else 0;
    }

    /** DrShiftTo on a non-negative number is division by B^n; e is what was dropped. */
    method DropDigits(n: nat, r: BigInteger) returns (ghost e: int)
      requires Normal() && s == 0
      modifies r
      ensures r.Normal() && r.s == 0 && old(Value()) == e + P(n) * r.Value() && 0 <= e < P(n)
      ensures r.t == (if n <= old(t) then old(t) - n else 0)
    {
      ghost var w := words[..t];
      ValBound(B, w);
      if n <= t {
        ValSplit(B, w, n);
        ValBound(B, w[..n]);
        e := V(w[..n]);
        assert words[n..t] == w[n..];
      } else {
        PowMonotone(B, t, n);
        e := V(w);
      }
      DrShiftTo(n, r);
      assert r.t > 0 ==> r.words[..r.t][r.t - 1] == w[|w| - 1];
    }

    /** Positive, negative or zero like this - a, except for two negatives of different lengths. */
    method CompareTo(a: BigInteger) returns (r: int)
      requires Valid() && a.Valid() && (t != a.t ==> Normal() && a.Normal())
      ensures SameSign(r, Value() - a.Value()) <==> (s == a.s == -1 ==> t == a.t)
    {
      r := s - a.s;
      if r != 0 {
        Positive();
        a.Positive();
        return;
      }
      var i := t;
      r := i - a.t;
      if r != 0 {
        NormalRange(words[..t], s);
        NormalRange(a.words[..a.t], a.s);
        PowMonotone(B, if r > 0 then a.t else t, if r > 0 then t - 1 else a.t - 1);
        return;
      }
      while i > 0
        invariant 0 <= i <= t == a.t <= |words| && t <= |a.words| && r == 0
        invariant forall k :: i <= k < t ==> words[k] == a.words[k]
      {
        i := i - 1;
        r := words[i] - a.words[i];
        if r != 0 {
          if r > 0 { ValCompare(a.words[..t], words[..t], i); } else { ValCompare(words[..t], a.words[..t], i); }
          return;
        }
      }
      assert words[..t] == a.words[..t];
    }

    /** The single-operand tail of a subtraction: this[i] = carry + or - o[i] up to o's last digit. */
    method CarryThrough(o: BigInteger, minus: bool, i0: nat, c0: int, ghost o0: seq<int>, ghost x: int) returns (c: int)
      requires if minus then -2 <= c0 <= 0 else -1 <= c0 <= 1
      requires i0 <= o.t && WordsIn(o0, 0, o.t) && Unread(o, o0, o.t, o.s, i0)
      requires WordsIn(words, 0, i0) && CarryEq(words[..i0], c0, x + Signed(minus, V(o0[..i0])))
      modifies this`words
      ensures if minus then -2 <= c <= 0 else -1 <= c <= 1
      ensures WordsIn(words, 0, o.t) && CarryEq(words[..o.t], c, x + Signed(minus, V(o0[..o.t])))
      ensures SameFrom(words, old(words), o.t)
    {
      var i := i0;
      c := c0;
      while i < o.t
        invariant i0 <= i <= o.t && WordsIn(words, 0, i) && Unread(o, o0, o.t, o.s, i)
        invariant SameFrom(words, old(words), o.t)
        invariant if minus then -2 <= c <= 0 else -1 <= c <= 1
        invariant CarryEq(words[..i], c, x + Signed(minus, V(o0[..i])))
      {
        TailWord(words, i, c, o0, minus, x);
        c := c + Signed(minus, o.words[i]);
        words := Put(words, i, Mask(c, B));
        c := Shr(c, B);
        i := i + 1;
      }
    }

    /** The part of a subtraction where both operands have digits. */
    method SubCommon(a: BigInteger, m: nat, r: BigInteger) returns (c: int)
      requires m <= t && m <= a.t && Valid() && a.Valid()
      modifies r`words
      ensures -1 <= c <= 0 && WordsIn(r.words, 0, m)
      ensures Unread(this, old(words), old(t), old(s), m) && Unread(a, old(a.words), old(a.t), old(a.s), m)
      ensures CarryEq(r.words[..m], c, V(old(words[..m])) - V(old(a.words[..m]))) && SameFrom(r.words, old(r.words), m)
    {
      var i := 0;
      c := 0;
      while i < m
        invariant 0 <= i <= m && -1 <= c <= 0 && WordsIn(r.words, 0, i) && SameFrom(r.words, old(r.words), m)
        invariant Unread(this, old(words), old(t), old(s), i) && Unread(a, old(a.words), old(a.t), old(a.s), i)
        invariant CarryEq(r.words[..i], c, V(old(words)[..i]) - V(old(a.words)[..i]))
      {
        SubWord(r.words, i, c, old(words), old(a.words));
        c := c + words[i] - a.words[i];
        r.words := Put(r.words, i, Mask(c, B));
        c := Shr(c, B);
        i := i + 1;
      }
    }

    /** Turns the last carry into a sign and possibly one more digit. */
    method SetSign(i: nat, c: int, ghost x: int)
      requires WordsIn(words, 0, i) && -2 <= c <= 1 && CarryEq(words[..i], c, x)
      modifies this
      ensures Normal() && Value() == x && (-1 <= c <= 0 ==> words == old(words))
    {
      FinishSub(words, i, c, x);
      s, t := if c < 0 then -1 else 0, i;
      if c < -1 {
        words, t := Put(words, i, B + c), i + 1;
      } else if c > 0 {
        words, t := Put(words, i, c), i + 1;
      }
      Clamp();
    }

    method SubTo(a: BigInteger, r: BigInteger)
      requires Valid() && a.Valid()
      modifies r
      ensures r.Normal() && r.Value() == old(Value()) - old(a.Value())
      ensures var n := if old(a.t) < old(t) then old(t) else old(a.t);
        -P(n) <= r.Value() < P(n) ==> SameFrom(r.words, old(r.words), n)
    {
      ghost var x := Value() - a.Value();
      var n, c := SubDigits(a, r, x);
      CarrySmall(r.words[..n], c, x);
      r.SetSign(n, c, x);
    }

    /** All digits of the difference x, and the carry with the signs taken in. */
    method SubDigits(a: BigInteger, r: BigInteger, ghost x: int) returns (n: nat, c: int)
      requires Valid() && a.Valid() && x == Value() - a.Value()
      modifies r`words
      ensures n == (if a.t < t then t else a.t) && -2 <= c <= 1
      ensures WordsIn(r.words, 0, n) && CarryEq(r.words[..n], c, x) && SameFrom(r.words, old(r.words), n)
    {
      ghost var w0, a0, u, v := words, a.words, Value(), a.Value();
      var m := if a.t < t then a.t else t;
      c := SubCommon(a, m, r);
      if a.t < t {
        AddSign(r.words[..m], c, a.s, V(w0[..m]) - V(a0[..m]));
        c := r.CarryThrough(this, false, m, c - a.s, w0, -v);
        AddSign(r.words[..t], c, s, V(w0[..t]) - v);
        n, c := t, c + s;
      } else {
        AddSign(r.words[..m], c, s, V(w0[..m]) - V(a0[..m]));
        c := r.CarryThrough(a, true, m, c + s, a0, u);
        AddSign(r.words[..a.t], c, a.s, u - V(a0[..a.t]));
        n, c := a.t, c - a.s;
      }
    }

    /** The numbers may be one, if the digits read are the ones written. */
    method Am3(i0: nat, x: int, w: BigInteger, j0: nat, c0: int, n: nat) returns (c: int)
      requires this != w || i0 == j0
      requires 0 <= x < 2 * B && 0 <= c0 < 3 * B
      requires WordsIn(words, i0, i0 + n) && WordsIn(w.words, j0, j0 + n)
      modifies w`words
      ensures SameOutside(w.words, old(w.words), j0, j0 + n)
      ensures WordsIn(w.words, j0, j0 + n) && 0 <= c < 3 * B
      ensures AmEq(w.words[j0..j0 + n], c, old(w.words[j0..j0 + n]), x, old(words[i0..i0 + n]), c0)
    {
      ghost var w0, ds := w.words, words;
      var i, j := i0, j0;
      c := c0;
      while j < j0 + n
        invariant j0 <= j <= j0 + n && i - i0 == j - j0
        invariant SameOutside(w.words, w0, j0, j)
        invariant WordsIn(w.words, j0, j) && 0 <= c < 3 * B
        invariant AmEq(w.words[j0..j], c, w0[j0..j], x, ds[i0..i], c0)
      {
        assert words[i] == ds[i];
        c := Am3Digit(i0, i, x, w, j0, j, c, c0, w0, ds);
        i, j := i + 1, j + 1;
      }
    }

    /** One digit of Am3; ds are the digits read. */
    method Am3Digit(ghost i0: nat, i: nat, x: int, w: BigInteger, ghost j0: nat, j: nat, c: int,
        ghost c0: int, ghost w0: seq<int>, ghost ds: seq<int>) returns (hi: int)
      requires 0 <= x < 2 * B && 0 <= c < 3 * B && i0 <= i < |words| && j0 <= j < |w.words| && i - i0 == j - j0
      requires i < |ds| && 0 <= words[i] == ds[i] < B && 0 <= w.words[j] < B
      requires SameOutside(w.words, w0, j0, j) && WordsIn(w.words, j0, j)
      requires AmEq(w.words[j0..j], c, w0[j0..j], x, ds[i0..i], c0)
      modifies w`words
      ensures SameOutside(w.words, w0, j0, j + 1) && WordsIn(w.words, j0, j + 1) && 0 <= hi < 3 * B
      ensures AmEq(w.words[j0..j + 1], hi, w0[j0..j + 1], x, ds[i0..i + 1], c0)
    {
      ghost var w1 := w.words;
      var lo;
      lo, hi := Am3Word(words[i], x, w.words[j], c);
      w.words := w.words[j := lo];
      SliceUpdate(w1, j0, j, lo);
      MulAddExtend(B, x, c0, c, hi, w1[j0..j], lo, w0[j0..j], w1[j], ds[i0..i], ds[i]);
      SliceSnoc(w0, j0, j);
      SliceSnoc(ds, i0, i);
    }

    /** this *= n in place: adds n - 1 times this to itself. */
    method DMultiply(n: int)
      requires Valid() && s == 0 && 1 <= n <= B
      modifies this
      ensures Normal() && s == 0 && Value() == old(Value()) * n
    {
      ghost var w0, v := words[..t], Value();
      var c := Am3(0, n - 1, this, 0, 0, t);
      ghost var w1 := words[..t];
      assert words[0..0 + t] == w1;
      AmCarry(w1, c, w0, n - 1, w0, 0);
      TimesItself(w1, c, w0, n);
      words := Put(words, t, c);
      assert words[..t + 1] == w1 + [c];
      ValSnoc(B, w1, c);
      t := t + 1;
      Clamp();
    }

    /** One digit of a left shift: writes the high part with the incoming bits, returns the outgoing ones. */
    method LShiftDigit(r: BigInteger, i: nat, ds: nat, c: int, u: int, v: int) returns (e: int, c': int)
      requires i < |words| && 0 <= words[i] < B && 0 < u && 0 < v && u * v == B && u <= B
      requires 0 <= c <= B - u && c % u == 0
      modifies r`words
      ensures r.words == Put(old(r.words), i + ds + 1, e)
      ensures 0 <= e < B && 0 <= c' <= B - u && c' % u == 0 && (e - c) * B + c' == u * old(words[i])
    {
      DigitHalves(words[i], u, v);
      ModMultiple(words[i] % v, u);
      e := Or(c, Shr(words[i], v), u);
      c' := Shl(Mask(words[i], v), u);
      r.words := Put(r.words, i + ds + 1, e);
    }

    /** Digit i of a left shift, below those written already. */
    method LShiftNext(r: BigInteger, i: nat, ds: nat, c: int, u: int, v: int, ghost hi: seq<int>, ghost xs: seq<int>,
        ghost c0: int)
      returns (c': int, ghost hi': seq<int>)
      requires i < |words| && 0 <= words[i] < B && 0 < u <= B && 0 < v && u * v == B && 0 <= c <= B - u && c % u == 0
      requires AllWords(hi) && |hi| == |xs| && LShiftEq(hi, c, xs, u, c0)
        && (|hi| > 0 ==> i + ds + 2 + |hi| <= |r.words|)
      requires forall k :: 0 <= k < |hi| ==> r.words[i + 1 + ds + 1 + k] == hi[k]
      modifies r`words
      ensures 0 <= c' <= B - u && c' % u == 0
      ensures AllWords(hi') && |hi'| == |hi| + 1 && LShiftEq(hi', c', [old(words[i])] + xs, u, c0)
      ensures i + ds + 1 + |hi'| <= |r.words| && |r.words| >= old(|r.words|)
      ensures forall k :: 0 <= k < |hi'| ==> r.words[i + ds + 1 + k] == hi'[k]
      ensures forall k :: 0 <= k <= i + ds && k < old(|r.words|) ==> r.words[k] == old(r.words[k])
    {
      ghost var d := words[i];
      var e;
      e, c' := LShiftDigit(r, i, ds, c, u, v);
      LShiftWord(hi, c, xs, u, c0, d, e, c');
      hi' := [e] + hi;
      forall k | 0 <= k < |hi'| ensures r.words[i + ds + 1 + k] == hi'[k] {
        if k > 0 { assert old(r.words)[i + 1 + ds + 1 + (k - 1)] == hi[k - 1]; }
      }
    }

    /** The digit loop of a left shift, most significant digit first; hi are the digits written. */
    method LShiftDigits(r: BigInteger, ds: nat, c0: int, u: int, v: int) returns (c: int, ghost hi: seq<int>)
      requires Valid() && 0 < u <= B && 0 < v && u * v == B && 0 <= c0 <= B - u && c0 % u == 0
      modifies r`words
      ensures 0 <= c < B && |hi| == t && AllWords(hi) && LShiftEq(hi, c, old(words[..t]), u, c0)
      ensures t > 0 ==> t + ds + 1 <= |r.words|
      ensures forall k :: 0 <= k < t ==> r.words[ds + 1 + k] == hi[k]
    {
      ghost var w0 := words;
      hi := [];
      c := c0;
      var i := t;
      while i > 0
        invariant 0 <= i <= t && 0 <= c <= B - u && c % u == 0
        invariant i <= |words| && forall k :: 0 <= k < i ==> words[k] == w0[k]
        invariant |hi| == t - i && AllWords(hi) && LShiftEq(hi, c, w0[i..t], u, c0)
        invariant i < t ==> t + ds + 1 <= |r.words|
        invariant forall k :: 0 <= k < t - i ==> r.words[i + ds + 1 + k] == hi[k]
      {
        i := i - 1;
        c, hi := LShiftNext(r, i, ds, c, u, v, hi, w0[i + 1..t], c0);
        assert w0[i..t] == [w0[i]] + w0[i + 1..t];
      }
      assert w0[0..t] == w0[..t];
    }

    method LShiftTo(n: nat, r: BigInteger)
      requires Valid()
      modifies r
      ensures r.Normal() && r.s == old(s) && r.Value() == old(Value()) * (Pow(2, n % DB) * P(n / DB))
      ensures old(t) + n / DB < |r.words| && forall k :: r.t <= k <= old(t) + n / DB ==> r.words[k] == Mask(r.s, B)
    {
      var bs, ds := n % DB, n / DB;
      var u, v := Pow(2, bs), Pow(2, DB - bs);
      HalfWords(bs);
      LShiftSign(s, u, v);
      ghost var ws := words[..t];
      var c0 := Mask(Shl(s, u), B);
      var c, hi := LShiftDigits(r, ds, c0, u, v);
      LShiftDone(hi, c, ws, u, c0, ds, s);
      r.LowZeros(ds, c, hi);
      r.s, r.t := s, t + ds + 1;
      assert r.Value() == old(Value()) * (u * P(ds));
      r.Clamp();
    }

    /** Fills the ds digits below a shifted number with zeros and sets digit ds. */
    method LowZeros(ds: nat, c: int, ghost hi: seq<int>)
      requires 0 <= c < B && AllWords(hi) && (|hi| > 0 ==> |hi| + ds + 1 <= |words|)
      requires forall k :: 0 <= k < |hi| ==> words[ds + 1 + k] == hi[k]
      modifies this`words
      ensures WordsIn(words, 0, |hi| + ds + 1) && words[..|hi| + ds + 1] == Zeros(ds) + [c] + hi
    {
      var i := ds;
      while i > 0
        invariant 0 <= i <= ds && (|hi| > 0 ==> |hi| + ds + 1 <= |words|) && (i < ds ==> ds <= |words|)
        invariant forall k :: i <= k < ds ==> words[k] == 0
        invariant forall k :: 0 <= k < |hi| ==> words[ds + 1 + k] == hi[k]
      {
        i := i - 1;
        words := Put(words, i, 0);
      }
      words := Put(words, ds, c);
      var n := |hi| + ds + 1;
      forall k | ds < k < n ensures words[k] == hi[k - ds - 1] {
        assert words[ds + 1 + (k - ds - 1)] == hi[k - ds - 1];
      }
      assert words[..n] == Zeros(ds) + [c] + hi;
    }

    /** this[k] |= bits << cbs on a digit whose upper bits are clear. */
    method OrHigh(k: nat, bits: int, u: int, v: int)
      requires k < |words| && 0 <= words[k] < v && 0 <= bits < u && 0 < v && u * v == B
      modifies this`words
      ensures words == old(words)[k := old(words[k]) + bits * v] && 0 <= bits * v <= B - v
    {
      MulMono(bits, u - 1, v);
      assert (u - 1) * v == B - v;
      MulMono(0, bits, v);
      ModMultiple(bits, v);
      words := words[k := Or(Shl(bits, v), words[k], v)];
    }

    /** One digit of a right shift: completes the digit below and starts this one. */
    method RShiftDigit(r: BigInteger, i: nat, k: nat, u: int, v: int, ghost xs: seq<int>)
      requires i < |words| && 0 <= words[i] < B && 0 < k <= i && 0 < u && 0 < v && u * v == B
      requires WordsIn(r.words, 0, k) && r.words[k - 1] < v && RShiftEq(r.words[..k], xs, u)
      modifies r`words
      ensures WordsIn(r.words, 0, k + 1) && r.words[k] < v
      ensures |r.words| >= |old(r.words)|
      ensures forall l :: k < l < |old(r.words)| ==> r.words[l] == old(r.words)[l]
      ensures RShiftEq(r.words[..k + 1], xs + [old(words[i])], u)
    {
      DigitParts(words[i], u, v);
      var h, l := Shr(words[i], u), Mask(words[i], u);
      RShiftWord(r.words, k, xs, u, v, words[i], h, l);
      r.OrHigh(k - 1, l, u, v);
      r.words := Put(r.words, k, h);
    }

    /** The lowest digit of a right shift. */
    method RShiftStart(r: BigInteger, ds: nat, u: int, v: int)
      requires ds < |words| && 0 <= words[ds] < B && 0 < u && 0 < v && u * v == B
      modifies r`words
      ensures WordsIn(r.words, 0, 1) && r.words[0] < v && |r.words| >= old(|r.words|)
      ensures RShiftEq(r.words[..1], old(words[ds..ds + 1]), u)
      ensures forall l :: 0 < l < old(|r.words|) ==> r.words[l] == old(r.words)[l]
    {
      var d := words[ds];
      DigitParts(d, u, v);
      assert words[ds..ds + 1] == [d];
      r.words := Put(r.words, 0, Shr(d, u));
      RShiftFirst(d, u);
      assert r.words[..1] == [d / u];
    }

    /** The digit loop of a right shift of the digits from ds up. */
    method RShiftDigits(r: BigInteger, ds: nat, u: int, v: int)
      requires Valid() && ds < t && 0 < u && 0 < v && u * v == B
      modifies r`words
      ensures WordsIn(r.words, 0, t - ds) && r.words[t - ds - 1] < v
      ensures RShiftEq(r.words[..t - ds], old(words[ds..t]), u)
    {
      ghost var w0 := words;
      RShiftStart(r, ds, u, v);
      var i, k := ds + 1, 1;
      while i < t
        invariant i == ds + k <= t <= |words| && 0 < k && WordsIn(r.words, 0, k) && r.words[k - 1] < v
        invariant forall l :: i <= l < t ==> words[l] == w0[l]
        invariant RShiftEq(r.words[..k], w0[ds..i], u)
      {
        SliceSnoc(w0, ds, i);
        RShiftDigit(r, i, k, u, v, w0[ds..i]);
        i, k := i + 1, k + 1;
      }
    }

    /** A right shift of the digits from ds up with m, the sign's low bits, coming in at the top. */
    method RShiftSigned(r: BigInteger, ds: nat, bs: nat, u: int, v: int, m: int)
      requires Valid() && ds < t && 0 < u && 0 < v && u * v == B && 0 <= m < u && m + u * s == s && (bs == 0 ==> m == 0)
      modifies r`words
      ensures WordsIn(r.words, 0, t - ds)
      ensures IsFloor(old(Value()), P(ds) * u, V(r.words[..t - ds]) + s * P(t - ds))
    {
      ghost var ws, k := words[..t], t - ds;
      assert ws[ds..] == words[ds..t];
      RShiftDigits(r, ds, u, v);
      ghost var r1 := r.words;
      RShiftDone(r1, ws, ds, k, u, v, s, m);
      if bs > 0 {
        r.OrHigh(t - ds - 1, m, u, v);
      } else {
        assert r1[k - 1 := r1[k - 1] + m * v] == r1;
      }
    }

    method RShiftTo(n: nat, r: BigInteger)
      requires Valid()
      modifies r
      ensures r.Normal() && r.s == old(s)
      ensures IsFloor(old(Value()), P(n / DB) * Pow(2, n % DB), r.Value())
    {
      var bs, ds := n % DB, n / DB;
      var u, v := Pow(2, bs), Pow(2, DB - bs);
      HalfWords(bs);
      SignBits(s, u);
      if ds >= t {
        ShiftedOut(words[..t], s, ds, u);
        r.s, r.t := s, 0;
      } else {
        RShiftSigned(r, ds, bs, u, v, Mask(s, u));
        r.s, r.t := s, t - ds;
        r.Clamp();
      }
    }

    method Negate() returns (r: BigInteger)
      requires Valid()
      ensures fresh(r) && r.Normal() && r.Value() == -Value()
    {
      r := new BigInteger();
      var zero := new BigInteger();
      zero.SubTo(this, r);
    }

    method Abs() returns (r: BigInteger)
      requires Valid()
      ensures r.Valid() && r.s == 0 && r.Value() == (if s == 0 then Value() else -Value())
      ensures (r == this || fresh(r)) && (Normal() ==> r.Normal())
    {
      if s < 0 {
        ValBound(B, words[..t]);
        r := Negate();
        r.Positive();
      } else {
        r := this;
      }
    }

    lemma Positive()
      requires Valid()
      ensures s == -1 <==> Value() < 0
    {
      ValBound(B, words[..t]);
    }

    /** Digits in range except that digit w may have overflowed; the top power is reached. */
    ghost predicate Overflowing(w: nat, v: int)
      reads this
    {
      && w < t <= |words| && s == 0 && 0 <= words[w] < 2 * B && P(t - 1) <= v == V(words[..t])
      && forall k :: 0 <= k < t && k != w ==> 0 <= words[k] < B
    }

    /** Appends a zero digit above an overflowing top digit. */
    method GrowAbove(w: nat, ghost v: int)
      requires Overflowing(w, v) && words[w] >= B
      modifies this
      ensures Overflowing(w, v) && words[w] == old(words[w])
      ensures if w + 1 < old(t) then t == old(t) else t == w + 2 && words[w + 1] == 0
    {
      if w + 1 >= t {
        ghost var w1 := words[..t];
        TopDigit(words, t);
        words, t := Put(words, t, 0), t + 1;
        assert words[..t] == w1 + [0];
        ValSnoc(B, w1, 0);
      }
    }

    /** Moves one B from digit w to a 1 at the digit above. */
    method CarryDigit(w: nat, ghost v: int)
      requires Overflowing(w, v) && words[w] >= B && w + 1 < t
      modifies this`words
      ensures Overflowing(w + 1, v) && words[w + 1] == old(words[w + 1]) + 1
    {
      CarryUp(words, w, t);
      words := words[w := words[w] - B];
      words := words[w + 1 := words[w + 1] + 1];
    }

    /** Runs the carry upwards from digit w0. */
    method CarryRun(w0: nat, ghost v: int)
      requires Overflowing(w0, v)
      modifies this
      ensures Normal() && s == 0 && Value() == v
    {
      var w := w0;
      ghost var limit := t + 1;
      while words[w] >= B
        invariant Overflowing(w, v) && t <= limit && (t == limit ==> words[w] < B)
        decreases limit - w
      {
        GrowAbove(w, v);
        CarryDigit(w, v);
        w := w + 1;
      }
      ValTop(B, words[..t]);
    }

    /** this += n*B^w for a non-negative number. */
    method DAddOffset(n: int, w: nat)
      requires Normal() && s == 0 && 0 <= n < B
      modifies this
      ensures Valid() && s == 0 && Value() == old(Value()) + n * P(w) && (n > 0 ==> Normal())
    {
      ghost var v := Value() + n * P(w);
      NormalRange(words[..t], 0);
      PadTo(w + 1);
      Bump(words, w, n, t);
      words := words[w := words[w] + n];
      if n > 0 {
        MulMono(1, n, P(w));
        CarryRun(w, v);
      }
    }

    /** this[0..j) = 0, from the top down. */
    method ZeroTo(j: nat)
      modifies this`words
      ensures |words| >= j && |words| >= old(|words|) && forall k :: 0 <= k < j ==> words[k] == 0
    {
      var i := j;
      while i > 0
        invariant 0 <= i <= j && |words| >= old(|words|) && (i < j ==> |words| >= j)
        invariant forall k :: i <= k < j ==> words[k] == 0
      {
        i := i - 1;
        words := Put(words, i, 0);
      }
    }

    /** am seen from the whole number w[..m] it is adding to. */
    method AmAdd(i: nat, x: int, w: BigInteger, j: nat, c0: int, n: nat, ghost m: nat) returns (c: int)
      requires this != w && 0 <= x < 2 * B && 0 <= c0 <= x
      requires WordsIn(words, i, i + n) && WordsIn(w.words, j, j + n) && j + n <= m <= |w.words|
      modifies w`words
      ensures SameOutside(w.words, old(w.words), j, j + n) && WordsIn(w.words, j, j + n)
      ensures 0 <= c <= x
      ensures Accumulated(w.words[..m], c, j + n, old(w.words[..m]), j, x, words[i..i + n], c0)
    {
      c := Am3(i, x, w, j, c0, n);
      AmCarry(w.words[j..j + n], c, old(w.words)[j..j + n], x, words[i..i + n], c0);
      AmPlace(w.words, old(w.words), j, n, m, c, x, words[i..i + n], c0);
    }

    /** Row i of a product: adds y_i*this at digit i and stores the carry above. */
    method MulRowTo(d: int, i: nat, r: BigInteger, ghost ys: seq<int>)
      requires Valid() && r != this && i < |ys| && 0 <= d == ys[i] < B
      requires WordsIn(r.words, 0, t + i) && IsProduct(r.words[..t + i], words[..t], ys[..i])
      modifies r`words
      ensures WordsIn(r.words, 0, t + i + 1) && IsProduct(r.words[..t + i + 1], words[..t], ys[..i + 1])
    {
      ghost var r0 := r.words;
      var c := AmAdd(0, d, r, i, 0, t, t + i);
      assert words[0..0 + t] == words[..t];
      MulRow(r0[..t + i], r.words, c, t + i, words[..t], ys, i);
      r.words := Put(r.words, i + t, c);
    }

    /** The digit loop of a product of two non-negative numbers. */
    method MulDigits(y: BigInteger, r: BigInteger)
      requires Valid() && y.Valid() && r != this && r != y
      modifies r
      ensures r.Valid() && r.s == 0 && r.t == t + y.t && IsProduct(r.words[..r.t], words[..t], y.words[..y.t])
    {
      r.ZeroTo(t);
      r.s, r.t := 0, t + y.t;
      ValZeros(B, r.words[..t]);
      var i := 0;
      while i < y.t
        invariant 0 <= i <= y.t && r.t == t + y.t && r.s == 0
        invariant WordsIn(r.words, 0, t + i) && IsProduct(r.words[..t + i], words[..t], y.words[..i])
      {
        MulRowTo(y.words[i], i, r, y.words);
        i := i + 1;
      }
    }

    method MultiplyTo(a: BigInteger, r: BigInteger)
      requires Valid() && a.Valid() && r != this && r != a
      modifies r
      ensures r.Normal() && r.Value() == Value() * a.Value()
    {
      var x := Abs();
      var y := a.Abs();
      ghost var u, v := V(x.words[..x.t]), V(y.words[..y.t]);
      SignProduct(Value(), a.Value(), u, v);
      x.MulDigits(y, r);
      r.Clamp();
      assert r.Value() == u * v;
      if s != a.s {
        var zero := new BigInteger();
        zero.SubTo(r, r);
      }
    }

    /** Adds a row's carry to digit k, moving an overflow into the zero digit above it. */
    method SquareCarry(k: nat, c: int, n: nat)
      requires 0 <= c <= 2 * B - 2 && k + 1 < n && WordsIn(words, 0, n) && SquareTop(words, k, n)
      modifies this`words
      ensures |words| == old(|words|) && WordsIn(words, 0, n) && SquareTop(words, k + 1, n)
      ensures V(words[..n]) == old(V(words[..n])) + c * P(k)
    {
      Bump(words, k, c, n);
      words := words[k := words[k] + c];
      if words[k] >= B {
        CarryUp(words, k, n);
        assert words[k + 1] == 0;
        words := words[k := words[k] - B];
        words := words[k + 1 := 1];
      }
    }

    /** Row i of a square: adds x_i^2 and then 2*x_i times the digits above, in place. */
    method SquareRow(r: BigInteger, i: nat, n: nat)
      requires Valid() && r != this && i + 1 < t && n == 2 * t && WordsIn(r.words, 0, n)
      requires SquareTop(r.words, t + i, n) && SquareEq(V(r.words[..n]), words[..t], i)
      modifies r`words
      ensures |r.words| == old(|r.words|) && WordsIn(r.words, 0, n)
      ensures SquareTop(r.words, t + i + 1, n) && SquareEq(V(r.words[..n]), words[..t], i + 1)
    {
      ghost var r0 := r.words;
      var c := AmAdd(i, words[i], r, 2 * i, 0, 1, n);
      ghost var r1, c1 := r.words, c;
      assert WordsIn(r1, 0, n);
      c := AmAdd(i + 1, 2 * words[i], r, 2 * i + 1, c, t - i - 1, n);
      assert WordsIn(r.words, 0, n) && SquareTop(r.words, t + i, n);
      SquareStep(r0[..n], r1[..n], r.words[..n], words[..t], i, c1, c, t + i);
      r.SquareCarry(t + i, c, n);
    }

    /** The digit loop of the square of a non-negative number. */
    method SquareDigits(r: BigInteger)
      requires Valid() && r != this
      modifies r
      ensures r.Valid() && r.s == 0 && r.t == 2 * t && IsProduct(r.words[..r.t], words[..t], words[..t])
    {
      var n := 2 * t;
      r.ZeroTo(n);
      r.s, r.t := 0, n;
      ValZeros(B, r.words[..n]);
      assert words[..t][0..] == words[..t];
      var i := 0;
      while i < t - 1
        invariant 0 <= i && (i < t || i == 0) && r.t == n && r.s == 0 && WordsIn(r.words, 0, n)
        invariant SquareTop(r.words, t + i, n) && SquareEq(V(r.words[..n]), words[..t], i)
      {
        SquareRow(r, i, n);
        i := i + 1;
      }
      if n > 0 { SquareTopRow(r, i, n); }
    }

    /** The square of the top digit, whose carry goes to the digit above. */
    method SquareTopRow(r: BigInteger, i: nat, n: nat)
      requires Valid() && r != this && i + 1 == t && n == 2 * t && WordsIn(r.words, 0, n)
      requires SquareEq(V(r.words[..n]), words[..t], i)
      modifies r`words
      ensures |r.words| == old(|r.words|) && WordsIn(r.words, 0, n) && IsProduct(r.words[..n], words[..t], words[..t])
    {
      ghost var r0 := r.words;
      var c := AmAdd(i, words[i], r, 2 * i, 0, 1, n);
      assert words[i..i + 1] == [words[i]] && WordsIn(r.words, 0, n);
      SquareLast(r0[..n], r.words, words[..t], c, n);
      r.words := r.words[n - 1 := r.words[n - 1] + c];
    }

    method SquareTo(r: BigInteger)
      requires Valid() && r != this
      modifies r
      ensures r.Normal() && r.Value() == Value() * Value()
    {
      var x := Abs();
      x.SquareDigits(r);
      SignProduct(Value(), Value(), x.Value(), x.Value());
      r.Clamp();
    }
  }

  /** -1 has no digits and -5 has one; comparing them, bnCompareTo takes the longer number for the larger. */
  method CompareToFails() returns (r: int)
    ensures !SameSign(r, -1 - (-5))
  {
    var x := new BigInteger();
    var y := new BigInteger();
    var five := new BigInteger();
    x.FromInt(-1);
    five.FromInt(5);
    y.SubTo(five, y);
    NormalRange(x.words[..x.t], x.s);
    NormalRange(y.words[..y.t], y.s);
    assert y.Value() == -5 && x.Value() == -1;
    assert x.t == 0;
    assert V([]) == 0 && P(0) == 1 && y.words[..0] == [];
    r := x.CompareTo(y);
  }

  /** The digits of o from i up, and its length and sign, are as they were. */
  ghost predicate Unread(o: BigInteger, w0: seq<int>, t: nat, s: int, i: nat)
    reads o
  {
    o.t == t <= |o.words| && t <= |w0| && o.s == s && forall k :: i <= k < t ==> o.words[k] == w0[k]
  }
}
