/**
 benchmarks/earley-boyer.js:3564-3601, 3720-3732, 3790: the tautology test on if-trees,
 its soundness in every interpretation, when it is also complete, and the whole prover:
 rewrite, then test.
 */
module BoyerTautology {
  import opened Options
  import opened BoyerTerms
  import opened BoyerRewrite

  const T: Term := App("t", [])
  const F: Term := App("f", [])

  predicate IsTermMember(x: Term, ts: seq<Term>) {
    ts != [] && (IsTermEqual(x, ts[0]) || IsTermMember(x, ts[1..]))
  }

  lemma {:induction false} MemberIsIn(x: Term, ts: seq<Term>)
    ensures IsTermMember(x, ts) <==> x in ts
  {
    if ts != [] {
      EqualIsEquality(x, ts[0]);
      MemberIsIn(x, ts[1..]);
      assert ts == [ts[0]] + ts[1..];
    }
  }

  predicate TrueP(x: Term, ts: seq<Term>) { IsTermEqual(x, T) || IsTermMember(x, ts) }
  predicate FalseP(x: Term, fs: seq<Term>) { IsTermEqual(x, F) || IsTermMember(x, fs) }

  lemma KnownIsIn(x: Term, ts: seq<Term>, fs: seq<Term>)
    ensures TrueP(x, ts) <==> x == T || x in ts
    ensures FalseP(x, fs) <==> x == F || x in fs
  {
    EqualIsEquality(x, T);
    EqualIsEquality(x, F);
    MemberIsIn(x, ts);
    MemberIsIn(x, fs);
  }

  /** None when the test needs an argument that a conditional lacks (the code then fails). */
  function Tautologyp(x: Term, ts: seq<Term>, fs: seq<Term>): Option<bool> {
    if TrueP(x, ts) then Some(true)
    else if FalseP(x, fs) then Some(false)
    else if x.Leaf? || x.op != "if" then Some(false)
    else if |x.args| == 0 then None
    else
      var c := x.args[0];
      if TrueP(c, ts) then
        if |x.args| < 2 then None else Tautologyp(x.args[1], ts, fs)
      else if FalseP(c, fs) then
        if |x.args| < 3 then None else Tautologyp(x.args[2], ts, fs)
      else if |x.args| < 2 then None
      else
        var r := Tautologyp(x.args[1], [c] + ts, fs);
        if r != Some(true) then r
        else if |x.args| < 3 then None
        else Tautologyp(x.args[2], ts, [c] + fs)
  }

  // ----- Soundness in every interpretation

  /** (t) is not (f), and `if` chooses by whether its first argument is false. */
  ghost predicate IfMeansIf<V(!new)>(m: Model<V>) {
    && m.fn("t", []) != m.False()
    && (forall vs: seq<V> :: |vs| >= 2 && vs[0] != m.False() ==> m.fn("if", vs) == vs[1])
    && (forall vs: seq<V> :: |vs| >= 3 && vs[0] == m.False() ==> m.fn("if", vs) == vs[2])
  }

  ghost predicate Assumed<V(!new)>(m: Model<V>, env: string -> V, ts: seq<Term>, fs: seq<Term>) {
    && (forall x :: x in ts ==> Eval(m, env, x) != m.False())
    && (forall x :: x in fs ==> Eval(m, env, x) == m.False())
  }

  lemma EvalIf<V(!new)>(m: Model<V>, env: string -> V, x: Term)
    requires IfMeansIf(m) && x.App? && x.op == "if" && |x.args| >= 2
    ensures Eval(m, env, x.args[0]) != m.False() ==> Eval(m, env, x) == Eval(m, env, x.args[1])
    ensures Eval(m, env, x.args[0]) == m.False() && |x.args| >= 3 ==> Eval(m, env, x) == Eval(m, env, x.args[2])
  {
    var vs := EvalList(m, env, x.args);
    assert x.args[1..][0] == x.args[1];
    assert vs[1] == EvalList(m, env, x.args[1..])[0];
    if |x.args| >= 3 {
      assert x.args[1..][1..][0] == x.args[2];
      assert EvalList(m, env, x.args[1..])[1] == EvalList(m, env, x.args[1..][1..])[0];
    }
    assert Eval(m, env, x) == m.fn("if", vs);
  }

  /** A true answer holds under every assignment that makes all of ts true and all of fs false. */
  lemma {:induction false} TautologySound<V(!new)>(x: Term, ts: seq<Term>, fs: seq<Term>, m: Model<V>, env: string -> V)
    requires Tautologyp(x, ts, fs) == Some(true)
    requires IfMeansIf(m) && Assumed(m, env, ts, fs)
    ensures Eval(m, env, x) != m.False()
    decreases x
  {
    KnownIsIn(x, ts, fs);
    assert Eval(m, env, T) == m.fn("t", []) && Eval(m, env, F) == m.False();
    if !TrueP(x, ts) {
      var c := x.args[0];
      EvalIf(m, env, x);
      KnownIsIn(c, ts, fs);
      if TrueP(c, ts) {
        TautologySound(x.args[1], ts, fs, m, env);
      } else if FalseP(c, fs) {
        TautologySound(x.args[2], ts, fs, m, env);
      } else if Eval(m, env, c) != m.False() {
        TautologySound(x.args[1], [c] + ts, fs, m, env);
      } else {
        TautologySound(x.args[2], ts, [c] + fs, m, env);
      }
    }
  }

  /**
   The prover (BgL_testzd2boyerzd2): if the rewritten term passes the test, the term holds
   in every interpretation in which all the lemmas hold.
   */
  lemma ProverSound<V(!new)>(lemmas: seq<Term>, fuel: nat, t: Term, m: Model<V>)
    requires Setup(lemmas, map[]).Some? && Rewrite(fuel, Setup(lemmas, map[]).value, t).Some?
    requires Tautologyp(Rewrite(fuel, Setup(lemmas, map[]).value, t).value, [], []) == Some(true)
    requires EqualMeansEqual(m) && IfMeansIf(m)
    requires forall l :: l in lemmas ==> Holds(m, l)
    ensures Holds(m, t)
  {
    var store := Setup(lemmas, map[]).value;
    SetupModel(lemmas, m);
    forall env: string -> V ensures Eval(m, env, t) != m.False() {
      RewriteSound(fuel, store, t, m, env);
      TautologySound(Rewrite(fuel, store, t).value, [], [], m, env);
    }
  }

  // ----- Completeness on if-normal form

  predicate IsIf(x: Term) { x.App? && x.op == "if" }

  predicate IsAtom(x: Term) { !IsIf(x) && x != T && x != F }

  /** Conditionals have three arguments and their tests are not conditionals. */
  predicate IfNormal(x: Term) {
    IsIf(x) ==> |x.args| >= 3 && !IsIf(x.args[0]) && IfNormal(x.args[1]) && IfNormal(x.args[2])
  }

  /** The propositional reading: whatever is not a conditional or a constant has its truth value from v. */
  predicate Truth(v: Term -> bool, x: Term) {
    if x == T then true
    else if x == F then false
    else if IsIf(x) && |x.args| >= 3 then
      if Truth(v, x.args[0]) then Truth(v, x.args[1]) else Truth(v, x.args[2])
    else v(x)
  }

  ghost predicate Consistent(v: Term -> bool, ts: seq<Term>, fs: seq<Term>) {
    (forall x :: x in ts ==> v(x)) && (forall x :: x in fs ==> !v(x))
  }

  ghost predicate Assumable(ts: seq<Term>, fs: seq<Term>) {
    && (forall x :: x in ts ==> IsAtom(x))
    && (forall x :: x in fs ==> IsAtom(x))
    && (forall x :: x in ts ==> x !in fs)
  }

  /** A valuation, consistent with the assumptions, that makes x false: the branch on which the test gave up. */
  lemma {:induction false} Refuted(x: Term, ts: seq<Term>, fs: seq<Term>) returns (v: Term -> bool)
    requires IfNormal(x) && Assumable(ts, fs) && Tautologyp(x, ts, fs) != Some(true)
    ensures Consistent(v, ts, fs) && !Truth(v, x)
    decreases x
  {
    KnownIsIn(x, ts, fs);
    if !IsIf(x) || FalseP(x, fs) {
      v := y => y in ts;
    } else {
      var c, a, b := x.args[0], x.args[1], x.args[2];
      KnownIsIn(c, ts, fs);
      if TrueP(c, ts) {
        v := Refuted(a, ts, fs);
      } else if FalseP(c, fs) {
        v := Refuted(b, ts, fs);
      } else if Tautologyp(a, [c] + ts, fs) == Some(true) {
        v := Refuted(b, ts, [c] + fs);
        assert c in [c] + fs;
      } else {
        v := Refuted(a, [c] + ts, fs);
        assert c in [c] + ts;
      }
    }
  }

  lemma {:induction false} TautologyTrue(x: Term, ts: seq<Term>, fs: seq<Term>, v: Term -> bool)
    requires IfNormal(x) && Assumable(ts, fs) && Consistent(v, ts, fs) && Tautologyp(x, ts, fs) == Some(true)
    ensures Truth(v, x)
    decreases x
  {
    KnownIsIn(x, ts, fs);
    if !TrueP(x, ts) {
      var c, a, b := x.args[0], x.args[1], x.args[2];
      KnownIsIn(c, ts, fs);
      if TrueP(c, ts) {
        TautologyTrue(a, ts, fs, v);
      } else if FalseP(c, fs) {
        TautologyTrue(b, ts, fs, v);
      } else if v(c) {
        TautologyTrue(a, [c] + ts, fs, v);
      } else {
        TautologyTrue(b, ts, [c] + fs, v);
      }
    }
  }

  /** On if-normal form, which is what rewriting leaves (BoyerIfNormal), the test decides propositional validity. */
  lemma TautologyDecides(x: Term)
    requires IfNormal(x)
    ensures Tautologyp(x, [], []) == Some(true) <==> forall v: Term -> bool :: Truth(v, x)
  {
    if Tautologyp(x, [], []) == Some(true) {
      forall v: Term -> bool ensures Truth(v, x) {
        TautologyTrue(x, [], [], v);
      }
    } else {
      var v := Refuted(x, [], []);
      assert !Truth(v, x);
    }
  }

  /** Off that form it need not: called directly on (if (if p (t) (t)) (t) (f)), which is valid, it answers false. */
  lemma TautologyIncomplete()
    ensures var p := Leaf(Symbol("p"));
      var x := App("if", [App("if", [p, T, T]), T, F]);
      Tautologyp(x, [], []) == Some(false) && forall v: Term -> bool :: Truth(v, x)
  {
    var p := Leaf(Symbol("p"));
    var c := App("if", [p, T, T]);
    var x := App("if", [c, T, F]);
    assert c.args[1] == T && c.args[2] == T && x.args[0] == c && x.args[1] == T && x.args[2] == F;
    KnownIsIn(x, [], []);
    KnownIsIn(c, [], []);
    KnownIsIn(T, [c], []);
    KnownIsIn(F, [], [c]);
    assert [c] + [] == [c];
    forall v: Term -> bool ensures Truth(v, x) {
      assert Truth(v, c);
    }
  }
}
