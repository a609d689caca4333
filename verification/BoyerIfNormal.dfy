/**
 benchmarks/earley-boyer.js:3466, 3604-3633, 3790: why the tautology test decides what it is
 given. The code's lemma list moves a conditional out of the test of another one, so that a
 rewritten term has none left there.
 */
module BoyerIfNormal {
  import opened Options
  import opened BoyerTerms
  import opened BoyerRewrite
  import opened BoyerTautology
  import opened BoyerDerivation

  function Sym(name: string): Term { Leaf(Symbol(name)) }

  function If(c: Term, a: Term, b: Term): Term { App("if", [c, a, b]) }

  /** (equal (if (if a b c) d e) (if a (if b d e) (if c d e))). */
  function IfIf(): Term {
    App("equal", [
      If(If(Sym("a"), Sym("b"), Sym("c")), Sym("d"), Sym("e")),
      If(Sym("a"), If(Sym("b"), Sym("d"), Sym("e")), If(Sym("c"), Sym("d"), Sym("e")))])
  }

  /** Every conditional has three arguments. */
  ghost predicate ThreeArmed(t: Term)
    decreases t, 1
  {
    t.App? ==> (t.op == "if" ==> |t.args| == 3) && ThreeArmedList(t.args)
  }

  ghost predicate ThreeArmedList(ts: seq<Term>)
    decreases ts, 0
  {
    ts == [] || (ThreeArmed(ts[0]) && ThreeArmedList(ts[1..]))
  }

  lemma {:induction false} ThreeArmedAt(ts: seq<Term>, k: nat)
    requires ThreeArmedList(ts) && k < |ts|
    ensures ThreeArmed(ts[k])
  {
    if k > 0 { ThreeArmedAt(ts[1..], k - 1); }
  }

  lemma {:induction false} IrreducibleAt(store: Store, ts: seq<Term>, k: nat)
    requires IrreducibleList(store, ts) && k < |ts|
    ensures Irreducible(store, ts[k])
  {
    if k > 0 { IrreducibleAt(store, ts[1..], k - 1); }
  }

  // ----- A conditional in a test is an instance of the lemma

  lemma {:induction false} SubstThree(s: Subst, x: Term, y: Term, z: Term)
    ensures ApplySubst(s, If(x, y, z)) == If(ApplySubst(s, x), ApplySubst(s, y), ApplySubst(s, z))
  {
    var ts := [x, y, z];
    assert ts[1..] == [y, z] && ts[1..][1..] == [z] && ts[1..][1..][1..] == [];
    assert ApplySubstList(s, ts[1..][1..]) == [ApplySubst(s, z)];
    assert ApplySubstList(s, ts[1..]) == [ApplySubst(s, y), ApplySubst(s, z)];
    assert ApplySubstList(s, ts) == [ApplySubst(s, x), ApplySubst(s, y), ApplySubst(s, z)];
  }

  function FiveBindings(p: Term, q: Term, r: Term, x: Term, y: Term): Subst {
    [(Symbol("a"), p), (Symbol("b"), q), (Symbol("c"), r), (Symbol("d"), x), (Symbol("e"), y)]
  }

  lemma Bound(p: Term, q: Term, r: Term, x: Term, y: Term)
    ensures var tau := FiveBindings(p, q, r, x, y);
      && BindsSymbols(tau)
      && Assq(Symbol("a"), tau) == Some(p) && Assq(Symbol("b"), tau) == Some(q) && Assq(Symbol("c"), tau) == Some(r)
      && Assq(Symbol("d"), tau) == Some(x) && Assq(Symbol("e"), tau) == Some(y)
  {
    var t0 := FiveBindings(p, q, r, x, y);
    var t1 := [(Symbol("b"), q), (Symbol("c"), r), (Symbol("d"), x), (Symbol("e"), y)];
    var t2 := [(Symbol("c"), r), (Symbol("d"), x), (Symbol("e"), y)];
    var t3 := [(Symbol("d"), x), (Symbol("e"), y)];
    var t4 := [(Symbol("e"), y)];
    assert t0[1..] == t1 && t1[1..] == t2 && t2[1..] == t3 && t3[1..] == t4 && t4[1..] == [];
    assert "a" != "b" && "a" != "c" && "a" != "d" && "a" != "e" && "b" != "c" && "b" != "d" && "b" != "e"
      && "c" != "d" && "c" != "e" && "d" != "e" by {
      assert "a"[0] == 'a' && "b"[0] == 'b' && "c"[0] == 'c' && "d"[0] == 'd' && "e"[0] == 'e';
    }
    forall n ensures Assq(Number(n), t0) == None {
      assert Assq(Number(n), t4) == None;
      assert Assq(Number(n), t3) == None;
      assert Assq(Number(n), t2) == None;
      assert Assq(Number(n), t1) == None;
    }
    assert Assq(Symbol("e"), t4) == Some(y);
    assert Assq(Symbol("e"), t3) == Some(y) && Assq(Symbol("d"), t3) == Some(x);
    assert Assq(Symbol("e"), t2) == Some(y) && Assq(Symbol("d"), t2) == Some(x) && Assq(Symbol("c"), t2) == Some(r);
    assert Assq(Symbol("e"), t1) == Some(y) && Assq(Symbol("d"), t1) == Some(x) && Assq(Symbol("c"), t1) == Some(r)
      && Assq(Symbol("b"), t1) == Some(q);
  }

  lemma NestedTestReduces(store: Store, p: Term, q: Term, r: Term, x: Term, y: Term)
    requires IfIf() in LemmasOf(store, "if")
    ensures Reducible(store, If(If(p, q, r), x, y))
  {
    var tau := FiveBindings(p, q, r, x, y);
    Bound(p, q, r, x, y);
    SubstThree(tau, Sym("a"), Sym("b"), Sym("c"));
    SubstThree(tau, If(Sym("a"), Sym("b"), Sym("c")), Sym("d"), Sym("e"));
    var l := IfIf();
    assert IsEquation(l) && ApplySubst(tau, l.args[0]) == If(If(p, q, r), x, y);
  }

  /** A normal form of a lemma list with that lemma has no conditional in a test. */
  lemma {:induction false} IrreducibleIsIfNormal(store: Store, t: Term)
    requires IfIf() in LemmasOf(store, "if") && Irreducible(store, t) && ThreeArmed(t)
    ensures IfNormal(t)
  {
    if IsIf(t) {
      var c, a, b := t.args[0], t.args[1], t.args[2];
      assert t == If(c, a, b);
      ThreeArmedAt(t.args, 0);
      if IsIf(c) {
        assert c == If(c.args[0], c.args[1], c.args[2]);
        NestedTestReduces(store, c.args[0], c.args[1], c.args[2], a, b);
        assert false;
      }
      ThreeArmedAt(t.args, 1);
      ThreeArmedAt(t.args, 2);
      IrreducibleAt(store, t.args, 1);
      IrreducibleAt(store, t.args, 2);
      IrreducibleIsIfNormal(store, a);
      IrreducibleIsIfNormal(store, b);
    }
  }

  // ----- Rewriting keeps the arms of conditionals

  ghost predicate BindsThreeArmed(s: Subst) {
    forall a :: Assq(a, s).Some? ==> ThreeArmed(Assq(a, s).value)
  }

  lemma {:induction false} SubstThreeArmed(s: Subst, t: Term)
    requires BindsThreeArmed(s) && ThreeArmed(t)
    ensures ThreeArmed(ApplySubst(s, t))
    decreases t, 1
  {
    if t.App? { SubstThreeArmedList(s, t.args); }
  }

  lemma {:induction false} SubstThreeArmedList(s: Subst, ts: seq<Term>)
    requires BindsThreeArmed(s) && ThreeArmedList(ts)
    ensures ThreeArmedList(ApplySubstList(s, ts))
    decreases ts, 0
  {
    if ts != [] {
      SubstThreeArmed(s, ts[0]);
      SubstThreeArmedList(s, ts[1..]);
      assert ApplySubstList(s, ts)[1..] == ApplySubstList(s, ts[1..]);
    }
  }

  lemma {:induction false} UnifyThreeArmed(t: Term, pattern: Term, s: Subst)
    requires BindsThreeArmed(s) && ThreeArmed(t)
    ensures BindsThreeArmed(Unify(t, pattern, s).1)
    decreases pattern, 1
  {
    match pattern
    case Leaf(a) =>
      if Assq(a, s).None? && a.Symbol? { assert ([(a, t)] + s)[1..] == s; }
    case App(op, args) =>
      if t.App? && t.op == op { UnifyListsThreeArmed(t.args, args, s); }
  }

  lemma {:induction false} UnifyListsThreeArmed(ts: seq<Term>, patterns: seq<Term>, s: Subst)
    requires BindsThreeArmed(s) && ThreeArmedList(ts)
    ensures BindsThreeArmed(UnifyLists(ts, patterns, s).1)
    decreases patterns, 0
  {
    if ts != [] && patterns != [] {
      UnifyThreeArmed(ts[0], patterns[0], s);
      var r := Unify(ts[0], patterns[0], s);
      if r.0 { UnifyListsThreeArmed(ts[1..], patterns[1..], r.1); }
    }
  }

  ghost predicate StoreThreeArmed(store: Store) {
    forall op, l :: l in LemmasOf(store, op) ==> ThreeArmed(l)
  }

  lemma {:induction false} RewriteThreeArmed(fuel: nat, store: Store, t: Term)
    requires StoreThreeArmed(store) && ThreeArmed(t) && Rewrite(fuel, store, t).Some?
    ensures ThreeArmed(Rewrite(fuel, store, t).value)
    decreases fuel, t, 1
  {
    match t
    case Leaf(_) =>
    case App(op, args) =>
      RewriteArgsThreeArmed(fuel, store, args);
      var t1 := App(op, RewriteArgs(fuel, store, args).value);
      var k := FirstMatch(t1, LemmasOf(store, op));
      if k.Some? {
        assert k.value in LemmasOf(store, op) && ThreeArmed(k.value);
        UnifyThreeArmed(t1, k.value.args[0], []);
        ThreeArmedAt(k.value.args, 1);
        SubstThreeArmed(Unify(t1, k.value.args[0], []).1, k.value.args[1]);
        RewriteThreeArmed(fuel - 1, store, Instance(k.value, t1));
      }
  }

  lemma {:induction false} RewriteArgsThreeArmed(fuel: nat, store: Store, ts: seq<Term>)
    requires StoreThreeArmed(store) && ThreeArmedList(ts) && RewriteArgs(fuel, store, ts).Some?
    ensures ThreeArmedList(RewriteArgs(fuel, store, ts).value)
    decreases fuel, ts, 0
  {
    if ts != [] {
      RewriteThreeArmed(fuel, store, ts[0]);
      RewriteArgsThreeArmed(fuel, store, ts[1..]);
      assert RewriteArgs(fuel, store, ts).value[1..] == RewriteArgs(fuel, store, ts[1..]).value;
    }
  }

  // ----- The test decides every rewritten term

  lemma {:induction false} TautologyAnswers(x: Term, ts: seq<Term>, fs: seq<Term>)
    requires IfNormal(x)
    ensures Tautologyp(x, ts, fs).Some?
  {
    if IsIf(x) {
      var c, a, b := x.args[0], x.args[1], x.args[2];
      TautologyAnswers(a, ts, fs);
      TautologyAnswers(b, ts, fs);
      TautologyAnswers(a, [c] + ts, fs);
      TautologyAnswers(b, ts, [c] + fs);
    }
  }

  /**
   The prover with a lemma list that has IfIf among its lemmas, as the code's has: on every
   term that it finishes rewriting, the test answers, and answers true exactly when every
   valuation makes the rewritten term true.
   */
  lemma ProverDecides(lemmas: seq<Term>, fuel: nat, t: Term)
    requires Setup(lemmas, map[]).Some? && Rewrite(fuel, Setup(lemmas, map[]).value, t).Some?
    requires IfIf() in lemmas && (forall l :: l in lemmas ==> ThreeArmed(l)) && ThreeArmed(t)
    ensures var u := Rewrite(fuel, Setup(lemmas, map[]).value, t).value;
      && Tautologyp(u, [], []).Some?
      && (Tautologyp(u, [], []) == Some(true) <==> forall v: Term -> bool :: Truth(v, u))
  {
    var store := Setup(lemmas, map[]).value;
    var u := Rewrite(fuel, store, t).value;
    forall op, l | l in LemmasOf(store, op) ensures ThreeArmed(l) {
      SetupFiles(lemmas, map[], op, l);
    }
    SetupFiles(lemmas, map[], "if", IfIf());
    RewriteNormalizes(fuel, store, t);
    RewriteThreeArmed(fuel, store, t);
    IrreducibleIsIfNormal(store, u);
    TautologyDecides(u);
    TautologyAnswers(u, [], []);
  }

  /** What the prover answers with the given fuel. */
  ghost predicate Accepts(fuel: nat, store: Store, t: Term) {
    var u := Rewrite(fuel, store, t);
    u.Some? && Tautologyp(u.value, [], []) == Some(true)
  }

  /** The lemmas derive from t a term that every valuation makes true. */
  ghost predicate Proves(store: Store, t: Term, u: Term) {
    Derives(store, t, u) && forall v: Term -> bool :: Truth(v, u)
  }

  /** A list of lemmas like that of the code, and a term whose conditionals have three arms. */
  ghost predicate Suitable(lemmas: seq<Term>, t: Term) {
    Setup(lemmas, map[]).Some? && IfIf() in lemmas && (forall l :: l in lemmas ==> ThreeArmed(l)) && ThreeArmed(t)
  }

  lemma {:induction false} AcceptedIsProved(lemmas: seq<Term>, t: Term, fuel: nat)
    requires Suitable(lemmas, t) && Accepts(fuel, Setup(lemmas, map[]).value, t)
    ensures Proves(Setup(lemmas, map[]).value, t, Rewrite(fuel, Setup(lemmas, map[]).value, t).value)
  {
    var d := RewriteDerives(fuel, Setup(lemmas, map[]).value, t);
    ProverDecides(lemmas, fuel, t);
  }

  lemma {:induction false} ProvedIsAccepted(lemmas: seq<Term>, t: Term, u: Term) returns (fuel: nat)
    requires Suitable(lemmas, t) && Proves(Setup(lemmas, map[]).value, t, u)
    ensures Accepts(fuel, Setup(lemmas, map[]).value, t)
  {
    var store := Setup(lemmas, map[]).value;
    var d :| Shows(store, d, t, u);
    fuel := DerivedIsRewritten(store, d, t, u);
    ProverDecides(lemmas, fuel, t);
  }

  /**
   Without the program: the prover accepts exactly the terms from which the lemmas derive a
   propositionally valid one.
   */
  lemma {:induction false} ProverAccepts(lemmas: seq<Term>, t: Term)
    requires Suitable(lemmas, t)
    ensures var store := Setup(lemmas, map[]).value;
      (exists fuel: nat :: Accepts(fuel, store, t)) <==> exists u :: Proves(store, t, u)
  {
    var store := Setup(lemmas, map[]).value;
    if exists fuel: nat :: Accepts(fuel, store, t) {
      var fuel: nat :| Accepts(fuel, store, t);
      AcceptedIsProved(lemmas, t, fuel);
    }
    if exists u :: Proves(store, t, u) {
      var u :| Proves(store, t, u);
      var fuel := ProvedIsAccepted(lemmas, t, u);
    }
  }
}
