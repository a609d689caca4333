/**
 benchmarks/earley-boyer.js:3604-3633, 3748-3763: innermost rewriting with the lemmas
 of the head symbol, and what it preserves. Whether rewriting terminates depends on the
 lemmas, so it is given fuel; RewriteFuel says that fuel never changes an answer.
 */
module BoyerRewrite {
  import opened Options
  import opened BoyerTerms

  /** The lemmas filed under each operator, the last one added first. */
  type Store = map<string, seq<Term>>

  function LemmasOf(store: Store, op: string): seq<Term> {
    if op in store then store[op] else []
  }

  /** A lemma is an equation (equal (f ...) rhs), filed under f. */
  function AddLemma(store: Store, term: Term): (r: Option<Store>) {
    if term.App? && term.op == "equal" && |term.args| > 0 && term.args[0].App? then
      var f := term.args[0].op;
      Some(store[f := [term] + LemmasOf(store, f)])
    else None
  }

  function Setup(lemmas: seq<Term>, store: Store): (r: Option<Store>) {
    if lemmas == [] then Some(store)
    else
      var s := AddLemma(store, lemmas[0]);
      if s.None? then None else Setup(lemmas[1..], s.value)
  }

  /** None when the fuel runs out, or when the lemma that matches has no right-hand side. */
  function Rewrite(fuel: nat, store: Store, t: Term): Option<Term>
    decreases fuel, t, 1
  {
    match t
    case Leaf(_) => Some(t)
    case App(op, args) =>
      var rewritten := RewriteArgs(fuel, store, args);
      if rewritten.None? then None
      else
        var t1 := App(op, rewritten.value);
        var k := FirstMatch(t1, LemmasOf(store, op));
        if k.None? then Some(t1)
        else if fuel == 0 || |k.value.args| < 2 then None
        else Rewrite(fuel - 1, store, Instance(k.value, t1))
  }

  function RewriteArgs(fuel: nat, store: Store, ts: seq<Term>): (r: Option<seq<Term>>)
    ensures r.Some? ==> |r.value| == |ts|
    decreases fuel, ts, 0
  {
    if ts == [] then Some([])
    else
      var first := Rewrite(fuel, store, ts[0]);
      if first.None? then None
      else
        var rest := RewriteArgs(fuel, store, ts[1..]);
        if rest.None? then None else Some([first.value] + rest.value)
  }

  /** The first lemma whose left-hand side matches t. */
  function FirstMatch(t: Term, lemmas: seq<Term>): (r: Option<Term>)
    ensures r.Some? ==> r.value in lemmas && IsEquation(r.value) && Unify(t, r.value.args[0], []).0
    ensures r.None? ==> forall l :: l in lemmas && IsEquation(l) ==> !Unify(t, l.args[0], []).0
  {
    if lemmas == [] then None
    else if IsEquation(lemmas[0]) && Unify(t, lemmas[0].args[0], []).0 then Some(lemmas[0])
    else FirstMatch(t, lemmas[1..])
  }

  predicate IsEquation(l: Term) {
    l.App? && l.op == "equal" && |l.args| > 0
  }

  function Instance(l: Term, t: Term): Term
    requires l.App? && |l.args| >= 2
  {
    ApplySubst(Unify(t, l.args[0], []).1, l.args[1])
  }

  // ----- Interpretations

  /** An interpretation of the operators and of the numbers over a domain V. */
  datatype Model<!V> = Model(fn: (string, seq<V>) -> V, num: int -> V) {
    function False(): V { fn("f", []) }
  }

  function Eval<V>(m: Model<V>, env: string -> V, t: Term): V
    decreases t, 1
  {
    match t
    case Leaf(Symbol(x)) => env(x)
    case Leaf(Number(n)) => m.num(n)
    case App(op, args) => m.fn(op, EvalList(m, env, args))
  }

  function EvalList<V>(m: Model<V>, env: string -> V, ts: seq<Term>): (r: seq<V>)
    ensures |r| == |ts|
    decreases ts, 0
  {
    if ts == [] then [] else [Eval(m, env, ts[0])] + EvalList(m, env, ts[1..])
  }

  /** `equal` is equality: it is false exactly on different values. */
  ghost predicate EqualMeansEqual<V(!new)>(m: Model<V>) {
    forall vs: seq<V> :: |vs| >= 2 ==> (m.fn("equal", vs) == m.False() <==> vs[0] != vs[1])
  }

  /** t is not false, whatever its variables stand for. */
  ghost predicate Holds<V(!new)>(m: Model<V>, t: Term) {
    forall env: string -> V :: Eval(m, env, t) != m.False()
  }

  ghost predicate ModelOf<V(!new)>(m: Model<V>, store: Store) {
    EqualMeansEqual(m) && forall op, l :: l in LemmasOf(store, op) ==> Holds(m, l)
  }

  // ----- Substitution commutes with evaluation

  function EnvOf<V>(m: Model<V>, env: string -> V, s: Subst): string -> V {
    x => Eval(m, env, ApplySubst(s, Leaf(Symbol(x))))
  }

  lemma {:induction false} SubstitutionLemma<V>(m: Model<V>, env: string -> V, s: Subst, t: Term)
    requires BindsSymbols(s)
    ensures Eval(m, env, ApplySubst(s, t)) == Eval(m, EnvOf(m, env, s), t)
    decreases t, 1
  {
    match t
    case Leaf(_) =>
    case App(_, args) => SubstitutionLemmaList(m, env, s, args);
  }

  lemma {:induction false} SubstitutionLemmaList<V>(m: Model<V>, env: string -> V, s: Subst, ts: seq<Term>)
    requires BindsSymbols(s)
    ensures EvalList(m, env, ApplySubstList(s, ts)) == EvalList(m, EnvOf(m, env, s), ts)
    decreases ts, 0
  {
    if ts != [] {
      SubstitutionLemma(m, env, s, ts[0]);
      SubstitutionLemmaList(m, env, s, ts[1..]);
      assert ApplySubstList(s, ts)[1..] == ApplySubstList(s, ts[1..]);
    }
  }

  // ----- Rewriting preserves meaning

  lemma EquationValues<V(!new)>(m: Model<V>, l: Term, env: string -> V)
    requires EqualMeansEqual(m) && Holds(m, l) && IsEquation(l) && |l.args| >= 2
    ensures Eval(m, env, l.args[0]) == Eval(m, env, l.args[1])
  {
    var vs := EvalList(m, env, l.args);
    assert l.args[1..][0] == l.args[1];
    assert vs[1] == EvalList(m, env, l.args[1..])[0];
    assert vs[0] == Eval(m, env, l.args[0]) && vs[1] == Eval(m, env, l.args[1]);
    assert Eval(m, env, l) == m.fn("equal", vs);
  }

  lemma InstanceValue<V(!new)>(m: Model<V>, l: Term, t: Term, env: string -> V)
    requires EqualMeansEqual(m) && Holds(m, l) && IsEquation(l) && |l.args| >= 2
    requires Unify(t, l.args[0], []).0
    ensures Eval(m, env, Instance(l, t)) == Eval(m, env, t)
  {
    var s := Unify(t, l.args[0], []).1;
    UnifySound(t, l.args[0], []);
    SubstitutionLemma(m, env, s, l.args[0]);
    SubstitutionLemma(m, env, s, l.args[1]);
    EquationValues(m, l, EnvOf(m, env, s));
  }

  /** In every model of the lemmas and under every assignment, the rewritten term has the same value. */
  lemma {:induction false} RewriteSound<V(!new)>(fuel: nat, store: Store, t: Term, m: Model<V>, env: string -> V)
    requires ModelOf(m, store) && Rewrite(fuel, store, t).Some?
    ensures Eval(m, env, Rewrite(fuel, store, t).value) == Eval(m, env, t)
    decreases fuel, t, 1
  {
    match t
    case Leaf(_) =>
    case App(op, args) =>
      RewriteArgsSound(fuel, store, args, m, env);
      var t1 := App(op, RewriteArgs(fuel, store, args).value);
      var k := FirstMatch(t1, LemmasOf(store, op));
      if k.Some? {
        InstanceValue(m, k.value, t1, env);
        RewriteSound(fuel - 1, store, Instance(k.value, t1), m, env);
      }
  }

  lemma {:induction false} RewriteArgsSound<V(!new)>(fuel: nat, store: Store, ts: seq<Term>, m: Model<V>,
      env: string -> V)
    requires ModelOf(m, store) && RewriteArgs(fuel, store, ts).Some?
    ensures EvalList(m, env, RewriteArgs(fuel, store, ts).value) == EvalList(m, env, ts)
    decreases fuel, ts, 0
  {
    if ts != [] {
      RewriteSound(fuel, store, ts[0], m, env);
      RewriteArgsSound(fuel, store, ts[1..], m, env);
      assert RewriteArgs(fuel, store, ts).value[1..] == RewriteArgs(fuel, store, ts[1..]).value;
    }
  }

  // ----- Fuel

  /** An answer does not depend on how much fuel was left. */
  lemma {:induction false} RewriteFuel(fuel: nat, more: nat, store: Store, t: Term)
    requires fuel <= more && Rewrite(fuel, store, t).Some?
    ensures Rewrite(more, store, t) == Rewrite(fuel, store, t)
    decreases fuel, t, 1
  {
    match t
    case Leaf(_) =>
    case App(op, args) =>
      RewriteArgsFuel(fuel, more, store, args);
      var t1 := App(op, RewriteArgs(fuel, store, args).value);
      var k := FirstMatch(t1, LemmasOf(store, op));
      if k.Some? {
        RewriteFuel(fuel - 1, more - 1, store, Instance(k.value, t1));
      }
  }

  lemma {:induction false} RewriteArgsFuel(fuel: nat, more: nat, store: Store, ts: seq<Term>)
    requires fuel <= more && RewriteArgs(fuel, store, ts).Some?
    ensures RewriteArgs(more, store, ts) == RewriteArgs(fuel, store, ts)
    decreases fuel, ts, 0
  {
    if ts != [] {
      RewriteFuel(fuel, more, store, ts[0]);
      RewriteArgsFuel(fuel, more, store, ts[1..]);
    }
  }

  // ----- Rewriting goes all the way

  /** t is an instance of the left-hand side of a lemma filed under its operator. */
  ghost predicate Reducible(store: Store, t: Term) {
    t.App? && exists l, tau: Subst ::
      l in LemmasOf(store, t.op) && IsEquation(l) && BindsSymbols(tau) && ApplySubst(tau, l.args[0]) == t
  }

  /** No subterm is an instance of a left-hand side. */
  ghost predicate Irreducible(store: Store, t: Term)
    decreases t, 1
  {
    t.App? ==> !Reducible(store, t) && IrreducibleList(store, t.args)
  }

  ghost predicate IrreducibleList(store: Store, ts: seq<Term>)
    decreases ts, 0
  {
    ts == [] || (Irreducible(store, ts[0]) && IrreducibleList(store, ts[1..]))
  }

  lemma NoMatchIffIrreducible(store: Store, t: Term)
    requires t.App?
    ensures FirstMatch(t, LemmasOf(store, t.op)).None? <==> !Reducible(store, t)
  {
    forall l | l in LemmasOf(store, t.op) && IsEquation(l)
      ensures Unify(t, l.args[0], []).0 <==> exists tau: Subst :: BindsSymbols(tau) && ApplySubst(tau, l.args[0]) == t
    {
      UnifyIffInstance(t, l.args[0]);
    }
  }

  /** What rewriting returns is a normal form: nothing in it can be rewritten any more. */
  lemma {:induction false} RewriteNormalizes(fuel: nat, store: Store, t: Term)
    requires Rewrite(fuel, store, t).Some?
    ensures Irreducible(store, Rewrite(fuel, store, t).value)
    decreases fuel, t, 1
  {
    match t
    case Leaf(_) =>
    case App(op, args) =>
      RewriteArgsNormalizes(fuel, store, args);
      var t1 := App(op, RewriteArgs(fuel, store, args).value);
      NoMatchIffIrreducible(store, t1);
      var k := FirstMatch(t1, LemmasOf(store, op));
      if k.Some? {
        RewriteNormalizes(fuel - 1, store, Instance(k.value, t1));
      }
  }

  lemma {:induction false} RewriteArgsNormalizes(fuel: nat, store: Store, ts: seq<Term>)
    requires RewriteArgs(fuel, store, ts).Some?
    ensures IrreducibleList(store, RewriteArgs(fuel, store, ts).value)
    decreases fuel, ts, 0
  {
    if ts != [] {
      RewriteNormalizes(fuel, store, ts[0]);
      RewriteArgsNormalizes(fuel, store, ts[1..]);
      assert RewriteArgs(fuel, store, ts).value[1..] == RewriteArgs(fuel, store, ts[1..]).value;
    }
  }

  /** Normal forms are exactly the terms that rewriting returns unchanged, without a single lemma step. */
  lemma {:induction false} NormalIffUnchanged(store: Store, t: Term)
    ensures Irreducible(store, t) <==> Rewrite(0, store, t) == Some(t)
    decreases t, 1
  {
    match t
    case Leaf(_) =>
    case App(op, args) =>
      NormalIffUnchangedList(store, args);
      NoMatchIffIrreducible(store, t);
  }

  lemma {:induction false} NormalIffUnchangedList(store: Store, ts: seq<Term>)
    ensures IrreducibleList(store, ts) <==> RewriteArgs(0, store, ts) == Some(ts)
    decreases ts, 0
  {
    if ts != [] {
      NormalIffUnchanged(store, ts[0]);
      NormalIffUnchangedList(store, ts[1..]);
      assert ts == [ts[0]] + ts[1..];
      var first, rest := Rewrite(0, store, ts[0]), RewriteArgs(0, store, ts[1..]);
      if first.Some? && rest.Some? {
        assert ([first.value] + rest.value)[0] == first.value && ([first.value] + rest.value)[1..] == rest.value;
      }
    }
  }

  /** Rewriting twice is rewriting once. */
  lemma RewriteIdempotent(fuel: nat, again: nat, store: Store, t: Term)
    requires Rewrite(fuel, store, t).Some?
    ensures Rewrite(again, store, Rewrite(fuel, store, t).value) == Rewrite(fuel, store, t)
  {
    RewriteNormalizes(fuel, store, t);
    NormalIffUnchanged(store, Rewrite(fuel, store, t).value);
    RewriteFuel(0, again, store, Rewrite(fuel, store, t).value);
  }

  // ----- Filing the lemmas

  /** Every lemma in the store is filed under the operator of its left-hand side and comes from the list. */
  lemma {:induction false} SetupFiles(lemmas: seq<Term>, store: Store, op: string, l: Term)
    requires Setup(lemmas, store).Some?
    ensures l in LemmasOf(Setup(lemmas, store).value, op) <==>
      l in LemmasOf(store, op) || (l in lemmas && l.App? && |l.args| > 0 && l.args[0].App? && l.args[0].op == op)
    decreases lemmas
  {
    if lemmas != [] {
      SetupFiles(lemmas[1..], AddLemma(store, lemmas[0]).value, op, l);
      assert l in lemmas <==> l == lemmas[0] || l in lemmas[1..];
    }
  }

  lemma SetupModel<V(!new)>(lemmas: seq<Term>, m: Model<V>)
    requires EqualMeansEqual(m) && forall l :: l in lemmas ==> Holds(m, l)
    requires Setup(lemmas, map[]).Some?
    ensures ModelOf(m, Setup(lemmas, map[]).value)
  {
    var store := Setup(lemmas, map[]).value;
    forall op, l | l in LemmasOf(store, op) ensures Holds(m, l) {
      SetupFiles(lemmas, map[], op, l);
    }
  }

  /** Everything that is filed is an equation. */
  lemma {:induction false} SetupEquations(lemmas: seq<Term>, store: Store, op: string, l: Term)
    requires Setup(lemmas, store).Some? && l in LemmasOf(Setup(lemmas, store).value, op)
    ensures l in LemmasOf(store, op) || IsEquation(l)
    decreases lemmas
  {
    if lemmas != [] {
      SetupEquations(lemmas[1..], AddLemma(store, lemmas[0]).value, op, l);
    }
  }
}
