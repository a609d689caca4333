/**
 benchmarks/earley-boyer.js:3604-3633, 3745-3763: what rewriting computes, said without the
 program. Arguments are derived first; then the first lemma in the store that has the term as
 an instance of its left-hand side is applied, as often as there is one. The store has the
 lemmas of an operator in reverse order of the list.
 */
module BoyerDerivation {
  import opened Options
  import opened BoyerTerms
  import opened BoyerRewrite

  // ----- Applying a lemma

  predicate Occurs(a: Atom, t: Term)
    decreases t, 1
  {
    match t
    case Leaf(b) => a == b
    case App(_, args) => OccursList(a, args)
  }

  predicate OccursList(a: Atom, ts: seq<Term>)
    decreases ts, 0
  {
    ts != [] && (Occurs(a, ts[0]) || OccursList(a, ts[1..]))
  }

  /** tau is for the variables of the pattern alone, and turns it into t. */
  ghost predicate Turns(tau: Subst, pattern: Term, t: Term) {
    && (forall a :: Assq(a, tau).Some? ==> a.Symbol? && Occurs(a, pattern))
    && ApplySubst(tau, pattern) == t
  }

  /** The lemma's left-hand side has t as an instance. */
  ghost predicate Applies(l: Term, t: Term) {
    IsEquation(l) && exists tau: Subst :: Turns(tau, l.args[0], t)
  }

  /** The lemma at index i is the first one that applies. */
  ghost predicate FirstApplies(ls: seq<Term>, i: nat, t: Term) {
    i < |ls| && Applies(ls[i], t) && forall j :: 0 <= j < i ==> !Applies(ls[j], t)
  }

  ghost predicate NoneApplies(ls: seq<Term>, t: Term) {
    forall j :: 0 <= j < |ls| ==> !Applies(ls[j], t)
  }

  // ----- Derivations

  /** How a term was derived: us are the derived arguments, and index i and tau say which lemma was applied and how. */
  datatype Derivation =
    | Variable
    | Normal(args: seq<Derivation>, us: seq<Term>)
    | ByLemma(args: seq<Derivation>, us: seq<Term>, i: nat, tau: Subst, rest: Derivation)

  ghost predicate Shows(store: Store, d: Derivation, t: Term, u: Term)
    decreases d, 1
  {
    match d
    case Variable => t.Leaf? && u == t
    case Normal(ds, us) =>
      t.App? && ShowsList(store, ds, t.args, us) && u == App(t.op, us) && NoneApplies(LemmasOf(store, t.op), u)
    case ByLemma(ds, us, i, tau, rest) =>
      && t.App? && ShowsList(store, ds, t.args, us) && LemmaUse(LemmasOf(store, t.op), i, tau, App(t.op, us))
      && Shows(store, rest, ApplySubst(tau, LemmasOf(store, t.op)[i].args[1]), u)
  }

  /** The lemma at index i is the one to apply, and tau is how. */
  ghost predicate LemmaUse(ls: seq<Term>, i: nat, tau: Subst, t: Term) {
    FirstApplies(ls, i, t) && |ls[i].args| >= 2 && Turns(tau, ls[i].args[0], t)
  }

  ghost predicate ShowsList(store: Store, ds: seq<Derivation>, ts: seq<Term>, us: seq<Term>)
    decreases ds, 0
  {
    if ds == [] then ts == [] && us == []
    else ts != [] && us != [] && Shows(store, ds[0], ts[0], us[0]) && ShowsList(store, ds[1..], ts[1..], us[1..])
  }

  ghost predicate Derives(store: Store, t: Term, u: Term) {
    exists d :: Shows(store, d, t, u)
  }

  // ----- Unification binds the variables of the pattern and nothing else

  lemma {:induction false} UnifyBinds(t: Term, pattern: Term, s: Subst, a: Atom)
    requires BindsSymbols(s) && Assq(a, Unify(t, pattern, s).1).Some?
    ensures Assq(a, s).Some? || (a.Symbol? && Occurs(a, pattern))
    decreases pattern, 1
  {
    match pattern
    case Leaf(b) =>
      if Assq(b, s).None? && b.Symbol? { assert ([(b, t)] + s)[1..] == s; }
    case App(op, args) =>
      if t.App? && t.op == op { UnifyListsBinds(t.args, args, s, a); }
  }

  lemma {:induction false} UnifyListsBinds(ts: seq<Term>, patterns: seq<Term>, s: Subst, a: Atom)
    requires BindsSymbols(s) && Assq(a, UnifyLists(ts, patterns, s).1).Some?
    ensures Assq(a, s).Some? || (a.Symbol? && OccursList(a, patterns))
    decreases patterns, 0
  {
    if ts != [] && patterns != [] {
      var (ok, s1) := Unify(ts[0], patterns[0], s);
      UnifySound(ts[0], patterns[0], s);
      if ok { UnifyListsBinds(ts[1..], patterns[1..], s1, a); }
      if Assq(a, s1).Some? { UnifyBinds(ts[0], patterns[0], s, a); }
    }
  }

  lemma {:induction false} UnifyTurns(t: Term, pattern: Term)
    requires Unify(t, pattern, []).0
    ensures Turns(Unify(t, pattern, []).1, pattern, t)
  {
    UnifySound(t, pattern, []);
    var s := Unify(t, pattern, []).1;
    forall a | Assq(a, s).Some? ensures a.Symbol? && Occurs(a, pattern) {
      UnifyBinds(t, pattern, [], a);
    }
  }

  lemma {:induction false} TurnsBindsSymbols(tau: Subst, pattern: Term, t: Term)
    requires Turns(tau, pattern, t)
    ensures BindsSymbols(tau)
  {
    assert forall n :: !Number(n).Symbol?;
  }

  /** A lemma applies exactly when the code's unification succeeds. */
  lemma {:induction false} AppliesIffUnifies(l: Term, t: Term)
    requires IsEquation(l)
    ensures Applies(l, t) <==> Unify(t, l.args[0], []).0
  {
    if Applies(l, t) {
      var tau: Subst :| Turns(tau, l.args[0], t);
      TurnsBindsSymbols(tau, l.args[0], t);
      UnifyIffInstance(t, l.args[0]);
    }
    if Unify(t, l.args[0], []).0 { UnifyTurns(t, l.args[0]); }
  }

  // ----- There is only one way to apply a lemma

  /** Substitutions that turn a pattern into the same term agree on its variables. */
  lemma {:induction false} SameOnPattern(s: Subst, tau: Subst, pattern: Term, a: Atom)
    requires ApplySubst(s, pattern) == ApplySubst(tau, pattern) && Occurs(a, pattern)
    ensures ApplySubst(s, Leaf(a)) == ApplySubst(tau, Leaf(a))
    decreases pattern, 1
  {
    if pattern.App? { SameOnPatterns(s, tau, pattern.args, a); }
  }

  lemma {:induction false} SameOnPatterns(s: Subst, tau: Subst, patterns: seq<Term>, a: Atom)
    requires ApplySubstList(s, patterns) == ApplySubstList(tau, patterns) && OccursList(a, patterns)
    ensures ApplySubst(s, Leaf(a)) == ApplySubst(tau, Leaf(a))
    decreases patterns, 0
  {
    var xs, ys := ApplySubstList(s, patterns), ApplySubstList(tau, patterns);
    assert xs[0] == ys[0] && xs[1..] == ys[1..];
    assert xs[1..] == ApplySubstList(s, patterns[1..]) && ys[1..] == ApplySubstList(tau, patterns[1..]);
    if Occurs(a, patterns[0]) { SameOnPattern(s, tau, patterns[0], a); }
      else { SameOnPatterns(s, tau, patterns[1..], a); }
  }

  lemma {:induction false} SameEverywhere(s: Subst, tau: Subst, t: Term)
    requires forall a :: ApplySubst(s, Leaf(a)) == ApplySubst(tau, Leaf(a))
    ensures ApplySubst(s, t) == ApplySubst(tau, t)
    decreases t, 1
  {
    if t.App? { SameEverywhereList(s, tau, t.args); } else { assert t == Leaf(t.atom); }
  }

  lemma {:induction false} SameEverywhereList(s: Subst, tau: Subst, ts: seq<Term>)
    requires forall a :: ApplySubst(s, Leaf(a)) == ApplySubst(tau, Leaf(a))
    ensures ApplySubstList(s, ts) == ApplySubstList(tau, ts)
    decreases ts, 0
  {
    if ts != [] {
      SameEverywhere(s, tau, ts[0]);
      SameEverywhereList(s, tau, ts[1..]);
    }
  }

  lemma {:induction false} TurnsUnique(s: Subst, tau: Subst, pattern: Term, t: Term, rhs: Term)
    requires Turns(s, pattern, t) && Turns(tau, pattern, t)
    ensures ApplySubst(s, rhs) == ApplySubst(tau, rhs)
  {
    forall a ensures ApplySubst(s, Leaf(a)) == ApplySubst(tau, Leaf(a)) {
      if Occurs(a, pattern) {
        SameOnPattern(s, tau, pattern, a);
      } else {
        assert Assq(a, s).None? && Assq(a, tau).None?;
      }
    }
    SameEverywhere(s, tau, rhs);
  }

  // ----- The first match

  lemma {:induction false} FirstMatchIndex(t: Term, ls: seq<Term>) returns (i: nat)
    ensures FirstMatch(t, ls).None? ==> NoneApplies(ls, t)
    ensures FirstMatch(t, ls).Some? ==> FirstApplies(ls, i, t) && FirstMatch(t, ls).value == ls[i]
  {
    i := 0;
    if ls == [] { return; }
    if IsEquation(ls[0]) { AppliesIffUnifies(ls[0], t); }
    if !Applies(ls[0], t) {
      var k := FirstMatchIndex(t, ls[1..]);
      if FirstMatch(t, ls).None? {
        assert forall j :: 0 < j < |ls| ==> ls[j] == ls[1..][j - 1];
      } else {
        i := k + 1;
        assert forall j :: 0 < j < i ==> ls[j] == ls[1..][j - 1];
      }
    }
  }

  lemma {:induction false} FirstUnique(ls: seq<Term>, i: nat, j: nat, t: Term)
    requires FirstApplies(ls, i, t) && FirstApplies(ls, j, t)
    ensures i == j
  {
  }

  // ----- Rewriting derives, and what is derived is rewritten to

  lemma {:induction false} RewriteDerives(fuel: nat, store: Store, t: Term) returns (d: Derivation)
    requires Rewrite(fuel, store, t).Some?
    ensures Shows(store, d, t, Rewrite(fuel, store, t).value)
    decreases fuel, t, 1
  {
    match t
    case Leaf(_) => d := Variable;
    case App(op, args) =>
      var ds := RewriteArgsDerives(fuel, store, args);
      var us, ls := RewriteArgs(fuel, store, args).value, LemmasOf(store, op);
      var t1 := App(op, us);
      var i := FirstMatchIndex(t1, ls);
      if FirstMatch(t1, ls).None? {
        d := Normal(ds, us);
      } else {
        UnifyTurns(t1, ls[i].args[0]);
        var tau := Unify(t1, ls[i].args[0], []).1;
        var rest := RewriteDerives(fuel - 1, store, Instance(ls[i], t1));
        d := ByLemma(ds, us, i, tau, rest);
      }
  }

  lemma {:induction false} RewriteArgsDerives(fuel: nat, store: Store, ts: seq<Term>) returns (ds: seq<Derivation>)
    requires RewriteArgs(fuel, store, ts).Some?
    ensures ShowsList(store, ds, ts, RewriteArgs(fuel, store, ts).value)
    decreases fuel, ts, 0
  {
    ds := [];
    if ts != [] {
      var d := RewriteDerives(fuel, store, ts[0]);
      var rest := RewriteArgsDerives(fuel, store, ts[1..]);
      ds := [d] + rest;
      assert ds[1..] == rest;
      assert RewriteArgs(fuel, store, ts).value[1..] == RewriteArgs(fuel, store, ts[1..]).value;
    }
  }

  lemma {:induction false} DerivedIsRewritten(store: Store, d: Derivation, t: Term, u: Term) returns (fuel: nat)
    requires Shows(store, d, t, u)
    ensures Rewrite(fuel, store, t) == Some(u)
    decreases d, 1
  {
    match d
    case Variable => fuel := 0;
    case Normal(ds, us) =>
      fuel := DerivedArgs(store, ds, t.args, us);
      NormalStep(fuel, store, t, us);
    case ByLemma(ds, us, i, tau, rest) =>
      var next := ApplySubst(tau, LemmasOf(store, t.op)[i].args[1]);
      var n := DerivedArgs(store, ds, t.args, us);
      var m := DerivedIsRewritten(store, rest, next, u);
      fuel := n + m + 1;
      StepThenRest(n, m, store, t, us, i, tau, u);
  }

  lemma {:induction false} StepThenRest(n: nat, m: nat, store: Store, t: Term, us: seq<Term>, i: nat, tau: Subst,
      u: Term)
    requires t.App? && RewriteArgs(n, store, t.args) == Some(us)
    requires LemmaUse(LemmasOf(store, t.op), i, tau, App(t.op, us))
    requires Rewrite(m, store, ApplySubst(tau, LemmasOf(store, t.op)[i].args[1])) == Some(u)
    ensures Rewrite(n + m + 1, store, t) == Some(u)
  {
    var l := LemmasOf(store, t.op)[i];
    var next := ApplySubst(tau, l.args[1]);
    RewriteArgsFuel(n, n + m + 1, store, t.args);
    RewriteFuel(m, n + m, store, next);
    LemmaStep(store, App(t.op, us), i, tau);
    RewriteStep(n + m + 1, store, t, us, l, next);
  }

  lemma {:induction false} NormalStep(fuel: nat, store: Store, t: Term, us: seq<Term>)
    requires t.App? && RewriteArgs(fuel, store, t.args) == Some(us)
    requires NoneApplies(LemmasOf(store, t.op), App(t.op, us))
    ensures Rewrite(fuel, store, t) == Some(App(t.op, us))
  {
    var i := FirstMatchIndex(App(t.op, us), LemmasOf(store, t.op));
  }

  lemma {:induction false} RewriteStep(fuel: nat, store: Store, t: Term, us: seq<Term>, l: Term, next: Term)
    requires fuel > 0 && t.App? && RewriteArgs(fuel, store, t.args) == Some(us)
    requires var t1 := App(t.op, us);
      FirstMatch(t1, LemmasOf(store, t.op)) == Some(l) && |l.args| >= 2 && Instance(l, t1) == next
    ensures Rewrite(fuel, store, t) == Rewrite(fuel - 1, store, next)
  {
  }

  /** The first lemma that applies is the one the code finds, and the code makes the same of it. */
  lemma {:induction false} LemmaStep(store: Store, t1: Term, i: nat, tau: Subst)
    requires t1.App? && LemmaUse(LemmasOf(store, t1.op), i, tau, t1)
    ensures var l := LemmasOf(store, t1.op)[i];
      FirstMatch(t1, LemmasOf(store, t1.op)) == Some(l) && Instance(l, t1) == ApplySubst(tau, l.args[1])
  {
    var ls := LemmasOf(store, t1.op);
    var l := ls[i];
    var j := FirstMatchIndex(t1, ls);
    FirstUnique(ls, i, j, t1);
    UnifyTurns(t1, l.args[0]);
    TurnsUnique(Unify(t1, l.args[0], []).1, tau, l.args[0], t1, l.args[1]);
  }

  lemma {:induction false} DerivedArgs(store: Store, ds: seq<Derivation>, ts: seq<Term>, us: seq<Term>)
      returns (fuel: nat)
    requires ShowsList(store, ds, ts, us)
    ensures RewriteArgs(fuel, store, ts) == Some(us)
    decreases ds, 0
  {
    fuel := 0;
    if ds != [] {
      var n := DerivedIsRewritten(store, ds[0], ts[0], us[0]);
      var m := DerivedArgs(store, ds[1..], ts[1..], us[1..]);
      fuel := n + m;
      RewriteFuel(n, fuel, store, ts[0]);
      RewriteArgsFuel(m, fuel, store, ts[1..]);
      assert us == [us[0]] + us[1..];
    }
  }

  /**
   With enough fuel rewriting answers exactly what the lemmas derive: it stops if and only if
   there is a derivation.
   */
  lemma {:induction false} RewriteIffDerives(store: Store, t: Term, u: Term)
    ensures (exists fuel: nat :: Rewrite(fuel, store, t) == Some(u)) <==> Derives(store, t, u)
  {
    if exists fuel: nat :: Rewrite(fuel, store, t) == Some(u) {
      var fuel: nat :| Rewrite(fuel, store, t) == Some(u);
      var d := RewriteDerives(fuel, store, t);
    }
    if Derives(store, t, u) {
      var d :| Shows(store, d, t, u);
      var fuel := DerivedIsRewritten(store, d, t, u);
    }
  }

  /** A term derives at most one result. */
  lemma {:induction false} DerivesUnique(store: Store, t: Term, u: Term, v: Term)
    requires Derives(store, t, u) && Derives(store, t, v)
    ensures u == v
  {
    var d :| Shows(store, d, t, u);
    var e :| Shows(store, e, t, v);
    var n := DerivedIsRewritten(store, d, t, u);
    var m := DerivedIsRewritten(store, e, t, v);
    SameAnswer(n, m, store, t);
  }

  lemma {:induction false} SameAnswer(n: nat, m: nat, store: Store, t: Term)
    requires Rewrite(n, store, t).Some? && Rewrite(m, store, t).Some?
    ensures Rewrite(n, store, t) == Rewrite(m, store, t)
  {
    if n <= m { RewriteFuel(n, m, store, t); } else { RewriteFuel(m, n, store, t); }
  }

  // ----- The order of the store

  predicate HasHead(l: Term, op: string) {
    l.App? && |l.args| > 0 && l.args[0].App? && l.args[0].op == op
  }

  /** The lemmas whose left-hand side has the operator, as they come in the list. */
  function WithHead(lemmas: seq<Term>, op: string): seq<Term> {
    if lemmas == [] then []
    else (if HasHead(lemmas[0], op) then [lemmas[0]] else []) + WithHead(lemmas[1..], op)
  }

  function Backwards(ls: seq<Term>): (r: seq<Term>)
    ensures |r| == |ls| && forall i :: 0 <= i < |ls| ==> r[i] == ls[|ls| - 1 - i]
  {
    seq(|ls|, i requires 0 <= i < |ls| => ls[|ls| - 1 - i])
  }

  lemma {:induction false} FiledBefore(lemmas: seq<Term>, store: Store, op: string)
    requires Setup(lemmas, store).Some?
    ensures LemmasOf(Setup(lemmas, store).value, op) == Backwards(WithHead(lemmas, op)) + LemmasOf(store, op)
    decreases lemmas
  {
    if lemmas != [] {
      var s := AddLemma(store, lemmas[0]).value;
      FiledBefore(lemmas[1..], s, op);
      var rest, before := WithHead(lemmas[1..], op), LemmasOf(store, op);
      if HasHead(lemmas[0], op) {
        BackwardsCons(lemmas[0], rest, before);
      } else {
        assert [] + rest == rest;
      }
    }
  }

  lemma BackwardsCons(l: Term, rest: seq<Term>, before: seq<Term>)
    ensures Backwards([l] + rest) + before == Backwards(rest) + ([l] + before)
  {
    assert Backwards([l] + rest) == Backwards(rest) + [l];
  }

  /** The lemma that comes last in the list is tried first. */
  lemma {:induction false} SetupOrder(lemmas: seq<Term>, op: string)
    requires Setup(lemmas, map[]).Some?
    ensures LemmasOf(Setup(lemmas, map[]).value, op) == Backwards(WithHead(lemmas, op))
  {
    FiledBefore(lemmas, map[], op);
  }

  /** Setting up fails exactly on a list with an entry that is not an equation for an operator. */
  lemma {:induction false} SetupSucceeds(lemmas: seq<Term>, store: Store)
    ensures Setup(lemmas, store).Some? <==>
      forall l :: l in lemmas ==> l.App? && l.op == "equal" && |l.args| > 0 && l.args[0].App?
    decreases lemmas
  {
    if lemmas != [] {
      assert forall l :: l in lemmas <==> l == lemmas[0] || l in lemmas[1..];
      var s := AddLemma(store, lemmas[0]);
      if s.Some? { SetupSucceeds(lemmas[1..], s.value); }
    }
  }
}
