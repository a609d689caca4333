/**
 benchmarks/earley-boyer.js, the nboyer half: terms, substitution and one-way
 unification. An atom is a symbol (a variable) or a number; everything else is an
 operator applied to arguments.
 */
module BoyerTerms {
  import opened Options

  datatype Atom = Symbol(name: string) | Number(n: int)

  datatype Term = Leaf(atom: Atom) | App(op: string, args: seq<Term>)

  /** An association list; the first entry for a key counts. */
  type Subst = seq<(Atom, Term)>

  function Assq(key: Atom, alist: Subst): Option<Term> {
    if alist == [] then None
    else if alist[0].0 == key then Some(alist[0].1)
    else Assq(key, alist[1..])
  }

  function ApplySubst(alist: Subst, t: Term): Term
    decreases t, 1
  {
    match t
    case Leaf(a) => var u := Assq(a, alist); if u.Some? then u.value else t
    case App(op, args) => App(op, ApplySubstList(alist, args))
  }

  function ApplySubstList(alist: Subst, ts: seq<Term>): (r: seq<Term>)
    ensures |r| == |ts|
    decreases ts, 0
  {
    if ts == [] then [] else [ApplySubst(alist, ts[0])] + ApplySubstList(alist, ts[1..])
  }

  /** Structural comparison, argument by argument. */
  predicate IsTermEqual(x: Term, y: Term)
    decreases x, 1
  {
    match (x, y)
    case (App(f, xs), App(g, ys)) => f == g && AreTermsEqual(xs, ys)
    case (Leaf(a), Leaf(b)) => a == b
    case _ => false
  }

  predicate AreTermsEqual(xs: seq<Term>, ys: seq<Term>)
    decreases xs, 0
  {
    if xs == [] then ys == []
    else if ys == [] then false
    else IsTermEqual(xs[0], ys[0]) && AreTermsEqual(xs[1..], ys[1..])
  }

  lemma {:induction false} EqualIsEquality(x: Term, y: Term)
    ensures IsTermEqual(x, y) <==> x == y
    decreases x, 1
  {
    match (x, y)
    case (App(_, xs), App(_, ys)) => ListsEqualIsEquality(xs, ys);
    case _ =>
  }

  lemma {:induction false} ListsEqualIsEquality(xs: seq<Term>, ys: seq<Term>)
    ensures AreTermsEqual(xs, ys) <==> xs == ys
    decreases xs, 0
  {
    if xs != [] && ys != [] {
      EqualIsEquality(xs[0], ys[0]);
      ListsEqualIsEquality(xs[1..], ys[1..]);
      assert xs == [xs[0]] + xs[1..] && ys == [ys[0]] + ys[1..];
    }
  }

  /**
   Matches pattern against t, extending the bindings made so far (the code's global
   unify_subst). After a failure the bindings are whatever had been reached.
   */
  function Unify(t: Term, pattern: Term, s: Subst): (r: (bool, Subst))
    decreases pattern, 1
  {
    match pattern
    case Leaf(a) =>
      var bound := Assq(a, s);
      if bound.Some? then (IsTermEqual(t, bound.value), s)
      else if a.Number? then (t == pattern, s)
      else (true, [(a, t)] + s)
    case App(op, args) =>
      match t
      case Leaf(_) => (false, s)
      case App(f, ts) => if f == op then UnifyLists(ts, args, s) else (false, s)
  }

  function UnifyLists(ts: seq<Term>, patterns: seq<Term>, s: Subst): (r: (bool, Subst))
    decreases patterns, 0
  {
    if ts == [] then (patterns == [], s)
    else if patterns == [] then (false, s)
    else
      var r := Unify(ts[0], patterns[0], s);
      if r.0 then UnifyLists(ts[1..], patterns[1..], r.1) else r
  }

  // ----- Unification finds a match exactly when there is one

  /** Only variables are bound. */
  ghost predicate BindsSymbols(s: Subst) {
    forall n :: Assq(Number(n), s) == None
  }

  /** s' binds everything s binds, to the same terms. */
  ghost predicate Extends(s': Subst, s: Subst) {
    forall a :: Assq(a, s).Some? ==> Assq(a, s') == Assq(a, s)
  }

  /** Every variable of t is bound. */
  ghost predicate Covers(s: Subst, t: Term)
    decreases t, 1
  {
    match t
    case Leaf(a) => a.Symbol? ==> Assq(a, s).Some?
    case App(_, args) => CoversList(s, args)
  }

  ghost predicate CoversList(s: Subst, ts: seq<Term>)
    decreases ts, 0
  {
    ts == [] || (Covers(s, ts[0]) && CoversList(s, ts[1..]))
  }

  /** A covered pattern keeps its instance under more bindings. */
  lemma {:induction false} ExtendKeeps(s: Subst, s': Subst, t: Term)
    requires BindsSymbols(s) && BindsSymbols(s') && Extends(s', s) && Covers(s, t)
    ensures Covers(s', t) && ApplySubst(s', t) == ApplySubst(s, t)
    decreases t, 1
  {
    match t
    case Leaf(a) =>
    case App(_, args) => ExtendKeepsList(s, s', args);
  }

  lemma {:induction false} ExtendKeepsList(s: Subst, s': Subst, ts: seq<Term>)
    requires BindsSymbols(s) && BindsSymbols(s') && Extends(s', s) && CoversList(s, ts)
    ensures CoversList(s', ts) && ApplySubstList(s', ts) == ApplySubstList(s, ts)
    decreases ts, 0
  {
    if ts != [] {
      ExtendKeeps(s, s', ts[0]);
      ExtendKeepsList(s, s', ts[1..]);
    }
  }

  /** Success means the bindings turn the pattern into the term, and earlier bindings stand. */
  lemma {:induction false} UnifySound(t: Term, pattern: Term, s: Subst)
    requires BindsSymbols(s)
    ensures var (ok, s') := Unify(t, pattern, s);
      BindsSymbols(s') && Extends(s', s) && (ok ==> Covers(s', pattern) && ApplySubst(s', pattern) == t)
    decreases pattern, 1
  {
    match pattern
    case Leaf(a) =>
      var bound := Assq(a, s);
      if bound.Some? {
        EqualIsEquality(t, bound.value);
      } else if a.Symbol? {
        assert ([(a, t)] + s)[1..] == s;
      }
    case App(op, args) =>
      if t.App? && t.op == op {
        UnifyListsSound(t.args, args, s);
      }
  }

  lemma {:induction false} UnifyListsSound(ts: seq<Term>, patterns: seq<Term>, s: Subst)
    requires BindsSymbols(s)
    ensures var (ok, s') := UnifyLists(ts, patterns, s);
      BindsSymbols(s') && Extends(s', s) && (ok ==> CoversList(s', patterns) && ApplySubstList(s', patterns) == ts)
    decreases patterns, 0
  {
    if ts != [] && patterns != [] {
      var (ok, s1) := Unify(ts[0], patterns[0], s);
      UnifySound(ts[0], patterns[0], s);
      if ok {
        UnifyListsSound(ts[1..], patterns[1..], s1);
        var (ok2, s2) := UnifyLists(ts[1..], patterns[1..], s1);
        if ok2 {
          ExtendKeeps(s1, s2, patterns[0]);
          assert ts == [ts[0]] + ts[1..];
        }
      }
    }
  }

  /** tau maps every variable s binds to the same term. */
  ghost predicate Agrees(tau: Subst, s: Subst) {
    forall a :: Assq(a, s).Some? ==> ApplySubst(tau, Leaf(a)) == Assq(a, s).value
  }

  /** If any substitution that agrees with the bindings so far makes pattern into t, unification succeeds. */
  lemma {:induction false} UnifyComplete(t: Term, pattern: Term, s: Subst, tau: Subst)
    requires BindsSymbols(tau) && Agrees(tau, s) && ApplySubst(tau, pattern) == t
    ensures var (ok, s') := Unify(t, pattern, s); ok && Agrees(tau, s')
    decreases pattern, 1
  {
    match pattern
    case Leaf(a) =>
      var bound := Assq(a, s);
      if bound.Some? {
        EqualIsEquality(t, bound.value);
      } else if a.Symbol? {
        assert ([(a, t)] + s)[1..] == s;
      }
    case App(op, args) => UnifyListsComplete(t.args, args, s, tau);
  }

  lemma {:induction false} UnifyListsComplete(ts: seq<Term>, patterns: seq<Term>, s: Subst, tau: Subst)
    requires BindsSymbols(tau) && Agrees(tau, s) && ApplySubstList(tau, patterns) == ts
    ensures var (ok, s') := UnifyLists(ts, patterns, s); ok && Agrees(tau, s')
    decreases patterns, 0
  {
    if patterns != [] {
      UnifyComplete(ts[0], patterns[0], s, tau);
      UnifyListsComplete(ts[1..], patterns[1..], Unify(ts[0], patterns[0], s).1, tau);
    }
  }

  /** One-way unification from scratch succeeds exactly on the pattern's instances. */
  lemma UnifyIffInstance(t: Term, pattern: Term)
    ensures Unify(t, pattern, []).0 <==> exists tau: Subst :: BindsSymbols(tau) && ApplySubst(tau, pattern) == t
  {
    UnifySound(t, pattern, []);
    if exists tau: Subst :: BindsSymbols(tau) && ApplySubst(tau, pattern) == t {
      var tau: Subst :| BindsSymbols(tau) && ApplySubst(tau, pattern) == t;
      UnifyComplete(t, pattern, [], tau);
    }
  }
}
