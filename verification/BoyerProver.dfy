/**
 benchmarks/earley-boyer.js:3564-3732, 3790 as the code runs: loops over argument lists,
 unification that writes a global, the tautology test reassigning its arguments. Each
 method computes the function of the same name, about which the theorems are stated.
 */
module BoyerProver {
  import opened Options
  import opened BoyerTerms
  import opened BoyerRewrite
  import BoyerTautology
  import D = BoyerDerivation

  method IsTermEqualLoop(x: Term, y: Term) returns (r: bool)
    ensures r <==> x == y
    decreases x
  {
    if x.App? {
      if y.Leaf? || x.op != y.op { return false; }
      var lst1, lst2 := x.args, y.args;
      while true
        invariant forall i :: 0 <= i < |lst1| ==> lst1[i] < x
        invariant x.args == y.args <==> lst1 == lst2
        decreases |lst1|
      {
        if lst1 == [] { return lst2 == []; }
        if lst2 == [] { return false; }
        var same := IsTermEqualLoop(lst1[0], lst2[0]);
        if !same { return false; }
        assert lst1 == [lst1[0]] + lst1[1..] && lst2 == [lst2[0]] + lst2[1..];
        lst1, lst2 := lst1[1..], lst2[1..];
      }
    }
    return x == y;
  }

  method IsTermMemberLoop(x: Term, ts: seq<Term>) returns (r: bool)
    ensures r <==> x in ts
  {
    var lst := ts;
    while lst != []
      invariant x in ts <==> x in lst
      decreases |lst|
    {
      var same := IsTermEqualLoop(x, lst[0]);
      if same { return true; }
      lst := lst[1..];
    }
    return false;
  }

  /** The test as a loop: the true branch is a call, everything else goes round again. */
  method TautologypLoop(x0: Term, ts: seq<Term>, fs0: seq<Term>) returns (r: Option<bool>)
    ensures r == BoyerTautology.Tautologyp(x0, ts, fs0)
    decreases x0
  {
    var x, fs := x0, fs0;
    while true
      invariant x == x0 || x < x0
      invariant BoyerTautology.Tautologyp(x, ts, fs) == BoyerTautology.Tautologyp(x0, ts, fs0)
      decreases x
    {
      var known := TrueLoop(x, ts);
      if known { return Some(true); }
      known := FalseLoop(x, fs);
      if known { return Some(false); }
      if x.Leaf? || x.op != "if" { return Some(false); }
      if |x.args| == 0 { return None; }
      var c := x.args[0];
      known := TrueLoop(c, ts);
      if known {
        if |x.args| < 2 { return None; }
        x := x.args[1];
      } else {
        known := FalseLoop(c, fs);
        if !known {
          if |x.args| < 2 { return None; }
          r := TautologypLoop(x.args[1], [c] + ts, fs);
          if r != Some(true) { return; }
          if |x.args| < 3 { return None; }
          fs := [c] + fs;
        }
        if |x.args| < 3 { return None; }
        x := x.args[2];
      }
    }
  }

  method TrueLoop(x: Term, ts: seq<Term>) returns (r: bool)
    ensures r <==> BoyerTautology.TrueP(x, ts)
  {
    BoyerTautology.KnownIsIn(x, ts, []);
    r := IsTermEqualLoop(x, BoyerTautology.T);
    if !r { r := IsTermMemberLoop(x, ts); }
  }

  method FalseLoop(x: Term, fs: seq<Term>) returns (r: bool)
    ensures r <==> BoyerTautology.FalseP(x, fs)
  {
    BoyerTautology.KnownIsIn(x, [], fs);
    r := IsTermEqualLoop(x, BoyerTautology.F);
    if !r { r := IsTermMemberLoop(x, fs); }
  }

  /** The globals of the prover. */
  class Prover {
    var unifySubst: Subst
    var store: Store
    /** The list the store was made from. */
    ghost var lemmas: seq<Term>

    ghost predicate Valid() reads this {
      Setup(lemmas, map[]) == Some(store)
    }

    lemma Equations()
      requires Valid()
      ensures forall op, l :: l in LemmasOf(store, op) ==> IsEquation(l)
    {
      forall op, l | l in LemmasOf(store, op) ensures IsEquation(l) {
        SetupEquations(lemmas, map[], op, l);
      }
    }

    constructor ()
      ensures Valid() && lemmas == []
    {
      unifySubst, store, lemmas := [], map[], [];
    }

    /** Files a list of lemmas, from an empty store; stops at one that is not an equation. The last one comes first. */
    method SetupLemmas(list: seq<Term>) returns (ok: bool)
      modifies this
      ensures ok <==> Setup(list, map[]).Some?
      ensures ok ==> Valid() && lemmas == list
      ensures ok ==> forall op :: LemmasOf(store, op) == D.Backwards(D.WithHead(list, op))
    {
      store := map[];
      var lst := list;
      while lst != []
        invariant Setup(lst, store) == Setup(list, map[])
        decreases |lst|
      {
        var added := AddLemma(store, lst[0]);
        if added.None? { return false; }
        store, lst := added.value, lst[1..];
      }
      lemmas := list;
      ok := true;
      forall op ensures LemmasOf(store, op) == D.Backwards(D.WithHead(list, op)) {
        D.SetupOrder(list, op);
      }
    }

    method OneWayUnify1(t: Term, pattern: Term) returns (ok: bool)
      modifies this`unifySubst
      ensures (ok, unifySubst) == Unify(t, pattern, old(unifySubst))
      decreases pattern
    {
      match pattern
      case Leaf(a) =>
        var bound := Assq(a, unifySubst);
        if bound.Some? {
          ok := IsTermEqualLoop(t, bound.value);
          EqualIsEquality(t, bound.value);
        } else if a.Number? {
          ok := t == pattern;
        } else {
          unifySubst := [(a, t)] + unifySubst;
          ok := true;
        }
      case App(op, args) =>
        if t.Leaf? || t.op != op { return false; }
        var lst1, lst2 := t.args, args;
        while true
          invariant forall i :: 0 <= i < |lst2| ==> lst2[i] < pattern
          invariant UnifyLists(lst1, lst2, unifySubst) == UnifyLists(t.args, args, old(unifySubst))
          decreases |lst2|
        {
          if lst1 == [] { return lst2 == []; }
          if lst2 == [] { return false; }
          ok := OneWayUnify1(lst1[0], lst2[0]);
          if !ok { return; }
          lst1, lst2 := lst1[1..], lst2[1..];
        }
    }

    /** unify_subst is emptied before every attempt. */
    method Match(t: Term, l: Term) returns (ok: bool)
      requires IsEquation(l)
      modifies this`unifySubst
      ensures (ok, unifySubst) == Unify(t, l.args[0], [])
    {
      unifySubst := [];
      ok := OneWayUnify1(t, l.args[0]);
    }

    /** By RewriteIffDerives, with enough fuel, what the lemmas derive from t, if they derive anything. */
    method RewriteTerm(fuel: nat, t: Term) returns (r: Option<Term>)
      requires Valid()
      modifies this`unifySubst
      ensures r == Rewrite(fuel, store, t)
      decreases fuel, t, 1
    {
      if t.Leaf? { return Some(t); }
      var rewritten := RewriteTerms(fuel, t.args);
      if rewritten.None? { return None; }
      var t1 := App(t.op, rewritten.value);
      var lst := LemmasOf(store, t.op);
      Equations();
      while lst != []
        invariant Valid() && forall l :: l in lst ==> IsEquation(l)
        invariant FirstMatch(t1, lst) == FirstMatch(t1, LemmasOf(store, t.op))
        decreases |lst|
      {
        var ok := Match(t1, lst[0]);
        if ok {
          if fuel == 0 || |lst[0].args| < 2 { return None; }
          r := RewriteTerm(fuel - 1, ApplySubst(unifySubst, lst[0].args[1]));
          return;
        }
        lst := lst[1..];
      }
      return Some(t1);
    }

    method RewriteTerms(fuel: nat, ts: seq<Term>) returns (r: Option<seq<Term>>)
      requires Valid()
      modifies this`unifySubst
      ensures r == RewriteArgs(fuel, store, ts)
      decreases fuel, ts, 0
    {
      if ts == [] { return Some([]); }
      var first := RewriteTerm(fuel, ts[0]);
      if first.None? { return None; }
      var rest := RewriteTerms(fuel, ts[1..]);
      if rest.None? { return None; }
      return Some([first.value] + rest.value);
    }

    /**
     Rewrites and tests. A true answer is a theorem of the lemmas: the term holds in every
     model m of them.
     */
    method Test<V(!new)>(fuel: nat, t: Term, ghost m: Model<V>) returns (answer: Option<bool>)
      requires Valid()
      modifies this`unifySubst
      ensures answer == (var u := Rewrite(fuel, store, t);
        if u.None? then None else BoyerTautology.Tautologyp(u.value, [], []))
      ensures EqualMeansEqual(m) && BoyerTautology.IfMeansIf(m) && (forall l :: l in lemmas ==> Holds(m, l)) ==>
        answer == Some(true) ==> Holds(m, t)
    {
      var u := RewriteTerm(fuel, t);
      if u.None? { return None; }
      answer := TautologypLoop(u.value, [], []);
      if answer == Some(true) && EqualMeansEqual(m) && BoyerTautology.IfMeansIf(m)
        && forall l :: l in lemmas ==> Holds(m, l) {
        BoyerTautology.ProverSound(lemmas, fuel, t, m);
      }
    }
  }
}
