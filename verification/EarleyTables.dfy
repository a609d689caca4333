/**
 benchmarks/earley-boyer.js:3904-3961: making the tables of the parser from the rules.
 */
module EarleyTables {
  import opened EarleyGrammar

  /** The predictors of the first n rules and of the first m symbols of rule n. */
  ghost predicate IsPredictorUpTo(g: Grammar, n: nat, m: nat, nt: nat, c: nat)
    requires n < |g.rules| && m <= |g.rules[n].rhs|
  {
    IsPredictor(g, n, nt, c) || exists d: nat :: d < m && c == Base(g, n) + d && g.rules[n].rhs[d] == nt
  }

  ghost predicate PredictorsUpTo(g: Grammar, n: nat, m: nat, predictors: seq<seq<nat>>)
    requires n < |g.rules| && m <= |g.rules[n].rhs|
  {
    |predictors| == g.nts && forall nt, c :: 0 <= nt < g.nts ==>
      (c in predictors[nt] <==> IsPredictorUpTo(g, n, m, nt, c))
  }

  /** Adding configuration c to the list of nonterminal nt. */
  function Added(table: seq<seq<nat>>, nt: nat, c: nat): (r: seq<seq<nat>>)
    requires nt < |table|
    ensures |r| == |table|
    ensures forall x, y :: 0 <= x < |r| ==> (y in r[x] <==> y in table[x] || (x == nt && y == c))
  {
    table[nt := [c] + table[nt]]
  }

  lemma PredictorStep(g: Grammar, n: nat, m: nat, nt: nat, c: nat)
    requires n < |g.rules| && m < |g.rules[n].rhs|
    ensures IsPredictorUpTo(g, n, m + 1, nt, c) <==>
      IsPredictorUpTo(g, n, m, nt, c) || (nt == g.rules[n].rhs[m] && c == Base(g, n) + m)
  {
    if exists d: nat :: d < m && c == Base(g, n) + d && g.rules[n].rhs[d] == nt {
      var d: nat :| d < m && c == Base(g, n) + d && g.rules[n].rhs[d] == nt;
      assert d < m + 1;
    }
    if nt == g.rules[n].rhs[m] && c == Base(g, n) + m {
      assert m < m + 1;
    }
  }

  /**
   The symbols of one rule: the step of each configuration, and the configuration among the
   predictors of its symbol.
   */
  method AddSymbols(g: Grammar, n: nat, predictors0: seq<seq<nat>>, steps0: seq<int>)
      returns (predictors: seq<seq<nat>>, steps: seq<int>)
    requires g.Valid() && n < |g.rules| && PredictorsUpTo(g, n, 0, predictors0) && |steps0| == Confs(g)
    ensures PredictorsUpTo(g, n, |g.rules[n].rhs|, predictors) && |steps| == Confs(g)
    ensures StepsOfRule(g, steps, n) && forall c :: 0 <= c < Base(g, n) && c < |steps| ==> steps[c] == steps0[c]
  {
    predictors, steps := predictors0, steps0;
    var rule := g.rules[n];
    assert g.RuleOk(rule);
    BaseMonotone(g, n, |g.rules|);
    var conf := Base(g, n);
    for m := 0 to |rule.rhs|
      invariant PredictorsUpTo(g, n, m, predictors) && |steps| == Confs(g)
      invariant forall d :: 0 <= d < m ==> steps[conf + d] == rule.rhs[d]
      invariant forall c :: 0 <= c < conf ==> steps[c] == steps0[c]
    {
      var nt := rule.rhs[m];
      steps := steps[conf + m := nt];
      predictors := Added(predictors, nt, conf + m);
      forall x: nat, c: nat ensures IsPredictorUpTo(g, n, m + 1, x, c) <==>
        IsPredictorUpTo(g, n, m, x, c) || (x == nt && c == conf + m) {
        PredictorStep(g, n, m, x, c);
      }
    }
    steps := steps[conf + |rule.rhs| := rule.head - g.nts];
  }

  lemma PredictorWhole(g: Grammar, n: nat, nt: nat, c: nat)
    requires n < |g.rules|
    ensures IsPredictorUpTo(g, n, |g.rules[n].rhs|, nt, c) <==> IsPredictor(g, n + 1, nt, c)
    ensures IsPredictorUpTo(g, n, 0, nt, c) <==> IsPredictor(g, n, nt, c)
  {
    if IsPredictor(g, n + 1, nt, c) {
      var r: nat, d: nat :| r < n + 1 && IsConf(g, c, r, d) && d < |g.rules[r].rhs| && g.rules[r].rhs[d] == nt;
      if r < n { assert IsPredictor(g, n, nt, c); }
    }
    if IsPredictor(g, n, nt, c) {
      var r: nat, d: nat :| r < n && IsConf(g, c, r, d) && d < |g.rules[r].rhs| && g.rules[r].rhs[d] == nt;
      assert r < n + 1 && IsConf(g, c, r, d);
    }
    if exists d: nat :: d < |g.rules[n].rhs| && c == Base(g, n) + d && g.rules[n].rhs[d] == nt {
      var d: nat :| d < |g.rules[n].rhs| && c == Base(g, n) + d && g.rules[n].rhs[d] == nt;
      assert n < n + 1 && IsConf(g, c, n, d);
    }
  }

  lemma StarterStep(g: Grammar, n: nat, nt: nat, c: nat)
    requires n < |g.rules|
    ensures IsStarter(g, n + 1, nt, c) <==> IsStarter(g, n, nt, c) || (nt == g.rules[n].head && c == Base(g, n))
    ensures IsEnder(g, n + 1, nt, c) <==>
      IsEnder(g, n, nt, c) || (nt == g.rules[n].head && c == Base(g, n) + |g.rules[n].rhs|)
  {
    assert n < n + 1;
    if IsStarter(g, n, nt, c) {
      var r :| 0 <= r < n && g.rules[r].head == nt && c == Base(g, r);
      assert r < n + 1;
    }
    if IsEnder(g, n, nt, c) && c != nt {
      var r :| 0 <= r < n && g.rules[r].head == nt && c == Base(g, r) + |g.rules[r].rhs|;
      assert r < n + 1;
    }
  }

  method AddRule(g: Grammar, n: nat, tab: Tables) returns (tab': Tables)
    requires g.Valid() && n < |g.rules| && Describes(g, n, tab)
    ensures Describes(g, n + 1, tab')
  {
    var head, conf := g.rules[n].head, Base(g, n);
    assert g.RuleOk(g.rules[n]);
    forall nt: nat, c: nat ensures IsPredictorUpTo(g, n, 0, nt, c) <==> IsPredictor(g, n, nt, c) {
      PredictorWhole(g, n, nt, c);
    }
    var predictors, steps := AddSymbols(g, n, tab.predictors, tab.steps);
    var starters := Added(tab.starters, head, conf);
    var enders := Added(tab.enders, head, conf + |g.rules[n].rhs|);
    tab' := Tables(starters, enders, predictors, steps);
    forall nt: nat, c: nat | nt < g.nts
      ensures c in starters[nt] <==> IsStarter(g, n + 1, nt, c)
      ensures c in enders[nt] <==> IsEnder(g, n + 1, nt, c)
      ensures c in predictors[nt] <==> IsPredictor(g, n + 1, nt, c)
    {
      StarterStep(g, n, nt, c);
      PredictorWhole(g, n, nt, c);
    }
    BaseAtLeast(g, n);
    BaseMonotone(g, n, |g.rules|);
    forall r | 0 <= r < n ensures StepsOfRule(g, steps, r) {
      assert StepsOfRule(g, tab.steps, r);
      BaseMonotone(g, r, n);
    }
  }

  /** The tables before any rule: every nonterminal is completed by its own token configuration. */
  method TokenTables(g: Grammar) returns (tab: Tables)
    ensures Describes(g, 0, tab)
  {
    BaseAtLeast(g, |g.rules|);
    var steps: seq<int> := seq(Confs(g), _ => 0);
    var enders: seq<seq<nat>> := seq(g.nts, _ => []);
    var i := g.nts - 1;
    while i >= 0
      invariant -1 <= i < g.nts && |steps| == Confs(g) && |enders| == g.nts
      invariant forall c :: i < c < g.nts ==> steps[c] == c - g.nts && enders[c] == [c]
    {
      steps := steps[i := i - g.nts];
      enders := enders[i := [i]];
      i := i - 1;
    }
    tab := Tables(seq(g.nts, _ => []), enders, seq(g.nts, _ => []), steps);
  }

  method BuildTables(g: Grammar) returns (tab: Tables)
    requires g.Valid()
    ensures TablesOf(g, tab)
  {
    tab := TokenTables(g);
    for n := 0 to |g.rules|
      invariant Describes(g, n, tab)
    {
      tab := AddRule(g, n, tab);
    }
  }
}
