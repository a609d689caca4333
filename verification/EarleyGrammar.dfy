/**
 benchmarks/earley-boyer.js:3832-3960: grammars, what they derive, and the tables made from
 them. Nonterminals are their indices in the table of names; a token is the list of the
 nonterminals it can stand for.
 */
module EarleyGrammar {

  datatype Rule = Rule(head: nat, rhs: seq<nat>)

  datatype Grammar = Grammar(nts: nat, rules: seq<Rule>) {
    /** Every name that occurs in a rule is in the table of names. */
    ghost predicate Valid() {
      forall r :: 0 <= r < |rules| ==> RuleOk(rules[r])
    }

    ghost predicate RuleOk(rule: Rule) {
      rule.head < nts && forall d :: 0 <= d < |rule.rhs| ==> rule.rhs[d] < nts
    }
  }

  type Input = seq<seq<nat>>

  // ----- Parse trees

  /** A token, or a rule with a body. */
  datatype Tree = Token | Node(rule: nat, body: Prefix)

  /** The first part of a right-hand side; mid is where its last symbol begins. */
  datatype Prefix = Nothing | Then(prev: Prefix, mid: nat, last: Tree)

  /** t is a parse tree for nonterminal nt over the tokens from i up to j. */
  predicate IsTree(g: Grammar, toks: Input, t: Tree, nt: nat, i: nat, j: nat)
    decreases t
  {
    match t
    case Token => i < |toks| && j == i + 1 && nt in toks[i]
    case Node(r, body) => r < |g.rules| && g.rules[r].head == nt && IsPrefix(g, toks, body, r, |g.rules[r].rhs|, i, j)
  }

  /** p is a parse of the first d symbols of rule r over the tokens from i up to j. */
  predicate IsPrefix(g: Grammar, toks: Input, p: Prefix, r: nat, d: nat, i: nat, j: nat)
    requires r < |g.rules| && d <= |g.rules[r].rhs|
    decreases p
  {
    match p
    case Nothing => d == 0 && i == j
    case Then(prev, k, last) =>
      d > 0 && IsPrefix(g, toks, prev, r, d - 1, i, k) && IsTree(g, toks, last, g.rules[r].rhs[d - 1], k, j)
  }

  ghost predicate Derives(g: Grammar, toks: Input, nt: nat, i: nat, j: nat) {
    exists t :: IsTree(g, toks, t, nt, i, j)
  }

  // ----- Configurations

  /** Configurations below nts are tokens; after them, |rhs| + 1 for each rule. */
  function Base(g: Grammar, r: nat): nat
    requires r <= |g.rules|
  {
    if r == 0 then g.nts else Base(g, r - 1) + |g.rules[r - 1].rhs| + 1
  }

  function Confs(g: Grammar): nat { Base(g, |g.rules|) }

  /** c is rule r with the dot before symbol d. */
  ghost predicate IsConf(g: Grammar, c: nat, r: nat, d: nat) {
    r < |g.rules| && d <= |g.rules[r].rhs| && c == Base(g, r) + d
  }

  lemma {:induction false} BaseMonotone(g: Grammar, r: nat, s: nat)
    requires r < s <= |g.rules|
    ensures Base(g, r) + |g.rules[r].rhs| + 1 <= Base(g, s)
    decreases s
  {
    if r < s - 1 { BaseMonotone(g, r, s - 1); }
  }

  lemma {:induction false} BaseAtLeast(g: Grammar, r: nat)
    requires r <= |g.rules|
    ensures g.nts <= Base(g, r)
  {
    if r > 0 { BaseAtLeast(g, r - 1); }
  }

  lemma ConfInRange(g: Grammar, c: nat, r: nat, d: nat)
    requires IsConf(g, c, r, d)
    ensures g.nts <= c < Confs(g)
  {
    BaseAtLeast(g, r);
    BaseMonotone(g, r, |g.rules|);
  }

  /** A configuration stands for one rule and one dot. */
  lemma ConfUnique(g: Grammar, c: nat, r: nat, d: nat, r': nat, d': nat)
    requires IsConf(g, c, r, d) && IsConf(g, c, r', d')
    ensures r == r' && d == d'
  {
    if r < r' {
      BaseMonotone(g, r, r');
    } else if r' < r {
      BaseMonotone(g, r', r);
    }
  }

  lemma {:induction false} ConfExists(g: Grammar, n: nat, c: nat) returns (r: nat, d: nat)
    requires n <= |g.rules| && g.nts <= c < Base(g, n)
    ensures IsConf(g, c, r, d) && r < n
    decreases n
  {
    if c >= Base(g, n - 1) {
      r, d := n - 1, c - Base(g, n - 1);
    } else {
      r, d := ConfExists(g, n - 1, c);
    }
  }

  /** What an origin i recorded for configuration c in state j has to mean. */
  ghost predicate Item(g: Grammar, toks: Input, c: nat, i: nat, j: nat) {
    if c < g.nts then IsTree(g, toks, Token, c, i, j)
    else exists r: nat, d: nat, p :: IsConf(g, c, r, d) && IsPrefix(g, toks, p, r, d, i, j)
  }

  // ----- The tables

  datatype Tables = Tables(starters: seq<seq<nat>>, enders: seq<seq<nat>>, predictors: seq<seq<nat>>, steps: seq<int>)

  ghost predicate IsStarter(g: Grammar, n: nat, nt: nat, c: nat)
    requires n <= |g.rules|
  {
    exists r :: 0 <= r < n && g.rules[r].head == nt && c == Base(g, r)
  }

  ghost predicate IsEnder(g: Grammar, n: nat, nt: nat, c: nat)
    requires n <= |g.rules|
  {
    c == nt || exists r :: 0 <= r < n && g.rules[r].head == nt && c == Base(g, r) + |g.rules[r].rhs|
  }

  ghost predicate IsPredictor(g: Grammar, n: nat, nt: nat, c: nat)
    requires n <= |g.rules|
  {
    exists r: nat, d: nat :: r < n && IsConf(g, c, r, d) && d < |g.rules[r].rhs| && g.rules[r].rhs[d] == nt
  }

  /** The symbol after the dot, or the head, less nts, when the dot is at the end. */
  function StepOf(g: Grammar, rule: Rule, d: nat): int
    requires d <= |rule.rhs|
  {
    if d < |rule.rhs| then rule.rhs[d] else rule.head - g.nts
  }

  /** The tables describe the first n rules. */
  ghost predicate Describes(g: Grammar, n: nat, tab: Tables)
    requires n <= |g.rules|
  {
    && |tab.starters| == g.nts && |tab.enders| == g.nts && |tab.predictors| == g.nts && |tab.steps| == Confs(g)
    && (forall nt, c :: 0 <= nt < g.nts ==> (c in tab.starters[nt] <==> IsStarter(g, n, nt, c)))
    && (forall nt, c :: 0 <= nt < g.nts ==> (c in tab.enders[nt] <==> IsEnder(g, n, nt, c)))
    && (forall nt, c :: 0 <= nt < g.nts ==> (c in tab.predictors[nt] <==> IsPredictor(g, n, nt, c)))
    && (forall c :: 0 <= c < g.nts ==> c < |tab.steps| && tab.steps[c] == c - g.nts)
    && (forall r :: 0 <= r < n ==> StepsOfRule(g, tab.steps, r))
  }

  ghost predicate StepsOfRule(g: Grammar, steps: seq<int>, r: nat)
    requires r < |g.rules|
  {
    forall d :: 0 <= d <= |g.rules[r].rhs| ==>
      Base(g, r) + d < |steps| && steps[Base(g, r) + d] == StepOf(g, g.rules[r], d)
  }

  ghost predicate TablesOf(g: Grammar, tab: Tables) {
    g.Valid() && Describes(g, |g.rules|, tab)
  }

  // ----- The two inferences of the parser

  lemma StepOfConf(g: Grammar, tab: Tables, c: nat, r: nat, d: nat)
    requires TablesOf(g, tab) && IsConf(g, c, r, d)
    ensures g.nts <= c < |tab.steps| && tab.steps[c] == StepOf(g, g.rules[r], d)
    ensures tab.steps[c] >= 0 <==> d < |g.rules[r].rhs|
  {
    ConfInRange(g, c, r, d);
    assert StepsOfRule(g, tab.steps, r);
    assert g.RuleOk(g.rules[r]);
  }

  /** Prediction: a rule can begin anywhere. */
  lemma StarterItem(g: Grammar, toks: Input, tab: Tables, nt: nat, c: nat, j: nat)
    requires TablesOf(g, tab) && nt < g.nts && c in tab.starters[nt]
    ensures c < Confs(g) && Item(g, toks, c, j, j)
  {
    var r :| 0 <= r < |g.rules| && g.rules[r].head == nt && c == Base(g, r);
    ConfInRange(g, c, r, 0);
    assert IsConf(g, c, r, 0) && IsPrefix(g, toks, Nothing, r, 0, j, j);
  }

  /** A complete item is a derivation of its nonterminal. */
  lemma EnderDerives(g: Grammar, toks: Input, tab: Tables, nt: nat, c: nat, i: nat, j: nat) returns (t: Tree)
    requires TablesOf(g, tab) && nt < g.nts && c in tab.enders[nt] && Item(g, toks, c, i, j)
    ensures IsTree(g, toks, t, nt, i, j)
  {
    assert IsEnder(g, |g.rules|, nt, c);
    if c == nt {
      t := Token;
    } else {
      var r :| 0 <= r < |g.rules| && g.rules[r].head == nt && c == Base(g, r) + |g.rules[r].rhs|;
      ConfInRange(g, c, r, |g.rules[r].rhs|);
      var r': nat, d: nat, p :| IsConf(g, c, r', d) && IsPrefix(g, toks, p, r', d, i, j);
      ConfUnique(g, c, r, |g.rules[r].rhs|, r', d);
      t := Node(r, p);
    }
  }

  /** Completion: an item waiting for nt at k, and nt over k..j, is an item with the dot one further on. */
  lemma AdvanceItem(g: Grammar, toks: Input, tab: Tables, nt: nat, c: nat, i: nat, k: nat, e: nat, j: nat)
    requires TablesOf(g, tab) && nt < g.nts && c < |tab.steps| && tab.steps[c] == nt && e in tab.enders[nt]
    requires Item(g, toks, c, i, k) && Item(g, toks, e, k, j)
    ensures c + 1 < Confs(g) && Item(g, toks, c + 1, i, j)
  {
    assert c >= g.nts;
    var t := EnderDerives(g, toks, tab, nt, e, k, j);
    var r: nat, d: nat, p :| IsConf(g, c, r, d) && IsPrefix(g, toks, p, r, d, i, k);
    StepOfConf(g, tab, c, r, d);
    ConfInRange(g, c + 1, r, d + 1);
    assert IsConf(g, c + 1, r, d + 1) && IsPrefix(g, toks, Then(p, k, t), r, d + 1, i, j);
  }
}
