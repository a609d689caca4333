/**
 benchmarks/earley-boyer.js:4038-4055, 4225-4255, 4474-4486: the whole recogniser, from the
 tables and the tokens to the answer.
 */
module EarleyRecognizer {
  import opened EarleyGrammar
  import opened EarleyClosure
  import opened EarleyState
  import opened EarleyParser
  import EarleyTables

  /** A state as make_states leaves it. */
  ghost predicate Untouched(g: Grammar, state: State, k: nat)
    reads state
  {
    && state.num == k && state.repr == {} && state.Valid() && |state.sets| == Confs(g)
    && AllProcessed(state.done) && AllProcessed(state.todo)
  }

  method MakeStates(g: Grammar, n: nat) returns (states: seq<State>)
    ensures |states| == n + 1 && forall k :: 0 <= k <= n ==> fresh(states[k]) && Untouched(g, states[k], k)
  {
    states := [];
    while |states| <= n
      invariant |states| <= n + 1
      invariant forall k :: 0 <= k < |states| ==> fresh(states[k]) && Untouched(g, states[k], k)
      decreases n + 1 - |states|
    {
      var v := new State(|states|, Confs(g));
      states := states + [v];
    }
  }

  lemma UntouchedKept(g: Grammar, toks: Input, tab: Tables, past: seq<Row>, done: Row, todo: Row)
    requires |done| == Confs(g) && |todo| == Confs(g) && AllProcessed(done) && Sound(g, toks, todo, |past|)
    ensures Kept(g, toks, tab, past, done, todo)
  {
  }

  /** Seeds one state and runs the worklist loop on it. */
  method ParseRow(g: Grammar, ghost toks: Input, tab: Tables, states: seq<State>, state: State, l: seq<nat>, i: nat,
      ghost past: seq<Row>)
    requires TablesOf(g, tab) && PastOk(g, toks, states, past) && state == states[|past|] && Untouched(g, state, |past|)
    requires i <= |past| && forall c :: c in l ==> c < Confs(g) && Item(g, toks, c, i, |past|)
    modifies state, state.repr
    ensures PastOk(g, toks, states, past) && Working(g, toks, tab, state) && fresh(state.repr)
    ensures Kept(g, toks, tab, past, state.done, state.todo) && AllProcessed(state.todo)
    ensures forall c :: c in l ==> c < Confs(g) && i in state.done[c]
  {
    AdjoinAll(g, toks, tab, state, l, i);
    UntouchedKept(g, toks, tab, past, state.done, state.todo);
    Forw(g, toks, tab, states, state, past);
    forall c | c in l ensures c < Confs(g) && i in state.done[c] {
      assert In(state.done, state.todo, c, i);
    }
  }

  // ----- The chart row by row

  /** The first rows, each finished given those before it, with the seeds it was given. */
  ghost predicate Rows(g: Grammar, toks: Input, tab: Tables, chart: seq<Row>) {
    && TablesOf(g, tab) && 0 < |chart| <= |toks| + 1
    && (forall j :: 0 <= j < |chart| ==> FinishedRow(g, toks, tab, chart, j))
    && (g.nts > 0 ==> forall s :: s in tab.starters[0] ==> s < |chart[0]| && 0 in chart[0][s])
    && (forall i, nt :: 0 <= i < |chart| - 1 && nt in toks[i] && nt < g.nts ==>
      nt < |chart[i + 1]| && i in chart[i + 1][nt])
  }

  lemma NothingNew(g: Grammar, todo: Row)
    requires |todo| == Confs(g) && AllProcessed(todo)
    ensures todo == seq(Confs(g), _ => [])
  {
  }

  lemma AppendRow(g: Grammar, toks: Input, tab: Tables, chart: seq<Row>, row: Row, todo: Row)
    requires Kept(g, toks, tab, chart, row, todo) && AllProcessed(todo)
    requires forall j :: 0 <= j < |chart| ==> FinishedRow(g, toks, tab, chart, j)
    ensures forall j :: 0 <= j <= |chart| ==> FinishedRow(g, toks, tab, chart + [row], j)
  {
    NothingNew(g, todo);
    forall j | 0 <= j <= |chart| ensures FinishedRow(g, toks, tab, chart + [row], j) {
      assert (chart + [row])[..j] == chart[..j];
      if j < |chart| { assert FinishedRow(g, toks, tab, chart, j); } else { assert chart[..j] == chart; }
    }
  }

  /** The states up to a row are finished, those after it untouched. */
  ghost predicate Parsed(g: Grammar, toks: Input, tab: Tables, states: seq<State>, chart: seq<Row>)
    reads *
  {
    && |states| == |toks| + 1 && Rows(g, toks, tab, chart)
    && (forall k :: 0 <= k < |chart| ==> PastRow(g, toks, states[k], k, chart[k]) && AllProcessed(states[k].todo))
    && (forall k :: |chart| <= k < |states| ==> Untouched(g, states[k], k))
  }

  ghost predicate InputOk(g: Grammar, toks: Input) {
    forall i, nt :: 0 <= i < |toks| && nt in toks[i] ==> nt < g.nts
  }

  /** Fills the chart: the goal's rules in state 0, then one state per token. */
  method Parse(g: Grammar, tab: Tables, toks: Input) returns (states: seq<State>, ghost chart: seq<Row>)
    requires TablesOf(g, tab) && InputOk(g, toks)
    ensures Parsed(g, toks, tab, states, chart) && Finished(g, toks, tab, chart)
  {
    states := MakeStates(g, |toks|);
    ParseGoal(g, toks, tab, states);
    chart := [states[0].done];
    for i := 0 to |toks|
      invariant |chart| == i + 1 && Parsed(g, toks, tab, states, chart)
      invariant forall k :: 0 <= k < |states| ==> fresh(states[k]) && fresh(states[k].repr)
    {
      ParseToken(g, toks, tab, states, i, chart);
      chart := chart + [states[i + 1].done];
    }
  }

  method ParseGoal(g: Grammar, ghost toks: Input, tab: Tables, states: seq<State>)
    requires TablesOf(g, tab) && |states| == |toks| + 1 && forall k :: 0 <= k < |states| ==> Untouched(g, states[k], k)
    modifies states[0], states[0].repr
    ensures fresh(states[0].repr) && Parsed(g, toks, tab, states, [states[0].done])
  {
    var state := states[0];
    var goal := if g.nts > 0 then tab.starters[0] else [];
    forall c | c in goal ensures c < Confs(g) && Item(g, toks, c, 0, 0) {
      StarterItem(g, toks, tab, 0, c, 0);
    }
    ParseRow(g, toks, tab, states, state, goal, 0, []);
    AppendRow(g, toks, tab, [], state.done, state.todo);
    assert [] + [state.done] == [state.done];
  }

  method ParseToken(g: Grammar, toks: Input, tab: Tables, states: seq<State>, i: nat, ghost chart: seq<Row>)
    requires i < |toks| && InputOk(g, toks) && Parsed(g, toks, tab, states, chart) && |chart| == i + 1
    modifies states[i + 1], states[i + 1].repr
    ensures |states| == |toks| + 1 && fresh(states[i + 1].repr)
    ensures Parsed(g, toks, tab, states, chart + [states[i + 1].done])
  {
    var state := states[i + 1];
    forall c | c in toks[i] ensures c < Confs(g) && Item(g, toks, c, i, i + 1) {
      BaseAtLeast(g, |g.rules|);
    }
    ParseRow(g, toks, tab, states, state, toks[i], i, chart);
    AppendRow(g, toks, tab, chart, state.done, state.todo);
  }

  // ----- Answers

  /**
   is_parsed. For an origin that is in range the answer is the chart's. A vector has no slot
   for an origin beyond its own state; the code then reads something that is not false, and
   takes any set at all for a yes, although nothing is derived backwards.
   */
  method IsParsed(g: Grammar, ghost toks: Input, tab: Tables, states: seq<State>, ghost chart: seq<Row>, nt: nat,
      i: nat, j: nat) returns (r: bool)
    requires Parsed(g, toks, tab, states, chart) && Finished(g, toks, tab, chart) && j < |states|
    ensures i <= j && r ==> Derives(g, toks, nt, i, j)
    ensures i <= j && nt < g.nts && Expected(tab, chart, nt, i) ==> (r <==> Derives(g, toks, nt, i, j))
    ensures i > j ==> !Derives(g, toks, nt, i, j)
    ensures i > j ==> (r <==> nt < g.nts && exists e ::
      e in tab.enders[nt] && e < |states[j].sets| && states[j].sets[e] != null)
  {
    if i > j { NothingBackwards(g, toks, nt, i, j); }
    if nt >= g.nts { return false; }
    var state, l := states[j], tab.enders[nt];
    assert PastRow(g, toks, state, j, chart[j]) && AllProcessed(state.todo);
    if i <= j && Expected(tab, chart, nt, i) { ChartDecides(g, toks, tab, chart, nt, i, j); }
    for n := 0 to |l|
      invariant forall m :: 0 <= m < n ==> l[m] < |state.sets| && !SlotTest(state, l[m], i)
    {
      assert l[n] in l;
      EnderStep(g, tab, nt, l[n]);
      if SlotTest(state, l[n], i) {
        if i <= j {
          ghost var _ := EnderDerives(g, toks, tab, nt, l[n], i, j);
        }
        return true;
      }
    }
    return false;
  }

  predicate SlotTest(state: State, e: nat, i: nat)
    requires state.Valid() && e < |state.sets|
    reads state, state.repr
    ensures i <= state.num ==> (SlotTest(state, e, i) <==> state.Has(e, i))
  {
    if i <= state.num then state.Recorded(e, i) else state.sets[e] != null
  }

  lemma NothingBackwards(g: Grammar, toks: Input, nt: nat, i: nat, j: nat)
    requires i > j
    ensures !Derives(g, toks, nt, i, j)
  {
    forall t ensures !IsTree(g, toks, t, nt, i, j) {
      if IsTree(g, toks, t, nt, i, j) { TreeForward(g, toks, t, nt, i, j); }
    }
  }

  lemma NoSymbols(g: Grammar, toks: Input)
    requires g.Valid() && InputOk(g, toks)
    ensures Derives(g, toks, 0, 0, |toks|) ==> g.nts > 0
  {
    if t :| IsTree(g, toks, t, 0, 0, |toks|) {
      assert t.Node? ==> g.RuleOk(g.rules[t.rule]);
    }
  }

  /** An origin beyond the end of the input is accepted: one token, asked for from position 2 to 1. */
  method OriginBeyondState() returns (r: bool)
    ensures r && !Derives(Grammar(1, []), [[0]], 0, 2, 1)
  {
    var g, toks := Grammar(1, []), [[0]];
    var tab := EarleyTables.BuildTables(g);
    var states, chart := Parse(g, tab, toks);
    assert IsEnder(g, 0, 0, 0) && 0 in tab.enders[0];
    assert 0 in toks[0] && 0 in chart[1][0];
    assert PastRow(g, toks, states[1], 1, chart[1]) && states[1].SetOk(0);
    r := IsParsed(g, toks, tab, states, chart, 0, 2, 1);
  }

  /** The parser accepts exactly the inputs that the grammar derives from its first nonterminal. */
  method Recognize(g: Grammar, toks: Input) returns (r: bool)
    requires g.Valid() && InputOk(g, toks)
    ensures r <==> Derives(g, toks, 0, 0, |toks|)
  {
    var tab := EarleyTables.BuildTables(g);
    var states, chart := Parse(g, tab, toks);
    NoSymbols(g, toks);
    r := IsParsed(g, toks, tab, states, chart, 0, 0, |toks|);
  }
}
