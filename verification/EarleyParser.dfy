/**
 benchmarks/earley-boyer.js:4038-4055, 4080-4101, 4115-4255, 4474-4486: the Earley
 recogniser. The worklist loop ends, and what it leaves is a finished chart, so the answer
 for the goal is yes exactly when the grammar derives the input.
 */
module EarleyParser {
  import opened EarleyGrammar
  import opened EarleyClosure
  import opened EarleySets
  import opened EarleyState

  // ----- Between the tables and the loop

  lemma GrowsKeeps(g: Grammar, toks: Input, done: Row, t0: Row, t1: Row, c: nat, s: seq<nat>, j: nat)
    requires |done| == |t0| && Grows(done, t0, t1, c, s) && Sound(g, toks, t0, j)
    requires forall i :: i in s ==> Item(g, toks, c, i, j)
    ensures More(t0, t1) && Sound(g, toks, t1, j) && forall i :: i in s ==> In(done, t1, c, i)
  {
  }

  lemma PredictorIff(g: Grammar, tab: Tables, nt: nat, p: nat)
    requires TablesOf(g, tab) && nt < g.nts
    ensures p in tab.predictors[nt] <==> p < |tab.steps| && tab.steps[p] == nt
  {
    if p in tab.predictors[nt] {
      assert IsPredictor(g, |g.rules|, nt, p);
      var r: nat, d: nat :| r < |g.rules| && IsConf(g, p, r, d) && d < |g.rules[r].rhs| && g.rules[r].rhs[d] == nt;
      StepOfConf(g, tab, p, r, d);
    } else if p < |tab.steps| && tab.steps[p] == nt {
      assert p >= g.nts;
      var r, d := ConfExists(g, |g.rules|, p);
      StepOfConf(g, tab, p, r, d);
      assert IsPredictor(g, |g.rules|, nt, p);
    }
  }

  /** A configuration with nothing after the dot completes its head. */
  lemma CompleteIsEnder(g: Grammar, tab: Tables, c: nat)
    requires TablesOf(g, tab) && c < |tab.steps| && tab.steps[c] < 0
    ensures 0 <= tab.steps[c] + g.nts < g.nts && c in tab.enders[tab.steps[c] + g.nts]
  {
    if c >= g.nts {
      var r, d := ConfExists(g, |g.rules|, c);
      StepOfConf(g, tab, c, r, d);
      assert g.RuleOk(g.rules[r]);
      assert IsEnder(g, |g.rules|, tab.steps[c] + g.nts, c);
    } else {
      assert IsEnder(g, |g.rules|, c, c);
    }
  }

  lemma StepInRange(g: Grammar, tab: Tables, c: nat)
    requires TablesOf(g, tab) && c < |tab.steps| && tab.steps[c] >= 0
    ensures tab.steps[c] < g.nts && c + 1 < Confs(g)
  {
    assert c >= g.nts;
    var r, d := ConfExists(g, |g.rules|, c);
    StepOfConf(g, tab, c, r, d);
    assert g.RuleOk(g.rules[r]);
    assert IsConf(g, c + 1, r, d + 1);
    ConfInRange(g, c + 1, r, d + 1);
  }

  // ----- Recording

  /** The state being worked on: its vectors encode sound rows. */
  ghost predicate Working(g: Grammar, toks: Input, tab: Tables, state: State)
    reads state, state.repr
  {
    && TablesOf(g, tab)
    && state.Valid() && |state.sets| == Confs(g)
    && Sound(g, toks, state.done, state.num) && Sound(g, toks, state.todo, state.num)
  }

  /** Records one origin for each configuration of a list. */
  method AdjoinAll(g: Grammar, ghost toks: Input, ghost tab: Tables, state: State, l: seq<nat>, i: nat)
    requires Working(g, toks, tab, state) && i <= state.num
    requires forall c :: c in l ==> c < Confs(g) && Item(g, toks, c, i, state.num)
    modifies state`first, state`work, state`todo, state`sets, state`repr, state.repr
    ensures Working(g, toks, tab, state) && fresh(state.repr - old(state.repr))
    ensures forall x :: 0 <= x < |state.sets| && old(state.sets[x]) != null ==> state.sets[x] == old(state.sets[x])
    ensures More(old(state.todo), state.todo)
    ensures forall c :: c in l ==> In(state.done, state.todo, c, i)
  {
    for n := 0 to |l|
      invariant Working(g, toks, tab, state) && fresh(state.repr - old(state.repr))
      invariant forall x :: 0 <= x < |state.sets| && old(state.sets[x]) != null ==> state.sets[x] == old(state.sets[x])
      invariant More(old(state.todo), state.todo)
      invariant forall m :: 0 <= m < n ==> In(state.done, state.todo, l[m], i)
    {
      ghost var t0 := state.todo;
      assert l[n] in l;
      state.Record(l[n], i);
      GrowsKeeps(g, toks, state.done, t0, state.todo, l[n], [i], state.num);
      MoreIn(state.done, t0, state.todo);
    }
  }

  /** Carries the processed origins of p, found in state k, over to the configuration after p. */
  method StepPast(g: Grammar, ghost toks: Input, ghost tab: Tables, state: State, ghost nt: nat, ghost e: nat,
      ghost k: nat, p: nat, other: ConfSet, ghost d: seq<nat>, ghost t: seq<nat>)
    requires Working(g, toks, tab, state) && p < Confs(g) && nt < g.nts && tab.steps[p] == nt
    requires other.conf == p && other.num <= state.num && IsSet(other.v, other.num, d, t)
    requires e < Confs(g) && e in tab.enders[nt] && In(state.done, state.todo, e, k)
    requires forall o :: o in d ==> Item(g, toks, p, o, k)
    modifies state`first, state`work, state`todo, state`sets, state`repr, state.repr
    ensures Working(g, toks, tab, state) && fresh(state.repr - old(state.repr))
    ensures forall x :: 0 <= x < |state.sets| && old(state.sets[x]) != null ==> state.sets[x] == old(state.sets[x])
    ensures More(old(state.todo), state.todo)
    ensures forall o :: o in d ==> In(state.done, state.todo, p + 1, o)
  {
    StepInRange(g, tab, p);
    forall o | o in d ensures Item(g, toks, p + 1, o, state.num) {
      AdvanceItem(g, toks, tab, nt, p, o, k, e, state.num);
    }
    ghost var t0 := state.todo;
    state.UnionInto(p + 1, other, d, t);
    GrowsKeeps(g, toks, state.done, t0, state.todo, p + 1, d, state.num);
  }

  // ----- The consequences of one configuration

  /**
   c is waiting for nt: predict the rules for nt, and step past nt at once when it derives
   the empty string here. An ender that is recorded only because of such a step changes nothing.
   */
  method ProcessWaiting(g: Grammar, ghost toks: Input, tab: Tables, state: State, c: nat, cs: ConfSet,
      ghost past: seq<Row>)
    requires Working(g, toks, tab, state) && state.num == |past|
    requires c < |state.sets| && state.sets[c] == cs && tab.steps[c] >= 0
    modifies state`first, state`work, state`todo, state`sets, state`repr, state.repr
    ensures Working(g, toks, tab, state) && fresh(state.repr - old(state.repr))
    ensures More(old(state.todo), state.todo)
    ensures forall s :: Begins(tab, c, s) ==> In(state.done, state.todo, s, |past|)
    ensures forall e :: Waits(tab, c, e) && In(state.done, state.todo, e, |past|) ==>
      Carried(past, state.done, state.todo, c, |past|)
  {
    var j, nt := state.num, tab.steps[c];
    StepInRange(g, tab, c);
    forall s | s in tab.starters[nt] ensures s < Confs(g) && Item(g, toks, s, j, j) {
      StarterItem(g, toks, tab, nt, s, j);
    }
    AdjoinAll(g, toks, tab, state, tab.starters[nt], j);
    ghost var t1 := state.todo;
    var l := tab.enders[nt];
    for n := 0 to |l|
      invariant Working(g, toks, tab, state) && fresh(state.repr - old(state.repr))
      invariant state.sets[c] == cs && More(t1, state.todo)
      invariant Carried(past, state.done, state.todo, c, j)
        || (state.todo == t1 && forall m :: 0 <= m < n ==> !In(state.done, t1, l[m], j))
    {
      assert l[n] in l;
      EnderStep(g, tab, nt, l[n]);
      if state.Recorded(l[n], j) {
        assert state.SetOk(c);
        StepPast(g, toks, tab, state, nt, l[n], j, c, cs, state.done[c], state.todo[c]);
      }
    }
  }

  /** The states before the one being worked on, with their rows. */
  ghost predicate PastOk(g: Grammar, toks: Input, states: seq<State>, past: seq<Row>)
    reads *
  {
    |past| < |states| && states[|past|].num == |past| && forall k :: 0 <= k < |past| ==>
      PastRow(g, toks, states[k], k, past[k])
  }

  ghost predicate PastRow(g: Grammar, toks: Input, state: State, k: nat, row: Row)
    reads state, state.repr
  {
    && state.num == k && state.Valid() && |state.sets| == Confs(g)
    && state.done == row && Sound(g, toks, row, k)
  }

  /** c is complete: for each of its new origins k, p steps past it from state k. */
  method CompleteFor(g: Grammar, ghost toks: Input, ghost tab: Tables, states: seq<State>, state: State, c: nat,
      cs: ConfSet, head: int,
      p: nat, ghost m: nat, ghost past: seq<Row>)
    requires PastOk(g, toks, states, past) && state == states[|past|] && Working(g, toks, tab, state)
    requires c < |state.sets| && state.sets[c] == cs && Waits(tab, p, c)
    requires m <= |state.done[c]| && head == At(state.done[c], m)
    modifies state`first, state`work, state`todo, state`sets, state`repr, state.repr
    ensures Working(g, toks, tab, state) && fresh(state.repr - old(state.repr))
    ensures PastOk(g, toks, states, past) && state.sets[c] == cs
    ensures More(old(state.todo), state.todo)
    ensures CarriedAll(past, state.done, state.todo, p, state.done[c], m, |state.done[c]|)
  {
    var i := head;
    ghost var x := m;
    while i >= 0
      invariant x <= |state.done[c]| && i == At(state.done[c], x)
      invariant Working(g, toks, tab, state) && fresh(state.repr - old(state.repr))
      invariant PastOk(g, toks, states, past) && state.sets[c] == cs
      invariant More(old(state.todo), state.todo)
      invariant CarriedAll(past, state.done, state.todo, p, state.done[c], m, x)
      decreases |state.done[c]| - x
    {
      i := CompleteNext(g, toks, tab, states, state, c, cs, i, p, m, x, past);
      x := x + 1;
    }
  }

  /** One origin of c; returns the next one. */
  method CompleteNext(g: Grammar, ghost toks: Input, ghost tab: Tables, states: seq<State>, state: State, c: nat,
      cs: ConfSet, i: int,
      p: nat, ghost m: nat, ghost x: nat, ghost past: seq<Row>) returns (next: int)
    requires PastOk(g, toks, states, past) && state == states[|past|] && Working(g, toks, tab, state)
    requires c < |state.sets| && state.sets[c] == cs && Waits(tab, p, c)
    requires x < |state.done[c]| && i == state.done[c][x]
      && CarriedAll(past, state.done, state.todo, p, state.done[c], m, x)
    modifies state`first, state`work, state`todo, state`sets, state`repr, state.repr
    ensures Working(g, toks, tab, state) && fresh(state.repr - old(state.repr))
    ensures PastOk(g, toks, states, past) && state.sets[c] == cs && |state.sets| == old(|state.sets|)
    ensures More(old(state.todo), state.todo)
    ensures CarriedAll(past, state.done, state.todo, p, state.done[c], m, x + 1) && next == At(state.done[c], x + 1)
  {
    assert state.SetOk(c);
    ghost var t0 := state.todo;
    CompleteAt(g, toks, tab, states, state, c, i, p, past);
    MoreCarriedAll(past, state.done, t0, state.todo, p, state.done[c], m, x);
    assert state.SetOk(c);
    assert Link(cs.v, state.done[c], x);
    next := cs.v[i + 5];
  }

  method CompleteAt(g: Grammar, ghost toks: Input, ghost tab: Tables, states: seq<State>, state: State, ghost c: nat,
      i: nat, p: nat, ghost past: seq<Row>)
    requires PastOk(g, toks, states, past) && state == states[|past|] && Working(g, toks, tab, state)
    requires c < |state.sets| && i in state.done[c] && i <= state.num && Waits(tab, p, c)
    modifies state`first, state`work, state`todo, state`sets, state`repr, state.repr
    ensures Working(g, toks, tab, state) && fresh(state.repr - old(state.repr)) && PastOk(g, toks, states, past)
    ensures forall x :: 0 <= x < |state.sets| && old(state.sets[x]) != null ==> state.sets[x] == old(state.sets[x])
    ensures More(old(state.todo), state.todo) && Carried(past, state.done, state.todo, p, i)
  {
    var from := states[i];
    assert i < |past| ==> PastRow(g, toks, from, i, past[i]);
    assert from.SetOk(p);
    var other := from.sets[p];
    if other != null {
      StepPast(g, toks, tab, state, tab.steps[p], c, i, p, other, from.done[p], from.todo[p]);
    }
  }

  /** c is complete: everything that was waiting for it where it begins steps past it. */
  method ProcessComplete(g: Grammar, ghost toks: Input, tab: Tables, states: seq<State>, state: State, c: nat,
      cs: ConfSet, head: int,
      ghost m: nat, ghost past: seq<Row>)
    requires PastOk(g, toks, states, past) && state == states[|past|] && Working(g, toks, tab, state)
    requires c < |state.sets| && state.sets[c] == cs && tab.steps[c] < 0
    requires m <= |state.done[c]| && head == At(state.done[c], m)
    modifies state`first, state`work, state`todo, state`sets, state`repr, state.repr
    ensures Working(g, toks, tab, state) && fresh(state.repr - old(state.repr)) && PastOk(g, toks, states, past)
    ensures More(old(state.todo), state.todo)
    ensures forall p :: Waits(tab, p, c) ==>
      CarriedAll(past, state.done, state.todo, p, state.done[c], m, |state.done[c]|)
  {
    CompleteIsEnder(g, tab, c);
    var nt := tab.steps[c] + g.nts;
    var l := tab.predictors[nt];
    for n := 0 to |l|
      invariant Working(g, toks, tab, state) && fresh(state.repr - old(state.repr))
      invariant PastOk(g, toks, states, past) && state.sets[c] == cs && More(old(state.todo), state.todo)
      invariant forall b :: 0 <= b < n ==>
        CarriedAll(past, state.done, state.todo, l[b], state.done[c], m, |state.done[c]|)
    {
      ghost var t0 := state.todo;
      assert l[n] in l;
      PredictorIff(g, tab, nt, l[n]);
      CompleteFor(g, toks, tab, states, state, c, cs, head, l[n], m, past);
      forall b | 0 <= b < n ensures CarriedAll(past, state.done, state.todo, l[b], state.done[c], m, |state.done[c]|) {
        MoreCarriedAll(past, state.done, t0, state.todo, l[b], state.done[c], m, |state.done[c]|);
      }
    }
    forall p: nat | Waits(tab, p, c)
      ensures CarriedAll(past, state.done, state.todo, p, state.done[c], m, |state.done[c]|) {
      EnderStep(g, tab, tab.steps[p], c);
      PredictorIff(g, tab, nt, p);
      var b :| 0 <= b < |l| && l[b] == p;
    }
  }

  // ----- The worklist loop

  ghost function Total(row: Row): nat {
    if row == [] then 0 else |row[0]| + Total(row[1..])
  }

  lemma {:induction false} TotalUpdate(row: Row, c: nat, s: seq<nat>)
    requires c < |row|
    ensures Total(row[c := s]) == Total(row) - |row[c]| + |s|
  {
    if c == 0 {
      assert row[0 := s][1..] == row[1..];
    } else {
      assert row[c := s][1..] == row[1..][c - 1 := s];
      TotalUpdate(row[1..], c - 1, s);
    }
  }

  lemma {:induction false} TotalBound(row: Row, n: nat)
    requires forall c :: 0 <= c < |row| ==> |row[c]| <= n
    ensures Total(row) <= |row| * n
  {
    if row != [] {
      TotalBound(row[1..], n);
      assert |row| * n == |row[1..]| * n + n;
    }
  }

  lemma ProcessedBound(state: State)
    requires state.Valid()
    ensures Total(state.done) <= |state.done| * (state.num + 1)
  {
    forall c | 0 <= c < |state.done| ensures |state.done[c]| <= state.num + 1 {
      assert state.SetOk(c);
      DistinctLength(state.done[c], state.num);
    }
    TotalBound(state.done, state.num + 1);
  }

  ghost predicate AllProcessed(todo: Row) {
    forall c :: 0 <= c < |todo| ==> todo[c] == []
  }

  /** One round: takes a configuration and records its consequences. */
  method Round(g: Grammar, ghost toks: Input, tab: Tables, states: seq<State>, state: State, ghost past: seq<Row>)
    requires PastOk(g, toks, states, past) && state == states[|past|] && Working(g, toks, tab, state)
    requires Kept(g, toks, tab, past, state.done, state.todo) && state.first >= 0
    modifies state, state.repr
    ensures Working(g, toks, tab, state) && fresh(state.repr - old(state.repr)) && PastOk(g, toks, states, past)
    ensures Kept(g, toks, tab, past, state.done, state.todo)
    ensures Total(state.done) > Total(old(state.done)) && |state.done| == |old(state.done)|
    ensures forall x, i :: In(old(state.done), old(state.todo), x, i) ==> In(state.done, state.todo, x, i)
  {
    ghost var d0, t0 := state.done, state.todo;
    var c, cs, head := state.Pop();
    ghost var d1 := Processed(d0, t0, c);
    TotalUpdate(d0, c, d0[c] + t0[c]);
    PopSound(g, toks, d0, t0, c, |past|);
    assert PastOk(g, toks, states, past);
    if tab.steps[c] >= 0 {
      ProcessWaiting(g, toks, tab, state, c, cs, past);
    } else {
      ghost var m := |d0[c]|;
      ProcessComplete(g, toks, tab, states, state, c, cs, head, m, past);
      forall p: nat, k: nat | Waits(tab, p, c) && k in t0[c] ensures Carried(past, d1, state.todo, p, k) {
        var y :| 0 <= y < |t0[c]| && t0[c][y] == k;
        assert d1[c][m + y] == k;
      }
    }
    ProcessKeeps(g, toks, tab, past, d0, t0, c, state.todo);
    MoreIn(d1, t0[c := []], state.todo);
    forall x, i | In(d0, t0, x, i) ensures In(state.done, state.todo, x, i) {
      PopIn(d0, t0, c, x, i);
    }
  }

  /** forw: rounds until the worklist is empty. Each round processes an origin, and there are finitely many. */
  method Forw(g: Grammar, ghost toks: Input, tab: Tables, states: seq<State>, state: State, ghost past: seq<Row>)
    requires PastOk(g, toks, states, past) && state == states[|past|] && Working(g, toks, tab, state)
    requires Kept(g, toks, tab, past, state.done, state.todo)
    modifies state, state.repr
    ensures Working(g, toks, tab, state) && fresh(state.repr - old(state.repr)) && PastOk(g, toks, states, past)
    ensures Kept(g, toks, tab, past, state.done, state.todo) && AllProcessed(state.todo)
    ensures forall x, i :: In(old(state.done), old(state.todo), x, i) ==> In(state.done, state.todo, x, i)
  {
    ProcessedBound(state);
    while state.first >= 0
      invariant Working(g, toks, tab, state) && fresh(state.repr - old(state.repr)) && PastOk(g, toks, states, past)
      invariant Kept(g, toks, tab, past, state.done, state.todo)
      invariant forall x, i :: In(old(state.done), old(state.todo), x, i) ==> In(state.done, state.todo, x, i)
      invariant Total(state.done) <= |state.done| * (state.num + 1)
      decreases |state.done| * (state.num + 1) - Total(state.done)
    {
      Round(g, toks, tab, states, state, past);
      ProcessedBound(state);
    }
    forall c | 0 <= c < |state.todo| ensures state.todo[c] == [] {
      assert c !in state.work;
    }
  }
}
