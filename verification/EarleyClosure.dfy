/**
 What the worklist loop of the Earley parser keeps (benchmarks/earley-boyer.js:4115-4224),
 stated on the lists of origins: every recorded origin is an item, and everything that
 follows from processed origins is recorded. A chart closed in this sense holds exactly
 the items that can be reached from the goal.
 */
module EarleyClosure {
  import opened EarleyGrammar

  /** The origins of every configuration of one state. */
  type Row = seq<seq<nat>>

  ghost predicate Sound(g: Grammar, toks: Input, row: Row, j: nat) {
    forall c, i :: 0 <= c < |row| && i in row[c] ==> Item(g, toks, c, i, j)
  }

  /** Nothing is lost from one version of a row to the next. */
  ghost predicate More(t0: Row, t1: Row) {
    |t0| == |t1| && forall c, i :: 0 <= c < |t0| && i in t0[c] ==> i in t1[c]
  }

  /** Origin i of configuration c is processed or new. */
  ghost predicate In(done: Row, todo: Row, c: nat, i: nat) {
    c < |done| && c < |todo| && (i in done[c] || i in todo[c])
  }

  /** p is waiting for a nonterminal that e completes. */
  ghost predicate Waits(tab: Tables, p: nat, e: nat) {
    p < |tab.steps| && 0 <= tab.steps[p] < |tab.enders| && e in tab.enders[tab.steps[p]]
  }

  /** s begins a rule for the nonterminal that p is waiting for. */
  ghost predicate Begins(tab: Tables, p: nat, s: nat) {
    p < |tab.steps| && 0 <= tab.steps[p] < |tab.starters| && s in tab.starters[tab.steps[p]]
  }

  ghost predicate Predicted(tab: Tables, j: nat, done: Row, todo: Row) {
    forall p, s :: 0 <= p < |done| && done[p] != [] && Begins(tab, p, s) ==> In(done, todo, s, j)
  }

  /** The processed origins of state k; state j is the one being worked on. */
  ghost function RowAt(past: seq<Row>, done: Row, k: nat): Row {
    if k < |past| then past[k] else done
  }

  /** Every origin of p in state k is recorded for the configuration after p in the current state. */
  ghost predicate Carried(past: seq<Row>, done: Row, todo: Row, p: nat, k: nat) {
    forall o :: p < |RowAt(past, done, k)| && o in RowAt(past, done, k)[p] ==> In(done, todo, p + 1, o)
  }

  ghost predicate Completed(tab: Tables, past: seq<Row>, done: Row, todo: Row) {
    forall p: nat, e: nat, k: nat :: Waits(tab, p, e) && e < |done| && k <= |past| && k in done[e] ==>
      Carried(past, done, todo, p, k)
  }

  /** The invariant of the worklist loop in state |past|. */
  ghost predicate Kept(g: Grammar, toks: Input, tab: Tables, past: seq<Row>, done: Row, todo: Row) {
    && |done| == Confs(g) && |todo| == Confs(g)
    && Sound(g, toks, done, |past|) && Sound(g, toks, todo, |past|)
    && Predicted(tab, |past|, done, todo)
    && Completed(tab, past, done, todo)
  }

  // ----- Growing the new lists keeps everything

  lemma MoreIn(done: Row, t0: Row, t1: Row)
    requires More(t0, t1)
    ensures forall c, i :: In(done, t0, c, i) ==> In(done, t1, c, i)
  {
  }

  lemma MoreCarried(past: seq<Row>, done: Row, t0: Row, t1: Row)
    requires More(t0, t1)
    ensures forall p: nat, k: nat :: Carried(past, done, t0, p, k) ==> Carried(past, done, t1, p, k)
  {
    MoreIn(done, t0, t1);
    forall p: nat, k: nat | Carried(past, done, t0, p, k) ensures Carried(past, done, t1, p, k) {
      forall o | p < |RowAt(past, done, k)| && o in RowAt(past, done, k)[p] ensures In(done, t1, p + 1, o) {
        assert In(done, t0, p + 1, o);
      }
    }
  }

  /** The origins of p in each of the states listed from m up to x are carried over. */
  ghost predicate CarriedAll(past: seq<Row>, done: Row, todo: Row, p: nat, ks: seq<nat>, m: nat, x: nat) {
    m <= x <= |ks| && forall y :: m <= y < x ==> Carried(past, done, todo, p, ks[y])
  }

  lemma MoreCarriedAll(past: seq<Row>, done: Row, t0: Row, t1: Row, p: nat, ks: seq<nat>, m: nat, x: nat)
    requires More(t0, t1) && CarriedAll(past, done, t0, p, ks, m, x)
    ensures CarriedAll(past, done, t1, p, ks, m, x)
  {
    MoreCarried(past, done, t0, t1);
  }

  // ----- Taking a configuration off the worklist

  /** The rows after c's new origins have become processed. */
  ghost function Processed(done: Row, todo: Row, c: nat): Row
    requires c < |done| && c < |todo|
  {
    done[c := done[c] + todo[c]]
  }

  lemma PopIn(done: Row, todo: Row, c: nat, x: nat, i: nat)
    requires c < |done| && c < |todo|
    ensures In(Processed(done, todo, c), todo[c := []], x, i) <==> In(done, todo, x, i)
  {
  }

  lemma PopSound(g: Grammar, toks: Input, done: Row, todo: Row, c: nat, j: nat)
    requires c < |done| && c < |todo| && Sound(g, toks, done, j) && Sound(g, toks, todo, j)
    ensures Sound(g, toks, Processed(done, todo, c), j) && Sound(g, toks, todo[c := []], j)
  {
  }

  /**
   Taking c off the worklist and then growing the new lists until the consequences of c are
   recorded keeps the invariant. When c is waiting, they are the rules it predicts and, for
   every complete item that begins and ends here, the step past it; when c is complete, the
   step of everything that was waiting where c begins.
   */
  lemma ProcessKeeps(g: Grammar, toks: Input, tab: Tables, past: seq<Row>, done: Row, todo: Row, c: nat, t1: Row)
    requires TablesOf(g, tab) && Kept(g, toks, tab, past, done, todo) && c < |done|
    requires More(todo[c := []], t1) && Sound(g, toks, t1, |past|)
    requires var d1 := Processed(done, todo, c);
      if tab.steps[c] >= 0 then
        && (forall s :: Begins(tab, c, s) ==> In(d1, t1, s, |past|))
        && (forall e :: Waits(tab, c, e) && In(d1, t1, e, |past|) ==> Carried(past, d1, t1, c, |past|))
      else
        forall p: nat, k: nat :: Waits(tab, p, c) && k in todo[c] ==> Carried(past, d1, t1, p, k)
    ensures Kept(g, toks, tab, past, Processed(done, todo, c), t1)
  {
    var d1 := Processed(done, todo, c);
    PopSound(g, toks, done, todo, c, |past|);
    MoreIn(d1, todo[c := []], t1);
    forall x, i | In(done, todo, x, i) ensures In(d1, t1, x, i) {
      PopIn(done, todo, c, x, i);
    }
    forall p, s | 0 <= p < |d1| && d1[p] != [] && Begins(tab, p, s) ensures In(d1, t1, s, |past|) {
      if p != c {
        assert In(done, todo, s, |past|);
      }
    }
    forall p: nat, e: nat, k: nat | Waits(tab, p, e) && e < |d1| && k <= |past| && k in d1[e]
      ensures Carried(past, d1, t1, p, k) {
      ProcessCarries(g, toks, tab, past, done, todo, c, t1, p, e, k);
    }
  }

  lemma EnderStep(g: Grammar, tab: Tables, nt: nat, e: nat)
    requires TablesOf(g, tab) && nt < g.nts && e in tab.enders[nt]
    ensures e < Confs(g) && tab.steps[e] == nt - g.nts
  {
    assert IsEnder(g, |g.rules|, nt, e);
    if e == nt {
      BaseAtLeast(g, |g.rules|);
    } else {
      var r :| 0 <= r < |g.rules| && g.rules[r].head == nt && e == Base(g, r) + |g.rules[r].rhs|;
      StepOfConf(g, tab, e, r, |g.rules[r].rhs|);
    }
  }

  lemma ProcessCarries(g: Grammar, toks: Input, tab: Tables, past: seq<Row>, done: Row, todo: Row, c: nat, t1: Row,
      p: nat, e: nat, k: nat)
    requires TablesOf(g, tab) && Kept(g, toks, tab, past, done, todo) && c < |done|
    requires forall x, i :: In(done, todo, x, i) ==> In(Processed(done, todo, c), t1, x, i)
    requires var d1 := Processed(done, todo, c);
      if tab.steps[c] >= 0 then
        forall e :: Waits(tab, c, e) && In(d1, t1, e, |past|) ==> Carried(past, d1, t1, c, |past|)
      else
        forall p: nat, k: nat :: Waits(tab, p, c) && k in todo[c] ==> Carried(past, d1, t1, p, k)
    requires |t1| == |done|
    requires Waits(tab, p, e) && e < |done| && k <= |past| && k in Processed(done, todo, c)[e]
    ensures Carried(past, Processed(done, todo, c), t1, p, k)
  {
    var d1 := Processed(done, todo, c);
    EnderStep(g, tab, tab.steps[p], e);
    if e == c && k !in done[c] {
      assert k in todo[c];
    } else if p == c && k == |past| {
      assert In(d1, t1, e, |past|);
    } else {
      assert k in done[e];
      assert Carried(past, done, todo, p, k);
      assert p < |RowAt(past, d1, k)| ==> RowAt(past, d1, k)[p] == RowAt(past, done, k)[p];
    }
  }

  // ----- A finished chart

  /** The rows of a chart on which nothing is left to do. */
  ghost predicate Finished(g: Grammar, toks: Input, tab: Tables, chart: seq<Row>) {
    && TablesOf(g, tab) && |chart| == |toks| + 1
    && (forall j :: 0 <= j < |chart| ==> FinishedRow(g, toks, tab, chart, j))
    && (g.nts > 0 ==> forall s :: s in tab.starters[0] ==> s < |chart[0]| && 0 in chart[0][s])
    && (forall i, nt :: 0 <= i < |toks| && nt in toks[i] && nt < g.nts ==> nt < |chart[i + 1]| && i in chart[i + 1][nt])
  }

  ghost predicate FinishedRow(g: Grammar, toks: Input, tab: Tables, chart: seq<Row>, j: nat)
    requires j < |chart|
  {
    Kept(g, toks, tab, chart[..j], chart[j], seq(Confs(g), _ => []))
  }

  lemma FinishedPredicts(g: Grammar, toks: Input, tab: Tables, chart: seq<Row>, j: nat, p: nat, nt: nat, s: nat)
    requires Finished(g, toks, tab, chart) && j < |chart| && p < Confs(g) && nt < g.nts && tab.steps[p] == nt
      && s in tab.starters[nt]
    requires |chart[j]| == Confs(g) && chart[j][p] != []
    ensures s < |chart[j]| && j in chart[j][s]
  {
    assert FinishedRow(g, toks, tab, chart, j);
    assert Begins(tab, p, s);
    assert |chart[..j]| == j;
    assert In(chart[j], seq(Confs(g), _ => []), s, j);
  }

  lemma FinishedCarries(g: Grammar, toks: Input, tab: Tables, chart: seq<Row>, k: nat, j: nat, p: nat, nt: nat, e: nat,
      o: nat)
    requires Finished(g, toks, tab, chart) && k <= j < |chart| && p < Confs(g) && nt < g.nts && tab.steps[p] == nt
      && e in tab.enders[nt]
    requires e < Confs(g) && |chart[j]| == Confs(g) && |chart[k]| == Confs(g) && k in chart[j][e] && o in chart[k][p]
    ensures p + 1 < |chart[j]| && o in chart[j][p + 1]
  {
    assert FinishedRow(g, toks, tab, chart, j);
    var past, none := chart[..j], seq(Confs(g), _ => []);
    assert |past| == j && Waits(tab, p, e);
    assert Carried(past, chart[j], none, p, k);
    assert RowAt(past, chart[j], k) == chart[k];
    assert In(chart[j], none, p + 1, o);
  }

  lemma RowLength(g: Grammar, toks: Input, tab: Tables, chart: seq<Row>, j: nat)
    requires Finished(g, toks, tab, chart) && j < |chart|
    ensures |chart[j]| == Confs(g) && Sound(g, toks, chart[j], j)
  {
    assert FinishedRow(g, toks, tab, chart, j);
    assert |chart[..j]| == j;
  }

  lemma {:induction false} TreeForward(g: Grammar, toks: Input, t: Tree, nt: nat, i: nat, j: nat)
    requires IsTree(g, toks, t, nt, i, j)
    ensures i <= j
    decreases t
  {
    if t.Node? { PrefixForward(g, toks, t.body, t.rule, |g.rules[t.rule].rhs|, i, j); }
  }

  lemma {:induction false} PrefixForward(g: Grammar, toks: Input, p: Prefix, r: nat, d: nat, i: nat, j: nat)
    requires r < |g.rules| && d <= |g.rules[r].rhs| && IsPrefix(g, toks, p, r, d, i, j)
    ensures i <= j
    decreases p
  {
    if p.Then? {
      PrefixForward(g, toks, p.prev, r, d - 1, i, p.mid);
      TreeForward(g, toks, p.last, g.rules[r].rhs[d - 1], p.mid, j);
    }
  }

  /** Every rule for nt is begun in row i. */
  ghost predicate Expected(tab: Tables, chart: seq<Row>, nt: nat, i: nat) {
    nt < |tab.starters| && i < |chart| && forall s :: s in tab.starters[nt] ==> s < |chart[i]| && i in chart[i][s]
  }

  /** A parse of the first symbols of a rule that was begun in row i is recorded. */
  lemma {:induction false} PrefixRecorded(g: Grammar, toks: Input, tab: Tables, chart: seq<Row>, p: Prefix, r: nat,
      d: nat, i: nat, j: nat)
    requires Finished(g, toks, tab, chart) && j < |chart|
    requires r < |g.rules| && d <= |g.rules[r].rhs| && IsPrefix(g, toks, p, r, d, i, j)
    requires i < |chart| && Base(g, r) < |chart[i]| && i in chart[i][Base(g, r)]
    ensures Base(g, r) + d < |chart[j]| && i in chart[j][Base(g, r) + d]
    decreases p
  {
    if p.Then? {
      var k, c, nt := p.mid, Base(g, r) + d - 1, g.rules[r].rhs[d - 1];
      TreeForward(g, toks, p.last, nt, k, j);
      PrefixRecorded(g, toks, tab, chart, p.prev, r, d - 1, i, k);
      assert IsConf(g, c, r, d - 1);
      StepOfConf(g, tab, c, r, d - 1);
      RowLength(g, toks, tab, chart, k);
      RowLength(g, toks, tab, chart, j);
      assert g.RuleOk(g.rules[r]);
      forall s | s in tab.starters[nt] ensures s < |chart[k]| && k in chart[k][s] {
        FinishedPredicts(g, toks, tab, chart, k, c, nt, s);
      }
      var e := TreeRecorded(g, toks, tab, chart, p.last, nt, k, j);
      FinishedCarries(g, toks, tab, chart, k, j, c, nt, e, i);
    }
  }

  lemma {:induction false} TreeRecorded(g: Grammar, toks: Input, tab: Tables, chart: seq<Row>, t: Tree, nt: nat,
      i: nat, j: nat) returns (e: nat)
    requires Finished(g, toks, tab, chart) && j < |chart| && nt < g.nts
    requires IsTree(g, toks, t, nt, i, j) && Expected(tab, chart, nt, i)
    ensures e in tab.enders[nt] && e < |chart[j]| && i in chart[j][e]
    decreases t
  {
    match t
    case Token =>
      e := nt;
      assert IsEnder(g, |g.rules|, nt, e);
    case Node(r, body) =>
      var d := |g.rules[r].rhs|;
      e := Base(g, r) + d;
      assert IsEnder(g, |g.rules|, nt, e);
      assert IsStarter(g, |g.rules|, nt, Base(g, r));
      PrefixRecorded(g, toks, tab, chart, body, r, d, i, j);
  }

  /**
   In a finished chart, a nonterminal that is expected at i derives the tokens from i up to j
   exactly when one of its complete configurations has origin i in row j.
   */
  lemma ChartDecides(g: Grammar, toks: Input, tab: Tables, chart: seq<Row>, nt: nat, i: nat, j: nat)
    requires Finished(g, toks, tab, chart) && j < |chart| && nt < g.nts && Expected(tab, chart, nt, i)
    ensures Derives(g, toks, nt, i, j) <==> exists e :: e in tab.enders[nt] && e < |chart[j]| && i in chart[j][e]
  {
    if Derives(g, toks, nt, i, j) {
      var t :| IsTree(g, toks, t, nt, i, j);
      var e := TreeRecorded(g, toks, tab, chart, t, nt, i, j);
    }
    if e :| e in tab.enders[nt] && e < |chart[j]| && i in chart[j][e] {
      RowLength(g, toks, tab, chart, j);
      var t := EnderDerives(g, toks, tab, nt, e, i, j);
    }
  }
}
