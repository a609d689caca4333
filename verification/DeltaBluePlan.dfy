/**
 benchmarks/deltablue.js:434-437, 523-525, 648-676, 738-746, 773-778: extracting a plan from
 the dataflow graph and executing it. Variables and constraints are numbered. Only the marks
 change while a plan is made, and only the values while it is executed; the graph does not.
 */
module DeltaBluePlan {

  datatype Direction = NoDirection | Forward | Backward

  datatype Constraint =
    | Stay(v: nat, satisfied: bool)
    | Edit(v: nat, satisfied: bool)
    | Equality(v1: nat, v2: nat, direction: Direction)
  {
    predicate IsSatisfied() {
      if Equality? then direction != NoDirection else satisfied
    }

    function Output(): nat {
      if Equality? then (if direction == Forward then v2 else v1) else v
    }

    function Input(): nat
      requires Equality?
    {
      if direction == Forward then v1 else v2
    }
  }

  /**
   attached lists the constraints of each variable; determinedBy is -1 for a variable that no
   constraint determines.
   */
  datatype Graph = Graph(cs: seq<Constraint>, attached: seq<seq<nat>>, determinedBy: seq<int>, stay: seq<bool>) {
    predicate InRange(c: nat) {
      c < |cs| && match cs[c]
      case Equality(v1, v2, _) => v1 < |attached| && v2 < |attached|
      case Stay(v, _) => v < |attached|
      case Edit(v, _) => v < |attached|
    }

    /**
     Every satisfied constraint determines its output and nothing else, and is attached to the
     variables it mentions.
     */
    ghost predicate Valid() {
      && |determinedBy| == |attached| && |stay| == |attached|
      && (forall c :: 0 <= c < |cs| ==> InRange(c))
      && (forall c, v :: 0 <= c < |cs| && 0 <= v < |attached| && cs[c].IsSatisfied() ==>
        (determinedBy[v] == c <==> v == cs[c].Output()))
      && (forall c :: 0 <= c < |cs| && InRange(c) && cs[c].Equality? && cs[c].IsSatisfied() ==>
        c in attached[cs[c].Input()])
      && (forall v, c :: 0 <= v < |attached| && c in attached[v] ==> c < |cs| && Mentions(c, v))
    }

    predicate Mentions(c: nat, v: nat)
      requires c < |cs|
    {
      match cs[c]
      case Equality(v1, v2, _) => v == v1 || v == v2
      case Stay(u, _) => v == u
      case Edit(u, _) => v == u
    }
  }

  // ----- What a plan is

  /** Constraint c computes its output from v. */
  ghost predicate Consumes(g: Graph, c: nat, v: nat) {
    c < |g.cs| && g.cs[c].Equality? && g.cs[c].IsSatisfied() && g.cs[c].Input() == v && g.cs[c].Output() != v
  }

  ghost predicate Computes(g: Graph, plan: seq<nat>, v: nat) {
    exists k :: 0 <= k < |plan| && plan[k] < |g.cs| && g.cs[plan[k]].Output() == v
  }

  /** Constraint k is a source, or computes from what an earlier one has computed. */
  ghost predicate Follows(g: Graph, sources: seq<nat>, plan: seq<nat>, k: nat)
    requires k < |plan|
  {
    plan[k] in sources || exists j :: 0 <= j < k && plan[j] < |g.cs| && Consumes(g, plan[k], g.cs[plan[j]].Output())
  }

  ghost predicate DistinctOutputs(g: Graph, plan: seq<nat>) {
    && (forall k :: 0 <= k < |plan| ==> plan[k] < |g.cs| && g.cs[plan[k]].IsSatisfied())
    && (forall j, k :: 0 <= j < k < |plan| ==> g.cs[plan[j]].Output() != g.cs[plan[k]].Output())
  }

  ghost predicate Ordered(g: Graph, sources: seq<nat>, plan: seq<nat>) {
    DistinctOutputs(g, plan) && forall k :: 0 <= k < |plan| ==> Follows(g, sources, plan, k)
  }

  /** Whatever computes from something computed in the plan is in the plan, or still to be looked at. */
  ghost predicate Closed(g: Graph, sources: seq<nat>, plan: seq<nat>, todo: seq<nat>) {
    && (forall c :: c in sources ==> c in plan || c in todo)
    && (forall c, v :: Consumes(g, c, v) && Computes(g, plan, v) ==> c in plan || c in todo)
  }

  /** A plan for the sources: in order, with nothing missing. */
  ghost predicate IsPlan(g: Graph, sources: seq<nat>, plan: seq<nat>) {
    Ordered(g, sources, plan) && Closed(g, sources, plan, [])
  }

  /** Sources are satisfied edit constraints. */
  ghost predicate Sources(g: Graph, sources: seq<nat>) {
    forall c :: c in sources ==> c < |g.cs| && g.cs[c].Edit? && g.cs[c].IsSatisfied()
  }

  /**
   A plan holds nothing but the sources and what is downstream of them: it is in every set
   closed under "computes from".
   */
  lemma {:induction false} PlanLeast(g: Graph, sources: seq<nat>, plan: seq<nat>, s: set<nat>, k: nat)
    requires IsPlan(g, sources, plan) && k < |plan|
    requires forall c :: c in sources ==> c in s
    requires forall c, d :: d in s && d < |g.cs| && Consumes(g, c, g.cs[d].Output()) ==> c in s
    ensures plan[k] in s
  {
    assert Follows(g, sources, plan, k);
    if plan[k] !in sources {
      var j :| 0 <= j < k && plan[j] < |g.cs| && Consumes(g, plan[k], g.cs[plan[j]].Output());
      PlanLeast(g, sources, plan, s, j);
    }
  }

  // ----- Making a plan

  ghost predicate IsPending(g: Graph, sources: seq<nat>, plan: seq<nat>, c: nat) {
    && c < |g.cs| && g.cs[c].IsSatisfied()
    && (c in sources || (g.cs[c].Equality? && Consumes(g, c, g.cs[c].Input()) && Computes(g, plan, g.cs[c].Input())))
  }

  /** What is still to be looked at is a source, or computes from something computed already. */
  ghost predicate Pending(g: Graph, sources: seq<nat>, plan: seq<nat>, todo: seq<nat>) {
    forall c :: c in todo ==> IsPending(g, sources, plan, c)
  }

  /** Exactly the outputs of the plan are marked. */
  ghost predicate Marked(g: Graph, plan: seq<nat>, marks: seq<nat>, mark: nat) {
    |marks| == |g.attached| && forall v :: 0 <= v < |marks| ==> (marks[v] == mark <==> Computes(g, plan, v))
  }

  ghost predicate Planning(g: Graph, sources: seq<nat>, plan: seq<nat>, todo: seq<nat>, marks: seq<nat>, mark: nat) {
    && g.Valid() && Sources(g, sources)
    && Ordered(g, sources, plan) && Closed(g, sources, plan, todo) && Pending(g, sources, plan, todo)
    && Marked(g, plan, marks, mark)
  }

  /** Two satisfied constraints with one output are one constraint, because it is determined by both. */
  lemma OneDeterminer(g: Graph, c: nat, d: nat)
    requires g.Valid() && c < |g.cs| && d < |g.cs| && g.cs[c].IsSatisfied() && g.cs[d].IsSatisfied()
    requires g.cs[c].Output() == g.cs[d].Output()
    ensures c == d
  {
    var v := g.cs[c].Output();
    assert g.InRange(c);
    assert g.determinedBy[v] == c && g.determinedBy[v] == d;
  }

  /** A constraint taken off the list whose output is marked is in the plan already. */
  lemma MarkedIsPlanned(g: Graph, sources: seq<nat>, plan: seq<nat>, todo: seq<nat>, marks: seq<nat>, mark: nat, c: nat)
    requires Planning(g, sources, plan, todo, marks, mark) && c in todo && g.InRange(c)
      && marks[g.cs[c].Output()] == mark
    ensures c in plan
  {
    assert IsPending(g, sources, plan, c);
    assert Computes(g, plan, g.cs[c].Output());
    var k :| 0 <= k < |plan| && plan[k] < |g.cs| && g.cs[plan[k]].Output() == g.cs[c].Output();
    OneDeterminer(g, c, plan[k]);
  }

  /** What addConstraintsConsumingTo adds: the satisfied constraints of v other than the one that determines it. */
  ghost predicate Consuming(g: Graph, v: nat, added: seq<nat>)
    requires v < |g.attached| && |g.determinedBy| == |g.attached|
  {
    forall c :: c in added <==> c in g.attached[v] && c < |g.cs| && c != g.determinedBy[v] && g.cs[c].IsSatisfied()
  }

  /** Those are the ones that compute from v. */
  lemma ConsumingConsumes(g: Graph, v: nat, added: seq<nat>)
    requires g.Valid() && v < |g.attached| && Consuming(g, v, added)
    ensures forall c :: c in added <==> Consumes(g, c, v)
  {
    forall c: nat ensures c in added <==> Consumes(g, c, v) {
      if c in added {
        assert g.Mentions(c, v);
      }
      if Consumes(g, c, v) {
        assert g.InRange(c);
      }
    }
  }

  method AddConstraintsConsumingTo(g: Graph, v: nat) returns (added: seq<nat>)
    requires g.Valid() && v < |g.attached|
    ensures forall c :: c in added <==> Consumes(g, c, v)
  {
    var determining, cc := g.determinedBy[v], g.attached[v];
    added := [];
    for i := 0 to |cc|
      invariant forall c :: c in added <==> c in cc[..i] && c < |g.cs| && c != determining && g.cs[c].IsSatisfied()
    {
      var c := cc[i];
      assert c in cc;
      assert cc[..i + 1] == cc[..i] + [c];
      if c != determining && g.cs[c].IsSatisfied() { added := added + [c]; }
    }
    assert cc[..|cc|] == cc;
    ConsumingConsumes(g, v, added);
  }

  predicate InputsKnown(g: Graph, marks: seq<nat>, mark: nat, c: nat)
    requires g.InRange(c) && |marks| == |g.attached| && |g.stay| == |g.attached| && |g.determinedBy| == |g.attached|
  {
    if g.cs[c].Equality? then
      var i := g.cs[c].Input();
      marks[i] == mark || g.stay[i] || g.determinedBy[i] == -1
    else true
  }

  /** The test on the inputs never fails here: only sources and constraints with a marked input get on the list. */
  lemma PendingKnown(g: Graph, sources: seq<nat>, plan: seq<nat>, todo: seq<nat>, marks: seq<nat>, mark: nat, c: nat)
    requires Planning(g, sources, plan, todo, marks, mark) && c in todo
    ensures g.InRange(c) && InputsKnown(g, marks, mark, c)
  {
    assert IsPending(g, sources, plan, c) && g.InRange(c);
  }

  lemma ComputesMore(g: Graph, plan: seq<nat>, c: nat, v: nat)
    requires c < |g.cs|
    ensures Computes(g, plan + [c], v) <==> Computes(g, plan, v) || v == g.cs[c].Output()
  {
    var more := plan + [c];
    if Computes(g, plan, v) {
      var k :| 0 <= k < |plan| && plan[k] < |g.cs| && g.cs[plan[k]].Output() == v;
      assert more[k] == plan[k];
    }
    if v == g.cs[c].Output() {
      assert more[|plan|] == c;
    }
    if Computes(g, more, v) {
      var k :| 0 <= k < |more| && more[k] < |g.cs| && g.cs[more[k]].Output() == v;
      assert k < |plan| ==> more[k] == plan[k];
    }
  }

  lemma FollowsMore(g: Graph, sources: seq<nat>, plan: seq<nat>, c: nat, k: nat)
    requires k < |plan| && Follows(g, sources, plan, k)
    ensures Follows(g, sources, plan + [c], k)
  {
    var more := plan + [c];
    if plan[k] !in sources {
      var j :| 0 <= j < k && plan[j] < |g.cs| && Consumes(g, plan[k], g.cs[plan[j]].Output());
      assert more[j] == plan[j] && more[k] == plan[k];
    }
  }

  lemma AppendOrdered(g: Graph, sources: seq<nat>, plan: seq<nat>, c: nat)
    requires Ordered(g, sources, plan) && IsPending(g, sources, plan, c) && !Computes(g, plan, g.cs[c].Output())
    ensures Ordered(g, sources, plan + [c])
  {
    var more := plan + [c];
    forall k | 0 <= k < |more| ensures Follows(g, sources, more, k) {
      if k < |plan| {
        assert Follows(g, sources, plan, k);
        FollowsMore(g, sources, plan, c, k);
      } else if c !in sources {
        var j :| 0 <= j < |plan| && plan[j] < |g.cs| && g.cs[plan[j]].Output() == g.cs[c].Input();
        assert more[j] == plan[j] && Consumes(g, more[k], g.cs[more[j]].Output());
      }
    }
  }

  /** Putting c into the plan, marking its output and listing what computes from it. */
  lemma AppendPlanning(g: Graph, sources: seq<nat>, plan: seq<nat>, rest: seq<nat>, marks: seq<nat>, mark: nat, c: nat,
      added: seq<nat>)
    requires Planning(g, sources, plan, rest + [c], marks, mark) && g.InRange(c) && marks[g.cs[c].Output()] != mark
    requires forall d :: d in added <==> Consumes(g, d, g.cs[c].Output())
    ensures Planning(g, sources, plan + [c], rest + added, marks[g.cs[c].Output() := mark], mark)
  {
    var todo := rest + [c];
    var v := g.cs[c].Output();
    assert c in todo && IsPending(g, sources, plan, c);
    AppendOrdered(g, sources, plan, c);
    forall u: nat ensures Computes(g, plan + [c], u) <==> Computes(g, plan, u) || u == v {
      ComputesMore(g, plan, c, u);
    }
    forall d | d in rest + added ensures IsPending(g, sources, plan + [c], d) {
      if d in rest {
        assert d in todo && IsPending(g, sources, plan, d);
      } else {
        assert Consumes(g, d, v);
      }
    }
    forall d | d in sources ensures d in plan + [c] || d in rest + added {
      assert d in plan || d in todo;
    }
    forall d, u | Consumes(g, d, u) && Computes(g, plan + [c], u) ensures d in plan + [c] || d in rest + added {
      if u != v { assert Computes(g, plan, u) && (d in plan || d in todo); }
    }
  }

  lemma DropPlanning(g: Graph, sources: seq<nat>, plan: seq<nat>, rest: seq<nat>, marks: seq<nat>, mark: nat, c: nat)
    requires Planning(g, sources, plan, rest + [c], marks, mark) && c in plan
    ensures Planning(g, sources, plan, rest, marks, mark)
  {
    var todo := rest + [c];
    forall d | d in rest ensures IsPending(g, sources, plan, d) {
      assert d in todo;
    }
    forall d | d in todo && d !in rest ensures d in plan {
    }
  }

  // ----- Counting the variables that are not marked yet

  ghost function Unmarked(marks: seq<nat>, mark: nat): nat {
    if marks == [] then 0 else Unmarked(marks[1..], mark) + if marks[0] == mark then 0 else 1
  }

  lemma {:induction false} MarkOne(marks: seq<nat>, mark: nat, v: nat)
    requires v < |marks| && marks[v] != mark
    ensures Unmarked(marks[v := mark], mark) == Unmarked(marks, mark) - 1
  {
    if v == 0 {
      assert marks[0 := mark][1..] == marks[1..];
    } else {
      assert marks[v := mark][1..] == marks[1..][v - 1 := mark];
      MarkOne(marks[1..], mark, v - 1);
    }
  }

  // ----- The planner

  class Planner {
    var currentMark: nat
    var marks: seq<nat>
    var values: seq<int>

    /** No variable carries a mark that has not been given out. */
    ghost predicate Valid(g: Graph)
      reads this
    {
      |marks| == |g.attached| && |values| == |g.attached| && forall v :: 0 <= v < |marks| ==> marks[v] <= currentMark
    }

    /** The plan for the sources, and the marks of the variables it computes. */
    method MakePlan(g: Graph, sources: seq<nat>) returns (plan: seq<nat>)
      requires g.Valid() && Valid(g) && Sources(g, sources)
      modifies this`currentMark, this`marks
      ensures Valid(g) && currentMark == old(currentMark) + 1
      ensures IsPlan(g, sources, plan) && Marked(g, plan, marks, currentMark)
    {
      currentMark := currentMark + 1;
      var mark := currentMark;
      plan := [];
      var todo := sources;
      while |todo| > 0
        invariant currentMark == mark == old(currentMark) + 1
        invariant Valid(g) && Planning(g, sources, plan, todo, marks, mark)
        decreases Unmarked(marks, mark), |todo|
      {
        var c, rest := todo[|todo| - 1], todo[..|todo| - 1];
        assert todo == rest + [c];
        PendingKnown(g, sources, plan, todo, marks, mark, c);
        if marks[g.cs[c].Output()] != mark && InputsKnown(g, marks, mark, c) {
          var v := g.cs[c].Output();
          var added := AddConstraintsConsumingTo(g, v);
          AppendPlanning(g, sources, plan, rest, marks, mark, c, added);
          MarkOne(marks, mark, v);
          plan := plan + [c];
          marks := marks[v := mark];
          todo := rest + added;
        } else {
          MarkedIsPlanned(g, sources, plan, todo, marks, mark, c);
          DropPlanning(g, sources, plan, rest, marks, mark, c);
          todo := rest;
        }
      }
      assert todo == [];
    }

    /** Only the input constraints that are satisfied are sources. */
    method ExtractPlanFromConstraints(g: Graph, constraints: seq<nat>) returns (plan: seq<nat>, ghost sources: seq<nat>)
      requires g.Valid() && Valid(g) && forall c :: c in constraints ==> c < |g.cs|
      modifies this`currentMark, this`marks
      ensures Valid(g)
      ensures forall c :: c in sources <==> c in constraints && g.cs[c].Edit? && g.cs[c].IsSatisfied()
      ensures IsPlan(g, sources, plan)
    {
      var found: seq<nat> := [];
      for i := 0 to |constraints|
        invariant forall c :: c in found <==>
          c in constraints[..i] && c < |g.cs| && g.cs[c].Edit? && g.cs[c].IsSatisfied()
      {
        var c := constraints[i];
        assert c in constraints && constraints[..i + 1] == constraints[..i] + [c];
        if g.cs[c].Edit? && g.cs[c].IsSatisfied() { found := found + [c]; }
      }
      assert constraints[..|constraints|] == constraints;
      sources := found;
      plan := MakePlan(g, found);
    }

    /**
     Executes a plan, whatever the values are by then. Afterwards every equality in it holds,
     and a variable that no equality in it computes has kept its value.
     */
    method Execute(g: Graph, ghost sources: seq<nat>, plan: seq<nat>)
      requires g.Valid() && Valid(g) && Sources(g, sources) && IsPlan(g, sources, plan)
      modifies this`values
      ensures Valid(g)
      ensures forall k :: 0 <= k < |plan| && g.cs[plan[k]].Equality? ==> Holds(g, values, plan[k])
      ensures forall v :: 0 <= v < |values| && !Assigned(g, plan, |plan|, v) ==> values[v] == old(values)[v]
    {
      for i := 0 to |plan|
        invariant Valid(g)
        invariant forall k :: 0 <= k < i && g.cs[plan[k]].Equality? ==> Holds(g, values, plan[k])
        invariant forall v :: 0 <= v < |values| && !Assigned(g, plan, i, v) ==> values[v] == old(values)[v]
      {
        ExecuteConstraint(g, sources, plan, i);
        AssignedNext(g, plan, i);
      }
    }

    /** An equality copies its input to its output; edit and stay constraints do nothing. */
    method ExecuteConstraint(g: Graph, ghost sources: seq<nat>, plan: seq<nat>, i: nat)
      requires g.Valid() && Valid(g) && Sources(g, sources) && IsPlan(g, sources, plan) && i < |plan|
      requires forall k :: 0 <= k < i && g.cs[plan[k]].Equality? ==> Holds(g, values, plan[k])
      modifies this`values
      ensures Valid(g)
      ensures forall k :: 0 <= k <= i && g.cs[plan[k]].Equality? ==> Holds(g, values, plan[k])
      ensures forall v :: 0 <= v < |values| && !(g.cs[plan[i]].Equality? && g.cs[plan[i]].Output() == v) ==>
        values[v] == old(values)[v]
    {
      var c := plan[i];
      assert g.InRange(c);
      if g.cs[c].Equality? {
        ExecuteOne(g, sources, plan, values, i);
        values := values[g.cs[c].Output() := values[g.cs[c].Input()]];
      }
    }
  }

  ghost predicate Holds(g: Graph, values: seq<int>, c: nat) {
    && c < |g.cs| && g.cs[c].Equality? && g.cs[c].v1 < |values| && g.cs[c].v2 < |values|
    && values[g.cs[c].v1] == values[g.cs[c].v2]
  }

  ghost predicate Assigned(g: Graph, plan: seq<nat>, n: nat, v: nat)
    requires n <= |plan| && forall k :: 0 <= k < |plan| ==> plan[k] < |g.cs|
  {
    exists k :: 0 <= k < n && g.cs[plan[k]].Equality? && g.cs[plan[k]].Output() == v
  }

  lemma AssignedNext(g: Graph, plan: seq<nat>, n: nat)
    requires n < |plan| && forall k :: 0 <= k < |plan| ==> plan[k] < |g.cs|
    ensures forall v :: Assigned(g, plan, n + 1, v) <==>
      Assigned(g, plan, n, v) || (g.cs[plan[n]].Equality? && g.cs[plan[n]].Output() == v)
  {
    forall v: nat ensures Assigned(g, plan, n + 1, v) <==>
      Assigned(g, plan, n, v) || (g.cs[plan[n]].Equality? && g.cs[plan[n]].Output() == v) {
      if Assigned(g, plan, n, v) {
        var k :| 0 <= k < n && g.cs[plan[k]].Equality? && g.cs[plan[k]].Output() == v;
        assert k < n + 1;
      }
    }
  }

  /**
   Executing a constraint makes it hold, and does not disturb those before it: none of them
   reads or writes its output.
   */
  lemma ExecuteOne(g: Graph, sources: seq<nat>, plan: seq<nat>, values: seq<int>, i: nat)
    requires g.Valid() && |values| == |g.attached| && Sources(g, sources) && IsPlan(g, sources, plan)
    requires i < |plan| && g.cs[plan[i]].Equality? && g.InRange(plan[i])
    requires forall k :: 0 <= k < i && g.cs[plan[k]].Equality? ==> Holds(g, values, plan[k])
    ensures var c := g.cs[plan[i]];
      forall k :: 0 <= k <= i && g.cs[plan[k]].Equality? ==> Holds(g, values[c.Output() := values[c.Input()]], plan[k])
  {
    var c := g.cs[plan[i]];
    var values' := values[c.Output() := values[c.Input()]];
    forall k | 0 <= k <= i && g.cs[plan[k]].Equality? ensures Holds(g, values', plan[k]) {
      assert g.InRange(plan[k]);
      if k < i {
        assert Follows(g, sources, plan, k) && plan[k] !in sources;
        var j :| 0 <= j < k && plan[j] < |g.cs| && Consumes(g, plan[k], g.cs[plan[j]].Output());
        assert g.cs[plan[j]].Output() != c.Output() && g.cs[plan[k]].Output() != c.Output();
        assert Holds(g, values, plan[k]);
      }
    }
  }
}
