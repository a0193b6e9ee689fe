/** What the encoding means: plans run on states, models assign variables, and a model of the
    (corrected) formula decodes into a plan that reaches the goal. Also the two inputs on which
    the planner as written goes wrong. */
module Soundness {
  import opened Options
  import opened Bits
  import opened Planning
  import opened Indexer
  import opened Encoding
  import opened Facts

  // ---------------------------------------------------------------------------------------
  // Plans

  /** The state after executing `act` in `s`: delete effects removed, add effects added. */
  function Apply(act: Action, s: set<nat>): set<nat> {
    (s - Positions(act.effNeg)) + Positions(act.effPos)
  }

  /** `act` may run in `s`: its positive preconditions hold and its negative ones do not. */
  predicate Applicable(act: Action, s: set<nat>) {
    Positions(act.prePos) <= s && Positions(act.preNeg) !! s
  }

  /** The state after running `plan` from `s`, or `None` when some action is not applicable. */
  function Run(p: Problem, s: set<nat>, plan: seq<nat>): Option<set<nat>>
    requires Below(plan, |p.actions|)
  {
    if plan == [] then Some(s)
    else
      match Run(p, s, plan[..|plan| - 1])
      case None => None
      case Some(s') =>
        var act := p.actions[plan[|plan| - 1]];
        if Applicable(act, s') then Some(Apply(act, s')) else None
  }

  /** `plan` leads from the initial state to a state holding every goal fluent. */
  predicate Solves(p: Problem, plan: seq<nat>)
    requires Below(plan, |p.actions|)
  {
    var r := Run(p, Positions(p.init), plan);
    r.Some? && Positions(p.goal) <= r.value
  }

  lemma RunSnoc(p: Problem, s: set<nat>, plan: seq<nat>, a: nat)
    requires Below(plan, |p.actions|) && a < |p.actions|
    ensures Below(plan + [a], |p.actions|)
    ensures Run(p, s, plan + [a]) ==
      match Run(p, s, plan)
      case None => None
      case Some(s') => if Applicable(p.actions[a], s') then Some(Apply(p.actions[a], s')) else None
  {
    assert (plan + [a])[..|plan|] == plan;
  }

  // ---------------------------------------------------------------------------------------
  // Models

  function Abs(l: int): nat {
    if l < 0 then -l else l
  }

  /** Literal `l` is true in `model`, read as a full assignment that lists the literal of
      variable i+1 at index i (see `ModelOf`). */
  predicate Holds(model: seq<int>, l: int) {
    l != 0 && Abs(l) <= |model| && model[Abs(l) - 1] == l
  }

  predicate ClauseHolds(model: seq<int>, c: Clause) {
    exists i :: 0 <= i < |c| && Holds(model, c[i])
  }

  /** "The clause holds in `model`", as a clause predicate. */
  function Sat(model: seq<int>): Clause -> bool {
    c => ClauseHolds(model, c)
  }

  /** Every clause of `cnf` has a true literal. */
  predicate Satisfies(model: seq<int>, cnf: Cnf) {
    All(cnf, Sat(model))
  }

  /** `model` assigns variables 1..|model|, each to true or false. */
  predicate ModelOf(model: seq<int>) {
    forall i :: 0 <= i < |model| ==> model[i] == i + 1 || model[i] == -(i + 1)
  }

  /** A literal and its negation are never both true. */
  lemma HoldsNegation(model: seq<int>, v: int)
    ensures !(Holds(model, v) && Holds(model, -v))
  {
  }

  /** Within the variables it assigns, exactly one of a variable and its negation is true. */
  lemma HoldsOneOf(model: seq<int>, v: int)
    requires ModelOf(model) && 0 < v <= |model|
    ensures Holds(model, v) != Holds(model, -v)
  {
  }

  // ---------------------------------------------------------------------------------------
  // From the whole formula down to single clauses. Each lemma holds for any property `P` of
  // clauses; it is used with `P` = "the clause holds in the model".

  /** One unfolding of a family: `x`, which is `a + b`, splits into its two parts. */
  lemma Unfold(x: Cnf, a: Cnf, b: Cnf, P: Clause -> bool)
    requires x == a + b && All(x, P)
    ensures All(a, P) && All(b, P)
  {
    AllSplit(a, b, P);
  }

  /** A family built as `F(i) = F(i-1) + G(i-1)`: every part `G(j)` below `k` inherits a
      property of every clause of `F(k)`. */
  lemma Descend(F: nat -> Cnf, G: nat -> Cnf, k: nat, j: nat, P: Clause -> bool)
    requires j < k && All(F(k), P)
    requires forall i :: 0 < i <= k ==> F(i) == F(i - 1) + G(i - 1)
    ensures All(G(j), P)
  {
    var i := k;
    while i > j + 1
      invariant j < i <= k && All(F(i), P)
    {
      AllSplit(F(i - 1), G(i - 1), P);
      i := i - 1;
    }
    AllSplit(F(j), G(j), P);
  }

  lemma ActionClausesDescent(p: Problem, h: nat, t: nat, P: Clause -> bool)
    requires WellFormed(p) && t < h && All(ActionClauses(p, h), P)
    ensures All(ActionClausesStep(p, t, |p.actions|), P)
  {
    var F := (j: nat) => ActionClauses(p, j);
    var G := (j: nat) => ActionClausesStep(p, j, |p.actions|);
    Descend(F, G, h, t, P);
  }

  lemma StepUnfolds(p: Problem, t: nat)
    requires WellFormed(p)
    ensures forall i :: 0 < i <= |p.actions| ==>
      ActionClausesStep(p, t, i) == ActionClausesStep(p, t, i - 1) + ActionClausesAt(p, i - 1, t)
  {
    forall i | 0 < i <= |p.actions|
      ensures ActionClausesStep(p, t, i) == ActionClausesStep(p, t, i - 1) + ActionClausesAt(p, i - 1, t)
    {
      StepUnfold(p, t, i);
    }
  }

  lemma StepUnfold(p: Problem, t: nat, i: nat)
    requires WellFormed(p) && 0 < i <= |p.actions|
    ensures ActionClausesStep(p, t, i) == ActionClausesStep(p, t, i - 1) + ActionClausesAt(p, i - 1, t)
  {
  }

  lemma StepDescent(p: Problem, t: nat, a: nat, P: Clause -> bool)
    requires WellFormed(p) && a < |p.actions| && All(ActionClausesStep(p, t, |p.actions|), P)
    ensures All(ActionClausesAt(p, a, t), P)
  {
    var m := |p.actions|;
    var F := (j: nat) => if j <= m then ActionClausesStep(p, t, j) else [];
    var G := (j: nat) => if j < m then ActionClausesAt(p, j, t) else [];
    StepUnfolds(p, t);
    Descend(F, G, m, a, P);
  }

  lemma FrameUpToUnfold(p: Problem, h: nat, i: nat, complete: bool)
    requires 0 < i <= p.fluents
    ensures FrameUpTo(p, h, i, complete) == FrameUpTo(p, h, i - 1, complete) + FrameForFluent(p, i - 1, h, complete)
  {
  }

  lemma FrameUpToUnfolds(p: Problem, h: nat, complete: bool)
    ensures forall i :: 0 < i <= p.fluents ==>
      FrameUpTo(p, h, i, complete) == FrameUpTo(p, h, i - 1, complete) + FrameForFluent(p, i - 1, h, complete)
  {
    forall i | 0 < i <= p.fluents
      ensures FrameUpTo(p, h, i, complete) == FrameUpTo(p, h, i - 1, complete) + FrameForFluent(p, i - 1, h, complete)
    {
      FrameUpToUnfold(p, h, i, complete);
    }
  }

  lemma FrameUpToDescent(p: Problem, h: nat, f: nat, complete: bool, P: Clause -> bool)
    requires f < p.fluents && All(FrameUpTo(p, h, p.fluents, complete), P)
    ensures All(FrameForFluent(p, f, h, complete), P)
  {
    var n := p.fluents;
    var F := (j: nat) => if j <= n then FrameUpTo(p, h, j, complete) else [];
    var G := (j: nat) => if j < n then FrameForFluent(p, j, h, complete) else [];
    FrameUpToUnfolds(p, h, complete);
    Descend(F, G, n, f, P);
  }

  lemma FrameForFluentDescent(p: Problem, h: nat, f: nat, t: nat, complete: bool, P: Clause -> bool)
    requires f < p.fluents && t < h && All(FrameForFluent(p, f, h, complete), P)
    ensures All(FrameAt(p, f, t, complete), P)
  {
    var F := (j: nat) => FrameForFluent(p, f, j, complete);
    var G := (j: nat) => FrameAt(p, f, j, complete);
    Descend(F, G, h, t, P);
  }

  /** Both frame clauses of every fluent at every step are among the corrected axioms. */
  lemma CorrectedFrameDescent(p: Problem, h: nat, f: nat, t: nat, P: Clause -> bool)
    requires f < p.fluents && t < h && All(CorrectedFrameClauses(p, h), P)
    ensures P(FrameClause(p, f, t, true)) && P(FrameClause(p, f, t, false))
  {
    FrameUpToDescent(p, h, f, true, P);
    FrameForFluentDescent(p, h, f, t, true, P);
    var c := FrameAt(p, f, t, true);
    assert c[0] == FrameClause(p, f, t, true);
    assert c[1] == FrameClause(p, f, t, false);
  }

  /** Every clause of a formula is one of its clauses. */
  lemma AllMembers(x: Cnf)
    ensures All(x, c => c in x)
  {
  }

  /** As written, a fluent below N at a step below the horizon that some action adds
      (deletes) does get its clause about becoming true (false): the converse of
      `Facts.FrameClausesShape`. */
  lemma FrameClausesPresent(p: Problem, h: nat, f: nat, t: nat, positive: bool)
    requires f < p.fluents && t < h && |Effectors(p, f, |p.actions|, positive)| != 0
    ensures FrameClause(p, f, t, positive) in FrameClauses(p, h)
  {
    var P := c => c in FrameClauses(p, h);
    AllMembers(FrameClauses(p, h));
    FrameUpToDescent(p, h, f, false, P);
    FrameForFluentDescent(p, h, f, t, false, P);
    var c := FrameAt(p, f, t, false);
    assert FrameClause(p, f, t, positive) in c;
    AllIn(c, P, FrameClause(p, f, t, positive));
  }

  /** Every implication of every action at every step below the horizon is a clause of
      `encodeActions`: the converse of `ActionClausesOnly`. */
  lemma ActionClausePresent(p: Problem, h: nat, a: nat, t: nat, i: nat, f: nat, c: Clause)
    requires WellFormed(p) && a < |p.actions| && t < h && i < 4 && PartClause(p, a, t, i, f, c)
    ensures c in ActionClauses(p, h)
  {
    var P := x => x in ActionClauses(p, h);
    AllMembers(ActionClauses(p, h));
    ActionClausesDescent(p, h, t, P);
    StepDescent(p, t, a, P);
    PartClauseMember(p, a, t, i, f, c);
    PartIn(p, a, t, i, c);
    AllIn(ActionClausesAt(p, a, t), P, c);
  }

  /** The converse of `Descend`: a family built as `F(i) = F(i-1) + G(i-1)` from `F(0) = []`
      has a property when every part `G(j)` below `k` has it. */
  lemma Ascend(F: nat -> Cnf, G: nat -> Cnf, k: nat, P: Clause -> bool)
    requires F(0) == []
    requires forall i :: 0 < i <= k ==> F(i) == F(i - 1) + G(i - 1)
    requires forall j :: 0 <= j < k ==> All(G(j), P)
    ensures All(F(k), P)
  {
    var i := 0;
    while i < k
      invariant i <= k && All(F(i), P)
    {
      AllConcat(F(i), G(i), P);
      i := i + 1;
    }
  }

  lemma StepAscent(p: Problem, t: nat, h: nat)
    requires WellFormed(p) && t < h
    ensures All(ActionClausesStep(p, t, |p.actions|), IsAction(p, h))
  {
    var m, P := |p.actions|, IsAction(p, h);
    forall a | 0 <= a < m
      ensures All(ActionClausesAt(p, a, t), P)
    {
      AtShaped(p, a, t, h);
    }
    var F := (j: nat) => if j <= m then ActionClausesStep(p, t, j) else [];
    var G := (j: nat) => if j < m then ActionClausesAt(p, j, t) else [];
    StepUnfolds(p, t);
    Ascend(F, G, m, P);
  }

  lemma ActionClausesAscent(p: Problem, h: nat)
    requires WellFormed(p)
    ensures All(ActionClauses(p, h), IsAction(p, h))
  {
    var m, P := |p.actions|, IsAction(p, h);
    forall t | 0 <= t < h
      ensures All(ActionClausesStep(p, t, m), P)
    {
      StepAscent(p, t, h);
    }
    var F := (j: nat) => ActionClauses(p, j);
    var G := (j: nat) => ActionClausesStep(p, j, m);
    Ascend(F, G, h, P);
  }

  /** Every clause of `encodeActions` is an implication of some action below M at some step
      below the horizon, for a fluent of one of its four vectors. */
  lemma ActionClausesOnly(p: Problem, h: nat, c: Clause)
    requires WellFormed(p) && c in ActionClauses(p, h)
    ensures exists a: nat, t: nat, i: nat, f: nat :: a < |p.actions| && t < h && i < 4 && PartClause(p, a, t, i, f, c)
  {
    ActionClausesAscent(p, h);
    AllIn(ActionClauses(p, h), IsAction(p, h), c);
  }

  lemma ExclusionUpToSplit(p: Problem, h: nat, k: nat, P: Clause -> bool)
    requires 0 < k <= |p.actions| && All(ExclusionUpTo(p, h, k), P)
    ensures All(ExclusionUpTo(p, h, k - 1), P) && All(ExclusionRow(p, h, k - 1, k - 1), P)
  {
    Unfold(ExclusionUpTo(p, h, k), ExclusionUpTo(p, h, k - 1), ExclusionRow(p, h, k - 1, k - 1), P);
  }

  lemma ExclusionUpToDescent(p: Problem, h: nat, i: nat, P: Clause -> bool)
    requires i < |p.actions| && All(ExclusionClauses(p, h), P)
    ensures All(ExclusionRow(p, h, i, i), P)
  {
    ExclusionUpToBelow(p, h, |p.actions|, i, P);
  }

  lemma {:induction false} ExclusionUpToBelow(p: Problem, h: nat, k: nat, i: nat, P: Clause -> bool)
    requires i < k <= |p.actions| && All(ExclusionUpTo(p, h, k), P)
    ensures All(ExclusionRow(p, h, i, i), P)
  {
    ExclusionUpToSplit(p, h, k, P);
    if i < k - 1 {
      ExclusionUpToBelow(p, h, k - 1, i, P);
    }
  }

  lemma ExclusionRowSplit(p: Problem, h: nat, i: nat, k: nat, P: Clause -> bool)
    requires 0 < k <= i < |p.actions| && All(ExclusionRow(p, h, i, k), P)
    ensures All(ExclusionRow(p, h, i, k - 1), P) && All(ExclusionPair(p, i, k - 1, h), P)
  {
    Unfold(ExclusionRow(p, h, i, k), ExclusionRow(p, h, i, k - 1), ExclusionPair(p, i, k - 1, h), P);
  }

  lemma ExclusionRowDescent(p: Problem, h: nat, i: nat, j: nat, P: Clause -> bool)
    requires j < i < |p.actions| && All(ExclusionRow(p, h, i, i), P)
    ensures All(ExclusionPair(p, i, j, h), P)
  {
    ExclusionRowBelow(p, h, i, i, j, P);
  }

  lemma {:induction false} ExclusionRowBelow(p: Problem, h: nat, i: nat, k: nat, j: nat, P: Clause -> bool)
    requires j < k <= i < |p.actions| && All(ExclusionRow(p, h, i, k), P)
    ensures All(ExclusionPair(p, i, j, h), P)
  {
    ExclusionRowSplit(p, h, i, k, P);
    if j < k - 1 {
      ExclusionRowBelow(p, h, i, k - 1, j, P);
    }
  }

  /** The clause excluding actions `i` and `j` at step `t`. */
  function Exclusion(p: Problem, i: nat, j: nat, t: nat): Clause
    requires i < |p.actions| && j < |p.actions|
  {
    [-ActionVar(p.fluents, |p.actions|, i, t), -ActionVar(p.fluents, |p.actions|, j, t)]
  }

  lemma ExclusionPairSplit(p: Problem, i: nat, j: nat, k: nat, P: Clause -> bool)
    requires i < |p.actions| && j < |p.actions| && 0 < k && All(ExclusionPair(p, i, j, k), P)
    ensures All(ExclusionPair(p, i, j, k - 1), P) && P(Exclusion(p, i, j, k - 1))
  {
    var last := [Exclusion(p, i, j, k - 1)];
    Unfold(ExclusionPair(p, i, j, k), ExclusionPair(p, i, j, k - 1), last, P);
    assert last[0] == Exclusion(p, i, j, k - 1);
  }

  lemma {:induction false} ExclusionPairDescent(p: Problem, h: nat, i: nat, j: nat, t: nat, P: Clause -> bool)
    requires i < |p.actions| && j < |p.actions| && t < h && All(ExclusionPair(p, i, j, h), P)
    ensures P(Exclusion(p, i, j, t))
  {
    ExclusionPairSplit(p, i, j, h, P);
    if t < h - 1 {
      ExclusionPairDescent(p, h - 1, i, j, t, P);
    }
  }

  /** The exclusion clause of every pair of distinct actions at every step. */
  lemma ExclusionDescent(p: Problem, h: nat, i: nat, j: nat, t: nat, P: Clause -> bool)
    requires j < i < |p.actions| && t < h && All(ExclusionClauses(p, h), P)
    ensures P(Exclusion(p, i, j, t))
  {
    ExclusionUpToDescent(p, h, i, P);
    ExclusionRowDescent(p, h, i, j, P);
    ExclusionPairDescent(p, h, i, j, t, P);
  }

  // ---------------------------------------------------------------------------------------
  // Reading a model as a sequence of states and actions

  /** The state a model assigns to layer `t`: the fluents whose variable is true there. */
  function Layer(p: Problem, model: seq<int>, t: nat): set<nat> {
    set f: nat | f < p.fluents && Holds(model, FluentVar(p.fluents, |p.actions|, f, t))
  }

  /** The actions among 0..k-1 whose variable at step `t` is true, in action order. */
  function ActionsAt(p: Problem, model: seq<int>, t: nat, k: nat): seq<nat>
    requires k <= |p.actions|
  {
    if k == 0 then []
    else
      var runs := Holds(model, ActionVar(p.fluents, |p.actions|, k - 1, t));
      ActionsAt(p, model, t, k - 1) + (if runs then [k - 1] else [])
  }

  /** An action whose variable at step `t` is true is among the actions of that step. */
  lemma RunsAt(p: Problem, model: seq<int>, t: nat, a: nat)
    requires a < |p.actions| && Holds(model, ActionVar(p.fluents, |p.actions|, a, t))
    ensures a in ActionsAt(p, model, t, |p.actions|)
  {
    ActionsAtMembers(p, model, t, |p.actions|);
  }

  lemma {:induction false} ActionsAtMembers(p: Problem, model: seq<int>, t: nat, k: nat)
    requires k <= |p.actions|
    ensures Below(ActionsAt(p, model, t, k), k)
    ensures forall a: nat :: a in ActionsAt(p, model, t, k) <==> a < k && Holds(model, ActionVar(p.fluents, |p.actions|, a, t))
    ensures Increasing(ActionsAt(p, model, t, k))
  {
    if k > 0 {
      ActionsAtMembers(p, model, t, k - 1);
    }
  }

  /** No action variable of step `h` or later is true: the model says nothing past the
      horizon that the decoder could pick up. */
  ghost predicate NoActionAfter(p: Problem, model: seq<int>, h: nat) {
    forall a: nat, t: nat :: a < |p.actions| && h <= t ==> !Holds(model, ActionVar(p.fluents, |p.actions|, a, t))
  }

  /** The model assigns every fluent of layers 0..h and every action of steps 0..h-1. */
  predicate Covers(p: Problem, model: seq<int>, h: nat) {
    (p.fluents + |p.actions|) * h + p.fluents <= |model|
  }

  lemma MulSucc(k: nat, t: nat)
    ensures k * (t + 1) == k * t + k && k * t <= k * (t + 1)
  {
  }

  /** Block `t - 1` starts `k` variables before block `t`. */
  lemma PreviousBlock(k: nat, t: nat, b: nat) returns (c: nat)
    requires b == k * t && t > 0
    ensures c == k * (t - 1) && c + k == b
  {
    MulSucc(k, t - 1);
    c := k * (t - 1);
  }

  lemma MulMono(k: nat, a: nat, b: nat)
    requires a <= b
    ensures k * a <= k * b
  {
  }

  lemma CoveredFluent(p: Problem, model: seq<int>, h: nat, f: nat, t: nat)
    requires Covers(p, model, h) && f < p.fluents && t <= h
    ensures 0 < FluentVar(p.fluents, |p.actions|, f, t) <= |model|
  {
    MulMono(p.fluents + |p.actions|, t, h);
  }

  lemma CoveredAction(p: Problem, model: seq<int>, h: nat, a: nat, t: nat)
    requires Covers(p, model, h) && a < |p.actions| && t < h
    ensures 0 < ActionVar(p.fluents, |p.actions|, a, t) <= |model|
  {
    MulMono(p.fluents + |p.actions|, t + 1, h);
  }

  /** A literal of a variable the model assigns is false exactly when its negation is true. */
  lemma LitOneOf(model: seq<int>, v: int, positive: bool)
    requires ModelOf(model) && 0 < v <= |model|
    ensures Holds(model, Lit(v, positive)) != Holds(model, Lit(v, !positive))
  {
  }

  // ---------------------------------------------------------------------------------------
  // What each family of clauses tells about the model

  /** Layer 0 is the initial state. */
  lemma InitLayer(p: Problem, model: seq<int>, order: seq<nat>)
    requires WellFormed(p) && IsNegOrder(p, order) && ModelOf(model)
    requires Satisfies(model, InitClauses(p, order))
    ensures Layer(p, model, 0) == Positions(p.init)
  {
    var n, m := p.fluents, |p.actions|;
    forall f: nat | f < n ensures f in Layer(p, model, 0) <==> f in Positions(p.init) {
      InitClausesCover(p, order, f);
      var v := FluentVar(n, m, f, 0);
      if Bit(p.init, f) {
        AllIn(InitClauses(p, order), Sat(model), [v]);
        assert [v][0] == v;
      } else {
        AllIn(InitClauses(p, order), Sat(model), [-v]);
        assert [-v][0] == -v;
        HoldsNegation(model, v);
      }
    }
  }

  /** Every goal fluent is true at layer `h`. */
  lemma GoalLayer(p: Problem, model: seq<int>, h: nat)
    requires WellFormed(p) && Satisfies(model, GoalClauses(p, h))
    ensures Positions(p.goal) <= Layer(p, model, h)
  {
    var n, m := p.fluents, |p.actions|;
    GoalClausesMembers(p, h);
    forall f | f in Positions(p.goal) ensures f in Layer(p, model, h) {
      var c := [FluentVar(n, m, f, h)];
      assert GoalUnit(p, h, f, c);
      AllIn(GoalClauses(p, h), Sat(model), c);
      assert c[0] == FluentVar(n, m, f, h);
    }
  }

  /** Two actions never both run at one step. */
  lemma AtMostOneAction(p: Problem, model: seq<int>, h: nat, t: nat)
    requires ModelOf(model) && t < h && Satisfies(model, ExclusionClauses(p, h))
    ensures |ActionsAt(p, model, t, |p.actions|)| <= 1
  {
    var n, m := p.fluents, |p.actions|;
    var acts := ActionsAt(p, model, t, m);
    ActionsAtMembers(p, model, t, m);
    if |acts| >= 2 {
      var j, i := acts[0], acts[1];
      assert acts[0] in acts && acts[1] in acts;
      ExclusionDescent(p, h, i, j, t, Sat(model));
      var c := Exclusion(p, i, j, t);
      var k :| 0 <= k < |c| && Holds(model, c[k]);
      HoldsNegation(model, ActionVar(n, m, i, t));
      HoldsNegation(model, ActionVar(n, m, j, t));
    }
  }

  /** The implication of part `i` of action `a` for fluent `f` is one of its clauses. */
  lemma PartClauseIn(p: Problem, a: nat, t: nat, i: nat, f: nat)
    requires WellFormed(p) && a < |p.actions| && i < 4 && f < p.fluents
    requires Bit(PartVector(p.actions[a], i), f)
    ensures [-ActionVar(p.fluents, |p.actions|, a, t),
             Lit(FluentVar(p.fluents, |p.actions|, f, if i < 2 then t else t + 1), i % 2 == 0)]
            in ActionClausesAt(p, a, t)
  {
    var n, m := p.fluents, |p.actions|;
    var c := [-ActionVar(n, m, a, t), Lit(FluentVar(n, m, f, if i < 2 then t else t + 1), i % 2 == 0)];
    assert PartClause(p, a, t, i, f, c);
    PartMembers(p, a, t, i);
    assert c in ActionPart(p, a, t, i);
  }

  /** Every clause of an action at a step below the horizon holds. */
  lemma ActionAtHolds(p: Problem, model: seq<int>, h: nat, a: nat, t: nat)
    requires WellFormed(p) && a < |p.actions| && t < h
    requires Satisfies(model, ActionClauses(p, h))
    ensures Satisfies(model, ActionClausesAt(p, a, t))
  {
    ActionClausesDescent(p, h, t, Sat(model));
    StepDescent(p, t, a, Sat(model));
  }

  /** An action that runs at step `t` has its preconditions at layer `t` and its effects at
      layer `t + 1`: part `i` of its clauses, for each fluent `f` of that part. */
  lemma ActionForces(p: Problem, model: seq<int>, h: nat, a: nat, t: nat, i: nat, f: nat)
    requires WellFormed(p) && ModelOf(model) && a < |p.actions| && t < h && i < 4 && f < p.fluents
    requires Bit(PartVector(p.actions[a], i), f)
    requires Satisfies(model, ActionClauses(p, h))
    requires Holds(model, ActionVar(p.fluents, |p.actions|, a, t))
    ensures Holds(model, Lit(FluentVar(p.fluents, |p.actions|, f, if i < 2 then t else t + 1), i % 2 == 0))
  {
    var n, m := p.fluents, |p.actions|;
    var av := ActionVar(n, m, a, t);
    var lit := Lit(FluentVar(n, m, f, if i < 2 then t else t + 1), i % 2 == 0);
    ActionAtHolds(p, model, h, a, t);
    PartClauseIn(p, a, t, i, f);
    AllIn(ActionClausesAt(p, a, t), Sat(model), [-av, lit]);
    Implication(model, av, lit);
  }

  /** Modus ponens for the two-literal clause `[-v, l]`. */
  lemma Implication(model: seq<int>, v: int, l: int)
    requires ClauseHolds(model, [-v, l]) && Holds(model, v)
    ensures Holds(model, l)
  {
    HoldsNegation(model, v);
    var k :| 0 <= k < 2 && Holds(model, [-v, l][k]);
  }

  /** Both frame clauses of every fluent hold at every step below the horizon. */
  lemma FrameHolds(p: Problem, model: seq<int>, h: nat, f: nat, t: nat, positive: bool)
    requires f < p.fluents && t < h && Satisfies(model, CorrectedFrameClauses(p, h))
    ensures ClauseHolds(model, FrameClause(p, f, t, positive))
  {
    CorrectedFrameDescent(p, h, f, t, Sat(model));
  }

  /** A frame clause whose two fluent literals are false is made true by an action variable
      of one of the fluent's effectors. */
  lemma FrameWitness(p: Problem, model: seq<int>, f: nat, t: nat, positive: bool) returns (a: nat)
    requires f < p.fluents && ClauseHolds(model, FrameClause(p, f, t, positive))
    requires !Holds(model, Lit(FluentVar(p.fluents, |p.actions|, f, t), positive))
    requires !Holds(model, Lit(FluentVar(p.fluents, |p.actions|, f, t + 1), !positive))
    ensures a < |p.actions| && Bit(Effect(p.actions[a], positive), f)
    ensures Holds(model, ActionVar(p.fluents, |p.actions|, a, t))
  {
    var n, m := p.fluents, |p.actions|;
    var c, e := FrameClause(p, f, t, positive), Effectors(p, f, m, positive);
    FrameClauseShape(p, f, t, positive);
    var k :| 0 <= k < |c| && Holds(model, c[k]);
    a := e[k - 2];
    assert a in e;
    EffectorsMembers(p, f, m, positive);
  }

  /** A fluent that changes value between layers `t` and `t + 1` was changed by an action that
      runs at step `t` and has the new value as an effect. */
  lemma FrameForces(p: Problem, model: seq<int>, h: nat, f: nat, t: nat, positive: bool) returns (a: nat)
    requires ModelOf(model) && f < p.fluents && t < h && Covers(p, model, h)
    requires Satisfies(model, CorrectedFrameClauses(p, h))
    requires Holds(model, Lit(FluentVar(p.fluents, |p.actions|, f, t + 1), positive))
    requires !Holds(model, Lit(FluentVar(p.fluents, |p.actions|, f, t), positive))
    ensures a < |p.actions| && a in ActionsAt(p, model, t, |p.actions|) && Bit(Effect(p.actions[a], positive), f)
  {
    var v := FluentVar(p.fluents, |p.actions|, f, t + 1);
    FrameHolds(p, model, h, f, t, positive);
    CoveredFluent(p, model, h, f, t + 1);
    LitOneOf(model, v, positive);
    a := FrameWitness(p, model, f, t, positive);
    RunsAt(p, model, t, a);
  }

  // ---------------------------------------------------------------------------------------
  // One step of the model is one step of the plan

  /** A fluent no running action touches keeps its value from layer `t` to layer `t + 1`. */
  lemma Unchanged(p: Problem, model: seq<int>, h: nat, t: nat, f: nat)
    requires ModelOf(model) && f < p.fluents && t < h && Covers(p, model, h)
    requires Satisfies(model, CorrectedFrameClauses(p, h))
    requires forall b: nat :: b in ActionsAt(p, model, t, |p.actions|) ==>
      b < |p.actions| && !Bit(Effect(p.actions[b], true), f) && !Bit(Effect(p.actions[b], false), f)
    ensures f in Layer(p, model, t + 1) <==> f in Layer(p, model, t)
  {
    var n, m := p.fluents, |p.actions|;
    var v, v' := FluentVar(n, m, f, t), FluentVar(n, m, f, t + 1);
    CoveredFluent(p, model, h, f, t);
    CoveredFluent(p, model, h, f, t + 1);
    HoldsOneOf(model, v);
    HoldsOneOf(model, v');
    if Holds(model, v') && !Holds(model, v) {
      var b := FrameForces(p, model, h, f, t, true);
    } else if Holds(model, v) && !Holds(model, v') {
      var b := FrameForces(p, model, h, f, t, false);
    }
  }

  /** With no action at step `t`, layer `t + 1` equals layer `t`. */
  lemma Persist(p: Problem, model: seq<int>, h: nat, t: nat)
    requires ModelOf(model) && t < h && Covers(p, model, h)
    requires Satisfies(model, CorrectedFrameClauses(p, h))
    requires ActionsAt(p, model, t, |p.actions|) == []
    ensures Layer(p, model, t + 1) == Layer(p, model, t)
  {
    forall f: nat | f < p.fluents ensures f in Layer(p, model, t + 1) <==> f in Layer(p, model, t) {
      Unchanged(p, model, h, t, f);
    }
  }

  /** The action that runs at step `t` is applicable in layer `t`. */
  lemma Preconditions(p: Problem, model: seq<int>, h: nat, t: nat, a: nat)
    requires WellFormed(p) && ModelOf(model) && a < |p.actions| && t < h
    requires Satisfies(model, ActionClauses(p, h))
    requires Holds(model, ActionVar(p.fluents, |p.actions|, a, t))
    ensures Applicable(p.actions[a], Layer(p, model, t))
  {
    var n, m, act := p.fluents, |p.actions|, p.actions[a];
    assert ActionWithin(act, n);
    forall f | f in Positions(act.prePos) ensures f in Layer(p, model, t) {
      ActionForces(p, model, h, a, t, 0, f);
    }
    forall f | f in Positions(act.preNeg) ensures f !in Layer(p, model, t) {
      ActionForces(p, model, h, a, t, 1, f);
      HoldsNegation(model, FluentVar(n, m, f, t));
    }
  }

  /** The only action that runs at step `t` decides the value of fluent `f` at layer `t + 1`. */
  lemma EffectOn(p: Problem, model: seq<int>, h: nat, t: nat, a: nat, f: nat)
    requires WellFormed(p) && ModelOf(model) && t < h && Covers(p, model, h) && f < p.fluents
    requires Satisfies(model, ActionClauses(p, h)) && Satisfies(model, CorrectedFrameClauses(p, h))
    requires a < |p.actions| && ActionsAt(p, model, t, |p.actions|) == [a]
    requires Holds(model, ActionVar(p.fluents, |p.actions|, a, t))
    ensures f in Layer(p, model, t + 1) <==> f in Apply(p.actions[a], Layer(p, model, t))
  {
    var n, m, act := p.fluents, |p.actions|, p.actions[a];
    var s, s' := Layer(p, model, t), Layer(p, model, t + 1);
    var v' := FluentVar(n, m, f, t + 1);
    if f in Positions(act.effPos) {
      ActionForces(p, model, h, a, t, 2, f);
      assert Holds(model, v');
      assert f in s' && f in Apply(act, s);
    } else if f in Positions(act.effNeg) {
      ActionForces(p, model, h, a, t, 3, f);
      HoldsNegation(model, v');
      assert f !in s' && f !in Apply(act, s);
    } else {
      Unchanged(p, model, h, t, f);
      assert f in Apply(act, s) <==> f in s;
    }
  }

  /** The only action that runs at step `t` turns layer `t` into layer `t + 1`. */
  lemma Effects(p: Problem, model: seq<int>, h: nat, t: nat, a: nat)
    requires WellFormed(p) && ModelOf(model) && t < h && Covers(p, model, h)
    requires Satisfies(model, ActionClauses(p, h)) && Satisfies(model, CorrectedFrameClauses(p, h))
    requires ActionsAt(p, model, t, |p.actions|) == [a]
    ensures a < |p.actions| && Layer(p, model, t + 1) == Apply(p.actions[a], Layer(p, model, t))
  {
    var n, m := p.fluents, |p.actions|;
    ActionsAtMembers(p, model, t, m);
    assert a in ActionsAt(p, model, t, m);
    var act := p.actions[a];
    assert ActionWithin(act, n);
    var s, s' := Layer(p, model, t), Layer(p, model, t + 1);
    forall f: nat ensures f in s' <==> f in Apply(act, s) {
      if f < n {
        EffectOn(p, model, h, t, a, f);
      }
    }
  }

  /** Each step of a model of the corrected formula runs at most one action, and the layers
      before and after are related by it: unchanged without an action, its effects applied
      (its preconditions holding) with one. */
  lemma Transition(p: Problem, model: seq<int>, h: nat, t: nat)
    requires WellFormed(p) && ModelOf(model) && t < h && Covers(p, model, h)
    requires Satisfies(model, ActionClauses(p, h))
    requires Satisfies(model, CorrectedFrameClauses(p, h))
    requires Satisfies(model, ExclusionClauses(p, h))
    ensures var acts := ActionsAt(p, model, t, |p.actions|);
      && |acts| <= 1
      && (acts == [] ==> Layer(p, model, t + 1) == Layer(p, model, t))
      && (|acts| == 1 ==>
            && acts[0] < |p.actions|
            && Applicable(p.actions[acts[0]], Layer(p, model, t))
            && Layer(p, model, t + 1) == Apply(p.actions[acts[0]], Layer(p, model, t)))
  {
    var acts := ActionsAt(p, model, t, |p.actions|);
    AtMostOneAction(p, model, h, t);
    if acts == [] {
      Persist(p, model, h, t);
    } else {
      var a := acts[0];
      assert acts == [a];
      ActionsAtMembers(p, model, t, |p.actions|);
      assert a in acts;
      Preconditions(p, model, h, t, a);
      Effects(p, model, h, t, a);
    }
  }

  // ---------------------------------------------------------------------------------------
  // The decoder reads the model block by block

  /** The decoder on the first `j` literals of the model, read by index. */
  function DecodeUpTo(p: Problem, model: seq<int>, j: nat): (r: seq<nat>)
    requires Decodable(p, model) && j <= |model|
  {
    if j == 0 then [] else DecodeUpTo(p, model, j - 1) + DecodeLit(p, model[j - 1])
  }

  lemma DecodeIsUpTo(p: Problem, model: seq<int>)
    requires Decodable(p, model)
    ensures Decode(p, model) == DecodeUpTo(p, model, |model|)
  {
    var j := 0;
    assert model[..0] == [];
    while j < |model|
      invariant j <= |model| && Decodable(p, model[..j])
      invariant Decode(p, model[..j]) == DecodeUpTo(p, model, j)
    {
      DecodeExtend(p, model, j);
      j := j + 1;
    }
    assert model[..|model|] == model;
  }

  /** What the literal at position `j` of block `t` contributes to the plan: the action it
      stands for when that action's variable is true, nothing otherwise. */
  lemma LitAt(p: Problem, model: seq<int>, t: nat, j: nat, b: nat)
    requires ModelOf(model) && p.fluents + |p.actions| > 0 && b == (p.fluents + |p.actions|) * t
    requires j < p.fluents + |p.actions| && b + j < |model|
    ensures DecodeLit(p, model[b + j]) ==
      if j < p.fluents || !Holds(model, ActionVar(p.fluents, |p.actions|, j - p.fluents, t)) then []
      else [j - p.fluents]
  {
    var n, m := p.fluents, |p.actions|;
    var i := b + j;
    if j >= n {
      assert ActionVar(n, m, j - n, t) == i + 1;
    }
    if model[i] == i + 1 {
      DivModUnique(n + m, t, j);
      assert (model[i] - 1) % (n + m) == j;
    }
  }

  /** The actions of step `t` among the first `j` variables of its block. */
  function BlockActions(p: Problem, model: seq<int>, t: nat, j: nat): seq<nat>
    requires j <= p.fluents + |p.actions|
  {
    ActionsAt(p, model, t, if j <= p.fluents then 0 else j - p.fluents)
  }

  lemma BlockActionsStep(p: Problem, model: seq<int>, t: nat, j: nat)
    requires j < p.fluents + |p.actions|
    ensures BlockActions(p, model, t, j + 1) == BlockActions(p, model, t, j)
      + if j < p.fluents || !Holds(model, ActionVar(p.fluents, |p.actions|, j - p.fluents, t)) then []
        else [j - p.fluents]
  {
  }

  lemma BlockStep(p: Problem, model: seq<int>, t: nat, j: nat, b: nat)
    requires ModelOf(model) && p.fluents + |p.actions| > 0 && b == (p.fluents + |p.actions|) * t
    requires j < p.fluents + |p.actions| && b + j < |model|
    requires DecodeUpTo(p, model, b + j) == DecodeUpTo(p, model, b) + BlockActions(p, model, t, j)
    ensures DecodeUpTo(p, model, b + j + 1) == DecodeUpTo(p, model, b) + BlockActions(p, model, t, j + 1)
  {
    LitAt(p, model, t, j, b);
    BlockActionsStep(p, model, t, j);
    var before, acts, lit := DecodeUpTo(p, model, b), BlockActions(p, model, t, j), DecodeLit(p, model[b + j]);
    assert DecodeUpTo(p, model, b + j + 1) == DecodeUpTo(p, model, b + j) + lit;
    assert before + acts + lit == before + (acts + lit);
  }

  /** The first `j` positions of block `t` contribute the actions among them that run. */
  lemma {:induction false} BlockPrefix(p: Problem, model: seq<int>, t: nat, b: nat, j: nat)
    requires ModelOf(model) && p.fluents + |p.actions| > 0 && b == (p.fluents + |p.actions|) * t
    requires j <= p.fluents + |p.actions| && b + j <= |model|
    ensures DecodeUpTo(p, model, b + j) == DecodeUpTo(p, model, b) + BlockActions(p, model, t, j)
  {
    if j > 0 {
      BlockPrefix(p, model, t, b, j - 1);
      BlockStep(p, model, t, j - 1, b);
    }
  }

  /** Block `t` of the model, starting at position `b`, contributes exactly the actions that
      run at step `t`, in order. */
  lemma DecodeBlock(p: Problem, model: seq<int>, t: nat, b: nat)
    requires ModelOf(model) && p.fluents + |p.actions| > 0 && b == (p.fluents + |p.actions|) * t
    requires b + p.fluents + |p.actions| <= |model|
    ensures DecodeUpTo(p, model, b + p.fluents + |p.actions|) ==
      DecodeUpTo(p, model, b) + ActionsAt(p, model, t, |p.actions|)
  {
    var k := p.fluents + |p.actions|;
    BlockPrefix(p, model, t, b, k);
    assert BlockActions(p, model, t, k) == ActionsAt(p, model, t, |p.actions|);
  }

  lemma DivAtLeast(k: nat, h: nat, i: nat)
    requires k > 0 && k * h <= i
    ensures i / k >= h
  {
    var q := i / k;
    assert k * (q + 1) == k * q + k;
    if q < h {
      MulMono(k, q + 1, h);
      assert false;
    }
  }

  lemma NoActionAt(p: Problem, model: seq<int>, h: nat, a: nat, t: nat)
    requires NoActionAfter(p, model, h) && a < |p.actions| && h <= t
    ensures !Holds(model, ActionVar(p.fluents, |p.actions|, a, t))
  {
  }

  /** Past block `h`, a model with no action variable true there contributes nothing. */
  lemma LitBeyond(p: Problem, model: seq<int>, h: nat, i: nat)
    requires ModelOf(model) && p.fluents + |p.actions| > 0
    requires (p.fluents + |p.actions|) * h <= i < |model|
    requires NoActionAfter(p, model, h)
    ensures DecodeLit(p, model[i]) == []
  {
    var n, m := p.fluents, |p.actions|;
    var k := n + m;
    var q, r := i / k, i % k;
    DivAtLeast(k, h, i);
    if r >= n {
      ActionAtIndex(n, m, i);
      NoActionAt(p, model, h, r - n, q);
      assert model[i] == -(i + 1);
    } else {
      assert model[i] == i + 1 ==> (model[i] - 1) % k == r;
    }
  }

  /** Position `i` of the model holds the variable of the action `i % k - n` at step `i / k`
      when `i % k` is past the fluents of the block. */
  lemma ActionAtIndex(n: nat, m: nat, i: nat)
    requires n + m > 0 && i % (n + m) >= n
    ensures ActionVar(n, m, i % (n + m) - n, i / (n + m)) == i + 1
  {
  }

  /** The decoder reads nothing past block `h` of a model with no action after the horizon. */
  lemma DecodeTail(p: Problem, model: seq<int>, h: nat, b: nat)
    requires ModelOf(model) && p.fluents + |p.actions| > 0
    requires b == (p.fluents + |p.actions|) * h <= |model|
    requires NoActionAfter(p, model, h)
    ensures DecodeUpTo(p, model, |model|) == DecodeUpTo(p, model, b)
  {
    var i := b;
    while i < |model|
      invariant b <= i <= |model|
      invariant DecodeUpTo(p, model, i) == DecodeUpTo(p, model, b)
    {
      LitBeyond(p, model, h, i);
      i := i + 1;
    }
  }

  // ---------------------------------------------------------------------------------------
  // Soundness

  /** The five families of a satisfied formula are each satisfied. */
  lemma FormulaParts(p: Problem, h: nat, order: seq<nat>, model: seq<int>, frame: Cnf)
    requires WellFormed(p)
    requires Satisfies(model, InitClauses(p, order) + GoalClauses(p, h) + ActionClauses(p, h) + frame + ExclusionClauses(p, h))
    ensures Satisfies(model, InitClauses(p, order)) && Satisfies(model, GoalClauses(p, h))
    ensures Satisfies(model, ActionClauses(p, h)) && Satisfies(model, frame)
    ensures Satisfies(model, ExclusionClauses(p, h))
  {
    var i, g, a, e := InitClauses(p, order), GoalClauses(p, h), ActionClauses(p, h), ExclusionClauses(p, h);
    AllSplit(i + g + a + frame, e, Sat(model));
    AllSplit(i + g + a, frame, Sat(model));
    AllSplit(i + g, a, Sat(model));
    AllSplit(i, g, Sat(model));
  }

  /** The actions the model runs at steps 0..t-1, step by step and in action order. */
  function Steps(p: Problem, model: seq<int>, t: nat): (r: seq<nat>)
    ensures Below(r, |p.actions|)
  {
    if t == 0 then []
    else
      var acts := ActionsAt(p, model, t - 1, |p.actions|);
      ActionsAtMembers(p, model, t - 1, |p.actions|);
      Steps(p, model, t - 1) + acts
  }

  /** The decoder, run on blocks 0..t-1 of the model, yields the actions of steps 0..t-1. */
  lemma {:induction false} DecodeSteps(p: Problem, model: seq<int>, t: nat, b: nat)
    requires ModelOf(model) && p.fluents + |p.actions| > 0
    requires b == (p.fluents + |p.actions|) * t <= |model|
    ensures DecodeUpTo(p, model, b) == Steps(p, model, t)
  {
    if t > 0 {
      var c := PreviousBlock(p.fluents + |p.actions|, t, b);
      DecodeSteps(p, model, t - 1, c);
      DecodeBlock(p, model, t - 1, c);
    }
  }

  /** With no action past the horizon, the decoder yields the actions of steps 0..h-1. */
  lemma DecodeIsSteps(p: Problem, model: seq<int>, h: nat)
    requires ModelOf(model) && p.fluents + |p.actions| > 0
    requires (p.fluents + |p.actions|) * h <= |model|
    requires NoActionAfter(p, model, h)
    ensures Decode(p, model) == Steps(p, model, h)
  {
    var b := (p.fluents + |p.actions|) * h;
    DecodeIsUpTo(p, model);
    DecodeTail(p, model, h, b);
    DecodeSteps(p, model, h, b);
  }

  /** A model satisfying the exclusion axioms runs at most `t` actions in steps 0..t-1. */
  lemma StepsLength(p: Problem, model: seq<int>, h: nat, t: nat)
    requires ModelOf(model) && t <= h && Satisfies(model, ExclusionClauses(p, h))
    ensures |Steps(p, model, t)| <= t
  {
    var s := 0;
    while s < t
      invariant s <= t && |Steps(p, model, s)| <= s
    {
      AtMostOneAction(p, model, h, s);
      s := s + 1;
    }
  }

  lemma ReplayStep(p: Problem, model: seq<int>, h: nat, t: nat)
    requires WellFormed(p) && ModelOf(model) && t < h && Covers(p, model, h)
    requires Satisfies(model, ActionClauses(p, h))
    requires Satisfies(model, CorrectedFrameClauses(p, h))
    requires Satisfies(model, ExclusionClauses(p, h))
    requires Run(p, Positions(p.init), Steps(p, model, t)) == Some(Layer(p, model, t))
    ensures Run(p, Positions(p.init), Steps(p, model, t + 1)) == Some(Layer(p, model, t + 1))
  {
    Transition(p, model, h, t);
    RunExtend(p, Positions(p.init), Steps(p, model, t), ActionsAt(p, model, t, |p.actions|),
              Layer(p, model, t), Layer(p, model, t + 1));
  }

  /** Running a plan extended by the at most one action of a step. */
  lemma RunExtend(p: Problem, s0: set<nat>, plan: seq<nat>, acts: seq<nat>, before: set<nat>, after: set<nat>)
    requires Below(plan, |p.actions|) && Run(p, s0, plan) == Some(before) && |acts| <= 1
    requires acts == [] ==> after == before
    requires |acts| == 1 ==> acts[0] < |p.actions| && Applicable(p.actions[acts[0]], before)
                             && after == Apply(p.actions[acts[0]], before)
    ensures Below(plan + acts, |p.actions|) && Run(p, s0, plan + acts) == Some(after)
  {
    if acts == [] {
      assert plan + acts == plan;
    } else {
      assert acts == [acts[0]];
      RunSnoc(p, s0, plan, acts[0]);
    }
  }

  /** The actions of steps 0..h-1 run from the initial state through layers 1..h. */
  lemma Replay(p: Problem, model: seq<int>, h: nat, order: seq<nat>)
    requires WellFormed(p) && IsNegOrder(p, order) && ModelOf(model)
    requires Covers(p, model, h)
    requires Satisfies(model, InitClauses(p, order))
    requires Satisfies(model, ActionClauses(p, h))
    requires Satisfies(model, CorrectedFrameClauses(p, h))
    requires Satisfies(model, ExclusionClauses(p, h))
    ensures Run(p, Positions(p.init), Steps(p, model, h)) == Some(Layer(p, model, h))
  {
    var t := 0;
    InitLayer(p, model, order);
    while t < h
      invariant t <= h && Run(p, Positions(p.init), Steps(p, model, t)) == Some(Layer(p, model, t))
    {
      ReplayStep(p, model, h, t);
      t := t + 1;
    }
  }

  /** Soundness of the corrected encoding: a model of the formula that assigns every variable
      up to the last layer and runs no action past the horizon decodes into a plan of at most
      `h` actions that is executable from the initial state and reaches the goal. */
  lemma CorrectedEncodingIsSound(p: Problem, h: nat, order: seq<nat>, model: seq<int>)
    requires WellFormed(p) && IsNegOrder(p, order)
    requires ModelOf(model) && Covers(p, model, h) && Decodable(p, model)
    requires Satisfies(model, CorrectedCnfFormula(p, h, order))
    requires NoActionAfter(p, model, h)
    ensures |Decode(p, model)| <= h && Solves(p, Decode(p, model))
  {
    FormulaParts(p, h, order, model, CorrectedFrameClauses(p, h));
    if p.fluents + |p.actions| == 0 {
      DecodeNonPositive(p, model);
      assert Positions(p.goal) == {};
    } else {
      Replay(p, model, h, order);
      DecodeIsSteps(p, model, h);
      StepsLength(p, model, h, h);
      GoalLayer(p, model, h);
    }
  }
}
