/** The SAT planner (`demo.SAT`): the encoders scan bit vectors with `nextSetBit` loops and
    push clauses onto a growing vector; each method is proved to return exactly the clause
    list that module `Encoding` specifies. */
module Sat {
  import opened Options
  import opened Bits
  import opened Planning
  import opened Indexer
  import opened Encoding
  import Facts

  /** The number of variables the solver is prepared for (`MAXVAR`). */
  const MaxVar: nat := 1000000

  /** `encodeInitialState`. The set of absent fluents is a hash set; the order in which it is
      traversed is not fixed by the source, so the method picks any element and reports the
      order it took in the ghost `order`. Re-setting each visited bit leaves the problem's
      vector as it was. */
  method EncodeInitialState(p: Problem, planSize: nat) returns (clauses: Cnf, ghost order: seq<nat>)
    requires WellFormed(p)
    ensures IsNegOrder(p, order)
    ensures clauses == InitClauses(p, order)
  {
    var n, m := p.fluents, |p.actions|;
    clauses := [];
    var initStatePosFluents := p.init;
    var fluentsNotInInitState: set<nat> := {};
    for i := 0 to n
      invariant forall j: nat :: j in fluentsNotInInitState <==> j < i
    {
      fluentsNotInInitState := fluentsNotInInitState + {i};
    }
    ghost var k := 0;
    var q := NextSetBit(initStatePosFluents, 0);
    while q >= 0
      invariant initStatePosFluents == p.init
      invariant 0 <= k <= |p.init| && q == NextSetBit(p.init, k)
      invariant Below(SetBitsUpTo(p.init, k), n)
      invariant clauses == FluentUnits(n, m, SetBitsUpTo(p.init, k), 0)
      invariant forall j: nat :: j in fluentsNotInInitState <==> j < n && j !in SetBitsUpTo(p.init, k)
      decreases |p.init| - k
    {
      NextSetBitStep(p.init, k);
      FluentUnitsSnoc(n, m, SetBitsUpTo(p.init, k), q, 0);
      fluentsNotInInitState := fluentsNotInInitState - {q};
      clauses := clauses + [[FluentVar(n, m, q, 0)]];
      SetAgain(initStatePosFluents, q);
      initStatePosFluents := initStatePosFluents[q := true];
      k := q + 1;
      q := NextSetBit(initStatePosFluents, q + 1);
    }
    NextSetBitStep(p.init, k);
    SetBitsMembers(p.init);
    clauses, order := PushNegUnits(clauses, fluentsNotInInitState);
  }

  /** The last loop of `encodeInitialState`: a unit clause `[-(f+1)]` for every fluent `f` of
      the hash set `absent`, in whatever order the set is traversed; the ghost `order` reports
      that order. */
  method PushNegUnits(clauses: Cnf, absent: set<nat>) returns (r: Cnf, ghost order: seq<nat>)
    ensures Distinct(order) && forall j: nat :: j in order <==> j in absent
    ensures r == clauses + NegUnits(order)
  {
    r := clauses;
    order := [];
    var rest := absent;
    while rest != {}
      invariant rest <= absent
      invariant forall j: nat :: j in order <==> j in absent && j !in rest
      invariant Distinct(order)
      invariant r == clauses + NegUnits(order)
      decreases |rest|
    {
      var s :| s in rest;
      NegUnitsSnoc(order, s);
      DistinctSnoc(order, s);
      Append3(clauses, NegUnits(order), [[-(s as int + 1)]]);
      r := r + [[-(s as int + 1)]];
      order := order + [s];
      rest := rest - {s};
    }
  }

  /** `encodeFinalState`. */
  method EncodeFinalState(p: Problem, planSize: nat) returns (clauses: Cnf)
    requires WellFormed(p)
    ensures clauses == GoalClauses(p, planSize)
  {
    var n, m := p.fluents, |p.actions|;
    clauses := [];
    var goalPosFluents := p.goal;
    ghost var k := 0;
    var q := NextSetBit(goalPosFluents, 0);
    while q >= 0
      invariant goalPosFluents == p.goal
      invariant 0 <= k <= |p.goal| && q == NextSetBit(p.goal, k)
      invariant Below(SetBitsUpTo(p.goal, k), n)
      invariant clauses == FluentUnits(n, m, SetBitsUpTo(p.goal, k), planSize)
      decreases |p.goal| - k
    {
      NextSetBitStep(p.goal, k);
      FluentUnitsSnoc(n, m, SetBitsUpTo(p.goal, k), q, planSize);
      clauses := clauses + [[FluentVar(n, m, q, planSize)]];
      SetAgain(goalPosFluents, q);
      goalPosFluents := goalPosFluents[q := true];
      k := q + 1;
      q := NextSetBit(goalPosFluents, q + 1);
    }
    NextSetBitStep(p.goal, k);
  }

  /** One of the four `nextSetBit` loops of `encodeActions`: for every fluent of `b` push
      `[-av, ±FluentVar(f, t)]`. */
  method PushImplications(clauses: Cnf, n: nat, m: nat, av: int, b: BitVector, t: nat, positive: bool)
    returns (r: Cnf)
    requires Within(b, n)
    ensures Below(SetBits(b), n)
    ensures r == clauses + Implications(n, m, av, SetBits(b), t, positive)
  {
    r := clauses;
    var bits := b;
    ghost var k := 0;
    var q := NextSetBit(bits, 0);
    while q >= 0
      invariant bits == b
      invariant 0 <= k <= |b| && q == NextSetBit(b, k)
      invariant Below(SetBitsUpTo(b, k), n)
      invariant r == clauses + Implications(n, m, av, SetBitsUpTo(b, k), t, positive)
      decreases |b| - k
    {
      NextSetBitStep(b, k);
      ImplicationsSnoc(n, m, av, SetBitsUpTo(b, k), q, t, positive);
      r := r + [[-av, Lit(FluentVar(n, m, q, t), positive)]];
      SetAgain(bits, q);
      bits := bits[q := true];
      k := q + 1;
      q := NextSetBit(bits, q + 1);
    }
    NextSetBitStep(b, k);
  }

  /** The body of the action loop of `encodeActions`: the clauses of action `a` at step `t`. */
  method PushAction(clauses: Cnf, p: Problem, a: nat, t: nat) returns (r: Cnf)
    requires WellFormed(p) && a < |p.actions|
    ensures r == clauses + ActionClausesAt(p, a, t)
  {
    var n, m := p.fluents, |p.actions|;
    var action := p.actions[a];
    assert ActionWithin(action, n);
    var av := ActionVar(n, m, a, t);
    r := PushImplications(clauses, n, m, av, action.prePos, t, true);
    r := PushImplications(r, n, m, av, action.preNeg, t, false);
    r := PushImplications(r, n, m, av, action.effPos, t + 1, true);
    r := PushImplications(r, n, m, av, action.effNeg, t + 1, false);
    Append4(clauses, ActionPart(p, a, t, 0), ActionPart(p, a, t, 1), ActionPart(p, a, t, 2), ActionPart(p, a, t, 3));
  }

  /** The body of the step loop of `encodeActions`: the clauses of every action at step `t`. */
  method PushActionsAt(clauses: Cnf, p: Problem, t: nat) returns (r: Cnf)
    requires WellFormed(p)
    ensures r == clauses + ActionClausesStep(p, t, |p.actions|)
  {
    r := clauses;
    for a := 0 to |p.actions|
      invariant r == clauses + ActionClausesStep(p, t, a)
    {
      r := PushAction(r, p, a, t);
      Append3(clauses, ActionClausesStep(p, t, a), ActionClausesAt(p, a, t));
    }
  }

  /** `encodeActions`. */
  method EncodeActions(p: Problem, planSize: nat) returns (clauses: Cnf)
    requires WellFormed(p)
    ensures clauses == ActionClauses(p, planSize)
  {
    clauses := [];
    for timeStep := 0 to planSize
      invariant clauses == ActionClauses(p, timeStep)
    {
      clauses := PushActionsAt(clauses, p, timeStep);
    }
  }

  /** The bucket-filling loop of `encodeExplanatoryFrameAxioms`: action `a` is appended to the
      list of every fluent of its positive (resp. negative) effect. */
  method AddEffector(buckets: array<seq<nat>>, p: Problem, a: nat, positive: bool)
    requires a < |p.actions| && Within(Effect(p.actions[a], positive), buckets.Length)
    modifies buckets
    ensures forall f :: 0 <= f < buckets.Length ==>
      buckets[f] == old(buckets[f]) + (if Bit(Effect(p.actions[a], positive), f) then [a] else [])
  {
    var effect := Effect(p.actions[a], positive);
    ghost var k := 0;
    var q := NextSetBit(effect, 0);
    while q >= 0
      invariant effect == Effect(p.actions[a], positive)
      invariant 0 <= k <= |effect| && q == NextSetBit(effect, k)
      invariant forall f :: 0 <= f < buckets.Length ==>
        buckets[f] == old(buckets[f]) + (if f < k && Bit(effect, f) then [a] else [])
      decreases |effect| - k
    {
      NextSetBitSkips(effect, k);
      buckets[q] := buckets[q] + [a];
      SetAgain(effect, q);
      effect := effect[q := true];
      k := q + 1;
      q := NextSetBit(effect, q + 1);
    }
    NextSetBitSkips(effect, k);
  }

  /** The inner loop of `encodeExplanatoryFrameAxioms`: push the variable of every action of
      `acts` at step `t` onto `clause`. */
  method PushActionVars(clause: Clause, n: nat, m: nat, acts: seq<nat>, t: nat) returns (r: Clause)
    requires Below(acts, m)
    ensures r == clause + ActionLits(n, m, acts, t)
  {
    r := clause;
    for i := 0 to |acts|
      invariant r == clause + ActionLits(n, m, acts[..i], t)
    {
      assert acts[..i + 1][..i] == acts[..i];
      r := r + [ActionVar(n, m, acts[i], t)];
    }
    assert acts[..|acts|] == acts;
  }

  /** The step loop of `encodeExplanatoryFrameAxioms` for one fluent, given the lists of the
      actions that add (`pos`) and delete (`neg`) it. */
  method PushFrameForFluent(clauses: Cnf, p: Problem, horizon: nat, f: nat, pos: seq<nat>, neg: seq<nat>)
    returns (r: Cnf)
    requires f < p.fluents
    requires pos == Effectors(p, f, |p.actions|, true) && neg == Effectors(p, f, |p.actions|, false)
    ensures r == clauses + FrameForFluent(p, f, horizon, false)
  {
    var n, m := p.fluents, |p.actions|;
    r := clauses;
    for timeStep := 0 to horizon
      invariant r == clauses + FrameForFluent(p, f, timeStep, false)
    {
      ghost var before := r;
      if |pos| != 0 {
        var clause := [FluentVar(n, m, f, timeStep), -FluentVar(n, m, f, timeStep + 1)];
        clause := PushActionVars(clause, n, m, pos, timeStep);
        r := r + [clause];
      }
      if |neg| != 0 {
        var clause := [-FluentVar(n, m, f, timeStep), FluentVar(n, m, f, timeStep + 1)];
        clause := PushActionVars(clause, n, m, neg, timeStep);
        r := r + [clause];
      }
      assert r == before + FrameAt(p, f, timeStep, false);
      Append3(clauses, FrameForFluent(p, f, timeStep, false), FrameAt(p, f, timeStep, false));
    }
  }

  /** The first half of `encodeExplanatoryFrameAxioms`: for every fluent, the list of the
      actions that add it and the list of the actions that delete it, in action order. */
  method EffectorLists(p: Problem) returns (positiveEffectOnFluent: array<seq<nat>>, negativeEffectOnFluent: array<seq<nat>>)
    requires WellFormed(p)
    ensures fresh(positiveEffectOnFluent) && fresh(negativeEffectOnFluent)
    ensures positiveEffectOnFluent.Length == negativeEffectOnFluent.Length == p.fluents
    ensures forall f :: 0 <= f < p.fluents ==>
      positiveEffectOnFluent[f] == Effectors(p, f, |p.actions|, true) &&
      negativeEffectOnFluent[f] == Effectors(p, f, |p.actions|, false)
  {
    var n := p.fluents;
    positiveEffectOnFluent := new seq<nat>[n];
    negativeEffectOnFluent := new seq<nat>[n];
    for i := 0 to n
      invariant forall j :: 0 <= j < i ==> positiveEffectOnFluent[j] == [] && negativeEffectOnFluent[j] == []
    {
      positiveEffectOnFluent[i] := [];
      negativeEffectOnFluent[i] := [];
    }
    for a := 0 to |p.actions|
      invariant forall f :: 0 <= f < n ==>
        positiveEffectOnFluent[f] == Effectors(p, f, a, true) && negativeEffectOnFluent[f] == Effectors(p, f, a, false)
    {
      assert ActionWithin(p.actions[a], n);
      AddEffector(positiveEffectOnFluent, p, a, true);
      AddEffector(negativeEffectOnFluent, p, a, false);
    }
  }

  /** `encodeExplanatoryFrameAxioms` as written: a clause is emitted only for a non-empty list. */
  method EncodeExplanatoryFrameAxioms(p: Problem, planSize: nat) returns (clauses: Cnf)
    requires WellFormed(p)
    ensures clauses == FrameClauses(p, planSize)
  {
    var positiveEffectOnFluent, negativeEffectOnFluent := EffectorLists(p);
    clauses := [];
    for stateIdx := 0 to p.fluents
      modifies {}
      invariant clauses == FrameUpTo(p, planSize, stateIdx, false)
    {
      clauses := PushFrameForFluent(clauses, p, planSize, stateIdx,
                                    positiveEffectOnFluent[stateIdx], negativeEffectOnFluent[stateIdx]);
    }
  }

  /** `encodeCompleteExclusionAxioms`: for every pair j < i of actions, the clause at step t
      is built by shifting the step-0 variables by `step * t`. */
  method EncodeCompleteExclusionAxioms(p: Problem, numberSteps: nat) returns (clauses: Cnf)
    ensures clauses == ExclusionClauses(p, numberSteps)
  {
    var n, m := p.fluents, |p.actions|;
    clauses := [];
    for iteratorAction1 := 0 to m
      invariant clauses == ExclusionUpTo(p, numberSteps, iteratorAction1)
    {
      for iteratorAction2 := 0 to iteratorAction1
        invariant clauses == ExclusionUpTo(p, numberSteps, iteratorAction1)
                             + ExclusionRow(p, numberSteps, iteratorAction1, iteratorAction2)
      {
        var initAction1Idx := ActionVar(n, m, iteratorAction1, 0);
        var initAction2Idx := ActionVar(n, m, iteratorAction2, 0);
        var step := m + n;
        ghost var before := clauses;
        for timeStep := 0 to numberSteps
          invariant clauses == before + ExclusionPair(p, iteratorAction1, iteratorAction2, timeStep)
        {
          var decalage := step * timeStep;
          assert initAction1Idx + decalage == ActionVar(n, m, iteratorAction1, timeStep);
          assert initAction2Idx + decalage == ActionVar(n, m, iteratorAction2, timeStep);
          Append3(before, ExclusionPair(p, iteratorAction1, iteratorAction2, timeStep),
                  [[-(initAction1Idx + decalage), -(initAction2Idx + decalage)]]);
          clauses := clauses + [[-(initAction1Idx + decalage), -(initAction2Idx + decalage)]];
        }
        Append3(ExclusionUpTo(p, numberSteps, iteratorAction1), ExclusionRow(p, numberSteps, iteratorAction1, iteratorAction2),
                ExclusionPair(p, iteratorAction1, iteratorAction2, numberSteps));
      }
    }
  }

  /** `encodeProblemAsCNF`: the five lists copied one after the other into one vector. */
  method EncodeProblemAsCnf(p: Problem, numberSteps: nat) returns (allClauses: Cnf, ghost order: seq<nat>)
    requires WellFormed(p)
    ensures IsNegOrder(p, order)
    ensures allClauses == CnfFormula(p, numberSteps, order)
  {
    var clausesInitState;
    clausesInitState, order := EncodeInitialState(p, numberSteps);
    var clausesGoalState := EncodeFinalState(p, numberSteps);
    var clausesActions := EncodeActions(p, numberSteps);
    var clausesExplanatoryFrameAxioms := EncodeExplanatoryFrameAxioms(p, numberSteps);
    var clausesCompleteExclusionAxioms := EncodeCompleteExclusionAxioms(p, numberSteps);
    allClauses := [];
    allClauses := allClauses + clausesInitState;
    assert allClauses == clausesInitState;
    allClauses := allClauses + clausesGoalState;
    allClauses := allClauses + clausesActions;
    allClauses := allClauses + clausesExplanatoryFrameAxioms;
    allClauses := allClauses + clausesCompleteExclusionAxioms;
  }

  /** `constructPlanFromModel`: every literal of the model that the inverse lookup maps to an
      action is added to the plan at the running position `idxActionInPlan`. */
  method ConstructPlanFromModel(model: seq<int>, p: Problem) returns (plan: seq<nat>)
    requires Decodable(p, model)
    ensures plan == Decode(p, model)
  {
    var n, m := p.fluents, |p.actions|;
    plan := [];
    var idxActionInPlan := 0;
    for i := 0 to |model|
      invariant Decodable(p, model[..i])
      invariant idxActionInPlan == |plan|
      invariant plan == Decode(p, model[..i])
    {
      Facts.DecodeExtend(p, model, i);
      var idx := model[i];
      var a := ActionWithIdx(n, m, idx);
      if a.Some? {
        assert plan[..idxActionInPlan] == plan && plan[idxActionInPlan..] == [];
        plan := plan[..idxActionInPlan] + [a.value] + plan[idxActionInPlan..];
        idxActionInPlan := idxActionInPlan + 1;
      }
    }
    assert model[..|model|] == model;
  }

  /** `solve` for a given horizon (the source fixes 6): encode, ask the solver, decode. The
      solver stands for sat4j; it answers `None` for an unsatisfiable formula, a timeout or a
      contradiction found while loading the clauses, as `solverSAT` does. */
  method Solve(p: Problem, horizon: nat, solver: (nat, Cnf) -> Option<seq<int>>)
    returns (plan: Option<seq<nat>>, ghost order: seq<nat>)
    requires WellFormed(p) && p.fluents + |p.actions| > 0
    ensures IsNegOrder(p, order)
    ensures plan == match solver(MaxVar, CnfFormula(p, horizon, order))
                    case None => None
                    case Some(model) => Some(Decode(p, model))
  {
    var allClauses;
    allClauses, order := EncodeProblemAsCnf(p, horizon);
    var model := solver(MaxVar, allClauses);
    if model.None? {
      return None, order;
    }
    var decoded := ConstructPlanFromModel(model.value, p);
    plan := Some(decoded);
  }
}
