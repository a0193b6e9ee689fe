/** The second planner (`demo.ASP`): the same encoding as `Sat`, except that bit vectors are
    first turned into lists of indices by `convertBitArrayToListInteger`, and the merge and the
    decoding are written inline in `solve`. Each method is proved to return the clause list
    module `Encoding` specifies, so both planners hand the solver the same formula. */
module Asp {
  import opened Options
  import opened Bits
  import opened Planning
  import opened Indexer
  import opened Encoding
  import Sat
  import Facts

  /** `convertBitArrayToListInteger`: jump to the next set bit, then walk the run of set bits
      up to the next clear bit, recording every position of the run. */
  method ConvertBitArrayToListInteger(b: BitVector) returns (valuesBitArray: seq<nat>)
    ensures valuesBitArray == SetBits(b)
  {
    valuesBitArray := [];
    var value := NextSetBit(b, 0);
    NextSetBitStep(b, 0);
    if value == -1 {
      return;
    }
    valuesBitArray := valuesBitArray + [value];
    while true
      invariant 0 <= value <= |b|
      invariant valuesBitArray == SetBitsUpTo(b, if value + 1 <= |b| then value + 1 else |b|)
      decreases |b| - value
    {
      ghost var k := if value + 1 <= |b| then value + 1 else |b|;
      value := value + 1;
      NextSetBitStep(b, k);
      assert NextSetBit(b, value) == NextSetBit(b, k);
      value := NextSetBit(b, value);
      if value < 0 {
        break;
      }
      var endOfRun := NextClearBit(b, value);
      ghost var start := value;
      valuesBitArray := valuesBitArray + [value];
      value := value + 1;
      while value != endOfRun
        invariant start < value <= endOfRun
        invariant valuesBitArray == SetBitsUpTo(b, value)
        decreases endOfRun - value
      {
        assert Bit(b, value);
        valuesBitArray := valuesBitArray + [value];
        value := value + 1;
      }
    }
  }

  /** `getFluentIdx`: the same numbering as the indexer of `Sat`. */
  function GetFluentIdx(p: Problem, f: nat, timeStep: nat): (r: int)
    requires f < p.fluents
    ensures r == FluentVar(p.fluents, |p.actions|, f, timeStep)
  {
    (p.fluents + |p.actions|) * timeStep + 1 + f
  }

  /** `getActionIdx`: the same numbering as the indexer of `Sat`. */
  function GetActionIdx(p: Problem, a: nat, timeStep: nat): (r: int)
    requires a < |p.actions|
    ensures r == ActionVar(p.fluents, |p.actions|, a, timeStep)
  {
    (p.fluents + |p.actions|) * timeStep + 1 + p.fluents + a
  }

  /** `getActionWithIdx`: the same inverse as the indexer of `Sat`. */
  function GetActionWithIdx(p: Problem, idxToCheck: int): (r: Option<nat>)
    requires idxToCheck <= 0 || p.fluents + |p.actions| > 0
    ensures r == ActionWithIdx(p.fluents, |p.actions|, idxToCheck)
  {
    if idxToCheck <= 0 then None
    else
      var idx := (idxToCheck - 1) % (p.fluents + |p.actions|);
      if idx >= p.fluents then Some(idx - p.fluents) else None
  }

  /** The loop `for (int idxState : list)` of the state encoders: a unit clause for every
      fluent of the list at step `t`. */
  method PushFluentUnits(clauses: Cnf, p: Problem, list: seq<nat>, t: nat) returns (r: Cnf)
    requires Below(list, p.fluents)
    ensures r == clauses + FluentUnits(p.fluents, |p.actions|, list, t)
  {
    r := clauses;
    for i := 0 to |list|
      invariant r == clauses + FluentUnits(p.fluents, |p.actions|, list[..i], t)
    {
      assert list[..i + 1] == list[..i] + [list[i]];
      FluentUnitsSnoc(p.fluents, |p.actions|, list[..i], list[i], t);
      Append3(clauses, FluentUnits(p.fluents, |p.actions|, list[..i], t), [[GetFluentIdx(p, list[i], t)]]);
      r := r + [[GetFluentIdx(p, list[i], t)]];
    }
    assert list[..|list|] == list;
  }

  /** `encodeInitialState`: the list of the initial fluents is walked, each one removed from
      the hash set of all fluents; the set that remains gives the negative unit clauses. */
  method EncodeInitialState(p: Problem, numberSteps: nat) returns (clauses: Cnf, ghost order: seq<nat>)
    requires WellFormed(p)
    ensures IsNegOrder(p, order)
    ensures clauses == InitClauses(p, order)
  {
    var n := p.fluents;
    var allStatesIdx: set<nat> := {};
    for i := 0 to n
      invariant forall j: nat :: j in allStatesIdx <==> j < i
    {
      allStatesIdx := allStatesIdx + {i};
    }
    var list := ConvertBitArrayToListInteger(p.init);
    SetBitsBelow(p.init, n);
    clauses := [];
    for i := 0 to |list|
      invariant forall j: nat :: j in allStatesIdx <==> j < n && j !in list[..i]
      invariant clauses == FluentUnits(n, |p.actions|, list[..i], 0)
    {
      var idxState := list[i];
      assert list[..i + 1] == list[..i] + [idxState];
      FluentUnitsSnoc(n, |p.actions|, list[..i], idxState, 0);
      allStatesIdx := allStatesIdx - {idxState};
      clauses := clauses + [[GetFluentIdx(p, idxState, 0)]];
    }
    assert list[..|list|] == list;
    SetBitsMembers(p.init);
    clauses, order := Sat.PushNegUnits(clauses, allStatesIdx);
  }

  /** `encodeFinalState`: a unit clause for every goal fluent at the last layer. */
  method EncodeFinalState(p: Problem, numberSteps: nat) returns (clauses: Cnf)
    requires WellFormed(p)
    ensures clauses == GoalClauses(p, numberSteps)
  {
    var list := ConvertBitArrayToListInteger(p.goal);
    SetBitsBelow(p.goal, p.fluents);
    clauses := PushFluentUnits([], p, list, numberSteps);
    assert [] + FluentUnits(p.fluents, |p.actions|, list, numberSteps) == FluentUnits(p.fluents, |p.actions|, list, numberSteps);
  }

  /** One of the four list loops of `encodeActions`: `[-av, ±GetFluentIdx(f, t)]` for every
      fluent `f` of the list of `b`. */
  method PushImplications(clauses: Cnf, p: Problem, av: int, b: BitVector, t: nat, positive: bool)
    returns (r: Cnf)
    requires Within(b, p.fluents)
    ensures Below(SetBits(b), p.fluents)
    ensures r == clauses + Implications(p.fluents, |p.actions|, av, SetBits(b), t, positive)
  {
    var n, m := p.fluents, |p.actions|;
    var list := ConvertBitArrayToListInteger(b);
    SetBitsBelow(b, n);
    r := clauses;
    for i := 0 to |list|
      invariant r == clauses + Implications(n, m, av, list[..i], t, positive)
    {
      var idxState := list[i];
      assert list[..i + 1] == list[..i] + [idxState];
      ImplicationsSnoc(n, m, av, list[..i], idxState, t, positive);
      Append3(clauses, Implications(n, m, av, list[..i], t, positive), [[-av, Lit(GetFluentIdx(p, idxState, t), positive)]]);
      r := r + [[-av, Lit(GetFluentIdx(p, idxState, t), positive)]];
    }
    assert list[..|list|] == list;
  }

  /** The body of the action loop of `encodeActions`. */
  method PushAction(clauses: Cnf, p: Problem, a: nat, t: nat) returns (r: Cnf)
    requires WellFormed(p) && a < |p.actions|
    ensures r == clauses + ActionClausesAt(p, a, t)
  {
    var action := p.actions[a];
    assert ActionWithin(action, p.fluents);
    var actionIdx := GetActionIdx(p, a, t);
    r := PushImplications(clauses, p, actionIdx, action.prePos, t, true);
    r := PushImplications(r, p, actionIdx, action.preNeg, t, false);
    r := PushImplications(r, p, actionIdx, action.effPos, t + 1, true);
    r := PushImplications(r, p, actionIdx, action.effNeg, t + 1, false);
    Append4(clauses, ActionPart(p, a, t, 0), ActionPart(p, a, t, 1), ActionPart(p, a, t, 2), ActionPart(p, a, t, 3));
  }

  /** `encodeActions`: every action at every step below the horizon. */
  method EncodeActions(p: Problem, numberSteps: nat) returns (clauses: Cnf)
    requires WellFormed(p)
    ensures clauses == ActionClauses(p, numberSteps)
  {
    clauses := [];
    for timeStep := 0 to numberSteps
      invariant clauses == ActionClauses(p, timeStep)
    {
      clauses := PushActionsAt(clauses, p, timeStep);
    }
  }

  /** The body of the step loop of `encodeActions`. */
  method PushActionsAt(clauses: Cnf, p: Problem, t: nat) returns (r: Cnf)
    requires WellFormed(p)
    ensures r == clauses + ActionClausesStep(p, t, |p.actions|)
  {
    r := clauses;
    for a := 0 to |p.actions|
      invariant r == clauses + ActionClausesStep(p, t, a)
    {
      r := PushAction(r, p, a, t);
      Append3(clauses, ActionClausesStep(p, t, a), ActionClausesAt(p, a, t));
    }
  }

  /** The bucket-filling loop of `encodeExplanatoryFrameAxioms`, over the list of the effect. */
  method AddEffector(buckets: array<seq<nat>>, p: Problem, a: nat, positive: bool)
    requires a < |p.actions| && Within(Effect(p.actions[a], positive), buckets.Length)
    modifies buckets
    ensures forall f :: 0 <= f < buckets.Length ==>
      buckets[f] == old(buckets[f]) + (if Bit(Effect(p.actions[a], positive), f) then [a] else [])
  {
    var effect := Effect(p.actions[a], positive);
    var list := ConvertBitArrayToListInteger(effect);
    SetBitsBelow(effect, buckets.Length);
    SetBitsIncreasing(effect);
    for i := 0 to |list|
      invariant forall f :: 0 <= f < buckets.Length ==>
        buckets[f] == old(buckets[f]) + (if f in list[..i] then [a] else [])
    {
      var stateIdx := list[i];
      assert list[..i + 1] == list[..i] + [stateIdx];
      assert stateIdx !in list[..i];
      buckets[stateIdx] := buckets[stateIdx] + [a];
    }
    assert list[..|list|] == list;
    SetBitsMembers(effect);
  }

  /** The first half of `encodeExplanatoryFrameAxioms`. */
  method EffectorLists(p: Problem) returns (positiveEffectOnFluent: array<seq<nat>>, negativeEffectOnFluent: array<seq<nat>>)
    requires WellFormed(p)
    ensures fresh(positiveEffectOnFluent) && fresh(negativeEffectOnFluent)
    ensures positiveEffectOnFluent.Length == negativeEffectOnFluent.Length == p.fluents
    ensures forall f :: 0 <= f < p.fluents ==>
      positiveEffectOnFluent[f] == Effectors(p, f, |p.actions|, true) &&
      negativeEffectOnFluent[f] == Effectors(p, f, |p.actions|, false)
  {
    var n := p.fluents;
    positiveEffectOnFluent := new seq<nat>[n];
    negativeEffectOnFluent := new seq<nat>[n];
    for i := 0 to n
      invariant forall j :: 0 <= j < i ==> positiveEffectOnFluent[j] == [] && negativeEffectOnFluent[j] == []
    {
      positiveEffectOnFluent[i] := [];
      negativeEffectOnFluent[i] := [];
    }
    for a := 0 to |p.actions|
      invariant forall f :: 0 <= f < n ==>
        positiveEffectOnFluent[f] == Effectors(p, f, a, true) && negativeEffectOnFluent[f] == Effectors(p, f, a, false)
    {
      assert ActionWithin(p.actions[a], n);
      AddEffector(positiveEffectOnFluent, p, a, true);
      AddEffector(negativeEffectOnFluent, p, a, false);
    }
  }

  /** `encodeExplanatoryFrameAxioms`: the clause loop is the one of `Sat`, statement for
      statement, with the clauses emitted only for non-empty lists. */
  method EncodeExplanatoryFrameAxioms(p: Problem, numberSteps: nat) returns (clauses: Cnf)
    requires WellFormed(p)
    ensures clauses == FrameClauses(p, numberSteps)
  {
    var positiveEffectOnFluent, negativeEffectOnFluent := EffectorLists(p);
    clauses := [];
    for stateIdx := 0 to p.fluents
      modifies {}
      invariant clauses == FrameUpTo(p, numberSteps, stateIdx, false)
    {
      clauses := Sat.PushFrameForFluent(clauses, p, numberSteps, stateIdx,
                                        positiveEffectOnFluent[stateIdx], negativeEffectOnFluent[stateIdx]);
    }
  }

  /** `encodeCompleteExclusionAxioms`: the code of `Sat` with `getActionIdx` in place of the
      equal `getActionUniqueIDforTimeStep`. */
  method EncodeCompleteExclusionAxioms(p: Problem, numberSteps: nat) returns (clauses: Cnf)
    ensures clauses == ExclusionClauses(p, numberSteps)
  {
    clauses := Sat.EncodeCompleteExclusionAxioms(p, numberSteps);
  }

  /** The decoding loop written inline in `solve`: every literal of the model that
      `getActionWithIdx` maps to an action is added to the plan at the running position
      `idxActionInPlan`. */
  method BuildPlan(p: Problem, model: seq<int>) returns (plan: seq<nat>)
    requires Decodable(p, model)
    ensures plan == Decode(p, model)
  {
    plan := [];
    var idxActionInPlan := 0;
    for i := 0 to |model|
      invariant Decodable(p, model[..i])
      invariant idxActionInPlan == |plan|
      invariant plan == Decode(p, model[..i])
    {
      Facts.DecodeExtend(p, model, i);
      var idx := model[i];
      var a := GetActionWithIdx(p, idx);
      assert DecodeLit(p, idx) == if a.Some? then [a.value] else [];
      if a.Some? {
        assert plan[..idxActionInPlan] == plan && plan[idxActionInPlan..] == [];
        plan := plan[..idxActionInPlan] + [a.value] + plan[idxActionInPlan..];
        idxActionInPlan := idxActionInPlan + 1;
      }
    }
    assert model[..|model|] == model;
  }

  /** `solve` for a given horizon (the source fixes 10): the five families are copied into one
      vector, the solver is asked for a model, and the model is decoded inline, every action
      literal being inserted at the running position `idxActionInPlan`. */
  method Solve(p: Problem, n: nat, solver: (nat, Cnf) -> Option<seq<int>>)
    returns (plan: Option<seq<nat>>, ghost order: seq<nat>)
    requires WellFormed(p) && p.fluents + |p.actions| > 0
    ensures IsNegOrder(p, order)
    ensures plan == match solver(Sat.MaxVar, CnfFormula(p, n, order))
                    case None => None
                    case Some(model) => Some(Decode(p, model))
  {
    var clausesInitState;
    clausesInitState, order := EncodeInitialState(p, n);
    var clausesGoalState := EncodeFinalState(p, n);
    var clausesActions := EncodeActions(p, n);
    var clausesExplanatoryFrameAxioms := EncodeExplanatoryFrameAxioms(p, n);
    var clausesCompleteExclusionAxioms := EncodeCompleteExclusionAxioms(p, n);
    var allClauses := [];
    allClauses := allClauses + clausesInitState;
    assert allClauses == clausesInitState;
    allClauses := allClauses + clausesGoalState;
    allClauses := allClauses + clausesActions;
    allClauses := allClauses + clausesExplanatoryFrameAxioms;
    allClauses := allClauses + clausesCompleteExclusionAxioms;
    assert allClauses == CnfFormula(p, n, order);
    var model := solver(Sat.MaxVar, allClauses);
    if model.None? {
      return None, order;
    }
    var decoded := BuildPlan(p, model.value);
    plan := Some(decoded);
  }
}
