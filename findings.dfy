/** What the as-written encoding still guarantees, and the two models that separate it from
    the corrected one and the decoder from a plan. */
module Findings {
  import opened Options
  import opened Bits
  import opened Planning
  import opened Indexer
  import opened Encoding
  import opened Facts
  import opened Soundness

  /** Every clause of the as-written frame axioms is also a corrected frame clause, so a model
      of the corrected frame axioms satisfies the as-written ones. */
  lemma CorrectedFrameImpliesAsWritten(p: Problem, h: nat, model: seq<int>)
    requires Satisfies(model, CorrectedFrameClauses(p, h))
    ensures Satisfies(model, FrameClauses(p, h))
  {
    var frame := FrameClauses(p, h);
    FrameClausesShape(p, h);
    forall i | 0 <= i < |frame| ensures ClauseHolds(model, frame[i]) {
      var c := frame[i];
      assert (c' => FrameShaped(p, h, false, c'))(c);
      var f: nat, t: nat, positive: bool :| FrameOf(p, h, f, t, positive, c);
      FrameHolds(p, model, h, f, t, positive);
    }
  }

  /** The corrected formula is stronger than the as-written one. */
  lemma CorrectedSatisfiesAsWritten(p: Problem, h: nat, order: seq<nat>, model: seq<int>)
    requires WellFormed(p)
    requires Satisfies(model, CorrectedCnfFormula(p, h, order))
    ensures Satisfies(model, CnfFormula(p, h, order))
  {
    var i, g, a, e := InitClauses(p, order), GoalClauses(p, h), ActionClauses(p, h), ExclusionClauses(p, h);
    FormulaParts(p, h, order, model, CorrectedFrameClauses(p, h));
    CorrectedFrameImpliesAsWritten(p, h, model);
    AllConcat(i, g, Sat(model));
    AllConcat(i + g, a, Sat(model));
    AllConcat(i + g + a, FrameClauses(p, h), Sat(model));
    AllConcat(i + g + a + FrameClauses(p, h), e, Sat(model));
  }

  /** What the as-written encoding does guarantee: a model with no action past the horizon
      decodes into at most `h` actions, by the exclusion axioms alone. */
  lemma AsWrittenPlanWithinHorizon(p: Problem, h: nat, order: seq<nat>, model: seq<int>)
    requires WellFormed(p) && ModelOf(model) && Covers(p, model, h) && Decodable(p, model)
    requires Satisfies(model, CnfFormula(p, h, order))
    requires NoActionAfter(p, model, h)
    ensures |Decode(p, model)| <= h
  {
    FormulaParts(p, h, order, model, FrameClauses(p, h));
    if p.fluents + |p.actions| == 0 {
      DecodeNonPositive(p, model);
    } else {
      DecodeIsSteps(p, model, h);
      StepsLength(p, model, h, h);
    }
  }

  /** A model in which `x` and `y` hold satisfies the units `[x]` and `[y]`. */
  lemma UnitsHold(model: seq<int>, cnf: Cnf, x: int, y: int)
    requires Holds(model, x) && Holds(model, y) && cnf == [[x], [y]]
    ensures Satisfies(model, cnf)
  {
    forall i | 0 <= i < |cnf| ensures ClauseHolds(model, cnf[i]) {
      assert Holds(model, cnf[i][0]);
    }
  }

  // ---------------------------------------------------------------------------------------
  // The frame gap

  /** One fluent, false initially and wanted at the end, and no action at all. */
  const GapProblem := Problem(1, [], [false], [true])

  /** Fluent 0 false at layer 0 (variable 1) and true at layer 1 (variable 2). */
  const GapModel := [-1, 2]

  /** The as-written formula for horizon 1 is `[[-1], [2]]`: the fluent has no effectors, so
      no frame clause keeps it false. */
  lemma GapFormula()
    ensures WellFormed(GapProblem) && IsNegOrder(GapProblem, [0])
    ensures CnfFormula(GapProblem, 1, [0]) == [[-1], [2]]
    ensures Satisfies(GapModel, CnfFormula(GapProblem, 1, [0]))
  {
    var p := GapProblem;
    assert SetBitsUpTo(p.init, 1) == [];
    assert SetBits(p.init) == [];
    assert SetBitsUpTo(p.goal, 1) == [1 - 1];
    assert SetBits(p.goal) == [0];
    assert FluentUnits(1, 0, [0], 1) == FluentUnits(1, 0, [], 1) + [[FluentVar(1, 0, 0, 1)]];
    assert NegUnits([0]) == [[-1]];
    assert InitClauses(p, [0]) == [[-1]];
    assert GoalClauses(p, 1) == [[2]];
    assert Effectors(p, 0, 0, true) == [] && Effectors(p, 0, 0, false) == [];
    assert FrameAt(p, 0, 0, false) == [];
    assert FrameForFluent(p, 0, 1, false) == [];
    assert FrameClauses(p, 1) == [];
    UnitsHold(GapModel, CnfFormula(p, 1, [0]), -1, 2);
  }

  /** Both variables assigned, no action to run, and nothing decoded. */
  lemma GapModelFacts()
    ensures ModelOf(GapModel) && Covers(GapProblem, GapModel, 1) && NoActionAfter(GapProblem, GapModel, 1)
    ensures Decodable(GapProblem, GapModel) && Decode(GapProblem, GapModel) == []
  {
    var p, model := GapProblem, GapModel;
    forall i | 0 <= i < |model| ensures model[i] == i + 1 || model[i] == -(i + 1) {
      if i == 0 {
      } else {
        assert i == 1;
      }
    }
    assert Decode(p, model[..1]) == Decode(p, []) + DecodeLit(p, -1);
    assert model[..1] == [-1];
    assert DecodeLit(p, 2) == [];
  }

  /** The empty plan leaves fluent 0 false. */
  lemma GapNotSolves()
    ensures !Solves(GapProblem, [])
  {
    var p := GapProblem;
    assert Positions(p.init) == {};
    assert 0 in Positions(p.goal);
  }

  /** The finding: the model satisfies the as-written formula, assigns every variable, runs no
      action, and decodes into the empty plan, which does not reach the goal. The corrected
      formula rejects the model. */
  lemma FrameGapCounterexample()
    ensures WellFormed(GapProblem) && IsNegOrder(GapProblem, [0])
    ensures ModelOf(GapModel) && Covers(GapProblem, GapModel, 1) && Decodable(GapProblem, GapModel)
    ensures NoActionAfter(GapProblem, GapModel, 1)
    ensures Satisfies(GapModel, CnfFormula(GapProblem, 1, [0]))
    ensures Decode(GapProblem, GapModel) == [] && !Solves(GapProblem, [])
    ensures !Satisfies(GapModel, CorrectedCnfFormula(GapProblem, 1, [0]))
  {
    GapFormula();
    GapModelFacts();
    GapNotSolves();
    GapRejected();
  }

  /** The corrected frame clause `[1, -2]` (fluent 0 stays false) fails in the model. */
  lemma GapRejected()
    ensures !Satisfies(GapModel, CorrectedCnfFormula(GapProblem, 1, [0]))
  {
    var p, model := GapProblem, GapModel;
    var c := FrameClause(p, 0, 0, true);
    assert Effectors(p, 0, 0, true) == [];
    assert c == [1, -2];
    assert !Holds(model, c[0]) && !Holds(model, c[1]);
    assert !ClauseHolds(model, c);
    if Satisfies(model, CorrectedCnfFormula(p, 1, [0])) {
      GapFormula();
      FormulaParts(p, 1, [0], model, CorrectedFrameClauses(p, 1));
      FrameHolds(p, model, 1, 0, 0, true);
      assert false;
    }
  }

  // ---------------------------------------------------------------------------------------
  // The decoder reads past the horizon

  /** One fluent, true initially and wanted; one action that needs it false. */
  const LateProblem := Problem(1, [Action([], [true], [], [])], [true], [true])

  /** Fluent 0 true at layer 0 (variable 1) and action 0 set at step 0 (variable 2). */
  const LateModel := [1, 2]

  /** With horizon 0 both formulas are `[[1], [1]]`, the initial and the goal unit, and the
      model satisfies them. */
  lemma LateFormula()
    ensures WellFormed(LateProblem) && IsNegOrder(LateProblem, [])
    ensures CnfFormula(LateProblem, 0, []) == [[1], [1]]
    ensures CorrectedCnfFormula(LateProblem, 0, []) == [[1], [1]]
    ensures Satisfies(LateModel, CnfFormula(LateProblem, 0, []))
    ensures Satisfies(LateModel, CorrectedCnfFormula(LateProblem, 0, []))
  {
    var p := LateProblem;
    assert Bit(p.init, 0);
    assert SetBitsUpTo(p.init, 1) == [1 - 1];
    assert SetBits(p.init) == [0] && SetBits(p.goal) == [0];
    assert FluentUnits(1, 1, [0], 0) == FluentUnits(1, 1, [], 0) + [[FluentVar(1, 1, 0, 0)]];
    assert InitClauses(p, []) == [[1]];
    assert GoalClauses(p, 0) == [[1]];
    assert ExclusionRow(p, 0, 0, 0) == [];
    assert FrameForFluent(p, 0, 0, false) == [] && FrameForFluent(p, 0, 0, true) == [];
    assert Holds(LateModel, 1);
    UnitsHold(LateModel, CnfFormula(p, 0, []), 1, 1);
    UnitsHold(LateModel, CorrectedCnfFormula(p, 0, []), 1, 1);
  }

  /** The model decodes into action 0, read from step 0 = the horizon. */
  lemma LateDecode()
    ensures Decodable(LateProblem, LateModel) && Decode(LateProblem, LateModel) == [0]
  {
    var p, model := LateProblem, LateModel;
    assert model[..1] == [1];
    assert Decode(p, model[..1]) == Decode(p, []) + DecodeLit(p, 1);
    assert DecodeLit(p, 2) == [0];
  }

  /** Action 0 needs fluent 0 false, and fluent 0 is initially true. */
  lemma LateNotSolves()
    ensures !Solves(LateProblem, [0])
  {
    var p := LateProblem;
    assert 0 in Positions(p.init);
    assert !Applicable(p.actions[0], Positions(p.init));
    assert [0][..0] == [];
  }

  lemma LateModelOf()
    ensures ModelOf(LateModel)
  {
    forall i | 0 <= i < |LateModel| ensures LateModel[i] == i + 1 {
      if i == 0 {
      } else {
        assert i == 1;
      }
    }
  }

  /** The model sets action 0 at step 0, which is not before the horizon 0. */
  lemma LateAction()
    ensures !NoActionAfter(LateProblem, LateModel, 0)
  {
    assert Holds(LateModel, ActionVar(1, 1, 0, 0));
  }

  /** With horizon 0 the model satisfies both formulas, yet the decoder returns a plan longer
      than the horizon that is not even executable: the decoder reads every positive action
      variable of the model, including those past the horizon. */
  lemma DecoderNeedsHorizonBound()
    ensures WellFormed(LateProblem) && IsNegOrder(LateProblem, [])
    ensures ModelOf(LateModel) && Covers(LateProblem, LateModel, 0)
    ensures Satisfies(LateModel, CnfFormula(LateProblem, 0, []))
    ensures Satisfies(LateModel, CorrectedCnfFormula(LateProblem, 0, []))
    ensures !NoActionAfter(LateProblem, LateModel, 0)
    ensures Decodable(LateProblem, LateModel) && Decode(LateProblem, LateModel) == [0]
    ensures !Solves(LateProblem, [0])
  {
    LateFormula();
    LateModelOf();
    LateDecode();
    LateNotSolves();
    LateAction();
  }
}
