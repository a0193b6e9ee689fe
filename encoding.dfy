/** The CNF encoding of a grounded problem for a fixed horizon, as functions: each family of
    clauses in the order the encoders of the planner emit them, the formula they are merged
    into, and the reading of a model back into a plan. The imperative encoders of modules
    `Sat` and `Asp` are proved to compute exactly these values. */
module Encoding {
  import opened Options
  import opened Bits
  import opened Planning
  import opened Indexer

  /** A clause in DIMACS form: signed variables, read as a disjunction. */
  type Clause = seq<int>
  /** A formula: a list of clauses, read as a conjunction. */
  type Cnf = seq<Clause>

  /** Every element of `s` is below `n`. */
  predicate Below(s: seq<nat>, n: nat) {
    forall i :: 0 <= i < |s| ==> s[i] < n
  }

  /** Every clause of `a` is a clause of `b`. */
  predicate Sub(a: Cnf, b: Cnf) {
    forall c :: c in a ==> c in b
  }

  /** `v` when `positive`, else `-v`. */
  function Lit(v: int, positive: bool): int {
    if positive then v else -v
  }

  lemma SetBitsBelow(b: BitVector, n: nat)
    requires Within(b, n)
    ensures Below(SetBits(b), n)
  {
    SetBitsMembers(b);
    forall i | 0 <= i < |SetBits(b)| ensures SetBits(b)[i] < n {
      assert SetBits(b)[i] in SetBits(b);
    }
  }

  // ---------------------------------------------------------------------------------------
  // Initial state and goal

  /** One unit clause `[FluentVar(f, t)]` per fluent `f` of `fs`, in order. */
  function FluentUnits(n: nat, m: nat, fs: seq<nat>, t: nat): (r: Cnf)
    requires Below(fs, n)
    ensures |r| == |fs|
  {
    if fs == [] then [] else FluentUnits(n, m, fs[..|fs| - 1], t) + [[FluentVar(n, m, fs[|fs| - 1], t)]]
  }

  lemma FluentUnitsSnoc(n: nat, m: nat, fs: seq<nat>, f: nat, t: nat)
    requires Below(fs, n) && f < n
    ensures Below(fs + [f], n)
    ensures FluentUnits(n, m, fs + [f], t) == FluentUnits(n, m, fs, t) + [[FluentVar(n, m, f, t)]]
  {
    assert (fs + [f])[..|fs|] == fs;
  }

  /** One unit clause `[-(f+1)]` per fluent `f` of `fs`, in order. */
  function NegUnits(fs: seq<nat>): (r: Cnf)
    ensures |r| == |fs|
  {
    if fs == [] then [] else NegUnits(fs[..|fs| - 1]) + [[-(fs[|fs| - 1] as int + 1)]]
  }

  lemma NegUnitsSnoc(fs: seq<nat>, f: nat)
    ensures NegUnits(fs + [f]) == NegUnits(fs) + [[-(f as int + 1)]]
  {
    assert (fs + [f])[..|fs|] == fs;
  }

  /** No element occurs twice. */
  predicate Distinct(s: seq<nat>) {
    forall i, j :: 0 <= i < j < |s| ==> s[i] != s[j]
  }

  lemma DistinctSnoc(s: seq<nat>, x: nat)
    requires Distinct(s) && x !in s
    ensures Distinct(s + [x])
  {
  }

  /** The fluents absent from the initial state, each exactly once, in the order a hash set
      of them happens to be traversed. */
  ghost predicate IsNegOrder(p: Problem, order: seq<nat>) {
    && Distinct(order)
    && (forall f: nat :: f in order <==> f < p.fluents && !Bit(p.init, f))
  }

  /** `encodeInitialState`: the positive initial fluents in ascending order, then the
      closed-world negations of all other fluents in the order `order`. */
  function InitClauses(p: Problem, order: seq<nat>): Cnf
    requires WellFormed(p)
  {
    SetBitsBelow(p.init, p.fluents);
    FluentUnits(p.fluents, |p.actions|, SetBits(p.init), 0) + NegUnits(order)
  }

  /** `encodeFinalState`: the goal's positive fluents at the last layer, in ascending order. */
  function GoalClauses(p: Problem, horizon: nat): Cnf
    requires WellFormed(p)
  {
    SetBitsBelow(p.goal, p.fluents);
    FluentUnits(p.fluents, |p.actions|, SetBits(p.goal), horizon)
  }

  // ---------------------------------------------------------------------------------------
  // Actions

  /** One clause `[-av, ±FluentVar(f, t)]` per fluent `f` of `fs`: "`av` implies the literal". */
  function Implications(n: nat, m: nat, av: int, fs: seq<nat>, t: nat, positive: bool): (r: Cnf)
    requires Below(fs, n)
    ensures |r| == |fs|
  {
    if fs == [] then []
    else Implications(n, m, av, fs[..|fs| - 1], t, positive) + [[-av, Lit(FluentVar(n, m, fs[|fs| - 1], t), positive)]]
  }

  lemma ImplicationsSnoc(n: nat, m: nat, av: int, fs: seq<nat>, f: nat, t: nat, positive: bool)
    requires Below(fs, n) && f < n
    ensures Below(fs + [f], n)
    ensures Implications(n, m, av, fs + [f], t, positive)
            == Implications(n, m, av, fs, t, positive) + [[-av, Lit(FluentVar(n, m, f, t), positive)]]
  {
    assert (fs + [f])[..|fs|] == fs;
  }

  /** The clauses of action `a` at step `t`: preconditions at layer t, effects at layer t+1,
      each family in ascending fluent order. */
  function ActionClausesAt(p: Problem, a: nat, t: nat): Cnf
    requires WellFormed(p) && a < |p.actions|
  {
    ActionPart(p, a, t, 0) + ActionPart(p, a, t, 1) + ActionPart(p, a, t, 2) + ActionPart(p, a, t, 3)
  }

  /** Part `i` of the clauses of action `a` at step `t`: the positive precondition (0), the
      negative precondition (1), the positive effect (2), the negative effect (3). */
  function ActionPart(p: Problem, a: nat, t: nat, i: nat): Cnf
    requires WellFormed(p) && a < |p.actions| && i < 4
  {
    var n, m, act := p.fluents, |p.actions|, p.actions[a];
    var b := match i case 0 => act.prePos case 1 => act.preNeg case 2 => act.effPos case _ => act.effNeg;
    assert Within(b, n);
    SetBitsBelow(b, n);
    Implications(n, m, ActionVar(n, m, a, t), SetBits(b), if i < 2 then t else t + 1, i % 2 == 0)
  }

  lemma Append3(x: Cnf, a: Cnf, b: Cnf)
    ensures x + a + b == x + (a + b)
  {
  }

  lemma Append4(x: Cnf, a: Cnf, b: Cnf, c: Cnf, d: Cnf)
    ensures x + a + b + c + d == x + (a + b + c + d)
  {
  }

  /** The clauses of actions 0..k-1 at step `t`. */
  function ActionClausesStep(p: Problem, t: nat, k: nat): Cnf
    requires WellFormed(p) && k <= |p.actions|
  {
    if k == 0 then [] else ActionClausesStep(p, t, k - 1) + ActionClausesAt(p, k - 1, t)
  }

  /** `encodeActions`: steps 0..horizon-1, each with all actions in order. */
  function ActionClauses(p: Problem, horizon: nat): Cnf
    requires WellFormed(p)
  {
    if horizon == 0 then []
    else ActionClauses(p, horizon - 1) + ActionClausesStep(p, horizon - 1, |p.actions|)
  }

  // ---------------------------------------------------------------------------------------
  // Explanatory frame axioms

  /** The actions among 0..k-1 that have fluent `f` as a positive (resp. negative) effect, in
      action order: the lists `positiveEffectOnFluent[f]` and `negativeEffectOnFluent[f]`. */
  function Effectors(p: Problem, f: nat, k: nat, positive: bool): (r: seq<nat>)
    requires k <= |p.actions|
    ensures Below(r, k)
  {
    if k == 0 then []
    else Effectors(p, f, k - 1, positive) + (if Bit(Effect(p.actions[k - 1], positive), f) then [k - 1] else [])
  }

  /** The variables of the actions `acts` at step `t`. */
  function ActionLits(n: nat, m: nat, acts: seq<nat>, t: nat): (r: seq<int>)
    requires Below(acts, m)
    ensures |r| == |acts|
  {
    if acts == [] then [] else ActionLits(n, m, acts[..|acts| - 1], t) + [ActionVar(n, m, acts[|acts| - 1], t)]
  }

  /** The explanatory frame clause of fluent `f` between layers t and t+1: for `positive`,
      `[f@t, -f@t+1, a1@t, ...]` ("f became true only if an action adding it ran"); otherwise
      `[-f@t, f@t+1, a1@t, ...]` over the actions deleting it. */
  function FrameClause(p: Problem, f: nat, t: nat, positive: bool): Clause
    requires f < p.fluents
  {
    var n, m := p.fluents, |p.actions|;
    [Lit(FluentVar(n, m, f, t), positive), Lit(FluentVar(n, m, f, t + 1), !positive)]
    + ActionLits(n, m, Effectors(p, f, m, positive), t)
  }

  /** The frame clauses of fluent `f` at step `t`. As written, the planner emits a clause only
      when its action list is non-empty (`complete == false`); `complete == true` is the
      corrected encoding, which always emits both. */
  function FrameAt(p: Problem, f: nat, t: nat, complete: bool): Cnf
    requires f < p.fluents
  {
    var m := |p.actions|;
    (if complete || |Effectors(p, f, m, true)| != 0 then [FrameClause(p, f, t, true)] else [])
    + (if complete || |Effectors(p, f, m, false)| != 0 then [FrameClause(p, f, t, false)] else [])
  }

  /** The frame clauses of fluent `f` at steps 0..k-1. */
  function FrameForFluent(p: Problem, f: nat, k: nat, complete: bool): Cnf
    requires f < p.fluents
  {
    if k == 0 then [] else FrameForFluent(p, f, k - 1, complete) + FrameAt(p, f, k - 1, complete)
  }

  /** The frame clauses of fluents 0..k-1, each at steps 0..horizon-1. */
  function FrameUpTo(p: Problem, horizon: nat, k: nat, complete: bool): Cnf
    requires k <= p.fluents
  {
    if k == 0 then [] else FrameUpTo(p, horizon, k - 1, complete) + FrameForFluent(p, k - 1, horizon, complete)
  }

  /** `encodeExplanatoryFrameAxioms` as written. */
  function FrameClauses(p: Problem, horizon: nat): Cnf {
    FrameUpTo(p, horizon, p.fluents, false)
  }

  /** The corrected frame axioms: both clauses for every fluent and step. */
  function CorrectedFrameClauses(p: Problem, horizon: nat): Cnf {
    FrameUpTo(p, horizon, p.fluents, true)
  }

  // ---------------------------------------------------------------------------------------
  // Complete exclusion axioms

  /** `[-a_i@t, -a_j@t]` for steps t in 0..k-1. */
  function ExclusionPair(p: Problem, i: nat, j: nat, k: nat): Cnf
    requires i < |p.actions| && j < |p.actions|
  {
    var n, m := p.fluents, |p.actions|;
    if k == 0 then [] else ExclusionPair(p, i, j, k - 1) + [[-ActionVar(n, m, i, k - 1), -ActionVar(n, m, j, k - 1)]]
  }

  /** The exclusion clauses pairing action `i` with actions 0..k-1. */
  function ExclusionRow(p: Problem, horizon: nat, i: nat, k: nat): Cnf
    requires k <= i < |p.actions|
  {
    if k == 0 then [] else ExclusionRow(p, horizon, i, k - 1) + ExclusionPair(p, i, k - 1, horizon)
  }

  /** The exclusion clauses of actions 0..k-1, each paired with every smaller action. */
  function ExclusionUpTo(p: Problem, horizon: nat, k: nat): Cnf
    requires k <= |p.actions|
  {
    if k == 0 then [] else ExclusionUpTo(p, horizon, k - 1) + ExclusionRow(p, horizon, k - 1, k - 1)
  }

  /** `encodeCompleteExclusionAxioms`. */
  function ExclusionClauses(p: Problem, horizon: nat): Cnf {
    ExclusionUpTo(p, horizon, |p.actions|)
  }

  // ---------------------------------------------------------------------------------------
  // The whole formula and the plan decoder

  /** `encodeProblemAsCNF`: the five families merged in the planner's fixed order. */
  function CnfFormula(p: Problem, horizon: nat, order: seq<nat>): Cnf
    requires WellFormed(p)
  {
    InitClauses(p, order) + GoalClauses(p, horizon) + ActionClauses(p, horizon)
    + FrameClauses(p, horizon) + ExclusionClauses(p, horizon)
  }

  /** The same formula with the corrected frame axioms. */
  function CorrectedCnfFormula(p: Problem, horizon: nat, order: seq<nat>): Cnf
    requires WellFormed(p)
  {
    InitClauses(p, order) + GoalClauses(p, horizon) + ActionClauses(p, horizon)
    + CorrectedFrameClauses(p, horizon) + ExclusionClauses(p, horizon)
  }

  /** The inverse lookup is defined on every literal of the model: it divides by N+M as soon
      as a literal is positive. */
  predicate Decodable(p: Problem, model: seq<int>) {
    p.fluents + |p.actions| > 0 || forall i :: 0 <= i < |model| ==> model[i] <= 0
  }

  /** What one literal of the model contributes to the plan. */
  function DecodeLit(p: Problem, l: int): (r: seq<nat>)
    requires l <= 0 || p.fluents + |p.actions| > 0
    ensures |r| <= 1 && Below(r, |p.actions|)
    ensures l <= 0 ==> r == []
  {
    match ActionWithIdx(p.fluents, |p.actions|, l)
    case None => []
    case Some(a) => [a]
  }

  /** `constructPlanFromModel`: the actions of the model's literals, in model order. */
  function Decode(p: Problem, model: seq<int>): (r: seq<nat>)
    requires Decodable(p, model)
    ensures |r| <= |model| && Below(r, |p.actions|)
  {
    if model == [] then []
    else Decode(p, model[..|model| - 1]) + DecodeLit(p, model[|model| - 1])
  }
}
