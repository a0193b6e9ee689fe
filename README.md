# SATPLAN encoding of a grounded planning problem, verified

This project models the core of the `demo.SAT` and `demo.ASP` planners. Both compile a
grounded STRIPS-style problem and a fixed horizon `h` into a CNF formula, Kautz–Selman style,
hand it to a SAT solver, and read the plan back from the model.

The problem has `N` fluents and `M` actions. Each action has positive and negative
preconditions and effects, held as bit vectors. Fluent `f` at layer `t` is the variable
`(N+M)*t + 1 + f`, and action `a` at step `t` is the variable `(N+M)*t + 1 + N + a`.
The formula is the concatenation of five clause families:

- the initial state: a unit for every fluent at layer 0, positive or negative;
- the goal: a positive unit for every goal fluent at layer `h`;
- the actions: `[-a@t, ±f@t]` for every precondition and `[-a@t, ±f@t+1]` for every effect;
- the explanatory frame axioms: `[f@t, -f@t+1, adders@t…]` and `[-f@t, f@t+1, deleters@t…]`;
- the complete exclusion axioms: `[-ai@t, -aj@t]` for every pair `j < i`.

The decoder walks the model and appends the action of every literal that the inverse of the
numbering maps to an action.

The project is laid out as follows:

- `bits.dfy` (module `Bits`) models the pddl4j bit vector. It provides `nextSetBit` and
  `nextClearBit`, and the ascending list of set positions that every scan of a vector produces.
- `problem.dfy` (modules `Options` and `Planning`) holds the problem as a value, and the
  well-formedness condition that every set bit names a fluent below `N`.
- `indexer.dfy` (module `Indexer`) holds the variable numbering and its inverse, with layout,
  stride, injectivity, surjectivity and inverse lemmas.
- `encoding.dfy` (module `Encoding`) gives every clause family, the merged formula and the
  decoder as functions. These are the specifications the imperative code is proved against.
- `sat.dfy` (module `Sat`) and `asp.dfy` (module `Asp`) are the two planners' encoders, merge,
  decoder and `solve`. They are written as the Java is: `nextSetBit` loops, a hash set of
  absent fluents, arrays of effector lists, and a plan built by insertion at a running index.
  Every method is proved to return exactly the value the `Encoding` function specifies, so
  both planners hand the solver the same formula.
- `facts.dfy` (module `Facts`) proves what each family contains: the shape of each clause,
  which clauses occur, the order, and the number of clauses. It also proves how the decoder
  composes over a model. For the action family both halves of membership
  (`ActionClausesOnly`, `ActionClausePresent`), and for the frame family the converse half
  (`FrameClausesPresent`), are proved in `Soundness` by its descent lemmas.
- `soundness.dfy` (module `Soundness`) gives plans a semantics (`Run`, `Solves`) and models one
  (`Holds`, `Satisfies`). It proves that the encoding with complete frame axioms is sound: a
  model of the formula decodes into a plan of at most `h` actions that runs from the initial
  state and reaches the goal.
- `findings.dfy` (module `Findings`) holds what the as-written encoding still guarantees, and
  two concrete models. The first shows that the as-written frame axioms are unsound. The
  second shows why the soundness theorem needs its horizon hypothesis.

The SAT solver is not modelled. `Solve` takes it as a function parameter from the number of
variables and the formula to an optional model, with `None` standing for "unsatisfiable",
"timeout" or "contradiction while loading the clauses". The decoder treats a model as a plain
list of literals and assumes nothing about it. The soundness theorem reads a model as a full
assignment: index `i` holds `i+1` or `-(i+1)` (`Soundness.ModelOf`), for every variable up
to layer `h` (`Soundness.Covers`). This reading is an assumption of the model. The source
states no such property of the solver's answer.

One might expect a fluent that no action affects to stay fixed across the layers. The frame
encoder (SAT.java:489-526) gives such a fluent no frame clause at all, so only its value at
layer 0 is fixed. The consequence is the finding below.

## Model

| member | source | states |
|---|---|---|
| Bits.NextSetBit | app/src/main/java/demo/SAT.java:296 | `nextSetBit(from)` is -1 or a set position at or after `from` |
| Bits.NextSetBitSkips | app/src/main/java/demo/SAT.java:296 | every position between `from` and the result of `nextSetBit` is clear |
| Bits.NextSetBitStep | app/src/main/java/demo/SAT.java:296 | one step of a `nextSetBit` loop appends the next set position to the ascending scan; -1 means the scan is complete |
| Bits.NextClearBit | app/src/main/java/demo/ASP.java:151 | `nextClearBit(from)` is the first clear position at or after `from`; every position in between is set |
| Bits.SetBitsMembers | app/src/main/java/demo/SAT.java:296 | the scan of a vector lists exactly its set bits |
| Bits.SetBitsIncreasing | app/src/main/java/demo/SAT.java:296 | the scan is strictly ascending and stays below the vector's length |
| Bits.SetBitsCount | app/src/main/java/demo/SAT.java:296 | the scan has as many entries as the vector has set bits |
| Bits.SetBitsClearRange | app/src/main/java/demo/SAT.java:296 | a range of clear bits adds nothing to the scan |
| Bits.SetAgain | app/src/main/java/demo/SAT.java:308 | the `set(p)` after each visit leaves the vector unchanged |
| Indexer.FluentVar | app/src/main/java/demo/SAT.java:218-221 | the variable of a fluent at step t lies among the first N variables of block t |
| Indexer.ActionVar | app/src/main/java/demo/SAT.java:246-250 | the variable of an action at step t lies among the last M variables of block t |
| Indexer.ActionWithIdx | app/src/main/java/demo/SAT.java:262-275 | the inverse yields an action below M, and only for a positive id |
| Indexer.Layout | app/src/main/java/demo/SAT.java:218-250 | every variable is positive and lies in the block of its step, fluents before actions |
| Indexer.Stride | app/src/main/java/demo/SAT.java:554-563 | the variable of the same fluent or action advances by N+M per step; this is the `decalage` of the exclusion encoder |
| Indexer.Injective | app/src/main/java/demo/SAT.java:218-250 | distinct (kind, index, step) triples get distinct variables |
| Indexer.EveryIdIsAVar | app/src/main/java/demo/SAT.java:218-250 | every positive integer is the variable of some fluent or action at some step |
| Indexer.IdDecomposes | app/src/main/java/demo/SAT.java:262-275 | the quotient of `id - 1` by N+M is the step, and the remainder is the position in the block |
| Indexer.ActionVarDecodes | app/src/main/java/demo/SAT.java:262-275 | the inverse maps the variable of action a at any step back to a |
| Indexer.FluentVarDecodesToNone | app/src/main/java/demo/SAT.java:262-275 | the inverse maps every fluent variable to `null` |
| Indexer.ActionWithIdxExact | app/src/main/java/demo/SAT.java:262-275 | the inverse yields action a exactly for the variable of a at the step the id lies in (if and only if) |
| Encoding.FluentUnits | app/src/main/java/demo/SAT.java:296-308 | one positive unit clause per listed fluent, at the given layer; as many clauses as fluents |
| Encoding.NegUnits | app/src/main/java/demo/SAT.java:311-314 | one negative unit `[-(f+1)]` per absent fluent, in the order given; as many clauses as fluents |
| Encoding.IsNegOrder | app/src/main/java/demo/SAT.java:291-301 | the traversal order of the `fluentsNotInInitState` hash set: every fluent below N that is false initially, each exactly once, in an order the model leaves open |
| Encoding.InitClauses | app/src/main/java/demo/SAT.java:284-319 | specification of `encodeInitialState`: the units of the initial fluents in ascending order, then the closed-world negations; its contents are proved by `Facts.InitClausesCover`, `Facts.InitClausesOnly` and `Facts.InitClausesCount` |
| Encoding.GoalClauses | app/src/main/java/demo/SAT.java:328-351 | specification of `encodeFinalState`: one positive unit per goal fluent at layer h, ascending; proved by `Facts.GoalClausesMembers` |
| Encoding.Implications | app/src/main/java/demo/SAT.java:385-438 | one clause `[-a@t, ±f@t']` per fluent of a vector: the action implies the literal; as many clauses as set bits |
| Encoding.ActionPart | app/src/main/java/demo/SAT.java:384-438 | specification of one of the four `nextSetBit` loops of an action: positive and negative preconditions at layer t, positive and negative effects at layer t+1 |
| Encoding.ActionClausesAt | app/src/main/java/demo/SAT.java:377-439 | specification of the body of the action loop: the four families of one action at one step, in source order |
| Encoding.ActionClausesStep | app/src/main/java/demo/SAT.java:370-440 | specification of one pass of the loop over the actions at a step, in action order |
| Encoding.ActionClauses | app/src/main/java/demo/SAT.java:360-447 | specification of `encodeActions`: the steps below h in order; the members are characterised both ways by `Soundness.ActionClausesOnly` and `Soundness.ActionClausePresent` |
| Encoding.Effectors | app/src/main/java/demo/SAT.java:470-485 | the `positiveEffectOnFluent` (`negativeEffectOnFluent`) list of a fluent: the actions adding (deleting) it, in ascending order, all below M |
| Encoding.ActionLits | app/src/main/java/demo/SAT.java:502-506 | the variables of a list of actions at a step, one per action |
| Encoding.FrameClause | app/src/main/java/demo/SAT.java:489-526 | the explanatory frame clause `[±f@t, ∓f@t+1, effectors@t…]` of a fluent between two layers |
| Encoding.FrameAt | app/src/main/java/demo/SAT.java:489-526 | the frame clauses of one fluent at one step: as written only those whose effector list is non-empty, both when corrected |
| Encoding.FrameForFluent | app/src/main/java/demo/SAT.java:488-527 | specification of the step loop of the frame encoder for one fluent |
| Encoding.FrameUpTo | app/src/main/java/demo/SAT.java:487-528 | specification of the fluent loop of the frame encoder |
| Encoding.FrameClauses | app/src/main/java/demo/SAT.java:456-532 | specification of `encodeExplanatoryFrameAxioms` as written; its members are characterised both ways by `Facts.FrameClausesShape` and `Soundness.FrameClausesPresent` |
| Encoding.CorrectedFrameClauses | app/src/main/java/demo/SAT.java:487-528 | the corrected definition of the frame axioms: both frame clauses of every fluent at every step, whatever its effector lists |
| Encoding.ExclusionPair | app/src/main/java/demo/SAT.java:559-566 | the clauses `[-ai@t, -aj@t]` of one action pair for every step below h |
| Encoding.ExclusionRow | app/src/main/java/demo/SAT.java:549-567 | the exclusion clauses pairing one action with every smaller action |
| Encoding.ExclusionUpTo | app/src/main/java/demo/SAT.java:547-568 | specification of the outer loop of the exclusion encoder |
| Encoding.ExclusionClauses | app/src/main/java/demo/SAT.java:541-571 | specification of `encodeCompleteExclusionAxioms`: every pair of distinct actions excluded at every step |
| Encoding.CnfFormula | app/src/main/java/demo/SAT.java:637-659 | specification of `encodeProblemAsCNF`: the five families merged in the source's fixed order |
| Encoding.CorrectedCnfFormula | app/src/main/java/demo/SAT.java:637-659 | the corrected definition of the merged formula, with `CorrectedFrameClauses` in place of the as-written frame axioms |
| Encoding.Decodable | app/src/main/java/demo/SAT.java:667-680 | the decoder's division by N+M is defined on every literal of the model |
| Encoding.DecodeLit | app/src/main/java/demo/SAT.java:670-677 | a literal contributes at most one action, below M; a non-positive literal contributes nothing |
| Encoding.Decode | app/src/main/java/demo/SAT.java:667-680 | the plan is no longer than the model and names actions below M only |
| Facts.InitClausesCount | app/src/main/java/demo/SAT.java:284-319 | the initial-state encoder emits exactly N clauses |
| Facts.InitClausesCover | app/src/main/java/demo/SAT.java:284-319 | every fluent gets its unit at layer 0: positive if initially true, negative otherwise |
| Facts.InitClausesOnly | app/src/main/java/demo/SAT.java:284-319 | every initial-state clause is the closed-world unit of some fluent |
| Facts.InitPositivesAscending | app/src/main/java/demo/SAT.java:296-309 | the positive units come first, in ascending fluent order |
| Facts.GoalClausesMembers | app/src/main/java/demo/SAT.java:328-351 | a clause is a goal clause if and only if it is the positive unit of a goal fluent at layer h |
| Facts.GoalClausesShape | app/src/main/java/demo/SAT.java:328-351 | one positive unit per goal fluent, in ascending order |
| Facts.FluentUnitsShape | app/src/main/java/demo/SAT.java:304-306 | the i-th unit is the variable of the i-th listed fluent |
| Facts.NegUnitsShape | app/src/main/java/demo/SAT.java:311-314 | the i-th negative unit is `-(f+1)` for the i-th fluent of the hash-set order |
| Facts.ImplicationsShape | app/src/main/java/demo/SAT.java:385-394 | the i-th implication is `[-a, ±f]` for the i-th fluent of the vector |
| Facts.ActionLitsShape | app/src/main/java/demo/SAT.java:502-505 | the i-th action literal of a frame clause is the variable of the i-th effector |
| Facts.PartShape | app/src/main/java/demo/SAT.java:384-438 | each of the four families of an action has one clause per set bit of its vector, in order, with the right layer and sign |
| Facts.PartMembers | app/src/main/java/demo/SAT.java:384-438 | a clause belongs to a family of an action if and only if it is that family's implication for one of its fluents |
| Facts.PartClauseOf | app/src/main/java/demo/SAT.java:384-438 | every clause of a family is the implication for one of its fluents |
| Facts.PartClauseMember | app/src/main/java/demo/SAT.java:384-438 | the implication for every fluent of a family is among its clauses |
| Facts.ActionClausesAtMembers | app/src/main/java/demo/SAT.java:377-439 | the clauses of an action at a step are exactly its precondition and effect implications |
| Facts.ActionClausesAtCount | app/src/main/java/demo/SAT.java:377-439 | an action emits one clause per set bit of its four vectors |
| Facts.StepCount | app/src/main/java/demo/SAT.java:370-441 | one step emits the sum of the action sizes |
| Facts.ActionClausesCount | app/src/main/java/demo/SAT.java:360-447 | the action encoder emits h times the per-step count |
| Facts.EffectorsMembers | app/src/main/java/demo/SAT.java:470-484 | the effector list of a fluent holds exactly the actions that add (delete) it |
| Facts.EffectorsIncreasing | app/src/main/java/demo/SAT.java:470-484 | the effector list is in ascending action order |
| Facts.FrameClauseShape | app/src/main/java/demo/SAT.java:489-526 | a frame clause is the fluent literal at t, its opposite at t+1, then every effector's variable at t |
| Soundness.ActionClausesOnly | app/src/main/java/demo/SAT.java:360-447 | every clause of `encodeActions` is an implication of some action below M at some step below h, for a fluent of one of its four vectors |
| Facts.FrameClausesShape | app/src/main/java/demo/SAT.java:487-528 | as written, every frame clause belongs to a fluent below N, a step below h and a non-empty effector list |
| Soundness.FrameClausesPresent | app/src/main/java/demo/SAT.java:487-528 | conversely, as written, a fluent below N at a step below h that some action adds (deletes) gets its clause about becoming true (false) |
| Facts.CorrectedFrameShape | app/src/main/java/demo/SAT.java:487-528 | the corrected axioms hold frame clauses only |
| Facts.FrameForFluentCount | app/src/main/java/demo/SAT.java:488-527 | a fluent gets h times its per-step number of frame clauses |
| Facts.FrameUpToCount | app/src/main/java/demo/SAT.java:487-528 | the frame encoder emits h times the sum of the per-fluent widths |
| Facts.CorrectedFrameCount | app/src/main/java/demo/SAT.java:487-528 | the corrected axioms have 2·h·N clauses |
| Facts.ExclusionPairShaped | app/src/main/java/demo/SAT.java:559-565 | the clauses of a pair j < i forbid the two actions at each step below h |
| Facts.ExclusionClausesShape | app/src/main/java/demo/SAT.java:541-571 | every exclusion clause forbids two distinct actions at one step below h |
| Facts.ExclusionPairCount | app/src/main/java/demo/SAT.java:559-565 | one clause per step for each pair |
| Facts.ExclusionRowCount | app/src/main/java/demo/SAT.java:549-566 | action i is paired with the i actions before it |
| Facts.ExclusionClausesCount | app/src/main/java/demo/SAT.java:541-571 | the encoder emits h·M(M-1)/2 clauses |
| Facts.DecodablePrefix | app/src/main/java/demo/SAT.java:667-680 | every prefix of a decodable model is decodable |
| Facts.DecodeExtend | app/src/main/java/demo/SAT.java:670-678 | reading one more literal appends what that literal decodes to |
| Facts.DecodeSnoc | app/src/main/java/demo/SAT.java:670-678 | decoding a model with one more literal appends that literal's action, if any |
| Facts.DecodeConcat | app/src/main/java/demo/SAT.java:667-680 | decoding a concatenation concatenates the decodings |
| Facts.DecodeNonPositive | app/src/main/java/demo/SAT.java:262-265 | a model without positive literals decodes to the empty plan |
| Sat.EncodeInitialState | app/src/main/java/demo/SAT.java:284-319 | returns the positive units of the initial fluents in ascending order, then a negative unit for every other fluent, each once, in hash-set order |
| Sat.PushNegUnits | app/src/main/java/demo/SAT.java:311-314 | appends `[-(f+1)]` for each element of the hash set, each exactly once |
| Sat.EncodeFinalState | app/src/main/java/demo/SAT.java:328-351 | returns the goal clauses at layer h |
| Sat.PushImplications | app/src/main/java/demo/SAT.java:384-394 | appends `[-a@t, ±f@t]` for every set bit of the vector, in order |
| Sat.PushAction | app/src/main/java/demo/SAT.java:377-439 | appends the four implication families of one action |
| Sat.PushActionsAt | app/src/main/java/demo/SAT.java:370-441 | appends the clauses of every action at one step |
| Sat.EncodeActions | app/src/main/java/demo/SAT.java:360-447 | returns the action clauses of steps 0..h-1 |
| Sat.AddEffector | app/src/main/java/demo/SAT.java:471-483 | appends the action to the list of every fluent of its effect and leaves the other lists alone |
| Sat.EffectorLists | app/src/main/java/demo/SAT.java:462-484 | builds, for every fluent, the ascending lists of the actions adding and deleting it |
| Sat.PushActionVars | app/src/main/java/demo/SAT.java:502-505 | appends the variable at t of every listed action |
| Sat.PushFrameForFluent | app/src/main/java/demo/SAT.java:488-527 | appends the as-written frame clauses of one fluent for steps 0..h-1 |
| Sat.EncodeExplanatoryFrameAxioms | app/src/main/java/demo/SAT.java:456-532 | returns the as-written frame axioms, with no clause for an empty effector list |
| Sat.EncodeCompleteExclusionAxioms | app/src/main/java/demo/SAT.java:541-571 | returns the exclusion clauses; the shifted step-0 variables equal the step-t variables |
| Sat.EncodeProblemAsCnf | app/src/main/java/demo/SAT.java:637-659 | returns the five families concatenated in the planner's order |
| Sat.ConstructPlanFromModel | app/src/main/java/demo/SAT.java:667-680 | returns the actions of the model's action literals, in model order |
| Sat.Solve | app/src/main/java/demo/SAT.java:689-736 | returns no plan when the solver finds no model, and otherwise the decoding of the solver's model of the formula |
| Asp.ConvertBitArrayToListInteger | app/src/main/java/demo/ASP.java:136-159 | the run-by-run walk lists exactly the set bits, ascending |
| Asp.GetFluentIdx | app/src/main/java/demo/ASP.java:161-181 | equals the `Sat` fluent numbering |
| Asp.GetActionIdx | app/src/main/java/demo/ASP.java:183-204 | equals the `Sat` action numbering |
| Asp.GetActionWithIdx | app/src/main/java/demo/ASP.java:206-219 | equals the `Sat` inverse |
| Asp.PushFluentUnits | app/src/main/java/demo/ASP.java:264-273 | appends a unit for every listed fluent at the given layer |
| Asp.EncodeInitialState | app/src/main/java/demo/ASP.java:221-255 | returns the same initial-state clauses as `Sat` |
| Asp.EncodeFinalState | app/src/main/java/demo/ASP.java:257-289 | returns the same goal clauses as `Sat` |
| Asp.PushImplications | app/src/main/java/demo/ASP.java:316-330 | appends `[-a@t, ±f@t]` for every fluent of the list of the vector |
| Asp.PushAction | app/src/main/java/demo/ASP.java:309-370 | appends the four implication families of one action |
| Asp.PushActionsAt | app/src/main/java/demo/ASP.java:302-372 | appends the clauses of every action at one step |
| Asp.EncodeActions | app/src/main/java/demo/ASP.java:291-378 | returns the same action clauses as `Sat` |
| Asp.AddEffector | app/src/main/java/demo/ASP.java:395-404 | appends the action to the list of every fluent of the list of its effect |
| Asp.EffectorLists | app/src/main/java/demo/ASP.java:386-405 | builds the same effector lists as `Sat` |
| Asp.EncodeExplanatoryFrameAxioms | app/src/main/java/demo/ASP.java:380-453 | returns the same as-written frame axioms as `Sat` |
| Asp.EncodeCompleteExclusionAxioms | app/src/main/java/demo/ASP.java:455-486 | returns the same exclusion clauses as `Sat` |
| Asp.BuildPlan | app/src/main/java/demo/ASP.java:589-603 | returns the same decoding as `Sat`'s decoder |
| Asp.Solve | app/src/main/java/demo/ASP.java:537-609 | returns `null` when there is no model, and otherwise the decoding of the solver's model of the same formula |
| Soundness.RunSnoc | app/src/main/java/demo/SAT.java:670-678 | running a plan extended by one action applies that action when it is applicable |
| Soundness.HoldsOneOf | app/src/main/java/demo/SAT.java:590-629 | within the variables a model assigns, exactly one of a literal and its negation holds |
| Soundness.InitLayer | app/src/main/java/demo/SAT.java:284-319 | in a model of the initial-state clauses, layer 0 is exactly the initial state |
| Soundness.GoalLayer | app/src/main/java/demo/SAT.java:328-351 | in a model of the goal clauses, every goal fluent holds at layer h |
| Soundness.AtMostOneAction | app/src/main/java/demo/SAT.java:541-571 | under the exclusion axioms at most one action runs per step |
| Soundness.ActionsAtMembers | app/src/main/java/demo/SAT.java:541-571 | the actions running at a step are exactly those whose variable holds, in ascending order |
| Soundness.ActionClausePresent | app/src/main/java/demo/SAT.java:360-447 | conversely, every such implication is a clause of `encodeActions` |
| Soundness.ActionForces | app/src/main/java/demo/SAT.java:360-447 | a running action has its preconditions at layer t and its effects at layer t+1 |
| Soundness.FrameHolds | app/src/main/java/demo/SAT.java:487-528 | every corrected frame clause holds |
| Soundness.FrameWitness | app/src/main/java/demo/SAT.java:489-526 | a frame clause with both fluent literals false is made true by an effector's variable |
| Soundness.FrameForces | app/src/main/java/demo/SAT.java:487-528 | a fluent that changes value was changed by a running action with that effect |
| Soundness.Unchanged | app/src/main/java/demo/SAT.java:487-528 | a fluent no running action touches keeps its value |
| Soundness.Persist | app/src/main/java/demo/SAT.java:487-528 | a step without an action leaves the layer unchanged |
| Soundness.Preconditions | app/src/main/java/demo/SAT.java:384-408 | the action running at a step is applicable in that layer |
| Soundness.EffectOn | app/src/main/java/demo/SAT.java:411-438 | the single running action decides each fluent of the next layer |
| Soundness.Effects | app/src/main/java/demo/SAT.java:411-438 | the single running action turns layer t into layer t+1 |
| Soundness.Transition | app/src/main/java/demo/SAT.java:637-659 | each step runs at most one action, and the next layer is the current one, or the action applied to it |
| Soundness.CorrectedFrameDescent | app/src/main/java/demo/SAT.java:487-528 | both frame clauses of every fluent and step are among the corrected axioms |
| Soundness.ExclusionDescent | app/src/main/java/demo/SAT.java:547-566 | the exclusion clause of every pair and step is among the exclusion axioms |
| Soundness.LitAt | app/src/main/java/demo/SAT.java:262-275 | the literal at position j of block t decodes to the action it stands for when that action holds, and to nothing otherwise |
| Soundness.DecodeBlock | app/src/main/java/demo/SAT.java:667-680 | block t of the model contributes exactly the actions running at step t |
| Soundness.DecodeSteps | app/src/main/java/demo/SAT.java:667-680 | the first t blocks decode into the actions of steps 0..t-1, step by step |
| Soundness.DecodeTail | app/src/main/java/demo/SAT.java:667-680 | without an action past the horizon, the literals past block h add nothing |
| Soundness.DecodeIsSteps | app/src/main/java/demo/SAT.java:667-680 | without an action past the horizon, the decoded plan is the actions of steps 0..h-1 |
| Soundness.StepsLength | app/src/main/java/demo/SAT.java:541-571 | the exclusion axioms bound the actions of steps 0..t-1 by t |
| Soundness.FormulaParts | app/src/main/java/demo/SAT.java:650-656 | a model of the merged formula satisfies each of its five families |
| Soundness.Replay | app/src/main/java/demo/SAT.java:637-659 | the actions of steps 0..h-1 run from the initial state through layers 1..h |
| Soundness.CorrectedEncodingIsSound | app/src/main/java/demo/SAT.java:637-680 | with complete frame axioms, a model decodes into a plan of at most h actions that solves the problem |
| Findings.CorrectedFrameImpliesAsWritten | app/src/main/java/demo/SAT.java:487-528 | the as-written frame axioms are a subset of the corrected ones |
| Findings.CorrectedSatisfiesAsWritten | app/src/main/java/demo/SAT.java:637-659 | a model of the corrected formula is a model of the as-written one |
| Findings.AsWrittenPlanWithinHorizon | app/src/main/java/demo/SAT.java:637-680 | even as written, a model with no action past the horizon decodes into at most h actions |
| Findings.GapFormula | app/src/main/java/demo/SAT.java:487-528 | for one untouched fluent the as-written formula at horizon 1 is `[[-1], [2]]`, and the model `[-1, 2]` satisfies it |
| Findings.GapRejected | app/src/main/java/demo/SAT.java:489-508 | the corrected clause `[1, -2]` rejects that model |
| Findings.FrameGapCounterexample | app/src/main/java/demo/SAT.java:487-528 | a complete model of the as-written formula decodes into a plan that does not reach the goal |
| Findings.DecoderNeedsHorizonBound | app/src/main/java/demo/SAT.java:667-680 | a model with an action variable true at the horizon satisfies both formulas and decodes into a plan that does not run |

## Left out

- Solver: sat4j (`solverSAT`, SAT.java:590-629 and ASP.java:492-528) is a function parameter. Its variable budget `MAXVAR` is the constant `Sat.MaxVar`.
- Output and I/O: logging, `prettyPrintFluent`, `prettyPrintAction`, `debugPrintFluentFromBitVector`, `writePlanToFile`, the statistics timers, the command line and `main` are not modelled. They do not change the clauses or the plan.
- `instantiate` and the grounding of the problem are not modelled. The model starts from an already grounded problem.
- Hard-coded horizons: `solve` fixes the horizon (6 in `SAT`, 10 in `ASP`). The model takes it as a parameter, and no horizon escalation exists in the source.
- Fluents and actions are identified by their index. The `indexOf` lookups by identity are the identity on indices.
- The pddl4j `BitVector` and sat4j `Vec` internals are not modelled. A vector is a sequence of bits; `copyTo` appends and the sized constructor only reserves capacity.
- Planning.WellFormed: every set bit of every vector names a fluent below N. The grounder guarantees this. The encoders require it, so the `IndexOutOfBoundsException` that `getFluents().get(p)` would throw on a larger bit is not modelled.
- Hash set order: the order in which `HashSet` returns the absent fluents is not fixed. The model leaves it open in the ghost `order`, constrained by `Encoding.IsNegOrder`.
- Java `int`: integers are unbounded. Variable numbers overflowing 32 bits and the `++value < 0` overflow guard of `convertBitArrayToListInteger` are not modelled.
- Sat.Solve: requires N+M > 0. With no fluent and no action, the Java decoder divides by zero on the first positive literal; `Asp.Solve` has the same requirement.
- Asp.BuildPlan: requires `Encoding.Decodable`, as `Sat.ConstructPlanFromModel` does.
- Sat.ConstructPlanFromModel: requires `Encoding.Decodable`, which says that N+M > 0 or that the model has no positive literal. This excludes only the inputs on which the Java division by N+M throws.
- Soundness.CorrectedEncodingIsSound: assumes the model is a full assignment of every variable up to layer h (`ModelOf` and `Covers`). The source guarantees neither, and a solver may leave out variables that occur in no clause. It also assumes no action variable is true at or past the horizon (`NoActionAfter`), which the decoder does not check. `Findings.DecoderNeedsHorizonBound` shows a model that breaks without it.
- Findings.AsWrittenPlanWithinHorizon: bounds the plan length by h only under the same `NoActionAfter` hypothesis.
- Other planners and scripts in the repository are not part of this model, including the heuristic search planner and the performance script.

## Findings

| source | as written | input that shows it | evidently intended | confidence | as-written member | corrected member |
|---|---|---|---|---|---|---|
| app/src/main/java/demo/SAT.java:489-526 (same code at app/src/main/java/demo/ASP.java:410-447) | the frame clause about a fluent becoming true (false) is emitted only when some action adds (deletes) it, so a fluent no action touches is free after layer 0 | one fluent, false initially, wanted in the goal, no actions, horizon 1: the formula is `[[-1], [2]]`, the model `[-1, 2]` satisfies it and decodes into the empty plan, which does not reach the goal | always emit both frame clauses, so a fluent keeps its value unless an action with that effect runs | not executed | Findings.FrameGapCounterexample | Soundness.CorrectedEncodingIsSound |
