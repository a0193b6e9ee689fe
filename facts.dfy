/** What the clause families of module `Encoding` contain: the shape of every clause, which
    clauses occur, and how many there are; and what the decoder keeps of a model. */
module Facts {
  import opened Options
  import opened Bits
  import opened Planning
  import opened Indexer
  import opened Encoding

  // ---------------------------------------------------------------------------------------
  // Elementwise shapes

  lemma {:induction false} FluentUnitsShape(n: nat, m: nat, fs: seq<nat>, t: nat)
    requires Below(fs, n)
    ensures forall i :: 0 <= i < |fs| ==> FluentUnits(n, m, fs, t)[i] == [FluentVar(n, m, fs[i], t)]
  {
    if fs != [] {
      FluentUnitsShape(n, m, fs[..|fs| - 1], t);
    }
  }

  lemma {:induction false} NegUnitsShape(fs: seq<nat>)
    ensures forall i :: 0 <= i < |fs| ==> NegUnits(fs)[i] == [-(fs[i] as int + 1)]
  {
    if fs != [] {
      NegUnitsShape(fs[..|fs| - 1]);
    }
  }

  lemma {:induction false} ImplicationsShape(n: nat, m: nat, av: int, fs: seq<nat>, t: nat, positive: bool)
    requires Below(fs, n)
    ensures forall i :: 0 <= i < |fs| ==>
      Implications(n, m, av, fs, t, positive)[i] == [-av, Lit(FluentVar(n, m, fs[i], t), positive)]
  {
    if fs != [] {
      ImplicationsShape(n, m, av, fs[..|fs| - 1], t, positive);
    }
  }

  lemma {:induction false} ActionLitsShape(n: nat, m: nat, acts: seq<nat>, t: nat)
    requires Below(acts, m)
    ensures forall i :: 0 <= i < |acts| ==> ActionLits(n, m, acts, t)[i] == ActionVar(n, m, acts[i], t)
  {
    if acts != [] {
      ActionLitsShape(n, m, acts[..|acts| - 1], t);
    }
  }

  // ---------------------------------------------------------------------------------------
  // Counting helpers

  /** The fluents 0..n-1. */
  function Range(n: nat): (r: set<nat>)
    ensures forall f: nat :: f in r <==> f < n
  {
    if n == 0 then {} else Range(n - 1) + {n - 1}
  }

  lemma {:induction false} RangeCard(n: nat)
    ensures |Range(n)| == n
  {
    if n > 0 {
      RangeCard(n - 1);
    }
  }

  function Elements(s: seq<nat>): set<nat> {
    set x | x in s
  }

  lemma {:induction false} DistinctCard(s: seq<nat>)
    requires Distinct(s)
    ensures |Elements(s)| == |s|
  {
    if s != [] {
      var s' := s[..|s| - 1];
      assert Distinct(s');
      DistinctCard(s');
      assert Elements(s) == Elements(s') + {s[|s| - 1]};
      assert s[|s| - 1] !in Elements(s');
    }
  }

  /** Every clause of `cnf` has property `P`. */
  predicate All(cnf: Cnf, P: Clause -> bool) {
    forall i :: 0 <= i < |cnf| ==> P(cnf[i])
  }

  lemma AllConcat(a: Cnf, b: Cnf, P: Clause -> bool)
    requires All(a, P) && All(b, P)
    ensures All(a + b, P)
  {
    forall i | 0 <= i < |a + b| ensures P((a + b)[i]) {
      if i < |a| {
        assert (a + b)[i] == a[i];
      } else {
        assert (a + b)[i] == b[i - |a|];
      }
    }
  }

  lemma AllSplit(a: Cnf, b: Cnf, P: Clause -> bool)
    requires All(a + b, P)
    ensures All(a, P) && All(b, P)
  {
    forall i | 0 <= i < |a| ensures P(a[i]) {
      assert (a + b)[i] == a[i];
    }
    forall i | 0 <= i < |b| ensures P(b[i]) {
      assert (a + b)[|a| + i] == b[i];
    }
  }

  lemma AllIn(cnf: Cnf, P: Clause -> bool, c: Clause)
    requires All(cnf, P) && c in cnf
    ensures P(c)
  {
    var i :| 0 <= i < |cnf| && cnf[i] == c;
  }

  // ---------------------------------------------------------------------------------------
  // Initial state

  /** `c` is the unit clause that fixes fluent `f` at layer 0 to its initial value. */
  predicate ClosedWorldUnit(p: Problem, f: nat, c: Clause)
    requires f < p.fluents
  {
    c == [Lit(FluentVar(p.fluents, |p.actions|, f, 0), Bit(p.init, f))]
  }

  /** One unit clause per fluent: N clauses in all. */
  lemma InitClausesCount(p: Problem, order: seq<nat>)
    requires WellFormed(p) && IsNegOrder(p, order)
    ensures |InitClauses(p, order)| == p.fluents
  {
    var n := p.fluents;
    SetBitsBelow(p.init, n);
    SetBitsCount(p.init);
    DistinctCard(order);
    var absent := Elements(order);
    assert absent == set f: nat | f < n && !Bit(p.init, f);
    assert Positions(p.init) * absent == {};
    assert Positions(p.init) + absent == Range(n);
    RangeCard(n);
  }

  /** Every fluent gets its closed-world unit clause at layer 0: positive when it is initially
      true, negative otherwise; `-(f+1)` is `-FluentVar(f, 0)`. */
  lemma InitClausesCover(p: Problem, order: seq<nat>, f: nat)
    requires WellFormed(p) && IsNegOrder(p, order) && f < p.fluents
    ensures Bit(p.init, f) ==> [FluentVar(p.fluents, |p.actions|, f, 0)] in InitClauses(p, order)
    ensures !Bit(p.init, f) ==> [-FluentVar(p.fluents, |p.actions|, f, 0)] in InitClauses(p, order)
  {
    var n, m := p.fluents, |p.actions|;
    SetBitsBelow(p.init, n);
    var pos := FluentUnits(n, m, SetBits(p.init), 0);
    assert InitClauses(p, order) == pos + NegUnits(order);
    if Bit(p.init, f) {
      SetBitsMembers(p.init);
      var i :| 0 <= i < |SetBits(p.init)| && SetBits(p.init)[i] == f;
      FluentUnitsShape(n, m, SetBits(p.init), 0);
      assert pos[i] == [FluentVar(n, m, f, 0)];
    } else {
      var i :| 0 <= i < |order| && order[i] == f;
      NegUnitsShape(order);
      assert NegUnits(order)[i] == [-FluentVar(n, m, f, 0)];
    }
  }

  /** And nothing else: every clause is the closed-world unit clause of some fluent. */
  lemma InitClausesOnly(p: Problem, order: seq<nat>, i: nat)
    requires WellFormed(p) && IsNegOrder(p, order) && i < |InitClauses(p, order)|
    ensures exists f: nat :: f < p.fluents && ClosedWorldUnit(p, f, InitClauses(p, order)[i])
  {
    var n, m := p.fluents, |p.actions|;
    SetBitsBelow(p.init, n);
    SetBitsMembers(p.init);
    var pos := FluentUnits(n, m, SetBits(p.init), 0);
    assert InitClauses(p, order) == pos + NegUnits(order);
    if i < |pos| {
      FluentUnitsShape(n, m, SetBits(p.init), 0);
      var f := SetBits(p.init)[i];
      assert f in SetBits(p.init);
      assert ClosedWorldUnit(p, f, InitClauses(p, order)[i]);
    } else {
      NegUnitsShape(order);
      var f := order[i - |pos|];
      assert f in order;
      assert ClosedWorldUnit(p, f, InitClauses(p, order)[i]);
    }
  }

  /** The positive units come first, in ascending fluent order. */
  lemma InitPositivesAscending(p: Problem, order: seq<nat>)
    requires WellFormed(p)
    ensures |SetBits(p.init)| <= |InitClauses(p, order)|
    ensures forall i, j :: 0 <= i < j < |SetBits(p.init)| ==>
      |InitClauses(p, order)[i]| == 1 && |InitClauses(p, order)[j]| == 1 &&
      0 < InitClauses(p, order)[i][0] < InitClauses(p, order)[j][0]
  {
    var n, m := p.fluents, |p.actions|;
    SetBitsBelow(p.init, n);
    SetBitsIncreasing(p.init);
    FluentUnitsShape(n, m, SetBits(p.init), 0);
    assert InitClauses(p, order) == FluentUnits(n, m, SetBits(p.init), 0) + NegUnits(order);
  }

  // ---------------------------------------------------------------------------------------
  // Goal

  /** `c` is the unit clause requiring goal fluent `f` at the last layer `h`. */
  predicate GoalUnit(p: Problem, h: nat, f: nat, c: Clause) {
    f < p.fluents && Bit(p.goal, f) && c == [FluentVar(p.fluents, |p.actions|, f, h)]
  }

  /** The goal clauses are exactly the positive units of the goal fluents at layer `h`. */
  lemma GoalClausesMembers(p: Problem, h: nat)
    requires WellFormed(p)
    ensures forall c :: c in GoalClauses(p, h) <==> exists f: nat :: GoalUnit(p, h, f, c)
  {
    var n, m := p.fluents, |p.actions|;
    SetBitsBelow(p.goal, n);
    SetBitsMembers(p.goal);
    FluentUnitsShape(n, m, SetBits(p.goal), h);
    var g := GoalClauses(p, h);
    forall c | c in g ensures exists f: nat :: GoalUnit(p, h, f, c) {
      var i :| 0 <= i < |g| && g[i] == c;
      assert GoalUnit(p, h, SetBits(p.goal)[i], c);
    }
    forall c | exists f: nat :: GoalUnit(p, h, f, c) ensures c in g {
      var f: nat :| GoalUnit(p, h, f, c);
      var i :| 0 <= i < |SetBits(p.goal)| && SetBits(p.goal)[i] == f;
      assert g[i] == c;
    }
  }

  /** One clause per goal fluent, all positive units, in ascending fluent order; fluents
      outside the goal are left unconstrained at the last layer. */
  lemma GoalClausesShape(p: Problem, h: nat)
    requires WellFormed(p)
    ensures |GoalClauses(p, h)| == |Positions(p.goal)|
    ensures forall i :: 0 <= i < |GoalClauses(p, h)| ==> |GoalClauses(p, h)[i]| == 1 && GoalClauses(p, h)[i][0] > 0
    ensures forall i, j :: 0 <= i < j < |GoalClauses(p, h)| ==> GoalClauses(p, h)[i][0] < GoalClauses(p, h)[j][0]
  {
    var n, m := p.fluents, |p.actions|;
    SetBitsBelow(p.goal, n);
    SetBitsCount(p.goal);
    SetBitsIncreasing(p.goal);
    FluentUnitsShape(n, m, SetBits(p.goal), h);
  }

  // ---------------------------------------------------------------------------------------
  // Actions

  /** The vector part `i` of `encodeActions` reads, the layer it talks about, and its sign. */
  function PartVector(act: Action, i: nat): BitVector {
    match i case 0 => act.prePos case 1 => act.preNeg case 2 => act.effPos case _ => act.effNeg
  }

  /** `c` is the implication of part `i` of action `a` at step `t` for fluent `f`:
      `[-av, f@t]`, `[-av, -f@t]`, `[-av, f@t+1]` or `[-av, -f@t+1]`. */
  predicate PartClause(p: Problem, a: nat, t: nat, i: nat, f: nat, c: Clause)
    requires a < |p.actions|
  {
    var n, m := p.fluents, |p.actions|;
    f < n && Bit(PartVector(p.actions[a], i), f)
    && c == [-ActionVar(n, m, a, t), Lit(FluentVar(n, m, f, if i < 2 then t else t + 1), i % 2 == 0)]
  }

  lemma PartMembers(p: Problem, a: nat, t: nat, i: nat)
    requires WellFormed(p) && a < |p.actions| && i < 4
    ensures forall c :: c in ActionPart(p, a, t, i) <==> exists f: nat :: PartClause(p, a, t, i, f, c)
  {
    forall c | c in ActionPart(p, a, t, i) ensures exists f: nat :: PartClause(p, a, t, i, f, c) {
      PartClauseOf(p, a, t, i, c);
    }
    forall c | exists f: nat :: PartClause(p, a, t, i, f, c) ensures c in ActionPart(p, a, t, i) {
      var f: nat :| PartClause(p, a, t, i, f, c);
      PartClauseMember(p, a, t, i, f, c);
    }
  }

  /** Part `i` of action `a` lists one implication per set bit of its vector, in order. */
  lemma PartShape(p: Problem, a: nat, t: nat, i: nat)
    requires WellFormed(p) && a < |p.actions| && i < 4
    ensures var b := PartVector(p.actions[a], i);
      && |ActionPart(p, a, t, i)| == |SetBits(b)|
      && forall j :: 0 <= j < |SetBits(b)| ==>
           (&& SetBits(b)[j] < p.fluents && Bit(b, SetBits(b)[j])
            && ActionPart(p, a, t, i)[j] == [-ActionVar(p.fluents, |p.actions|, a, t),
                 Lit(FluentVar(p.fluents, |p.actions|, SetBits(b)[j], if i < 2 then t else t + 1), i % 2 == 0)])
  {
    var n, m, act := p.fluents, |p.actions|, p.actions[a];
    var b := PartVector(act, i);
    assert ActionWithin(act, n);
    SetBitsBelow(b, n);
    SetBitsMembers(b);
    ImplicationsShape(n, m, ActionVar(n, m, a, t), SetBits(b), if i < 2 then t else t + 1, i % 2 == 0);
  }

  lemma PartClauseOf(p: Problem, a: nat, t: nat, i: nat, c: Clause)
    requires WellFormed(p) && a < |p.actions| && i < 4 && c in ActionPart(p, a, t, i)
    ensures exists f: nat :: PartClause(p, a, t, i, f, c)
  {
    var part := ActionPart(p, a, t, i);
    PartShape(p, a, t, i);
    var j :| 0 <= j < |part| && part[j] == c;
    assert PartClause(p, a, t, i, SetBits(PartVector(p.actions[a], i))[j], c);
  }

  lemma PartClauseMember(p: Problem, a: nat, t: nat, i: nat, f: nat, c: Clause)
    requires WellFormed(p) && a < |p.actions| && i < 4 && PartClause(p, a, t, i, f, c)
    ensures c in ActionPart(p, a, t, i)
  {
    var b := PartVector(p.actions[a], i);
    PartShape(p, a, t, i);
    SetBitsMembers(b);
    var j :| 0 <= j < |SetBits(b)| && SetBits(b)[j] == f;
    assert ActionPart(p, a, t, i)[j] == c;
  }

  /** The clauses of action `a` at step `t` are exactly its four families of implications. */
  lemma ActionClausesAtMembers(p: Problem, a: nat, t: nat)
    requires WellFormed(p) && a < |p.actions|
    ensures forall c :: c in ActionClausesAt(p, a, t) <==>
      exists i: nat, f: nat :: i < 4 && PartClause(p, a, t, i, f, c)
  {
    forall c | c in ActionClausesAt(p, a, t) ensures exists i: nat, f: nat :: i < 4 && PartClause(p, a, t, i, f, c) {
      var i := PartOf(p, a, t, c);
      PartClauseOf(p, a, t, i, c);
    }
    forall c | exists i: nat, f: nat :: i < 4 && PartClause(p, a, t, i, f, c) ensures c in ActionClausesAt(p, a, t) {
      var i: nat, f: nat :| i < 4 && PartClause(p, a, t, i, f, c);
      PartClauseMember(p, a, t, i, f, c);
      PartIn(p, a, t, i, c);
    }
  }

  /** The part a clause of action `a` at step `t` comes from. */
  lemma PartOf(p: Problem, a: nat, t: nat, c: Clause) returns (i: nat)
    requires WellFormed(p) && a < |p.actions| && c in ActionClausesAt(p, a, t)
    ensures i < 4 && c in ActionPart(p, a, t, i)
  {
    var p0, p1, p2, p3 := ActionPart(p, a, t, 0), ActionPart(p, a, t, 1), ActionPart(p, a, t, 2), ActionPart(p, a, t, 3);
    assert c in p0 + p1 + p2 + p3;
    if c in p0 {
      i := 0;
    } else if c in p1 {
      i := 1;
    } else if c in p2 {
      i := 2;
    } else {
      i := 3;
    }
  }

  lemma PartIn(p: Problem, a: nat, t: nat, i: nat, c: Clause)
    requires WellFormed(p) && a < |p.actions| && i < 4 && c in ActionPart(p, a, t, i)
    ensures c in ActionClausesAt(p, a, t)
  {
    var p0, p1, p2, p3 := ActionPart(p, a, t, 0), ActionPart(p, a, t, 1), ActionPart(p, a, t, 2), ActionPart(p, a, t, 3);
    assert c in p0 || c in p1 || c in p2 || c in p3;
    assert ActionClausesAt(p, a, t) == p0 + p1 + p2 + p3;
  }

  /** `c` is an implication of some action at some step below `h`. */
  ghost predicate ActionShaped(p: Problem, h: nat, c: Clause) {
    exists a: nat, t: nat, i: nat, f: nat :: a < |p.actions| && t < h && i < 4 && PartClause(p, a, t, i, f, c)
  }

  /** `ActionShaped` as a clause predicate. */
  ghost function IsAction(p: Problem, h: nat): Clause -> bool {
    c => ActionShaped(p, h, c)
  }

  lemma AtShaped(p: Problem, a: nat, t: nat, h: nat)
    requires WellFormed(p) && a < |p.actions| && t < h
    ensures All(ActionClausesAt(p, a, t), IsAction(p, h))
  {
    var at := ActionClausesAt(p, a, t);
    forall j | 0 <= j < |at| ensures ActionShaped(p, h, at[j]) {
      var i := PartOf(p, a, t, at[j]);
      PartClauseOf(p, a, t, i, at[j]);
    }
  }

  /** The number of clauses an action contributes at one step: one per set bit of each of its
      four vectors (`SetBitsCount` relates these lengths to the vectors' cardinalities). */
  function ActionSize(act: Action): nat {
    |SetBits(act.prePos)| + |SetBits(act.preNeg)| + |SetBits(act.effPos)| + |SetBits(act.effNeg)|
  }

  function ActionSizes(p: Problem, k: nat): nat
    requires k <= |p.actions|
  {
    if k == 0 then 0 else ActionSizes(p, k - 1) + ActionSize(p.actions[k - 1])
  }

  lemma ActionClausesAtCount(p: Problem, a: nat, t: nat)
    requires WellFormed(p) && a < |p.actions|
    ensures |ActionClausesAt(p, a, t)| == ActionSize(p.actions[a])
  {
    var act := p.actions[a];
    assert |ActionPart(p, a, t, 0)| == |SetBits(act.prePos)|;
    assert |ActionPart(p, a, t, 1)| == |SetBits(act.preNeg)|;
    assert |ActionPart(p, a, t, 2)| == |SetBits(act.effPos)|;
    assert |ActionPart(p, a, t, 3)| == |SetBits(act.effNeg)|;
  }

  lemma StepCountStep(p: Problem, t: nat, k: nat)
    requires WellFormed(p) && 0 < k <= |p.actions|
    requires |ActionClausesStep(p, t, k - 1)| == ActionSizes(p, k - 1)
    ensures |ActionClausesStep(p, t, k)| == ActionSizes(p, k)
  {
    ActionClausesAtCount(p, k - 1, t);
  }

  /** The clauses of actions 0..k-1 at one step, counted. */
  lemma StepCount(p: Problem, t: nat, k: nat)
    requires WellFormed(p) && k <= |p.actions|
    ensures |ActionClausesStep(p, t, k)| == ActionSizes(p, k)
  {
    var j := 0;
    while j < k
      invariant j <= k
      invariant |ActionClausesStep(p, t, j)| == ActionSizes(p, j)
    {
      j := j + 1;
      StepCountStep(p, t, j);
    }
  }

  lemma ActionClausesCountStep(p: Problem, h: nat, z: nat)
    requires WellFormed(p) && h > 0
    requires |ActionClauses(p, h - 1)| == (h - 1) * z
    requires |ActionClausesStep(p, h - 1, |p.actions|)| == z
    ensures |ActionClauses(p, h)| == h * z
  {
    MulStep(h, z);
  }

  /** Every step contributes the same number of action clauses. */
  lemma ActionClausesCount(p: Problem, h: nat)
    requires WellFormed(p)
    ensures |ActionClauses(p, h)| == h * ActionSizes(p, |p.actions|)
  {
    var z := ActionSizes(p, |p.actions|);
    var j := 0;
    while j < h
      invariant j <= h
      invariant |ActionClauses(p, j)| == j * z
    {
      StepCount(p, j, |p.actions|);
      j := j + 1;
      ActionClausesCountStep(p, j, z);
    }
  }

  lemma MulStep(h: nat, z: nat)
    requires h > 0
    ensures (h - 1) * z + z == h * z
  {
  }

  // ---------------------------------------------------------------------------------------
  // Explanatory frame axioms

  /** The effector lists hold exactly the actions (below `k`) that add, resp. delete, `f`... */
  lemma {:induction false} EffectorsMembers(p: Problem, f: nat, k: nat, positive: bool)
    requires k <= |p.actions|
    ensures forall a: nat :: a in Effectors(p, f, k, positive) <==>
      a < k && Bit(Effect(p.actions[a], positive), f)
  {
    if k > 0 {
      EffectorsMembers(p, f, k - 1, positive);
    }
  }

  /** ... in ascending action order. */
  lemma {:induction false} EffectorsIncreasing(p: Problem, f: nat, k: nat, positive: bool)
    requires k <= |p.actions|
    ensures forall i, j :: 0 <= i < j < |Effectors(p, f, k, positive)| ==>
      Effectors(p, f, k, positive)[i] < Effectors(p, f, k, positive)[j]
  {
    if k > 0 {
      EffectorsIncreasing(p, f, k - 1, positive);
    }
  }

  /** A frame clause: the literal of `f` at t (positive for the clause about `f` becoming
      true), the opposite literal of `f` at t+1, then the variable at t of every action in
      the effector list, in order. */
  lemma FrameClauseShape(p: Problem, f: nat, t: nat, positive: bool)
    requires f < p.fluents
    ensures var n, m, c, e := p.fluents, |p.actions|, FrameClause(p, f, t, positive), Effectors(p, f, |p.actions|, positive);
      && |c| == 2 + |e|
      && c[0] == Lit(FluentVar(n, m, f, t), positive)
      && c[1] == Lit(FluentVar(n, m, f, t + 1), !positive)
      && forall i :: 0 <= i < |e| ==> c[2 + i] == ActionVar(n, m, e[i], t)
  {
    var n, m, e := p.fluents, |p.actions|, Effectors(p, f, |p.actions|, positive);
    ActionLitsShape(n, m, e, t);
  }

  /** `c` is the frame clause of fluent `f` between layers t and t+1 (of a horizon-`h`
      encoding), for `positive` the one about `f` becoming true. */
  predicate FrameOf(p: Problem, h: nat, f: nat, t: nat, positive: bool, c: Clause) {
    f < p.fluents && t < h && c == FrameClause(p, f, t, positive)
  }

  /** `c` is a frame clause of the encoding; unless `complete`, one with a non-empty list. */
  ghost predicate FrameShaped(p: Problem, h: nat, complete: bool, c: Clause) {
    exists f: nat, t: nat, positive: bool ::
      FrameOf(p, h, f, t, positive, c) && (complete || |Effectors(p, f, |p.actions|, positive)| != 0)
  }

  lemma FrameForFluentShapedStep(p: Problem, f: nat, t: nat, h: nat, complete: bool)
    requires f < p.fluents && t < h
    requires All(FrameForFluent(p, f, t, complete), c => FrameShaped(p, h, complete, c))
    ensures All(FrameForFluent(p, f, t + 1, complete), c => FrameShaped(p, h, complete, c))
  {
    var at := FrameAt(p, f, t, complete);
    forall i | 0 <= i < |at| ensures FrameShaped(p, h, complete, at[i]) {
      var positive := at[i] == FrameClause(p, f, t, true);
      assert FrameOf(p, h, f, t, positive, at[i]);
    }
    AllConcat(FrameForFluent(p, f, t, complete), at, c => FrameShaped(p, h, complete, c));
  }

  lemma FrameUpToShapedStep(p: Problem, h: nat, k: nat, complete: bool)
    requires k < p.fluents
    requires All(FrameUpTo(p, h, k, complete), c => FrameShaped(p, h, complete, c))
    ensures All(FrameUpTo(p, h, k + 1, complete), c => FrameShaped(p, h, complete, c))
  {
    var t := 0;
    while t < h
      invariant t <= h
      invariant All(FrameForFluent(p, k, t, complete), c => FrameShaped(p, h, complete, c))
    {
      FrameForFluentShapedStep(p, k, t, h, complete);
      t := t + 1;
    }
    AllConcat(FrameUpTo(p, h, k, complete), FrameForFluent(p, k, h, complete), c => FrameShaped(p, h, complete, c));
  }

  lemma FrameUpToShaped(p: Problem, h: nat, complete: bool)
    ensures All(FrameUpTo(p, h, p.fluents, complete), c => FrameShaped(p, h, complete, c))
  {
    var k := 0;
    while k < p.fluents
      invariant k <= p.fluents
      invariant All(FrameUpTo(p, h, k, complete), c => FrameShaped(p, h, complete, c))
    {
      FrameUpToShapedStep(p, h, k, complete);
      k := k + 1;
    }
  }

  /** As written, every frame clause is that of a fluent below N and a step below the
      horizon whose action list is non-empty: a fluent no action adds (deletes) gets no
      clause about becoming true (false). */
  lemma FrameClausesShape(p: Problem, h: nat)
    ensures All(FrameClauses(p, h), c => FrameShaped(p, h, false, c))
  {
    FrameUpToShaped(p, h, false);
  }

  /** The corrected axioms hold frame clauses only. */
  lemma CorrectedFrameShape(p: Problem, h: nat)
    ensures All(CorrectedFrameClauses(p, h), c => FrameShaped(p, h, true, c))
  {
    FrameUpToShaped(p, h, true);
  }

  /** The number of frame clauses a fluent gets per step. */
  function FrameWidth(p: Problem, f: nat, complete: bool): nat {
    var m := |p.actions|;
    (if complete || |Effectors(p, f, m, true)| != 0 then 1 else 0)
    + (if complete || |Effectors(p, f, m, false)| != 0 then 1 else 0)
  }

  function FrameWidths(p: Problem, k: nat, complete: bool): nat {
    if k == 0 then 0 else FrameWidths(p, k - 1, complete) + FrameWidth(p, k - 1, complete)
  }

  lemma FrameForFluentCountStep(p: Problem, f: nat, k: nat, complete: bool)
    requires f < p.fluents
    requires |FrameForFluent(p, f, k, complete)| == k * FrameWidth(p, f, complete)
    ensures |FrameForFluent(p, f, k + 1, complete)| == (k + 1) * FrameWidth(p, f, complete)
  {
    MulStep(k + 1, FrameWidth(p, f, complete));
  }

  lemma FrameForFluentCount(p: Problem, f: nat, h: nat, complete: bool)
    requires f < p.fluents
    ensures |FrameForFluent(p, f, h, complete)| == h * FrameWidth(p, f, complete)
  {
    var k := 0;
    while k < h
      invariant k <= h
      invariant |FrameForFluent(p, f, k, complete)| == k * FrameWidth(p, f, complete)
    {
      FrameForFluentCountStep(p, f, k, complete);
      k := k + 1;
    }
  }

  lemma FrameUpToCountStep(p: Problem, h: nat, k: nat, complete: bool)
    requires k < p.fluents
    requires |FrameUpTo(p, h, k, complete)| == h * FrameWidths(p, k, complete)
    ensures |FrameUpTo(p, h, k + 1, complete)| == h * FrameWidths(p, k + 1, complete)
  {
    var x, y := FrameWidths(p, k, complete), FrameWidth(p, k, complete);
    var before, fluent := FrameUpTo(p, h, k, complete), FrameForFluent(p, k, h, complete);
    FrameForFluentCount(p, k, h, complete);
    CountsAdd(before, fluent, FrameUpTo(p, h, k + 1, complete), h, x, y, FrameWidths(p, k + 1, complete));
  }

  /** Lengths `h * x` and `h * y` add up to `h * (x + y)`. */
  lemma CountsAdd(a: Cnf, b: Cnf, c: Cnf, h: nat, x: nat, y: nat, z: nat)
    requires c == a + b && z == x + y && |a| == h * x && |b| == h * y
    ensures |c| == h * z
  {
  }

  /** `h` steps of every fluent's frame clauses. */
  lemma FrameUpToCount(p: Problem, h: nat, complete: bool)
    ensures |FrameUpTo(p, h, p.fluents, complete)| == h * FrameWidths(p, p.fluents, complete)
  {
    var k := 0;
    while k < p.fluents
      invariant k <= p.fluents
      invariant |FrameUpTo(p, h, k, complete)| == h * FrameWidths(p, k, complete)
    {
      FrameUpToCountStep(p, h, k, complete);
      k := k + 1;
    }
  }

  lemma {:induction false} CompleteWidths(p: Problem, k: nat)
    ensures FrameWidths(p, k, true) == 2 * k
  {
    if k > 0 {
      CompleteWidths(p, k - 1);
    }
  }

  /** Two corrected frame clauses per fluent and step. */
  lemma CorrectedFrameCount(p: Problem, h: nat)
    ensures |CorrectedFrameClauses(p, h)| == 2 * h * p.fluents
  {
    FrameUpToCount(p, h, true);
    CompleteWidths(p, p.fluents);
    MulTwice(h, p.fluents);
  }

  lemma MulTwice(h: nat, n: nat)
    ensures h * (2 * n) == 2 * h * n
  {
  }

  // ---------------------------------------------------------------------------------------
  // Complete exclusion axioms

  /** `c` forbids two distinct actions `i` and `j` (j < i) at the same step below `h`. */
  ghost predicate ExclusionShaped(p: Problem, h: nat, c: Clause) {
    var n, m := p.fluents, |p.actions|;
    exists i: nat, j: nat, t: nat :: j < i < m && t < h && c == [-ActionVar(n, m, i, t), -ActionVar(n, m, j, t)]
  }

  lemma ExclusionPairShaped(p: Problem, h: nat, i: nat, j: nat)
    requires j < i < |p.actions|
    ensures All(ExclusionPair(p, i, j, h), c => ExclusionShaped(p, h, c))
  {
    var n, m := p.fluents, |p.actions|;
    var k := 0;
    while k < h
      invariant k <= h
      invariant All(ExclusionPair(p, i, j, k), c => ExclusionShaped(p, h, c))
    {
      var c := [-ActionVar(n, m, i, k), -ActionVar(n, m, j, k)];
      assert ExclusionShaped(p, h, c);
      AllConcat(ExclusionPair(p, i, j, k), [c], c => ExclusionShaped(p, h, c));
      k := k + 1;
    }
  }

  lemma ExclusionRowShaped(p: Problem, h: nat, i: nat)
    requires i < |p.actions|
    ensures All(ExclusionRow(p, h, i, i), c => ExclusionShaped(p, h, c))
  {
    var j := 0;
    while j < i
      invariant j <= i
      invariant All(ExclusionRow(p, h, i, j), c => ExclusionShaped(p, h, c))
    {
      ExclusionPairShaped(p, h, i, j);
      AllConcat(ExclusionRow(p, h, i, j), ExclusionPair(p, i, j, h), c => ExclusionShaped(p, h, c));
      j := j + 1;
    }
  }

  /** Every exclusion clause is `[-a_i@t, -a_j@t]` with j < i < M and t below the horizon:
      no clause pairs an action with itself. */
  lemma ExclusionClausesShape(p: Problem, h: nat)
    ensures All(ExclusionClauses(p, h), c => ExclusionShaped(p, h, c))
  {
    var i := 0;
    while i < |p.actions|
      invariant i <= |p.actions|
      invariant All(ExclusionUpTo(p, h, i), c => ExclusionShaped(p, h, c))
    {
      ExclusionRowShaped(p, h, i);
      AllConcat(ExclusionUpTo(p, h, i), ExclusionRow(p, h, i, i), c => ExclusionShaped(p, h, c));
      i := i + 1;
    }
  }

  lemma ExclusionPairCount(p: Problem, i: nat, j: nat, h: nat)
    requires i < |p.actions| && j < |p.actions|
    ensures |ExclusionPair(p, i, j, h)| == h
  {
    var k := 0;
    while k < h
      invariant k <= h
      invariant |ExclusionPair(p, i, j, k)| == k
    {
      k := k + 1;
    }
  }

  lemma ExclusionRowCount(p: Problem, h: nat, i: nat)
    requires i < |p.actions|
    ensures |ExclusionRow(p, h, i, i)| == i * h
  {
    var j := 0;
    while j < i
      invariant j <= i
      invariant |ExclusionRow(p, h, i, j)| == j * h
    {
      ExclusionPairCount(p, i, j, h);
      MulStep(j + 1, h);
      j := j + 1;
    }
  }

  lemma Pairs(h: nat, i: nat)
    ensures h * i * (i - 1) + 2 * (i * h) == h * (i + 1) * i
  {
  }

  /** One clause per unordered pair of actions and step: M(M-1)/2 per step. */
  lemma ExclusionClausesCount(p: Problem, h: nat)
    ensures 2 * |ExclusionClauses(p, h)| == h * |p.actions| * (|p.actions| - 1)
  {
    var i := 0;
    while i < |p.actions|
      invariant i <= |p.actions|
      invariant 2 * |ExclusionUpTo(p, h, i)| == h * i * (i - 1)
    {
      ExclusionRowCount(p, h, i);
      Pairs(h, i);
      i := i + 1;
    }
  }

  // ---------------------------------------------------------------------------------------
  // The decoder

  lemma DecodablePrefix(p: Problem, model: seq<int>, j: nat)
    requires Decodable(p, model) && j <= |model|
    ensures Decodable(p, model[..j])
  {
    if p.fluents + |p.actions| == 0 {
      forall i | 0 <= i < j ensures model[..j][i] <= 0 {
        assert model[..j][i] == model[i];
      }
    }
  }

  /** Reading one more literal of the model appends what that literal decodes to. */
  lemma DecodeExtend(p: Problem, model: seq<int>, j: nat)
    requires Decodable(p, model) && j < |model|
    ensures Decodable(p, model[..j]) && Decodable(p, model[..j + 1])
    ensures Decode(p, model[..j + 1]) == Decode(p, model[..j]) + DecodeLit(p, model[j])
  {
    DecodablePrefix(p, model, j);
    DecodablePrefix(p, model, j + 1);
    assert model[..j + 1][..j] == model[..j];
  }

  /** The decoder reads the model literal by literal: decoding a concatenation concatenates
      the plans, so the plan lists the actions of the model in model order. */
  lemma DecodeConcat(p: Problem, a: seq<int>, b: seq<int>)
    requires Decodable(p, a + b)
    ensures Decodable(p, a) && Decodable(p, b)
    ensures Decode(p, a + b) == Decode(p, a) + Decode(p, b)
  {
    if p.fluents + |p.actions| == 0 {
      assert forall i :: 0 <= i < |a| ==> a[i] == (a + b)[i];
      assert forall i :: 0 <= i < |b| ==> b[i] == (a + b)[|a| + i];
      DecodeNonPositive(p, a + b);
      DecodeNonPositive(p, a);
      DecodeNonPositive(p, b);
    } else {
      DecodeConcatBlocks(p, a, b);
    }
  }

  lemma DecodeSnoc(p: Problem, s: seq<int>, x: int)
    requires p.fluents + |p.actions| > 0
    ensures Decode(p, s + [x]) == Decode(p, s) + DecodeLit(p, x)
  {
    assert (s + [x])[..|s|] == s;
  }

  lemma {:induction false} DecodeConcatBlocks(p: Problem, a: seq<int>, b: seq<int>)
    requires p.fluents + |p.actions| > 0
    ensures Decode(p, a + b) == Decode(p, a) + Decode(p, b)
  {
    if b == [] {
      assert a + b == a;
    } else {
      var b', x := b[..|b| - 1], b[|b| - 1];
      assert b == b' + [x];
      assert a + b == (a + b') + [x];
      DecodeConcatBlocks(p, a, b');
      DecodeSnoc(p, a + b', x);
      DecodeSnoc(p, b', x);
      var da, db, dx := Decode(p, a), Decode(p, b'), DecodeLit(p, x);
      assert da + db + dx == da + (db + dx);
    }
  }

  /** A model without a positive literal, in particular the model of no action, decodes to
      the empty plan. */
  lemma {:induction false} DecodeNonPositive(p: Problem, model: seq<int>)
    requires forall i :: 0 <= i < |model| ==> model[i] <= 0
    ensures Decode(p, model) == []
  {
    if model != [] {
      DecodeNonPositive(p, model[..|model| - 1]);
    }
  }
}
