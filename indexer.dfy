/** The variable indexer: one flat space of positive integers for every fluent and every
    action at every time step. With N fluents and M actions, step t occupies the block
    (N+M)*t + 1 .. (N+M)*(t+1): first the N fluents, then the M actions. */
module Indexer {
  import opened Options

  /** `getFluentUniqueIDforTimeStep`: the variable of fluent `f` at step `t`. */
  function FluentVar(n: nat, m: nat, f: nat, t: nat): (r: int)
    requires f < n
    ensures (n + m) * t + 1 <= r <= (n + m) * t + n
  {
    (n + m) * t + 1 + f
  }

  /** `getActionUniqueIDforTimeStep`: the variable of action `a` at step `t`. */
  function ActionVar(n: nat, m: nat, a: nat, t: nat): (r: int)
    requires a < m
    ensures (n + m) * t + n + 1 <= r <= (n + m) * (t + 1)
  {
    (n + m) * t + 1 + n + a
  }

  /** The step a positive variable belongs to. */
  function StepOf(n: nat, m: nat, id: int): int
    requires n + m > 0
  {
    (id - 1) / (n + m)
  }

  /** `getActionWithIdx`: the action a variable stands for, read off the residue of the
      variable within its block; `None` (Java's `null`) for fluents and for `id <= 0`.
      There is no upper bound on `id`. With N+M = 0 the Java code divides by zero, so a
      positive `id` needs N+M > 0. */
  function ActionWithIdx(n: nat, m: nat, id: int): (r: Option<nat>)
    requires id <= 0 || n + m > 0
    ensures r.Some? ==> id > 0 && r.value < m
  {
    if id <= 0 then None
    else
      var idx := (id - 1) % (n + m);
      if idx >= n then Some(idx - n) else None
  }

  /** A fluent or an action at a step: the things that get a variable. */
  datatype Var = FluentAt(f: nat, t: nat) | ActionAt(a: nat, t: nat)

  predicate ValidVar(n: nat, m: nat, v: Var) {
    match v
    case FluentAt(f, _) => f < n
    case ActionAt(a, _) => a < m
  }

  function Id(n: nat, m: nat, v: Var): int
    requires ValidVar(n, m, v)
  {
    match v
    case FluentAt(f, t) => FluentVar(n, m, f, t)
    case ActionAt(a, t) => ActionVar(n, m, a, t)
  }

  /** Euclidean division of d*q + r by d gives back q and r. */
  lemma DivModUnique(d: int, q: int, r: int)
    requires d > 0 && 0 <= r < d
    ensures (d * q + r) / d == q && (d * q + r) % d == r
  {
    var x := d * q + r;
    var q', r' := x / d, x % d;
    assert x == d * q' + r' && 0 <= r' < d;
    assert d * (q - q') == r' - r;
    MulSign(d, q - q');
  }

  lemma MulSign(d: int, k: int)
    requires d > 0
    ensures k >= 1 ==> d * k >= d
    ensures k <= -1 ==> d * k <= -d
  {
  }

  /** The position of a valid variable inside its block, and its step. */
  lemma IdDecomposes(n: nat, m: nat, v: Var)
    requires ValidVar(n, m, v)
    ensures n + m > 0
    ensures StepOf(n, m, Id(n, m, v)) == v.t
    ensures (Id(n, m, v) - 1) % (n + m) == (if v.FluentAt? then v.f else n + v.a)
  {
    match v
    case FluentAt(f, t) => DivModUnique(n + m, t, f);
    case ActionAt(a, t) => DivModUnique(n + m, t, n + a);
  }

  /** Layout: every variable is positive and lies in the block of its step; fluents precede
      actions within a block. */
  lemma Layout(n: nat, m: nat, v: Var)
    requires ValidVar(n, m, v)
    ensures Id(n, m, v) > 0
    ensures (n + m) * v.t < Id(n, m, v) <= (n + m) * (v.t + 1)
    ensures v.FluentAt? ==> Id(n, m, v) <= (n + m) * v.t + n
    ensures v.ActionAt? ==> Id(n, m, v) > (n + m) * v.t + n
  {
  }

  /** Both variables advance by the stride N+M from one step to the next. */
  lemma Stride(n: nat, m: nat, x: nat, t: nat)
    ensures x < n ==> FluentVar(n, m, x, t + 1) == FluentVar(n, m, x, t) + (n + m)
    ensures x < m ==> ActionVar(n, m, x, t + 1) == ActionVar(n, m, x, t) + (n + m)
  {
  }

  /** Distinct (kind, index, step) triples get distinct variables. */
  lemma {:induction false} Injective(n: nat, m: nat, v: Var, w: Var)
    requires ValidVar(n, m, v) && ValidVar(n, m, w)
    requires Id(n, m, v) == Id(n, m, w)
    ensures v == w
  {
    IdDecomposes(n, m, v);
    IdDecomposes(n, m, w);
  }

  /** Every positive integer is the variable of exactly one fluent or action. */
  lemma EveryIdIsAVar(n: nat, m: nat, id: int) returns (v: Var)
    requires n + m > 0 && id > 0
    ensures ValidVar(n, m, v) && Id(n, m, v) == id
  {
    var t, r := (id - 1) / (n + m), (id - 1) % (n + m);
    v := if r < n then FluentAt(r, t) else ActionAt(r - n, t);
  }

  /** The inverse returns the action for every action variable. */
  lemma ActionVarDecodes(n: nat, m: nat, a: nat, t: nat)
    requires a < m
    ensures ActionWithIdx(n, m, ActionVar(n, m, a, t)) == Some(a)
  {
    IdDecomposes(n, m, ActionAt(a, t));
  }

  /** The inverse returns `None` for every fluent variable. */
  lemma FluentVarDecodesToNone(n: nat, m: nat, f: nat, t: nat)
    requires f < n
    ensures ActionWithIdx(n, m, FluentVar(n, m, f, t)) == None
  {
    IdDecomposes(n, m, FluentAt(f, t));
  }

  /** Complete description of the inverse: it yields action `a` exactly for the variable of
      `a` at the step the id lies in, whatever that step is. */
  lemma ActionWithIdxExact(n: nat, m: nat, id: int, a: nat)
    requires n + m > 0
    ensures ActionWithIdx(n, m, id) == Some(a) <==>
      (id > 0 && a < m && StepOf(n, m, id) >= 0 && id == ActionVar(n, m, a, StepOf(n, m, id)))
  {
    if id > 0 {
      var v := EveryIdIsAVar(n, m, id);
      IdDecomposes(n, m, v);
    }
  }
}
