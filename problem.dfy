/** The stock optional value, standing for a Java reference that may be `null`. */
module Options {
  datatype Option<T> = None | Some(value: T)
}

/** The grounded planning problem the encoder reads (pddl4j's `ADLProblem` after grounding).
    Fluents and actions are identified by their position in the problem's fluent and action
    lists; only the counts and the index sets matter to the encoding. */
module Planning {
  import opened Bits

  /** A grounded action: its precondition and its unconditional effect, each split into a
      positive and a negative fluent bit vector. */
  datatype Action = Action(prePos: BitVector, preNeg: BitVector, effPos: BitVector, effNeg: BitVector)

  /** `fluents` is N, the number of fluents; `actions` has M elements. */
  datatype Problem = Problem(fluents: nat, actions: seq<Action>, init: BitVector, goal: BitVector)

  /** The positive or the negative effect vector of an action. */
  function Effect(a: Action, positive: bool): BitVector {
    if positive then a.effPos else a.effNeg
  }

  predicate ActionWithin(a: Action, n: nat) {
    Within(a.prePos, n) && Within(a.preNeg, n) && Within(a.effPos, n) && Within(a.effNeg, n)
  }

  /** What the grounder guarantees and the encoder relies on: every fluent index named by a
      vector is a fluent of the problem (the source would otherwise index past its lists). */
  predicate WellFormed(p: Problem) {
    && Within(p.init, p.fluents)
    && Within(p.goal, p.fluents)
    && forall a :: 0 <= a < |p.actions| ==> ActionWithin(p.actions[a], p.fluents)
  }
}
