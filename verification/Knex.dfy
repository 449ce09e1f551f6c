/**
 The part of the knex query builder that the index uses: a `where` clause is a list of conditions,
 each joined to the ones before it by AND or OR, possibly negated, possibly a group in parentheses.
 Conditions are evaluated under SQL three-valued logic, with AND binding tighter than OR.
 */
module Knex {
  import opened Wrappers

  datatype Truth = Yes | No | Unknown

  function Not(t: Truth): Truth {
    match t case Yes => No case No => Yes case Unknown => Unknown
  }

  function Conj(a: Truth, b: Truth): Truth {
    if a.No? || b.No? then No else if a.Yes? && b.Yes? then Yes else Unknown
  }

  function Disj(a: Truth, b: Truth): Truth {
    Not(Conj(Not(a), Not(b)))
  }

  function Negate(negated: bool, t: Truth): Truth {
    if negated then Not(t) else t
  }

  datatype Connective = And | Or

  datatype Clause<A> = Clause(connective: Connective, negated: bool, condition: Condition<A>)

  datatype Condition<A> = Raw(atom: A) | Group(clauses: seq<Clause<A>>)

  /** A builder is its list of conditions so far. Its methods append one. */
  type Builder<A> = seq<Clause<A>>

  /** What a callback passed to `where` does to the fresh builder it is given. */
  type WhereFunc<!A> = Builder<A> -> Builder<A>

  function Where<A>(b: Builder<A>, f: WhereFunc<A>): Builder<A> {
    b + [Clause(And, false, Group(f([])))]
  }

  function AndWhere<A>(b: Builder<A>, f: WhereFunc<A>): Builder<A> {
    Where(b, f)
  }

  function OrWhere<A>(b: Builder<A>, f: WhereFunc<A>): Builder<A> {
    b + [Clause(Or, false, Group(f([])))]
  }

  function WhereNot<A>(b: Builder<A>, f: WhereFunc<A>): Builder<A> {
    b + [Clause(And, true, Group(f([])))]
  }

  function WhereRaw<A>(b: Builder<A>, atom: A): Builder<A> {
    b + [Clause(And, false, Raw(atom))]
  }

  function OrWhereRaw<A>(b: Builder<A>, atom: A): Builder<A> {
    b + [Clause(Or, false, Raw(atom))]
  }

  /** How a row answers an elementary condition. */
  type Reading<!A> = A -> Truth

  /** The condition as a whole; `None` when there is nothing to print. */
  function Eval<A>(read: Reading<A>, b: Builder<A>): Option<Truth>
    decreases b, 1
  {
    Run(read, None, b)
  }

  /**
   `run` is the conjunction collected since the last OR. Groups that print as nothing are skipped
   together with their connective, and the first printed condition has none.
   */
  function Run<A>(read: Reading<A>, run: Option<Truth>, b: Builder<A>): Option<Truth>
    decreases b, 0
  {
    if b == [] then run else
    var t := ClauseTruth(read, b[0]);
    if t.None? then Run(read, run, b[1..])
    else if run.None? then Run(read, t, b[1..])
    else if b[0].connective.And? then Run(read, Some(Conj(run.value, t.value)), b[1..])
    else
      var rest := Run(read, t, b[1..]);
      if rest.None? then run else Some(Disj(run.value, rest.value))
  }

  function ClauseTruth<A>(read: Reading<A>, c: Clause<A>): Option<Truth>
    decreases c
  {
    match c.condition
    case Raw(atom) => Some(Negate(c.negated, read(atom)))
    case Group(clauses) =>
      var inner := Eval(read, clauses);
      if inner.None? then None else Some(Negate(c.negated, inner.value))
  }

  // ---------------------------------------------------------------- builders with one connective

  function ConjAll(ts: seq<Truth>): Truth {
    if ts == [] then Yes else Conj(ts[0], ConjAll(ts[1..]))
  }

  function DisjAll(ts: seq<Truth>): Truth {
    if ts == [] then No else Disj(ts[0], DisjAll(ts[1..]))
  }

  function Fold(connective: Connective, ts: seq<Truth>): Truth {
    if connective.And? then ConjAll(ts) else DisjAll(ts)
  }

  function Connect(connective: Connective, a: Truth, b: Truth): Truth {
    if connective.And? then Conj(a, b) else Disj(a, b)
  }

  /** The conditions that print something, joined; `None` when none of them does. */
  function FoldPrinted(connective: Connective, ts: seq<Option<Truth>>): Option<Truth> {
    if ts == [] then None else
    var rest := FoldPrinted(connective, ts[1..]);
    if ts[0].None? then rest else if rest.None? then ts[0]
    else Some(Connect(connective, ts[0].value, rest.value))
  }

  ghost predicate Prints<A>(read: Reading<A>, b: Builder<A>, ts: seq<Option<Truth>>) {
    && |b| == |ts|
    && forall k :: 0 <= k < |b| ==> ClauseTruth(read, b[k]) == ts[k]
  }

  /** A builder that only uses AND, or only OR after its first condition, joins what its conditions print. */
  lemma {:induction false} EvalPrints<A>(read: Reading<A>, connective: Connective, b: Builder<A>,
                                         ts: seq<Option<Truth>>)
    requires Prints(read, b, ts)
    requires forall k :: 0 < k < |b| ==> b[k].connective == connective
    ensures Eval(read, b) == FoldPrinted(connective, ts)
    decreases |b|
  {
    if b != [] {
      if ts[0].None? {
        EvalPrints(read, connective, b[1..], ts[1..]);
      } else {
        RunPrints(read, connective, ts[0].value, b[1..], ts[1..]);
      }
    }
  }

  lemma {:induction false} RunPrints<A>(read: Reading<A>, connective: Connective, run: Truth,
                                        b: Builder<A>, ts: seq<Option<Truth>>)
    requires Prints(read, b, ts)
    requires forall k :: 0 <= k < |b| ==> b[k].connective == connective
    ensures var rest := FoldPrinted(connective, ts);
      Run(read, Some(run), b) == Some(if rest.None? then run else Connect(connective, run, rest.value))
    decreases |b|
  {
    if b != [] {
      var next := if ts[0].None? then run else if connective.And? then Conj(run, ts[0].value) else ts[0].value;
      RunPrints(read, connective, next, b[1..], ts[1..]);
    }
  }

  ghost predicate Answers<A>(read: Reading<A>, b: Builder<A>, ts: seq<Truth>) {
    && |b| == |ts|
    && forall k :: 0 <= k < |b| ==> ClauseTruth(read, b[k]) == Some(ts[k])
  }

  function Printed(ts: seq<Truth>): seq<Option<Truth>> {
    seq(|ts|, k requires 0 <= k < |ts| => Some(ts[k]))
  }

  lemma {:induction false} FoldOfPrinted(connective: Connective, ts: seq<Truth>)
    requires ts != []
    ensures FoldPrinted(connective, Printed(ts)) == Some(Fold(connective, ts))
  {
    assert Printed(ts)[1..] == Printed(ts[1..]);
    if |ts| == 1 {
      assert ts[1..] == [] && FoldPrinted(connective, Printed(ts[1..])) == None;
      assert ConjAll(ts[1..]) == Yes && DisjAll(ts[1..]) == No;
    } else {
      FoldOfPrinted(connective, ts[1..]);
    }
  }

  /** When all conditions print something, the builder folds them. */
  lemma EvalFolds<A>(read: Reading<A>, connective: Connective, b: Builder<A>, ts: seq<Truth>)
    requires Answers(read, b, ts) && b != []
    requires forall k :: 0 < k < |b| ==> b[k].connective == connective
    ensures Eval(read, b) == Some(Fold(connective, ts))
  {
    FoldOfPrinted(connective, ts);
    assert Prints(read, b, Printed(ts));
    EvalPrints(read, connective, b, Printed(ts));
  }
}
