/** Propositional constraints and their translation to clauses (constraint.cc).

    A constraint is a value here: the source frees operands as it goes, and every
    operand it rewrites in place belongs to exactly one constraint. */
module Constraints {

  /** Solver variables are numbered from 1: in DIMACS 0 ends a clause. */
  type VarId = v: nat | v > 0 witness 1

  /** The variables an assignment makes true. */
  type Env = iset<VarId>

  datatype Constraint =
    | True
    | False
    | Var(v: VarId)
    | NotVar(v: VarId)
    | And(ops: seq<Constraint>)
    | Or(ops: seq<Constraint>)
    | Implies(l: Constraint, r: Constraint)

  /** What a constraint means. */
  ghost predicate Eval(c: Constraint, env: Env) {
    match c
    case True => true
    case False => false
    case Var(v) => v in env
    case NotVar(v) => v !in env
    case And(ops) => forall i | 0 <= i < |ops| :: Eval(ops[i], env)
    case Or(ops) => exists i | 0 <= i < |ops| :: Eval(ops[i], env)
    case Implies(l, r) => Eval(l, env) ==> Eval(r, env)
  }

  /** Every constraint of a list holds. */
  ghost predicate AllHold(cs: seq<Constraint>, env: Env) {
    forall i | 0 <= i < |cs| :: Eval(cs[i], env)
  }

  /** Some constraint of a list holds. */
  ghost predicate SomeHolds(cs: seq<Constraint>, env: Env) {
    exists i | 0 <= i < |cs| :: Eval(cs[i], env)
  }

  predicate IsLiteral(c: Constraint) {
    c.Var? || c.NotVar?
  }

  /** What printDIMACS accepts. */
  predicate IsClause(c: Constraint) {
    IsLiteral(c) || (c.Or? && forall i | 0 <= i < |c.ops| :: IsLiteral(c.ops[i]))
  }

  /** No implication anywhere: negate is the negation on such constraints. */
  predicate NoImplies(c: Constraint) {
    match c
    case And(ops) => forall i | 0 <= i < |ops| :: NoImplies(ops[i])
    case Or(ops) => forall i | 0 <= i < |ops| :: NoImplies(ops[i])
    case Implies(_, _) => false
    case _ => true
  }

  /** No implication inside an antecedent. */
  predicate Safe(c: Constraint) {
    match c
    case And(ops) => forall i | 0 <= i < |ops| :: Safe(ops[i])
    case Or(ops) => forall i | 0 <= i < |ops| :: Safe(ops[i])
    case Implies(l, r) => NoImplies(l) && Safe(r)
    case _ => true
  }

  /** A FALSE operand sits under nothing but conjunctions. */
  predicate FalseConjunct(c: Constraint) {
    c.And? && (False in c.ops || exists i | 0 <= i < |c.ops| :: FalseConjunct(c.ops[i]))
  }

  // ---------------------------------------------------------------- weight

  /** Termination measure: an implication weighs one more than the disjunction it becomes. */
  ghost function Weight(c: Constraint): (w: nat)
    ensures w >= 1
    decreases c, 0
  {
    match c
    case And(ops) => 1 + Weights(ops)
    case Or(ops) => 1 + Weights(ops)
    case Implies(l, r) => 2 + Weight(l) + Weight(r)
    case _ => 1
  }

  ghost function Weights(cs: seq<Constraint>): nat
    decreases cs, 1
  {
    if cs == [] then 0 else Weight(cs[0]) + Weights(cs[1..])
  }

  lemma {:induction false} WeightsConcat(a: seq<Constraint>, b: seq<Constraint>)
    ensures Weights(a + b) == Weights(a) + Weights(b)
  {
    if a == [] {
      assert a + b == b;
    } else {
      assert (a + b)[1..] == a[1..] + b;
      WeightsConcat(a[1..], b);
    }
  }

  lemma WeightsSplit(cs: seq<Constraint>, i: nat)
    requires i < |cs|
    ensures Weights(cs) == Weights(cs[..i]) + Weight(cs[i]) + Weights(cs[i + 1..])
  {
    WeightsConcat(cs[..i], cs[i..]);
    assert cs == cs[..i] + cs[i..];
    assert cs[i..][1..] == cs[i + 1..];
  }

  // ---------------------------------------------------------------- negate

  /** Constraint::negate. An implication only has its operands swapped. */
  function Negate(c: Constraint): (n: Constraint)
    decreases c, 0
  {
    match c
    case True => False
    case False => True
    case Var(v) => NotVar(v)
    case NotVar(v) => Var(v)
    case Implies(l, r) => Implies(r, l)
    case And(ops) => Or(NegateAll(ops))
    case Or(ops) => And(NegateAll(ops))
  }

  function NegateAll(cs: seq<Constraint>): (ns: seq<Constraint>)
    ensures |ns| == |cs|
    ensures forall i | 0 <= i < |cs| :: ns[i] == Negate(cs[i])
    decreases cs, 1
  {
    if cs == [] then [] else [Negate(cs[0])] + NegateAll(cs[1..])
  }

  lemma {:induction false} NegateWeight(c: Constraint)
    ensures Weight(Negate(c)) == Weight(c)
    decreases c, 0
  {
    match c
    case And(ops) => NegateAllWeight(ops);
    case Or(ops) => NegateAllWeight(ops);
    case _ =>
  }

  lemma {:induction false} NegateAllWeight(cs: seq<Constraint>)
    ensures Weights(NegateAll(cs)) == Weights(cs)
    decreases cs, 1
  {
    if cs != [] {
      NegateWeight(cs[0]);
      NegateAllWeight(cs[1..]);
      assert NegateAll(cs)[1..] == NegateAll(cs[1..]);
    }
  }

  /** Without implications negate is the negation, and negating twice gives the original back. */
  lemma {:induction false} NegateNegates(c: Constraint, env: Env)
    requires NoImplies(c)
    ensures NoImplies(Negate(c))
    ensures Eval(Negate(c), env) == !Eval(c, env)
    ensures Negate(Negate(c)) == c
  {
    match c
    case And(ops) =>
      forall i | 0 <= i < |ops|
        ensures NoImplies(Negate(ops[i])) && Eval(Negate(ops[i]), env) == !Eval(ops[i], env)
        ensures Negate(Negate(ops[i])) == ops[i]
      {
        NegateNegates(ops[i], env);
      }
      assert NegateAll(NegateAll(ops)) == ops;
    case Or(ops) =>
      forall i | 0 <= i < |ops|
        ensures NoImplies(Negate(ops[i])) && Eval(Negate(ops[i]), env) == !Eval(ops[i], env)
        ensures Negate(Negate(ops[i])) == ops[i]
      {
        NegateNegates(ops[i], env);
      }
      assert NegateAll(NegateAll(ops)) == ops;
    case _ =>
  }

  /** On an implication negate is the negation exactly where the two sides differ. */
  lemma NegateImpliesExact(l: Constraint, r: Constraint, env: Env)
    ensures (Eval(Negate(Implies(l, r)), env) == !Eval(Implies(l, r), env)) <==> Eval(l, env) != Eval(r, env)
  {
    assert Negate(Implies(l, r)) == Implies(r, l);
  }

  lemma NoImpliesIsSafe(c: Constraint)
    requires NoImplies(c)
    ensures Safe(c)
  {
  }

  // ---------------------------------------------------------------- merge

  /** What mergeandfree leaves in its target and whether it stopped at a FALSE. */
  function Merged(to: seq<Constraint>, from: seq<Constraint>): (seq<Constraint>, bool)
    decreases |from|
  {
    if from == [] then (to, false)
    else if from[0].True? then Merged(to, from[1..])
    else if from[0].False? then ([True], true)
    else Merged(to + [from[0]], from[1..])
  }

  /** mergeandfree: TRUE is dropped, FALSE collapses everything to TRUE. */
  method MergeAndFree(to: seq<Constraint>, from: seq<Constraint>) returns (vec: seq<Constraint>, stopped: bool)
    ensures (vec, stopped) == Merged(to, from)
    ensures stopped <==> False in from
    ensures stopped ==> vec == [True]
  {
    vec := to;
    var i := 0;
    while i < |from|
      invariant 0 <= i <= |from|
      invariant Merged(to, from) == Merged(vec, from[i..])
      invariant False !in from[..i]
    {
      var c := from[i];
      assert from[i..][1..] == from[i + 1..];
      if c.False? {
        return [True], true;
      }
      if !c.True? {
        vec := vec + [c];
      }
      i := i + 1;
    }
    stopped := false;
  }

  /** Merging stops exactly at a FALSE; otherwise it keeps the meaning and every clause shape. */
  lemma {:induction false} MergedMeaning(to: seq<Constraint>, from: seq<Constraint>, env: Env)
    ensures Merged(to, from).1 <==> False in from
    ensures Merged(to, from).1 ==> Merged(to, from).0 == [True]
    ensures !Merged(to, from).1 ==> (AllHold(Merged(to, from).0, env) <==> AllHold(to, env) && AllHold(from, env))
    ensures False !in to ==> False !in Merged(to, from).0
    decreases |from|
  {
    if from != [] {
      assert from == [from[0]] + from[1..];
      if from[0].True? {
        MergedMeaning(to, from[1..], env);
      } else if !from[0].False? {
        MergedMeaning(to + [from[0]], from[1..], env);
        AllHoldSnoc(to, from[0], env);
      }
      AllHoldCons(from, env);
    }
  }

  lemma AllHoldSnoc(cs: seq<Constraint>, c: Constraint, env: Env)
    ensures AllHold(cs + [c], env) <==> AllHold(cs, env) && Eval(c, env)
  {
    if AllHold(cs + [c], env) {
      assert (cs + [c])[|cs|] == c;
      forall i | 0 <= i < |cs| ensures Eval(cs[i], env) {
        assert (cs + [c])[i] == cs[i];
      }
    }
  }

  lemma AllHoldCons(cs: seq<Constraint>, env: Env)
    requires cs != []
    ensures AllHold(cs, env) <==> Eval(cs[0], env) && AllHold(cs[1..], env)
  {
    if Eval(cs[0], env) && AllHold(cs[1..], env) {
      forall i | 0 <= i < |cs| ensures Eval(cs[i], env) {
        if i > 0 {
          assert cs[i] == cs[1..][i - 1];
        }
      }
    }
  }

  // ---------------------------------------------------------------- simplify

  /** Index of the first operand that is not a literal. */
  function FirstCompound(ops: seq<Constraint>): (i: nat)
    ensures i <= |ops|
    ensures forall j | 0 <= j < i :: IsLiteral(ops[j])
    ensures i < |ops| ==> !IsLiteral(ops[i])
  {
    if ops == [] || !IsLiteral(ops[0]) then 0 else 1 + FirstCompound(ops[1..])
  }

  function Without(ops: seq<Constraint>, i: nat): (r: seq<Constraint>)
    requires i < |ops|
  {
    ops[..i] + ops[i + 1..]
  }

  lemma WithoutWeight(ops: seq<Constraint>, i: nat, more: seq<Constraint>)
    requires i < |ops|
    ensures Weights(Without(ops, i) + more) == Weights(ops) - Weight(ops[i]) + Weights(more)
  {
    WeightsSplit(ops, i);
    WeightsConcat(ops[..i], ops[i + 1..]);
    WeightsConcat(Without(ops, i), more);
  }

  lemma PairWeight(a: Constraint, b: Constraint)
    ensures Weights([a, b]) == Weight(a) + Weight(b)
  {
    assert [a, b][1..] == [b];
    assert Weights([b]) == Weight(b) + Weights([b][1..]);
  }

  lemma UpdateWeight(ops: seq<Constraint>, i: nat, c: Constraint)
    requires i < |ops|
    ensures Weights(ops[i := c]) == Weights(ops) - Weight(ops[i]) + Weight(c)
  {
    WeightsSplit(ops, i);
    WeightsSplit(ops[i := c], i);
    assert ops[i := c][..i] == ops[..i];
    assert ops[i := c][i + 1..] == ops[i + 1..];
  }

  lemma {:induction false} OperandWeight(ops: seq<Constraint>, j: nat)
    requires j < |ops|
    ensures Weight(ops[j]) <= Weights(ops)
  {
    WeightsSplit(ops, j);
  }

  /** Constraint::simplify: the clauses a constraint is distributed to. */
  function Simplify(c: Constraint): (vec: seq<Constraint>)
    decreases Weight(c), 1, 0
  {
    match c
    case And(ops) => SimplifyAnd(c, 0, [])
    case Or(ops) =>
      var i := FirstCompound(ops);
      if i == |ops| then (if |ops| == 1 then [ops[0]] else [c])
      else (match ops[i]
        case True => [True]
        case False => WithoutWeight(ops, i, []); Simplify(Or(Without(ops, i) + []))
        case Or(cs) => WithoutWeight(ops, i, cs); Simplify(Or(Without(ops, i) + cs))
        case Implies(l, r) =>
          WithoutWeight(ops, i, [Negate(l), r]);
          NegateWeight(l);
          PairWeight(Negate(l), r);
          Simplify(Or(Without(ops, i) + [Negate(l), r]))
        case And(cs) => SimplifyDistributed(c, i, 0, []))
    case Implies(l, r) =>
      NegateWeight(l);
      PairWeight(Negate(l), r);
      Simplify(Or([Negate(l), r]))
    case _ => [c]
  }

  /** The conjunction loop from operand i on, with vec collected so far. */
  function SimplifyAnd(c: Constraint, i: nat, vec: seq<Constraint>): seq<Constraint>
    requires c.And? && i <= |c.ops|
    decreases Weight(c), 0, 1 + |c.ops| - i
  {
    if i == |c.ops| then vec
    else
      OperandWeight(c.ops, i);
      var m := Merged(vec, Simplify(c.ops[i]));
      if m.1 then m.0 else SimplifyAnd(c, i + 1, m.0)
  }

  /** The distribution loop of an OR over its conjunction at i, from conjunct j on. */
  function SimplifyDistributed(c: Constraint, i: nat, j: nat, vec: seq<Constraint>): seq<Constraint>
    requires c.Or? && i < |c.ops| && c.ops[i].And? && j <= |c.ops[i].ops|
    decreases Weight(c), 0, 1 + |c.ops[i].ops| - j
  {
    if j == |c.ops[i].ops| then vec
    else
      OperandWeight(c.ops[i].ops, j);
      UpdateWeight(c.ops, i, c.ops[i].ops[j]);
      var m := Merged(vec, Simplify(Or(c.ops[i := c.ops[i].ops[j]])));
      if m.1 then m.0 else SimplifyDistributed(c, i, j + 1, m.0)
  }

  // ---------------------------------------------------------------- meaning of simplify

  /** What the clauses of simplify mean: under conjunctions only, a conjunction that has
      FALSE among its operands has become TRUE. */
  function Collapsed(c: Constraint): Constraint
    decreases c, 0
  {
    if !c.And? then c else if False in c.ops then True else And(CollapsedAll(c.ops))
  }

  function CollapsedAll(cs: seq<Constraint>): (r: seq<Constraint>)
    ensures |r| == |cs|
    ensures forall i | 0 <= i < |cs| :: r[i] == Collapsed(cs[i])
    decreases cs, 1
  {
    if cs == [] then [] else [Collapsed(cs[0])] + CollapsedAll(cs[1..])
  }

  /** Every element of the result is TRUE, FALSE or a clause. */
  predicate ClauseList(vec: seq<Constraint>) {
    forall i | 0 <= i < |vec| :: vec[i].True? || vec[i].False? || IsClause(vec[i])
  }

  lemma {:induction false} MergedClauses(to: seq<Constraint>, from: seq<Constraint>)
    requires ClauseList(to) && ClauseList(from)
    ensures ClauseList(Merged(to, from).0)
    decreases |from|
  {
    if from != [] {
      if from[0].True? {
        MergedClauses(to, from[1..]);
      } else if !from[0].False? {
        MergedClauses(to + [from[0]], from[1..]);
      }
    }
  }

  /** The result of simplify holds exactly when the collapsed constraint does, it consists of
      clauses, TRUE and FALSE only, and FALSE comes out only of the constraint FALSE. */
  lemma {:induction false} SimplifyMeaning(c: Constraint, env: Env)
    requires Safe(c)
    ensures AllHold(Simplify(c), env) <==> Eval(Collapsed(c), env)
    ensures ClauseList(Simplify(c))
    ensures False in Simplify(c) <==> c == False
    decreases Weight(c), 2, 0
  {
    match c
    case And(ops) =>
      SimplifyAndMeaning(c, 0, [], env);
    case Or(_) =>
      SimplifyOrMeaning(c, env);
    case Implies(l, r) =>
      NegateWeight(l);
      PairWeight(Negate(l), r);
      NegateNegates(l, env);
      NoImpliesIsSafe(Negate(l));
      SimplifyMeaning(Or([Negate(l), r]), env);
      assert [Negate(l), r][0] == Negate(l) && [Negate(l), r][1] == r;
    case _ =>
      AllHoldOne(c, env);
  }

  lemma AllHoldOne(c: Constraint, env: Env)
    ensures AllHold([c], env) <==> Eval(c, env)
  {
    assert [c][0] == c;
  }

  lemma {:induction false} SimplifyOrMeaning(c: Constraint, env: Env)
    requires Safe(c) && c.Or?
    ensures AllHold(Simplify(c), env) <==> Eval(c, env)
    ensures ClauseList(Simplify(c)) && False !in Simplify(c)
    decreases Weight(c), 1, 0
  {
    var ops := c.ops;
    var i := FirstCompound(ops);
    if i == |ops| {
      SimplifiedLiterals(ops, env);
    } else {
      match ops[i]
      case True =>
        assert Simplify(c) == [True];
      case False =>
        WithoutWeight(ops, i, []);
        SpliceMeaning(ops, i, [], env);
        SimplifyMeaning(Or(Without(ops, i) + []), env);
      case Or(cs) =>
        WithoutWeight(ops, i, cs);
        SpliceMeaning(ops, i, cs, env);
        SimplifyMeaning(Or(Without(ops, i) + cs), env);
      case Implies(l, r) =>
        ImpliesSplice(ops, i, env);
        SimplifyMeaning(Or(Without(ops, i) + [Negate(l), r]), env);
      case And(cs) =>
        SimplifyDistributedMeaning(c, i, 0, [], env);
        UpdateMeaning(ops, i, ops[i], env);
        assert ops[i := ops[i]] == ops && cs[0..] == cs;
    }
  }

  lemma SimplifiedLiterals(ops: seq<Constraint>, env: Env)
    requires forall j | 0 <= j < |ops| :: IsLiteral(ops[j])
    ensures AllHold(Simplify(Or(ops)), env) <==> SomeHolds(ops, env)
    ensures ClauseList(Simplify(Or(ops))) && False !in Simplify(Or(ops))
  {
    if |ops| == 1 {
      AllHoldOne(ops[0], env);
    } else {
      AllHoldOne(Or(ops), env);
      assert Eval(Or(ops), env) <==> SomeHolds(ops, env);
    }
  }

  /** Replacing operand i of a disjunction by the operands more keeps the meaning when
      more stands for operand i. */
  lemma SpliceMeaning(ops: seq<Constraint>, i: nat, more: seq<Constraint>, env: Env)
    requires i < |ops|
    requires Eval(ops[i], env) <==> SomeHolds(more, env)
    ensures SomeHolds(Without(ops, i) + more, env) <==> SomeHolds(ops, env)
  {
    var rest := Without(ops, i) + more;
    if SomeHolds(ops, env) {
      var j :| 0 <= j < |ops| && Eval(ops[j], env);
      if j == i {
        var k :| 0 <= k < |more| && Eval(more[k], env);
        assert rest[|ops| - 1 + k] == more[k];
      } else {
        assert rest[if j < i then j else j - 1] == ops[j];
      }
    }
    if SomeHolds(rest, env) {
      var j :| 0 <= j < |rest| && Eval(rest[j], env);
      if j >= |ops| - 1 {
        assert rest[j] == more[j - (|ops| - 1)];
      } else {
        assert rest[j] == ops[if j < i then j else j + 1];
      }
    }
  }

  lemma ImpliesSplice(ops: seq<Constraint>, i: nat, env: Env)
    requires i < |ops| && ops[i].Implies? && Safe(Or(ops))
    ensures var now := Or(Without(ops, i) + [Negate(ops[i].l), ops[i].r]);
      Safe(now) && (Eval(now, env) <==> Eval(Or(ops), env)) && Weight(now) < Weight(Or(ops))
  {
    var l, r := ops[i].l, ops[i].r;
    var more := [Negate(l), r];
    NegateNegates(l, env);
    NoImpliesIsSafe(Negate(l));
    NegateWeight(l);
    PairWeight(Negate(l), r);
    WithoutWeight(ops, i, more);
    assert SomeHolds(more, env) <==> Eval(ops[i], env) by {
      assert more[0] == Negate(l) && more[1] == r;
    }
    SpliceMeaning(ops, i, more, env);
  }

  /** Meaning of the conjunction loop from operand i on. */
  lemma {:induction false} SimplifyAndMeaning(c: Constraint, i: nat, vec: seq<Constraint>, env: Env)
    requires c.And? && Safe(c) && i <= |c.ops|
    requires ClauseList(vec) && False !in vec
    ensures var out := SimplifyAnd(c, i, vec);
      && ClauseList(out) && False !in out
      && (False in c.ops[i..] ==> out == [True])
      && (False !in c.ops[i..] ==>
            (AllHold(out, env) <==> AllHold(vec, env) && AllHold(CollapsedAll(c.ops)[i..], env)))
    decreases Weight(c), 0, 1 + |c.ops| - i
  {
    if i < |c.ops| {
      OperandWeight(c.ops, i);
      SimplifyMeaning(c.ops[i], env);
      MergedMeaning(vec, Simplify(c.ops[i]), env);
      MergedClauses(vec, Simplify(c.ops[i]));
      assert c.ops[i..] == [c.ops[i]] + c.ops[i + 1..];
      var m := Merged(vec, Simplify(c.ops[i]));
      if !m.1 {
        SimplifyAndMeaning(c, i + 1, m.0, env);
        AllHoldCons(CollapsedAll(c.ops)[i..], env);
        assert CollapsedAll(c.ops)[i..][1..] == CollapsedAll(c.ops)[i + 1..];
      }
    }
  }

  /** Meaning of the distribution loop from conjunct j on. */
  lemma {:induction false} SimplifyDistributedMeaning(c: Constraint, i: nat, j: nat, vec: seq<Constraint>, env: Env)
    requires c.Or? && Safe(c) && i < |c.ops| && c.ops[i].And? && j <= |c.ops[i].ops|
    requires ClauseList(vec) && False !in vec
    ensures var out := SimplifyDistributed(c, i, j, vec);
      && ClauseList(out) && False !in out
      && (AllHold(out, env) <==>
            (AllHold(vec, env) && (SomeHolds(Without(c.ops, i), env) || AllHold(c.ops[i].ops[j..], env))))
    decreases Weight(c), 0, 1 + |c.ops[i].ops| - j
  {
    var cs := c.ops[i].ops;
    if j < |cs| {
      OperandWeight(cs, j);
      UpdateWeight(c.ops, i, cs[j]);
      var d := Or(c.ops[i := cs[j]]);
      assert Safe(cs[j]) by { assert Safe(c.ops[i]); }
      SimplifyMeaning(d, env);
      assert Eval(d, env) <==> SomeHolds(Without(c.ops, i), env) || Eval(cs[j], env) by {
        UpdateMeaning(c.ops, i, cs[j], env);
      }
      MergedMeaning(vec, Simplify(d), env);
      MergedClauses(vec, Simplify(d));
      SimplifyDistributedMeaning(c, i, j + 1, Merged(vec, Simplify(d)).0, env);
      AllHoldCons(cs[j..], env);
      assert cs[j..][1..] == cs[j + 1..];
    }
  }

  lemma UpdateMeaning(ops: seq<Constraint>, i: nat, c: Constraint, env: Env)
    requires i < |ops|
    ensures SomeHolds(ops[i := c], env) <==> SomeHolds(Without(ops, i), env) || Eval(c, env)
  {
    assert SomeHolds([c], env) <==> Eval([c][0], env);
    SpliceMeaning(ops[i := c], i, [c], env);
    assert Without(ops[i := c], i) == Without(ops, i);
    var a, b := Without(ops, i), Without(ops, i) + [c];
    assert forall k | 0 <= k < |a| :: b[k] == a[k];
    assert b[|a|] == c;
  }

  /** A FALSE under conjunctions makes the constraint false; without one nothing collapses. */
  lemma {:induction false} CollapsedMeaning(c: Constraint, env: Env)
    ensures Eval(c, env) ==> Eval(Collapsed(c), env)
    ensures FalseConjunct(c) ==> !Eval(c, env)
    ensures !FalseConjunct(c) ==> Collapsed(c) == c
  {
    if c.And? {
      forall i | 0 <= i < |c.ops|
        ensures Eval(c.ops[i], env) ==> Eval(Collapsed(c.ops[i]), env)
        ensures FalseConjunct(c.ops[i]) ==> !Eval(c.ops[i], env)
        ensures !FalseConjunct(c.ops[i]) ==> Collapsed(c.ops[i]) == c.ops[i]
      {
        CollapsedMeaning(c.ops[i], env);
      }
      if !FalseConjunct(c) {
        assert CollapsedAll(c.ops) == c.ops;
      }
    }
  }

  /** Whatever satisfies the input satisfies the output of simplify. */
  lemma SimplifyImplied(c: Constraint, env: Env)
    requires Safe(c) && Eval(c, env)
    ensures AllHold(Simplify(c), env)
  {
    SimplifyMeaning(c, env);
    CollapsedMeaning(c, env);
  }

  ghost predicate Unsatisfiable(c: Constraint) {
    forall env: Env :: !Eval(c, env)
  }

  /** The clauses of simplify mean what the constraint means, under every assignment. */
  ghost predicate SimplifyPreserves(c: Constraint) {
    forall env: Env :: AllHold(Simplify(c), env) == Eval(c, env)
  }

  /** simplify preserves the meaning exactly when no FALSE sits under conjunctions only, or when
      what remains after the collapse is unsatisfiable anyway. */
  lemma SimplifyExact(c: Constraint)
    requires Safe(c)
    ensures SimplifyPreserves(c) <==> !FalseConjunct(c) || Unsatisfiable(Collapsed(c))
  {
    forall env: Env
      ensures AllHold(Simplify(c), env) == Eval(Collapsed(c), env)
      ensures FalseConjunct(c) ==> !Eval(c, env)
      ensures !FalseConjunct(c) ==> Collapsed(c) == c
    {
      SimplifyMeaning(c, env);
      CollapsedMeaning(c, env);
    }
    if SimplifyPreserves(c) && FalseConjunct(c) {
      forall env: Env ensures !Eval(Collapsed(c), env) {
        assert AllHold(Simplify(c), env) == Eval(c, env);
      }
    }
  }

  /** The collapse is real: the unsatisfiable x AND FALSE is simplified to TRUE. */
  lemma FalseConjunctIsLost(x: VarId, env: Env)
    ensures Safe(And([Var(x), False])) && !Eval(And([Var(x), False]), env)
    ensures AllHold(Simplify(And([Var(x), False])), env)
  {
    var c := And([Var(x), False]);
    assert c.ops[1] == False;
    SimplifyMeaning(c, env);
  }

  /** Constraint::simplify as the source runs it: recursion with a loop over the operands. */
  method SimplifyInPlace(c: Constraint) returns (vec: seq<Constraint>)
    ensures vec == Simplify(c)
    decreases Weight(c), 0
  {
    match c {
      case And(ops) =>
        vec := [];
        var i := 0;
        while i < |ops|
          invariant 0 <= i <= |ops|
          invariant Simplify(c) == SimplifyAnd(c, i, vec)
        {
          OperandWeight(ops, i);
          var sub := SimplifyInPlace(ops[i]);
          var stopped;
          vec, stopped := MergeAndFree(vec, sub);
          if stopped {
            return;
          }
          i := i + 1;
        }
      case Or(ops) =>
        var i := 0;
        while i < |ops| && IsLiteral(ops[i])
          invariant 0 <= i <= |ops|
          invariant forall j | 0 <= j < i :: IsLiteral(ops[j])
        {
          i := i + 1;
        }
        if i == |ops| {
          return if |ops| == 1 then [ops[0]] else [c];
        }
        match ops[i] {
          case True =>
            vec := [True];
          case False =>
            WithoutWeight(ops, i, []);
            vec := SimplifyInPlace(Or(Without(ops, i) + []));
          case Or(cs) =>
            WithoutWeight(ops, i, cs);
            vec := SimplifyInPlace(Or(Without(ops, i) + cs));
          case Implies(l, r) =>
            WithoutWeight(ops, i, [Negate(l), r]);
            NegateWeight(l);
            PairWeight(Negate(l), r);
            vec := SimplifyInPlace(Or(Without(ops, i) + [Negate(l), r]));
          case And(cs) =>
            vec := [];
            var j := 0;
            while j < |cs|
              invariant 0 <= j <= |cs|
              invariant Simplify(c) == SimplifyDistributed(c, i, j, vec)
            {
              OperandWeight(cs, j);
              UpdateWeight(ops, i, cs[j]);
              var sub := SimplifyInPlace(Or(ops[i := cs[j]]));
              var stopped;
              vec, stopped := MergeAndFree(vec, sub);
              if stopped {
                return;
              }
              j := j + 1;
            }
        }
      case Implies(l, r) =>
        NegateWeight(l);
        PairWeight(Negate(l), r);
        vec := SimplifyInPlace(Or([Negate(l), r]));
      case _ =>
        vec := [c];
    }
  }
}
