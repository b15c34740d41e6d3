/** Branches in the encoding: when records are executed, what excludes what, and what the subsumption of executions
    promises (processBranch, recordExecCond and subsumesExecutionConstraint of constgen.cc). */
module Branches {
  import opened Addresses
  import opened CodeRecords
  import opened ConstGens
  import opened Constraints
  import opened Encodings
  import opened ExecPoints
  import opened LoadRFs
  import opened Records

  /** The encoder's tables: thread vectors, order table, branch codes, for every branch point its
      record and the directions that are known for it, and where operations get their addresses. */
  datatype Encoding = Encoding(threads: seq<seq<EPRecord>>, rpt: RecPairTable, bt: BranchTable,
                               recs: map<Point, EPRecord>, dirs: map<Point, seq<Count>>,
                               inputs: map<EPRecord, AddressInput>)

  // ---------------------------------------------------------------- branches

  ghost predicate BranchesOk(e: Encoding) {
    TableOfBranches(e.bt) && forall p {:trigger BranchOk(e, p)} | p in e.bt :: BranchOk(e, p)
  }

  predicate BranchOk(e: Encoding, p: Point)
    requires p in e.bt
  {
    && p in e.recs && p in e.dirs && e.recs[p].ep == p && ExecDefined(e.bt, e.recs[p])
    && (e.bt[p].always <==> AlwaysExecuted(e.recs[p]))
    && e.bt[p].numdirections == |e.dirs[p]|
  }

  /** The enclosing directions of a record are those of its branch, all the way out. */
  predicate Enclosed(e: Encoding, r: EPRecord) {
    forall i {:trigger EnclosedAt(e, r, i)} | 0 <= i < |r.branches| :: EnclosedAt(e, r, i)
  }

  predicate EnclosedAt(e: Encoding, r: EPRecord, i: nat)
    requires i < |r.branches|
  {
    var c := r.branches[i];
    c.branch in e.bt && c.branch in e.recs && c.index < e.bt[c.branch].numdirections
    && e.recs[c.branch].branches == r.branches[i + 1..]
  }

  /** Every branch pair of the record's point is one of its enclosing directions. */
  predicate Named(e: Encoding, r: EPRecord) {
    forall i | 0 <= i < |r.ep.pairs| && r.ep.pairs[i].kind == EP_BRANCH :: NamedAt(e, r, i)
  }

  predicate NamedAt(e: Encoding, r: EPRecord, i: nat)
    requires i < |r.ep.pairs|
  {
    exists j | 0 <= j < |r.branches| :: Names(e, r, i, r.branches[j])
  }

  predicate Names(e: Encoding, r: EPRecord, i: nat, c: BranchChoice)
    requires i < |r.ep.pairs|
  {
    && c.branch == Point(r.Tid(), r.ep.pairs[..i]) && c.branch in e.dirs && c.index < |e.dirs[c.branch]|
    && e.dirs[c.branch][c.index] == r.ep.pairs[i].count
  }

  /** The clause that a branch taking any direction is executed itself. */
  function ParentClause(bt: BranchTable, r: EPRecord): Constraint
    requires r.ep in bt && ExecDefined(bt, r)
  {
    Implies(bt[r.ep].GetAnyBranch(), ExecConstraint(bt, r))
  }

  /** The source of a branch's direction: the value of each known direction, whether every value but zero takes the
      same one, and the known values of the record that decides, with their encodings. */
  datatype BranchInput = BranchInput(values: seq<nat>, anyValue: bool, known: seq<nat>,
                                     encoding: nat -> Option<Constraint>)

  /** The encodings that the clauses use: the source takes it that they exist. */
  ghost predicate InputKnown(input: BranchInput) {
    && (forall v: nat :: input.encoding(v).Some? ==> NoImplies(input.encoding(v).value))
    && (forall i | 0 <= i < |input.values| :: input.values[i] == 0 || !input.anyValue ==>
          input.encoding(input.values[i]).Some?)
    && (forall i | 0 <= i < |input.known| :: input.encoding(input.known[i]).Some?)
  }

  /** An executed branch takes direction i when the condition holds. */
  function DirectionClause(bt: BranchTable, r: EPRecord, i: nat, condition: Constraint): Constraint
    requires r.ep in bt && ExecDefined(bt, r)
  {
    Implies(And([ExecConstraint(bt, r), condition]), bt[r.ep].GetBranch(i))
  }

  /** The conditions under which the source's value selects direction i. */
  function Conditions(input: BranchInput, i: nat): (cs: seq<Constraint>)
    requires InputKnown(input) && i < |input.values|
  {
    if input.values[i] == 0 || !input.anyValue then [input.encoding(input.values[i]).value]
    else if input.encoding(0).Some? then [Negate(input.encoding(0).value)]
    else seq(|input.known|, j requires 0 <= j < |input.known| => input.encoding(input.known[j]).value)
  }

  ghost function ConditionClauses(bt: BranchTable, r: EPRecord, i: nat, conditions: seq<Constraint>): set<Constraint>
    requires r.ep in bt && ExecDefined(bt, r)
  {
    set j | 0 <= j < |conditions| :: DirectionClause(bt, r, i, conditions[j])
  }

  ghost function DirectionClauses(bt: BranchTable, r: EPRecord, input: BranchInput, n: nat): set<Constraint>
    requires r.ep in bt && ExecDefined(bt, r) && InputKnown(input) && n <= |input.values|
  {
    if n == 0 then {}
    else DirectionClauses(bt, r, input, n - 1) + ConditionClauses(bt, r, n - 1, Conditions(input, n - 1))
  }

  /** All clauses of a branch. */
  ghost function BranchClauses(bt: BranchTable, r: EPRecord, input: BranchInput): set<Constraint>
    requires r.ep in bt && ExecDefined(bt, r) && InputKnown(input)
  {
    (if AlwaysExecuted(r) then {} else {ParentClause(bt, r)}) + DirectionClauses(bt, r, input, |input.values|)
  }

  lemma ConditionsSimple(input: BranchInput, i: nat)
    requires InputKnown(input) && i < |input.values|
    ensures forall j | 0 <= j < |Conditions(input, i)| :: NoImplies(Conditions(input, i)[j])
  {
    if input.encoding(0).Some? {
      NegateNegates(input.encoding(0).value, iset{});
    }
  }

  lemma DirectionAddable(bt: BranchTable, r: EPRecord, i: nat, condition: Constraint)
    requires TableOfBranches(bt) && r.ep in bt && ExecDefined(bt, r) && i < bt[r.ep].numdirections
    requires NoImplies(condition)
    ensures Addable(DirectionClause(bt, r, i, condition))
  {
    ExecutedMeaning(bt, r, iset{});
    BranchDecodes(bt[r.ep], i, iset{});
    RuleAddable(And([ExecConstraint(bt, r), condition]), bt[r.ep].GetBranch(i));
  }

  /** processBranch, but for the goal: exactly the clauses of the branch are added. */
  method ProcessBranch(cg: ConstGen, bt: BranchTable, r: EPRecord, input: BranchInput)
    requires cg.ClausesValid() && r.ep in bt && TableOfBranches(bt) && ExecDefined(bt, r)
    requires InputKnown(input) && |input.values| == bt[r.ep].numdirections
    modifies cg`clauses, cg`pending, cg`added
    ensures cg.ClausesValid() && cg.added == old(cg.added) + BranchClauses(bt, r, input)
  {
    AddParent(cg, bt, r);
    AddDirections(cg, bt, r, input);
  }

  /** The criteria of the parent branch. */
  method AddParent(cg: ConstGen, bt: BranchTable, r: EPRecord)
    requires cg.ClausesValid() && r.ep in bt && TableOfBranches(bt) && ExecDefined(bt, r)
    modifies cg`clauses, cg`pending, cg`added
    ensures cg.ClausesValid()
    ensures cg.added == old(cg.added) + if AlwaysExecuted(r) then {} else {ParentClause(bt, r)}
  {
    var baseconstraint := GetExecutionConstraint(bt, r);
    if !AlwaysExecuted(r) {
      ExecutedMeaning(bt, r, iset{});
      RuleAddable(bt[r.ep].GetAnyBranch(), baseconstraint);
      cg.AddConstraint(Implies(bt[r.ep].GetAnyBranch(), baseconstraint));
    }
  }

  /** The criteria for the directions. */
  method AddDirections(cg: ConstGen, bt: BranchTable, r: EPRecord, input: BranchInput)
    requires cg.ClausesValid() && r.ep in bt && TableOfBranches(bt) && ExecDefined(bt, r)
    requires InputKnown(input) && |input.values| == bt[r.ep].numdirections
    modifies cg`clauses, cg`pending, cg`added
    ensures cg.ClausesValid() && cg.added == old(cg.added) + DirectionClauses(bt, r, input, |input.values|)
  {
    ghost var before := cg.added;
    var i := 0;
    while i < |input.values|
      invariant 0 <= i <= |input.values| && cg.ClausesValid()
      invariant cg.added == before + DirectionClauses(bt, r, input, i)
    {
      NextDirection(cg, bt, r, input, i, before);
      i := i + 1;
    }
  }

  /** One round of the loop, with what it keeps. */
  method NextDirection(cg: ConstGen, bt: BranchTable, r: EPRecord, input: BranchInput, i: nat,
                       ghost before: set<Constraint>)
    requires cg.ClausesValid() && r.ep in bt && TableOfBranches(bt) && ExecDefined(bt, r)
    requires InputKnown(input) && i < |input.values| == bt[r.ep].numdirections
    requires cg.added == before + DirectionClauses(bt, r, input, i)
    modifies cg`clauses, cg`pending, cg`added
    ensures cg.ClausesValid() && cg.added == before + DirectionClauses(bt, r, input, i + 1)
  {
    ProcessDirection(cg, bt, r, input, i);
  }

  /** The clauses for one direction: br_false, br_true1, br_true2 or br_val. */
  method ProcessDirection(cg: ConstGen, bt: BranchTable, r: EPRecord, input: BranchInput, i: nat)
    requires cg.ClausesValid() && r.ep in bt && TableOfBranches(bt) && ExecDefined(bt, r)
    requires InputKnown(input) && i < |input.values| == bt[r.ep].numdirections
    modifies cg`clauses, cg`pending, cg`added
    ensures cg.ClausesValid()
    ensures cg.added == old(cg.added) + ConditionClauses(bt, r, i, Conditions(input, i))
  {
    var val := input.values[i];
    ghost var conditions := Conditions(input, i);
    ConditionsSimple(input, i);
    if val == 0 || !input.anyValue {
      AddDirection(cg, bt, r, i, input.encoding(val).value);
      OneCondition(bt, r, i, conditions);
    } else if input.encoding(0).Some? {
      assert conditions[0] == Negate(input.encoding(0).value);
      AddDirection(cg, bt, r, i, Negate(input.encoding(0).value));
      OneCondition(bt, r, i, conditions);
    } else {
      var j := 0;
      while j < |input.known|
        invariant 0 <= j <= |input.known| && cg.ClausesValid()
        invariant cg.added == old(cg.added) + ConditionClauses(bt, r, i, conditions[..j])
      {
        AddDirection(cg, bt, r, i, input.encoding(input.known[j]).value);
        NextCondition(bt, r, i, conditions, j);
        j := j + 1;
      }
      assert conditions[..j] == conditions;
    }
  }

  lemma OneCondition(bt: BranchTable, r: EPRecord, i: nat, conditions: seq<Constraint>)
    requires r.ep in bt && ExecDefined(bt, r) && |conditions| == 1
    ensures ConditionClauses(bt, r, i, conditions) == {DirectionClause(bt, r, i, conditions[0])}
  {
  }

  lemma NextCondition(bt: BranchTable, r: EPRecord, i: nat, conditions: seq<Constraint>, j: nat)
    requires r.ep in bt && ExecDefined(bt, r) && j < |conditions|
    ensures ConditionClauses(bt, r, i, conditions[..j + 1])
      == ConditionClauses(bt, r, i, conditions[..j]) + {DirectionClause(bt, r, i, conditions[j])}
  {
    var all, now := ConditionClauses(bt, r, i, conditions[..j + 1]), ConditionClauses(bt, r, i, conditions[..j]);
    forall c | c in all ensures c in now + {DirectionClause(bt, r, i, conditions[j])} {
      var k :| 0 <= k < j + 1 && c == DirectionClause(bt, r, i, conditions[..j + 1][k]);
      assert k < j ==> conditions[..j][k] == conditions[k];
    }
    forall c | c in now ensures c in all {
      var k :| 0 <= k < j && c == DirectionClause(bt, r, i, conditions[..j][k]);
      assert conditions[..j + 1][k] == conditions[k];
    }
    assert conditions[..j + 1][j] == conditions[j];
  }

  /** The source writes the execution constraint on either side of the condition. */
  method AddDirection(cg: ConstGen, bt: BranchTable, r: EPRecord, i: nat, condition: Constraint)
    requires cg.ClausesValid() && r.ep in bt && TableOfBranches(bt) && ExecDefined(bt, r)
    requires i < bt[r.ep].numdirections && NoImplies(condition)
    modifies cg`clauses, cg`pending, cg`added
    ensures cg.ClausesValid() && cg.added == old(cg.added) + {DirectionClause(bt, r, i, condition)}
  {
    var execconstraint := GetExecutionConstraint(bt, r);
    DirectionAddable(bt, r, i, condition);
    cg.AddConstraint(Implies(And([execconstraint, condition]), bt[r.ep].GetBranch(i)));
  }

  /** The value of the record that decides, in an assignment. */
  ghost predicate InputIs(input: BranchInput, v: nat, env: Env) {
    && (forall u: nat | input.encoding(u).Some? :: Eval(input.encoding(u).value, env) <==> u == v)
    && (v in input.known || input.encoding(0).Some?)
  }

  /** The value takes direction i. */
  predicate Leads(input: BranchInput, v: nat, i: nat)
    requires i < |input.values|
  {
    if input.values[i] == 0 || !input.anyValue then v == input.values[i] else v != 0
  }

  /** What the clauses of a branch are for, where its source has the value v: a branch that takes a direction is
      executed, and an executed one takes the direction to which the value leads. */
  ghost predicate BranchFollows(bt: BranchTable, r: EPRecord, input: BranchInput, v: nat, env: Env)
    requires r.ep in bt && ExecDefined(bt, r)
  {
    && (!AlwaysExecuted(r) && bt[r.ep].Direction(env) != -1 ==> Executed(bt, r, env))
    && (Executed(bt, r, env) ==> TakesLed(bt[r.ep], input, v, |input.values|, env))
  }

  /** The branch takes every one of the first n directions to which the value leads. */
  ghost predicate TakesLed(br: BranchRecord, input: BranchInput, v: nat, n: nat, env: Env)
    requires n <= |input.values|
  {
    forall i {:trigger Leads(input, v, i)} | 0 <= i < n && Leads(input, v, i) :: br.Direction(env) == i
  }

  /** The clauses say this and no more. */
  lemma BranchExactly(bt: BranchTable, r: EPRecord, input: BranchInput, v: nat, env: Env)
    requires TableOfBranches(bt) && r.ep in bt && ExecDefined(bt, r) && InputKnown(input)
    requires |input.values| == bt[r.ep].numdirections && InputIs(input, v, env)
    ensures AllIn(BranchClauses(bt, r, input), env) <==> BranchFollows(bt, r, input, v, env)
  {
    DirectionsMeaning(bt, r, input, v, |input.values|, env);
    ParentMeaning(bt, r, env);
    var parent: set<Constraint> := if AlwaysExecuted(r) then {} else {ParentClause(bt, r)};
    AllInBoth(parent, DirectionClauses(bt, r, input, |input.values|), env);
  }

  lemma ParentMeaning(bt: BranchTable, r: EPRecord, env: Env)
    requires TableOfBranches(bt) && r.ep in bt && ExecDefined(bt, r)
    ensures Eval(ParentClause(bt, r), env) <==> (bt[r.ep].Direction(env) != -1 ==> Executed(bt, r, env))
  {
    ExecutedMeaning(bt, r, env);
    NotExecutedDecodes(bt[r.ep], env);
  }

  lemma {:induction false} DirectionsMeaning(bt: BranchTable, r: EPRecord, input: BranchInput, v: nat, n: nat, env: Env)
    requires TableOfBranches(bt) && r.ep in bt && ExecDefined(bt, r) && InputKnown(input)
    requires n <= |input.values| == bt[r.ep].numdirections && InputIs(input, v, env)
    ensures AllIn(DirectionClauses(bt, r, input, n), env)
      <==> (Executed(bt, r, env) ==> TakesLed(bt[r.ep], input, v, n, env))
  {
    if n > 0 {
      DirectionsMeaning(bt, r, input, v, n - 1, env);
      DirectionMeaning(bt, r, input, v, n - 1, env);
      TakesLedStep(bt[r.ep], input, v, n - 1, env);
      AllInBoth(DirectionClauses(bt, r, input, n - 1), ConditionClauses(bt, r, n - 1, Conditions(input, n - 1)), env);
    }
  }

  lemma TakesLedStep(br: BranchRecord, input: BranchInput, v: nat, n: nat, env: Env)
    requires n < |input.values|
    ensures TakesLed(br, input, v, n + 1, env)
      <==> TakesLed(br, input, v, n, env) && (Leads(input, v, n) ==> br.Direction(env) == n)
  {
  }

  lemma DirectionMeaning(bt: BranchTable, r: EPRecord, input: BranchInput, v: nat, i: nat, env: Env)
    requires TableOfBranches(bt) && r.ep in bt && ExecDefined(bt, r) && InputKnown(input)
    requires i < |input.values| == bt[r.ep].numdirections && InputIs(input, v, env)
    ensures AllIn(ConditionClauses(bt, r, i, Conditions(input, i)), env)
      <==> (Executed(bt, r, env) && Leads(input, v, i) ==> bt[r.ep].Direction(env) == i)
  {
    var conditions := Conditions(input, i);
    forall j | 0 <= j < |conditions|
      ensures Eval(DirectionClause(bt, r, i, conditions[j]), env)
        <==> (Executed(bt, r, env) && Eval(conditions[j], env) ==> bt[r.ep].Direction(env) == i)
      ensures Eval(conditions[j], env) ==> Leads(input, v, i)
    {
      ClauseForces(bt, r, i, conditions[j], env);
      ConditionLeads(input, v, i, j, env);
    }
    if Leads(input, v, i) {
      var j := ConditionHolds(input, v, i, env);
      assert DirectionClause(bt, r, i, conditions[j]) in ConditionClauses(bt, r, i, conditions);
    }
  }

  /** Under the conditions the value leads to the direction. */
  lemma ConditionLeads(input: BranchInput, v: nat, i: nat, j: nat, env: Env)
    requires InputKnown(input) && i < |input.values| && InputIs(input, v, env) && j < |Conditions(input, i)|
    ensures Eval(Conditions(input, i)[j], env) ==> Leads(input, v, i)
  {
    if input.values[i] != 0 && input.anyValue && input.encoding(0).Some? {
      NegateNegates(input.encoding(0).value, env);
    }
  }

  /** In an assignment that satisfies the clauses, an executed branch takes the direction to which the value of its
      source leads. */
  lemma BranchFollowsValue(bt: BranchTable, r: EPRecord, input: BranchInput, v: nat, i: nat, env: Env)
    requires TableOfBranches(bt) && r.ep in bt && ExecDefined(bt, r) && InputKnown(input)
    requires |input.values| == bt[r.ep].numdirections && i < |input.values|
    requires AllIn(BranchClauses(bt, r, input), env) && Executed(bt, r, env) && InputIs(input, v, env)
    requires Leads(input, v, i)
    ensures bt[r.ep].Direction(env) == i
  {
    BranchExactly(bt, r, input, v, env);
  }

  /** One of the conditions holds. */
  lemma ConditionHolds(input: BranchInput, v: nat, i: nat, env: Env) returns (j: nat)
    requires InputKnown(input) && i < |input.values| && InputIs(input, v, env) && Leads(input, v, i)
    ensures j < |Conditions(input, i)| && Eval(Conditions(input, i)[j], env)
  {
    j := 0;
    if input.values[i] != 0 && input.anyValue {
      if input.encoding(0).Some? {
        NegateNegates(input.encoding(0).value, env);
      } else {
        j :| 0 <= j < |input.known| && input.known[j] == v;
      }
    }
  }

  lemma ClauseForces(bt: BranchTable, r: EPRecord, i: nat, condition: Constraint, env: Env)
    requires TableOfBranches(bt) && r.ep in bt && ExecDefined(bt, r) && i < bt[r.ep].numdirections
    ensures Eval(DirectionClause(bt, r, i, condition), env)
      <==> (Executed(bt, r, env) && Eval(condition, env) ==> bt[r.ep].Direction(env) == i)
  {
    PairHolds(ExecConstraint(bt, r), condition, env);
    BranchDecodes(bt[r.ep], i, env);
  }

  lemma PairHolds(a: Constraint, b: Constraint, env: Env)
    ensures Eval(And([a, b]), env) <==> Eval(a, env) && Eval(b, env)
  {
    assert [a, b][0] == a && [a, b][1] == b;
  }

  /** The outcome of the branches that an assignment describes. */
  ghost predicate BranchesHold(e: Encoding, env: Env) {
    BranchesOk(e) && forall p {:trigger ParentHolds(e, p, env)} | p in e.bt && BranchOk(e, p) :: ParentHolds(e, p, env)
  }

  ghost predicate ParentHolds(e: Encoding, p: Point, env: Env)
    requires p in e.bt && BranchOk(e, p)
  {
    !e.bt[p].always ==> Eval(ParentClause(e.bt, e.recs[p]), env)
  }

  /** A branch that takes a known direction is executed. */
  lemma TakenIsExecuted(e: Encoding, c: BranchChoice, env: Env)
    requires BranchesHold(e, env) && c.branch in e.bt && c.index < e.bt[c.branch].numdirections
    requires Eval(ChoiceConstraint(e.bt, c), env)
    ensures BranchOk(e, c.branch) && Executed(e.bt, e.recs[c.branch], env)
  {
    var p := c.branch;
    assert BranchOk(e, p) && ParentHolds(e, p, env);
    BranchDecodes(e.bt[p], c.index, env);
    ExecutedMeaning(e.bt, e.recs[p], env);
  }

  ghost predicate Taken(bt: BranchTable, c: BranchChoice, env: Env) {
    c.branch in bt && Eval(ChoiceConstraint(bt, c), env)
  }

  lemma InnermostTaken(e: Encoding, r: EPRecord, env: Env)
    requires TableOfBranches(e.bt) && ExecDefined(e.bt, r) && r.branches != [] && Executed(e.bt, r, env)
    ensures Taken(e.bt, r.branches[0], env)
  {
    ExecutedMeaning(e.bt, r, env);
  }

  /** From one enclosing direction to the next. */
  lemma StepOut(e: Encoding, r: EPRecord, i: nat, env: Env)
    requires BranchesHold(e, env) && i + 1 < |r.branches| && EnclosedAt(e, r, i)
    requires Taken(e.bt, r.branches[i], env)
    ensures Taken(e.bt, r.branches[i + 1], env)
  {
    var parent := e.recs[r.branches[i].branch];
    assert parent.branches[0] == r.branches[i + 1];
    TakenIsExecuted(e, r.branches[i], env);
    InnermostTaken(e, parent, env);
  }

  /** An executed record's directions are all taken, from the innermost to the outermost. */
  lemma {:induction false} DirectionsTaken(e: Encoding, r: EPRecord, env: Env, i: nat)
    requires BranchesHold(e, env) && Enclosed(e, r) && ExecDefined(e.bt, r) && i < |r.branches|
    requires Executed(e.bt, r, env)
    ensures Taken(e.bt, r.branches[i], env)
  {
    if i == 0 {
      InnermostTaken(e, r, env);
    } else {
      DirectionsTaken(e, r, env, i - 1);
      assert EnclosedAt(e, r, i - 1);
      StepOut(e, r, i - 1, env);
    }
  }

  /** Records in different directions of one branch are never both executed. */
  lemma IncomparableNotBoth(e: Encoding, a: EPRecord, b: EPRecord, env: Env)
    requires BranchesHold(e, env) && a.Tid() == b.Tid()
    requires Enclosed(e, a) && Named(e, a) && ExecDefined(e.bt, a)
    requires Enclosed(e, b) && Named(e, b) && ExecDefined(e.bt, b)
    requires ExecPoints.Consistent(a.ep.pairs, b.ep.pairs) && CompareRecords(a, b) == Incomparable
    ensures !(Executed(e.bt, a, env) && Executed(e.bt, b, env))
  {
    CompareAtDifference(a.ep.pairs, b.ep.pairs);
    var d := FirstDifference(a.ep.pairs, b.ep.pairs);
    assert NamedAt(e, a, d) && NamedAt(e, b, d);
    var i :| 0 <= i < |a.branches| && Names(e, a, d, a.branches[i]);
    var j :| 0 <= j < |b.branches| && Names(e, b, d, b.branches[j]);
    assert a.ep.pairs[..d] == b.ep.pairs[..d];
    if Executed(e.bt, a, env) && Executed(e.bt, b, env) {
      DirectionsTaken(e, a, env, i);
      DirectionsTaken(e, b, env, j);
      assert EnclosedAt(e, a, i) && EnclosedAt(e, b, j);
      assert BranchOk(e, a.branches[i].branch);
      BranchDecodes(e.bt[a.branches[i].branch], a.branches[i].index, env);
      BranchDecodes(e.bt[b.branches[j].branch], b.branches[j].index, env);
      assert false;
    }
  }
}
