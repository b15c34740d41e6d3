/** When the execution of one record implies that of another: what subsumesExecutionConstraint tests, and exactly when
    its answer is right (constgen.cc). */
module Subsumptions {
  import opened Branches
  import opened CodeRecords
  import opened Constraints
  import opened Encodings
  import opened ExecPoints
  import opened LoadRFs
  import opened ReadFrom
  import opened Records

  // ---------------------------------------------------------------- what the encoder knows of branches

  /** No two branches share a variable, and no branch has one twice. */
  ghost predicate VarsApart(bt: BranchTable) {
    && (forall p | p in bt :: Distinct(bt[p].vars))
    && forall p, q, i, j | p in bt && q in bt && p != q && 0 <= i < |bt[p].vars| && 0 <= j < |bt[q].vars| ::
         bt[p].vars[i] != bt[q].vars[j]
  }

  /** The directions that skip the record are directions of branches of the table. */
  predicate SkipsKnown(e: Encoding, r: EPRecord) {
    forall i {:trigger SkipKnown(e, r, i)} | 0 <= i < |r.skippedBy| :: SkipKnown(e, r, i)
  }

  predicate SkipKnown(e: Encoding, r: EPRecord, i: nat)
    requires i < |r.skippedBy|
  {
    ChoiceKnown(e, r.skippedBy[i].choice)
  }

  predicate ChoiceKnown(e: Encoding, x: BranchChoice) {
    x.branch in e.bt && x.branch in e.recs && x.index < e.bt[x.branch].numdirections
  }

  /** All branches of the table are recorded, with the directions that they sit in and that skip them. */
  ghost predicate BranchesKnown(e: Encoding) {
    BranchesOk(e) && forall p {:trigger BranchKnown(e, p)} | p in e.bt :: BranchKnown(e, p)
  }

  predicate BranchKnown(e: Encoding, p: Point)
    requires p in e.bt
  {
    BranchOk(e, p) && Enclosed(e, e.recs[p]) && SkipsKnown(e, e.recs[p])
  }

  // ---------------------------------------------------------------- one assignment

  /** Where subsumesExecutionConstraint says that k is executed whenever c is, and c is executed, k is executed exactly
      when nothing skips it. */
  lemma SubsumedUnlessSkipped(e: Encoding, k: EPRecord, c: EPRecord, env: Env)
    requires BranchesHold(e, env) && Enclosed(e, c) && ExecDefined(e.bt, c) && ExecDefined(e.bt, k)
    requires Subsumes(k, c) && Executed(e.bt, c, env)
    ensures Executed(e.bt, k, env) <==> forall i | 0 <= i < |k.skippedBy| :: !Taken(e.bt, k.skippedBy[i].choice, env)
  {
    ExecutedMeaning(e.bt, k, env);
    if k.branches != [] {
      var i :| 0 <= i < |c.branches| && c.branches[i] == k.branches[0];
      DirectionsTaken(e, c, env, i);
    }
  }

  /** The code of a direction. */
  function CodeOf(br: BranchRecord, index: nat): nat {
    if br.always then index else index + 1
  }

  lemma TakenIsCode(e: Encoding, x: BranchChoice, env: Env)
    requires TableOfBranches(e.bt) && x.branch in e.bt && x.index < e.bt[x.branch].numdirections
    ensures Taken(e.bt, x, env) <==> Code(e.bt[x.branch].vars, env) == CodeOf(e.bt[x.branch], x.index)
  {
    BranchDecodes(e.bt[x.branch], x.index, env);
  }

  // ---------------------------------------------------------------- a condition on the records

  /** The directions that are taken when c is executed and the choice s is taken: those around c, s, and those around
      its branch. */
  function Needed(e: Encoding, c: EPRecord, s: BranchChoice): seq<BranchChoice>
    requires s.branch in e.recs
  {
    c.branches + [s] + e.recs[s.branch].branches
  }

  predicate Skips(r: EPRecord, x: BranchChoice) {
    exists i | 0 <= i < |r.skippedBy| :: r.skippedBy[i].choice == x
  }

  /** The choice skips c, or a branch that takes a needed direction. */
  predicate Excluded(e: Encoding, c: EPRecord, s: BranchChoice, x: BranchChoice)
    requires s.branch in e.recs
  {
    Skips(c, x) || exists i | 0 <= i < |Needed(e, c, s)| :: SkipsBranch(e, Needed(e, c, s)[i], x)
  }

  predicate SkipsBranch(e: Encoding, n: BranchChoice, x: BranchChoice) {
    n.branch in e.recs && Skips(e.recs[n.branch], x)
  }

  /** Some needed direction is one of the branch. */
  predicate IsNeeded(e: Encoding, c: EPRecord, s: BranchChoice, p: Point)
    requires s.branch in e.recs
  {
    exists i | 0 <= i < |Needed(e, c, s)| :: Needed(e, c, s)[i].branch == p
  }

  /** The code takes no excluded direction of the branch. */
  predicate FreeCode(e: Encoding, c: EPRecord, s: BranchChoice, p: Point, v: nat)
    requires s.branch in e.recs && p in e.bt
  {
    v < Pow2(|e.bt[p].vars|)
    && forall i | 0 <= i < e.bt[p].numdirections && Excluded(e, c, s, BranchChoice(p, i)) :: v != CodeOf(e.bt[p], i)
  }

  /** No branch needs two directions, no needed direction is excluded, and every branch that is always executed and
      not needed has a code that takes no excluded direction. The test is one on the records. */
  ghost predicate Compatible(e: Encoding, c: EPRecord, s: BranchChoice) {
    && s.branch in e.recs
    && (forall i, j | 0 <= i < |Needed(e, c, s)| && 0 <= j < |Needed(e, c, s)|
          && Needed(e, c, s)[i].branch == Needed(e, c, s)[j].branch :: Needed(e, c, s)[i] == Needed(e, c, s)[j])
    && (forall i | 0 <= i < |Needed(e, c, s)| :: !Excluded(e, c, s, Needed(e, c, s)[i]))
    && forall p | p in e.bt && e.bt[p].always && !IsNeeded(e, c, s, p) :: exists v: nat :: FreeCode(e, c, s, p, v)
  }

  /** The assignment executes c, takes the choice, and satisfies the parent clauses of all branches. */
  ghost predicate Together(e: Encoding, c: EPRecord, s: BranchChoice, env: Env) {
    BranchesHold(e, env) && ExecDefined(e.bt, c) && Executed(e.bt, c, env) && Taken(e.bt, s, env)
  }

  // ---------------------------------------------------------------- the condition is necessary

  lemma NeededTaken(e: Encoding, c: EPRecord, s: BranchChoice, env: Env, i: nat)
    requires BranchesKnown(e) && Enclosed(e, c) && ChoiceKnown(e, s) && Together(e, c, s, env)
    requires i < |Needed(e, c, s)|
    ensures Taken(e.bt, Needed(e, c, s)[i], env) && ChoiceKnown(e, Needed(e, c, s)[i])
    ensures BranchKnown(e, Needed(e, c, s)[i].branch)
    ensures Executed(e.bt, e.recs[Needed(e, c, s)[i].branch], env)
  {
    var n := |c.branches|;
    var x, b := Needed(e, c, s)[i], e.recs[s.branch];
    assert BranchKnown(e, s.branch);
    TakenIsExecuted(e, s, env);
    if i < n {
      assert EnclosedAt(e, c, i);
      DirectionsTaken(e, c, env, i);
    } else if i > n {
      assert EnclosedAt(e, b, i - n - 1) && x == b.branches[i - n - 1];
      DirectionsTaken(e, b, env, i - n - 1);
    }
    assert BranchKnown(e, x.branch);
    TakenIsExecuted(e, x, env);
  }

  lemma ExcludedNotTaken(e: Encoding, c: EPRecord, s: BranchChoice, env: Env, x: BranchChoice)
    requires BranchesKnown(e) && Enclosed(e, c) && ChoiceKnown(e, s) && Together(e, c, s, env)
    requires Excluded(e, c, s, x)
    ensures !Taken(e.bt, x, env)
  {
    if Skips(c, x) {
      ExecutedMeaning(e.bt, c, env);
    } else {
      var i :| 0 <= i < |Needed(e, c, s)| && SkipsBranch(e, Needed(e, c, s)[i], x);
      NeededTaken(e, c, s, env, i);
      ExecutedMeaning(e.bt, e.recs[Needed(e, c, s)[i].branch], env);
    }
  }

  lemma TogetherIsCompatible(e: Encoding, c: EPRecord, s: BranchChoice, env: Env)
    requires BranchesKnown(e) && Enclosed(e, c) && ChoiceKnown(e, s) && Together(e, c, s, env)
    ensures Compatible(e, c, s)
  {
    var needed := Needed(e, c, s);
    forall i | 0 <= i < |needed|
      ensures ChoiceKnown(e, needed[i]) && !Excluded(e, c, s, needed[i])
      ensures Code(e.bt[needed[i].branch].vars, env) == CodeOf(e.bt[needed[i].branch], needed[i].index)
    {
      NeededTaken(e, c, s, env, i);
      TakenIsCode(e, needed[i], env);
      if Excluded(e, c, s, needed[i]) {
        ExcludedNotTaken(e, c, s, env, needed[i]);
      }
    }
    forall p | p in e.bt && e.bt[p].always ensures FreeCode(e, c, s, p, Code(e.bt[p].vars, env)) {
      forall i | 0 <= i < e.bt[p].numdirections && Excluded(e, c, s, BranchChoice(p, i))
        ensures Code(e.bt[p].vars, env) != CodeOf(e.bt[p], i)
      {
        ExcludedNotTaken(e, c, s, env, BranchChoice(p, i));
        TakenIsCode(e, BranchChoice(p, i), env);
      }
    }
  }

  // ---------------------------------------------------------------- the condition is sufficient

  ghost predicate WrittenBy(bt: BranchTable, codes: map<Point, nat>, p: Point, v: VarId)
    requires TableOfBranches(bt)
  {
    p in bt && p in codes && v in EnvFor(bt[p].vars, codes[p])
  }

  ghost predicate IsWritten(bt: BranchTable, codes: map<Point, nat>, v: VarId)
    requires TableOfBranches(bt)
  {
    exists p :: WrittenBy(bt, codes, p, v)
  }

  /** The assignment that writes a code for every branch. */
  ghost function Writing(bt: BranchTable, codes: map<Point, nat>): Env
    requires TableOfBranches(bt)
  {
    iset v: VarId | IsWritten(bt, codes, v)
  }

  lemma WritingCode(bt: BranchTable, codes: map<Point, nat>, p: Point)
    requires TableOfBranches(bt) && VarsApart(bt) && p in bt && p in codes && codes[p] < Pow2(|bt[p].vars|)
    ensures Code(bt[p].vars, Writing(bt, codes)) == codes[p]
  {
    var vars, all := bt[p].vars, Writing(bt, codes);
    forall i | 0 <= i < |vars| ensures vars[i].v in all <==> vars[i].v in EnvFor(vars, codes[p]) {
      assert vars[i].v in EnvFor(vars, codes[p]) ==> WrittenBy(bt, codes, p, vars[i].v);
      if vars[i].v in all {
        var q :| WrittenBy(bt, codes, q, vars[i].v);
        EnvForVars(bt[q].vars, codes[q], vars[i].v);
        var j :| 0 <= j < |bt[q].vars| && bt[q].vars[j] == Var(vars[i].v);
        assert bt[q].vars[j] == vars[i];
      }
    }
    EnvForCode(vars, codes[p]);
    CodeFrame(vars, EnvFor(vars, codes[p]), all);
  }

  /** The code that a branch gets: its needed direction, a free code where it is executed in any case, and "not
      executed" otherwise. */
  ghost function ChosenCode(e: Encoding, c: EPRecord, s: BranchChoice, p: Point): (v: nat)
    requires BranchesKnown(e) && Compatible(e, c, s) && p in e.bt
    requires forall i | 0 <= i < |Needed(e, c, s)| :: ChoiceKnown(e, Needed(e, c, s)[i])
    ensures v < Pow2(|e.bt[p].vars|)
  {
    if IsNeeded(e, c, s, p) then
      var i :| 0 <= i < |Needed(e, c, s)| && Needed(e, c, s)[i].branch == p;
      assert ChoiceKnown(e, Needed(e, c, s)[i]);
      CodeFits(e.bt[p], Needed(e, c, s)[i].index);
      CodeOf(e.bt[p], Needed(e, c, s)[i].index)
    else if e.bt[p].always then
      var v: nat :| FreeCode(e, c, s, p, v);
      v
    else 0
  }

  lemma CodeFits(br: BranchRecord, index: nat)
    requires br.Valid() && index < br.numdirections
    ensures CodeOf(br, index) < Pow2(|br.vars|)
  {
  }

  ghost function ChosenCodes(e: Encoding, c: EPRecord, s: BranchChoice): map<Point, nat>
    requires BranchesKnown(e) && Compatible(e, c, s)
    requires forall i | 0 <= i < |Needed(e, c, s)| :: ChoiceKnown(e, Needed(e, c, s)[i])
  {
    map p | p in e.bt :: ChosenCode(e, c, s, p)
  }

  /** The assignment that shows it: every branch has its chosen code. */
  ghost function Witness(e: Encoding, c: EPRecord, s: BranchChoice): Env
    requires BranchesKnown(e) && Compatible(e, c, s)
    requires forall i | 0 <= i < |Needed(e, c, s)| :: ChoiceKnown(e, Needed(e, c, s)[i])
  {
    Writing(e.bt, ChosenCodes(e, c, s))
  }

  /** What c and s need is known. */
  lemma NeededKnown(e: Encoding, c: EPRecord, s: BranchChoice, i: nat)
    requires BranchesKnown(e) && Enclosed(e, c) && ChoiceKnown(e, s) && i < |Needed(e, c, s)|
    ensures ChoiceKnown(e, Needed(e, c, s)[i])
  {
    var n, b := |c.branches|, e.recs[s.branch];
    assert BranchKnown(e, s.branch);
    if i < n {
      assert EnclosedAt(e, c, i);
    } else if i > n {
      assert EnclosedAt(e, b, i - n - 1) && Needed(e, c, s)[i] == b.branches[i - n - 1];
    }
  }

  /** A direction is taken in it exactly when its branch has the direction's code. */
  lemma WitnessTakes(e: Encoding, c: EPRecord, s: BranchChoice, x: BranchChoice)
    requires BranchesKnown(e) && VarsApart(e.bt) && Compatible(e, c, s) && ChoiceKnown(e, x)
    requires forall i | 0 <= i < |Needed(e, c, s)| :: ChoiceKnown(e, Needed(e, c, s)[i])
    ensures Taken(e.bt, x, Witness(e, c, s)) <==> ChosenCode(e, c, s, x.branch) == CodeOf(e.bt[x.branch], x.index)
  {
    WritingCode(e.bt, ChosenCodes(e, c, s), x.branch);
    TakenIsCode(e, x, Witness(e, c, s));
  }

  lemma WitnessTakesNeeded(e: Encoding, c: EPRecord, s: BranchChoice, i: nat)
    requires BranchesKnown(e) && VarsApart(e.bt) && Compatible(e, c, s) && i < |Needed(e, c, s)|
    requires forall i | 0 <= i < |Needed(e, c, s)| :: ChoiceKnown(e, Needed(e, c, s)[i])
    ensures Taken(e.bt, Needed(e, c, s)[i], Witness(e, c, s))
  {
    WitnessTakes(e, c, s, Needed(e, c, s)[i]);
  }

  lemma WitnessTakesNoExcluded(e: Encoding, c: EPRecord, s: BranchChoice, x: BranchChoice)
    requires BranchesKnown(e) && VarsApart(e.bt) && Compatible(e, c, s) && ChoiceKnown(e, x) && Excluded(e, c, s, x)
    requires forall i | 0 <= i < |Needed(e, c, s)| :: ChoiceKnown(e, Needed(e, c, s)[i])
    ensures !Taken(e.bt, x, Witness(e, c, s))
  {
    WitnessTakes(e, c, s, x);
    if IsNeeded(e, c, s, x.branch) {
      var i :| 0 <= i < |Needed(e, c, s)| && Needed(e, c, s)[i].branch == x.branch
        && ChosenCode(e, c, s, x.branch) == CodeOf(e.bt[x.branch], Needed(e, c, s)[i].index);
      assert Needed(e, c, s)[i] != x;
    }
  }

  /** A record is executed in it whose innermost direction is needed and whose skips are excluded. */
  lemma WitnessExecutes(e: Encoding, c: EPRecord, s: BranchChoice, r: EPRecord)
    requires BranchesKnown(e) && VarsApart(e.bt) && Compatible(e, c, s) && ExecDefined(e.bt, r) && SkipsKnown(e, r)
    requires forall i | 0 <= i < |Needed(e, c, s)| :: ChoiceKnown(e, Needed(e, c, s)[i])
    requires r.branches != [] ==> r.branches[0] in Needed(e, c, s)
    requires forall i | 0 <= i < |r.skippedBy| :: Excluded(e, c, s, r.skippedBy[i].choice)
    ensures Executed(e.bt, r, Witness(e, c, s))
  {
    ExecutedMeaning(e.bt, r, Witness(e, c, s));
    if r.branches != [] {
      var i :| 0 <= i < |Needed(e, c, s)| && Needed(e, c, s)[i] == r.branches[0];
      WitnessTakesNeeded(e, c, s, i);
    }
    forall i | 0 <= i < |r.skippedBy| ensures !Taken(e.bt, r.skippedBy[i].choice, Witness(e, c, s)) {
      assert SkipKnown(e, r, i);
      WitnessTakesNoExcluded(e, c, s, r.skippedBy[i].choice);
    }
  }

  /** The branch of a needed direction is executed. */
  lemma WitnessExecutesBranch(e: Encoding, c: EPRecord, s: BranchChoice, i: nat)
    requires BranchesKnown(e) && VarsApart(e.bt) && Compatible(e, c, s) && Enclosed(e, c) && ChoiceKnown(e, s)
    requires forall i | 0 <= i < |Needed(e, c, s)| :: ChoiceKnown(e, Needed(e, c, s)[i])
    requires i < |Needed(e, c, s)|
    ensures ChoiceKnown(e, Needed(e, c, s)[i]) && BranchKnown(e, Needed(e, c, s)[i].branch)
    ensures Executed(e.bt, e.recs[Needed(e, c, s)[i].branch], Witness(e, c, s))
  {
    var x := Needed(e, c, s)[i];
    var r := e.recs[x.branch];
    assert BranchKnown(e, x.branch);
    NextOut(e, c, s, i);
    forall j | 0 <= j < |r.skippedBy| ensures Excluded(e, c, s, r.skippedBy[j].choice) {
      assert Skips(r, r.skippedBy[j].choice) && SkipsBranch(e, x, r.skippedBy[j].choice);
    }
    WitnessExecutes(e, c, s, r);
  }

  /** The direction that the branch of a needed direction sits in is needed. */
  lemma NextOut(e: Encoding, c: EPRecord, s: BranchChoice, i: nat)
    requires BranchesKnown(e) && Enclosed(e, c) && ChoiceKnown(e, s) && i < |Needed(e, c, s)|
    requires ChoiceKnown(e, Needed(e, c, s)[i])
    ensures var r := e.recs[Needed(e, c, s)[i].branch]; r.branches != [] ==> r.branches[0] in Needed(e, c, s)
  {
    var n, b, all := |c.branches|, e.recs[s.branch], Needed(e, c, s);
    assert BranchKnown(e, s.branch);
    if i < n {
      assert EnclosedAt(e, c, i);
      assert i + 1 < n ==> all[i + 1] == c.branches[i + 1];
    } else if i == n {
      assert b.branches != [] ==> all[n + 1] == b.branches[0];
    } else {
      var j := i - n - 1;
      assert EnclosedAt(e, b, j) && all[i] == b.branches[j];
      assert j + 1 < |b.branches| ==> all[i + 1] == b.branches[j + 1];
    }
  }

  lemma CompatibleIsTogether(e: Encoding, c: EPRecord, s: BranchChoice)
    requires BranchesKnown(e) && VarsApart(e.bt) && Compatible(e, c, s)
    requires Enclosed(e, c) && ExecDefined(e.bt, c) && SkipsKnown(e, c) && ChoiceKnown(e, s)
    ensures forall i | 0 <= i < |Needed(e, c, s)| :: ChoiceKnown(e, Needed(e, c, s)[i])
    ensures Together(e, c, s, Witness(e, c, s))
  {
    var n := |c.branches|;
    forall i | 0 <= i < |Needed(e, c, s)| ensures ChoiceKnown(e, Needed(e, c, s)[i]) {
      NeededKnown(e, c, s, i);
    }
    assert Needed(e, c, s)[n] == s && (n > 0 ==> Needed(e, c, s)[0] == c.branches[0]);
    WitnessTakesNeeded(e, c, s, n);
    forall i | 0 <= i < |c.skippedBy| ensures Excluded(e, c, s, c.skippedBy[i].choice) {
      assert Skips(c, c.skippedBy[i].choice);
    }
    WitnessExecutes(e, c, s, c);
    WitnessParents(e, c, s);
  }

  lemma WitnessParents(e: Encoding, c: EPRecord, s: BranchChoice)
    requires BranchesKnown(e) && VarsApart(e.bt) && Compatible(e, c, s) && Enclosed(e, c) && ChoiceKnown(e, s)
    requires forall i | 0 <= i < |Needed(e, c, s)| :: ChoiceKnown(e, Needed(e, c, s)[i])
    ensures BranchesHold(e, Witness(e, c, s))
  {
    var env := Witness(e, c, s);
    forall p {:trigger ParentHolds(e, p, env)} | p in e.bt && BranchOk(e, p) ensures ParentHolds(e, p, env) {
      if IsNeeded(e, c, s, p) {
        var i :| 0 <= i < |Needed(e, c, s)| && Needed(e, c, s)[i].branch == p;
        WitnessExecutesBranch(e, c, s, i);
      } else if !e.bt[p].always {
        WritingCode(e.bt, ChosenCodes(e, c, s), p);
        NotExecutedDecodes(e.bt[p], env);
      }
    }
  }

  // ---------------------------------------------------------------- exactly

  /** Some assignment that satisfies the parent clauses executes c and takes the choice exactly when they are
      compatible. */
  lemma TogetherExactly(e: Encoding, c: EPRecord, s: BranchChoice)
    requires BranchesKnown(e) && VarsApart(e.bt)
    requires Enclosed(e, c) && ExecDefined(e.bt, c) && SkipsKnown(e, c) && ChoiceKnown(e, s)
    ensures (exists env: Env :: Together(e, c, s, env)) <==> Compatible(e, c, s)
  {
    if env: Env :| Together(e, c, s, env) {
      TogetherIsCompatible(e, c, s, env);
    }
    if Compatible(e, c, s) {
      CompatibleIsTogether(e, c, s);
    }
  }

  /** No direction that skips k is compatible with the execution of c. */
  ghost predicate NoSkipCompatible(e: Encoding, k: EPRecord, c: EPRecord) {
    forall i | 0 <= i < |k.skippedBy| :: !Compatible(e, c, k.skippedBy[i].choice)
  }

  ghost predicate Implied(e: Encoding, k: EPRecord, c: EPRecord, env: Env)
    requires ExecDefined(e.bt, k) && ExecDefined(e.bt, c)
  {
    BranchesHold(e, env) && Executed(e.bt, c, env) ==> Executed(e.bt, k, env)
  }

  /** Where the test says that the execution of c implies that of k, it does, in every assignment that satisfies the
      parent clauses, exactly when no direction that skips k is compatible with the execution of c. */
  lemma SubsumesExactly(e: Encoding, k: EPRecord, c: EPRecord)
    requires BranchesKnown(e) && VarsApart(e.bt) && Subsumes(k, c)
    requires Enclosed(e, c) && ExecDefined(e.bt, c) && SkipsKnown(e, c) && ExecDefined(e.bt, k) && SkipsKnown(e, k)
    ensures (forall env: Env :: Implied(e, k, c, env)) <==> NoSkipCompatible(e, k, c)
  {
    if NoSkipCompatible(e, k, c) {
      forall env: Env ensures Implied(e, k, c, env) {
        if BranchesHold(e, env) && Executed(e.bt, c, env) {
          SubsumedIsExecuted(e, k, c, env);
        }
      }
    } else {
      var i :| 0 <= i < |k.skippedBy| && Compatible(e, c, k.skippedBy[i].choice);
      assert SkipKnown(e, k, i);
      CompatibleIsTogether(e, c, k.skippedBy[i].choice);
      var env := Witness(e, c, k.skippedBy[i].choice);
      SubsumedUnlessSkipped(e, k, c, env);
      assert !Implied(e, k, c, env);
    }
  }

  /** One half of it needs nothing about variables. */
  lemma SubsumedIsExecuted(e: Encoding, k: EPRecord, c: EPRecord, env: Env)
    requires BranchesKnown(e) && BranchesHold(e, env) && Subsumes(k, c) && NoSkipCompatible(e, k, c)
    requires Enclosed(e, c) && ExecDefined(e.bt, c) && ExecDefined(e.bt, k) && SkipsKnown(e, k)
    requires Executed(e.bt, c, env)
    ensures Executed(e.bt, k, env)
  {
    SubsumedUnlessSkipped(e, k, c, env);
    forall i | 0 <= i < |k.skippedBy| ensures !Taken(e.bt, k.skippedBy[i].choice, env) {
      assert SkipKnown(e, k, i);
      if Taken(e.bt, k.skippedBy[i].choice, env) {
        TogetherIsCompatible(e, c, k.skippedBy[i].choice, env);
      }
    }
  }

  /** It is so where every direction that skips k also skips c or a branch that c sits in, as behind a jump all records
      or their branches are skipped. */
  lemma SharedSkips(e: Encoding, k: EPRecord, c: EPRecord)
    requires forall i | 0 <= i < |k.skippedBy| :: SharedBy(e, c, k.skippedBy[i].choice)
    ensures NoSkipCompatible(e, k, c)
  {
    forall i | 0 <= i < |k.skippedBy| ensures !Compatible(e, c, k.skippedBy[i].choice) {
      var x := k.skippedBy[i].choice;
      if x.branch in e.recs {
        assert Needed(e, c, x)[|c.branches|] == x;
        if !Skips(c, x) {
          var j :| 0 <= j < |c.branches| && SkipsBranch(e, c.branches[j], x);
          assert Needed(e, c, x)[j] == c.branches[j];
        }
        assert Excluded(e, c, x, x);
      }
    }
  }

  predicate SharedBy(e: Encoding, c: EPRecord, x: BranchChoice) {
    Skips(c, x) || exists j | 0 <= j < |c.branches| :: SkipsBranch(e, c.branches[j], x)
  }

  /** The comment on subsumesExecutionConstraint promises that k is executed whenever c is. It is not so for a record
      between a jump and its label: k comes after a jump in direction 0 of a branch and c after the label, so the jump
      is before c, and an assignment that takes the jump executes c and skips k. */
  lemma SkippedIsSubsumed(branch: Point, jump: Point, at: Point, behind: Point)
    requires jump.tid == behind.tid && Compare(jump.pairs, behind.pairs) == After
    ensures var br := BranchRecord([Var(1)], true, 2, false);
      var k := EPRecord(at, STORE, [0], [], [], [Skip(jump, BranchChoice(branch, 0))]);
      var c := EPRecord(behind, STORE, [0], [], [], []);
      && br.Valid() && ExecDefined(map[branch := br], k) && ExecDefined(map[branch := br], c)
      && Subsumes(k, c) && Executed(map[branch := br], c, iset{}) && !Executed(map[branch := br], k, iset{})
  {
    var br := BranchRecord([Var(1)], true, 2, false);
    SkipTaken(branch, br, EPRecord(at, STORE, [0], [], [], [Skip(jump, BranchChoice(branch, 0))]));
  }

  lemma SkipTaken(branch: Point, br: BranchRecord, k: EPRecord)
    requires br == BranchRecord([Var(1)], true, 2, false) && k.branches == []
    requires |k.skippedBy| == 1 && k.skippedBy[0].choice == BranchChoice(branch, 0)
    ensures var bt := map[branch := br]; br.Valid() && ExecDefined(bt, k) && !Executed(bt, k, iset{})
  {
    assert NumVars(br.NumCodes()) == 1;
    ExecutedMeaning(map[branch := br], k, iset{});
  }
}
