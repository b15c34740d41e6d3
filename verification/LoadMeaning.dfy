/** What the clauses of a load say about an assignment. */
module LoadMeanings {
  import opened Constraints
  import opened Encodings
  import opened Records
  import opened ConstGens
  import opened LoadRFs

  /** The code of the load has a value for every store that may be read. */
  ghost predicate Coded(x: LoadContext) {
    ContextOk(x) && |x.rf| == NumBits(|x.mrf|) && |x.rf| <= 32
  }

  ghost predicate Ordered(x: LoadContext, a: EPRecord, b: EPRecord, env: Env)
    requires Related(x.rpt, a, b)
  {
    Eval(OrderConstraint(x.rpt, a, b), env)
  }

  ghost predicate SameAddress(x: LoadContext, k: EPRecord, env: Env)
    requires k in x.tables.addr && x.load in x.tables.addr
  {
    Code(x.tables.addr[k], env) == Code(x.tables.addr[x.load], env)
  }

  /** Store s is executed before the load, at the load's address and with the load's value. */
  ghost predicate Matches(x: LoadContext, s: nat, env: Env)
    requires Knows(x, s)
  {
    var store := x.mrf[s];
    && Ordered(x, store, x.load, env)
    && Code(LoadVal(x), env) == Code(x.tables.val[store], env)
    && Executed(x.bt, store, env)
    && SameAddress(x, store, env)
  }

  /** Store k is executed, at the load's address, between store s and the load. */
  ghost predicate Between(x: LoadContext, s: nat, k: EPRecord, env: Env)
    requires KnowsConflict(x, s, k)
  {
    && Ordered(x, x.mrf[s], k, env) && Ordered(x, k, x.load, env)
    && Executed(x.bt, k, env) && SameAddress(x, k, env)
  }

  lemma FourMeaning(a: Constraint, b: Constraint, c: Constraint, d: Constraint, env: Env)
    ensures Eval(And([a, b, c, d]), env) <==> Eval(a, env) && Eval(b, env) && Eval(c, env) && Eval(d, env)
  {
    var all := [a, b, c, d];
    assert all[0] == a && all[1] == b && all[2] == c && all[3] == d;
  }

  lemma MatchMeaning(x: LoadContext, s: nat, env: Env)
    requires Coded(x) && Knows(x, s)
    ensures Eval(MatchClause(x, s), env) <==> (Code(x.rf, env) == s ==> Matches(x, s, env))
  {
    CodeIsMeaning(x.rf, s, env);
    LowSmall(s, |x.rf|);
    MatchPartsMeaning(x, s, env);
  }

  lemma MatchPartsMeaning(x: LoadContext, s: nat, env: Env)
    requires Coded(x) && Knows(x, s)
    ensures Eval(MatchClause(x, s).r, env) <==> Matches(x, s, env)
  {
    var store := x.mrf[s];
    EquivMeaning(LoadVal(x), x.tables.val[store], env);
    EquivMeaning(x.tables.addr[x.load], x.tables.addr[store], env);
    FourMeaning(OrderConstraint(x.rpt, store, x.load), Equiv(LoadVal(x), x.tables.val[store]),
                ExecConstraint(x.bt, store), Equiv(x.tables.addr[x.load], x.tables.addr[store]), env);
  }

  lemma ConflictMeaning(x: LoadContext, s: nat, k: EPRecord, env: Env)
    requires Coded(x) && KnowsConflict(x, s, k)
    ensures Eval(ConflictClause(x, s, k), env) <==> (Code(x.rf, env) == s ==> !Between(x, s, k, env))
  {
    CodeIsMeaning(x.rf, s, env);
    LowSmall(s, |x.rf|);
    var same := Equiv(x.tables.addr[x.load], x.tables.addr[k]);
    EquivMeaning(x.tables.addr[x.load], x.tables.addr[k], env);
    NegateNegates(same, env);
    FourMeaning(OrderConstraint(x.rpt, x.mrf[s], k), OrderConstraint(x.rpt, k, x.load),
                CodeIs(x.rf, s), ExecConstraint(x.bt, k), env);
  }

  /** No store of the list comes between; those that constant orders exclude do not either. */
  ghost predicate NoneBetween(x: LoadContext, s: nat, conf: seq<EPRecord>, env: Env)
    requires KnowsConflicts(x, s, conf, |conf|)
  {
    NoneAmong(x, s, conf, |conf|, env)
  }

  ghost predicate NoneAmong(x: LoadContext, s: nat, conf: seq<EPRecord>, n: nat, env: Env)
    requires KnowsConflicts(x, s, conf, n)
  {
    forall i {:trigger Spared(x, s, conf[i], env)} | 0 <= i < n :: Spared(x, s, conf[i], env)
  }

  /** Constant orders exclude the store, or it does not come between. */
  ghost predicate Spared(x: LoadContext, s: nat, k: EPRecord, env: Env)
    requires s < |x.mrf| && MayConflict(x, s, k)
  {
    Skipped(x, s, k) || !Between(x, s, k, env)
  }

  lemma NoneAmongStep(x: LoadContext, s: nat, conf: seq<EPRecord>, n: nat, env: Env)
    requires KnowsConflicts(x, s, conf, n + 1)
    ensures KnowsConflicts(x, s, conf, n) && MayConflict(x, s, conf[n])
    ensures NoneAmong(x, s, conf, n + 1, env) <==> NoneAmong(x, s, conf, n, env) && Spared(x, s, conf[n], env)
  {
    assert MayConflict(x, s, conf[n]);
  }

  /** What a conflicting store adds to the clauses. */
  ghost function ClausesOf(x: LoadContext, s: nat, k: EPRecord): set<Constraint>
    requires s < |x.mrf| && MayConflict(x, s, k)
  {
    if Skipped(x, s, k) then {} else {ConflictClause(x, s, k)}
  }

  lemma SparedMeaning(x: LoadContext, s: nat, k: EPRecord, env: Env)
    requires Coded(x) && s < |x.mrf| && MayConflict(x, s, k)
    ensures AllIn(ClausesOf(x, s, k), env) <==> (Code(x.rf, env) == s ==> Spared(x, s, k, env))
  {
    if !Skipped(x, s, k) {
      ConflictMeaning(x, s, k, env);
    }
  }

  lemma {:induction false} ConflictsMeaning(x: LoadContext, s: nat, conf: seq<EPRecord>, n: nat, env: Env)
    requires Coded(x) && KnowsConflicts(x, s, conf, n)
    ensures AllIn(ConflictClauses(x, s, conf, n), env) <==> (Code(x.rf, env) == s ==> NoneAmong(x, s, conf, n, env))
  {
    if n > 0 {
      NoneAmongStep(x, s, conf, n - 1, env);
      ConflictsMeaning(x, s, conf, n - 1, env);
      SparedMeaning(x, s, conf[n - 1], env);
      AllInBoth(ConflictClauses(x, s, conf, n - 1), ClausesOf(x, s, conf[n - 1]), env);
    }
  }

  /** Store s matches, and no conflicting store comes between. */
  ghost predicate ReadsFrom(x: LoadContext, s: nat, conf: seq<EPRecord>, env: Env)
    requires KnowsStore(x, s, conf)
  {
    Matches(x, s, env) && NoneBetween(x, s, conf, env)
  }

  /** The store that the code names, if it is below n, matches and has none between. */
  ghost predicate ReadsBelow(x: LoadContext, confs: seq<seq<EPRecord>>, n: nat, env: Env)
    requires Ready(x, confs, n)
  {
    var s := Code(x.rf, env);
    s < n ==> (assert KnowsStore(x, s, confs[s]); ReadsFrom(x, s, confs[s], env))
  }

  lemma ReadsBelowStep(x: LoadContext, confs: seq<seq<EPRecord>>, n: nat, env: Env)
    requires Ready(x, confs, n + 1)
    ensures Ready(x, confs, n) && KnowsStore(x, n, confs[n])
    ensures ReadsBelow(x, confs, n + 1, env) <==>
      ReadsBelow(x, confs, n, env) && (Code(x.rf, env) == n ==> ReadsFrom(x, n, confs[n], env))
  {
    assert KnowsStore(x, n, confs[n]);
  }

  /** The match clause and the conflict clauses of one store. */
  lemma StoreMeaning(x: LoadContext, s: nat, conf: seq<EPRecord>, env: Env)
    requires Coded(x) && KnowsStore(x, s, conf)
    ensures Eval(MatchClause(x, s), env) && AllIn(ConflictClauses(x, s, conf, |conf|), env)
      <==> (Code(x.rf, env) == s ==> ReadsFrom(x, s, conf, env))
  {
    MatchMeaning(x, s, env);
    ConflictsMeaning(x, s, conf, |conf|, env);
  }

  lemma AllInUnion(a: set<Constraint>, c: Constraint, b: set<Constraint>, env: Env)
    ensures AllIn(a + {c} + b, env) <==> AllIn(a, env) && Eval(c, env) && AllIn(b, env)
  {
  }

  lemma {:induction false} StoresMeaning(x: LoadContext, confs: seq<seq<EPRecord>>, n: nat, env: Env)
    requires Coded(x) && Ready(x, confs, n)
    ensures AllIn(StoreClauses(x, confs, n), env) <==> ReadsBelow(x, confs, n, env)
  {
    if n > 0 {
      var s := n - 1;
      ReadsBelowStep(x, confs, s, env);
      StoresMeaning(x, confs, s, env);
      StoreMeaning(x, s, confs[s], env);
      AllInUnion(StoreClauses(x, confs, s), MatchClause(x, s), ConflictClauses(x, s, confs[s], |confs[s]|), env);
    }
  }

  /** An executed load has a code in range; without candidate stores the clause says nothing. */
  lemma RangeMeaning(x: LoadContext, env: Env)
    requires Coded(x) && ExecDefined(x.bt, x.load)
    ensures Eval(RangeClause(x), env) <==> (Executed(x.bt, x.load, env) ==> Code(x.rf, env) < |x.mrf| || x.mrf == [])
  {
    if x.mrf == [] {
      LTClausesMeaning(x.rf, 0, env);
      LowZero(0);
      assert LTClauses(x.rf, 0) == [];
    } else {
      LTMeaning(x.rf, |x.mrf|, env);
    }
  }

  /** All clauses of a load together. */
  ghost function LoadClauses(x: LoadContext, confs: seq<seq<EPRecord>>): set<Constraint>
    requires Ready(x, confs, |x.mrf|) && |x.rf| <= 32 && ExecDefined(x.bt, x.load)
  {
    StoreClauses(x, confs, |x.mrf|) + {RangeClause(x)}
  }

  /** An assignment satisfies the clauses of a load exactly when an executed load has a code in range
      (unless there is nothing to read) and the store that the code names is executed before the load,
      agrees with it on address and value, and has no listed store in between. */
  lemma LoadClausesMeaning(x: LoadContext, confs: seq<seq<EPRecord>>, env: Env)
    requires Coded(x) && Ready(x, confs, |x.mrf|) && ExecDefined(x.bt, x.load)
    ensures AllIn(LoadClauses(x, confs), env) <==>
      && (Executed(x.bt, x.load, env) ==> Code(x.rf, env) < |x.mrf| || x.mrf == [])
      && ReadsBelow(x, confs, |x.mrf|, env)
  {
    StoresMeaning(x, confs, |x.mrf|, env);
    RangeMeaning(x, env);
    assert AllIn(LoadClauses(x, confs), env) <==>
      AllIn(StoreClauses(x, confs, |x.mrf|), env) && Eval(RangeClause(x), env);
  }
}
