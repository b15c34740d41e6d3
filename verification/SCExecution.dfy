/** Every satisfying assignment of the encoding is a sequentially consistent execution:
    executed records are totally ordered and every executed load reads the last store. */
module SCExecutions {
  import opened Addresses
  import opened Branches
  import opened CodeRecords
  import opened ConstGens
  import opened Constraints
  import opened Encodings
  import opened ExecPoints
  import opened LoadMeanings
  import opened LoadRFs
  import opened ReadFrom
  import opened Records
  import opened Subsumptions

  // ---------------------------------------------------------------- the order of executed records

  /** A record as the traversal inserts it. */
  ghost predicate Placed(e: Encoding, r: EPRecord) {
    Inserted(e.threads, r) && Enclosed(e, r) && Named(e, r) && ExecDefined(e.bt, r)
  }

  /** The traversal visits the records of a thread in an order that extends program order. */
  ghost predicate VectorsFollowPoints(threads: seq<seq<EPRecord>>) {
    forall t, i, j | ValidPos(threads, t, i) && ValidPos(threads, t, j) && i < j ::
      && ExecPoints.Consistent(threads[t][i].ep.pairs, threads[t][j].ep.pairs)
      && CompareRecords(threads[t][i], threads[t][j]) in {After, Incomparable}
  }

  ghost predicate EncodingOk(e: Encoding) {
    HasAllPairs(e.threads, e.rpt) && VectorsFollowPoints(e.threads)
  }

  /** The order of two records that an assignment describes. */
  ghost predicate HappensBefore(rpt: RecPairTable, a: EPRecord, b: EPRecord, env: Env) {
    Related(rpt, a, b) && Eval(OrderConstraint(rpt, a, b), env)
  }

  /** On executed records, the order constraint agrees with the vectors. */
  lemma BeforeIsPrecedes(e: Encoding, env: Env, t: int, i: int, u: int, j: int)
    requires EncodingOk(e) && BranchesHold(e, env) && ValidPos(e.threads, t, i) && ValidPos(e.threads, u, j)
    requires Placed(e, e.threads[t][i]) && Placed(e, e.threads[u][j])
    requires Executed(e.bt, e.threads[t][i], env) && Executed(e.bt, e.threads[u][j], env)
    ensures HappensBefore(e.rpt, e.threads[t][i], e.threads[u][j], env) <==> Precedes(e.threads, e.rpt, env, t, i, u, j)
  {
    var a, b := e.threads[t][i], e.threads[u][j];
    if t != u {
      assert HasPair(e.rpt, a, b);
    } else if i < j {
      IncomparableUnlessExecuted(e, a, b, env);
    } else if j < i {
      IncomparableUnlessExecuted(e, b, a, env);
      CompareAntisymmetric(b.ep.pairs, a.ep.pairs);
    } else {
      CompareSkip(a.ep.pairs, a.ep.pairs, 0, |a.ep.pairs|);
    }
  }

  lemma IncomparableUnlessExecuted(e: Encoding, a: EPRecord, b: EPRecord, env: Env)
    requires BranchesHold(e, env) && Placed(e, a) && Placed(e, b) && a.Tid() == b.Tid()
    requires ExecPoints.Consistent(a.ep.pairs, b.ep.pairs) && CompareRecords(a, b) in {After, Incomparable}
    requires Executed(e.bt, a, env) && Executed(e.bt, b, env)
    ensures CompareRecords(a, b) == After
  {
    if CompareRecords(a, b) == Incomparable {
      IncomparableNotBoth(e, a, b, env);
    }
  }

  /** The order of the executed records is a strict total order. */
  lemma ExecutedOrder(e: Encoding, env: Env, a: EPRecord, b: EPRecord, c: EPRecord)
    requires EncodingOk(e) && BranchesHold(e, env) && StrictTotalOrder(e.threads, e.rpt, env)
    requires Placed(e, a) && Placed(e, b) && Placed(e, c)
    requires Executed(e.bt, a, env) && Executed(e.bt, b, env) && Executed(e.bt, c, env)
    ensures !HappensBefore(e.rpt, a, a, env)
    ensures a != b ==> (HappensBefore(e.rpt, a, b, env) != HappensBefore(e.rpt, b, a, env))
    ensures HappensBefore(e.rpt, a, b, env) && HappensBefore(e.rpt, b, c, env) ==> HappensBefore(e.rpt, a, c, env)
  {
    var t, u, v: int := a.Tid(), b.Tid(), c.Tid();
    var i :| 0 <= i < |e.threads[t]| && e.threads[t][i] == a;
    var j :| 0 <= j < |e.threads[u]| && e.threads[u][j] == b;
    var k :| 0 <= k < |e.threads[v]| && e.threads[v][k] == c;
    assert ValidPos(e.threads, t, i) && ValidPos(e.threads, u, j) && ValidPos(e.threads, v, k);
    BeforeIsPrecedes(e, env, t, i, t, i);
    BeforeIsPrecedes(e, env, t, i, u, j);
    BeforeIsPrecedes(e, env, u, j, t, i);
    BeforeIsPrecedes(e, env, u, j, v, k);
    BeforeIsPrecedes(e, env, t, i, v, k);
  }

  // ---------------------------------------------------------------- what a load reads

  /** The record's address variables carry one of its addresses. */
  ghost predicate AddressIn(x: LoadContext, addresses: seq<nat>, r: EPRecord, env: Env) {
    && r in x.tables.addr
    && var c := Code(x.tables.addr[r], env); c < |addresses| && addresses[c] in r.addrs
  }

  /** The records that the clauses of the load mention. */
  predicate Mentioned(x: LoadContext, r: EPRecord) {
    r == x.load || r in x.mrf
  }

  ghost predicate LoadOk(e: Encoding, x: LoadContext, confs: seq<seq<EPRecord>>, addresses: seq<nat>) {
    && EncodingOk(e) && x.rpt == e.rpt && x.bt == e.bt
    && Coded(x) && Ready(x, confs, |x.mrf|) && ConflictSetsOk(x.rpt, x.load, x.mrf, confs) && |confs| == |x.mrf|
    && LoadKnown(x) && Distinct(addresses) && ExecDefined(x.bt, x.load)
    && (forall r {:trigger Mentioned(x, r)} | Mentioned(x, r) :: Placed(e, r) && AddressOk(e, x, addresses, r))
  }

  /** The record's addresses are known, and its variables can carry any of them. */
  ghost predicate AddressOk(e: Encoding, x: LoadContext, addresses: seq<nat>, r: EPRecord) {
    && r in x.tables.addr && |x.tables.addr[r]| == NumVars(|addresses|)
    && r in e.inputs && InputOk(r, e.inputs[r]) && forall a | a in r.addrs :: a in addresses
  }

  /** The clauses that give the mentioned operations their addresses hold, and where an address is computed, the input
      of an executed operation has a value that leads to one of the operation's addresses. */
  ghost predicate AddressesDecode(e: Encoding, x: LoadContext, addresses: seq<nat>, env: Env) {
    && (forall r {:trigger Mentioned(x, r)} | Mentioned(x, r) :: AddressHolds(e, x, addresses, r, env))
    && InputsDecode(e, x, env)
  }

  ghost predicate AddressHolds(e: Encoding, x: LoadContext, addresses: seq<nat>, r: EPRecord, env: Env) {
    && AddressOk(e, x, addresses, r)
    && AllIn(AddressClauses(addresses, x.tables.addr[r], r, e.inputs[r]), env)
  }

  ghost predicate AddressPresent(e: Encoding, x: LoadContext, addresses: seq<nat>, r: EPRecord,
                                 added: set<Constraint>) {
    && AddressOk(e, x, addresses, r)
    && AddressClauses(addresses, x.tables.addr[r], r, e.inputs[r]) <= added
  }

  ghost predicate InputsDecode(e: Encoding, x: LoadContext, env: Env) {
    forall r {:trigger Mentioned(x, r)} | Mentioned(x, r) && ExecDefined(x.bt, r) && Executed(x.bt, r, env)
      && r in e.inputs ::
      InputDecodes(r, e.inputs[r], env)
  }

  /** Where the encoder takes it that the execution of one store implies that of another, no direction that skips the
      latter is compatible with the execution of the former; SubsumesExactly says that this is needed. */
  ghost predicate SubsumptionSound(e: Encoding, x: LoadContext) {
    && BranchesKnown(e)
    && forall k, c | k in x.mrf && c in x.mrf && Subsumes(k, c) :: SkipsKnown(e, k) && NoSkipCompatible(e, k, c)
  }

  /** So the variables of an executed operation carry one of its addresses. */
  lemma AddressKnown(e: Encoding, x: LoadContext, confs: seq<seq<EPRecord>>, addresses: seq<nat>, r: EPRecord, env: Env)
    requires LoadOk(e, x, confs, addresses) && AddressesDecode(e, x, addresses, env)
    requires Mentioned(x, r) && ExecDefined(x.bt, r) && Executed(x.bt, r, env)
    ensures AddressIn(x, addresses, r, env)
  {
    assert AddressHolds(e, x, addresses, r, env);
    AddressCarried(addresses, x.tables.addr[r], r, e.inputs[r], env);
  }

  /** The outcome that an assignment describes, from one load's point of view. */
  ghost function Outcome(x: LoadContext, env: Env): World {
    World((a, b) => HappensBefore(x.rpt, a, b, env),
          r => ExecDefined(x.bt, r) && Executed(x.bt, r, env),
          r => r in x.tables.addr && x.load in x.tables.addr && SameAddress(x, r, env))
  }

  lemma PlacedAreRelated(e: Encoding, a: EPRecord, b: EPRecord)
    requires EncodingOk(e) && Inserted(e.threads, a) && Inserted(e.threads, b)
    ensures Related(e.rpt, a, b)
  {
    var i :| 0 <= i < |e.threads[a.Tid()]| && e.threads[a.Tid()][i] == a;
    var j :| 0 <= j < |e.threads[b.Tid()]| && e.threads[b.Tid()][j] == b;
    assert ValidPos(e.threads, a.Tid(), i) && ValidPos(e.threads, b.Tid(), j);
  }

  /** Every store that may be read is known well enough to be a conflict. */
  lemma MentionedConflict(e: Encoding, x: LoadContext, confs: seq<seq<EPRecord>>, addresses: seq<nat>, s: nat,
                          k: EPRecord)
    requires LoadOk(e, x, confs, addresses) && s < |x.mrf| && k in x.mrf
    ensures KnowsConflict(x, s, k)
  {
    var j :| 0 <= j < |x.mrf| && x.mrf[j] == k;
    assert Knows(x, j) && Knows(x, s) && Mentioned(x, k) && Mentioned(x, x.mrf[s]);
    PlacedAreRelated(e, x.mrf[s], k);
  }

  /** Where the store and the load meet, a store with only that address writes it too. */
  lemma MeetAtCommon(x: LoadContext, addresses: seq<nat>, store: EPRecord, k: EPRecord, common: nat, env: Env)
    requires Distinct(addresses) && CommonAddrs(store, x.load) == [common] && k.addrs == [common]
    requires AddressIn(x, addresses, store, env) && AddressIn(x, addresses, x.load, env)
    requires AddressIn(x, addresses, k, env)
    requires SameAddress(x, store, env)
    ensures SameAddress(x, k, env)
  {
    var a := addresses[Code(x.tables.addr[store], env)];
    assert a in CommonAddrs(store, x.load);
    assert a == common;
  }

  lemma MentionedTransitive(e: Encoding, x: LoadContext, confs: seq<seq<EPRecord>>, addresses: seq<nat>,
                            a: EPRecord, b: EPRecord, c: EPRecord, env: Env)
    requires LoadOk(e, x, confs, addresses) && BranchesHold(e, env) && StrictTotalOrder(e.threads, e.rpt, env)
    requires Mentioned(x, a) && Mentioned(x, b) && Mentioned(x, c)
    requires Executed(x.bt, a, env) && Executed(x.bt, b, env) && Executed(x.bt, c, env)
    requires HappensBefore(x.rpt, a, b, env) && HappensBefore(x.rpt, b, c, env)
    ensures HappensBefore(x.rpt, a, c, env)
  {
    ExecutedOrder(e, env, a, b, c);
  }

  lemma OutcomeTouches(e: Encoding, x: LoadContext, confs: seq<seq<EPRecord>>, addresses: seq<nat>,
                       store: EPRecord, k: EPRecord, common: nat, env: Env)
    requires LoadOk(e, x, confs, addresses) && AddressesDecode(e, x, addresses, env) && k in x.mrf && store in x.mrf
    requires ExecDefined(x.bt, k) && Executed(x.bt, k, env) && ExecDefined(x.bt, store) && Executed(x.bt, store, env)
    requires ExecDefined(x.bt, x.load) && Executed(x.bt, x.load, env)
    requires store in x.tables.addr && SameAddress(x, store, env)
    requires CommonAddrs(store, x.load) == [common] && |k.addrs| == 1 && k.addrs[0] == common
    ensures k in x.tables.addr && SameAddress(x, k, env)
  {
    AddressKnown(e, x, confs, addresses, k, env);
    AddressKnown(e, x, confs, addresses, store, env);
    AddressKnown(e, x, confs, addresses, x.load, env);
    assert k.addrs == [common];
    MeetAtCommon(x, addresses, store, k, common, env);
  }

  lemma SurelyHappensBefore(q: Query, x: LoadContext, a: EPRecord, b: EPRecord, env: Env)
    requires QueryValid(q) && q.rpt == x.rpt && Involved(q, a) && Involved(q, b) && SurelyBefore(q, a, b)
    ensures HappensBefore(x.rpt, a, b, env)
  {
  }

  /** What the outcome says about order. */
  lemma OutcomeOrdered(e: Encoding, x: LoadContext, confs: seq<seq<EPRecord>>, addresses: seq<nat>, q: Query, env: Env)
    requires LoadOk(e, x, confs, addresses) && BranchesHold(e, env) && StrictTotalOrder(e.threads, e.rpt, env)
    requires q.rpt == x.rpt && q.store in x.mrf && q.load == x.load && q.base == x.mrf && QueryValid(q)
    ensures var w := Outcome(x, env);
      && (forall a, b | Involved(q, a) && Involved(q, b) && SurelyBefore(q, a, b) :: w.before(a, b))
      && forall a, b, c | Involved(q, a) && Involved(q, b) && Involved(q, c) && w.exec(a) && w.exec(b) && w.exec(c)
           && w.before(a, b) && w.before(b, c) :: w.before(a, c)
  {
    var w := Outcome(x, env);
    forall a, b | Involved(q, a) && Involved(q, b) && SurelyBefore(q, a, b) ensures w.before(a, b) {
      SurelyHappensBefore(q, x, a, b, env);
    }
    forall a, b, c | Involved(q, a) && Involved(q, b) && Involved(q, c) && w.exec(a) && w.exec(b) && w.exec(c)
        && w.before(a, b) && w.before(b, c)
      ensures w.before(a, c)
    {
      assert Mentioned(x, a) && Mentioned(x, b) && Mentioned(x, c);
      MentionedTransitive(e, x, confs, addresses, a, b, c, env);
    }
  }

  /** The outcome has the properties that pruning relies on. */
  lemma OutcomeConsistent(e: Encoding, x: LoadContext, confs: seq<seq<EPRecord>>, addresses: seq<nat>, s: nat, q: Query,
                          env: Env)
    requires LoadOk(e, x, confs, addresses) && AddressesDecode(e, x, addresses, env) && SubsumptionSound(e, x)
    requires BranchesHold(e, env)
    requires StrictTotalOrder(e.threads, e.rpt, env) && Executed(x.bt, x.load, env)
    requires s < |x.mrf| && Matches(x, s, env)
    requires q.rpt == x.rpt && q.store == x.mrf[s] && q.load == x.load && q.base == x.mrf && QueryValid(q)
    requires CommonAddrs(q.store, q.load) == [q.common]
    ensures ReadFrom.Consistent(q, Outcome(x, env))
  {
    var w := Outcome(x, env);
    assert Knows(x, s);
    OutcomeOrdered(e, x, confs, addresses, q, env);
    forall k, c | k in q.base && c in q.base && Subsumes(k, c) && w.exec(c) ensures w.exec(k) {
      assert Mentioned(x, k) && Mentioned(x, c);
      SubsumedIsExecuted(e, k, c, env);
    }
    forall k | k in q.base && OnlyCommon(q, k) && w.exec(k) ensures w.touches(k) {
      OutcomeTouches(e, x, confs, addresses, x.mrf[s], k, q.common, env);
    }
  }

  /** No store that may be read comes between store s and the load. */
  ghost predicate NoStoreBetween(x: LoadContext, s: nat, env: Env)
    requires s < |x.mrf|
  {
    forall k | k in x.mrf && KnowsConflict(x, s, k) :: !Between(x, s, k, env)
  }

  /** The pruned clauses exclude as much as clauses for all stores would. */
  lemma PrunedSetSuffices(e: Encoding, x: LoadContext, confs: seq<seq<EPRecord>>, addresses: seq<nat>, s: nat, env: Env)
    requires LoadOk(e, x, confs, addresses) && AddressesDecode(e, x, addresses, env) && SubsumptionSound(e, x)
    requires BranchesHold(e, env)
    requires StrictTotalOrder(e.threads, e.rpt, env) && Executed(x.bt, x.load, env)
    requires s < |x.mrf| && Matches(x, s, env)
    ensures NoneBetween(x, s, confs[s], env) <==> NoStoreBetween(x, s, env)
  {
    var conf := confs[s];
    assert KnowsStore(x, s, conf);
    assert ConflictSetOk(x.rpt, x.mrf[s], x.load, x.mrf, conf);
    assert forall k :: k in conf ==> k in x.mrf;
    if NoneBetween(x, s, conf, env) {
      forall k | k in x.mrf && KnowsConflict(x, s, k) ensures !Between(x, s, k, env) {
        NotBetween(e, x, confs, addresses, s, k, env);
      }
    } else {
      var i :| 0 <= i < |conf| && MayConflict(x, s, conf[i]) && !Spared(x, s, conf[i], env);
      assert KnowsConflict(x, s, conf[i]);
    }
  }

  lemma ListedNotBetween(x: LoadContext, s: nat, conf: seq<EPRecord>, c: EPRecord, env: Env)
    requires KnowsStore(x, s, conf) && NoneBetween(x, s, conf, env) && c in conf && KnowsConflict(x, s, c)
    ensures !Between(x, s, c, env)
  {
    var i :| 0 <= i < |conf| && conf[i] == c;
    assert MayConflict(x, s, conf[i]) && Spared(x, s, conf[i], env);
  }

  lemma NotBetween(e: Encoding, x: LoadContext, confs: seq<seq<EPRecord>>, addresses: seq<nat>, s: nat, k: EPRecord,
                   env: Env)
    requires LoadOk(e, x, confs, addresses) && AddressesDecode(e, x, addresses, env) && SubsumptionSound(e, x)
    requires BranchesHold(e, env)
    requires StrictTotalOrder(e.threads, e.rpt, env) && Executed(x.bt, x.load, env)
    requires s < |x.mrf| && Matches(x, s, env) && NoneBetween(x, s, confs[s], env)
    requires k in x.mrf && KnowsConflict(x, s, k)
    ensures !Between(x, s, k, env)
  {
    if Between(x, s, k, env) {
      var c := SomeListedBetween(e, x, confs, addresses, s, k, env);
      ListedNotBetween(x, s, confs[s], c, env);
    }
  }

  /** Pruning keeps a store between if there is one. */
  lemma SomeListedBetween(e: Encoding, x: LoadContext, confs: seq<seq<EPRecord>>, addresses: seq<nat>, s: nat,
                          k: EPRecord, env: Env)
    returns (c: EPRecord)
    requires LoadOk(e, x, confs, addresses) && AddressesDecode(e, x, addresses, env) && SubsumptionSound(e, x)
    requires BranchesHold(e, env)
    requires StrictTotalOrder(e.threads, e.rpt, env) && Executed(x.bt, x.load, env)
    requires s < |x.mrf| && Matches(x, s, env)
    requires k in x.mrf && KnowsConflict(x, s, k) && Between(x, s, k, env)
    ensures c in confs[s] && KnowsConflict(x, s, c) && Between(x, s, c, env)
  {
    var conf := confs[s];
    assert ConflictSetOk(x.rpt, x.mrf[s], x.load, x.mrf, conf);
    c := k;
    if conf != x.mrf {
      var q := Query(x.rpt, x.mrf[s], x.load, x.mrf, CommonAddrs(x.mrf[s], x.load)[0]);
      assert CommonAddrs(x.mrf[s], x.load) == [q.common];
      OutcomeConsistent(e, x, confs, addresses, s, q, env);
      var w := Outcome(x, env);
      assert Violates(q, w, k);
      assert HasViolator(q, w, x.mrf) && HasViolator(q, w, conf);
      c :| c in conf && Violates(q, w, c);
      MentionedConflict(e, x, confs, addresses, s, c);
    }
  }

  /** The code names a store that is executed before the load, at its address and with its value, and
      no store that may be read comes between. */
  ghost predicate ReadsLast(x: LoadContext, env: Env) {
    var s := Code(x.rf, env);
    s < |x.mrf| && Knows(x, s) && Matches(x, s, env) && NoStoreBetween(x, s, env)
  }

  /** For an executed load with something to read, the generated clauses hold exactly when it reads
      the last store to its address. */
  lemma LoadClausesExact(e: Encoding, x: LoadContext, confs: seq<seq<EPRecord>>, addresses: seq<nat>, env: Env)
    requires LoadOk(e, x, confs, addresses) && AddressesDecode(e, x, addresses, env) && SubsumptionSound(e, x)
    requires BranchesHold(e, env)
    requires StrictTotalOrder(e.threads, e.rpt, env) && Executed(x.bt, x.load, env) && x.mrf != []
    ensures AllIn(LoadClauses(x, confs), env) <==> ReadsLast(x, env)
  {
    LoadClausesMeaning(x, confs, env);
    var s := Code(x.rf, env);
    if s < |x.mrf| {
      assert Knows(x, s);
      if Matches(x, s, env) {
        PrunedSetSuffices(e, x, confs, addresses, s, env);
      }
    }
  }

  // ---------------------------------------------------------------- the main results

  /** The clauses of one encoding that the results below rely on. */
  ghost predicate ClausesPresent(e: Encoding, x: LoadContext, confs: seq<seq<EPRecord>>, addresses: seq<nat>,
                                 added: set<Constraint>)
    requires LoadOk(e, x, confs, addresses) && BranchesOk(e)
  {
    && AllPresent(added, e.threads, e.rpt)
    && (forall p {:trigger BranchOk(e, p)} | p in e.bt && BranchOk(e, p) && !e.bt[p].always ::
          ParentClause(e.bt, e.recs[p]) in added)
    && (forall r {:trigger Mentioned(x, r)} | Mentioned(x, r) :: AddressPresent(e, x, addresses, r, added))
    && LoadClauses(x, confs) <= added
  }

  /** Whatever satisfies the generated clauses is sequentially consistent: the order is strict and
      total, and an executed load with something to read reads the last store to its address. */
  lemma SatisfyingAssignmentIsSC(e: Encoding, x: LoadContext, confs: seq<seq<EPRecord>>, addresses: seq<nat>,
                                 added: set<Constraint>, env: Env)
    requires LoadOk(e, x, confs, addresses) && BranchesOk(e) && InputsDecode(e, x, env) && SubsumptionSound(e, x)
    requires ClausesPresent(e, x, confs, addresses, added) && AllIn(added, env)
    ensures StrictTotalOrder(e.threads, e.rpt, env) && BranchesHold(e, env) && AddressesDecode(e, x, addresses, env)
    ensures Executed(x.bt, x.load, env) && x.mrf != [] ==> ReadsLast(x, env)
  {
    SatisfiedIsTotal(e, added, env);
    SatisfiedBranches(e, x, confs, addresses, added, env);
    assert AddressesDecode(e, x, addresses, env);
    if Executed(x.bt, x.load, env) && x.mrf != [] {
      assert AllIn(LoadClauses(x, confs), env);
      LoadClausesExact(e, x, confs, addresses, env);
    }
  }

  /** Nothing about the assignment has to be assumed where addresses are hard-coded. */
  lemma StaticProgramIsSC(e: Encoding, x: LoadContext, confs: seq<seq<EPRecord>>, addresses: seq<nat>,
                          added: set<Constraint>, env: Env)
    requires LoadOk(e, x, confs, addresses) && SubsumptionSound(e, x)
    requires forall r {:trigger Mentioned(x, r)} | Mentioned(x, r) :: r in e.inputs && e.inputs[r].HardCoded?
    requires ClausesPresent(e, x, confs, addresses, added) && AllIn(added, env)
    ensures StrictTotalOrder(e.threads, e.rpt, env) && BranchesHold(e, env)
    ensures Executed(x.bt, x.load, env) && x.mrf != [] ==> ReadsLast(x, env)
  {
    SatisfyingAssignmentIsSC(e, x, confs, addresses, added, env);
  }

  lemma SatisfiedBranches(e: Encoding, x: LoadContext, confs: seq<seq<EPRecord>>, addresses: seq<nat>,
                          added: set<Constraint>, env: Env)
    requires LoadOk(e, x, confs, addresses) && BranchesOk(e)
    requires ClausesPresent(e, x, confs, addresses, added) && AllIn(added, env)
    ensures BranchesHold(e, env)
  {
    forall p {:trigger ParentHolds(e, p, env)} | p in e.bt && BranchOk(e, p) ensures ParentHolds(e, p, env) {
      assert !e.bt[p].always ==> ParentClause(e.bt, e.recs[p]) in added;
    }
  }

  lemma SatisfiedIsTotal(e: Encoding, added: set<Constraint>, env: Env)
    requires HasAllPairs(e.threads, e.rpt) && AllPresent(added, e.threads, e.rpt) && AllIn(added, env)
    ensures StrictTotalOrder(e.threads, e.rpt, env)
  {
    TransClausesMeanTotalOrder(e.threads, e.rpt, added, added, env);
  }

  /** The candidate stores of a load, as getMayReadFromSet and getMayReadFromSetOpt choose them. */
  ghost predicate Candidates(table: StoreTable, load: EPRecord, mrf: seq<EPRecord>) {
    if |load.addrs| == 1 then
      load.addrs[0] in table
      && var rs := table[load.addrs[0]];
      forall s :: s in mrf <==> s in rs && KeptStore(s, load, LatestSure(rs, load, |rs|))
    else
      forall s :: s in mrf <==> MayPrecede(s, load) && exists a | a in load.addrs :: a in table && s in table[a]
  }

  /** A store that the execution knows for one of the load's addresses. */
  ghost predicate StoreFor(table: StoreTable, load: EPRecord, k: EPRecord) {
    exists a | a in load.addrs :: a in table && k in table[a]
  }

  ghost predicate TableOk(table: StoreTable) {
    forall a | a in table :: forall s | s in table[a] :: a in s.addrs
  }

  /** A candidate that is executed before the load at its address is not after what the load reads. */
  lemma CandidateNotLater(e: Encoding, x: LoadContext, confs: seq<seq<EPRecord>>, addresses: seq<nat>, k: EPRecord,
                          env: Env)
    requires LoadOk(e, x, confs, addresses) && BranchesHold(e, env) && StrictTotalOrder(e.threads, e.rpt, env)
    requires ReadsLast(x, env) && Executed(x.bt, x.load, env)
    requires k in x.mrf && k in x.tables.addr && ExecDefined(x.bt, k) && Executed(x.bt, k, env)
    requires HappensBefore(x.rpt, k, x.load, env)
    requires SameAddress(x, k, env)
    ensures var store := x.mrf[Code(x.rf, env)]; k == store || HappensBefore(x.rpt, k, store, env)
  {
    var s := Code(x.rf, env);
    MentionedConflict(e, x, confs, addresses, s, k);
    assert !Between(x, s, k, env);
    assert Mentioned(x, k) && Mentioned(x, x.mrf[s]);
    ExecutedOrder(e, env, k, x.mrf[s], k);
  }

  lemma OneAddress(x: LoadContext, addresses: seq<nat>, r: EPRecord, env: Env)
    requires Distinct(addresses) && AddressIn(x, addresses, r, env) && AddressIn(x, addresses, x.load, env)
    requires |r.addrs| == |x.load.addrs| == 1 && r.addrs[0] == x.load.addrs[0]
    ensures SameAddress(x, r, env)
  {
    var i, j := Code(x.tables.addr[r], env), Code(x.tables.addr[x.load], env);
    assert addresses[i] == addresses[j];
  }

  /** The latest sure store of the load's thread is a candidate at the load's address. */
  lemma LatestIsCandidate(e: Encoding, x: LoadContext, confs: seq<seq<EPRecord>>, addresses: seq<nat>,
                          table: StoreTable, env: Env)
    returns (latest: EPRecord)
    requires LoadOk(e, x, confs, addresses) && AddressesDecode(e, x, addresses, env)
    requires TableOk(table) && Candidates(table, x.load, x.mrf) && |x.load.addrs| == 1
    requires LatestSure(table[x.load.addrs[0]], x.load, |table[x.load.addrs[0]]|).Some? && Executed(x.bt, x.load, env)
    ensures latest == LatestSure(table[x.load.addrs[0]], x.load, |table[x.load.addrs[0]]|).value
    ensures latest in x.mrf && latest in x.tables.addr && Executed(x.bt, latest, env)
    ensures HappensBefore(x.rpt, latest, x.load, env) && SameAddress(x, latest, env)
  {
    latest := LatestKept(table, x.load, x.mrf);
    assert Mentioned(x, latest) && Mentioned(x, x.load);
    ExecutedMeaning(x.bt, latest, env);
    AddressKnown(e, x, confs, addresses, latest, env);
    AddressKnown(e, x, confs, addresses, x.load, env);
    OneAddress(x, addresses, latest, env);
  }

  /** The latest sure store is kept. */
  lemma LatestKept(table: StoreTable, load: EPRecord, mrf: seq<EPRecord>) returns (latest: EPRecord)
    requires TableOk(table) && Candidates(table, load, mrf) && |load.addrs| == 1
    requires LatestSure(table[load.addrs[0]], load, |table[load.addrs[0]]|).Some?
    ensures latest == LatestSure(table[load.addrs[0]], load, |table[load.addrs[0]]|).value
    ensures latest in mrf && SureStore(latest, load) && latest.addrs[0] == load.addrs[0]
  {
    var rs := table[load.addrs[0]];
    latest := LatestSure(rs, load, |rs|).value;
    CompareSkip(latest.ep.pairs, latest.ep.pairs, 0, |latest.ep.pairs|);
    assert KeptStore(latest, load, LatestSure(rs, load, |rs|));
    assert load.addrs[0] in latest.addrs;
  }

  /** A store before the load that is no candidate comes before the latest sure store. */
  lemma DroppedBeforeLatest(table: StoreTable, load: EPRecord, mrf: seq<EPRecord>, rpt: RecPairTable, k: EPRecord,
                            env: Env)
    requires Candidates(table, load, mrf) && StoreFor(table, load, k) && k !in mrf && HappensBefore(rpt, k, load, env)
    ensures |load.addrs| == 1 && load.addrs[0] in table
    ensures var latest := LatestSure(table[load.addrs[0]], load, |table[load.addrs[0]]|);
      latest.Some? && k.Tid() == latest.value.Tid() && HappensBefore(rpt, k, latest.value, env)
  {
  }

  lemma NotAfterRead(e: Encoding, x: LoadContext, confs: seq<seq<EPRecord>>, addresses: seq<nat>, table: StoreTable,
                     k: EPRecord, env: Env)
    requires LoadOk(e, x, confs, addresses) && AddressesDecode(e, x, addresses, env) && BranchesHold(e, env)
    requires StrictTotalOrder(e.threads, e.rpt, env) && Executed(x.bt, x.load, env) && ReadsLast(x, env)
    requires TableOk(table) && Candidates(table, x.load, x.mrf)
    requires StoreFor(table, x.load, k) && Placed(e, k) && Executed(x.bt, k, env)
    requires HappensBefore(x.rpt, k, x.load, env)
    requires k in x.mrf && k in x.tables.addr ==> SameAddress(x, k, env)
    ensures var store := x.mrf[Code(x.rf, env)]; k == store || HappensBefore(x.rpt, k, store, env)
  {
    var store := x.mrf[Code(x.rf, env)];
    if k in x.mrf {
      var j :| 0 <= j < |x.mrf| && x.mrf[j] == k;
      assert Knows(x, j);
      CandidateNotLater(e, x, confs, addresses, k, env);
    } else {
      DroppedBeforeLatest(table, x.load, x.mrf, x.rpt, k, env);
      var latest := LatestIsCandidate(e, x, confs, addresses, table, env);
      CandidateNotLater(e, x, confs, addresses, latest, env);
      assert Mentioned(x, latest) && Mentioned(x, store);
      ExecutedOrder(e, env, k, latest, store);
    }
  }

  /** Whatever satisfies the generated clauses: of all stores that the execution knows for the load's addresses,
      candidates or not, none that is executed before the load and writes its address comes after the store that
      the load reads. */
  lemma ReadsLastOfAllStores(e: Encoding, x: LoadContext, confs: seq<seq<EPRecord>>, addresses: seq<nat>,
                             table: StoreTable, added: set<Constraint>, k: EPRecord, env: Env)
    requires LoadOk(e, x, confs, addresses) && BranchesOk(e) && InputsDecode(e, x, env) && SubsumptionSound(e, x)
    requires ClausesPresent(e, x, confs, addresses, added) && AllIn(added, env)
    requires TableOk(table) && Candidates(table, x.load, x.mrf) && Executed(x.bt, x.load, env) && x.mrf != []
    requires StoreFor(table, x.load, k) && Placed(e, k) && Executed(x.bt, k, env)
    requires HappensBefore(x.rpt, k, x.load, env)
    requires k in x.mrf && k in x.tables.addr ==> SameAddress(x, k, env)
    ensures ReadsLast(x, env)
    ensures var store := x.mrf[Code(x.rf, env)]; k == store || HappensBefore(x.rpt, k, store, env)
  {
    SatisfyingAssignmentIsSC(e, x, confs, addresses, added, env);
    NotAfterRead(e, x, confs, addresses, table, k, env);
  }
}
