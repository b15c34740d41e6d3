/** The read-from clauses of one load (loadrf.cc), with the variables of its store/load set
    (storeloadset.cc) and the execution constraints (constgen.cc). */
module LoadRFs {
  import opened Constraints
  import opened Encodings
  import opened ExecPoints
  import opened Records
  import opened ConstGens
  import opened CodeRecords
  import opened ReadFrom

  // ---------------------------------------------------------------- execution constraints

  type BranchTable = map<Point, BranchRecord>

  predicate ExecDefined(bt: BranchTable, r: EPRecord) {
    && (r.branches != [] ==> r.branches[0].branch in bt)
    && (forall i | 0 <= i < |r.skippedBy| :: r.skippedBy[i].choice.branch in bt)
  }

  function ChoiceConstraint(bt: BranchTable, c: BranchChoice): Constraint
    requires c.branch in bt
  {
    bt[c.branch].GetBranch(c.index)
  }

  /** The conjuncts of getExecutionConstraint: no direction that skips the record, and the
      direction it sits in. */
  function ExecParts(bt: BranchTable, r: EPRecord): seq<Constraint>
    requires ExecDefined(bt, r)
  {
    seq(|r.skippedBy|, i requires 0 <= i < |r.skippedBy| => Negate(ChoiceConstraint(bt, r.skippedBy[i].choice)))
    + if r.branches == [] then [] else [ChoiceConstraint(bt, r.branches[0])]
  }

  function ExecConstraint(bt: BranchTable, r: EPRecord): Constraint
    requires ExecDefined(bt, r)
  {
    var parts := ExecParts(bt, r);
    if |parts| == 0 then True else if |parts| == 1 then parts[0] else And(parts)
  }

  /** getExecutionConstraint. */
  method GetExecutionConstraint(bt: BranchTable, r: EPRecord) returns (c: Constraint)
    requires ExecDefined(bt, r)
    ensures c == ExecConstraint(bt, r)
  {
    var parts: seq<Constraint> := [];
    var i := 0;
    while i < |r.skippedBy|
      invariant 0 <= i <= |r.skippedBy| && |parts| == i
      invariant forall k | 0 <= k < i :: parts[k] == ExecParts(bt, r)[k]
    {
      parts := parts + [Negate(ChoiceConstraint(bt, r.skippedBy[i].choice))];
      i := i + 1;
    }
    if r.branches != [] {
      parts := parts + [ChoiceConstraint(bt, r.branches[0])];
    }
    assert parts == ExecParts(bt, r);
    c := if |parts| == 0 then True else if |parts| == 1 then parts[0] else And(parts);
  }

  predicate TableOfBranches(bt: BranchTable) {
    forall p | p in bt :: bt[p].Valid()
  }

  ghost predicate Executed(bt: BranchTable, r: EPRecord, env: Env)
    requires ExecDefined(bt, r)
  {
    Eval(ExecConstraint(bt, r), env)
  }

  lemma ChoiceMeaning(bt: BranchTable, c: BranchChoice, env: Env)
    requires TableOfBranches(bt) && c.branch in bt
    ensures NoImplies(ChoiceConstraint(bt, c)) && NoImplies(Negate(ChoiceConstraint(bt, c)))
    ensures Eval(Negate(ChoiceConstraint(bt, c)), env) <==> !Eval(ChoiceConstraint(bt, c), env)
  {
    var br := bt[c.branch];
    CodeIsMeaning(br.vars, if br.always then c.index else c.index + 1, env);
    NegateNegates(ChoiceConstraint(bt, c), env);
  }

  lemma PartsAreSimple(bt: BranchTable, r: EPRecord, env: Env)
    requires TableOfBranches(bt) && ExecDefined(bt, r)
    ensures forall i | 0 <= i < |ExecParts(bt, r)| :: NoImplies(ExecParts(bt, r)[i])
    ensures Executed(bt, r, env) <==> AllHold(ExecParts(bt, r), env)
    ensures NoImplies(ExecConstraint(bt, r))
  {
    var parts := ExecParts(bt, r);
    forall i | 0 <= i < |parts| ensures NoImplies(parts[i]) {
      ChoiceMeaning(bt, if i < |r.skippedBy| then r.skippedBy[i].choice else r.branches[0], env);
    }
    if |parts| == 1 {
      assert parts == [parts[0]];
      AllHoldOne(parts[0], env);
    }
  }

  /** A record is executed exactly when its branch direction is taken and no skip is. */
  lemma ExecutedMeaning(bt: BranchTable, r: EPRecord, env: Env)
    requires TableOfBranches(bt) && ExecDefined(bt, r)
    ensures NoImplies(ExecConstraint(bt, r))
    ensures Executed(bt, r, env) <==>
      && (r.branches != [] ==> Eval(ChoiceConstraint(bt, r.branches[0]), env))
      && (forall i | 0 <= i < |r.skippedBy| :: !Eval(ChoiceConstraint(bt, r.skippedBy[i].choice), env))
  {
    PartsAreSimple(bt, r, env);
    var parts := ExecParts(bt, r);
    var n := |r.skippedBy|;
    forall i | 0 <= i < n
      ensures Eval(parts[i], env) <==> !Eval(ChoiceConstraint(bt, r.skippedBy[i].choice), env)
    {
      ChoiceMeaning(bt, r.skippedBy[i].choice, env);
    }
    if r.branches != [] {
      assert parts[n] == ChoiceConstraint(bt, r.branches[0]);
    }
    if AllHold(parts, env) {
      assert forall i | 0 <= i < n :: Eval(parts[i], env);
    }
  }

  // ---------------------------------------------------------------- store/load sets

  /** Solver variables per record: its address, its value, and what a read-modify-write reads. */
  datatype VarTables = VarTables(addr: map<EPRecord, seq<Constraint>>, val: map<EPRecord, seq<Constraint>>,
                                 rmwr: map<EPRecord, seq<Constraint>>)

  predicate VectorsOk(m: map<EPRecord, seq<Constraint>>, n: nat) {
    forall r | r in m :: AllVars(m[r]) && |m[r]| == n
  }

  predicate TablesOk(t: VarTables, na: nat, nv: nat) {
    VectorsOk(t.addr, na) && VectorsOk(t.val, nv) && VectorsOk(t.rmwr, nv)
  }

  predicate MapGrows(a: map<EPRecord, seq<Constraint>>, b: map<EPRecord, seq<Constraint>>) {
    forall r | r in a :: r in b && b[r] == a[r]
  }

  predicate TablesGrow(a: VarTables, b: VarTables) {
    MapGrows(a.addr, b.addr) && MapGrows(a.val, b.val) && MapGrows(a.rmwr, b.rmwr)
  }

  class StoreLoadSet {
    var storeloadset: seq<EPRecord>
    var addresses: seq<nat>
    var values: seq<nat>
    var tables: VarTables

    constructor ()
      ensures storeloadset == [] && addresses == [] && values == [] && tables == VarTables(map[], map[], map[])
    {
      storeloadset, addresses, values := [], [], [];
      tables := VarTables(map[], map[], map[]);
    }

    predicate Valid()
      reads this
    {
      TablesOk(tables, NumVars(|addresses|), NumVars(|values|))
    }

    /** add: the operation, its addresses, and the values it may write. */
    method Add(op: EPRecord)
      modifies this`storeloadset, this`addresses, this`values
      ensures storeloadset == AddNew(old(storeloadset), op)
      ensures addresses == AddAllNats(old(addresses), op.addrs)
      ensures values == if Writes(op) then AddAllNats(old(values), op.storevals) else old(values)
    {
      storeloadset := AddNew(storeloadset, op);
      var i := 0;
      while i < |op.addrs|
        invariant 0 <= i <= |op.addrs|
        invariant AddAllNats(addresses, op.addrs[i..]) == AddAllNats(old(addresses), op.addrs)
        modifies this`addresses
      {
        assert op.addrs[i..][1..] == op.addrs[i + 1..];
        addresses := AddNat(addresses, op.addrs[i]);
        i := i + 1;
      }
      if Writes(op) {
        i := 0;
        while i < |op.storevals|
          invariant 0 <= i <= |op.storevals|
          invariant AddAllNats(values, op.storevals[i..]) == AddAllNats(old(values), op.storevals)
          modifies this`values
        {
          assert op.storevals[i..][1..] == op.storevals[i + 1..];
          values := AddNat(values, op.storevals[i]);
          i := i + 1;
        }
      }
    }

    /** getAddrVars: variables are made on the first request. */
    method GetAddrVars(cg: ConstGen, op: EPRecord) returns (vars: seq<Constraint>)
      requires Valid() && cg.varindex > 0
      modifies this`tables, cg`varindex
      ensures Valid() && cg.varindex >= old(cg.varindex) && TablesGrow(old(tables), tables)
      ensures op in tables.addr && tables.addr[op] == vars
    {
      if op in tables.addr {
        return tables.addr[op];
      }
      vars := cg.GetArrayNewVars(NumVars(|addresses|));
      tables := tables.(addr := tables.addr[op := vars]);
    }

    /** getValVars. */
    method GetValVars(cg: ConstGen, op: EPRecord) returns (vars: seq<Constraint>)
      requires Valid() && cg.varindex > 0
      modifies this`tables, cg`varindex
      ensures Valid() && cg.varindex >= old(cg.varindex) && TablesGrow(old(tables), tables)
      ensures op in tables.val && tables.val[op] == vars
    {
      if op in tables.val {
        return tables.val[op];
      }
      vars := cg.GetArrayNewVars(NumVars(|values|));
      tables := tables.(val := tables.val[op := vars]);
    }

    /** getRMWRValVars. */
    method GetRMWRValVars(cg: ConstGen, op: EPRecord) returns (vars: seq<Constraint>)
      requires Valid() && cg.varindex > 0
      modifies this`tables, cg`varindex
      ensures Valid() && cg.varindex >= old(cg.varindex) && TablesGrow(old(tables), tables)
      ensures op in tables.rmwr && tables.rmwr[op] == vars
    {
      if op in tables.rmwr {
        return tables.rmwr[op];
      }
      vars := cg.GetArrayNewVars(NumVars(|values|));
      tables := tables.(rmwr := tables.rmwr[op := vars]);
    }
  }

  function AddNat(s: seq<nat>, x: nat): (t: seq<nat>)
    ensures Distinct(s) ==> Distinct(t)
    ensures forall y :: y in t <==> y in s || y == x
  {
    if x in s then s else s + [x]
  }

  function AddAllNats(s: seq<nat>, xs: seq<nat>): (t: seq<nat>)
    ensures Distinct(s) ==> Distinct(t)
    ensures forall y :: y in t <==> y in s || y in xs
    decreases |xs|
  {
    if xs == [] then s
    else
      assert xs == [xs[0]] + xs[1..];
      AddAllNats(AddNat(s, xs[0]), xs[1..])
  }

  // ---------------------------------------------------------------- the clauses of a load

  /** Everything the clauses of one load are made from. */
  datatype LoadContext = LoadContext(rpt: RecPairTable, bt: BranchTable, tables: VarTables,
                                     rf: seq<Constraint>, load: EPRecord, mrf: seq<EPRecord>)

  predicate Related(rpt: RecPairTable, a: EPRecord, b: EPRecord) {
    a.Tid() != b.Tid() ==> HasPair(rpt, a, b)
  }

  predicate LoadKnown(x: LoadContext) {
    x.load in x.tables.addr && x.load in (if x.load.etype == RMW then x.tables.rmwr else x.tables.val)
  }

  /** loadvalvars. */
  function LoadVal(x: LoadContext): seq<Constraint>
    requires LoadKnown(x)
  {
    if x.load.etype == RMW then x.tables.rmwr[x.load] else x.tables.val[x.load]
  }

  predicate Knows(x: LoadContext, s: nat) {
    && s < |x.mrf| && x.mrf[s] in x.tables.addr && x.mrf[s] in x.tables.val
    && LoadKnown(x) && Related(x.rpt, x.mrf[s], x.load) && ExecDefined(x.bt, x.mrf[s])
    && |x.tables.addr[x.mrf[s]]| == |x.tables.addr[x.load]| && |x.tables.val[x.mrf[s]]| == |LoadVal(x)|
  }

  predicate KnowsConflict(x: LoadContext, s: nat, k: EPRecord) {
    && s < |x.mrf| && x.load in x.tables.addr && k in x.tables.addr
    && Related(x.rpt, x.mrf[s], k) && Related(x.rpt, k, x.load) && ExecDefined(x.bt, k)
    && |x.tables.addr[k]| == |x.tables.addr[x.load]|
  }

  /** Reading from store s implies order, value, execution and address of the store. */
  function MatchClause(x: LoadContext, s: nat): Constraint
    requires Knows(x, s)
  {
    var store := x.mrf[s];
    Implies(if |x.rf| == 0 then True else CodeIs(x.rf, s),
            And([OrderConstraint(x.rpt, store, x.load),
                 Equiv(LoadVal(x), x.tables.val[store]),
                 ExecConstraint(x.bt, store),
                 Equiv(x.tables.addr[x.load], x.tables.addr[store])]))
  }

  /** An executed store between store s and the load has another address. */
  function ConflictClause(x: LoadContext, s: nat, k: EPRecord): Constraint
    requires KnowsConflict(x, s, k)
  {
    Implies(And([OrderConstraint(x.rpt, x.mrf[s], k),
                 OrderConstraint(x.rpt, k, x.load),
                 CodeIs(x.rf, s),
                 ExecConstraint(x.bt, k)]),
            Negate(Equiv(x.tables.addr[x.load], x.tables.addr[k])))
  }

  /** The two tests that skip a conflicting store. */
  predicate Skipped(x: LoadContext, s: nat, k: EPRecord)
    requires s < |x.mrf| && Related(x.rpt, x.mrf[s], k) && Related(x.rpt, k, x.load)
  {
    OrderConstraint(x.rpt, x.mrf[s], k).False? || OrderConstraint(x.rpt, k, x.load).False?
  }

  /** Context fit for the first n conflicting stores of store s. */
  ghost predicate KnowsConflicts(x: LoadContext, s: nat, conf: seq<EPRecord>, n: nat) {
    && s < |x.mrf| && n <= |conf|
    && forall i {:trigger MayConflict(x, s, conf[i])} | 0 <= i < n :: MayConflict(x, s, conf[i])
  }

  predicate MayConflict(x: LoadContext, s: nat, k: EPRecord)
    requires s < |x.mrf|
  {
    && Related(x.rpt, x.mrf[s], k) && Related(x.rpt, k, x.load)
    && (!Skipped(x, s, k) ==> KnowsConflict(x, s, k))
  }

  ghost function ConflictClauses(x: LoadContext, s: nat, conf: seq<EPRecord>, n: nat): set<Constraint>
    requires KnowsConflicts(x, s, conf, n)
  {
    if n == 0 then {}
    else
      assert MayConflict(x, s, conf[n - 1]);
      ConflictClauses(x, s, conf, n - 1)
      + if Skipped(x, s, conf[n - 1]) then {} else {ConflictClause(x, s, conf[n - 1])}
  }

  /** Context and conflict sets fit for the first n stores. */
  ghost predicate Ready(x: LoadContext, confs: seq<seq<EPRecord>>, n: nat) {
    && n <= |x.mrf| && n <= |confs|
    && forall s {:trigger KnowsStore(x, s, confs[s])} {:trigger Knows(x, s)} | 0 <= s < n :: KnowsStore(x, s, confs[s])
  }

  ghost predicate KnowsStore(x: LoadContext, s: nat, conf: seq<EPRecord>) {
    Knows(x, s) && KnowsConflicts(x, s, conf, |conf|)
  }

  ghost function StoreClauses(x: LoadContext, confs: seq<seq<EPRecord>>, n: nat): set<Constraint>
    requires Ready(x, confs, n)
  {
    if n == 0 then {}
    else
      assert KnowsStore(x, n - 1, confs[n - 1]);
      StoreClauses(x, confs, n - 1) + {MatchClause(x, n - 1)}
      + ConflictClauses(x, n - 1, confs[n - 1], |confs[n - 1]|)
  }

  /** An executed load has a code in range. */
  function RangeClause(x: LoadContext): Constraint
    requires |x.rf| <= 32 && ExecDefined(x.bt, x.load)
  {
    Implies(ExecConstraint(x.bt, x.load), And(LTClauses(x.rf, |x.mrf|)))
  }

  /** The same context with other tables. */
  lemma {:induction false} ConflictClausesStable(x: LoadContext, t: VarTables, s: nat, conf: seq<EPRecord>, n: nat)
    requires KnowsConflicts(x, s, conf, n) && TablesGrow(x.tables, t)
    ensures KnowsConflicts(x.(tables := t), s, conf, n)
    ensures ConflictClauses(x.(tables := t), s, conf, n) == ConflictClauses(x, s, conf, n)
  {
    if n > 0 {
      ConflictClausesStable(x, t, s, conf, n - 1);
      assert MayConflict(x, s, conf[n - 1]);
      assert MayConflict(x.(tables := t), s, conf[n - 1]);
    }
  }

  lemma MatchStable(x: LoadContext, t: VarTables, s: nat)
    requires Knows(x, s) && TablesGrow(x.tables, t)
    ensures Knows(x.(tables := t), s) && MatchClause(x.(tables := t), s) == MatchClause(x, s)
  {
  }

  lemma StoreStable(x: LoadContext, t: VarTables, s: nat, conf: seq<EPRecord>)
    requires KnowsStore(x, s, conf) && TablesGrow(x.tables, t)
    ensures KnowsStore(x.(tables := t), s, conf) && MatchClause(x.(tables := t), s) == MatchClause(x, s)
    ensures ConflictClauses(x.(tables := t), s, conf, |conf|) == ConflictClauses(x, s, conf, |conf|)
  {
    MatchStable(x, t, s);
    ConflictClausesStable(x, t, s, conf, |conf|);
  }

  lemma {:induction false} StoreClausesStable(x: LoadContext, t: VarTables, confs: seq<seq<EPRecord>>, n: nat)
    requires Ready(x, confs, n) && TablesGrow(x.tables, t)
    ensures Ready(x.(tables := t), confs, n)
    ensures StoreClauses(x.(tables := t), confs, n) == StoreClauses(x, confs, n)
  {
    if n > 0 {
      var s, conf := n - 1, confs[n - 1];
      assert KnowsStore(x, s, conf);
      StoreStable(x, t, s, conf);
      StoreClausesStable(x, t, confs, s);
    }
  }

  /** Only the first conflict sets matter. */
  lemma {:induction false} StoreClausesPrefix(x: LoadContext, confs: seq<seq<EPRecord>>, more: seq<seq<EPRecord>>,
                                              n: nat)
    requires Ready(x, confs, n) && n <= |more| && (forall s | 0 <= s < n :: more[s] == confs[s])
    ensures Ready(x, more, n) && StoreClauses(x, more, n) == StoreClauses(x, confs, n)
  {
    if n > 0 {
      StoreClausesPrefix(x, confs, more, n - 1);
      assert KnowsStore(x, n - 1, confs[n - 1]);
    }
  }

  /** One more store, after the tables have grown. */
  lemma StoreStep(x: LoadContext, t: VarTables, confs: seq<seq<EPRecord>>, s: nat, conf: seq<EPRecord>)
    requires Ready(x, confs, s) && |confs| == s && TablesGrow(x.tables, t)
    requires Knows(x.(tables := t), s) && KnowsConflicts(x.(tables := t), s, conf, |conf|)
    ensures Ready(x.(tables := t), confs + [conf], s + 1)
    ensures StoreClauses(x.(tables := t), confs + [conf], s + 1)
            == StoreClauses(x, confs, s) + {MatchClause(x.(tables := t), s)}
               + ConflictClauses(x.(tables := t), s, conf, |conf|)
  {
    StoreClausesStable(x, t, confs, s);
    StoreClausesPrefix(x.(tables := t), confs, confs + [conf], s);
  }

  // ---------------------------------------------------------------- generating the clauses

  predicate SimpleTable(rpt: RecPairTable) {
    forall p | p in rpt :: rpt[p].True? || rpt[p].False? || rpt[p].Var?
  }

  lemma OrderIsSimple(rpt: RecPairTable, a: EPRecord, b: EPRecord)
    requires SimpleTable(rpt) && Related(rpt, a, b)
    ensures NoImplies(OrderConstraint(rpt, a, b))
  {
  }

  ghost predicate VectorsAreVars(t: VarTables) {
    && (forall r | r in t.addr :: AllVars(t.addr[r]))
    && (forall r | r in t.val :: AllVars(t.val[r]))
    && (forall r | r in t.rmwr :: AllVars(t.rmwr[r]))
  }

  /** Solver-independent facts that make the clauses of a load proper. */
  ghost predicate ContextOk(x: LoadContext) {
    SimpleTable(x.rpt) && TableOfBranches(x.bt) && AllVars(x.rf) && VectorsAreVars(x.tables)
  }

  lemma FourSimple(a: Constraint, b: Constraint, c: Constraint, d: Constraint)
    requires NoImplies(a) && NoImplies(b) && NoImplies(c) && NoImplies(d)
    ensures NoImplies(And([a, b, c, d]))
  {
  }

  lemma RuleAddable(l: Constraint, r: Constraint)
    requires NoImplies(l) && NoImplies(r)
    ensures Addable(Implies(l, r))
  {
    NoImpliesIsSafe(r);
  }

  lemma MatchAddable(x: LoadContext, s: nat)
    requires ContextOk(x) && Knows(x, s)
    ensures Addable(MatchClause(x, s))
  {
    var env: Env := iset{};
    var store := x.mrf[s];
    CodeIsMeaning(x.rf, s, env);
    OrderIsSimple(x.rpt, store, x.load);
    ExecutedMeaning(x.bt, store, env);
    EquivMeaning(LoadVal(x), x.tables.val[store], env);
    EquivMeaning(x.tables.addr[x.load], x.tables.addr[store], env);
    var m := MatchClause(x, s);
    FourSimple(OrderConstraint(x.rpt, store, x.load), Equiv(LoadVal(x), x.tables.val[store]),
               ExecConstraint(x.bt, store), Equiv(x.tables.addr[x.load], x.tables.addr[store]));
    RuleAddable(m.l, m.r);
  }

  lemma ConflictAddable(x: LoadContext, s: nat, k: EPRecord)
    requires ContextOk(x) && KnowsConflict(x, s, k)
    ensures Addable(ConflictClause(x, s, k))
  {
    var env: Env := iset{};
    CodeIsMeaning(x.rf, s, env);
    OrderIsSimple(x.rpt, x.mrf[s], k);
    OrderIsSimple(x.rpt, k, x.load);
    ExecutedMeaning(x.bt, k, env);
    EquivMeaning(x.tables.addr[x.load], x.tables.addr[k], env);
    NegateNegates(Equiv(x.tables.addr[x.load], x.tables.addr[k]), env);
    var c := ConflictClause(x, s, k);
    FourSimple(OrderConstraint(x.rpt, x.mrf[s], k), OrderConstraint(x.rpt, k, x.load), CodeIs(x.rf, s),
               ExecConstraint(x.bt, k));
    RuleAddable(c.l, c.r);
  }

  lemma RangeAddable(x: LoadContext)
    requires ContextOk(x) && |x.rf| <= 32 && ExecDefined(x.bt, x.load)
    ensures Addable(RangeClause(x))
  {
    var env: Env := iset{};
    ExecutedMeaning(x.bt, x.load, env);
    LTClausesMeaning(x.rf, |x.mrf|, env);
    NoImpliesIsSafe(And(LTClauses(x.rf, |x.mrf|)));
  }

  class LoadRF {
    const load: EPRecord
    const mrf: seq<EPRecord>
    const vars: seq<Constraint>

    /** One code per store that may be read. */
    constructor (cg: ConstGen, load: EPRecord, mrf: seq<EPRecord>)
      requires cg.Valid()
      modifies cg`varindex
      ensures cg.Valid() && this.load == load && this.mrf == mrf
      ensures |vars| == NumBits(|mrf|) && cg.varindex == old(cg.varindex) + |vars|
      ensures forall i | 0 <= i < |vars| :: vars[i] == Var(old(cg.varindex) + i)
    {
      this.load := load;
      this.mrf := mrf;
      var bits := cg.GetArrayNewVars(NumBits(|mrf|));
      TableSoundGrows(cg.threadactions, cg.rpt, cg.threadorder, old(cg.varindex), cg.varindex);
      vars := bits;
    }

    ghost function Context(cg: ConstGen, sls: StoreLoadSet, bt: BranchTable): LoadContext
      reads cg, sls
    {
      LoadContext(cg.rpt, bt, sls.tables, vars, load, mrf)
    }

    /** What the generation relies on: an allocated code, related and encoded records, and a common
        address with every store. */
    ghost predicate Usable(rpt: RecPairTable, bt: BranchTable) {
      && TableOfBranches(bt) && SimpleTable(rpt)
      && AllVars(vars) && |vars| <= 32
      && ExecDefined(bt, load)
      && (forall s {:trigger ExecDefined(bt, s)} {:trigger CommonAddrs(s, load)} | s in mrf ::
            ExecDefined(bt, s) && CommonAddrs(s, load) != [])
      && (forall a, b {:trigger Related(rpt, a, b)} | (a in mrf || a == load) && (b in mrf || b == load) ::
            Related(rpt, a, b))
    }

    /** The state that every step keeps. */
    ghost predicate Working(cg: ConstGen, sls: StoreLoadSet)
      reads cg, sls
    {
      cg.varindex > 0 && cg.ClausesValid() && sls.Valid()
    }

    /** genConstraints: exactly the match, conflict and range clauses of the load are added, over
        conflict sets that keep every violator. */
    method GenConstraints(cg: ConstGen, sls: StoreLoadSet, bt: BranchTable) returns (ghost confs: seq<seq<EPRecord>>)
      requires cg.Valid() && sls.Valid() && Usable(cg.rpt, bt)
      modifies cg`varindex, cg`clauses, cg`pending, cg`added, sls`tables
      ensures cg.Valid() && sls.Valid() && TablesGrow(old(sls.tables), sls.tables)
      ensures Ready(Context(cg, sls, bt), confs, |mrf|) && LoadKnown(Context(cg, sls, bt))
      ensures cg.added == old(cg.added) + StoreClauses(Context(cg, sls, bt), confs, |mrf|)
                          + {RangeClause(Context(cg, sls, bt))}
      ensures |confs| == |mrf| && ConflictSetsOk(cg.rpt, load, mrf, confs)
    {
      ghost var threads, rpt := cg.threadactions, cg.rpt;
      confs := GenClauses(cg, sls, bt);
      TableSoundGrows(threads, rpt, cg.threadorder, old(cg.varindex), cg.varindex);
    }

    /** The clauses of the load; the order table does not matter but for the orders that it has. */
    method GenClauses(cg: ConstGen, sls: StoreLoadSet, bt: BranchTable) returns (ghost confs: seq<seq<EPRecord>>)
      requires Working(cg, sls) && Usable(cg.rpt, bt)
      modifies cg`varindex, cg`clauses, cg`pending, cg`added, sls`tables
      ensures Working(cg, sls) && cg.varindex >= old(cg.varindex) && TablesGrow(old(sls.tables), sls.tables)
      ensures Ready(Context(cg, sls, bt), confs, |mrf|) && LoadKnown(Context(cg, sls, bt))
      ensures cg.added == old(cg.added) + StoreClauses(Context(cg, sls, bt), confs, |mrf|)
                          + {RangeClause(Context(cg, sls, bt))}
      ensures |confs| == |mrf| && ConflictSetsOk(cg.rpt, load, mrf, confs)
    {
      FetchLoad(cg, sls, bt);
      confs := GenStores(cg, sls, bt);
      GenRange(cg, sls, bt);
    }

    /** An executed load reads from one of the stores. */
    method GenRange(cg: ConstGen, sls: StoreLoadSet, bt: BranchTable)
      requires cg.ClausesValid() && sls.Valid() && Usable(cg.rpt, bt)
      modifies cg`clauses, cg`pending, cg`added
      ensures cg.ClausesValid() && cg.added == old(cg.added) + {RangeClause(Context(cg, sls, bt))}
    {
      RangeAddable(Context(cg, sls, bt));
      var mustrf := GenerateLTConstraint(vars, |mrf|);
      var executed := GetExecutionConstraint(bt, load);
      cg.AddConstraint(Implies(executed, mustrf));
    }

    /** The variables of the load itself. */
    method FetchLoad(cg: ConstGen, sls: StoreLoadSet, bt: BranchTable)
      requires cg.varindex > 0 && sls.Valid()
      modifies cg`varindex, sls`tables
      ensures cg.varindex >= old(cg.varindex) && sls.Valid() && TablesGrow(old(sls.tables), sls.tables)
      ensures LoadKnown(Context(cg, sls, bt))
    {
      if load.etype == RMW {
        var _ := sls.GetRMWRValVars(cg, load);
      } else {
        var _ := sls.GetValVars(cg, load);
      }
      var _ := sls.GetAddrVars(cg, load);
    }

    /** The outer loop. */
    method GenStores(cg: ConstGen, sls: StoreLoadSet, bt: BranchTable) returns (ghost confs: seq<seq<EPRecord>>)
      requires Working(cg, sls) && Usable(cg.rpt, bt) && LoadKnown(Context(cg, sls, bt))
      modifies cg`varindex, cg`clauses, cg`pending, cg`added, sls`tables
      ensures Working(cg, sls) && cg.varindex >= old(cg.varindex) && TablesGrow(old(sls.tables), sls.tables)
      ensures |confs| == |mrf| && Ready(Context(cg, sls, bt), confs, |mrf|) && LoadKnown(Context(cg, sls, bt))
      ensures cg.added == old(cg.added) + StoreClauses(Context(cg, sls, bt), confs, |mrf|)
      ensures ConflictSetsOk(cg.rpt, load, mrf, confs)
    {
      confs := [];
      var storeindex := 0;
      ghost var x := Context(cg, sls, bt);
      ghost var acc: set<Constraint> := {};
      while storeindex < |mrf|
        invariant 0 <= storeindex <= |mrf| && |confs| == storeindex
        invariant Working(cg, sls) && cg.varindex >= old(cg.varindex) && TablesGrow(old(sls.tables), sls.tables)
        invariant x == Context(cg, sls, bt) && Generated(x, confs, acc) && cg.added == old(cg.added) + acc
      {
        ghost var conf := GenStore(cg, sls, bt, storeindex);
        assert cg.rpt == x.rpt;
        ghost var now := x.(tables := sls.tables);
        assert now == Context(cg, sls, bt);
        GeneratedStep(x, sls.tables, confs, acc, conf);
        acc := acc + {MatchClause(now, storeindex)} + ConflictClauses(now, storeindex, conf, |conf|);
        x := now;
        confs := confs + [conf];
        storeindex := storeindex + 1;
      }
    }

    /** The round of the outer loop for store s. */
    method GenStore(cg: ConstGen, sls: StoreLoadSet, bt: BranchTable, s: nat) returns (ghost conf: seq<EPRecord>)
      requires Working(cg, sls) && Usable(cg.rpt, bt) && s < |mrf| && LoadKnown(Context(cg, sls, bt))
      modifies cg`varindex, cg`clauses, cg`pending, cg`added, sls`tables
      ensures Working(cg, sls) && cg.varindex >= old(cg.varindex) && TablesGrow(old(sls.tables), sls.tables)
      ensures Knows(Context(cg, sls, bt), s) && KnowsConflicts(Context(cg, sls, bt), s, conf, |conf|)
      ensures cg.added == old(cg.added) + {MatchClause(Context(cg, sls, bt), s)}
                          + ConflictClauses(Context(cg, sls, bt), s, conf, |conf|)
      ensures ConflictSetOk(cg.rpt, mrf[s], load, mrf, conf)
    {
      GenMatch(cg, sls, bt, s);
      ghost var x := Context(cg, sls, bt);
      QueryIsValid(cg.rpt, bt, s);
      var pruned := ComputeConflictSet(cg.rpt, mrf[s], load, mrf);
      var conflicts := if pruned.Some? then pruned.value else mrf;
      conf := conflicts;
      GenConflicts(cg, sls, bt, s, conflicts);
      MatchStable(x, sls.tables, s);
    }

    /** The match clause of store s. */
    method GenMatch(cg: ConstGen, sls: StoreLoadSet, bt: BranchTable, s: nat)
      requires Working(cg, sls) && Usable(cg.rpt, bt) && s < |mrf| && LoadKnown(Context(cg, sls, bt))
      modifies cg`varindex, cg`clauses, cg`pending, cg`added, sls`tables
      ensures Working(cg, sls) && cg.varindex >= old(cg.varindex) && TablesGrow(old(sls.tables), sls.tables)
      ensures LoadKnown(Context(cg, sls, bt)) && Knows(Context(cg, sls, bt), s)
      ensures cg.added == old(cg.added) + {MatchClause(Context(cg, sls, bt), s)}
    {
      FetchStore(cg, sls, bt, s);
      MatchAddable(Context(cg, sls, bt), s);
      var c := MatchConstraint(sls, cg.rpt, bt, s);
      cg.AddConstraint(c);
    }

    /** The variables of store s. */
    method FetchStore(cg: ConstGen, sls: StoreLoadSet, bt: BranchTable, s: nat)
      requires cg.varindex > 0 && sls.Valid() && Usable(cg.rpt, bt) && s < |mrf| && LoadKnown(Context(cg, sls, bt))
      modifies cg`varindex, sls`tables
      ensures cg.varindex >= old(cg.varindex) && sls.Valid() && TablesGrow(old(sls.tables), sls.tables)
      ensures LoadKnown(Context(cg, sls, bt)) && Knows(Context(cg, sls, bt), s)
    {
      assert Related(cg.rpt, mrf[s], load);
      var _ := sls.GetValVars(cg, mrf[s]);
      var _ := sls.GetAddrVars(cg, mrf[s]);
    }

    lemma QueryIsValid(rpt: RecPairTable, bt: BranchTable, s: nat)
      requires Usable(rpt, bt) && s < |mrf|
      ensures QueryValid(Query(rpt, mrf[s], load, mrf, 0))
      ensures CommonAddrs(mrf[s], load) != []
    {
      var q := Query(rpt, mrf[s], load, mrf, 0);
      forall a, b | Involved(q, a) && Involved(q, b) && a.Tid() != b.Tid() ensures HasPair(rpt, a, b) {
        assert Related(rpt, a, b);
      }
    }

    /** Building the match constraint from its parts. */
    method MatchConstraint(sls: StoreLoadSet, rpt: RecPairTable, bt: BranchTable, s: nat) returns (c: Constraint)
      requires Knows(LoadContext(rpt, bt, sls.tables, vars, load, mrf), s)
      ensures c == MatchClause(LoadContext(rpt, bt, sls.tables, vars, load, mrf), s)
    {
      var store := mrf[s];
      var rfconst := True;
      if |vars| != 0 {
        rfconst := GenerateConstraint(vars, s);
      }
      var loadval := if load.etype == RMW then sls.tables.rmwr[load] else sls.tables.val[load];
      var valmatch := GenerateEquivConstraint(loadval, sls.tables.val[store]);
      var executed := GetExecutionConstraint(bt, store);
      var addrmatch := GenerateEquivConstraint(sls.tables.addr[load], sls.tables.addr[store]);
      c := Implies(rfconst, And([OrderConstraint(rpt, store, load), valmatch, executed, addrmatch]));
    }

    /** The inner loop: one clause per conflicting store that the constant orders do not exclude. */
    method GenConflicts(cg: ConstGen, sls: StoreLoadSet, bt: BranchTable, s: nat, conf: seq<EPRecord>)
      requires Working(cg, sls) && Usable(cg.rpt, bt) && s < |mrf| && LoadKnown(Context(cg, sls, bt))
      requires forall k | k in conf :: k in mrf
      modifies cg`varindex, cg`clauses, cg`pending, cg`added, sls`tables
      ensures Working(cg, sls) && cg.varindex >= old(cg.varindex) && TablesGrow(old(sls.tables), sls.tables)
      ensures KnowsConflicts(Context(cg, sls, bt), s, conf, |conf|)
      ensures cg.added == old(cg.added) + ConflictClauses(Context(cg, sls, bt), s, conf, |conf|)
    {
      var i := 0;
      ghost var base := cg.added;
      while i < |conf|
        invariant 0 <= i <= |conf|
        invariant Working(cg, sls) && cg.varindex >= old(cg.varindex) && TablesGrow(old(sls.tables), sls.tables)
        invariant Forbidden(Context(cg, sls, bt), s, conf, i, base, cg.added)
      {
        NextConflict(cg, sls, bt, s, conf, i, base);
        i := i + 1;
      }
    }

    /** One round of the inner loop, with what it keeps. */
    method NextConflict(cg: ConstGen, sls: StoreLoadSet, bt: BranchTable, s: nat, conf: seq<EPRecord>, i: nat,
                        ghost base: set<Constraint>)
      requires Working(cg, sls) && Usable(cg.rpt, bt) && s < |mrf| && i < |conf| && conf[i] in mrf
      requires Forbidden(Context(cg, sls, bt), s, conf, i, base, cg.added)
      modifies cg`varindex, cg`clauses, cg`pending, cg`added, sls`tables
      ensures Working(cg, sls) && cg.varindex >= old(cg.varindex) && TablesGrow(old(sls.tables), sls.tables)
      ensures Forbidden(Context(cg, sls, bt), s, conf, i + 1, base, cg.added)
    {
      ghost var x, before := Context(cg, sls, bt), cg.added;
      ghost var added := GenConflict(cg, sls, bt, s, conf[i]);
      ForbiddenStep(x, sls.tables, s, conf, i, base, before);
    }

    /** One round of the inner loop. */
    method GenConflict(cg: ConstGen, sls: StoreLoadSet, bt: BranchTable, s: nat, k: EPRecord)
      returns (ghost added: set<Constraint>)
      requires Working(cg, sls) && Usable(cg.rpt, bt) && s < |mrf| && LoadKnown(Context(cg, sls, bt)) && k in mrf
      modifies cg`varindex, cg`clauses, cg`pending, cg`added, sls`tables
      ensures Working(cg, sls) && cg.varindex >= old(cg.varindex) && TablesGrow(old(sls.tables), sls.tables)
      ensures KnowsConflict(Context(cg, sls, bt), s, k)
      ensures added == if Skipped(Context(cg, sls, bt), s, k) then {} else {ConflictClause(Context(cg, sls, bt), s, k)}
      ensures cg.added == old(cg.added) + added
    {
      FetchConflict(cg, sls, bt, s, k);
      added := {};
      if !OrderConstraint(cg.rpt, mrf[s], k).False? && !OrderConstraint(cg.rpt, k, load).False? {
        ConflictAddable(Context(cg, sls, bt), s, k);
        var c := ConflictConstraint(sls, cg.rpt, bt, s, k);
        added := {c};
        cg.AddConstraint(c);
      }
    }

    /** The variables of the conflicting store. */
    method FetchConflict(cg: ConstGen, sls: StoreLoadSet, bt: BranchTable, s: nat, k: EPRecord)
      requires cg.varindex > 0 && sls.Valid() && Usable(cg.rpt, bt) && s < |mrf| && LoadKnown(Context(cg, sls, bt))
      requires k in mrf
      modifies cg`varindex, sls`tables
      ensures cg.varindex >= old(cg.varindex) && sls.Valid() && TablesGrow(old(sls.tables), sls.tables)
      ensures LoadKnown(Context(cg, sls, bt)) && KnowsConflict(Context(cg, sls, bt), s, k)
    {
      assert Related(cg.rpt, mrf[s], k) && Related(cg.rpt, k, load);
      var _ := sls.GetAddrVars(cg, k);
    }

    /** Building the conflict constraint from its parts. */
    method ConflictConstraint(sls: StoreLoadSet, rpt: RecPairTable, bt: BranchTable, s: nat, k: EPRecord)
      returns (c: Constraint)
      requires KnowsConflict(LoadContext(rpt, bt, sls.tables, vars, load, mrf), s, k)
      ensures c == ConflictClause(LoadContext(rpt, bt, sls.tables, vars, load, mrf), s, k)
    {
      var rfconst := GenerateConstraint(vars, s);
      var executed := GetExecutionConstraint(bt, k);
      var same := GenerateEquivConstraint(sls.tables.addr[load], sls.tables.addr[k]);
      c := Implies(And([OrderConstraint(rpt, mrf[s], k), OrderConstraint(rpt, k, load), rfconst, executed]),
                   Negate(same));
    }
  }

  /** With the clauses for the first i conflicting stores, the clauses are now these. */
  ghost predicate Forbidden(x: LoadContext, s: nat, conf: seq<EPRecord>, i: nat, base: set<Constraint>,
                            now: set<Constraint>) {
    LoadKnown(x) && KnowsConflicts(x, s, conf, i) && now == base + ConflictClauses(x, s, conf, i)
  }

  lemma ForbiddenStep(x: LoadContext, t: VarTables, s: nat, conf: seq<EPRecord>, i: nat, base: set<Constraint>,
                      was: set<Constraint>)
    requires i < |conf| && Forbidden(x, s, conf, i, base, was) && TablesGrow(x.tables, t)
    requires KnowsConflict(x.(tables := t), s, conf[i])
    ensures Forbidden(x.(tables := t), s, conf, i + 1, base,
                      was + if Skipped(x, s, conf[i]) then {} else {ConflictClause(x.(tables := t), s, conf[i])})
  {
    ConflictClausesStable(x, t, s, conf, i);
  }

  ghost predicate ConflictSetsOk(rpt: RecPairTable, load: EPRecord, mrf: seq<EPRecord>, confs: seq<seq<EPRecord>>) {
    |confs| <= |mrf| && forall s | 0 <= s < |confs| :: ConflictSetOk(rpt, mrf[s], load, mrf, confs[s])
  }

  /** What the outer loop has added after its first rounds. */
  ghost predicate Generated(x: LoadContext, confs: seq<seq<EPRecord>>, acc: set<Constraint>) {
    && LoadKnown(x) && Ready(x, confs, |confs|) && acc == StoreClauses(x, confs, |confs|)
    && ConflictSetsOk(x.rpt, x.load, x.mrf, confs)
  }

  lemma GeneratedStep(x: LoadContext, t: VarTables, confs: seq<seq<EPRecord>>, acc: set<Constraint>,
                      conf: seq<EPRecord>)
    requires Generated(x, confs, acc) && TablesGrow(x.tables, t) && |confs| < |x.mrf|
    requires Knows(x.(tables := t), |confs|) && KnowsConflicts(x.(tables := t), |confs|, conf, |conf|)
    requires ConflictSetOk(x.rpt, x.mrf[|confs|], x.load, x.mrf, conf)
    ensures Generated(x.(tables := t), confs + [conf],
                      acc + {MatchClause(x.(tables := t), |confs|)}
                      + ConflictClauses(x.(tables := t), |confs|, conf, |conf|))
  {
    var now, more := x.(tables := t), confs + [conf];
    assert ConflictSetsOk(now.rpt, now.load, now.mrf, more) by {
      ConflictSetsGrow(x.rpt, x.load, x.mrf, confs, conf);
    }
    assert Ready(now, more, |more|) && LoadKnown(now)
      && acc + {MatchClause(now, |confs|)} + ConflictClauses(now, |confs|, conf, |conf|)
         == StoreClauses(now, more, |more|) by {
      StoreStep(x, t, confs, |confs|, conf);
    }
  }

  lemma ConflictSetsGrow(rpt: RecPairTable, load: EPRecord, mrf: seq<EPRecord>, confs: seq<seq<EPRecord>>,
                         conf: seq<EPRecord>)
    requires ConflictSetsOk(rpt, load, mrf, confs) && |confs| < |mrf|
    requires ConflictSetOk(rpt, mrf[|confs|], load, mrf, conf)
    ensures ConflictSetsOk(rpt, load, mrf, confs + [conf])
  {
    var more := confs + [conf];
    forall s | 0 <= s < |more| ensures ConflictSetOk(rpt, mrf[s], load, mrf, more[s]) {
      if s < |confs| {
        assert more[s] == confs[s];
      }
    }
  }

  /** What the conflict set of a store may be: the whole base set when the two records may share
      several addresses, and otherwise a part of it that keeps every violator. */
  ghost predicate ConflictSetOk(rpt: RecPairTable, store: EPRecord, load: EPRecord, base: seq<EPRecord>,
                                conf: seq<EPRecord>) {
    || conf == base
    || (&& |CommonAddrs(store, load)| == 1 && (forall k | k in conf :: k in base)
        && QueryValid(Query(rpt, store, load, base, CommonAddrs(store, load)[0]))
        && Keeps(Query(rpt, store, load, base, CommonAddrs(store, load)[0]), conf))
  }
}
