/** The second traversal: all clauses of one encoding on one solver, and what every assignment that satisfies them is
    (process, traverse and processRecord of constgen.cc). */
module Generation {
  import opened Addresses
  import opened Branches
  import opened CodeRecords
  import opened ConstGens
  import opened Constraints
  import opened Encodings
  import opened ExecPoints
  import opened LoadMeanings
  import opened LoadRFs
  import opened ReadFrom
  import opened Records
  import opened SCExecutions

  /** What the first traversal leaves: the branches, where operations get their addresses and branches their
      directions, and the stores that each load may read. */
  datatype Program = Program(bt: BranchTable, recs: map<Point, EPRecord>, dirs: map<Point, seq<Count>>,
                             inputs: map<EPRecord, AddressInput>, sources: map<EPRecord, BranchInput>,
                             mrf: map<EPRecord, seq<EPRecord>>)

  predicate Reads(r: EPRecord) {
    r.etype == LOAD || r.etype == RMW
  }

  ghost predicate BranchUsable(p: Program, r: EPRecord) {
    && r.ep in p.bt && ExecDefined(p.bt, r) && r in p.sources && InputKnown(p.sources[r])
    && |p.sources[r].values| == p.bt[r.ep].numdirections
  }

  ghost predicate AccessUsable(p: Program, addresses: seq<nat>, r: EPRecord) {
    r in p.inputs && InputOk(r, p.inputs[r]) && forall a | a in r.addrs :: a in addresses
  }

  /** The load and the stores that it may read are related, share addresses, and are known to be executed or not. */
  ghost predicate LoadUsable(p: Program, rpt: RecPairTable, r: EPRecord) {
    && r in p.mrf && ExecDefined(p.bt, r) && NumBits(|p.mrf[r]|) <= 32
    && (forall s | s in p.mrf[r] :: ExecDefined(p.bt, s) && CommonAddrs(s, r) != [])
    && (forall a, b {:trigger Related(rpt, a, b)} | (a in p.mrf[r] || a == r) && (b in p.mrf[r] || b == r) ::
          Related(rpt, a, b))
  }

  ghost predicate RecordUsable(p: Program, rpt: RecPairTable, addresses: seq<nat>, r: EPRecord) {
    if r.etype == BRANCHDIR then BranchUsable(p, r)
    else AccessUsable(p, addresses, r) && (Reads(r) ==> LoadUsable(p, rpt, r))
  }

  ghost predicate AllUsable(p: Program, rpt: RecPairTable, addresses: seq<nat>, records: seq<EPRecord>) {
    && TableOfBranches(p.bt) && SimpleTable(rpt)
    && forall r {:trigger RecordUsable(p, rpt, addresses, r)} | r in records :: RecordUsable(p, rpt, addresses, r)
  }

  // ---------------------------------------------------------------- what has been generated

  /** The contexts and the conflict sets with which the loads were generated. */
  type Loads = map<EPRecord, (LoadContext, seq<seq<EPRecord>>)>

  /** The context in which the load was generated, over variables that are still the same. */
  ghost predicate LoadKept(p: Program, rpt: RecPairTable, addresses: seq<nat>, tables: VarTables, loads: Loads,
                           r: EPRecord) {
    && r in loads && r in p.mrf
    && var (x, confs) := loads[r];
    && x.rpt == rpt && x.bt == p.bt && x.load == r && x.mrf == p.mrf[r] && TablesGrow(x.tables, tables)
    && Coded(x) && LoadKnown(x) && ExecDefined(x.bt, x.load) && VectorsOk(x.tables.addr, NumVars(|addresses|))
    && |confs| == |x.mrf| && ConflictSetsOk(x.rpt, x.load, x.mrf, confs)
    && Ready(x, confs, |x.mrf|)
  }

  ghost predicate AccessKept(p: Program, addresses: seq<nat>, tables: VarTables, r: EPRecord) {
    AccessUsable(p, addresses, r) && r in tables.addr
  }

  ghost predicate Kept(p: Program, rpt: RecPairTable, addresses: seq<nat>, tables: VarTables, loads: Loads,
                       r: EPRecord) {
    if r.etype == BRANCHDIR then BranchUsable(p, r)
    else AccessKept(p, addresses, tables, r) && (Reads(r) ==> LoadKept(p, rpt, addresses, tables, loads, r))
  }

  /** The clauses of a record that is generated: those of a branch, or of an operation's address and of what it
      reads. */
  ghost function ClausesOf(p: Program, rpt: RecPairTable, addresses: seq<nat>, tables: VarTables, loads: Loads,
                           r: EPRecord): set<Constraint>
  {
    if !Kept(p, rpt, addresses, tables, loads, r) then {}
    else if r.etype == BRANCHDIR then BranchClauses(p.bt, r, p.sources[r])
    else
      (if Reads(r) then LoadClauses(loads[r].0, loads[r].1) else {})
      + AddressClauses(addresses, tables.addr[r], r, p.inputs[r])
  }

  /** What is generated stays. */
  lemma KeptStays(p: Program, rpt: RecPairTable, addresses: seq<nat>, tables: VarTables, loads: Loads,
                  tables': VarTables, loads': Loads, r: EPRecord)
    requires TablesGrow(tables, tables') && (r in loads ==> r in loads' && loads'[r] == loads[r])
    ensures Kept(p, rpt, addresses, tables, loads, r) ==>
      && Kept(p, rpt, addresses, tables', loads', r)
      && ClausesOf(p, rpt, addresses, tables', loads', r) == ClausesOf(p, rpt, addresses, tables, loads, r)
  {
    if LoadKept(p, rpt, addresses, tables, loads, r) {
      LoadStays(p, rpt, addresses, tables, loads, tables', loads', r);
    }
  }

  lemma LoadStays(p: Program, rpt: RecPairTable, addresses: seq<nat>, tables: VarTables, loads: Loads,
                  tables': VarTables, loads': Loads, r: EPRecord)
    requires TablesGrow(tables, tables') && LoadKept(p, rpt, addresses, tables, loads, r)
    requires r in loads' && loads'[r] == loads[r]
    ensures LoadKept(p, rpt, addresses, tables', loads', r)
  {
  }

  ghost predicate AllKept(p: Program, rpt: RecPairTable, addresses: seq<nat>, tables: VarTables, loads: Loads,
                          records: seq<EPRecord>, n: nat)
    requires n <= |records|
  {
    forall i {:trigger Kept(p, rpt, addresses, tables, loads, records[i])} | 0 <= i < n ::
      Kept(p, rpt, addresses, tables, loads, records[i])
  }

  /** The clauses of the first n records. */
  ghost function AllClauses(p: Program, rpt: RecPairTable, addresses: seq<nat>, tables: VarTables, loads: Loads,
                            records: seq<EPRecord>, n: nat): set<Constraint>
    requires n <= |records|
  {
    set i, c | 0 <= i < n && c in ClausesOf(p, rpt, addresses, tables, loads, records[i]) :: c
  }

  /** No load is behind the first n records. */
  ghost predicate LoadsBelow(loads: Loads, records: seq<EPRecord>, n: nat) {
    forall i | n <= i < |records| :: records[i] !in loads
  }

  ghost predicate Extends(loads: Loads, now: Loads, r: EPRecord) {
    now.Keys <= loads.Keys + {r} && forall k | k in loads :: k in now && now[k] == loads[k]
  }

  lemma AllClausesStay(p: Program, rpt: RecPairTable, addresses: seq<nat>, tables: VarTables, loads: Loads,
                       tables': VarTables, loads': Loads, records: seq<EPRecord>, n: nat)
    requires n <= |records| && AllKept(p, rpt, addresses, tables, loads, records, n)
    requires TablesGrow(tables, tables') && forall k | k in loads :: k in loads' && loads'[k] == loads[k]
    ensures AllKept(p, rpt, addresses, tables', loads', records, n)
    ensures AllClauses(p, rpt, addresses, tables', loads', records, n)
      == AllClauses(p, rpt, addresses, tables, loads, records, n)
  {
    forall i {:trigger Kept(p, rpt, addresses, tables', loads', records[i])} | 0 <= i < n
      ensures Kept(p, rpt, addresses, tables', loads', records[i])
    {
      KeptStays(p, rpt, addresses, tables, loads, tables', loads', records[i]);
    }
    forall i | 0 <= i < n
      ensures ClausesOf(p, rpt, addresses, tables', loads', records[i])
        == ClausesOf(p, rpt, addresses, tables, loads, records[i])
    {
      KeptStays(p, rpt, addresses, tables, loads, tables', loads', records[i]);
    }
  }

  lemma OneMoreRecord(p: Program, rpt: RecPairTable, addresses: seq<nat>, tables: VarTables, loads: Loads,
                      records: seq<EPRecord>, n: nat)
    requires n < |records|
    ensures AllClauses(p, rpt, addresses, tables, loads, records, n + 1)
      == AllClauses(p, rpt, addresses, tables, loads, records, n)
         + ClausesOf(p, rpt, addresses, tables, loads, records[n])
  {
  }

  // ---------------------------------------------------------------- the traversal

  /** processLoad: the read-from clauses, and nothing else. */
  method ProcessLoad(cg: ConstGen, sls: StoreLoadSet, p: Program, r: EPRecord)
    returns (ghost x: LoadContext, ghost confs: seq<seq<EPRecord>>)
    requires cg.Valid() && sls.Valid() && TableOfBranches(p.bt) && SimpleTable(cg.rpt) && LoadUsable(p, cg.rpt, r)
    modifies cg`varindex, cg`clauses, cg`pending, cg`added, sls`tables
    ensures cg.Valid() && sls.Valid() && TablesGrow(old(sls.tables), sls.tables)
    ensures LoadKept(p, cg.rpt, sls.addresses, sls.tables, map[r := (x, confs)], r)
    ensures cg.added == old(cg.added) + LoadClauses(x, confs)
  {
    var lrf := new LoadRF(cg, r, p.mrf[r]);
    LoadIsUsable(p, cg.rpt, r, lrf);
    confs := lrf.GenConstraints(cg, sls, p.bt);
    x := lrf.Context(cg, sls, p.bt);
    LoadIsKept(p, sls.addresses, r, x, confs);
  }

  lemma LoadIsUsable(p: Program, rpt: RecPairTable, r: EPRecord, lrf: LoadRF)
    requires TableOfBranches(p.bt) && SimpleTable(rpt) && LoadUsable(p, rpt, r)
    requires lrf.load == r && lrf.mrf == p.mrf[r] && |lrf.vars| == NumBits(|lrf.mrf|) && AllVars(lrf.vars)
    ensures lrf.Usable(rpt, p.bt)
  {
  }

  lemma LoadIsKept(p: Program, addresses: seq<nat>, r: EPRecord, x: LoadContext, confs: seq<seq<EPRecord>>)
    requires r in p.mrf && x.bt == p.bt && x.load == r && x.mrf == p.mrf[r] && ExecDefined(x.bt, x.load)
    requires TableOfBranches(x.bt) && SimpleTable(x.rpt) && AllVars(x.rf) && |x.rf| == NumBits(|x.mrf|) <= 32
    requires VectorsOk(x.tables.addr, NumVars(|addresses|)) && VectorsAreVars(x.tables) && LoadKnown(x)
    requires |confs| == |x.mrf| && ConflictSetsOk(x.rpt, x.load, x.mrf, confs) && Ready(x, confs, |x.mrf|)
    ensures LoadKept(p, x.rpt, addresses, x.tables, map[r := (x, confs)], r)
  {
  }

  /** processRecord: exactly the clauses of the record are added. */
  method ProcessRecord(cg: ConstGen, sls: StoreLoadSet, p: Program, r: EPRecord, ghost loads: Loads)
    returns (ghost now: Loads)
    requires cg.Valid() && sls.Valid() && TableOfBranches(p.bt) && SimpleTable(cg.rpt)
    requires RecordUsable(p, cg.rpt, sls.addresses, r) && r !in loads
    modifies cg`varindex, cg`clauses, cg`pending, cg`added, sls`tables
    ensures cg.Valid() && sls.Valid() && TablesGrow(old(sls.tables), sls.tables) && Extends(loads, now, r)
    ensures Kept(p, cg.rpt, sls.addresses, sls.tables, now, r)
    ensures cg.added == old(cg.added) + ClausesOf(p, cg.rpt, sls.addresses, sls.tables, now, r)
  {
    now := loads;
    if r.etype == BRANCHDIR {
      ProcessBranch(cg, p.bt, r, p.sources[r]);
    } else {
      now := ProcessMemory(cg, sls, p, r, loads);
    }
  }

  method ProcessMemory(cg: ConstGen, sls: StoreLoadSet, p: Program, r: EPRecord, ghost loads: Loads)
    returns (ghost now: Loads)
    requires cg.Valid() && sls.Valid() && TableOfBranches(p.bt) && SimpleTable(cg.rpt) && r.etype != BRANCHDIR
    requires AccessUsable(p, sls.addresses, r) && (Reads(r) ==> LoadUsable(p, cg.rpt, r)) && r !in loads
    modifies cg`varindex, cg`clauses, cg`pending, cg`added, sls`tables
    ensures cg.Valid() && sls.Valid() && TablesGrow(old(sls.tables), sls.tables) && Extends(loads, now, r)
    ensures Kept(p, cg.rpt, sls.addresses, sls.tables, now, r)
    ensures cg.added == old(cg.added) + ClausesOf(p, cg.rpt, sls.addresses, sls.tables, now, r)
  {
    now := loads;
    if Reads(r) {
      now := ProcessReader(cg, sls, p, r, loads);
    } else {
      ProcessAccess(cg, sls, p, r);
    }
  }

  /** The clauses of a load or a read-modify-write. */
  method ProcessReader(cg: ConstGen, sls: StoreLoadSet, p: Program, r: EPRecord, ghost loads: Loads)
    returns (ghost now: Loads)
    requires cg.Valid() && sls.Valid() && TableOfBranches(p.bt) && SimpleTable(cg.rpt)
    requires AccessUsable(p, sls.addresses, r) && LoadUsable(p, cg.rpt, r)
    modifies cg`varindex, cg`clauses, cg`pending, cg`added, sls`tables
    ensures cg.Valid() && sls.Valid() && TablesGrow(old(sls.tables), sls.tables)
    ensures r in now && now == loads[r := now[r]]
    ensures AccessKept(p, sls.addresses, sls.tables, r) && LoadKept(p, cg.rpt, sls.addresses, sls.tables, now, r)
    ensures cg.added == old(cg.added) + LoadClauses(now[r].0, now[r].1)
                        + AddressClauses(sls.addresses, sls.tables.addr[r], r, p.inputs[r])
  {
    ghost var x, confs := ProcessLoad(cg, sls, p, r);
    now := loads[r := (x, confs)];
    ghost var tables := sls.tables;
    ProcessAccess(cg, sls, p, r);
    LoadStays(p, cg.rpt, sls.addresses, tables, map[r := (x, confs)], sls.tables, now, r);
  }

  /** The address clauses. */
  method ProcessAccess(cg: ConstGen, sls: StoreLoadSet, p: Program, r: EPRecord)
    requires cg.Valid() && sls.Valid() && AccessUsable(p, sls.addresses, r)
    modifies cg`varindex, cg`clauses, cg`pending, cg`added, sls`tables
    ensures cg.Valid() && sls.Valid() && TablesGrow(old(sls.tables), sls.tables)
    ensures AccessKept(p, sls.addresses, sls.tables, r)
    ensures cg.added == old(cg.added) + AddressClauses(sls.addresses, sls.tables.addr[r], r, p.inputs[r])
  {
    ghost var threads, rpt := cg.threadactions, cg.rpt;
    ProcessAddresses(cg, sls, r, p.inputs[r]);
    TableSoundGrows(threads, rpt, cg.threadorder, old(cg.varindex), cg.varindex);
  }

  /** The order clauses: those of all threads, each of which follows from the order being strict and total. */
  ghost predicate OrderClauses(order: set<Constraint>, threads: seq<seq<EPRecord>>, rpt: RecPairTable)
    requires HasAllPairs(threads, rpt)
  {
    AllPresent(order, threads, rpt) && forall c | c in order :: FollowsFromOrder(threads, rpt, c)
  }

  /** process: exactly the order clauses and the clauses of every record are in the new solver. */
  method Process(cg: ConstGen, sls: StoreLoadSet, p: Program, records: seq<EPRecord>)
    returns (ghost loads: Loads, ghost order: set<Constraint>)
    requires cg.Valid() && cg.added == {} && sls.Valid()
    requires Distinct(records) && AllUsable(p, cg.rpt, sls.addresses, records)
    modifies cg`varindex, cg`clauses, cg`pending, cg`added, sls`tables
    ensures cg.Valid() && sls.Valid()
    ensures HasAllPairs(cg.threadactions, cg.rpt) && OrderClauses(order, cg.threadactions, cg.rpt)
    ensures AllKept(p, cg.rpt, sls.addresses, sls.tables, loads, records, |records|)
    ensures cg.added == order + AllClauses(p, cg.rpt, sls.addresses, sls.tables, loads, records, |records|)
  {
    cg.GenTransOrderConstraints();
    order := cg.added;
    loads := Traverse(cg, sls, p, records);
  }

  /** traverse: exactly the clauses of the records are added. */
  method Traverse(cg: ConstGen, sls: StoreLoadSet, p: Program, records: seq<EPRecord>) returns (ghost loads: Loads)
    requires cg.Valid() && sls.Valid() && Distinct(records) && AllUsable(p, cg.rpt, sls.addresses, records)
    modifies cg`varindex, cg`clauses, cg`pending, cg`added, sls`tables
    ensures cg.Valid() && sls.Valid()
    ensures AllKept(p, cg.rpt, sls.addresses, sls.tables, loads, records, |records|)
    ensures cg.added
      == old(cg.added) + AllClauses(p, cg.rpt, sls.addresses, sls.tables, loads, records, |records|)
  {
    loads := map[];
    ghost var before := cg.added;
    var i := 0;
    while i < |records|
      invariant 0 <= i <= |records| && cg.Valid() && sls.Valid() && LoadsBelow(loads, records, i)
      invariant Generated(p, cg.rpt, sls.addresses, sls.tables, loads, records, i, before, cg.added)
    {
      loads := NextRecord(cg, sls, p, records, i, loads, before);
      i := i + 1;
    }
  }

  /** With the clauses of the first n records, the clauses are now these. */
  ghost predicate Generated(p: Program, rpt: RecPairTable, addresses: seq<nat>, tables: VarTables, loads: Loads,
                            records: seq<EPRecord>, n: nat, before: set<Constraint>, now: set<Constraint>)
    requires n <= |records|
  {
    && AllKept(p, rpt, addresses, tables, loads, records, n)
    && now == before + AllClauses(p, rpt, addresses, tables, loads, records, n)
  }

  /** One round of traverse. */
  method NextRecord(cg: ConstGen, sls: StoreLoadSet, p: Program, records: seq<EPRecord>, i: nat, ghost loads: Loads,
                    ghost before: set<Constraint>)
    returns (ghost now: Loads)
    requires cg.Valid() && sls.Valid() && Distinct(records) && AllUsable(p, cg.rpt, sls.addresses, records)
    requires i < |records| && LoadsBelow(loads, records, i)
    requires Generated(p, cg.rpt, sls.addresses, sls.tables, loads, records, i, before, cg.added)
    modifies cg`varindex, cg`clauses, cg`pending, cg`added, sls`tables
    ensures cg.Valid() && sls.Valid() && LoadsBelow(now, records, i + 1)
    ensures Generated(p, cg.rpt, sls.addresses, sls.tables, now, records, i + 1, before, cg.added)
  {
    ghost var tables, added := sls.tables, cg.added;
    assert RecordUsable(p, cg.rpt, sls.addresses, records[i]);
    now := ProcessRecord(cg, sls, p, records[i], loads);
    NextGenerated(p, cg.rpt, sls.addresses, tables, loads, sls.tables, now, records, i, before, added);
  }

  lemma NextGenerated(p: Program, rpt: RecPairTable, addresses: seq<nat>, tables: VarTables, loads: Loads,
                      tables': VarTables, loads': Loads, records: seq<EPRecord>, n: nat, before: set<Constraint>,
                      added: set<Constraint>)
    requires n < |records| && Generated(p, rpt, addresses, tables, loads, records, n, before, added)
    requires TablesGrow(tables, tables') && Extends(loads, loads', records[n])
    ensures Kept(p, rpt, addresses, tables', loads', records[n]) ==>
      Generated(p, rpt, addresses, tables', loads', records, n + 1, before,
                added + ClausesOf(p, rpt, addresses, tables', loads', records[n]))
  {
    AllClausesStay(p, rpt, addresses, tables, loads, tables', loads', records, n);
    OneMoreRecord(p, rpt, addresses, tables', loads', records, n);
  }

  // ---------------------------------------------------------------- both traversals

  /** The memory operations among the first n records. */
  ghost predicate ActionsInserted(threads: seq<seq<EPRecord>>, records: seq<EPRecord>, n: nat)
    requires n <= |records|
  {
    && (forall r | Inserted(threads, r) :: r in records[..n] && r.etype != BRANCHDIR)
    && forall i | 0 <= i < n && records[i].etype != BRANCHDIR :: Inserted(threads, records[i])
  }

  /** The part of the first traversal that inserts the memory operations. */
  method VisitActions(cg: ConstGen, records: seq<EPRecord>)
    requires cg.Valid() && Distinct(records) && cg.threadactions == []
    modifies cg`threadactions, cg`rpt, cg`varindex
    ensures cg.Valid() && ActionsInserted(cg.threadactions, records, |records|)
  {
    var i := 0;
    while i < |records|
      invariant 0 <= i <= |records| && cg.Valid() && ActionsInserted(cg.threadactions, records, i)
    {
      assert records[..i + 1] == records[..i] + [records[i]];
      if records[i].etype != BRANCHDIR {
        WithRecordInserts(cg.threadactions, records[i]);
        cg.InsertAction(records[i]);
      }
      i := i + 1;
    }
  }

  /** What LoadUsable asks for, but for the order table. */
  ghost predicate LoadListed(p: Program, records: seq<EPRecord>, r: EPRecord) {
    && r in p.mrf && ExecDefined(p.bt, r) && NumBits(|p.mrf[r]|) <= 32
    && forall s | s in p.mrf[r] ::
         ExecDefined(p.bt, s) && CommonAddrs(s, r) != [] && s in records && s.etype != BRANCHDIR
  }

  ghost predicate RecordListed(p: Program, addresses: seq<nat>, records: seq<EPRecord>, r: EPRecord) {
    if r.etype == BRANCHDIR then BranchUsable(p, r)
    else AccessUsable(p, addresses, r) && (Reads(r) ==> LoadListed(p, records, r))
  }

  ghost predicate AllListed(p: Program, addresses: seq<nat>, records: seq<EPRecord>) {
    && TableOfBranches(p.bt) && Distinct(records)
    && forall r {:trigger RecordListed(p, addresses, records, r)} | r in records ::
         RecordListed(p, addresses, records, r)
  }

  /** The first traversal relates what the second one needs. */
  lemma ListedIsUsable(p: Program, addresses: seq<nat>, threads: seq<seq<EPRecord>>, rpt: RecPairTable,
                       records: seq<EPRecord>)
    requires AllListed(p, addresses, records) && ActionsInserted(threads, records, |records|)
    requires HasAllPairs(threads, rpt)
    ensures AllUsable(p, rpt, addresses, records)
  {
    forall r {:trigger RecordUsable(p, rpt, addresses, r)} | r in records ensures RecordUsable(p, rpt, addresses, r) {
      assert RecordListed(p, addresses, records, r);
      if Reads(r) {
        forall a, b | (a in p.mrf[r] || a == r) && (b in p.mrf[r] || b == r) ensures Related(rpt, a, b) {
          ListedAreRelated(threads, rpt, records, a, b);
        }
      }
    }
  }

  lemma ListedAreRelated(threads: seq<seq<EPRecord>>, rpt: RecPairTable, records: seq<EPRecord>, a: EPRecord,
                         b: EPRecord)
    requires ActionsInserted(threads, records, |records|) && HasAllPairs(threads, rpt)
    requires a in records && b in records && a.etype != BRANCHDIR && b.etype != BRANCHDIR
    ensures Related(rpt, a, b)
  {
    var i :| 0 <= i < |records| && records[i] == a;
    var j :| 0 <= j < |records| && records[j] == b;
    var k :| 0 <= k < |threads[a.Tid()]| && threads[a.Tid()][k] == a;
    var l :| 0 <= l < |threads[b.Tid()]| && threads[b.Tid()][l] == b;
    assert ValidPos(threads, a.Tid(), k) && ValidPos(threads, b.Tid(), l);
  }

  /** process: both traversals over the records, on a new solver, which gets exactly the order clauses and the clauses
      of every record. */
  method Generate(cg: ConstGen, sls: StoreLoadSet, p: Program, records: seq<EPRecord>)
    returns (ghost loads: Loads, ghost order: set<Constraint>)
    requires cg.Valid() && cg.threadactions == [] && cg.added == {} && sls.Valid()
    requires AllListed(p, sls.addresses, records)
    modifies cg`threadactions, cg`rpt, cg`varindex, cg`clauses, cg`pending, cg`added, sls`tables
    ensures cg.Valid() && sls.Valid() && ActionsInserted(cg.threadactions, records, |records|)
    ensures HasAllPairs(cg.threadactions, cg.rpt) && OrderClauses(order, cg.threadactions, cg.rpt)
    ensures AllKept(p, cg.rpt, sls.addresses, sls.tables, loads, records, |records|)
    ensures cg.added == order + AllClauses(p, cg.rpt, sls.addresses, sls.tables, loads, records, |records|)
  {
    VisitActions(cg, records);
    AllPairsRelated(cg.threadactions, cg.rpt, cg.threadorder, cg.varindex);
    ListedIsUsable(p, sls.addresses, cg.threadactions, cg.rpt, records);
    loads, order := Process(cg, sls, p, records);
  }

  // ---------------------------------------------------------------- what satisfies the clauses

  /** The encoding of the program. */
  ghost function EncodingOf(p: Program, threads: seq<seq<EPRecord>>, rpt: RecPairTable): Encoding {
    Encoding(threads, rpt, p.bt, p.recs, p.dirs, p.inputs)
  }

  /** The memory operations of the program, as the traversal inserts and visits them. */
  ghost predicate Visited(e: Encoding, records: seq<EPRecord>) {
    && EncodingOk(e) && BranchesOk(e)
    && (forall q {:trigger BranchOk(e, q)} | q in e.bt ::
          q in e.recs && e.recs[q].etype == BRANCHDIR && e.recs[q] in records)
    && forall r {:trigger Placed(e, r)} | r in records && r.etype != BRANCHDIR :: Placed(e, r)
  }

  /** The candidate stores of every load are visited. */
  ghost predicate CandidatesVisited(loads: Loads, records: seq<EPRecord>, r: EPRecord) {
    r in loads ==> forall s | s in loads[r].0.mrf :: s in records && Writes(s)
  }

  /** The clauses of the solver make every load that the traversal visits sequentially consistent: an assignment that
      satisfies them orders all records and lets an executed load read the last store. */
  lemma SolvedIsSC(p: Program, e: Encoding, addresses: seq<nat>, tables: VarTables, clauses: seq<seq<int>>,
                   order: set<Constraint>, loads: Loads, records: seq<EPRecord>, r: EPRecord, env: Env)
    requires e == EncodingOf(p, e.threads, e.rpt) && Visited(e, records) && OrderClauses(order, e.threads, e.rpt)
    requires AllKept(p, e.rpt, addresses, tables, loads, records, |records|) && Distinct(addresses)
    requires r in records && Reads(r) && r in loads && CandidatesVisited(loads, records, r)
    requires SubsumptionSound(e, loads[r].0) && InputsDecode(e, loads[r].0, env)
    requires Means(clauses, order + AllClauses(p, e.rpt, addresses, tables, loads, records, |records|))
    requires Satisfies(clauses, env)
    ensures var x := loads[r].0;
      && StrictTotalOrder(e.threads, e.rpt, env) && BranchesHold(e, env) && x.load == r && ExecDefined(x.bt, x.load)
      && (Executed(x.bt, x.load, env) && x.mrf != [] ==> ReadsLast(x, env))
  {
    var added := order + AllClauses(p, e.rpt, addresses, tables, loads, records, |records|);
    var (x, confs) := loads[r];
    LoadIsOk(p, e, addresses, tables, loads, records, r);
    PresentStays(order, added, e.threads, e.rpt);
    AllClausesPresent(p, e, addresses, tables, added, loads, records, r);
    SatisfyingAssignmentIsSC(e, x, confs, addresses, added, env);
  }

  lemma PresentStays(a: set<Constraint>, b: set<Constraint>, threads: seq<seq<EPRecord>>, rpt: RecPairTable)
    requires HasAllPairs(threads, rpt) && a <= b && AllPresent(a, threads, rpt)
    ensures AllPresent(b, threads, rpt)
  {
    forall t, u | 0 <= t < |threads| && 0 <= u < |threads| && t != u ensures PairPresent(b, threads, rpt, t, u) {
      PairMonotone(a, b, threads, rpt, t, u);
    }
    forall t, u, v | 0 <= v < u < t < |threads| ensures TriplePresent(b, threads, rpt, t, u, v) {
      TripleMonotone(a, b, threads, rpt, t, u, v);
    }
  }

  lemma RecordKept(p: Program, rpt: RecPairTable, addresses: seq<nat>, tables: VarTables, loads: Loads,
                   records: seq<EPRecord>, r: EPRecord)
    requires AllKept(p, rpt, addresses, tables, loads, records, |records|) && r in records
    ensures Kept(p, rpt, addresses, tables, loads, r)
    ensures ClausesOf(p, rpt, addresses, tables, loads, r)
      <= AllClauses(p, rpt, addresses, tables, loads, records, |records|)
  {
    var i :| 0 <= i < |records| && records[i] == r;
    assert Kept(p, rpt, addresses, tables, loads, records[i]);
  }

  lemma LoadIsOk(p: Program, e: Encoding, addresses: seq<nat>, tables: VarTables, loads: Loads, records: seq<EPRecord>,
                 r: EPRecord)
    requires e == EncodingOf(p, e.threads, e.rpt) && Visited(e, records) && Distinct(addresses)
    requires AllKept(p, e.rpt, addresses, tables, loads, records, |records|)
    requires r in records && Reads(r) && CandidatesVisited(loads, records, r)
    ensures LoadKept(p, e.rpt, addresses, tables, loads, r)
    ensures LoadOk(e, loads[r].0, loads[r].1, addresses)
  {
    RecordKept(p, e.rpt, addresses, tables, loads, records, r);
    MentionedAreOk(p, e, addresses, tables, loads, records, r);
  }

  lemma MentionedAreOk(p: Program, e: Encoding, addresses: seq<nat>, tables: VarTables, loads: Loads,
                       records: seq<EPRecord>, r: EPRecord)
    requires e == EncodingOf(p, e.threads, e.rpt) && Visited(e, records) && r in records && Reads(r)
    requires AllKept(p, e.rpt, addresses, tables, loads, records, |records|) && CandidatesVisited(loads, records, r)
    requires LoadKept(p, e.rpt, addresses, tables, loads, r)
    ensures forall a {:trigger Mentioned(loads[r].0, a)} | Mentioned(loads[r].0, a) ::
      Placed(e, a) && AddressOk(e, loads[r].0, addresses, a)
  {
    var (x, confs) := loads[r];
    forall a {:trigger Mentioned(x, a)} | Mentioned(x, a) ensures Placed(e, a) && AddressOk(e, x, addresses, a) {
      HasVariables(x, confs, a);
      MentionedIsOk(p, e, x, addresses, tables, loads, records, a);
    }
  }

  lemma MentionedIsOk(p: Program, e: Encoding, x: LoadContext, addresses: seq<nat>, tables: VarTables, loads: Loads,
                      records: seq<EPRecord>, a: EPRecord)
    requires e == EncodingOf(p, e.threads, e.rpt) && Visited(e, records)
    requires AllKept(p, e.rpt, addresses, tables, loads, records, |records|) && a in records && a.etype != BRANCHDIR
    requires VectorsOk(x.tables.addr, NumVars(|addresses|)) && a in x.tables.addr
    ensures Placed(e, a) && AddressOk(e, x, addresses, a)
  {
    RecordKept(p, e.rpt, addresses, tables, loads, records, a);
  }

  lemma HasVariables(x: LoadContext, confs: seq<seq<EPRecord>>, a: EPRecord)
    requires LoadKnown(x) && Ready(x, confs, |x.mrf|) && Mentioned(x, a)
    ensures a in x.tables.addr
  {
    if a in x.mrf {
      var s :| 0 <= s < |x.mrf| && x.mrf[s] == a;
      assert Knows(x, s);
    }
  }

  lemma AllClausesPresent(p: Program, e: Encoding, addresses: seq<nat>, tables: VarTables, added: set<Constraint>,
                          loads: Loads, records: seq<EPRecord>, r: EPRecord)
    requires e == EncodingOf(p, e.threads, e.rpt) && Visited(e, records) && AllPresent(added, e.threads, e.rpt)
    requires AllKept(p, e.rpt, addresses, tables, loads, records, |records|)
    requires AllClauses(p, e.rpt, addresses, tables, loads, records, |records|) <= added
    requires r in records && Reads(r) && CandidatesVisited(loads, records, r)
    requires LoadKept(p, e.rpt, addresses, tables, loads, r) && LoadOk(e, loads[r].0, loads[r].1, addresses)
    ensures ClausesPresent(e, loads[r].0, loads[r].1, addresses, added)
  {
    var (x, confs) := loads[r];
    forall q {:trigger BranchOk(e, q)} | q in e.bt && BranchOk(e, q) && !e.bt[q].always
      ensures ParentClause(e.bt, e.recs[q]) in added
    {
      ParentPresent(p, e, addresses, tables, loads, records, e.recs[q]);
    }
    forall a {:trigger Mentioned(x, a)} | Mentioned(x, a) ensures AddressPresent(e, x, addresses, a, added) {
      assert AddressOk(e, x, addresses, a);
      AddressesPresent(p, e, x, addresses, tables, loads, records, a);
    }
    RecordKept(p, e.rpt, addresses, tables, loads, records, r);
  }

  lemma ParentPresent(p: Program, e: Encoding, addresses: seq<nat>, tables: VarTables, loads: Loads,
                      records: seq<EPRecord>, r: EPRecord)
    requires AllKept(p, e.rpt, addresses, tables, loads, records, |records|)
    requires r in records && r.etype == BRANCHDIR && !AlwaysExecuted(r)
    ensures r.ep in p.bt && ExecDefined(p.bt, r)
    ensures ParentClause(p.bt, r) in AllClauses(p, e.rpt, addresses, tables, loads, records, |records|)
  {
    RecordKept(p, e.rpt, addresses, tables, loads, records, r);
  }

  lemma AddressesPresent(p: Program, e: Encoding, x: LoadContext, addresses: seq<nat>, tables: VarTables, loads: Loads,
                         records: seq<EPRecord>, a: EPRecord)
    requires e == EncodingOf(p, e.threads, e.rpt) && AddressOk(e, x, addresses, a)
    requires AllKept(p, e.rpt, addresses, tables, loads, records, |records|) && TablesGrow(x.tables, tables)
    requires a in records && a.etype != BRANCHDIR
    ensures AddressPresent(e, x, addresses, a, AllClauses(p, e.rpt, addresses, tables, loads, records, |records|))
  {
    RecordKept(p, e.rpt, addresses, tables, loads, records, a);
  }

  // ---------------------------------------------------------------- exactly what satisfies the clauses

  /** A load in an assignment: an executed one that has something to read reads the last store; the code of one that is
      not executed names no store, or one that it could read. */
  ghost predicate LoadFollows(x: LoadContext, confs: seq<seq<EPRecord>>, env: Env)
    requires Ready(x, confs, |x.mrf|) && ExecDefined(x.bt, x.load)
  {
    if Executed(x.bt, x.load, env) then x.mrf == [] || ReadsLast(x, env)
    else ReadsBelow(x, confs, |x.mrf|, env)
  }

  /** An operation's address, or a branch's direction, in an assignment: it follows from the value of its source, which
      is vals(r) for the branch r. */
  ghost predicate InputFollows(p: Program, addresses: seq<nat>, tables: VarTables, r: EPRecord, vals: EPRecord -> nat,
                               env: Env) {
    if r.etype == BRANCHDIR then BranchUsable(p, r) && BranchFollows(p.bt, r, p.sources[r], vals(r), env)
    else AccessKept(p, addresses, tables, r) && AddressFollows(addresses, tables.addr[r], r, p.inputs[r], env)
  }

  ghost predicate ReadFollows(p: Program, rpt: RecPairTable, addresses: seq<nat>, tables: VarTables, loads: Loads,
                              r: EPRecord, env: Env) {
    r.etype != BRANCHDIR && Reads(r) ==>
      LoadKept(p, rpt, addresses, tables, loads, r) && LoadFollows(loads[r].0, loads[r].1, env)
  }

  /** The assignment describes an execution: a strict total order, branches and addresses that follow from the values of
      their sources, and loads that read the last store. */
  ghost predicate DescribesExecution(p: Program, e: Encoding, addresses: seq<nat>, tables: VarTables, loads: Loads,
                                     records: seq<EPRecord>, vals: EPRecord -> nat, env: Env)
    requires HasAllPairs(e.threads, e.rpt)
  {
    && StrictTotalOrder(e.threads, e.rpt, env) && AllInputsFollow(p, addresses, tables, records, vals, env)
    && forall r {:trigger ReadFollows(p, e.rpt, addresses, tables, loads, r, env)} | r in records ::
         ReadFollows(p, e.rpt, addresses, tables, loads, r, env)
  }

  ghost predicate AllInputsFollow(p: Program, addresses: seq<nat>, tables: VarTables, records: seq<EPRecord>,
                                  vals: EPRecord -> nat, env: Env) {
    forall r {:trigger InputFollows(p, addresses, tables, r, vals, env)} | r in records ::
      InputFollows(p, addresses, tables, r, vals, env)
  }

  /** The values of the sources, as far as the encoder knows them, are these. */
  ghost predicate SourcesAre(p: Program, records: seq<EPRecord>, vals: EPRecord -> nat, env: Env) {
    forall r {:trigger SourceIs(p, r, vals, env)} | r in records && r.etype == BRANCHDIR :: SourceIs(p, r, vals, env)
  }

  ghost predicate SourceIs(p: Program, r: EPRecord, vals: EPRecord -> nat, env: Env) {
    r in p.sources ==> InputIs(p.sources[r], vals(r), env)
  }

  /** What the results about single loads ask of every load. */
  ghost predicate LoadsSound(e: Encoding, loads: Loads, records: seq<EPRecord>, env: Env) {
    forall r {:trigger LoadSound(e, loads, records, r, env)} | r in records && Reads(r) ::
      LoadSound(e, loads, records, r, env)
  }

  ghost predicate LoadSound(e: Encoding, loads: Loads, records: seq<EPRecord>, r: EPRecord, env: Env) {
    r in loads ==>
      CandidatesVisited(loads, records, r) && SubsumptionSound(e, loads[r].0) && InputsDecode(e, loads[r].0, env)
  }

  /** Soundness and completeness of the whole encoding: an assignment satisfies the clauses in the solver if and only if
      it describes an execution. */
  lemma SolvedExactly(p: Program, e: Encoding, addresses: seq<nat>, tables: VarTables, clauses: seq<seq<int>>,
                      order: set<Constraint>, loads: Loads, records: seq<EPRecord>, vals: EPRecord -> nat, env: Env)
    requires e == EncodingOf(p, e.threads, e.rpt) && Visited(e, records) && OrderClauses(order, e.threads, e.rpt)
    requires AllKept(p, e.rpt, addresses, tables, loads, records, |records|)
    requires Distinct(addresses) && VectorsOk(tables.addr, NumVars(|addresses|))
    requires SourcesAre(p, records, vals, env) && LoadsSound(e, loads, records, env)
    requires Means(clauses, order + AllClauses(p, e.rpt, addresses, tables, loads, records, |records|))
    ensures Satisfies(clauses, env) <==> DescribesExecution(p, e, addresses, tables, loads, records, vals, env)
  {
    AllInBoth(order, AllClauses(p, e.rpt, addresses, tables, loads, records, |records|), env);
    TransClausesMeanTotalOrder(e.threads, e.rpt, {}, order, env);
    SolvedDescribes(p, e, addresses, tables, loads, records, vals, env);
    DescribedSolves(p, e, addresses, tables, loads, records, vals, env);
  }

  lemma SolvedDescribes(p: Program, e: Encoding, addresses: seq<nat>, tables: VarTables, loads: Loads,
                        records: seq<EPRecord>, vals: EPRecord -> nat, env: Env)
    requires e == EncodingOf(p, e.threads, e.rpt) && Visited(e, records)
    requires AllKept(p, e.rpt, addresses, tables, loads, records, |records|)
    requires Distinct(addresses) && VectorsOk(tables.addr, NumVars(|addresses|))
    requires SourcesAre(p, records, vals, env) && LoadsSound(e, loads, records, env)
    ensures AllIn(AllClauses(p, e.rpt, addresses, tables, loads, records, |records|), env)
            && StrictTotalOrder(e.threads, e.rpt, env)
      ==> DescribesExecution(p, e, addresses, tables, loads, records, vals, env)
  {
    if AllIn(AllClauses(p, e.rpt, addresses, tables, loads, records, |records|), env)
       && StrictTotalOrder(e.threads, e.rpt, env) {
      forall r | r in records ensures InputFollows(p, addresses, tables, r, vals, env) {
        InputSolved(p, e, addresses, tables, loads, records, r, vals, env);
      }
      forall r | r in records ensures ReadFollows(p, e.rpt, addresses, tables, loads, r, env) {
        ReadSolved(p, e, addresses, tables, loads, records, r, vals, env);
      }
    }
  }

  lemma DescribedSolves(p: Program, e: Encoding, addresses: seq<nat>, tables: VarTables, loads: Loads,
                        records: seq<EPRecord>, vals: EPRecord -> nat, env: Env)
    requires e == EncodingOf(p, e.threads, e.rpt) && Visited(e, records)
    requires AllKept(p, e.rpt, addresses, tables, loads, records, |records|)
    requires Distinct(addresses) && VectorsOk(tables.addr, NumVars(|addresses|))
    requires SourcesAre(p, records, vals, env) && LoadsSound(e, loads, records, env)
    ensures DescribesExecution(p, e, addresses, tables, loads, records, vals, env)
      ==> AllIn(AllClauses(p, e.rpt, addresses, tables, loads, records, |records|), env)
  {
    if DescribesExecution(p, e, addresses, tables, loads, records, vals, env) {
      forall r | r in records ensures AllIn(ClausesOf(p, e.rpt, addresses, tables, loads, r), env) {
        DescribedHolds(p, e, addresses, tables, loads, records, r, vals, env);
      }
    }
  }

  lemma InputSolved(p: Program, e: Encoding, addresses: seq<nat>, tables: VarTables, loads: Loads,
                    records: seq<EPRecord>, r: EPRecord, vals: EPRecord -> nat, env: Env)
    requires AllKept(p, e.rpt, addresses, tables, loads, records, |records|) && TableOfBranches(p.bt) && r in records
    requires Distinct(addresses) && VectorsOk(tables.addr, NumVars(|addresses|)) && SourcesAre(p, records, vals, env)
    requires AllIn(AllClauses(p, e.rpt, addresses, tables, loads, records, |records|), env)
    ensures InputFollows(p, addresses, tables, r, vals, env)
    ensures LoadKept(p, e.rpt, addresses, tables, loads, r) && r.etype != BRANCHDIR && Reads(r) ==>
      AllIn(LoadClauses(loads[r].0, loads[r].1), env)
  {
    RecordKept(p, e.rpt, addresses, tables, loads, records, r);
    assert r.etype == BRANCHDIR ==> SourceIs(p, r, vals, env);
    RecordSplit(p, e, addresses, tables, loads, r, vals, env);
  }

  lemma ReadSolved(p: Program, e: Encoding, addresses: seq<nat>, tables: VarTables, loads: Loads,
                   records: seq<EPRecord>, r: EPRecord, vals: EPRecord -> nat, env: Env)
    requires e == EncodingOf(p, e.threads, e.rpt) && Visited(e, records) && r in records
    requires AllKept(p, e.rpt, addresses, tables, loads, records, |records|)
    requires Distinct(addresses) && VectorsOk(tables.addr, NumVars(|addresses|))
    requires SourcesAre(p, records, vals, env) && LoadsSound(e, loads, records, env)
    requires AllIn(AllClauses(p, e.rpt, addresses, tables, loads, records, |records|), env)
    requires StrictTotalOrder(e.threads, e.rpt, env) && AllInputsFollow(p, addresses, tables, records, vals, env)
    ensures ReadFollows(p, e.rpt, addresses, tables, loads, r, env)
  {
    RecordKept(p, e.rpt, addresses, tables, loads, records, r);
    InputSolved(p, e, addresses, tables, loads, records, r, vals, env);
    ReadExactly(p, e, addresses, tables, loads, records, r, vals, env);
  }

  lemma DescribedHolds(p: Program, e: Encoding, addresses: seq<nat>, tables: VarTables, loads: Loads,
                       records: seq<EPRecord>, r: EPRecord, vals: EPRecord -> nat, env: Env)
    requires e == EncodingOf(p, e.threads, e.rpt) && Visited(e, records) && r in records
    requires AllKept(p, e.rpt, addresses, tables, loads, records, |records|)
    requires Distinct(addresses) && VectorsOk(tables.addr, NumVars(|addresses|))
    requires SourcesAre(p, records, vals, env) && LoadsSound(e, loads, records, env)
    requires DescribesExecution(p, e, addresses, tables, loads, records, vals, env)
    ensures AllIn(ClausesOf(p, e.rpt, addresses, tables, loads, r), env)
  {
    assert InputFollows(p, addresses, tables, r, vals, env);
    assert ReadFollows(p, e.rpt, addresses, tables, loads, r, env);
    assert r.etype == BRANCHDIR ==> SourceIs(p, r, vals, env);
    RecordKept(p, e.rpt, addresses, tables, loads, records, r);
    ReadExactly(p, e, addresses, tables, loads, records, r, vals, env);
    RecordSplit(p, e, addresses, tables, loads, r, vals, env);
  }

  /** The clauses of a record say what follows from its source, and for a load what it reads. */
  lemma RecordSplit(p: Program, e: Encoding, addresses: seq<nat>, tables: VarTables, loads: Loads, r: EPRecord,
                    vals: EPRecord -> nat, env: Env)
    requires Kept(p, e.rpt, addresses, tables, loads, r) && TableOfBranches(p.bt)
    requires Distinct(addresses) && VectorsOk(tables.addr, NumVars(|addresses|))
    requires r.etype == BRANCHDIR ==> SourceIs(p, r, vals, env)
    ensures AllIn(ClausesOf(p, e.rpt, addresses, tables, loads, r), env)
      <==> InputFollows(p, addresses, tables, r, vals, env)
           && (r.etype != BRANCHDIR && Reads(r) ==> AllIn(LoadClauses(loads[r].0, loads[r].1), env))
  {
    if r.etype == BRANCHDIR {
      BranchExactly(p.bt, r, p.sources[r], vals(r), env);
    } else {
      AddressExactly(addresses, tables.addr[r], r, p.inputs[r], env);
      AllInBoth(if Reads(r) then LoadClauses(loads[r].0, loads[r].1) else {},
                AddressClauses(addresses, tables.addr[r], r, p.inputs[r]), env);
    }
  }

  /** Where the order is strict and total and branches and addresses follow, the clauses of a load say what it reads. */
  lemma ReadExactly(p: Program, e: Encoding, addresses: seq<nat>, tables: VarTables, loads: Loads,
                    records: seq<EPRecord>, r: EPRecord, vals: EPRecord -> nat, env: Env)
    requires e == EncodingOf(p, e.threads, e.rpt) && Visited(e, records)
    requires AllKept(p, e.rpt, addresses, tables, loads, records, |records|)
    requires Distinct(addresses) && VectorsOk(tables.addr, NumVars(|addresses|))
    requires SourcesAre(p, records, vals, env) && LoadsSound(e, loads, records, env) && r in records
    requires StrictTotalOrder(e.threads, e.rpt, env) && AllInputsFollow(p, addresses, tables, records, vals, env)
    ensures r.etype != BRANCHDIR && Reads(r) ==>
      && LoadKept(p, e.rpt, addresses, tables, loads, r)
      && (AllIn(LoadClauses(loads[r].0, loads[r].1), env) <==> LoadFollows(loads[r].0, loads[r].1, env))
  {
    if r.etype != BRANCHDIR && Reads(r) {
      RecordKept(p, e.rpt, addresses, tables, loads, records, r);
      assert LoadSound(e, loads, records, r, env);
      LoadIsOk(p, e, addresses, tables, loads, records, r);
      var (x, confs) := loads[r];
      BranchesFollow(p, e, addresses, tables, records, vals, env);
      AddressesFollow(p, e, addresses, tables, loads, records, r, vals, env);
      LoadClausesMeaning(x, confs, env);
      if Executed(x.bt, x.load, env) && x.mrf != [] {
        LoadClausesExact(e, x, confs, addresses, env);
      }
    }
  }

  lemma BranchesFollow(p: Program, e: Encoding, addresses: seq<nat>, tables: VarTables, records: seq<EPRecord>,
                       vals: EPRecord -> nat, env: Env)
    requires e == EncodingOf(p, e.threads, e.rpt) && Visited(e, records)
    requires AllInputsFollow(p, addresses, tables, records, vals, env)
    ensures BranchesHold(e, env)
  {
    forall q {:trigger ParentHolds(e, q, env)} | q in e.bt && BranchOk(e, q) ensures ParentHolds(e, q, env) {
      assert InputFollows(p, addresses, tables, e.recs[q], vals, env);
      ParentMeaning(e.bt, e.recs[q], env);
    }
  }

  lemma AddressesFollow(p: Program, e: Encoding, addresses: seq<nat>, tables: VarTables, loads: Loads,
                        records: seq<EPRecord>, r: EPRecord, vals: EPRecord -> nat, env: Env)
    requires e == EncodingOf(p, e.threads, e.rpt) && Visited(e, records) && r in records && Reads(r)
    requires LoadKept(p, e.rpt, addresses, tables, loads, r) && CandidatesVisited(loads, records, r)
    requires LoadOk(e, loads[r].0, loads[r].1, addresses) && InputsDecode(e, loads[r].0, env)
    requires Distinct(addresses) && VectorsOk(tables.addr, NumVars(|addresses|))
    requires AllInputsFollow(p, addresses, tables, records, vals, env)
    ensures AddressesDecode(e, loads[r].0, addresses, env)
  {
    var x := loads[r].0;
    forall a {:trigger Mentioned(x, a)} | Mentioned(x, a) ensures AddressHolds(e, x, addresses, a, env) {
      assert InputFollows(p, addresses, tables, a, vals, env) && AddressOk(e, x, addresses, a);
      AddressExactly(addresses, tables.addr[a], a, p.inputs[a], env);
    }
  }
}
