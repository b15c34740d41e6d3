/** The partition of memory operations into store/load sets (constgen.cc). */
module Groupings {
  import opened Encodings
  import opened Records
  import opened ReadFrom
  import opened LoadRFs

  // ---------------------------------------------------------------- chains of operations

  /** Some operation may touch both addresses. */
  ghost predicate Step(ops: set<EPRecord>, a: nat, b: nat) {
    exists op | op in ops :: a in op.addrs && b in op.addrs
  }

  ghost predicate Chain(ops: set<EPRecord>, path: seq<nat>, a: nat, b: nat) {
    && |path| > 0 && path[0] == a && path[|path| - 1] == b
    && forall i | 0 <= i < |path| - 1 :: Step(ops, path[i], path[i + 1])
  }

  /** A chain of operations, each sharing an address with the next, leads from a to b. */
  ghost predicate Linked(ops: set<EPRecord>, a: nat, b: nat) {
    exists path :: Chain(ops, path, a, b)
  }

  lemma LinkedStep(ops: set<EPRecord>, a: nat, b: nat)
    requires Step(ops, a, b)
    ensures Linked(ops, a, b)
  {
    assert Chain(ops, [a, b], a, b);
  }

  lemma LinkedSymmetric(ops: set<EPRecord>, a: nat, b: nat)
    requires Linked(ops, a, b)
    ensures Linked(ops, b, a)
  {
    var path :| Chain(ops, path, a, b);
    var n := |path|;
    var back := seq(n, i requires 0 <= i < n => path[n - 1 - i]);
    forall i | 0 <= i < n - 1 ensures Step(ops, back[i], back[i + 1]) {
      assert Step(ops, path[n - 2 - i], path[n - 2 - i + 1]);
    }
    assert Chain(ops, back, b, a);
  }

  lemma LinkedTransitive(ops: set<EPRecord>, a: nat, b: nat, c: nat)
    requires Linked(ops, a, b) && Linked(ops, b, c)
    ensures Linked(ops, a, c)
  {
    var p :| Chain(ops, p, a, b);
    var q :| Chain(ops, q, b, c);
    var path := p + q[1..];
    forall i | 0 <= i < |path| - 1 ensures Step(ops, path[i], path[i + 1]) {
      if i < |p| - 1 {
        assert Step(ops, p[i], p[i + 1]);
      } else {
        assert Step(ops, q[i - |p| + 1], q[i - |p| + 2]);
      }
    }
    assert Chain(ops, path, a, c);
  }

  lemma LinkedGrows(ops: set<EPRecord>, more: set<EPRecord>, a: nat, b: nat)
    requires Linked(ops, a, b) && ops <= more
    ensures Linked(more, a, b)
  {
    var path :| Chain(ops, path, a, b);
    assert Chain(more, path, a, b);
  }

  // ---------------------------------------------------------------- the partition

  type SetTable = map<nat, StoreLoadSet>
  type Members = map<StoreLoadSet, set<EPRecord>>

  /** Operation r, in set s, is where its addresses are looked up; op and its addresses from i on may
      still be missing. */
  ghost predicate MemberOk(table: SetTable, s: StoreLoadSet, r: EPRecord, op: EPRecord, i: nat)
    requires i <= |op.addrs|
  {
    forall a | a in r.addrs :: (a in table && table[a] == s) || (r == op && a in op.addrs[i..])
  }

  ghost predicate HasAddress(rs: set<EPRecord>, a: nat) {
    exists r | r in rs :: a in r.addrs
  }

  /** Every looked-up set is alive and has an operation for the address. */
  ghost predicate Owned(table: SetTable, members: Members) {
    forall a {:trigger OwnedAt(table, members, a)} | a in table :: OwnedAt(table, members, a)
  }

  ghost predicate OwnedAt(table: SetTable, members: Members, a: nat)
    requires a in table
  {
    table[a] in members && HasAddress(members[table[a]], a)
  }

  ghost predicate MembersOk(table: SetTable, members: Members, ops: set<EPRecord>, op: EPRecord, i: nat)
    requires i <= |op.addrs|
  {
    forall s, r {:trigger MemberOk(table, s, r, op, i)} | s in members && r in members[s] ::
      r in ops && MemberOk(table, s, r, op, i)
  }

  ghost predicate InSomeSet(members: Members, r: EPRecord) {
    exists s | s in members :: r in members[s]
  }

  ghost predicate OpsGrouped(members: Members, ops: set<EPRecord>) {
    forall r {:trigger InSomeSet(members, r)} | r in ops :: InSomeSet(members, r)
  }

  /** What one set holds is linked. */
  ghost predicate SetsLinked(table: SetTable, ops: set<EPRecord>) {
    forall a, b {:trigger Linked(ops, a, b)} | a in table && b in table && table[a] == table[b] :: Linked(ops, a, b)
  }

  /** The partition while op is being grouped and its first i addresses are done. */
  ghost predicate Partial(table: SetTable, members: Members, ops: set<EPRecord>, op: EPRecord, i: nat)
    requires i <= |op.addrs|
  {
    Owned(table, members) && MembersOk(table, members, ops, op, i) && OpsGrouped(members, ops) && SetsLinked(table, ops)
  }

  /** Every operation is looked up in its set by each of its addresses. */
  ghost predicate Partition(table: SetTable, members: Members, ops: set<EPRecord>) {
    && Owned(table, members) && OpsGrouped(members, ops) && SetsLinked(table, ops)
    && (forall s, r | s in members && r in members[s] :: r in ops && forall a | a in r.addrs ::
          a in table && table[a] == s)
  }

  /** Two addresses are looked up in the same set exactly when a chain of operations links them, and
      every operation is in the set of each of its addresses. */
  lemma SameSetMeansLinked(table: SetTable, members: Members, ops: set<EPRecord>)
    requires Partition(table, members, ops)
    ensures forall a, b | a in table && b in table :: table[a] == table[b] <==> Linked(ops, a, b)
    ensures forall op, a | op in ops && a in op.addrs :: a in table && table[a] in members && op in members[table[a]]
  {
    forall a, b | a in table && b in table && Linked(ops, a, b) ensures table[a] == table[b] {
      var path :| Chain(ops, path, a, b);
      ChainStays(table, members, ops, path, a, b);
    }
    forall a, b | a in table && b in table && table[a] == table[b] ensures Linked(ops, a, b) {
    }
    forall op, a | op in ops && a in op.addrs ensures a in table && table[a] in members && op in members[table[a]] {
      InItsSet(table, members, ops, op);
    }
  }

  lemma InItsSet(table: SetTable, members: Members, ops: set<EPRecord>, op: EPRecord)
    requires Partition(table, members, ops) && op in ops
    ensures forall a | a in op.addrs :: a in table && table[a] in members && op in members[table[a]]
    ensures forall a, b | a in op.addrs && b in op.addrs :: table[a] == table[b]
  {
    assert InSomeSet(members, op);
    var s: StoreLoadSet :| s in members && op in members[s];
  }

  lemma {:induction false} ChainStays(table: SetTable, members: Members, ops: set<EPRecord>, path: seq<nat>, a: nat,
                                      b: nat)
    requires Partition(table, members, ops) && a in table && Chain(ops, path, a, b)
    ensures b in table && table[b] == table[a]
    decreases |path|
  {
    if |path| > 1 {
      var n := |path| - 1;
      forall i | 0 <= i < n - 1 ensures Step(ops, path[..n][i], path[..n][i + 1]) {
        assert Step(ops, path[i], path[i + 1]);
      }
      ChainStays(table, members, ops, path[..n], a, path[n - 1]);
      assert Step(ops, path[n - 1], path[n - 1 + 1]);
      var op :| op in ops && path[n - 1] in op.addrs && b in op.addrs;
      InItsSet(table, members, ops, op);
    }
  }

  lemma PartialIsPartition(table: SetTable, members: Members, ops: set<EPRecord>, op: EPRecord)
    requires Partial(table, members, ops, op, |op.addrs|)
    ensures Partition(table, members, ops)
  {
    forall s, r | s in members && r in members[s]
      ensures r in ops && forall a | a in r.addrs :: a in table && table[a] == s
    {
      assert MemberOk(table, s, r, op, |op.addrs|);
    }
  }

  /** The set of op's first address: the one that the address has, or a new one. */
  ghost predicate FirstSetOf(table: SetTable, members: Members, op: EPRecord, isls: StoreLoadSet) {
    && op.addrs != []
    && (if op.addrs[0] in table then isls == table[op.addrs[0]] else isls !in members)
  }

  /** The members when op has entered the set. */
  ghost function Entered(members: Members, op: EPRecord, isls: StoreLoadSet): (m: Members)
    ensures m.Keys == members.Keys + {isls} && op in m[isls]
    ensures forall s | s in members && s != isls :: m[s] == members[s]
    ensures forall s, r | s in members && r in members[s] :: r in m[s]
    ensures forall s, r | s in m && r in m[s] :: (r == op && s == isls) || (s in members && r in members[s])
  {
    members[isls := (if isls in members then members[isls] else {}) + {op}]
  }

  /** The operation enters the set of its first address. */
  lemma FirstAddress(table: SetTable, members: Members, ops: set<EPRecord>, op: EPRecord, isls: StoreLoadSet)
    requires Partition(table, members, ops) && FirstSetOf(table, members, op, isls)
    ensures Partial(table[op.addrs[0] := isls], Entered(members, op, isls), ops + {op}, op, 1)
  {
    FirstOwned(table, members, op, isls);
    FirstMembers(table, members, ops, op, isls);
    FirstGrouped(members, ops, op, isls);
    FirstLinked(table, members, ops, op, isls);
  }

  lemma FirstOwned(table: SetTable, members: Members, op: EPRecord, isls: StoreLoadSet)
    requires Owned(table, members) && FirstSetOf(table, members, op, isls)
    ensures Owned(table[op.addrs[0] := isls], Entered(members, op, isls))
  {
    var now, entered := table[op.addrs[0] := isls], Entered(members, op, isls);
    forall a | a in now ensures OwnedAt(now, entered, a) {
      if a == op.addrs[0] {
        assert op in entered[isls];
      } else {
        assert OwnedAt(table, members, a);
        var r :| r in members[table[a]] && a in r.addrs;
        assert r in entered[now[a]];
      }
    }
  }

  lemma FirstMembers(table: SetTable, members: Members, ops: set<EPRecord>, op: EPRecord, isls: StoreLoadSet)
    requires Partition(table, members, ops) && FirstSetOf(table, members, op, isls)
    ensures MembersOk(table[op.addrs[0] := isls], Entered(members, op, isls), ops + {op}, op, 1)
  {
    var now, entered := table[op.addrs[0] := isls], Entered(members, op, isls);
    assert op.addrs == [op.addrs[0]] + op.addrs[1..];
    forall s, r | s in entered && r in entered[s] ensures r in ops + {op} && MemberOk(now, s, r, op, 1) {
      if s in members && r in members[s] {
        assert forall a | a in r.addrs :: a in table && table[a] == s;
      }
    }
  }

  lemma FirstGrouped(members: Members, ops: set<EPRecord>, op: EPRecord, isls: StoreLoadSet)
    requires OpsGrouped(members, ops)
    ensures OpsGrouped(Entered(members, op, isls), ops + {op})
  {
    var entered := Entered(members, op, isls);
    forall r | r in ops + {op} ensures InSomeSet(entered, r) {
      if r == op {
        assert op in entered[isls];
      } else {
        assert InSomeSet(members, r);
        var s: StoreLoadSet :| s in members && r in members[s];
        assert r in entered[s];
      }
    }
  }

  lemma FirstLinked(table: SetTable, members: Members, ops: set<EPRecord>, op: EPRecord, isls: StoreLoadSet)
    requires Owned(table, members) && SetsLinked(table, ops) && FirstSetOf(table, members, op, isls)
    ensures SetsLinked(table[op.addrs[0] := isls], ops + {op})
  {
    var now, all := table[op.addrs[0] := isls], ops + {op};
    forall a, b | a in now && b in now && now[a] == now[b] ensures Linked(all, a, b) {
      if a == b {
        assert Chain(all, [a], a, b);
      } else {
        FirstSame(table, members, op, isls, a, b);
        assert Linked(ops, a, b);
        LinkedGrows(ops, all, a, b);
      }
    }
  }

  lemma FirstSame(table: SetTable, members: Members, op: EPRecord, isls: StoreLoadSet, a: nat, b: nat)
    requires Owned(table, members) && FirstSetOf(table, members, op, isls) && a != b
    requires var now := table[op.addrs[0] := isls]; a in now && b in now && now[a] == now[b]
    ensures a in table && b in table && table[a] == table[b]
  {
    assert a in table ==> OwnedAt(table, members, a);
    assert b in table ==> OwnedAt(table, members, b);
  }

  /** A further address that no set has yet. */
  lemma NewAddress(table: SetTable, members: Members, ops: set<EPRecord>, op: EPRecord, i: nat, isls: StoreLoadSet)
    requires 0 < i < |op.addrs| && Distinct(op.addrs) && Partial(table, members, ops, op, i) && isls in members
    requires op in members[isls]
    requires op.addrs[0] in table && table[op.addrs[0]] == isls
    requires op.addrs[i] !in table || table[op.addrs[i]] == isls
    ensures Partial(table[op.addrs[i] := isls], members, ops, op, i + 1)
  {
    var c, now := op.addrs[i], table[op.addrs[i] := isls];
    assert MemberOk(table, isls, op, op, i);
    forall a | a in now ensures OwnedAt(now, members, a) {
      assert a in table ==> OwnedAt(table, members, a);
    }
    forall s, r | s in members && r in members[s] ensures r in ops && MemberOk(now, s, r, op, i + 1) {
      assert MemberOk(table, s, r, op, i);
      assert op.addrs[i..] == [c] + op.addrs[i + 1..];
      if r == op && s != isls {
        OnlyOneSet(table, members, ops, op, i, s, isls);
      }
    }
    forall a, b | a in now && b in now && now[a] == now[b] ensures Linked(ops, a, b) {
      assert Step(ops, op.addrs[0], c);
      LinkedStep(ops, op.addrs[0], c);
      LinkedSymmetric(ops, op.addrs[0], c);
      if a == b {
        assert Chain(ops, [a], a, b);
      } else if a == c {
        LinkedTransitive(ops, c, op.addrs[0], b);
      } else if b == c {
        LinkedTransitive(ops, a, op.addrs[0], c);
      }
    }
  }

  lemma OnlyOneSet(table: SetTable, members: Members, ops: set<EPRecord>, op: EPRecord, i: nat, s: StoreLoadSet,
                   isls: StoreLoadSet)
    requires 0 < i <= |op.addrs| && Distinct(op.addrs) && Partial(table, members, ops, op, i) && s in members
    requires op in members[s]
    requires op.addrs[0] in table && table[op.addrs[0]] == isls
    ensures s == isls
  {
    assert MemberOk(table, s, op, op, i);
  }

  /** What mergeSets does to the table. */
  function Redirected(table: SetTable, from: StoreLoadSet, to: StoreLoadSet): (t: SetTable)
    ensures t.Keys == table.Keys
  {
    map a | a in table :: if table[a] == from then to else table[a]
  }

  ghost function Joined(members: Members, from: StoreLoadSet, to: StoreLoadSet): Members
    requires from in members && to in members
  {
    map s: StoreLoadSet | s in members.Keys && s != from :: if s == to then members[to] + members[from] else members[s]
  }

  /** A further address that another set has: after the merge the address is done. */
  lemma MergedAddress(table: SetTable, members: Members, ops: set<EPRecord>, op: EPRecord, i: nat, isls: StoreLoadSet,
                      sls: StoreLoadSet)
    requires 0 < i < |op.addrs| && Distinct(op.addrs) && Partial(table, members, ops, op, i)
    requires isls in members && op in members[isls] && op.addrs[0] in table && table[op.addrs[0]] == isls
    requires op.addrs[i] in table && table[op.addrs[i]] == sls && sls != isls
    ensures sls in members && Partial(Redirected(table, sls, isls), Joined(members, sls, isls), ops, op, i + 1)
  {
    var now, joined := Redirected(table, sls, isls), Joined(members, sls, isls);
    assert OwnedAt(table, members, op.addrs[i]) && MemberOk(table, isls, op, op, i);
    MergedMembers(table, members, ops, op, i, isls, sls);
    assert Owned(now, joined) by {
      forall a | a in now ensures OwnedAt(now, joined, a) {
        assert OwnedAt(table, members, a);
        var r :| r in members[table[a]] && a in r.addrs;
        assert r in joined[now[a]];
      }
    }
    assert OpsGrouped(joined, ops) by {
      forall r | r in ops ensures InSomeSet(joined, r) {
        assert InSomeSet(members, r);
        var s: StoreLoadSet :| s in members && r in members[s];
        assert r in joined[if s == sls then isls else s];
      }
    }
    MergedLinked(table, ops, op, i, isls, sls);
  }

  lemma MergedMembers(table: SetTable, members: Members, ops: set<EPRecord>, op: EPRecord, i: nat, isls: StoreLoadSet,
                      sls: StoreLoadSet)
    requires 0 < i < |op.addrs| && Distinct(op.addrs) && Partial(table, members, ops, op, i)
    requires isls in members && op.addrs[0] in table && table[op.addrs[0]] == isls
    requires op.addrs[i] in table && table[op.addrs[i]] == sls && sls != isls && sls in members
    ensures MembersOk(Redirected(table, sls, isls), Joined(members, sls, isls), ops, op, i + 1)
  {
    var now, joined := Redirected(table, sls, isls), Joined(members, sls, isls);
    forall s, r | s in joined && r in joined[s] ensures r in ops && MemberOk(now, s, r, op, i + 1) {
      var was := if r in members[s] then s else sls;
      assert MemberOk(table, was, r, op, i);
      assert op.addrs[i..] == [op.addrs[i]] + op.addrs[i + 1..];
      if r == op {
        OnlyOneSet(table, members, ops, op, i, was, isls);
      }
    }
  }

  lemma MergedLinked(table: SetTable, ops: set<EPRecord>, op: EPRecord, i: nat, isls: StoreLoadSet, sls: StoreLoadSet)
    requires 0 < i < |op.addrs| && op in ops && SetsLinked(table, ops)
    requires op.addrs[0] in table && table[op.addrs[0]] == isls && op.addrs[i] in table && table[op.addrs[i]] == sls
    ensures SetsLinked(Redirected(table, sls, isls), ops)
  {
    var now, x, y := Redirected(table, sls, isls), op.addrs[0], op.addrs[i];
    assert Step(ops, x, y);
    LinkedStep(ops, x, y);
    LinkedSymmetric(ops, x, y);
    forall a, b | a in now && b in now && now[a] == now[b] ensures Linked(ops, a, b) {
      if table[a] != table[b] {
        var p, q := if table[a] == isls then x else y, if table[a] == isls then y else x;
        LinkedTransitive(ops, a, p, q);
        LinkedTransitive(ops, a, q, b);
      }
    }
  }

  /** Every address of these operations is looked up in the set. */
  ghost predicate AllLookedUp(table: SetTable, rs: set<EPRecord>, s: StoreLoadSet) {
    forall r | r in rs :: forall a | a in r.addrs :: a in table && table[a] == s
  }

  lemma OthersDone(table: SetTable, members: Members, ops: set<EPRecord>, op: EPRecord, i: nat, isls: StoreLoadSet,
                   sls: StoreLoadSet)
    requires 0 < i <= |op.addrs| && Distinct(op.addrs) && Partial(table, members, ops, op, i) && sls in members
    requires sls != isls
    requires op.addrs[0] in table && table[op.addrs[0]] == isls
    ensures AllLookedUp(table, members[sls], sls)
  {
    forall r, a | r in members[sls] && a in r.addrs ensures a in table && table[a] == sls {
      assert MemberOk(table, sls, r, op, i);
      if r == op {
        OnlyOneSet(table, members, ops, op, i, sls, isls);
      }
    }
  }

  lemma MovedAll(before: SetTable, now: SetTable, members: Members, from: StoreLoadSet, to: StoreLoadSet,
                 done: seq<EPRecord>)
    requires Owned(before, members) && from in members && Elements(done) == members[from]
    requires Moving(before, now, from, to, done)
    ensures now == Redirected(before, from, to)
  {
    forall a | a in before ensures now[a] == if before[a] == from then to else before[a] {
      if before[a] == from {
        assert OwnedAt(before, members, a);
        var r :| r in members[from] && a in r.addrs;
        assert r in done;
      }
    }
  }

  // ---------------------------------------------------------------- the operations

  /** The part of ConstGen that groups operations. */
  class Grouping {
    var storeloadtable: SetTable
    ghost var members: Members      // the sets that are alive, and what they hold
    ghost var ops: set<EPRecord>    // what has been grouped

    constructor ()
      ensures Valid() && storeloadtable == map[] && ops == {}
    {
      storeloadtable, members, ops := map[], map[], {};
    }

    /** Each live set holds its members, their addresses and the values they may write. */
    ghost predicate SetsValid()
      reads this, members.Keys
    {
      forall s: StoreLoadSet | s in members :: Holds(s, members[s])
    }

    ghost predicate Valid()
      reads this, members.Keys
    {
      SetsValid() && Partition(storeloadtable, members, ops)
    }

    /** The first i addresses of op are grouped, in the set isls. */
    ghost predicate InProgress(op: EPRecord, i: int, isls: StoreLoadSet)
      reads this, members.Keys
    {
      && 0 < i <= |op.addrs|
      && SetsValid() && Partial(storeloadtable, members, ops, op, i)
      && isls in members && op in members[isls]
      && op.addrs[0] in storeloadtable && storeloadtable[op.addrs[0]] == isls
    }

    /** groupMemoryOperations. */
    method GroupMemoryOperations(op: EPRecord)
      requires Valid() && op.addrs != [] && Distinct(op.addrs)
      modifies this, members.Keys
      ensures Valid() && ops == old(ops) + {op}
      ensures fresh(members.Keys - old(members.Keys))
    {
      var isls := FirstSet(op);
      ghost var grouped := ops;
      var i := 1;
      while i < |op.addrs|
        invariant InProgress(op, i, isls) && ops == grouped
        invariant fresh(members.Keys - old(members.Keys))
      {
        NextAddress(op, i, isls);
        i := i + 1;
      }
      PartialIsPartition(storeloadtable, members, ops, op);
    }

    /** The first address: its set is made if need be, and takes the operation. */
    method FirstSet(op: EPRecord) returns (isls: StoreLoadSet)
      requires Valid() && op.addrs != []
      modifies this, members.Keys
      ensures InProgress(op, 1, isls) && ops == old(ops) + {op}
      ensures fresh(members.Keys - old(members.Keys))
    {
      ghost var was;
      ghost var table := storeloadtable;
      isls, was := SetFor(op.addrs[0]);
      FirstAddress(table, members, ops, op, isls);
      assert storeloadtable == table[op.addrs[0] := isls];
      AddTo(isls, op, was);
      members := Entered(members, op, isls);
      ops := ops + {op};
    }

    /** The set of an address, and what it holds; a new set if there is none. */
    method SetFor(iaddr: nat) returns (isls: StoreLoadSet, ghost was: set<EPRecord>)
      requires SetsValid() && Owned(storeloadtable, members)
      modifies this`storeloadtable
      ensures storeloadtable == old(storeloadtable)[iaddr := isls] && SetsValid()
      ensures iaddr in old(storeloadtable) ==> isls == old(storeloadtable)[iaddr] && isls in members
      ensures iaddr !in old(storeloadtable) ==> fresh(isls)
      ensures was == (if isls in members then members[isls] else {}) && Holds(isls, was)
    {
      if iaddr in storeloadtable {
        assert OwnedAt(storeloadtable, members, iaddr);
        isls := storeloadtable[iaddr];
      } else {
        isls := new StoreLoadSet();
        storeloadtable := storeloadtable[iaddr := isls];
      }
      was := if isls in members then members[isls] else {};
    }

    /** A further address: it joins the first address's set, with all of its own set. */
    method NextAddress(op: EPRecord, i: nat, isls: StoreLoadSet)
      requires InProgress(op, i, isls) && i < |op.addrs| && Distinct(op.addrs)
      modifies this, members.Keys
      ensures InProgress(op, i + 1, isls) && ops == old(ops) && members.Keys <= old(members.Keys)
    {
      var addr := op.addrs[i];
      if addr !in storeloadtable {
        NewAddress(storeloadtable, members, ops, op, i, isls);
        storeloadtable := storeloadtable[addr := isls];
      } else if storeloadtable[addr] != isls {
        var sls := storeloadtable[addr];
        MergedAddress(storeloadtable, members, ops, op, i, isls, sls);
        OthersDone(storeloadtable, members, ops, op, i, isls, sls);
        MergeSets(isls, sls);
      } else {
        NewAddress(storeloadtable, members, ops, op, i, isls);
        assert storeloadtable[addr := isls] == storeloadtable;
      }
    }

    /** The inner loop of mergeSets. */
    method Redirect(to: StoreLoadSet, from: StoreLoadSet, rec: EPRecord, ghost done: seq<EPRecord>,
                    ghost before: SetTable)
      requires Moving(before, storeloadtable, from, to, done)
      requires forall a | a in rec.addrs :: a in before && before[a] == from
      modifies this`storeloadtable
      ensures Moving(before, storeloadtable, from, to, done + [rec])
    {
      var k := 0;
      while k < |rec.addrs|
        invariant 0 <= k <= |rec.addrs|
        invariant Moving(before, storeloadtable, from, to, done)
        invariant forall j | 0 <= j < k :: rec.addrs[j] in storeloadtable && storeloadtable[rec.addrs[j]] == to
      {
        storeloadtable := storeloadtable[rec.addrs[k] := to];
        k := k + 1;
      }
    }

    /** mergeSets: from's operations and addresses go to the other set, and from is deleted. */
    method MergeSets(to: StoreLoadSet, from: StoreLoadSet)
      requires SetsValid() && to in members && from in members && to != from
      requires Owned(storeloadtable, members) && AllLookedUp(storeloadtable, members[from], from)
      modifies this`storeloadtable, this`members, to
      ensures SetsValid() && storeloadtable == Redirected(old(storeloadtable), from, to)
      ensures members == Joined(old(members), from, to)
    {
      MoveRecords(to, from, members[to]);
      MovedAll(old(storeloadtable), storeloadtable, members, from, to, from.storeloadset);
      members := Joined(members, from, to);
    }

    /** The outer loop of mergeSets. */
    method MoveRecords(to: StoreLoadSet, from: StoreLoadSet, ghost had: set<EPRecord>)
      requires to != from && Holds(to, had)
      requires AllLookedUp(storeloadtable, Elements(from.storeloadset), from)
      modifies this`storeloadtable, to
      ensures Holds(to, had + Elements(from.storeloadset))
      ensures Moving(old(storeloadtable), storeloadtable, from, to, from.storeloadset)
    {
      var n := 0;
      var recs := from.storeloadset;
      assert had + Elements(recs[..0]) == had;
      while n < |recs|
        invariant 0 <= n <= |recs|
        invariant Holds(to, had + Elements(recs[..n]))
        invariant Moving(old(storeloadtable), storeloadtable, from, to, recs[..n])
      {
        AddTo(to, recs[n], had + Elements(recs[..n]));
        Redirect(to, from, recs[n], recs[..n], old(storeloadtable));
        assert recs[..n] + [recs[n]] == recs[..n + 1];
        assert had + Elements(recs[..n]) + {recs[n]} == had + Elements(recs[..n + 1]);
        n := n + 1;
      }
      assert recs[..n] == recs;
    }
  }

  function Elements(s: seq<EPRecord>): set<EPRecord> {
    set r | r in s
  }

  ghost predicate MayWrite(rs: set<EPRecord>, v: nat) {
    exists r | r in rs :: Writes(r) && v in r.storevals
  }

  /** Exactly these operations, their addresses and what they may write. */
  ghost predicate Holding(storeloadset: seq<EPRecord>, addresses: seq<nat>, values: seq<nat>, rs: set<EPRecord>) {
    && Elements(storeloadset) == rs
    && (forall a :: a in addresses <==> HasAddress(rs, a))
    && (forall v :: v in values <==> MayWrite(rs, v))
  }

  ghost predicate Holds(s: StoreLoadSet, rs: set<EPRecord>)
    reads s
  {
    Holding(s.storeloadset, s.addresses, s.values, rs)
  }

  lemma HasAddressAdded(rs: set<EPRecord>, op: EPRecord, a: nat)
    ensures HasAddress(rs + {op}, a) <==> HasAddress(rs, a) || a in op.addrs
    ensures MayWrite(rs + {op}, a) <==> MayWrite(rs, a) || (Writes(op) && a in op.storevals)
  {
    if HasAddress(rs, a) {
      var r :| r in rs && a in r.addrs;
      assert r in rs + {op};
    }
    if MayWrite(rs, a) {
      var r :| r in rs && Writes(r) && a in r.storevals;
      assert r in rs + {op};
    }
    assert op in rs + {op};
  }

  lemma HoldingAdded(storeloadset: seq<EPRecord>, addresses: seq<nat>, values: seq<nat>, rs: set<EPRecord>,
                     op: EPRecord)
    requires Holding(storeloadset, addresses, values, rs)
    ensures Holding(AddNew(storeloadset, op), AddAllNats(addresses, op.addrs),
                    if Writes(op) then AddAllNats(values, op.storevals) else values, rs + {op})
  {
    forall a: nat ensures a in AddAllNats(addresses, op.addrs) <==> HasAddress(rs + {op}, a) {
      HasAddressAdded(rs, op, a);
    }
    var now := if Writes(op) then AddAllNats(values, op.storevals) else values;
    forall v: nat ensures v in now <==> MayWrite(rs + {op}, v) {
      HasAddressAdded(rs, op, v);
    }
  }

  /** StoreLoadSet::add, on what the set holds. */
  method AddTo(s: StoreLoadSet, op: EPRecord, ghost rs: set<EPRecord>)
    requires Holds(s, rs)
    modifies s`storeloadset, s`addresses, s`values
    ensures Holds(s, rs + {op})
  {
    HoldingAdded(s.storeloadset, s.addresses, s.values, rs, op);
    s.Add(op);
  }

  /** The table while a set's operations move to another. */
  ghost predicate Moving(before: SetTable, now: SetTable, from: StoreLoadSet, to: StoreLoadSet, done: seq<EPRecord>) {
    && now.Keys == before.Keys
    && (forall a | a in before :: now[a] == before[a] || (before[a] == from && now[a] == to))
    && (forall r, a | r in done && a in r.addrs :: a in now && now[a] == to)
  }
}
