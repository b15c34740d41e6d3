/** Which stores a load may read from, and which of them may come between (constgen.cc). */
module ReadFrom {
  import opened Encodings
  import opened ExecPoints
  import opened Records
  import opened ConstGens

  // ---------------------------------------------------------------- may-read-from sets

  /** The execution's table of stores by address. */
  type StoreTable = map<nat, seq<EPRecord>>

  /** The store can be read as far as program order goes. */
  predicate MayPrecede(store: EPRecord, load: EPRecord) {
    store.Tid() != load.Tid() || CompareRecords(store, load) == After
  }

  /** HashSet::add: nothing happens when the element is present. */
  function AddNew(s: seq<EPRecord>, r: EPRecord): (t: seq<EPRecord>)
    ensures Distinct(s) ==> Distinct(t)
    ensures forall x :: x in t <==> x in s || x == r
  {
    if r in s then s else s + [r]
  }

  /** getMayReadFromSet, first computation, for a load with several addresses. */
  method GetMayReadFromSet(table: StoreTable, load: EPRecord) returns (srs: seq<EPRecord>)
    ensures Distinct(srs)
    ensures forall s :: s in srs <==> MayPrecede(s, load) && exists a | a in load.addrs :: a in table && s in table[a]
  {
    srs := [];
    var i := 0;
    while i < |load.addrs|
      invariant 0 <= i <= |load.addrs| && Distinct(srs)
      invariant forall s :: s in srs <==> MayPrecede(s, load) && exists a | a in load.addrs[..i] ::
        a in table && s in table[a]
    {
      var addr := load.addrs[i];
      assert load.addrs[..i + 1] == load.addrs[..i] + [addr];
      if addr in table {
        ghost var start := srs;
        var j := 0;
        while j < |table[addr]|
          invariant 0 <= j <= |table[addr]| && Distinct(srs)
          invariant forall s :: s in srs <==> s in start || (MayPrecede(s, load) && s in table[addr][..j])
        {
          var rec := table[addr][j];
          assert table[addr][..j + 1] == table[addr][..j] + [rec];
          if MayPrecede(rec, load) {
            srs := AddNew(srs, rec);
          }
          j := j + 1;
        }
        assert table[addr][..j] == table[addr];
      }
      i := i + 1;
    }
    assert load.addrs[..i] == load.addrs;
  }

  /** A store of the load's thread that surely writes the load's only address before it. */
  predicate SureStore(store: EPRecord, load: EPRecord) {
    && store.Tid() == load.Tid() && AlwaysExecuted(store) && |store.addrs| == 1
    && CompareRecords(store, load) == After
  }

  /** The latest sure store among the first n, as the first loop finds it. */
  function LatestSure(rs: seq<EPRecord>, load: EPRecord, n: nat): (latest: Option<EPRecord>)
    requires n <= |rs|
    ensures latest.Some? ==> latest.value in rs && SureStore(latest.value, load)
    ensures latest.None? ==> forall i | 0 <= i < n :: !SureStore(rs[i], load)
  {
    if n == 0 then None
    else
      var before := LatestSure(rs, load, n - 1);
      if SureStore(rs[n - 1], load) && (before.None? || CompareRecords(before.value, rs[n - 1]) == After)
      then Some(rs[n - 1]) else before
  }

  /** What the second loop keeps. */
  predicate KeptStore(store: EPRecord, load: EPRecord, latest: Option<EPRecord>) {
    || store.Tid() != load.Tid()
    || (CompareRecords(store, load) == After
        && (latest.None? || CompareRecords(store, latest.value) != After))
  }

  /** What recording provides: points of one thread have the same kinds as far as they agree, and a record that is
      always executed sits in no branch. */
  ghost predicate PointsOk(rs: seq<EPRecord>) {
    && (forall a, b {:trigger SameKinds(a, b)} | a in rs && b in rs && a.Tid() == b.Tid() :: SameKinds(a, b))
    && forall a {:trigger InNoBranch(a)} | a in rs && AlwaysExecuted(a) :: InNoBranch(a)
  }

  ghost predicate SameKinds(a: EPRecord, b: EPRecord) {
    ExecPoints.Consistent(a.ep.pairs, b.ep.pairs)
  }

  predicate InNoBranch(a: EPRecord) {
    forall i | 0 <= i < |a.ep.pairs| :: a.ep.pairs[i].kind != EP_BRANCH
  }

  lemma AfterTransitive(a: EPRecord, b: EPRecord, c: EPRecord)
    requires SameKinds(a, b) && SameKinds(b, c)
    requires CompareRecords(a, b) == After && CompareRecords(b, c) == After
    ensures CompareRecords(a, c) == After
  {
    LaterIsAfter(a.ep.pairs, b.ep.pairs);
    LaterIsAfter(b.ep.pairs, c.ep.pairs);
    LaterTransitive(a.ep.pairs, b.ep.pairs, c.ep.pairs);
    LaterIsAfter(a.ep.pairs, c.ep.pairs);
  }

  /** No sure store of the first n is after the latest one. */
  lemma {:induction false} LatestIsLast(rs: seq<EPRecord>, load: EPRecord, n: nat, i: nat)
    requires PointsOk(rs) && i < n <= |rs| && SureStore(rs[i], load)
    ensures LatestSure(rs, load, n).Some? && CompareRecords(LatestSure(rs, load, n).value, rs[i]) != After
    decreases n
  {
    if i < n - 1 {
      var before := LatestSure(rs, load, n - 1);
      LatestIsLast(rs, load, n - 1, i);
      if SureStore(rs[n - 1], load) && CompareRecords(rs[n - 1], rs[i]) == After
        && CompareRecords(before.value, rs[n - 1]) == After {
        assert SameKinds(before.value, rs[n - 1]) && SameKinds(rs[n - 1], rs[i]);
        AfterTransitive(before.value, rs[n - 1], rs[i]);
      }
    } else {
      CompareSkip(rs[i].ep.pairs, rs[i].ep.pairs, 0, |rs[i].ep.pairs|);
    }
  }

  /** Of two sure stores, one is before the other or they have the same point. */
  lemma SureComparable(rs: seq<EPRecord>, load: EPRecord, a: EPRecord, b: EPRecord)
    requires PointsOk(rs) && a in rs && b in rs && SureStore(a, load) && SureStore(b, load)
    requires CompareRecords(a, b) != After
    ensures a.ep.pairs == b.ep.pairs || CompareRecords(b, a) == After
  {
    assert SameKinds(a, b) && InNoBranch(a);
    CompareAntisymmetric(a.ep.pairs, b.ep.pairs);
    CompareAtDifference(a.ep.pairs, b.ep.pairs);
  }

  /** A store of the load's thread is kept exactly when it is before the load and no sure store comes in between. */
  lemma KeptExactly(rs: seq<EPRecord>, load: EPRecord, s: EPRecord)
    requires PointsOk(rs) && s in rs
    ensures KeptStore(s, load, LatestSure(rs, load, |rs|))
      <==> s.Tid() != load.Tid() || (CompareRecords(s, load) == After
                                     && forall l | l in rs && SureStore(l, load) :: CompareRecords(s, l) != After)
  {
    var latest := LatestSure(rs, load, |rs|);
    if s.Tid() == load.Tid() && KeptStore(s, load, latest) {
      forall l | l in rs && SureStore(l, load) ensures CompareRecords(s, l) != After {
        var i :| 0 <= i < |rs| && rs[i] == l;
        LatestIsLast(rs, load, |rs|, i);
        SureComparable(rs, load, latest.value, l);
        if CompareRecords(s, l) == After && latest.value.ep.pairs != l.ep.pairs {
          assert SameKinds(s, l) && SameKinds(l, latest.value);
          AfterTransitive(s, l, latest.value);
        }
      }
    }
  }

  /** getMayReadFromSetOpt, for a load with one address. */
  method GetMayReadFromSetOpt(table: StoreTable, load: EPRecord) returns (srs: seq<EPRecord>)
    requires |load.addrs| == 1 && load.addrs[0] in table
    ensures Distinct(srs)
    ensures var rs := table[load.addrs[0]];
      forall s :: s in srs <==> s in rs && KeptStore(s, load, LatestSure(rs, load, |rs|))
  {
    var rs := table[load.addrs[0]];
    var latest: Option<EPRecord> := None;
    var i := 0;
    while i < |rs|
      invariant 0 <= i <= |rs| && latest == LatestSure(rs, load, i)
    {
      var store := rs[i];
      if SureStore(store, load) && (latest.None? || CompareRecords(latest.value, store) == After) {
        latest := Some(store);
      }
      i := i + 1;
    }
    srs := [];
    i := 0;
    while i < |rs|
      invariant 0 <= i <= |rs| && Distinct(srs)
      invariant forall s :: s in srs <==> s in rs[..i] && KeptStore(s, load, latest)
    {
      var store := rs[i];
      assert rs[..i + 1] == rs[..i] + [store];
      if store.Tid() == load.Tid() {
        if CompareRecords(store, load) == After && (latest.None? || CompareRecords(store, latest.value) != After) {
          srs := AddNew(srs, store);
        }
      } else {
        srs := AddNew(srs, store);
      }
      i := i + 1;
    }
    assert rs[..i] == rs;
  }

  // ---------------------------------------------------------------- pruning conflicting stores

  /** One possible outcome: an order, which records are executed, and which stores write the
      address that the load reads. */
  datatype World = World(before: (EPRecord, EPRecord) -> bool, exec: EPRecord -> bool, touches: EPRecord -> bool)

  /** The arguments of computeConflictSet, and the only address both records may use. */
  datatype Query = Query(rpt: RecPairTable, store: EPRecord, load: EPRecord, base: seq<EPRecord>, common: nat)

  /** The records that the query compares. */
  predicate Involved(q: Query, r: EPRecord) {
    r == q.store || r == q.load || r in q.base
  }

  ghost predicate QueryValid(q: Query) {
    forall a, b | Involved(q, a) && Involved(q, b) && a.Tid() != b.Tid() :: HasPair(q.rpt, a, b)
  }

  /** subsumesExecutionConstraint: k's innermost branch direction also encloses c, and everything
      that may skip k comes before c in its thread. What skips k is in no order table: for a skip in another
      thread the source fails an assertion, and here the answer is false. */
  predicate Subsumes(k: EPRecord, c: EPRecord) {
    && (k.branches == [] || k.branches[0] in c.branches)
    && forall i | 0 <= i < |k.skippedBy| ::
         k.skippedBy[i].ep.tid == c.Tid() && Compare(k.skippedBy[i].ep.pairs, c.ep.pairs) == After
  }

  /** The store can only write the common address. */
  predicate OnlyCommon(q: Query, r: EPRecord) {
    |r.addrs| == 1 && r.addrs[0] == q.common
  }

  predicate SurelyBefore(q: Query, a: EPRecord, b: EPRecord)
    requires QueryValid(q) && Involved(q, a) && Involved(q, b)
  {
    OrderConstraint(q.rpt, a, b).True?
  }

  /** The outcome respects the constant orders, is transitive on what is executed, and executes
      what subsumption says; stores with only the common address write what the load reads. */
  ghost predicate Consistent(q: Query, w: World)
    requires QueryValid(q)
  {
    && w.exec(q.store) && w.exec(q.load)
    && (forall a, b | Involved(q, a) && Involved(q, b) && SurelyBefore(q, a, b) :: w.before(a, b))
    && (forall a, b, c | Involved(q, a) && Involved(q, b) && Involved(q, c) && w.exec(a) && w.exec(b) && w.exec(c)
          && w.before(a, b) && w.before(b, c) :: w.before(a, c))
    && (forall k, c | k in q.base && c in q.base && Subsumes(k, c) && w.exec(c) :: w.exec(k))
    && (forall k | k in q.base && OnlyCommon(q, k) && w.exec(k) :: w.touches(k))
  }

  /** An executed store to the load's address strictly between the store and the load. */
  predicate Violates(q: Query, w: World, c: EPRecord) {
    w.exec(c) && w.touches(c) && w.before(q.store, c) && w.before(c, q.load)
  }

  ghost predicate HasViolator(q: Query, w: World, stores: seq<EPRecord>) {
    exists c :: c in stores && Violates(q, w, c)
  }

  /** Every consistent outcome with a violator in the base set has one in cur. */
  ghost predicate Keeps(q: Query, cur: seq<EPRecord>)
    requires QueryValid(q)
  {
    forall w: World | Consistent(q, w) && HasViolator(q, w, q.base) :: HasViolator(q, w, cur)
  }

  /** k makes c redundant from the store's side: store < k < c surely. */
  predicate WitnessAfterStore(q: Query, c: EPRecord, k: EPRecord)
    requires QueryValid(q) && Involved(q, c) && Involved(q, k)
  {
    SurelyBefore(q, q.store, k) && SurelyBefore(q, k, c) && OnlyCommon(q, k) && Subsumes(k, c)
  }

  /** k makes c redundant from the load's side: c < k < load surely. */
  predicate WitnessBeforeLoad(q: Query, c: EPRecord, k: EPRecord)
    requires QueryValid(q) && Involved(q, c) && Involved(q, k)
  {
    SurelyBefore(q, c, k) && SurelyBefore(q, k, q.load) && OnlyCommon(q, k) && Subsumes(k, c)
  }

  /** A record is never surely before itself. */
  lemma NotBeforeItself(q: Query, c: EPRecord)
    requires QueryValid(q) && Involved(q, c)
    ensures !SurelyBefore(q, c, c)
  {
    CompareSkip(c.ep.pairs, c.ep.pairs, 0, |c.ep.pairs|);
  }

  /** Removing a store that a remaining store makes redundant loses no outcome's violator, even
      though that witness may be removed later. */
  lemma PruneStep(q: Query, cur: seq<EPRecord>, i: nat, k: EPRecord)
    requires QueryValid(q) && i < |cur| && (forall r | r in cur :: r in q.base) && k in cur
    requires WitnessAfterStore(q, cur[i], k) || WitnessBeforeLoad(q, cur[i], k)
    requires Keeps(q, cur)
    ensures Keeps(q, cur[..i] + cur[i + 1..])
  {
    var rest := cur[..i] + cur[i + 1..];
    NotBeforeItself(q, cur[i]);
    assert k in rest by {
      var j :| 0 <= j < |cur| && cur[j] == k;
      assert rest[if j < i then j else j - 1] == k;
    }
    forall w: World | Consistent(q, w) && HasViolator(q, w, q.base) ensures HasViolator(q, w, rest) {
      assert HasViolator(q, w, cur);
      var c :| c in cur && Violates(q, w, c);
      if c == cur[i] {
        assert w.exec(k) && w.touches(k);
        assert Violates(q, w, k);
      } else {
        var j :| 0 <= j < |cur| && cur[j] == c;
        assert rest[if j < i then j else j - 1] == c;
      }
    }
  }

  /** The number of addresses that both records may use, and the last of them. */
  method CommonAddress(store: EPRecord, load: EPRecord) returns (numaddr: nat, commonaddr: nat)
    ensures numaddr == |CommonAddrs(store, load)|
    ensures numaddr > 0 ==> commonaddr == CommonAddrs(store, load)[numaddr - 1]
  {
    numaddr, commonaddr := 0, 0;
    var i := 0;
    while i < |store.addrs|
      invariant 0 <= i <= |store.addrs|
      invariant numaddr == |Shared(store.addrs[..i], load.addrs)|
      invariant numaddr > 0 ==> commonaddr == Shared(store.addrs[..i], load.addrs)[numaddr - 1]
    {
      var addr := store.addrs[i];
      assert store.addrs[..i + 1][..i] == store.addrs[..i];
      if addr in load.addrs {
        commonaddr := addr;
        numaddr := numaddr + 1;
      }
      i := i + 1;
    }
    assert store.addrs[..i] == store.addrs;
  }

  function Shared(a: seq<nat>, b: seq<nat>): (s: seq<nat>)
    ensures forall x :: x in s <==> x in a && x in b
  {
    if a == [] then []
    else
      var x := a[|a| - 1];
      assert a == a[..|a| - 1] + [x];
      Shared(a[..|a| - 1], b) + if x in b then [x] else []
  }

  function CommonAddrs(store: EPRecord, load: EPRecord): seq<nat> {
    Shared(store.addrs, load.addrs)
  }

  /** What computeConflictSet accepts as a witness. */
  predicate MakesRedundant(q: Query, c: EPRecord, k: EPRecord)
    requires QueryValid(q) && Involved(q, c) && Involved(q, k)
  {
    || (SurelyBefore(q, q.store, c) && WitnessAfterStore(q, c, k))
    || (SurelyBefore(q, c, q.load) && WitnessBeforeLoad(q, c, k))
  }

  /** No store of the list makes another one redundant. */
  ghost predicate NoneRedundant(q: Query, cur: seq<EPRecord>, n: int)
    requires QueryValid(q) && n <= |cur| && forall r | r in cur :: r in q.base
  {
    forall i, j | 0 <= i < n && 0 <= j < |cur| :: !MakesRedundant(q, cur[i], cur[j])
  }

  /** Search for a store that makes c redundant, in the set as it is now. */
  method FindWitness(q: Query, cur: seq<EPRecord>, c: EPRecord) returns (prune: bool, ghost k: EPRecord)
    requires QueryValid(q) && c in cur && forall r | r in cur :: r in q.base
    ensures prune ==> k in cur && MakesRedundant(q, c, k)
    ensures !prune ==> forall r | r in cur :: !MakesRedundant(q, c, r)
  {
    prune, k := false, c;
    var conflictafterstore := SurelyBefore(q, q.store, c);
    var conflictbeforeload := SurelyBefore(q, c, q.load);
    if conflictafterstore {
      var j := 0;
      while j < |cur|
        invariant 0 <= j <= |cur|
        invariant forall l | 0 <= l < j :: !WitnessAfterStore(q, c, cur[l])
      {
        if WitnessAfterStore(q, c, cur[j]) {
          return true, cur[j];
        }
        j := j + 1;
      }
    }
    if conflictbeforeload {
      var j := 0;
      while j < |cur|
        invariant 0 <= j <= |cur|
        invariant forall l | 0 <= l < j :: !WitnessBeforeLoad(q, c, cur[l])
      {
        if WitnessBeforeLoad(q, c, cur[j]) {
          return true, cur[j];
        }
        j := j + 1;
      }
    }
  }

  /** computeConflictSet: None when the two records may share several addresses; otherwise the
      base set without redundant stores, which are removed from the set while it is iterated. */
  method ComputeConflictSet(rpt: RecPairTable, store: EPRecord, load: EPRecord, base: seq<EPRecord>)
    returns (r: Option<seq<EPRecord>>)
    requires QueryValid(Query(rpt, store, load, base, 0))
    requires CommonAddrs(store, load) != []
    ensures r.None? <==> |CommonAddrs(store, load)| != 1
    ensures r.Some? ==> (forall k | k in r.value :: k in base)
    ensures QueryValid(Query(rpt, store, load, base, CommonAddrs(store, load)[0]))
    ensures r.Some? ==> Keeps(Query(rpt, store, load, base, CommonAddrs(store, load)[0]), r.value)
    ensures r.Some? ==> NoneRedundant(Query(rpt, store, load, base, CommonAddrs(store, load)[0]), r.value, |r.value|)
  {
    var numaddr, commonaddr := CommonAddress(store, load);
    if numaddr != 1 {
      return None;
    }
    var q := Query(rpt, store, load, base, commonaddr);
    assert QueryValid(q) by {
      assert forall x :: Involved(q, x) <==> Involved(Query(rpt, store, load, base, 0), x);
    }
    var cur := base;
    var i := 0;
    while i < |cur|
      invariant 0 <= i <= |cur|
      invariant forall k | k in cur :: k in base
      invariant Keeps(q, cur) && NoneRedundant(q, cur, i)
      decreases |cur| - i
    {
      var prune;
      ghost var k;
      prune, k := FindWitness(q, cur, cur[i]);
      if prune {
        PruneStep(q, cur, i, k);
        cur := cur[..i] + cur[i + 1..];
      } else {
        i := i + 1;
      }
    }
    return Some(cur);
  }
}
