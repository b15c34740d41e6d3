/** The encoder's state: solver variables, clauses and the order table (constgen.cc). */
module ConstGens {
  import opened Constraints
  import opened Encodings
  import opened ExecPoints
  import opened Records

  // ---------------------------------------------------------------- clauses of the solver

  ghost predicate LiteralHolds(lit: int, env: Env) {
    (lit > 0 && lit in env) || (lit < 0 && -lit !in env)
  }

  ghost predicate ClauseHolds(clause: seq<int>, env: Env) {
    exists i | 0 <= i < |clause| :: LiteralHolds(clause[i], env)
  }

  /** The assignment satisfies every clause. */
  ghost predicate Satisfies(clauses: seq<seq<int>>, env: Env) {
    forall i | 0 <= i < |clauses| :: ClauseHolds(clauses[i], env)
  }

  function LiteralOf(c: Constraint): (lit: int)
    requires IsLiteral(c)
    ensures lit != 0
  {
    if c.Var? then c.v as int else -(c.v as int)
  }

  function LiteralsOf(ops: seq<Constraint>): (lits: seq<int>)
    requires forall i | 0 <= i < |ops| :: IsLiteral(ops[i])
    ensures |lits| == |ops|
    ensures forall i | 0 <= i < |ops| :: lits[i] == LiteralOf(ops[i])
  {
    seq(|ops|, i requires 0 <= i < |ops| => LiteralOf(ops[i]))
  }

  function DimacsClause(c: Constraint): seq<int>
    requires IsClause(c)
  {
    if c.Or? then LiteralsOf(c.ops) else [LiteralOf(c)]
  }

  lemma DimacsMeaning(c: Constraint, env: Env)
    requires IsClause(c)
    ensures ClauseHolds(DimacsClause(c), env) <==> Eval(c, env)
  {
    var lits := DimacsClause(c);
    if c.Or? {
      assert forall i | 0 <= i < |lits| :: LiteralHolds(lits[i], env) <==> Eval(c.ops[i], env);
    } else {
      assert LiteralHolds(lits[0], env) <==> Eval(c, env);
    }
  }

  function DimacsAll(vec: seq<Constraint>): seq<seq<int>>
    requires forall i | 0 <= i < |vec| :: vec[i].True? || IsClause(vec[i])
  {
    if vec == [] then []
    else (if vec[0].True? then [] else [DimacsClause(vec[0])]) + DimacsAll(vec[1..])
  }

  lemma {:induction false} DimacsAllMeaning(vec: seq<Constraint>, env: Env)
    requires forall i | 0 <= i < |vec| :: vec[i].True? || IsClause(vec[i])
    ensures Satisfies(DimacsAll(vec), env) <==> AllHold(vec, env)
  {
    if vec != [] {
      DimacsAllMeaning(vec[1..], env);
      AllHoldCons(vec, env);
      if vec[0].True? {
        assert DimacsAll(vec) == DimacsAll(vec[1..]);
      } else {
        DimacsMeaning(vec[0], env);
        SatisfiesConcat([DimacsClause(vec[0])], DimacsAll(vec[1..]), env);
        assert [DimacsClause(vec[0])][0] == DimacsClause(vec[0]);
      }
    }
  }

  lemma SatisfiesConcat(a: seq<seq<int>>, b: seq<seq<int>>, env: Env)
    ensures Satisfies(a + b, env) <==> Satisfies(a, env) && Satisfies(b, env)
  {
    assert forall i | 0 <= i < |a| :: (a + b)[i] == a[i];
    assert forall i | 0 <= i < |b| :: (a + b)[|a| + i] == b[i];
  }

  /** What addConstraint may be given: a constraint that simplify translates faithfully and
      that is not FALSE itself. */
  predicate Addable(c: Constraint) {
    Safe(c) && !FalseConjunct(c) && c != False
  }

  ghost predicate AllIn(cs: set<Constraint>, env: Env) {
    forall c | c in cs :: Eval(c, env)
  }

  lemma AllInBoth(a: set<Constraint>, b: set<Constraint>, env: Env)
    ensures AllIn(a + b, env) <==> AllIn(a, env) && AllIn(b, env)
  {
  }

  /** The clauses mean exactly the constraints. */
  ghost predicate Means(clauses: seq<seq<int>>, cs: set<Constraint>) {
    forall env: Env :: Satisfies(clauses, env) == AllIn(cs, env)
  }

  lemma AddedMeaning(clauses: seq<seq<int>>, cs: set<Constraint>, c: Constraint)
    requires Means(clauses, cs) && Addable(c)
    ensures forall i | 0 <= i < |Simplify(c)| :: Simplify(c)[i].True? || IsClause(Simplify(c)[i])
    ensures Means(clauses + DimacsAll(Simplify(c)), cs + {c})
  {
    SimplifyMeaning(c, iset{});
    forall env: Env
      ensures Satisfies(clauses + DimacsAll(Simplify(c)), env) == AllIn(cs + {c}, env)
    {
      SimplifyMeaning(c, env);
      CollapsedMeaning(c, env);
      DimacsAllMeaning(Simplify(c), env);
      SatisfiesConcat(clauses, DimacsAll(Simplify(c)), env);
      assert Satisfies(clauses, env) == AllIn(cs, env);
    }
  }

  // ---------------------------------------------------------------- the order table

  /** RecPairTable: a pair is found in either orientation. */
  type RecPairTable = map<(EPRecord, EPRecord), Constraint>

  predicate HasPair(rpt: RecPairTable, a: EPRecord, b: EPRecord) {
    (a, b) in rpt || (b, a) in rpt
  }

  /** getOrderConstraint: the constraint that first comes before second. */
  function OrderConstraint(rpt: RecPairTable, first: EPRecord, second: EPRecord): Constraint
    requires first.Tid() != second.Tid() ==> HasPair(rpt, first, second)
  {
    if first.Tid() == second.Tid() then
      if CompareRecords(first, second) == After then True else False
    else if (first, second) in rpt then rpt[(first, second)]
    else Negate(rpt[(second, first)])
  }

  /** The thread starts and joins of the execution. */
  datatype Join = Join(ep: Point, joined: nat)
  datatype ThreadOrder = ThreadOrder(parents: map<nat, Point>, joins: seq<Join>)

  /** orderThread: first is before the creation of second's thread, or second is after a join of
      first's thread. */
  predicate OrderThread(o: ThreadOrder, first: EPRecord, second: EPRecord) {
    || (second.Tid() in o.parents
        && o.parents[second.Tid()].tid == first.Tid()
        && Compare(first.ep.pairs, o.parents[second.Tid()].pairs) == After)
    || exists i | 0 <= i < |o.joins| ::
         && o.joins[i].ep.tid == second.Tid()
         && Compare(o.joins[i].ep.pairs, second.ep.pairs) == After
         && o.joins[i].joined == first.Tid()
  }

  /** Every record of a thread's vector belongs to the thread, and no record occurs twice. */
  predicate ThreadsValid(threads: seq<seq<EPRecord>>) {
    && (forall t, i | 0 <= t < |threads| && 0 <= i < |threads[t]| :: threads[t][i].Tid() == t)
    && (forall t | 0 <= t < |threads| :: Distinct(threads[t]))
  }

  predicate Inserted(threads: seq<seq<EPRecord>>, r: EPRecord) {
    r.Tid() < |threads| && r in threads[r.Tid()]
  }

  /** Entries relate inserted records of different threads, once per pair, by TRUE or FALSE where
      thread starts and joins decide and by a variable of its own otherwise. */
  ghost predicate TableSound(threads: seq<seq<EPRecord>>, rpt: RecPairTable, o: ThreadOrder, varindex: nat) {
    && (forall a, b {:trigger EntryValid(threads, rpt, o, varindex, a, b)} | (a, b) in rpt ::
          EntryValid(threads, rpt, o, varindex, a, b))
    && (forall p, q | p in rpt && q in rpt && p != q && rpt[p].Var? :: rpt[p] != rpt[q])
  }

  /** More variables do not disturb the table. */
  lemma TableSoundGrows(threads: seq<seq<EPRecord>>, rpt: RecPairTable, o: ThreadOrder, varindex: nat, more: nat)
    requires TableSound(threads, rpt, o, varindex) && varindex <= more
    ensures TableSound(threads, rpt, o, more)
  {
    forall a, b | (a, b) in rpt ensures EntryValid(threads, rpt, o, more, a, b) {
      assert EntryValid(threads, rpt, o, varindex, a, b);
    }
  }

  /** Relating one more pair keeps the table sound. */
  lemma EntryAdded(threads: seq<seq<EPRecord>>, rpt: RecPairTable, o: ThreadOrder, varindex: nat,
                   first: EPRecord, second: EPRecord, c: Constraint)
    requires TableSound(threads, rpt, o, varindex) && varindex > 0
    requires Inserted(threads, first) && Inserted(threads, second) && first.Tid() != second.Tid()
    requires !HasPair(rpt, first, second)
    requires c == if OrderThread(o, first, second) then True
                  else if OrderThread(o, second, first) then False else Var(varindex)
    ensures TableSound(threads, rpt[(first, second) := c], o, varindex + 1)
    ensures !c.Var? ==> TableSound(threads, rpt[(first, second) := c], o, varindex)
  {
    var now := rpt[(first, second) := c];
    var next := if c.Var? then varindex + 1 else varindex;
    forall a, b | (a, b) in now
      ensures EntryValid(threads, now, o, next, a, b) && EntryValid(threads, now, o, varindex + 1, a, b)
    {
      if (a, b) != (first, second) {
        assert EntryValid(threads, rpt, o, varindex, a, b);
      }
    }
    forall p, q | p in now && q in now && p != q && now[p].Var? ensures now[p] != now[q] {
      if p in rpt {
        assert EntryValid(threads, rpt, o, varindex, p.0, p.1);
      }
      if q in rpt {
        assert EntryValid(threads, rpt, o, varindex, q.0, q.1);
      }
    }
  }

  /** Every two records of different threads are related. */
  ghost predicate TableComplete(threads: seq<seq<EPRecord>>, rpt: RecPairTable) {
    forall a, b {:trigger HasPair(rpt, a, b)} | Inserted(threads, a) && Inserted(threads, b) && a.Tid() != b.Tid() ::
      HasPair(rpt, a, b)
  }

  ghost predicate EntryValid(threads: seq<seq<EPRecord>>, rpt: RecPairTable, o: ThreadOrder, varindex: nat, a: EPRecord,
                             b: EPRecord)
    requires (a, b) in rpt
  {
    && Inserted(threads, a) && Inserted(threads, b) && a.Tid() != b.Tid()
    && (b, a) !in rpt
    && (if OrderThread(o, a, b) then rpt[(a, b)] == True
        else if OrderThread(o, b, a) then rpt[(a, b)] == False
        else rpt[(a, b)].Var? && rpt[(a, b)].v < varindex)
  }

  /** Across threads, the constraint of one orientation is the negation of the other. */
  lemma OrderAntisymmetric(rpt: RecPairTable, a: EPRecord, b: EPRecord, env: Env)
    requires a.Tid() != b.Tid() && HasPair(rpt, a, b) && !((a, b) in rpt && (b, a) in rpt)
    requires forall k | k in rpt :: rpt[k].True? || rpt[k].False? || rpt[k].Var?
    ensures OrderConstraint(rpt, b, a) == Negate(OrderConstraint(rpt, a, b))
    ensures Eval(OrderConstraint(rpt, b, a), env) <==> !Eval(OrderConstraint(rpt, a, b), env)
  {
  }

  // ---------------------------------------------------------------- transitivity, as a specification

  predicate ValidPos(threads: seq<seq<EPRecord>>, t: int, i: int) {
    0 <= t < |threads| && 0 <= i < |threads[t]|
  }

  /** Every pair of positions in different threads is in the table. */
  ghost predicate HasAllPairs(threads: seq<seq<EPRecord>>, rpt: RecPairTable) {
    && (forall t, i | ValidPos(threads, t, i) :: threads[t][i].Tid() == t)
    && (forall t, i, u, j | ValidPos(threads, t, i) && ValidPos(threads, u, j) && t != u ::
          HasPair(rpt, threads[t][i], threads[u][j])
            && !((threads[t][i], threads[u][j]) in rpt && (threads[u][j], threads[t][i]) in rpt))
    && (forall p | p in rpt :: rpt[p].True? || rpt[p].False? || rpt[p].Var?)
  }

  /** The order constraint between two positions in different threads. */
  function OC(threads: seq<seq<EPRecord>>, rpt: RecPairTable, t: nat, i: nat, u: nat, j: nat): (c: Constraint)
    requires ValidPos(threads, t, i) && ValidPos(threads, u, j) && t != u
    requires HasAllPairs(threads, rpt)
    ensures !c.And? && !c.Or? && !c.Implies?
  {
    OrderConstraint(rpt, threads[t][i], threads[u][j])
  }

  function AfterClause(threads: seq<seq<EPRecord>>, rpt: RecPairTable, t1: nat, i: nat, t2: nat, j: nat,
                       k: nat): (c: Constraint)
    requires ValidPos(threads, t1, i) && ValidPos(threads, t2, j) && ValidPos(threads, t2, k) && t1 != t2
    requires HasAllPairs(threads, rpt)
    ensures Addable(c)
  {
    Or([OC(threads, rpt, t2, j, t1, i), OC(threads, rpt, t1, i, t2, k)])
  }

  function BeforeClause(threads: seq<seq<EPRecord>>, rpt: RecPairTable, t1: nat, h: nat, i: nat, t2: nat,
                        j: nat): (c: Constraint)
    requires ValidPos(threads, t1, h) && ValidPos(threads, t1, i) && ValidPos(threads, t2, j) && t1 != t2
    requires HasAllPairs(threads, rpt)
    ensures Addable(c)
  {
    Or([OC(threads, rpt, t2, j, t1, i), OC(threads, rpt, t1, h, t2, j)])
  }

  function CycleClause1(threads: seq<seq<EPRecord>>, rpt: RecPairTable, t1: nat, i: nat, t2: nat, j: nat, t3: nat,
                        k: nat): (c: Constraint)
    requires ValidPos(threads, t1, i) && ValidPos(threads, t2, j) && ValidPos(threads, t3, k) && t3 < t2 < t1
    requires HasAllPairs(threads, rpt)
    ensures Addable(c)
  {
    Or([OC(threads, rpt, t2, j, t1, i), OC(threads, rpt, t3, k, t2, j), OC(threads, rpt, t1, i, t3, k)])
  }

  function CycleClause2(threads: seq<seq<EPRecord>>, rpt: RecPairTable, t1: nat, i: nat, t2: nat, j: nat, t3: nat,
                        k: nat): (c: Constraint)
    requires ValidPos(threads, t1, i) && ValidPos(threads, t2, j) && ValidPos(threads, t3, k) && t3 < t2 < t1
    requires HasAllPairs(threads, rpt)
    ensures Addable(c)
  {
    Or([OC(threads, rpt, t1, i, t2, j), OC(threads, rpt, t2, j, t3, k), OC(threads, rpt, t3, k, t1, i)])
  }

  /** Vector index within a thread, order constraint across threads. */
  ghost predicate Precedes(threads: seq<seq<EPRecord>>, rpt: RecPairTable, env: Env, t: nat, i: nat, u: nat, j: nat)
    requires ValidPos(threads, t, i) && ValidPos(threads, u, j)
    requires HasAllPairs(threads, rpt)
  {
    if t == u then i < j else Eval(OC(threads, rpt, t, i, u, j), env)
  }

  /** The relation Precedes is a strict total order on all positions. */
  ghost predicate StrictTotalOrder(threads: seq<seq<EPRecord>>, rpt: RecPairTable, env: Env)
    requires HasAllPairs(threads, rpt)
  {
    && (forall t, i | ValidPos(threads, t, i) :: !Precedes(threads, rpt, env, t, i, t, i))
    && (forall t, i, u, j | ValidPos(threads, t, i) && ValidPos(threads, u, j) && (t, i) != (u, j) ::
          Precedes(threads, rpt, env, t, i, u, j) != Precedes(threads, rpt, env, u, j, t, i))
    && (forall t, i, u, j, v, k | ValidPos(threads, t, i) && ValidPos(threads, u, j) && ValidPos(threads, v, k)
          && Precedes(threads, rpt, env, t, i, u, j) && Precedes(threads, rpt, env, u, j, v, k) ::
          Precedes(threads, rpt, env, t, i, v, k))
  }

  ghost predicate FollowsFromOrder(threads: seq<seq<EPRecord>>, rpt: RecPairTable, c: Constraint)
    requires HasAllPairs(threads, rpt)
  {
    forall env: Env | StrictTotalOrder(threads, rpt, env) :: Eval(c, env)
  }

  /** allowed has every clause the generator may add. */
  ghost predicate Allows(allowed: iset<Constraint>, threads: seq<seq<EPRecord>>, rpt: RecPairTable)
    requires HasAllPairs(threads, rpt)
  {
    && (forall t1, i, t2, j, k | ValidPos(threads, t1, i) && ValidPos(threads, t2, j) && ValidPos(threads, t2, k)
          && t1 != t2 && j < k ::
          AfterClause(threads, rpt, t1, i, t2, j, k) in allowed)
    && (forall t1, h, i, t2, j | ValidPos(threads, t1, h) && ValidPos(threads, t1, i) && ValidPos(threads, t2, j)
          && t1 != t2 && h < i ::
          BeforeClause(threads, rpt, t1, h, i, t2, j) in allowed)
    && (forall t1, i, t2, j, t3, k | ValidPos(threads, t1, i) && ValidPos(threads, t2, j) && ValidPos(threads, t3, k)
          && t3 < t2 < t1 ::
          CycleClause1(threads, rpt, t1, i, t2, j, t3, k) in allowed)
    && (forall t1, i, t2, j, t3, k | ValidPos(threads, t1, i) && ValidPos(threads, t2, j) && ValidPos(threads, t3, k)
          && t3 < t2 < t1 ::
          CycleClause2(threads, rpt, t1, i, t2, j, t3, k) in allowed)
  }

  ghost predicate AddedWithin(before: set<Constraint>, now: set<Constraint>, allowed: iset<Constraint>) {
    before <= now && forall c | c in now :: c in before || c in allowed
  }

  ghost predicate RowPresent(added: set<Constraint>, threads: seq<seq<EPRecord>>, rpt: RecPairTable, t1: nat, i: nat,
                             t2: nat, j: nat)
    requires ValidPos(threads, t1, i) && ValidPos(threads, t2, j) && t1 != t2 && HasAllPairs(threads, rpt)
  {
    || OC(threads, rpt, t2, j, t1, i) == True
    || (&& (forall k | j < k < |threads[t2]| :: AfterClause(threads, rpt, t1, i, t2, j, k) in added)
        && (forall h | 0 <= h < i :: BeforeClause(threads, rpt, t1, h, i, t2, j) in added))
  }

  ghost predicate PairPresent(added: set<Constraint>, threads: seq<seq<EPRecord>>, rpt: RecPairTable, t1: nat, t2: nat)
    requires t1 < |threads| && t2 < |threads| && t1 != t2 && HasAllPairs(threads, rpt)
  {
    forall i, j | 0 <= i < |threads[t1]| && 0 <= j < |threads[t2]| :: RowPresent(added, threads, rpt, t1, i, t2, j)
  }

  ghost predicate CyclesPresent(added: set<Constraint>, threads: seq<seq<EPRecord>>, rpt: RecPairTable,
                                t1: nat, i: nat, t2: nat, j: nat, t3: nat, k: nat)
    requires ValidPos(threads, t1, i) && ValidPos(threads, t2, j) && ValidPos(threads, t3, k) && t3 < t2 < t1
    requires HasAllPairs(threads, rpt)
  {
    && CycleClause1(threads, rpt, t1, i, t2, j, t3, k) in added
    && CycleClause2(threads, rpt, t1, i, t2, j, t3, k) in added
  }

  ghost predicate TriplePresent(added: set<Constraint>, threads: seq<seq<EPRecord>>, rpt: RecPairTable, t1: nat,
                                t2: nat, t3: nat)
    requires t3 < t2 < t1 < |threads| && HasAllPairs(threads, rpt)
  {
    forall i, j, k | 0 <= i < |threads[t1]| && 0 <= j < |threads[t2]| && 0 <= k < |threads[t3]| ::
      CyclesPresent(added, threads, rpt, t1, i, t2, j, t3, k)
  }

  /** Everything about the threads a > b and the threads below b. */
  ghost predicate AllBelow(added: set<Constraint>, threads: seq<seq<EPRecord>>, rpt: RecPairTable, a: nat, b: nat)
    requires b < a < |threads| && HasAllPairs(threads, rpt)
  {
    && PairPresent(added, threads, rpt, a, b) && PairPresent(added, threads, rpt, b, a)
    && forall c | 0 <= c < b :: TriplePresent(added, threads, rpt, a, b, c)
  }

  ghost predicate AllBelowThread(added: set<Constraint>, threads: seq<seq<EPRecord>>, rpt: RecPairTable, a: nat)
    requires a < |threads| && HasAllPairs(threads, rpt)
  {
    forall b | 0 <= b < a :: AllBelow(added, threads, rpt, a, b)
  }

  ghost predicate AllPresent(added: set<Constraint>, threads: seq<seq<EPRecord>>, rpt: RecPairTable)
    requires HasAllPairs(threads, rpt)
  {
    && (forall a, b | 0 <= b < a < |threads| ::
          PairPresent(added, threads, rpt, a, b) && PairPresent(added, threads, rpt, b, a))
    && (forall a, b, c | 0 <= c < b < a < |threads| :: TriplePresent(added, threads, rpt, a, b, c))
  }

  // ---------------------------------------------------------------- the class

  class ConstGen {
    const threadorder: ThreadOrder
    var varindex: nat
    var clauses: seq<seq<int>>      // finished clauses of the solver
    var pending: seq<int>           // the clause being built
    var threadactions: seq<seq<EPRecord>>
    var rpt: RecPairTable
    ghost var added: set<Constraint>  // everything addConstraint was given

    /** The clauses mean what addConstraint was given. */
    ghost predicate ClausesValid()
      reads this`pending, this`clauses, this`added
    {
      pending == [] && Means(clauses, added)
    }

    ghost predicate Valid()
      reads this
    {
      && varindex > 0 && ClausesValid()
      && ThreadsValid(threadactions)
      && TableSound(threadactions, rpt, threadorder, varindex)
      && TableComplete(threadactions, rpt)
    }

    constructor (o: ThreadOrder)
      ensures Valid() && added == {} && clauses == [] && threadactions == [] && varindex == 1 && threadorder == o
    {
      threadorder := o;
      varindex := 1;
      clauses, pending, added := [], [], {};
      threadactions := [];
      rpt := map[];
    }

    method GetNewVar() returns (c: Constraint)
      requires varindex > 0
      modifies this`varindex
      ensures c == Var(old(varindex)) && varindex == old(varindex) + 1
    {
      c := Var(varindex);
      varindex := varindex + 1;
    }

    /** Fresh variables with consecutive numbers. */
    method GetArrayNewVars(num: nat) returns (vars: seq<Constraint>)
      requires varindex > 0
      modifies this`varindex
      ensures |vars| == num && varindex == old(varindex) + num
      ensures forall i | 0 <= i < num :: vars[i] == Var(old(varindex) + i)
    {
      vars := [];
      var i := 0;
      while i < num
        invariant 0 <= i <= num && |vars| == i && varindex == old(varindex) + i
        invariant forall k | 0 <= k < i :: vars[k] == Var(old(varindex) + k)
      {
        var v := GetNewVar();
        vars := vars + [v];
        i := i + 1;
      }
    }

    method AddClauseLiteral(lit: int)
      modifies this`clauses, this`pending
      ensures lit != 0 ==> clauses == old(clauses) && pending == old(pending) + [lit]
      ensures lit == 0 ==> clauses == old(clauses) + [old(pending)] && pending == []
    {
      if lit == 0 {
        clauses := clauses + [pending];
        pending := [];
      } else {
        pending := pending + [lit];
      }
    }

    /** printDIMACS: the literals of the clause and the terminating zero. */
    method PrintDIMACS(c: Constraint)
      requires IsClause(c) && pending == []
      modifies this`clauses, this`pending
      ensures clauses == old(clauses) + [DimacsClause(c)] && pending == []
    {
      if c.Var? || c.NotVar? {
        AddClauseLiteral(LiteralOf(c));
      } else {
        var i := 0;
        while i < |c.ops|
          invariant 0 <= i <= |c.ops|
          invariant clauses == old(clauses) && pending == DimacsClause(c)[..i]
        {
          AddClauseLiteral(LiteralOf(c.ops[i]));
          i := i + 1;
        }
      }
      assert pending == DimacsClause(c);
      AddClauseLiteral(0);
    }

    /** addConstraint: the new clauses hold exactly where the constraint does. */
    method AddConstraint(c: Constraint)
      requires ClausesValid() && Addable(c)
      modifies this`clauses, this`pending, this`added
      ensures ClausesValid() && added == old(added) + {c}
    {
      AddedMeaning(clauses, added, c);
      var vec := SimplifyInPlace(c);
      var i := 0;
      while i < |vec|
        invariant 0 <= i <= |vec| && pending == [] && added == old(added)
        invariant clauses + DimacsAll(vec[i..]) == old(clauses) + DimacsAll(vec)
      {
        assert vec[i..][1..] == vec[i + 1..];
        if !vec[i].True? {
          PrintDIMACS(vec[i]);
        }
        i := i + 1;
      }
      assert clauses == old(clauses) + DimacsAll(vec);
      added := added + {c};
    }

    // -------------------------------------------------------------- order variables

    /** createOrderConstraint: nothing happens when the pair is already related. */
    method CreateOrderConstraint(first: EPRecord, second: EPRecord)
      requires varindex > 0 && TableSound(threadactions, rpt, threadorder, varindex)
      requires Inserted(threadactions, first) && Inserted(threadactions, second) && first.Tid() != second.Tid()
      modifies this`rpt, this`varindex
      ensures varindex >= old(varindex) && TableSound(threadactions, rpt, threadorder, varindex)
      ensures HasPair(rpt, first, second)
      ensures forall k | k in old(rpt) :: k in rpt && rpt[k] == old(rpt)[k]
    {
      if HasPair(rpt, first, second) {
        return;
      }
      var c := Var(varindex);
      if OrderThread(threadorder, first, second) {
        c := True;
      } else if OrderThread(threadorder, second, first) {
        c := False;
      } else {
        varindex := varindex + 1;
      }
      EntryAdded(threadactions, rpt, threadorder, old(varindex), first, second, c);
      rpt := rpt[(first, second) := c];
    }

    /** One round of insertAction: the record is related to those of thread i. */
    method RelateThread(i: nat, record: EPRecord)
      requires varindex > 0 && TableSound(threadactions, rpt, threadorder, varindex) && i < |threadactions|
      requires ThreadsValid(threadactions) && Inserted(threadactions, record)
      requires RelatedBelow(threadactions, rpt, record, i)
      modifies this`rpt, this`varindex
      ensures varindex > 0 && TableSound(threadactions, rpt, threadorder, varindex)
      ensures forall k | k in old(rpt) :: k in rpt && rpt[k] == old(rpt)[k]
      ensures RelatedBelow(threadactions, rpt, record, i + 1)
    {
      if i != record.Tid() {
        RelateVector(threadactions[i], record);
        assert forall r | Inserted(threadactions, r) && r.Tid() == i :: r in threadactions[i];
      }
    }

    /** insertAction: the record joins its thread's vector and is related to the records of all
        other threads. */
    method InsertAction(record: EPRecord)
      requires Valid() && !Inserted(threadactions, record)
      modifies this`threadactions, this`rpt, this`varindex
      ensures Valid() && threadactions == WithRecord(old(threadactions), record)
      ensures forall k | k in old(rpt) :: k in rpt && rpt[k] == old(rpt)[k]
    {
      WithRecordInserts(threadactions, record);
      TableGrows(threadactions, rpt, threadorder, varindex, record);
      PushRecord(record);
      var i := 0;
      while i < |threadactions|
        invariant 0 <= i <= |threadactions|
        invariant varindex > 0 && TableSound(threadactions, rpt, threadorder, varindex)
        invariant forall k | k in old(rpt) :: k in rpt && rpt[k] == old(rpt)[k]
        invariant RelatedBelow(threadactions, rpt, record, i)
        modifies this`rpt, this`varindex
      {
        RelateThread(i, record);
        i := i + 1;
      }
      TableCompleted(old(threadactions), old(rpt), threadactions, rpt, record);
    }

    /** Padding with empty vectors, and the new record at the end of its own. */
    method PushRecord(record: EPRecord)
      modifies this`threadactions
      ensures threadactions == WithRecord(old(threadactions), record)
    {
      var thread := record.Tid();
      while |threadactions| <= thread
        invariant |old(threadactions)| <= |threadactions|
        invariant threadactions == old(threadactions) + seq(|threadactions| - |old(threadactions)|, _ => [])
        invariant |threadactions| <= thread + 1 || threadactions == old(threadactions)
        decreases thread + 1 - |threadactions|
      {
        threadactions := threadactions + [[]];
      }
      threadactions := threadactions[thread := threadactions[thread] + [record]];
    }

    /** The inner loop of insertAction. */
    method RelateVector(vec: seq<EPRecord>, record: EPRecord)
      requires varindex > 0 && TableSound(threadactions, rpt, threadorder, varindex)
      requires Inserted(threadactions, record)
      requires forall j | 0 <= j < |vec| :: Inserted(threadactions, vec[j]) && vec[j].Tid() != record.Tid()
      modifies this`rpt, this`varindex
      ensures varindex > 0 && TableSound(threadactions, rpt, threadorder, varindex)
      ensures forall j | 0 <= j < |vec| :: HasPair(rpt, vec[j], record)
      ensures forall k | k in old(rpt) :: k in rpt && rpt[k] == old(rpt)[k]
    {
      var j := 0;
      while j < |vec|
        invariant 0 <= j <= |vec|
        invariant varindex > 0 && TableSound(threadactions, rpt, threadorder, varindex)
        invariant forall k | 0 <= k < j :: HasPair(rpt, vec[k], record)
        invariant forall k | k in old(rpt) :: k in rpt && rpt[k] == old(rpt)[k]
      {
        CreateOrderConstraint(vec[j], record);
        j := j + 1;
      }
    }
    // -------------------------------------------------------------- transitivity clauses

    /** genTransOrderConstraints over all threads. */
    method GenTransOrderConstraints()
      requires Valid()
      modifies this`clauses, this`pending, this`added
      ensures Valid() && HasAllPairs(threadactions, rpt) && AllPresent(added, threadactions, rpt)
      ensures old(added) <= added
      ensures forall c | c in added && c !in old(added) :: FollowsFromOrder(threadactions, rpt, c)
    {
      AllPairsRelated(threadactions, rpt, threadorder, varindex);
      ghost var allowed := iset c | FollowsFromOrder(threadactions, rpt, c);
      AllAllowed(threadactions, rpt, allowed);
      GenTransLoops(allowed);
    }

    /** The loops of genTransOrderConstraints; allowed bounds what is added. */
    method GenTransLoops(ghost allowed: iset<Constraint>)
      requires ClausesValid() && HasAllPairs(threadactions, rpt) && Allows(allowed, threadactions, rpt)
      modifies this`clauses, this`pending, this`added
      ensures ClausesValid() && AddedWithin(old(added), added, allowed)
      ensures AllPresent(added, threadactions, rpt)
    {
      var t1 := 0;
      while t1 < |threadactions|
        invariant 0 <= t1 <= |threadactions| && ClausesValid() && AddedWithin(old(added), added, allowed)
        invariant forall a | 0 <= a < t1 :: AllBelowThread(added, threadactions, rpt, a)
      {
        ghost var start := added;
        GenTransFor(t1, allowed);
        forall a | 0 <= a < t1 ensures AllBelowThread(added, threadactions, rpt, a) {
          AllBelowThreadMonotone(start, added, threadactions, rpt, a);
        }
        t1 := t1 + 1;
      }
      AllPresentFromThreads(added, threadactions, rpt);
    }

    /** One round of the outer loop. */
    method GenTransFor(t1: nat, ghost allowed: iset<Constraint>)
      requires ClausesValid() && t1 < |threadactions|
      requires HasAllPairs(threadactions, rpt) && Allows(allowed, threadactions, rpt)
      modifies this`clauses, this`pending, this`added
      ensures ClausesValid() && AddedWithin(old(added), added, allowed)
      ensures AllBelowThread(added, threadactions, rpt, t1)
    {
      var t2 := 0;
      while t2 < t1
        invariant 0 <= t2 <= t1 && ClausesValid() && AddedWithin(old(added), added, allowed)
        invariant forall b | 0 <= b < t2 :: AllBelow(added, threadactions, rpt, t1, b)
      {
        ghost var start := added;
        GenTransBelow(t1, t2, allowed);
        forall b | 0 <= b < t2 ensures AllBelow(added, threadactions, rpt, t1, b) {
          AllBelowMonotone(start, added, threadactions, rpt, t1, b);
        }
        t2 := t2 + 1;
      }
    }

    /** The body of the two outer loops: both directions of the pair, then the third threads. */
    method GenTransBelow(t1: nat, t2: nat, ghost allowed: iset<Constraint>)
      requires ClausesValid() && t2 < t1 < |threadactions|
      requires HasAllPairs(threadactions, rpt) && Allows(allowed, threadactions, rpt)
      modifies this`clauses, this`pending, this`added
      ensures ClausesValid() && AddedWithin(old(added), added, allowed)
      ensures AllBelow(added, threadactions, rpt, t1, t2)
    {
      GenTransPair(t1, t2, allowed);
      ghost var one := added;
      GenTransPair(t2, t1, allowed);
      ghost var two := added;
      var t3 := 0;
      while t3 < t2
        invariant 0 <= t3 <= t2 && ClausesValid() && AddedWithin(old(added), added, allowed) && two <= added
        invariant forall c | 0 <= c < t3 :: TriplePresent(added, threadactions, rpt, t1, t2, c)
      {
        ghost var was := added;
        GenTransTriple(t1, t2, t3, allowed);
        forall c | 0 <= c < t3 ensures TriplePresent(added, threadactions, rpt, t1, t2, c) {
          TripleMonotone(was, added, threadactions, rpt, t1, t2, c);
        }
        t3 := t3 + 1;
      }
      PairMonotone(one, added, threadactions, rpt, t1, t2);
      PairMonotone(two, added, threadactions, rpt, t2, t1);
    }

    /** genTransOrderConstraints over two vectors. */
    method GenTransPair(t1: nat, t2: nat, ghost allowed: iset<Constraint>)
      requires ClausesValid() && t1 < |threadactions| && t2 < |threadactions| && t1 != t2
      requires HasAllPairs(threadactions, rpt) && Allows(allowed, threadactions, rpt)
      modifies this`clauses, this`pending, this`added
      ensures ClausesValid() && AddedWithin(old(added), added, allowed)
      ensures PairPresent(added, threadactions, rpt, t1, t2)
    {
      var t1vec, t2vec := threadactions[t1], threadactions[t2];
      var i := 0;
      while i < |t1vec|
        invariant 0 <= i <= |t1vec| && ClausesValid() && AddedWithin(old(added), added, allowed)
        invariant forall p, q | 0 <= p < i && 0 <= q < |t2vec| :: RowPresent(added, threadactions, rpt, t1, p, t2, q)
      {
        var j := 0;
        while j < |t2vec|
          invariant 0 <= j <= |t2vec| && ClausesValid() && AddedWithin(old(added), added, allowed)
          invariant forall p, q | 0 <= p < |t1vec| && 0 <= q < |t2vec| && (p < i || (p == i && q < j)) ::
            RowPresent(added, threadactions, rpt, t1, p, t2, q)
        {
          ghost var was := added;
          GenTransRow(t1, i, t2, j, allowed);
          forall p, q | ValidPos(threadactions, t1, p) && ValidPos(threadactions, t2, q)
            && RowPresent(was, threadactions, rpt, t1, p, t2, q)
            ensures RowPresent(added, threadactions, rpt, t1, p, t2, q)
          {
          }
          j := j + 1;
        }
        i := i + 1;
      }
    }

    /** The two innermost loops: everything about one pair of records. */
    method GenTransRow(t1: nat, i: nat, t2: nat, j: nat, ghost allowed: iset<Constraint>)
      requires ClausesValid() && t1 < |threadactions| && t2 < |threadactions| && t1 != t2
      requires i < |threadactions[t1]| && j < |threadactions[t2]|
      requires HasAllPairs(threadactions, rpt) && Allows(allowed, threadactions, rpt)
      modifies this`clauses, this`pending, this`added
      ensures ClausesValid() && AddedWithin(old(added), added, allowed)
      ensures RowPresent(added, threadactions, rpt, t1, i, t2, j)
    {
      var t1vec, t2vec := threadactions[t1], threadactions[t2];
      var c21 := OrderConstraint(rpt, t2vec[j], t1vec[i]);
      if c21.True? {
        return;
      }
      GenAfter(t1, i, t2, j, allowed);
      ghost var after := added;
      GenBefore(t1, i, t2, j, allowed);
      assert after <= added;
    }

    /** The clauses about the records after the second one in its thread. */
    method GenAfter(t1: nat, i: nat, t2: nat, j: nat, ghost allowed: iset<Constraint>)
      requires ClausesValid() && t1 < |threadactions| && t2 < |threadactions| && t1 != t2
      requires i < |threadactions[t1]| && j < |threadactions[t2]|
      requires HasAllPairs(threadactions, rpt) && Allows(allowed, threadactions, rpt)
      modifies this`clauses, this`pending, this`added
      ensures ClausesValid() && AddedWithin(old(added), added, allowed)
      ensures forall l | j < l < |threadactions[t2]| :: AfterClause(threadactions, rpt, t1, i, t2, j, l) in added
    {
      var t2vec := threadactions[t2];
      var k := j + 1;
      while k < |t2vec|
        invariant j < k <= |t2vec| && ClausesValid() && AddedWithin(old(added), added, allowed)
        invariant forall l | j < l < k :: AfterClause(threadactions, rpt, t1, i, t2, j, l) in added
      {
        AddConstraint(AfterClause(threadactions, rpt, t1, i, t2, j, k));
        k := k + 1;
      }
    }

    /** The clauses about the records before the first one in its thread. */
    method GenBefore(t1: nat, i: nat, t2: nat, j: nat, ghost allowed: iset<Constraint>)
      requires ClausesValid() && t1 < |threadactions| && t2 < |threadactions| && t1 != t2
      requires i < |threadactions[t1]| && j < |threadactions[t2]|
      requires HasAllPairs(threadactions, rpt) && Allows(allowed, threadactions, rpt)
      modifies this`clauses, this`pending, this`added
      ensures ClausesValid() && AddedWithin(old(added), added, allowed)
      ensures forall l | 0 <= l < i :: BeforeClause(threadactions, rpt, t1, l, i, t2, j) in added
    {
      var h := 0;
      while h < i
        invariant 0 <= h <= i && ClausesValid() && AddedWithin(old(added), added, allowed)
        invariant forall l | 0 <= l < h :: BeforeClause(threadactions, rpt, t1, l, i, t2, j) in added
      {
        AddConstraint(BeforeClause(threadactions, rpt, t1, h, i, t2, j));
        h := h + 1;
      }
    }

    /** genTransOrderConstraints over three vectors. */
    method GenTransTriple(t1: nat, t2: nat, t3: nat, ghost allowed: iset<Constraint>)
      requires ClausesValid() && t3 < t2 < t1 < |threadactions|
      requires HasAllPairs(threadactions, rpt) && Allows(allowed, threadactions, rpt)
      modifies this`clauses, this`pending, this`added
      ensures ClausesValid() && AddedWithin(old(added), added, allowed)
      ensures TriplePresent(added, threadactions, rpt, t1, t2, t3)
    {
      var i := 0;
      while i < |threadactions[t1]|
        invariant 0 <= i <= |threadactions[t1]| && ClausesValid() && AddedWithin(old(added), added, allowed)
        invariant forall p, q, r | 0 <= p < i && 0 <= q < |threadactions[t2]| && 0 <= r < |threadactions[t3]| ::
          CyclesPresent(added, threadactions, rpt, t1, p, t2, q, t3, r)
      {
        ghost var was := added;
        GenTransPlane(t1, i, t2, t3, allowed);
        CyclesStay(was, added, threadactions, rpt, t1, t2, t3);
        i := i + 1;
      }
    }

    /** The middle loop, for one record of the first thread. */
    method GenTransPlane(t1: nat, i: nat, t2: nat, t3: nat, ghost allowed: iset<Constraint>)
      requires ClausesValid() && t3 < t2 < t1 < |threadactions| && i < |threadactions[t1]|
      requires HasAllPairs(threadactions, rpt) && Allows(allowed, threadactions, rpt)
      modifies this`clauses, this`pending, this`added
      ensures ClausesValid() && AddedWithin(old(added), added, allowed)
      ensures forall q, r | 0 <= q < |threadactions[t2]| && 0 <= r < |threadactions[t3]| ::
        CyclesPresent(added, threadactions, rpt, t1, i, t2, q, t3, r)
    {
      var j := 0;
      while j < |threadactions[t2]|
        invariant 0 <= j <= |threadactions[t2]| && ClausesValid() && AddedWithin(old(added), added, allowed)
        invariant forall q, r | 0 <= q < j && 0 <= r < |threadactions[t3]| ::
          CyclesPresent(added, threadactions, rpt, t1, i, t2, q, t3, r)
      {
        ghost var was := added;
        GenTransLine(t1, i, t2, j, t3, allowed);
        CyclesStay(was, added, threadactions, rpt, t1, t2, t3);
        j := j + 1;
      }
    }

    /** The inner loop, for one record of the first thread and one of the second. */
    method GenTransLine(t1: nat, i: nat, t2: nat, j: nat, t3: nat, ghost allowed: iset<Constraint>)
      requires ClausesValid() && t3 < t2 < t1 < |threadactions|
      requires i < |threadactions[t1]| && j < |threadactions[t2]|
      requires HasAllPairs(threadactions, rpt) && Allows(allowed, threadactions, rpt)
      modifies this`clauses, this`pending, this`added
      ensures ClausesValid() && AddedWithin(old(added), added, allowed)
      ensures forall r | 0 <= r < |threadactions[t3]| :: CyclesPresent(added, threadactions, rpt, t1, i, t2, j, t3, r)
    {
      var k := 0;
      while k < |threadactions[t3]|
        invariant 0 <= k <= |threadactions[t3]| && ClausesValid() && AddedWithin(old(added), added, allowed)
        invariant forall r | 0 <= r < k :: CyclesPresent(added, threadactions, rpt, t1, i, t2, j, t3, r)
      {
        ghost var was := added;
        GenTransOrderConstraint(t1, i, t2, j, t3, k, allowed);
        CyclesStay(was, added, threadactions, rpt, t1, t2, t3);
        k := k + 1;
      }
    }

    /** genTransOrderConstraint: neither cycle through three records of different threads. */
    method GenTransOrderConstraint(t1: nat, i: nat, t2: nat, j: nat, t3: nat, k: nat, ghost allowed: iset<Constraint>)
      requires ClausesValid() && t3 < t2 < t1 < |threadactions|
      requires i < |threadactions[t1]| && j < |threadactions[t2]| && k < |threadactions[t3]|
      requires HasAllPairs(threadactions, rpt) && Allows(allowed, threadactions, rpt)
      modifies this`clauses, this`pending, this`added
      ensures ClausesValid() && AddedWithin(old(added), added, allowed)
      ensures CyclesPresent(added, threadactions, rpt, t1, i, t2, j, t3, k)
    {
      AddConstraint(CycleClause1(threadactions, rpt, t1, i, t2, j, t3, k));
      AddConstraint(CycleClause2(threadactions, rpt, t1, i, t2, j, t3, k));
    }
  }

  /** The record is related to every record of the other threads below i. */
  ghost predicate RelatedBelow(threads: seq<seq<EPRecord>>, rpt: RecPairTable, record: EPRecord, i: nat) {
    forall r | Inserted(threads, r) && r.Tid() < i && r.Tid() != record.Tid() :: HasPair(rpt, r, record)
  }

  lemma TableGrows(threads: seq<seq<EPRecord>>, rpt: RecPairTable, o: ThreadOrder, varindex: nat, r: EPRecord)
    requires ThreadsValid(threads) && !Inserted(threads, r) && TableSound(threads, rpt, o, varindex)
    ensures TableSound(WithRecord(threads, r), rpt, o, varindex)
  {
    WithRecordInserts(threads, r);
    forall a, b | (a, b) in rpt ensures EntryValid(WithRecord(threads, r), rpt, o, varindex, a, b) {
      assert EntryValid(threads, rpt, o, varindex, a, b);
    }
  }

  lemma TableCompleted(threads: seq<seq<EPRecord>>, rpt: RecPairTable, now: seq<seq<EPRecord>>, rpt': RecPairTable,
                       r: EPRecord)
    requires ThreadsValid(threads) && !Inserted(threads, r) && TableComplete(threads, rpt)
    requires now == WithRecord(threads, r) && RelatedBelow(now, rpt', r, |now|)
    requires forall k | k in rpt :: k in rpt'
    ensures TableComplete(now, rpt')
  {
    WithRecordInserts(threads, r);
    forall a, b | Inserted(now, a) && Inserted(now, b) && a.Tid() != b.Tid() ensures HasPair(rpt', a, b) {
      if a != r && b != r {
        assert HasPair(rpt, a, b);
      }
    }
  }

  /** The thread vectors with one record more, padded with empty vectors if need be. */
  function WithRecord(threads: seq<seq<EPRecord>>, r: EPRecord): seq<seq<EPRecord>> {
    var padded := if |threads| <= r.Tid() then threads + seq(r.Tid() + 1 - |threads|, _ => []) else threads;
    padded[r.Tid() := padded[r.Tid()] + [r]]
  }

  lemma WithRecordInserts(threads: seq<seq<EPRecord>>, r: EPRecord)
    requires ThreadsValid(threads) && !Inserted(threads, r)
    ensures ThreadsValid(WithRecord(threads, r))
    ensures forall x :: Inserted(WithRecord(threads, r), x) <==> Inserted(threads, x) || x == r
  {
    var now := WithRecord(threads, r);
    forall x ensures Inserted(now, x) <==> Inserted(threads, x) || x == r {
      if x.Tid() == r.Tid() {
        var was := if r.Tid() < |threads| then threads[r.Tid()] else [];
        assert now[r.Tid()] == was + [r];
      }
    }
  }

  lemma AllPairsRelated(threads: seq<seq<EPRecord>>, rpt: RecPairTable, o: ThreadOrder, varindex: nat)
    requires ThreadsValid(threads) && TableComplete(threads, rpt) && TableSound(threads, rpt, o, varindex)
    ensures HasAllPairs(threads, rpt)
  {
    forall t, i, u, j | ValidPos(threads, t, i) && ValidPos(threads, u, j) && t != u
      ensures HasPair(rpt, threads[t][i], threads[u][j])
      ensures !((threads[t][i], threads[u][j]) in rpt && (threads[u][j], threads[t][i]) in rpt)
    {
      var a, b := threads[t][i], threads[u][j];
      assert Inserted(threads, a) && Inserted(threads, b);
      if (a, b) in rpt {
        assert EntryValid(threads, rpt, o, varindex, a, b);
      }
    }
    forall p | p in rpt ensures rpt[p].True? || rpt[p].False? || rpt[p].Var? {
      assert EntryValid(threads, rpt, o, varindex, p.0, p.1);
    }
  }

  lemma PairMonotone(a: set<Constraint>, b: set<Constraint>, threads: seq<seq<EPRecord>>, rpt: RecPairTable, t1: nat,
                     t2: nat)
    requires a <= b && t1 < |threads| && t2 < |threads| && t1 != t2 && HasAllPairs(threads, rpt)
    requires PairPresent(a, threads, rpt, t1, t2)
    ensures PairPresent(b, threads, rpt, t1, t2)
  {
    forall i, j | 0 <= i < |threads[t1]| && 0 <= j < |threads[t2]| ensures RowPresent(b, threads, rpt, t1, i, t2, j) {
      assert RowPresent(a, threads, rpt, t1, i, t2, j);
    }
  }

  lemma CyclesStay(a: set<Constraint>, b: set<Constraint>, threads: seq<seq<EPRecord>>, rpt: RecPairTable, t1: nat,
                   t2: nat, t3: nat)
    requires a <= b && t3 < t2 < t1 < |threads| && HasAllPairs(threads, rpt)
    ensures forall i, j, k {:trigger CyclesPresent(b, threads, rpt, t1, i, t2, j, t3, k)}
      | ValidPos(threads, t1, i) && ValidPos(threads, t2, j) && ValidPos(threads, t3, k)
        && CyclesPresent(a, threads, rpt, t1, i, t2, j, t3, k) ::
      CyclesPresent(b, threads, rpt, t1, i, t2, j, t3, k)
  {
  }

  lemma TripleMonotone(a: set<Constraint>, b: set<Constraint>, threads: seq<seq<EPRecord>>, rpt: RecPairTable, t1: nat,
                       t2: nat, t3: nat)
    requires a <= b && t3 < t2 < t1 < |threads| && HasAllPairs(threads, rpt)
    requires TriplePresent(a, threads, rpt, t1, t2, t3)
    ensures TriplePresent(b, threads, rpt, t1, t2, t3)
  {
    CyclesStay(a, b, threads, rpt, t1, t2, t3);
  }

  lemma AllBelowMonotone(s: set<Constraint>, s': set<Constraint>, threads: seq<seq<EPRecord>>, rpt: RecPairTable,
                         a: nat, b: nat)
    requires s <= s' && b < a < |threads| && HasAllPairs(threads, rpt) && AllBelow(s, threads, rpt, a, b)
    ensures AllBelow(s', threads, rpt, a, b)
  {
    PairMonotone(s, s', threads, rpt, a, b);
    PairMonotone(s, s', threads, rpt, b, a);
    forall c | 0 <= c < b ensures TriplePresent(s', threads, rpt, a, b, c) {
      TripleMonotone(s, s', threads, rpt, a, b, c);
    }
  }

  lemma AllBelowThreadMonotone(s: set<Constraint>, s': set<Constraint>, threads: seq<seq<EPRecord>>, rpt: RecPairTable,
                               a: nat)
    requires s <= s' && a < |threads| && HasAllPairs(threads, rpt) && AllBelowThread(s, threads, rpt, a)
    ensures AllBelowThread(s', threads, rpt, a)
  {
    forall b | 0 <= b < a ensures AllBelow(s', threads, rpt, a, b) {
      AllBelowMonotone(s, s', threads, rpt, a, b);
    }
  }

  lemma AllPresentFromThreads(added: set<Constraint>, threads: seq<seq<EPRecord>>, rpt: RecPairTable)
    requires HasAllPairs(threads, rpt)
    requires forall a | 0 <= a < |threads| :: AllBelowThread(added, threads, rpt, a)
    ensures AllPresent(added, threads, rpt)
  {
    forall a, b | 0 <= b < a < |threads|
      ensures PairPresent(added, threads, rpt, a, b) && PairPresent(added, threads, rpt, b, a)
    {
      assert AllBelowThread(added, threads, rpt, a);
      assert AllBelow(added, threads, rpt, a, b);
    }
    forall a, b, c | 0 <= c < b < a < |threads| ensures TriplePresent(added, threads, rpt, a, b, c) {
      assert AllBelowThread(added, threads, rpt, a);
      assert AllBelow(added, threads, rpt, a, b);
    }
  }

  lemma AllAllowed(threads: seq<seq<EPRecord>>, rpt: RecPairTable, allowed: iset<Constraint>)
    requires HasAllPairs(threads, rpt)
    requires forall c | FollowsFromOrder(threads, rpt, c) :: c in allowed
    ensures Allows(allowed, threads, rpt)
  {
    forall t1, i, t2, j, k | ValidPos(threads, t1, i) && ValidPos(threads, t2, j) && ValidPos(threads, t2, k)
      && t1 != t2 && j < k
      ensures AfterClause(threads, rpt, t1, i, t2, j, k) in allowed
    {
      AfterFollows(threads, rpt, t1, i, t2, j, k);
    }
    forall t1, h, i, t2, j | ValidPos(threads, t1, h) && ValidPos(threads, t1, i) && ValidPos(threads, t2, j)
      && t1 != t2 && h < i
      ensures BeforeClause(threads, rpt, t1, h, i, t2, j) in allowed
    {
      BeforeFollows(threads, rpt, t1, h, i, t2, j);
    }
    forall t1, i, t2, j, t3, k | ValidPos(threads, t1, i) && ValidPos(threads, t2, j) && ValidPos(threads, t3, k)
      && t3 < t2 < t1
      ensures CycleClause1(threads, rpt, t1, i, t2, j, t3, k) in allowed
      ensures CycleClause2(threads, rpt, t1, i, t2, j, t3, k) in allowed
    {
      CycleFollows(threads, rpt, t1, i, t2, j, t3, k);
    }
  }

  lemma AfterFollows(threads: seq<seq<EPRecord>>, rpt: RecPairTable, t1: nat, i: nat, t2: nat, j: nat, k: nat)
    requires ValidPos(threads, t1, i) && ValidPos(threads, t2, j) && ValidPos(threads, t2, k) && t1 != t2 && j < k
    requires HasAllPairs(threads, rpt)
    ensures FollowsFromOrder(threads, rpt, AfterClause(threads, rpt, t1, i, t2, j, k))
  {
    forall env: Env | StrictTotalOrder(threads, rpt, env)
      ensures Eval(AfterClause(threads, rpt, t1, i, t2, j, k), env)
    {
      PairMeaning(OC(threads, rpt, t2, j, t1, i), OC(threads, rpt, t1, i, t2, k), env);
      assert Precedes(threads, rpt, env, t2, j, t2, k);
      assert Precedes(threads, rpt, env, t2, j, t1, i) || Precedes(threads, rpt, env, t1, i, t2, j);
    }
  }

  lemma BeforeFollows(threads: seq<seq<EPRecord>>, rpt: RecPairTable, t1: nat, h: nat, i: nat, t2: nat, j: nat)
    requires ValidPos(threads, t1, h) && ValidPos(threads, t1, i) && ValidPos(threads, t2, j) && t1 != t2 && h < i
    requires HasAllPairs(threads, rpt)
    ensures FollowsFromOrder(threads, rpt, BeforeClause(threads, rpt, t1, h, i, t2, j))
  {
    forall env: Env | StrictTotalOrder(threads, rpt, env)
      ensures Eval(BeforeClause(threads, rpt, t1, h, i, t2, j), env)
    {
      PairMeaning(OC(threads, rpt, t2, j, t1, i), OC(threads, rpt, t1, h, t2, j), env);
      assert Precedes(threads, rpt, env, t1, h, t1, i);
      assert Precedes(threads, rpt, env, t2, j, t1, i) || Precedes(threads, rpt, env, t1, i, t2, j);
    }
  }

  lemma TripleMeaning(x: Constraint, y: Constraint, z: Constraint, env: Env)
    ensures Eval(Or([x, y, z]), env) <==> Eval(x, env) || Eval(y, env) || Eval(z, env)
  {
    assert [x, y, z][0] == x && [x, y, z][1] == y && [x, y, z][2] == z;
  }

  lemma CycleFollows(threads: seq<seq<EPRecord>>, rpt: RecPairTable, t1: nat, i: nat, t2: nat, j: nat, t3: nat, k: nat)
    requires ValidPos(threads, t1, i) && ValidPos(threads, t2, j) && ValidPos(threads, t3, k) && t3 < t2 < t1
    requires HasAllPairs(threads, rpt)
    ensures FollowsFromOrder(threads, rpt, CycleClause1(threads, rpt, t1, i, t2, j, t3, k))
    ensures FollowsFromOrder(threads, rpt, CycleClause2(threads, rpt, t1, i, t2, j, t3, k))
  {
    forall env: Env | StrictTotalOrder(threads, rpt, env)
      ensures Eval(CycleClause1(threads, rpt, t1, i, t2, j, t3, k), env)
      ensures Eval(CycleClause2(threads, rpt, t1, i, t2, j, t3, k), env)
    {
      TripleMeaning(OC(threads, rpt, t2, j, t1, i), OC(threads, rpt, t3, k, t2, j), OC(threads, rpt, t1, i, t3, k),
                    env);
      TripleMeaning(OC(threads, rpt, t1, i, t2, j), OC(threads, rpt, t2, j, t3, k), OC(threads, rpt, t3, k, t1, i),
                    env);
      assert Precedes(threads, rpt, env, t1, i, t2, j) != Precedes(threads, rpt, env, t2, j, t1, i);
      assert Precedes(threads, rpt, env, t2, j, t3, k) != Precedes(threads, rpt, env, t3, k, t2, j);
      assert Precedes(threads, rpt, env, t1, i, t3, k) != Precedes(threads, rpt, env, t3, k, t1, i);
    }
  }

  /** Reading the clauses back: each holds under an assignment that satisfies what was added. */
  lemma ClausesHold(threads: seq<seq<EPRecord>>, rpt: RecPairTable, added: set<Constraint>, env: Env,
                    t: int, i: int, u: int, j: int, k: int)
    requires HasAllPairs(threads, rpt) && AllPresent(added, threads, rpt) && AllIn(added, env)
    requires ValidPos(threads, t, i) && ValidPos(threads, u, j) && ValidPos(threads, u, k) && t != u && j < k
    ensures Precedes(threads, rpt, env, t, i, u, j) ==> Precedes(threads, rpt, env, t, i, u, k)
    ensures Precedes(threads, rpt, env, u, k, t, i) ==> Precedes(threads, rpt, env, u, j, t, i)
  {
    assert PairPresent(added, threads, rpt, t, u) && PairPresent(added, threads, rpt, u, t);
    assert RowPresent(added, threads, rpt, t, i, u, j) && RowPresent(added, threads, rpt, u, k, t, i);
    PairMeaning(OC(threads, rpt, u, j, t, i), OC(threads, rpt, t, i, u, k), env);
    PairMeaning(OC(threads, rpt, t, i, u, k), OC(threads, rpt, u, j, t, i), env);
    if OC(threads, rpt, u, j, t, i) != True {
      assert AfterClause(threads, rpt, t, i, u, j, k) in added;
    }
    if OC(threads, rpt, t, i, u, k) != True {
      assert BeforeClause(threads, rpt, u, j, k, t, i) in added;
    }
    PrecedesOpposite(threads, rpt, env, t, i, u, j);
    PrecedesOpposite(threads, rpt, env, t, i, u, k);
  }

  /** Two different positions are ordered in exactly one direction, whatever the assignment. */
  lemma PrecedesOpposite(threads: seq<seq<EPRecord>>, rpt: RecPairTable, env: Env, t: int, i: int, u: int, j: int)
    requires HasAllPairs(threads, rpt) && ValidPos(threads, t, i) && ValidPos(threads, u, j) && (t, i) != (u, j)
    ensures Precedes(threads, rpt, env, t, i, u, j) != Precedes(threads, rpt, env, u, j, t, i)
  {
    if t != u {
      var a, b := threads[t][i], threads[u][j];
      assert HasPair(rpt, a, b) && !((a, b) in rpt && (b, a) in rpt);
    }
  }

  /** No cycle through three different threads, from either of its two clauses. */
  lemma NoCycle(threads: seq<seq<EPRecord>>, rpt: RecPairTable, added: set<Constraint>, env: Env,
                t: int, i: int, u: int, j: int, v: int, k: int)
    requires HasAllPairs(threads, rpt) && AllPresent(added, threads, rpt) && AllIn(added, env)
    requires ValidPos(threads, t, i) && ValidPos(threads, u, j) && ValidPos(threads, v, k) && v < u < t
    ensures !(Precedes(threads, rpt, env, t, i, u, j) && Precedes(threads, rpt, env, u, j, v, k)
      && Precedes(threads, rpt, env, v, k, t, i))
    ensures !(Precedes(threads, rpt, env, u, j, t, i) && Precedes(threads, rpt, env, v, k, u, j)
      && Precedes(threads, rpt, env, t, i, v, k))
  {
    assert TriplePresent(added, threads, rpt, t, u, v);
    assert CyclesPresent(added, threads, rpt, t, i, u, j, v, k);
    TripleMeaning(OC(threads, rpt, u, j, t, i), OC(threads, rpt, v, k, u, j), OC(threads, rpt, t, i, v, k), env);
    TripleMeaning(OC(threads, rpt, t, i, u, j), OC(threads, rpt, u, j, v, k), OC(threads, rpt, v, k, t, i), env);
    PrecedesOpposite(threads, rpt, env, t, i, u, j);
    PrecedesOpposite(threads, rpt, env, u, j, v, k);
    PrecedesOpposite(threads, rpt, env, v, k, t, i);
  }

  lemma PrecedesTransitive(threads: seq<seq<EPRecord>>, rpt: RecPairTable, added: set<Constraint>, env: Env,
                           t: int, i: int, u: int, j: int, v: int, k: int)
    requires HasAllPairs(threads, rpt) && AllPresent(added, threads, rpt) && AllIn(added, env)
    requires ValidPos(threads, t, i) && ValidPos(threads, u, j) && ValidPos(threads, v, k)
    requires Precedes(threads, rpt, env, t, i, u, j) && Precedes(threads, rpt, env, u, j, v, k)
    ensures Precedes(threads, rpt, env, t, i, v, k)
  {
    if t == u == v {
    } else if t == u {
      ClausesHold(threads, rpt, added, env, v, k, t, i, j);
      PrecedesOpposite(threads, rpt, env, t, i, v, k);
      PrecedesOpposite(threads, rpt, env, t, j, v, k);
    } else if u == v {
      ClausesHold(threads, rpt, added, env, t, i, u, j, k);
    } else if t == v {
      PrecedesOpposite(threads, rpt, env, t, i, u, j);
      PrecedesOpposite(threads, rpt, env, t, k, u, j);
      if k < i {
        ClausesHold(threads, rpt, added, env, u, j, t, k, i);
      }
    } else {
      PrecedesOpposite(threads, rpt, env, t, i, v, k);
      var hi := if t > u && t > v then 0 else if u > v then 1 else 2;
      if hi == 0 {
        if u > v {
          NoCycle(threads, rpt, added, env, t, i, u, j, v, k);
        } else {
          NoCycle(threads, rpt, added, env, t, i, v, k, u, j);
        }
      } else if hi == 1 {
        if t > v {
          NoCycle(threads, rpt, added, env, u, j, t, i, v, k);
        } else {
          NoCycle(threads, rpt, added, env, u, j, v, k, t, i);
        }
      } else {
        if t > u {
          NoCycle(threads, rpt, added, env, v, k, t, i, u, j);
        } else {
          NoCycle(threads, rpt, added, env, v, k, u, j, t, i);
        }
      }
    }
  }

  /** An assignment satisfies the clauses that genTransOrderConstraints adds exactly when
      "vector index within a thread, order variable across threads" is a strict total order. */
  lemma TransClausesMeanTotalOrder(threads: seq<seq<EPRecord>>, rpt: RecPairTable,
                                   before: set<Constraint>, added: set<Constraint>, env: Env)
    requires HasAllPairs(threads, rpt) && AllPresent(added, threads, rpt) && before <= added
    requires forall c | c in added && c !in before :: FollowsFromOrder(threads, rpt, c)
    ensures AllIn(added, env) ==> StrictTotalOrder(threads, rpt, env)
    ensures AllIn(before, env) ==> (AllIn(added, env) <==> StrictTotalOrder(threads, rpt, env))
  {
    if AllIn(added, env) {
      forall t, i, u, j | ValidPos(threads, t, i) && ValidPos(threads, u, j) && (t, i) != (u, j)
        ensures Precedes(threads, rpt, env, t, i, u, j) != Precedes(threads, rpt, env, u, j, t, i)
      {
        PrecedesOpposite(threads, rpt, env, t, i, u, j);
      }
      forall t, i, u, j, v, k | ValidPos(threads, t, i) && ValidPos(threads, u, j) && ValidPos(threads, v, k)
          && Precedes(threads, rpt, env, t, i, u, j) && Precedes(threads, rpt, env, u, j, v, k)
        ensures Precedes(threads, rpt, env, t, i, v, k)
      {
        PrecedesTransitive(threads, rpt, added, env, t, i, u, j, v, k);
      }
    }
  }
}
