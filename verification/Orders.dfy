/** Which orders a solution may describe: reading the order back (getOrder of constgen.cc), and which orders the
    clauses admit. */
module Orders {
  import opened CodeRecords
  import opened ConstGens
  import opened Constraints
  import opened ExecPoints
  import opened Records

  /** The entries of the order table are constants and variables, and no two entries share a variable. */
  ghost predicate TableSimple(rpt: RecPairTable) {
    && (forall p | p in rpt :: rpt[p].True? || rpt[p].False? || rpt[p].Var?)
    && (forall p, q | p in rpt && q in rpt && p != q && rpt[p].Var? :: rpt[p] != rpt[q])
  }

  /** getOrder: the order of two records of different threads in a solution. */
  method GetOrder(rpt: RecPairTable, first: EPRecord, second: EPRecord, sol: seq<bool>) returns (order: bool)
    requires TableSimple(rpt) && HasPair(rpt, first, second) && first.Tid() != second.Tid()
    requires forall p | p in rpt && rpt[p].Var? :: rpt[p].v < |sol|
    ensures order <==> Eval(OrderConstraint(rpt, first, second), EnvOf(sol))
  {
    var same := (first, second) in rpt;
    var c := if same then rpt[(first, second)] else rpt[(second, first)];
    var value := match c
      case True => true
      case Var(v) => sol[v]
      case _ => false;
    order := if same then value else !value;
  }

  // ---------------------------------------------------------------- all orders

  /** The i-th record of thread t's vector. */
  datatype Position = At(t: nat, i: nat)

  type Order = (Position, Position) -> bool

  predicate Present(threads: seq<seq<EPRecord>>, p: Position) {
    ValidPos(threads, p.t, p.i)
  }

  /** The order that an assignment describes. */
  ghost predicate Comes(threads: seq<seq<EPRecord>>, rpt: RecPairTable, env: Env, p: Position, q: Position)
    requires HasAllPairs(threads, rpt) && Present(threads, p) && Present(threads, q)
  {
    Precedes(threads, rpt, env, p.t, p.i, q.t, q.i)
  }

  function RecordAt(threads: seq<seq<EPRecord>>, p: Position): EPRecord
    requires Present(threads, p)
  {
    threads[p.t][p.i]
  }

  /** Program order, and what thread starts and joins decide. */
  ghost predicate Fixed(threads: seq<seq<EPRecord>>, rpt: RecPairTable, p: Position, q: Position)
    requires HasAllPairs(threads, rpt)
  {
    && Present(threads, p) && Present(threads, q)
    && if p.t == q.t then p.i < q.i else OC(threads, rpt, p.t, p.i, q.t, q.i) == True
  }

  /** A strict total order of all records that agrees with what is fixed: an interleaving. */
  ghost predicate Interleaving(threads: seq<seq<EPRecord>>, rpt: RecPairTable, r: Order)
    requires HasAllPairs(threads, rpt)
  {
    && (forall p, q | Present(threads, p) && Present(threads, q) && p != q :: r(p, q) != r(q, p))
    && (forall p | Present(threads, p) :: !r(p, p))
    && (forall p, q, s | Present(threads, p) && Present(threads, q) && Present(threads, s) && r(p, q) && r(q, s) ::
          r(p, s))
    && (forall p, q | Fixed(threads, rpt, p, q) :: r(p, q))
  }

  /** The variable of the pair is true when the order puts the first record first. */
  ghost predicate Chosen(threads: seq<seq<EPRecord>>, rpt: RecPairTable, r: Order, v: VarId, p: Position, q: Position) {
    && Present(threads, p) && Present(threads, q) && r(p, q)
    && (RecordAt(threads, p), RecordAt(threads, q)) in rpt
    && rpt[(RecordAt(threads, p), RecordAt(threads, q))] == Var(v)
  }

  /** The assignment that describes an order. */
  ghost function Describing(threads: seq<seq<EPRecord>>, rpt: RecPairTable, r: Order): Env {
    iset v: VarId | SomeChosen(threads, rpt, r, v)
  }

  ghost predicate SomeChosen(threads: seq<seq<EPRecord>>, rpt: RecPairTable, r: Order, v: VarId) {
    exists p, q :: Chosen(threads, rpt, r, v, p, q)
  }

  lemma SamePosition(threads: seq<seq<EPRecord>>, p: Position, q: Position)
    requires ThreadsValid(threads) && Present(threads, p) && Present(threads, q)
    requires RecordAt(threads, p) == RecordAt(threads, q)
    ensures p == q
  {
    assert RecordAt(threads, p).Tid() == p.t && RecordAt(threads, q).Tid() == q.t;
  }

  /** An entry of the table holds in the describing assignment exactly when the order says so. */
  lemma EntryDescribed(threads: seq<seq<EPRecord>>, rpt: RecPairTable, r: Order, p: Position, q: Position)
    requires ThreadsValid(threads) && HasAllPairs(threads, rpt) && TableSimple(rpt) && Interleaving(threads, rpt, r)
    requires Present(threads, p) && Present(threads, q) && p.t != q.t
    requires (RecordAt(threads, p), RecordAt(threads, q)) in rpt
    ensures Comes(threads, rpt, Describing(threads, rpt, r), p, q) <==> r(p, q)
  {
    var env := Describing(threads, rpt, r);
    var c := rpt[(RecordAt(threads, p), RecordAt(threads, q))];
    assert OC(threads, rpt, p.t, p.i, q.t, q.i) == c;
    if c.Var? {
      if c.v in env {
        var p', q' :| Chosen(threads, rpt, r, c.v, p', q');
        SamePosition(threads, p, p');
        SamePosition(threads, q, q');
      }
      if r(p, q) {
        assert Chosen(threads, rpt, r, c.v, p, q);
      }
    } else if c.True? {
      assert Fixed(threads, rpt, p, q);
    } else {
      assert OC(threads, rpt, q.t, q.i, p.t, p.i) == Negate(c);
      assert Fixed(threads, rpt, q, p);
    }
  }

  lemma OrderDescribed(threads: seq<seq<EPRecord>>, rpt: RecPairTable, r: Order, p: Position, q: Position)
    requires ThreadsValid(threads) && HasAllPairs(threads, rpt) && TableSimple(rpt) && Interleaving(threads, rpt, r)
    requires Present(threads, p) && Present(threads, q)
    ensures Comes(threads, rpt, Describing(threads, rpt, r), p, q) <==> r(p, q)
  {
    var env := Describing(threads, rpt, r);
    if p.t == q.t {
      assert p.i < q.i ==> Fixed(threads, rpt, p, q);
      assert q.i < p.i ==> Fixed(threads, rpt, q, p);
      assert p.i == q.i ==> p == q;
    } else if (RecordAt(threads, p), RecordAt(threads, q)) in rpt {
      EntryDescribed(threads, rpt, r, p, q);
    } else {
      assert HasPair(rpt, threads[p.t][p.i], threads[q.t][q.i]);
      EntryDescribed(threads, rpt, r, q, p);
      OrderAntisymmetric(rpt, RecordAt(threads, q), RecordAt(threads, p), env);
    }
  }

  /** The clauses lose no interleaving: every one is described by an assignment that satisfies them. */
  lemma EveryInterleavingIsDescribed(threads: seq<seq<EPRecord>>, rpt: RecPairTable, r: Order)
    requires ThreadsValid(threads) && HasAllPairs(threads, rpt) && TableSimple(rpt) && Interleaving(threads, rpt, r)
    ensures StrictTotalOrder(threads, rpt, Describing(threads, rpt, r))
    ensures forall p, q | Present(threads, p) && Present(threads, q) ::
      Comes(threads, rpt, Describing(threads, rpt, r), p, q) <==> r(p, q)
  {
    var env := Describing(threads, rpt, r);
    forall p, q | Present(threads, p) && Present(threads, q) ensures Comes(threads, rpt, env, p, q) <==> r(p, q) {
      OrderDescribed(threads, rpt, r, p, q);
    }
    forall t, i, u, j | ValidPos(threads, t, i) && ValidPos(threads, u, j) && (t, i) != (u, j)
      ensures Precedes(threads, rpt, env, t, i, u, j) != Precedes(threads, rpt, env, u, j, t, i)
    {
      var p, q := At(t, i), At(u, j);
      assert Comes(threads, rpt, env, p, q) <==> r(p, q);
      assert Comes(threads, rpt, env, q, p) <==> r(q, p);
    }
    forall t, i, u, j, v, k | ValidPos(threads, t, i) && ValidPos(threads, u, j) && ValidPos(threads, v, k)
        && Precedes(threads, rpt, env, t, i, u, j) && Precedes(threads, rpt, env, u, j, v, k)
      ensures Precedes(threads, rpt, env, t, i, v, k)
    {
      var p, q, s := At(t, i), At(u, j), At(v, k);
      assert Comes(threads, rpt, env, p, q) <==> r(p, q);
      assert Comes(threads, rpt, env, q, s) <==> r(q, s);
      assert Comes(threads, rpt, env, p, s) <==> r(p, s);
    }
  }

  /** And they admit nothing else: an assignment that satisfies them describes an interleaving. */
  lemma SatisfiedIsInterleaving(threads: seq<seq<EPRecord>>, rpt: RecPairTable, env: Env, r: Order)
    requires HasAllPairs(threads, rpt) && StrictTotalOrder(threads, rpt, env)
    requires forall p, q | Present(threads, p) && Present(threads, q) :: r(p, q) <==> Comes(threads, rpt, env, p, q)
    ensures Interleaving(threads, rpt, r)
  {
    forall p, q, s | Present(threads, p) && Present(threads, q) && Present(threads, s) && r(p, q) && r(q, s)
      ensures r(p, s)
    {
      assert Comes(threads, rpt, env, p, q) && Comes(threads, rpt, env, q, s);
    }
  }

  // ---------------------------------------------------------------- forced pairs

  ghost predicate FixedChain(threads: seq<seq<EPRecord>>, rpt: RecPairTable, path: seq<Position>)
    requires HasAllPairs(threads, rpt)
  {
    path != [] && forall k | 0 <= k < |path| - 1 :: Fixed(threads, rpt, path[k], path[k + 1])
  }

  /** A chain of program order, thread starts and joins leads from p to q. */
  ghost predicate Leads(threads: seq<seq<EPRecord>>, rpt: RecPairTable, p: Position, q: Position)
    requires HasAllPairs(threads, rpt)
  {
    exists path :: FixedChain(threads, rpt, path) && path[0] == p && path[|path| - 1] == q
  }

  lemma LeadsOn(threads: seq<seq<EPRecord>>, rpt: RecPairTable, p: Position, q: Position, s: Position)
    requires HasAllPairs(threads, rpt) && Leads(threads, rpt, p, q) && Fixed(threads, rpt, q, s)
    ensures Leads(threads, rpt, p, s)
  {
    var path :| FixedChain(threads, rpt, path) && path[0] == p && path[|path| - 1] == q;
    var longer := path + [s];
    forall k | 0 <= k < |longer| - 1 ensures Fixed(threads, rpt, longer[k], longer[k + 1]) {
      assert longer[k] == path[k];
    }
    assert FixedChain(threads, rpt, longer);
  }

  lemma {:induction false} ChainHolds(threads: seq<seq<EPRecord>>, rpt: RecPairTable, r: Order, path: seq<Position>)
    requires HasAllPairs(threads, rpt) && Interleaving(threads, rpt, r) && FixedChain(threads, rpt, path)
    ensures path[0] == path[|path| - 1] || r(path[0], path[|path| - 1])
    decreases |path|
  {
    var n := |path| - 1;
    if n > 0 {
      var rest := path[..n];
      assert Fixed(threads, rpt, path[n - 1], path[n]);
      forall k | 0 <= k < |rest| - 1 ensures Fixed(threads, rpt, rest[k], rest[k + 1]) {
        assert Fixed(threads, rpt, path[k], path[k + 1]);
      }
      if n > 1 {
        assert Fixed(threads, rpt, path[0], path[1]);
      }
      ChainHolds(threads, rpt, r, rest);
    }
  }

  /** The same order with everything that p leads to moved to the end. */
  ghost function Postponed(threads: seq<seq<EPRecord>>, rpt: RecPairTable, r: Order, late: iset<Position>): Order {
    (a: Position, b: Position) => if (a in late) == (b in late) then r(a, b) else b in late
  }

  lemma PostponedInterleaves(threads: seq<seq<EPRecord>>, rpt: RecPairTable, r: Order, late: iset<Position>)
    requires HasAllPairs(threads, rpt) && Interleaving(threads, rpt, r)
    requires forall a, b | a in late && Fixed(threads, rpt, a, b) :: b in late
    ensures Interleaving(threads, rpt, Postponed(threads, rpt, r, late))
  {
  }

  /** Every assignment that satisfies the clauses puts p before q exactly when a chain of program order, thread
      starts and joins does, provided that some assignment satisfies them. */
  lemma ForcedExactly(threads: seq<seq<EPRecord>>, rpt: RecPairTable, r: Order, p: Position, q: Position)
    requires ThreadsValid(threads) && HasAllPairs(threads, rpt) && TableSimple(rpt) && Interleaving(threads, rpt, r)
    requires Present(threads, p) && Present(threads, q) && p != q
    ensures (forall env: Env | StrictTotalOrder(threads, rpt, env) :: Comes(threads, rpt, env, p, q))
            <==> Leads(threads, rpt, p, q)
  {
    if Leads(threads, rpt, p, q) {
      var path :| FixedChain(threads, rpt, path) && path[0] == p && path[|path| - 1] == q;
      forall env: Env | StrictTotalOrder(threads, rpt, env) ensures Comes(threads, rpt, env, p, q) {
        var described: Order := (a: Position, b: Position) =>
          Present(threads, a) && Present(threads, b) && Comes(threads, rpt, env, a, b);
        SatisfiedIsInterleaving(threads, rpt, env, described);
        ChainHolds(threads, rpt, described, path);
      }
    } else {
      var late := iset a: Position | Leads(threads, rpt, p, a);
      forall a, b | a in late && Fixed(threads, rpt, a, b) ensures b in late {
        LeadsOn(threads, rpt, p, a, b);
      }
      assert FixedChain(threads, rpt, [p]) && [p][0] == p;
      var other := Postponed(threads, rpt, r, late);
      PostponedInterleaves(threads, rpt, r, late);
      EveryInterleavingIsDescribed(threads, rpt, other);
      assert other(q, p);
      assert !Comes(threads, rpt, Describing(threads, rpt, other), p, q);
    }
  }

  lemma FixedLeads(threads: seq<seq<EPRecord>>, rpt: RecPairTable, p: Position, q: Position)
    requires HasAllPairs(threads, rpt) && Fixed(threads, rpt, p, q)
    ensures Leads(threads, rpt, p, q)
  {
    assert FixedChain(threads, rpt, [p, q]) && [p, q][0] == p && [p, q][1] == q;
  }

  /** What a thread start or a join decides is fixed in every sound table. */
  lemma ThreadOrderIsFixed(threads: seq<seq<EPRecord>>, rpt: RecPairTable, o: ThreadOrder, varindex: nat, p: Position,
                           q: Position)
    requires TableSound(threads, rpt, o, varindex) && HasAllPairs(threads, rpt)
    requires Present(threads, p) && Present(threads, q) && p.t != q.t
    requires OrderThread(o, RecordAt(threads, p), RecordAt(threads, q))
    requires !OrderThread(o, RecordAt(threads, q), RecordAt(threads, p))
    ensures Fixed(threads, rpt, p, q) && Leads(threads, rpt, p, q)
  {
    var a, b := RecordAt(threads, p), RecordAt(threads, q);
    assert HasPair(rpt, threads[p.t][p.i], threads[q.t][q.i]);
    if (a, b) in rpt {
      assert EntryValid(threads, rpt, o, varindex, a, b);
    } else {
      assert EntryValid(threads, rpt, o, varindex, b, a);
    }
    FixedLeads(threads, rpt, p, q);
  }

  // ---------------------------------------------------------------- thread starts and joins

  /** An order of points in which every thread runs in program order, starts after the point that created it, and has
      ended when another one has joined it. */
  ghost predicate Respects(o: ThreadOrder, r: (Point, Point) -> bool) {
    && (forall x: Point, y: Point | x.tid == y.tid && Later(x.pairs, y.pairs) :: r(x, y))
    && (forall x, y, z | r(x, y) && r(y, z) :: r(x, z)) && (forall x :: !r(x, x))
    && (forall y: Point | y.tid in o.parents :: r(o.parents[y.tid], y))
    && (forall j, x: Point | j in o.joins && x.tid == j.joined :: r(x, j.ep))
  }

  /** The points that decide about the two records are comparable with them, and none is the point of the record. */
  ghost predicate PointsApart(o: ThreadOrder, first: EPRecord, second: EPRecord) {
    && (second.Tid() in o.parents && o.parents[second.Tid()].tid == first.Tid() ==>
          first.ep != o.parents[second.Tid()] && Consistent(first.ep.pairs, o.parents[second.Tid()].pairs))
    && (forall j | j in o.joins && j.ep.tid == second.Tid() && j.joined == first.Tid() ::
          second.ep != j.ep && Consistent(j.ep.pairs, second.ep.pairs))
  }

  /** Only the start of the second thread by the first, and the joins of the first by the second. */
  ghost predicate OnlyBetween(o: ThreadOrder, first: nat, second: nat) {
    && (forall t | t in o.parents :: t == second && o.parents[t].tid == first)
    && (forall j | j in o.joins :: j.ep.tid == second && j.joined == first)
  }

  /** What orderThread orders is ordered so in every execution. */
  lemma ThreadOrderHolds(o: ThreadOrder, r: (Point, Point) -> bool, first: EPRecord, second: EPRecord)
    requires Respects(o, r) && PointsApart(o, first, second) && OrderThread(o, first, second)
    ensures r(first.ep, second.ep)
  {
    if i :| 0 <= i < |o.joins| && o.joins[i].ep.tid == second.Tid() && o.joins[i].joined == first.Tid()
            && Compare(o.joins[i].ep.pairs, second.ep.pairs) == After {
      LaterIsAfter(o.joins[i].ep.pairs, second.ep.pairs);
      assert o.joins[i] in o.joins;
    } else {
      LaterIsAfter(first.ep.pairs, o.parents[second.Tid()].pairs);
    }
  }

  predicate NotAfter(x: Point, y: Point) {
    x == y || (x.tid == y.tid && Later(x.pairs, y.pairs))
  }

  /** Up to the start of the second thread, or from a join of the first thread on. */
  ghost predicate Across(o: ThreadOrder, x: Point, y: Point) {
    || (y.tid in o.parents && NotAfter(x, o.parents[y.tid]))
    || exists j :: j in o.joins && j.joined == x.tid && NotAfter(j.ep, y)
  }

  /** The least order that a start and joins between two threads ask for. */
  ghost predicate LeastOrder(o: ThreadOrder, first: nat, second: nat, x: Point, y: Point) {
    (x.tid == y.tid && Later(x.pairs, y.pairs)) || (x.tid == first && y.tid == second && Across(o, x, y))
  }

  lemma NotAfterTransitive(x: Point, y: Point, z: Point)
    requires NotAfter(x, y) && NotAfter(y, z)
    ensures NotAfter(x, z)
  {
    if x != y && y != z {
      LaterTransitive(x.pairs, y.pairs, z.pairs);
    }
  }

  lemma LeastTransitive(o: ThreadOrder, first: nat, second: nat, x: Point, y: Point, z: Point)
    requires first != second && LeastOrder(o, first, second, x, y) && LeastOrder(o, first, second, y, z)
    ensures LeastOrder(o, first, second, x, z)
  {
    if x.tid == z.tid {
      LaterTransitive(x.pairs, y.pairs, z.pairs);
    } else if x.tid == y.tid {
      if z.tid in o.parents && NotAfter(y, o.parents[z.tid]) {
        NotAfterTransitive(x, y, o.parents[z.tid]);
      }
    } else if j :| j in o.joins && j.joined == x.tid && NotAfter(j.ep, y) {
      NotAfterTransitive(j.ep, y, z);
    }
  }

  lemma LeastRespects(o: ThreadOrder, first: nat, second: nat)
    requires first != second && OnlyBetween(o, first, second)
    ensures Respects(o, (x: Point, y: Point) => LeastOrder(o, first, second, x, y))
  {
    forall x, y, z | LeastOrder(o, first, second, x, y) && LeastOrder(o, first, second, y, z)
      ensures LeastOrder(o, first, second, x, z)
    {
      LeastTransitive(o, first, second, x, y, z);
    }
    forall x: Point ensures !LeastOrder(o, first, second, x, x) {
      LaterIsAfter(x.pairs, x.pairs);
    }
    forall j, x: Point | j in o.joins && x.tid == j.joined ensures LeastOrder(o, first, second, x, j.ep) {
      assert NotAfter(j.ep, j.ep);
    }
  }

  lemma AcrossIsOrdered(o: ThreadOrder, first: EPRecord, second: EPRecord)
    requires OnlyBetween(o, first.Tid(), second.Tid()) && PointsApart(o, first, second)
    requires Across(o, first.ep, second.ep)
    ensures OrderThread(o, first, second)
  {
    if second.Tid() in o.parents && NotAfter(first.ep, o.parents[second.Tid()]) {
      LaterIsAfter(first.ep.pairs, o.parents[second.Tid()].pairs);
    } else {
      var j :| j in o.joins && j.joined == first.Tid() && NotAfter(j.ep, second.ep);
      LaterIsAfter(j.ep.pairs, second.ep.pairs);
    }
  }

  /** And when only the start and the joins between the two threads are looked at, it orders everything that is ordered
      in every execution. */
  lemma ThreadOrderExactly(o: ThreadOrder, first: EPRecord, second: EPRecord)
    requires first.Tid() != second.Tid() && OnlyBetween(o, first.Tid(), second.Tid()) && PointsApart(o, first, second)
    ensures OrderThread(o, first, second)
            <==> forall r: (Point, Point) -> bool | Respects(o, r) :: r(first.ep, second.ep)
  {
    if OrderThread(o, first, second) {
      forall r: (Point, Point) -> bool | Respects(o, r) ensures r(first.ep, second.ep) {
        ThreadOrderHolds(o, r, first, second);
      }
    } else {
      LeastRespects(o, first.Tid(), second.Tid());
      var r := (x: Point, y: Point) => LeastOrder(o, first.Tid(), second.Tid(), x, y);
      if Across(o, first.ep, second.ep) {
        AcrossIsOrdered(o, first, second);
      }
      assert Respects(o, r) && !r(first.ep, second.ep);
    }
  }

  /** A thread start decides about the creating thread's operations only. When thread 1 starts thread 2 before it
      has an operation, nothing leads from an operation before the start of thread 1 to one of thread 2, and the
      clauses admit that the latter comes first. */
  lemma GrandchildMayComeFirst(a: EPRecord, b: EPRecord, start1: Point, start2: Point)
    requires a.Tid() == start1.tid == 0 && start2.tid == 1 && b.Tid() == 2
    requires Compare(a.ep.pairs, start1.pairs) == After
    ensures var threads, rpt := [[a], [], [b]], map[(a, b) := Var(1)];
      && TableSound(threads, rpt, ThreadOrder(map[1 := start1, 2 := start2], []), 2) && TableComplete(threads, rpt)
      && ThreadsValid(threads) && HasAllPairs(threads, rpt)
      && StrictTotalOrder(threads, rpt, iset{}) && Comes(threads, rpt, iset{}, At(2, 0), At(0, 0))
  {
    var threads := [[a], [], [b]];
    var rpt: RecPairTable := map[(a, b) := Var(1)];
    var order := ThreadOrder(map[1 := start1, 2 := start2], []);
    assert threads[0] == [a] && threads[1] == [] && threads[2] == [b];
    forall t, i | ValidPos(threads, t, i) ensures i == 0 && (t == 0 || t == 2) {
    }
    assert EntryValid(threads, rpt, order, 2, a, b);
    LaterFirst(threads, rpt, a, b);
  }

  /** The assignment that sets no variable puts the later thread's record first. */
  lemma LaterFirst(threads: seq<seq<EPRecord>>, rpt: RecPairTable, a: EPRecord, b: EPRecord)
    requires a.Tid() == 0 && b.Tid() == 2 && threads == [[a], [], [b]] && rpt == map[(a, b) := Var(1)]
    requires HasAllPairs(threads, rpt)
    ensures StrictTotalOrder(threads, rpt, iset{}) && Comes(threads, rpt, iset{}, At(2, 0), At(0, 0))
  {
    assert threads[0] == [a] && threads[1] == [] && threads[2] == [b];
    forall t, i | ValidPos(threads, t, i) ensures i == 0 && (t == 0 || t == 2) {
    }
    assert OrderConstraint(rpt, a, b) == Var(1) && OrderConstraint(rpt, b, a) == NotVar(1);
  }
}
