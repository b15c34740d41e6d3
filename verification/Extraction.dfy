/** From a solution of the encoding to a schedule: the order that a solution describes is one that buildSchedule can
    merge by, and which runs every solution schedules in its own order (buildSchedule with getOrder). */
module Extractions {
  import opened ConstGens
  import opened Constraints
  import opened Encodings
  import opened ExecPoints
  import opened Orders
  import opened Records
  import opened SCExecutions
  import opened Schedules

  // ---------------------------------------------------------------- the operations of a run in the encoder's vectors

  predicate LocatedAt(w: Input, threads: seq<seq<EPRecord>>, pos: map<nat, Position>, x: nat) {
    && x in w.graph && x in pos && Present(threads, pos[x])
    && RecordAt(threads, pos[x]).ep == w.graph[x].point && pos[x].t == w.graph[x].point.tid
  }

  /** The operations of the run are records of the vectors, and no two have the same execution point. */
  ghost predicate Located(w: Input, top: nat, root: nat, threads: seq<seq<EPRecord>>, pos: map<nat, Position>) {
    && Recorded(w, top) && root in w.graph
    && (forall x {:trigger LocatedAt(w, threads, pos, x)} | x in Ops(w, top, Some(root)) ::
          LocatedAt(w, threads, pos, x))
    && (forall x, y | x in Ops(w, top, Some(root)) && y in Ops(w, top, Some(root)) && x != y ::
          w.graph[x].point != w.graph[y].point)
  }

  /** The solution puts x before y. */
  ghost predicate Solved(threads: seq<seq<EPRecord>>, rpt: RecPairTable, pos: map<nat, Position>, env: Env, x: nat,
                         y: nat)
    requires HasAllPairs(threads, rpt)
  {
    && x in pos && y in pos && Present(threads, pos[x]) && Present(threads, pos[y])
    && Comes(threads, rpt, env, pos[x], pos[y])
  }

  /** The builder's order is the solution's. */
  ghost predicate OrderIsSolved(w: Input, top: nat, root: nat, threads: seq<seq<EPRecord>>, rpt: RecPairTable,
                                pos: map<nat, Position>, env: Env)
    requires Recorded(w, top) && root in w.graph && HasAllPairs(threads, rpt)
  {
    forall x, y | x in Ops(w, top, Some(root)) && y in Ops(w, top, Some(root)) ::
      w.order(x, y) <==> Solved(threads, rpt, pos, env, x, y)
  }

  /** A solution of the order clauses gives buildSchedule the order that it asks for. */
  lemma SolutionIsTotal(w: Input, top: nat, root: nat, threads: seq<seq<EPRecord>>, rpt: RecPairTable,
                        pos: map<nat, Position>, env: Env)
    requires Located(w, top, root, threads, pos) && HasAllPairs(threads, rpt) && StrictTotalOrder(threads, rpt, env)
    requires OrderIsSolved(w, top, root, threads, rpt, pos, env)
    ensures TotalOrder(w, top, root)
  {
    var ops := Ops(w, top, Some(root));
    forall a, b | a in ops && b in ops && a != b ensures w.order(a, b) != w.order(b, a) {
      assert LocatedAt(w, threads, pos, a) && LocatedAt(w, threads, pos, b);
    }
    forall a | a in ops ensures !w.order(a, a) {
      assert LocatedAt(w, threads, pos, a);
    }
    forall a, b, c | a in ops && b in ops && c in ops && w.order(a, b) && w.order(b, c) ensures w.order(a, c) {
      assert LocatedAt(w, threads, pos, a) && LocatedAt(w, threads, pos, b) && LocatedAt(w, threads, pos, c);
    }
  }

  // ---------------------------------------------------------------- which runs are scheduled in order

  /** The run does o after a, in a's thread or in one that is started after a. */
  ghost predicate DoneAfter(w: Input, top: nat, root: nat, a: nat, o: nat)
    requires Recorded(w, top) && root in w.graph
  {
    a in Ops(w, top, Some(root)) && o in Ops(w, top, Onward(w, a))
  }

  /** What a thread goes on to is its own, and later, or done by threads with higher numbers. */
  lemma {:induction false} OpsAreLater(w: Input, top: nat, at: nat, o: nat)
    requires Recorded(w, top) && at in w.graph && o in Ops(w, top, Some(at))
    ensures Tid(w, o) >= Tid(w, at)
    ensures Tid(w, o) == Tid(w, at) ==> o == at || Schedules.Before(w, at, o)
    decreases top - Tid(w, at), |Rest(w, at)|
  {
    StepOn(w, top, at);
    var next := Onward(w, at);
    if o in Ops(w, top, next) {
      OpsAreLater(w, top, next.value, o);
      if Tid(w, o) == Tid(w, at) && o != next.value {
        LaterTransitive(w.graph[at].point.pairs, w.graph[next.value].point.pairs, w.graph[o].point.pairs);
      }
    } else if o != at {
      OpsAreLater(w, top, w.graph[at].child.value, o);
    }
  }

  /** The operations of a later part of the run are operations of the run. */
  lemma {:induction false} OnwardIsIn(w: Input, top: nat, at: nat, a: nat)
    requires Recorded(w, top) && at in w.graph && a in Ops(w, top, Some(at))
    ensures Ops(w, top, Onward(w, a)) <= Ops(w, top, Some(at))
    decreases top - Tid(w, at), |Rest(w, at)|
  {
    StepOn(w, top, at);
    var next := Onward(w, at);
    if a == at {
    } else if a in Ops(w, top, next) {
      OnwardIsIn(w, top, next.value, a);
    } else {
      OnwardIsIn(w, top, w.graph[at].child.value, a);
    }
  }

  lemma DoneAfterIsLater(w: Input, top: nat, root: nat, a: nat, o: nat)
    requires Recorded(w, top) && root in w.graph && DoneAfter(w, top, root, a, o)
    ensures o in Ops(w, top, Some(root)) && o != a
    ensures Tid(w, a) == Tid(w, o) ==> Schedules.Before(w, a, o)
  {
    var next := Onward(w, a);
    StepOn(w, top, a);
    OnwardIsIn(w, top, root, a);
    OpsAreLater(w, top, next.value, o);
    if o != next.value && Tid(w, a) == Tid(w, o) {
      LaterTransitive(w.graph[a].point.pairs, w.graph[next.value].point.pairs, w.graph[o].point.pairs);
    }
    LaterIsAfter(w.graph[a].point.pairs, w.graph[a].point.pairs);
  }

  /** A later record of a thread is later in its vector. */
  lemma LaterIsBehind(threads: seq<seq<EPRecord>>, p: Position, q: Position)
    requires VectorsFollowPoints(threads) && Present(threads, p) && Present(threads, q) && p.t == q.t
    requires Later(RecordAt(threads, p).ep.pairs, RecordAt(threads, q).ep.pairs)
    ensures p.i < q.i
  {
    var a, b := RecordAt(threads, p).ep.pairs, RecordAt(threads, q).ep.pairs;
    LaterIsAfter(a, b);
    CompareAntisymmetric(a, b);
  }

  /** Program order is that of the vectors, so every solution keeps it. */
  lemma ProgramOrderIsKept(w: Input, top: nat, root: nat, threads: seq<seq<EPRecord>>, rpt: RecPairTable,
                           pos: map<nat, Position>, a: nat, o: nat)
    requires Located(w, top, root, threads, pos) && HasAllPairs(threads, rpt) && VectorsFollowPoints(threads)
    requires DoneAfter(w, top, root, a, o) && Tid(w, a) == Tid(w, o)
    ensures LocatedAt(w, threads, pos, a) && LocatedAt(w, threads, pos, o)
    ensures Fixed(threads, rpt, pos[a], pos[o]) && Leads(threads, rpt, pos[a], pos[o])
  {
    DoneAfterIsLater(w, top, root, a, o);
    assert LocatedAt(w, threads, pos, a) && LocatedAt(w, threads, pos, o);
    LaterIsBehind(threads, pos[a], pos[o]);
    FixedLeads(threads, rpt, pos[a], pos[o]);
  }

  /** Every operation of another thread that the run does after a, by creating this thread, is linked to a by a chain
      of program order, thread starts and joins. */
  ghost predicate StartsLinked(w: Input, top: nat, root: nat, threads: seq<seq<EPRecord>>, rpt: RecPairTable,
                               pos: map<nat, Position>)
    requires Recorded(w, top) && root in w.graph && HasAllPairs(threads, rpt)
  {
    forall a, o | DoneAfter(w, top, root, a, o) && Tid(w, a) != Tid(w, o) ::
      a in pos && o in pos && Leads(threads, rpt, pos[a], pos[o])
  }

  /** The solution agrees with program order and thread creation. */
  ghost predicate SolvedInOrder(w: Input, top: nat, root: nat, threads: seq<seq<EPRecord>>, rpt: RecPairTable,
                                pos: map<nat, Position>, env: Env)
    requires Recorded(w, top) && root in w.graph && HasAllPairs(threads, rpt)
  {
    forall a, o | DoneAfter(w, top, root, a, o) :: Solved(threads, rpt, pos, env, a, o)
  }

  /** For the builder this is the condition under which it emits the operations in the order of the solution. */
  lemma SolvedInOrderMeaning(w: Input, top: nat, root: nat, threads: seq<seq<EPRecord>>, rpt: RecPairTable,
                             pos: map<nat, Position>, env: Env)
    requires Recorded(w, top) && root in w.graph && HasAllPairs(threads, rpt)
    requires OrderIsSolved(w, top, root, threads, rpt, pos, env)
    ensures AllComeFirst(w, top, root) <==> SolvedInOrder(w, top, root, threads, rpt, pos, env)
  {
    forall a, o | DoneAfter(w, top, root, a, o)
      ensures o in Ops(w, top, Some(root)) && (AllComeFirst(w, top, root) ==> w.order(a, o))
    {
      OnwardIsIn(w, top, root, a);
      assert AllComeFirst(w, top, root) ==> ComesFirst(w, top, a);
    }
    forall a | a in Ops(w, top, Some(root)) && SolvedInOrder(w, top, root, threads, rpt, pos, env)
      ensures ComesFirst(w, top, a)
    {
      forall o | o in Ops(w, top, Onward(w, a)) ensures w.order(a, o) {
        assert DoneAfter(w, top, root, a, o);
      }
    }
  }

  /** Every solution schedules the run in its own order exactly when the operations of a created thread are linked to
      the operations before its creation; otherwise some solution does not. */
  lemma AlwaysInOrderExactly(w: Input, top: nat, root: nat, threads: seq<seq<EPRecord>>, rpt: RecPairTable,
                             pos: map<nat, Position>, r: Order)
    requires Located(w, top, root, threads, pos) && VectorsFollowPoints(threads)
    requires ThreadsValid(threads) && HasAllPairs(threads, rpt) && TableSimple(rpt) && Interleaving(threads, rpt, r)
    ensures (forall env: Env | StrictTotalOrder(threads, rpt, env) ::
      SolvedInOrder(w, top, root, threads, rpt, pos, env))
            <==> StartsLinked(w, top, root, threads, rpt, pos)
  {
    forall a, o | DoneAfter(w, top, root, a, o)
      ensures LocatedAt(w, threads, pos, a) && LocatedAt(w, threads, pos, o)
      ensures (forall env: Env | StrictTotalOrder(threads, rpt, env) :: Solved(threads, rpt, pos, env, a, o))
              <==> Leads(threads, rpt, pos[a], pos[o])
      ensures Tid(w, a) == Tid(w, o) ==> Leads(threads, rpt, pos[a], pos[o])
    {
      AlwaysSolvedExactly(w, top, root, threads, rpt, pos, r, a, o);
    }
  }

  lemma AlwaysSolvedExactly(w: Input, top: nat, root: nat, threads: seq<seq<EPRecord>>, rpt: RecPairTable,
                            pos: map<nat, Position>, r: Order, a: nat, o: nat)
    requires Located(w, top, root, threads, pos) && VectorsFollowPoints(threads) && DoneAfter(w, top, root, a, o)
    requires ThreadsValid(threads) && HasAllPairs(threads, rpt) && TableSimple(rpt) && Interleaving(threads, rpt, r)
    ensures LocatedAt(w, threads, pos, a) && LocatedAt(w, threads, pos, o)
    ensures (forall env: Env | StrictTotalOrder(threads, rpt, env) :: Solved(threads, rpt, pos, env, a, o))
            <==> Leads(threads, rpt, pos[a], pos[o])
    ensures Tid(w, a) == Tid(w, o) ==> Leads(threads, rpt, pos[a], pos[o])
  {
    DoneAfterIsLater(w, top, root, a, o);
    assert LocatedAt(w, threads, pos, a) && LocatedAt(w, threads, pos, o);
    if Tid(w, a) == Tid(w, o) {
      ProgramOrderIsKept(w, top, root, threads, rpt, pos, a, o);
    }
    assert pos[a] != pos[o];
    ForcedExactly(threads, rpt, r, pos[a], pos[o]);
  }

  // ---------------------------------------------------------------- a run that is not

  /** The run of GrandchildMayComeFirst as the builder sees it: thread 0 has an operation and starts thread 1, which
      starts thread 2 at once, which has an operation. */
  function GrandchildRun(a: Point, start1: Point, start2: Point, b: Point): Input {
    Input(map[0 := Rec(a, Memory, Some(1), None, None, 0, [], true),
              1 := Rec(start1, ThreadCreate, None, Some(2), None, 0, [], true),
              2 := Rec(start2, ThreadCreate, None, Some(3), None, 0, [], true),
              3 := Rec(b, Memory, None, None, None, 0, [], true)],
          map[], false, (x, y) => x == 3 && y == 0)
  }

  ghost predicate GrandchildPoints(a: Point, start1: Point, start2: Point, b: Point) {
    a.tid == start1.tid == 0 && start2.tid == 1 && b.tid == 2 && Later(a.pairs, start1.pairs)
  }

  lemma GrandchildRecorded(a: Point, start1: Point, start2: Point, b: Point)
    requires GrandchildPoints(a, start1, start2, b)
    ensures Recorded(GrandchildRun(a, start1, start2, b), 3)
  {
    var w := GrandchildRun(a, start1, start2, b);
    GrandchildLinks(a, start1, start2, b);
    assert Creates(w, 1) && Creates(w, 2);
    assert RunsOn(w, 3, 0) && RunsOn(w, 3, 1) && RunsOn(w, 3, 2) && RunsOn(w, 3, 3);
    assert forall x | x in w.graph :: x < 4;
  }

  lemma GrandchildLinks(a: Point, start1: Point, start2: Point, b: Point)
    ensures var w := GrandchildRun(a, start1, start2, b);
      && Closed(w) && Onward(w, 0) == Some(1) && Onward(w, 1) == None && Onward(w, 2) == None && Onward(w, 3) == None
  {
    var w := GrandchildRun(a, start1, start2, b);
    forall x | x in w.graph ensures RecOk(w, x) {
    }
    assert GetNextRecord(w, 0) == Some(1) && GetNextRecord(w, 1) == None;
    assert GetNextRecord(w, 2) == None && GetNextRecord(w, 3) == None;
  }

  lemma GrandchildOps(a: Point, start1: Point, start2: Point, b: Point)
    requires GrandchildPoints(a, start1, start2, b)
    ensures var w := GrandchildRun(a, start1, start2, b);
      Recorded(w, 3) && Ops(w, 3, Some(0)) == {0, 3} && Ops(w, 3, Onward(w, 0)) == {3}
  {
    var w := GrandchildRun(a, start1, start2, b);
    GrandchildRecorded(a, start1, start2, b);
    assert Ops(w, 3, None) == {};
    assert Ops(w, 3, Some(3)) == {3};
    assert Ops(w, 3, Some(2)) == {3};
    assert Ops(w, 3, Some(1)) == {3};
  }

  /** The clauses admit a solution that puts the grandchild's operation first. This is the order of the run, and the
      builder does not emit the run in it. */
  lemma GrandchildOutOfOrder(a: EPRecord, b: EPRecord, start1: Point, start2: Point)
    requires GrandchildPoints(a.ep, start1, start2, b.ep)
    ensures var threads, rpt, pos := [[a], [], [b]], map[(a, b) := Var(1)], map[0 := At(0, 0), 3 := At(2, 0)];
      var w := GrandchildRun(a.ep, start1, start2, b.ep);
      && HasAllPairs(threads, rpt) && StrictTotalOrder(threads, rpt, iset{}) && Located(w, 3, 0, threads, pos)
      && OrderIsSolved(w, 3, 0, threads, rpt, pos, iset{}) && TotalOrder(w, 3, 0) && !AllComeFirst(w, 3, 0)
  {
    var threads := [[a], [], [b]];
    var rpt: RecPairTable := map[(a, b) := Var(1)];
    var pos := map[0 := At(0, 0), 3 := At(2, 0)];
    var w := GrandchildRun(a.ep, start1, start2, b.ep);
    LaterIsAfter(a.ep.pairs, start1.pairs);
    GrandchildMayComeFirst(a, b, start1, start2);
    GrandchildOps(a.ep, start1, start2, b.ep);
    assert LocatedAt(w, threads, pos, 0) && LocatedAt(w, threads, pos, 3);
    GrandchildSolved(a, b, threads, rpt, pos);
    SolutionIsTotal(w, 3, 0, threads, rpt, pos, iset{});
    assert !ComesFirst(w, 3, 0) by {
      assert !w.order(0, 3);
    }
  }

  lemma GrandchildSolved(a: EPRecord, b: EPRecord, threads: seq<seq<EPRecord>>, rpt: RecPairTable,
                         pos: map<nat, Position>)
    requires a.Tid() == 0 && b.Tid() == 2 && threads == [[a], [], [b]] && rpt == map[(a, b) := Var(1)]
    requires pos == map[0 := At(0, 0), 3 := At(2, 0)] && HasAllPairs(threads, rpt)
    requires StrictTotalOrder(threads, rpt, iset{}) && Comes(threads, rpt, iset{}, At(2, 0), At(0, 0))
    ensures forall x, y | x in {0, 3} && y in {0, 3} :: Solved(threads, rpt, pos, iset{}, x, y) <==> x == 3 && y == 0
  {
  }
}
