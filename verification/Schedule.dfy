/** Turning a solution into a schedule: the merge of the threads' operations by the order of the
    solution, and the wait pairs that enforce it (schedulebuilder.cc). */
module Schedules {
  import opened Encodings
  import opened ExecPoints
  import opened Replays

  // ---------------------------------------------------------------- the record graph

  /** Memory is a load, a store or a read-modify-write. */
  datatype Kind = Memory | LoopEnter | Branch | ThreadCreate | Yield | Other

  /** A record with its links: the following record, the child (first record of a loop or of a created
      thread), the branch and the direction that it sits in, and for a branch the first record of every known
      direction. */
  datatype Rec = Rec(point: Point, kind: Kind, next: Option<nat>, child: Option<nat>, branch: Option<nat>,
                     direction: nat, dirs: seq<Option<nat>>, hasNext: bool)

  /** The graph, the decoded branch directions, and the order of the solution (getOrder). */
  datatype Input = Input(graph: map<nat, Rec>, values: map<nat, int>, noexecyields: bool, order: (nat, nat) -> bool)

  predicate LinkOk(g: map<nat, Rec>, l: Option<nat>) {
    l.Some? ==> l.value in g
  }

  predicate RecOk(w: Input, x: nat)
    requires x in w.graph
  {
    var r := w.graph[x];
    && LinkOk(w.graph, r.next) && LinkOk(w.graph, r.child) && LinkOk(w.graph, r.branch)
    && (forall i | 0 <= i < |r.dirs| :: LinkOk(w.graph, r.dirs[i]))
    && (r.branch.Some? ==> |w.graph[r.branch.value].point.pairs| < |r.point.pairs|)
    && (r.kind == Branch ==> x in w.values)
  }

  /** Links stay in the graph, and a branch encloses its records. */
  ghost predicate Closed(w: Input) {
    forall x {:trigger RecOk(w, x)} | x in w.graph :: RecOk(w, x)
  }

  /** What follows a record at its own level; nothing follows a branch whose exit is not known. */
  function Sibling(w: Input, x: nat): Option<nat>
    requires x in w.graph
  {
    var r := w.graph[x];
    if r.kind == Branch && r.next.Some? && !r.hasNext then None else r.next
  }

  /** getNextRecord: at the end of a direction, what follows the branch. */
  function GetNextRecord(w: Input, x: nat): (n: Option<nat>)
    requires Closed(w) && x in w.graph
    ensures LinkOk(w.graph, n)
    decreases |w.graph[x].point.pairs|
  {
    assert RecOk(w, x);
    var next, branch := Sibling(w, x), w.graph[x].branch;
    if next.None? && branch.Some? then GetNextRecord(w, branch.value) else next
  }

  /** A record, the branch that it sits in, the branch that this one sits in, and so on. */
  ghost predicate Outwards(w: Input, path: seq<nat>) {
    && path != [] && (forall i | 0 <= i < |path| :: path[i] in w.graph)
    && forall i | 0 <= i < |path| - 1 :: w.graph[path[i]].branch == Some(path[i + 1])
  }

  /** The next record is what follows the innermost level, from the record outwards, that goes on; there is
      none exactly when no level goes on. */
  lemma {:induction false} NextIsInnermost(w: Input, x: nat) returns (path: seq<nat>)
    requires Closed(w) && x in w.graph
    ensures Outwards(w, path) && path[0] == x
    ensures forall i | 0 <= i < |path| - 1 :: Sibling(w, path[i]).None?
    ensures GetNextRecord(w, x) == Sibling(w, path[|path| - 1])
    ensures GetNextRecord(w, x).None? ==> w.graph[path[|path| - 1]].branch.None?
    decreases |w.graph[x].point.pairs|
  {
    assert RecOk(w, x);
    var branch := w.graph[x].branch;
    if Sibling(w, x).None? && branch.Some? {
      var outer := NextIsInnermost(w, branch.value);
      path := [x] + outer;
    } else {
      path := [x];
    }
  }

  /** Where a thread goes from a record. */
  function Onward(w: Input, x: nat): (n: Option<nat>)
    requires Closed(w) && x in w.graph
    ensures LinkOk(w.graph, n)
  {
    assert RecOk(w, x);
    var r := w.graph[x];
    if r.kind == LoopEnter then r.child
    else if r.kind == Branch && 0 <= w.values[x] < |r.dirs| && r.dirs[w.values[x]].Some? then r.dirs[w.values[x]]
    else if r.kind == Yield && w.noexecyields then None
    else GetNextRecord(w, x)
  }

  function Tid(w: Input, x: nat): nat
    requires x in w.graph
  {
    w.graph[x].point.tid
  }

  ghost predicate Before(w: Input, x: nat, y: nat)
    requires x in w.graph && y in w.graph
  {
    Tid(w, x) == Tid(w, y) && Later(w.graph[x].point.pairs, w.graph[y].point.pairs)
  }

  /** What recording guarantees: a thread goes on to later points of its own, a created thread has a
      first record and a number of its own above its creator's. */
  ghost predicate Recorded(w: Input, top: nat) {
    && Closed(w)
    && (forall x {:trigger RunsOn(w, top, x)} | x in w.graph :: RunsOn(w, top, x))
    && (forall x, y {:trigger Creates(w, x), Creates(w, y)} | Creates(w, x) && Creates(w, y) && x != y ::
          Tid(w, w.graph[x].child.value) != Tid(w, w.graph[y].child.value))
  }

  ghost predicate RunsOn(w: Input, top: nat, x: nat)
    requires Closed(w) && x in w.graph
  {
    && Tid(w, x) < top
    && (Onward(w, x).Some? ==> Before(w, x, Onward(w, x).value))
    && (w.graph[x].kind == ThreadCreate ==> Creates(w, x))
  }

  ghost predicate Creates(w: Input, x: nat) {
    && x in w.graph && w.graph[x].kind == ThreadCreate && w.graph[x].child.Some? && w.graph[x].child.value in w.graph
    && Tid(w, w.graph[x].child.value) > Tid(w, x)
  }

  /** The later records of a record's thread. */
  ghost function Rest(w: Input, x: nat): set<nat>
    requires x in w.graph
  {
    set y | y in w.graph.Keys && Before(w, x, y)
  }

  lemma RestShrinks(w: Input, x: nat, y: nat)
    requires x in w.graph && y in w.graph && Before(w, x, y)
    ensures |Rest(w, y)| < |Rest(w, x)|
  {
    LaterIsAfter(w.graph[y].point.pairs, w.graph[y].point.pairs);
    forall z | z in Rest(w, y) ensures z in Rest(w, x) {
      LaterTransitive(w.graph[x].point.pairs, w.graph[y].point.pairs, w.graph[z].point.pairs);
    }
    assert y in Rest(w, x) && y !in Rest(w, y);
    SmallerSet(Rest(w, y), Rest(w, x));
  }

  lemma SmallerSet(a: set<nat>, b: set<nat>)
    requires a < b
    ensures |a| < |b|
  {
    var d := b - a;
    assert b == a + d && d != {};
  }

  lemma StepOn(w: Input, top: nat, x: nat)
    requires Recorded(w, top) && x in w.graph
    ensures Tid(w, x) < top
    ensures Onward(w, x).Some? ==> Before(w, x, Onward(w, x).value) && |Rest(w, Onward(w, x).value)| < |Rest(w, x)|
    ensures w.graph[x].kind == ThreadCreate ==> Creates(w, x)
  {
    assert RunsOn(w, top, x);
    if Onward(w, x).Some? {
      RestShrinks(w, x, Onward(w, x).value);
    }
  }

  /** The memory operations that a thread at this record, and the threads it creates, will execute. */
  ghost function Ops(w: Input, top: nat, at: Option<nat>): (ops: set<nat>)
    requires Recorded(w, top) && LinkOk(w.graph, at)
    ensures forall x | x in ops :: x in w.graph && w.graph[x].kind == Memory
    decreases if at.None? then 0 else top - Tid(w, at.value), if at.None? then 0 else 1 + |Rest(w, at.value)|
  {
    if at.None? then {}
    else
      var x := at.value;
      StepOn(w, top, x);
      (if w.graph[x].kind == Memory then {x} else {})
      + Ops(w, top, Onward(w, x))
      + if w.graph[x].kind == ThreadCreate then Ops(w, top, w.graph[x].child) else {}
  }

  /** How many records a thread at this record, and the threads it creates, will pass. */
  ghost function Size(w: Input, top: nat, at: Option<nat>): nat
    requires Recorded(w, top) && LinkOk(w.graph, at)
    decreases if at.None? then 0 else top - Tid(w, at.value), if at.None? then 0 else 1 + |Rest(w, at.value)|
  {
    if at.None? then 0
    else
      var x := at.value;
      StepOn(w, top, x);
      1 + Size(w, top, Onward(w, x)) + if w.graph[x].kind == ThreadCreate then Size(w, top, w.graph[x].child) else 0
  }

  // ---------------------------------------------------------------- the merge, on values

  /** The builder's vectors (head record and last operation of every started thread), with the number
      and the creating record of every thread, and what has been emitted. */
  datatype Frontier = Frontier(heads: seq<Option<nat>>, last: seq<Option<nat>>, tids: seq<nat>, makers: seq<nat>,
                               emitted: seq<nat>)

  /** The last operation of a thread. */
  function LastOf(w: Input, es: seq<nat>, t: nat): (l: Option<nat>)
    requires forall e | e in es :: e in w.graph
    ensures l.Some? ==> l.value in es && Tid(w, l.value) == t
    ensures l.None? ==> forall e | e in es :: Tid(w, e) != t
  {
    if es == [] then None
    else if Tid(w, es[|es| - 1]) == t then Some(es[|es| - 1])
    else LastOf(w, es[..|es| - 1], t)
  }

  /** A record's thread has started and is past it. */
  ghost predicate Passed(w: Input, f: Frontier, x: nat)
    requires |f.heads| == |f.tids|
  {
    x in w.graph && exists j | 0 <= j < |f.tids| :: PastIn(w, f, x, j)
  }

  ghost predicate PastIn(w: Input, f: Frontier, x: nat, j: nat)
    requires j < |f.tids| == |f.heads| && x in w.graph
  {
    && f.tids[j] == Tid(w, x)
    && (f.heads[j].Some? ==> f.heads[j].value in w.graph && Before(w, x, f.heads[j].value))
  }

  ghost predicate Shape(w: Input, f: Frontier) {
    && |f.heads| == |f.last| == |f.tids| == |f.makers| > 0 && f.tids[0] == 0 && Distinct(f.tids)
    && (forall k | 0 <= k < |f.heads| && f.heads[k].Some? ::
          f.heads[k].value in w.graph && Tid(w, f.heads[k].value) == f.tids[k])
  }

  ghost predicate MakersOk(w: Input, f: Frontier)
    requires |f.heads| == |f.tids| == |f.makers|
  {
    forall k | 1 <= k < |f.makers| ::
      Creates(w, f.makers[k]) && f.tids[k] == Tid(w, w.graph[f.makers[k]].child.value) && Passed(w, f, f.makers[k])
  }

  ghost predicate EmittedOk(w: Input, f: Frontier)
    requires |f.heads| == |f.tids| == |f.last|
  {
    && (forall e | e in f.emitted :: e in w.graph && w.graph[e].kind == Memory && Passed(w, f, e))
    && (forall k | 0 <= k < |f.last| :: f.last[k] == LastOf(w, f.emitted, f.tids[k]))
  }

  ghost predicate Pending(w: Input, top: nat, heads: seq<Option<nat>>, o: nat)
    requires Recorded(w, top)
  {
    exists k | 0 <= k < |heads| :: LinkOk(w.graph, heads[k]) && o in Ops(w, top, heads[k])
  }

  /** Nothing is lost: the operations of the run are those emitted and those still to come. */
  ghost predicate Accounted(w: Input, top: nat, root: nat, f: Frontier)
    requires Recorded(w, top) && root in w.graph
  {
    forall o :: o in Ops(w, top, Some(root)) <==> o in f.emitted || Pending(w, top, f.heads, o)
  }

  /** An operation precedes everything that its thread, and the threads created from it, do later. */
  ghost predicate ComesFirst(w: Input, top: nat, a: nat)
    requires Recorded(w, top) && a in w.graph
  {
    forall o | o in Ops(w, top, Onward(w, a)) :: w.order(a, o)
  }

  /** The order of the solution agrees with program order and thread creation on the operations of the run. */
  ghost predicate AllComeFirst(w: Input, top: nat, root: nat)
    requires Recorded(w, top) && root in w.graph
  {
    forall a {:trigger ComesFirst(w, top, a)} | a in Ops(w, top, Some(root)) :: ComesFirst(w, top, a)
  }

  /** Everything emitted is in order, and before everything to come. */
  ghost predicate Sorted(w: Input, top: nat, f: Frontier)
    requires Recorded(w, top)
  {
    && (forall i, j | 0 <= i < j < |f.emitted| :: w.order(f.emitted[i], f.emitted[j]))
    && (forall e, o | e in f.emitted && Pending(w, top, f.heads, o) :: w.order(e, o))
  }

  /** What a thread, and the threads it creates, do after the i-th emitted operation is emitted later or
      still to come. */
  ghost predicate Followed(w: Input, top: nat, f: Frontier, i: nat)
    requires Recorded(w, top) && i < |f.emitted|
  {
    && f.emitted[i] in w.graph
    && forall o | o in Ops(w, top, Onward(w, f.emitted[i])) :: o in f.emitted[i + 1..] || Pending(w, top, f.heads, o)
  }

  ghost predicate AllFollowed(w: Input, top: nat, f: Frontier)
    requires Recorded(w, top)
  {
    forall i {:trigger Followed(w, top, f, i)} | 0 <= i < |f.emitted| :: Followed(w, top, f, i)
  }

  ghost predicate Merging(w: Input, top: nat, root: nat, f: Frontier) {
    && Recorded(w, top) && root in w.graph
    && Shape(w, f) && MakersOk(w, f) && EmittedOk(w, f) && Accounted(w, top, root, f) && AllFollowed(w, top, f)
    && (AllComeFirst(w, top, root) ==> Sorted(w, top, f))
  }

  /** One head moves on; a created thread starts. */
  function HeadMoved(w: Input, f: Frontier, k: nat): Frontier
    requires Closed(w) && k < |f.heads| == |f.last| == |f.tids| == |f.makers|
    requires f.heads[k].Some? && f.heads[k].value in w.graph
    requires w.graph[f.heads[k].value].kind == ThreadCreate ==>
      w.graph[f.heads[k].value].child.Some? && w.graph[f.heads[k].value].child.value in w.graph
  {
    var x := f.heads[k].value;
    if w.graph[x].kind == ThreadCreate then
      Frontier(f.heads[k := Onward(w, x)] + [w.graph[x].child], f.last + [None],
               f.tids + [Tid(w, w.graph[x].child.value)], f.makers + [x], f.emitted)
    else f.(heads := f.heads[k := Onward(w, x)])
  }

  /** The head of thread k, an operation, is emitted. */
  function Emitted(w: Input, f: Frontier, k: nat): Frontier
    requires Closed(w) && k < |f.heads| == |f.last|
    requires f.heads[k].Some? && f.heads[k].value in w.graph
  {
    var x := f.heads[k].value;
    f.(heads := f.heads[k := Onward(w, x)], last := f.last[k := Some(x)], emitted := f.emitted + [x])
  }

  /** What a moving head passed stays passed. */
  lemma PassedStays(w: Input, top: nat, f: Frontier, g: Frontier, k: nat, x: nat)
    requires Recorded(w, top) && Shape(w, f) && k < |f.heads| && f.heads[k].Some? && Passed(w, f, x)
    requires |g.heads| == |g.tids| >= |f.heads| && f.tids <= g.tids
    requires forall j | 0 <= j < |f.heads| && j != k :: g.heads[j] == f.heads[j]
    requires g.heads[k] == Onward(w, f.heads[k].value)
    ensures Passed(w, g, x)
  {
    var j :| 0 <= j < |f.tids| && PastIn(w, f, x, j);
    StepOn(w, top, f.heads[k].value);
    if j == k && g.heads[k].Some? {
      LaterTransitive(w.graph[x].point.pairs, w.graph[f.heads[k].value].point.pairs,
        w.graph[g.heads[k].value].point.pairs);
    }
    assert PastIn(w, g, x, j);
  }

  /** A thread is not past its own head. */
  lemma HeadNotPassed(w: Input, f: Frontier, k: nat)
    requires Shape(w, f) && k < |f.heads| && f.heads[k].Some?
    ensures !Passed(w, f, f.heads[k].value)
  {
    var x := f.heads[k].value;
    LaterIsAfter(w.graph[x].point.pairs, w.graph[x].point.pairs);
    forall j | 0 <= j < |f.tids| ensures !PastIn(w, f, x, j) {
      if f.tids[j] == Tid(w, x) {
        assert j == k;
      }
    }
  }

  /** The number of a created thread is new. */
  lemma NewTid(w: Input, top: nat, f: Frontier, k: nat)
    requires Recorded(w, top) && Shape(w, f) && MakersOk(w, f) && k < |f.heads| && f.heads[k].Some?
    requires w.graph[f.heads[k].value].kind == ThreadCreate
    ensures Creates(w, f.heads[k].value)
    ensures Tid(w, w.graph[f.heads[k].value].child.value) !in f.tids
  {
    var x := f.heads[k].value;
    StepOn(w, top, x);
    HeadNotPassed(w, f, k);
    forall j | 0 <= j < |f.tids| ensures f.tids[j] != Tid(w, w.graph[x].child.value) {
      if j > 0 {
        assert Creates(w, f.makers[j]) && f.makers[j] != x;
      }
    }
  }

  lemma PendingMoved(w: Input, top: nat, f: Frontier, k: nat, o: nat)
    requires Recorded(w, top) && Shape(w, f) && k < |f.heads| && f.heads[k].Some?
    requires w.graph[f.heads[k].value].kind == ThreadCreate ==> Creates(w, f.heads[k].value)
    requires w.graph[f.heads[k].value].kind != Memory
    ensures Pending(w, top, HeadMoved(w, f, k).heads, o) <==> Pending(w, top, f.heads, o)
  {
    var x, now := f.heads[k].value, HeadMoved(w, f, k).heads;
    if Pending(w, top, f.heads, o) {
      var j :| 0 <= j < |f.heads| && LinkOk(w.graph, f.heads[j]) && o in Ops(w, top, f.heads[j]);
      if j != k || o in Ops(w, top, Onward(w, x)) {
        assert o in Ops(w, top, now[j]);
      } else {
        assert o in Ops(w, top, now[|f.heads|]);
      }
    }
    if Pending(w, top, now, o) {
      var j :| 0 <= j < |now| && LinkOk(w.graph, now[j]) && o in Ops(w, top, now[j]);
      assert o in Ops(w, top, f.heads[if j == |f.heads| then k else j]);
    }
  }

  lemma PendingEmitted(w: Input, top: nat, f: Frontier, k: nat, o: nat)
    requires Recorded(w, top) && Shape(w, f) && k < |f.heads| && f.heads[k].Some?
    requires w.graph[f.heads[k].value].kind == Memory
    ensures Pending(w, top, f.heads, o) <==> o == f.heads[k].value || Pending(w, top, Emitted(w, f, k).heads, o)
    ensures o in Ops(w, top, Onward(w, f.heads[k].value)) ==> Pending(w, top, Emitted(w, f, k).heads, o)
  {
    var x, now := f.heads[k].value, Emitted(w, f, k).heads;
    if Pending(w, top, f.heads, o) && o != x {
      var j :| 0 <= j < |f.heads| && LinkOk(w.graph, f.heads[j]) && o in Ops(w, top, f.heads[j]);
      assert o in Ops(w, top, now[j]);
    }
    if o == x {
      assert o in Ops(w, top, f.heads[k]);
    }
    if o in Ops(w, top, Onward(w, x)) {
      assert o in Ops(w, top, now[k]);
    }
    if Pending(w, top, now, o) {
      var j :| 0 <= j < |now| && LinkOk(w.graph, now[j]) && o in Ops(w, top, now[j]);
      assert o in Ops(w, top, f.heads[j]);
    }
  }

  /** Moving a head past a record that is no operation keeps the merge. */
  lemma MovedMerging(w: Input, top: nat, root: nat, f: Frontier, k: nat)
    requires Merging(w, top, root, f) && k < |f.heads| && f.heads[k].Some? && w.graph[f.heads[k].value].kind != Memory
    ensures w.graph[f.heads[k].value].kind == ThreadCreate ==> Creates(w, f.heads[k].value)
    ensures Merging(w, top, root, HeadMoved(w, f, k))
  {
    StepOn(w, top, f.heads[k].value);
    var g := HeadMoved(w, f, k);
    MovedShape(w, top, f, k);
    MovedMakers(w, top, f, k);
    MovedEmitted(w, top, f, k);
    forall o ensures Pending(w, top, g.heads, o) <==> Pending(w, top, f.heads, o) {
      PendingMoved(w, top, f, k, o);
    }
    forall i | 0 <= i < |g.emitted| ensures Followed(w, top, g, i) {
      assert Followed(w, top, f, i);
    }
  }

  lemma MovedMakers(w: Input, top: nat, f: Frontier, k: nat)
    requires Recorded(w, top) && Shape(w, f) && MakersOk(w, f) && k < |f.heads| && f.heads[k].Some?
    requires w.graph[f.heads[k].value].kind == ThreadCreate ==> Creates(w, f.heads[k].value)
    ensures MakersOk(w, HeadMoved(w, f, k))
  {
    var x, g := f.heads[k].value, HeadMoved(w, f, k);
    StepOn(w, top, x);
    forall j | 1 <= j < |g.makers|
      ensures Creates(w, g.makers[j]) && g.tids[j] == Tid(w, w.graph[g.makers[j]].child.value)
      ensures Passed(w, g, g.makers[j])
    {
      if j < |f.makers| {
        PassedStays(w, top, f, g, k, f.makers[j]);
      } else {
        assert PastIn(w, g, x, k);
      }
    }
  }

  lemma MovedEmitted(w: Input, top: nat, f: Frontier, k: nat)
    requires Recorded(w, top) && Shape(w, f) && MakersOk(w, f) && EmittedOk(w, f) && k < |f.heads| && f.heads[k].Some?
    requires w.graph[f.heads[k].value].kind == ThreadCreate ==> Creates(w, f.heads[k].value)
    ensures EmittedOk(w, HeadMoved(w, f, k))
  {
    forall e | e in f.emitted ensures Passed(w, HeadMoved(w, f, k), e) {
      PassedStays(w, top, f, HeadMoved(w, f, k), k, e);
    }
    MovedLast(w, top, f, k);
  }

  lemma MovedShape(w: Input, top: nat, f: Frontier, k: nat)
    requires Recorded(w, top) && Shape(w, f) && MakersOk(w, f) && k < |f.heads| && f.heads[k].Some?
    requires w.graph[f.heads[k].value].kind == ThreadCreate ==> Creates(w, f.heads[k].value)
    ensures Shape(w, HeadMoved(w, f, k))
  {
    StepOn(w, top, f.heads[k].value);
    if w.graph[f.heads[k].value].kind == ThreadCreate {
      NewTid(w, top, f, k);
    }
  }

  lemma MovedLast(w: Input, top: nat, f: Frontier, k: nat)
    requires Recorded(w, top) && Shape(w, f) && MakersOk(w, f) && EmittedOk(w, f) && k < |f.heads| && f.heads[k].Some?
    requires w.graph[f.heads[k].value].kind == ThreadCreate ==> Creates(w, f.heads[k].value)
    ensures var g := HeadMoved(w, f, k);
      |g.last| == |g.tids| && forall j | 0 <= j < |g.last| :: g.last[j] == LastOf(w, g.emitted, g.tids[j])
  {
    var x := f.heads[k].value;
    if w.graph[x].kind == ThreadCreate {
      NewTid(w, top, f, k);
      var t := Tid(w, w.graph[x].child.value);
      forall e | e in f.emitted ensures Tid(w, e) in f.tids {
        assert Passed(w, f, e);
      }
    }
  }

  // ---------------------------------------------------------------- picking the earliest operation

  /** The order of the solution is a strict total order of the operations of the run. */
  ghost predicate TotalOrder(w: Input, top: nat, root: nat)
    requires Recorded(w, top) && root in w.graph
  {
    var ops := Ops(w, top, Some(root));
    && (forall a | a in ops :: !w.order(a, a))
    && (forall a, b | a in ops && b in ops && a != b :: w.order(a, b) != w.order(b, a))
    && (forall a, b, c | a in ops && b in ops && c in ops && w.order(a, b) && w.order(b, c) :: w.order(a, c))
  }

  predicate MemoryHead(w: Input, h: Option<nat>) {
    h.Some? ==> h.value in w.graph && w.graph[h.value].kind == Memory
  }

  ghost predicate AllMemory(w: Input, heads: seq<Option<nat>>) {
    MemoryBelow(w, heads, |heads|)
  }

  /** The first n threads stand at operations or have ended. */
  ghost predicate MemoryBelow(w: Input, heads: seq<Option<nat>>, n: nat)
    requires n <= |heads|
  {
    forall j | 0 <= j < n :: MemoryHead(w, heads[j])
  }

  predicate NotAfter(w: Input, a: nat, h: Option<nat>) {
    h.Some? ==> h.value == a || w.order(a, h.value)
  }

  /** Thread k's head is before every other head. */
  ghost predicate Earliest(w: Input, heads: seq<Option<nat>>, k: nat) {
    k < |heads| && heads[k].Some? && forall j | 0 <= j < |heads| :: NotAfter(w, heads[k].value, heads[j])
  }

  /** The earliest head comes before everything else that is still to come. */
  lemma EarliestIsFirst(w: Input, top: nat, root: nat, f: Frontier, k: nat, o: nat)
    requires Merging(w, top, root, f) && TotalOrder(w, top, root) && AllComeFirst(w, top, root)
    requires AllMemory(w, f.heads) && Earliest(w, f.heads, k) && Pending(w, top, Emitted(w, f, k).heads, o)
    ensures w.order(f.heads[k].value, o)
  {
    var x, now := f.heads[k].value, Emitted(w, f, k).heads;
    var j :| 0 <= j < |now| && LinkOk(w.graph, now[j]) && o in Ops(w, top, now[j]);
    HeadIsOp(w, top, root, f, k, o);
    if j != k {
      var y := f.heads[j].value;
      assert NotAfter(w, x, f.heads[j]);
      HeadIsOp(w, top, root, f, j, o);
      assert w.order(y, o) || y == o;
    }
  }

  /** A head that is an operation comes first among what its thread has to come. */
  lemma HeadIsOp(w: Input, top: nat, root: nat, f: Frontier, j: nat, o: nat)
    requires Merging(w, top, root, f) && AllComeFirst(w, top, root)
    requires AllMemory(w, f.heads) && j < |f.heads| && f.heads[j].Some?
    ensures f.heads[j].value in Ops(w, top, Some(root))
    ensures o in Ops(w, top, f.heads[j]) ==>
      o in Ops(w, top, Some(root)) && (o == f.heads[j].value || w.order(f.heads[j].value, o))
    ensures o in Ops(w, top, Onward(w, f.heads[j].value)) ==> w.order(f.heads[j].value, o)
  {
    var y := f.heads[j].value;
    assert MemoryHead(w, f.heads[j]) && y in Ops(w, top, f.heads[j]);
    assert Pending(w, top, f.heads, y);
    assert ComesFirst(w, top, y);
    if o in Ops(w, top, f.heads[j]) {
      assert Pending(w, top, f.heads, o);
    }
  }

  /** Emitting the earliest head keeps the merge. */
  lemma EmittedMerging(w: Input, top: nat, root: nat, f: Frontier, k: nat)
    requires Merging(w, top, root, f) && TotalOrder(w, top, root) && AllMemory(w, f.heads) && Earliest(w, f.heads, k)
    ensures Merging(w, top, root, Emitted(w, f, k))
  {
    var x, g := f.heads[k].value, Emitted(w, f, k);
    StepOn(w, top, x);
    EmittedPassed(w, top, f, k);
    EmittedAccounted(w, top, root, f, k);
    EmittedFollowed(w, top, f, k);
    if AllComeFirst(w, top, root) {
      EmittedSorted(w, top, root, f, k);
    }
    EmittedShape(w, top, f, k);
  }

  lemma EmittedShape(w: Input, top: nat, f: Frontier, k: nat)
    requires Recorded(w, top) && Shape(w, f) && k < |f.heads| && f.heads[k].Some?
    ensures Shape(w, Emitted(w, f, k))
  {
    StepOn(w, top, f.heads[k].value);
  }

  lemma EmittedAccounted(w: Input, top: nat, root: nat, f: Frontier, k: nat)
    requires Recorded(w, top) && root in w.graph && Shape(w, f) && Accounted(w, top, root, f)
    requires k < |f.heads| && f.heads[k].Some? && w.graph[f.heads[k].value].kind == Memory
    ensures Accounted(w, top, root, Emitted(w, f, k))
  {
    var x, g := f.heads[k].value, Emitted(w, f, k);
    forall o ensures o in Ops(w, top, Some(root)) <==> o in g.emitted || Pending(w, top, g.heads, o) {
      PendingEmitted(w, top, f, k, o);
    }
  }

  lemma EmittedPassed(w: Input, top: nat, f: Frontier, k: nat)
    requires Recorded(w, top) && Shape(w, f) && MakersOk(w, f) && EmittedOk(w, f)
    requires k < |f.heads| && f.heads[k].Some? && w.graph[f.heads[k].value].kind == Memory
    ensures MakersOk(w, Emitted(w, f, k)) && EmittedOk(w, Emitted(w, f, k))
  {
    var x, g := f.heads[k].value, Emitted(w, f, k);
    EmittedMakers(w, top, f, k);
    forall e | e in g.emitted ensures Passed(w, g, e) {
      if e in f.emitted {
        PassedStays(w, top, f, g, k, e);
      } else {
        StepOn(w, top, x);
        assert PastIn(w, g, x, k);
      }
    }
    EmittedLast(w, f, k);
  }

  lemma EmittedLast(w: Input, f: Frontier, k: nat)
    requires Closed(w) && Shape(w, f) && k < |f.heads| && f.heads[k].Some? && EmittedOk(w, f)
    ensures var g := Emitted(w, f, k);
      |g.last| == |g.tids| && (forall e | e in g.emitted :: e in w.graph)
      && forall j | 0 <= j < |g.last| :: g.last[j] == LastOf(w, g.emitted, g.tids[j])
  {
    assert Emitted(w, f, k).emitted[..|f.emitted|] == f.emitted;
  }

  lemma EmittedMakers(w: Input, top: nat, f: Frontier, k: nat)
    requires Recorded(w, top) && Shape(w, f) && MakersOk(w, f) && k < |f.heads| && f.heads[k].Some?
    ensures MakersOk(w, Emitted(w, f, k))
  {
    forall j | 1 <= j < |f.makers| ensures Passed(w, Emitted(w, f, k), f.makers[j]) {
      PassedStays(w, top, f, Emitted(w, f, k), k, f.makers[j]);
    }
  }

  lemma EmittedFollowed(w: Input, top: nat, f: Frontier, k: nat)
    requires Recorded(w, top) && Shape(w, f) && AllFollowed(w, top, f) && k < |f.heads| && f.heads[k].Some?
    requires w.graph[f.heads[k].value].kind == Memory
    ensures AllFollowed(w, top, Emitted(w, f, k))
  {
    var x, g := f.heads[k].value, Emitted(w, f, k);
    forall i | 0 <= i < |g.emitted| ensures Followed(w, top, g, i) {
      if i < |f.emitted| {
        assert Followed(w, top, f, i) && g.emitted[i] == f.emitted[i];
      } else {
        assert g.emitted[i] == x;
      }
      forall o | o in Ops(w, top, Onward(w, g.emitted[i]))
        ensures o in g.emitted[i + 1..] || Pending(w, top, g.heads, o)
      {
        PendingEmitted(w, top, f, k, o);
        if i < |f.emitted| {
          assert g.emitted[i + 1..] == f.emitted[i + 1..] + [x];
        }
      }
    }
  }

  lemma EmittedSorted(w: Input, top: nat, root: nat, f: Frontier, k: nat)
    requires Merging(w, top, root, f) && TotalOrder(w, top, root) && AllComeFirst(w, top, root)
    requires AllMemory(w, f.heads) && Earliest(w, f.heads, k)
    ensures Sorted(w, top, Emitted(w, f, k))
  {
    var x, g := f.heads[k].value, Emitted(w, f, k);
    PendingEmitted(w, top, f, k, x);
    forall o | Pending(w, top, g.heads, o) ensures w.order(x, o) && Pending(w, top, f.heads, o) {
      PendingEmitted(w, top, f, k, o);
      EarliestIsFirst(w, top, root, f, k, o);
    }
    AppendedSorted(w, top, f, g, x);
  }

  lemma AppendedSorted(w: Input, top: nat, f: Frontier, g: Frontier, x: nat)
    requires Recorded(w, top) && Sorted(w, top, f) && Pending(w, top, f.heads, x) && g.emitted == f.emitted + [x]
    requires forall o | Pending(w, top, g.heads, o) :: w.order(x, o) && Pending(w, top, f.heads, o)
    ensures Sorted(w, top, g)
  {
  }

  // ---------------------------------------------------------------- termination

  ghost function TotalSize(w: Input, top: nat, heads: seq<Option<nat>>): nat
    requires Recorded(w, top) && forall k | 0 <= k < |heads| :: LinkOk(w.graph, heads[k])
  {
    if heads == [] then 0 else TotalSize(w, top, heads[..|heads| - 1]) + Size(w, top, heads[|heads| - 1])
  }

  lemma {:induction false} SizeUpdate(w: Input, top: nat, heads: seq<Option<nat>>, k: nat, h: Option<nat>)
    requires Recorded(w, top) && (forall j | 0 <= j < |heads| :: LinkOk(w.graph, heads[j])) && k < |heads|
    requires LinkOk(w.graph, h)
    ensures TotalSize(w, top, heads[k := h]) == TotalSize(w, top, heads) - Size(w, top, heads[k]) + Size(w, top, h)
  {
    var n := |heads| - 1;
    if k == n {
      assert heads[k := h][..n] == heads[..n];
    } else {
      assert heads[k := h][..n] == heads[..n][k := h];
      SizeUpdate(w, top, heads[..n], k, h);
    }
  }

  /** The records that all threads have yet to pass. */
  ghost function Left(w: Input, top: nat, heads: seq<Option<nat>>): nat
    requires Recorded(w, top)
  {
    if forall k | 0 <= k < |heads| :: LinkOk(w.graph, heads[k]) then TotalSize(w, top, heads) else 0
  }

  /** Every record that is passed brings the end nearer. */
  lemma Progress(w: Input, top: nat, f: Frontier, k: nat)
    requires Recorded(w, top) && Shape(w, f) && k < |f.heads| && f.heads[k].Some?
    requires w.graph[f.heads[k].value].kind == ThreadCreate ==> Creates(w, f.heads[k].value)
    ensures Left(w, top, f.heads[k := Onward(w, f.heads[k].value)]) < Left(w, top, f.heads)
    ensures Left(w, top, HeadMoved(w, f, k).heads) < Left(w, top, f.heads)
  {
    var x := f.heads[k].value;
    var one := f.heads[k := Onward(w, x)];
    assert forall j | 0 <= j < |f.heads| :: LinkOk(w.graph, f.heads[j]);
    assert forall j | 0 <= j < |one| :: LinkOk(w.graph, one[j]);
    SizeUpdate(w, top, f.heads, k, Onward(w, x));
    if w.graph[x].kind == ThreadCreate {
      assert (one + [w.graph[x].child])[..|one|] == one;
    }
  }

  // ---------------------------------------------------------------- the run of the builder

  /** What the builder is given: a recorded graph whose first record is thread 0's, and a solution that
      orders the operations of the run. */
  ghost predicate Buildable(w: Input, top: nat, root: nat) {
    Recorded(w, top) && root in w.graph && Tid(w, root) == 0 && TotalOrder(w, top, root)
  }

  /** One step: the head of thread k, which is no operation, moves on, or, when every head is an operation,
      the earliest is emitted. */
  ghost predicate Moves(w: Input, f: Frontier, k: nat, g: Frontier)
    requires Closed(w)
  {
    && k < |f.heads| == |f.last| == |f.tids| == |f.makers| && f.heads[k].Some? && f.heads[k].value in w.graph
    && if w.graph[f.heads[k].value].kind == Memory
       then AllMemory(w, f.heads) && Earliest(w, f.heads, k) && g == Emitted(w, f, k)
       else (w.graph[f.heads[k].value].kind == ThreadCreate ==> Creates(w, f.heads[k].value)) && g == HeadMoved(w, f, k)
  }

  ghost predicate ReachedIn(w: Input, root: nat, f: Frontier, n: nat)
    requires Closed(w)
    decreases n
  {
    if n == 0 then f == Frontier([Some(root)], [None], [0], [root], [])
    else exists g, k: nat :: ReachedIn(w, root, g, n - 1) && Moves(w, g, k, f)
  }

  /** The builder gets to this state. */
  ghost predicate Reached(w: Input, root: nat, f: Frontier)
    requires Closed(w)
  {
    exists n: nat :: ReachedIn(w, root, f, n)
  }

  lemma ReachedNext(w: Input, root: nat, f: Frontier, k: nat, g: Frontier)
    requires Closed(w) && Reached(w, root, f) && Moves(w, f, k, g)
    ensures Reached(w, root, g)
  {
    var n: nat :| ReachedIn(w, root, f, n);
    assert ReachedIn(w, root, g, n + 1);
  }

  /** Every state of the builder keeps the merge. */
  lemma EveryStateMerges(w: Input, top: nat, root: nat, f: Frontier)
    requires Buildable(w, top, root) && Reached(w, root, f)
    ensures Merging(w, top, root, f)
  {
    var n: nat :| ReachedIn(w, root, f, n);
    MergingAfter(w, top, root, f, n);
  }

  lemma {:induction false} MergingAfter(w: Input, top: nat, root: nat, f: Frontier, n: nat)
    requires Buildable(w, top, root) && ReachedIn(w, root, f, n)
    ensures Merging(w, top, root, f)
    decreases n
  {
    if n == 0 {
      StartMerging(w, top, root, f);
    } else {
      var g, k: nat :| ReachedIn(w, root, g, n - 1) && Moves(w, g, k, f);
      MergingAfter(w, top, root, g, n - 1);
      if w.graph[g.heads[k].value].kind == Memory {
        EmittedMerging(w, top, root, g, k);
      } else {
        MovedMerging(w, top, root, g, k);
      }
    }
  }

  lemma StartMerging(w: Input, top: nat, root: nat, f: Frontier)
    requires Buildable(w, top, root) && f == Frontier([Some(root)], [None], [0], [root], [])
    ensures Merging(w, top, root, f)
  {
    forall o ensures o in Ops(w, top, Some(root)) <==> Pending(w, top, f.heads, o) {
      assert f.heads[0] == Some(root);
    }
  }

  // ---------------------------------------------------------------- the wait pairs

  function PointsOf(w: Input, es: seq<nat>): (ps: seq<Point>)
    requires forall e | e in es :: e in w.graph
    ensures |ps| == |es| && forall i | 0 <= i < |es| :: ps[i] == w.graph[es[i]].point
  {
    if es == [] then [] else PointsOf(w, es[..|es| - 1]) + [w.graph[es[|es| - 1]].point]
  }

  /** The pairs for the head of thread k: it waits for the last operation of each of the first n other
      threads. */
  function PairsFor(w: Input, f: Frontier, k: nat, n: nat): seq<WaitPair>
    requires n <= |f.last| && k < |f.heads| && f.heads[k].Some? && f.heads[k].value in w.graph
    requires forall j | 0 <= j < |f.last| && f.last[j].Some? :: f.last[j].value in w.graph
  {
    if n == 0 then []
    else PairsFor(w, f, k, n - 1)
         + if n - 1 != k && f.last[n - 1].Some?
           then [WaitPair(w.graph[f.heads[k].value].point, w.graph[f.last[n - 1].value].point)] else []
  }

  /** Appending an operation does not move the others. */
  lemma PlaceStays(plan: seq<Point>, e: Point, x: Point)
    requires ProgramOrder(plan + [e]) && x in plan
    ensures Place(plan + [e], x) == Place(plan, x) && x in plan + [e]
  {
    var i := Place(plan, x);
    assert (plan + [e])[i] == x;
    PlaceOf(plan + [e], i);
  }

  lemma LastBeforeShrinks(plan: seq<Point>, e: Point, j: int, i: int)
    requires LastBefore(plan + [e], j, i) && i <= |plan|
    ensures LastBefore(plan, j, i)
  {
    var now := plan + [e];
    assert now[j] == plan[j];
    forall m | j < m < i ensures plan[m].tid != plan[j].tid {
      assert now[m] == plan[m];
    }
  }

  /** The lists of the other threads stay right when an operation is appended to the schedule. */
  lemma OtherWaits(plan: seq<Point>, e: Point, t: nat, ws: seq<WaitPair>)
    requires ProgramOrder(plan + [e]) && WaitsFor(plan, t, ws) && t != e.tid
    ensures WaitsFor(plan + [e], t, ws)
  {
    var now := plan + [e];
    forall k | 0 <= k < |ws| ensures PairOk(now, t, ws[k]) {
      assert PairOk(plan, t, ws[k]);
      PlaceStays(plan, e, ws[k].stop);
      PlaceStays(plan, e, ws[k].wait);
    }
    forall k, l | 0 <= k < l < |ws| ensures Place(now, ws[k].stop) <= Place(now, ws[l].stop) {
      assert PairOk(plan, t, ws[k]) && PairOk(plan, t, ws[l]);
      PlaceStays(plan, e, ws[k].stop);
      PlaceStays(plan, e, ws[l].stop);
    }
    forall i, j | 0 <= j < i < |now| && now[i].tid == t && now[j].tid != t && LastBefore(now, j, i)
      ensures WaitPair(now[i], now[j]) in ws
    {
      LastBeforeShrinks(plan, e, j, i);
    }
  }

  /** The list of the operation's own thread, with the new pairs at the end. */
  lemma OwnWaits(plan: seq<Point>, e: Point, ws: seq<WaitPair>, more: seq<WaitPair>)
    requires ProgramOrder(plan + [e]) && WaitsFor(plan, e.tid, ws)
    requires forall q | q in more :: q.stop == e && q.wait in plan && q.wait.tid != e.tid
    requires forall j | 0 <= j < |plan| && plan[j].tid != e.tid && LastBefore(plan + [e], j, |plan|) ::
      WaitPair(e, plan[j]) in more
    ensures WaitsFor(plan + [e], e.tid, ws + more)
  {
    var now, all, t := plan + [e], ws + more, e.tid;
    assert now[|plan|] == e;
    PlaceOf(now, |plan|);
    forall k | 0 <= k < |all|
      ensures PairOk(now, t, all[k]) && (k < |ws| ==> Place(now, all[k].stop) == Place(plan, all[k].stop) < |plan|)
      ensures k >= |ws| ==> Place(now, all[k].stop) == |plan|
    {
      if k < |ws| {
        assert PairOk(plan, t, ws[k]);
        PlaceStays(plan, e, ws[k].stop);
        PlaceStays(plan, e, ws[k].wait);
      } else {
        assert all[k] in more;
        PlaceStays(plan, e, all[k].wait);
      }
    }
    forall i, j | 0 <= j < i < |now| && now[i].tid == t && now[j].tid != t && LastBefore(now, j, i)
      ensures WaitPair(now[i], now[j]) in all
    {
      if i < |plan| {
        LastBeforeShrinks(plan, e, j, i);
        assert WaitPair(plan[i], plan[j]) in ws;
      } else {
        assert WaitPair(e, plan[j]) in more;
      }
    }
  }

  /** The emitted operations of a thread come before its head. */
  lemma PlanGrows(w: Input, f: Frontier, k: nat)
    requires Shape(w, f) && EmittedOk(w, f) && k < |f.heads| && f.heads[k].Some? && ProgramOrder(PointsOf(w, f.emitted))
    ensures PointsOf(w, f.emitted + [f.heads[k].value]) == PointsOf(w, f.emitted) + [w.graph[f.heads[k].value].point]
    ensures ProgramOrder(PointsOf(w, f.emitted) + [w.graph[f.heads[k].value].point])
  {
    var x, plan := f.heads[k].value, PointsOf(w, f.emitted);
    assert (f.emitted + [x])[..|f.emitted|] == f.emitted;
    forall i | 0 <= i < |plan| && plan[i].tid == Tid(w, x) ensures Later(plan[i].pairs, w.graph[x].point.pairs) {
      var e := f.emitted[i];
      assert Passed(w, f, e);
      var j :| 0 <= j < |f.tids| && PastIn(w, f, e, j);
      assert j == k;
    }
  }

  lemma {:induction false} PairsMeaning(w: Input, f: Frontier, k: nat, n: nat, q: WaitPair)
    requires n <= |f.last| && k < |f.heads| && f.heads[k].Some? && f.heads[k].value in w.graph
    requires forall j | 0 <= j < |f.last| && f.last[j].Some? :: f.last[j].value in w.graph
    ensures q in PairsFor(w, f, k, n) <==>
      exists j | 0 <= j < n :: j != k && f.last[j].Some?
        && q == WaitPair(w.graph[f.heads[k].value].point, w.graph[f.last[j].value].point)
  {
    if n > 0 {
      PairsMeaning(w, f, k, n - 1, q);
    }
  }

  /** The last operation of a thread is the one that no other operation of the thread follows. */
  lemma {:induction false} LastIsLast(w: Input, es: seq<nat>, j: nat)
    requires (forall e | e in es :: e in w.graph) && j < |es|
    requires forall i | j < i < |es| :: Tid(w, es[i]) != Tid(w, es[j])
    ensures LastOf(w, es, Tid(w, es[j])) == Some(es[j])
  {
    if j < |es| - 1 {
      LastIsLast(w, es[..|es| - 1], j);
    }
  }

  /** The pairs for the head of thread k are what the schedule with it asks for: they wait for earlier
      operations of other threads... */
  lemma PairsAreEarlier(w: Input, f: Frontier, k: nat, q: WaitPair)
    requires Shape(w, f) && EmittedOk(w, f) && k < |f.heads| && f.heads[k].Some?
    requires forall j | 0 <= j < |f.last| && f.last[j].Some? :: f.last[j].value in w.graph
    requires q in PairsFor(w, f, k, |f.last|)
    ensures q.stop == w.graph[f.heads[k].value].point && q.wait in PointsOf(w, f.emitted) && q.wait.tid != q.stop.tid
  {
    PairsMeaning(w, f, k, |f.last|, q);
    var j :| 0 <= j < |f.last| && j != k && f.last[j].Some?
      && q == WaitPair(w.graph[f.heads[k].value].point, w.graph[f.last[j].value].point);
    var i :| 0 <= i < |f.emitted| && f.emitted[i] == f.last[j].value;
    assert PointsOf(w, f.emitted)[i] == q.wait;
  }

  /** ... and for the last one of each. */
  lemma PairsSuffice(w: Input, f: Frontier, k: nat, j: nat)
    requires Shape(w, f) && EmittedOk(w, f) && k < |f.heads| && f.heads[k].Some?
    requires forall i | 0 <= i < |f.last| && f.last[i].Some? :: f.last[i].value in w.graph
    requires j < |f.emitted| && Tid(w, f.emitted[j]) != Tid(w, f.heads[k].value)
    requires forall l | j < l < |f.emitted| :: Tid(w, f.emitted[l]) != Tid(w, f.emitted[j])
    ensures WaitPair(w.graph[f.heads[k].value].point, w.graph[f.emitted[j]].point) in PairsFor(w, f, k, |f.last|)
  {
    var x := f.emitted[j];
    assert Passed(w, f, x);
    var i :| 0 <= i < |f.tids| && PastIn(w, f, x, i);
    LastIsLast(w, f.emitted, j);
    PairsMeaning(w, f, k, |f.last|, WaitPair(w.graph[f.heads[k].value].point, w.graph[x].point));
  }

  /** Emitting the head of thread k and adding its pairs keeps every list right. */
  lemma WaitsAfter(w: Input, f: Frontier, k: nat, t: nat, ws: seq<WaitPair>, now: seq<WaitPair>)
    requires Shape(w, f) && EmittedOk(w, f) && k < |f.heads| && f.heads[k].Some? && ProgramOrder(PointsOf(w, f.emitted))
    requires WaitsFor(PointsOf(w, f.emitted), t, ws)
    requires forall j | 0 <= j < |f.last| && f.last[j].Some? :: f.last[j].value in w.graph
    requires now == ws + if t == Tid(w, f.heads[k].value) then PairsFor(w, f, k, |f.last|) else []
    ensures ProgramOrder(PointsOf(w, f.emitted + [f.heads[k].value]))
    ensures WaitsFor(PointsOf(w, f.emitted + [f.heads[k].value]), t, now)
  {
    var plan, e, more := PointsOf(w, f.emitted), w.graph[f.heads[k].value].point, PairsFor(w, f, k, |f.last|);
    PlanGrows(w, f, k);
    if t != e.tid {
      OtherWaits(plan, e, t, ws);
      assert now == ws;
    } else {
      forall q | q in more ensures q.stop == e && q.wait in plan && q.wait.tid != e.tid {
        PairsAreEarlier(w, f, k, q);
      }
      forall j | 0 <= j < |plan| && plan[j].tid != e.tid && LastBefore(plan + [e], j, |plan|)
        ensures WaitPair(e, plan[j]) in more
      {
        LastBeforeShrinks(plan, e, j, |plan|);
        PairsSuffice(w, f, k, j);
      }
      OwnWaits(plan, e, ws, more);
    }
  }

  // ---------------------------------------------------------------- what the schedule is

  /** The schedule is in the order of the solution. */
  ghost predicate InOrder(w: Input, emitted: seq<nat>) {
    forall i, j | 0 <= i < j < |emitted| :: w.order(emitted[i], emitted[j])
  }

  /** What a thread, and the threads it creates, do after an operation is scheduled after it. */
  ghost predicate ProgramFollowed(w: Input, top: nat, emitted: seq<nat>)
    requires Recorded(w, top)
  {
    forall i {:trigger DoneLater(w, top, emitted, i)} | 0 <= i < |emitted| :: DoneLater(w, top, emitted, i)
  }

  ghost predicate DoneLater(w: Input, top: nat, emitted: seq<nat>, i: nat)
    requires Recorded(w, top) && i < |emitted|
  {
    emitted[i] in w.graph && forall o | o in Ops(w, top, Onward(w, emitted[i])) :: o in emitted[i + 1..]
  }

  // ---------------------------------------------------------------- the builder

  class ScheduleBuilder {
    const w: Input
    const scheduler: MCScheduler
    var threads: seq<Option<nat>>
    var lastoperation: seq<Option<nat>>
    ghost var tids: seq<nat>
    ghost var makers: seq<nat>
    ghost var emitted: seq<nat>

    constructor (w: Input, scheduler: MCScheduler)
      ensures this.w == w && this.scheduler == scheduler && threads == [] && lastoperation == []
      ensures tids == [] && makers == [] && emitted == []
    {
      this.w := w;
      this.scheduler := scheduler;
      threads, lastoperation := [], [];
      tids, makers, emitted := [], [], [];
    }

    ghost function State(): Frontier
      reads this
    {
      Frontier(threads, lastoperation, tids, makers, emitted)
    }

    /** processRecord: where the thread goes; an operation stays where it is, and a created thread is
        started on the way. */
    method ProcessRecord(x: nat) returns (next: Option<nat>)
      requires Closed(w) && x in w.graph
      requires w.graph[x].kind == ThreadCreate ==> Creates(w, x)
      modifies this`threads, this`lastoperation, this`tids, this`makers
      ensures next == if w.graph[x].kind == Memory then Some(x) else Onward(w, x)
      ensures w.graph[x].kind != ThreadCreate ==> State() == old(State())
      ensures w.graph[x].kind == ThreadCreate ==>
        State() == Frontier(old(threads) + [w.graph[x].child], old(lastoperation) + [None],
                            old(tids) + [Tid(w, w.graph[x].child.value)], old(makers) + [x], old(emitted))
    {
      assert RecOk(w, x);
      var r := w.graph[x];
      match r.kind {
      case Memory =>
        return Some(x);
      case LoopEnter =>
        return r.child;
      case Branch =>
        var index := w.values[x];
        if 0 <= index < |r.dirs| {
          if r.dirs[index].Some? {
            return r.dirs[index];
          }
        }
      case ThreadCreate =>
        threads := threads + [r.child];
        lastoperation := lastoperation + [None];
        tids := tids + [Tid(w, r.child.value)];
        makers := makers + [x];
      case Yield =>
        if w.noexecyields {
          return None;
        }
      case Other =>
      }
      next := GetNextRecord(w, x);
    }

    /** One round of the first inner loop: the head moves unless it is an operation. */
    method SkipOne(index: nat, ghost top: nat, ghost root: nat) returns (moved: bool)
      requires Buildable(w, top, root) && Reached(w, root, State())
      requires index < |threads| && MemoryBelow(w, threads, index)
      modifies this`threads, this`lastoperation, this`tids, this`makers
      ensures Reached(w, root, State()) && emitted == old(emitted) && |threads| >= |old(threads)|
      ensures MemoryBelow(w, threads, index)
      ensures moved ==> Left(w, top, threads) < Left(w, top, old(threads))
      ensures !moved ==> threads == old(threads) && MemoryHead(w, threads[index])
    {
      var record := threads[index];
      moved := false;
      if record.Some? {
        ghost var f := State();
        MovedStays(w, top, root, f, index);
        var next := ProcessRecord(record.value);
        if next != record {
          moved := true;
          threads := threads[index := next];
          assert State() == HeadMoved(w, f, index);
        }
      }
    }

    /** The first inner loop: every thread goes on to its next operation. */
    method SkipToOperations(ghost top: nat, ghost root: nat)
      requires Buildable(w, top, root) && Reached(w, root, State())
      modifies this`threads, this`lastoperation, this`tids, this`makers
      ensures Reached(w, root, State()) && AllMemory(w, threads) && emitted == old(emitted)
      ensures Left(w, top, threads) <= Left(w, top, old(threads))
    {
      var index := 0;
      while index < |threads|
        invariant 0 <= index <= |threads| && Reached(w, root, State()) && emitted == old(emitted)
        invariant MemoryBelow(w, threads, index)
        invariant Left(w, top, threads) <= Left(w, top, old(threads))
        decreases Left(w, top, threads), |threads| - index
      {
        var moved := SkipOne(index, top, root);
        if moved {
          index := index - 1;
        }
        index := index + 1;
      }
    }

    /** The second inner loop: the earliest head by the order of the solution. */
    method FindEarliest() returns (earliest: Option<nat>, ghost at: nat)
      requires HeadsOrdered(w, threads)
      ensures earliest.Some? ==> Earliest(w, threads, at) && threads[at] == earliest
      ensures earliest.None? ==> forall j | 0 <= j < |threads| :: threads[j].None?
    {
      earliest, at := None, 0;
      var index := 0;
      while index < |threads|
        invariant 0 <= index <= |threads|
        invariant earliest.Some? ==> Earliest(w, threads[..index], at) && threads[at] == earliest
        invariant earliest.None? ==> forall j | 0 <= j < index :: threads[j].None?
      {
        var record := threads[index];
        assert threads[..index + 1] == threads[..index] + [record];
        if record.Some? && (earliest.None? || w.order(record.value, earliest.value)) {
          if earliest.Some? {
            EarlierStill(w, threads, at, index);
          }
          earliest, at := record, index;
        }
        index := index + 1;
      }
      assert threads[..index] == threads;
    }

    /** One round of the third inner loop. */
    method EmitOne(earliest: nat, index: nat, ghost at: nat, ghost f: Frontier, ghost before: imap<nat, seq<WaitPair>>)
      requires Closed(w) && EmitReady(w, f, at) && f.heads[at] == Some(earliest) && index < |f.heads|
      requires State() == Halfway(w, f, at, index) && scheduler.Valid()
      requires PairsAdded(w, f, at, index, before, scheduler.AllWaits())
      modifies this`threads, this`lastoperation, scheduler`waitset, scheduler`waitsetindex, scheduler.waitsetindex
      ensures State() == Halfway(w, f, at, index + 1) && scheduler.Valid()
      ensures scheduler.waitsetindex == old(scheduler.waitsetindex) || fresh(scheduler.waitsetindex)
      ensures PairsAdded(w, f, at, index + 1, before, scheduler.AllWaits())
    {
      var record := threads[index];
      ghost var was := scheduler.AllWaits();
      if record == Some(earliest) {
        assert index == at;
        var next := GetNextRecord(w, earliest);
        threads := threads[index := next];
        lastoperation := lastoperation[index := record];
      } else {
        assert index != at;
        var last := lastoperation[index];
        if last.Some? {
          scheduler.AddWaitPair(w.graph[earliest].point, w.graph[last.value].point);
        }
      }
      PairsStep(w, f, at, index, before, was, scheduler.AllWaits());
    }

    /** The third inner loop: the operation waits for the last operations of the other threads. */
    method EmitLoop(earliest: nat, ghost at: nat, ghost f: Frontier, ghost before: imap<nat, seq<WaitPair>>)
      requires Closed(w) && EmitReady(w, f, at) && f.heads[at] == Some(earliest) && State() == f
      requires scheduler.Valid() && before == scheduler.AllWaits()
      modifies this`threads, this`lastoperation, scheduler`waitset, scheduler`waitsetindex, scheduler.waitsetindex
      ensures State() == Halfway(w, f, at, |f.heads|)
      ensures scheduler.Valid()
      ensures scheduler.waitsetindex == old(scheduler.waitsetindex) || fresh(scheduler.waitsetindex)
      ensures PairsAdded(w, f, at, |f.last|, before, scheduler.AllWaits())
    {
      var index, n := 0, |threads|;
      while index < n
        invariant 0 <= index <= n == |f.heads| && scheduler.Valid() && State() == Halfway(w, f, at, index)
        invariant scheduler.waitsetindex == old(scheduler.waitsetindex) || fresh(scheduler.waitsetindex)
        invariant PairsAdded(w, f, at, index, before, scheduler.AllWaits())
      {
        EmitOne(earliest, index, at, f, before);
        index := index + 1;
      }
    }

    /** The operation is emitted. */
    method Emit(earliest: nat, ghost at: nat)
      requires Closed(w) && EmitReady(w, State(), at) && threads[at] == Some(earliest) && scheduler.Valid()
      modifies this`threads, this`lastoperation, this`emitted, scheduler`waitset, scheduler`waitsetindex
      modifies scheduler.waitsetindex
      ensures State() == Emitted(w, old(State()), at)
      ensures scheduler.Valid()
      ensures scheduler.waitsetindex == old(scheduler.waitsetindex) || fresh(scheduler.waitsetindex)
      ensures PairsAdded(w, old(State()), at, |old(State()).last|, old(scheduler.AllWaits()), scheduler.AllWaits())
    {
      EmitLoop(earliest, at, State(), scheduler.AllWaits());
      emitted := emitted + [earliest];
    }

    /** The first two inner loops: the earliest of the operations that the threads have come to. */
    method NextOperation(ghost top: nat, ghost root: nat)
      returns (earliest: Option<nat>, ghost at: nat)
      requires Buildable(w, top, root) && Reached(w, root, State())
      modifies this`threads, this`lastoperation, this`tids, this`makers
      ensures Reached(w, root, State()) && AllMemory(w, threads) && emitted == old(emitted)
      ensures Left(w, top, threads) <= Left(w, top, old(threads))
      ensures earliest.Some? ==> Earliest(w, threads, at) && threads[at] == earliest
      ensures earliest.None? ==> forall j | 0 <= j < |threads| :: threads[j].None?
    {
      SkipToOperations(top, root);
      OrderedIfOps(w, top, root, State());
      earliest, at := FindEarliest();
    }

    /** The third inner loop, with what it keeps. */
    method EmitNext(earliest: nat, ghost at: nat, ghost top: nat, ghost root: nat)
      requires Buildable(w, top, root) && Reached(w, root, State())
      requires AllMemory(w, threads) && Earliest(w, threads, at) && threads[at] == Some(earliest)
      requires scheduler.Valid() && PlanKept(w, emitted, scheduler.AllWaits())
      modifies this`threads, this`lastoperation, this`emitted, scheduler`waitset, scheduler`waitsetindex
      modifies scheduler.waitsetindex
      ensures Reached(w, root, State()) && Left(w, top, threads) < Left(w, top, old(threads))
      ensures scheduler.Valid()
      ensures scheduler.waitsetindex == old(scheduler.waitsetindex) || fresh(scheduler.waitsetindex)
      ensures PlanKept(w, emitted, scheduler.AllWaits())
    {
      ghost var f := State();
      EarliestFacts(w, top, root, f, at);
      ghost var before := scheduler.AllWaits();
      Emit(earliest, at);
      assert State() == Emitted(w, f, at);
      PlanStays(w, top, root, f, at, before, scheduler.AllWaits());
    }

    /** One round of the loop of buildSchedule. */
    method Round(ghost top: nat, ghost root: nat) returns (done: bool)
      requires Buildable(w, top, root) && Reached(w, root, State())
      requires scheduler.Valid() && PlanKept(w, emitted, scheduler.AllWaits())
      modifies this, scheduler`waitset, scheduler`waitsetindex, scheduler.waitsetindex
      ensures Reached(w, root, State())
      ensures scheduler.Valid() && PlanKept(w, emitted, scheduler.AllWaits())
      ensures scheduler.waitsetindex == old(scheduler.waitsetindex) || fresh(scheduler.waitsetindex)
      ensures !done ==> Left(w, top, threads) < Left(w, top, old(threads))
      ensures done ==> forall j | 0 <= j < |threads| :: threads[j].None?
    {
      var earliest;
      ghost var at;
      earliest, at := NextOperation(top, root);
      done := earliest.None?;
      if earliest.Some? {
        EmitNext(earliest.value, at, top, root);
      }
    }

    /** The loop of buildSchedule, until every thread has ended. */
    method MergeAll(ghost top: nat, ghost root: nat)
      requires Buildable(w, top, root) && Reached(w, root, State())
      requires scheduler.Valid() && PlanKept(w, emitted, scheduler.AllWaits())
      modifies this, scheduler`waitset, scheduler`waitsetindex, scheduler.waitsetindex
      ensures Reached(w, root, State())
      ensures scheduler.Valid() && PlanKept(w, emitted, scheduler.AllWaits())
      ensures forall j | 0 <= j < |threads| :: threads[j].None?
    {
      var done := false;
      while !done
        invariant Reached(w, root, State())
        invariant scheduler.Valid() && PlanKept(w, emitted, scheduler.AllWaits())
        invariant scheduler.waitsetindex == old(scheduler.waitsetindex) || fresh(scheduler.waitsetindex)
        invariant done ==> forall j | 0 <= j < |threads| :: threads[j].None?
        decreases !done, Left(w, top, threads)
      {
        done := Round(top, root);
      }
    }

    /** buildSchedule: the operations of the run are emitted, all of them, what is done later later, and every
        operation gets its wait pairs. They are emitted in the order of the solution exactly when that order
        agrees with program order and thread creation. */
    method BuildSchedule(root: nat, ghost top: nat)
      requires Buildable(w, top, root)
      requires State() == Frontier([], [], [], [], []) && scheduler.Valid() && forall t: nat :: scheduler.Waits(t) == []
      modifies this, scheduler`waitset, scheduler`waitsetindex, scheduler.waitsetindex
      ensures forall o :: o in emitted <==> o in Ops(w, top, Some(root))
      ensures InOrder(w, emitted) <==> AllComeFirst(w, top, root)
      ensures ProgramFollowed(w, top, emitted)
      ensures scheduler.Valid() && PlanKept(w, emitted, scheduler.AllWaits())
    {
      threads, lastoperation := [Some(root)], [None];
      tids, makers := [0], [root];
      assert ReachedIn(w, root, State(), 0);
      assert PlanKept(w, emitted, scheduler.AllWaits()) by {
        assert emitted == [];
      }
      MergeAll(top, root);
      NothingLeft(w, top, root, State());
    }
  }

  /** Emitting the head of thread k and adding its pairs keeps every list right. */
  lemma PlanStays(w: Input, top: nat, root: nat, f: Frontier, k: nat, before: imap<nat, seq<WaitPair>>,
                  now: imap<nat, seq<WaitPair>>)
    requires Buildable(w, top, root) && Reached(w, root, f) && EmitReady(w, f, k)
    requires PlanKept(w, f.emitted, before) && PairsAdded(w, f, k, |f.last|, before, now)
    ensures PlanKept(w, f.emitted + [f.heads[k].value], now)
  {
    EveryStateMerges(w, top, root, f);
    PlanGrows(w, f, k);
    forall t: nat ensures t in now && WaitsFor(PointsOf(w, f.emitted + [f.heads[k].value]), t, now[t]) {
      assert PairsAddedTo(w, f, k, |f.last|, before, now, t);
      WaitsAfter(w, f, k, t, before[t], now[t]);
    }
  }

  /** When every thread has ended, everything is emitted and in order. */
  lemma NothingLeft(w: Input, top: nat, root: nat, f: Frontier)
    requires Buildable(w, top, root) && Reached(w, root, f)
    requires forall j | 0 <= j < |f.heads| :: f.heads[j].None?
    ensures forall o :: o in f.emitted <==> o in Ops(w, top, Some(root))
    ensures InOrder(w, f.emitted) <==> AllComeFirst(w, top, root)
    ensures ProgramFollowed(w, top, f.emitted)
  {
    EveryStateMerges(w, top, root, f);
    forall o ensures !Pending(w, top, f.heads, o) {
    }
    forall i | 0 <= i < |f.emitted| ensures DoneLater(w, top, f.emitted, i) {
      assert Followed(w, top, f, i);
    }
    if InOrder(w, f.emitted) {
      forall a | a in Ops(w, top, Some(root)) ensures ComesFirst(w, top, a) {
        OrderedFirst(w, top, f.emitted, a);
      }
    }
  }

  lemma OrderedFirst(w: Input, top: nat, emitted: seq<nat>, a: nat)
    requires Recorded(w, top) && a in w.graph && a in emitted && InOrder(w, emitted) && ProgramFollowed(w, top, emitted)
    ensures ComesFirst(w, top, a)
  {
    var i :| 0 <= i < |emitted| && emitted[i] == a;
    assert DoneLater(w, top, emitted, i);
    forall o | o in Ops(w, top, Onward(w, a)) ensures w.order(a, o) {
      var j :| 0 <= j < |emitted[i + 1..]| && emitted[i + 1..][j] == o;
      assert emitted[i + 1 + j] == o;
    }
  }

  /** The lists are those that the emitted schedule asks for. */
  ghost predicate PlanKept(w: Input, emitted: seq<nat>, waits: imap<nat, seq<WaitPair>>) {
    && (forall e | e in emitted :: e in w.graph)
    && ProgramOrder(PointsOf(w, emitted))
    && forall t: nat :: t in waits && WaitsFor(PointsOf(w, emitted), t, waits[t])
  }

  /** The lists when the pairs for the head of thread k are added. */
  ghost predicate PairsAdded(w: Input, f: Frontier, k: nat, n: nat, before: imap<nat, seq<WaitPair>>,
                             now: imap<nat, seq<WaitPair>>)
    requires EmitReady(w, f, k) && n <= |f.last|
  {
    forall t: nat {:trigger PairsAddedTo(w, f, k, n, before, now, t)} :: PairsAddedTo(w, f, k, n, before, now, t)
  }

  ghost predicate PairsAddedTo(w: Input, f: Frontier, k: nat, n: nat, before: imap<nat, seq<WaitPair>>,
                               now: imap<nat, seq<WaitPair>>, t: nat)
    requires EmitReady(w, f, k) && n <= |f.last|
  {
    && t in before && t in now
    && now[t] == before[t] + (if t == Tid(w, f.heads[k].value) then PairsFor(w, f, k, n) else [])
  }

  /** The vectors after the first n rounds of the third inner loop. */
  ghost function Halfway(w: Input, f: Frontier, k: nat, n: nat): Frontier
    requires Closed(w) && EmitReady(w, f, k)
  {
    if n > k then f.(heads := f.heads[k := Onward(w, f.heads[k].value)], last := f.last[k := f.heads[k]]) else f
  }

  /** What round n adds to the list of thread t. */
  ghost function NewPair(w: Input, f: Frontier, k: nat, n: nat, t: nat): seq<WaitPair>
    requires EmitReady(w, f, k) && n < |f.last|
  {
    if t == Tid(w, f.heads[k].value) && n != k && f.last[n].Some?
    then [WaitPair(w.graph[f.heads[k].value].point, w.graph[f.last[n].value].point)]
    else []
  }

  lemma PairsStep(w: Input, f: Frontier, k: nat, n: nat,
                  before: imap<nat, seq<WaitPair>>, was: imap<nat, seq<WaitPair>>, now: imap<nat, seq<WaitPair>>)
    requires EmitReady(w, f, k) && n < |f.last| && PairsAdded(w, f, k, n, before, was)
    requires forall t: nat :: t in was && t in now && now[t] == was[t] + NewPair(w, f, k, n, t)
    ensures PairsAdded(w, f, k, n + 1, before, now)
  {
    var m := n + 1;
    forall t: nat {:trigger PairsAddedTo(w, f, k, m, before, now, t)} ensures PairsAddedTo(w, f, k, m, before, now, t) {
      assert PairsAddedTo(w, f, k, n, before, was, t);
    }
  }

  /** The order is total and transitive on the heads. */
  ghost predicate HeadsOrdered(w: Input, heads: seq<Option<nat>>) {
    && (forall i, j | 0 <= i < |heads| && 0 <= j < |heads| && heads[i].Some? && heads[j].Some? ::
          heads[i] == heads[j] || w.order(heads[i].value, heads[j].value) != w.order(heads[j].value, heads[i].value))
    && (forall i, j, k | 0 <= i < |heads| && 0 <= j < |heads| && 0 <= k < |heads|
          && heads[i].Some? && heads[j].Some? && heads[k].Some? ::
          w.order(heads[i].value, heads[j].value) && w.order(heads[j].value, heads[k].value) ==>
            w.order(heads[i].value, heads[k].value))
  }

  /** A head before the earliest so far is the earliest so far. */
  lemma EarlierStill(w: Input, heads: seq<Option<nat>>, at: nat, n: nat)
    requires HeadsOrdered(w, heads) && n < |heads| && heads[n].Some?
    requires Earliest(w, heads[..n], at) && w.order(heads[n].value, heads[at].value)
    ensures Earliest(w, heads[..n + 1], n)
  {
    var now := heads[..n + 1];
    forall j | 0 <= j < n + 1 ensures NotAfter(w, heads[n].value, now[j]) {
      if j < n {
        assert NotAfter(w, heads[at].value, heads[..n][j]);
      }
    }
  }

  lemma OrderedIfOps(w: Input, top: nat, root: nat, f: Frontier)
    requires Buildable(w, top, root) && Reached(w, root, f) && AllMemory(w, f.heads)
    ensures HeadsOrdered(w, f.heads)
  {
    EveryStateMerges(w, top, root, f);
    forall i | 0 <= i < |f.heads| && f.heads[i].Some? ensures f.heads[i].value in Ops(w, top, Some(root)) {
      assert MemoryHead(w, f.heads[i]);
      assert f.heads[i].value in Ops(w, top, f.heads[i]);
      assert Pending(w, top, f.heads, f.heads[i].value);
    }
  }

  /** What the third inner loop may rely on. */
  lemma EarliestFacts(w: Input, top: nat, root: nat, f: Frontier, k: nat)
    requires Buildable(w, top, root) && Reached(w, root, f)
    requires AllMemory(w, f.heads) && Earliest(w, f.heads, k)
    ensures EmitReady(w, f, k)
    ensures Reached(w, root, Emitted(w, f, k)) && Left(w, top, Emitted(w, f, k).heads) < Left(w, top, f.heads)
  {
    EveryStateMerges(w, top, root, f);
    assert MemoryHead(w, f.heads[k]);
    StepOn(w, top, f.heads[k].value);
    ReachedNext(w, root, f, k, Emitted(w, f, k));
    Progress(w, top, f, k);
    forall j | 0 <= j < |f.last| && f.last[j].Some? ensures f.last[j].value in w.graph {
      assert f.last[j] == LastOf(w, f.emitted, f.tids[j]);
    }
  }

  /** The head of thread k is an operation that no other thread stands at. */
  ghost predicate EmitReady(w: Input, f: Frontier, k: nat) {
    && k < |f.heads| == |f.last| && f.heads[k].Some? && f.heads[k].value in w.graph
    && w.graph[f.heads[k].value].kind == Memory
    && (forall j | 0 <= j < |f.last| && f.last[j].Some? :: f.last[j].value in w.graph)
    && (forall j | 0 <= j < |f.heads| && j != k :: f.heads[j] != f.heads[k])
  }

  /** What one round of the first inner loop may rely on, and what it achieves. */
  lemma MovedStays(w: Input, top: nat, root: nat, f: Frontier, k: nat)
    requires Buildable(w, top, root) && Reached(w, root, f) && k < |f.heads| && f.heads[k].Some?
    ensures |f.heads| == |f.last| == |f.tids| == |f.makers|
    ensures f.heads[k].value in w.graph && Onward(w, f.heads[k].value) != f.heads[k]
    ensures w.graph[f.heads[k].value].kind == ThreadCreate ==> Creates(w, f.heads[k].value)
    ensures w.graph[f.heads[k].value].kind != Memory ==>
      Reached(w, root, HeadMoved(w, f, k)) && Left(w, top, HeadMoved(w, f, k).heads) < Left(w, top, f.heads)
  {
    EveryStateMerges(w, top, root, f);
    var x := f.heads[k].value;
    StepOn(w, top, x);
    NotItself(w, top, x);
    if w.graph[x].kind != Memory {
      ReachedNext(w, root, f, k, HeadMoved(w, f, k));
      Progress(w, top, f, k);
    }
  }

  /** A record never leads to itself. */
  lemma NotItself(w: Input, top: nat, x: nat)
    requires Recorded(w, top) && x in w.graph
    ensures Onward(w, x) != Some(x)
  {
    StepOn(w, top, x);
    LaterIsAfter(w.graph[x].point.pairs, w.graph[x].point.pairs);
  }

  /** The schedule as the replay sees it, for n threads. */
  ghost function PlanOf(w: Input, emitted: seq<nat>, waits: imap<nat, seq<WaitPair>>, n: nat): Plan
    requires PlanKept(w, emitted, waits)
  {
    Plan(PointsOf(w, emitted), seq(n, t requires 0 <= t < n => waits[t]))
  }

  /** What buildSchedule leaves behind is fit for replay: it admits exactly one interleaving. */
  lemma ScheduleIsPlanned(w: Input, top: nat, emitted: seq<nat>, waits: imap<nat, seq<WaitPair>>)
    requires PlanKept(w, emitted, waits) && forall e | e in emitted :: Tid(w, e) < top
    ensures Planned(PlanOf(w, emitted, waits, top))
  {
    var p := PlanOf(w, emitted, waits, top);
    forall t, k | 0 <= t < top && 0 <= k < |p.waits[t]| ensures p.waits[t][k].wait.tid < top {
      assert PairOk(p.ops, t, waits[t][k]);
      var i := Place(p.ops, waits[t][k].wait);
      assert p.ops[i] == w.graph[emitted[i]].point;
    }
  }
}
