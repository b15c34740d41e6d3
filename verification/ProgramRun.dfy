/** What a thread does when it follows the records under a solution: it stays in the directions that the solution takes,
    and leaves out nothing in them (processRecord and getNextRecord of schedulebuilder.cc). */
module ProgramRuns {
  import opened Encodings
  import opened Schedules

  // ---------------------------------------------------------------- how recording nests the records

  predicate SamePlace(w: Input, x: nat, y: nat) {
    && x in w.graph && y in w.graph && w.graph[y].branch == w.graph[x].branch
    && w.graph[y].direction == w.graph[x].direction
  }

  /** y sits where x sits, or where a branch around x sits: leaving a loop may leave branches. */
  predicate SameOrOuter(w: Input, x: nat, y: nat)
    requires Closed(w) && x in w.graph
    decreases |w.graph[x].point.pairs|
  {
    assert RecOk(w, x);
    SamePlace(w, x, y) || (w.graph[x].branch.Some? && SameOrOuter(w, w.graph[x].branch.value, y))
  }

  /** Records follow one another within a direction or out of it, loops stay in it, a branch leads into its directions,
      and a created thread starts outside of all branches. */
  ghost predicate Nested(w: Input, x: nat)
    requires Closed(w) && x in w.graph
  {
    var r := w.graph[x];
    && (r.next.Some? ==> SameOrOuter(w, x, r.next.value))
    && (r.kind == LoopEnter && r.child.Some? ==> SamePlace(w, x, r.child.value))
    && (r.kind == ThreadCreate && r.child.Some? ==> r.child.value in w.graph && w.graph[r.child.value].branch.None?)
    && forall i | 0 <= i < |r.dirs| && r.dirs[i].Some? ::
         r.dirs[i].value in w.graph && w.graph[r.dirs[i].value].branch == Some(x)
         && w.graph[r.dirs[i].value].direction == i
  }

  ghost predicate AllNested(w: Input)
    requires Closed(w)
  {
    forall x {:trigger Nested(w, x)} | x in w.graph :: Nested(w, x)
  }

  // ---------------------------------------------------------------- only what is taken

  /** The solution takes every direction around the record. */
  predicate Taken(w: Input, x: nat)
    requires Closed(w) && x in w.graph
    decreases |w.graph[x].point.pairs|
  {
    assert RecOk(w, x);
    w.graph[x].branch.Some? ==>
      var b := w.graph[x].branch.value;
      b in w.values && w.values[b] == w.graph[x].direction && Taken(w, b)
  }

  lemma {:induction false} OuterIsTaken(w: Input, x: nat, y: nat)
    requires Closed(w) && x in w.graph && y in w.graph && Taken(w, x) && SameOrOuter(w, x, y)
    ensures Taken(w, y)
    decreases |w.graph[x].point.pairs|
  {
    assert RecOk(w, x) && RecOk(w, y);
    if !SamePlace(w, x, y) {
      OuterIsTaken(w, w.graph[x].branch.value, y);
    }
  }

  lemma {:induction false} NextIsTaken(w: Input, x: nat)
    requires Closed(w) && AllNested(w) && x in w.graph && Taken(w, x)
    ensures GetNextRecord(w, x).Some? ==> Taken(w, GetNextRecord(w, x).value)
    decreases |w.graph[x].point.pairs|
  {
    assert RecOk(w, x) && Nested(w, x);
    if Sibling(w, x).Some? {
      OuterIsTaken(w, x, Sibling(w, x).value);
    } else if w.graph[x].branch.Some? {
      NextIsTaken(w, w.graph[x].branch.value);
    }
  }

  lemma OnwardIsTaken(w: Input, x: nat)
    requires Closed(w) && AllNested(w) && x in w.graph && Taken(w, x)
    ensures Onward(w, x).Some? ==> Taken(w, Onward(w, x).value)
  {
    assert RecOk(w, x) && Nested(w, x);
    NextIsTaken(w, x);
    if Onward(w, x).Some? {
      assert RecOk(w, Onward(w, x).value);
    }
  }

  /** A thread, and the threads that it creates, execute operations only in directions that the solution takes. */
  lemma {:induction false} OnlyTakenRuns(w: Input, top: nat, at: Option<nat>, o: nat)
    requires Recorded(w, top) && AllNested(w) && LinkOk(w.graph, at) && (at.Some? ==> Taken(w, at.value))
    requires o in Ops(w, top, at)
    ensures Taken(w, o)
    decreases if at.None? then 0 else top - Tid(w, at.value), if at.None? then 0 else 1 + |Rest(w, at.value)|
  {
    if at.Some? {
      var x := at.value;
      StepOn(w, top, x);
      OnwardIsTaken(w, x);
      assert RecOk(w, x) && Nested(w, x);
      if o in Ops(w, top, Onward(w, x)) {
        OnlyTakenRuns(w, top, Onward(w, x), o);
      } else if o != x {
        assert RecOk(w, w.graph[x].child.value);
        OnlyTakenRuns(w, top, w.graph[x].child, o);
      }
    }
  }

  // ---------------------------------------------------------------- all that is taken

  /** z sits in a direction of the branch, at any depth. */
  predicate Inside(w: Input, branch: nat, z: nat)
    requires Closed(w) && z in w.graph
    decreases |w.graph[z].point.pairs|
  {
    assert RecOk(w, z);
    w.graph[z].branch.Some? && (w.graph[z].branch.value == branch || Inside(w, branch, w.graph[z].branch.value))
  }

  /** Nothing inside the branch leaves it before the end of its direction. */
  ghost predicate Straight(w: Input, branch: nat)
    requires Closed(w)
  {
    forall z {:trigger GoesStraight(w, z)} | z in w.graph && Inside(w, branch, z) :: GoesStraight(w, z)
  }

  predicate GoesStraight(w: Input, z: nat)
    requires z in w.graph
  {
    && (w.graph[z].next.Some? ==> SamePlace(w, z, w.graph[z].next.value))
    && !(w.graph[z].kind == Yield && w.noexecyields)
  }

  lemma InsideMoves(w: Input, branch: nat, z: nat, y: nat)
    requires Closed(w) && z in w.graph && y in w.graph && Inside(w, branch, z) && SamePlace(w, z, y)
    ensures Inside(w, branch, y)
  {
    assert RecOk(w, y) && RecOk(w, z);
  }

  lemma {:induction false} NextInside(w: Input, branch: nat, z: nat)
    requires Closed(w) && branch in w.graph && z in w.graph && Inside(w, branch, z) && Straight(w, branch)
    ensures GetNextRecord(w, z) == GetNextRecord(w, branch)
            || (GetNextRecord(w, z).Some? && Inside(w, branch, GetNextRecord(w, z).value))
    decreases |w.graph[z].point.pairs|
  {
    assert RecOk(w, z) && GoesStraight(w, z);
    if Sibling(w, z).Some? {
      InsideMoves(w, branch, z, Sibling(w, z).value);
    } else if w.graph[z].branch.value != branch {
      NextInside(w, branch, w.graph[z].branch.value);
    }
  }

  lemma OnwardInside(w: Input, branch: nat, z: nat)
    requires Closed(w) && AllNested(w) && branch in w.graph && z in w.graph
    requires Inside(w, branch, z) && Straight(w, branch)
    requires w.graph[z].kind == LoopEnter ==> w.graph[z].child.Some?
    ensures Onward(w, z) == GetNextRecord(w, branch)
            || (Onward(w, z).Some? && Inside(w, branch, Onward(w, z).value))
  {
    assert RecOk(w, z) && Nested(w, z) && GoesStraight(w, z);
    NextInside(w, branch, z);
    if w.graph[z].kind == LoopEnter {
      InsideMoves(w, branch, z, w.graph[z].child.value);
    }
    if Onward(w, z).Some? {
      assert RecOk(w, Onward(w, z).value);
    }
  }

  /** From inside a branch the thread comes to what follows it. */
  lemma {:induction false} ComesBehind(w: Input, top: nat, branch: nat, z: nat)
    requires Recorded(w, top) && AllNested(w) && branch in w.graph && z in w.graph
    requires Inside(w, branch, z) && Straight(w, branch)
    requires forall y | y in w.graph && w.graph[y].kind == LoopEnter :: w.graph[y].child.Some?
    ensures Ops(w, top, GetNextRecord(w, branch)) <= Ops(w, top, Some(z))
    decreases |Rest(w, z)|
  {
    StepOn(w, top, z);
    OnwardInside(w, branch, z);
    if Onward(w, z) != GetNextRecord(w, branch) {
      ComesBehind(w, top, branch, Onward(w, z).value);
    }
  }

  /** The record is the first one of the direction that the solution takes. */
  predicate LeadsInto(w: Input, branch: nat, x: nat) {
    && branch in w.graph && x in w.graph && branch in w.values
    && 0 <= w.values[branch] < |w.graph[branch].dirs| && w.graph[branch].dirs[w.values[branch]] == Some(x)
  }

  /** A thread at a branch executes all operations of the direction that the solution takes, and whatever it takes, all
      operations of what follows the branch. */
  lemma BranchRuns(w: Input, top: nat, branch: nat)
    requires Recorded(w, top) && AllNested(w) && branch in w.graph && w.graph[branch].kind == Branch
    requires Straight(w, branch)
    requires forall y | y in w.graph && w.graph[y].kind == LoopEnter :: w.graph[y].child.Some?
    ensures forall x | LeadsInto(w, branch, x) :: Ops(w, top, Some(x)) <= Ops(w, top, Some(branch))
    ensures Ops(w, top, GetNextRecord(w, branch)) <= Ops(w, top, Some(branch))
  {
    assert RecOk(w, branch) && Nested(w, branch);
    StepOn(w, top, branch);
    if Onward(w, branch) != GetNextRecord(w, branch) {
      var x := Onward(w, branch).value;
      assert RecOk(w, x);
      ComesBehind(w, top, branch, x);
    }
  }
}
