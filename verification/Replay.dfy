/** Replaying a schedule: wait pairs, the moving cursor, and the interleavings they admit (mcschedule.cc). */
module Replays {
  import opened ExecPoints

  /** The thread stops before the operation at stop until the operation at wait is done. */
  datatype WaitPair = WaitPair(stop: Point, wait: Point)

  // ---------------------------------------------------------------- the scheduler

  /** The cursor and the verdict that checkSet's loop ends with, from cursor i on. */
  function Scan(wps: seq<WaitPair>, i: nat, current: Point, points: seq<Point>, complete: seq<bool>): (r: (nat, bool))
    requires |points| == |complete| && forall k | 0 <= k < |wps| :: wps[k].wait.tid < |points|
    ensures i <= |wps| ==> i <= r.0 <= |wps|
    decreases |wps| - i
  {
    if i >= |wps| then (i, true)
    else if Compare(wps[i].stop.pairs, current.pairs) == Equals then
      var wait := wps[i].wait;
      var c := Compare(points[wait.tid].pairs, wait.pairs);
      if c == Before || c == Incomparable || complete[wait.tid] then Scan(wps, i + 1, current, points, complete)
      else (i, false)
    else (i, true)
  }

  class MCScheduler {
    var waitset: seq<seq<WaitPair>>
    var waitsetindex: array<nat>
    var newbehavior: bool

    ghost predicate Valid()
      reads this, waitsetindex
    {
      && waitsetindex.Length >= 4 && |waitset| <= waitsetindex.Length
      && (forall t | 0 <= t < |waitset| :: waitsetindex[t] <= |waitset[t]|)
      && (forall t | |waitset| <= t < waitsetindex.Length :: waitsetindex[t] == 0)
    }

    constructor ()
      ensures Valid() && fresh(waitsetindex) && waitset == [] && !newbehavior
    {
      waitset := [];
      waitsetindex := new nat[4](_ => 0);
      newbehavior := false;
    }

    method SetNewFlag()
      modifies this`newbehavior
      ensures newbehavior
    {
      newbehavior := true;
    }

    /** The wait pairs of a thread. */
    function Waits(t: nat): seq<WaitPair>
      reads this`waitset
    {
      if t < |waitset| then waitset[t] else []
    }

    /** The lists of all threads. */
    ghost function AllWaits(): (m: imap<nat, seq<WaitPair>>)
      reads this`waitset
      ensures forall t: nat :: t in m && m[t] == Waits(t)
    {
      imap t: nat | true :: Waits(t)
    }

    function Cursor(t: nat): nat
      reads this`waitsetindex, waitsetindex
    {
      if t < waitsetindex.Length then waitsetindex[t] else 0
    }

    /** addWaitPair: the pair goes to the end of its thread's list; no cursor moves. */
    method AddWaitPair(stop: Point, wait: Point)
      requires Valid()
      modifies this`waitset, this`waitsetindex, waitsetindex
      ensures Valid() && (waitsetindex == old(waitsetindex) || fresh(waitsetindex))
      ensures Waits(stop.tid) == old(Waits(stop.tid)) + [WaitPair(stop, wait)]
      ensures forall t: nat | t != stop.tid :: Waits(t) == old(Waits(t))
      ensures forall t: nat :: Cursor(t) == old(Cursor(t))
    {
      var tid := stop.tid;
      if tid >= waitsetindex.Length {
        GrowIndex(tid);
      }
      while |waitset| <= tid
        invariant Valid() && |waitset| <= waitsetindex.Length && tid < waitsetindex.Length
        invariant forall t: nat :: Waits(t) == old(Waits(t))
        invariant |old(waitset)| <= |waitset| <= tid + 1 || waitset == old(waitset)
        modifies this`waitset
        decreases tid + 1 - |waitset|
      {
        waitset := waitset + [[]];
      }
      waitset := waitset[tid := waitset[tid] + [WaitPair(stop, wait)]];
    }

    /** The index array grows to twice the thread's number. */
    method GrowIndex(tid: nat)
      requires Valid() && tid >= waitsetindex.Length
      modifies this`waitsetindex
      ensures Valid() && fresh(waitsetindex) && waitsetindex.Length == 2 * tid
      ensures forall t: nat :: Cursor(t) == old(Cursor(t))
    {
      var grown := new nat[2 * tid];
      var i := 0;
      while i < waitsetindex.Length
        invariant 0 <= i <= waitsetindex.Length <= grown.Length
        invariant forall t | 0 <= t < i :: grown[t] == waitsetindex[t]
        modifies grown
      {
        grown[i] := waitsetindex[i];
        i := i + 1;
      }
      while i < 2 * tid
        invariant waitsetindex.Length <= i <= grown.Length
        invariant forall t | 0 <= t < waitsetindex.Length :: grown[t] == waitsetindex[t]
        invariant forall t | waitsetindex.Length <= t < i :: grown[t] == 0
        modifies grown
      {
        grown[i] := 0;
        i := i + 1;
      }
      waitsetindex := grown;
    }

    /** checkSet: true lets the thread run. Only this thread's cursor moves. */
    method CheckSet(tid: nat, current: Point, points: seq<Point>, complete: seq<bool>) returns (run: bool)
      requires Valid() && |points| == |complete|
      requires forall k | 0 <= k < |Waits(tid)| :: Waits(tid)[k].wait.tid < |points|
      modifies waitsetindex
      ensures Valid()
      ensures newbehavior ==> run && forall t: nat :: Cursor(t) == old(Cursor(t))
      ensures !newbehavior ==> (Cursor(tid), run) == Scan(Waits(tid), old(Cursor(tid)), current, points, complete)
      ensures forall t: nat | t != tid :: Cursor(t) == old(Cursor(t))
    {
      if tid >= |waitset| {
        return true;
      }
      var wps := waitset[tid];
      assert wps == Waits(tid);
      if !newbehavior {
        while waitsetindex[tid] < |wps|
          invariant Valid() && (forall t: nat | t != tid :: Cursor(t) == old(Cursor(t)))
          invariant Scan(wps, Cursor(tid), current, points, complete)
            == Scan(wps, old(Cursor(tid)), current, points, complete)
          decreases |wps| - waitsetindex[tid]
        {
          var nextwp := wps[waitsetindex[tid]];
          var compare := Compare(nextwp.stop.pairs, current.pairs);
          if compare == Equals {
            var waitpoint := nextwp.wait;
            var comparewt := Compare(points[waitpoint.tid].pairs, waitpoint.pairs);
            if comparewt == Before || comparewt == Incomparable || complete[waitpoint.tid] {
              waitsetindex[tid] := waitsetindex[tid] + 1;
            } else {
              return false;
            }
          } else {
            return true;
          }
        }
      }
      return true;
    }

    /** What checkSet would say about a thread. */
    ghost function Answer(tid: nat, points: seq<Point>, complete: seq<bool>): bool
      requires |points| == |complete| && tid < |points|
      requires forall k | 0 <= k < |Waits(tid)| :: Waits(tid)[k].wait.tid < |points|
      reads this, waitsetindex
    {
      newbehavior || Scan(Waits(tid), Cursor(tid), points[tid], points, complete).1
    }

    /** The first n threads in turn are finished or must wait. */
    ghost predicate AllRefused(current: nat, n: nat, points: seq<Point>, complete: seq<bool>)
      requires current < |points| == |complete| && n <= |points|
      requires forall t, k | 0 <= t < |points| && 0 <= k < |Waits(t)| :: Waits(t)[k].wait.tid < |points|
      reads this, waitsetindex
    {
      forall j | 0 <= j < n :: complete[Turn(current, j, |points|)]
        || !Answer(Turn(current, j, |points|), points, complete)
    }

    /** check_preempt: the first thread in turn that is not finished and may run. If there is none, the search ends
        where it began, and that thread runs unless it is finished. */
    method CheckPreempt(current: nat, points: seq<Point>, complete: seq<bool>) returns (next: nat, swap: bool)
      requires Valid() && current < |points| == |complete|
      requires forall t, k | 0 <= t < |points| && 0 <= k < |Waits(t)| :: Waits(t)[k].wait.tid < |points|
      modifies waitsetindex
      ensures Valid() && next < |points| && (swap <==> !complete[next])
      ensures old(AllRefused(current, |points|, points, complete)) ==> next == Turn(current, 0, |points|)
      ensures !old(AllRefused(current, |points|, points, complete)) ==>
        swap && old(Answer(next, points, complete)) && exists i | 0 <= i < |points| ::
          next == Turn(current, i, |points|) && old(AllRefused(current, i, points, complete))
    {
      var n := |points|;
      var i := 0;
      next := Turn(current, 0, n);
      while i < n
        invariant 0 <= i <= n && Valid() && next == Turn(current, if i < n then i else 0, n)
        invariant forall j | i <= j < n :: Cursor(Turn(current, j, n)) == old(Cursor(Turn(current, j, n)))
        invariant old(AllRefused(current, i, points, complete))
      {
        if !complete[next] {
          var run := CheckSet(next, points[next], points, complete);
          if run {
            swap := true;
            return;
          }
        }
        next := if next + 1 == n then 0 else next + 1;
        i := i + 1;
      }
      swap := !complete[next];
    }
  }

  /** The thread tried in turn i, starting after the current one. */
  function Turn(current: nat, i: nat, n: nat): nat
    requires current < n && i < n
  {
    if current + 1 + i < n then current + 1 + i else current + 1 + i - n
  }

  // ---------------------------------------------------------------- what the wait pairs should say

  /** The schedule lists each thread's operations in program order. */
  ghost predicate ProgramOrder(plan: seq<Point>) {
    forall i, j | 0 <= i < j < |plan| && plan[i].tid == plan[j].tid :: Later(plan[i].pairs, plan[j].pairs)
  }

  /** Where an operation is in the schedule. */
  ghost function Place(plan: seq<Point>, op: Point): (i: nat)
    ensures i <= |plan|
    ensures op in plan <==> i < |plan|
    ensures i < |plan| ==> plan[i] == op
  {
    if op in plan then (var i :| 0 <= i < |plan| && plan[i] == op; i) else |plan|
  }

  lemma PlaceOf(plan: seq<Point>, i: nat)
    requires ProgramOrder(plan) && i < |plan|
    ensures Place(plan, plan[i]) == i
  {
    var j := Place(plan, plan[i]);
    LaterIsAfter(plan[i].pairs, plan[i].pairs);
    assert plan[j].tid == plan[i].tid;
  }

  /** Between the wait and the stop, the waited-for thread has no other operation. */
  ghost predicate LastBefore(plan: seq<Point>, wait: int, stop: int) {
    0 <= wait < stop <= |plan| && forall j | wait < j < stop :: plan[j].tid != plan[wait].tid
  }

  /** A pair of thread t: an operation of t and an earlier one of another thread. */
  ghost predicate PairOk(plan: seq<Point>, t: nat, p: WaitPair) {
    p.stop in plan && p.wait in plan && p.stop.tid == t && p.wait.tid != t && Place(plan, p.wait) < Place(plan, p.stop)
  }

  /** The wait pairs of thread t: stops come in order, and every operation waits for the last earlier
      operation of each other thread. */
  ghost predicate WaitsFor(plan: seq<Point>, t: nat, ws: seq<WaitPair>) {
    && (forall k | 0 <= k < |ws| :: PairOk(plan, t, ws[k]))
    && (forall k, l | 0 <= k < l < |ws| :: Place(plan, ws[k].stop) <= Place(plan, ws[l].stop))
    && (forall i, j | 0 <= j < i < |plan| && plan[i].tid == t && plan[j].tid != t && LastBefore(plan, j, i) ::
          WaitPair(plan[i], plan[j]) in ws)
  }

  /** Some earlier operation of another thread is the last one of its thread. */
  lemma {:induction false} LastExists(plan: seq<Point>, n: nat, i: nat) returns (j: nat)
    requires n < i <= |plan|
    ensures n <= j < i && plan[j].tid == plan[n].tid && LastBefore(plan, j, i)
    decreases i - n
  {
    j := n;
    if m :| n < m < i && plan[m].tid == plan[n].tid {
      j := LastExists(plan, m, i);
    }
  }

  // ---------------------------------------------------------------- replays

  /** The schedule and the wait pairs of each thread. */
  datatype Plan = Plan(ops: seq<Point>, waits: seq<seq<WaitPair>>)

  /** What has been executed (places in the schedule), where each thread is, its cursor, and whether it
      has finished. */
  datatype Replay = Replay(log: seq<nat>, cur: seq<Point>, cursor: seq<nat>, complete: seq<bool>)

  datatype Action =
    | Refuse(t: nat)
    | Run(t: nat, to: Point, finish: bool)

  /** A thread's next operation: the first in the schedule that is not executed. */
  function NextOp(ops: seq<Point>, log: seq<nat>, t: nat, from: nat): (i: nat)
    requires from <= |ops|
    ensures from <= i <= |ops|
    ensures i < |ops| ==> ops[i].tid == t && i !in log
    ensures forall k | from <= k < i :: ops[k].tid != t || k in log
    decreases |ops| - from
  {
    if from == |ops| || (ops[from].tid == t && from !in log) then from else NextOp(ops, log, t, from + 1)
  }

  predicate PlanOk(p: Plan) {
    && (forall i | 0 <= i < |p.ops| :: p.ops[i].tid < |p.waits|)
    && (forall t, k | 0 <= t < |p.waits| && 0 <= k < |p.waits[t]| :: p.waits[t][k].wait.tid < |p.waits|)
  }

  predicate Shaped(p: Plan, s: Replay) {
    |s.cur| == |s.complete| == |s.cursor| == |p.waits| && forall k | 0 <= k < |s.log| :: s.log[k] < |p.ops|
  }

  /** What checkSet says about a thread now. */
  function Verdict(p: Plan, s: Replay, t: nat): (nat, bool)
    requires PlanOk(p) && Shaped(p, s) && t < |p.waits|
  {
    Scan(p.waits[t], s.cursor[t], s.cur[t], s.cur, s.complete)
  }

  /** The thread stands at its next operation. */
  predicate AtOp(p: Plan, s: Replay, t: nat)
    requires Shaped(p, s) && t < |p.waits|
  {
    var i := NextOp(p.ops, s.log, t, 0);
    i < |p.ops| && s.cur[t] == p.ops[i]
  }

  /** A thread may stop at any later point, but not past its next operation. */
  predicate MayGo(ops: seq<Point>, log: seq<nat>, t: nat, from: Point, to: Point, finish: bool) {
    var i := NextOp(ops, log, t, 0);
    && to.tid == t && Later(from.pairs, to.pairs)
    && (i < |ops| ==> (to == ops[i] || Later(to.pairs, ops[i].pairs)) && !finish)
  }

  /** A step: a thread is refused, or it runs, which executes the operation it stands at, if any. */
  predicate Step(p: Plan, s: Replay, a: Action, s': Replay)
    requires PlanOk(p) && Shaped(p, s)
  {
    && a.t < |p.waits| && !s.complete[a.t]
    && var v := Verdict(p, s, a.t);
    match a
    case Refuse(t) => !v.1 && s' == s.(cursor := s.cursor[t := v.0])
    case Run(t, to, finish) =>
      var log := if AtOp(p, s, t) then s.log + [NextOp(p.ops, s.log, t, 0)] else s.log;
      && v.1 && MayGo(p.ops, log, t, s.cur[t], to, finish)
      && s' == Replay(log, s.cur[t := to], s.cursor[t := v.0], s.complete[t := finish])
  }

  // ---------------------------------------------------------------- the invariant

  /** The first n operations of the schedule, and no others, are executed; every thread is between its
      last executed and its next operation; cursors have passed what is executed and nothing else. */
  ghost predicate Follows(p: Plan, s: Replay) {
    && Shaped(p, s)
    && (forall k | 0 <= k < |s.log| :: s.log[k] == k) && |s.log| <= |p.ops|
    && (forall t | 0 <= t < |p.waits| :: ThreadOk(p, s, |s.log|, t))
  }

  ghost predicate ThreadOk(p: Plan, s: Replay, n: nat, t: nat)
    requires Shaped(p, s) && t < |p.waits| && n <= |p.ops|
  {
    PositionOk(p.ops, n, t, s.cur[t], s.complete[t]) && CursorOk(p.ops, n, p.waits[t], s.cursor[t])
  }

  ghost predicate PositionOk(ops: seq<Point>, n: nat, t: nat, cur: Point, complete: bool)
    requires n <= |ops|
  {
    && cur.tid == t
    && (forall i | 0 <= i < n && ops[i].tid == t :: Later(ops[i].pairs, cur.pairs))
    && (forall i | n <= i < |ops| && ops[i].tid == t :: (cur == ops[i] || Later(cur.pairs, ops[i].pairs)) && !complete)
  }

  ghost predicate CursorOk(ops: seq<Point>, n: nat, ws: seq<WaitPair>, cursor: nat) {
    && cursor <= |ws|
    && (forall k | 0 <= k < cursor :: Place(ops, ws[k].wait) < n)
    && (forall k | cursor <= k < |ws| :: Place(ops, ws[k].stop) >= n)
  }

  /** The wait pairs are those of the schedule. */
  ghost predicate Planned(p: Plan) {
    PlanOk(p) && ProgramOrder(p.ops) && forall t | 0 <= t < |p.waits| :: WaitsFor(p.ops, t, p.waits[t])
  }

  // ---------------------------------------------------------------- what checkSet decides

  lemma LaterCompare(a: seq<Pair>, b: seq<Pair>)
    requires a == b || Later(a, b)
    ensures if a == b then Compare(b, a) == Equals && Compare(a, b) == Equals
            else Compare(b, a) == Before && Compare(a, b) == After
  {
    if a == b {
      CompareSkip(a, a, 0, |a|);
    } else {
      LaterIsAfter(a, b);
      CompareAntisymmetric(a, b);
    }
  }

  /** With the first n operations executed, the next operation is the first of the thread from n on. */
  lemma NextIsFirst(p: Plan, s: Replay, t: nat)
    requires Follows(p, s)
    ensures var i := NextOp(p.ops, s.log, t, 0);
      |s.log| <= i && forall k | |s.log| <= k < i :: p.ops[k].tid != t
  {
    var i := NextOp(p.ops, s.log, t, 0);
    forall k | 0 <= k < |s.log| ensures k in s.log {
      assert s.log[k] == k;
    }
    forall k | |s.log| <= k < i ensures p.ops[k].tid != t {
      assert k !in s.log;
    }
  }

  /** The stop of an open pair is the current point exactly when the thread stands there. */
  lemma StopCompare(p: Plan, s: Replay, t: nat, stop: nat)
    requires Planned(p) && Follows(p, s) && t < |p.waits| && |s.log| <= stop < |p.ops| && p.ops[stop].tid == t
    ensures Compare(p.ops[stop].pairs, s.cur[t].pairs) == Equals <==> s.cur[t] == p.ops[stop]
    ensures s.cur[t] == p.ops[stop] <==> AtOp(p, s, t) && stop == NextOp(p.ops, s.log, t, 0)
  {
    assert ThreadOk(p, s, |s.log|, t);
    LaterCompare(s.cur[t].pairs, p.ops[stop].pairs);
    LaterIsAfter(s.cur[t].pairs, p.ops[stop].pairs);
    NextIsFirst(p, s, t);
    var i := NextOp(p.ops, s.log, t, 0);
    if i < stop && s.cur[t] == p.ops[stop] {
      assert Later(p.ops[i].pairs, p.ops[stop].pairs);
      LaterCompare(p.ops[i].pairs, p.ops[stop].pairs);
      LaterCompare(p.ops[stop].pairs, p.ops[i].pairs);
      assert false;
    }
  }

  /** A wait is over exactly when its operation is executed. */
  lemma WaitCompare(p: Plan, s: Replay, wait: nat)
    requires Planned(p) && Follows(p, s) && wait < |p.ops|
    ensures var u := p.ops[wait].tid; var c := Compare(s.cur[u].pairs, p.ops[wait].pairs);
      wait < |s.log| <==> c == Before || c == Incomparable || s.complete[u]
  {
    var u := p.ops[wait].tid;
    assert ThreadOk(p, s, |s.log|, u);
    if wait < |s.log| {
      LaterCompare(p.ops[wait].pairs, s.cur[u].pairs);
    } else {
      LaterCompare(s.cur[u].pairs, p.ops[wait].pairs);
    }
  }

  /** Pair c stops the thread where it stands. */
  ghost predicate Hit(p: Plan, s: Replay, t: nat, c: nat)
    requires Shaped(p, s) && t < |p.waits| && c < |p.waits[t]|
  {
    AtOp(p, s, t) && Place(p.ops, p.waits[t][c].stop) == NextOp(p.ops, s.log, t, 0)
  }

  /** The wait of pair c is over. */
  ghost predicate Over(p: Plan, s: Replay, t: nat, c: nat)
    requires t < |p.waits| && c < |p.waits[t]|
  {
    Place(p.ops, p.waits[t][c].wait) < |s.log|
  }

  /** checkSet's comparisons see pair c as it is. */
  ghost predicate Seen(p: Plan, s: Replay, t: nat, c: nat)
    requires PlanOk(p) && Shaped(p, s) && t < |p.waits| && c < |p.waits[t]|
  {
    var w := p.waits[t][c];
    && (Compare(w.stop.pairs, s.cur[t].pairs) == Equals <==> Hit(p, s, t, c))
    && (var k := Compare(s.cur[w.wait.tid].pairs, w.wait.pairs);
        (k == Before || k == Incomparable || s.complete[w.wait.tid]) <==> Over(p, s, t, c))
  }

  lemma PairMeaning(p: Plan, s: Replay, t: nat, c: nat)
    requires Planned(p) && Follows(p, s) && t < |p.waits| && s.cursor[t] <= c < |p.waits[t]|
    ensures Seen(p, s, t, c)
  {
    var w := p.waits[t][c];
    assert ThreadOk(p, s, |s.log|, t) && PairOk(p.ops, t, w);
    StopCompare(p, s, t, Place(p.ops, w.stop));
    WaitCompare(p, s, Place(p.ops, w.wait));
  }

  /** Where the scan ends: it passes the pairs of the operation the thread stands at whose waits are
      over, and refuses at the first whose wait is not. */
  lemma {:induction false} ScanMeaning(p: Plan, s: Replay, t: nat, c: nat)
    requires PlanOk(p) && Shaped(p, s) && t < |p.waits| && c <= |p.waits[t]|
    requires forall k | c <= k < |p.waits[t]| :: Seen(p, s, t, k)
    ensures var r := Scan(p.waits[t], c, s.cur[t], s.cur, s.complete);
      && (forall k | c <= k < r.0 :: Over(p, s, t, k))
      && (r.0 < |p.waits[t]| ==> (r.1 <==> !Hit(p, s, t, r.0)) && !(Hit(p, s, t, r.0) && Over(p, s, t, r.0)))
      && (r.0 == |p.waits[t]| ==> r.1)
    decreases |p.waits[t]| - c
  {
    if c < |p.waits[t]| {
      assert Seen(p, s, t, c);
      if Hit(p, s, t, c) && Over(p, s, t, c) {
        ScanMeaning(p, s, t, c + 1);
      }
    }
  }

  lemma ScanResult(p: Plan, s: Replay, t: nat)
    requires Planned(p) && Follows(p, s) && t < |p.waits|
    ensures var r := Verdict(p, s, t); var i := NextOp(p.ops, s.log, t, 0); var ws := p.waits[t];
      && s.cursor[t] <= r.0 <= |ws|
      && (forall k | s.cursor[t] <= k < r.0 :: Place(p.ops, ws[k].wait) < |s.log|)
      && (r.1 && r.0 < |ws| && AtOp(p, s, t) ==> Place(p.ops, ws[r.0].stop) != i)
      && (!r.1 ==>
            && r.0 < |ws| && AtOp(p, s, t) && Place(p.ops, ws[r.0].stop) == i
            && Place(p.ops, ws[r.0].wait) >= |s.log|)
  {
    assert s.cursor[t] <= |p.waits[t]| by {
      assert ThreadOk(p, s, |s.log|, t);
    }
    forall k | s.cursor[t] <= k < |p.waits[t]| ensures Seen(p, s, t, k) {
      PairMeaning(p, s, t, k);
    }
    ScanMeaning(p, s, t, s.cursor[t]);
    var r := Verdict(p, s, t);
    forall k | s.cursor[t] <= k < r.0 ensures Place(p.ops, p.waits[t][k].wait) < |s.log| {
      assert Over(p, s, t, k);
    }
  }

  /** A thread whose operation is not next still has a wait that is not over, and is refused. */
  lemma NotNextIsRefused(p: Plan, s: Replay, t: nat)
    requires Planned(p) && Follows(p, s) && t < |p.waits|
    requires AtOp(p, s, t) && NextOp(p.ops, s.log, t, 0) > |s.log|
    ensures !Verdict(p, s, t).1
  {
    var n, i, ws := |s.log|, NextOp(p.ops, s.log, t, 0), p.waits[t];
    assert CursorOk(p.ops, n, ws, s.cursor[t]) by {
      assert ThreadOk(p, s, n, t);
    }
    NextIsFirst(p, s, t);
    var j := LastExists(p.ops, n, i);
    assert WaitsFor(p.ops, t, ws);
    assert WaitPair(p.ops[i], p.ops[j]) in ws;
    var k :| 0 <= k < |ws| && ws[k] == WaitPair(p.ops[i], p.ops[j]);
    PlaceOf(p.ops, i);
    PlaceOf(p.ops, j);
    ScanResult(p, s, t);
    var r := Verdict(p, s, t);
    if r.0 <= k {
      StopsInOrder(p.ops, t, ws, r.0, k);
      assert PairOk(p.ops, t, ws[r.0]);
    }
  }

  lemma StopsInOrder(ops: seq<Point>, t: nat, ws: seq<WaitPair>, k: nat, l: nat)
    requires WaitsFor(ops, t, ws) && k <= l < |ws|
    ensures Place(ops, ws[k].stop) <= Place(ops, ws[l].stop)
  {
  }

  /** A thread that stands at its next operation may run exactly when that operation is next in the
      schedule; a thread that does not stand at one may always run. */
  lemma VerdictMeaning(p: Plan, s: Replay, t: nat)
    requires Planned(p) && Follows(p, s) && t < |p.waits|
    ensures AtOp(p, s, t) ==> (Verdict(p, s, t).1 <==> NextOp(p.ops, s.log, t, 0) == |s.log|)
    ensures !AtOp(p, s, t) ==> Verdict(p, s, t).1
  {
    NextIsFirst(p, s, t);
    if AtOp(p, s, t) && NextOp(p.ops, s.log, t, 0) > |s.log| {
      NotNextIsRefused(p, s, t);
    } else {
      assert ThreadOk(p, s, |s.log|, t);
      ScanResult(p, s, t);
      var c := Verdict(p, s, t).0;
      if c < |p.waits[t]| {
        assert PairOk(p.ops, t, p.waits[t][c]);
      }
    }
  }

  // ---------------------------------------------------------------- every replay

  /** The cursor that a scan leaves has passed only waits that are over, and when the thread may
      execute its operation, all of that operation's. */
  lemma ScanKeepsCursor(p: Plan, s: Replay, t: nat)
    requires Planned(p) && Follows(p, s) && t < |p.waits|
    ensures CursorOk(p.ops, |s.log|, p.waits[t], Verdict(p, s, t).0)
    ensures Verdict(p, s, t).1 && AtOp(p, s, t) ==> CursorOk(p.ops, |s.log| + 1, p.waits[t], Verdict(p, s, t).0)
  {
    var ws, n, r := p.waits[t], |s.log|, Verdict(p, s, t);
    assert CursorOk(p.ops, n, ws, s.cursor[t]) by {
      assert ThreadOk(p, s, n, t);
    }
    ScanResult(p, s, t);
    VerdictMeaning(p, s, t);
    if r.1 && AtOp(p, s, t) {
      forall k | r.0 <= k < |ws| ensures Place(p.ops, ws[k].stop) >= n + 1 {
        StopsInOrder(p.ops, t, ws, r.0, k);
      }
    }
  }

  /** Executing the first n operations, seen from the log. */
  lemma LogIsPrefix(p: Plan, s: Replay, t: nat, log: seq<nat>)
    requires Shaped(p, s) && (forall k | 0 <= k < |log| :: log[k] == k) && |log| <= |p.ops|
    ensures var i := NextOp(p.ops, log, t, 0); |log| <= i && forall k | |log| <= k < i :: p.ops[k].tid != t
  {
    forall k | 0 <= k < |log| ensures k in log {
      assert log[k] == k;
    }
    var i := NextOp(p.ops, log, t, 0);
    forall k | |log| <= k < i ensures p.ops[k].tid != t {
      assert k !in log;
    }
  }

  /** The thread that runs is between its last executed and its next operation again. */
  lemma PositionAfter(ops: seq<Point>, log: seq<nat>, n: nat, t: nat, from: Point, to: Point, finish: bool)
    requires ProgramOrder(ops) && n <= |ops| && MayGo(ops, log, t, from, to, finish)
    requires var i := NextOp(ops, log, t, 0); n <= i && forall k | n <= k < i :: ops[k].tid != t
    requires forall j | 0 <= j < n && ops[j].tid == t :: ops[j] == from || Later(ops[j].pairs, from.pairs)
    ensures PositionOk(ops, n, t, to, finish)
  {
    var i := NextOp(ops, log, t, 0);
    forall j | 0 <= j < n && ops[j].tid == t ensures Later(ops[j].pairs, to.pairs) {
      if ops[j] != from {
        LaterTransitive(ops[j].pairs, from.pairs, to.pairs);
      }
    }
    forall j | n <= j < |ops| && ops[j].tid == t ensures to == ops[j] || Later(to.pairs, ops[j].pairs) {
      if i < j {
        assert Later(ops[i].pairs, ops[j].pairs);
        if to != ops[i] {
          LaterTransitive(to.pairs, ops[i].pairs, ops[j].pairs);
        }
      }
    }
  }

  lemma RunnerOk(p: Plan, s: Replay, t: nat, to: Point, finish: bool, s': Replay)
    requires Planned(p) && Follows(p, s) && Step(p, s, Run(t, to, finish), s')
    ensures Shaped(p, s') && |s'.log| <= |p.ops| && (s'.log == s.log || s'.log == s.log + [|s.log|])
    ensures s'.log != s.log ==> p.ops[|s.log|].tid == t
    ensures ThreadOk(p, s', |s'.log|, t)
  {
    VerdictMeaning(p, s, t);
    LogIsPrefix(p, s, t, s'.log);
    assert PositionOk(p.ops, |s.log|, t, s.cur[t], s.complete[t]) by {
      assert ThreadOk(p, s, |s.log|, t);
    }
    PositionAfter(p.ops, s'.log, |s'.log|, t, s.cur[t], to, finish);
    ScanKeepsCursor(p, s, t);
  }

  /** The other threads do not notice. */
  lemma OtherThreadOk(p: Plan, s: Replay, s': Replay, u: nat)
    requires Planned(p) && Follows(p, s) && u < |p.waits| && Shaped(p, s') && |s'.log| <= |p.ops|
    requires s'.cur[u] == s.cur[u] && s'.complete[u] == s.complete[u] && s'.cursor[u] == s.cursor[u]
    requires s'.log == s.log || (s'.log == s.log + [|s.log|] && p.ops[|s.log|].tid != u)
    ensures ThreadOk(p, s', |s'.log|, u)
  {
    assert ThreadOk(p, s, |s.log|, u);
    forall k | s.cursor[u] <= k < |p.waits[u]| ensures Place(p.ops, p.waits[u][k].stop) >= |s'.log| {
      assert PairOk(p.ops, u, p.waits[u][k]);
    }
  }

  /** Every step keeps the executed operations a beginning of the schedule, and executes at most the
      next one. */
  lemma StepFollows(p: Plan, s: Replay, a: Action, s': Replay)
    requires Planned(p) && Follows(p, s) && Step(p, s, a, s')
    ensures Follows(p, s') && (s'.log == s.log || s'.log == s.log + [|s.log|])
  {
    var t := a.t;
    if a.Refuse? {
      ScanKeepsCursor(p, s, t);
      assert ThreadOk(p, s, |s.log|, t);
    } else {
      RunnerOk(p, s, t, a.to, a.finish, s');
    }
    forall u | 0 <= u < |p.waits| ensures ThreadOk(p, s', |s'.log|, u) {
      if u != t {
        OtherThreadOk(p, s, s', u);
      }
    }
  }

  /** Nothing executed, every thread at or before its first operation, cursors at the start. */
  ghost predicate Start(p: Plan, s: Replay) {
    && Shaped(p, s) && s.log == []
    && (forall t | 0 <= t < |p.waits| :: s.cursor[t] == 0 && s.cur[t].tid == t)
    && (forall i | 0 <= i < |p.ops| && p.ops[i].tid < |s.cur| :: !s.complete[p.ops[i].tid] &&
          (s.cur[p.ops[i].tid] == p.ops[i] || Later(s.cur[p.ops[i].tid].pairs, p.ops[i].pairs)))
  }

  lemma StartFollows(p: Plan, s: Replay)
    requires Planned(p) && Start(p, s)
    ensures Follows(p, s)
  {
  }

  ghost predicate IsReplay(p: Plan, states: seq<Replay>, actions: seq<Action>) {
    && PlanOk(p) && |states| == |actions| + 1 && Start(p, states[0])
    && forall i {:trigger actions[i]} | 0 <= i < |actions| ::
         Shaped(p, states[i]) && Step(p, states[i], actions[i], states[i + 1])
  }

  /** The wait pairs admit one interleaving only: whatever the scheduler tries, the operations are
      executed in the order of the schedule. */
  lemma {:induction false} OnlyOneInterleaving(p: Plan, states: seq<Replay>, actions: seq<Action>, n: nat)
    requires Planned(p) && IsReplay(p, states, actions) && n < |states|
    ensures Follows(p, states[n])
    ensures forall k | 0 <= k < |states[n].log| :: states[n].log[k] == k
  {
    if n == 0 {
      StartFollows(p, states[0]);
    } else {
      OnlyOneInterleaving(p, states, actions, n - 1);
      StepFollows(p, states[n - 1], actions[n - 1], states[n]);
    }
  }

  /** And they never block it: while operations remain, the thread of the next one is not finished and
      may run, and any other thread that stands at an operation is refused. */
  lemma NextIsEnabled(p: Plan, states: seq<Replay>, actions: seq<Action>, n: nat, t: nat)
    requires Planned(p) && IsReplay(p, states, actions) && n < |states|
    requires |states[n].log| < |p.ops| && t < |p.waits|
    ensures Follows(p, states[n])
    ensures t == p.ops[|states[n].log|].tid ==> !states[n].complete[t] && Verdict(p, states[n], t).1
    ensures t != p.ops[|states[n].log|].tid && AtOp(p, states[n], t) ==> !Verdict(p, states[n], t).1
  {
    OnlyOneInterleaving(p, states, actions, n);
    var s := states[n];
    NextIsFirst(p, s, t);
    VerdictMeaning(p, s, t);
    assert ThreadOk(p, s, |s.log|, t);
  }

  /** So check_preempt never runs a thread that is refused: while a thread is not finished, some thread that is not
      finished may run. */
  lemma SomeMayRun(p: Plan, states: seq<Replay>, actions: seq<Action>, n: nat, t: nat) returns (u: nat)
    requires Planned(p) && IsReplay(p, states, actions) && n < |states|
    requires Shaped(p, states[n]) && t < |p.waits| && !states[n].complete[t]
    ensures Follows(p, states[n]) && u < |p.waits| && !states[n].complete[u] && Verdict(p, states[n], u).1
  {
    var s := states[n];
    OnlyOneInterleaving(p, states, actions, n);
    u := t;
    VerdictMeaning(p, s, t);
    if AtOp(p, s, t) && !Verdict(p, s, t).1 {
      NextIsFirst(p, s, t);
      u := p.ops[|s.log|].tid;
      NextIsEnabled(p, states, actions, n, u);
    }
  }
}
