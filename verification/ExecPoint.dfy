/** Execution points: names for the events of a thread (execpoint.cc), and the moves
    that the control-flow events make (mcexecution.cc). */
module ExecPoints {

  /** execcount_t. */
  newtype Count = x: int | 0 <= x < 0x1_0000_0000

  const EP_BRANCH: Count := 0
  const EP_COUNTER: Count := 1
  const EP_LOOP: Count := 2

  const MAXCOUNT: Count := 0xFFFF_FFFF

  /** Addition of one in an unsigned 32-bit word. */
  function Next(c: Count): Count {
    if c == MAXCOUNT then 0 else c + 1
  }

  datatype Pair = Pair(kind: Count, count: Count)

  /** The value of an execution point: its thread and its pairs, outermost first. */
  datatype Point = Point(tid: nat, pairs: seq<Pair>)

  datatype CompareResult = Before | After | Equals | Incomparable

  // ---------------------------------------------------------------- compare

  predicate Agree(a: seq<Pair>, b: seq<Pair>, d: nat) {
    d <= |a| && d <= |b| && forall k | 0 <= k < d :: a[k] == b[k]
  }

  /** The first index at which two sequences differ, or the shorter length. */
  function FirstDifference(a: seq<Pair>, b: seq<Pair>): (d: nat)
    ensures Agree(a, b, d)
    ensures d < |a| && d < |b| ==> a[d] != b[d]
  {
    if a == [] || b == [] || a[0] != b[0] then 0
    else 1 + FirstDifference(a[1..], b[1..])
  }

  /** ExecPoint::compare: After says that b occurs after a. Only the counters are compared. */
  function Compare(a: seq<Pair>, b: seq<Pair>): CompareResult {
    CompareFrom(a, b, 0)
  }

  function CompareFrom(a: seq<Pair>, b: seq<Pair>, i: nat): CompareResult
    requires i <= |a| && i <= |b|
    decreases |a| - i
  {
    if i < |a| && i < |b| then
      if a[i].count != b[i].count then
        if a[i].kind == EP_BRANCH then Incomparable
        else if a[i].count < b[i].count then After
        else Before
      else CompareFrom(a, b, i + 1)
    else if |a| < |b| then After
    else if |a| > |b| then Before
    else Equals
  }

  /** What the assertion inside compare demands: the kinds agree as far as the loop looks. */
  predicate Consistent(a: seq<Pair>, b: seq<Pair>) {
    var d := FirstDifference(a, b);
    d < |a| && d < |b| ==> a[d].kind == b[d].kind
  }

  lemma {:induction false} CompareSkip(a: seq<Pair>, b: seq<Pair>, i: nat, d: nat)
    requires i <= d && Agree(a, b, d)
    ensures CompareFrom(a, b, i) == CompareFrom(a, b, d)
    decreases d - i
  {
    if i < d {
      CompareSkip(a, b, i + 1, d);
    }
  }

  /** On consistent points the result is decided at the first difference. */
  lemma CompareAtDifference(a: seq<Pair>, b: seq<Pair>)
    requires Consistent(a, b)
    ensures var d := FirstDifference(a, b);
      Compare(a, b) ==
        if d < |a| && d < |b| then
          (if a[d].kind == EP_BRANCH then Incomparable else if a[d].count < b[d].count then After else Before)
        else if |a| < |b| then After
        else if |a| > |b| then Before
        else Equals
  {
    CompareSkip(a, b, 0, FirstDifference(a, b));
  }

  function Flip(r: CompareResult): CompareResult {
    match r
    case Before => After
    case After => Before
    case _ => r
  }

  lemma FirstDifferenceUnique(a: seq<Pair>, b: seq<Pair>, d: nat)
    requires Agree(a, b, d)
    requires d == |a| || d == |b| || a[d] != b[d]
    ensures FirstDifference(a, b) == d
  {
    var e := FirstDifference(a, b);
    assert !(e < d) && !(d < e);
  }

  /** compare is antisymmetric, and Equals means the same point. */
  lemma CompareAntisymmetric(a: seq<Pair>, b: seq<Pair>)
    requires Consistent(a, b)
    ensures Consistent(b, a) && Compare(b, a) == Flip(Compare(a, b))
    ensures Compare(a, b) == Equals <==> a == b
  {
    var d := FirstDifference(a, b);
    FirstDifferenceUnique(b, a, d);
    CompareAtDifference(a, b);
    CompareAtDifference(b, a);
  }

  /** b extends a, or has a larger counter at the first difference, of the same kind. */
  predicate Later(a: seq<Pair>, b: seq<Pair>) {
    var d := FirstDifference(a, b);
    d < |b| && (d == |a| || (a[d].kind == b[d].kind != EP_BRANCH && a[d].count < b[d].count))
  }

  lemma LaterIsAfter(a: seq<Pair>, b: seq<Pair>)
    ensures Later(a, b) <==> Consistent(a, b) && Compare(a, b) == After
    ensures Later(a, b) ==> a != b
  {
    if Consistent(a, b) {
      CompareAtDifference(a, b);
    }
  }

  /** Being later is transitive: this also shows that a chain of later points is consistent. */
  lemma LaterTransitive(a: seq<Pair>, b: seq<Pair>, c: seq<Pair>)
    requires Later(a, b) && Later(b, c)
    ensures Later(a, c)
  {
    var d, e := FirstDifference(a, b), FirstDifference(b, c);
    FirstDifferenceUnique(a, c, if d < e then d else e);
  }

  // ---------------------------------------------------------------- hash

  /** A 32-bit word, least significant bit first. */
  type Word = w: seq<bool> | |w| == 32 witness seq(32, _ => false)

  function BitsOf(n: nat, width: nat): (bits: seq<bool>)
    ensures |bits| == width
  {
    if width == 0 then [] else [n % 2 == 1] + BitsOf(n / 2, width - 1)
  }

  function ToWord(c: Count): Word {
    BitsOf(c as nat, 32)
  }

  /** Bitwise exclusive or. */
  function Xor(a: Word, b: Word): Word {
    seq(32, i requires 0 <= i < 32 => a[i] != b[i])
  }

  /** rotate_left(x, 3) and rotate_right(x, 3) of mcutil.h. */
  function RotateLeft3(x: Word): Word {
    x[29..] + x[..29]
  }

  function RotateRight3(x: Word): Word {
    x[3..] + x[..3]
  }

  lemma RotateInverse(x: Word)
    ensures RotateRight3(RotateLeft3(x)) == x
  {
  }

  lemma XorTwice(a: Word, b: Word)
    ensures Xor(Xor(a, b), b) == a
  {
  }

  /** The fold of the thread id and the counters, outermost first. */
  function HashOf(tid: Count, pairs: seq<Pair>): Word {
    if pairs == [] then ToWord(tid)
    else Xor(RotateLeft3(HashOf(tid, pairs[..|pairs| - 1])), ToWord(pairs[|pairs| - 1].count))
  }

  lemma HashSnoc(tid: Count, pairs: seq<Pair>, p: Pair)
    ensures HashOf(tid, pairs + [p]) == Xor(RotateLeft3(HashOf(tid, pairs)), ToWord(p.count))
  {
    assert (pairs + [p])[..|pairs|] == pairs;
  }

  /** Rotating back after cancelling the last counter gives the hash of the shorter point. */
  lemma HashPop(tid: Count, rest: seq<Pair>, top: Pair)
    ensures RotateRight3(Xor(HashOf(tid, rest + [top]), ToWord(top.count))) == HashOf(tid, rest)
  {
    HashSnoc(tid, rest, top);
    XorTwice(RotateLeft3(HashOf(tid, rest)), ToWord(top.count));
    RotateInverse(HashOf(tid, rest));
  }

  // ---------------------------------------------------------------- the class

  class ExecPoint {
    var length: nat
    var size: nat
    var pairarray: array<Count>
    var hashvalue: Word
    const tid: Count
    ghost var pairs: seq<Pair>  // what the flat array holds
    ghost var room: nat  // how many pairs it could hold

    /** The array holds the pairs, and the incrementally kept hash is the fold over them. */
    ghost predicate Valid()
      reads this, pairarray
    {
      && size == 2 * |pairs| && |pairs| <= room && length == 2 * room == pairarray.Length
      && (forall k | 0 <= k < |pairs| :: pairs[k] == Pair(pairarray[2 * k], pairarray[2 * k + 1]))
      && hashvalue == HashOf(tid, pairs)
    }

    constructor (initial: nat, id: Count)
      ensures Valid() && fresh(pairarray) && pairs == [] && tid == id && length == 2 * initial
    {
      length := 2 * initial;
      size := 0;
      pairarray := new Count[2 * initial];
      hashvalue := ToWord(id);
      tid := id;
      pairs, room := [], initial;
    }

    /** The copy has room for nothing more: pushing onto it is only possible if it is not empty. */
    constructor Copy(e: ExecPoint)
      requires e.Valid()
      ensures Valid() && fresh(pairarray) && pairs == e.pairs && tid == e.tid && length == e.size
    {
      length := e.size;
      size := e.size;
      pairarray := new Count[e.size](
        i requires 0 <= i < e.size <= e.pairarray.Length reads e, e.pairarray => e.pairarray[i]);
      hashvalue := e.hashvalue;
      tid := e.tid;
      pairs, room := e.pairs, |e.pairs|;
    }

    /** The growth step of push: the array is doubled and copied. */
    method Grow()
      requires Valid() && length > 0
      modifies this
      ensures Valid() && length == 2 * old(length) && size == old(size) && pairs == old(pairs)
      ensures fresh(pairarray)
    {
      var tmp := new Count[2 * length];
      var i := 0;
      while i < size
        invariant 0 <= i <= size
        invariant forall k | 0 <= k < i :: tmp[k] == pairarray[k]
        modifies tmp
      {
        tmp[i] := pairarray[i];
        i := i + 1;
      }
      length, room := 2 * length, 2 * room;
      pairarray := tmp;
    }

    /** push doubles a full array first. An array of length 0 does not grow by doubling: the answer is false where
        the source then writes past its end. */
    method Push(kind: Count, value: Count) returns (ok: bool)
      requires Valid()
      modifies this, pairarray
      ensures Valid() && (ok <==> old(length) > 0)
      ensures pairs == if ok then old(pairs) + [Pair(kind, value)] else old(pairs)
      ensures ok ==> length > 0 && (pairarray == old(pairarray) || fresh(pairarray))
      ensures !ok ==> pairarray == old(pairarray) && length == 0
    {
      if size == length {
        if length == 0 {
          return false;
        }
        Grow();
      }
      Append(kind, value);
      return true;
    }

    /** push, once there is room. */
    method Append(kind: Count, value: Count)
      requires Valid() && size < length
      modifies this`size, this`hashvalue, this`pairs, pairarray
      ensures Valid() && pairs == old(pairs) + [Pair(kind, value)]
    {
      HashSnoc(tid, pairs, Pair(kind, value));
      hashvalue := Xor(RotateLeft3(hashvalue), ToWord(value));
      pairarray[size] := kind;
      size := size + 1;
      pairarray[size] := value;
      size := size + 1;
      pairs := pairs + [Pair(kind, value)];
    }

    /** pop undoes push, for the pairs and for the hash. */
    method Pop()
      requires Valid() && size > 0
      modifies this
      ensures Valid() && pairarray == old(pairarray) && length == old(length)
      ensures pairs == old(pairs)[..|old(pairs)| - 1]
    {
      ghost var rest, top := pairs[..|pairs| - 1], pairs[|pairs| - 1];
      assert pairs == rest + [top];
      HashPop(tid, rest, top);
      hashvalue := RotateRight3(Xor(hashvalue, ToWord(pairarray[size - 1])));
      size := size - 2;
      pairs := rest;
    }

    method IncrementTop()
      requires Valid() && size > 0
      modifies this, pairarray
      ensures Valid() && pairarray == old(pairarray) && length == old(length)
      ensures pairs == Incremented(old(pairs))
    {
      ghost var rest, top := pairs[..|pairs| - 1], pairs[|pairs| - 1];
      var current := pairarray[size - 1];
      ghost var next := Pair(top.kind, Next(current));
      assert pairs == rest + [top] && Incremented(pairs) == rest + [next];
      HashSnoc(tid, rest, top);
      HashSnoc(tid, rest, next);
      XorTwice(RotateLeft3(HashOf(tid, rest)), ToWord(current));
      hashvalue := Xor(Xor(hashvalue, ToWord(current)), ToWord(Next(current)));
      pairarray[size - 1] := Next(current);
      pairs := Incremented(pairs);
    }

    /** getType. */
    method TopKind() returns (kind: Count)
      requires Valid() && size > 0
      ensures kind == pairs[|pairs| - 1].kind
    {
      kind := pairarray[size - 2];
    }

    /** compare, by a loop over the flat array. */
    method CompareTo(ep: ExecPoint) returns (r: CompareResult)
      requires Valid() && ep.Valid()
      ensures r == Compare(pairs, ep.pairs)
    {
      if this == ep {
        CompareSkip(pairs, pairs, 0, |pairs|);
        return Equals;
      }
      var minsize := if size < ep.size then size else ep.size;
      var i := 0;
      ghost var k := 0;
      while i < minsize
        invariant 0 <= i <= minsize && i == 2 * k
        invariant Compare(pairs, ep.pairs) == CompareFrom(pairs, ep.pairs, k)
      {
        assert pairs[k] == Pair(pairarray[i], pairarray[i + 1]);
        assert ep.pairs[k] == Pair(ep.pairarray[i], ep.pairarray[i + 1]);
        if pairarray[i + 1] != ep.pairarray[i + 1] {
          return if pairarray[i] == EP_BRANCH then Incomparable
                 else if pairarray[i + 1] < ep.pairarray[i + 1] then After
                 else Before;
        }
        i := i + 2;
        k := k + 1;
      }
      return if size < ep.size then After else if size > ep.size then Before else Equals;
    }

    /** The comparison of two points: the hash is compared first and never decides wrongly. */
    method EqualsPoint(ep: ExecPoint) returns (eq: bool)
      requires Valid() && ep.Valid()
      ensures eq <==> tid == ep.tid && pairs == ep.pairs
    {
      if tid != ep.tid || size != ep.size || hashvalue != ep.hashvalue {
        return false;
      }
      var i := 0;
      while i < size
        invariant 0 <= i <= size
        invariant forall k | 0 <= k < i :: pairarray[k] == ep.pairarray[k]
      {
        if pairarray[i] != ep.pairarray[i] {
          ghost var k := i / 2;
          assert pairs[k] == Pair(pairarray[2 * k], pairarray[2 * k + 1]);
          assert ep.pairs[k] == Pair(ep.pairarray[2 * k], ep.pairarray[2 * k + 1]);
          return false;
        }
        i := i + 1;
      }
      return true;
    }
  }

  /** ExecPointEquals. A missing first point equals a missing second one only; the source reads the second point
      whenever there is a first one. */
  method ExecPointEquals(e1: ExecPoint?, e2: ExecPoint?) returns (eq: bool)
    requires (e1 != null ==> e2 != null && e1.Valid()) && (e2 != null ==> e2.Valid())
    ensures eq <==> (e1 == null && e2 == null) || (e1 != null && e1.tid == e2.tid && e1.pairs == e2.pairs)
  {
    if e1 == null {
      return e2 == null;
    }
    eq := e1.EqualsPoint(e2);
  }

  function Incremented(p: seq<Pair>): (q: seq<Pair>)
    requires p != []
    ensures |q| == |p|
  {
    p[|p| - 1 := Pair(p[|p| - 1].kind, Next(p[|p| - 1].count))]
  }

  // ---------------------------------------------------------------- moves of a thread

  /** The control-flow events, as far as they move the current execution point. */
  datatype Move =
    | Step                     // an event that only increments the top counter
    | BranchDir(direction: Count)
    | MergeTo(size: nat)       // back past the branch made at a point of that many pairs
    | EnterLoop
    | LoopIterate
    | LeaveLoop                // back past the innermost loop

  /** Counters and branches or loops alternate, outermost a counter. */
  predicate Nested(p: seq<Pair>) {
    |p| % 2 == 1 && forall i | 0 <= i < |p| :: p[i].kind == EP_COUNTER <==> i % 2 == 0
  }

  /** The pairs below the innermost loop: what exitLoop pops to. */
  function BelowLoop(p: seq<Pair>): (q: seq<Pair>)
    ensures |q| <= |p| && q == p[..|q|]
    ensures (|q| < |p| && p[|q|].kind == EP_LOOP) || q == []
    ensures forall i | |q| < i < |p| :: p[i].kind != EP_LOOP
  {
    if p == [] then []
    else if p[|p| - 1].kind == EP_LOOP then p[..|p| - 1]
    else BelowLoop(p[..|p| - 1])
  }

  predicate InLoop(p: seq<Pair>) {
    exists i | 0 <= i < |p| :: p[i].kind == EP_LOOP
  }

  /** The moves a properly nested program can make at a point. */
  predicate Legal(p: seq<Pair>, m: Move) {
    match m
    case MergeTo(size) => 0 < size < |p| && p[size].kind == EP_BRANCH
    case LoopIterate => |p| >= 2 && p[|p| - 2].kind == EP_LOOP
    case LeaveLoop => InLoop(p)
    case _ => true
  }

  /** Where the move leaves the point. Every record is made at one of these points. */
  function Moved(p: seq<Pair>, m: Move): seq<Pair>
    requires Nested(p) && Legal(p, m)
  {
    match m
    case Step => Incremented(p)
    case BranchDir(direction) => p + [Pair(EP_BRANCH, direction), Pair(EP_COUNTER, 0)]
    case MergeTo(size) => Incremented(p[..size])
    case EnterLoop => p + [Pair(EP_LOOP, 0), Pair(EP_COUNTER, 0)]
    case LoopIterate => Incremented(p[..|p| - 1]) + [Pair(EP_COUNTER, 0)]
    case LeaveLoop => BelowLoopNonempty(p); Incremented(BelowLoop(p))
  }

  /** Incrementing the counter on top changes nothing below it. */
  lemma StepKeepsLoops(p: seq<Pair>)
    requires Nested(p) && InLoop(p)
    ensures Nested(Incremented(p)) && InLoop(Incremented(p))
  {
    var i :| 0 <= i < |p| && p[i].kind == EP_LOOP;
    assert Incremented(p)[i].kind == EP_LOOP;
  }

  lemma BelowLoopNonempty(p: seq<Pair>)
    requires Nested(p) && InLoop(p)
    ensures BelowLoop(p) != []
  {
    var i :| 0 <= i < |p| && p[i].kind == EP_LOOP;
    if BelowLoop(p) == [] {
      assert false;
    }
  }

  /** No counter that the move increments is at the end of its word. */
  predicate NoOverflow(p: seq<Pair>, m: Move)
    requires Nested(p) && Legal(p, m)
  {
    match m
    case Step => p[|p| - 1].count < MAXCOUNT
    case MergeTo(size) => p[size - 1].count < MAXCOUNT
    case LoopIterate => p[|p| - 2].count < MAXCOUNT
    case LeaveLoop => BelowLoopNonempty(p); p[|BelowLoop(p)| - 1].count < MAXCOUNT
    case _ => true
  }

  lemma MoveIsNested(p: seq<Pair>, m: Move)
    requires Nested(p) && Legal(p, m)
    ensures Nested(Moved(p, m))
  {
    if m.LeaveLoop? {
      BelowLoopNonempty(p);
      assert p[|BelowLoop(p)|].kind != EP_COUNTER;
    } else if m.MergeTo? {
      assert p[m.size].kind != EP_COUNTER;
    }
  }

  /** Popping back to an enclosing counter and incrementing it. */
  lemma ReturnIsLater(p: seq<Pair>, n: nat)
    requires Nested(p) && 0 < n < |p| && p[n].kind != EP_COUNTER && p[n - 1].count < MAXCOUNT
    ensures var q := Incremented(p[..n]); Nested(q) && Later(p, q)
  {
    var q := Incremented(p[..n]);
    assert n % 2 == 1 && p[n - 1].kind == EP_COUNTER;
    assert forall i | 0 <= i < n - 1 :: q[i] == p[i];
    FirstDifferenceUnique(p, q, n - 1);
  }

  /** Each move leads to a strictly later point, and keeps the nesting. */
  lemma MoveIsLater(p: seq<Pair>, m: Move)
    requires Nested(p) && Legal(p, m) && NoOverflow(p, m)
    ensures Nested(Moved(p, m)) && Later(p, Moved(p, m))
  {
    var q := Moved(p, m);
    match m {
      case Step => FirstDifferenceUnique(p, q, |p| - 1);
      case BranchDir(_) => FirstDifferenceUnique(p, q, |p|);
      case EnterLoop => FirstDifferenceUnique(p, q, |p|);
      case MergeTo(size) => ReturnIsLater(p, size);
      case LoopIterate => FirstDifferenceUnique(p, q, |p| - 2);
      case LeaveLoop =>
        BelowLoopNonempty(p);
        ReturnIsLater(p, |BelowLoop(p)|);
    }
  }

  /** Where a counter at the end of its word is incremented, everything before it is as it was, so the new point is
      named before the old one. */
  lemma WrapIsBefore(p: seq<Pair>, q: seq<Pair>, n: nat)
    requires Agree(p, q, n) && n < |p| && n < |q|
    requires p[n].count == MAXCOUNT && p[n].kind != EP_BRANCH && q[n] == Pair(p[n].kind, 0)
    ensures Compare(p, q) == Before
  {
    FirstDifferenceUnique(p, q, n);
    CompareAtDifference(p, q);
  }

  /** A counter that the move takes past the end of its word wraps to zero, and the new point is named before the
      old one, whatever the move. */
  lemma OverflowGoesBack(p: seq<Pair>, m: Move)
    requires Nested(p) && Legal(p, m) && !NoOverflow(p, m)
    ensures Compare(p, Moved(p, m)) == Before
  {
    var q := Moved(p, m);
    match m {
      case Step => WrapIsBefore(p, q, |p| - 1);
      case MergeTo(size) => WrapIsBefore(p, q, size - 1);
      case LoopIterate => WrapIsBefore(p, q, |p| - 2);
      case LeaveLoop =>
        BelowLoopNonempty(p);
        var n := |BelowLoop(p)|;
        assert p[n].kind != EP_COUNTER && n % 2 == 1;
        WrapIsBefore(p, q, n - 1);
    }
  }

  /** A move leads to a later point exactly when no counter that it increments is at the end of its word. */
  lemma MoveIsLaterExactly(p: seq<Pair>, m: Move)
    requires Nested(p) && Legal(p, m)
    ensures Later(p, Moved(p, m)) <==> NoOverflow(p, m)
  {
    if NoOverflow(p, m) {
      MoveIsLater(p, m);
    } else {
      OverflowGoesBack(p, m);
      LaterIsAfter(p, Moved(p, m));
    }
  }

  /** A run of moves from any point of a thread. */
  ghost predicate IsRun(points: seq<seq<Pair>>, moves: seq<Move>) {
    && |points| == |moves| + 1
    && Nested(points[0])
    && forall k | 0 <= k < |moves| ::
         Nested(points[k]) && Legal(points[k], moves[k]) && points[k + 1] == Moved(points[k], moves[k])
  }

  /** No counter of the run passes the end of its word. */
  ghost predicate NeverOverflows(points: seq<seq<Pair>>, moves: seq<Move>)
    requires IsRun(points, moves)
  {
    forall k | 0 <= k < |moves| :: NoOverflow(points[k], moves[k])
  }

  /** In a run without overflow each point is strictly after all earlier ones, so no name repeats. */
  lemma {:induction false} RunNeverRepeats(points: seq<seq<Pair>>, moves: seq<Move>, i: nat, j: nat)
    requires IsRun(points, moves) && NeverOverflows(points, moves) && i < j < |points|
    ensures Consistent(points[i], points[j]) && Compare(points[i], points[j]) == After
    ensures Later(points[i], points[j]) && points[i] != points[j]
    decreases j
  {
    MoveIsLater(points[j - 1], moves[j - 1]);
    if i < j - 1 {
      RunNeverRepeats(points, moves, i, j - 1);
      LaterTransitive(points[i], points[j - 1], points[j]);
    }
    LaterIsAfter(points[i], points[j]);
  }

  /** Over every run: each point is strictly after all earlier ones exactly when no move overflows. */
  lemma RunIsLaterExactly(points: seq<seq<Pair>>, moves: seq<Move>)
    requires IsRun(points, moves)
    ensures (forall i, j | 0 <= i < j < |points| :: Later(points[i], points[j])) <==> NeverOverflows(points, moves)
  {
    if NeverOverflows(points, moves) {
      forall i, j | 0 <= i < j < |points| ensures Later(points[i], points[j]) {
        RunNeverRepeats(points, moves, i, j);
      }
    } else {
      var k :| 0 <= k < |moves| && !NoOverflow(points[k], moves[k]);
      MoveIsLaterExactly(points[k], moves[k]);
      assert !Later(points[k], points[k + 1]);
    }
  }

  // ---------------------------------------------------------------- what the pairs mean

  /** The point q is inside the branch direction or the loop iteration x that was opened at the point p. */
  predicate Inside(p: seq<Pair>, x: Pair, q: seq<Pair>) {
    |q| >= |p| + 2 && q[..|p|] == p && q[|p|] == x
  }

  /** The move does not close what was opened at a point of n pairs, nor start its next iteration. */
  predicate StaysInside(n: nat, q: seq<Pair>, m: Move) {
    match m
    case MergeTo(size) => size > n
    case LoopIterate => |q| - 2 > n
    case LeaveLoop => |BelowLoop(q)| > n
    case _ => true
  }

  lemma MoveStaysInside(p: seq<Pair>, x: Pair, q: seq<Pair>, m: Move)
    requires Nested(p) && Nested(q) && Legal(q, m) && Inside(p, x, q) && StaysInside(|p|, q, m)
    ensures Inside(p, x, Moved(q, m))
  {
    var n, r := |p|, Moved(q, m);
    MoveIsNested(q, m);
    if m.MergeTo? {
      assert q[m.size].kind != EP_COUNTER;
    } else if m.LeaveLoop? {
      BelowLoopNonempty(q);
      assert q[|BelowLoop(q)|].kind != EP_COUNTER;
    }
    assert r[..n] == p;
  }

  /** A run from the first point inside x, which stays inside. */
  ghost predicate RunInside(p: seq<Pair>, start: Move, x: Pair, points: seq<seq<Pair>>, moves: seq<Move>) {
    && Nested(p) && (start.BranchDir? || start.EnterLoop?) && IsRun(points, moves) && points[0] == Moved(p, start)
    && x == (if start.BranchDir? then Pair(EP_BRANCH, start.direction) else Pair(EP_LOOP, 0))
    && forall k {:trigger moves[k]} | 0 <= k < |moves| :: StaysInside(|p|, points[k], moves[k])
  }

  lemma {:induction false} RunIsInside(p: seq<Pair>, start: Move, x: Pair, points: seq<seq<Pair>>, moves: seq<Move>,
                                       k: nat)
    requires RunInside(p, start, x, points, moves) && k < |points|
    ensures Nested(points[k]) && Inside(p, x, points[k])
  {
    if k > 0 {
      RunIsInside(p, start, x, points, moves, k - 1);
      assert StaysInside(|p|, points[k - 1], moves[k - 1]);
      MoveIsNested(points[k - 1], moves[k - 1]);
      MoveStaysInside(p, x, points[k - 1], moves[k - 1]);
    }
  }

  /** Points in different directions of a branch are incomparable. */
  lemma DirectionsApart(p: seq<Pair>, d: Count, e: Count, q: seq<Pair>, r: seq<Pair>)
    requires d != e && Inside(p, Pair(EP_BRANCH, d), q) && Inside(p, Pair(EP_BRANCH, e), r)
    ensures Compare(q, r) == Incomparable && q != r
  {
    assert forall i | 0 <= i < |p| :: q[i] == q[..|p|][i] == r[..|p|][i] == r[i];
    CompareSkip(q, r, 0, |p|);
  }

  /** Whatever is run in two directions of a branch, the points of the one are incomparable to those of the other. */
  lemma DirectionsNeverMeet(p: seq<Pair>, d: Count, e: Count, points: seq<seq<Pair>>, moves: seq<Move>,
                            points': seq<seq<Pair>>, moves': seq<Move>, i: nat, j: nat)
    requires d != e && i < |points| && j < |points'|
    requires RunInside(p, Move.BranchDir(d), Pair(EP_BRANCH, d), points, moves)
    requires RunInside(p, Move.BranchDir(e), Pair(EP_BRANCH, e), points', moves')
    ensures Compare(points[i], points'[j]) == Incomparable && points[i] != points'[j]
  {
    RunIsInside(p, Move.BranchDir(d), Pair(EP_BRANCH, d), points, moves, i);
    RunIsInside(p, Move.BranchDir(e), Pair(EP_BRANCH, e), points', moves', j);
    DirectionsApart(p, d, e, points[i], points'[j]);
  }

  /** Whatever is run in a direction, the merge leads to the point at which the branch was made, one further. */
  lemma MergeReturns(p: seq<Pair>, d: Count, q: seq<Pair>)
    requires Nested(p) && Nested(q) && Inside(p, Pair(EP_BRANCH, d), q)
    ensures Legal(q, MergeTo(|p|)) && Moved(q, MergeTo(|p|)) == Incremented(p)
  {
  }

  /** Whatever is run in an iteration, leaving its loop leads to the point at which it was entered, one further. */
  lemma LeaveReturns(p: seq<Pair>, k: Count, q: seq<Pair>)
    requires Nested(p) && Nested(q) && Inside(p, Pair(EP_LOOP, k), q)
    requires forall i | |p| < i < |q| :: q[i].kind != EP_LOOP
    ensures Legal(q, LeaveLoop) && Moved(q, LeaveLoop) == Incremented(p)
  {
    assert q[|p|].kind == EP_LOOP;
    BelowLoopNonempty(q);
    assert |BelowLoop(q)| == |p|;
  }

  /** The next iteration has the next number, and starts at the statement that the first one started at. */
  lemma IterationFollows(p: seq<Pair>, k: Count, q: seq<Pair>)
    requires Nested(p) && Nested(q) && Inside(p, Pair(EP_LOOP, k), q) && |q| == |p| + 2
    ensures Legal(q, Move.LoopIterate)
    ensures Inside(p, Pair(EP_LOOP, Next(k)), Moved(q, Move.LoopIterate))
    ensures Moved(q, Move.LoopIterate)[|p| + 1] == Moved(p, Move.EnterLoop)[|p| + 1] == Pair(EP_COUNTER, 0)
    ensures |Moved(q, Move.LoopIterate)| == |p| + 2
  {
    assert q[..|q| - 1][..|p|] == q[..|p|];
  }

  /** Every direction and every loop starts counting its statements at zero. */
  lemma StartsAtZero(p: seq<Pair>, start: Move)
    requires Nested(p) && (start.BranchDir? || start.EnterLoop?)
    ensures var q := Moved(p, start);
      && |q| == |p| + 2 && q[|p| + 1] == Pair(EP_COUNTER, 0)
      && Inside(p, if start.BranchDir? then Pair(EP_BRANCH, start.direction) else Pair(EP_LOOP, 0), q)
  {
  }

  /** The point after n increments of the top counter. */
  function Steps(p: seq<Pair>, n: nat): (q: seq<Pair>)
    requires p != []
    ensures |q| == |p|
  {
    if n == 0 then p else Incremented(Steps(p, n - 1))
  }

  lemma {:induction false} StepsCount(p: seq<Pair>, n: nat)
    requires p != []
    ensures Steps(p, n) == p[|p| - 1 := Pair(p[|p| - 1].kind, ((p[|p| - 1].count as nat + n) % 0x1_0000_0000) as Count)]
  {
    if n > 0 {
      StepsCount(p, n - 1);
    }
  }

  /** Names do repeat once a counter has gone all the way round. */
  lemma FullCircleRepeats(p: seq<Pair>)
    requires p != []
    ensures Steps(p, 0x1_0000_0000) == p
  {
    StepsCount(p, 0x1_0000_0000);
  }

  // ---------------------------------------------------------------- the events of mcexecution.cc

  /** exitLoop is a step for the exit record, the way back, and a step for the label. */
  ghost function ExitPoint(p: seq<Pair>): seq<Pair>
    requires Nested(p) && Legal(p, LeaveLoop)
  {
    StepKeepsLoops(p);
    BelowLoopNonempty(Incremented(p));
    Incremented(Moved(Incremented(p), LeaveLoop))
  }

  /** The part of MCExecution that moves the current execution point. */
  class MCExecution {
    const currexecpoint: ExecPoint

    constructor (initial: nat, tid: Count)
      requires initial > 0
      ensures fresh(currexecpoint) && fresh(currexecpoint.pairarray) && Valid()
      ensures currexecpoint.pairs == [Pair(EP_COUNTER, 0)]
    {
      var ep := new ExecPoint(initial, tid);
      var _ := ep.Push(EP_COUNTER, 0);
      currexecpoint := ep;
    }

    ghost predicate Valid()
      reads this, currexecpoint, currexecpoint.pairarray
    {
      && currexecpoint.Valid() && currexecpoint.length > 0
      && Nested(currexecpoint.pairs)
    }

    method BranchDir(direction: Count)
      requires Valid()
      modifies currexecpoint, currexecpoint.pairarray
      ensures Valid() && currexecpoint.pairs == Moved(old(currexecpoint.pairs), Move.BranchDir(direction))
    {
      var _ := currexecpoint.Push(EP_BRANCH, direction);
      var _ := currexecpoint.Push(EP_COUNTER, 0);
    }

    /** merge with the branch whose point had origLength pairs: one record is made in between. */
    method Merge(origLength: nat)
      requires Valid() && Legal(currexecpoint.pairs, MergeTo(origLength))
      modifies currexecpoint, currexecpoint.pairarray
      ensures Valid() && currexecpoint.pairs == Incremented(Moved(old(currexecpoint.pairs), MergeTo(origLength)))
    {
      ghost var p := currexecpoint.pairs;
      var curr := currexecpoint.size / 2;
      var i := 0;
      while i < curr - origLength
        invariant 0 <= i <= curr - origLength
        invariant currexecpoint.Valid() && currexecpoint.pairs == p[..curr - i]
        invariant currexecpoint.pairarray == old(currexecpoint.pairarray)
        invariant currexecpoint.length == old(currexecpoint.length)
      {
        currexecpoint.Pop();
        i := i + 1;
      }
      assert origLength % 2 == 1;
      currexecpoint.IncrementTop();
      currexecpoint.IncrementTop();
    }

    method EnterLoop()
      requires Valid()
      modifies currexecpoint, currexecpoint.pairarray
      ensures Valid() && currexecpoint.pairs == Incremented(Moved(old(currexecpoint.pairs), Move.EnterLoop))
    {
      var _ := currexecpoint.Push(EP_LOOP, 0);
      var _ := currexecpoint.Push(EP_COUNTER, 0);
      currexecpoint.IncrementTop();
    }

    method LoopIterate()
      requires Valid() && Legal(currexecpoint.pairs, Move.LoopIterate)
      modifies currexecpoint, currexecpoint.pairarray
      ensures Valid() && currexecpoint.pairs == Moved(old(currexecpoint.pairs), Move.LoopIterate)
    {
      MoveIsNested(currexecpoint.pairs, Move.LoopIterate);
      currexecpoint.Pop();
      currexecpoint.IncrementTop();
      var _ := currexecpoint.Push(EP_COUNTER, 0);
    }

    /** The loop of exitLoop that pops everything down to and including the innermost loop. */
    method PopLoop()
      requires currexecpoint.Valid() && InLoop(currexecpoint.pairs)
      modifies currexecpoint
      ensures currexecpoint.Valid() && currexecpoint.pairs == BelowLoop(old(currexecpoint.pairs))
      ensures currexecpoint.pairarray == old(currexecpoint.pairarray)
      ensures currexecpoint.length == old(currexecpoint.length)
    {
      ghost var p := currexecpoint.pairs;
      var kind := EP_BRANCH;
      while kind != EP_LOOP
        invariant currexecpoint.Valid()
        invariant currexecpoint.pairarray == old(currexecpoint.pairarray)
        invariant currexecpoint.length == old(currexecpoint.length)
        invariant var v := currexecpoint.pairs;
          |BelowLoop(p)| <= |v| <= |p| && v == p[..|v|]
          && (if kind == EP_LOOP then |v| == |BelowLoop(p)| else |v| > |BelowLoop(p)|)
        decreases currexecpoint.size
      {
        kind := currexecpoint.TopKind();
        currexecpoint.Pop();
      }
    }

    /** exitLoop: records are made at the exit, at the label behind the loop, and counted. */
    method ExitLoop()
      requires Valid() && Legal(currexecpoint.pairs, LeaveLoop)
      modifies currexecpoint, currexecpoint.pairarray
      ensures Valid() && currexecpoint.pairs == ExitPoint(old(currexecpoint.pairs))
    {
      StepKeepsLoops(currexecpoint.pairs);
      currexecpoint.IncrementTop();
      ghost var p := currexecpoint.pairs;
      BelowLoopNonempty(p);
      PopLoop();
      currexecpoint.IncrementTop();
      currexecpoint.IncrementTop();
    }
  }
}
