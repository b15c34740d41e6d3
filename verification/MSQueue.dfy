/** The Michael-Scott queue benchmark (ms-queue-simple_unannotated.c) as atomic steps of any number
    of threads. Nodes are never reused. */
module MSQueues {

  /** Address 0 is NULL. */
  const NULL: nat := 0

  /** The shared memory. chain is auxiliary: every node that was ever linked, in that order. */
  datatype Shared = Shared(value: map<nat, nat>, next: map<nat, nat>, head: nat, tail: nat, chain: seq<nat>)

  datatype Outcome = NoCall | Enqueued(val: nat) | Dequeued(ret: nat) | FoundEmpty

  /** Where a thread is, with its local variables. sawEmpty is auxiliary: the queue was empty when
      this call last loaded head->next. */
  datatype Local =
    | Idle(last: Outcome)
    | EAlloc(val: nat)
    | EStoreValue(val: nat, node: nat)
    | EStoreNext(val: nat, node: nat)
    | ELoadTail(val: nat, node: nat)
    | ELoadNext(val: nat, node: nat, tail: nat)
    | EReloadTail(val: nat, node: nat, tail: nat, next: nat)
    | ELink(val: nat, node: nat, tail: nat, next: nat)
    | ELoadNew(val: nat, node: nat, tail: nat)
    | EAdvance(val: nat, node: nat, tail: nat, newTail: nat)
    | EFinish(val: nat, node: nat, tail: nat)
    | DLoadHead
    | DLoadTail(head: nat)
    | DLoadNext(head: nat, tail: nat)
    | DReloadHead(head: nat, tail: nat, next: nat, sawEmpty: bool)
    | DReturnFalse(sawEmpty: bool)
    | DHelp(tail: nat, next: nat)
    | DLoadValue(head: nat, next: nat)
    | DSwing(head: nat, next: nat, ret: nat)
    | Fault

  datatype State = State(shared: Shared, threads: seq<Local>)

  /** What the environment decides: the next call, or the memory that malloc returns. */
  datatype Choice = CallEnqueue(val: nat) | CallDequeue | Malloc(node: nat, someValue: nat, someNext: nat) | Go

  // ---------------------------------------------------------------- the steps

  predicate Enabled(m: Shared, l: Local, c: Choice) {
    match l
    case Idle(_) => c.CallEnqueue? || c.CallDequeue?
    case EAlloc(_) => c.Malloc? && c.node != NULL && c.node !in m.next && c.node !in m.value
    case Fault => false
    case _ => c.Go?
  }

  /** One atomic step of a thread: its effect on memory. */
  function Effect(m: Shared, l: Local, c: Choice): Shared
    requires Enabled(m, l, c)
  {
    match l
    case EAlloc(val) => m.(value := m.value[c.node := c.someValue], next := m.next[c.node := c.someNext])
    case EStoreValue(val, node) => m.(value := m.value[node := val])
    case EStoreNext(val, node) => m.(next := m.next[node := NULL])
    case ELink(val, node, tail, next) =>
      if tail in m.next && m.next[tail] == next then m.(next := m.next[tail := node], chain := m.chain + [node]) else m
    case EAdvance(val, node, tail, newTail) => if m.tail == tail then m.(tail := newTail) else m
    case EFinish(val, node, tail) => if m.tail == tail then m.(tail := node) else m
    case DHelp(tail, next) => if m.tail == tail then m.(tail := next) else m
    case DSwing(head, next, ret) => if m.head == head then m.(head := next) else m
    case _ => m
  }

  /** The same step: where the thread goes. A load or CAS through NULL or a stray pointer faults. */
  ghost function Goto(m: Shared, l: Local, c: Choice): Local
    requires Enabled(m, l, c)
  {
    match l
    case Idle(_) => if c.CallEnqueue? then EAlloc(c.val) else DLoadHead
    case EAlloc(val) => EStoreValue(val, c.node)
    case EStoreValue(val, node) => EStoreNext(val, node)
    case EStoreNext(val, node) => ELoadTail(val, node)
    case ELoadTail(val, node) => ELoadNext(val, node, m.tail)
    case ELoadNext(val, node, tail) =>
      if tail in m.next then EReloadTail(val, node, tail, m.next[tail]) else Fault
    case EReloadTail(val, node, tail, next) =>
      if tail != m.tail then ELoadTail(val, node)
      else if next != NULL then ELoadNew(val, node, tail)
      else ELink(val, node, tail, next)
    case ELink(val, node, tail, next) =>
      if tail !in m.next then Fault
      else if m.next[tail] == next then EFinish(val, node, tail)
      else ELoadNew(val, node, tail)
    case ELoadNew(val, node, tail) =>
      if tail in m.next then EAdvance(val, node, tail, m.next[tail]) else Fault
    case EAdvance(val, node, tail, newTail) => ELoadTail(val, node)
    case EFinish(val, node, tail) => Idle(Enqueued(val))
    case DLoadHead => DLoadTail(m.head)
    case DLoadTail(head) => DLoadNext(head, m.tail)
    case DLoadNext(head, tail) =>
      if head in m.next then DReloadHead(head, tail, m.next[head], Contents(m) == []) else Fault
    case DReloadHead(head, tail, next, sawEmpty) =>
      if head != m.head then DLoadHead
      else if head != tail then DLoadValue(head, next)
      else if next != NULL then DHelp(tail, next)
      else DReturnFalse(sawEmpty)
    case DReturnFalse(sawEmpty) => Idle(FoundEmpty)
    case DHelp(tail, next) => DLoadHead
    case DLoadValue(head, next) =>
      if next in m.value then DSwing(head, next, m.value[next]) else Fault
    case DSwing(head, next, ret) => if m.head == head then Idle(Dequeued(ret)) else DLoadHead
    case Fault => Fault
  }

  /** Thread p takes a step. */
  ghost predicate Next(s: State, s': State, p: nat, c: Choice) {
    && p < |s.threads| && Enabled(s.shared, s.threads[p], c)
    && s' == State(Effect(s.shared, s.threads[p], c), s.threads[p := Goto(s.shared, s.threads[p], c)])
  }

  /** init_queue, and threads that have not called anything yet. */
  predicate Initial(s: State) {
    exists n | n in s.shared.next ::
      && n != NULL
      && s.shared == Shared(map[n := 0], map[n := NULL], n, n, [n])
      && forall p | 0 <= p < |s.threads| :: s.threads[p] == Idle(NoCall)
  }

  // ---------------------------------------------------------------- the abstract queue

  /** Position of a node in the chain. */
  ghost function Pos(chain: seq<nat>, n: nat): (p: nat)
    ensures p <= |chain|
    ensures n in chain <==> p < |chain|
    ensures p < |chain| ==> chain[p] == n
  {
    if n in chain then (var p :| 0 <= p < |chain| && chain[p] == n; p) else |chain|
  }

  function ValueOf(m: Shared, n: nat): nat {
    if n in m.value then m.value[n] else 0
  }

  /** The values of the nodes from position h on. */
  function ValuesFrom(m: Shared, h: nat): seq<nat>
    decreases |m.chain| - h
  {
    if h < |m.chain| then [ValueOf(m, m.chain[h])] + ValuesFrom(m, h + 1) else []
  }

  /** The queue: the values of the nodes after the head. */
  ghost function Contents(m: Shared): seq<nat> {
    ValuesFrom(m, Pos(m.chain, m.head) + 1)
  }

  // ---------------------------------------------------------------- the invariant

  predicate Distinct(s: seq<nat>) {
    forall i, j | 0 <= i < j < |s| :: s[i] != s[j]
  }

  /** The chain follows the next pointers and ends in NULL; the head is not past the tail, and the
      tail is the last node or the one before it. */
  ghost predicate SharedOk(m: Shared) {
    && m.chain != [] && Distinct(m.chain)
    && (forall i | 0 <= i < |m.chain| :: m.chain[i] != NULL && m.chain[i] in m.next && m.chain[i] in m.value)
    && (forall i {:trigger m.next[m.chain[i]]} | 0 <= i < |m.chain| - 1 :: m.next[m.chain[i]] == m.chain[i + 1])
    && m.next[m.chain[|m.chain| - 1]] == NULL
    && m.head in m.chain && m.tail in m.chain
    && Pos(m.chain, m.head) <= Pos(m.chain, m.tail) && |m.chain| <= Pos(m.chain, m.tail) + 2
  }

  /** The node that an enqueue still owns, or NULL. */
  function Private(l: Local): nat {
    match l
    case EStoreValue(_, node) => node
    case EStoreNext(_, node) => node
    case ELoadTail(_, node) => node
    case ELoadNext(_, node, _) => node
    case EReloadTail(_, node, _, _) => node
    case ELink(_, node, _, _) => node
    case ELoadNew(_, node, _) => node
    case EAdvance(_, node, _, _) => node
    case _ => NULL
  }

  /** The node is allocated and not linked. */
  predicate Unlinked(m: Shared, node: nat) {
    node != NULL && node in m.next && node in m.value && node !in m.chain
  }

  /** The node is ready to be linked. */
  predicate Prepared(m: Shared, node: nat, val: nat) {
    Unlinked(m, node) && m.value[node] == val && m.next[node] == NULL
  }

  /** A tail that was once read. */
  ghost predicate OldTail(m: Shared, tail: nat) {
    tail in m.chain && Pos(m.chain, tail) <= Pos(m.chain, m.tail)
  }

  ghost predicate OldHead(m: Shared, head: nat) {
    head in m.chain && Pos(m.chain, head) <= Pos(m.chain, m.head)
  }

  /** n comes right after a in the chain. */
  ghost predicate Follows(m: Shared, a: nat, n: nat) {
    a in m.chain && Pos(m.chain, a) + 1 < |m.chain| && m.chain[Pos(m.chain, a) + 1] == n
  }

  /** What a thread may rely on at each point. */
  ghost predicate LocalOk(m: Shared, l: Local) {
    match l
    case Idle(_) => true
    case EAlloc(val) => true
    case EStoreValue(val, node) => Unlinked(m, node)
    case EStoreNext(val, node) => Unlinked(m, node) && m.value[node] == val
    case ELoadTail(val, node) => Prepared(m, node, val)
    case ELoadNext(val, node, tail) => Prepared(m, node, val) && OldTail(m, tail)
    case EReloadTail(val, node, tail, next) =>
      Prepared(m, node, val) && OldTail(m, tail) && (next != NULL ==> Follows(m, tail, next))
    case ELink(val, node, tail, next) => Prepared(m, node, val) && OldTail(m, tail) && next == NULL
    case ELoadNew(val, node, tail) =>
      Prepared(m, node, val) && OldTail(m, tail) && Pos(m.chain, tail) + 1 < |m.chain|
    case EAdvance(val, node, tail, newTail) => Prepared(m, node, val) && Follows(m, tail, newTail)
    case EFinish(val, node, tail) => Follows(m, tail, node)
    case DLoadHead => true
    case DLoadTail(head) => OldHead(m, head)
    case DLoadNext(head, tail) =>
      OldHead(m, head) && OldTail(m, tail) && Pos(m.chain, head) <= Pos(m.chain, tail)
    case DReloadHead(head, tail, next, sawEmpty) =>
      && OldHead(m, head) && OldTail(m, tail) && Pos(m.chain, head) <= Pos(m.chain, tail)
      && (head != tail || next != NULL ==> Follows(m, head, next))
      && (next == NULL ==> sawEmpty)
    case DReturnFalse(sawEmpty) => sawEmpty
    case DHelp(tail, next) => Follows(m, tail, next)
    case DLoadValue(head, next) => Follows(m, head, next) && OldTail(m, next)
    case DSwing(head, next, ret) => Follows(m, head, next) && OldTail(m, next) && ValueOf(m, next) == ret
    case Fault => false
  }

  ghost predicate Inv(s: State) {
    && SharedOk(s.shared)
    && (forall p | 0 <= p < |s.threads| :: LocalOk(s.shared, s.threads[p]))
    && (forall p, q | 0 <= p < q < |s.threads| && Private(s.threads[p]) != NULL ::
          Private(s.threads[p]) != Private(s.threads[q]))
  }

  // ---------------------------------------------------------------- preservation

  /** How memory may change from one moment to a later one. */
  ghost predicate Evolves(a: Shared, b: Shared) {
    && a.chain <= b.chain
    && Pos(a.chain, a.head) <= Pos(b.chain, b.head) && Pos(a.chain, a.tail) <= Pos(b.chain, b.tail)
    && (forall n | n in a.chain :: ValueOf(b, n) == ValueOf(a, n))
  }

  /** Positions do not change when the chain grows. */
  lemma PosStable(a: seq<nat>, b: seq<nat>, n: nat)
    requires a <= b && Distinct(b) && n in a
    ensures n in b && Pos(b, n) == Pos(a, n)
  {
    assert b[Pos(a, n)] == n;
  }

  lemma NextStable(a: seq<nat>, b: seq<nat>, n: nat)
    requires a <= b && Distinct(b) && n in a && Pos(a, n) + 1 < |a|
    ensures n in b && Pos(b, n) + 1 < |b| && b[Pos(b, n) + 1] == a[Pos(a, n) + 1]
  {
    PosStable(a, b, n);
  }

  predicate Untouched(a: Shared, b: Shared, n: nat) {
    && n in a.value && n in a.next && n !in b.chain
    && n in b.value && n in b.next && b.value[n] == a.value[n] && b.next[n] == a.next[n]
  }

  lemma OldStable(a: Shared, b: Shared, n: nat)
    requires SharedOk(b) && Evolves(a, b)
    ensures OldTail(a, n) ==> OldTail(b, n)
    ensures OldHead(a, n) ==> OldHead(b, n)
    ensures n in a.chain ==> n in b.chain && Pos(b.chain, n) == Pos(a.chain, n) && ValueOf(b, n) == ValueOf(a, n)
  {
    if n in a.chain {
      PosStable(a.chain, b.chain, n);
    }
  }

  lemma FollowsStable(a: Shared, b: Shared, n: nat, n': nat)
    requires SharedOk(b) && Evolves(a, b)
    ensures Follows(a, n, n') ==> Follows(b, n, n')
  {
    if Follows(a, n, n') {
      NextStable(a.chain, b.chain, n);
    }
  }

  /** What a thread relies on survives the steps of the others. */
  lemma LocalStable(a: Shared, b: Shared, l: Local)
    requires SharedOk(b) && Evolves(a, b) && LocalOk(a, l)
    requires Private(l) != NULL ==> Untouched(a, b, Private(l))
    ensures LocalOk(b, l)
  {
    match l
    case ELoadNext(val, node, tail) => OldStable(a, b, tail);
    case EReloadTail(val, node, tail, next) => OldStable(a, b, tail); FollowsStable(a, b, tail, next);
    case ELink(val, node, tail, next) => OldStable(a, b, tail);
    case ELoadNew(val, node, tail) => OldStable(a, b, tail);
    case EAdvance(val, node, tail, newTail) => FollowsStable(a, b, tail, newTail);
    case EFinish(val, node, tail) => FollowsStable(a, b, tail, node);
    case DLoadTail(head) => OldStable(a, b, head);
    case DLoadNext(head, tail) => OldStable(a, b, head); OldStable(a, b, tail);
    case DReloadHead(head, tail, next, sawEmpty) =>
      OldStable(a, b, head); OldStable(a, b, tail); FollowsStable(a, b, head, next);
    case DHelp(tail, next) => FollowsStable(a, b, tail, next);
    case DLoadValue(head, next) => FollowsStable(a, b, head, next); OldStable(a, b, next);
    case DSwing(head, next, ret) => FollowsStable(a, b, head, next); OldStable(a, b, next);
    case _ =>
  }

  /** A step touches no other thread's node. */
  lemma EffectIsPrivate(m: Shared, l: Local, c: Choice, n: nat)
    requires SharedOk(m) && LocalOk(m, l) && Enabled(m, l, c) && Unlinked(m, n) && n != Private(l)
    ensures Untouched(m, Effect(m, l, c), n)
  {
  }

  /** The order depends on the chain, the shared pointers and the nodes of the chain. */
  lemma SameChain(a: Shared, b: Shared)
    requires SharedOk(a) && b.chain == a.chain && b.head == a.head && b.tail == a.tail
    requires forall n | n in a.chain ::
      n in b.next && n in b.value && b.next[n] == a.next[n] && b.value[n] == a.value[n]
    ensures SharedOk(b) && Evolves(a, b)
  {
    forall i {:trigger b.next[b.chain[i]]} | 0 <= i < |b.chain| - 1 ensures b.next[b.chain[i]] == b.chain[i + 1] {
      assert a.next[a.chain[i]] == a.chain[i + 1];
    }
  }

  /** Where the shared pointers and the chain do not change, neither does the order. */
  lemma PrivateEffectOk(m: Shared, l: Local, c: Choice)
    requires SharedOk(m) && LocalOk(m, l) && Enabled(m, l, c)
    requires l.EAlloc? || l.EStoreValue? || l.EStoreNext?
    ensures SharedOk(Effect(m, l, c)) && Evolves(m, Effect(m, l, c))
  {
    SameChain(m, Effect(m, l, c));
  }

  /** A step keeps the chain in order and only moves memory forward. */
  lemma EffectOk(m: Shared, l: Local, c: Choice)
    requires SharedOk(m) && LocalOk(m, l) && Enabled(m, l, c)
    ensures SharedOk(Effect(m, l, c)) && Evolves(m, Effect(m, l, c))
  {
    if l.EAlloc? || l.EStoreValue? || l.EStoreNext? {
      PrivateEffectOk(m, l, c);
    } else if Effect(m, l, c) != m {
      match l
      case ELink(val, node, tail, next) => LinkOk(m, val, node, tail);
      case EAdvance(val, node, tail, newTail) => TailOk(m, tail, newTail);
      case EFinish(val, node, tail) => TailOk(m, tail, node);
      case DHelp(tail, next) => TailOk(m, tail, next);
      case DSwing(head, next, ret) => HeadOk(m, head, next);
    }
  }

  lemma LinkOk(m: Shared, val: nat, node: nat, tail: nat)
    requires SharedOk(m) && Prepared(m, node, val) && OldTail(m, tail) && m.next[tail] == NULL
    ensures Pos(m.chain, tail) == |m.chain| - 1 && m.tail == tail
    ensures var m' := m.(next := m.next[tail := node], chain := m.chain + [node]); SharedOk(m') && Evolves(m, m')
  {
    var m' := m.(next := m.next[tail := node], chain := m.chain + [node]);
    LoadedNext(m, tail);
    assert Distinct(m'.chain);
    PosStable(m.chain, m'.chain, m.head);
    PosStable(m.chain, m'.chain, m.tail);
    LinkedChain(m, m', node, tail);
  }

  /** The words of the chain when the node is linked behind its last one. */
  lemma LinkedChain(m: Shared, m': Shared, node: nat, tail: nat)
    requires SharedOk(m) && node != NULL && node in m.next && node in m.value && m.next[node] == NULL
    requires node !in m.chain && m.chain[|m.chain| - 1] == tail
    requires m' == m.(next := m.next[tail := node], chain := m.chain + [node])
    ensures forall i | 0 <= i < |m'.chain| ::
      m'.chain[i] != NULL && m'.chain[i] in m'.next && m'.chain[i] in m'.value
    ensures forall i {:trigger m'.next[m'.chain[i]]} | 0 <= i < |m'.chain| - 1 ::
      m'.next[m'.chain[i]] == m'.chain[i + 1]
  {
  }

  lemma TailOk(m: Shared, tail: nat, next: nat)
    requires SharedOk(m) && Follows(m, tail, next)
    ensures m.tail == tail ==> var m' := m.(tail := next); SharedOk(m') && Evolves(m, m')
  {
    NextPos(m, tail, next);
  }

  lemma HeadOk(m: Shared, head: nat, next: nat)
    requires SharedOk(m) && Follows(m, head, next) && OldTail(m, next)
    ensures m.head == head ==> var m' := m.(head := next); SharedOk(m') && Evolves(m, m')
  {
    NextPos(m, head, next);
    assert forall i {:trigger m.next[m.chain[i]]} | 0 <= i < |m.chain| - 1 :: m.next[m.chain[i]] == m.chain[i + 1];
  }

  lemma NextPos(m: Shared, a: nat, n: nat)
    requires SharedOk(m) && Follows(m, a, n)
    ensures n in m.chain && Pos(m.chain, n) == Pos(m.chain, a) + 1
  {
    assert m.chain[Pos(m.chain, n)] == m.chain[Pos(m.chain, a) + 1];
  }

  /** What a load of a.next finds: NULL at the end of the chain, and otherwise the following node. */
  lemma LoadedNext(m: Shared, a: nat)
    requires SharedOk(m) && a in m.chain
    ensures a in m.next
    ensures if m.next[a] == NULL then Pos(m.chain, a) == |m.chain| - 1 else Follows(m, a, m.next[a])
  {
    var p := Pos(m.chain, a);
    if p + 1 < |m.chain| {
      assert m.next[m.chain[p]] == m.chain[p + 1];
    }
  }

  predicate Enqueuing(l: Local) {
    l.EAlloc? || Private(l) != NULL || l.EFinish?
  }

  /** The thread that moves can rely on what it needs at its next point. */
  lemma GotoOk(m: Shared, l: Local, c: Choice)
    requires SharedOk(m) && LocalOk(m, l) && Enabled(m, l, c)
    ensures LocalOk(Effect(m, l, c), Goto(m, l, c))
  {
    if Enqueuing(l) {
      EnqueueGotoOk(m, l, c);
    } else if l.Idle? {
    } else {
      DequeueGotoOk(m, l, c);
    }
  }

  lemma EnqueueGotoOk(m: Shared, l: Local, c: Choice)
    requires SharedOk(m) && LocalOk(m, l) && Enabled(m, l, c) && Enqueuing(l)
    ensures LocalOk(Effect(m, l, c), Goto(m, l, c))
  {
    match l
    case ELoadNext(val, node, tail) => LoadedNext(m, tail);
    case EReloadTail(val, node, tail, next) =>
    case ELink(val, node, tail, next) => LoadedNext(m, tail); LinkedFollows(m, val, node, tail);
    case ELoadNew(val, node, tail) => LoadedNext(m, tail);
    case EAdvance(val, node, tail, newTail) =>
    case EFinish(val, node, tail) =>
    case ELoadTail(val, node) =>
    case EAlloc(val) =>
    case EStoreValue(val, node) =>
    case EStoreNext(val, node) =>
  }

  lemma DequeueGotoOk(m: Shared, l: Local, c: Choice)
    requires SharedOk(m) && LocalOk(m, l) && Enabled(m, l, c) && !Enqueuing(l) && !l.Idle?
    ensures LocalOk(Effect(m, l, c), Goto(m, l, c))
  {
    match l
    case DLoadNext(head, tail) => LoadedNext(m, head);
    case DReloadHead(head, tail, next, sawEmpty) => ReloadGotoOk(m, l, c);
    case DLoadValue(head, next) => NextPos(m, head, next);
    case _ =>
  }

  lemma ReloadGotoOk(m: Shared, l: Local, c: Choice)
    requires SharedOk(m) && LocalOk(m, l) && Enabled(m, l, c) && l.DReloadHead?
    ensures LocalOk(Effect(m, l, c), Goto(m, l, c))
  {
    if l.head != l.tail {
      NextPos(m, l.head, l.next);
    }
  }

  lemma LinkedFollows(m: Shared, val: nat, node: nat, tail: nat)
    requires SharedOk(m) && Prepared(m, node, val) && OldTail(m, tail)
    ensures m.next[tail] == NULL ==> Follows(m.(next := m.next[tail := node], chain := m.chain + [node]), tail, node)
  {
    if m.next[tail] == NULL {
      LinkOk(m, val, node, tail);
      PosStable(m.chain, m.chain + [node], tail);
    }
  }

  lemma InvInitial(s: State)
    requires Initial(s)
    ensures Inv(s) && Contents(s.shared) == []
  {
    var m := s.shared;
    var n :| n in m.next && m == Shared(map[n := 0], map[n := NULL], n, n, [n]);
    assert Pos(m.chain, n) == 0;
  }

  /** The threads that do not move can rely on the same as before. */
  lemma OtherOk(s: State, p: nat, q: nat, c: Choice)
    requires Inv(s) && p < |s.threads| && q < |s.threads| && p != q && Enabled(s.shared, s.threads[p], c)
    ensures LocalOk(Effect(s.shared, s.threads[p], c), s.threads[q])
  {
    var m, l := s.shared, s.threads[p];
    EffectOk(m, l, c);
    var n := Private(s.threads[q]);
    if n != NULL {
      PrivateIsUnlinked(m, s.threads[q]);
      assert n != Private(l);
      EffectIsPrivate(m, l, c, n);
    }
    LocalStable(m, Effect(m, l, c), s.threads[q]);
  }

  /** A thread keeps its node, gives it up, or gets one that nobody has. */
  lemma PrivateAfter(m: Shared, l: Local, c: Choice)
    requires LocalOk(m, l) && Enabled(m, l, c)
    ensures var n := Private(Goto(m, l, c)); n == NULL || n == Private(l) || n !in m.next
  {
  }

  /** The invariant is inductive: no thread ever faults, and the head never passes the tail. */
  lemma InvNext(s: State, s': State, p: nat, c: Choice)
    requires Inv(s) && Next(s, s', p, c)
    ensures Inv(s')
  {
    var m, l := s.shared, s.threads[p];
    assert SharedOk(s'.shared) by {
      EffectOk(m, l, c);
    }
    forall q | 0 <= q < |s.threads| ensures LocalOk(s'.shared, s'.threads[q]) {
      if q == p {
        GotoOk(m, l, c);
      } else {
        OtherOk(s, p, q, c);
      }
    }
    PrivateAfter(m, l, c);
    forall q | 0 <= q < |s.threads| && q != p && Private(s.threads[q]) != NULL
      ensures Private(s.threads[q]) != Private(s'.threads[p])
    {
      PrivateIsUnlinked(m, s.threads[q]);
    }
  }

  lemma PrivateIsUnlinked(m: Shared, l: Local)
    requires LocalOk(m, l) && Private(l) != NULL
    ensures Unlinked(m, Private(l))
  {
  }

  // ---------------------------------------------------------------- refinement of a FIFO queue

  datatype Event = Enq(val: nat) | Deq(ret: nat)

  /** Where a call takes effect: the CAS on tail->next, and the CAS on the head. */
  function EventOf(m: Shared, l: Local): seq<Event> {
    match l
    case ELink(val, node, tail, next) => if tail in m.next && m.next[tail] == next then [Enq(val)] else []
    case DSwing(head, next, ret) => if m.head == head then [Deq(ret)] else []
    case _ => []
  }

  /** A dequeue returns the front of a queue that is not empty. */
  predicate Possible(queue: seq<nat>, events: seq<Event>) {
    events != [] && events[0].Deq? ==> queue != [] && queue[0] == events[0].ret
  }

  /** The queue after an event. */
  function After(queue: seq<nat>, events: seq<Event>): seq<nat> {
    if events == [] then queue
    else match events[0]
      case Enq(val) => queue + [val]
      case Deq(ret) => if queue != [] then queue[1..] else []
  }

  /** Every step is a step of the abstract queue: an enqueue appends its value, a successful dequeue
      removes and returns the front, and everything else leaves the queue as it is. */
  lemma StepRefines(m: Shared, l: Local, c: Choice)
    requires SharedOk(m) && LocalOk(m, l) && Enabled(m, l, c)
    ensures Contents(Effect(m, l, c)) == After(Contents(m), EventOf(m, l))
    ensures Possible(Contents(m), EventOf(m, l))
    ensures l.DReturnFalse? ==> l.sawEmpty
  {
    if l.ELink? && m.next[l.tail] == l.next {
      AppendRefines(m, l.val, l.node, l.tail);
    } else if l.DSwing? && m.head == l.head {
      SwingRefines(m, l.head, l.next);
    } else {
      EffectOk(m, l, c);
      SameContents(m, Effect(m, l, c));
    }
  }

  lemma {:induction false} SameValues(a: Shared, b: Shared, h: nat)
    requires a.chain == b.chain && forall n | n in a.chain :: ValueOf(b, n) == ValueOf(a, n)
    ensures ValuesFrom(a, h) == ValuesFrom(b, h)
    decreases |a.chain| - h
  {
    if h < |a.chain| {
      SameValues(a, b, h + 1);
    }
  }

  lemma {:induction false} ValuesAppend(a: Shared, b: Shared, h: nat, n: nat)
    requires b.chain == a.chain + [n] && h <= |a.chain|
    requires forall k | k in a.chain :: ValueOf(b, k) == ValueOf(a, k)
    ensures ValuesFrom(b, h) == ValuesFrom(a, h) + [ValueOf(b, n)]
    decreases |a.chain| - h
  {
    if h < |a.chain| {
      ValuesAppend(a, b, h + 1, n);
    } else {
      assert ValuesFrom(b, h + 1) == [];
    }
  }

  lemma SwingRefines(m: Shared, head: nat, next: nat)
    requires SharedOk(m) && Follows(m, head, next) && m.head == head
    ensures Contents(m) != [] && Contents(m)[0] == ValueOf(m, next)
    ensures Contents(m.(head := next)) == Contents(m)[1..]
  {
    NextPos(m, head, next);
    var h, m' := Pos(m.chain, head), m.(head := next);
    assert Pos(m'.chain, m'.head) == h + 1;
    SameValues(m, m', h + 2);
  }

  lemma AppendRefines(m: Shared, val: nat, node: nat, tail: nat)
    requires SharedOk(m) && Prepared(m, node, val) && OldTail(m, tail) && m.next[tail] == NULL
    ensures Contents(m.(next := m.next[tail := node], chain := m.chain + [node])) == Contents(m) + [val]
  {
    var m' := m.(next := m.next[tail := node], chain := m.chain + [node]);
    LinkOk(m, val, node, tail);
    PosStable(m.chain, m'.chain, m.head);
    ValuesAppend(m, m', Pos(m.chain, m.head) + 1, node);
  }

  lemma SameContents(a: Shared, b: Shared)
    requires Evolves(a, b) && a.chain == b.chain && a.head == b.head
    ensures Contents(b) == Contents(a)
  {
    SameValues(a, b, Pos(a.chain, a.head) + 1);
  }

  /** What a thread reports when it has just returned. */
  function Returned(l: Local): seq<Event> {
    match l
    case Idle(Enqueued(val)) => [Enq(val)]
    case Idle(Dequeued(ret)) => [Deq(ret)]
    case _ => []
  }

  /** The effect of a call that has not returned yet. */
  function Pending(l: Local): seq<Event> {
    match l
    case EFinish(val, node, tail) => [Enq(val)]
    case _ => []
  }

  lemma StepReports(m: Shared, l: Local, c: Choice)
    requires SharedOk(m) && LocalOk(m, l) && Enabled(m, l, c)
    ensures var l' := Goto(m, l, c);
      Pending(l) + EventOf(m, l) == Returned(l') + Pending(l')
  {
    if Enqueuing(l) || l.Idle? {
      CallStepReports(m, l, c);
    } else {
      DequeueStepReports(m, l, c);
    }
  }

  lemma DequeueStepReports(m: Shared, l: Local, c: Choice)
    requires SharedOk(m) && LocalOk(m, l) && Enabled(m, l, c) && !Enqueuing(l) && !l.Idle?
    ensures var l' := Goto(m, l, c);
      Pending(l) + EventOf(m, l) == Returned(l') + Pending(l')
  {
  }

  lemma CallStepReports(m: Shared, l: Local, c: Choice)
    requires SharedOk(m) && LocalOk(m, l) && Enabled(m, l, c) && (Enqueuing(l) || l.Idle?)
    ensures var l' := Goto(m, l, c);
      Pending(l) + EventOf(m, l) == Returned(l') + Pending(l')
  {
  }

  /** Between the load of head->next and the return of a failing dequeue. */
  predicate AboutToFail(l: Local) {
    (l.DReloadHead? && l.next == NULL) || l.DReturnFalse?
  }

  lemma StartsToFail(m: Shared, l: Local, c: Choice)
    requires SharedOk(m) && LocalOk(m, l) && Enabled(m, l, c) && AboutToFail(Goto(m, l, c))
    ensures AboutToFail(l) || (l.DLoadNext? && Contents(m) == [])
  {
    if l.DLoadNext? {
      DequeueGotoOk(m, l, c);
    }
  }

  /** A run: states, and the thread and choice of every step. */
  ghost predicate IsRun(states: seq<State>, moves: seq<(nat, Choice)>) {
    && |states| == |moves| + 1 && Initial(states[0])
    && forall i {:trigger StepAt(states, moves, i)} | 0 <= i < |moves| :: StepAt(states, moves, i)
  }

  ghost predicate StepAt(states: seq<State>, moves: seq<(nat, Choice)>, i: int)
    requires |states| == |moves| + 1 && 0 <= i < |moves|
  {
    Next(states[i], states[i + 1], moves[i].0, moves[i].1)
  }

  lemma {:induction false} RunInv(states: seq<State>, moves: seq<(nat, Choice)>, n: nat)
    requires IsRun(states, moves) && n < |states|
    ensures Inv(states[n]) && |states[n].threads| == |states[0].threads|
  {
    if n == 0 {
      InvInitial(states[0]);
    } else {
      RunInv(states, moves, n - 1);
      assert StepAt(states, moves, n - 1);
      InvNext(states[n - 1], states[n], moves[n - 1].0, moves[n - 1].1);
    }
  }

  lemma RunThreads(states: seq<State>, moves: seq<(nat, Choice)>, n: nat)
    requires IsRun(states, moves) && n < |states|
    ensures |states[n].threads| == |states[0].threads|
    ensures n < |moves| ==> moves[n].0 < |states[0].threads|
  {
    RunInv(states, moves, n);
    if n < |moves| {
      assert StepAt(states, moves, n);
    }
  }

  /** What a step of a run does to the queue. */
  lemma RunStepQueue(states: seq<State>, moves: seq<(nat, Choice)>, n: nat)
    requires IsRun(states, moves) && n < |moves| && moves[n].0 < |states[n].threads|
    ensures var s, e := states[n].shared, EventOf(states[n].shared, states[n].threads[moves[n].0]);
      Contents(states[n + 1].shared) == After(Contents(s), e) && Possible(Contents(s), e)
  {
    RunInv(states, moves, n);
    assert StepAt(states, moves, n);
    var s, p, c := states[n], moves[n].0, moves[n].1;
    StepRefines(s.shared, s.threads[p], c);
  }

  /** What a step of a run does to the call of thread q. */
  lemma RunStepCall(states: seq<State>, moves: seq<(nat, Choice)>, n: nat, q: nat)
    requires IsRun(states, moves) && n < |moves| && q < |states[n].threads| && q < |states[n + 1].threads|
    ensures var l, l', m := states[n].threads[q], states[n + 1].threads[q], states[n].shared;
      if q != moves[n].0 then l' == l
      else Pending(l) + EventOf(m, l) == Returned(l') + Pending(l')
  {
    assert StepAt(states, moves, n);
    var s, p, c := states[n], moves[n].0, moves[n].1;
    if p == q {
      RunInv(states, moves, n);
      StepReports(s.shared, s.threads[p], c);
    }
  }

  lemma RunStepFails(states: seq<State>, moves: seq<(nat, Choice)>, n: nat, q: nat)
    requires IsRun(states, moves) && n < |moves| && q < |states[n].threads| && q < |states[n + 1].threads|
    requires AboutToFail(states[n + 1].threads[q])
    ensures || AboutToFail(states[n].threads[q])
            || (moves[n].0 == q && states[n].threads[q].DLoadNext? && Contents(states[n].shared) == [])
  {
    assert StepAt(states, moves, n);
    var s, p, c := states[n], moves[n].0, moves[n].1;
    if p == q {
      RunInv(states, moves, n);
      StartsToFail(s.shared, s.threads[p], c);
    }
  }

  /** In every reachable state no thread has dereferenced NULL, the head is not past the tail, and the
      tail lags by at most one node. */
  lemma RunIsSafe(states: seq<State>, moves: seq<(nat, Choice)>, n: nat)
    requires IsRun(states, moves) && n < |states|
    ensures forall p | 0 <= p < |states[n].threads| :: states[n].threads[p] != Fault
    ensures var m := states[n].shared;
      Pos(m.chain, m.head) <= Pos(m.chain, m.tail) < |m.chain| <= Pos(m.chain, m.tail) + 2
  {
    RunInv(states, moves, n);
  }

  /** The threads of the first n moves exist. */
  predicate MovesOk(states: seq<State>, moves: seq<(nat, Choice)>, n: nat) {
    n <= |moves| && n < |states| && forall i {:trigger moves[i]} | 0 <= i < n :: moves[i].0 < |states[i].threads|
  }

  lemma RunMoves(states: seq<State>, moves: seq<(nat, Choice)>, n: nat)
    requires IsRun(states, moves) && n < |states|
    ensures MovesOk(states, moves, n)
  {
    forall i | 0 <= i < n ensures moves[i].0 < |states[i].threads| {
      RunThreads(states, moves, i);
    }
  }

  function EnqueuedBy(events: seq<Event>): seq<nat> {
    if events != [] && events[0].Enq? then [events[0].val] else []
  }

  function DequeuedBy(events: seq<Event>): seq<nat> {
    if events != [] && events[0].Deq? then [events[0].ret] else []
  }

  /** The values that the first n steps enqueue, in order. */
  function Enqueues(states: seq<State>, moves: seq<(nat, Choice)>, n: nat): seq<nat>
    requires MovesOk(states, moves, n)
  {
    if n == 0 then []
    else
      Enqueues(states, moves, n - 1)
      + EnqueuedBy(EventOf(states[n - 1].shared, states[n - 1].threads[moves[n - 1].0]))
  }

  /** The values that they dequeue. */
  function Dequeues(states: seq<State>, moves: seq<(nat, Choice)>, n: nat): seq<nat>
    requires MovesOk(states, moves, n)
  {
    if n == 0 then []
    else
      Dequeues(states, moves, n - 1)
      + DequeuedBy(EventOf(states[n - 1].shared, states[n - 1].threads[moves[n - 1].0]))
  }

  lemma FifoStep(queue: seq<nat>, event: seq<Event>)
    requires Possible(queue, event)
    ensures queue + EnqueuedBy(event) == DequeuedBy(event) + After(queue, event)
  {
  }

  /** What went in is what came out and what is in between, also after one more step. */
  /** One step of a run: what it appends is at the end of the queue, what it takes was at the front. */
  lemma RunStepFifo(states: seq<State>, moves: seq<(nat, Choice)>, n: nat)
    requires IsRun(states, moves) && n < |moves| && moves[n].0 < |states[n].threads|
    ensures var e := EventOf(states[n].shared, states[n].threads[moves[n].0]);
      Contents(states[n].shared) + EnqueuedBy(e) == DequeuedBy(e) + Contents(states[n + 1].shared)
  {
    RunStepQueue(states, moves, n);
    FifoStep(Contents(states[n].shared), EventOf(states[n].shared, states[n].threads[moves[n].0]));
  }

  lemma OneMore<T>(ins: seq<T>, outs: seq<T>, between: seq<T>, in1: seq<T>, out1: seq<T>, now: seq<T>, ins': seq<T>,
                   outs': seq<T>)
    requires ins == outs + between && between + in1 == out1 + now && ins' == ins + in1 && outs' == outs + out1
    ensures ins' == outs' + now
  {
    assert (outs + between) + in1 == outs + (between + in1);
    assert outs + (out1 + now) == (outs + out1) + now;
  }

  lemma InitialEmpty(s: State)
    requires Initial(s)
    ensures Contents(s.shared) == []
  {
    InvInitial(s);
  }

  /** First in, first out: in every run, the enqueued values are the dequeued values, in the same
      order, followed by what is still in the queue. */
  lemma {:induction false} RunIsFIFO(states: seq<State>, moves: seq<(nat, Choice)>, n: nat)
    requires IsRun(states, moves) && n < |states|
    ensures MovesOk(states, moves, n)
    ensures Enqueues(states, moves, n) == Dequeues(states, moves, n) + Contents(states[n].shared)
  {
    RunMoves(states, moves, n);
    if n == 0 {
      InitialEmpty(states[0]);
    } else {
      RunIsFIFO(states, moves, n - 1);
      RunThreads(states, moves, n - 1);
      RunStepFifo(states, moves, n - 1);
      var event := EventOf(states[n - 1].shared, states[n - 1].threads[moves[n - 1].0]);
      OneMore(Enqueues(states, moves, n - 1), Dequeues(states, moves, n - 1), Contents(states[n - 1].shared),
              EnqueuedBy(event), DequeuedBy(event),
              Contents(states[n].shared), Enqueues(states, moves, n), Dequeues(states, moves, n));
    }
  }

  /** The effects of one thread's calls among the first n steps, and the calls that returned one. */
  function EventsBy(states: seq<State>, moves: seq<(nat, Choice)>, n: nat, p: nat): seq<Event>
    requires MovesOk(states, moves, n)
  {
    if n == 0 then []
    else EventsBy(states, moves, n - 1, p)
         + if moves[n - 1].0 == p then EventOf(states[n - 1].shared, states[n - 1].threads[p]) else []
  }

  predicate Present(states: seq<State>, n: nat, p: nat) {
    n < |states| && forall i {:trigger states[i]} | 0 <= i <= n :: p < |states[i].threads|
  }

  lemma RunPresent(states: seq<State>, moves: seq<(nat, Choice)>, n: nat, p: nat)
    requires IsRun(states, moves) && n < |states| && p < |states[0].threads|
    ensures Present(states, n, p)
  {
    forall i | 0 <= i <= n ensures p < |states[i].threads| {
      RunThreads(states, moves, i);
    }
  }

  function ReturnsBy(states: seq<State>, moves: seq<(nat, Choice)>, n: nat, p: nat): seq<Event>
    requires n <= |moves| && Present(states, n, p)
  {
    if n == 0 then []
    else ReturnsBy(states, moves, n - 1, p)
         + if moves[n - 1].0 == p then Returned(states[n].threads[p]) else []
  }

  /** Every call takes effect exactly once, before it returns and as it reports: a thread's effects are
      what its calls have returned, and one more while an enqueue has linked its node. */
  lemma {:induction false} CallsTakeEffectOnce(states: seq<State>, moves: seq<(nat, Choice)>, n: nat, p: nat)
    requires IsRun(states, moves) && n < |states| && p < |states[0].threads|
    ensures MovesOk(states, moves, n) && Present(states, n, p)
    ensures EventsBy(states, moves, n, p) == ReturnsBy(states, moves, n, p) + Pending(states[n].threads[p])
  {
    RunMoves(states, moves, n);
    RunPresent(states, moves, n, p);
    if n > 0 {
      CallsTakeEffectOnce(states, moves, n - 1, p);
      RunStepCall(states, moves, n - 1, p);
      var l, l' := states[n - 1].threads[p], states[n].threads[p];
      var effect := if moves[n - 1].0 == p then EventOf(states[n - 1].shared, l) else [];
      var reply := if moves[n - 1].0 == p then Returned(l') else [];
      OneMore(EventsBy(states, moves, n - 1, p), ReturnsBy(states, moves, n - 1, p), Pending(l), effect, reply,
              Pending(l'), EventsBy(states, moves, n, p), ReturnsBy(states, moves, n, p));
    }
  }

  /** A dequeue that is about to return false saw an empty queue, at its load of head->next. */
  lemma {:induction false} FalseSawEmpty(states: seq<State>, moves: seq<(nat, Choice)>, n: nat, p: nat) returns (j: nat)
    requires IsRun(states, moves) && n < |states|
    requires p < |states[n].threads| && AboutToFail(states[n].threads[p])
    ensures j < n && moves[j].0 == p && p < |states[j].threads| && states[j].threads[p].DLoadNext?
    ensures Contents(states[j].shared) == []
    ensures forall k | j < k <= n :: p < |states[k].threads| && AboutToFail(states[k].threads[p])
  {
    if n > 0 {
      RunThreads(states, moves, n);
      RunThreads(states, moves, n - 1);
      RunStepFails(states, moves, n - 1, p);
      if AboutToFail(states[n - 1].threads[p]) {
        j := FalseSawEmpty(states, moves, n - 1, p);
      } else {
        j := n - 1;
      }
    }
  }
}
