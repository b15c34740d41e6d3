/** How values get from stores to loads and on along dependences: the rules, and what is kept while they are applied one
    change at a time (planner.cc). */
module Propagations {

  // ---------------------------------------------------------------- records

  datatype Kind = LOAD | STORE | RMW | FUNCTION | EQUALS | BRANCHDIR | MERGE
  datatype AtomicOp = ADD | CAS | EXC

  const ADDR := 0
  const RF := 1
  const BASE := 2
  const OLDVALCAS := 3
  const RMWOUT := 4
  const VALOUT := 5
  const FUNCOUT := 1

  /** Machine words. */
  const WORDS: nat := 0x1_0000_0000_0000_0000

  /** A goal of a function: when these inputs are possible, so is the output. */
  datatype Goal = Goal(inputs: seq<nat>, output: nat)

  /** What does not change about a record: the (record, index) pairs that depend on its value are in deps. */
  datatype Rec = Rec(kind: Kind, op: AtomicOp, offset: nat, phi: bool, sharedGoals: bool, goals: seq<Goal>,
                     deps: seq<(nat, nat)>)

  type Program = map<nat, Rec>

  predicate Reader(k: Kind) {
    k == LOAD || k == RMW
  }

  predicate Writer(k: Kind) {
    k == STORE || k == RMW
  }

  /** The index of the values that a writer stores. */
  function StoreIndex(k: Kind): nat {
    if k == RMW then RMWOUT else BASE
  }

  /** compatibleStoreLoad. */
  predicate Compatible(store: nat, load: nat) {
    store != load
  }

  /** The value in the record's set when this one is registered: the offset is added to addresses. */
  function Shifted(p: Program, r: nat, index: nat, val: nat): nat {
    if r in p && (Reader(p[r].kind) || Writer(p[r].kind)) && index == ADDR then (val + p[r].offset) % WORDS else val
  }

  /** The values in this set are values that the record returns. */
  predicate ReturnsFrom(rec: Rec, index: nat) {
    match rec.kind
    case LOAD => index == RF
    case RMW => index == RF
    case FUNCTION => rec.phi || index == FUNCOUT
    case EQUALS => index == FUNCOUT
    case _ => false
  }

  /** Dependences lead to records of the program, at indices that the recording of an execution uses. */
  predicate ProgramOk(p: Program) {
    forall r | r in p ::
      && (forall g | g in p[r].goals :: g.output < WORDS)
      && forall d | d in p[r].deps :: d.0 in p && TargetOk(p[d.0].kind, d.1)
  }

  predicate TargetOk(k: Kind, index: nat) {
    match k
    case LOAD => index == ADDR || index == RF
    case STORE => index == ADDR || index == BASE
    case RMW => index == ADDR || index == RF || index == BASE || index == OLDVALCAS
    case _ => index >= BASE
  }

  // ---------------------------------------------------------------- the rules

  /** The value is in the set that the record keeps at the index. */
  datatype Fact = Fact(rec: nat, index: nat, val: nat)

  /** Why a value is possible.
      Read: a load or a read-modify-write may read what another record may store at one of its addresses.
      Pass: what a record returns goes to a record that depends on it.
      Again: a compare-and-swap may store what it reads, and its operand.
      Output: a function whose goals are shared may return the output of a goal, all of whose inputs it may get. */
  datatype Rule =
    | Read(load: nat, store: nat, addr: nat, val: nat)
    | Pass(rec: nat, to: nat, index: nat, val: nat)
    | Again(rec: nat, from: nat, val: nat)
    | Output(rec: nat, goal: Goal)

  ghost predicate Premises(p: Program, rule: Rule, facts: iset<Fact>) {
    match rule
    case Read(load, store, a, v) =>
      && load in p && Reader(p[load].kind) && store in p && Writer(p[store].kind) && Compatible(store, load)
      && Fact(load, ADDR, a) in facts && Fact(store, ADDR, a) in facts
      && Fact(store, StoreIndex(p[store].kind), v) in facts
    case Pass(r, to, index, v) =>
      r in p && (to, index) in p[r].deps && to in p && p[to].kind != MERGE && Returned(p, facts, r, v)
    case Again(r, from, v) =>
      && r in p && p[r].kind == RMW && p[r].op == CAS && (from == RF || from == BASE) && Fact(r, from, v) in facts
    case Output(r, goal) =>
      && r in p && p[r].kind == FUNCTION && !p[r].phi && p[r].sharedGoals && goal in p[r].goals
      && InputsIn(facts, r, goal)
  }

  ghost predicate InputsIn(facts: iset<Fact>, r: nat, goal: Goal) {
    forall j | 0 <= j < |goal.inputs| :: Fact(r, BASE + j, goal.inputs[j]) in facts
  }

  ghost predicate Returned(p: Program, facts: iset<Fact>, r: nat, v: nat)
    requires r in p
  {
    exists i :: Fact(r, i, v) in facts && ReturnsFrom(p[r], i)
  }

  function Conclusion(p: Program, rule: Rule): Fact {
    match rule
    case Read(load, _, _, v) => Fact(load, RF, v)
    case Pass(_, to, index, v) => Fact(to, index, Shifted(p, to, index, v))
    case Again(r, _, v) => Fact(r, RMWOUT, v)
    case Output(r, goal) => Fact(r, FUNCOUT, goal.output)
  }

  ghost predicate Closed(p: Program, facts: iset<Fact>) {
    forall rule {:trigger Premises(p, rule, facts)} | Premises(p, rule, facts) :: Conclusion(p, rule) in facts
  }

  /** Every closed set around the facts has it. */
  ghost predicate Follows(p: Program, facts: iset<Fact>, x: Fact) {
    forall c: iset<Fact> {:trigger Closed(p, c)} | Closed(p, c) && facts <= c :: x in c
  }

  /** What follows from the facts by the rules: the least closed set around them. */
  ghost function Least(p: Program, facts: iset<Fact>): iset<Fact> {
    iset x | Follows(p, facts, x)
  }

  lemma PremisesStay(p: Program, rule: Rule, facts: iset<Fact>, more: iset<Fact>)
    requires Premises(p, rule, facts) && facts <= more
    ensures Premises(p, rule, more)
  {
    if rule.Pass? {
      var i :| Fact(rule.rec, i, rule.val) in facts && ReturnsFrom(p[rule.rec], i);
      assert Fact(rule.rec, i, rule.val) in more;
    }
  }

  lemma LeastIsClosed(p: Program, facts: iset<Fact>)
    ensures facts <= Least(p, facts) && Closed(p, Least(p, facts))
  {
    var least := Least(p, facts);
    forall rule {:trigger Premises(p, rule, least)} | Premises(p, rule, least) ensures Conclusion(p, rule) in least {
      forall c: iset<Fact> | Closed(p, c) && facts <= c ensures Conclusion(p, rule) in c {
        assert least <= c;
        PremisesStay(p, rule, least, c);
      }
    }
  }

  lemma ClosedIsLeast(p: Program, facts: iset<Fact>, more: iset<Fact>)
    requires facts <= more <= Least(p, facts) && Closed(p, more)
    ensures more == Least(p, facts)
  {
    forall x | x in Least(p, facts) ensures x in more {
      assert Follows(p, facts, x);
    }
  }

  // ---------------------------------------------------------------- changes

  /** MCChange. */
  datatype Change = Change(rec: nat, val: nat, index: nat)

  /** A change that processChanges has a case for. */
  predicate ChangeOk(p: Program, c: Change) {
    && c.rec in p && c.val < WORDS && c.index < 6
    && match p[c.rec].kind
       case LOAD => c.index == ADDR || c.index == VALOUT
       case STORE => c.index == ADDR || c.index == BASE
       case RMW => c.index == ADDR || c.index == RMWOUT || c.index == VALOUT
       case FUNCTION => c.index == FUNCOUT
       case EQUALS => c.index == FUNCOUT
       case _ => false
  }

  /** The index of a change that tells of a value returned. */
  function OutIndex(k: Kind): nat {
    if Reader(k) then VALOUT else FUNCOUT
  }

  /** The change that tells of the fact. */
  function Announcement(p: Program, x: Fact): Change
    requires x.rec in p
  {
    Change(x.rec, x.val, if ReturnsFrom(p[x.rec], x.index) then OutIndex(p[x.rec].kind) else x.index)
  }

  /** The value of the change is in a set that it tells of. */
  ghost predicate Told(p: Program, facts: iset<Fact>, c: Change)
    requires c.rec in p
  {
    exists i :: Fact(c.rec, i, c.val) in facts && Announcement(p, Fact(c.rec, i, c.val)) == c
  }

  /** Processing the change applies the rule. */
  predicate Brings(p: Program, c: Change, rule: Rule) {
    match rule
    case Read(load, store, a, v) =>
      || (load in p && p[load].kind == LOAD && c == Change(load, a, ADDR))
      || (store in p && (c == Change(store, a, ADDR) || c == Change(store, v, StoreIndex(p[store].kind))))
    case Pass(r, _, _, v) => r in p && c == Change(r, v, OutIndex(p[r].kind))
    case Again(_, _, _) => false
    case Output(_, _) => false
  }

  // ---------------------------------------------------------------- the invariant

  datatype State = State(facts: iset<Fact>, pending: set<Change>, done: set<Change>)

  /** A change that will still be processed brings the conclusion. */
  ghost predicate Coming(p: Program, s: State, rule: Rule) {
    exists c :: c in s.pending && c !in s.done && Brings(p, c, rule)
  }

  /** The rule applies, but its conclusion is not there and will not be brought. */
  ghost predicate Unmet(p: Program, s: State, rule: Rule) {
    Premises(p, rule, s.facts) && Conclusion(p, rule) !in s.facts && !Coming(p, s, rule)
  }

  ghost function Missed(p: Program, s: State): iset<Rule> {
    iset rule | Unmet(p, s, rule)
  }

  /** Loads and read-modify-writes have a change, but no set, for the values that they return. */
  predicate FactOk(p: Program, x: Fact) {
    x.rec in p && x.val < WORDS && (Reader(p[x.rec].kind) ==> x.index != VALOUT)
  }

  ghost predicate FactsOk(p: Program, s: State) {
    forall x | x in s.facts :: FactOk(p, x)
  }

  ghost predicate ChangesOk(p: Program, s: State) {
    forall c | c in s.pending || c in s.done :: ChangeOk(p, c) && Told(p, s.facts, c)
  }

  /** All rules that were not owed before have their conclusions, or will have them. */
  ghost predicate Paid(p: Program, s: State, owed: iset<Rule>) {
    forall rule | Unmet(p, s, rule) :: rule in owed
  }

  ghost predicate Inv(p: Program, s: State, owed: iset<Rule>) {
    ProgramOk(p) && FactsOk(p, s) && ChangesOk(p, s) && Paid(p, s, owed)
  }

  /** Nothing is lost. */
  ghost predicate Grows(s: State, t: State) {
    s.facts <= t.facts && s.pending <= t.pending && s.done == t.done
  }

  function WithFact(s: State, x: Fact): State {
    s.(facts := s.facts + iset{x})
  }

  function WithChange(s: State, c: Change): State {
    s.(pending := s.pending + {c})
  }

  // ---------------------------------------------------------------- single steps

  /** The fact is among the premises of the rule. */
  ghost predicate Uses(p: Program, rule: Rule, x: Fact) {
    match rule
    case Read(load, store, a, v) =>
      || x == Fact(load, ADDR, a) || x == Fact(store, ADDR, a)
      || (store in p && x == Fact(store, StoreIndex(p[store].kind), v))
    case Pass(r, _, _, v) => r in p && x.rec == r && x.val == v && ReturnsFrom(p[r], x.index)
    case Again(r, from, v) => x == Fact(r, from, v)
    case Output(r, goal) => x.rec == r && BASE <= x.index < BASE + |goal.inputs| && goal.inputs[x.index - BASE] == x.val
  }

  lemma UsesNew(p: Program, rule: Rule, facts: iset<Fact>, x: Fact)
    requires Premises(p, rule, facts + iset{x}) && !Premises(p, rule, facts)
    ensures Uses(p, rule, x)
  {
    if rule.Pass? {
      var i :| Fact(rule.rec, i, rule.val) in facts + iset{x} && ReturnsFrom(p[rule.rec], i);
      assert Fact(rule.rec, i, rule.val) !in facts;
    }
  }

  lemma MoreChanges(p: Program, s: State, owed: iset<Rule>, c: Change)
    requires Inv(p, s, owed) && ChangeOk(p, c) && Told(p, s.facts, c)
    ensures Inv(p, WithChange(s, c), owed)
  {
    var t := WithChange(s, c);
    forall rule | Unmet(p, t, rule) ensures rule in owed {
      ComingStays(p, s, t, rule);
      assert Unmet(p, s, rule);
    }
  }

  lemma ComingStays(p: Program, s: State, t: State, rule: Rule)
    requires s.pending <= t.pending && t.done <= s.done
    ensures Coming(p, s, rule) ==> Coming(p, t, rule)
  {
  }

  lemma ToldStays(p: Program, facts: iset<Fact>, more: iset<Fact>, c: Change)
    requires c.rec in p && Told(p, facts, c) && facts <= more
    ensures Told(p, more, c)
  {
  }

  /** One more fact: the rules that it makes apply are owed. */
  lemma PlainFact(p: Program, s: State, owed: iset<Rule>, x: Fact, now: iset<Rule>)
    requires Inv(p, s, owed) && FactOk(p, x) && owed <= now
    requires forall rule {:trigger Premises(p, rule, s.facts + iset{x})} | Premises(p, rule, s.facts + iset{x})
      && Uses(p, rule, x) :: rule in now
    ensures Inv(p, WithFact(s, x), now)
  {
    var t := WithFact(s, x);
    forall c | c in t.pending || c in t.done ensures ChangeOk(p, c) && Told(p, t.facts, c) {
      ToldStays(p, s.facts, t.facts, c);
    }
    forall rule | Unmet(p, t, rule) ensures rule in now {
      ComingStays(p, s, t, rule);
      if Premises(p, rule, s.facts) {
        assert Unmet(p, s, rule);
      } else {
        UsesNew(p, rule, s.facts, x);
      }
    }
  }

  /** One more fact and its change: only the rules that it makes apply and that the change does not bring are owed. */
  lemma NewFact(p: Program, s: State, owed: iset<Rule>, x: Fact, now: iset<Rule>)
    requires Inv(p, s, owed) && FactOk(p, x) && ChangeOk(p, Announcement(p, x)) && owed <= now
    requires forall rule {:trigger Premises(p, rule, s.facts + iset{x})} | Premises(p, rule, s.facts + iset{x})
      && Uses(p, rule, x) && !Brings(p, Announcement(p, x), rule) :: rule in now
    ensures Inv(p, WithChange(WithFact(s, x), Announcement(p, x)), now)
  {
    var t := WithChange(WithFact(s, x), Announcement(p, x));
    forall c | c in t.pending || c in t.done ensures ChangeOk(p, c) && Told(p, t.facts, c) {
      if c in s.pending || c in s.done {
        ToldStays(p, s.facts, t.facts, c);
      } else {
        assert Fact(c.rec, x.index, c.val) in t.facts;
      }
    }
    forall rule | Unmet(p, t, rule) ensures rule in now {
      NewlyUnmet(p, s, owed, x, rule);
    }
  }

  lemma NewlyUnmet(p: Program, s: State, owed: iset<Rule>, x: Fact, rule: Rule)
    requires Inv(p, s, owed) && FactOk(p, x) && ChangeOk(p, Announcement(p, x))
    requires Unmet(p, WithChange(WithFact(s, x), Announcement(p, x)), rule)
    ensures rule in owed || (Uses(p, rule, x) && !Brings(p, Announcement(p, x), rule))
  {
    var c := Announcement(p, x);
    ComingStays(p, s, WithChange(WithFact(s, x), c), rule);
    if c in s.done && Uses(p, rule, x) && Brings(p, c, rule) {
      AppliedBefore(p, s.facts, x, rule);
    }
    if Premises(p, rule, s.facts) {
      assert Unmet(p, s, rule);
    } else {
      UsesNew(p, rule, s.facts, x);
    }
  }

  /** A change that told of a fact before brought the rules then. */
  lemma AppliedBefore(p: Program, facts: iset<Fact>, x: Fact, rule: Rule)
    requires FactOk(p, x) && forall y | y in facts :: FactOk(p, y)
    requires Told(p, facts, Announcement(p, x)) && Uses(p, rule, x) && Brings(p, Announcement(p, x), rule)
    requires Premises(p, rule, facts + iset{x})
    ensures Premises(p, rule, facts)
  {
    var c := Announcement(p, x);
    var i :| Fact(c.rec, i, c.val) in facts && Announcement(p, Fact(c.rec, i, c.val)) == c;
    assert ReturnsFrom(p[c.rec], i) <==> ReturnsFrom(p[c.rec], x.index);
  }

  /** What has been concluded is no longer owed. */
  lemma Settle(p: Program, s: State, owed: iset<Rule>, now: iset<Rule>)
    requires Inv(p, s, owed)
    requires forall rule {:trigger Premises(p, rule, s.facts)} | rule in owed && Premises(p, rule, s.facts) ::
      rule in now || Conclusion(p, rule) in s.facts
    ensures Inv(p, s, now)
  {
    forall rule | Unmet(p, s, rule) ensures rule in now {
    }
  }

  // ---------------------------------------------------------------- the worklist

  ghost function Brought(p: Program, c: Change): iset<Rule> {
    iset rule | Brings(p, c, rule)
  }

  /** Every rule that the change brings has its conclusion. */
  ghost predicate Arrived(p: Program, s: State, c: Change) {
    forall rule {:trigger Premises(p, rule, s.facts)} | Premises(p, rule, s.facts) && Brings(p, c, rule) ::
      Conclusion(p, rule) in s.facts
  }

  /** Taking a change out of the pending ones: only rules that wait for it may be unmet, and none if it was completed
      before. */
  lemma TakeChange(p: Program, s: State, owed: iset<Rule>, c: Change, left: set<Change>)
    requires Inv(p, s, owed) && s.pending == left + {c}
    ensures ChangeOk(p, c) && Told(p, s.facts, c)
    ensures Inv(p, s.(pending := left), owed + Brought(p, c))
    ensures c in s.done ==> Inv(p, s.(pending := left), owed)
  {
    var t := s.(pending := left);
    forall rule | Unmet(p, t, rule)
      ensures rule in owed || (c !in s.done && Brings(p, c, rule))
    {
      if Coming(p, s, rule) {
        var d :| d in s.pending && d !in s.done && Brings(p, d, rule);
        assert d == c;
      } else {
        assert Unmet(p, s, rule);
      }
    }
  }

  lemma FinishChange(p: Program, s: State, owed: iset<Rule>, c: Change)
    requires Inv(p, s, owed + Brought(p, c)) && Arrived(p, s, c) && ChangeOk(p, c) && Told(p, s.facts, c)
    ensures Inv(p, s.(done := s.done + {c}), owed)
  {
    var t := s.(done := s.done + {c});
    forall rule | Unmet(p, t, rule) ensures rule in owed {
      assert !Brings(p, c, rule);
      assert Unmet(p, s, rule);
    }
  }

  /** With nothing pending, the completed changes may be forgotten. */
  lemma ForgetCompleted(p: Program, s: State, owed: iset<Rule>)
    requires Inv(p, s, owed) && s.pending == {}
    ensures Inv(p, s.(done := {}), owed)
    ensures forall rule {:trigger Premises(p, rule, s.facts)} | Premises(p, rule, s.facts) ::
      Conclusion(p, rule) in s.facts || rule in owed
  {
    var t := s.(done := {});
    forall rule | Unmet(p, t, rule) ensures rule in owed {
      assert Unmet(p, s, rule);
    }
  }

  /** When a read-modify-write misses what was stored to one of its addresses: unless a change of the store is still
      waiting, since its own address brings it nothing. */
  lemma MissedExactly(p: Program, s: State, rmw: nat, store: nat, a: nat, v: nat)
    requires rmw in p && p[rmw].kind == RMW && store in p && Writer(p[store].kind) && Compatible(store, rmw)
    requires Fact(rmw, ADDR, a) in s.facts && Fact(store, ADDR, a) in s.facts
    requires Fact(store, StoreIndex(p[store].kind), v) in s.facts
    ensures Read(rmw, store, a, v) in Missed(p, s)
      <==> Fact(rmw, RF, v) !in s.facts
           && Change(store, a, ADDR) !in s.pending - s.done
           && Change(store, v, StoreIndex(p[store].kind)) !in s.pending - s.done
  {
    var rule := Read(rmw, store, a, v);
    if Change(store, a, ADDR) in s.pending - s.done {
      assert Brings(p, Change(store, a, ADDR), rule);
    }
    if Change(store, v, StoreIndex(p[store].kind)) in s.pending - s.done {
      assert Brings(p, Change(store, v, StoreIndex(p[store].kind)), rule);
    }
  }
}
