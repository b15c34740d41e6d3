/** The planner: it registers values with the records that may get them, and processes the changes that this causes
    (planner.cc). */
module Planners {
  import opened Propagations

  type Sets = map<(nat, nat), set<nat>>
  type Table = map<nat, set<nat>>

  function SetOf(sets: Sets, r: nat, i: nat): set<nat> {
    if (r, i) in sets then sets[(r, i)] else {}
  }

  function Row(t: Table, a: nat): set<nat> {
    if a in t then t[a] else {}
  }

  function Added(t: Table, a: nat, r: nat): Table {
    t[a := Row(t, a) + {r}]
  }

  predicate OncePending(changes: seq<Change>) {
    forall i, j | 0 <= i < j < |changes| :: changes[i] != changes[j]
  }

  ghost function FactsOf(sets: Sets): iset<Fact> {
    iset x: Fact | x.val in SetOf(sets, x.rec, x.index)
  }

  function PendingOf(changes: seq<Change>): set<Change> {
    set c | c in changes
  }

  /** The planner's data: the facts, the changes, and the loads and the stores by address. */
  datatype Data = Data(s: State, loadtable: Table, storetable: Table)

  /** The tables list every reader and every writer at each of its addresses, and nothing else. */
  ghost predicate TablesOk(p: Program, d: Data) {
    && (forall r, a :: r in Row(d.loadtable, a) <==> r in p && Reader(p[r].kind) && Fact(r, ADDR, a) in d.s.facts)
    && (forall r, a :: r in Row(d.storetable, a) <==> r in p && Writer(p[r].kind) && Fact(r, ADDR, a) in d.s.facts)
  }

  /** No rule is unmet that was not owed, and every fact is among those that follow. */
  ghost predicate Sound(p: Program, d: Data, owed: iset<Rule>, lim: iset<Fact>) {
    Inv(p, d.s, owed) && TablesOk(p, d) && d.s.facts <= lim && Closed(p, lim)
  }

  /** The data with one more fact: a new address is listed. */
  function Listed(p: Program, d: Data, x: Fact): Data
    requires x.rec in p
  {
    Data(WithFact(d.s, x),
         if x.index == ADDR && Reader(p[x.rec].kind) then Added(d.loadtable, x.val, x.rec) else d.loadtable,
         if x.index == ADDR && Writer(p[x.rec].kind) then Added(d.storetable, x.val, x.rec) else d.storetable)
  }

  /** The data with one more change. */
  function Queued(d: Data, c: Change): Data {
    d.(s := WithChange(d.s, c))
  }

  lemma TablesStay(p: Program, d: Data, x: Fact)
    requires TablesOk(p, d) && x.rec in p
    ensures TablesOk(p, Listed(p, d, x))
  {
    var e := Listed(p, d, x);
    forall r, a
      ensures r in Row(e.loadtable, a) <==> r in p && Reader(p[r].kind) && Fact(r, ADDR, a) in e.s.facts
      ensures r in Row(e.storetable, a) <==> r in p && Writer(p[r].kind) && Fact(r, ADDR, a) in e.s.facts
    {
      assert r in Row(d.loadtable, a) <==> r in p && Reader(p[r].kind) && Fact(r, ADDR, a) in d.s.facts;
      assert r in Row(d.storetable, a) <==> r in p && Writer(p[r].kind) && Fact(r, ADDR, a) in d.s.facts;
    }
  }

  /** A new fact and its change. */
  lemma FactRecorded(p: Program, d: Data, owed: iset<Rule>, x: Fact, now: iset<Rule>)
    requires Inv(p, d.s, owed) && TablesOk(p, d) && FactOk(p, x) && ChangeOk(p, Announcement(p, x)) && owed <= now
    requires forall rule {:trigger Premises(p, rule, d.s.facts + iset{x})} | Premises(p, rule, d.s.facts + iset{x})
      && Uses(p, rule, x) && !Brings(p, Announcement(p, x), rule) :: rule in now
    ensures Inv(p, Queued(Listed(p, d, x), Announcement(p, x)).s, now)
    ensures TablesOk(p, Queued(Listed(p, d, x), Announcement(p, x)))
  {
    NewFact(p, d.s, owed, x, now);
    TablesStay(p, d, x);
    assert TablesOk(p, Listed(p, d, x));
  }

  /** A new fact that follows, and its change. */
  lemma FactAnnounced(p: Program, d: Data, owed: iset<Rule>, lim: iset<Fact>, x: Fact, now: iset<Rule>)
    requires Sound(p, d, owed, lim) && FactOk(p, x) && ChangeOk(p, Announcement(p, x)) && x in lim && owed <= now
    requires forall rule {:trigger Premises(p, rule, d.s.facts + iset{x})} | Premises(p, rule, d.s.facts + iset{x})
      && Uses(p, rule, x) && !Brings(p, Announcement(p, x), rule) :: rule in now
    ensures Sound(p, Queued(Listed(p, d, x), Announcement(p, x)), now, lim)
  {
    FactRecorded(p, d, owed, x, now);
  }

  /** A fact that no rule waits for: the rules that it makes apply are owed. */
  lemma FactListed(p: Program, d: Data, owed: iset<Rule>, lim: iset<Fact>, x: Fact, now: iset<Rule>)
    requires Sound(p, d, owed, lim) && FactOk(p, x) && x in lim && owed <= now
    requires forall rule {:trigger Premises(p, rule, d.s.facts + iset{x})} | Premises(p, rule, d.s.facts + iset{x})
      && Uses(p, rule, x) :: rule in now
    ensures Sound(p, Listed(p, d, x), now, lim)
  {
    PlainFact(p, d.s, owed, x, now);
    TablesStay(p, d, x);
  }

  lemma ChangeQueued(p: Program, d: Data, owed: iset<Rule>, lim: iset<Fact>, c: Change)
    requires Sound(p, d, owed, lim) && ChangeOk(p, c) && Told(p, d.s.facts, c)
    ensures Sound(p, Queued(d, c), owed, lim)
  {
    MoreChanges(p, d.s, owed, c);
    assert TablesOk(p, Queued(d, c));
  }

  lemma SoundSettled(p: Program, d: Data, owed: iset<Rule>, lim: iset<Fact>, now: iset<Rule>)
    requires Sound(p, d, owed, lim)
    requires forall rule {:trigger Premises(p, rule, d.s.facts)} | rule in owed && Premises(p, rule, d.s.facts) ::
      rule in now || Conclusion(p, rule) in d.s.facts
    ensures Sound(p, d, now, lim)
  {
    Settle(p, d.s, owed, now);
  }

  /** What follows from the facts by a rule is among those that follow. */
  lemma ConclusionFollows(p: Program, facts: iset<Fact>, lim: iset<Fact>, rule: Rule)
    requires Closed(p, lim) && facts <= lim && Premises(p, rule, facts)
    ensures Conclusion(p, rule) in lim
  {
    PremisesStay(p, rule, facts, lim);
  }

  /** Nothing changes but this record's sets, and not its addresses. */
  ghost predicate Quiet(facts: iset<Fact>, more: iset<Fact>, r: nat) {
    forall x | x in more :: x in facts || (x.rec == r && x.index != ADDR)
  }

  /** What the writer may store, the reader may read. */
  ghost predicate Pushed(p: Program, facts: iset<Fact>, store: nat, load: nat)
    requires store in p
  {
    forall v | Fact(store, StoreIndex(p[store].kind), v) in facts :: Fact(load, RF, v) in facts
  }

  /** A read of the address by the record. */
  ghost function ReadsAt(load: nat, a: nat): iset<Rule> {
    iset rule: Rule | rule.Read? && rule.load == load && rule.addr == a
  }

  lemma PushedStays(p: Program, facts: iset<Fact>, more: iset<Fact>, store: nat, load: nat, r: nat)
    requires store in p && Pushed(p, facts, store, load) && facts <= more && Quiet(facts, more, r) && store != r
    ensures Pushed(p, more, store, load)
  {
  }

  /** The goals that take the value. */
  ghost function OutputsFor(p: Program, x: Fact): iset<Rule> {
    iset rule: Rule | rule.Output? && Uses(p, rule, x)
  }

  lemma InputsStay(facts: iset<Fact>, more: iset<Fact>, r: nat, goal: Goal)
    requires facts <= more && forall x | x in more && x !in facts :: x.index == FUNCOUT
    ensures InputsIn(facts, r, goal) <==> InputsIn(more, r, goal)
  {
    if InputsIn(more, r, goal) {
      forall j | 0 <= j < |goal.inputs| ensures Fact(r, BASE + j, goal.inputs[j]) in facts {
        assert Fact(r, BASE + j, goal.inputs[j]) in more;
      }
    }
  }

  /** A phi announces its value whether it is new or not. */
  lemma PhiPassed(p: Program, d: Data, owed: iset<Rule>, lim: iset<Fact>, x: Fact)
    requires Sound(p, d, owed, lim) && FactOk(p, x) && p[x.rec].kind == FUNCTION && p[x.rec].phi && x in lim
    ensures Sound(p, Queued(Data(WithFact(d.s, x), d.loadtable, d.storetable), Announcement(p, x)), owed, lim)
  {
    FactAnnounced(p, d, owed, lim, x, owed);
  }

  /** No record gets an address. */
  ghost predicate AddressesStay(facts: iset<Fact>, more: iset<Fact>) {
    forall x | x in more :: x in facts || x.index != ADDR
  }

  lemma ToldAt(p: Program, facts: iset<Fact>, c: Change)
    requires c.rec in p && Told(p, facts, c) && (Reader(p[c.rec].kind) || Writer(p[c.rec].kind))
    requires c.index != VALOUT
    ensures Fact(c.rec, c.index, c.val) in facts
  {
  }

  lemma ToldReturn(p: Program, facts: iset<Fact>, c: Change)
    requires c.rec in p && Told(p, facts, c) && ChangeOk(p, c) && c.index == OutIndex(p[c.rec].kind)
    requires forall x | x in facts :: FactOk(p, x)
    ensures Returned(p, facts, c.rec, c.val)
  {
  }

  lemma ArrivedAtDeps(p: Program, s: State, c: Change)
    requires ProgramOk(p) && ChangeOk(p, c) && c.index == OutIndex(p[c.rec].kind)
    requires forall d | d in p[c.rec].deps && p[d.0].kind != MERGE ::
      Fact(d.0, d.1, Shifted(p, d.0, d.1, c.val)) in s.facts
    ensures Arrived(p, s, c)
  {
  }

  lemma ArrivedAtLoad(p: Program, d: Data, c: Change)
    requires TablesOk(p, d) && c.rec in p && p[c.rec].kind == LOAD && c.index == ADDR
    requires forall store | store in Row(d.storetable, c.val) && Compatible(store, c.rec) ::
      store in p && Pushed(p, d.s.facts, store, c.rec)
    ensures Arrived(p, d.s, c)
  {
  }

  lemma ArrivedFromAddress(p: Program, d: Data, c: Change)
    requires TablesOk(p, d) && c.rec in p && Writer(p[c.rec].kind) && c.index == ADDR
    requires forall load | load in Row(d.loadtable, c.val) && Compatible(c.rec, load) ::
      Pushed(p, d.s.facts, c.rec, load)
    ensures Arrived(p, d.s, c)
  {
  }

  lemma ArrivedFromValue(p: Program, d: Data, c: Change)
    requires TablesOk(p, d) && c.rec in p && Writer(p[c.rec].kind) && c.index == StoreIndex(p[c.rec].kind)
    requires forall a, load | Fact(c.rec, ADDR, a) in d.s.facts && load in Row(d.loadtable, a)
      && Compatible(c.rec, load) :: Fact(load, RF, c.val) in d.s.facts
    ensures Arrived(p, d.s, c)
  {
  }

  /** Every change that can ever be pending: finitely many, since values are machine words. */
  ghost function Universe(p: Program): set<Change> {
    set r, v, i | r in p.Keys && 0 <= v < WORDS && 0 <= i < 6 :: Change(r, v, i)
  }

  lemma ChangeTaken(p: Program, d: Data, owed: iset<Rule>, lim: iset<Fact>, c: Change, e: Data)
    requires Sound(p, d, owed, lim) && d.s.pending == e.s.pending + {c} && e == d.(s := d.s.(pending := e.s.pending))
    ensures ChangeOk(p, c) && Told(p, e.s.facts, c) && c in Universe(p)
    ensures Sound(p, e, owed + Brought(p, c), lim) && (c in d.s.done ==> Sound(p, e, owed, lim))
  {
    TakeChange(p, d.s, owed, c, e.s.pending);
    assert TablesOk(p, e);
  }

  lemma ChangeFinished(p: Program, d: Data, owed: iset<Rule>, lim: iset<Fact>, c: Change)
    requires Sound(p, d, owed + Brought(p, c), lim) && Arrived(p, d.s, c) && ChangeOk(p, c) && Told(p, d.s.facts, c)
    ensures Sound(p, d.(s := d.s.(done := d.s.done + {c})), owed, lim)
  {
    FinishChange(p, d.s, owed, c);
    assert TablesOk(p, d.(s := d.s.(done := d.s.done + {c})));
  }

  /** Listing an address that is there changes nothing. */
  lemma ListedTwice(p: Program, d: Data, x: Fact)
    requires TablesOk(p, d) && x.rec in p && x in d.s.facts
    ensures Listed(p, d, x) == d
  {
    assert WithFact(d.s, x).facts == d.s.facts;
    if x.index == ADDR && Reader(p[x.rec].kind) {
      assert x.rec in Row(d.loadtable, x.val);
      assert d.loadtable[x.val] == Row(d.loadtable, x.val) + {x.rec};
      assert Added(d.loadtable, x.val, x.rec) == d.loadtable;
    }
    if x.index == ADDR && Writer(p[x.rec].kind) {
      assert x.rec in Row(d.storetable, x.val);
      assert d.storetable[x.val] == Row(d.storetable, x.val) + {x.rec};
      assert Added(d.storetable, x.val, x.rec) == d.storetable;
    }
  }

  class Planner {
    const p: Program
    var sets: Sets
    var storetable: Table
    var loadtable: Table
    var changeset: seq<Change>
    var completedset: set<Change>

    ghost function State(): State
      reads this
    {
      Propagations.State(FactsOf(sets), PendingOf(changeset), completedset)
    }

    ghost function Current(): Data
      reads this
    {
      Data(State(), loadtable, storetable)
    }

    ghost predicate Good(owed: iset<Rule>, lim: iset<Fact>)
      reads this
    {
      Sound(p, Current(), owed, lim) && OncePending(changeset)
    }

    ghost predicate Valid()
      reads this
    {
      && ProgramOk(p) && FactsOk(p, State()) && ChangesOk(p, State()) && TablesOk(p, Current())
      && OncePending(changeset)
    }

    constructor (p: Program)
      requires ProgramOk(p)
      ensures Valid() && this.p == p && State() == Propagations.State(iset{}, {}, {})
    {
      this.p := p;
      sets, storetable, loadtable, changeset, completedset := map[], map[], map[], [], {};
    }

    /** HashSet::add on a value set: true if the value is new. */
    method AddValue(r: nat, i: nat, v: nat) returns (isNew: bool)
      modifies this`sets
      ensures isNew <==> Fact(r, i, v) !in old(State().facts)
      ensures State() == if isNew then WithFact(old(State()), Fact(r, i, v)) else old(State())
    {
      isNew := v !in SetOf(sets, r, i);
      if isNew {
        sets := sets[(r, i) := SetOf(sets, r, i) + {v}];
      }
    }

    /** addChange: the change is pending, behind all that were; none is pending twice. */
    method AddChange(c: Change)
      modifies this`changeset
      ensures changeset == if c in old(changeset) then old(changeset) else old(changeset) + [c]
      ensures old(OncePending(changeset)) ==> OncePending(changeset)
      ensures State() == WithChange(old(State()), c)
    {
      if c !in changeset {
        changeset := changeset + [c];
      }
    }

    method AddLoadTable(a: nat, r: nat)
      modifies this`loadtable
      ensures loadtable == Added(old(loadtable), a, r)
    {
      loadtable := Added(loadtable, a, r);
    }

    method AddStoreTable(a: nat, r: nat)
      modifies this`storetable
      ensures storetable == Added(old(storetable), a, r)
    {
      storetable := Added(storetable, a, r);
    }

    // -------------------------------------------------------------- registering a value

    /** registerLoadValue: the value is in the set; a new address is listed, and a new value announced. */
    method RegisterLoadValue(r: nat, val0: nat, index: nat, ghost owed: iset<Rule>, ghost lim: iset<Fact>)
      requires Good(owed, lim) && r in p && p[r].kind == LOAD && val0 < WORDS && (index == ADDR || index == RF)
      requires Fact(r, index, Shifted(p, r, index, val0)) in lim
      modifies this`sets, this`loadtable, this`changeset
      ensures Good(owed, lim) && (index == RF ==> loadtable == old(loadtable))
      ensures var val := if index == ADDR then (val0 + p[r].offset) % WORDS else val0;
        && State().facts == old(State().facts) + iset{Fact(r, index, val)}
        && State().pending == old(State().pending)
             + if Fact(r, index, val) in old(State().facts) then {}
               else {Change(r, val, if index == ADDR then ADDR else VALOUT)}
    {
      ghost var d := Current();
      var val := if index == ADDR then (val0 + p[r].offset) % WORDS else val0;
      ghost var x := Fact(r, index, val);
      FactAnnounced(p, d, owed, lim, x, owed);
      var isNew := AddValue(r, index, val);
      if isNew {
        if index == ADDR {
          AddLoadTable(val, r);
          AddChange(Change(r, val, ADDR));
        } else {
          AddChange(Change(r, val, VALOUT));
        }
        assert Current() == Queued(Listed(p, d, x), Announcement(p, x));
      } else {
        assert Current() == d;
      }
    }

    /** registerStoreValue: the value is in the set, a new address is listed, and the change is pending. */
    method RegisterStoreValue(r: nat, val0: nat, index: nat, ghost owed: iset<Rule>, ghost lim: iset<Fact>)
      requires Good(owed, lim) && r in p && p[r].kind == STORE && val0 < WORDS && (index == ADDR || index == BASE)
      requires Fact(r, index, Shifted(p, r, index, val0)) in lim
      modifies this`sets, this`storetable, this`changeset
      ensures Good(owed, lim)
      ensures var val := if index == ADDR then (val0 + p[r].offset) % WORDS else val0;
        && State().facts == old(State().facts) + iset{Fact(r, index, val)}
        && State().pending == old(State().pending) + {Change(r, val, index)}
    {
      ghost var d := Current();
      var val := if index == ADDR then (val0 + p[r].offset) % WORDS else val0;
      ghost var x := Fact(r, index, val);
      FactAnnounced(p, d, owed, lim, x, owed);
      var isNew := AddValue(r, index, val);
      if index == ADDR {
        if isNew {
          AddStoreTable(val, r);
        }
        AddChange(Change(r, val, index));
      } else {
        AddChange(Change(r, val, index));
      }
      if isNew {
        assert Current() == Queued(Listed(p, d, x), Announcement(p, x));
      } else {
        assert Fact(r, index, val) in d.s.facts && Announcement(p, x) == Change(r, val, index);
        ChangeQueued(p, d, owed, lim, Change(r, val, index));
        assert Current() == Queued(d, Change(r, val, index));
      }
    }

    /** A value that the read-modify-write may store, and its change if it is new. */
    method AddRMWOut(r: nat, val: nat, ghost owed: iset<Rule>, ghost lim: iset<Fact>)
      requires Good(owed, lim) && r in p && p[r].kind == RMW && val < WORDS && Fact(r, RMWOUT, val) in lim
      modifies this`sets, this`changeset
      ensures Good(owed, lim)
      ensures State().facts == old(State().facts) + iset{Fact(r, RMWOUT, val)}
      ensures State().pending == old(State().pending)
        + if Fact(r, RMWOUT, val) in old(State().facts) then {} else {Change(r, val, RMWOUT)}
    {
      ghost var d := Current();
      ghost var x := Fact(r, RMWOUT, val);
      FactAnnounced(p, d, owed, lim, x, owed);
      var isNew := AddValue(r, RMWOUT, val);
      if isNew {
        AddChange(Change(r, val, RMWOUT));
        assert Current() == Queued(Listed(p, d, x), Announcement(p, x));
      } else {
        assert Current() == d;
      }
    }

    /** doRMWRFChange: the value read is returned, and a compare-and-swap may store it again. */
    method DoRMWRFChange(r: nat, readval: nat, ghost d: Data, ghost owed: iset<Rule>, ghost lim: iset<Fact>)
      requires Sound(p, d, owed, lim) && OncePending(changeset) && r in p && p[r].kind == RMW && readval < WORDS
      requires Fact(r, RF, readval) in lim && Current() == Listed(p, d, Fact(r, RF, readval))
      modifies this`sets, this`changeset
      ensures Good(owed, lim) && Grows(d.s, State()) && Change(r, readval, VALOUT) in State().pending
      ensures State().facts == d.s.facts + iset{Fact(r, RF, readval)}
        + if p[r].op == CAS then iset{Fact(r, RMWOUT, readval)} else iset{}
    {
      ghost var x, again := Fact(r, RF, readval), Again(r, RF, readval);
      FactAnnounced(p, d, owed, lim, x, owed + iset{again});
      AddChange(Change(r, readval, VALOUT));
      assert Current() == Queued(Listed(p, d, x), Announcement(p, x));
      if p[r].op == CAS {
        ConclusionFollows(p, State().facts, lim, again);
        AddRMWOut(r, readval, owed + iset{again}, lim);
      }
      SoundSettled(p, Current(), owed + iset{again}, lim, owed);
    }

    /** doRMWBaseChange: only a compare-and-swap passes its operand on. */
    method DoRMWBaseChange(r: nat, baseval: nat, ghost d: Data, ghost owed: iset<Rule>, ghost lim: iset<Fact>)
      requires Sound(p, d, owed, lim) && OncePending(changeset) && r in p && p[r].kind == RMW && baseval < WORDS
      requires Fact(r, BASE, baseval) in lim && Current() == Listed(p, d, Fact(r, BASE, baseval))
      modifies this`sets, this`changeset
      ensures Good(owed, lim) && Grows(d.s, State())
      ensures State().facts == d.s.facts + iset{Fact(r, BASE, baseval)}
        + if p[r].op == CAS then iset{Fact(r, RMWOUT, baseval)} else iset{}
    {
      ghost var x, again := Fact(r, BASE, baseval), Again(r, BASE, baseval);
      FactListed(p, d, owed, lim, x, owed + iset{again});
      if p[r].op == CAS {
        ConclusionFollows(p, State().facts, lim, again);
        AddRMWOut(r, baseval, owed + iset{again}, lim);
      }
      SoundSettled(p, Current(), owed + iset{again}, lim, owed);
    }

    /** registerRMWValue for a value read. */
    method RegisterRMWRead(r: nat, val: nat, ghost owed: iset<Rule>, ghost lim: iset<Fact>)
      requires Good(owed, lim) && r in p && p[r].kind == RMW && val < WORDS && Fact(r, RF, val) in lim
      modifies this`sets, this`changeset
      ensures Good(owed, lim) && Grows(old(State()), State()) && Fact(r, RF, val) in State().facts
      ensures Quiet(old(State().facts), State().facts, r)
      ensures Fact(r, RF, val) !in old(State().facts) ==>
        && Change(r, val, VALOUT) in State().pending
        && (p[r].op == CAS ==> Fact(r, RMWOUT, val) in State().facts)
    {
      ghost var d := Current();
      var isNew := AddValue(r, RF, val);
      if isNew {
        assert Current() == Listed(p, d, Fact(r, RF, val));
        DoRMWRFChange(r, val, d, owed, lim);
      } else {
        assert Current() == d;
      }
    }

    /** registerValue for a value read. */
    method RegisterRead(r: nat, val: nat, ghost owed: iset<Rule>, ghost lim: iset<Fact>)
      requires Good(owed, lim) && r in p && Reader(p[r].kind) && val < WORDS && Fact(r, RF, val) in lim
      modifies this`sets, this`loadtable, this`changeset
      ensures Good(owed, lim) && Grows(old(State()), State()) && Fact(r, RF, val) in State().facts
      ensures Quiet(old(State().facts), State().facts, r) && loadtable == old(loadtable)
    {
      if p[r].kind == LOAD {
        RegisterLoadValue(r, val, RF, owed, lim);
      } else {
        RegisterRMWRead(r, val, owed, lim);
      }
    }

    /** The values of one store are registered with a load or a read-modify-write. */
    method PushValues(load: nat, values: set<nat>, ghost owed: iset<Rule>, ghost lim: iset<Fact>)
      requires Good(owed, lim) && load in p && Reader(p[load].kind)
      requires forall v | v in values :: v < WORDS && Fact(load, RF, v) in lim
      modifies this`sets, this`loadtable, this`changeset
      ensures Good(owed, lim) && Grows(old(State()), State()) && loadtable == old(loadtable)
      ensures Quiet(old(State().facts), State().facts, load)
      ensures forall v | v in values :: Fact(load, RF, v) in State().facts
    {
      ghost var s := State();
      var todo := values;
      while todo != {}
        invariant Good(owed, lim) && Grows(s, State()) && loadtable == old(loadtable) && todo <= values
        invariant Quiet(s.facts, State().facts, load)
        invariant forall v | v in values && v !in todo :: Fact(load, RF, v) in State().facts
      {
        var v :| v in todo;
        todo := todo - {v};
        RegisterRead(load, v, owed, lim);
      }
    }

    /** The values of a store to one of the reader's addresses. */
    method PushStore(load: nat, store: nat, ghost a: nat, ghost owed: iset<Rule>, ghost lim: iset<Fact>)
      requires Good(owed, lim) && load in p && Reader(p[load].kind) && Compatible(store, load)
      requires store in p && Writer(p[store].kind)
      requires Fact(store, ADDR, a) in State().facts && Fact(load, ADDR, a) in State().facts
      modifies this`sets, this`loadtable, this`changeset
      ensures Good(owed, lim) && Grows(old(State()), State()) && loadtable == old(loadtable)
      ensures Quiet(old(State().facts), State().facts, load) && Pushed(p, State().facts, store, load)
    {
      var values := SetOf(sets, store, StoreIndex(p[store].kind));
      forall v | v in values ensures v < WORDS && Fact(load, RF, v) in lim {
        assert Fact(store, StoreIndex(p[store].kind), v) in State().facts;
        ConclusionFollows(p, State().facts, lim, Read(load, store, a, v));
      }
      PushValues(load, values, owed, lim);
    }

    /** The loop of doRMWNewAddrChange over the stores to the address. */
    method ReadStores(r: nat, val: nat, ghost owed: iset<Rule>, ghost lim: iset<Fact>)
      requires Good(owed, lim) && r in p && Reader(p[r].kind) && Fact(r, ADDR, val) in State().facts
      modifies this`sets, this`loadtable, this`changeset
      ensures Good(owed, lim) && Grows(old(State()), State()) && loadtable == old(loadtable)
      ensures Quiet(old(State().facts), State().facts, r)
      ensures forall store | store in Row(storetable, val) && Compatible(store, r) ::
        store in p && Pushed(p, State().facts, store, r)
    {
      ghost var s := State();
      var stores := Row(storetable, val);
      while stores != {}
        invariant Good(owed, lim) && Grows(s, State()) && loadtable == old(loadtable)
        invariant Quiet(s.facts, State().facts, r) && stores <= Row(storetable, val)
        invariant forall store | store in Row(storetable, val) && store !in stores && Compatible(store, r) ::
          store in p && Pushed(p, State().facts, store, r)
      {
        var store :| store in stores;
        stores := stores - {store};
        if Compatible(store, r) {
          ghost var facts := State().facts;
          PushStore(r, store, val, owed, lim);
          forall other | other in Row(storetable, val) && other !in stores && Compatible(other, r)
            ensures other in p && Pushed(p, State().facts, other, r)
          {
            if other != store {
              PushedStays(p, facts, State().facts, other, r, r);
            }
          }
        }
      }
    }

    /** doRMWNewAddrChange: the read-modify-write becomes a load and a store of the address, and reads what the stores
        to it may have written. */
    method DoRMWNewAddrChange(r: nat, val: nat, ghost d: Data, ghost owed: iset<Rule>, ghost lim: iset<Fact>)
      requires Sound(p, d, owed, lim) && OncePending(changeset) && r in p && p[r].kind == RMW && val < WORDS
      requires Fact(r, ADDR, val) in lim
      requires Current() == d.(s := WithFact(d.s, Fact(r, ADDR, val)))
      modifies this`sets, this`loadtable, this`storetable, this`changeset
      ensures Good(owed, lim) && Grows(d.s, State()) && Change(r, val, ADDR) in State().pending
      ensures Fact(r, ADDR, val) in State().facts
      ensures r in Row(loadtable, val) && r in Row(storetable, val)
      ensures forall store | store in Row(storetable, val) && Compatible(store, r) ::
        store in p && Pushed(p, State().facts, store, r)
    {
      ghost var x, now := Fact(r, ADDR, val), owed + ReadsAt(r, val);
      FactAnnounced(p, d, owed, lim, x, now);
      AddLoadTable(val, r);
      AddStoreTable(val, r);
      AddChange(Change(r, val, ADDR));
      assert Current() == Queued(Listed(p, d, x), Announcement(p, x));
      ReadStores(r, val, now, lim);
      SoundSettled(p, Current(), now, lim, owed);
    }

    /** registerRMWValue: addresses, values read and operands. */
    method RegisterRMWValue(r: nat, val0: nat, index: nat, ghost owed: iset<Rule>, ghost lim: iset<Fact>)
      requires Good(owed, lim) && r in p && p[r].kind == RMW && val0 < WORDS && TargetOk(RMW, index)
      requires Fact(r, index, Shifted(p, r, index, val0)) in lim
      modifies this`sets, this`loadtable, this`storetable, this`changeset
      ensures Good(owed, lim) && Grows(old(State()), State())
      ensures var val := if index == ADDR then (val0 + p[r].offset) % WORDS else val0;
        && Fact(r, index, val) in State().facts
        && (Fact(r, index, val) !in old(State().facts) ==>
              && (index == ADDR ==> Change(r, val, ADDR) in State().pending)
              && (index == RF ==> Change(r, val, VALOUT) in State().pending)
              && ((index == RF || index == BASE) && p[r].op == CAS ==> Fact(r, RMWOUT, val) in State().facts))
    {
      ghost var d := Current();
      if index == RF {
        RegisterRMWRead(r, val0, owed, lim);
        return;
      }
      var val := if index == ADDR then (val0 + p[r].offset) % WORDS else val0;
      ghost var x := Fact(r, index, val);
      var isNew := AddValue(r, index, val);
      if isNew {
        assert Current() == d.(s := WithFact(d.s, x));
        if index == ADDR {
          DoRMWNewAddrChange(r, val, d, owed, lim);
        } else if index == BASE {
          DoRMWBaseChange(r, val, d, owed, lim);
        } else {
          FactListed(p, d, owed, lim, x, owed);
        }
      } else {
        assert Current() == d;
      }
    }

    /** evalGoal: the output is possible when all inputs are. */
    method EvalGoal(r: nat, goal: Goal, ghost owed: iset<Rule>, ghost lim: iset<Fact>)
      requires Good(owed, lim) && r in p && p[r].kind == FUNCTION && !p[r].phi && p[r].sharedGoals
      requires goal in p[r].goals
      modifies this`sets, this`changeset
      ensures Good(owed, lim)
      ensures State().facts == old(State().facts)
        + if InputsIn(old(State().facts), r, goal) then iset{Fact(r, FUNCOUT, goal.output)} else iset{}
      ensures State().pending == old(State().pending)
        + if InputsIn(old(State().facts), r, goal) && Fact(r, FUNCOUT, goal.output) !in old(State().facts)
          then {Change(r, goal.output, FUNCOUT)} else {}
    {
      ghost var d := Current();
      var i := 0;
      while i < |goal.inputs|
        invariant 0 <= i <= |goal.inputs|
        invariant forall j | 0 <= j < i :: Fact(r, BASE + j, goal.inputs[j]) in State().facts
      {
        if goal.inputs[i] !in SetOf(sets, r, BASE + i) {
          assert Fact(r, BASE + i, goal.inputs[i]) !in State().facts;
          return;
        }
        i := i + 1;
      }
      ghost var x := Fact(r, FUNCOUT, goal.output);
      ConclusionFollows(p, State().facts, lim, Output(r, goal));
      FactAnnounced(p, d, owed, lim, x, owed);
      var isNew := AddValue(r, FUNCOUT, goal.output);
      if isNew {
        AddChange(Change(r, goal.output, FUNCOUT));
        assert Current() == Queued(Listed(p, d, x), Announcement(p, x));
      } else {
        assert Current() == d;
      }
    }

    /** The loop of registerFunctionValue: the goals that take the new value. */
    method EvalGoals(r: nat, val: nat, index: nat, ghost owed: iset<Rule>, ghost lim: iset<Fact>)
      requires Good(owed, lim) && r in p && p[r].kind == FUNCTION && !p[r].phi && p[r].sharedGoals && index >= BASE
      modifies this`sets, this`changeset
      ensures Good(owed, lim) && Grows(old(State()), State())
      ensures forall x | x in State().facts && x !in old(State().facts) :: x.index == FUNCOUT
      ensures forall goal | goal in p[r].goals && Uses(p, Output(r, goal), Fact(r, index, val))
        && InputsIn(State().facts, r, goal) :: Fact(r, FUNCOUT, goal.output) in State().facts
    {
      ghost var s := State();
      var i := 0;
      while i < |p[r].goals|
        invariant 0 <= i <= |p[r].goals| && Good(owed, lim) && Grows(s, State())
        invariant forall x | x in State().facts && x !in s.facts :: x.index == FUNCOUT
        invariant forall k | 0 <= k < i && Uses(p, Output(r, p[r].goals[k]), Fact(r, index, val))
          && InputsIn(s.facts, r, p[r].goals[k]) :: Fact(r, FUNCOUT, p[r].goals[k].output) in State().facts
      {
        var goal := p[r].goals[i];
        if index < BASE + |goal.inputs| && goal.inputs[index - BASE] == val {
          InputsStay(s.facts, State().facts, r, goal);
          EvalGoal(r, goal, owed, lim);
        }
        i := i + 1;
      }
      forall goal | goal in p[r].goals && InputsIn(State().facts, r, goal) ensures InputsIn(s.facts, r, goal) {
        InputsStay(s.facts, State().facts, r, goal);
      }
    }

    /** registerFunctionValue: a phi passes the value on; another function, whose goals are shared, may now have all
        inputs of a goal. */
    method RegisterFunctionValue(r: nat, val: nat, index: nat, ghost owed: iset<Rule>, ghost lim: iset<Fact>)
      requires Good(owed, lim) && r in p && p[r].kind == FUNCTION && val < WORDS && index >= BASE
      requires Fact(r, index, val) in lim
      modifies this`sets, this`changeset
      ensures Good(owed, lim) && Grows(old(State()), State()) && Fact(r, index, val) in State().facts
      ensures p[r].phi ==> Change(r, val, FUNCOUT) in State().pending
      ensures !p[r].phi && p[r].sharedGoals && Fact(r, index, val) !in old(State().facts) ==>
        forall goal | goal in p[r].goals && Uses(p, Output(r, goal), Fact(r, index, val))
          && InputsIn(State().facts, r, goal) :: Fact(r, FUNCOUT, goal.output) in State().facts
    {
      ghost var d, x := Current(), Fact(r, index, val);
      var isNew := AddValue(r, index, val);
      if p[r].phi {
        AddChange(Change(r, val, FUNCOUT));
        PhiPassed(p, d, owed, lim, x);
        assert Current() == Queued(Data(WithFact(d.s, x), d.loadtable, d.storetable), Announcement(p, x));
      } else if isNew && p[r].sharedGoals {
        ghost var now := owed + OutputsFor(p, x);
        FactListed(p, d, owed, lim, x, now);
        assert Current() == Listed(p, d, x);
        EvalGoals(r, val, index, now, lim);
        SoundSettled(p, Current(), now, lim, owed);
      } else if isNew {
        FactListed(p, d, owed, lim, x, owed);
        assert Current() == Listed(p, d, x);
      } else {
        assert Current() == d;
      }
    }

    /** registerValue: unless the record merges branches, the value is in its set. */
    method RegisterValue(r: nat, val: nat, index: nat, ghost owed: iset<Rule>, ghost lim: iset<Fact>)
      requires Good(owed, lim) && r in p && val < WORDS && TargetOk(p[r].kind, index)
      requires p[r].kind != MERGE ==> Fact(r, index, Shifted(p, r, index, val)) in lim
      modifies this`sets, this`loadtable, this`storetable, this`changeset
      ensures Good(owed, lim) && Grows(old(State()), State())
      ensures p[r].kind != MERGE ==> Fact(r, index, Shifted(p, r, index, val)) in State().facts
    {
      match p[r].kind
      case LOAD => RegisterLoadValue(r, val, index, owed, lim);
      case RMW => RegisterRMWValue(r, val, index, owed, lim);
      case STORE => RegisterStoreValue(r, val, index, owed, lim);
      case FUNCTION => RegisterFunctionValue(r, val, index, owed, lim);
      case MERGE =>
      case _ => RegisterInput(r, val, index, owed, lim);
    }

    /** registerEqualsValue and registerBranchValue. */
    method RegisterInput(r: nat, val: nat, index: nat, ghost owed: iset<Rule>, ghost lim: iset<Fact>)
      requires Good(owed, lim) && r in p && (p[r].kind == EQUALS || p[r].kind == BRANCHDIR) && val < WORDS
      requires index >= BASE && Fact(r, index, val) in lim
      modifies this`sets
      ensures Good(owed, lim) && State().facts == old(State().facts) + iset{Fact(r, index, val)}
      ensures State().pending == old(State().pending)
    {
      ghost var d := Current();
      FactListed(p, d, owed, lim, Fact(r, index, val), owed);
      var isNew := AddValue(r, index, val);
      assert Current() == if isNew then Listed(p, d, Fact(r, index, val)) else d;
    }

    // -------------------------------------------------------------- processing a change

    /** processNewReturnValue: the value is registered with every record that depends on it. */
    method ProcessNewReturnValue(c: Change, ghost owed: iset<Rule>, ghost lim: iset<Fact>)
      requires Good(owed, lim) && ChangeOk(p, c) && c.index == OutIndex(p[c.rec].kind)
      requires Returned(p, State().facts, c.rec, c.val)
      modifies this`sets, this`loadtable, this`storetable, this`changeset
      ensures Good(owed, lim) && Grows(old(State()), State())
      ensures forall d | d in p[c.rec].deps && p[d.0].kind != MERGE ::
        Fact(d.0, d.1, Shifted(p, d.0, d.1, c.val)) in State().facts
    {
      ghost var s := State();
      var deps := p[c.rec].deps;
      var i := 0;
      while i < |deps|
        invariant 0 <= i <= |deps| && Good(owed, lim) && Grows(s, State())
        invariant forall k | 0 <= k < i && p[deps[k].0].kind != MERGE ::
          Fact(deps[k].0, deps[k].1, Shifted(p, deps[k].0, deps[k].1, c.val)) in State().facts
      {
        assert deps[i] in p[c.rec].deps;
        if p[deps[i].0].kind != MERGE {
          ConclusionFollows(p, s.facts, lim, Pass(c.rec, deps[i].0, deps[i].1, c.val));
        }
        RegisterValue(deps[i].0, c.val, deps[i].1, owed, lim);
        i := i + 1;
      }
    }

    /** processNewLoadAddress: the load gets what all stores to the address may have written. */
    method ProcessNewLoadAddress(c: Change, ghost owed: iset<Rule>, ghost lim: iset<Fact>)
      requires Good(owed, lim) && ChangeOk(p, c) && p[c.rec].kind == LOAD && c.index == ADDR
      requires Fact(c.rec, ADDR, c.val) in State().facts
      modifies this`sets, this`loadtable, this`storetable, this`changeset
      ensures Good(owed, lim) && Grows(old(State()), State())
      ensures forall store | store in Row(storetable, c.val) && Compatible(store, c.rec) ::
        store in p && Pushed(p, State().facts, store, c.rec)
    {
      ReadStores(c.rec, c.val, owed, lim);
    }

    /** processNewStoreAddress: the values of the store go to all loads of the address. */
    method ProcessNewStoreAddress(c: Change, ghost owed: iset<Rule>, ghost lim: iset<Fact>)
      requires Good(owed, lim) && ChangeOk(p, c) && Writer(p[c.rec].kind) && c.index == ADDR
      requires Fact(c.rec, ADDR, c.val) in State().facts
      modifies this`sets, this`loadtable, this`changeset
      ensures Good(owed, lim) && Grows(old(State()), State())
      ensures forall load | load in Row(loadtable, c.val) && Compatible(c.rec, load) ::
        Pushed(p, State().facts, c.rec, load)
    {
      ghost var s := State();
      var loads := Row(loadtable, c.val);
      while loads != {}
        invariant Good(owed, lim) && Grows(s, State()) && loadtable == old(loadtable) && loads <= Row(loadtable, c.val)
        invariant forall load | load in Row(loadtable, c.val) && load !in loads && Compatible(c.rec, load) ::
          Pushed(p, State().facts, c.rec, load)
      {
        var load :| load in loads;
        loads := loads - {load};
        if Compatible(c.rec, load) {
          ghost var facts := State().facts;
          PushStore(load, c.rec, c.val, owed, lim);
          forall other | other in Row(loadtable, c.val) && other !in loads && Compatible(c.rec, other)
            ensures Pushed(p, State().facts, c.rec, other)
          {
            if other != load {
              PushedStays(p, facts, State().facts, c.rec, other, load);
            }
          }
        }
      }
    }

    /** processNewStoreValue: the value goes to all loads of the store's addresses. */
    method ProcessNewStoreValue(c: Change, ghost owed: iset<Rule>, ghost lim: iset<Fact>)
      requires Good(owed, lim) && ChangeOk(p, c) && Writer(p[c.rec].kind) && c.index == StoreIndex(p[c.rec].kind)
      requires Fact(c.rec, c.index, c.val) in State().facts
      modifies this`sets, this`loadtable, this`changeset
      ensures Good(owed, lim) && Grows(old(State()), State())
      ensures forall a, load | Fact(c.rec, ADDR, a) in State().facts && load in Row(loadtable, a)
        && Compatible(c.rec, load) :: Fact(load, RF, c.val) in State().facts
    {
      ghost var s := State();
      var addrs := SetOf(sets, c.rec, ADDR);
      assert forall a :: a in addrs <==> Fact(c.rec, ADDR, a) in s.facts;
      while addrs != {}
        invariant Good(owed, lim) && Grows(s, State()) && loadtable == old(loadtable)
        invariant AddressesStay(s.facts, State().facts)
        invariant forall a | a in addrs :: Fact(c.rec, ADDR, a) in s.facts
        invariant forall a, load | Fact(c.rec, ADDR, a) in s.facts && a !in addrs && load in Row(loadtable, a)
          && Compatible(c.rec, load) :: Fact(load, RF, c.val) in State().facts
      {
        var a :| a in addrs;
        addrs := addrs - {a};
        PushToLoads(c, a, owed, lim);
      }
    }

    /** The inner loop of processNewStoreValue. */
    method PushToLoads(c: Change, a: nat, ghost owed: iset<Rule>, ghost lim: iset<Fact>)
      requires Good(owed, lim) && ChangeOk(p, c) && Writer(p[c.rec].kind) && c.index == StoreIndex(p[c.rec].kind)
      requires Fact(c.rec, c.index, c.val) in State().facts && Fact(c.rec, ADDR, a) in State().facts
      modifies this`sets, this`loadtable, this`changeset
      ensures Good(owed, lim) && Grows(old(State()), State()) && loadtable == old(loadtable)
      ensures AddressesStay(old(State().facts), State().facts)
      ensures forall load | load in Row(loadtable, a) && Compatible(c.rec, load) ::
        Fact(load, RF, c.val) in State().facts
    {
      ghost var s := State();
      var loads := Row(loadtable, a);
      while loads != {}
        invariant Good(owed, lim) && Grows(s, State()) && loadtable == old(loadtable) && loads <= Row(loadtable, a)
        invariant AddressesStay(s.facts, State().facts)
        invariant forall load | load in Row(loadtable, a) && load !in loads && Compatible(c.rec, load) ::
          Fact(load, RF, c.val) in State().facts
      {
        var load :| load in loads;
        loads := loads - {load};
        if Compatible(c.rec, load) {
          ConclusionFollows(p, State().facts, lim, Read(load, c.rec, a, c.val));
          RegisterRead(load, c.val, owed, lim);
        }
      }
    }

    /** A new address or a new value of a store or a read-modify-write. */
    method ProcessWriter(c: Change, ghost owed: iset<Rule>, ghost lim: iset<Fact>)
      requires Good(owed, lim) && ChangeOk(p, c) && Writer(p[c.rec].kind) && Told(p, State().facts, c)
      requires c.index == ADDR || c.index == StoreIndex(p[c.rec].kind)
      modifies this`sets, this`loadtable, this`storetable, this`changeset
      ensures Good(owed, lim) && Grows(old(State()), State()) && Arrived(p, State(), c)
    {
      ToldAt(p, State().facts, c);
      if c.index == ADDR {
        ProcessNewStoreAddress(c, owed, lim);
        ArrivedFromAddress(p, Current(), c);
      } else {
        ProcessNewStoreValue(c, owed, lim);
        ArrivedFromValue(p, Current(), c);
      }
    }

    /** Processing a change applies all rules that it brings. */
    method Process(c: Change, ghost owed: iset<Rule>, ghost lim: iset<Fact>)
      requires Good(owed, lim) && ChangeOk(p, c) && Told(p, State().facts, c)
      modifies this`sets, this`loadtable, this`storetable, this`changeset
      ensures Good(owed, lim) && Grows(old(State()), State()) && Arrived(p, State(), c)
    {
      match p[c.rec].kind
      case LOAD =>
        if c.index == ADDR {
          ToldAt(p, State().facts, c);
          ProcessNewLoadAddress(c, owed, lim);
          ArrivedAtLoad(p, Current(), c);
        } else {
          ProcessReturn(c, owed, lim);
        }
      case STORE =>
        ProcessWriter(c, owed, lim);
      case RMW =>
        if c.index == ADDR || c.index == RMWOUT {
          ProcessWriter(c, owed, lim);
        } else {
          ProcessReturn(c, owed, lim);
        }
      case FUNCTION =>
        ProcessReturn(c, owed, lim);
      case EQUALS =>
        ProcessReturn(c, owed, lim);
      case _ =>
        assert false;
    }

    method ProcessReturn(c: Change, ghost owed: iset<Rule>, ghost lim: iset<Fact>)
      requires Good(owed, lim) && ChangeOk(p, c) && Told(p, State().facts, c) && c.index == OutIndex(p[c.rec].kind)
      modifies this`sets, this`loadtable, this`storetable, this`changeset
      ensures Good(owed, lim) && Grows(old(State()), State()) && Arrived(p, State(), c)
    {
      ToldReturn(p, State().facts, c);
      ProcessNewReturnValue(c, owed, lim);
      ArrivedAtDeps(p, State(), c);
    }

    /** processChanges: it ends with nothing pending. Every rule that applies has then been applied, except for rules
        that were not going to be when it started; and only what follows by the rules has been added. If no rule was
        missed, the facts are the least closed set around those that it started with. */
    method ProcessChanges()
      requires Valid() && completedset == {}
      modifies this
      ensures Valid() && changeset == [] && completedset == {}
      ensures old(State().facts) <= State().facts <= Least(p, old(State().facts))
      ensures forall rule {:trigger Premises(p, rule, State().facts)} | Premises(p, rule, State().facts) ::
        Conclusion(p, rule) in State().facts || rule in Missed(p, old(State()))
      ensures Missed(p, old(State())) == iset{} ==> State().facts == Least(p, old(State().facts))
    {
      ghost var s, owed, lim := State(), Missed(p, State()), Least(p, State().facts);
      LeastIsClosed(p, s.facts);
      while changeset != []
        invariant Good(owed, lim) && s.facts <= State().facts && completedset <= Universe(p)
        decreases Universe(p) - completedset, |changeset|
      {
        var change := changeset[0];
        ghost var d := Current();
        changeset := changeset[1..];
        ChangeTaken(p, d, owed, lim, change, Current());
        if change !in completedset {
          Process(change, owed + Brought(p, change), lim);
          ghost var e := Current();
          completedset := completedset + {change};
          ChangeFinished(p, e, owed, lim, change);
        }
      }
      ghost var e := Current();
      completedset := {};
      ForgetCompleted(p, e.s, owed);
      if owed == iset{} {
        ClosedIsLeast(p, s.facts, State().facts);
      }
    }

    // -------------------------------------------------------------- recording

    /** A load as an execution records it (recordLoadChange, addLoadTable): no rule is missed because of it. */
    method RecordLoad(load: nat, addr: nat)
      requires Valid() && load in p && p[load].kind == LOAD && addr < WORDS
      modifies this`sets, this`loadtable, this`changeset
      ensures Valid() && Missed(p, State()) <= Missed(p, old(State()))
      ensures State().facts == old(State().facts) + iset{Fact(load, ADDR, addr)}
    {
      ghost var d, owed, x := Current(), Missed(p, State()), Fact(load, ADDR, addr);
      FactRecorded(p, d, owed, x, owed);
      var isNew := AddValue(load, ADDR, addr);
      if isNew {
        AddChange(Change(load, addr, ADDR));
      }
      AddLoadTable(addr, load);
      if !isNew {
        ListedTwice(p, d, x);
      }
      assert Current() == if isNew then Queued(Listed(p, d, x), Announcement(p, x)) else d;
    }

    /** A store as an execution records it (recordStoreChange, addStoreTable): no rule is missed because of it. */
    method RecordStore(store: nat, addr: nat, val: nat)
      requires Valid() && store in p && p[store].kind == STORE && addr < WORDS && val < WORDS
      modifies this`sets, this`storetable, this`changeset
      ensures Valid() && Missed(p, State()) <= Missed(p, old(State()))
      ensures State().facts == old(State().facts) + iset{Fact(store, ADDR, addr), Fact(store, BASE, val)}
    {
      RecordStoreAddress(store, addr);
      RecordValue(store, BASE, val);
    }

    method RecordStoreAddress(store: nat, addr: nat)
      requires Valid() && store in p && p[store].kind == STORE && addr < WORDS
      modifies this`sets, this`storetable, this`changeset
      ensures Valid() && Missed(p, State()) <= Missed(p, old(State()))
      ensures State().facts == old(State().facts) + iset{Fact(store, ADDR, addr)}
    {
      ghost var d, owed, x := Current(), Missed(p, State()), Fact(store, ADDR, addr);
      FactRecorded(p, d, owed, x, owed);
      var isNew := AddValue(store, ADDR, addr);
      if isNew {
        AddChange(Change(store, addr, ADDR));
      }
      AddStoreTable(addr, store);
      if !isNew {
        ListedTwice(p, d, x);
      }
      assert Current() == if isNew then Queued(Listed(p, d, x), Announcement(p, x)) else d;
    }

    /** A value that an execution records: one that is stored, or (recordFunctionChange) the value of a function or of a
        comparison. */
    method RecordValue(r: nat, index: nat, val: nat)
      requires Valid() && r in p && val < WORDS
      requires match p[r].kind
               case STORE => index == BASE
               case RMW => index == RMWOUT
               case FUNCTION => index == FUNCOUT
               case EQUALS => index == FUNCOUT
               case _ => false
      modifies this`sets, this`changeset
      ensures Valid() && Missed(p, State()) <= Missed(p, old(State()))
      ensures State().facts == old(State().facts) + iset{Fact(r, index, val)}
      ensures State().pending <= old(State().pending) + {Change(r, val, index)}
    {
      ghost var d, owed, x := Current(), Missed(p, State()), Fact(r, index, val);
      FactRecorded(p, d, owed, x, owed);
      var isNew := AddValue(r, index, val);
      if isNew {
        AddChange(Change(r, val, index));
      }
      assert Current() == if isNew then Queued(Listed(p, d, x), Announcement(p, x)) else d;
    }

    /** A read-modify-write as an execution records it (recordRMWChange, addLoadTable, addStoreTable): it may miss what
        was stored to the address before, and a compare-and-swap may miss that it can store its operand. */
    method RecordRMW(rmw: nat, addr: nat, valarg: nat, oldval: nat, newval: nat)
      requires Valid() && rmw in p && p[rmw].kind == RMW
      requires addr < WORDS && valarg < WORDS && oldval < WORDS && newval < WORDS
      modifies this`sets, this`loadtable, this`storetable, this`changeset
      ensures Valid()
      ensures Missed(p, State()) <= Missed(p, old(State())) + ReadsAt(rmw, addr) + iset{Again(rmw, BASE, valarg)}
      ensures State().facts == old(State().facts)
        + iset{Fact(rmw, ADDR, addr), Fact(rmw, BASE, valarg), Fact(rmw, RMWOUT, newval)}
        + if p[rmw].op == CAS then iset{Fact(rmw, OLDVALCAS, oldval)} else iset{}
      ensures State().pending <= old(State().pending) + {Change(rmw, addr, ADDR), Change(rmw, newval, RMWOUT)}
    {
      RecordRMWAddress(rmw, addr);
      RecordOperands(rmw, valarg, oldval);
      RecordValue(rmw, RMWOUT, newval);
    }

    method RecordOperands(rmw: nat, valarg: nat, oldval: nat)
      requires Valid() && rmw in p && p[rmw].kind == RMW && valarg < WORDS && oldval < WORDS
      modifies this`sets
      ensures Valid() && Missed(p, State()) <= Missed(p, old(State())) + iset{Again(rmw, BASE, valarg)}
      ensures State().facts == old(State().facts) + iset{Fact(rmw, BASE, valarg)}
        + if p[rmw].op == CAS then iset{Fact(rmw, OLDVALCAS, oldval)} else iset{}
      ensures State().pending == old(State().pending)
    {
      RecordOperand(rmw, BASE, valarg);
      if p[rmw].op == CAS {
        RecordOperand(rmw, OLDVALCAS, oldval);
      }
    }

    method RecordRMWAddress(rmw: nat, addr: nat)
      requires Valid() && rmw in p && p[rmw].kind == RMW && addr < WORDS
      modifies this`sets, this`loadtable, this`storetable, this`changeset
      ensures Valid() && Missed(p, State()) <= Missed(p, old(State())) + ReadsAt(rmw, addr)
      ensures State().facts == old(State().facts) + iset{Fact(rmw, ADDR, addr)}
      ensures State().pending <= old(State().pending) + {Change(rmw, addr, ADDR)}
    {
      ghost var d, owed, x := Current(), Missed(p, State()), Fact(rmw, ADDR, addr);
      FactRecorded(p, d, owed, x, owed + ReadsAt(rmw, addr));
      var isNew := AddValue(rmw, ADDR, addr);
      if isNew {
        AddChange(Change(rmw, addr, ADDR));
      }
      AddLoadTable(addr, rmw);
      AddStoreTable(addr, rmw);
      if !isNew {
        ListedTwice(p, d, x);
      }
      assert Current() == if isNew then Queued(Listed(p, d, x), Announcement(p, x)) else d;
    }

    method RecordOperand(rmw: nat, index: nat, val: nat)
      requires Valid() && rmw in p && p[rmw].kind == RMW && (index == BASE || index == OLDVALCAS) && val < WORDS
      modifies this`sets
      ensures Valid()
      ensures Missed(p, State())
        <= Missed(p, old(State())) + if index == BASE then iset{Again(rmw, BASE, val)} else iset{}
      ensures State().facts == old(State().facts) + iset{Fact(rmw, index, val)}
      ensures State().pending == old(State().pending)
    {
      ghost var d, owed, x := Current(), Missed(p, State()), Fact(rmw, index, val);
      PlainFact(p, d.s, owed, x, owed + if index == BASE then iset{Again(rmw, BASE, val)} else iset{});
      TablesStay(p, d, x);
      var isNew := AddValue(rmw, index, val);
      assert Current() == if isNew then Listed(p, d, x) else d;
    }
  }

  /** A store and an exchange, on which nothing depends. */
  function StoreAndExchange(): (p: Program)
    ensures ProgramOk(p) && p.Keys == {0, 1} && p[0].kind == STORE && p[1].kind == RMW
    ensures p[0].deps == [] && p[1].deps == [] && p[1].op == EXC
  {
    map[0 := Rec(STORE, EXC, 0, false, false, [], []), 1 := Rec(RMW, EXC, 0, false, false, [], [])]
  }

  lemma StoredFactsAreClosed(p: Program, facts: iset<Fact>)
    requires p == StoreAndExchange() && facts == iset{Fact(0, ADDR, 8), Fact(0, BASE, 5)}
    ensures Least(p, facts) == facts && Fact(1, RF, 5) !in facts
  {
    LeastIsClosed(p, facts);
    ClosedIsLeast(p, facts, facts);
  }

  /** A store of 5 to address 8 that is processed before an exchange at the address is recorded: nothing brings the
      exchange the 5. */
  method RecordedTooLate() returns (planner: Planner)
    ensures planner.Valid() && planner.p == StoreAndExchange()
    ensures Read(1, 0, 8, 5) in Missed(planner.p, planner.State())
  {
    planner := StoreProcessed();
    planner.RecordRMW(1, 8, 9, 0, 9);
    NothingBringsIt(planner.p, planner.State());
  }

  lemma NothingBringsIt(p: Program, s: State)
    requires p == StoreAndExchange()
    requires s.facts == iset{Fact(0, ADDR, 8), Fact(0, BASE, 5)}
      + iset{Fact(1, ADDR, 8), Fact(1, BASE, 9), Fact(1, RMWOUT, 9)} + iset{}
    requires s.pending <= {Change(1, 8, ADDR), Change(1, 9, RMWOUT)}
    ensures Read(1, 0, 8, 5) in Missed(p, s)
  {
    MissedExactly(p, s, 1, 0, 8, 5);
  }

  method StoreProcessed() returns (planner: Planner)
    ensures planner.Valid() && planner.p == StoreAndExchange() && planner.State().pending == {}
    ensures planner.State().facts == iset{Fact(0, ADDR, 8), Fact(0, BASE, 5)}
    ensures fresh(planner)
  {
    planner := new Planner(StoreAndExchange());
    planner.RecordStore(0, 8, 5);
    StoredFactsAreClosed(planner.p, planner.State().facts);
    planner.ProcessChanges();
  }
}
