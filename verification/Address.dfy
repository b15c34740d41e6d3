/** The clauses that give an operation its address (processAddresses of constgen.cc). */
module Addresses {
  import opened CodeRecords
  import opened ConstGens
  import opened Constraints
  import opened Encodings
  import opened LoadRFs
  import opened Records

  const WORDS: nat := 0x1_0000_0000_0000_0000

  /** Where an operation's address comes from: it is hard-coded, or an offset is added to the result of another
      record, of which only the encoding of its values is known here (getRetValueEncoding). */
  datatype AddressInput = HardCoded(addr: nat) | Computed(offset: nat, encoding: nat -> Constraint)

  /** The value to which the offset is added. */
  function InputValue(addr: nat, offset: nat): nat {
    (addr + WORDS - offset % WORDS) % WORDS
  }

  /** The address that a value of the source leads to: the sum with the offset in its word. */
  function AddressOf(v: nat, offset: nat): nat {
    (v + offset) % WORDS
  }

  /** Among the words, exactly one value leads to an address, and it is the input value. */
  lemma InputValueExactly(addr: nat, offset: nat, v: nat)
    requires addr < WORDS && v < WORDS
    ensures InputValue(addr, offset) < WORDS
    ensures AddressOf(v, offset) == addr <==> v == InputValue(addr, offset)
  {
  }

  /** Addresses are words. */
  ghost predicate InputOk(r: EPRecord, input: AddressInput) {
    && (forall a | a in r.addrs :: a < WORDS)
    && match input
       case HardCoded(addr) => addr in r.addrs
       case Computed(_, encoding) => forall v: nat :: NoImplies(encoding(v))
  }

  /** A hard-coded address is encoded outright; otherwise every address follows from the input's value. */
  function AddressClause(addresses: seq<nat>, vars: seq<Constraint>, input: AddressInput, addr: nat): Constraint
    requires addr in addresses
  {
    var encoded := ValueEncoding(addresses, vars, addr).value;
    match input
    case HardCoded(_) => encoded
    case Computed(offset, encoding) => Implies(encoding(InputValue(addr, offset)), encoded)
  }

  /** The addresses for which the record has a clause. */
  function ClauseAddresses(r: EPRecord, input: AddressInput): seq<nat> {
    if input.HardCoded? then [input.addr] else r.addrs
  }

  ghost function ClausesUpTo(addresses: seq<nat>, vars: seq<Constraint>, input: AddressInput,
                             addrs: seq<nat>): set<Constraint>
    requires forall a | a in addrs :: a in addresses
  {
    if addrs == [] then {}
    else
      ClausesUpTo(addresses, vars, input, addrs[..|addrs| - 1])
      + {AddressClause(addresses, vars, input, addrs[|addrs| - 1])}
  }

  ghost function AddressClauses(addresses: seq<nat>, vars: seq<Constraint>, r: EPRecord,
                                input: AddressInput): set<Constraint>
    requires InputOk(r, input) && forall a | a in r.addrs :: a in addresses
  {
    ClausesUpTo(addresses, vars, input, ClauseAddresses(r, input))
  }

  lemma ClauseAddable(addresses: seq<nat>, vars: seq<Constraint>, r: EPRecord, input: AddressInput, addr: nat)
    requires InputOk(r, input) && addr in addresses && AllVars(vars) && |vars| == NumVars(|addresses|)
    ensures Addable(AddressClause(addresses, vars, input, addr))
  {
    var c := ValueEncoding(addresses, vars, addr).value;
    ValueEncodingMeaning(addresses, vars, addr, iset{});
    if input.Computed? {
      RuleAddable(input.encoding(InputValue(addr, input.offset)), c);
    } else {
      NoImpliesIsSafe(c);
      CodeHasNoFalse(addresses, vars, addr);
    }
  }

  lemma {:induction false} LiteralsOfVars(vars: seq<Constraint>, value: nat)
    requires AllVars(vars)
    ensures forall i | 0 <= i < |vars| :: IsLiteral(CodeLiterals(vars, value)[i])
  {
    if vars != [] {
      LiteralsOfVars(vars[1..], value / 2);
    }
  }

  lemma CodeHasNoFalse(addresses: seq<nat>, vars: seq<Constraint>, addr: nat)
    requires addr in addresses && AllVars(vars)
    ensures !FalseConjunct(ValueEncoding(addresses, vars, addr).value)
    ensures ValueEncoding(addresses, vars, addr).value != False
  {
    LiteralsOfVars(vars, IndexOf(addresses, addr));
  }

  /** processAddresses: exactly the clauses of the record are added. */
  method ProcessAddresses(cg: ConstGen, sls: StoreLoadSet, r: EPRecord, input: AddressInput)
    requires cg.varindex > 0 && cg.ClausesValid() && sls.Valid() && InputOk(r, input)
    requires forall a | a in r.addrs :: a in sls.addresses
    modifies cg`varindex, cg`clauses, cg`pending, cg`added, sls`tables
    ensures cg.varindex >= old(cg.varindex) && cg.ClausesValid() && sls.Valid()
    ensures TablesGrow(old(sls.tables), sls.tables)
    ensures r in sls.tables.addr
    ensures cg.added == old(cg.added) + AddressClauses(sls.addresses, sls.tables.addr[r], r, input)
  {
    var vars := sls.GetAddrVars(cg, r);
    var addrs := ClauseAddresses(r, input);
    var i := 0;
    while i < |addrs|
      invariant 0 <= i <= |addrs| && cg.ClausesValid()
      invariant cg.added == old(cg.added) + ClausesUpTo(sls.addresses, vars, input, addrs[..i])
      modifies cg`clauses, cg`pending, cg`added
    {
      assert addrs[..i + 1][..i] == addrs[..i];
      ClauseAddable(sls.addresses, vars, r, input, addrs[i]);
      cg.AddConstraint(AddressClause(sls.addresses, vars, input, addrs[i]));
      i := i + 1;
    }
    assert addrs[..i] == addrs;
  }

  /** The input of the record has, in this assignment, a value that leads to one of the record's addresses. A
      hard-coded address needs no such value. */
  ghost predicate InputDecodes(r: EPRecord, input: AddressInput, env: Env) {
    input.Computed? ==> exists v: nat :: LeadsInto(r, input, v, env)
  }

  /** The input has this value, which leads to one of the record's addresses. */
  ghost predicate LeadsInto(r: EPRecord, input: AddressInput, v: nat, env: Env)
    requires input.Computed?
  {
    v < WORDS && Eval(input.encoding(v), env) && AddressOf(v, input.offset) in r.addrs
  }

  /** The address variables name the address. */
  ghost predicate Carries(addresses: seq<nat>, vars: seq<Constraint>, addr: nat, env: Env) {
    Code(vars, env) < |addresses| && addresses[Code(vars, env)] == addr
  }

  /** What the clauses of a record are for: its variables name the hard-coded address, or the sum of the source's value
      and the offset wherever this is one of the record's addresses. */
  ghost predicate AddressFollows(addresses: seq<nat>, vars: seq<Constraint>, r: EPRecord, input: AddressInput,
                                 env: Env) {
    match input
    case HardCoded(addr) => Carries(addresses, vars, addr, env)
    case Computed(offset, _) =>
      forall v: nat {:trigger LeadsInto(r, input, v, env)} | LeadsInto(r, input, v, env) ::
        Carries(addresses, vars, AddressOf(v, offset), env)
  }

  /** They say this and no more. */
  lemma AddressExactly(addresses: seq<nat>, vars: seq<Constraint>, r: EPRecord, input: AddressInput, env: Env)
    requires Distinct(addresses) && AllVars(vars) && |vars| == NumVars(|addresses|) && InputOk(r, input)
    requires forall a | a in r.addrs :: a in addresses
    ensures AllIn(AddressClauses(addresses, vars, r, input), env) <==> AddressFollows(addresses, vars, r, input, env)
  {
    ClausesMeaning(addresses, vars, input, ClauseAddresses(r, input), env);
    if input.Computed? {
      forall a | a in r.addrs && Chosen(input, a, env) && AddressFollows(addresses, vars, r, input, env)
        ensures Carries(addresses, vars, a, env)
      {
        InputValueExactly(a, input.offset, InputValue(a, input.offset));
        assert LeadsInto(r, input, InputValue(a, input.offset), env);
      }
      forall v: nat | LeadsInto(r, input, v, env) ensures Chosen(input, AddressOf(v, input.offset), env) {
        InputValueExactly(AddressOf(v, input.offset), input.offset, v);
      }
    } else {
      assert Chosen(input, input.addr, env);
    }
  }

  lemma {:induction false} ClausesMeaning(addresses: seq<nat>, vars: seq<Constraint>, input: AddressInput,
                                          addrs: seq<nat>, env: Env)
    requires Distinct(addresses) && AllVars(vars) && |vars| == NumVars(|addresses|)
    requires forall a | a in addrs :: a in addresses
    ensures AllIn(ClausesUpTo(addresses, vars, input, addrs), env)
      <==> forall a | a in addrs && Chosen(input, a, env) :: Carries(addresses, vars, a, env)
  {
    if addrs != [] {
      var rest, last := addrs[..|addrs| - 1], addrs[|addrs| - 1];
      ClausesMeaning(addresses, vars, input, rest, env);
      ClauseMeaning(addresses, vars, input, last, env);
      assert forall a :: a in addrs <==> a in rest || a == last;
    }
  }

  lemma ClauseMeaning(addresses: seq<nat>, vars: seq<Constraint>, input: AddressInput, addr: nat, env: Env)
    requires Distinct(addresses) && AllVars(vars) && |vars| == NumVars(|addresses|) && addr in addresses
    ensures Eval(AddressClause(addresses, vars, input, addr), env)
      <==> (Chosen(input, addr, env) ==> Carries(addresses, vars, addr, env))
  {
    ValueEncodingMeaning(addresses, vars, addr, env);
  }

  /** So where the input has a value that leads to one of the record's addresses, the variables name an address of the
      record, and it is the hard-coded one or the sum of the source's value and the offset. */
  lemma AddressCarried(addresses: seq<nat>, vars: seq<Constraint>, r: EPRecord, input: AddressInput, env: Env)
    requires Distinct(addresses) && AllVars(vars) && |vars| == NumVars(|addresses|) && InputOk(r, input)
    requires forall a | a in r.addrs :: a in addresses
    requires AllIn(AddressClauses(addresses, vars, r, input), env) && InputDecodes(r, input, env)
    ensures Code(vars, env) < |addresses| && addresses[Code(vars, env)] in r.addrs
    ensures input.HardCoded? ==> addresses[Code(vars, env)] == input.addr
    ensures input.Computed? ==> forall v: nat | v < WORDS && Eval(input.encoding(v), env)
      && AddressOf(v, input.offset) in r.addrs ::
      addresses[Code(vars, env)] == AddressOf(v, input.offset)
  {
    AddressExactly(addresses, vars, r, input, env);
    if input.Computed? {
      var v: nat :| LeadsInto(r, input, v, env);
      assert Carries(addresses, vars, AddressOf(v, input.offset), env);
      forall u: nat | u < WORDS && Eval(input.encoding(u), env) && AddressOf(u, input.offset) in r.addrs
        ensures addresses[Code(vars, env)] == AddressOf(u, input.offset)
      {
        assert LeadsInto(r, input, u, env);
      }
    }
  }

  /** The assignment leads to the address. */
  ghost predicate Chosen(input: AddressInput, addr: nat, env: Env) {
    input.Computed? ==> Eval(input.encoding(InputValue(addr, input.offset)), env)
  }
}
