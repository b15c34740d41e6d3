/** Records that encode values, function results and branch directions in solver variables
    (valuerecord.cc, functionrecord.cc, branchrecord.cc). */
module CodeRecords {
  import opened Constraints
  import opened Encodings
  import opened ConstGens

  /** The assignment that a solver solution describes. */
  ghost function EnvOf(sol: seq<bool>): Env {
    iset v: VarId | v < |sol| && sol[v]
  }

  predicate InSolution(vars: seq<Constraint>, sol: seq<bool>) {
    AllVars(vars) && forall i | 0 <= i < |vars| :: vars[i].v < |sol|
  }

  /** numvalue-1 in an unsigned 32-bit word. */
  function LastCode(numvalue: nat): nat {
    if numvalue == 0 then 0xFFFF_FFFF else numvalue - 1
  }

  /** The loop shared by getValue and getBranchValue: the code, from its top bit down. */
  method ReadCode(vars: seq<Constraint>, sol: seq<bool>) returns (value: nat)
    requires InSolution(vars, sol)
    ensures value == Code(vars, EnvOf(sol))
  {
    value := 0;
    var j: int := |vars| - 1;
    while j >= 0
      invariant -1 <= j < |vars|
      invariant value == Code(vars[j + 1..], EnvOf(sol))
    {
      assert vars[j..][1..] == vars[j + 1..] && vars[j..][0] == vars[j];
      value := value * 2;
      if sol[vars[j].v] {
        value := value + 1;
      }
      j := j - 1;
    }
    assert vars[0..] == vars;
  }

  /** Position of a value in the iteration order of a set. */
  function IndexOf(values: seq<nat>, v: nat): (i: nat)
    ensures i <= |values|
    ensures i < |values| ==> values[i] == v
    ensures i < |values| <==> v in values
    ensures forall k | 0 <= k < i :: values[k] != v
  {
    if values == [] || values[0] == v then 0 else 1 + IndexOf(values[1..], v)
  }

  // ---------------------------------------------------------------- values

  /** What getValue returns for a code outside the set. */
  const NOVALUE: nat := 111111111

  function DecodedValue(values: seq<nat>, code: nat): nat {
    if code < |values| then values[code] else NOVALUE
  }

  /** The number of variables of an encoding of numvalue codes. */
  function NumVars(numvalue: nat): nat {
    NumBits(LastCode(numvalue))
  }

  class ValueRecord {
    const values: seq<nat>   // the set, in its iteration order
    const numvars: nat

    constructor (values: seq<nat>)
      ensures this.values == values && numvars == NumVars(|values|)
    {
      this.values := values;
      numvars := NumBits(LastCode(|values|));
    }

    /** getValue: reads the code and walks the set up to it. */
    method GetValue(vars: seq<Constraint>, sol: seq<bool>) returns (v: nat)
      requires numvars == NumVars(|values|)
      requires |vars| == numvars && InSolution(vars, sol)
      ensures v == DecodedValue(values, Code(vars, EnvOf(sol)))
    {
      var value := ReadCode(vars, sol);
      var i := 0;
      while i < |values|
        invariant 0 <= i <= |values| && i <= value
      {
        if numvars == 0 || i == value {
          return values[i];
        }
        i := i + 1;
      }
      return NOVALUE;
    }

    /** getValueEncoding: None for a value outside the set. */
    method GetValueEncoding(vars: seq<Constraint>, v: nat) returns (c: Option<Constraint>)
      requires numvars == NumVars(|values|) && |vars| == numvars
      ensures c == ValueEncoding(values, vars, v)
    {
      var i := 0;
      while i < |values|
        invariant 0 <= i <= |values|
        invariant forall k | 0 <= k < i :: values[k] != v
      {
        if values[i] == v {
          if numvars == 0 {
            return Some(True);
          }
          var g := GenerateConstraint(vars, i);
          return Some(g);
        }
        i := i + 1;
      }
      return None;
    }
  }

  function ValueEncoding(values: seq<nat>, vars: seq<Constraint>, v: nat): Option<Constraint> {
    if v !in values then None
    else if |vars| == 0 then Some(True)
    else Some(CodeIs(vars, IndexOf(values, v)))
  }

  /** Every index fits in the variables. */
  lemma ValueCodesFit(values: seq<nat>, i: nat)
    requires i < |values|
    ensures i < Pow2(NumVars(|values|))
  {
  }

  /** The encoding of a known value holds exactly when the variables carry its index. */
  lemma ValueEncodingMeaning(values: seq<nat>, vars: seq<Constraint>, v: nat, env: Env)
    requires v in values && AllVars(vars) && |vars| == NumVars(|values|)
    ensures Eval(ValueEncoding(values, vars, v).value, env) <==> Code(vars, env) == IndexOf(values, v)
    ensures NoImplies(ValueEncoding(values, vars, v).value)
  {
    var i := IndexOf(values, v);
    ValueCodesFit(values, i);
    CodeIsMeaning(vars, i, env);
    LowSmall(i, |vars|);
  }

  /** Round trip: the encoding of a value decodes to it; a code inside the set decodes to a value
      only if that value's encoding holds; different values exclude each other. */
  lemma ValueRoundTrip(values: seq<nat>, vars: seq<Constraint>, v: nat, w: nat, env: Env)
    requires v in values && w in values && Distinct(values) && AllVars(vars) && |vars| == NumVars(|values|)
    ensures Eval(ValueEncoding(values, vars, v).value, env) <==>
            Code(vars, env) < |values| && DecodedValue(values, Code(vars, env)) == v
    ensures Eval(ValueEncoding(values, vars, v).value, env) && Eval(ValueEncoding(values, vars, w).value, env) ==>
      v == w
  {
    ValueEncodingMeaning(values, vars, v, env);
    ValueEncodingMeaning(values, vars, w, env);
  }

  // ---------------------------------------------------------------- functions

  class FunctionRecord {
    const phi: bool
    const outputs: seq<nat>    // VC_BASEINDEX of a phi, VC_FUNCOUTINDEX of a function
    var vars: seq<Constraint>

    /** One more code than outputs, unless the function is a phi. */
    constructor (cg: ConstGen, phi: bool, outputs: seq<nat>)
      requires cg.Valid()
      modifies cg`varindex
      ensures cg.Valid() && this.phi == phi && this.outputs == outputs
      ensures |vars| == NumVars(|outputs| + if phi then 0 else 1)
      ensures cg.varindex == old(cg.varindex) + |vars|
      ensures forall i | 0 <= i < |vars| :: vars[i] == Var(old(cg.varindex) + i)
    {
      this.phi := phi;
      this.outputs := outputs;
      var numvals := |outputs|;
      if !phi {
        numvals := numvals + 1;
      }
      var numvars := NumBits(LastCode(numvals));
      var bits := cg.GetArrayNewVars(numvars);
      vars := bits;
      new;
      TableSoundGrows(cg.threadactions, cg.rpt, cg.threadorder, old(cg.varindex), cg.varindex);
    }

    method GetValueEncoding(val: nat) returns (c: Option<Constraint>)
      ensures c == if val in outputs then Some(CodeIs(vars, IndexOf(outputs, val))) else None
    {
      var count := 0;
      while count < |outputs|
        invariant 0 <= count <= |outputs|
        invariant forall k | 0 <= k < count :: outputs[k] != val
      {
        if outputs[count] == val {
          var g := GenerateConstraint(vars, count);
          return Some(g);
        }
        count := count + 1;
      }
      return None;
    }

    method GetNoValueEncoding() returns (c: Constraint)
      ensures c == And(vars)
    {
      return And(vars);
    }
  }

  // ---------------------------------------------------------------- the all-ones code

  lemma {:induction false} AllOnes(vars: seq<Constraint>, env: Env)
    requires AllVars(vars)
    ensures Eval(And(vars), env) <==> Code(vars, env) == Pow2(|vars|) - 1
  {
    if vars != [] {
      AllHoldCons(vars, env);
      AllOnes(vars[1..], env);
      assert Eval(And(vars[1..]), env) <==> AllHold(vars[1..], env);
      assert Eval(And(vars), env) <==> AllHold(vars, env);
    }
  }

  lemma {:induction false} AnyOne(vars: seq<Constraint>, env: Env)
    requires AllVars(vars)
    ensures Eval(Or(vars), env) <==> Code(vars, env) != 0
  {
    if vars != [] {
      AnyOne(vars[1..], env);
      SpliceMeaning(vars, 0, [vars[0]], env) by { assert [vars[0]][0] == vars[0]; }
      assert Without(vars, 0) == vars[1..];
      UpdateMeaning(vars, 0, vars[0], env);
      assert vars[0 := vars[0]] == vars;
      assert Eval(Or(vars[1..]), env) <==> SomeHolds(vars[1..], env);
      assert Eval(Or(vars), env) <==> SomeHolds(vars, env);
    }
  }

  /** The "new output" code of a function differs from every known output. */
  lemma NoValueIsNew(outputs: seq<nat>, vars: seq<Constraint>, val: nat, env: Env)
    requires AllVars(vars) && |vars| == NumVars(|outputs| + 1) && val in outputs
    ensures !(Eval(And(vars), env) && Eval(CodeIs(vars, IndexOf(outputs, val)), env))
  {
    AllOnes(vars, env);
    CodeIsMeaning(vars, IndexOf(outputs, val), env);
    LowSmall(IndexOf(outputs, val), |vars|);
  }

  // ---------------------------------------------------------------- branches

  /** A branch as the encoder keeps it: its variables, whether it is always executed, how many
      directions are known, and whether more directions exist. */
  datatype BranchRecord = BranchRecord(vars: seq<Constraint>, always: bool, numdirections: nat, more: bool) {

    /** One code per known direction, one for new directions, one for "not executed". */
    function NumCodes(): nat {
      numdirections + (if more then 1 else 0) + (if always then 0 else 1)
    }

    predicate Valid() {
      AllVars(vars) && |vars| == NumVars(NumCodes())
    }

    /** getBranch. */
    function GetBranch(index: nat): Constraint {
      CodeIs(vars, if always then index else index + 1)
    }

    /** getAnyBranch. */
    function GetAnyBranch(): Constraint {
      if always then True else Or(vars)
    }

    /** getNewBranch. */
    function GetNewBranch(): Constraint {
      And(vars)
    }

    /** getBranchValue: -1 when the branch was not executed. */
    method GetBranchValue(sol: seq<bool>) returns (value: int)
      requires InSolution(vars, sol)
      ensures value == Direction(EnvOf(sol))
    {
      value := ReadCode(vars, sol);
      if !always {
        value := value - 1;
      }
    }

    ghost function Direction(env: Env): int {
      if always then Code(vars, env) else Code(vars, env) - 1
    }
  }

  /** A known direction's encoding holds exactly when the branch decodes to its index, and then the
      branch counts as executed. */
  lemma BranchDecodes(br: BranchRecord, index: nat, env: Env)
    requires br.Valid() && index < br.numdirections
    ensures Eval(br.GetBranch(index), env) <==> br.Direction(env) == index
    ensures Eval(br.GetBranch(index), env) ==> Eval(br.GetAnyBranch(), env)
    ensures NoImplies(br.GetBranch(index)) && NoImplies(Negate(br.GetBranch(index)))
  {
    var code := if br.always then index else index + 1;
    CodeIsMeaning(br.vars, code, env);
    LowSmall(code, |br.vars|);
    AnyOne(br.vars, env);
    NegateNegates(br.GetBranch(index), env);
  }

  /** "Not executed" decodes to -1 and is exactly what falsifies getAnyBranch. */
  lemma NotExecutedDecodes(br: BranchRecord, env: Env)
    requires br.Valid()
    ensures !Eval(br.GetAnyBranch(), env) <==> br.Direction(env) == -1
    ensures br.always ==> br.Direction(env) >= 0
  {
    AnyOne(br.vars, env);
  }

  /** Where it is used as a goal, the "new direction" code decodes to no known direction. */
  lemma NewBranchIsNew(br: BranchRecord, index: nat, env: Env)
    requires br.Valid() && br.more && index < br.numdirections
    ensures Eval(br.GetNewBranch(), env) ==> br.Direction(env) != index && !Eval(br.GetBranch(index), env)
    ensures Eval(br.GetNewBranch(), env) ==> br.Direction(env) >= br.numdirections
  {
    AllOnes(br.vars, env);
    BranchDecodes(br, index, env);
  }

  /** insertBranch. */
  method InsertBranch(cg: ConstGen, numdirections: nat, len: nat, always: bool) returns (br: BranchRecord)
    requires cg.Valid()
    modifies cg`varindex
    ensures cg.Valid() && br.Valid() && cg.varindex == old(cg.varindex) + |br.vars|
    ensures br.always == always && br.numdirections == numdirections && (br.more <==> numdirections < len)
    ensures forall i | 0 <= i < |br.vars| :: br.vars[i] == Var(old(cg.varindex) + i)
  {
    var numvalue := numdirections;
    if numdirections < len {
      numvalue := numvalue + 1;
    }
    if !always {
      numvalue := numvalue + 1;
    }
    var numbits := NumBits(LastCode(numvalue));
    var bits := cg.GetArrayNewVars(numbits);
    br := BranchRecord(bits, always, numdirections, numdirections < len);
    TableSoundGrows(cg.threadactions, cg.rpt, cg.threadorder, old(cg.varindex), cg.varindex);
  }
}
