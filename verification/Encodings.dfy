/** Bit encodings of finite sets (constraint.cc, mcutil.h, valuerecord.cc,
    functionrecord.cc, branchrecord.cc). */
module Encodings {
  import opened Constraints

  datatype Option<+T> = None | Some(value: T)

  function Pow2(n: nat): (p: nat)
    ensures p >= 1
  {
    if n == 0 then 1 else 2 * Pow2(n - 1)
  }

  /** The n low bits of v. */
  function Low(v: nat, n: nat): (m: nat)
    ensures m < Pow2(n)
  {
    if n == 0 then 0 else v % 2 + 2 * Low(v / 2, n - 1)
  }

  lemma {:induction false} LowSmall(v: nat, n: nat)
    ensures Low(v, n) == v <==> v < Pow2(n)
    ensures Low(v, n) <= v
  {
    if n > 0 {
      LowSmall(v / 2, n - 1);
    }
  }

  lemma {:induction false} LowLow(v: nat, m: nat, n: nat)
    requires m <= n
    ensures Low(Low(v, n), m) == Low(v, m)
  {
    if m > 0 {
      LowLow(v / 2, m - 1, n - 1);
      assert Low(v, n) / 2 == Low(v / 2, n - 1);
    }
  }

  lemma {:induction false} LowSuccessor(v: nat, n: nat)
    ensures Low(v + 1, n) == (if Low(v, n) + 1 == Pow2(n) then 0 else Low(v, n) + 1)
  {
    if n > 0 {
      if v % 2 == 1 {
        LowSuccessor(v / 2, n - 1);
        assert (v + 1) / 2 == v / 2 + 1;
      }
    }
  }

  lemma {:induction false} LowPow2(n: nat)
    ensures Low(Pow2(n), n) == 0
  {
    if n > 0 {
      LowPow2(n - 1);
      assert Pow2(n) / 2 == Pow2(n - 1);
    }
  }

  /** NUMBITS of mcutil.h: the number of bits of x. */
  function NumBits(x: nat): (n: nat)
    ensures x < Pow2(n)
    ensures x > 0 ==> n > 0 && Pow2(n - 1) <= x
  {
    if x == 0 then 0 else 1 + NumBits(x / 2)
  }

  /** Solver variables that carry a code, least significant bit first. */
  predicate AllVars(vars: seq<Constraint>) {
    forall i | 0 <= i < |vars| :: vars[i].Var?
  }

  predicate Distinct<T(==)>(s: seq<T>) {
    forall i, j | 0 <= i < j < |s| :: s[i] != s[j]
  }

  /** The number an assignment writes into the variables. */
  ghost function Code(vars: seq<Constraint>, env: Env): (k: nat)
    ensures k < Pow2(|vars|)
  {
    if vars == [] then 0 else (if Eval(vars[0], env) then 1 else 0) + 2 * Code(vars[1..], env)
  }

  // ---------------------------------------------------------------- generateConstraint

  function CodeLiterals(vars: seq<Constraint>, value: nat): (lits: seq<Constraint>)
    ensures |lits| == |vars|
  {
    if vars == [] then []
    else [if value % 2 == 1 then vars[0] else Negate(vars[0])] + CodeLiterals(vars[1..], value / 2)
  }

  /** The constraint that the variables carry the low bits of value. */
  function CodeIs(vars: seq<Constraint>, value: nat): Constraint {
    And(CodeLiterals(vars, value))
  }

  /** generateConstraint: one literal per bit, shifting value right. */
  method GenerateConstraint(vars: seq<Constraint>, value: nat) returns (c: Constraint)
    ensures c == CodeIs(vars, value)
  {
    var carray: seq<Constraint> := [];
    var val := value;
    var j := 0;
    while j < |vars|
      invariant 0 <= j <= |vars|
      invariant carray + CodeLiterals(vars[j..], val) == CodeLiterals(vars, value)
    {
      assert vars[j..][1..] == vars[j + 1..];
      carray := carray + [if val % 2 == 1 then vars[j] else Negate(vars[j])];
      val := val / 2;
      j := j + 1;
    }
    return And(carray);
  }

  /** The constraint holds exactly when the code is value, modulo the width. */
  lemma {:induction false} CodeIsMeaning(vars: seq<Constraint>, value: nat, env: Env)
    requires AllVars(vars)
    ensures Eval(CodeIs(vars, value), env) <==> Code(vars, env) == Low(value, |vars|)
    ensures NoImplies(CodeIs(vars, value))
  {
    var lits := CodeLiterals(vars, value);
    if vars != [] {
      CodeIsMeaning(vars[1..], value / 2, env);
      assert lits[1..] == CodeLiterals(vars[1..], value / 2);
      AllHoldCons(lits, env);
      assert AllHold(lits[1..], env) <==> Eval(CodeIs(vars[1..], value / 2), env);
      assert forall i | 0 < i < |lits| :: lits[i] == lits[1..][i - 1];
    }
  }

  /** Two different codes of the width exclude each other. */
  lemma CodesExclusive(vars: seq<Constraint>, a: nat, b: nat, env: Env)
    requires AllVars(vars) && a < Pow2(|vars|) && b < Pow2(|vars|)
    requires Eval(CodeIs(vars, a), env) && Eval(CodeIs(vars, b), env)
    ensures a == b
  {
    CodeIsMeaning(vars, a, env);
    CodeIsMeaning(vars, b, env);
    LowSmall(a, |vars|);
    LowSmall(b, |vars|);
  }

  /** An assignment that writes a given code. */
  ghost function EnvFor(vars: seq<Constraint>, k: nat): Env
    requires AllVars(vars)
  {
    if vars == [] then iset{}
    else (if k % 2 == 1 then iset{vars[0].v} else iset{}) + EnvFor(vars[1..], k / 2)
  }

  lemma {:induction false} EnvForVars(vars: seq<Constraint>, k: nat, v: VarId)
    requires AllVars(vars) && v in EnvFor(vars, k)
    ensures Var(v) in vars
  {
    if vars != [] && v in EnvFor(vars[1..], k / 2) {
      EnvForVars(vars[1..], k / 2, v);
    }
  }

  lemma {:induction false} CodeFrame(vars: seq<Constraint>, env: Env, env': Env)
    requires AllVars(vars)
    requires forall i | 0 <= i < |vars| :: vars[i].v in env <==> vars[i].v in env'
    ensures Code(vars, env) == Code(vars, env')
  {
    if vars != [] {
      assert vars[0].v in env <==> vars[0].v in env';
      assert forall i | 0 <= i < |vars[1..]| :: vars[1..][i] == vars[i + 1];
      CodeFrame(vars[1..], env, env');
    }
  }

  /** Every code of the width is written by some assignment. */
  lemma {:induction false} EnvForCode(vars: seq<Constraint>, k: nat)
    requires AllVars(vars) && Distinct(vars) && k < Pow2(|vars|)
    ensures Code(vars, EnvFor(vars, k)) == k
  {
    if vars != [] {
      EnvForCode(vars[1..], k / 2);
      var rest, all := EnvFor(vars[1..], k / 2), EnvFor(vars, k);
      if vars[0].v in rest {
        EnvForVars(vars[1..], k / 2, vars[0].v);
        assert false;
      }
      forall i | 0 <= i < |vars[1..]|
        ensures vars[1..][i].v in rest <==> vars[1..][i].v in all
      {
        assert vars[1..][i] == vars[i + 1] && vars[0] != vars[i + 1];
      }
      CodeFrame(vars[1..], rest, all);
    }
  }

  // ---------------------------------------------------------------- generateLTConstraint

  /** __builtin_ctz. */
  function TrailingZeros(v: nat): nat
    requires v > 0
  {
    if v % 2 == 1 then 0 else 1 + TrailingZeros(v / 2)
  }

  function LowBit(v: nat): nat
    requires v > 0
  {
    Pow2(TrailingZeros(v))
  }

  /** The negated variables at the ones of value. */
  function NegatedOnes(vars: seq<Constraint>, value: nat): seq<Constraint> {
    if vars == [] then []
    else (if value % 2 == 1 then [Negate(vars[0])] else []) + NegatedOnes(vars[1..], value / 2)
  }

  lemma {:induction false} NegatedOnesEmpty(vars: seq<Constraint>, value: nat)
    ensures NegatedOnes(vars, value) == [] <==> Low(value, |vars|) == 0
  {
    if vars != [] {
      NegatedOnesEmpty(vars[1..], value / 2);
    }
  }

  lemma {:induction false} LowBitCarries(v: nat)
    requires v > 0
    ensures TrailingZeros(v + LowBit(v)) > TrailingZeros(v)
  {
    if v % 2 == 0 {
      LowBitCarries(v / 2);
      assert (v + LowBit(v)) / 2 == v / 2 + LowBit(v / 2);
    } else {
      assert (v + 1) % 2 == 0;
    }
  }

  lemma {:induction false} LowBitWidth(v: nat, n: nat)
    requires v > 0
    ensures TrailingZeros(v) < n <==> Low(v, n) != 0
  {
    if n > 0 && v % 2 == 0 {
      LowBitWidth(v / 2, n - 1);
    }
  }

  lemma {:induction false} SameTrailingZeros(v: nat, n: nat)
    requires v > 0 && Low(v, n) != 0
    ensures TrailingZeros(Low(v, n)) == TrailingZeros(v)
  {
    if v % 2 == 0 {
      SameTrailingZeros(v / 2, n - 1);
      assert Low(v, n) / 2 == Low(v / 2, n - 1);
    }
  }

  /** Carrying the lowest one adds it to the low bits, or clears them. */
  lemma {:induction false} LowBitLow(v: nat, n: nat)
    requires v > 0 && Low(v, n) != 0
    ensures Low(v, n) + LowBit(v) <= Pow2(n)
    ensures Low(v + LowBit(v), n) == (if Low(v, n) + LowBit(v) == Pow2(n) then 0 else Low(v, n) + LowBit(v))
  {
    if v % 2 == 1 {
      LowSuccessor(v, n);
    } else {
      LowBitLow(v / 2, n - 1);
      EvenCarry(v, n);
    }
  }

  lemma EvenCarry(v: nat, n: nat)
    requires v > 0 && v % 2 == 0 && n > 0
    ensures LowBit(v) == 2 * LowBit(v / 2)
    ensures Low(v, n) == 2 * Low(v / 2, n - 1)
    ensures Low(v + LowBit(v), n) == 2 * Low(v / 2 + LowBit(v / 2), n - 1)
  {
    assert LowBit(v) == 2 * LowBit(v / 2);
    assert (v + LowBit(v)) % 2 == 0 && (v + LowBit(v)) / 2 == v / 2 + LowBit(v / 2);
  }

  /** The next comparand: the lowest one is carried upwards, in a 32-bit word. */
  function Carry(value: nat): nat
    requires value > 0
  {
    Low(value + LowBit(value), 32)
  }

  /** The clauses that forbid every code whose bits cover value, or a later comparand. */
  function LTClauses(vars: seq<Constraint>, value: nat): (cs: seq<Constraint>)
    requires |vars| <= 32
    ensures value > 0 ==> |cs| <= (if TrailingZeros(value) < |vars| then |vars| - TrailingZeros(value) else 0)
    ensures |cs| <= |vars|
    decreases if value == 0 || Low(value, |vars|) == 0 then 0 else 1 + |vars| - TrailingZeros(value)
  {
    if value == 0 || Low(value, |vars|) == 0 then []
    else
      CarryProgress(value, |vars|);
      [Or(NegatedOnes(vars, value))] + LTClauses(vars, Carry(value))
  }

  lemma CarryProgress(value: nat, n: nat)
    requires value > 0 && n <= 32 && Low(value, n) != 0
    ensures TrailingZeros(value) < n
    ensures Low(Carry(value), n) == Low(value + LowBit(value), n)
    ensures Carry(value) > 0 && Low(Carry(value), n) != 0 ==> TrailingZeros(Carry(value)) > TrailingZeros(value)
  {
    LowBitWidth(value, n);
    LowBitCarries(value);
    LowLow(value + LowBit(value), n, 32);
    LowKeepsZeros(value + LowBit(value), n, 32);
  }

  /** Cutting a number to m bits, of which the n low ones are not all zero, keeps its trailing zeros. */
  lemma LowKeepsZeros(v: nat, n: nat, m: nat)
    requires v > 0 && n <= m
    ensures Low(v, m) > 0 && Low(Low(v, m), n) != 0 ==> TrailingZeros(Low(v, m)) == TrailingZeros(v)
  {
    if Low(v, m) != 0 {
      SameTrailingZeros(v, m);
    }
  }

  lemma {:induction false} LowZero(n: nat)
    ensures Low(0, n) == 0
  {
    if n > 0 {
      LowZero(n - 1);
    }
  }

  /** The inner loop of generateLTConstraint over a copy of value. */
  method CollectNegatedOnes(vars: seq<Constraint>, value: nat) returns (orarray: seq<Constraint>)
    ensures orarray == NegatedOnes(vars, value)
  {
    var val := value;
    orarray := [];
    var j := 0;
    while j < |vars|
      invariant 0 <= j <= |vars|
      invariant orarray + NegatedOnes(vars[j..], val) == NegatedOnes(vars, value)
    {
      assert vars[j..][1..] == vars[j + 1..];
      if val % 2 == 1 {
        orarray := orarray + [Negate(vars[j])];
      }
      val := val / 2;
      j := j + 1;
    }
  }

  /** generateLTConstraint. The clause array of the source has one slot per variable. */
  method GenerateLTConstraint(vars: seq<Constraint>, value0: nat) returns (c: Constraint)
    requires |vars| <= 32
    ensures c == And(LTClauses(vars, value0))
    ensures |c.ops| <= |vars|
  {
    var value := value0;
    var andarray: seq<Constraint> := [];
    while true
      invariant andarray + LTClauses(vars, value) == LTClauses(vars, value0)
      decreases if value == 0 || Low(value, |vars|) == 0 then 0 else 1 + |vars| - TrailingZeros(value)
    {
      var orarray := CollectNegatedOnes(vars, value);
      NegatedOnesEmpty(vars, value);
      if |orarray| == 0 {
        LowZero(|vars|);
        return And(andarray);
      }
      if value == 0 {
        LowZero(|vars|);
        assert false;
      }
      CarryProgress(value, |vars|);
      andarray := andarray + [Or(orarray)];
      value := Carry(value);
    }
  }

  /** The code has a one wherever value has. */
  ghost predicate Covers(vars: seq<Constraint>, value: nat, env: Env) {
    vars == [] || ((value % 2 == 1 ==> Eval(vars[0], env)) && Covers(vars[1..], value / 2, env))
  }

  lemma {:induction false} NegatedOnesMeaning(vars: seq<Constraint>, value: nat, env: Env)
    requires AllVars(vars)
    ensures SomeHolds(NegatedOnes(vars, value), env) <==> !Covers(vars, value, env)
    ensures forall i | 0 <= i < |NegatedOnes(vars, value)| :: IsLiteral(NegatedOnes(vars, value)[i])
  {
    if vars != [] {
      NegatedOnesMeaning(vars[1..], value / 2, env);
      var rest, all := NegatedOnes(vars[1..], value / 2), NegatedOnes(vars, value);
      if value % 2 == 1 {
        assert all == [Negate(vars[0])] + rest;
        assert Without(all, 0) + [Negate(vars[0])] == rest + [Negate(vars[0])];
        UpdateMeaning(all, 0, Negate(vars[0]), env);
        assert all[0 := Negate(vars[0])] == all && Without(all, 0) == rest;
      } else {
        assert all == rest;
      }
    }
  }

  lemma {:induction false} CoversBelow(vars: seq<Constraint>, m: nat, env: Env)
    requires m < Pow2(|vars|) && Covers(vars, m, env)
    ensures m <= Code(vars, env)
  {
    if vars != [] {
      CoversBelow(vars[1..], m / 2, env);
    }
  }

  lemma {:induction false} CodeCovers(vars: seq<Constraint>, env: Env)
    ensures Covers(vars, Code(vars, env), env)
  {
    if vars != [] {
      CodeCovers(vars[1..], env);
      assert Code(vars, env) / 2 == Code(vars[1..], env);
    }
  }

  /** Codes from m up to the next carry are exactly those that agree with m above its low bit. */
  lemma {:induction false} CoversInBlock(vars: seq<Constraint>, m: nat, env: Env)
    requires 0 < m <= Code(vars, env) < m + LowBit(m)
    ensures Covers(vars, m, env)
  {
    if vars != [] {
      if m % 2 == 1 {
        CodeCovers(vars, env);
      } else {
        CoversInBlock(vars[1..], m / 2, env);
      }
    }
  }

  lemma {:induction false} CoversLow(vars: seq<Constraint>, value: nat, env: Env)
    ensures Covers(vars, value, env) <==> Covers(vars, Low(value, |vars|), env)
  {
    if vars != [] {
      CoversLow(vars[1..], value / 2, env);
    }
  }

  /** The clauses compare the code with the low bits of value, when those are not zero. */
  lemma {:induction false} LTClausesMeaning(vars: seq<Constraint>, value: nat, env: Env)
    requires AllVars(vars) && |vars| <= 32
    ensures AllHold(LTClauses(vars, value), env) <==>
            (Low(value, |vars|) != 0 ==> Code(vars, env) < Low(value, |vars|))
    ensures forall i | 0 <= i < |LTClauses(vars, value)| :: IsClause(LTClauses(vars, value)[i])
    decreases if value == 0 || Low(value, |vars|) == 0 then 0 else 1 + |vars| - TrailingZeros(value)
  {
    var n := |vars|;
    var m := Low(value, n);
    LowZero(n);
    if m != 0 {
      CarryProgress(value, n);
      LowBitLow(value, n);
      SameTrailingZeros(value, n);
      LTClausesMeaning(vars, Carry(value), env);
      NegatedOnesMeaning(vars, value, env);
      CoversLow(vars, value, env);
      var cs := LTClauses(vars, value);
      AllHoldCons(cs, env);
      assert cs[1..] == LTClauses(vars, Carry(value));
      assert Eval(cs[0], env) <==> !Covers(vars, m, env);
      if Covers(vars, m, env) {
        CoversBelow(vars, m, env);
      }
      if m <= Code(vars, env) < m + LowBit(m) {
        CoversInBlock(vars, m, env);
      }
    }
  }

  /** For 0 < value <= 2^n the formula holds exactly when the code is below value. */
  lemma LTMeaning(vars: seq<Constraint>, value: nat, env: Env)
    requires AllVars(vars) && |vars| <= 32 && 0 < value <= Pow2(|vars|)
    ensures Eval(And(LTClauses(vars, value)), env) <==> Code(vars, env) < value
    ensures NoImplies(And(LTClauses(vars, value))) && !FalseConjunct(And(LTClauses(vars, value)))
  {
    LTClausesMeaning(vars, value, env);
    LowSmall(value, |vars|);
    LowPow2(|vars|);
  }

  /** The formula says "the code is below value" under this assignment. */
  ghost predicate LTCorrect(vars: seq<Constraint>, value: nat, env: Env)
    requires |vars| <= 32
  {
    Eval(And(LTClauses(vars, value)), env) <==> Code(vars, env) < value
  }

  /** Over distinct variables the comparison is right for every assignment exactly when value is
      not zero and either at most 2^n or zero in its n low bits. */
  lemma LTExact(vars: seq<Constraint>, value: nat)
    requires AllVars(vars) && Distinct(vars) && |vars| <= 32
    ensures (forall env: Env :: LTCorrect(vars, value, env))
       <==> value > 0 && (value <= Pow2(|vars|) || Low(value, |vars|) == 0)
  {
    var m := Low(value, |vars|);
    LowSmall(value, |vars|);
    LowZero(|vars|);
    forall env: Env
      ensures LTCorrect(vars, value, env) <==>
              (if m == 0 then value > 0 else (Code(vars, env) < m <==> Code(vars, env) < value))
    {
      LTClausesMeaning(vars, value, env);
    }
    if m == 0 {
      assert LTCorrect(vars, value, iset{}) <==> value > 0;
    } else if value <= Pow2(|vars|) {
      LowPow2(|vars|);
    } else {
      EnvForCode(vars, m);
      assert !LTCorrect(vars, value, EnvFor(vars, m));
    }
  }

  // ---------------------------------------------------------------- generateEquivConstraint

  function EquivClauses(a: seq<Constraint>, b: seq<Constraint>): seq<Constraint>
    requires |a| == |b|
  {
    if a == [] then []
    else [Or([Negate(a[0]), b[0]]), Or([a[0], Negate(b[0])])] + EquivClauses(a[1..], b[1..])
  }

  /** The constraint that two variable vectors agree. */
  function Equiv(a: seq<Constraint>, b: seq<Constraint>): Constraint
    requires |a| == |b|
  {
    if a == [] then True else And(EquivClauses(a, b))
  }

  method GenerateEquivConstraint(a: seq<Constraint>, b: seq<Constraint>) returns (c: Constraint)
    requires |a| == |b|
    ensures c == Equiv(a, b)
  {
    if |a| == 0 {
      return True;
    }
    var arr: seq<Constraint> := [];
    var i := 0;
    while i < |a|
      invariant 0 <= i <= |a|
      invariant arr + EquivClauses(a[i..], b[i..]) == EquivClauses(a, b)
    {
      assert a[i..][1..] == a[i + 1..] && b[i..][1..] == b[i + 1..];
      arr := arr + [Or([Negate(a[i]), b[i]]), Or([a[i], Negate(b[i])])];
      i := i + 1;
    }
    return And(arr);
  }

  lemma PairMeaning(x: Constraint, y: Constraint, env: Env)
    ensures Eval(Or([x, y]), env) <==> Eval(x, env) || Eval(y, env)
  {
    assert [x, y][0] == x && [x, y][1] == y;
  }

  lemma TwoMore(cs: seq<Constraint>, x: Constraint, y: Constraint, rest: seq<Constraint>, env: Env)
    requires cs == [x, y] + rest && NoImplies(And(rest)) && NoImplies(x) && NoImplies(y)
    ensures AllHold(cs, env) <==> Eval(x, env) && Eval(y, env) && AllHold(rest, env)
    ensures NoImplies(And(cs))
  {
    AllHoldCons(cs, env);
    AllHoldCons(cs[1..], env);
    assert cs[1..][1..] == rest;
  }

  lemma {:induction false} EquivClausesMeaning(a: seq<Constraint>, b: seq<Constraint>, env: Env)
    requires |a| == |b| && AllVars(a) && AllVars(b)
    ensures AllHold(EquivClauses(a, b), env) <==> Code(a, env) == Code(b, env)
    ensures NoImplies(And(EquivClauses(a, b)))
    ensures False !in EquivClauses(a, b)
  {
    if a != [] {
      EquivClausesMeaning(a[1..], b[1..], env);
      var cs, rest := EquivClauses(a, b), EquivClauses(a[1..], b[1..]);
      TwoMore(cs, Or([Negate(a[0]), b[0]]), Or([a[0], Negate(b[0])]), rest, env);
      PairMeaning(Negate(a[0]), b[0], env);
      PairMeaning(a[0], Negate(b[0]), env);
      assert Eval(a[0], env) == Eval(b[0], env) && Code(a[1..], env) == Code(b[1..], env)
        <==> Code(a, env) == Code(b, env);
    }
  }

  /** The equivalence holds exactly when both vectors carry the same code. */
  lemma EquivMeaning(a: seq<Constraint>, b: seq<Constraint>, env: Env)
    requires |a| == |b| && AllVars(a) && AllVars(b)
    ensures Eval(Equiv(a, b), env) <==> Code(a, env) == Code(b, env)
    ensures NoImplies(Equiv(a, b))
  {
    EquivClausesMeaning(a, b, env);
  }
}
