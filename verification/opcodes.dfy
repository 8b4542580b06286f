/**
  The instruction set: 22 opcodes, each with a numeric code and the number
  of operand words that follow it in memory.
 */
module OpCodes {

  import opened Faults

  datatype OpCode =
    | Halt | Set | Push | Pop | Eq | Gt | Jmp | Jt | Jf | Add | Mult
    | Mod | And | Or | Not | RMem | WMem | Call | Ret | Out | In | Noop

  /** The enumeration's constants in declaration order. */
  const Values: seq<OpCode> :=
    [Halt, Set, Push, Pop, Eq, Gt, Jmp, Jt, Jf, Add, Mult,
     Mod, And, Or, Not, RMem, WMem, Call, Ret, Out, In, Noop]

  /** The word that encodes `op` in a program image. */
  function Code(op: OpCode): nat {
    match op
    case Halt => 0   case Set => 1    case Push => 2   case Pop => 3
    case Eq => 4     case Gt => 5     case Jmp => 6    case Jt => 7
    case Jf => 8     case Add => 9    case Mult => 10  case Mod => 11
    case And => 12   case Or => 13    case Not => 14   case RMem => 15
    case WMem => 16  case Call => 17  case Ret => 18   case Out => 19
    case In => 20    case Noop => 21
  }

  /** How many operand words follow the opcode word. */
  function Arity(op: OpCode): nat {
    match op
    case Halt => 0   case Set => 2    case Push => 1   case Pop => 1
    case Eq => 3     case Gt => 3     case Jmp => 1    case Jt => 2
    case Jf => 2     case Add => 3    case Mult => 3   case Mod => 3
    case And => 3    case Or => 3     case Not => 2    case RMem => 2
    case WMem => 2   case Call => 1   case Ret => 0    case Out => 1
    case In => 1     case Noop => 0
  }

  /** The number of constants. */
  const Count: nat := 22

  /** The constant at ordinal position `n` (the last case is NOOP, ordinal 21). */
  function OfOrdinal(n: nat): OpCode
    requires n < Count
  {
    match n
    case 0 => Halt   case 1 => Set    case 2 => Push   case 3 => Pop
    case 4 => Eq     case 5 => Gt     case 6 => Jmp    case 7 => Jt
    case 8 => Jf     case 9 => Add    case 10 => Mult  case 11 => Mod
    case 12 => And   case 13 => Or    case 14 => Not   case 15 => RMem
    case 16 => WMem  case 17 => Call  case 18 => Ret   case 19 => Out
    case 20 => In    case _ => Noop
  }

  /** The codes of all constants, in declaration order. */
  function Codes(): (cs: seq<nat>)
    ensures |cs| == |Values|
    ensures forall i :: 0 <= i < |cs| ==> cs[i] == Code(Values[i])
  {
    seq(|Values|, i requires 0 <= i < |Values| => Code(Values[i]))
  }

  /**
    `isOpCode`: whether `n` is the code of some constant. The codes are the
    ordinals 0..21 (CodeIsOrdinal), so membership is a range test;
    IsOpCodeListed shows it agrees with membership in Codes().
   */
  predicate IsOpCode(n: int) {
    0 <= n < Count
  }

  /** `fromInt`: the constant at ordinal position `n`; any other word is an invalid opcode. */
  function FromInt(n: int): (r: Result<OpCode>)
    ensures r.Ok? <==> IsOpCode(n)
    ensures r.Ok? ==> Code(r.value) == n
    ensures r.Err? ==> r.fault == InvalidOpcode(n)
  {
    if 0 <= n < Count then Ok(OfOrdinal(n)) else Err(InvalidOpcode(n))
  }

  /** The enumeration lists every constant once, at the position its code names. */
  lemma CodeIsOrdinal(i: int)
    requires 0 <= i < |Values|
    ensures Code(Values[i]) == i
    ensures Values[i] == OfOrdinal(i)
  {
    assert Values == seq(Count, k requires 0 <= k < Count => OfOrdinal(k));
  }

  /** Every constant occurs in the enumeration exactly once, at position Code(op). */
  lemma ValuesAreDistinct(op: OpCode, i: int)
    requires 0 <= i < |Values|
    ensures Values[i] == op <==> i == Code(op)
  {
    CodeIsOrdinal(i);
    OrdinalOfCode(op);
  }

  /** Reading a constant's code back as an ordinal gives the constant. */
  lemma OrdinalOfCode(op: OpCode)
    ensures Code(op) < Count && OfOrdinal(Code(op)) == op
  {
  }

  /** Distinct constants have distinct codes. */
  lemma CodeInjective(op1: OpCode, op2: OpCode)
    ensures Code(op1) == Code(op2) ==> op1 == op2
  {
  }

  /** The range test is exactly membership among the constants' codes. */
  lemma IsOpCodeListed(n: int)
    ensures IsOpCode(n) <==> n in Codes()
  {
    if 0 <= n < Count {
      CodeIsOrdinal(n);
      assert Codes()[n] == n;
    }
  }

  /** `values().getOrNull(n)`: decoding indexes the enumeration, and fails past its end. */
  lemma FromIntIndexes(n: int)
    ensures FromInt(n).Ok? <==> 0 <= n < |Values|
    ensures FromInt(n).Ok? ==> FromInt(n).value == Values[n]
  {
    if 0 <= n < |Values| {
      CodeIsOrdinal(n);
    }
  }

  /** Decoding is the inverse of encoding, in both directions. */
  lemma FromIntCode(op: OpCode, n: int)
    ensures FromInt(n) == Ok(op) <==> n == Code(op)
  {
  }

  /** The operand-count table, grouped by arity. */
  lemma ArityTable(op: OpCode)
    ensures Arity(op) == 0 <==> op in {Halt, Ret, Noop}
    ensures Arity(op) == 1 <==> op in {Push, Pop, Jmp, Call, Out, In}
    ensures Arity(op) == 2 <==> op in {Set, Jt, Jf, Not, RMem, WMem}
    ensures Arity(op) == 3 <==> op in {Eq, Gt, Add, Mult, Mod, And, Or}
  {
  }
}
