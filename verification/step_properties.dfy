/**
  What one step does, opcode by opcode, stated against the machine state
  rather than against the handlers: which component changes, to what, and
  where execution continues.
 */
module StepProperties {

  import opened Faults
  import opened OpCodes
  import opened IntOps
  import opened VirtualMachine
  import opened Engine

  /** The instruction at `pc` is `op` followed by the given operand words. */
  ghost predicate At(m: Machine, pc: nat, op: OpCode, operands: seq<int>) {
    && pc + |operands| < |m.mem|
    && m.mem[pc] == Code(op)
    && forall k :: 0 <= k < |operands| ==> m.mem[pc + 1 + k] == operands[k]
  }

  /** Fetch: a missing or non-opcode word faults before anything changes; an opcode word runs its handler. */
  lemma StepFetch(m: Machine, pc: nat)
    ensures pc >= |m.mem| ==> Step(m, pc) == Err(AddressOutOfRange(pc))
    ensures pc < |m.mem| && !IsOpCode(m.mem[pc]) ==> Step(m, pc) == Err(InvalidOpcode(m.mem[pc]))
    ensures forall op :: pc < |m.mem| && m.mem[pc] == Code(op) ==> Step(m, pc) == Dispatch(m, pc, op)
  {
    if pc < |m.mem| {
      forall op | m.mem[pc] == Code(op)
        ensures Step(m, pc) == Dispatch(m, pc, op)
      {
        FromIntCode(op, m.mem[pc]);
      }
    }
  }

  /** At an opcode word, a step is its handler, reading the given operands. */
  lemma Dispatches(m: Machine, pc: nat, op: OpCode, operands: seq<int>)
    requires At(m, pc, op, operands)
    ensures Step(m, pc) == Dispatch(m, pc, op)
    ensures |operands| >= 1 ==> Operand(m, pc, 1) == Ok(operands[0])
    ensures |operands| >= 2 ==> Operand(m, pc, 2) == Ok(operands[1])
    ensures |operands| >= 3 ==> Operand(m, pc, 3) == Ok(operands[2])
  {
    StepFetch(m, pc);
    if |operands| >= 1 { assert m.mem[pc + 1 + 0] == operands[0]; }
    if |operands| >= 2 { assert m.mem[pc + 1 + 1] == operands[1]; }
    if |operands| >= 3 { assert m.mem[pc + 1 + 2] == operands[2]; }
  }

  /** HALT ends the run and changes nothing. */
  lemma HaltStep(m: Machine, pc: nat)
    requires At(m, pc, Halt, [])
    ensures Step(m, pc) == Ok(Halted(m))
  {
    Dispatches(m, pc, Halt, []);
  }

  /** NOOP changes nothing and continues at the next opcode word after it. */
  lemma NoopStep(m: Machine, pc: nat)
    requires At(m, pc, Noop, [])
    ensures Step(m, pc) == Ok(Advance(m, pc + 1))
  {
    Dispatches(m, pc, Noop, []);
  }

  /**
    SET: the destination word is used raw as the register index, the source
    is resolved; only that register changes.
   */
  lemma SetStep(m: Machine, pc: nat, a: int, b: int)
    requires At(m, pc, Set, [a, b])
    ensures ValidSlot(a) ==>
      Step(m, pc) == Ok(Advance(m.(regs := m.regs[Slot(a) := Normalise(GetValue(m.regs, b))]), pc + 3))
    ensures !ValidSlot(a) ==> Step(m, pc) == Err(InvalidRegister(a))
  {
    Dispatches(m, pc, Set, [a, b]);
  }

  /** The register a write stores into after a binary operation computes v. */
  ghost function Stored(m: Machine, pc: nat, a: int, v: int): Result<Transition>
    requires ValidSlot(a)
  {
    Ok(Advance(m.(regs := m.regs[Slot(a) := v]), pc + 4))
  }

  lemma BinaryDispatch(m: Machine, pc: nat, op: OpCode, a: int, b: int, c: int)
    requires IsBinary(op) && At(m, pc, op, [a, b, c])
    ensures Step(m, pc) == Binary(m, pc, op)
    ensures Operand(m, pc, 1) == Ok(a) && Operand(m, pc, 2) == Ok(b) && Operand(m, pc, 3) == Ok(c)
  {
    Dispatches(m, pc, op, [a, b, c]);
  }

  /**
    A three-operand instruction whose destination names no register slot
    faults with InvalidRegister once its value is computed; only MOD by zero
    faults first.
   */
  lemma BinaryBadSlot(m: Machine, pc: nat, op: OpCode, a: int, b: int, c: int)
    requires IsBinary(op) && At(m, pc, op, [a, b, c]) && !ValidSlot(a)
    ensures Step(m, pc) == Err(if op == Mod && GetValue(m.regs, c) == 0 then DivisionByZero else InvalidRegister(a))
  {
    BinaryDispatch(m, pc, op, a, b, c);
  }

  /** ADD of non-negative resolved operands stores their sum modulo 2^15. */
  lemma AddStep(m: Machine, pc: nat, a: int, b: int, c: int)
    requires At(m, pc, Add, [a, b, c])
    requires GetValue(m.regs, b) >= 0 && GetValue(m.regs, c) >= 0
    ensures ValidSlot(a) ==>
      Step(m, pc) == Stored(m, pc, a, (GetValue(m.regs, b) + GetValue(m.regs, c)) % AddressSpace)
    ensures !ValidSlot(a) ==> Step(m, pc) == Err(InvalidRegister(a))
  {
    if ValidSlot(a) {
      var sum := GetValue(m.regs, b) + GetValue(m.regs, c);
      StoreResidue(m, pc, Add, a, b, c, sum);
    } else {
      BinaryBadSlot(m, pc, Add, a, b, c);
    }
  }

  /** MULT of non-negative resolved operands stores their product modulo 2^15. */
  lemma MultStep(m: Machine, pc: nat, a: int, b: int, c: int)
    requires At(m, pc, Mult, [a, b, c])
    requires GetValue(m.regs, b) >= 0 && GetValue(m.regs, c) >= 0
    ensures ValidSlot(a) ==>
      Step(m, pc) == Stored(m, pc, a, (GetValue(m.regs, b) * GetValue(m.regs, c)) % AddressSpace)
    ensures !ValidSlot(a) ==> Step(m, pc) == Err(InvalidRegister(a))
  {
    if ValidSlot(a) {
      var product := GetValue(m.regs, b) * GetValue(m.regs, c);
      StoreResidue(m, pc, Mult, a, b, c, product);
    } else {
      BinaryBadSlot(m, pc, Mult, a, b, c);
    }
  }

  /**
    MOD faults on a zero divisor before anything else; with a register
    destination it faults on nothing else, and on words it stores the
    remainder, below the divisor.
   */
  lemma ModStep(m: Machine, pc: nat, a: int, b: int, c: int)
    requires At(m, pc, Mod, [a, b, c])
    ensures GetValue(m.regs, c) == 0 ==> Step(m, pc) == Err(DivisionByZero)
    ensures ValidSlot(a) ==> (Step(m, pc).Err? <==> GetValue(m.regs, c) == 0)
    ensures ValidSlot(a) && 0 <= GetValue(m.regs, b) < AddressSpace && 0 < GetValue(m.regs, c) < AddressSpace ==>
      && Step(m, pc) == Stored(m, pc, a, GetValue(m.regs, b) % GetValue(m.regs, c))
      && 0 <= GetValue(m.regs, b) % GetValue(m.regs, c) < GetValue(m.regs, c)
    ensures !ValidSlot(a) ==>
      Step(m, pc) == Err(if GetValue(m.regs, c) == 0 then DivisionByZero else InvalidRegister(a))
  {
    BinaryDispatch(m, pc, Mod, a, b, c);
    var x, y := GetValue(m.regs, b), GetValue(m.regs, c);
    if !ValidSlot(a) {
      BinaryBadSlot(m, pc, Mod, a, b, c);
    } else if 0 <= x < AddressSpace && 0 < y < AddressSpace {
      StoreWord(m, pc, Mod, a, b, c, x % y);
    }
  }

  /** EQ and GT store 1 when the relation holds of the resolved operands and 0 otherwise. */
  lemma CompareStep(m: Machine, pc: nat, op: OpCode, a: int, b: int, c: int)
    requires op == Eq || op == Gt
    requires At(m, pc, op, [a, b, c])
    ensures ValidSlot(a) ==>
      var x, y := GetValue(m.regs, b), GetValue(m.regs, c);
      var holds := if op == Eq then x == y else x > y;
      Step(m, pc) == Stored(m, pc, a, if holds then 1 else 0)
    ensures !ValidSlot(a) ==> Step(m, pc) == Err(InvalidRegister(a))
  {
    if ValidSlot(a) {
      var x, y := GetValue(m.regs, b), GetValue(m.regs, c);
      var holds := if op == Eq then x == y else x > y;
      StoreWord(m, pc, op, a, b, c, if holds then 1 else 0);
    } else {
      BinaryBadSlot(m, pc, op, a, b, c);
    }
  }

  /** AND and OR of two words store a word, bounded by the operands as bitwise operations are. */
  lemma BitwiseStep(m: Machine, pc: nat, op: OpCode, a: int, b: int, c: int)
    requires op == And || op == Or
    requires At(m, pc, op, [a, b, c])
    requires 0 <= GetValue(m.regs, b) < AddressSpace && 0 <= GetValue(m.regs, c) < AddressSpace
    ensures var x, y := GetValue(m.regs, b), GetValue(m.regs, c);
      var v := if op == And then BitAnd(x, y) else BitOr(x, y);
      && (ValidSlot(a) ==> Step(m, pc) == Stored(m, pc, a, v))
      && 0 <= v < AddressSpace
      && (op == And ==> v <= x && v <= y)
      && (op == Or ==> x <= v && y <= v)
    ensures !ValidSlot(a) ==> Step(m, pc) == Err(InvalidRegister(a))
  {
    var x, y := GetValue(m.regs, b), GetValue(m.regs, c);
    BitOpsOnWords(x, y);
    if ValidSlot(a) {
      var v := if op == And then BitAnd(x, y) else BitOr(x, y);
      StoreWord(m, pc, op, a, b, c, v);
    } else {
      BinaryBadSlot(m, pc, op, a, b, c);
    }
  }

  /** A binary instruction whose computed value is already a word stores it unchanged. */
  lemma StoreWord(m: Machine, pc: nat, op: OpCode, a: int, b: int, c: int, v: int)
    requires IsBinary(op) && At(m, pc, op, [a, b, c]) && ValidSlot(a)
    requires Compute(op, GetValue(m.regs, b), GetValue(m.regs, c)) == Ok(v)
    requires 0 <= v < AddressSpace
    ensures Step(m, pc) == Stored(m, pc, a, v)
  {
    assert v % AddressSpace == v;
    StoreResidue(m, pc, op, a, b, c, v);
  }

  /** A binary instruction stores the residue modulo 2^15 of any value it computes from -2^15 on. */
  lemma StoreResidue(m: Machine, pc: nat, op: OpCode, a: int, b: int, c: int, v: int)
    requires IsBinary(op) && At(m, pc, op, [a, b, c]) && ValidSlot(a)
    requires Compute(op, GetValue(m.regs, b), GetValue(m.regs, c)) == Ok(v)
    requires v >= -AddressSpace
    ensures Step(m, pc) == Stored(m, pc, a, v % AddressSpace)
  {
    BinaryDispatch(m, pc, op, a, b, c);
    NormaliseIsResidue(v);
  }

  /** NOT of a word v stores its 15-bit complement 32767 - v; a destination naming no slot faults. */
  lemma NotStep(m: Machine, pc: nat, a: int, b: int)
    requires At(m, pc, Not, [a, b])
    requires 0 <= GetValue(m.regs, b) < AddressSpace
    ensures ValidSlot(a) ==>
      Step(m, pc) == Ok(Advance(m.(regs := m.regs[Slot(a) := 32767 - GetValue(m.regs, b)]), pc + 3))
    ensures !ValidSlot(a) ==> Step(m, pc) == Err(InvalidRegister(a))
  {
    Dispatches(m, pc, Not, [a, b]);
  }

  /**
    Operand words above the register range resolve to themselves, and a
    register write adds 2^15 only once to a negative value: NOT of the
    literal 40000 leaves a negative number in the destination register.
   */
  lemma NotOfWideLiteral(m: Machine, pc: nat, a: int)
    requires At(m, pc, Not, [a, 40000]) && ValidSlot(a)
    ensures Step(m, pc) == Ok(Advance(m.(regs := m.regs[Slot(a) := -7233]), pc + 3))
  {
    Dispatches(m, pc, Not, [a, 40000]);
    assert GetValue(m.regs, 40000) == 40000;
  }

  /**
    RMEM copies the memory word at the resolved address, normalised, into the
    raw destination register. An out-of-range address faults before the
    destination is checked.
   */
  lemma RMemStep(m: Machine, pc: nat, a: int, b: int)
    requires At(m, pc, RMem, [a, b])
    ensures var addr := GetValue(m.regs, b);
      && (0 <= addr < |m.mem| && ValidSlot(a) ==>
          Step(m, pc) == Ok(Advance(m.(regs := m.regs[Slot(a) := Normalise(m.mem[addr])]), pc + 3)))
      && (0 <= addr < |m.mem| && !ValidSlot(a) ==> Step(m, pc) == Err(InvalidRegister(a)))
      && (!(0 <= addr < |m.mem|) ==> Step(m, pc) == Err(AddressOutOfRange(addr)))
  {
    Dispatches(m, pc, RMem, [a, b]);
  }

  /** WMEM changes exactly the memory cell at the resolved address, to the resolved value, unnormalised. */
  lemma WMemStep(m: Machine, pc: nat, a: int, b: int)
    requires At(m, pc, WMem, [a, b])
    ensures var addr := GetValue(m.regs, a);
      && (0 <= addr < |m.mem| ==>
          Step(m, pc) == Ok(Advance(m.(mem := m.mem[addr := GetValue(m.regs, b)]), pc + 3)))
      && (!(0 <= addr < |m.mem|) ==> Step(m, pc) == Err(AddressOutOfRange(addr)))
  {
    Dispatches(m, pc, WMem, [a, b]);
  }

  /** JMP always transfers to its resolved operand; a negative target is a fault. */
  lemma JmpStep(m: Machine, pc: nat, a: int)
    requires At(m, pc, Jmp, [a])
    ensures GetValue(m.regs, a) >= 0 ==> Step(m, pc) == Ok(Next(GetValue(m.regs, a), m))
    ensures GetValue(m.regs, a) < 0 ==> Step(m, pc) == Err(AddressOutOfRange(GetValue(m.regs, a)))
  {
    Dispatches(m, pc, Jmp, [a]);
  }

  /**
    JT transfers to its second operand iff the first is non-zero; otherwise
    it continues at the opcode search from pc + 3 without reading the target.
   */
  lemma JtStep(m: Machine, pc: nat)
    requires pc + 1 < |m.mem| && m.mem[pc] == Code(Jt)
    ensures var x := GetValue(m.regs, m.mem[pc + 1]);
      && (x == 0 ==> Step(m, pc) == Ok(Advance(m, pc + 3)))
      && (x != 0 && pc + 2 < |m.mem| ==> Step(m, pc) == Transfer(m, GetValue(m.regs, m.mem[pc + 2])))
      && (x != 0 && pc + 2 == |m.mem| ==> Step(m, pc) == Err(AddressOutOfRange(pc + 2)))
  {
    Dispatches(m, pc, Jt, [m.mem[pc + 1]]);
  }

  /** JF is JT with the test inverted: it transfers iff the first operand is zero. */
  lemma JfStep(m: Machine, pc: nat)
    requires pc + 1 < |m.mem| && m.mem[pc] == Code(Jf)
    ensures var x := GetValue(m.regs, m.mem[pc + 1]);
      && (x != 0 ==> Step(m, pc) == Ok(Advance(m, pc + 3)))
      && (x == 0 && pc + 2 < |m.mem| ==> Step(m, pc) == Transfer(m, GetValue(m.regs, m.mem[pc + 2])))
      && (x == 0 && pc + 2 == |m.mem| ==> Step(m, pc) == Err(AddressOutOfRange(pc + 2)))
  {
    Dispatches(m, pc, Jf, [m.mem[pc + 1]]);
  }

  /** PUSH puts the resolved operand on top of the stack and changes nothing else. */
  lemma PushStep(m: Machine, pc: nat, a: int)
    requires At(m, pc, Push, [a])
    ensures Step(m, pc) == Ok(Advance(m.(stack := m.stack + [GetValue(m.regs, a)]), pc + 2))
  {
    Dispatches(m, pc, Push, [a]);
  }

  /**
    POP takes the top of the stack, resolves it, and stores it normalised into
    the raw destination register; the rest of the stack remains.
   */
  lemma PopStep(m: Machine, pc: nat, r: int)
    requires At(m, pc, Pop, [r]) && |m.stack| > 0
    ensures var top, rest := m.stack[|m.stack| - 1], m.stack[..|m.stack| - 1];
      && (ValidSlot(r) ==>
            Step(m, pc) == Ok(Advance(m.(regs := m.regs[Slot(r) := Normalise(GetValue(m.regs, top))], stack := rest), pc + 2)))
      && (!ValidSlot(r) ==> Step(m, pc) == Err(InvalidRegister(r)))
  {
    Dispatches(m, pc, Pop, [r]);
  }

  /** POP and RET on an empty stack fault with a stack underflow. */
  lemma EmptyStackFaults(m: Machine, pc: nat, a: int)
    requires m.stack == []
    requires At(m, pc, Pop, [a]) || At(m, pc, Ret, [])
    ensures Step(m, pc) == Err(StackUnderflow)
  {
    if At(m, pc, Pop, [a]) {
      Dispatches(m, pc, Pop, [a]);
    } else {
      Dispatches(m, pc, Ret, []);
    }
  }

  /**
    PUSH v followed by POP r: the stack is as before and r holds v resolved
    (and normalised); nothing else changes.
   */
  lemma PushThenPop(m: Machine, pc: nat, v: int, pc': nat, r: int)
    requires RegistersBelowReferences(m.regs)
    requires At(m, pc, Push, [v])
    requires NextOpCodeIndex(m.mem, pc + 2) == pc'
    requires At(m, pc', Pop, [r]) && ValidSlot(r)
    ensures var m1 := m.(stack := m.stack + [GetValue(m.regs, v)]);
      && Step(m, pc) == Ok(Next(pc', m1))
      && Step(m1, pc') == Ok(Advance(m.(regs := m.regs[Slot(r) := Normalise(GetValue(m.regs, v))]), pc' + 2))
  {
    PushStep(m, pc, v);
    var m1 := m.(stack := m.stack + [GetValue(m.regs, v)]);
    assert At(m1, pc', Pop, [r]);
    Dispatches(m1, pc', Pop, [r]);
    GetValueIdempotent(m.regs, v);
    assert (m.stack + [GetValue(m.regs, v)])[..|m.stack|] == m.stack;
  }

  /**
    CALL pushes the scan result from pc + 2 (-1 when no opcode word follows)
    and transfers to its resolved operand; a negative target faults.
   */
  lemma CallStep(m: Machine, pc: nat, a: int)
    requires At(m, pc, Call, [a])
    ensures var ret := NextOpCodeIndex(m.mem, pc + 2);
      && Step(m, pc) == Transfer(m.(stack := m.stack + [ret]), GetValue(m.regs, a))
      && (GetValue(m.regs, a) >= 0 ==> Step(m, pc) == Ok(Next(GetValue(m.regs, a), m.(stack := m.stack + [ret]))))
      && (GetValue(m.regs, a) < 0 ==> Step(m, pc) == Err(AddressOutOfRange(GetValue(m.regs, a))))
  {
    Dispatches(m, pc, Call, [a]);
  }

  /**
    CALL pushes the address of the first opcode word after its operand and
    jumps; a RET at the target pops it and resumes exactly there, with the
    stack as before the CALL.
   */
  lemma CallThenRet(m: Machine, pc: nat, a: int)
    requires |m.mem| <= AddressSpace
    requires At(m, pc, Call, [a])
    requires var t := GetValue(m.regs, a); 0 <= t < |m.mem| && m.mem[t] == Code(Ret)
    ensures var t, ret := GetValue(m.regs, a), NextOpCodeIndex(m.mem, pc + 2);
      && Step(m, pc) == Ok(Next(t, m.(stack := m.stack + [ret])))
      && (ret >= 0 ==> Step(m.(stack := m.stack + [ret]), t) == Ok(Next(ret, m)))
      && (ret < 0 ==> Step(m.(stack := m.stack + [ret]), t) == Err(AddressOutOfRange(-1)))
  {
    Dispatches(m, pc, Call, [a]);
    var t, ret := GetValue(m.regs, a), NextOpCodeIndex(m.mem, pc + 2);
    var m1 := m.(stack := m.stack + [ret]);
    Dispatches(m1, t, Ret, []);
    assert (m.stack + [ret])[..|m.stack|] == m.stack;
  }

  /**
    RET pops the top and resumes at it, resolved; a negative word faults.
    A return address below the register range is used as it is.
   */
  lemma RetStep(m: Machine, pc: nat)
    requires At(m, pc, Ret, []) && |m.stack| > 0
    ensures var top, rest := m.stack[|m.stack| - 1], m.stack[..|m.stack| - 1];
      && Step(m, pc) == Transfer(m.(stack := rest), GetValue(m.regs, top))
      && (0 <= top < AddressSpace ==> Step(m, pc) == Ok(Next(top, m.(stack := rest))))
      && (top < 0 ==> Step(m, pc) == Err(AddressOutOfRange(top)))
  {
    Dispatches(m, pc, Ret, []);
  }

  /** OUT appends exactly one character, the resolved operand truncated to 16 bits. */
  lemma OutStep(m: Machine, pc: nat, a: int)
    requires At(m, pc, Out, [a])
    ensures Step(m, pc) == Ok(Advance(m.(output := m.output + [ToChar(GetValue(m.regs, a))]), pc + 2))
  {
    Dispatches(m, pc, Out, [a]);
  }

  /**
    IN consumes exactly the first pending character. A target in the register
    range stores it, normalised, into that register; any other target stores
    it raw into memory at that address. With nothing pending, it faults.
   */
  lemma InStep(m: Machine, pc: nat, target: int)
    requires At(m, pc, In, [target])
    ensures |Pending(m.queue, m.lines)| == 0 ==> Step(m, pc) == Err(InputExhausted)
    ensures |Pending(m.queue, m.lines)| > 0 ==>
      var (c, q, ls) := NextChar(m.queue, m.lines).value;
      var m1 := m.(queue := q, lines := ls);
      && Pending(m.queue, m.lines) == [c] + Pending(q, ls)
      && (IsRegisterReference(target) ==>
          Step(m, pc) == Ok(Advance(m1.(regs := m.regs[target - AddressSpace := Normalise(c)]), pc + 2)))
      && (!IsRegisterReference(target) && 0 <= target < |m.mem| ==>
          Step(m, pc) == Ok(Advance(m1.(mem := m.mem[target := c]), pc + 2)))
      && (!IsRegisterReference(target) && !(0 <= target < |m.mem|) ==>
          Step(m, pc) == Err(AddressOutOfRange(target)))
  {
    Dispatches(m, pc, In, [target]);
    NextCharConsumesOne(m.queue, m.lines);
    if IsRegisterReference(target) {
      SlotOfNonNegative(target);
    }
  }
}
