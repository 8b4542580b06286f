/**
  Properties of whole runs: how fuel composes, what a padded image does
  past its end, small complete programs, and the invariant that a valid
  image keeps every register a 15-bit word.
 */
module RunProperties {

  import opened Faults
  import opened OpCodes
  import opened IntOps
  import opened VirtualMachine
  import opened Engine
  import opened StepProperties

  /** Resume a run that ran out of fuel with `fuel` more steps; any other outcome is final. */
  function Resume(o: Outcome, fuel: nat): Outcome {
    if o.OutOfFuel? then Run(o.m, o.pc, fuel) else o
  }

  /** Running f1 + f2 steps is running f1 steps and then resuming with f2. */
  lemma {:induction false} RunAdditive(m: Machine, pc: nat, f1: nat, f2: nat)
    ensures Run(m, pc, f1 + f2) == Resume(Run(m, pc, f1), f2)
    decreases f1, 1
  {
    if f1 > 0 {
      ContinueAdditive(Step(m, pc), pc, m, f1 - 1, f2);
    }
  }

  /** The same for the rest of a run after its first step. */
  lemma {:induction false} ContinueAdditive(r: Result<Transition>, pc: nat, m: Machine, f1: nat, f2: nat)
    ensures Continue(r, pc, m, f1 + f2) == Resume(Continue(r, pc, m, f1), f2)
    decreases f1 + 1, 0
  {
    if r.Ok? && r.value.Next? {
      RunAdditive(r.value.m, r.value.pc, f1, f2);
    }
  }

  /** Once a run has ended within its fuel, more fuel changes nothing. */
  lemma RunSettles(m: Machine, pc: nat, f1: nat, f2: nat)
    requires !Run(m, pc, f1).OutOfFuel?
    requires f1 <= f2
    ensures Run(m, pc, f2) == Run(m, pc, f1)
  {
    RunAdditive(m, pc, f1, f2 - f1);
  }

  /**
    A chain of outcomes in which every link below `last` equals the next one
    with one unit of fuel less, and the last link is `o` whenever it has fuel,
    is `o` from any link whose fuel reaches the end.
   */
  lemma {:induction false} ChainEnds(f: (nat, nat) -> Outcome, pc: nat, last: nat, fuel: nat, o: Outcome)
    requires pc <= last && fuel > last - pc
    requires forall p: nat, k: nat :: pc <= p < last && k > 0 ==> f(p, k) == f(p + 1, k - 1)
    requires forall k: nat :: k > 0 ==> f(last, k) == o
    ensures f(pc, fuel) == o
    decreases last - pc
  {
    if pc < last {
      ChainEnds(f, pc + 1, last, fuel - 1, o);
    }
  }

  /**
    A tail of memory holding only NOOPs is walked one word at a time, and the
    run stops, with nothing changed, after its last word.
   */
  lemma NoopsRunOut(m: Machine, pc: nat, fuel: nat)
    requires pc < |m.mem|
    requires forall i :: pc <= i < |m.mem| ==> m.mem[i] == Code(Noop)
    requires fuel >= |m.mem| - pc
    ensures Run(m, pc, fuel) == Stopped(m)
  {
    var last := |m.mem| - 1;
    forall p: nat, k: nat | pc <= p < last && k > 0
      ensures Run(m, p, k) == Run(m, p + 1, k - 1)
    {
      NoopWalks(m, p, k);
    }
    forall k: nat | k > 0
      ensures Run(m, last, k) == Stopped(m)
    {
      NoopHalts(m, last, k);
    }
    ChainEnds((p: nat, k: nat) => Run(m, p, k), pc, last, fuel, Stopped(m));
  }

  /** A NOOP followed by an opcode word passes on to it. */
  lemma NoopWalks(m: Machine, pc: nat, fuel: nat)
    requires pc + 1 < |m.mem| && m.mem[pc] == Code(Noop) && IsOpCode(m.mem[pc + 1])
    requires fuel > 0
    ensures Run(m, pc, fuel) == Run(m, pc + 1, fuel - 1)
  {
    NoopStep(m, pc);
    RunThrough(m, pc, fuel, Next(pc + 1, m));
  }

  /** A NOOP in the last word of memory halts the machine unchanged. */
  lemma NoopHalts(m: Machine, pc: nat, fuel: nat)
    requires pc + 1 == |m.mem| && m.mem[pc] == Code(Noop)
    requires fuel > 0
    ensures Run(m, pc, fuel) == Stopped(m)
  {
    NoopStep(m, pc);
    RunThrough(m, pc, fuel, Halted(m));
  }

  /** A run with fuel left continues from whatever its first step yields. */
  lemma RunThrough(m: Machine, pc: nat, fuel: nat, t: Transition)
    requires fuel > 0
    requires Step(m, pc) == Ok(t)
    ensures t.Halted? ==> Run(m, pc, fuel) == Stopped(t.m)
    ensures t.Next? ==> Run(m, pc, fuel) == Run(t.m, t.pc, fuel - 1)
  {
  }

  /** An empty image is all padding: it runs 32768 NOOPs and halts with nothing changed. */
  lemma EmptyImageHalts(lines: seq<seq<int>>)
    ensures Execute([], lines, AddressSpace) == Stopped(Load([], lines))
  {
    NoopsRunOut(Load([], lines), 0, AddressSpace);
  }

  /** A program consisting of HALT stops at once and has no effect. */
  lemma HaltProgram(lines: seq<seq<int>>)
    ensures Execute([Code(Halt)], lines, 1) == Stopped(Load([Code(Halt)], lines))
  {
    var m := Load([Code(Halt)], lines);
    assert m.mem[0] == Code(Halt);
    HaltStep(m, 0);
  }

  /** A word that is no opcode faults before any change, whatever the fuel. */
  lemma InvalidOpcodeProgram(lines: seq<seq<int>>, fuel: nat)
    requires fuel > 0
    ensures Execute([9999], lines, fuel) == Crashed(InvalidOpcode(9999), 0, Load([9999], lines))
  {
    var m := Load([9999], lines);
    assert m.mem[0] == 9999;
    StepFetch(m, 0);
    assert Step(m, 0) == Err(InvalidOpcode(9999));
    assert Run(m, 0, fuel) == Continue(Err(InvalidOpcode(9999)), 0, m, fuel - 1);
  }

  /** OUT 'h', OUT 'i', HALT with literal operands prints exactly "hi". */
  lemma HelloProgram()
    ensures var o := Execute([19, 104, 19, 105, 0], [], 3);
      o.Stopped? && o.m.output == [104, 105]
  {
    var image := [19, 104, 19, 105, 0];
    var m := Load(image, []);
    assert m.mem[..5] == image;
    assert m.mem[0] == 19 && m.mem[1] == 104 && m.mem[2] == 19 && m.mem[3] == 105 && m.mem[4] == 0;
    OutStep(m, 0, 104);
    assert NextOpCodeIndex(m.mem, 2) == 2;
    var m1 := m.(output := [104]);
    assert m.(output := m.output + [ToChar(GetValue(m.regs, 104))]) == m1;
    assert Step(m, 0) == Ok(Next(2, m1));
    OutStep(m1, 2, 105);
    assert NextOpCodeIndex(m1.mem, 4) == 4;
    var m2 := m1.(output := [104, 105]);
    assert m1.(output := m1.output + [ToChar(GetValue(m1.regs, 105))]) == m2;
    assert Step(m1, 2) == Ok(Next(4, m2));
    HaltStep(m2, 4);
  }

  // ------------------------------------------------------------ invariant

  ghost predicate WordsIn(s: seq<int>, lo: int, hi: int) {
    forall i :: 0 <= i < |s| ==> lo <= s[i] <= hi
  }

  /** Every register holds a 15-bit word. */
  ghost predicate RegistersAreWords(regs: Registers) {
    forall j :: 0 <= j < RegisterCount ==> 0 <= regs[j] < AddressSpace
  }

  /**
    A machine running a valid image: exactly the address space, every memory
    word a literal or register reference, registers 15-bit words, the stack
    holding words or the -1 a CALL pushes when no opcode follows it, and
    input characters below 2^15.
   */
  ghost predicate WellFormed(m: Machine) {
    && |m.mem| == AddressSpace
    && WordsIn(m.mem, 0, AddressSpace + 7)
    && RegistersAreWords(m.regs)
    && WordsIn(m.stack, -1, AddressSpace - 1)
    && WordsIn(m.queue, 0, AddressSpace - 1)
    && forall k :: 0 <= k < |m.lines| ==> WordsIn(m.lines[k], 0, AddressSpace - 1)
  }

  /** A valid image fed with 15-bit input starts well formed. */
  lemma LoadWellFormed(image: seq<int>, lines: seq<seq<int>>)
    requires |image| <= AddressSpace
    requires WordsIn(image, 0, AddressSpace + 7)
    requires forall k :: 0 <= k < |lines| ==> WordsIn(lines[k], 0, AddressSpace - 1)
    ensures WellFormed(Load(image, lines))
  {
    var mem := Load(image, lines).mem;
    forall i | 0 <= i < |mem|
      ensures 0 <= mem[i] <= AddressSpace + 7
    {
      if i < |image| {
        assert mem[i] == mem[..|image|][i];
      }
    }
  }

  /** Resolving a valid operand word yields a 15-bit word. */
  lemma ResolveWord(regs: Registers, x: int)
    requires RegistersAreWords(regs)
    requires 0 <= x <= AddressSpace + 7
    ensures 0 <= GetValue(regs, x) < AddressSpace
  {
  }

  /** A register write of any value from -2^15 on keeps every register a word. */
  lemma SetRegisterKeepsWords(regs: Registers, index: int, v: int)
    requires RegistersAreWords(regs)
    requires v >= -AddressSpace
    requires SetRegister(regs, index, v).Ok?
    ensures RegistersAreWords(SetRegister(regs, index, v).value)
  {
  }

  /** The opcode search over the address space lands inside it or reports -1. */
  lemma NextOpCodeIndexBounded(mem: seq<int>, start: nat)
    requires |mem| == AddressSpace
    ensures -1 <= NextOpCodeIndex(mem, start) <= AddressSpace - 1
  {
  }

  /** Refilling and reading the queue keeps every pending character below 2^15. */
  lemma NextCharKeepsWords(m: Machine)
    requires WellFormed(m)
    requires NextChar(m.queue, m.lines).Ok?
    ensures var (c, q, ls) := NextChar(m.queue, m.lines).value;
      && 0 <= c < AddressSpace
      && WellFormed(m.(queue := q, lines := ls))
  {
    var (c, q, ls) := NextChar(m.queue, m.lines).value;
    if |m.queue| == 0 {
      var refill := m.lines[0] + [Newline];
      assert WordsIn(refill, 0, AddressSpace - 1);
      assert [c] + q == refill;
      assert c == refill[0];
      assert q == refill[1..];
      assert forall k :: 0 <= k < |ls| ==> ls[k] == m.lines[k + 1];
    }
  }

  /** Transitions that leave the machine as it was keep it well formed. */
  lemma AdvanceKeeps(m: Machine, from: nat)
    requires WellFormed(m)
    ensures WellFormed(Advance(m, from).m)
  {
  }

  /** On 15-bit words, every three-operand instruction computes a non-negative value. */
  lemma ComputeOnWords(op: OpCode, x: int, y: int)
    requires IsBinary(op)
    requires 0 <= x < AddressSpace && 0 <= y < AddressSpace
    ensures Compute(op, x, y).Ok? ==> Compute(op, x, y).value >= 0
  {
    if op == And || op == Or {
      BitOpsOnWords(x, y);
    }
  }

  lemma BinaryKeeps(m: Machine, pc: nat, op: OpCode)
    requires WellFormed(m) && IsBinary(op)
    ensures Binary(m, pc, op).Ok? ==> WellFormed(Binary(m, pc, op).value.m)
  {
    if Binary(m, pc, op).Ok? {
      var a := Operand(m, pc, 1).value;
      var b := Operand(m, pc, 2).value;
      var c := Operand(m, pc, 3).value;
      var x, y := GetValue(m.regs, b), GetValue(m.regs, c);
      ResolveWord(m.regs, b);
      ResolveWord(m.regs, c);
      ComputeOnWords(op, x, y);
      SetRegisterKeepsWords(m.regs, a, Compute(op, x, y).value);
    }
  }

  lemma StackOpsKeep(m: Machine, pc: nat, op: OpCode)
    requires WellFormed(m)
    requires op in {Push, Pop, Call, Ret}
    ensures Dispatch(m, pc, op).Ok? ==> WellFormed(Dispatch(m, pc, op).value.m)
  {
    if Dispatch(m, pc, op).Ok? {
      match op
      case Push =>
        ResolveWord(m.regs, Operand(m, pc, 1).value);
      case Pop =>
        var top := m.stack[|m.stack| - 1];
        assert GetValue(m.regs, top) == top;
        SetRegisterKeepsWords(m.regs, Operand(m, pc, 1).value, top);
        assert WordsIn(m.stack[..|m.stack| - 1], -1, AddressSpace - 1);
      case Call =>
        NextOpCodeIndexBounded(m.mem, pc + 2);
      case Ret =>
        assert WordsIn(m.stack[..|m.stack| - 1], -1, AddressSpace - 1);
    }
  }

  lemma MemoryOpsKeep(m: Machine, pc: nat, op: OpCode)
    requires WellFormed(m)
    requires op in {Set, Not, RMem, WMem}
    ensures Dispatch(m, pc, op).Ok? ==> WellFormed(Dispatch(m, pc, op).value.m)
  {
    if Dispatch(m, pc, op).Ok? {
      var a := Operand(m, pc, 1).value;
      var b := Operand(m, pc, 2).value;
      ResolveWord(m.regs, b);
      match op
      case Set =>
        SetRegisterKeepsWords(m.regs, a, GetValue(m.regs, b));
      case Not =>
        SetRegisterKeepsWords(m.regs, a, Inv(GetValue(m.regs, b)));
      case RMem =>
        var v := m.mem[GetValue(m.regs, b)];
        SetRegisterKeepsWords(m.regs, a, v);
      case WMem =>
        ResolveWord(m.regs, a);
    }
  }

  lemma InKeeps(m: Machine, pc: nat)
    requires WellFormed(m)
    ensures Dispatch(m, pc, In).Ok? ==> WellFormed(Dispatch(m, pc, In).value.m)
  {
    if Dispatch(m, pc, In).Ok? {
      NextCharKeepsWords(m);
      var (c, q, ls) := NextChar(m.queue, m.lines).value;
      var target := Operand(m, pc, 1).value;
      if IsRegisterReference(target) {
        SetRegisterKeepsWords(m.regs, target, c);
      }
    }
  }

  /** Every instruction keeps a well-formed machine well formed. */
  lemma StepKeepsWellFormed(m: Machine, pc: nat)
    requires WellFormed(m)
    ensures Step(m, pc).Ok? ==> WellFormed(Step(m, pc).value.m)
  {
    if Step(m, pc).Ok? {
      var op := FromInt(m.mem[pc]).value;
      FromIntCode(op, m.mem[pc]);
      StepFetch(m, pc);
      assert Step(m, pc) == Dispatch(m, pc, op);
      if IsBinary(op) {
        BinaryKeeps(m, pc, op);
      } else if op in {Push, Pop, Call, Ret} {
        StackOpsKeep(m, pc, op);
      } else if op in {Set, Not, RMem, WMem} {
        MemoryOpsKeep(m, pc, op);
      } else if op == In {
        InKeeps(m, pc);
      }
    }
  }

  /** A run that starts well formed ends well formed, whichever way it ends. */
  lemma {:induction false} RunKeepsWellFormed(m: Machine, pc: nat, fuel: nat)
    requires WellFormed(m)
    ensures WellFormed(Run(m, pc, fuel).m)
    decreases fuel
  {
    if fuel > 0 {
      StepKeepsWellFormed(m, pc);
      var s := Step(m, pc);
      if s.Ok? && s.value.Next? {
        RunKeepsWellFormed(s.value.m, s.value.pc, fuel - 1);
      }
    }
  }

  /**
    The normalisation invariant: running a valid image on 15-bit input, every
    register holds a word in 0..32767 however the run ends.
   */
  lemma RegistersStayWords(image: seq<int>, lines: seq<seq<int>>, fuel: nat)
    requires |image| <= AddressSpace
    requires WordsIn(image, 0, AddressSpace + 7)
    requires forall k :: 0 <= k < |lines| ==> WordsIn(lines[k], 0, AddressSpace - 1)
    ensures RegistersAreWords(Execute(image, lines, fuel).m.regs)
  {
    LoadWellFormed(image, lines);
    RunKeepsWellFormed(Load(image, lines), 0, fuel);
  }
}
