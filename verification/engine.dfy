/**
  The fetch/decode/execute loop. One step runs the instruction at the
  program counter and yields the address to continue at, a halt, or a
  fault; a run repeats steps until one of the latter two, within a fuel bound.
 */
module Engine {

  import opened Faults
  import opened OpCodes
  import opened IntOps
  import opened VirtualMachine

  /** What one instruction leaves behind when it does not fault. */
  datatype Transition =
    | Next(pc: nat, m: Machine)
    | Halted(m: Machine)

  /** The raw operand word `k` places after the opcode at `pc`. */
  function Operand(m: Machine, pc: nat, k: nat): Result<int> {
    Read(m.mem, pc + k)
  }

  /**
    The ordinary advance: continue at the first opcode word at or after
    `from`; when memory holds none, the loop ends.
   */
  function Advance(m: Machine, from: nat): (t: Transition)
    ensures t.m == m
    ensures t.Halted? <==> NextOpCodeIndex(m.mem, from) == -1
    ensures t.Next? ==> from <= t.pc < |m.mem| && IsOpCode(m.mem[t.pc])
    ensures t.Next? ==> forall j :: from <= j < t.pc ==> !IsOpCode(m.mem[j])
  {
    var i := NextOpCodeIndex(m.mem, from);
    if i < 0 then Halted(m) else Next(i, m)
  }

  /** The advance past an instruction's own operands. */
  function Proceed(m: Machine, pc: nat, op: OpCode): Transition {
    Advance(m, pc + Arity(op) + 1)
  }

  /**
    A control transfer. The Kotlin code re-enters its dispatcher at the target,
    which throws at once for a negative address; any other target is where
    the next step fetches.
   */
  function Transfer(m: Machine, target: int): (r: Result<Transition>)
    ensures r.Ok? <==> target >= 0
    ensures r.Ok? ==> r.value == Next(target, m)
    ensures r.Err? ==> r.fault == AddressOutOfRange(target)
  {
    if target < 0 then Err(AddressOutOfRange(target)) else Ok(Next(target, m))
  }

  /** The opcodes that store a function of two resolved operands into a register. */
  predicate IsBinary(op: OpCode) {
    op.Eq? || op.Gt? || op.Add? || op.Mult? || op.Mod? || op.And? || op.Or?
  }

  /** The value a three-operand instruction computes before the register write. */
  function Compute(op: OpCode, x: int, y: int): (r: Result<int>)
    requires IsBinary(op)
    ensures r.Err? <==> op == Mod && y == 0
    ensures r.Err? ==> r.fault == DivisionByZero
  {
    match op
    case Eq => Ok(if x == y then 1 else 0)
    case Gt => Ok(if x > y then 1 else 0)
    case Add => Ok(x + y)
    case Mult => Ok(x * y)
    case Mod => if y == 0 then Err(DivisionByZero) else Ok(TruncRem(x, y))
    case And => Ok(BitAnd(x, y))
    case Or => Ok(BitOr(x, y))
  }

  /** The shared handler of EQ, GT, ADD, MULT, MOD, AND and OR. */
  function Binary(m: Machine, pc: nat, op: OpCode): Result<Transition>
    requires IsBinary(op)
  {
    var a :- Operand(m, pc, 1);
    var b :- Operand(m, pc, 2);
    var c :- Operand(m, pc, 3);
    var v :- Compute(op, GetValue(m.regs, b), GetValue(m.regs, c));
    var regs :- SetRegister(m.regs, a, v);
    Ok(Proceed(m.(regs := regs), pc, op))
  }

  /** Fetch and decode the word at `pc`, then run its handler. */
  function Step(m: Machine, pc: nat): Result<Transition> {
    var word :- Read(m.mem, pc);
    var op :- FromInt(word);
    Dispatch(m, pc, op)
  }

  /** The 22 handlers. Write targets are raw operand words; read operands are resolved. */
  function Dispatch(m: Machine, pc: nat, op: OpCode): Result<Transition> {
    match op
    case Halt => Ok(Halted(m))
    case Set =>
      var a :- Operand(m, pc, 1);
      var b :- Operand(m, pc, 2);
      var regs :- SetRegister(m.regs, a, GetValue(m.regs, b));
      Ok(Proceed(m.(regs := regs), pc, op))
    case Push =>
      var a :- Operand(m, pc, 1);
      Ok(Proceed(m.(stack := PushStack(m.stack, GetValue(m.regs, a))), pc, op))
    case Pop =>
      var a :- Operand(m, pc, 1);
      var popped :- PopStack(m.stack);
      var regs :- SetRegister(m.regs, a, GetValue(m.regs, popped.0));
      Ok(Proceed(m.(regs := regs, stack := popped.1), pc, op))
    case Eq => Binary(m, pc, op)
    case Gt => Binary(m, pc, op)
    case Jmp =>
      var a :- Operand(m, pc, 1);
      Transfer(m, GetValue(m.regs, a))
    case Jt =>
      var a :- Operand(m, pc, 1);
      if GetValue(m.regs, a) != 0 then
        var b :- Operand(m, pc, 2);
        Transfer(m, GetValue(m.regs, b))
      else
        Ok(Proceed(m, pc, op))
    case Jf =>
      var a :- Operand(m, pc, 1);
      if GetValue(m.regs, a) == 0 then
        var b :- Operand(m, pc, 2);
        Transfer(m, GetValue(m.regs, b))
      else
        Ok(Proceed(m, pc, op))
    case Add => Binary(m, pc, op)
    case Mult => Binary(m, pc, op)
    case Mod => Binary(m, pc, op)
    case And => Binary(m, pc, op)
    case Or => Binary(m, pc, op)
    case Not =>
      var a :- Operand(m, pc, 1);
      var b :- Operand(m, pc, 2);
      var regs :- SetRegister(m.regs, a, Inv(GetValue(m.regs, b)));
      Ok(Proceed(m.(regs := regs), pc, op))
    case RMem =>
      var a :- Operand(m, pc, 1);
      var b :- Operand(m, pc, 2);
      var v :- Read(m.mem, GetValue(m.regs, b));
      var regs :- SetRegister(m.regs, a, v);
      Ok(Proceed(m.(regs := regs), pc, op))
    case WMem =>
      var a :- Operand(m, pc, 1);
      var b :- Operand(m, pc, 2);
      var mem :- Write(m.mem, GetValue(m.regs, a), GetValue(m.regs, b));
      Ok(Proceed(m.(mem := mem), pc, op))
    case Call =>
      // The return address is searched from pc + 2 before the operand is read.
      var ret := NextOpCodeIndex(m.mem, pc + 2);
      var a :- Operand(m, pc, 1);
      Transfer(m.(stack := PushStack(m.stack, ret)), GetValue(m.regs, a))
    case Ret =>
      var popped :- PopStack(m.stack);
      Transfer(m.(stack := popped.1), GetValue(m.regs, popped.0))
    case Out =>
      var a :- Operand(m, pc, 1);
      Ok(Proceed(m.(output := m.output + [ToChar(GetValue(m.regs, a))]), pc, op))
    case In =>
      // The character is taken before the target operand is read.
      var read :- NextChar(m.queue, m.lines);
      var m1 := m.(queue := read.1, lines := read.2);
      var target :- Operand(m, pc, 1);
      if IsRegisterReference(target) then
        var regs :- SetRegister(m.regs, target, read.0);
        Ok(Proceed(m1.(regs := regs), pc, op))
      else
        var mem :- Write(m.mem, GetValue(m.regs, target), read.0);
        Ok(Proceed(m1.(mem := mem), pc, op))
    case Noop => Ok(Proceed(m, pc, op))
  }

  /** How a bounded run ends. */
  datatype Outcome =
    | Stopped(m: Machine)
    | Crashed(fault: Fault, pc: nat, m: Machine)
    | OutOfFuel(pc: nat, m: Machine)

  /**
    `execute`: step until a halt or a fault, for at most `fuel` steps. A crash
    reports the state at the start of the faulting instruction.
   */
  function Run(m: Machine, pc: nat, fuel: nat): Outcome
    decreases fuel, 1
  {
    if fuel == 0 then OutOfFuel(pc, m) else Continue(Step(m, pc), pc, m, fuel - 1)
  }

  /** The loop test of `execute`: go on after a Next, stop after a halt or a fault. */
  function Continue(r: Result<Transition>, pc: nat, m: Machine, fuel: nat): Outcome
    decreases fuel + 1, 0
  {
    match r
    case Err(f) => Crashed(f, pc, m)
    case Ok(Halted(m')) => Stopped(m')
    case Ok(Next(pc', m')) => Run(m', pc', fuel)
  }

  /** Construct the machine for an image and run it from address 0. */
  function Execute(image: seq<int>, lines: seq<seq<int>>, fuel: nat): Outcome {
    Run(Load(image, lines), 0, fuel)
  }
}
