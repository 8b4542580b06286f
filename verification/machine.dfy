/**
  The machine's state and the primitives the instruction handlers share:
  memory padded to the 15-bit address space, a 10-slot register bank, an
  unbounded stack, a line-buffered input queue and the output produced so far.
 */
module VirtualMachine {

  import opened Faults
  import opened OpCodes
  import opened IntOps

  /** 2^15: the size of the address space, and the modulus of register values. */
  const AddressSpace: int := 32768

  /** The register array has 10 slots (only 8 are reachable through operands). */
  const RegisterCount: int := 10

  /** The character appended after every line of input. */
  const Newline: int := 10

  type Registers = r: seq<int> | |r| == RegisterCount
    witness [0, 0, 0, 0, 0, 0, 0, 0, 0, 0]

  /**
    Everything the engine owns. The program counter is not part of it: the
    step function takes it and hands back the next one.
    Characters (input and output) are UTF-16 code units.
   */
  datatype Machine = Machine(
    mem: seq<int>,
    regs: Registers,
    stack: seq<int>,
    queue: seq<int>,
    lines: seq<seq<int>>,
    output: seq<int>)

  /** Construction: a short image is filled up with NOOPs to the address space. */
  function Pad(image: seq<int>): (mem: seq<int>)
    ensures |mem| == if |image| < AddressSpace then AddressSpace else |image|
    ensures mem[..|image|] == image
    ensures forall i :: |image| <= i < |mem| ==> mem[i] == Code(Noop)
  {
    if |image| < AddressSpace then image + seq(AddressSpace - |image|, _ => Code(Noop))
    else image
  }

  /** A freshly constructed machine reading from the given lines of input. */
  function Load(image: seq<int>, lines: seq<seq<int>>): (m: Machine)
    ensures m.mem == Pad(image)
    ensures forall j :: 0 <= j < RegisterCount ==> m.regs[j] == 0
    ensures m.stack == [] && m.queue == [] && m.output == [] && m.lines == lines
  {
    Machine(Pad(image), [0, 0, 0, 0, 0, 0, 0, 0, 0, 0], [], [], lines, [])
  }

  // ---------------------------------------------------------------- memory

  /** `program[address]`; an index outside the list throws. */
  function Read(mem: seq<int>, address: int): (r: Result<int>)
    ensures r.Ok? <==> 0 <= address < |mem|
    ensures r.Ok? ==> r.value == mem[address]
    ensures r.Err? ==> r.fault == AddressOutOfRange(address)
  {
    if 0 <= address < |mem| then Ok(mem[address]) else Err(AddressOutOfRange(address))
  }

  /** `program[address] = value`, stored as given, without normalisation. */
  function Write(mem: seq<int>, address: int, value: int): (r: Result<seq<int>>)
    ensures r.Ok? <==> 0 <= address < |mem|
    ensures r.Ok? ==> |r.value| == |mem| && r.value[address] == value
    ensures r.Ok? ==> forall i :: 0 <= i < |mem| && i != address ==> r.value[i] == mem[i]
    ensures r.Err? ==> r.fault == AddressOutOfRange(address)
  {
    if 0 <= address < |mem| then Ok(mem[address := value]) else Err(AddressOutOfRange(address))
  }

  /** What a write puts there, a read gets back. */
  lemma ReadAfterWrite(mem: seq<int>, a: int, v: int, b: int)
    requires Write(mem, a, v).Ok?
    ensures Read(Write(mem, a, v).value, b) == if a == b then Ok(v) else Read(mem, b)
  {
  }

  // ------------------------------------------------------------- registers

  /** Operand words 32768..32775 name registers 0..7. */
  predicate IsRegisterReference(x: int) {
    AddressSpace <= x <= AddressSpace + 7
  }

  /** Resolve an operand to a value: a register reference reads the register, anything else is itself. */
  function GetValue(regs: Registers, x: int): (v: int)
    ensures IsRegisterReference(x) ==> v == regs[x - AddressSpace]
    ensures !IsRegisterReference(x) ==> v == x
  {
    if IsRegisterReference(x) then regs[x % AddressSpace] else x
  }

  /**
    The value a register write stores: non-negative values are reduced modulo
    2^15, negative ones have 2^15 added once.
   */
  function Normalise(v: int): (r: int)
    ensures r < AddressSpace
    ensures r % AddressSpace == v % AddressSpace
    ensures v >= -AddressSpace ==> 0 <= r
    ensures v < -AddressSpace ==> r == v + AddressSpace && r < 0
  {
    if v < 0 then AddressSpace + v else v % AddressSpace
  }

  /** For v >= -2^15, the stored value is exactly the residue of v in 0..32767. */
  lemma NormaliseIsResidue(v: int)
    requires v >= -AddressSpace
    ensures Normalise(v) == v % AddressSpace
  {
    var r := Normalise(v);
    assert 0 <= r < AddressSpace;
  }

  /** The array slot a raw register index selects (Kotlin's truncating `%`). */
  function Slot(index: int): int {
    TruncRem(index, AddressSpace)
  }

  /** Whether the slot an index selects exists in the 10-slot array. */
  predicate ValidSlot(index: int) {
    0 <= Slot(index) < RegisterCount
  }

  /** Non-negative indices select slot index mod 2^15; valid ones are 0..9 and 32768..32777 and so on. */
  lemma SlotOfNonNegative(index: int)
    requires index >= 0
    ensures Slot(index) == index % AddressSpace
    ensures ValidSlot(index) <==> index % AddressSpace < RegisterCount
  {
  }

  /**
    `setRegister(index, value)`: the slot `index % 32768` receives the
    normalised value; an index past the array throws.
   */
  function SetRegister(regs: Registers, index: int, value: int): (r: Result<Registers>)
    ensures r.Ok? <==> ValidSlot(index)
    ensures r.Ok? ==> r.value[Slot(index)] == Normalise(value)
    ensures r.Ok? ==> forall j :: 0 <= j < RegisterCount && j != Slot(index) ==> r.value[j] == regs[j]
    ensures r.Err? ==> r.fault == InvalidRegister(index)
  {
    var slot := Slot(index);
    if 0 <= slot < RegisterCount then Ok(regs[slot := Normalise(value)])
    else Err(InvalidRegister(index))
  }

  /** A register written through reference 32768 + k reads back, resolved, as the normalised value. */
  lemma GetValueAfterSetRegister(regs: Registers, k: int, v: int, x: int)
    requires 0 <= k < 8
    requires IsRegisterReference(x)
    ensures SetRegister(regs, AddressSpace + k, v).Ok?
    ensures GetValue(SetRegister(regs, AddressSpace + k, v).value, x)
      == if x == AddressSpace + k then Normalise(v) else GetValue(regs, x)
  {
    SlotOfNonNegative(AddressSpace + k);
  }

  /** No register holds a word in the register-reference range. */
  ghost predicate RegistersBelowReferences(regs: Registers) {
    forall j :: 0 <= j < RegisterCount ==> regs[j] < AddressSpace
  }

  /** Every register write keeps all registers below 2^15. */
  lemma SetRegisterKeepsBelow(regs: Registers, index: int, value: int)
    requires RegistersBelowReferences(regs)
    requires SetRegister(regs, index, value).Ok?
    ensures RegistersBelowReferences(SetRegister(regs, index, value).value)
  {
  }

  /** While no register holds a reference, resolving twice is resolving once. */
  lemma GetValueIdempotent(regs: Registers, x: int)
    requires RegistersBelowReferences(regs)
    ensures GetValue(regs, GetValue(regs, x)) == GetValue(regs, x)
  {
  }

  // ----------------------------------------------------------------- stack

  /** `stack.push(value)`; the top of the stack is the end of the sequence. */
  function PushStack(stack: seq<int>, value: int): seq<int> {
    stack + [value]
  }

  /** `stack.pop()`: the top word and the rest; an empty stack throws. */
  function PopStack(stack: seq<int>): (r: Result<(int, seq<int>)>)
    ensures r.Ok? <==> |stack| > 0
    ensures r.Ok? ==> stack == r.value.1 + [r.value.0]
    ensures r.Err? ==> r.fault == StackUnderflow
  {
    if |stack| == 0 then Err(StackUnderflow)
    else Ok((stack[|stack| - 1], stack[..|stack| - 1]))
  }

  /** PopStack undoes PushStack. */
  lemma PopAfterPush(stack: seq<int>, v: int)
    ensures PopStack(PushStack(stack, v)) == Ok((v, stack))
  {
  }

  // -------------------------------------------------------- opcode search

  /**
    `getIndexOfNextOpCode`: the first address at or after `start` whose word
    is an opcode code, or -1 when the rest of memory holds none.
   */
  function NextOpCodeIndex(mem: seq<int>, start: nat): (i: int)
    ensures i == -1 || start <= i < |mem|
    ensures i >= 0 ==> IsOpCode(mem[i])
    ensures i >= 0 ==> forall j :: start <= j < i ==> !IsOpCode(mem[j])
    ensures i == -1 ==> forall j :: start <= j < |mem| ==> !IsOpCode(mem[j])
    decreases |mem| - start
  {
    if start >= |mem| then -1
    else if IsOpCode(mem[start]) then start
    else NextOpCodeIndex(mem, start + 1)
  }

  /** The search only looks at memory from `start` on. */
  lemma NextOpCodeIndexLocal(mem: seq<int>, mem': seq<int>, start: nat)
    requires |mem| == |mem'|
    requires forall j :: start <= j < |mem| ==> mem[j] == mem'[j]
    ensures NextOpCodeIndex(mem, start) == NextOpCodeIndex(mem', start)
  {
    var i := NextOpCodeIndex(mem, start);
    var i' := NextOpCodeIndex(mem', start);
    if i >= 0 && i' >= 0 {
      assert !(i < i') && !(i' < i);
    }
  }

  // ------------------------------------------------------------ input queue

  /** The lines still to be read, each followed by its line terminator. */
  function Terminated(lines: seq<seq<int>>): seq<int> {
    if |lines| == 0 then [] else lines[0] + [Newline] + Terminated(lines[1..])
  }

  /** Every character the program can still read, in the order IN receives them. */
  function Pending(queue: seq<int>, lines: seq<seq<int>>): seq<int> {
    queue + Terminated(lines)
  }

  /**
    `getNextChar`: the queue is refilled, with one line and a terminator, only
    when it is empty; then its first character is taken. Running out of lines
    is a fault.
   */
  function NextChar(queue: seq<int>, lines: seq<seq<int>>): (r: Result<(int, seq<int>, seq<seq<int>>)>)
    ensures r.Err? <==> |queue| == 0 && |lines| == 0
    ensures r.Err? ==> r.fault == InputExhausted
    ensures r.Ok? && |queue| > 0 ==> r.value == (queue[0], queue[1..], lines)
    ensures r.Ok? && |queue| == 0 ==>
      [r.value.0] + r.value.1 == lines[0] + [Newline] && r.value.2 == lines[1..]
  {
    if |queue| > 0 then Ok((queue[0], queue[1..], lines))
    else if |lines| == 0 then Err(InputExhausted)
    else
      var refill := lines[0] + [Newline];
      Ok((refill[0], refill[1..], lines[1..]))
  }

  /** Each read takes exactly the first pending character and drops nothing else. */
  lemma NextCharConsumesOne(queue: seq<int>, lines: seq<seq<int>>)
    ensures NextChar(queue, lines).Ok? <==> |Pending(queue, lines)| > 0
    ensures NextChar(queue, lines).Ok? ==>
      var (c, q, ls) := NextChar(queue, lines).value;
      Pending(queue, lines) == [c] + Pending(q, ls)
  {
    if |queue| == 0 && |lines| > 0 {
      var (c, q, ls) := NextChar(queue, lines).value;
      calc {
        Pending(queue, lines);
        Terminated(lines);
        lines[0] + [Newline] + Terminated(lines[1..]);
        [c] + q + Terminated(ls);
      }
    }
  }
}
