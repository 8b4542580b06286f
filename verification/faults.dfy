/**
  The ways a run of the virtual machine can end abnormally, and the
  failure-compatible `Result` type the engine threads them through.
  Every fault is fatal: the machine stops and nothing is retried.
 */
module Faults {

  datatype Fault =
    /** The word at the program counter is not one of the 22 opcode codes. */
    | InvalidOpcode(word: int)
    /** A memory read, write or fetch at an address outside the memory. */
    | AddressOutOfRange(address: int)
    /** POP or RET on an empty stack. */
    | StackUnderflow
    /** MOD with a zero divisor. */
    | DivisionByZero
    /** A register write whose index does not land in the 10-slot bank. */
    | InvalidRegister(index: int)
    /** IN needed a new line of input and none was left. */
    | InputExhausted

  /** Either a value or the fault that prevented computing it. */
  datatype Result<+T> = Ok(value: T) | Err(fault: Fault) {

    predicate IsFailure() {
      Err?
    }

    function PropagateFailure<U>(): Result<U>
      requires Err?
    {
      Err(fault)
    }

    function Extract(): T
      requires Ok?
    {
      value
    }
  }
}
