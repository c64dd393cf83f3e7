/** The interpreter's universal datum, the references it carries, and the
    outcome of an operation that can fail. */
module Values {
  import opened Int32

  /** A reference. The C code handles raw addresses; here a reference names a
      heap object by its handle and a byte offset inside it, so that every
      access can be checked against the object's size. */
  datatype Addr =
    | Null
      /** `&string_pool[off]`, as pushed by ALDC */
    | Str(off: int)
      /** a byte inside a block, or inside the element storage of an array */
    | Mem(h: nat, off: int)
      /** the header of an array, as pushed by NEWARRAY */
    | Arr(h: nat)

  /** A `c0_value`: a tagged 32-bit integer or reference. */
  datatype Value = IntVal(n: i32) | PtrVal(a: Addr)

  /** What a zero-filled `c0_value` slot holds (locals come from `xcalloc`). */
  const ZERO: Value := IntVal(0)

  /** Why execution stopped with an error. The first five are raised by the
      interpreter itself (`c0_arith_error`, `c0_memory_error`, `c0_user_error`,
      `c0_assertion_failure`, the invalid-opcode `abort`); `Malformed` stands
      for every situation in which the C code aborts through a library
      contract or has undefined behaviour on input that well-formed bytecode
      never produces (popping an empty stack, using an integer as a pointer,
      a code or pool index out of range, an access the model cannot place). */
  datatype ErrorKind =
    | ArithError
    | MemoryError
    | UserError
    | AssertionFailure
    | InvalidOpcode
    | Malformed

  datatype Result<+T> = Ok(value: T) | Fail(error: ErrorKind) {
    predicate IsFailure() {
      Fail?
    }

    function PropagateFailure<U>(): Result<U>
      requires Fail?
    {
      Fail(error)
    }

    function Extract(): T
      requires Ok?
    {
      value
    }
  }

  /** `n` zero-filled `c0_value` slots. */
  function Zeros(n: nat): (vs: seq<Value>)
    ensures |vs| == n
    ensures forall i :: 0 <= i < n ==> vs[i] == ZERO
  {
    seq(n, _ => ZERO)
  }
}
