# c0vm in Dafny

A model of `execute` in `c0vm/c0vm.c`, the interpreter of the C0 virtual
machine. The model has two layers.

- **`Machine.Step`** is the state-transformer of one pass of the dispatch
  loop, over an immutable `State`. The state holds:
  - the operand stack `S`, the code `P`, `pc` and the locals `V`;
  - the call stack of suspended `Frame`s (`struct frame_info`);
  - the heap.

  `Machine.Run` is at most `fuel` passes of that loop.
- **`Interpreter.Vm`** is the running interpreter. It is a class whose fields
  are the registers of `execute`, updated in place by one method per group of
  opcodes. Each method is proved to agree with the matching part of `Step`,
  and the loop `Vm.Execute` is proved equal to `Run`.

The laws in module `Properties` state what each instruction does and which
invariants every instruction keeps. Module `Scenarios` follows five small
programs from start to exit or error:
- an addition;
- a division by zero;
- a static call;
- a native call;
- a counted `while` loop, for every bound below 128.

Modules:
- `Int32`: `int32_t` arithmetic with wrap-around written out, C's truncating
  `/` and `%`, the shifts, the bitwise operations, and the decoding of
  immediates.
- `Values`: `c0_value` as `IntVal | PtrVal`, references, error kinds, and the
  `Result` type.
- `Heaps`: blocks and arrays as byte cells. The encoding of ints, pointers and
  chars, and bounds-checked `Load`/`Store`.
- `Opcodes`: the opcode bytes and the groups the dispatcher uses.
- `Machine`: the program, the state, `Step` and `Run`.
- `Properties`: per-instruction laws and whole-machine invariants.
- `Interpreter`: the `Vm` class and `ExecuteProgram`.
- `Scenarios`: end-to-end runs.

Errors are `ArithError`, `MemoryError`, `UserError`, `AssertionFailure` and
`InvalidOpcode`, which are what the C code raises. One more kind, `Malformed`,
stands for every situation the C code leaves to a library contract or to
undefined behaviour, for example:
- popping an empty stack;
- an int used as a pointer;
- a code, pool or local index out of range;
- RETURN with more than the return value on the stack;
- a heap access the model cannot place.

## Model

| member | source | states |
|---|---|---|
| Int32.Wrap | c0vm/c0vm.c:127-152 | the int32 result of `+`, `-`, `*` is the one value congruent to the exact result modulo 2^32, and the exact result when it fits |
| Int32.Mul | c0vm/c0vm.c:145-152 | definition of `x * y` on int32_t: the exact product wrapped to 32 bits; characterised by `Int32.Wrap` and `Properties.WrapAroundLaw` |
| Int32.QuotRem | c0vm/c0vm.c:154-180 | truncating division: `q*y + r == x`, `Abs(r) < Abs(y)`, `r` zero or of the sign of `x`, and `Abs(q*y) <= Abs(x)` |
| Int32.Quot | c0vm/c0vm.c:154-166 | definition of C's `/`, rounding toward zero; characterised by `Int32.QuotRem` and `Properties.DivisionLaw` |
| Int32.Rem | c0vm/c0vm.c:168-180 | definition of C's `%`, with the sign of the dividend; characterised by `Int32.QuotRem` and `Properties.DivisionLaw` |
| Int32.QuotInRange | c0vm/c0vm.c:158-163 | outside the guarded cases the quotient of two int32 values is an int32 |
| Int32.QuotOverflow | c0vm/c0vm.c:158 | `INT_MIN / -1` is the one quotient that does not fit (it is `INT_MAX + 1`) |
| Int32.RemInRange | c0vm/c0vm.c:172-177 | the remainder of two int32 values is an int32 |
| Int32.ShlSucc | c0vm/c0vm.c:228 | shifting left one more bit doubles the shift modulo 2^32 |
| Int32.ShrSucc | c0vm/c0vm.c:216 | shifting right one more bit halves the shift, rounding down |
| Int32.ShrKeepsSign | c0vm/c0vm.c:216 | `x >> n` is negative exactly when `x` is |
| Int32.Shl | c0vm/c0vm.c:221-231 | definition of `x << n`: `x * 2^n` wrapped to 32 bits; characterised by `Int32.ShlSucc` and `Properties.ShiftLaw` |
| Int32.Shr | c0vm/c0vm.c:209-219 | definition of `x >> n`: `x / 2^n` rounded down; characterised by `Int32.ShrSucc`, `Int32.ShrKeepsSign` and `Properties.ShiftLaw` |
| Int32.SignExtend8 | c0vm/c0vm.c:238 | `(int32_t)(int8_t)b` lies in -128..127 and is congruent to `b` modulo 256 |
| Int32.ToChar | c0vm/c0vm.c:550 | conversion to signed `char` lies in -128..127, is congruent modulo 256, and keeps values already in range |
| Int32.U16 | c0vm/c0vm.c:246 | the big-endian 16-bit index has high byte `hi` and low byte `lo` |
| Int32.S16 | c0vm/c0vm.c:323 | the `int16_t` offset lies in [-2^15, 2^15) and is congruent to the unsigned index modulo 2^16 |
| Int32.OffsetRoundTrip | c0vm/c0vm.c:323 | decoding the two bytes of any 16-bit signed offset gives that offset back |
| Int32.OffsetBytesOnto | c0vm/c0vm.c:323 | every pair of offset bytes is the encoding of the offset it decodes to |
| Int32.BitsRoundTrip | c0vm/c0vm.c:182-207 | an int32 and its 32-bit pattern determine each other, and the top bit of the pattern is set exactly for negative values |
| Int32.BitwisePatterns | c0vm/c0vm.c:182-207 | IAND, IOR and IXOR compute the bitwise AND, OR and XOR of the operands' two's-complement patterns |
| Int32.BitwiseSigns | c0vm/c0vm.c:182-207 | the result of IAND is negative exactly when both operands are, of IOR when either is, of IXOR when exactly one is |
| Int32.BitwiseUnits | c0vm/c0vm.c:182-198 | AND with -1 and OR with 0 give the other operand back |
| Int32.And | c0vm/c0vm.c:182-189 | definition of `x & y` on the two's-complement patterns; characterised by `Int32.BitwisePatterns` and `Int32.BitwiseSigns` |
| Int32.Or | c0vm/c0vm.c:191-198 | definition of the bitwise OR of `x` and `y`; characterised by `Int32.BitwisePatterns` and `Int32.BitwiseSigns` |
| Int32.Xor | c0vm/c0vm.c:200-207 | definition of the bitwise exclusive OR of `x` and `y`; characterised by `Int32.BitwisePatterns` and `Int32.BitwiseSigns` |
| Values.Zeros | c0vm/c0vm.c:51 | `xcalloc`'d locals: `n` slots, each the zero value |
| Heaps.Cleared | c0vm/c0vm.c:451 | `xcalloc`'d memory: `n` zero bytes |
| Heaps.EncodeInt | c0vm/c0vm.c:471 | an int is written as four bytes |
| Heaps.DecodeInt | c0vm/c0vm.c:461 | four cells read as an int exactly when all are bytes, otherwise malformed |
| Heaps.IntRoundTrip | c0vm/c0vm.c:457-473 | the int read from the bytes an int was written as is that int |
| Heaps.ClearedIsZeroInt | c0vm/c0vm.c:451 | fresh memory reads as the int 0 |
| Heaps.EncodePtr | c0vm/c0vm.c:488 | a pointer is written as eight cells |
| Heaps.DecodePtr | c0vm/c0vm.c:479 | eight cells decode only to the pointer whose encoding they are; anything else is malformed |
| Heaps.DecodePtrExactly | c0vm/c0vm.c:479 | eight cells decode exactly when some pointer is stored as them |
| Heaps.PtrRoundTrip | c0vm/c0vm.c:475-490 | the pointer read from the cells a pointer was written as is that pointer, NULL included |
| Heaps.ClearedIsNull | c0vm/c0vm.c:451 | fresh memory reads as NULL |
| Heaps.EncodeChar | c0vm/c0vm.c:507 | a char store writes one byte congruent to the int modulo 256 |
| Heaps.DecodeChar | c0vm/c0vm.c:497-498 | a byte reads as a signed char in -128..127, congruent to the byte; a pointer cell is malformed |
| Heaps.CharRoundTrip | c0vm/c0vm.c:492-509 | a char read back is the written int truncated to a signed char, and equals it exactly when it lies in -128..127 |
| Heaps.Load | c0vm/c0vm.c:461 | a load succeeds exactly when the cells lie inside an object and returns those cells; through NULL it is a memory error |
| Heaps.InBounds | c0vm/c0vm.c:457-509 | definition: `n` cells from a reference lie inside an existing block or array; characterised by the success conditions of `Heaps.Load` and `Heaps.Store` |
| Heaps.Store | c0vm/c0vm.c:471 | a store succeeds exactly when the cells lie inside an object and keeps the shape of every object; through NULL it is a memory error |
| Heaps.LoadStoreSame | c0vm/c0vm.c:466-473 | loading what was just stored gives it back |
| Heaps.LoadStoreOther | c0vm/c0vm.c:471 | a store leaves every cell outside the stored range unchanged |
| Heaps.AllocExtends | c0vm/c0vm.c:529-532 | allocation appends the new object and changes no existing one |
| Machine.Init | c0vm/c0vm.c:47-58 | the start state: entry function's code at pc 0, empty stack, locals equal to `num_vars` zero values, no frames, empty heap |
| Machine.Step | c0vm/c0vm.c:64-577 | definition of one pass of the dispatch loop: fetch the opcode at `pc` and run its group; characterised by `Properties.Dispatch` and the per-opcode laws |
| Machine.StepStack | c0vm/c0vm.c:74-98 | definition of POP, DUP, SWAP (and NOP, c0vm.c:313); characterised by `Properties.PopLaw`, `DupLaw`, `SwapLaw`, `NopLaw` and `StackUnderflow` |
| Machine.ArithOnStack | c0vm/c0vm.c:127-231 | definition of the stack effect of IADD ... ISHL: pop `y`, pop `x`, push `x op y`; characterised by `Properties.BinaryOpLaw` |
| Machine.StepArith | c0vm/c0vm.c:127-231 | definition of the arithmetic group: the stack effect and pc + 1; characterised by `Properties.ArithGroupLaw`, `DivisionLaw` and `ShiftLaw` |
| Machine.StepLoad | c0vm/c0vm.c:236-311 | definition of BIPUSH, ILDC, ALDC, ACONST_NULL, VLOAD, VSTORE, ATHROW and ASSERT; characterised by `Properties.BipushLaw`, `PoolLoadLaw`, `NullConstLaw`, `LoadLocalLaw`, `StoreLocalLaw`, `ThrowLaw` and `AssertLaw` |
| Machine.Branch | c0vm/c0vm.c:318-404 | definition of a taken or untaken branch: pc plus the signed offset, or pc + 3; characterised by `Properties.BranchLaw` |
| Machine.StepBranch | c0vm/c0vm.c:318-404 | definition of the six conditional branches and GOTO; characterised by `Properties.ConditionalBranchLaw`, `GotoAny` and `GotoLaw` |
| Machine.StepCall | c0vm/c0vm.c:100-446 | definition of RETURN, INVOKESTATIC and INVOKENATIVE; characterised by `Properties.ReturnLaw`, `InvokeStaticLaw`, `InvokeNativeLaw` and `CallReturnProtocol` |
| Machine.NativeCall | c0vm/c0vm.c:429-446 | definition of INVOKENATIVE after the pool lookup: pop the `int8_t` count of arguments, call the native, push its answer; characterised by `Properties.NativeCallLaw` |
| Machine.StepAlloc | c0vm/c0vm.c:448-536 | definition of NEW and NEWARRAY; characterised by `Properties.NewLaw`, `NewArrayLaw` and `NewArrayNegative` |
| Machine.StepMemLoad | c0vm/c0vm.c:457-500 | definition of IMLOAD, AMLOAD and CMLOAD; characterised by `Properties.LoadAfterStore`, `LoadBack` and `NullLoadFails` |
| Machine.StepMemStore | c0vm/c0vm.c:466-509 | definition of IMSTORE, AMSTORE and CMSTORE; characterised by `Properties.StoreLaw` and `NullStoreFails` |
| Machine.StepAddress | c0vm/c0vm.c:511-557 | definition of AADDF, ARRAYLENGTH and AADDS; characterised by `Properties.FieldAddressLaw`, `ArrayLengthLaw` and `AaddsLaw` |
| Machine.FieldAddr | c0vm/c0vm.c:511-519 | definition of `&a->f`: the immediate added to the offset of a block reference; characterised by `Properties.FieldAddressLaw` |
| Machine.Iterate | c0vm/c0vm.c:62-577 | definition of at most `fuel` passes of a loop body; characterised by `Properties.IterateMonotone`, `IterateSplit` and `IterateAlong` |
| Machine.Run | c0vm/c0vm.c:62-577 | definition of the `while (true)` loop of `execute`, cut off after `fuel` passes; characterised by `Properties.RunUnfold`, `RunSplit` and `Interpreter.Vm.Execute` |
| Machine.Pop | c0vm/c0vm.c:76 | popping succeeds exactly on a non-empty stack and splits it into rest and top |
| Machine.PopInt | c0vm/c0vm.c:35-37 | `pop_int` succeeds exactly when the top is an int |
| Machine.PopPtr | c0vm/c0vm.c:39-41 | `pop_ptr` succeeds exactly when the top is a reference |
| Machine.DivOp | c0vm/c0vm.c:154-180 | IDIV/IREM fail, with an arithmetic error, exactly when `y == 0` or `x == INT_MIN && y == -1` |
| Machine.ShiftOp | c0vm/c0vm.c:209-231 | ISHL/ISHR fail, with an arithmetic error, exactly when `y` is outside [0, 32) |
| Machine.ArithOp | c0vm/c0vm.c:127-231 | a binary operation fails exactly in the division and shift guards, always with an arithmetic error |
| Machine.DecodeFor | c0vm/c0vm.c:457-500 | IMLOAD and CMLOAD push ints, AMLOAD pushes a reference |
| Properties.Dispatch | c0vm/c0vm.c:70-577 | each opcode is handled by its group; any other byte, the C1 opcodes included, is an invalid opcode |
| Properties.NopLaw | c0vm/c0vm.c:313-316 | NOP only moves past itself |
| Properties.PopLaw | c0vm/c0vm.c:74-78 | POP removes exactly the top value and advances pc by 1; nothing else changes |
| Properties.DupLaw | c0vm/c0vm.c:80-86 | DUP turns `[.., v]` into `[.., v, v]` and advances pc by 1; nothing else changes |
| Properties.SwapLaw | c0vm/c0vm.c:88-95 | SWAP turns `[.., a, b]` into `[.., b, a]` and advances pc by 1; nothing else changes |
| Properties.StackUnderflow | c0vm/c0vm.c:74-95 | a shuffle of a too shallow stack is malformed |
| Properties.BinaryOpLaw | c0vm/c0vm.c:127-231 | a binary operation pops `y` then `x` and either fails with the operation's error or pushes `x op y` and advances pc by 1 |
| Properties.ArithGroupLaw | c0vm/c0vm.c:127-231 | the same, for the arithmetic group function |
| Properties.WrapAroundLaw | c0vm/c0vm.c:127-152 | IADD, ISUB, IMUL never fail and give the result modulo 2^32, exact when it fits |
| Properties.DivisionLaw | c0vm/c0vm.c:154-180 | IDIV/IREM fail exactly when `y == 0` or `x == INT_MIN && y == -1`; otherwise `q*y + r == x` with C's truncating rounding |
| Properties.DivisionOverflowRejected | c0vm/c0vm.c:158 | `INT_MIN / -1` is an arithmetic error because its quotient exceeds `INT_MAX` |
| Properties.ShiftLaw | c0vm/c0vm.c:209-231 | shifts fail exactly outside [0, 32); ISHL is `x * 2^y` modulo 2^32, ISHR is `x / 2^y` rounded down, keeping the sign |
| Properties.BipushLaw | c0vm/c0vm.c:236-242 | BIPUSH pushes its byte sign-extended and advances pc by 2 |
| Properties.BipushMinusOne | c0vm/c0vm.c:238 | the byte 0xFF pushes -1 |
| Properties.PoolLoadLaw | c0vm/c0vm.c:244-263 | ILDC pushes the int-pool entry at the big-endian index and ALDC a reference into the string pool; both advance pc by 3 |
| Properties.NullConstLaw | c0vm/c0vm.c:265-270 | ACONST_NULL pushes NULL and advances pc by 1 |
| Properties.AssertLaw | c0vm/c0vm.c:302-311 | ASSERT fails exactly when the condition is 0, and otherwise only pops both operands |
| Properties.ThrowLaw | c0vm/c0vm.c:295-300 | ATHROW with a reference on top is a user error whatever lies beneath it; without one it is malformed |
| Properties.LoadLocalLaw | c0vm/c0vm.c:275-281 | VLOAD k pushes a copy of local k and advances pc by 2; a slot outside the frame is malformed |
| Properties.StoreLocalLaw | c0vm/c0vm.c:283-290 | VSTORE k pops the top value into local k and advances pc by 2; a slot outside the frame is malformed |
| Properties.StoreThenLoadLocal | c0vm/c0vm.c:275-290 | VSTORE k then VLOAD k pushes back the stored value; every other slot is unchanged |
| Properties.ConditionalBranchLaw | c0vm/c0vm.c:318-394 | a conditional branch pops two operands; when taken pc becomes opcode address plus signed offset, otherwise opcode address plus 3 |
| Properties.BranchLaw | c0vm/c0vm.c:323-327 | where a taken and a not-taken branch leave pc |
| Properties.GotoLaw | c0vm/c0vm.c:396-401 | GOTO always jumps, and an offset encoded as the distance to a target lands on it |
| Properties.GotoAny | c0vm/c0vm.c:396-401 | GOTO with any two offset bytes moves pc by the signed 16-bit offset they spell |
| Properties.InvokeStaticLaw | c0vm/c0vm.c:406-427 | INVOKESTATIC pops exactly `num_args` values (the deepest becomes local 0), zeroes the other locals, starts the callee at pc 0 with an empty stack, and saves the caller with resume pc + 3 |
| Properties.ReturnNeedsSingleValue | c0vm/c0vm.c:100-102 | RETURN on a stack not holding exactly one value is malformed |
| Properties.ReturnLaw | c0vm/c0vm.c:100-122 | RETURN with no caller exits with the int; with a caller it resumes the top frame with the value pushed |
| Properties.CallReturnProtocol | c0vm/c0vm.c:406-427 | after INVOKESTATIC, a callee that runs without returning below its own depth and then executes RETURN with one value resumes the caller at pc + 3 with its code, locals and call stack, and its pre-call stack minus the arguments plus that value |
| Properties.FramesSurvive | c0vm/c0vm.c:108-113 | while a run stays deeper than `d` frames, the bottom `d + 1` frames never change |
| Properties.CallRunsThrough | c0vm/c0vm.c:406-427 | under the same hypotheses, the whole call takes one pass per callee state plus one, and the run goes on from the resumed caller |
| Properties.CallStackDiscipline | c0vm/c0vm.c:108-113 | every instruction keeps the call stack, pushes exactly one frame, or pops exactly the top one |
| Properties.CallFrames | c0vm/c0vm.c:406-412 | the same for the call group; INVOKESTATIC and RETURN keep the heap, and so does INVOKENATIVE because natives are modelled as heap-blind |
| Properties.GroupEffects | c0vm/c0vm.c:70-557 | every opcode outside the call group keeps the call stack, and of those only allocation and stores change the heap |
| Properties.StackEffects | c0vm/c0vm.c:74-95 | the shuffles keep frames and heap |
| Properties.ArithEffects | c0vm/c0vm.c:127-231 | arithmetic keeps frames and heap |
| Properties.LoadEffects | c0vm/c0vm.c:236-308 | constants, locals and assertions keep frames and heap |
| Properties.BranchEffects | c0vm/c0vm.c:318-401 | branches keep frames and heap |
| Properties.AllocEffects | c0vm/c0vm.c:448-455 | NEW and NEWARRAY keep the frames |
| Properties.MemLoadEffects | c0vm/c0vm.c:457-500 | loads keep frames and heap |
| Properties.MemStoreEffects | c0vm/c0vm.c:466-509 | stores keep the frames |
| Properties.AddressEffects | c0vm/c0vm.c:511-557 | AADDF, ARRAYLENGTH, AADDS keep frames and heap |
| Properties.InvokeNativeLaw | c0vm/c0vm.c:429-444 | INVOKENATIVE pops the native's arguments (the deepest first), pushes its answer and advances pc by 3; a count of 128 or more is malformed |
| Properties.NativeCallLaw | c0vm/c0vm.c:433-442 | the same for the native bridge, given the decoded pool index |
| Properties.NullLoadFails | c0vm/c0vm.c:457-500 | IMLOAD, AMLOAD, CMLOAD through NULL are memory errors |
| Properties.NullStoreFails | c0vm/c0vm.c:466-509 | IMSTORE, AMSTORE, CMSTORE through NULL are memory errors, raised before the heap is written |
| Properties.NullAddressFails | c0vm/c0vm.c:511-557 | AADDF, ARRAYLENGTH, AADDS on NULL are memory errors |
| Properties.NewArrayNegative | c0vm/c0vm.c:527-528 | NEWARRAY with a negative count is a memory error |
| Properties.NewArrayLaw | c0vm/c0vm.c:524-536 | NEWARRAY pushes a reference to a fresh zeroed array of `n` elements of the immediate size |
| Properties.ArrayLengthLaw | c0vm/c0vm.c:538-546 | ARRAYLENGTH replaces an array reference by its count |
| Properties.NewArrayThenLength | c0vm/c0vm.c:524-546 | NEWARRAY n then ARRAYLENGTH pushes n |
| Properties.NewLaw | c0vm/c0vm.c:448-455 | NEW pushes a reference to a fresh zeroed block of the immediate size |
| Properties.LoadOf | c0vm/c0vm.c:457-509 | each store has a matching load |
| Properties.CellsRoundTrip | c0vm/c0vm.c:457-509 | what a store writes, its load decodes back: ints and references unchanged, chars truncated to a signed char |
| Properties.StoreThenLoadCells | c0vm/c0vm.c:466-473 | a store writes the encoded value with `Store`, and the matching load then decodes exactly those cells |
| Properties.StoreLaw | c0vm/c0vm.c:466-509 | a store succeeds exactly when the cells lie inside the block; otherwise it is a memory error for an existing block and malformed for an unknown handle |
| Properties.LoadAfterStore | c0vm/c0vm.c:457-509 | after a store, the matching load of the same reference pushes back the stored value |
| Properties.LoadBack | c0vm/c0vm.c:457-500 | the same, for the load group function |
| Properties.StoreThenLoad | c0vm/c0vm.c:457-473 | IMSTORE then IMLOAD (and the pointer and char pairs) round-trips the value; the store succeeds exactly in bounds |
| Properties.FieldAddressLaw | c0vm/c0vm.c:511-519 | AADDF adds its immediate to the offset of a reference |
| Properties.AaddsLaw | c0vm/c0vm.c:548-557 | AADDS truncates index and count to `char` and errors only when index > count; otherwise it pushes the address `elt_size * index` in the elements |
| Properties.AaddsInRange | c0vm/c0vm.c:548-557 | an index in [0, count) addresses an element inside the array |
| Properties.ElementInside | c0vm/c0vm.c:554 | element `i < count` of `count` elements of `size` bytes lies inside the `count * size` bytes |
| Properties.AaddsAdmitsCount | c0vm/c0vm.c:553 | the guard always lets through index `count` (for any count up to INT_MAX); for a count below 128 the result is one past the last element and every load through it is a memory error here |
| Properties.AaddsMinusOne | c0vm/c0vm.c:553 | the guard lets through index -1 exactly when the count truncated to `char` is at least -1; the result lies before the elements and every load through it is a memory error here |
| Properties.AaddsRejectsValidIndex | c0vm/c0vm.c:553 | with 200 elements the truncated count is negative, so even index 0 is a user error |
| Properties.StepExtendsHeap | c0vm/c0vm.c:448-557 | no instruction frees an object or changes its kind, size, count or element size; arrays keep storage for exactly their elements |
| Properties.AllocGrows | c0vm/c0vm.c:529-532 | NEW and NEWARRAY append one object with storage for exactly its elements |
| Properties.StoreKeepsShape | c0vm/c0vm.c:466-509 | stores overwrite cells in place |
| Properties.IterateMonotone | c0vm/c0vm.c:62 | more fuel never changes a finished run |
| Properties.IterateSplit | c0vm/c0vm.c:62 | `a + b` passes are `a` passes and then `b` more from where they stopped |
| Properties.IterateAlong | c0vm/c0vm.c:62 | following a chain of continuing passes uses one unit of fuel per pass |
| Properties.RunUnfold | c0vm/c0vm.c:62-70 | a run with fuel left is decided by its first instruction |
| Properties.RunMonotone | c0vm/c0vm.c:62 | more fuel never changes a finished run of `execute` |
| Properties.RunSplit | c0vm/c0vm.c:62 | a run of `execute` splits at any point |
| Interpreter.PopInto | c0vm/c0vm.c:422-425 | the argument loop leaves the stack minus `len` values, and a buffer holding those values in push order followed by zeros |
| Interpreter.Vm.constructor | c0vm/c0vm.c:47-58 | the fields hold the start state |
| Interpreter.Vm.Push | c0vm/c0vm.c:27-33 | pushes onto the operand stack in place |
| Interpreter.Vm.PopValue | c0vm/c0vm.c:76 | pops in place exactly as `Pop` |
| Interpreter.Vm.PopIntValue | c0vm/c0vm.c:35-37 | pops in place exactly as `PopInt` |
| Interpreter.Vm.PopPtrValue | c0vm/c0vm.c:39-41 | pops in place exactly as `PopPtr` |
| Interpreter.Vm.StepInPlace | c0vm/c0vm.c:62-577 | one pass of the loop changes the fields exactly as `Step` changes the state |
| Interpreter.Vm.ExecStack | c0vm/c0vm.c:74-95 | the shuffles, in place, agree with `Step` |
| Interpreter.Vm.ExecArith | c0vm/c0vm.c:127-231 | arithmetic, in place, agrees with `Step` |
| Interpreter.Vm.ApplyArith | c0vm/c0vm.c:127-231 | pops `y` and `x` and pushes the result in place; the new stack is exactly `ArithOnStack` of the old one, and a failure is the error it gives |
| Interpreter.Vm.ExecLoad | c0vm/c0vm.c:236-308 | constants, locals and assertions, in place, agree with `Step` |
| Interpreter.Vm.Jump | c0vm/c0vm.c:323-327 | leaves pc where a taken or not-taken branch does |
| Interpreter.Vm.ExecBranch | c0vm/c0vm.c:318-401 | branches, in place, agree with `Step` |
| Interpreter.Vm.ExecCall | c0vm/c0vm.c:100-444 | calls and returns, in place, agree with `Step` |
| Interpreter.Vm.ExecReturn | c0vm/c0vm.c:100-122 | RETURN, in place, agrees with `Step` |
| Interpreter.Vm.ExecInvokeStatic | c0vm/c0vm.c:406-427 | INVOKESTATIC, with its argument loop, agrees with `Step` |
| Interpreter.Vm.ExecInvokeNative | c0vm/c0vm.c:429-444 | INVOKENATIVE, with its argument loop, agrees with `Step` |
| Interpreter.Vm.ExecAlloc | c0vm/c0vm.c:524-536 | NEWARRAY and NEW (lines 448-455), in place, agree with `Step` |
| Interpreter.Vm.ExecMemLoad | c0vm/c0vm.c:457-500 | IMLOAD, AMLOAD, CMLOAD, in place, agree with `Step` |
| Interpreter.Vm.ExecMemStore | c0vm/c0vm.c:466-509 | IMSTORE, AMSTORE, CMSTORE, in place, agree with `Step` |
| Interpreter.Vm.ExecAddress | c0vm/c0vm.c:511-557 | AADDF, ARRAYLENGTH, AADDS, in place, agree with `Step` |
| Interpreter.Vm.Execute | c0vm/c0vm.c:62-578 | the loop returns exactly what `Run` gives for the same fuel |
| Interpreter.ExecuteProgram | c0vm/c0vm.c:43-582 | `execute` on a loaded program is `Run` from the start state |
| Scenarios.AddReturnsEight | c0vm/c0vm.c:127-134 | `BIPUSH 5; BIPUSH 3; IADD; RETURN` exits with 8 after four instructions |
| Scenarios.DivideByZeroIsArithError | c0vm/c0vm.c:154-166 | `BIPUSH 7; BIPUSH 0; IDIV` stops with an arithmetic error for every fuel of at least 3 |
| Scenarios.CallReturnsSum | c0vm/c0vm.c:406-427 | calling a two-argument `add` with 20 and 22 exits with 42 after eight instructions |
| Scenarios.LoopReturnsSum | c0vm/c0vm.c:275-401 | the loop `s = 0; i = 0; while (i < n) { s += i; i++; } return s;` (VSTORE, VLOAD, IF_ICMPLT, GOTO back) exits with n(n-1)/2 after 12n + 10 instructions, for every n below 128 |
| Scenarios.LoopRuns | c0vm/c0vm.c:344-401 | from the loop test with `i <= n` and 0 + ... + (i-1) in the sum, the loop returns 0 + ... + (n-1) after 12(n-i) + 6 instructions |
| Scenarios.LoopPass | c0vm/c0vm.c:127-401 | one pass through the body, from the test back to the test in twelve instructions, adds `i` to the sum and increments `i` |
| Scenarios.LoopExits | c0vm/c0vm.c:344-401 | with `i >= n` the test falls through to the exit jump and the sum is returned |
| Scenarios.LoopTest | c0vm/c0vm.c:344-355 | IF_ICMPLT enters the body exactly when `i < n` |
| Scenarios.NativeAnswerIsExitCode | c0vm/c0vm.c:429-444 | calling a one-argument native with 9 and returning its answer exits with that answer, or is malformed if the answer is a reference |

## Left out

- Debug and diagnostic output: the `fprintf` calls on `DEBUG` and before the
  invalid-opcode `abort()`. An invalid opcode is the outcome
  `InvalidOpcode`.
- The error helpers (`c0_arith_error`, `c0_memory_error`, `c0_user_error`,
  `c0_assertion_failure`): each is a terminal error outcome. Their messages,
  and the message string ATHROW and ASSERT receive, are not modelled.
- Freeing memory and allocation failure (`free`, `c0v_stack_free`,
  `stack_free`, `xcalloc` aborting). The heap is never reclaimed.
- The C1 opcodes (CHECKTAG, HASTAG, ADDTAG, ADDROF_STATIC, ADDROF_NATIVE,
  INVOKEDYNAMIC). Like every byte that is not an opcode, they are
  `InvalidOpcode`.
- Loading and validating the bytecode file. A program is any `Program`
  value, and out-of-range pool or code indices are `Malformed`.
- The native function table: natives are host functions passed in as a
  parameter. What a native does is not modelled.
- Natives are heap-blind: each is a function from its arguments to one
  value. It cannot read or allocate heap memory, and it has no other
  effect. So INVOKENATIVE keeps the heap in the model
  (`Properties.CallFrames`), while the C natives may not.
- The instruction-set header lib/c0vm.h is not part of this model. Its opcode
  values and `c0_value`'s equality (`val_equal`) are taken as the standard
  C0VM ones: opcode bytes as listed in `Opcodes`, and structural equality.
- Pointers are not bytes of an address. A reference names a heap object and
  an offset, and a stored pointer occupies eight opaque cells.
  - Loading the wrong kind of cells is `Malformed`.
  - Memory operations through a string-pool reference or an array header are
    `Malformed`.
  - The C code would read or write raw memory in these cases.
- Heap accesses outside an object are a `MemoryError` in the model. In the
  C code they are undefined behaviour, so the model is checked where the C
  code is not.
- Ints are stored little-endian, and plain `char` is taken as signed (CMLOAD,
  AADDS). These are the choices of the hosts the interpreter runs on.
- Integer operations that C leaves undefined or to the implementation follow
  two's-complement hardware:
  - an overflowing `x+y`, `x-y` or `x*y` (c0vm/c0vm.c:131, 140 and 149) is
    undefined in C; the model wraps it modulo 2^32 (`Int32.Wrap`);
  - `x << y` of a negative `x`, or with a result that does not fit
    (c0vm/c0vm.c:228), is undefined in C; the model shifts the bit pattern
    (`Int32.Shl`);
  - `x >> y` of a negative `x` (c0vm/c0vm.c:216) is implementation-defined;
    the model shifts arithmetically, rounding down (`Int32.Shr`).
- Machine.Run and Interpreter.Vm.Execute: the `while (true)` loop is cut off
  after `fuel` passes, returning `OutOfFuel` with the state reached. A run
  that never stops is a run that is out of fuel for every fuel.
- Interpreter.Vm: the locals `V` and the operand stack are sequences
  reassigned in place rather than C arrays. Aliasing between frames cannot
  arise, because every frame owns its own stack and locals.
- AADDS: the guard is modelled as the code is written. The index and the count
  are truncated to `char`, and only `index > count` is rejected. The C0
  instruction set documents the requirement `0 <= index < count`, and this is
  where the code departs from it. No in-bounds property is claimed for AADDS
  in general. `Properties.AaddsInRange` states when the result is inside the
  array. `Properties.AaddsAdmitsCount` and `Properties.AaddsMinusOne` show the
  out-of-range indices the guard admits. `Properties.AaddsRejectsValidIndex`
  shows a valid index it rejects.
