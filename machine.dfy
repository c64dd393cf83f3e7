/** The machine: the loaded program, the frame and the machine state, and the
    effect of one instruction (`Step`), stated as a function of the state. The
    class `Vm` in module Interpreter runs the same instructions by updating
    its fields in place and is proved to agree with `Step`. */
module Machine {
  import opened Int32
  import opened Values
  import opened Heaps
  import opened Opcodes

  // ---------------------------------------------------------------------------
  // Program and state

  /** An entry of the function pool. */
  datatype Function = Function(numArgs: u8, numVars: u8, code: seq<u8>)

  /** An entry of the native pool: how many arguments the native takes and
      where it sits in the native function table. */
  datatype NativeInfo = NativeInfo(numArgs: u8, tableIndex: nat)

  /** A loaded bytecode file (`struct bc0_file`). The first function is the
      entry point. */
  datatype Program = Program(
    intPool: seq<i32>,
    stringPool: seq<u8>,
    functionPool: seq<Function>,
    nativePool: seq<NativeInfo>)

  /** A native function supplied by the host: it receives its arguments in
      order and returns one value. */
  type Native = seq<Value> -> Value

  /** A suspended activation (`struct frame_info`): its operand stack, its
      code, the pc to resume at and its locals. */
  datatype Frame = Frame(S: seq<Value>, P: seq<u8>, pc: int, V: seq<Value>)

  /** The state of `execute`: the active frame's registers, the call stack
      (its top is the last element) and the heap. The operand stack's top is
      its last element. */
  datatype State = State(
    S: seq<Value>,
    P: seq<u8>,
    pc: int,
    V: seq<Value>,
    callStack: seq<Frame>,
    heap: Heap)

  /** What one instruction leads to when it does not fail. */
  datatype Next = Continue(st: State) | Exit(code: i32)

  /** The state `execute` starts in: the entry function's code at pc 0, an
      empty operand stack, zeroed locals, no suspended frames, an empty heap. */
  function Init(prog: Program): (st: State)
    requires |prog.functionPool| > 0
    ensures st.S == [] && st.pc == 0 && st.callStack == [] && st.heap == []
    ensures st.P == prog.functionPool[0].code
    ensures st.V == Zeros(prog.functionPool[0].numVars)
  {
    State([], prog.functionPool[0].code, 0, Zeros(prog.functionPool[0].numVars), [], [])
  }

  // ---------------------------------------------------------------------------
  // Operand stack

  datatype Popped<T> = Popped(top: T, rest: seq<Value>)

  /** `c0v_pop`: the top value and the stack below it. Popping an empty stack
      violates the stack library's contract. */
  function Pop(S: seq<Value>): (r: Result<Popped<Value>>)
    ensures r.Ok? <==> |S| > 0
    ensures r.Ok? ==> S == r.value.rest + [r.value.top]
    ensures r.Fail? ==> r.error == Malformed
  {
    if |S| == 0 then Fail(Malformed) else Ok(Popped(S[|S| - 1], S[..|S| - 1]))
  }

  /** `pop_int`: pops a value that must be an integer. */
  function PopInt(S: seq<Value>): (r: Result<Popped<i32>>)
    ensures r.Ok? <==> |S| > 0 && S[|S| - 1].IntVal?
    ensures r.Ok? ==> S == r.value.rest + [IntVal(r.value.top)]
    ensures r.Fail? ==> r.error == Malformed
  {
    var p :- Pop(S);
    if p.top.IntVal? then Ok(Popped(p.top.n, p.rest)) else Fail(Malformed)
  }

  /** `pop_ptr`: pops a value that must be a reference. */
  function PopPtr(S: seq<Value>): (r: Result<Popped<Addr>>)
    ensures r.Ok? <==> |S| > 0 && S[|S| - 1].PtrVal?
    ensures r.Ok? ==> S == r.value.rest + [PtrVal(r.value.top)]
    ensures r.Fail? ==> r.error == Malformed
  {
    var p :- Pop(S);
    if p.top.PtrVal? then Ok(Popped(p.top.a, p.rest)) else Fail(Malformed)
  }

  // ---------------------------------------------------------------------------
  // Code buffer

  /** `P[i]`; reading outside the code buffer is malformed. */
  function CodeByte(P: seq<u8>, i: int): (r: Result<u8>)
  {
    if 0 <= i < |P| then Ok(P[i]) else Fail(Malformed)
  }

  /** The unsigned big-endian 16-bit immediate after the opcode at `pc`. */
  function Imm16(P: seq<u8>, pc: int): (r: Result<u16>)
  {
    var hi :- CodeByte(P, pc + 1);
    var lo :- CodeByte(P, pc + 2);
    Ok(U16(hi, lo))
  }

  /** The signed big-endian 16-bit branch offset after the opcode at `pc`. */
  function Offset16(P: seq<u8>, pc: int): (r: Result<int>)
  {
    var hi :- CodeByte(P, pc + 1);
    var lo :- CodeByte(P, pc + 2);
    Ok(S16(hi, lo))
  }

  // ---------------------------------------------------------------------------
  // One instruction

  /** One pass of the `while (true)` loop of `execute`: fetch the opcode at
      `pc` and apply it. */
  function Step(prog: Program, natives: seq<Native>, st: State): (r: Result<Next>)
  {
    var op :- CodeByte(st.P, st.pc);
    if IsStackOp(op) then StepStack(op, st)
    else if IsArithOp(op) then StepArith(op, st)
    else if IsLoadOp(op) then StepLoad(prog, op, st)
    else if IsBranchOp(op) then StepBranch(op, st)
    else if IsCallOp(op) then StepCall(prog, natives, op, st)
    else if IsMemoryOp(op) then StepMemory(op, st)
    else Fail(InvalidOpcode)
  }

  /** POP, DUP, SWAP, NOP. */
  function StepStack(op: u8, st: State): (r: Result<Next>)
    requires IsStackOp(op)
  {
    if op == NOP then
      Ok(Continue(st.(pc := st.pc + 1)))
    else if op == POP then
      var p :- Pop(st.S);
      Ok(Continue(st.(S := p.rest, pc := st.pc + 1)))
    else if op == DUP then
      var p :- Pop(st.S);
      Ok(Continue(st.(S := p.rest + [p.top, p.top], pc := st.pc + 1)))
    else
      var p2 :- Pop(st.S);
      var p1 :- Pop(p2.rest);
      Ok(Continue(st.(S := p1.rest + [p2.top, p1.top], pc := st.pc + 1)))
  }

  /** IDIV and IREM: C's `/` and `%`, rounding toward zero. Division by zero
      and `INT_MIN / -1`, whose quotient does not fit, are arithmetic errors. */
  function DivOp(isDiv: bool, x: i32, y: i32): (r: Result<i32>)
    ensures r.Fail? <==> y == 0 || (x == INT_MIN && y == -1)
    ensures r.Fail? ==> r.error == ArithError
  {
    if y == 0 || (x == INT_MIN && y == -1) then Fail(ArithError)
    else if isDiv then (QuotInRange(x, y); Ok(Quot(x, y)))
    else (RemInRange(x, y); Ok(Rem(x, y)))
  }

  /** ISHL and ISHR: a shift by less than 0 or 32 or more is an arithmetic
      error. */
  function ShiftOp(isLeft: bool, x: i32, y: i32): (r: Result<i32>)
    ensures r.Fail? <==> !(0 <= y < 32)
    ensures r.Fail? ==> r.error == ArithError
  {
    if y < 0 || y >= 32 then Fail(ArithError)
    else if isLeft then Ok(Shl(x, y))
    else Ok(Shr(x, y))
  }

  /** `x op y` for the binary integer operations, with the arithmetic errors of
      IDIV, IREM, ISHL and ISHR. */
  function ArithOp(op: u8, x: i32, y: i32): (r: Result<i32>)
    requires IsArithOp(op)
    ensures r.Fail? <==>
      ((op == IDIV || op == IREM) && (y == 0 || (x == INT_MIN && y == -1))) ||
      ((op == ISHL || op == ISHR) && !(0 <= y < 32))
    ensures r.Fail? ==> r.error == ArithError
  {
    if op == IDIV || op == IREM then DivOp(op == IDIV, x, y)
    else if op == ISHL || op == ISHR then ShiftOp(op == ISHL, x, y)
    else if op == IADD then Ok(Wrap(x + y))
    else if op == ISUB then Ok(Wrap(x - y))
    else if op == IMUL then Ok(Mul(x, y))
    else if op == IAND then Ok(And(x, y))
    else if op == IOR then Ok(Or(x, y))
    else Ok(Xor(x, y))
  }

  /** The operand stack after IADD ... ISHR: pop y, then x, push `x op y`. */
  function ArithOnStack(op: u8, S: seq<Value>): (r: Result<seq<Value>>)
    requires IsArithOp(op)
  {
    var py :- PopInt(S);
    var px :- PopInt(py.rest);
    var z :- ArithOp(op, px.top, py.top);
    Ok(px.rest + [IntVal(z)])
  }

  /** IADD ... ISHR: the operation on the operand stack, then the next
      instruction. */
  function StepArith(op: u8, st: State): (r: Result<Next>)
    requires IsArithOp(op)
  {
    var S' :- ArithOnStack(op, st.S);
    Ok(Continue(st.(S := S', pc := st.pc + 1)))
  }

  /** Constants, locals, ATHROW and ASSERT. */
  function StepLoad(prog: Program, op: u8, st: State): (r: Result<Next>)
    requires IsLoadOp(op)
  {
    if op == BIPUSH then
      var b :- CodeByte(st.P, st.pc + 1);
      Ok(Continue(st.(S := st.S + [IntVal(SignExtend8(b))], pc := st.pc + 2)))
    else if op == ILDC then
      var i :- Imm16(st.P, st.pc);
      if i < |prog.intPool| then
        Ok(Continue(st.(S := st.S + [IntVal(prog.intPool[i])], pc := st.pc + 3)))
      else
        Fail(Malformed)
    else if op == ALDC then
      var i :- Imm16(st.P, st.pc);
      Ok(Continue(st.(S := st.S + [PtrVal(Str(i))], pc := st.pc + 3)))
    else if op == ACONST_NULL then
      Ok(Continue(st.(S := st.S + [PtrVal(Null)], pc := st.pc + 1)))
    else if op == VLOAD then
      var k :- CodeByte(st.P, st.pc + 1);
      if k < |st.V| then Ok(Continue(st.(S := st.S + [st.V[k]], pc := st.pc + 2)))
      else Fail(Malformed)
    else if op == VSTORE then
      var p :- Pop(st.S);
      var k :- CodeByte(st.P, st.pc + 1);
      if k < |st.V| then Ok(Continue(st.(S := p.rest, V := st.V[k := p.top], pc := st.pc + 2)))
      else Fail(Malformed)
    else if op == ATHROW then
      var pa :- PopPtr(st.S);
      Fail(UserError)
    else
      var pa :- PopPtr(st.S);
      var px :- PopInt(pa.rest);
      if px.top == 0 then Fail(AssertionFailure)
      else Ok(Continue(st.(S := px.rest, pc := st.pc + 1)))
  }

  /** The outcome of IF_ICMPLT, IF_ICMPGE, IF_ICMPGT and IF_ICMPLE. */
  function Compare(op: u8, x: i32, y: i32): bool
  {
    if op == IF_ICMPLT then x < y
    else if op == IF_ICMPGE then x >= y
    else if op == IF_ICMPGT then x > y
    else x <= y
  }

  /** Leaves a branch at `st.pc`: to `st.pc` plus the offset when taken, past
      the offset bytes when not. The offset is read only when taken. */
  function Branch(st: State, taken: bool): (r: Result<Next>)
  {
    if taken then
      var off :- Offset16(st.P, st.pc);
      Ok(Continue(st.(pc := st.pc + off)))
    else
      Ok(Continue(st.(pc := st.pc + 3)))
  }

  /** The conditional branches and GOTO. */
  function StepBranch(op: u8, st: State): (r: Result<Next>)
    requires IsBranchOp(op)
  {
    if op == GOTO then
      Branch(st, true)
    else if op == IF_CMPEQ || op == IF_CMPNE then
      var p2 :- Pop(st.S);
      var p1 :- Pop(p2.rest);
      Branch(st.(S := p1.rest), (p1.top == p2.top) == (op == IF_CMPEQ))
    else
      var py :- PopInt(st.S);
      var px :- PopInt(py.rest);
      Branch(st.(S := px.rest), Compare(op, px.top, py.top))
  }

  /** RETURN, INVOKESTATIC and INVOKENATIVE. */
  function StepCall(prog: Program, natives: seq<Native>, op: u8, st: State): (r: Result<Next>)
    requires IsCallOp(op)
  {
    if op == RETURN then
      var p :- Pop(st.S);
      if |p.rest| != 0 then
        Fail(Malformed)
      else if |st.callStack| == 0 then
        if p.top.IntVal? then Ok(Exit(p.top.n)) else Fail(Malformed)
      else
        var f := st.callStack[|st.callStack| - 1];
        Ok(Continue(State(f.S + [p.top], f.P, f.pc, f.V, st.callStack[..|st.callStack| - 1], st.heap)))
    else if op == INVOKESTATIC then
      var i :- Imm16(st.P, st.pc);
      if i >= |prog.functionPool| then Fail(Malformed) else
      var g := prog.functionPool[i];
      if g.numArgs > g.numVars || g.numArgs > |st.S| then Fail(Malformed) else
      var k := |st.S| - g.numArgs;
      var caller := Frame(st.S[..k], st.P, st.pc + 3, st.V);
      Ok(Continue(State([], g.code, 0, st.S[k..] + Zeros(g.numVars - g.numArgs),
                        st.callStack + [caller], st.heap)))
    else
      var i :- Imm16(st.P, st.pc);
      if i >= |prog.nativePool| then Fail(Malformed) else
      NativeCall(natives, st, prog.nativePool[i])
  }

  /** The native bridge of INVOKENATIVE: pops the native's arguments (the
      deepest first in the argument list), pushes what the native returns and
      moves past the two index bytes. The C code keeps the argument count in an
      `int8_t`, so a count of 128 or more turns negative and the allocation of
      the argument buffer fails. */
  function NativeCall(natives: seq<Native>, st: State, info: NativeInfo): (r: Result<Next>)
  {
    var len := SignExtend8(info.numArgs);
    if len < 0 || len > |st.S| || info.tableIndex >= |natives| then Fail(Malformed) else
    var k := |st.S| - len;
    var result := natives[info.tableIndex](st.S[k..]);
    Ok(Continue(st.(S := st.S[..k] + [result], pc := st.pc + 3)))
  }

  /** AADDF's `(char*)a + f`: a field's address inside the same object. */
  function FieldAddr(a: Addr, f: u8): (r: Result<Addr>)
    requires a != Null
  {
    match a
    case Mem(h, off) => Ok(Mem(h, off + f))
    case Str(off) => Ok(Str(off + f))
    case _ => Fail(Malformed)
  }

  /** The array a header reference denotes. */
  function ArrayAt(heap: Heap, a: Addr): (r: Result<Obj>)
    ensures r.Ok? ==> r.value.Array?
  {
    if a.Arr? && a.h < |heap| && heap[a.h].Array? then Ok(heap[a.h]) else Fail(Malformed)
  }

  /** Allocation, loads and stores through references, and address arithmetic.
      Every access through a NULL reference is a memory error raised before
      anything else is read or written. */
  function StepMemory(op: u8, st: State): (r: Result<Next>)
    requires IsMemoryOp(op)
  {
    if op == NEW || op == NEWARRAY then StepAlloc(op, st)
    else if op == IMLOAD || op == AMLOAD || op == CMLOAD then StepMemLoad(op, st)
    else if op == IMSTORE || op == AMSTORE || op == CMSTORE then StepMemStore(op, st)
    else StepAddress(op, st)
  }

  /** NEW and NEWARRAY: a fresh zero-filled object is appended to the heap. */
  function StepAlloc(op: u8, st: State): (r: Result<Next>)
    requires op == NEW || op == NEWARRAY
  {
    var size :- CodeByte(st.P, st.pc + 1);
    if op == NEW then
      Ok(Continue(st.(S := st.S + [PtrVal(Mem(|st.heap|, 0))],
                      heap := st.heap + [Block(Cleared(size))],
                      pc := st.pc + 2)))
    else
      var pn :- PopInt(st.S);
      if pn.top < 0 then Fail(MemoryError) else
      Ok(Continue(st.(S := pn.rest + [PtrVal(Arr(|st.heap|))],
                      heap := st.heap + [Array(pn.top, size, Cleared(pn.top * size))],
                      pc := st.pc + 2)))
  }

  /** How many cells IMLOAD, AMLOAD or CMLOAD reads. */
  function CellsFor(op: u8): nat
  {
    if op == IMLOAD then INT_SIZE else if op == AMLOAD then PTR_SIZE else 1
  }

  /** The value IMLOAD, AMLOAD or CMLOAD makes of the cells it reads. */
  function DecodeFor(op: u8, cs: seq<Cell>): (r: Result<Value>)
    requires op == IMLOAD || op == AMLOAD || op == CMLOAD
    requires |cs| == CellsFor(op)
    ensures r.Ok? ==> (r.value.IntVal? <==> op != AMLOAD)
  {
    if op == IMLOAD then
      var x :- DecodeInt(cs);
      Ok(IntVal(x))
    else if op == AMLOAD then
      var b :- DecodePtr(cs);
      Ok(PtrVal(b))
    else
      var x :- DecodeChar(cs[0]);
      Ok(IntVal(x))
  }

  /** IMLOAD, AMLOAD and CMLOAD: replace the reference on top by the value
      it points to. */
  function StepMemLoad(op: u8, st: State): (r: Result<Next>)
    requires op == IMLOAD || op == AMLOAD || op == CMLOAD
  {
    var pa :- PopPtr(st.S);
    if pa.top == Null then Fail(MemoryError) else
    var cs :- Load(st.heap, pa.top, CellsFor(op));
    var v :- DecodeFor(op, cs);
    Ok(Continue(st.(S := pa.rest + [v], pc := st.pc + 1)))
  }

  /** The cells IMSTORE, AMSTORE or CMSTORE writes for `v`; a value of the
      wrong kind is malformed. */
  function EncodeFor(op: u8, v: Value): (r: Result<seq<Cell>>)
    requires op == IMSTORE || op == AMSTORE || op == CMSTORE
  {
    if op == AMSTORE then
      if v.PtrVal? then Ok(EncodePtr(v.a)) else Fail(Malformed)
    else if v.IntVal? then
      if op == IMSTORE then Ok(EncodeInt(v.n)) else Ok([EncodeChar(v.n)])
    else Fail(Malformed)
  }

  /** IMSTORE, AMSTORE and CMSTORE: pop the value, then the reference, and
      write the value where the reference points. */
  function StepMemStore(op: u8, st: State): (r: Result<Next>)
    requires op == IMSTORE || op == AMSTORE || op == CMSTORE
  {
    var pv :- Pop(st.S);
    var cs :- EncodeFor(op, pv.top);
    var pa :- PopPtr(pv.rest);
    if pa.top == Null then Fail(MemoryError) else
    var heap' :- Store(st.heap, pa.top, cs);
    Ok(Continue(st.(S := pa.rest, heap := heap', pc := st.pc + 1)))
  }

  /** AADDF, ARRAYLENGTH and AADDS. */
  function StepAddress(op: u8, st: State): (r: Result<Next>)
    requires op == AADDF || op == ARRAYLENGTH || op == AADDS
  {
    if op == AADDF then
      var f :- CodeByte(st.P, st.pc + 1);
      var pa :- PopPtr(st.S);
      if pa.top == Null then Fail(MemoryError) else
      var b :- FieldAddr(pa.top, f);
      Ok(Continue(st.(S := pa.rest + [PtrVal(b)], pc := st.pc + 2)))
    else if op == ARRAYLENGTH then
      var pa :- PopPtr(st.S);
      if pa.top == Null then Fail(MemoryError) else
      var arr :- ArrayAt(st.heap, pa.top);
      Ok(Continue(st.(S := pa.rest + [IntVal(Wrap(arr.count))], pc := st.pc + 1)))
    else
      var pi :- PopInt(st.S);
      var pa :- PopPtr(pi.rest);
      if pa.top == Null then Fail(MemoryError) else
      var arr :- ArrayAt(st.heap, pa.top);
      var i := ToChar(pi.top);
      if i > ToChar(arr.count) then Fail(UserError)
      else Ok(Continue(st.(S := pa.rest + [PtrVal(Mem(pa.top.h, arr.eltSize * i))], pc := st.pc + 1)))
  }

  // ---------------------------------------------------------------------------
  // Running

  datatype RunResult = Exited(code: i32) | Failed(error: ErrorKind) | OutOfFuel(st: State)

  /** At most `fuel` passes of a dispatch loop whose body is `step`: it stops
      at the first error or exit. */
  function Iterate(step: State -> Result<Next>, st: State, fuel: nat): RunResult
    decreases fuel
  {
    if fuel == 0 then OutOfFuel(st)
    else
      match step(st)
      case Fail(e) => Failed(e)
      case Ok(Exit(code)) => Exited(code)
      case Ok(Continue(st')) => Iterate(step, st', fuel - 1)
  }

  /** The body of the dispatch loop of `execute` for a given program. */
  function Stepper(prog: Program, natives: seq<Native>): State -> Result<Next>
  {
    s => Step(prog, natives, s)
  }

  /** At most `fuel` passes of the dispatch loop of `execute` from `st`. */
  function Run(prog: Program, natives: seq<Native>, st: State, fuel: nat): RunResult
  {
    Iterate(Stepper(prog, natives), st, fuel)
  }
}
