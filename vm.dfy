/** The interpreter as the C code runs it: the registers of `execute` are the
    fields of a `Vm`, each instruction updates them in place, and the dispatch
    loop runs until an exit, an error or the end of its fuel. Every method is
    proved to agree with the state-transformer `Step` of module Machine, so
    every law proved about `Step` holds of the running machine. */
module Interpreter {
  import opened Int32
  import opened Values
  import opened Heaps
  import opened Opcodes
  import opened Machine
  import Properties

  /** What one pass of the dispatch loop reports. */
  datatype Outcome = Running | Halted(code: i32)

  /** The `Step` result a pass with outcome `r` leaving the machine in `st`
      stands for. */
  function Observed(r: Result<Outcome>, st: State): Result<Next>
  {
    match r
    case Fail(e) => Fail(e)
    case Ok(Running) => Ok(Continue(st))
    case Ok(Halted(code)) => Ok(Exit(code))
  }

  /** One pass reported as `r`, leaving the machine in `after`, accounts for
      one unit of fuel of the run from `before`. */
  lemma RunObserved(prog: Program, natives: seq<Native>, before: State, after: State,
                    r: Result<Outcome>, fuel: nat)
    requires fuel > 0 && Observed(r, after) == Step(prog, natives, before)
    ensures r.Fail? ==> Run(prog, natives, before, fuel) == Failed(r.error)
    ensures r.Ok? && r.value.Halted? ==> Run(prog, natives, before, fuel) == Exited(r.value.code)
    ensures r == Ok(Running) ==> Run(prog, natives, before, fuel) == Run(prog, natives, after, fuel - 1)
  {
    Properties.RunUnfold(prog, natives, before, fuel);
  }

  /** The argument loop shared by INVOKESTATIC and INVOKENATIVE: pops `len`
      values off `stack` into slots `len - 1` down to `0` of a buffer of `size`
      zero-filled slots. The callee thus receives its arguments in the order
      they were pushed, and the remaining slots are zero. */
  method PopInto(stack: seq<Value>, len: nat, size: nat) returns (rest: seq<Value>, buffer: seq<Value>)
    requires len <= size && len <= |stack|
    ensures rest == stack[..|stack| - len]
    ensures buffer == stack[|stack| - len..] + Zeros(size - len)
  {
    var buf := new Value[size](_ => ZERO);
    rest := stack;
    var i := 0;
    while i < len
      invariant 0 <= i <= len
      invariant rest == stack[..|stack| - i]
      invariant forall j :: 0 <= j < len - i ==> buf[j] == ZERO
      invariant forall j :: len - i <= j < len ==> buf[j] == stack[|stack| - len + j]
      invariant forall j :: len <= j < size ==> buf[j] == ZERO
    {
      var v := rest[|rest| - 1];
      rest := rest[..|rest| - 1];
      buf[len - 1 - i] := v;
      i := i + 1;
    }
    buffer := buf[..];
  }

  class Vm {
    const prog: Program
    const natives: seq<Native>
    /** the active frame's operand stack, top last */
    var S: seq<Value>
    /** the active function's code */
    var P: seq<u8>
    var pc: int
    /** the active frame's locals */
    var V: seq<Value>
    /** the suspended frames, innermost last */
    var callStack: seq<Frame>
    var heap: Heap

    /** The machine state the fields hold. */
    function Current(): State
      reads this
    {
      State(S, P, pc, V, callStack, heap)
    }

    /** The start of `execute`: the entry function at pc 0 with zeroed locals. */
    constructor (prog: Program, natives: seq<Native>)
      requires |prog.functionPool| > 0
      ensures this.prog == prog && this.natives == natives
      ensures Current() == Init(prog)
    {
      this.prog := prog;
      this.natives := natives;
      S := [];
      P := prog.functionPool[0].code;
      pc := 0;
      V := Zeros(prog.functionPool[0].numVars);
      callStack := [];
      heap := [];
    }

    // -------------------------------------------------------------------------
    // Operand stack

    /** `c0v_push`. */
    method Push(v: Value)
      modifies this`S
      ensures S == old(S) + [v]
    {
      S := S + [v];
    }

    /** `c0v_pop`. */
    method PopValue() returns (r: Result<Value>)
      modifies this`S
      ensures r.Ok? ==> Pop(old(S)) == Ok(Popped(r.value, S))
      ensures r.Fail? ==> Pop(old(S)) == Fail(r.error)
    {
      if |S| == 0 {
        return Fail(Malformed);
      }
      r := Ok(S[|S| - 1]);
      S := S[..|S| - 1];
    }

    /** `pop_int`. */
    method PopIntValue() returns (r: Result<i32>)
      modifies this`S
      ensures r.Ok? ==> PopInt(old(S)) == Ok(Popped(r.value, S))
      ensures r.Fail? ==> PopInt(old(S)) == Fail(r.error)
    {
      var v :- PopValue();
      if !v.IntVal? {
        return Fail(Malformed);
      }
      r := Ok(v.n);
    }

    /** `pop_ptr`. */
    method PopPtrValue() returns (r: Result<Addr>)
      modifies this`S
      ensures r.Ok? ==> PopPtr(old(S)) == Ok(Popped(r.value, S))
      ensures r.Fail? ==> PopPtr(old(S)) == Fail(r.error)
    {
      var v :- PopValue();
      if !v.PtrVal? {
        return Fail(Malformed);
      }
      r := Ok(v.a);
    }

    // -------------------------------------------------------------------------
    // One instruction

    /** One pass of the dispatch loop, in place. */
    method StepInPlace() returns (r: Result<Outcome>)
      modifies this
      ensures Observed(r, Current()) == Step(prog, natives, old(Current()))
    {
      if !(0 <= pc < |P|) {
        return Fail(Malformed);
      }
      Properties.Dispatch(prog, natives, Current());
      var op := P[pc];
      if IsStackOp(op) {
        r := ExecStack(op);
      } else if IsArithOp(op) {
        r := ExecArith(op);
      } else if IsLoadOp(op) {
        r := ExecLoad(op);
      } else if IsBranchOp(op) {
        r := ExecBranch(op);
      } else if IsCallOp(op) {
        r := ExecCall(op);
      } else if op == NEW || op == NEWARRAY {
        r := ExecAlloc(op);
      } else if op == IMLOAD || op == AMLOAD || op == CMLOAD {
        r := ExecMemLoad(op);
      } else if op == IMSTORE || op == AMSTORE || op == CMSTORE {
        r := ExecMemStore(op);
      } else if op == AADDF || op == ARRAYLENGTH || op == AADDS {
        r := ExecAddress(op);
      } else {
        r := Fail(InvalidOpcode);
      }
    }

    method ExecStack(op: u8) returns (r: Result<Outcome>)
      requires IsStackOp(op)
      modifies this
      ensures Observed(r, Current()) == StepStack(op, old(Current()))
    {
      pc := pc + 1;
      if op == POP {
        var v :- PopValue();
      } else if op == DUP {
        var v :- PopValue();
        ghost var below := S;
        Push(v);
        Push(v);
        assert S == below + [v, v];
      } else if op == SWAP {
        var v2 :- PopValue();
        var v1 :- PopValue();
        ghost var below := S;
        Push(v2);
        Push(v1);
        assert S == below + [v2, v1];
      }
      r := Ok(Running);
    }

    method ExecArith(op: u8) returns (r: Result<Outcome>)
      requires IsArithOp(op)
      modifies this
      ensures Observed(r, Current()) == StepArith(op, old(Current()))
    {
      ghost var st := Current();
      r := ApplyArith(op);
      if r.Ok? {
        pc := pc + 1;
        assert StepArith(op, st) == Ok(Continue(Current()));
      }
    }

    /** The stack half of IADD ... ISHR. */
    method ApplyArith(op: u8) returns (r: Result<Outcome>)
      requires IsArithOp(op)
      modifies this`S
      ensures r.Ok? ==> r.value == Running && ArithOnStack(op, old(S)) == Ok(S)
      ensures r.Fail? ==> ArithOnStack(op, old(S)) == Fail(r.error)
    {
      var y :- PopIntValue();
      var x :- PopIntValue();
      var z :- ArithOp(op, x, y);
      Push(IntVal(z));
      r := Ok(Running);
    }

    method ExecLoad(op: u8) returns (r: Result<Outcome>)
      requires IsLoadOp(op)
      modifies this
      ensures Observed(r, Current()) == StepLoad(prog, op, old(Current()))
    {
      if op == BIPUSH {
        var b :- CodeByte(P, pc + 1);
        Push(IntVal(SignExtend8(b)));
        pc := pc + 2;
      } else if op == ILDC {
        var i :- Imm16(P, pc);
        if i >= |prog.intPool| {
          return Fail(Malformed);
        }
        Push(IntVal(prog.intPool[i]));
        pc := pc + 3;
      } else if op == ALDC {
        var i :- Imm16(P, pc);
        Push(PtrVal(Str(i)));
        pc := pc + 3;
      } else if op == ACONST_NULL {
        Push(PtrVal(Null));
        pc := pc + 1;
      } else if op == VLOAD {
        var k :- CodeByte(P, pc + 1);
        if k >= |V| {
          return Fail(Malformed);
        }
        Push(V[k]);
        pc := pc + 2;
      } else if op == VSTORE {
        var v :- PopValue();
        var k :- CodeByte(P, pc + 1);
        if k >= |V| {
          return Fail(Malformed);
        }
        V := V[k := v];
        pc := pc + 2;
      } else if op == ATHROW {
        var a :- PopPtrValue();
        return Fail(UserError);
      } else {
        var a :- PopPtrValue();
        var x :- PopIntValue();
        if x == 0 {
          return Fail(AssertionFailure);
        }
        pc := pc + 1;
      }
      r := Ok(Running);
    }

    /** Leaves the branch at `pc`, to the offset's target when `taken`. */
    method Jump(taken: bool) returns (r: Result<Outcome>)
      modifies this`pc
      ensures Observed(r, Current()) == Branch(old(Current()), taken)
    {
      if taken {
        var off :- Offset16(P, pc);
        pc := pc + off;
      } else {
        pc := pc + 3;
      }
      r := Ok(Running);
    }

    method ExecBranch(op: u8) returns (r: Result<Outcome>)
      requires IsBranchOp(op)
      modifies this
      ensures Observed(r, Current()) == StepBranch(op, old(Current()))
    {
      var taken := true;
      if op == IF_CMPEQ || op == IF_CMPNE {
        var v2 :- PopValue();
        var v1 :- PopValue();
        taken := (v1 == v2) == (op == IF_CMPEQ);
      } else if op != GOTO {
        var y :- PopIntValue();
        var x :- PopIntValue();
        taken := Compare(op, x, y);
      }
      r := Jump(taken);
    }

    method ExecCall(op: u8) returns (r: Result<Outcome>)
      requires IsCallOp(op)
      modifies this
      ensures Observed(r, Current()) == StepCall(prog, natives, op, old(Current()))
    {
      if op == RETURN {
        r := ExecReturn();
      } else if op == INVOKESTATIC {
        r := ExecInvokeStatic();
      } else {
        r := ExecInvokeNative();
      }
    }

    /** RETURN: back to the caller with the single value on the stack, or out
        of `execute` when no caller is suspended. */
    method ExecReturn() returns (r: Result<Outcome>)
      modifies this
      ensures Observed(r, Current()) == StepCall(prog, natives, RETURN, old(Current()))
    {
      var v :- PopValue();
      if |S| != 0 {
        return Fail(Malformed);
      }
      if |callStack| == 0 {
        if !v.IntVal? {
          return Fail(Malformed);
        }
        return Ok(Halted(v.n));
      }
      var f := callStack[|callStack| - 1];
      callStack := callStack[..|callStack| - 1];
      S, P, pc, V := f.S, f.P, f.pc, f.V;
      Push(v);
      r := Ok(Running);
    }

    /** INVOKESTATIC: suspends the caller and enters the callee with its
        arguments as its first locals. */
    method ExecInvokeStatic() returns (r: Result<Outcome>)
      modifies this
      ensures Observed(r, Current()) == StepCall(prog, natives, INVOKESTATIC, old(Current()))
    {
      var i :- Imm16(P, pc);
      if i >= |prog.functionPool| {
        return Fail(Malformed);
      }
      var g := prog.functionPool[i];
      if g.numArgs > g.numVars || g.numArgs > |S| {
        return Fail(Malformed);
      }
      var rest, locals := PopInto(S, g.numArgs, g.numVars);
      callStack := callStack + [Frame(rest, P, pc + 3, V)];
      S, P, pc, V := [], g.code, 0, locals;
      r := Ok(Running);
    }

    /** INVOKENATIVE: hands the arguments to the host and pushes its answer. */
    method ExecInvokeNative() returns (r: Result<Outcome>)
      modifies this
      ensures Observed(r, Current()) == StepCall(prog, natives, INVOKENATIVE, old(Current()))
    {
      var i :- Imm16(P, pc);
      if i >= |prog.nativePool| {
        return Fail(Malformed);
      }
      var info := prog.nativePool[i];
      var len := SignExtend8(info.numArgs);
      if len < 0 || len > |S| || info.tableIndex >= |natives| {
        return Fail(Malformed);
      }
      var rest, args := PopInto(S, len, len);
      assert args == S[|S| - len..];
      S := rest;
      Push(natives[info.tableIndex](args));
      pc := pc + 3;
      r := Ok(Running);
    }

    method ExecAlloc(op: u8) returns (r: Result<Outcome>)
      requires op == NEW || op == NEWARRAY
      modifies this
      ensures Observed(r, Current()) == StepAlloc(op, old(Current()))
    {
      var size :- CodeByte(P, pc + 1);
      if op == NEW {
        Push(PtrVal(Mem(|heap|, 0)));
        heap := heap + [Block(Cleared(size))];
      } else {
        var n :- PopIntValue();
        if n < 0 {
          return Fail(MemoryError);
        }
        Push(PtrVal(Arr(|heap|)));
        heap := heap + [Array(n, size, Cleared(n * size))];
      }
      pc := pc + 2;
      r := Ok(Running);
    }

    method ExecMemLoad(op: u8) returns (r: Result<Outcome>)
      requires op == IMLOAD || op == AMLOAD || op == CMLOAD
      modifies this
      ensures Observed(r, Current()) == StepMemLoad(op, old(Current()))
    {
      var a :- PopPtrValue();
      if a == Null {
        return Fail(MemoryError);
      }
      var cs :- Load(heap, a, CellsFor(op));
      var v :- DecodeFor(op, cs);
      Push(v);
      pc := pc + 1;
      r := Ok(Running);
    }

    method ExecMemStore(op: u8) returns (r: Result<Outcome>)
      requires op == IMSTORE || op == AMSTORE || op == CMSTORE
      modifies this
      ensures Observed(r, Current()) == StepMemStore(op, old(Current()))
    {
      var v :- PopValue();
      var cs :- EncodeFor(op, v);
      var a :- PopPtrValue();
      if a == Null {
        return Fail(MemoryError);
      }
      heap :- Store(heap, a, cs);
      pc := pc + 1;
      r := Ok(Running);
    }

    method ExecAddress(op: u8) returns (r: Result<Outcome>)
      requires op == AADDF || op == ARRAYLENGTH || op == AADDS
      modifies this
      ensures Observed(r, Current()) == StepAddress(op, old(Current()))
    {
      if op == AADDF {
        var f :- CodeByte(P, pc + 1);
        var a :- PopPtrValue();
        if a == Null {
          return Fail(MemoryError);
        }
        var b :- FieldAddr(a, f);
        Push(PtrVal(b));
        pc := pc + 2;
      } else if op == ARRAYLENGTH {
        var a :- PopPtrValue();
        if a == Null {
          return Fail(MemoryError);
        }
        var arr :- ArrayAt(heap, a);
        Push(IntVal(Wrap(arr.count)));
        pc := pc + 1;
      } else {
        var n :- PopIntValue();
        var a :- PopPtrValue();
        if a == Null {
          return Fail(MemoryError);
        }
        var arr :- ArrayAt(heap, a);
        var i := ToChar(n);
        if i > ToChar(arr.count) {
          return Fail(UserError);
        }
        Push(PtrVal(Mem(a.h, arr.eltSize * i)));
        pc := pc + 1;
      }
      r := Ok(Running);
    }

    // -------------------------------------------------------------------------
    // The dispatch loop

    /** The `while (true)` loop of `execute`, cut off after `fuel` passes. */
    method Execute(fuel: nat) returns (r: RunResult)
      modifies this
      ensures r == Run(prog, natives, old(Current()), fuel)
    {
      var n: nat := fuel;
      while n > 0
        invariant n <= fuel
        invariant Run(prog, natives, old(Current()), fuel) == Run(prog, natives, Current(), n)
      {
        ghost var before := Current();
        var o := StepInPlace();
        RunObserved(prog, natives, before, Current(), o, n);
        if o.Fail? {
          return Failed(o.error);
        } else if o.value.Halted? {
          return Exited(o.value.code);
        }
        n := n - 1;
      }
      r := OutOfFuel(Current());
    }
  }

  /** `execute`: runs a loaded program from its entry function. */
  method ExecuteProgram(prog: Program, natives: seq<Native>, fuel: nat) returns (r: RunResult)
    requires |prog.functionPool| > 0
    ensures r == Run(prog, natives, Init(prog), fuel)
  {
    var vm := new Vm(prog, natives);
    r := vm.Execute(fuel);
  }
}
