/** Small bytecode programs run from their entry point to the end, each
    derived instruction by instruction from the laws of module Properties.
    Each holds of every program whose function pool holds the given code. */
module Scenarios {
  import opened Int32
  import opened Values
  import opened Opcodes
  import opened Machine
  import opened Properties

  /** BIPUSH b continues with the sign-extended byte pushed. */
  lemma Push(prog: Program, natives: seq<Native>, st: State, b: u8, x: i32)
    requires At(st, BIPUSH) && ImmAt(st, 1, b) && x == SignExtend8(b)
    ensures Step(prog, natives, st) == Ok(Continue(st.(S := st.S + [IntVal(x)], pc := st.pc + 2)))
  {
    BipushLaw(prog, natives, st, b);
  }

  /** IADD continues with the wrapped sum in place of its operands. */
  lemma AddStep(prog: Program, natives: seq<Native>, st: State, rest: seq<Value>, a: i32, b: i32)
    requires At(st, IADD) && st.S == rest + [IntVal(a), IntVal(b)]
    ensures Step(prog, natives, st) == Ok(Continue(st.(S := rest + [IntVal(Wrap(a + b))], pc := st.pc + 1)))
  {
    BinaryOpLaw(prog, natives, st, IADD, rest, a, b);
    assert ArithOp(IADD, a, b) == Ok(Wrap(a + b));
  }

  /** The entry function's code is `code`. */
  predicate Loads(prog: Program, code: seq<u8>)
  {
    |prog.functionPool| > 0 && prog.functionPool[0].code == code
  }

  // ---------------------------------------------------------------------------
  // return 5 + 3;

  const ADD_CODE: seq<u8> := [BIPUSH, 5, BIPUSH, 3, IADD, RETURN]

  /** The states before each instruction. */
  function AddTrace(prog: Program): (t: seq<State>)
    requires |prog.functionPool| > 0
    ensures |t| == 4 && t[0] == Init(prog)
  {
    var s0 := Init(prog);
    [s0, s0.(S := [IntVal(5)], pc := 2), s0.(S := [IntVal(5), IntVal(3)], pc := 4),
     s0.(S := [IntVal(8)], pc := 5)]
  }

  lemma AddFirstPush(prog: Program, natives: seq<Native>)
    requires Loads(prog, ADD_CODE)
    ensures var t := AddTrace(prog); Step(prog, natives, t[0]) == Ok(Continue(t[1]))
  {
    var t := AddTrace(prog);
    Push(prog, natives, t[0], 5, 5);
    assert t[0].S + [IntVal(5)] == t[1].S;
  }

  lemma AddSecondPush(prog: Program, natives: seq<Native>)
    requires Loads(prog, ADD_CODE)
    ensures var t := AddTrace(prog); Step(prog, natives, t[1]) == Ok(Continue(t[2]))
  {
    var t := AddTrace(prog);
    Push(prog, natives, t[1], 3, 3);
    assert t[1].S + [IntVal(3)] == t[2].S;
  }

  lemma AddSum(prog: Program, natives: seq<Native>)
    requires Loads(prog, ADD_CODE)
    ensures var t := AddTrace(prog); Step(prog, natives, t[2]) == Ok(Continue(t[3]))
  {
    var t := AddTrace(prog);
    assert t[2].S == [] + [IntVal(5), IntVal(3)];
    AddStep(prog, natives, t[2], [], 5, 3);
    assert [] + [IntVal(8)] == t[3].S;
  }

  /** The program exits with 8 after its four instructions. */
  lemma AddReturnsEight(prog: Program, natives: seq<Native>)
    requires Loads(prog, ADD_CODE)
    ensures Run(prog, natives, Init(prog), 4) == Exited(8)
  {
    var t := AddTrace(prog);
    AddFirstPush(prog, natives);
    AddSecondPush(prog, natives);
    AddSum(prog, natives);
    IterateAlong(Stepper(prog, natives), t, 1);
    ReturnLaw(prog, natives, t[3], IntVal(8));
    RunUnfold(prog, natives, t[3], 1);
  }

  // ---------------------------------------------------------------------------
  // return 7 / 0;

  const DIVIDE_BY_ZERO_CODE: seq<u8> := [BIPUSH, 7, BIPUSH, 0, IDIV, RETURN]

  function DivideTrace(prog: Program): (t: seq<State>)
    requires |prog.functionPool| > 0
    ensures |t| == 3 && t[0] == Init(prog)
  {
    var s0 := Init(prog);
    [s0, s0.(S := [IntVal(7)], pc := 2), s0.(S := [IntVal(7), IntVal(0)], pc := 4)]
  }

  lemma DividePushes(prog: Program, natives: seq<Native>)
    requires Loads(prog, DIVIDE_BY_ZERO_CODE)
    ensures var t := DivideTrace(prog); Step(prog, natives, t[0]) == Ok(Continue(t[1]))
  {
    var t := DivideTrace(prog);
    Push(prog, natives, t[0], 7, 7);
    assert t[0].S + [IntVal(7)] == t[1].S;
  }

  lemma DividePushesZero(prog: Program, natives: seq<Native>)
    requires Loads(prog, DIVIDE_BY_ZERO_CODE)
    ensures var t := DivideTrace(prog); Step(prog, natives, t[1]) == Ok(Continue(t[2]))
  {
    var t := DivideTrace(prog);
    Push(prog, natives, t[1], 0, 0);
    assert t[1].S + [IntVal(0)] == t[2].S;
  }

  lemma DivideFails(prog: Program, natives: seq<Native>)
    requires Loads(prog, DIVIDE_BY_ZERO_CODE)
    ensures Step(prog, natives, DivideTrace(prog)[2]) == Fail(ArithError)
  {
    var t := DivideTrace(prog);
    assert t[2].S == [] + [IntVal(7), IntVal(0)];
    BinaryOpLaw(prog, natives, t[2], IDIV, [], 7, 0);
  }

  /** However much fuel it is given, the program stops with an arithmetic
      error at its third instruction. */
  lemma DivideByZeroIsArithError(prog: Program, natives: seq<Native>, fuel: nat)
    requires Loads(prog, DIVIDE_BY_ZERO_CODE) && fuel >= 3
    ensures Run(prog, natives, Init(prog), fuel) == Failed(ArithError)
  {
    var t := DivideTrace(prog);
    DividePushes(prog, natives);
    DividePushesZero(prog, natives);
    DivideFails(prog, natives);
    IterateAlong(Stepper(prog, natives), t, fuel - 2);
    assert |t| - 1 + (fuel - 2) == fuel;
    RunUnfold(prog, natives, t[2], fuel - 2);
  }

  // ---------------------------------------------------------------------------
  // return add(20, 22);  with  int add(int a, int b) { return a + b; }

  const CALL_CODE: seq<u8> := [BIPUSH, 20, BIPUSH, 22, INVOKESTATIC, 0, 1, RETURN]
  const ADD_ARGS_CODE: seq<u8> := [VLOAD, 0, VLOAD, 1, IADD, RETURN]

  /** The entry function calls function 1, which is `add`. */
  predicate LoadsCall(prog: Program)
  {
    |prog.functionPool| > 1 && prog.functionPool[0].code == CALL_CODE &&
    prog.functionPool[1] == Function(2, 2, ADD_ARGS_CODE)
  }

  function CallTrace(prog: Program): (t: seq<State>)
    requires |prog.functionPool| > 0
    ensures |t| == 8 && t[0] == Init(prog)
  {
    var s0 := Init(prog);
    var callee := State([], ADD_ARGS_CODE, 0, [IntVal(20), IntVal(22)], [Frame([], CALL_CODE, 7, s0.V)], []);
    [s0,
     s0.(S := [IntVal(20)], pc := 2),
     s0.(S := [IntVal(20), IntVal(22)], pc := 4),
     callee,
     callee.(S := [IntVal(20)], pc := 2),
     callee.(S := [IntVal(20), IntVal(22)], pc := 4),
     callee.(S := [IntVal(42)], pc := 5),
     State([IntVal(42)], CALL_CODE, 7, s0.V, [], [])]
  }

  lemma CallPushesFirst(prog: Program, natives: seq<Native>)
    requires LoadsCall(prog)
    ensures var t := CallTrace(prog); Step(prog, natives, t[0]) == Ok(Continue(t[1]))
  {
    var t := CallTrace(prog);
    Push(prog, natives, t[0], 20, 20);
    assert t[0].S + [IntVal(20)] == t[1].S;
  }

  lemma CallPushesSecond(prog: Program, natives: seq<Native>)
    requires LoadsCall(prog)
    ensures var t := CallTrace(prog); Step(prog, natives, t[1]) == Ok(Continue(t[2]))
  {
    var t := CallTrace(prog);
    Push(prog, natives, t[1], 22, 22);
    assert t[1].S + [IntVal(22)] == t[2].S;
  }

  /** The call suspends the caller, to resume after the call with nothing on
      its stack, and enters `add` with the arguments as its locals. */
  lemma CallEnters(prog: Program, natives: seq<Native>)
    requires LoadsCall(prog)
    ensures var t := CallTrace(prog); Step(prog, natives, t[2]) == Ok(Continue(t[3]))
  {
    var t := CallTrace(prog);
    InvokeStaticLaw(prog, natives, t[2], 0, 1);
    var st := Step(prog, natives, t[2]).value.st;
    assert t[2].S[..0] == [];
    assert st.V == t[3].V;
    assert st.callStack == [] + [Frame([], CALL_CODE, 7, t[0].V)] == t[3].callStack;
  }

  lemma CalleeLoadsFirst(prog: Program, natives: seq<Native>)
    requires LoadsCall(prog)
    ensures var t := CallTrace(prog); Step(prog, natives, t[3]) == Ok(Continue(t[4]))
  {
    var t := CallTrace(prog);
    LoadLocalLaw(prog, natives, t[3], 0);
    assert t[3].S + [t[3].V[0]] == t[4].S;
  }

  lemma CalleeLoadsSecond(prog: Program, natives: seq<Native>)
    requires LoadsCall(prog)
    ensures var t := CallTrace(prog); Step(prog, natives, t[4]) == Ok(Continue(t[5]))
  {
    var t := CallTrace(prog);
    LoadLocalLaw(prog, natives, t[4], 1);
    assert t[4].S + [t[4].V[1]] == t[5].S;
  }

  lemma CalleeAdds(prog: Program, natives: seq<Native>)
    requires LoadsCall(prog)
    ensures var t := CallTrace(prog); Step(prog, natives, t[5]) == Ok(Continue(t[6]))
  {
    var t := CallTrace(prog);
    assert t[5].S == [] + [IntVal(20), IntVal(22)];
    AddStep(prog, natives, t[5], [], 20, 22);
    assert [] + [IntVal(42)] == t[6].S;
  }

  /** The callee's RETURN resumes the caller after the call, with the sum
      pushed on the stack it had left. */
  lemma CalleeReturns(prog: Program, natives: seq<Native>)
    requires LoadsCall(prog)
    ensures var t := CallTrace(prog); Step(prog, natives, t[6]) == Ok(Continue(t[7]))
  {
    var t := CallTrace(prog);
    ReturnLaw(prog, natives, t[6], IntVal(42));
    assert [] + [IntVal(42)] == t[7].S;
  }

  /** The program exits with 42 after eight instructions. */
  lemma CallReturnsSum(prog: Program, natives: seq<Native>)
    requires LoadsCall(prog)
    ensures Run(prog, natives, Init(prog), 8) == Exited(42)
  {
    var t := CallTrace(prog);
    CallPushesFirst(prog, natives);
    CallPushesSecond(prog, natives);
    CallEnters(prog, natives);
    CalleeLoadsFirst(prog, natives);
    CalleeLoadsSecond(prog, natives);
    CalleeAdds(prog, natives);
    CalleeReturns(prog, natives);
    IterateAlong(Stepper(prog, natives), t, 1);
    ReturnLaw(prog, natives, t[7], IntVal(42));
    RunUnfold(prog, natives, t[7], 1);
  }

  // ---------------------------------------------------------------------------
  // return f(9);  with  f  the first entry of the native pool

  const NATIVE_CODE: seq<u8> := [BIPUSH, 9, INVOKENATIVE, 0, 0, RETURN]

  /** The entry function calls a one-argument native at table index 0. */
  predicate LoadsNative(prog: Program, natives: seq<Native>)
  {
    Loads(prog, NATIVE_CODE) &&
    |prog.nativePool| > 0 && prog.nativePool[0] == NativeInfo(1, 0) && |natives| > 0
  }

  function NativeTrace(prog: Program, natives: seq<Native>): (t: seq<State>)
    requires |prog.functionPool| > 0 && |natives| > 0
    ensures |t| == 3 && t[0] == Init(prog)
  {
    var s0 := Init(prog);
    [s0, s0.(S := [IntVal(9)], pc := 2), s0.(S := [natives[0]([IntVal(9)])], pc := 5)]
  }

  lemma NativePushes(prog: Program, natives: seq<Native>)
    requires LoadsNative(prog, natives)
    ensures var t := NativeTrace(prog, natives); Step(prog, natives, t[0]) == Ok(Continue(t[1]))
  {
    var t := NativeTrace(prog, natives);
    Push(prog, natives, t[0], 9, 9);
    assert t[0].S + [IntVal(9)] == t[1].S;
  }

  /** The native receives the pushed argument and its answer replaces it. */
  lemma NativeAnswers(prog: Program, natives: seq<Native>)
    requires LoadsNative(prog, natives)
    ensures var t := NativeTrace(prog, natives); Step(prog, natives, t[1]) == Ok(Continue(t[2]))
  {
    var t := NativeTrace(prog, natives);
    InvokeNativeLaw(prog, natives, t[1], 0, 0);
    assert t[1].S[..0] + [natives[0](t[1].S[0..])] == t[2].S;
  }

  /** What the native answers is what the program exits with; an answer that
      is a reference cannot be an exit code. */
  lemma NativeAnswerIsExitCode(prog: Program, natives: seq<Native>)
    requires LoadsNative(prog, natives)
    ensures var answer := natives[0]([IntVal(9)]);
            Run(prog, natives, Init(prog), 3) ==
            if answer.IntVal? then Exited(answer.n) else Failed(Malformed)
  {
    var t := NativeTrace(prog, natives);
    NativePushes(prog, natives);
    NativeAnswers(prog, natives);
    IterateAlong(Stepper(prog, natives), t, 1);
    ReturnLaw(prog, natives, t[2], natives[0]([IntVal(9)]));
    RunUnfold(prog, natives, t[2], 1);
  }

  // ---------------------------------------------------------------------------
  // int s = 0; int i = 0; while (i < n) { s = s + i; i = i + 1; } return s;

  /** `c` is the loop compiled with the sum `s` in local 0 and the counter `i`
      in local 1, listed byte by byte:
         0  BIPUSH 0; VSTORE 0; BIPUSH 0; VSTORE 1
         8  VLOAD 1; BIPUSH n; IF_ICMPLT +6 (to 18); GOTO +20 (to 35)
        18  VLOAD 0; VLOAD 1; IADD; VSTORE 0
        25  VLOAD 1; BIPUSH 1; IADD; VSTORE 1; GOTO -24 (to 8)
        35  VLOAD 0; RETURN */
  predicate LoopBytes(c: seq<u8>, n: u8)
  {
    |c| == 38 && LoopHeadBytes(c, n) && LoopBodyBytes(c)
  }

  /** The initialisation, the test and the exit jump: bytes 0 to 17. */
  predicate LoopHeadBytes(c: seq<u8>, n: u8)
    requires |c| == 38
  {
    c[0] == BIPUSH && c[1] == 0 && c[2] == VSTORE && c[3] == 0 &&
    c[4] == BIPUSH && c[5] == 0 && c[6] == VSTORE && c[7] == 1 &&
    c[8] == VLOAD && c[9] == 1 && c[10] == BIPUSH && c[11] == n &&
    c[12] == IF_ICMPLT && c[13] == 0 && c[14] == 6 && c[15] == GOTO &&
    c[16] == 0 && c[17] == 20
  }

  /** The body, the jump back and the exit: bytes 18 to 37. */
  predicate LoopBodyBytes(c: seq<u8>)
    requires |c| == 38
  {
    c[18] == VLOAD && c[19] == 0 && c[20] == VLOAD && c[21] == 1 &&
    c[22] == IADD && c[23] == VSTORE && c[24] == 0 && c[25] == VLOAD &&
    c[26] == 1 && c[27] == BIPUSH && c[28] == 1 && c[29] == IADD &&
    c[30] == VSTORE && c[31] == 1 && c[32] == GOTO && c[33] == 0xFF &&
    c[34] == 0xE8 && c[35] == VLOAD && c[36] == 0 && c[37] == RETURN
  }

  /** The entry function is the loop with two locals, for a bound below 128
      (which BIPUSH pushes unchanged). */
  predicate LoadsLoop(prog: Program, n: u8)
  {
    |prog.functionPool| > 0 && prog.functionPool[0].numVars == 2 &&
    LoopBytes(prog.functionPool[0].code, n) && n < 128
  }

  /** The loop's frame running code `c` at `pc`, with `stack`, sum `s` and
      counter `i`. */
  function LoopAt(c: seq<u8>, stack: seq<Value>, pc: int, s: i32, i: i32): State
  {
    State(stack, c, pc, [IntVal(s), IntVal(i)], [], [])
  }

  /** 0 + 1 + ... + (k - 1), which stays far inside 32 bits for k <= 128. */
  function Triangle(k: nat): (t: nat)
    ensures k <= 128 ==> t <= 128 * k
  {
    if k == 0 then 0 else Triangle(k - 1) + (k - 1)
  }

  lemma {:induction false} TriangleClosedForm(k: nat)
    ensures 2 * Triangle(k) == k * (k - 1)
  {
    if k > 0 {
      TriangleClosedForm(k - 1);
      assert 2 * Triangle(k) == (k - 1) * (k - 2) + 2 * (k - 1);
    }
  }

  lemma LoopLoad(prog: Program, natives: seq<Native>, c: seq<u8>, stack: seq<Value>, pc: int, s: i32, i: i32, k: u8)
    requires 0 <= pc && pc + 1 < |c| && c[pc] == VLOAD && c[pc + 1] == k && k < 2
    ensures Step(prog, natives, LoopAt(c, stack, pc, s, i)) ==
            Ok(Continue(LoopAt(c, stack + [IntVal(if k == 0 then s else i)], pc + 2, s, i)))
  {
    LoadLocalLaw(prog, natives, LoopAt(c, stack, pc, s, i), k);
  }

  lemma LoopPush(prog: Program, natives: seq<Native>, c: seq<u8>, stack: seq<Value>, pc: int, s: i32, i: i32, b: u8)
    requires 0 <= pc && pc + 1 < |c| && c[pc] == BIPUSH && c[pc + 1] == b && b < 128
    ensures Step(prog, natives, LoopAt(c, stack, pc, s, i)) ==
            Ok(Continue(LoopAt(c, stack + [IntVal(b)], pc + 2, s, i)))
  {
    BipushLaw(prog, natives, LoopAt(c, stack, pc, s, i), b);
  }

  lemma LoopAdd(prog: Program, natives: seq<Native>, c: seq<u8>, pc: int, s: i32, i: i32, a: i32, b: i32)
    requires 0 <= pc < |c| && c[pc] == IADD
    ensures Step(prog, natives, LoopAt(c, [IntVal(a), IntVal(b)], pc, s, i)) ==
            Ok(Continue(LoopAt(c, [IntVal(Wrap(a + b))], pc + 1, s, i)))
  {
    var st := LoopAt(c, [IntVal(a), IntVal(b)], pc, s, i);
    assert st.S == [] + [IntVal(a), IntVal(b)];
    AddStep(prog, natives, st, [], a, b);
    assert [] + [IntVal(Wrap(a + b))] == [IntVal(Wrap(a + b))];
  }

  lemma LoopStore(prog: Program, natives: seq<Native>, c: seq<u8>, pc: int, s: i32, i: i32, v: i32, k: u8)
    requires 0 <= pc && pc + 1 < |c| && c[pc] == VSTORE && c[pc + 1] == k && k < 2
    ensures Step(prog, natives, LoopAt(c, [IntVal(v)], pc, s, i)) ==
            Ok(Continue(LoopAt(c, [], pc + 2, if k == 0 then v else s, if k == 1 then v else i)))
  {
    var st := LoopAt(c, [IntVal(v)], pc, s, i);
    assert st.S == [] + [IntVal(v)];
    StoreLocalLaw(prog, natives, st, k, [], IntVal(v));
    assert st.V[k := IntVal(v)] == [IntVal(if k == 0 then v else s), IntVal(if k == 1 then v else i)];
  }

  /** The test at 12 enters the body when `i < n` and falls through otherwise. */
  lemma LoopTest(prog: Program, natives: seq<Native>, c: seq<u8>, n: u8, s: i32, i: i32)
    requires LoopBytes(c, n) && n < 128
    ensures Step(prog, natives, LoopAt(c, [IntVal(i), IntVal(n)], 12, s, i)) ==
            Ok(Continue(LoopAt(c, [], if i < n then 18 else 15, s, i)))
  {
    var st := LoopAt(c, [IntVal(i), IntVal(n)], 12, s, i);
    assert st.S == [] + [IntVal(i), IntVal(n)];
    ConditionalBranchLaw(prog, natives, st, IF_ICMPLT, [], IntVal(i), IntVal(n), 0, 6);
  }

  lemma LoopJump(prog: Program, natives: seq<Native>, c: seq<u8>, n: u8, pc: int, target: int, s: i32, i: i32)
    requires LoopBytes(c, n) && ((pc == 15 && target == 35) || (pc == 32 && target == 8))
    ensures Step(prog, natives, LoopAt(c, [], pc, s, i)) == Ok(Continue(LoopAt(c, [], target, s, i)))
  {
    GotoLaw(prog, natives, LoopAt(c, [], pc, s, i), target);
  }

  /** A pass through the body, in four parts: the test succeeds ... */
  lemma LoopEntersBody(prog: Program, natives: seq<Native>, c: seq<u8>, n: u8, s: i32, i: i32, fuel: nat)
    requires LoopBytes(c, n) && n < 128 && i < n
    ensures Run(prog, natives, LoopAt(c, [], 8, s, i), 3 + fuel) ==
            Run(prog, natives, LoopAt(c, [], 18, s, i), fuel)
  {
    var t := [LoopAt(c, [], 8, s, i), LoopAt(c, [IntVal(i)], 10, s, i),
              LoopAt(c, [IntVal(i), IntVal(n)], 12, s, i), LoopAt(c, [], 18, s, i)];
    LoopLoad(prog, natives, c, [], 8, s, i, 1);
    LoopPush(prog, natives, c, [IntVal(i)], 10, s, i, n);
    LoopTest(prog, natives, c, n, s, i);
    IterateAlong(Stepper(prog, natives), t, fuel);
  }

  /** ... the new sum is computed ... */
  lemma LoopAddsCounter(prog: Program, natives: seq<Native>, c: seq<u8>, n: u8, s: i32, i: i32, fuel: nat)
    requires LoopBytes(c, n)
    ensures Run(prog, natives, LoopAt(c, [], 18, s, i), 3 + fuel) ==
            Run(prog, natives, LoopAt(c, [IntVal(Wrap(s + i))], 23, s, i), fuel)
  {
    var t := [LoopAt(c, [], 18, s, i), LoopAt(c, [IntVal(s)], 20, s, i),
              LoopAt(c, [IntVal(s), IntVal(i)], 22, s, i), LoopAt(c, [IntVal(Wrap(s + i))], 23, s, i)];
    LoopLoad(prog, natives, c, [], 18, s, i, 0);
    LoopLoad(prog, natives, c, [IntVal(s)], 20, s, i, 1);
    LoopAdd(prog, natives, c, 22, s, i, s, i);
    IterateAlong(Stepper(prog, natives), t, fuel);
  }

  /** ... it is stored and the counter is incremented ... */
  lemma LoopStoresSum(prog: Program, natives: seq<Native>, c: seq<u8>, n: u8, s0: i32, s: i32, i: i32, fuel: nat)
    requires LoopBytes(c, n)
    ensures Run(prog, natives, LoopAt(c, [IntVal(s)], 23, s0, i), 4 + fuel) ==
            Run(prog, natives, LoopAt(c, [IntVal(Wrap(i + 1))], 30, s, i), fuel)
  {
    var t := [LoopAt(c, [IntVal(s)], 23, s0, i), LoopAt(c, [], 25, s, i),
              LoopAt(c, [IntVal(i)], 27, s, i), LoopAt(c, [IntVal(i), IntVal(1)], 29, s, i),
              LoopAt(c, [IntVal(Wrap(i + 1))], 30, s, i)];
    LoopStore(prog, natives, c, 23, s0, i, s, 0);
    LoopLoad(prog, natives, c, [], 25, s, i, 1);
    LoopPush(prog, natives, c, [IntVal(i)], 27, s, i, 1);
    LoopAdd(prog, natives, c, 29, s, i, i, 1);
    IterateAlong(Stepper(prog, natives), t, fuel);
  }

  /** ... and stored, and control is back at the test. */
  lemma LoopJumpsBack(prog: Program, natives: seq<Native>, c: seq<u8>, n: u8, s: i32, i: i32, i1: i32, fuel: nat)
    requires LoopBytes(c, n)
    ensures Run(prog, natives, LoopAt(c, [IntVal(i1)], 30, s, i), 2 + fuel) ==
            Run(prog, natives, LoopAt(c, [], 8, s, i1), fuel)
  {
    var t := [LoopAt(c, [IntVal(i1)], 30, s, i), LoopAt(c, [], 32, s, i1), LoopAt(c, [], 8, s, i1)];
    LoopStore(prog, natives, c, 30, s, i, i1, 1);
    LoopJump(prog, natives, c, n, 32, 8, s, i1);
    IterateAlong(Stepper(prog, natives), t, fuel);
  }

  /** One pass through the body when `i < n`: twelve instructions from the
      test back to the test, with `s + i` and `i + 1` in the locals. */
  lemma LoopPass(prog: Program, natives: seq<Native>, c: seq<u8>, n: u8, s: i32, i: i32, fuel: nat)
    requires LoopBytes(c, n) && n < 128 && i < n
    ensures Run(prog, natives, LoopAt(c, [], 8, s, i), 12 + fuel) ==
            Run(prog, natives, LoopAt(c, [], 8, Wrap(s + i), Wrap(i + 1)), fuel)
  {
    LoopEntersBody(prog, natives, c, n, s, i, 9 + fuel);
    LoopAddsCounter(prog, natives, c, n, s, i, 6 + fuel);
    LoopStoresSum(prog, natives, c, n, s, Wrap(s + i), i, 2 + fuel);
    LoopJumpsBack(prog, natives, c, n, Wrap(s + i), i, Wrap(i + 1), fuel);
  }

  /** When `i >= n` the test falls through to the exit jump ... */
  lemma LoopFallsThrough(prog: Program, natives: seq<Native>, c: seq<u8>, n: u8, s: i32, i: i32, fuel: nat)
    requires LoopBytes(c, n) && n < 128 && i >= n
    ensures Run(prog, natives, LoopAt(c, [], 8, s, i), 3 + fuel) ==
            Run(prog, natives, LoopAt(c, [], 15, s, i), fuel)
  {
    var t := [LoopAt(c, [], 8, s, i), LoopAt(c, [IntVal(i)], 10, s, i),
              LoopAt(c, [IntVal(i), IntVal(n)], 12, s, i), LoopAt(c, [], 15, s, i)];
    LoopLoad(prog, natives, c, [], 8, s, i, 1);
    LoopPush(prog, natives, c, [IntVal(i)], 10, s, i, n);
    LoopTest(prog, natives, c, n, s, i);
    IterateAlong(Stepper(prog, natives), t, fuel);
  }

  /** ... and the sum is returned, after six instructions in all. */
  lemma LoopExits(prog: Program, natives: seq<Native>, c: seq<u8>, n: u8, s: i32, i: i32)
    requires LoopBytes(c, n) && n < 128 && i >= n
    ensures Run(prog, natives, LoopAt(c, [], 8, s, i), 6) == Exited(s)
  {
    LoopFallsThrough(prog, natives, c, n, s, i, 3);
    var t := [LoopAt(c, [], 15, s, i), LoopAt(c, [], 35, s, i), LoopAt(c, [IntVal(s)], 37, s, i)];
    LoopJump(prog, natives, c, n, 15, 35, s, i);
    LoopLoad(prog, natives, c, [], 35, s, i, 0);
    IterateAlong(Stepper(prog, natives), t, 1);
    ReturnLaw(prog, natives, t[2], IntVal(s));
    RunUnfold(prog, natives, t[2], 1);
  }

  /** The four initialising instructions zero both locals and reach the test. */
  lemma LoopStarts(prog: Program, natives: seq<Native>, n: u8, fuel: nat)
    requires LoadsLoop(prog, n)
    ensures Run(prog, natives, Init(prog), 4 + fuel) ==
            Run(prog, natives, LoopAt(prog.functionPool[0].code, [], 8, 0, 0), fuel)
  {
    var c := prog.functionPool[0].code;
    LoopInit(prog, n);
    var t := [LoopAt(c, [], 0, 0, 0), LoopAt(c, [IntVal(0)], 2, 0, 0), LoopAt(c, [], 4, 0, 0),
              LoopAt(c, [IntVal(0)], 6, 0, 0), LoopAt(c, [], 8, 0, 0)];
    LoopPush(prog, natives, c, [], 0, 0, 0, 0);
    LoopStore(prog, natives, c, 2, 0, 0, 0, 0);
    LoopPush(prog, natives, c, [], 4, 0, 0, 0);
    LoopStore(prog, natives, c, 6, 0, 0, 0, 1);
    IterateAlong(Stepper(prog, natives), t, fuel);
  }

  /** The loop starts at pc 0 with both locals zero. */
  lemma LoopInit(prog: Program, n: u8)
    requires LoadsLoop(prog, n)
    ensures Init(prog) == LoopAt(prog.functionPool[0].code, [], 0, 0, 0)
  {
    assert Zeros(2) == [IntVal(0), IntVal(0)];
  }

  /** From the test with `i <= n` and the sum of 0 .. i-1 in local 0, the
      loop finishes the sum and returns it. */
  lemma {:induction false} LoopRuns(prog: Program, natives: seq<Native>, c: seq<u8>, n: u8, i: nat)
    requires LoopBytes(c, n) && n < 128 && i <= n
    ensures Run(prog, natives, LoopAt(c, [], 8, Triangle(i), i), 12 * (n - i) + 6) == Exited(Triangle(n))
    decreases n - i
  {
    if i == n {
      LoopExits(prog, natives, c, n, Triangle(i), i);
    } else {
      calc {
        Run(prog, natives, LoopAt(c, [], 8, Triangle(i), i), 12 * (n - i) + 6);
      == { LoopAdvances(prog, natives, c, n, i); }
        Run(prog, natives, LoopAt(c, [], 8, Triangle(i + 1), i + 1), 12 * (n - (i + 1)) + 6);
      == { LoopRuns(prog, natives, c, n, i + 1); }
        Exited(Triangle(n));
      }
    }
  }

  /** A pass keeps local 0 equal to the sum of the counters seen so far. */
  lemma LoopAdvances(prog: Program, natives: seq<Native>, c: seq<u8>, n: u8, i: nat)
    requires LoopBytes(c, n) && n < 128 && i < n
    ensures Run(prog, natives, LoopAt(c, [], 8, Triangle(i), i), 12 * (n - i) + 6) ==
            Run(prog, natives, LoopAt(c, [], 8, Triangle(i + 1), i + 1), 12 * (n - (i + 1)) + 6)
  {
    TriangleStep(i);
    LoopPass(prog, natives, c, n, Triangle(i), i, 12 * (n - (i + 1)) + 6);
  }

  lemma TriangleStep(i: nat)
    requires i < 128
    ensures Wrap(Triangle(i) + i) == Triangle(i + 1) && Wrap(i + 1) == i + 1
  {
  }

  /** The program returns 0 + 1 + ... + (n - 1) = n(n - 1)/2, after four
      initialising instructions, twelve per pass and six to leave. */
  lemma LoopReturnsSum(prog: Program, natives: seq<Native>, n: u8)
    requires LoadsLoop(prog, n)
    ensures Run(prog, natives, Init(prog), 12 * n + 10) == Exited(n * (n - 1) / 2)
  {
    var c := prog.functionPool[0].code;
    LoopStarts(prog, natives, n, 12 * n + 6);
    LoopRuns(prog, natives, c, n, 0);
    TriangleClosedForm(n);
  }
}
