/** What one instruction does, stated against the shape of the state before
    it, and the invariants every instruction keeps. */
module Properties {
  import opened Int32
  import opened Values
  import opened Heaps
  import opened Opcodes
  import opened Machine

  /** The opcode at `pc` is `op`. */
  predicate At(st: State, op: u8)
  {
    0 <= st.pc < |st.P| && st.P[st.pc] == op
  }

  /** The `k`-th immediate byte after the opcode is `b`. */
  predicate ImmAt(st: State, k: nat, b: u8)
  {
    0 <= st.pc && st.pc + k < |st.P| && st.P[st.pc + k] == b
  }

  /** The group function `Step` hands the opcode at `pc` to. */
  lemma Dispatch(prog: Program, natives: seq<Native>, st: State)
    requires 0 <= st.pc < |st.P|
    ensures var op, r := st.P[st.pc], Step(prog, natives, st);
      (IsStackOp(op) ==> r == StepStack(op, st)) &&
      (IsArithOp(op) ==> r == StepArith(op, st)) &&
      (IsLoadOp(op) ==> r == StepLoad(prog, op, st)) &&
      (IsBranchOp(op) ==> r == StepBranch(op, st)) &&
      (IsCallOp(op) ==> r == StepCall(prog, natives, op, st)) &&
      (op == NEW || op == NEWARRAY ==> r == StepAlloc(op, st)) &&
      (op == IMLOAD || op == AMLOAD || op == CMLOAD ==> r == StepMemLoad(op, st)) &&
      (op == IMSTORE || op == AMSTORE || op == CMSTORE ==> r == StepMemStore(op, st)) &&
      (op == AADDF || op == ARRAYLENGTH || op == AADDS ==> r == StepAddress(op, st)) &&
      ((!IsStackOp(op) && !IsArithOp(op) && !IsLoadOp(op) && !IsBranchOp(op) &&
        !IsCallOp(op) && !IsMemoryOp(op)) ==> r == Fail(InvalidOpcode))
  {
  }

  // ---------------------------------------------------------------------------
  // Stack shuffles

  /** POP removes exactly the top value. */
  lemma PopLaw(prog: Program, natives: seq<Native>, st: State, rest: seq<Value>, v: Value)
    requires At(st, POP) && st.S == rest + [v]
    ensures Step(prog, natives, st) == Ok(Continue(st.(S := rest, pc := st.pc + 1)))
  {
  }

  /** DUP turns `[.., v]` into `[.., v, v]`. */
  lemma DupLaw(prog: Program, natives: seq<Native>, st: State, rest: seq<Value>, v: Value)
    requires At(st, DUP) && st.S == rest + [v]
    ensures Step(prog, natives, st) == Ok(Continue(st.(S := rest + [v, v], pc := st.pc + 1)))
  {
  }

  /** SWAP turns `[.., a, b]` into `[.., b, a]`. */
  lemma SwapLaw(prog: Program, natives: seq<Native>, st: State, rest: seq<Value>, a: Value, b: Value)
    requires At(st, SWAP) && st.S == rest + [a, b]
    ensures Step(prog, natives, st) == Ok(Continue(st.(S := rest + [b, a], pc := st.pc + 1)))
  {
    assert st.S[..|st.S| - 1] == rest + [a];
    assert (rest + [a])[..|rest|] == rest;
  }

  /** NOP only moves past itself. */
  lemma NopLaw(prog: Program, natives: seq<Native>, st: State)
    requires At(st, NOP)
    ensures Step(prog, natives, st) == Ok(Continue(st.(pc := st.pc + 1)))
  {
    Dispatch(prog, natives, st);
  }

  /** Every shuffle of an operand stack too shallow for it is malformed. */
  lemma StackUnderflow(prog: Program, natives: seq<Native>, st: State, op: u8)
    requires At(st, op) && (op == POP || op == DUP || op == SWAP)
    requires |st.S| < (if op == SWAP then 2 else 1)
    ensures Step(prog, natives, st) == Fail(Malformed)
  {
  }

  // ---------------------------------------------------------------------------
  // Arithmetic

  /** Every binary operation pops `y` (the top) and `x` (below it) and either
      fails with the operation's error, or pushes `x op y` and moves past the
      opcode; locals, call stack and heap are untouched. */
  lemma BinaryOpLaw(prog: Program, natives: seq<Native>, st: State, op: u8, rest: seq<Value>, x: i32, y: i32)
    requires IsArithOp(op) && At(st, op) && st.S == rest + [IntVal(x), IntVal(y)]
    ensures Step(prog, natives, st) ==
      match ArithOp(op, x, y)
      case Fail(e) => Fail(e)
      case Ok(z) => Ok(Continue(st.(S := rest + [IntVal(z)], pc := st.pc + 1)))
  {
    Dispatch(prog, natives, st);
    ArithGroupLaw(op, st, rest, x, y);
  }

  lemma ArithGroupLaw(op: u8, st: State, rest: seq<Value>, x: i32, y: i32)
    requires IsArithOp(op) && st.S == rest + [IntVal(x), IntVal(y)]
    ensures StepArith(op, st) ==
      match ArithOp(op, x, y)
      case Fail(e) => Fail(e)
      case Ok(z) => Ok(Continue(st.(S := rest + [IntVal(z)], pc := st.pc + 1)))
  {
    assert st.S[..|st.S| - 1] == rest + [IntVal(x)];
    assert (rest + [IntVal(x)])[..|rest|] == rest;
  }

  /** IADD, ISUB and IMUL never fail; they give the one 32-bit value congruent
      to the mathematical result modulo 2^32, which is the result itself when
      that fits. */
  lemma WrapAroundLaw(op: u8, x: i32, y: i32)
    requires op == IADD || op == ISUB || op == IMUL
    ensures ArithOp(op, x, y).Ok?
    ensures var exact := if op == IADD then x + y else if op == ISUB then x - y else x * y;
            var z := ArithOp(op, x, y).value;
            (exact - z) % TWO32 == 0 && (INT_MIN <= exact <= INT_MAX ==> z == exact)
  {
  }

  /** IDIV and IREM fail with an arithmetic error exactly when `y == 0` or
      `x == INT_MIN && y == -1`. Otherwise they give the quotient `q` rounded
      toward zero and the remainder `r` with `q * y + r == x`, `|r| < |y|`, and
      `r` zero or of the sign of `x`. */
  lemma DivisionLaw(x: i32, y: i32)
    ensures ArithOp(IDIV, x, y).Fail? <==> y == 0 || (x == INT_MIN && y == -1)
    ensures ArithOp(IREM, x, y).Fail? <==> y == 0 || (x == INT_MIN && y == -1)
    ensures ArithOp(IDIV, x, y).Fail? ==> ArithOp(IDIV, x, y).error == ArithError
    ensures ArithOp(IREM, x, y).Fail? ==> ArithOp(IREM, x, y).error == ArithError
    ensures ArithOp(IDIV, x, y).Ok? ==>
      var q, r := ArithOp(IDIV, x, y).value, ArithOp(IREM, x, y).value;
      q * y + r == x && Abs(r) < Abs(y) && (r == 0 || (r < 0 <==> x < 0)) && Abs(q * y) <= Abs(x)
  {
    if y != 0 {
      QuotRem(x, y);
    }
  }

  /** INT_MIN / -1 is rejected although -1 is not zero: its quotient 2^31 is
      not an int32. */
  lemma DivisionOverflowRejected()
    ensures ArithOp(IDIV, INT_MIN, -1) == Fail(ArithError)
    ensures Quot(INT_MIN, -1) > INT_MAX
  {
  }

  /** ISHL and ISHR fail with an arithmetic error exactly when the shift
      amount is outside [0, 32). ISHL gives `x * 2^y` wrapped to 32 bits and
      ISHR `x / 2^y` rounded down (an arithmetic shift that keeps the sign). */
  lemma ShiftLaw(x: i32, y: i32)
    ensures ArithOp(ISHL, x, y).Fail? <==> !(0 <= y < 32)
    ensures ArithOp(ISHR, x, y).Fail? <==> !(0 <= y < 32)
    ensures 0 <= y < 32 ==>
      var l, r := ArithOp(ISHL, x, y).value, ArithOp(ISHR, x, y).value;
      (x * Pow2(y) - l) % TWO32 == 0 &&
      r * Pow2(y) <= x < r * Pow2(y) + Pow2(y) &&
      (r < 0 <==> x < 0)
  {
    if 0 <= y < 32 {
      ShrKeepsSign(x, y);
      var p := Pow2(y);
      assert x == (x / p) * p + x % p;
    }
  }

  // ---------------------------------------------------------------------------
  // Constants

  /** BIPUSH pushes its immediate byte sign-extended and moves past it. */
  lemma BipushLaw(prog: Program, natives: seq<Native>, st: State, b: u8)
    requires At(st, BIPUSH) && ImmAt(st, 1, b)
    ensures Step(prog, natives, st) ==
      Ok(Continue(st.(S := st.S + [IntVal(SignExtend8(b))], pc := st.pc + 2)))
  {
  }

  /** The byte 0xFF pushes -1. */
  lemma BipushMinusOne(prog: Program, natives: seq<Native>, st: State)
    requires At(st, BIPUSH) && ImmAt(st, 1, 0xFF)
    ensures Step(prog, natives, st) == Ok(Continue(st.(S := st.S + [IntVal(-1)], pc := st.pc + 2)))
  {
    BipushLaw(prog, natives, st, 0xFF);
  }

  /** ILDC pushes the integer-pool entry at the big-endian index `hi * 256 + lo`
      and moves past both index bytes; ALDC pushes a reference to that byte of
      the string pool. */
  lemma PoolLoadLaw(prog: Program, natives: seq<Native>, st: State, hi: u8, lo: u8)
    requires ImmAt(st, 1, hi) && ImmAt(st, 2, lo)
    ensures At(st, ILDC) && hi * 256 + lo < |prog.intPool| ==>
      Step(prog, natives, st) ==
      Ok(Continue(st.(S := st.S + [IntVal(prog.intPool[hi * 256 + lo])], pc := st.pc + 3)))
    ensures At(st, ILDC) && hi * 256 + lo >= |prog.intPool| ==>
      Step(prog, natives, st) == Fail(Malformed)
    ensures At(st, ALDC) ==>
      Step(prog, natives, st) == Ok(Continue(st.(S := st.S + [PtrVal(Str(hi * 256 + lo))], pc := st.pc + 3)))
  {
  }

  /** ACONST_NULL pushes the NULL reference. */
  lemma NullConstLaw(prog: Program, natives: seq<Native>, st: State)
    requires At(st, ACONST_NULL)
    ensures Step(prog, natives, st) == Ok(Continue(st.(S := st.S + [PtrVal(Null)], pc := st.pc + 1)))
  {
    Dispatch(prog, natives, st);
  }

  // ---------------------------------------------------------------------------
  // Assertions and errors

  /** ATHROW pops the message and is a user error whatever lies beneath it;
      without a reference on top it is malformed. */
  lemma ThrowLaw(prog: Program, natives: seq<Native>, st: State)
    requires At(st, ATHROW)
    ensures Step(prog, natives, st) ==
      if |st.S| > 0 && st.S[|st.S| - 1].PtrVal? then Fail(UserError) else Fail(Malformed)
  {
    Dispatch(prog, natives, st);
  }

  /** ASSERT pops the message and then the condition, is an assertion failure
      exactly when the condition is 0, and otherwise only removes both. */
  lemma AssertLaw(prog: Program, natives: seq<Native>, st: State, rest: seq<Value>, x: i32, msg: Addr)
    requires st.S == rest + [IntVal(x), PtrVal(msg)]
    ensures At(st, ASSERT) ==>
      Step(prog, natives, st) ==
      if x == 0 then Fail(AssertionFailure) else Ok(Continue(st.(S := rest, pc := st.pc + 1)))
  {
    if 0 <= st.pc < |st.P| {
      Dispatch(prog, natives, st);
      assert st.S == (rest + [IntVal(x)]) + [PtrVal(msg)];
      assert PopPtr(st.S) == Ok(Popped(msg, rest + [IntVal(x)]));
      assert PopInt(rest + [IntVal(x)]) == Ok(Popped(x, rest));
    }
  }

  // ---------------------------------------------------------------------------
  // Locals

  /** VLOAD k pushes a copy of local k; a slot outside the frame is malformed. */
  lemma LoadLocalLaw(prog: Program, natives: seq<Native>, st: State, k: u8)
    requires At(st, VLOAD) && ImmAt(st, 1, k)
    ensures k < |st.V| ==>
      Step(prog, natives, st) == Ok(Continue(st.(S := st.S + [st.V[k]], pc := st.pc + 2)))
    ensures k >= |st.V| ==> Step(prog, natives, st) == Fail(Malformed)
  {
    Dispatch(prog, natives, st);
  }

  /** VSTORE k pops the top value into local k and advances pc by 2; a slot
      outside the frame is malformed. */
  lemma StoreLocalLaw(prog: Program, natives: seq<Native>, st: State, k: u8, rest: seq<Value>, v: Value)
    requires At(st, VSTORE) && ImmAt(st, 1, k) && st.S == rest + [v]
    ensures k < |st.V| ==>
      Step(prog, natives, st) == Ok(Continue(st.(S := rest, V := st.V[k := v], pc := st.pc + 2)))
    ensures k >= |st.V| ==> Step(prog, natives, st) == Fail(Malformed)
  {
    Dispatch(prog, natives, st);
  }

  /** VSTORE k then VLOAD k pushes back the stored value: slot k holds it,
      every other slot is unchanged, and the stack is as before the store. */
  lemma StoreThenLoadLocal(prog: Program, natives: seq<Native>, st: State, k: u8, rest: seq<Value>, v: Value)
    requires At(st, VSTORE) && ImmAt(st, 1, k) && k < |st.V| && st.S == rest + [v]
    requires ImmAt(st, 2, VLOAD) && ImmAt(st, 3, k)
    ensures Step(prog, natives, st).Ok? && Step(prog, natives, st).value.Continue?
    ensures var st1 := Step(prog, natives, st).value.st;
            st1.S == rest && st1.pc == st.pc + 2 && |st1.V| == |st.V| &&
            st1.V[k] == v && (forall j :: 0 <= j < |st.V| && j != k ==> st1.V[j] == st.V[j]) &&
            Step(prog, natives, st1) == Ok(Continue(st1.(S := rest + [v], pc := st.pc + 4)))
  {
    var st1 := Step(prog, natives, st).value.st;
    assert At(st1, VLOAD);
  }

  // ---------------------------------------------------------------------------
  // Branches

  /** A conditional branch pops its operands; when taken the new pc is the
      opcode's address plus the signed big-endian offset, otherwise the
      address plus 3. IF_CMPEQ and IF_CMPNE compare values, the others
      integers. */
  lemma ConditionalBranchLaw(prog: Program, natives: seq<Native>, st: State, op: u8,
                             rest: seq<Value>, v1: Value, v2: Value, hi: u8, lo: u8)
    requires IsBranchOp(op) && op != GOTO && At(st, op) && ImmAt(st, 1, hi) && ImmAt(st, 2, lo)
    requires st.S == rest + [v1, v2]
    requires op != IF_CMPEQ && op != IF_CMPNE ==> v1.IntVal? && v2.IntVal?
    ensures var taken :=
              if op == IF_CMPEQ then v1 == v2
              else if op == IF_CMPNE then v1 != v2
              else if op == IF_ICMPLT then v1.n < v2.n
              else if op == IF_ICMPGE then v1.n >= v2.n
              else if op == IF_ICMPGT then v1.n > v2.n
              else v1.n <= v2.n;
            Step(prog, natives, st) ==
            Ok(Continue(st.(S := rest, pc := if taken then st.pc + S16(hi, lo) else st.pc + 3)))
  {
    Dispatch(prog, natives, st);
    assert st.S[..|st.S| - 1] == rest + [v1];
    assert (rest + [v1])[..|rest|] == rest;
    if op == IF_CMPEQ || op == IF_CMPNE {
      assert StepBranch(op, st) == Branch(st.(S := rest), (v1 == v2) == (op == IF_CMPEQ));
    } else {
      assert StepBranch(op, st) == Branch(st.(S := rest), Compare(op, v1.n, v2.n));
    }
    BranchLaw(st.(S := rest), hi, lo);
  }

  /** Where `Branch` leaves the pc. */
  lemma BranchLaw(st: State, hi: u8, lo: u8)
    requires ImmAt(st, 1, hi) && ImmAt(st, 2, lo)
    ensures Branch(st, true) == Ok(Continue(st.(pc := st.pc + S16(hi, lo))))
    ensures Branch(st, false) == Ok(Continue(st.(pc := st.pc + 3)))
  {
  }

  /** GOTO always jumps by its offset; an offset encoded as the distance to a
      target lands on that target. */
  lemma GotoLaw(prog: Program, natives: seq<Native>, st: State, target: int)
    requires At(st, GOTO) && -0x8000 <= target - st.pc < 0x8000
    requires ImmAt(st, 1, OffsetBytes(target - st.pc).0) && ImmAt(st, 2, OffsetBytes(target - st.pc).1)
    ensures Step(prog, natives, st) == Ok(Continue(st.(pc := target)))
  {
    OffsetRoundTrip(target - st.pc);
  }

  /** GOTO jumps by the signed 16-bit offset its two bytes spell, whatever
      they are. */
  lemma GotoAny(prog: Program, natives: seq<Native>, st: State, hi: u8, lo: u8)
    requires At(st, GOTO) && ImmAt(st, 1, hi) && ImmAt(st, 2, lo)
    ensures Step(prog, natives, st) == Ok(Continue(st.(pc := st.pc + S16(hi, lo))))
  {
    Dispatch(prog, natives, st);
  }

  // ---------------------------------------------------------------------------
  // Calls and returns

  /** INVOKESTATIC of a function taking `numArgs` arguments pops exactly that
      many values, the deepest becoming local 0, zeroes the remaining locals,
      starts the callee with an empty stack at pc 0 and saves the caller with
      its remaining stack and the resume pc `pc + 3`. */
  lemma InvokeStaticLaw(prog: Program, natives: seq<Native>, st: State, hi: u8, lo: u8)
    requires At(st, INVOKESTATIC) && ImmAt(st, 1, hi) && ImmAt(st, 2, lo)
    requires hi * 256 + lo < |prog.functionPool|
    requires var g := prog.functionPool[hi * 256 + lo]; g.numArgs <= g.numVars && g.numArgs <= |st.S|
    ensures Step(prog, natives, st).Ok? && Step(prog, natives, st).value.Continue?
    ensures var g := prog.functionPool[hi * 256 + lo];
            var k := |st.S| - g.numArgs;
            var st1 := Step(prog, natives, st).value.st;
            st1.S == [] && st1.pc == 0 && st1.P == g.code && st1.heap == st.heap &&
            |st1.V| == g.numVars &&
            (forall j :: 0 <= j < g.numArgs ==> st1.V[j] == st.S[k + j]) &&
            (forall j :: g.numArgs <= j < g.numVars ==> st1.V[j] == ZERO) &&
            st1.callStack == st.callStack + [Frame(st.S[..k], st.P, st.pc + 3, st.V)]
  {
  }

  /** RETURN succeeds only on a stack holding exactly the return value. */
  lemma ReturnNeedsSingleValue(prog: Program, natives: seq<Native>, st: State)
    requires At(st, RETURN) && |st.S| != 1
    ensures Step(prog, natives, st) == Fail(Malformed)
  {
  }

  /** RETURN with an empty call stack ends the run with the returned integer;
      with a suspended caller it resumes the caller with the value pushed. */
  lemma ReturnLaw(prog: Program, natives: seq<Native>, st: State, v: Value)
    requires At(st, RETURN) && st.S == [v]
    ensures st.callStack == [] && v.IntVal? ==> Step(prog, natives, st) == Ok(Exit(v.n))
    ensures st.callStack == [] && v.PtrVal? ==> Step(prog, natives, st) == Fail(Malformed)
    ensures st.callStack != [] ==>
      var f := st.callStack[|st.callStack| - 1];
      Step(prog, natives, st) ==
      Ok(Continue(State(f.S + [v], f.P, f.pc, f.V, st.callStack[..|st.callStack| - 1], st.heap)))
  {
  }

  /** The call protocol. An INVOKESTATIC enters its callee, the callee runs
      through `body` without returning to the caller's depth, and `body` ends
      at a RETURN of the callee itself. That RETURN resumes the caller at
      `pc + 3` with its own code, locals and call stack, and with its pre-call
      stack minus the arguments plus the return value. */
  lemma CallReturnProtocol(prog: Program, natives: seq<Native>, st: State, hi: u8, lo: u8,
                           body: seq<State>, v: Value)
    requires At(st, INVOKESTATIC) && ImmAt(st, 1, hi) && ImmAt(st, 2, lo)
    requires hi * 256 + lo < |prog.functionPool|
    requires var g := prog.functionPool[hi * 256 + lo]; g.numArgs <= g.numVars && g.numArgs <= |st.S|
    requires |body| > 0 && Step(prog, natives, st) == Ok(Continue(body[0]))
    requires Continues(Stepper(prog, natives), body)
    requires forall j :: 0 <= j < |body| ==> |body[j].callStack| > |st.callStack|
    requires var ret := body[|body| - 1];
             At(ret, RETURN) && ret.S == [v] && |ret.callStack| == |st.callStack| + 1
    ensures var k := |st.S| - prog.functionPool[hi * 256 + lo].numArgs;
            var ret := body[|body| - 1];
            Step(prog, natives, ret) ==
            Ok(Continue(State(st.S[..k] + [v], st.P, st.pc + 3, st.V, st.callStack, ret.heap)))
  {
    var k := |st.S| - prog.functionPool[hi * 256 + lo].numArgs;
    var ret := body[|body| - 1];
    var d := |st.callStack|;
    assert ret.callStack == st.callStack + [Frame(st.S[..k], st.P, st.pc + 3, st.V)] by {
      InvokeStaticLaw(prog, natives, st, hi, lo);
      FramesSurvive(prog, natives, body, d);
      var cs := ret.callStack;
      assert cs == cs[..d + 1] == body[0].callStack[..d + 1] == body[0].callStack;
    }
    ReturnLaw(prog, natives, ret, v);
    var cs := ret.callStack;
    assert cs[..|cs| - 1] == st.callStack;
  }

  /** A whole call, under the hypotheses of `CallReturnProtocol`, takes one
      pass per state of `body` plus one, and the run then goes on from the
      resumed caller. */
  lemma CallRunsThrough(prog: Program, natives: seq<Native>, st: State, hi: u8, lo: u8,
                        body: seq<State>, v: Value, fuel: nat)
    requires At(st, INVOKESTATIC) && ImmAt(st, 1, hi) && ImmAt(st, 2, lo)
    requires hi * 256 + lo < |prog.functionPool|
    requires var g := prog.functionPool[hi * 256 + lo]; g.numArgs <= g.numVars && g.numArgs <= |st.S|
    requires |body| > 0 && Step(prog, natives, st) == Ok(Continue(body[0]))
    requires Continues(Stepper(prog, natives), body)
    requires forall j :: 0 <= j < |body| ==> |body[j].callStack| > |st.callStack|
    requires var ret := body[|body| - 1];
             At(ret, RETURN) && ret.S == [v] && |ret.callStack| == |st.callStack| + 1
    ensures var k := |st.S| - prog.functionPool[hi * 256 + lo].numArgs;
            var resumed := State(st.S[..k] + [v], st.P, st.pc + 3, st.V, st.callStack, body[|body| - 1].heap);
            Run(prog, natives, st, |body| + 1 + fuel) == Run(prog, natives, resumed, fuel)
  {
    var k := |st.S| - prog.functionPool[hi * 256 + lo].numArgs;
    var resumed := State(st.S[..k] + [v], st.P, st.pc + 3, st.V, st.callStack, body[|body| - 1].heap);
    CallReturnProtocol(prog, natives, st, hi, lo, body, v);
    IterateAround(Stepper(prog, natives), st, body, resumed, fuel);
  }

  /** Frame lifetime: while a run stays deeper than `d` frames, the bottom
      `d + 1` frames of its call stack never change. */
  lemma {:induction false} FramesSurvive(prog: Program, natives: seq<Native>, trace: seq<State>, d: nat)
    requires |trace| > 0 && Continues(Stepper(prog, natives), trace)
    requires forall j :: 0 <= j < |trace| ==> |trace[j].callStack| > d
    ensures forall j :: 0 <= j < |trace| ==> trace[j].callStack[..d + 1] == trace[0].callStack[..d + 1]
    decreases |trace|
  {
    if |trace| > 1 {
      var init := trace[..|trace| - 1];
      assert Continues(Stepper(prog, natives), init) by {
        forall j | 0 <= j < |init| - 1
          ensures Stepper(prog, natives)(init[j]) == Ok(Continue(init[j + 1]))
        {
          assert init[j] == trace[j] && init[j + 1] == trace[j + 1];
        }
      }
      FramesSurvive(prog, natives, init, d);
      var a, b := trace[|trace| - 2], trace[|trace| - 1];
      assert Stepper(prog, natives)(a) == Ok(Continue(b));
      CallStackDiscipline(prog, natives, a);
      var cs, cs' := a.callStack, b.callStack;
      if cs' != cs {
        if |cs'| == |cs| + 1 && cs'[..|cs|] == cs {
          assert cs'[..d + 1] == cs'[..|cs|][..d + 1];
        } else {
          assert cs' == cs[..|cs| - 1];
        }
      }
      assert cs'[..d + 1] == cs[..d + 1];
      forall j | 0 <= j < |trace|
        ensures trace[j].callStack[..d + 1] == trace[0].callStack[..d + 1]
      {
        if j < |trace| - 1 {
          assert trace[j] == init[j];
        } else {
          assert a == init[|init| - 1];
        }
      }
    }
  }

  /** Frame discipline: an instruction leaves the call stack as it was, pushes
      exactly one frame on it, or pops exactly its top frame; frames below the
      top are never changed. */
  lemma CallStackDiscipline(prog: Program, natives: seq<Native>, st: State)
    requires Step(prog, natives, st).Ok? && Step(prog, natives, st).value.Continue?
    ensures var cs, cs' := st.callStack, Step(prog, natives, st).value.st.callStack;
            cs' == cs ||
            (|cs'| == |cs| + 1 && cs'[..|cs|] == cs) ||
            (|cs| > 0 && cs' == cs[..|cs| - 1])
  {
    var op := st.P[st.pc];
    Dispatch(prog, natives, st);
    if IsCallOp(op) {
      CallFrames(prog, natives, op, st);
    } else {
      GroupEffects(prog, natives, st);
    }
  }

  lemma CallFrames(prog: Program, natives: seq<Native>, op: u8, st: State)
    requires IsCallOp(op)
    requires StepCall(prog, natives, op, st).Ok? && StepCall(prog, natives, op, st).value.Continue?
    ensures var cs, cs' := st.callStack, StepCall(prog, natives, op, st).value.st.callStack;
            cs' == cs ||
            (|cs'| == |cs| + 1 && cs'[..|cs|] == cs) ||
            (|cs| > 0 && cs' == cs[..|cs| - 1])
    ensures StepCall(prog, natives, op, st).value.st.heap == st.heap
  {
    if op == INVOKESTATIC {
      var cs' := StepCall(prog, natives, op, st).value.st.callStack;
      assert cs'[..|st.callStack|] == st.callStack;
    }
  }

  /** `r`, if it continues, has the call stack of `st`. */
  predicate KeepsFrames(st: State, r: Result<Next>)
  {
    r.Ok? && r.value.Continue? ==> r.value.st.callStack == st.callStack
  }

  /** `r`, if it continues, has the heap of `st`. */
  predicate KeepsHeap(st: State, r: Result<Next>)
  {
    r.Ok? && r.value.Continue? ==> r.value.st.heap == st.heap
  }

  /** Only calls and RETURN change the call stack; only allocation and the
      stores change the heap. */
  lemma GroupEffects(prog: Program, natives: seq<Native>, st: State)
    requires 0 <= st.pc < |st.P| && !IsCallOp(st.P[st.pc])
    ensures KeepsFrames(st, Step(prog, natives, st))
    ensures var op := st.P[st.pc];
      op != NEW && op != NEWARRAY && op != IMSTORE && op != AMSTORE && op != CMSTORE ==>
      KeepsHeap(st, Step(prog, natives, st))
  {
    var op := st.P[st.pc];
    Dispatch(prog, natives, st);
    if IsStackOp(op) {
      StackEffects(op, st);
    } else if IsArithOp(op) {
      ArithEffects(op, st);
    } else if IsLoadOp(op) {
      LoadEffects(prog, op, st);
    } else if IsBranchOp(op) {
      BranchEffects(op, st);
    } else if op == NEW || op == NEWARRAY {
      AllocEffects(op, st);
    } else if op == IMLOAD || op == AMLOAD || op == CMLOAD {
      MemLoadEffects(op, st);
    } else if op == IMSTORE || op == AMSTORE || op == CMSTORE {
      MemStoreEffects(op, st);
    } else if op == AADDF || op == ARRAYLENGTH || op == AADDS {
      AddressEffects(op, st);
    }
  }

  lemma StackEffects(op: u8, st: State)
    requires IsStackOp(op)
    ensures KeepsFrames(st, StepStack(op, st)) && KeepsHeap(st, StepStack(op, st))
  {
  }

  lemma ArithEffects(op: u8, st: State)
    requires IsArithOp(op)
    ensures KeepsFrames(st, StepArith(op, st)) && KeepsHeap(st, StepArith(op, st))
  {
  }

  lemma LoadEffects(prog: Program, op: u8, st: State)
    requires IsLoadOp(op)
    ensures KeepsFrames(st, StepLoad(prog, op, st)) && KeepsHeap(st, StepLoad(prog, op, st))
  {
  }

  lemma BranchEffects(op: u8, st: State)
    requires IsBranchOp(op)
    ensures KeepsFrames(st, StepBranch(op, st)) && KeepsHeap(st, StepBranch(op, st))
  {
  }

  lemma AllocEffects(op: u8, st: State)
    requires op == NEW || op == NEWARRAY
    ensures KeepsFrames(st, StepAlloc(op, st))
  {
  }

  lemma MemLoadEffects(op: u8, st: State)
    requires op == IMLOAD || op == AMLOAD || op == CMLOAD
    ensures KeepsFrames(st, StepMemLoad(op, st)) && KeepsHeap(st, StepMemLoad(op, st))
  {
  }

  lemma MemStoreEffects(op: u8, st: State)
    requires op == IMSTORE || op == AMSTORE || op == CMSTORE
    ensures KeepsFrames(st, StepMemStore(op, st))
  {
  }

  lemma AddressEffects(op: u8, st: State)
    requires op == AADDF || op == ARRAYLENGTH || op == AADDS
    ensures KeepsFrames(st, StepAddress(op, st)) && KeepsHeap(st, StepAddress(op, st))
  {
  }

  /** INVOKENATIVE pops the native's arguments (the deepest first in the
      argument list), pushes what the native returns and moves past the
      index. An argument count of 128 or more turns negative in the `int8_t`
      the C code keeps it in, and the allocation of the argument buffer then
      fails. */
  lemma InvokeNativeLaw(prog: Program, natives: seq<Native>, st: State, hi: u8, lo: u8)
    requires At(st, INVOKENATIVE) && ImmAt(st, 1, hi) && ImmAt(st, 2, lo)
    requires hi * 256 + lo < |prog.nativePool|
    ensures var info := prog.nativePool[hi * 256 + lo];
            var len := info.numArgs;
            if len < 128 && len <= |st.S| && info.tableIndex < |natives| then
              var k := |st.S| - len;
              Step(prog, natives, st) ==
              Ok(Continue(st.(S := st.S[..k] + [natives[info.tableIndex](st.S[k..])], pc := st.pc + 3)))
            else
              Step(prog, natives, st) == Fail(Malformed)
  {
    Dispatch(prog, natives, st);
    NativeCallLaw(prog, natives, st, hi * 256 + lo);
  }

  lemma NativeCallLaw(prog: Program, natives: seq<Native>, st: State, i: nat)
    requires Imm16(st.P, st.pc) == Ok(i) && i < |prog.nativePool|
    ensures var info := prog.nativePool[i];
            var len := info.numArgs;
            if len < 128 && len <= |st.S| && info.tableIndex < |natives| then
              var k := |st.S| - len;
              StepCall(prog, natives, INVOKENATIVE, st) ==
              Ok(Continue(st.(S := st.S[..k] + [natives[info.tableIndex](st.S[k..])], pc := st.pc + 3)))
            else
              StepCall(prog, natives, INVOKENATIVE, st) == Fail(Malformed)
  {
    var len: int := prog.nativePool[i].numArgs;
    assert SignExtend8(len) == if len < 128 then len else len - 256;
  }

  // ---------------------------------------------------------------------------
  // Heap

  /** Every load through NULL is a memory error. */
  lemma NullLoadFails(prog: Program, natives: seq<Native>, st: State, op: u8, rest: seq<Value>)
    requires (op == IMLOAD || op == AMLOAD || op == CMLOAD) && At(st, op)
    requires st.S == rest + [PtrVal(Null)]
    ensures Step(prog, natives, st) == Fail(MemoryError)
  {
    Dispatch(prog, natives, st);
  }

  /** Every store through NULL is a memory error, raised before the heap is
      written. */
  lemma NullStoreFails(prog: Program, natives: seq<Native>, st: State, op: u8, rest: seq<Value>, v: Value)
    requires (op == IMSTORE || op == AMSTORE || op == CMSTORE) && At(st, op)
    requires st.S == rest + [PtrVal(Null), v] && EncodeFor(op, v).Ok?
    ensures Step(prog, natives, st) == Fail(MemoryError)
  {
    Dispatch(prog, natives, st);
    assert st.S[..|st.S| - 1] == rest + [PtrVal(Null)];
  }

  /** AADDF, ARRAYLENGTH and AADDS on NULL are memory errors. */
  lemma NullAddressFails(prog: Program, natives: seq<Native>, st: State, op: u8, rest: seq<Value>, i: i32)
    requires (op == AADDF || op == ARRAYLENGTH || op == AADDS) && At(st, op)
    requires op == AADDF ==> st.pc + 1 < |st.P|
    requires st.S == if op == AADDS then rest + [PtrVal(Null), IntVal(i)] else rest + [PtrVal(Null)]
    ensures Step(prog, natives, st) == Fail(MemoryError)
  {
    Dispatch(prog, natives, st);
    if op == AADDS {
      assert st.S[..|st.S| - 1] == rest + [PtrVal(Null)];
    }
  }

  /** NEWARRAY with a negative count is a memory error. */
  lemma NewArrayNegative(prog: Program, natives: seq<Native>, st: State, size: u8, rest: seq<Value>, n: i32)
    requires At(st, NEWARRAY) && ImmAt(st, 1, size) && st.S == rest + [IntVal(n)] && n < 0
    ensures Step(prog, natives, st) == Fail(MemoryError)
  {
  }

  /** NEWARRAY with a count `n >= 0` pushes a reference to a fresh, zeroed
      array of `n` elements of the immediate size. */
  lemma NewArrayLaw(prog: Program, natives: seq<Native>, st: State, size: u8, rest: seq<Value>, n: i32)
    requires At(st, NEWARRAY) && ImmAt(st, 1, size) && st.S == rest + [IntVal(n)] && n >= 0
    ensures Step(prog, natives, st) ==
      Ok(Continue(st.(S := rest + [PtrVal(Arr(|st.heap|))],
                      heap := st.heap + [Array(n, size, Cleared(n * size))],
                      pc := st.pc + 2)))
  {
    Dispatch(prog, natives, st);
  }

  /** ARRAYLENGTH replaces an array reference by the array's count. */
  lemma ArrayLengthLaw(prog: Program, natives: seq<Native>, st: State, rest: seq<Value>, h: nat)
    requires At(st, ARRAYLENGTH) && st.S == rest + [PtrVal(Arr(h))]
    requires h < |st.heap| && st.heap[h].Array? && st.heap[h].count <= INT_MAX
    ensures Step(prog, natives, st) ==
      Ok(Continue(st.(S := rest + [IntVal(st.heap[h].count)], pc := st.pc + 1)))
  {
    Dispatch(prog, natives, st);
  }

  /** NEWARRAY then ARRAYLENGTH gives back the count. */
  lemma NewArrayThenLength(prog: Program, natives: seq<Native>, st: State, size: u8, rest: seq<Value>, n: i32)
    requires At(st, NEWARRAY) && ImmAt(st, 1, size) && ImmAt(st, 2, ARRAYLENGTH)
    requires st.S == rest + [IntVal(n)] && n >= 0
    ensures Step(prog, natives, st).Ok? && Step(prog, natives, st).value.Continue?
    ensures var st1 := Step(prog, natives, st).value.st;
            Step(prog, natives, st1) == Ok(Continue(st1.(S := rest + [IntVal(n)], pc := st.pc + 3)))
  {
    NewArrayLaw(prog, natives, st, size, rest, n);
    var st1 := Step(prog, natives, st).value.st;
    ArrayLengthLaw(prog, natives, st1, rest, |st.heap|);
  }

  /** NEW pushes a reference to offset 0 of a fresh zeroed block of the
      immediate size. */
  lemma NewLaw(prog: Program, natives: seq<Native>, st: State, size: u8)
    requires At(st, NEW) && ImmAt(st, 1, size)
    ensures Step(prog, natives, st) ==
      Ok(Continue(st.(S := st.S + [PtrVal(Mem(|st.heap|, 0))],
                      heap := st.heap + [Block(Cleared(size))],
                      pc := st.pc + 2)))
  {
  }

  /** The load that reads back what a store writes. */
  function LoadOf(op: u8): (l: u8)
    requires op == IMSTORE || op == AMSTORE || op == CMSTORE
    ensures l == IMLOAD || l == AMLOAD || l == CMLOAD
  {
    if op == IMSTORE then IMLOAD else if op == AMSTORE then AMLOAD else CMLOAD
  }

  /** What a store writes, its load reads back: ints and references unchanged,
      chars truncated to a signed char. */
  lemma CellsRoundTrip(op: u8, v: Value)
    requires (op == IMSTORE || op == AMSTORE || op == CMSTORE) && EncodeFor(op, v).Ok?
    ensures |EncodeFor(op, v).value| == CellsFor(LoadOf(op))
    ensures DecodeFor(LoadOf(op), EncodeFor(op, v).value) ==
            Ok(if op == CMSTORE then IntVal(ToChar(v.n)) else v)
  {
    if op == IMSTORE {
      IntRoundTrip(v.n);
    } else if op == AMSTORE {
      PtrRoundTrip(v.a);
    } else {
      CharRoundTrip(v.n);
    }
  }

  /** A store through a non-NULL reference writes the encoded value with
      `Store` and fails as `Store` does; the matching load at the same
      reference then decodes exactly those cells. */
  lemma StoreThenLoadCells(op: u8, st: State, rest: seq<Value>, a: Addr, v: Value)
    requires (op == IMSTORE || op == AMSTORE || op == CMSTORE) && a != Null
    requires st.S == rest + [PtrVal(a), v] && EncodeFor(op, v).Ok?
    ensures var cs := EncodeFor(op, v).value;
            StepMemStore(op, st) ==
            match Store(st.heap, a, cs)
            case Fail(e) => Fail(e)
            case Ok(heap') => Ok(Continue(st.(S := rest, heap := heap', pc := st.pc + 1)))
    ensures var cs := EncodeFor(op, v).value;
            Store(st.heap, a, cs).Ok? && |cs| == CellsFor(LoadOf(op)) ==>
            var st1 := st.(S := rest + [PtrVal(a)], heap := Store(st.heap, a, cs).value);
            StepMemLoad(LoadOf(op), st1) ==
            match DecodeFor(LoadOf(op), cs)
            case Fail(e) => Fail(e)
            case Ok(w) => Ok(Continue(st1.(S := rest + [w], pc := st1.pc + 1)))
  {
    assert st.S[..|st.S| - 1] == rest + [PtrVal(a)];
    var cs := EncodeFor(op, v).value;
    if Store(st.heap, a, cs).Ok? && |cs| == CellsFor(LoadOf(op)) {
      LoadStoreSame(st.heap, a, cs);
    }
  }

  /** IMSTORE, AMSTORE and CMSTORE through a block reference succeed exactly
      when the stored cells lie inside the block, are a memory error when they
      do not, and otherwise only pop and overwrite those cells. */
  lemma StoreLaw(prog: Program, natives: seq<Native>, st: State, op: u8, rest: seq<Value>, a: Addr, v: Value)
    requires (op == IMSTORE || op == AMSTORE || op == CMSTORE) && At(st, op)
    requires a.Mem? && st.S == rest + [PtrVal(a), v] && EncodeFor(op, v).Ok?
    ensures var cs := EncodeFor(op, v).value;
            Step(prog, natives, st) ==
            if InBounds(st.heap, a, |cs|) then
              Ok(Continue(st.(S := rest, heap := Store(st.heap, a, cs).value, pc := st.pc + 1)))
            else if a.h < |st.heap| then Fail(MemoryError)
            else Fail(Malformed)
  {
    Dispatch(prog, natives, st);
    StoreThenLoadCells(op, st, rest, a, v);
  }

  /** After a store, the matching load at the same reference pushes back the
      stored value (a char truncated to a signed char). */
  lemma LoadAfterStore(prog: Program, natives: seq<Native>, st: State, op: u8, rest: seq<Value>, a: Addr, v: Value)
    requires (op == IMSTORE || op == AMSTORE || op == CMSTORE) && EncodeFor(op, v).Ok?
    requires a.Mem? && InBounds(st.heap, a, |EncodeFor(op, v).value|)
    requires At(st, LoadOf(op)) && st.S == rest + [PtrVal(a)]
    ensures var heap' := Store(st.heap, a, EncodeFor(op, v).value).value;
            var stored := st.(heap := heap');
            Step(prog, natives, stored) ==
            Ok(Continue(stored.(S := rest + [if op == CMSTORE then IntVal(ToChar(v.n)) else v], pc := st.pc + 1)))
  {
    var stored := st.(heap := Store(st.heap, a, EncodeFor(op, v).value).value);
    Dispatch(prog, natives, stored);
    LoadBack(op, st, rest, a, v);
  }

  lemma LoadBack(op: u8, st: State, rest: seq<Value>, a: Addr, v: Value)
    requires (op == IMSTORE || op == AMSTORE || op == CMSTORE) && EncodeFor(op, v).Ok?
    requires a.Mem? && InBounds(st.heap, a, |EncodeFor(op, v).value|)
    requires st.S == rest + [PtrVal(a)]
    ensures var heap' := Store(st.heap, a, EncodeFor(op, v).value).value;
            var stored := st.(heap := heap');
            StepMemLoad(LoadOf(op), stored) ==
            Ok(Continue(stored.(S := rest + [if op == CMSTORE then IntVal(ToChar(v.n)) else v], pc := st.pc + 1)))
  {
    var cs := EncodeFor(op, v).value;
    CellsRoundTrip(op, v);
    LoadStoreSame(st.heap, a, cs);
  }

  /** A store immediately followed by the matching load of the same
      reference: the store succeeds exactly when the cells are in bounds, and
      the load then pushes the stored value. */
  lemma StoreThenLoad(prog: Program, natives: seq<Native>, st: State, op: u8, rest: seq<Value>, a: Addr, v: Value)
    requires (op == IMSTORE || op == AMSTORE || op == CMSTORE) && At(st, op) && ImmAt(st, 1, LoadOf(op))
    requires a.Mem? && st.S == rest + [PtrVal(a), v] && EncodeFor(op, v).Ok?
    ensures Step(prog, natives, st).Ok? <==> InBounds(st.heap, a, CellsFor(LoadOf(op)))
    ensures Step(prog, natives, st).Ok? ==>
      Step(prog, natives, st).value.Continue? &&
      var st1 := Step(prog, natives, st).value.st;
      st1.S == rest && st1.pc == st.pc + 1 &&
      Step(prog, natives, st1.(S := rest + [PtrVal(a)])) ==
      Ok(Continue(st1.(S := rest + [if op == CMSTORE then IntVal(ToChar(v.n)) else v], pc := st.pc + 2)))
  {
    CellsRoundTrip(op, v);
    StoreLaw(prog, natives, st, op, rest, a, v);
    if InBounds(st.heap, a, CellsFor(LoadOf(op))) {
      var st0 := st.(S := rest + [PtrVal(a)], pc := st.pc + 1);
      LoadAfterStore(prog, natives, st0, op, rest, a, v);
      assert Step(prog, natives, st).value.st.(S := rest + [PtrVal(a)]) ==
             st0.(heap := Store(st0.heap, a, EncodeFor(op, v).value).value);
    }
  }

  /** AADDF adds its immediate to the offset of a block reference. */
  lemma FieldAddressLaw(prog: Program, natives: seq<Native>, st: State, f: u8, rest: seq<Value>, h: nat, off: int)
    requires At(st, AADDF) && ImmAt(st, 1, f) && st.S == rest + [PtrVal(Mem(h, off))]
    ensures Step(prog, natives, st) == Ok(Continue(st.(S := rest + [PtrVal(Mem(h, off + f))], pc := st.pc + 2)))
  {
  }

  // ---------------------------------------------------------------------------
  // AADDS, as written

  /** AADDS truncates both the index and the array's count to a signed char
      and raises a user error only when the truncated index exceeds the
      truncated count; otherwise it pushes a reference to byte
      `eltSize * index` of the element storage. */
  lemma AaddsLaw(prog: Program, natives: seq<Native>, st: State, rest: seq<Value>, h: nat, i: i32)
    requires At(st, AADDS) && h < |st.heap| && st.heap[h].Array?
    requires st.S == rest + [PtrVal(Arr(h)), IntVal(i)]
    ensures var arr := st.heap[h];
            Step(prog, natives, st) ==
            if ToChar(i) > ToChar(arr.count) then Fail(UserError)
            else Ok(Continue(st.(S := rest + [PtrVal(Mem(h, arr.eltSize * ToChar(i)))], pc := st.pc + 1)))
  {
    assert st.S[..|st.S| - 1] == rest + [PtrVal(Arr(h))];
  }

  /** Every array's storage holds `count * eltSize` bytes. */
  predicate ArraysSized(heap: Heap)
  {
    forall h :: 0 <= h < |heap| && heap[h].Array? ==> |heap[h].mem| == heap[h].count * heap[h].eltSize
  }

  /** When the truncated index is in [0, count), the element AADDS addresses
      lies inside the array's storage. */
  lemma AaddsInRange(prog: Program, natives: seq<Native>, st: State, rest: seq<Value>, h: nat, i: i32)
    requires At(st, AADDS) && h < |st.heap| && st.heap[h].Array? && ArraysSized(st.heap)
    requires st.S == rest + [PtrVal(Arr(h)), IntVal(i)]
    requires 0 <= ToChar(i) < st.heap[h].count && ToChar(i) <= ToChar(st.heap[h].count)
    ensures Step(prog, natives, st).Ok? && Step(prog, natives, st).value.Continue?
    ensures var top := Step(prog, natives, st).value.st.S[|rest|];
            top.PtrVal? && InBounds(st.heap, top.a, st.heap[h].eltSize)
  {
    AaddsLaw(prog, natives, st, rest, h, i);
    ElementInside(st.heap[h].count, st.heap[h].eltSize, ToChar(i));
  }

  /** Element `c` of an array of `count` elements of `size` bytes lies inside
      its `count * size` bytes. */
  lemma ElementInside(count: nat, size: nat, c: int)
    requires 0 <= c < count
    ensures 0 <= size * c && size * c + size <= count * size
  {
    MulMonotone(size, 0, c);
    MulMonotone(size, c + 1, count);
  }

  /** The guard always lets through the index equal to the count. For a count
      below 128 the reference AADDS yields is one past the last element, and
      every load through it is a memory error in this model (the C code reads
      outside the array). */
  lemma AaddsAdmitsCount(prog: Program, natives: seq<Native>, st: State, rest: seq<Value>, h: nat)
    requires At(st, AADDS) && h < |st.heap| && st.heap[h].Array? && st.heap[h].count <= INT_MAX
    requires st.S == rest + [PtrVal(Arr(h)), IntVal(st.heap[h].count)]
    ensures Step(prog, natives, st).Ok? && Step(prog, natives, st).value.Continue?
    ensures var arr := st.heap[h];
            var top := Step(prog, natives, st).value.st.S[|rest|];
            arr.count < 128 && |arr.mem| == arr.count * arr.eltSize ==>
            top == PtrVal(Mem(h, arr.eltSize * arr.count)) &&
            forall m: nat :: m > 0 ==> Load(st.heap, top.a, m) == Fail(MemoryError)
  {
    AaddsLaw(prog, natives, st, rest, h, st.heap[h].count);
  }

  /** The guard lets through the index -1 exactly when the count truncated to
      a char is at least -1. The reference AADDS then yields lies before the
      elements, and a load of any `m` bytes through it is a memory error in
      this model. */
  lemma AaddsMinusOne(prog: Program, natives: seq<Native>, st: State, rest: seq<Value>, h: nat, m: nat)
    requires At(st, AADDS) && h < |st.heap| && st.heap[h].Array?
    requires st.S == rest + [PtrVal(Arr(h)), IntVal(-1)]
    ensures Step(prog, natives, st).Ok? <==> ToChar(st.heap[h].count) >= -1
    ensures var size: int := st.heap[h].eltSize;
            Step(prog, natives, st).Ok? ==>
            Step(prog, natives, st) == Ok(Continue(st.(S := rest + [PtrVal(Mem(h, -size))], pc := st.pc + 1))) &&
            (size > 0 ==> Load(st.heap, Mem(h, -size), m) == Fail(MemoryError))
  {
    AaddsLaw(prog, natives, st, rest, h, -1);
    var size: int := st.heap[h].eltSize;
    assert size * ToChar(-1) == -size;
  }

  /** The guard also rejects valid indices: with 200 elements the truncated
      count is -56, so index 0 raises a user error. */
  lemma AaddsRejectsValidIndex(prog: Program, natives: seq<Native>, st: State, rest: seq<Value>, h: nat)
    requires At(st, AADDS) && h < |st.heap| && st.heap[h].Array? && st.heap[h].count == 200
    requires st.S == rest + [PtrVal(Arr(h)), IntVal(0)]
    ensures Step(prog, natives, st) == Fail(UserError)
  {
    AaddsLaw(prog, natives, st, rest, h, 0);
  }

  // ---------------------------------------------------------------------------
  // Invariants of every instruction

  /** An allocated array holds `count * eltSize` bytes. */
  predicate Sized(o: Obj)
  {
    o.Array? ==> |o.mem| == o.count * o.eltSize
  }

  /** No instruction frees an object or changes the kind, size, count or
      element size of one, and every array keeps storage for exactly its
      elements. */
  lemma StepExtendsHeap(prog: Program, natives: seq<Native>, st: State)
    requires Step(prog, natives, st).Ok? && Step(prog, natives, st).value.Continue?
    ensures var heap' := Step(prog, natives, st).value.st.heap;
            Extends(st.heap, heap') && (ArraysSized(st.heap) ==> ArraysSized(heap'))
  {
    var op := st.P[st.pc];
    Dispatch(prog, natives, st);
    if op == NEW || op == NEWARRAY {
      AllocGrows(op, st);
    } else if op == IMSTORE || op == AMSTORE || op == CMSTORE {
      StoreKeepsShape(op, st);
    } else if IsCallOp(op) {
      CallFrames(prog, natives, op, st);
    } else {
      GroupEffects(prog, natives, st);
    }
  }

  /** NEW and NEWARRAY append one object with storage for exactly its
      elements. */
  lemma AllocGrows(op: u8, st: State)
    requires (op == NEW || op == NEWARRAY) && StepAlloc(op, st).Ok? && StepAlloc(op, st).value.Continue?
    ensures var heap' := StepAlloc(op, st).value.st.heap;
            |heap'| == |st.heap| + 1 && heap' == st.heap + [heap'[|st.heap|]] &&
            Sized(heap'[|st.heap|]) &&
            Extends(st.heap, heap') &&
            (ArraysSized(st.heap) ==> ArraysSized(heap'))
  {
    var heap' := StepAlloc(op, st).value.st.heap;
    AllocExtends(st.heap, heap'[|st.heap|]);
  }

  /** The stores overwrite cells in place. */
  lemma StoreKeepsShape(op: u8, st: State)
    requires (op == IMSTORE || op == AMSTORE || op == CMSTORE)
    requires StepMemStore(op, st).Ok? && StepMemStore(op, st).value.Continue?
    ensures var heap' := StepMemStore(op, st).value.st.heap;
            Extends(st.heap, heap') && |heap'| == |st.heap| &&
            (ArraysSized(st.heap) ==> ArraysSized(heap'))
  {
  }

  /** Running longer never changes a finished run. */
  lemma {:induction false} IterateMonotone(step: State -> Result<Next>, st: State, fuel: nat, more: nat)
    requires !Iterate(step, st, fuel).OutOfFuel?
    requires fuel <= more
    ensures Iterate(step, st, more) == Iterate(step, st, fuel)
    decreases fuel
  {
    if fuel > 0 {
      match step(st)
      case Fail(_) =>
      case Ok(Exit(_)) =>
      case Ok(Continue(st')) =>
        IterateMonotone(step, st', fuel - 1, more - 1);
    }
  }

  /** Running `a + b` steps is running `a`, then `b` more from where it stopped. */
  lemma {:induction false} IterateSplit(step: State -> Result<Next>, st: State, a: nat, b: nat)
    ensures Iterate(step, st, a + b) ==
      match Iterate(step, st, a)
      case OutOfFuel(st') => Iterate(step, st', b)
      case r => r
    decreases a
  {
    if a > 0 {
      match step(st)
      case Fail(_) =>
      case Ok(Exit(_)) =>
      case Ok(Continue(st')) =>
        IterateSplit(step, st', a - 1, b);
    }
  }

  /** Each state of `trace` continues to the next under `step`. */
  ghost predicate Continues(step: State -> Result<Next>, trace: seq<State>)
  {
    forall i :: 0 <= i < |trace| - 1 ==> step(trace[i]) == Ok(Continue(trace[i + 1]))
  }

  /** A pass into a trace and a pass out of it extend the trace at both ends. */
  lemma ContinuesAround(step: State -> Result<Next>, a: State, body: seq<State>, b: State)
    requires |body| > 0 && Continues(step, body)
    requires step(a) == Ok(Continue(body[0])) && step(body[|body| - 1]) == Ok(Continue(b))
    ensures Continues(step, [a] + body + [b])
  {
    var trace := [a] + body + [b];
    forall j | 0 <= j < |trace| - 1
      ensures step(trace[j]) == Ok(Continue(trace[j + 1]))
    {
      if j == 0 {
        assert trace[1] == body[0];
      } else if j < |body| {
        assert trace[j] == body[j - 1] && trace[j + 1] == body[j];
      } else {
        assert trace[j] == body[|body| - 1];
      }
    }
  }

  /** A run through a pass in, a continuing trace and a pass out uses one
      unit of fuel per pass. */
  lemma IterateAround(step: State -> Result<Next>, a: State, body: seq<State>, b: State, n: nat)
    requires |body| > 0 && Continues(step, body)
    requires step(a) == Ok(Continue(body[0])) && step(body[|body| - 1]) == Ok(Continue(b))
    ensures Iterate(step, a, |body| + 1 + n) == Iterate(step, b, n)
  {
    ContinuesAround(step, a, body, b);
    var trace := [a] + body + [b];
    assert trace[0] == a && trace[|trace| - 1] == b && |trace| - 1 == |body| + 1;
    IterateAlong(step, trace, n);
  }

  /** Following a trace of continuing passes uses one unit of fuel per pass. */
  lemma {:induction false} IterateAlong(step: State -> Result<Next>, trace: seq<State>, n: nat)
    requires |trace| > 0 && Continues(step, trace)
    ensures Iterate(step, trace[0], |trace| - 1 + n) == Iterate(step, trace[|trace| - 1], n)
    decreases |trace|
  {
    if |trace| > 1 {
      var rest := trace[1..];
      assert Continues(step, rest) by {
        forall i | 0 <= i < |rest| - 1
          ensures step(rest[i]) == Ok(Continue(rest[i + 1]))
        {
          assert rest[i] == trace[i + 1] && rest[i + 1] == trace[i + 2];
        }
      }
      IterateAlong(step, rest, n);
      assert step(trace[0]) == Ok(Continue(trace[1]));
    }
  }

  /** A run with fuel left is decided by its first instruction. */
  lemma RunUnfold(prog: Program, natives: seq<Native>, st: State, fuel: nat)
    requires fuel > 0
    ensures Run(prog, natives, st, fuel) ==
      match Step(prog, natives, st)
      case Fail(e) => Failed(e)
      case Ok(Exit(code)) => Exited(code)
      case Ok(Continue(st')) => Run(prog, natives, st', fuel - 1)
  {
  }

  /** The same two facts for the interpreter's own loop. */
  lemma RunMonotone(prog: Program, natives: seq<Native>, st: State, fuel: nat, more: nat)
    requires !Run(prog, natives, st, fuel).OutOfFuel? && fuel <= more
    ensures Run(prog, natives, st, more) == Run(prog, natives, st, fuel)
  {
    IterateMonotone(Stepper(prog, natives), st, fuel, more);
  }

  lemma RunSplit(prog: Program, natives: seq<Native>, st: State, a: nat, b: nat)
    ensures Run(prog, natives, st, a + b) ==
      match Run(prog, natives, st, a)
      case OutOfFuel(st') => Run(prog, natives, st', b)
      case r => r
  {
    IterateSplit(Stepper(prog, natives), st, a, b);
  }
}
