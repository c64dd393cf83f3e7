/** The opcode bytes of the C0 virtual machine instruction set (the values of
    the `enum` in the instruction-set header lib/c0vm.h, which is not part of
    this model), grouped the way the dispatcher handles them. */
module Opcodes {
  import opened Int32

  const NOP: u8 := 0x00
  const ACONST_NULL: u8 := 0x01
  const BIPUSH: u8 := 0x10
  const ILDC: u8 := 0x13
  const ALDC: u8 := 0x14
  const VLOAD: u8 := 0x15
  const ADDROF_STATIC: u8 := 0x16
  const ADDROF_NATIVE: u8 := 0x17
  const IMLOAD: u8 := 0x2E
  const AMLOAD: u8 := 0x2F
  const CMLOAD: u8 := 0x34
  const VSTORE: u8 := 0x36
  const IMSTORE: u8 := 0x4E
  const AMSTORE: u8 := 0x4F
  const CMSTORE: u8 := 0x55
  const POP: u8 := 0x57
  const DUP: u8 := 0x59
  const SWAP: u8 := 0x5F
  const IADD: u8 := 0x60
  const AADDF: u8 := 0x62
  const AADDS: u8 := 0x63
  const ISUB: u8 := 0x64
  const IMUL: u8 := 0x68
  const IDIV: u8 := 0x6C
  const IREM: u8 := 0x70
  const ISHL: u8 := 0x78
  const ISHR: u8 := 0x7A
  const IAND: u8 := 0x7E
  const IOR: u8 := 0x80
  const IXOR: u8 := 0x82
  const IF_CMPEQ: u8 := 0x9F
  const IF_CMPNE: u8 := 0xA0
  const IF_ICMPLT: u8 := 0xA1
  const IF_ICMPGE: u8 := 0xA2
  const IF_ICMPGT: u8 := 0xA3
  const IF_ICMPLE: u8 := 0xA4
  const GOTO: u8 := 0xA7
  const RETURN: u8 := 0xB0
  const INVOKEDYNAMIC: u8 := 0xB6
  const INVOKENATIVE: u8 := 0xB7
  const INVOKESTATIC: u8 := 0xB8
  const NEW: u8 := 0xBB
  const NEWARRAY: u8 := 0xBC
  const ARRAYLENGTH: u8 := 0xBE
  const ATHROW: u8 := 0xBF
  const CHECKTAG: u8 := 0xC0
  const HASTAG: u8 := 0xC1
  const ADDTAG: u8 := 0xC2
  const ASSERT: u8 := 0xCF

  /** POP, DUP, SWAP and NOP: they only shuffle the operand stack. */
  predicate IsStackOp(op: u8)
  {
    op == POP || op == DUP || op == SWAP || op == NOP
  }

  /** The ten binary integer operations. */
  predicate IsArithOp(op: u8)
  {
    op == IADD || op == ISUB || op == IMUL || op == IDIV || op == IREM ||
    op == IAND || op == IOR || op == IXOR || op == ISHL || op == ISHR
  }

  /** Constants, locals, ATHROW and ASSERT. */
  predicate IsLoadOp(op: u8)
  {
    op == BIPUSH || op == ILDC || op == ALDC || op == ACONST_NULL ||
    op == VLOAD || op == VSTORE || op == ATHROW || op == ASSERT
  }

  /** The conditional branches and GOTO. */
  predicate IsBranchOp(op: u8)
  {
    op == IF_CMPEQ || op == IF_CMPNE || op == IF_ICMPLT || op == IF_ICMPGE ||
    op == IF_ICMPGT || op == IF_ICMPLE || op == GOTO
  }

  /** INVOKESTATIC, INVOKENATIVE and RETURN. */
  predicate IsCallOp(op: u8)
  {
    op == INVOKESTATIC || op == INVOKENATIVE || op == RETURN
  }

  /** Allocation, loads and stores through references, and address arithmetic. */
  predicate IsMemoryOp(op: u8)
  {
    op == NEW || op == IMLOAD || op == IMSTORE || op == AMLOAD || op == AMSTORE ||
    op == CMLOAD || op == CMSTORE || op == AADDF ||
    op == NEWARRAY || op == ARRAYLENGTH || op == AADDS
  }
}
