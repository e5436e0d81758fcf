/**
 * Abstract JVM instructions. An instruction is one element of a code sequence;
 * its byte encoding, and the byte offsets it implies, are the container's business.
 */
module Instructions {
  import opened Descriptors

  type byte = x: int | 0 <= x < 256

  /**
   * Opcodes an existing body may hold as `Other`: every opcode except the
   * returns 0xac (ireturn) to 0xb1 (return), which are always `Ret` or
   * `Return`, so no return escapes the rewriter as an unknown instruction.
   */
  type OtherOpcode = b: byte | b < 0xac || 0xb1 < b

  /** The type prefix of a typed opcode: i (int), l (long), f (float), d (double), a (reference). */
  datatype Kind = I | L | F | D | A

  /** The operand-stack shuffles of section 6.5 used here. */
  datatype Shuffle = DupX1 | DupX2 | Pop | Swap

  datatype Instr =
    | AConstNull
    | IConst(n: int)                 // iconst_<n>, bipush, sipush or ldc: push the int n
    | Zero(zero: Kind)               // lconst_0, fconst_0, dconst_0
    | Load(load: Kind, slot: nat)    // iload, lload, fload, dload, aload
    | Ret(ret: Kind)                 // ireturn, lreturn, freturn, dreturn, areturn
    | Return                         // return from a void method
    | InvokeSpecial(owner: string, name: string, descriptor: string)
    | CheckCast(target: JType)
    | ANewArray(className: string)
    | AAStore
    | Stack(op: Shuffle)
    | Box(boxed: JType)               // the boxing sequence for a primitive type, as one step
    | Unbox(unboxed: JType)           // the unboxing sequence for a primitive type, as one step
    | Operand(b: byte)                // a raw byte appended to the code buffer
    | Other(opcode: OtherOpcode)      // any other instruction of an existing method body

  const IReturn: Instr := Ret(I)
  const LReturn: Instr := Ret(L)
  const FReturn: Instr := Ret(F)
  const DReturn: Instr := Ret(D)
  const AReturn: Instr := Ret(A)
}
