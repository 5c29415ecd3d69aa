/**
 * The instruction set the assembler backend targets (`common::instruction`
 * and the widths of `common::architecture`).
 *
 * The bit layout of an encoded instruction is not modelled: the backend
 * receives the encoder as a parameter. The widths the architecture fixes are
 * parameters too, gathered in `Architecture`; only the register id width,
 * which the backend itself writes as `U<2>`, is a constant.
 */
module Isa {
  import opened FixedWidth

  /** One encoded program word. */
  newtype byte = x: int | 0 <= x < 256

  /** Register ids are two-bit fields. */
  const REGISTER_ID_BITS: nat := 2

  /** The field widths the architecture fixes. */
  datatype Architecture = Architecture(pcBits: nat, immediateBits: nat, portBits: nat, pinBits: nat)

  /** The instructions the backend produces, each with its operand fields. */
  datatype Instruction =
    | NOP
    | STR(registerId: nat)
    | LOD(registerId: nat)
    | LDI(registerId: nat, immediate: nat)
    | MOV(registerFromId: nat, registerToId: nat)
    | OUT(portId: nat)
    | SEP(pinId: nat)
    | RSP(pinId: nat)
    | BRN(immediate: nat)
    | SSJ
    | RSJ
    | RET
    | SSF
    | RSF

  /** Every operand field holds a value of its architectural width. */
  predicate FieldsFit(i: Instruction, arch: Architecture)
  {
    match i
    case STR(r) => r < Pow2(REGISTER_ID_BITS)
    case LOD(r) => r < Pow2(REGISTER_ID_BITS)
    case LDI(r, imm) => r < Pow2(REGISTER_ID_BITS) && imm < Pow2(arch.immediateBits)
    case MOV(from, to) => from < Pow2(REGISTER_ID_BITS) && to < Pow2(REGISTER_ID_BITS)
    case OUT(port) => port < Pow2(arch.portBits)
    case SEP(pin) => pin < Pow2(arch.pinBits)
    case RSP(pin) => pin < Pow2(arch.pinBits)
    case BRN(imm) => imm < Pow2(arch.immediateBits)
    case _ => true
  }
}
