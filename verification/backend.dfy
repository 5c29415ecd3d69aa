/**
 * The assembler backend: turns the parser's flat node sequence into encoded
 * program bytes in two passes (`assembler/src/backend.rs`).
 *
 * Pass 1 (`BuildLabelMap`) gives every label the address and page of the
 * next instruction. Pass 2 (`Compile`) checks each instruction's arguments
 * against a fixed shape per opcode and resolves branch targets. Both passes
 * collect every error instead of stopping at the first. The reference
 * definitions next to the methods (`InstructionCount`, `LabelMapOf`,
 * `LabelVerdict`, `NodeStep`, `Gather`, `CompileSpec`) say what the passes
 * compute; the lemmas say what that means.
 */
module Backend {
  import opened FixedWidth
  import Isa

  datatype Option<T> = None | Some(value: T)

  // ---------------------------------------------------------------------
  // Input: the parser's nodes
  // ---------------------------------------------------------------------

  datatype Register = A | X | Y | Z

  /** Which half of a label's position a reference asks for. */
  datatype LabelPropertyKind = Address | Page

  /** The opcodes the lexer recognises. */
  datatype InstructionKind =
    | NOP | STR | LOD | LDI | INC | DEC | MOV | INP | OUT | SEP | RSP
    | ADD | SUB | BOR | AND | CMP | GRT | LES | BRN | SSJ | RSJ | RET | SSF | RSF

  datatype Node =
    | Instruction(kind: InstructionKind, arguments: seq<Node>)
    | Label(name: string)
    | RegisterLiteral(register: Register)
    | NumberLiteral(value: nat)
    | LabelReference(labelName: string, referenceKind: LabelPropertyKind)

  // ---------------------------------------------------------------------
  // Output: errors, label positions, results
  // ---------------------------------------------------------------------

  datatype CompilationErrorKind =
    | UnexpectedNodeKind
    | BadInstructionArguments
    | BadLabelReference
    | DuplicateLabel

  /** An error and the index of the top-level node it is about. */
  datatype CompilationError = CompilationError(kind: CompilationErrorKind, blockIndex: nat)

  /** Where a label points: the address within its page and the page number. */
  datatype Position = Position(address: nat, page: nat)

  type LabelMap = map<string, Position>

  /** Outcome of pass 1. */
  datatype Result<T> = Ok(value: T) | Err(errors: seq<CompilationError>)

  /** Outcome of compiling one instruction; `Unimplemented` is the `todo!()` abort. */
  datatype Assembly =
    | Assembled(instruction: Isa.Instruction)
    | Rejected(error: CompilationError)
    | Unimplemented

  /**
   * Outcome of `Compile`: every encoded byte, or every error, never a mix.
   * `Aborted` is the panic raised by an opcode the backend does not implement.
   */
  datatype Outcome =
    | Program(bytes: seq<Isa.byte>)
    | Diagnostics(errors: seq<CompilationError>)
    | Aborted(blockIndex: nat)

  // ---------------------------------------------------------------------
  // Registers and the argument-shape table
  // ---------------------------------------------------------------------

  /** The inverse of `RegisterToId`. */
  function IdToRegister(id: nat): Register
    requires id < 4
  {
    if id == 0 then A else if id == 1 then X else if id == 2 then Y else Z
  }

  /** A register's two-bit id. */
  function RegisterToId(register: Register): (id: nat)
    ensures id < Pow2(Isa.REGISTER_ID_BITS)
    ensures id < 4 && IdToRegister(id) == register
  {
    match register
    case A => 0
    case X => 1
    case Y => 2
    case Z => 3
  }

  /** The kinds of argument node an instruction can take. */
  datatype Operand = RegisterOperand | NumberOperand | LabelOperand

  function OperandOf(node: Node): Option<Operand>
  {
    match node
    case RegisterLiteral(_) => Some(RegisterOperand)
    case NumberLiteral(_) => Some(NumberOperand)
    case LabelReference(_, _) => Some(LabelOperand)
    case _ => None
  }

  /** The one argument shape each opcode accepts; `None` for the unimplemented opcodes. */
  function Shape(kind: InstructionKind): Option<seq<Operand>>
  {
    if kind in {NOP, SSJ, RSJ, RET, SSF, RSF} then Some([])
    else if kind in {STR, LOD} then Some([RegisterOperand])
    else if kind == LDI then Some([RegisterOperand, NumberOperand])
    else if kind == MOV then Some([RegisterOperand, RegisterOperand])
    else if kind in {OUT, SEP, RSP} then Some([NumberOperand])
    else if kind == BRN then Some([LabelOperand])
    else None
  }

  predicate Fits(arguments: seq<Node>, shape: seq<Operand>)
  {
    |arguments| == |shape| && forall i :: 0 <= i < |shape| ==> OperandOf(arguments[i]) == Some(shape[i])
  }

  /** The opcode an instruction is written with. */
  function Opcode(instruction: Isa.Instruction): InstructionKind
  {
    match instruction
    case NOP => NOP
    case STR(_) => STR
    case LOD(_) => LOD
    case LDI(_, _) => LDI
    case MOV(_, _) => MOV
    case OUT(_) => OUT
    case SEP(_) => SEP
    case RSP(_) => RSP
    case BRN(_) => BRN
    case SSJ => SSJ
    case RSJ => RSJ
    case RET => RET
    case SSF => SSF
    case RSF => RSF
  }

  /** The half of a label's position a reference asks for. */
  function Resolve(position: Position, kind: LabelPropertyKind): nat
  {
    match kind
    case Address => position.address
    case Page => position.page
  }

  // ---------------------------------------------------------------------
  // Compiling one instruction
  // ---------------------------------------------------------------------

  /**
   * Checks an instruction's arguments against its opcode's shape and builds
   * the instruction. Number literals are truncated to their field's width
   * without a range check.
   */
  function CompileInstruction(kind: InstructionKind, arguments: seq<Node>, blockIndex: nat,
                              labels: LabelMap, arch: Isa.Architecture): (r: Assembly)
    ensures r.Unimplemented? <==> Shape(kind) == None
    ensures r.Assembled? ==>
      Opcode(r.instruction) == kind && Isa.FieldsFit(r.instruction, arch) && Fits(arguments, Shape(kind).value)
    ensures r.Rejected? ==> r.error.blockIndex == blockIndex
    ensures r.Rejected? ==> (r.error.kind == BadInstructionArguments <==> !Fits(arguments, Shape(kind).value))
    ensures r.Rejected? ==> r.error.kind == BadInstructionArguments || (kind == BRN && r.error.kind == BadLabelReference)
  {
    var badArgs := Rejected(CompilationError(BadInstructionArguments, blockIndex));
    match kind
    case NOP => if |arguments| == 0 then Assembled(Isa.NOP) else badArgs
    case STR =>
      if |arguments| == 1 && arguments[0].RegisterLiteral?
      then Assembled(Isa.STR(RegisterToId(arguments[0].register)))
      else badArgs
    case LOD =>
      if |arguments| == 1 && arguments[0].RegisterLiteral?
      then Assembled(Isa.LOD(RegisterToId(arguments[0].register)))
      else badArgs
    case LDI =>
      if |arguments| == 2 && arguments[0].RegisterLiteral? && arguments[1].NumberLiteral?
      then Assembled(Isa.LDI(RegisterToId(arguments[0].register), Truncate(arguments[1].value, arch.immediateBits)))
      else badArgs
    case INC => Unimplemented
    case DEC => Unimplemented
    case MOV =>
      // the first register is the destination, the second the source
      if |arguments| == 2 && arguments[0].RegisterLiteral? && arguments[1].RegisterLiteral?
      then Assembled(Isa.MOV(RegisterToId(arguments[1].register), RegisterToId(arguments[0].register)))
      else badArgs
    case INP => Unimplemented
    case OUT =>
      if |arguments| == 1 && arguments[0].NumberLiteral?
      then Assembled(Isa.OUT(Truncate(arguments[0].value, arch.portBits)))
      else badArgs
    case SEP =>
      if |arguments| == 1 && arguments[0].NumberLiteral?
      then Assembled(Isa.SEP(Truncate(arguments[0].value, arch.pinBits)))
      else badArgs
    case RSP =>
      if |arguments| == 1 && arguments[0].NumberLiteral?
      then Assembled(Isa.RSP(Truncate(arguments[0].value, arch.pinBits)))
      else badArgs
    case ADD => Unimplemented
    case SUB => Unimplemented
    case BOR => Unimplemented
    case AND => Unimplemented
    case CMP => Unimplemented
    case GRT => Unimplemented
    case LES => Unimplemented
    case BRN =>
      if |arguments| == 1 && arguments[0].LabelReference? then
        var name := arguments[0].labelName;
        if name in labels
        then Assembled(Isa.BRN(Truncate(Resolve(labels[name], arguments[0].referenceKind), arch.immediateBits)))
        else Rejected(CompilationError(BadLabelReference, blockIndex))
      else badArgs
    case SSJ => if |arguments| == 0 then Assembled(Isa.SSJ) else badArgs
    case RSJ => if |arguments| == 0 then Assembled(Isa.RSJ) else badArgs
    case RET => if |arguments| == 0 then Assembled(Isa.RET) else badArgs
    case SSF => if |arguments| == 0 then Assembled(Isa.SSF) else badArgs
    case RSF => if |arguments| == 0 then Assembled(Isa.RSF) else badArgs
  }

  // ---------------------------------------------------------------------
  // Reference definitions of the two passes
  // ---------------------------------------------------------------------

  /** The number of instruction nodes in `nodes`; labels and other nodes do not count. */
  function InstructionCount(nodes: seq<Node>): (k: nat)
    ensures k <= |nodes|
  {
    if nodes == [] then 0
    else InstructionCount(nodes[..|nodes| - 1]) + (if nodes[|nodes| - 1].Instruction? then 1 else 0)
  }

  /** The position of the instruction with index `count` in the program. */
  function PositionOf(count: nat, pcBits: nat): (p: Position)
    ensures p.address < Pow2(pcBits)
    ensures p.page * Pow2(pcBits) + p.address == count
  {
    DivModParts(count, Pow2(pcBits));
    DivBounds(count, Pow2(pcBits));
    Position(count % Pow2(pcBits), count / Pow2(pcBits))
  }

  /** The label map after pass 1 has walked `nodes`: a label's first definition wins. */
  function LabelMapOf(nodes: seq<Node>, pcBits: nat): LabelMap
  {
    if nodes == [] then map[]
    else
      var prefix := nodes[..|nodes| - 1];
      var labels := LabelMapOf(prefix, pcBits);
      match nodes[|nodes| - 1]
      case Label(name) =>
        if name in labels then labels else labels[name := PositionOf(InstructionCount(prefix), pcBits)]
      case _ => labels
  }

  /** What pass 1 reports about node i: a repeated label or a node that is neither label nor instruction. */
  function LabelVerdict(nodes: seq<Node>, i: nat): Option<CompilationErrorKind>
    requires i < |nodes|
  {
    match nodes[i]
    case Instruction(_, _) => None
    case Label(name) => if Label(name) in nodes[..i] then Some(DuplicateLabel) else None
    case _ => Some(UnexpectedNodeKind)
  }

  function LabelVerdicts(nodes: seq<Node>): seq<Option<CompilationErrorKind>>
  {
    seq(|nodes|, i requires 0 <= i < |nodes| => LabelVerdict(nodes, i))
  }

  /** Pass 1's errors. */
  function LabelErrors(nodes: seq<Node>): seq<CompilationError>
  {
    Gather(LabelVerdicts(nodes))
  }

  /** The errors of a pass in node order: one per node whose verdict is an error, carrying that node's index. */
  function Gather(verdicts: seq<Option<CompilationErrorKind>>): (errors: seq<CompilationError>)
    ensures |errors| <= |verdicts|
  {
    if verdicts == [] then []
    else
      var n := |verdicts| - 1;
      Gather(verdicts[..n]) + (match verdicts[n] case Some(kind) => [CompilationError(kind, n)] case None => [])
  }

  /** What pass 2 does with one top-level node. */
  datatype Step = Emit(instruction: Isa.Instruction) | Skip | Fail(error: CompilationError) | Abort

  function NodeStep(node: Node, blockIndex: nat, labels: LabelMap, arch: Isa.Architecture): Step
  {
    match node
    case Instruction(kind, arguments) =>
      (match CompileInstruction(kind, arguments, blockIndex, labels, arch)
       case Assembled(instruction) => Emit(instruction)
       case Rejected(error) => Fail(error)
       case Unimplemented => Abort)
    case Label(_) => Skip
    case _ => Fail(CompilationError(UnexpectedNodeKind, blockIndex))
  }

  function Steps(block: seq<Node>, labels: LabelMap, arch: Isa.Architecture): seq<Step>
  {
    seq(|block|, i requires 0 <= i < |block| => NodeStep(block[i], i, labels, arch))
  }

  function StepVerdicts(steps: seq<Step>): seq<Option<CompilationErrorKind>>
  {
    seq(|steps|, i requires 0 <= i < |steps| => if steps[i].Fail? then Some(steps[i].error.kind) else None)
  }

  /** The instructions pass 2 emits, in node order. */
  function Emitted(steps: seq<Step>): seq<Isa.Instruction>
  {
    if steps == [] then []
    else
      var n := |steps| - 1;
      Emitted(steps[..n]) + (if steps[n].Emit? then [steps[n].instruction] else [])
  }

  /** The first node at which pass 2 aborts, if any. */
  function FirstAbort(steps: seq<Step>): Option<nat>
  {
    if steps == [] then None
    else
      var n := |steps| - 1;
      match FirstAbort(steps[..n])
      case Some(i) => Some(i)
      case None => if steps[n].Abort? then Some(n) else None
  }

  function EncodeAll(instructions: seq<Isa.Instruction>, encode: Isa.Instruction -> Isa.byte): seq<Isa.byte>
  {
    seq(|instructions|, j requires 0 <= j < |instructions| => encode(instructions[j]))
  }

  /** What `Compile` returns: pass 1's errors, else pass 2's abort, errors or encoded program. */
  function CompileSpec(block: seq<Node>, arch: Isa.Architecture, encode: Isa.Instruction -> Isa.byte): Outcome
  {
    var labelErrors := LabelErrors(block);
    if labelErrors != [] then Diagnostics(labelErrors)
    else
      var steps := Steps(block, LabelMapOf(block, arch.pcBits), arch);
      match FirstAbort(steps)
      case Some(i) => Aborted(i)
      case None =>
        var errors := Gather(StepVerdicts(steps));
        if errors == [] then Program(EncodeAll(Emitted(steps), encode)) else Diagnostics(errors)
  }

  // ---------------------------------------------------------------------
  // The two passes
  // ---------------------------------------------------------------------

  /** Pass 1: gives each label the position of the next instruction. */
  method BuildLabelMap(nodes: seq<Node>, pcBits: nat) returns (r: Result<LabelMap>)
    ensures r == if LabelErrors(nodes) == [] then Ok(LabelMapOf(nodes, pcBits)) else Err(LabelErrors(nodes))
  {
    var labels: LabelMap := map[];
    var errors: seq<CompilationError> := [];
    var instructionCount: nat := 0;
    ghost var verdicts := LabelVerdicts(nodes);
    for blockIndex := 0 to |nodes|
      invariant instructionCount == InstructionCount(nodes[..blockIndex])
      invariant labels == LabelMapOf(nodes[..blockIndex], pcBits)
      invariant errors == Gather(verdicts[..blockIndex])
    {
      PassOneStep(nodes, blockIndex, pcBits);
      PrefixStep(verdicts, blockIndex);
      match nodes[blockIndex]
      case Label(name) =>
        LabelMapDomain(nodes[..blockIndex], pcBits, name);
        if name in labels {
          // the first definition stays in the map
          errors := errors + [CompilationError(DuplicateLabel, blockIndex)];
        } else {
          labels := labels[name := PositionOf(instructionCount, pcBits)];
        }
      case Instruction(_, _) =>
        instructionCount := instructionCount + 1;
      case _ =>
        errors := errors + [CompilationError(UnexpectedNodeKind, blockIndex)];
    }
    assert nodes[..|nodes|] == nodes && verdicts[..|nodes|] == verdicts;
    if errors == [] {
      r := Ok(labels);
    } else {
      r := Err(errors);
    }
  }

  /** Both passes; pass 2 runs only on a clean pass 1 and reports every failing node. */
  method Compile(block: seq<Node>, arch: Isa.Architecture, encode: Isa.Instruction -> Isa.byte) returns (r: Outcome)
    ensures r == CompileSpec(block, arch, encode)
  {
    var pass1 := BuildLabelMap(block, arch.pcBits);
    if pass1.Err? {
      return Diagnostics(pass1.errors);
    }
    var labels := pass1.value;
    var result: seq<Isa.Instruction> := [];
    var errors: seq<CompilationError> := [];
    ghost var steps := Steps(block, labels, arch);
    ghost var verdicts := StepVerdicts(steps);
    for blockIndex := 0 to |block|
      invariant FirstAbort(steps[..blockIndex]) == None
      invariant result == Emitted(steps[..blockIndex])
      invariant errors == Gather(verdicts[..blockIndex])
    {
      PassTwoStep(steps, blockIndex);
      PrefixStep(verdicts, blockIndex);
      match block[blockIndex]
      case Instruction(kind, arguments) =>
        match CompileInstruction(kind, arguments, blockIndex, labels, arch) {
          case Assembled(instruction) =>
            result := result + [instruction];
          case Rejected(error) =>
            errors := errors + [error];
          case Unimplemented =>
            FirstAbortExtends(steps, blockIndex + 1);
            return Aborted(blockIndex);
        }
      case Label(_) =>
      case _ =>
        errors := errors + [CompilationError(UnexpectedNodeKind, blockIndex)];
    }
    assert steps[..|block|] == steps && verdicts[..|block|] == verdicts;
    if errors == [] {
      r := Program(EncodeAll(result, encode));
    } else {
      r := Diagnostics(errors);
    }
  }

  // ---------------------------------------------------------------------
  // Facts the passes rely on
  // ---------------------------------------------------------------------

  lemma PrefixStep<T>(s: seq<T>, i: nat)
    requires i < |s|
    ensures s[..i + 1][..i] == s[..i] && s[..i + 1][i] == s[i]
  {
  }

  /** A name is in the label map exactly when some label node defines it. */
  lemma {:induction false} LabelMapDomain(nodes: seq<Node>, pcBits: nat, name: string)
    ensures name in LabelMapOf(nodes, pcBits) <==> Label(name) in nodes
  {
    if nodes != [] {
      var prefix := nodes[..|nodes| - 1];
      LabelMapDomain(prefix, pcBits, name);
      assert nodes == prefix + [nodes[|nodes| - 1]];
    }
  }

  /** How one node extends pass 1's reference definitions. */
  lemma PassOneStep(nodes: seq<Node>, i: nat, pcBits: nat)
    requires i < |nodes|
    ensures InstructionCount(nodes[..i + 1]) == InstructionCount(nodes[..i]) + (if nodes[i].Instruction? then 1 else 0)
    ensures LabelMapOf(nodes[..i + 1], pcBits) ==
      var labels := LabelMapOf(nodes[..i], pcBits);
      if nodes[i].Label? && nodes[i].name !in labels
      then labels[nodes[i].name := PositionOf(InstructionCount(nodes[..i]), pcBits)]
      else labels
  {
    PrefixStep(nodes, i);
  }

  /** How one node extends pass 2's reference definitions. */
  lemma PassTwoStep(steps: seq<Step>, i: nat)
    requires i < |steps|
    ensures Emitted(steps[..i + 1]) == Emitted(steps[..i]) + (if steps[i].Emit? then [steps[i].instruction] else [])
    ensures FirstAbort(steps[..i]) == None ==>
      FirstAbort(steps[..i + 1]) == if steps[i].Abort? then Some(i) else None
  {
    PrefixStep(steps, i);
  }

  /** Once pass 2 has aborted on a prefix, it aborts there on the whole block. */
  lemma {:induction false} FirstAbortExtends(steps: seq<Step>, k: nat)
    requires k <= |steps| && FirstAbort(steps[..k]).Some?
    ensures FirstAbort(steps) == FirstAbort(steps[..k])
    decreases |steps| - k
  {
    if k < |steps| {
      PrefixStep(steps, k);
      FirstAbortExtends(steps, k + 1);
    } else {
      assert steps[..k] == steps;
    }
  }
}
