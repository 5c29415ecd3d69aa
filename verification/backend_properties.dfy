/**
 * What the assembler backend's two passes guarantee, stated over the
 * reference definitions that `BuildLabelMap` and `Compile` are proved to
 * follow.
 */
module BackendProperties {
  import opened FixedWidth
  import Isa
  import opened Backend

  // ---------------------------------------------------------------------
  // Error lists
  // ---------------------------------------------------------------------

  /** An error is gathered exactly when its node's verdict is that error kind. */
  lemma {:induction false} GatherMembers(verdicts: seq<Option<CompilationErrorKind>>, e: CompilationError)
    ensures e in Gather(verdicts) <==> e.blockIndex < |verdicts| && verdicts[e.blockIndex] == Some(e.kind)
  {
    if verdicts != [] {
      var n := |verdicts| - 1;
      GatherMembers(verdicts[..n], e);
    }
  }

  /** Gathered errors are in strictly increasing node order, so no node is reported twice. */
  lemma {:induction false} GatherOrdered(verdicts: seq<Option<CompilationErrorKind>>)
    ensures forall a, b :: 0 <= a < b < |Gather(verdicts)| ==> Gather(verdicts)[a].blockIndex < Gather(verdicts)[b].blockIndex
  {
    if verdicts != [] {
      var n := |verdicts| - 1;
      var earlier := Gather(verdicts[..n]);
      GatherOrdered(verdicts[..n]);
      forall a | 0 <= a < |earlier|
        ensures earlier[a].blockIndex < n
      {
        GatherMembers(verdicts[..n], earlier[a]);
      }
    }
  }

  /** No error is gathered exactly when no node has an error verdict. */
  lemma GatherEmpty(verdicts: seq<Option<CompilationErrorKind>>)
    ensures Gather(verdicts) == [] <==> forall i :: 0 <= i < |verdicts| ==> verdicts[i] == None
  {
    if Gather(verdicts) != [] {
      GatherMembers(verdicts, Gather(verdicts)[0]);
    }
    forall i | 0 <= i < |verdicts| && verdicts[i].Some?
      ensures Gather(verdicts) != []
    {
      GatherMembers(verdicts, CompilationError(verdicts[i].value, i));
    }
  }

  // ---------------------------------------------------------------------
  // Pass 1
  // ---------------------------------------------------------------------

  /**
   * Pass 1 reports a DuplicateLabel at every label whose name an earlier label
   * already defined, an UnexpectedNodeKind at every node that is neither a
   * label nor an instruction, and nothing else, in node order.
   */
  lemma LabelErrorsExact(nodes: seq<Node>)
    ensures forall e :: e in LabelErrors(nodes) <==>
      e.blockIndex < |nodes| &&
      match nodes[e.blockIndex]
      case Instruction(_, _) => false
      case Label(name) => e.kind == DuplicateLabel && Label(name) in nodes[..e.blockIndex]
      case _ => e.kind == UnexpectedNodeKind
    ensures forall a, b :: 0 <= a < b < |LabelErrors(nodes)| ==>
      LabelErrors(nodes)[a].blockIndex < LabelErrors(nodes)[b].blockIndex
  {
    forall e {
      GatherMembers(LabelVerdicts(nodes), e);
    }
    GatherOrdered(LabelVerdicts(nodes));
  }

  /**
   * The first definition of a label maps it to the position of the next
   * instruction: k mod 2^PC_BITS within page k div 2^PC_BITS, where k is the
   * number of instructions before it. Later definitions do not change it.
   */
  lemma {:induction false} LabelMapFirstDefinition(nodes: seq<Node>, pcBits: nat, i: nat)
    requires i < |nodes| && nodes[i].Label? && Label(nodes[i].name) !in nodes[..i]
    ensures nodes[i].name in LabelMapOf(nodes, pcBits)
    ensures LabelMapOf(nodes, pcBits)[nodes[i].name] == PositionOf(InstructionCount(nodes[..i]), pcBits)
    ensures var p := LabelMapOf(nodes, pcBits)[nodes[i].name];
      p.address < Pow2(pcBits) && p.page * Pow2(pcBits) + p.address == InstructionCount(nodes[..i])
  {
    var n := |nodes| - 1;
    var prefix := nodes[..n];
    var name := nodes[i].name;
    LabelMapDomain(prefix, pcBits, name);
    if i == n {
      assert prefix == nodes[..i];
    } else {
      assert prefix[..i] == nodes[..i];
      LabelMapFirstDefinition(prefix, pcBits, i);
    }
  }

  // ---------------------------------------------------------------------
  // Pass 2
  // ---------------------------------------------------------------------

  /** Pass 2 aborts at the first instruction whose opcode is unimplemented, and only there. */
  lemma {:induction false} FirstAbortExact(steps: seq<Step>)
    ensures FirstAbort(steps) == None <==> forall i :: 0 <= i < |steps| ==> !steps[i].Abort?
    ensures FirstAbort(steps).Some? ==>
      var i := FirstAbort(steps).value;
      i < |steps| && steps[i].Abort? && forall j :: 0 <= j < i ==> !steps[j].Abort?
  {
    if steps != [] {
      var n := |steps| - 1;
      FirstAbortExact(steps[..n]);
      assert forall i :: 0 <= i < n ==> steps[..n][i] == steps[i];
    }
  }

  /** Every failing node's error carries that node's own index. */
  lemma StepErrorIndex(block: seq<Node>, labels: LabelMap, arch: Isa.Architecture, i: nat)
    requires i < |block|
    ensures var step := Steps(block, labels, arch)[i];
      step.Fail? ==> step.error.blockIndex == i
  {
  }

  /**
   * When pass 1 is clean and pass 2 neither aborts nor fails, the program has
   * one entry per instruction node, in node order: the instruction at node i
   * is the k-th entry, where k counts the instructions before node i.
   */
  lemma {:induction false} EmittedLayout(block: seq<Node>, steps: seq<Step>, n: nat)
    requires |steps| == |block| && n <= |block|
    requires forall i :: 0 <= i < |block| ==> (steps[i].Emit? <==> block[i].Instruction?)
    ensures |Emitted(steps[..n])| == InstructionCount(block[..n])
    ensures forall i :: 0 <= i < n && steps[i].Emit? ==>
      InstructionCount(block[..i]) < |Emitted(steps[..n])| &&
      Emitted(steps[..n])[InstructionCount(block[..i])] == steps[i].instruction
  {
    if n > 0 {
      EmittedLayout(block, steps, n - 1);
      PassTwoStep(steps, n - 1);
      PassOneStep(block, n - 1, 0);
    }
  }

  /** Compilation succeeds exactly when pass 1 is clean and every node of pass 2 is emitted or skipped. */
  lemma CompileSucceedsIff(block: seq<Node>, arch: Isa.Architecture, encode: Isa.Instruction -> Isa.byte)
    ensures CompileSpec(block, arch, encode).Program? <==>
      LabelErrors(block) == [] &&
      forall i :: 0 <= i < |block| ==>
        NodeStep(block[i], i, LabelMapOf(block, arch.pcBits), arch).Emit? ||
        NodeStep(block[i], i, LabelMapOf(block, arch.pcBits), arch).Skip?
  {
    var steps := Steps(block, LabelMapOf(block, arch.pcBits), arch);
    FirstAbortExact(steps);
    GatherEmpty(StepVerdicts(steps));
    assert forall i :: 0 <= i < |block| ==> steps[i] == NodeStep(block[i], i, LabelMapOf(block, arch.pcBits), arch);
    assert forall i :: 0 <= i < |block| ==> StepVerdicts(steps)[i] == (if steps[i].Fail? then Some(steps[i].error.kind) else None);
  }

  /**
   * On success the output holds exactly one encoded entry per instruction
   * node, in program order; labels emit nothing.
   */
  lemma ProgramLayout(block: seq<Node>, arch: Isa.Architecture, encode: Isa.Instruction -> Isa.byte)
    requires CompileSpec(block, arch, encode).Program?
    ensures var bytes := CompileSpec(block, arch, encode).bytes;
      |bytes| == InstructionCount(block) &&
      forall i :: 0 <= i < |block| && block[i].Instruction? ==>
        var assembly := CompileInstruction(block[i].kind, block[i].arguments, i, LabelMapOf(block, arch.pcBits), arch);
        assembly.Assembled? &&
        InstructionCount(block[..i]) < |bytes| &&
        bytes[InstructionCount(block[..i])] == encode(assembly.instruction)
  {
    var steps := Steps(block, LabelMapOf(block, arch.pcBits), arch);
    CompileSucceedsIff(block, arch, encode);
    assert forall i :: 0 <= i < |block| ==> steps[i] == NodeStep(block[i], i, LabelMapOf(block, arch.pcBits), arch);
    EmittedLayout(block, steps, |block|);
    assert steps[..|block|] == steps && block[..|block|] == block;
  }

  /**
   * When pass 1 is clean and no opcode is unimplemented, the errors are
   * exactly the failing nodes' own errors, one per node, in node order.
   */
  lemma PassTwoErrorsExact(block: seq<Node>, arch: Isa.Architecture, encode: Isa.Instruction -> Isa.byte)
    requires LabelErrors(block) == [] && CompileSpec(block, arch, encode).Diagnostics?
    ensures var steps := Steps(block, LabelMapOf(block, arch.pcBits), arch);
      var errors := CompileSpec(block, arch, encode).errors;
      errors != [] &&
      (forall e :: e in errors <==> e.blockIndex < |block| && steps[e.blockIndex] == Fail(e)) &&
      (forall a, b :: 0 <= a < b < |errors| ==> errors[a].blockIndex < errors[b].blockIndex)
  {
    var steps := Steps(block, LabelMapOf(block, arch.pcBits), arch);
    var verdicts := StepVerdicts(steps);
    forall e
      ensures e in Gather(verdicts) <==> e.blockIndex < |block| && steps[e.blockIndex] == Fail(e)
    {
      GatherMembers(verdicts, e);
      if e.blockIndex < |block| {
        StepErrorIndex(block, LabelMapOf(block, arch.pcBits), arch, e.blockIndex);
      }
    }
    GatherOrdered(verdicts);
  }

  /**
   * A branch to a label resolves to the half of the label's first
   * definition the reference asks for, truncated to the immediate's width;
   * a branch to a name no label defines is a BadLabelReference.
   */
  lemma BranchResolution(block: seq<Node>, arch: Isa.Architecture, j: nat, name: string, kind: LabelPropertyKind)
    requires j < |block| && block[j] == Instruction(BRN, [LabelReference(name, kind)])
    ensures var step := NodeStep(block[j], j, LabelMapOf(block, arch.pcBits), arch);
      (Label(name) !in block ==> step == Fail(CompilationError(BadLabelReference, j))) &&
      forall i :: 0 <= i < |block| && block[i] == Label(name) && Label(name) !in block[..i] ==>
        step == Emit(Isa.BRN(Truncate(Resolve(PositionOf(InstructionCount(block[..i]), arch.pcBits), kind), arch.immediateBits)))
  {
    LabelMapDomain(block, arch.pcBits, name);
    forall i | 0 <= i < |block| && block[i] == Label(name) && Label(name) !in block[..i] {
      LabelMapFirstDefinition(block, arch.pcBits, i);
    }
  }

  // ---------------------------------------------------------------------
  // The argument-shape table, read backwards
  // ---------------------------------------------------------------------

  /** The arguments an instruction is written with in source: `MOV` names its destination first. */
  function Operands(instruction: Isa.Instruction, arch: Isa.Architecture): seq<Node>
    requires Isa.FieldsFit(instruction, arch)
  {
    match instruction
    case STR(r) => [RegisterLiteral(IdToRegister(r))]
    case LOD(r) => [RegisterLiteral(IdToRegister(r))]
    case LDI(r, imm) => [RegisterLiteral(IdToRegister(r)), NumberLiteral(imm)]
    case MOV(from, to) => [RegisterLiteral(IdToRegister(to)), RegisterLiteral(IdToRegister(from))]
    case OUT(port) => [NumberLiteral(port)]
    case SEP(pin) => [NumberLiteral(pin)]
    case RSP(pin) => [NumberLiteral(pin)]
    case _ => []
  }

  lemma IdRegisterId(id: nat)
    requires id < 4
    ensures RegisterToId(IdToRegister(id)) == id
  {
  }

  /**
   * Every instruction other than a branch, with fields of their widths, is
   * assembled back from the arguments it is written with.
   */
  lemma OperandsRoundTrip(instruction: Isa.Instruction, arch: Isa.Architecture, blockIndex: nat, labels: LabelMap)
    requires Isa.FieldsFit(instruction, arch) && !instruction.BRN?
    ensures CompileInstruction(Opcode(instruction), Operands(instruction, arch), blockIndex, labels, arch) == Assembled(instruction)
  {
    match instruction
    case STR(r) => IdRegisterId(r);
    case LOD(r) => IdRegisterId(r);
    case LDI(r, imm) => IdRegisterId(r);
    case MOV(from, to) => IdRegisterId(from); IdRegisterId(to);
    case _ =>
  }

  /**
   * Number literals are not range-checked: a literal of any size is
   * assembled as its low bits, the all-ones mask of the field's width
   * applied to it, for every opcode that takes one.
   */
  lemma LiteralsTruncated(register: Register, v: nat, blockIndex: nat, labels: LabelMap, arch: Isa.Architecture)
    ensures CompileInstruction(LDI, [RegisterLiteral(register), NumberLiteral(v)], blockIndex, labels, arch)
      == Assembled(Isa.LDI(RegisterToId(register), And(v, Max(arch.immediateBits))))
    ensures CompileInstruction(OUT, [NumberLiteral(v)], blockIndex, labels, arch)
      == Assembled(Isa.OUT(And(v, Max(arch.portBits))))
    ensures CompileInstruction(SEP, [NumberLiteral(v)], blockIndex, labels, arch)
      == Assembled(Isa.SEP(And(v, Max(arch.pinBits))))
    ensures CompileInstruction(RSP, [NumberLiteral(v)], blockIndex, labels, arch)
      == Assembled(Isa.RSP(And(v, Max(arch.pinBits))))
  {
    TruncateKeepsLowBits(v, arch.immediateBits);
    TruncateKeepsLowBits(v, arch.portBits);
    TruncateKeepsLowBits(v, arch.pinBits);
  }
}
