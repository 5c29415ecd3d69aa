# Assembler backend and splitter device, in Dafny

This project models two parts of a small 8-bit computer toolchain.

**The assembler backend** (`assembler/src/backend.rs`) turns the parser's flat
sequence of top-level nodes into program bytes in two passes.

- Pass 1, `build_label_map`, gives every label the address and page of the
  next instruction. Addresses count instructions modulo `2^PC_BITS`; pages
  are the quotient. Pass 1 reports a duplicate label and any node that is
  neither a label nor an instruction.
- Pass 2, `compile`, checks each instruction's arguments against the one
  shape its opcode accepts and resolves `BRN` label references through the
  label map. If nothing failed, it encodes every instruction.
- Both passes collect every error, each tagged with its node index, rather
  than stopping at the first.
- The opcodes the backend does not implement (`INC`, `DEC`, `INP`, `ADD`,
  `SUB`, `BOR`, `AND`, `CMP`, `GRT`, `LES`) abort the compilation. The model
  records that as an `Aborted(index)` outcome at the first such node.

**The splitter device** (`emulator/src/device/connectable/splitter.rs`) joins
one wide store of `N + M` bits with a low store of `N` bits and a high store
of `M` bits. Stores are shared mutable cells, each stamped with the tick of
its last write. On every tick the splitter reconciles the low side and then
the high side, each in favour of the more recently written store. Its low and
high ends are views through which the narrow stores are exposed and rewired.

Files:

- `fixed_width.dfy` (module `FixedWidth`): the `U<N>` operations on
  unbounded naturals, i.e. truncation, shifts, and bitwise and/or. It also
  proves what the splitter's masks amount to arithmetically.
- `isa.dfy` (module `Isa`): the instruction set the backend produces.
- `backend.dfy` (module `Backend`): nodes, errors, `RegisterToId`,
  `CompileInstruction`, and reference definitions of both passes. The two
  passes themselves are loops, `BuildLabelMap` and `Compile`, proved equal to
  those definitions.
- `backend_properties.dfy` (module `BackendProperties`): what the passes
  guarantee, i.e. which errors appear, in what order, where each label
  points, and where each instruction's byte lands.
- `store.dfy` (module `DeviceStore`): the stamped store cell.
- `splitter_spec.dfy` (module `SplitterSpec`): one tick as a function on the
  three stores' values and stamps, with its properties.
- `splitter.dfy` (module `SplitterDevice`): the `Splitter`, `LowEnd` and
  `HighEnd` classes over shared `Store` objects.

Where the splitter's documented intent and its code differ, the model follows
the code:

- The high side compares against the combined store's stamp *after* the low
  side may have rewritten it, not against a snapshot taken before the tick.
  So a high value written after the combined store's last write is still
  overwritten when the low side drives the combined store in the same tick
  (`SplitterSpec.NewerHighOverwritten`).
- A second tick at the same time changes no value
  (`SplitterSpec.ReconcileIdempotent`), but it can still restamp the combined
  store (`SplitterSpec.SecondTickMayRestamp`). So "a second tick leaves the
  stores unchanged" holds for values only.

## Model

| member | source | states |
|---|---|---|
| Backend.RegisterToId | assembler/src/backend.rs:227-234 | A, X, Y, Z get ids 0 to 3, each fitting the 2-bit register field; the id determines the register (`IdToRegister` recovers it), so no two registers share an id |
| BackendProperties.IdRegisterId | assembler/src/backend.rs:227-234 | every 2-bit id is the id of exactly one register (the other half of the bijection) |
| Backend.CompileInstruction | assembler/src/backend.rs:104-225 | the abort (`todo!()`) happens exactly for the opcodes without a shape. An assembled instruction has the requested opcode, fields of their architectural widths, and arguments of the opcode's shape. A rejection carries the node's index, and it is `BadInstructionArguments` exactly when the arguments do not fit the shape. The only other rejection is `BadLabelReference` on `BRN` |
| BackendProperties.OperandsRoundTrip | assembler/src/backend.rs:120-174 | for every non-branch instruction whose fields fit, compiling the operands it is written with gives back that instruction; `MOV` lists the destination first and the source second |
| BackendProperties.LiteralsTruncated | assembler/src/backend.rs:136-174 | a number literal of any size is accepted without a range check and assembled as its low bits (the literal and-ed with the all-ones value of the field width) in `LDI`, `OUT`, `SEP` and `RSP` |
| BackendProperties.BranchResolution | assembler/src/backend.rs:182-203 | `BRN` to a label that is nowhere in the block is `BadLabelReference` at that node. Otherwise it branches to the chosen half (address or page) of the label's first definition, truncated to the immediate width |
| Backend.PositionOf | assembler/src/backend.rs:69-79 | a label position is (count mod `2^PC_BITS`, count div `2^PC_BITS`): the address is below the page size, and page times page size plus address gives back the instruction count |
| Backend.InstructionCount | assembler/src/backend.rs:88 | the number of instructions before a point never exceeds the number of nodes |
| Backend.Gather | assembler/src/backend.rs:35-51 | a pass reports no more errors than there are nodes (that each node is reported at most once, at its own index, is `GatherMembers` and `GatherOrdered`) |
| Backend.BuildLabelMap | assembler/src/backend.rs:62-101 | pass 1 returns the label map when it found no error, and otherwise every error it found; map and errors equal the reference definitions `LabelMapOf` and `LabelErrors` |
| Backend.LabelMapDomain | assembler/src/backend.rs:73-88 | a name is in the label map exactly when the block contains a label of that name |
| BackendProperties.LabelMapFirstDefinition | assembler/src/backend.rs:73-88 | the first label of a name maps to the position of the number of instructions before it; later duplicates do not move it |
| BackendProperties.LabelErrorsExact | assembler/src/backend.rs:70-101 | pass 1 reports `DuplicateLabel` at a label exactly when an earlier label has the same name, and `UnexpectedNodeKind` exactly at the nodes that are neither labels nor instructions. It reports nothing else, in node order |
| BackendProperties.GatherMembers | assembler/src/backend.rs:35-51 | a collected error is exactly a node whose verdict is that error's kind, tagged with that node's index |
| BackendProperties.GatherOrdered | assembler/src/backend.rs:35-51 | collected errors are in strictly increasing node order |
| BackendProperties.GatherEmpty | assembler/src/backend.rs:55-59 | no error is collected exactly when no node failed |
| Backend.Compile | assembler/src/backend.rs:29-60 | the full compilation equals the reference `CompileSpec`, as follows. Pass 1's errors are returned as they are. Otherwise the first unimplemented opcode aborts. Otherwise the pass 2 errors are returned if there are any, and else every instruction is encoded in order |
| BackendProperties.CompileSucceedsIff | assembler/src/backend.rs:29-60 | compilation produces bytes exactly when pass 1 found no error and every node either assembles or is a label |
| BackendProperties.ProgramLayout | assembler/src/backend.rs:35-59 | on success there is one byte per instruction node. The instruction at node i lands at the index equal to the number of instructions before it, and is that node's assembled instruction, encoded |
| BackendProperties.PassTwoErrorsExact | assembler/src/backend.rs:35-59 | when pass 2 fails, it reports a non-empty list. The list holds exactly the failing nodes' errors, each at its own index, in node order |
| BackendProperties.StepErrorIndex | assembler/src/backend.rs:35-51 | every pass 2 error names the index of the node that caused it |
| BackendProperties.FirstAbortExact | assembler/src/backend.rs:35-42 | the abort is reported at the first unimplemented instruction in the block, and only if there is one |
| BackendProperties.EmittedLayout | assembler/src/backend.rs:39-41 | pass 2 emits one instruction per instruction node, in node order, at the index equal to the number of instructions before it |
| FixedWidth.Truncate | emulator/src/device/connectable/splitter.rs:55 | `change_bits` gives a value of the target width, and leaves a value that already fits unchanged; which bits it keeps for a wider value is `TruncateKeepsLowBits` |
| FixedWidth.TruncateKeepsLowBits | emulator/src/device/connectable/splitter.rs:55 | truncation to a width keeps exactly the low bits: it equals and-ing with the all-ones value of the width, and the dropped part is the value's multiple of `2^width` |
| FixedWidth.ShlMaxIsHighMask | emulator/src/device/connectable/splitter.rs:57 | `U::max() << N` at width N + M is the mask of the bits above N |
| FixedWidth.AndHighMask | emulator/src/device/connectable/splitter.rs:57 | and-ing with the mask of the bits above N clears exactly the low N bits |
| FixedWidth.ShrMaxIsLowMask | emulator/src/device/connectable/splitter.rs:64 | `U::max() >> M` at width N + M is the mask of the low N bits |
| FixedWidth.AndLowMask | emulator/src/device/connectable/splitter.rs:64 | and-ing with the mask of the low N bits keeps exactly the value mod `2^N` |
| FixedWidth.OrDisjoint | emulator/src/device/connectable/splitter.rs:58 | or-ing a value with cleared low N bits and a value below `2^N` is their sum |
| FixedWidth.OrBelow | emulator/src/device/connectable/splitter.rs:58 | or-ing two values of a width stays within that width |
| SplitterSpec.KeepHighTakeLow | emulator/src/device/connectable/splitter.rs:57-58 | the low side's merge keeps the combined value's bits above N and puts the low value in the low N bits, within N + M bits |
| SplitterSpec.KeepLowTakeHigh | emulator/src/device/connectable/splitter.rs:63-66 | the high side's merge keeps the combined value's low N bits and puts the high value above them, within N + M bits |
| SplitterSpec.LowSideMeaning | emulator/src/device/connectable/splitter.rs:54-59 | if combined is strictly newer than low, low becomes combined's low N bits stamped with the tick. Otherwise (a tie included) combined takes low as its low N bits, keeps its high bits and is stamped with the tick. Every value stays within its width |
| SplitterSpec.HighSideMeaning | emulator/src/device/connectable/splitter.rs:61-67 | if combined is strictly newer than high, high becomes combined's bits above N stamped with the tick. Otherwise (a tie included) combined takes high as its bits above N, keeps its low bits and is stamped with the tick |
| SplitterSpec.ReconcileCases | emulator/src/device/connectable/splitter.rs:49-68 | the full table of one tick, by which stamps are newer, giving every store's value and stamp afterwards |
| SplitterSpec.ReconcileAgrees | emulator/src/device/connectable/splitter.rs:49-68 | after any tick the low store holds the combined value's low N bits and the high store its bits above N |
| SplitterSpec.ReconcileKeepsAgreement | emulator/src/device/connectable/splitter.rs:49-68 | when the stores already agree, a tick changes no value |
| SplitterSpec.ReconcileIdempotent | emulator/src/device/connectable/splitter.rs:49-68 | a second tick at the same time changes no value |
| SplitterSpec.SecondTickMayRestamp | emulator/src/device/connectable/splitter.rs:54-67 | a second tick can still change a stamp: the combined store keeps its stamp on the first tick and is restamped on the second |
| SplitterSpec.NewerHighOverwritten | emulator/src/device/connectable/splitter.rs:54-61 | the high side reads the combined stamp the low side just wrote. A high value newer than the combined store is overwritten when low drives combined in the same tick |
| SplitterDevice.Splitter.constructor | emulator/src/device/connectable/splitter.rs:26-32 | a new splitter has three fresh, different stores of widths N + M, N and M, all holding 0 and never written, and so agreeing |
| SplitterDevice.Splitter.Tick | emulator/src/device/connectable/splitter.rs:49-68 | the new values and stamps of the three stores are exactly one `Reconcile` step of the old ones. The narrow stores then hold the combined value's low and high bits, and every store keeps its width |
| SplitterDevice.Splitter.GetValueRef | emulator/src/device/connectable/splitter.rs:77-79 | the splitter exposes its wide store itself, not a copy |
| SplitterDevice.Splitter.ConnectTo | emulator/src/device/connectable/splitter.rs:81-83 | the wide side now shares the other connectable's store; the narrow stores and every store's content are unchanged |
| SplitterDevice.Splitter.AsLowEnd | emulator/src/device/connectable/splitter.rs:34-36 | the low end is a view of this very splitter |
| SplitterDevice.Splitter.AsHighEnd | emulator/src/device/connectable/splitter.rs:38-40 | the high end is a view of this very splitter |
| SplitterDevice.LowEnd.GetValueRef | emulator/src/device/connectable/splitter.rs:98-100 | the low end exposes the splitter's low store itself |
| SplitterDevice.LowEnd.ConnectTo | emulator/src/device/connectable/splitter.rs:102-104 | the splitter's low side now shares the other store; its wide and high stores stay |
| SplitterDevice.HighEnd.GetValueRef | emulator/src/device/connectable/splitter.rs:119-121 | the high end exposes the splitter's high store itself |
| SplitterDevice.HighEnd.ConnectTo | emulator/src/device/connectable/splitter.rs:123-125 | the splitter's high side now shares the other store; its wide and low stores stay |
| SplitterDevice.ConnectThenWrite | emulator/src/device/connectable/splitter.rs:77-83 | connecting shares rather than copies: after one splitter connects to another's wide store, a write through the second is what the first reads |

## Left out

- The instruction encoder: `encode_instruction`'s bit layout lives in the `common` crate and is not part of this model. `Compile` takes the encoder as a function parameter.
- `Isa.Architecture.immediateBits` is one width shared by the `LDI` and `BRN` immediates. The widths are fixed in `common::instruction`, which is not part of this model, so treating the two immediates as equally wide is an assumption of the model.
- `PC_BITS` and the operand widths of the `common` architecture are parameters (`Isa.Architecture`), not constants.
- The lexer and parser that build the node sequence are not part of this model. The node kinds are the ones the backend matches on.
- The `println!` of the assembled instructions in `compile` is I/O and is left out.
- `Backend.BuildLabelMap`: the instruction count is an unbounded natural, so the `u32` overflow after `2^32` instructions is not modelled.
- `Backend.Compile`: the `todo!()` panic is modelled as the `Aborted` outcome, not as a crash of the process.
- `DeviceStore.Store`: `emulator/src/device/store.rs` is not part of this model. The store is described only by the `get`, `get_store_tick` and `set` that the splitter uses, and a new store's stamp is taken to be 0.
- `SplitterDevice.Splitter.Tick`: requires the three stores to be different cells. When two of them are the same cell, the source panics on the second `borrow_mut`, and the model does not represent that panic.
- `SplitterDevice.Splitter.Tick`: the tick is an unbounded natural. The splitter only compares and stores ticks, so `u32` ticks are a special case.
- The `connect_to` methods take the store that the other connectable's `get_value_ref` returns, rather than the connectable itself. The `Connectable` and `Device` traits, device pins and ports, and the simulation loop in `emulator/src/main.rs` are not part of this model.
- Reference counting (`Rc`) and run-time borrow checking (`RefCell`) are modelled as plain shared object references.
