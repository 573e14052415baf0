# Dead-code elimination over a basic-block graph, in Dafny

This project models the middle end of a small compiler for a three-address
IR. It has three parts.

- **Instruction classification** (`IR`, from `IRInstruction.java`). An
  instruction is an opcode from a closed enum, a list of operands and a line
  number. Two predicates say whether it is a *definition* or *critical*.
  `getAssignedVariable` returns operand 0 when that operand is a variable.
- **Control-flow graph** (`Blocks`, `CfgShape`, `CfgBuild`, `ControlFlow`,
  from `BasicBlock.java` and `CFG.java`).
  - `createCFG` cuts the instruction list into basic blocks in one pass. A
    LABEL opens a block when the current one is non-empty. A GOTO or a
    conditional branch closes the block it ends.
  - `createBlockLinks` gives each block the successors its last instruction
    names. Each successor gets the block as a predecessor.
  - `CFGToIRFunction` concatenates the blocks back into one instruction list.
- **Dead-code elimination** (`Marking`, `DeadCodeElim`, from
  `DeadCode.java`). This is a worklist mark-and-sweep over a given
  reaching-definitions map.
  - Every critical instruction is marked and queued.
  - Each polled instruction marks and queues the not-yet-marked definitions
    that reach it and assign one of its variable operands. Operand 0 counts,
    as the code has it.
  - Each block then drops its unmarked instructions in place. The number
    dropped is counted.

The layout is an arena:

- An instruction is identified by its position in the function's
  instruction list.
- A block holds a sequence of those ids.
- Edges and label-map entries are block positions.
- The `marked` flag of every instruction is the set of marked ids, held by
  the eliminator.

`BasicBlock`, `CFG` and `DeadCode` are classes whose methods update their
fields in place. Each of their loops is proved against a value-level
description:

- `CfgBuild.Partition` / `CfgBuild.LabelMap` for the partition pass;
- `CfgShape.SuccTable` / `CfgShape.PredsFrom` for the links;
- `Marking.Closure` for marking;
- `Marking.Keep` / `Marking.KeepEach` for the sweep.

The lemmas in `CfgShape`, `CfgBuild` and `Marking` prove what those
descriptions promise.

Three behaviours of the code that are easy to misread, which the model
keeps as the code has them:

- An empty function yields **no** block. The label map still sends
  `"start"` to block 0.
- Propagation also reads operand 0 of an instruction, including the
  variable a definition assigns.
- A jump to a label that is missing from the map ends the Java code with a
  null dereference. The model returns an explicit `MissingLabel(name)`
  outcome.

## Model

| member | source | states |
|---|---|---|
| IR.AssignedVariable | materials/src/ir/IRInstruction.java:45-50 | returns Some exactly when there is an operand 0 and it is a variable operand, and then returns that operand |
| IR.DefCriticalCover | materials/src/ir/IRInstruction.java:53-65 | checkIfDef holds exactly for ASSIGN, ADD, SUB, MULT, DIV, AND, OR, CALLR and ARRAY_LOAD; checkIfCriticalInstr holds exactly for GOTO, the five branches, RETURN, CALLR, CALL, ARRAY_STORE and LABEL; every opcode is one of the two, and CALLR is the only one that is both |
| IR.Lower | materials/src/ir/IRInstruction.java:23 | lower-casing keeps the length and lower-cases each character |
| IR.ToStringIsLowerCase | materials/src/ir/IRInstruction.java:21-24 | an opcode's printed name is non-empty and holds no capital letter |
| IR.NameRoundTrip | materials/src/ir/IRInstruction.java:11-19 | every opcode is found again from its declared name, the enum's valueOf |
| IR.ToStringInjective | materials/src/ir/IRInstruction.java:11-24 | two opcodes with the same printed name are the same opcode |
| Blocks.BasicBlock.constructor | materials/src/ir/BasicBlock.java:9-17 | a new block has empty instruction, predecessor and successor lists, the given id and the empty label |
| Blocks.BasicBlock.SetInstructions | materials/src/ir/BasicBlock.java:23-25 | the getter then returns the list set, and no other field changes |
| Blocks.BasicBlock.SetPredecessors | materials/src/ir/BasicBlock.java:31-33 | the getter then returns the list set, and no other field changes |
| Blocks.BasicBlock.SetSuccessors | materials/src/ir/BasicBlock.java:39-41 | the getter then returns the list set, and no other field changes |
| Blocks.BasicBlock.SetLabel | materials/src/ir/BasicBlock.java:47-49 | getLabel then returns the label set, and no other field changes |
| Blocks.BasicBlock.SetBlockId | materials/src/ir/BasicBlock.java:55-57 | getBlockId then returns the id set, and no other field changes |
| Blocks.BasicBlock.Add | materials/src/ir/optimizer/CFG.java:58 | the id is appended at the end of the block's list, and nothing else changes |
| Blocks.BasicBlock.AddSuccessor | materials/src/ir/optimizer/CFG.java:82 | the block is appended to the successor list, and nothing else changes |
| Blocks.BasicBlock.AddPredecessor | materials/src/ir/optimizer/CFG.java:83 | the block is appended to the predecessor list, and nothing else changes |
| CfgShape.ControlFlowOpcodes | materials/src/ir/optimizer/CFG.java:105-118 | controlFlowCheck holds exactly for GOTO and the five branches (branchOpCheck); such an instruction is critical and no definition; RETURN does not close a block |
| CfgShape.StraightLineIsOneBlock | materials/src/ir/optimizer/CFG.java:47-67 | a non-empty function with no LABEL and no jump is partitioned into exactly one block holding every instruction |
| CfgShape.LabelMapPicksLast | materials/src/ir/optimizer/CFG.java:55-56 | a label name maps to the last block that opens with that LABEL: a later duplicate overwrites an earlier one |
| CfgShape.LabelMapInRange | materials/src/ir/optimizer/CFG.java:44-56 | every name in the label map sends a jump to a block of the list, once the list is non-empty |
| CfgShape.SuccsByTerminal | materials/src/ir/optimizer/CFG.java:78-95 | GOTO gives exactly [target]; a branch gives [target] and then the next block, if any; RETURN gives []; any other opcode gives the next block, if any; at most two successors, and two only after a branch |
| CfgShape.SuccsInRange | materials/src/ir/optimizer/CFG.java:80-95 | every successor is the position of a block of the list |
| CfgShape.SuccTableAt | materials/src/ir/optimizer/CFG.java:76-96 | row k of the successor table is block k's successor list |
| CfgShape.LinkFaultNone | materials/src/ir/optimizer/CFG.java:81-87 | linking meets no fault exactly when no GOTO or branch names a label missing from the map |
| CfgShape.EdgeSymmetry | materials/src/ir/optimizer/CFG.java:82-94 | a occurs in b's successor list exactly as often as b occurs in a's predecessor list |
| CfgBuild.RunInv | materials/src/ir/optimizer/CFG.java:47-64 | after each instruction the builder state satisfies the partial-partition invariant |
| CfgBuild.PartitionCorrect | materials/src/ir/optimizer/CFG.java:42-67 | the blocks read in order give back every id exactly once, in order; each block is non-empty with a jump only last and a LABEL only first; each neighbour boundary has a reason (a LABEL or a jump); the label map meets its specification |
| CfgBuild.PartitionShape | materials/src/ir/optimizer/CFG.java:42-67 | every block built is well shaped, and every label-map entry is a block position |
| CfgBuild.PartitionFlattens | materials/src/ir/optimizer/CFG.java:47-67 | concatenating the blocks gives back exactly the function's instruction list |
| CfgBuild.SuccsOf | materials/src/ir/optimizer/CFG.java:75-97 | there is one successor list per block built |
| ControlFlow.InstrLists | materials/src/ir/optimizer/CFG.java:131-132 | there is one instruction list per block, and list k is block k's live list |
| ControlFlow.CFG.constructor | materials/src/ir/optimizer/CFG.java:29-32 | a new graph has the given function, an empty block list and an empty label map |
| ControlFlow.CFG.CreateCFG | materials/src/ir/optimizer/CFG.java:42-69 | the block list and the map are exactly Partition and LabelMap; the blocks are distinct and fresh; block k has id k, holds ids of the function and is named by its LABEL ("start" for an unlabelled block 0); the outcome is MissingLabel exactly when a jump names a missing label; on success every block's successors and predecessors are those of the successor table |
| ControlFlow.CFG.CutBlocks | materials/src/ir/optimizer/CFG.java:43-67 | the partition pass yields exactly Partition and LabelMap, with valid, labelled, fresh blocks and no edges yet |
| ControlFlow.CFG.CutInstrs | materials/src/ir/optimizer/CFG.java:43-64 | after the loop the list, the open block and the map are the builder state after every instruction |
| ControlFlow.CFG.CutStep | materials/src/ir/optimizer/CFG.java:48-63 | one loop turn moves the list, the open block and the map exactly as one builder step |
| ControlFlow.CFG.OpenLabel | materials/src/ir/optimizer/CFG.java:49-58 | a LABEL closes a non-empty block, names the receiving block, registers the name in the map and joins that block |
| ControlFlow.CFG.NameBlock | materials/src/ir/optimizer/CFG.java:55-58 | the receiving block takes the LABEL's name and then the LABEL itself; the map gains that name for the block's position and nothing else changes |
| ControlFlow.CFG.CloseBlock | materials/src/ir/optimizer/CFG.java:60-62 | the block joins the list, the counter goes up by one, and a fresh empty block with the next id opens |
| ControlFlow.CFG.CloseLast | materials/src/ir/optimizer/CFG.java:65-67 | a non-empty last block joins the list, and an empty one does not; the list then holds exactly the flushed builder blocks, distinct, block k with id k, named by its LABEL, and with no edges yet |
| ControlFlow.CFG.CreateBlockLinks | materials/src/ir/optimizer/CFG.java:75-97 | fails exactly at a missing label, naming it; on success block k's successors are row k of the successor table and its predecessors every block with an edge to k, in block order |
| ControlFlow.CFG.LinkAll | materials/src/ir/optimizer/CFG.java:76-96 | the loop stops at the first faulty block, naming its label; otherwise every block is linked as the table says |
| ControlFlow.CFG.LinkBlock | materials/src/ir/optimizer/CFG.java:77-95 | one turn either reports the first fault from this block on or links this block fully |
| ControlFlow.CFG.BlockTargets | materials/src/ir/optimizer/CFG.java:78-95 | the targets the terminal instruction names, or the label missing from the map |
| ControlFlow.CFG.LinkTargets | materials/src/ir/optimizer/CFG.java:82-94 | after the inner loop this block's successors and every block's predecessors are those of one more block linked |
| ControlFlow.CFG.Link | materials/src/ir/optimizer/CFG.java:82-83 | one edge: one more successor of the source and one more predecessor of the target |
| ControlFlow.CFG.CFGToIRFunction | materials/src/ir/optimizer/CFG.java:126-144 | the result keeps the parent's name, return type, parameters and variables; its instructions are the current block contents concatenated in block order |
| ControlFlow.AppendInstrs | materials/src/ir/optimizer/CFG.java:132-133 | the block's instructions are appended in order |
| ControlFlow.Build | materials/src/ir/optimizer/CFG.java:29-34 | a new graph over the given function whose blocks and map are exactly Partition and LabelMap, block k carrying id k and named by its LABEL ("start" for an unlabelled block 0); it fails exactly at a missing label, naming it, and is otherwise linked as the successor table says |
| ControlFlow.RoundTrip | materials/src/ir/optimizer/CFG.java:126-144 | building the graph and flattening it straight back returns the function unchanged; it fails exactly at a missing label |
| Marking.RelevantIsDependence | materials/src/ir/optimizer/DeadCode.java:76-79 | for a variable operand of m, the filtered reaching definitions are exactly the definitions m needs through that variable |
| Marking.ClosureGrows | materials/src/ir/optimizer/DeadCode.java:73-89 | the closure holds its seeds |
| Marking.ClosureClosed | materials/src/ir/optimizer/DeadCode.java:73-89 | the closure is closed: every definition a member needs is a member |
| Marking.ClosureLeast | materials/src/ir/optimizer/DeadCode.java:73-89 | every closed set holding the seeds holds the closure |
| Marking.ClosureOfClosed | materials/src/ir/optimizer/DeadCode.java:73-89 | a closed set is its own closure |
| Marking.GrowWithin | materials/src/ir/optimizer/DeadCode.java:74-88 | marking a new id leaves fewer unmarked ids: the loop's termination measure drops |
| Marking.Keep | materials/src/ir/optimizer/DeadCode.java:98 | removeIf never lengthens the list |
| Marking.KeepElems | materials/src/ir/optimizer/DeadCode.java:98 | an id survives removeIf exactly when it was in the list and is marked |
| Marking.KeepIsSubseq | materials/src/ir/optimizer/DeadCode.java:98 | what survives is a subsequence of the list: nothing moves and nothing is added |
| Marking.KeepAppend | materials/src/ir/optimizer/DeadCode.java:98 | filtering a concatenation is concatenating the filtered parts |
| Marking.KeepAllMarked | materials/src/ir/optimizer/DeadCode.java:98 | a list whose ids are all marked is left unchanged |
| Marking.KeepAgain | materials/src/ir/optimizer/DeadCode.java:98 | filtering again, with the same or more marks, changes nothing |
| Marking.KeepDroppedCount | materials/src/ir/optimizer/DeadCode.java:97-100 | kept and dropped ids add up to the list's length, and the dropped ones are exactly the unmarked ones |
| Marking.KeepEachConcat | materials/src/ir/optimizer/DeadCode.java:96-101 | sweeping block by block and then flattening is filtering the flattened list |
| Marking.KeepEachAllMarked | materials/src/ir/optimizer/DeadCode.java:96-101 | blocks whose ids are all marked are left unchanged |
| DeadCodeElim.CriticalIds | materials/src/ir/optimizer/DeadCode.java:61 | an id is critical exactly when it is an instruction of the function with a critical opcode |
| DeadCodeElim.DeadCode.constructor | materials/src/ir/optimizer/DeadCode.java:28-33 | keeps the graph and the map, with an empty queue, a zero count and the instructions' current flags |
| DeadCodeElim.DeadCode.PerformDCE | materials/src/ir/optimizer/DeadCode.java:39-43 | the marks end between the seeds (the flags already set and the critical ids of the blocks) and their closure, and are exactly that closure when the flags already set were closed; every block keeps exactly its marked ids in order; the queue ends empty; the count returned is the old count plus the number of ids removed; the ids polled are the seeded queue and then the newly marked ids, so with no repeated id in the blocks each id is polled once |
| DeadCodeElim.DeadCode.Mark | materials/src/ir/optimizer/DeadCode.java:49-52 | the marks and the ids polled end as PerformDCE states, and the queue ends empty |
| DeadCodeElim.DeadCode.MarkCriticalInstr | materials/src/ir/optimizer/DeadCode.java:58-67 | the critical ids of the blocks, in block order, are appended to the queue and added to the marks: every critical instruction is marked |
| DeadCodeElim.DeadCode.MarkCriticalBlocks | materials/src/ir/optimizer/DeadCode.java:59-66 | the outer loop queues and marks the critical ids of every block in block order |
| DeadCodeElim.DeadCode.MarkCriticalInBlock | materials/src/ir/optimizer/DeadCode.java:60-65 | the inner loop queues and marks the critical ids of one block in order |
| DeadCodeElim.DeadCode.MarkWorklistReachingDefs | materials/src/ir/optimizer/DeadCode.java:73-89 | the queue is drained; the marks only grow and stay within the closure of the starting marks; everything marked or queued ends with all it needs marked; the ids polled are, as a multiset, the queue it found plus the ids it marked, so from a queue without repeats each id is polled once |
| DeadCodeElim.DeadCode.PollAndMark | materials/src/ir/optimizer/DeadCode.java:74-87 | one poll: what it marked is queued, the polled id has all it needs marked, the queue shrinks when nothing new was marked, and the queue plus the polled id is the old queue plus the new marks |
| DeadCodeElim.DeadCode.MarkOperandDefs | materials/src/ir/optimizer/DeadCode.java:76-87 | after the operand loop the instruction has every definition it needs marked; the queue keeps its prefix and gains exactly the newly marked ids |
| DeadCodeElim.DeadCode.MarkDefs | materials/src/ir/optimizer/DeadCode.java:80-85 | every defining instruction is marked; exactly the ones not marked before are queued, each once, and only when its flag flips |
| DeadCodeElim.DeadCode.FindReachingDefs | materials/src/ir/optimizer/DeadCode.java:112-122 | returns exactly the reaching ids that are definitions assigning the variable of that name |
| DeadCodeElim.DeadCode.Sweep | materials/src/ir/optimizer/DeadCode.java:95-102 | every block keeps exactly its marked ids in order and in place; the block list and every block's other fields are unchanged; the count grows by the number removed |
| DeadCodeElim.DeadCode.SweepBlocks | materials/src/ir/optimizer/DeadCode.java:96-101 | every block is swept, and the count grows by the ids removed across all blocks |
| DeadCodeElim.DeadCode.SweepBlock | materials/src/ir/optimizer/DeadCode.java:97-100 | block k alone is filtered, and the count grows by its original size minus its final size |
| DeadCodeElim.SweptAll | materials/src/ir/optimizer/DeadCode.java:96-101 | once every block is swept, each holds its filtered list and only ids of the function |
| DeadCodeElim.SweepStep | materials/src/ir/optimizer/DeadCode.java:100 | the count over k + 1 blocks is the count over k blocks plus block k's removals |
| DeadCodeElim.RemovedIsUnmarked | materials/src/ir/optimizer/DeadCode.java:96-100 | the count is the number of ids dropped, and the dropped ids are exactly the unmarked ones |
| DeadCodeElim.SweepAgainRemovesNothing | materials/src/ir/optimizer/DeadCode.java:95-102 | sweeping a swept graph again with the same or more marks changes nothing and removes 0 |
| DeadCodeElim.CriticalQueueOfFunction | materials/src/ir/optimizer/DeadCode.java:58-67 | over a whole function the ids seeded are all of its critical ids |
| DeadCodeElim.FreshSeed | materials/src/ir/IRInstruction.java:41 | starting from unmarked instructions, the marks reached are the closure of the critical ids |
| DeadCodeElim.PolledOnce | materials/src/ir/optimizer/DeadCode.java:81-84 | a queue without repeats, all marked, followed only by newly marked ids: each id is polled once, those of the queue and the new marks |
| DeadCodeElim.KeepRangeNoRepeats | materials/src/ir/optimizer/DeadCode.java:59-64 | the critical ids of a function queued in order repeat no id |
| DeadCodeElim.PolledOncePerInstruction | materials/src/ir/optimizer/DeadCode.java:62-63 | when the whole function is seeded in order, each critical id and each newly marked id is polled exactly once, so there are at most as many polls as instructions |
| DeadCodeElim.Eliminate | materials/src/Main.java:18-19 | one eliminator over the graph: the marks only grow; they are the closure of the flags and the critical ids when the flags were closed; each block keeps its marked ids; the count is the number of unmarked ids; over a graph covering the function in order, each critical or newly marked instruction is polled exactly once and no more polls happen than there are instructions |
| DeadCodeElim.CriticalSurvive | materials/src/ir/optimizer/DeadCode.java:61-62 | no instruction with a critical opcode is ever swept from a function |
| DeadCodeElim.Optimize | materials/src/Main.java:16-20 | build, eliminate over fresh instructions and flatten; the result fails exactly at a missing label, keeps the function's header, holds in original order exactly the instructions in the closure of the critical ones, among them every critical instruction, and the count is the number removed |
| DeadCodeElim.EliminateAndFlatten | materials/src/Main.java:18-20 | on a graph covering the function in order, the flattened result is the closure of the critical instructions in original order |
| DeadCodeElim.EliminateTwice | materials/src/ir/optimizer/DeadCode.java:39-43 | a second elimination over the same graph, with the flags the first one left, removes 0 instructions, whatever reaching definitions it is given |

## Left out

- The driver's I/O is left out: reading and printing the program, and the
  command-line arguments (materials/src/Main.java:12-14, 22-23).
  `DeadCodeElim.Optimize` models the per-function body of its loop.
- The reaching-definitions analysis (`Reaching`) is not part of this model.
  Its result is an input map from an instruction id to the ids of the
  definitions that reach it.
- `DeadCodeElim.DeadCode.PerformDCE` and the members that call it or that
  it calls require `ReachOk`, and this requirement is stronger than the
  Java code needs. `ReachOk` asks for a map entry for every instruction, and
  a variable operand 0 for every definition any entry lists. The Java code
  reads the entry only of an instruction it polls that has a variable
  operand (materials/src/ir/optimizer/DeadCode.java:76-79, 113). It reads
  the assigned variable only of a definition in such an entry
  (materials/src/ir/optimizer/DeadCode.java:115-117). A missing entry for
  an instruction that is never polled, for example a dead
  `add t, a, b`, runs fine in Java, but the model does not cover it. An
  entry the Java code does read, when missing, ends it with a null-pointer
  exception. The model has no error path for that case.
- `WellFormedCode` is a precondition, not an error path. A LABEL without
  operand 0, or a jump whose operand 0 is not a label, ends the Java code
  with an exception.
- The `println` of the count in `performDCE` is left out. The count is
  returned instead.
- `removedInstrCount` is an unbounded integer. The Java `int` could wrap,
  but only beyond 2^31 removed instructions.
- Java object identity, the instructions' `marked` field, and the
  `HashMap`/`HashSet` iteration order are not modelled. Instructions are ids
  and the flags are the set `DeadCode.marked`.
  - Instead, `DeadCodeElim.DeadCode.constructor` takes the flags the
    instructions already carry. They are empty for instructions just read,
    which is what `IRInstruction`'s constructor leaves.
  - A set is visited in an order the model does not fix, so the queue order
    is stated as a multiset.
- `DeadCodeElim.DeadCode.PerformDCE` gives the exact closure only when the
  flags already set are closed (none set, or those an earlier run left).
  With arbitrary prior flags it gives bounds.
- The collection of variables that `CFGToIRFunction` computes
  (materials/src/ir/optimizer/CFG.java:128-140) is not modelled. The
  returned function never uses it.
- The `IRInstruction` constructor is the datatype constructor `IR.Instr`,
  which stores the opcode, operands and line number.
- The `IRFunction` and operand classes are not part of this model. They
  are the datatypes `IR.IRFunction` and `IR.Operand`, compared by name.
- A label operand's printed form is taken to be its name.
- `IR.Lower` models `toLowerCase` under a locale that lower-cases the ASCII
  capitals to ASCII (such as `Locale.ROOT` or English). Java's `toLowerCase()`
  uses the JVM's default locale. Under Turkish or Azeri, `I` becomes
  the dotless `ı`, so `ASSIGN` would print as `assıgn`. Only the printed
  opcode name depends on this.
- Some Java methods are split into nested helper methods (one per loop, or
  per loop body), each with its own contract, named in the table above:
  `createCFG`, `createBlockLinks`, `markCriticalInstr`,
  `markWorklistReachingDefs` and `sweep`.
- The getters (`GetInstructions`, `GetPredecessors`, `GetSuccessors`,
  `GetLabel`, `GetBlockId`, `GetLastInstruction`, `CFG.GetBlocks`) are
  functions that return the field, or its last element, so they carry no
  contract of their own. `getInstructions` returns
  the live list, and `Sweep` filters that list in place.
