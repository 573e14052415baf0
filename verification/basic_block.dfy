/**
 * A basic block (materials/src/ir/BasicBlock.java): a run of instruction
 * ids in program order, the indices of its predecessor and successor
 * blocks, a label and a block id. All five fields are updated in place.
 *
 * Instructions are ids into the owning function's instruction list, and
 * neighbours are positions in the owning CFG's block list, so the fields
 * are value sequences that the methods reassign. The `instructions` field
 * is the live list: whoever writes it changes the block.
 */
module Blocks {

  class BasicBlock {
    var instructions: seq<nat>
    var predecessors: seq<nat>
    var successors: seq<nat>
    var labelName: string
    var blockId: int

    /** A new block: no instructions, no neighbours, the given id, the empty label. */
    constructor (blockId: int)
      ensures instructions == [] && predecessors == [] && successors == []
      ensures this.blockId == blockId && labelName == ""
    {
      instructions := [];
      predecessors := [];
      successors := [];
      labelName := "";
      this.blockId := blockId;
    }

    function GetInstructions(): seq<nat>
      reads this
    {
      instructions
    }

    method SetInstructions(instructions: seq<nat>)
      modifies this`instructions
      ensures GetInstructions() == instructions
    {
      this.instructions := instructions;
    }

    function GetPredecessors(): seq<nat>
      reads this
    {
      predecessors
    }

    method SetPredecessors(predecessors: seq<nat>)
      modifies this`predecessors
      ensures GetPredecessors() == predecessors
    {
      this.predecessors := predecessors;
    }

    function GetSuccessors(): seq<nat>
      reads this
    {
      successors
    }

    method SetSuccessors(successors: seq<nat>)
      modifies this`successors
      ensures GetSuccessors() == successors
    {
      this.successors := successors;
    }

    function GetLabel(): string
      reads this
    {
      labelName
    }

    method SetLabel(name: string)
      modifies this`labelName
      ensures GetLabel() == name
    {
      labelName := name;
    }

    function GetBlockId(): int
      reads this
    {
      blockId
    }

    method SetBlockId(blockId: int)
      modifies this`blockId
      ensures GetBlockId() == blockId
    {
      this.blockId := blockId;
    }

    // Helpers the CFG builder calls on a block.

    predicate IsEmpty()
      reads this
    {
      |instructions| == 0
    }

    /** Appends one instruction id at the end of the block. */
    method Add(instr: nat)
      modifies this`instructions
      ensures instructions == old(instructions) + [instr]
    {
      instructions := instructions + [instr];
    }

    /** The block's final instruction id; only asked of a non-empty block. */
    function GetLastInstruction(): nat
      reads this
      requires !IsEmpty()
    {
      instructions[|instructions| - 1]
    }

    method AddSuccessor(block: nat)
      modifies this`successors
      ensures successors == old(successors) + [block]
    {
      successors := successors + [block];
    }

    method AddPredecessor(block: nat)
      modifies this`predecessors
      ensures predecessors == old(predecessors) + [block]
    {
      predecessors := predecessors + [block];
    }
  }
}
