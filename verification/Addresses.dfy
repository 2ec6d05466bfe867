/**
 lib/MutationPoint.cpp, MutationPointAddress: an instruction object is named by the positions of
 its function, its block and itself, so that the same address leads to its image in every clone.
 */
module Addresses {
  import opened Points
  import IR

  /** Instructions are told apart by identity alone. */
  class Instruction {
    constructor () {}
  }

  class BasicBlock {
    const instructions: seq<Instruction>

    constructor (instructions: seq<Instruction>)
      ensures this.instructions == instructions
    {
      this.instructions := instructions;
    }
  }

  class Function {
    const blocks: seq<BasicBlock>

    constructor (blocks: seq<BasicBlock>)
      ensures this.blocks == blocks
    {
      this.blocks := blocks;
    }
  }

  method GetIndex<T(==)>(container: seq<T>, value: T) returns (index: nat)
    ensures index <= |container| && forall j | 0 <= j < index :: container[j] != value
    ensures if value in container then index < |container| && container[index] == value else index == |container|
  {
    index := 0;
    while index < |container|
      invariant index <= |container| && forall j | 0 <= j < index :: container[j] != value
    {
      if container[index] == value {
        break;
      }
      index := index + 1;
    }
  }

  predicate Leads(f: Function, a: Address) {
    a.block < |f.blocks| && a.index < |f.blocks[a.block].instructions|
  }

  /** findInstruction(Function *) */
  function FindInFunction(f: Function, a: Address): Instruction
    requires Leads(f, a)
  {
    f.blocks[a.block].instructions[a.index]
  }

  /** findInstruction(Module *) */
  function FindInModule(functions: seq<Function>, fnIndex: nat, a: Address): Instruction
    requires fnIndex < |functions| && Leads(functions[fnIndex], a)
  {
    FindInFunction(functions[fnIndex], a)
  }

  /** `owner` and `block` are what the instruction's parent pointers lead to. */
  method AddressFromInstruction(functions: seq<Function>, owner: Function, block: BasicBlock, instruction: Instruction)
    returns (fnIndex: nat, a: Address)
    requires owner in functions && block in owner.blocks && instruction in block.instructions
    ensures fnIndex < |functions| && functions[fnIndex] == owner
    ensures Leads(owner, a) && FindInFunction(owner, a) == instruction
    ensures FindInModule(functions, fnIndex, a) == instruction
  {
    fnIndex := GetIndex(functions, owner);
    var bbIndex := GetIndex(owner.blocks, block);
    var iIndex := GetIndex(block.instructions, instruction);
    a := Address(bbIndex, iIndex);
  }

  /** The function object has the shape of the body, phis and terminators included. */
  ghost predicate Represents(f: Function, body: IR.Body) {
    |f.blocks| == |body| && forall b | 0 <= b < |body| :: |f.blocks[b].instructions| == InstructionCount(body[b])
  }

  /** Addresses of instructions are the addresses that points carry, in the function and in its clones. */
  lemma AddressesOfPoints(f: Function, clone: Function, image: map<Instruction, Instruction>, body: IR.Body, a: Address)
    requires Represents(f, body)
    ensures Leads(f, a) <==> a.block < |body| && a.index < InstructionCount(body[a.block])
    ensures IsClone(f, clone, image) ==> Represents(clone, body)
  {
    if IsClone(f, clone, image) {
      forall b | 0 <= b < |body| ensures |clone.blocks[b].instructions| == InstructionCount(body[b]) {
        assert IsBlockClone(f.blocks[b], clone.blocks[b], image);
      }
    }
  }

  /** No instruction is in two places. */
  ghost predicate Once(f: Function) {
    forall a, a' | Leads(f, a) && Leads(f, a') && FindInFunction(f, a) == FindInFunction(f, a') ::
      a.block == a'.block && a.index == a'.index
  }

  /** `image` is the value map that cloning fills. */
  ghost predicate IsClone(f: Function, clone: Function, image: map<Instruction, Instruction>) {
    && |clone.blocks| == |f.blocks|
    && forall b | 0 <= b < |f.blocks| :: IsBlockClone(f.blocks[b], clone.blocks[b], image)
  }

  ghost predicate IsBlockClone(block: BasicBlock, clone: BasicBlock, image: map<Instruction, Instruction>) {
    && |clone.instructions| == |block.instructions|
    && forall i | 0 <= i < |block.instructions| ::
         block.instructions[i] in image && clone.instructions[i] == image[block.instructions[i]]
  }

  ghost predicate Injective(image: map<Instruction, Instruction>) {
    forall i, j | i in image && j in image && image[i] == image[j] :: i == j
  }

  /** Adding to the value map does not change what it says already. */
  ghost predicate Extends(image: map<Instruction, Instruction>, before: map<Instruction, Instruction>) {
    forall i | i in before :: i in image && image[i] == before[i]
  }

  method CloneBlock(block: BasicBlock, before: map<Instruction, Instruction>)
    returns (clone: BasicBlock, image: map<Instruction, Instruction>)
    requires Injective(before)
    requires forall i | 0 <= i < |block.instructions| :: block.instructions[i] !in before
    requires forall i, j | 0 <= i < j < |block.instructions| :: block.instructions[i] != block.instructions[j]
    ensures IsBlockClone(block, clone, image) && Extends(image, before) && Injective(image)
    ensures forall i | i in image :: i in before || i in block.instructions
    ensures forall i | i in image && i !in before :: fresh(image[i])
  {
    image := before;
    var copies: seq<Instruction> := [];
    for k := 0 to |block.instructions|
      invariant |copies| == k && Extends(image, before) && Injective(image)
      invariant forall i | 0 <= i < k :: block.instructions[i] in image && copies[i] == image[block.instructions[i]]
      invariant forall i | i in image :: i in before || i in block.instructions[..k]
      invariant forall i | i in image && i !in before :: fresh(image[i])
    {
      var copy := new Instruction();
      image := image[block.instructions[k] := copy];
      copies := copies + [copy];
    }
    clone := new BasicBlock(copies);
  }

  /** The instructions of the first n blocks have images, and no others do. */
  ghost predicate ClonedUpTo(f: Function, copies: seq<BasicBlock>, image: map<Instruction, Instruction>, n: nat)
    requires n <= |f.blocks|
  {
    && |copies| == n && Injective(image)
    && (forall b | 0 <= b < n :: IsBlockClone(f.blocks[b], copies[b], image))
    && forall i | i in image :: exists b | 0 <= b < n :: i in f.blocks[b].instructions
  }

  lemma NextBlockIsNew(f: Function, copies: seq<BasicBlock>, image: map<Instruction, Instruction>, n: nat)
    requires Once(f) && n < |f.blocks| && ClonedUpTo(f, copies, image, n)
    ensures forall i | 0 <= i < |f.blocks[n].instructions| :: f.blocks[n].instructions[i] !in image
    ensures forall i, j | 0 <= i < j < |f.blocks[n].instructions| ::
            f.blocks[n].instructions[i] != f.blocks[n].instructions[j]
  {
    forall i | 0 <= i < |f.blocks[n].instructions| ensures f.blocks[n].instructions[i] !in image {
      forall b, k | 0 <= b < n && 0 <= k < |f.blocks[b].instructions|
        ensures f.blocks[b].instructions[k] != f.blocks[n].instructions[i]
      {
        assert Leads(f, Address(b, k)) && Leads(f, Address(n, i));
      }
    }
    forall i, j | 0 <= i < j < |f.blocks[n].instructions|
      ensures f.blocks[n].instructions[i] != f.blocks[n].instructions[j]
    {
      assert Leads(f, Address(n, i)) && Leads(f, Address(n, j));
    }
  }

  /** llvm::CloneFunction: new instructions in the same places. */
  method CloneFunction(f: Function) returns (clone: Function, image: map<Instruction, Instruction>)
    requires Once(f)
    ensures IsClone(f, clone, image) && Injective(image)
    ensures forall i | i in image :: fresh(image[i])
  {
    image := map[];
    var copies: seq<BasicBlock> := [];
    for n := 0 to |f.blocks|
      invariant ClonedUpTo(f, copies, image, n)
      invariant forall i | i in image :: fresh(image[i])
    {
      NextBlockIsNew(f, copies, image, n);
      ghost var before := image;
      var copy: BasicBlock;
      copy, image := CloneBlock(f.blocks[n], image);
      forall b | 0 <= b < n ensures IsBlockClone(f.blocks[b], copies[b], image) {
        assert IsBlockClone(f.blocks[b], copies[b], before);
      }
      copies := copies + [copy];
    }
    clone := new Function(copies);
  }

  /** In every clone the address leads to the image of the instruction it was taken from, and no other address does. */
  lemma AddressFindsImage(f: Function, clone: Function, image: map<Instruction, Instruction>, a: Address)
    requires Once(f) && IsClone(f, clone, image) && Injective(image) && Leads(f, a)
    ensures Leads(clone, a) && FindInFunction(f, a) in image && FindInFunction(clone, a) == image[FindInFunction(f, a)]
    ensures Once(clone)
  {}

  /** `content` says what the instructions of the function are. */
  ghost predicate Reads(f: Function, body: IR.Body, content: map<Instruction, Content>) {
    && Represents(f, body)
    && forall a | Leads(f, a) && Names(body, a) ::
         FindInFunction(f, a) in content && content[FindInFunction(f, a)] == ContentAt(body, a)
  }

  /**
   A trivial mutator, given the address taken from an instruction, rewrites in a clone the image of that
   instruction and leaves the images of all others.
   */
  lemma MutationRewritesImage(f: Function, clone: Function, image: map<Instruction, Instruction>, body: IR.Body,
                              content: map<Instruction, Content>, p: Point, x: Address)
    requires Once(f) && IsClone(f, clone, image) && Injective(image) && Reads(f, body, content)
    requires p.mutator.Trivial? && Leads(f, p.address) && Leads(f, x)
    ensures var mutant := Mutant(p, body);
            var i := FindInFunction(f, x);
            && Leads(clone, x) && Leads(clone, p.address) && Names(mutant, x)
            && i in content && i in image && FindInFunction(f, p.address) in image
            && ContentAt(mutant, x)
               == if FindInFunction(clone, x) == image[FindInFunction(f, p.address)] && content[i].Plain?
                  then Plain(p.mutator.rewrite(content[i].instr))
                  else content[i]
  {
    AddressesOfPoints(f, clone, image, body, x);
    AddressesOfPoints(f, clone, image, body, p.address);
    AddressFindsImage(f, clone, image, x);
    AddressFindsImage(f, clone, image, p.address);
    TrivialMutant(p, body, Mutant(p, body));
  }
}
