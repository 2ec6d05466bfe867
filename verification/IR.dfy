/**
 The small intermediate representation that the instrumentation and the logical
 mutators work on. A module is a list of functions, a function a list of basic
 blocks, a block its phi nodes, its other instructions and one terminator. A
 function, a block and an instruction are identified by their positions, which is
 how a mutation point's address names them.
 */
module IR {
  datatype Option<+T> = None | Some(value: T)

  type Reg = nat
  type Label = nat
  type FnId = nat

  datatype Operand =
    | Const(n: int)
    | NullPtr
    | NoValue
    | Arg(index: nat)
    | Use(reg: Reg)
    | FnRef(fn: FnId)

  /** One entry of a phi node: the value to take when control comes from `block`. */
  datatype Incoming = Incoming(value: Operand, block: Label)

  datatype Phi = Phi(dst: Reg, incoming: seq<Incoming>)

  /**
   `Op` stands for every instruction whose meaning the instrumentation does not look
   at; `GetEnv`, `IsNotNull`, `Alloca`, `Store` and `Load` are the ones trampolines use.
   */
  datatype Instr =
    | Op(dst: Reg, opcode: nat, args: seq<Operand>)
    | Call(dst: Reg, callee: Operand, args: seq<Operand>)
    | GetEnv(dst: Reg, key: string)
    | IsNotNull(dst: Reg, value: Operand)
    | Alloca(slot: Reg)
    | Store(value: Operand, slot: Reg)
    | Load(dst: Reg, slot: Reg)

  /** Operands of a conditional branch are in LLVM's order: condition, false target, true target. */
  datatype Terminator =
    | Br(target: Label)
    | CondBr(cond: Operand, ifFalse: Label, ifTrue: Label)
    | Ret(value: Operand)
    | Unreachable

  datatype Block = Block(phis: seq<Phi>, code: seq<Instr>, term: Terminator)

  type Body = seq<Block>

  /** A function without blocks is a declaration of a function defined elsewhere. */
  datatype Function = Function(name: string, arity: nat, variadic: bool, isVoid: bool, internal: bool, body: Body)

  predicate SafeOperand(n: nat, o: Operand) {
    o.FnRef? ==> o.fn < n
  }

  predicate SafeOperands(n: nat, os: seq<Operand>) {
    forall o | o in os :: SafeOperand(n, o)
  }

  predicate SafePhi(n: nat, phi: Phi) {
    forall e | e in phi.incoming :: SafeOperand(n, e.value)
  }

  predicate SafeInstr(n: nat, i: Instr) {
    match i
    case Op(_, _, args) => SafeOperands(n, args)
    case Call(_, callee, args) => SafeOperand(n, callee) && SafeOperands(n, args)
    case IsNotNull(_, value) => SafeOperand(n, value)
    case Store(value, _) => SafeOperand(n, value)
    case _ => true
  }

  predicate SafeCode(n: nat, code: seq<Instr>) {
    forall i | i in code :: SafeInstr(n, i)
  }

  predicate SafeTerm(n: nat, t: Terminator) {
    match t
    case CondBr(cond, _, _) => SafeOperand(n, cond)
    case Ret(value) => SafeOperand(n, value)
    case _ => true
  }

  predicate SafeBlock(n: nat, b: Block) {
    && (forall phi | phi in b.phis :: SafePhi(n, phi))
    && SafeCode(n, b.code)
    && SafeTerm(n, b.term)
  }

  /** The body mentions only the first n functions of its module. */
  predicate SafeBody(n: nat, body: Body) {
    forall b | b in body :: SafeBlock(n, b)
  }
}
