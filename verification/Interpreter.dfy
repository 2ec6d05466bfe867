/**
 What a module means. `Invoke` runs one function; `depth` bounds the nesting of calls
 and `budget` bounds how many blocks one invocation may enter, so that running out of
 either is told apart from every real outcome.
 */
module Interpreter {
  import opened IR

  datatype Value = Int(n: int) | Text(s: string) | Fn(id: FnId) | Null | Void | Undef

  datatype World = World(memory: map<int, Value>, output: seq<int>)

  datatype Outcome = Returned(value: Value, world: World) | Crashed | OutOfFuel

  datatype OpResult = Done(value: Value, world: World) | Failed

  /** The environment is a constant of the machine: a run cannot change it. */
  datatype Machine = Machine(
    env: map<string, string>,
    op: (nat, seq<Value>, World) -> OpResult,
    external: (string, seq<Value>, World) -> OpResult)

  datatype Frame = Frame(args: seq<Value>, regs: map<Reg, Value>, slots: map<Reg, Value>)

  /** Either still inside the current block, or the invocation is over. */
  datatype Progress = Running(frame: Frame, world: World) | Halted(outcome: Outcome)

  function Eval(o: Operand, fr: Frame): Value {
    match o
    case Const(n) => Int(n)
    case NullPtr => Null
    case NoValue => Void
    case Arg(i) => if i < |fr.args| then fr.args[i] else Undef
    case Use(r) => if r in fr.regs then fr.regs[r] else Undef
    case FnRef(f) => Fn(f)
  }

  function EvalAll(os: seq<Operand>, fr: Frame): seq<Value> {
    seq(|os|, i requires 0 <= i < |os| => Eval(os[i], fr))
  }

  /** Position of the first entry for `block`, as PHINode::getBasicBlockIndex finds it. */
  function EntryFor(incoming: seq<Incoming>, block: Label): Option<nat> {
    if incoming == [] then None
    else if incoming[0].block == block then Some(0)
    else match EntryFor(incoming[1..], block)
      case None => None
      case Some(i) => Some(i + 1)
  }

  lemma EntryForFacts(incoming: seq<Incoming>, block: Label)
    ensures EntryFor(incoming, block).Some? ==>
              && EntryFor(incoming, block).value < |incoming|
              && incoming[EntryFor(incoming, block).value].block == block
    ensures EntryFor(incoming, block).None? <==> forall e | e in incoming :: e.block != block
  {
    if incoming != [] {
      EntryForFacts(incoming[1..], block);
      assert forall e :: e in incoming <==> e == incoming[0] || e in incoming[1..];
    }
  }

  function PhiOperand(phi: Phi, from: Label): Option<Operand> {
    EntryForFacts(phi.incoming, from);
    match EntryFor(phi.incoming, from)
    case None => None
    case Some(i) => Some(phi.incoming[i].value)
  }

  /** All phis of a block read the registers as they were before the block was entered. */
  function EnterPhis(phis: seq<Phi>, from: Option<Label>, before: Frame, fr: Frame): Option<Frame> {
    if phis == [] then Some(fr)
    else if from.None? then None
    else match PhiOperand(phis[0], from.value)
      case None => None
      case Some(o) =>
        EnterPhis(phis[1..], from, before, fr.(regs := fr.regs[phis[0].dst := Eval(o, before)]))
  }

  function SetReg(fr: Frame, r: Reg, v: Value): Frame {
    fr.(regs := fr.regs[r := v])
  }

  function FromOp(r: OpResult, dst: Reg, fr: Frame): Progress {
    match r
    case Done(v, w) => Running(SetReg(fr, dst, v), w)
    case Failed => Halted(Crashed)
  }

  /** Every instruction but a call. */
  function Simple(m: Machine, i: Instr, fr: Frame, w: World): Progress
    requires !i.Call?
  {
    match i
    case Op(dst, opcode, args) => FromOp(m.op(opcode, EvalAll(args, fr), w), dst, fr)
    case GetEnv(dst, key) =>
      Running(SetReg(fr, dst, if key in m.env then Text(m.env[key]) else Null), w)
    case IsNotNull(dst, value) => Running(SetReg(fr, dst, Int(if Eval(value, fr) == Null then 0 else 1)), w)
    case Alloca(slot) => Running(fr.(slots := fr.slots[slot := Undef]), w)
    case Store(value, slot) =>
      if slot in fr.slots then Running(fr.(slots := fr.slots[slot := Eval(value, fr)]), w) else Halted(Crashed)
    case Load(dst, slot) =>
      if slot in fr.slots then Running(SetReg(fr, dst, fr.slots[slot]), w) else Halted(Crashed)
  }

  function FromCall(o: Outcome, dst: Reg, fr: Frame): Progress {
    match o
    case Returned(v, w) => Running(SetReg(fr, dst, v), w)
    case _ => Halted(o)
  }

  /** A void function returns no value. */
  function Finish(isVoid: bool, o: Outcome): Outcome {
    if o.Returned? && isVoid then o.(value := Void) else o
  }

  predicate Accepts(f: Function, args: seq<Value>) {
    if f.variadic then |args| >= f.arity else |args| == f.arity
  }

  function Start(args: seq<Value>): Frame {
    Frame(args, map[], map[])
  }

  function Invoke(m: Machine, p: seq<Function>, depth: nat, budget: nat, f: FnId, args: seq<Value>, w: World): Outcome
    decreases depth, 0, 0
  {
    if depth == 0 then OutOfFuel
    else if f >= |p| || !Accepts(p[f], args) then Crashed
    else if p[f].body == [] then
      match m.external(p[f].name, args, w)
      case Done(v, w') => Finish(p[f].isVoid, Returned(v, w'))
      case Failed => Crashed
    else Finish(p[f].isVoid, RunBlock(m, p, depth - 1, budget, budget, p[f].body, 0, None, Start(args), w))
  }

  function RunCode(m: Machine, p: seq<Function>, depth: nat, budget: nat, code: seq<Instr>, fr: Frame,
                   w: World): Progress
    decreases depth, 0, 1 + |code|
  {
    if code == [] then Running(fr, w)
    else
      var step :=
        if !code[0].Call? then Simple(m, code[0], fr, w)
        else
          var callee := Eval(code[0].callee, fr);
          if !callee.Fn? then Halted(Crashed)
          else FromCall(Invoke(m, p, depth, budget, callee.id, EvalAll(code[0].args, fr), w), code[0].dst, fr);
      match step
      case Running(fr', w') => RunCode(m, p, depth, budget, code[1..], fr', w')
      case Halted(_) => step
  }

  /** The phis and the instructions of a block, up to its terminator. */
  function Arrive(m: Machine, p: seq<Function>, depth: nat, budget: nat, block: Block, from: Option<Label>, fr: Frame,
                  w: World): Progress
    decreases depth, 1, 0
  {
    match EnterPhis(block.phis, from, fr, fr)
    case None => Halted(Crashed)
    case Some(fr') => RunCode(m, p, depth, budget, block.code, fr', w)
  }

  function RunBlock(m: Machine, p: seq<Function>, depth: nat, budget: nat, left: nat, body: Body, cur: Label,
                    from: Option<Label>, fr: Frame, w: World): Outcome
    decreases depth, 2 + left, 0
  {
    if left == 0 then OutOfFuel
    else if cur >= |body| then Crashed
    else
      match Arrive(m, p, depth, budget, body[cur], from, fr, w)
      case Halted(o) => o
      case Running(fr', w') =>
        match body[cur].term
        case Ret(v) => Returned(Eval(v, fr'), w')
        case Unreachable => Crashed
        case Br(t) => RunBlock(m, p, depth, budget, left - 1, body, t, Some(cur), fr', w')
        case CondBr(c, ifFalse, ifTrue) =>
          var v := Eval(c, fr');
          if !v.Int? then Crashed
          else RunBlock(m, p, depth, budget, left - 1, body, if v.n != 0 then ifTrue else ifFalse, Some(cur), fr', w')
  }
}
