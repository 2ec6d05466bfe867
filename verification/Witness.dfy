/** A module and a machine on which the whole-program theorem says something. */
module Witness {
  import opened IR
  import opened Interpreter
  import opened Modules
  import opened Points
  import opened Schemata
  import opened Simulation
  import opened WholeProgram

  const Load: nat := 0
  const Copy: nat := 1
  const Keep: nat := 2

  /** Loads from an address, passes its operand on, or stores its second operand at the first one's address. */
  function MemoryOp(opcode: nat, args: seq<Value>, w: World): OpResult {
    if args == [] then Failed
    else if opcode == Copy then Done(args[0], w)
    else if !args[0].Int? then Failed
    else if opcode == Keep && |args| == 2 then Done(Void, w.(memory := w.memory[args[0].n := args[1]]))
    else if opcode == Load && args[0].n in w.memory then Done(w.memory[args[0].n], w)
    else Failed
  }

  function MemoryMachine(env: map<string, string>): Machine {
    Machine(env, MemoryOp, (name: string, args: seq<Value>, w: World) => MemoryOp(|name|, args, w))
  }

  lemma MemoryMachineIsSafe(n: nat, env: map<string, string>)
    ensures SafeMachine(n, MemoryMachine(env))
  {}

  /** The first function calls the second one through a pointer read back from memory. */
  function CallThroughMemory(): seq<Function> {
    [Function("f", 0, false, false, false,
              [Block([], [Op(0, Load, [Const(0)]), Call(1, Use(0), [])], Ret(Use(1)))]),
     Function("g", 0, false, false, false, [Block([], [], Ret(Const(7)))])]
  }

  function PointerInMemory(): World {
    World(map[0 := Fn(1), 1 := Null], [])
  }

  /** The first point loads from another address, the second one uses the address as the value. */
  function ReadNext(i: Instr): Instr {
    if i.Op? then Op(i.dst, i.opcode, [Const(1)]) else i
  }

  function ReadNothing(i: Instr): Instr {
    if i.Op? then Op(i.dst, Copy, i.args) else i
  }

  function LoadPoint(id: string, rewrite: Instr -> Instr): Point {
    Point(Trivial(id, rewrite), 0, Address(0, 0), "f.c", 1, 1, 1, 2, true, Identifier(id, "f.c", 1, 1))
  }

  function TwoPoints(): Plan {
    Plan([0], map[0 := [LoadPoint("a", ReadNext), LoadPoint("b", ReadNothing)]])
  }

  function TwoJobs(): seq<Job> {
    [Job(TwoPoints().At(0)[0], 2), Job(TwoPoints().At(0)[1], 3)]
  }

  ghost predicate IsWitness(src: seq<Function>, plan: Plan, jobs: seq<Job>) {
    src == CallThroughMemory() && plan == TwoPoints() && jobs == TwoJobs()
  }

  lemma WitnessPlanIsValid(src: seq<Function>, plan: Plan, jobs: seq<Job>)
    requires IsWitness(src, plan, jobs)
    ensures ValidPlan(src, plan)
  {
    assert forall f, p | f in plan.points && p in plan.points[f] ::
      f == 0 && (p == plan.At(0)[0] || p == plan.At(0)[1]);
  }

  lemma WitnessIsTransformable(src: seq<Function>, plan: Plan, jobs: seq<Job>)
    requires IsWitness(src, plan, jobs) && ValidPlan(src, plan)
    ensures Transformable(src, plan)
  {
    assert SafeBlock(2, src[0].body[0]);
    assert !Taken(src, OriginalName("f")) by {
      assert |OriginalName("f")| == 15;
    }
  }

  lemma WitnessJobs(src: seq<Function>, plan: Plan, jobs: seq<Job>)
    requires IsWitness(src, plan, jobs) && ValidPlan(src, plan)
    ensures ValidJobs(src, plan, jobs)
  {
    var points := plan.At(0);
    assert CloneAll(src, plan, 0) == src && CloneGroup(src, 0, points, 0) == src;
    assert CloneGroup(src, 0, points, 1) == src + [Cloned(src, 0, points[0].userIdentifier, true)];
    assert JobFor(src, plan, jobs[0], 0, 0) && JobFor(src, plan, jobs[1], 0, 1);
    assert DistinctClones(jobs);
  }

  /** The body of the first function when its instruction is `load`. */
  function Caller(load: Instr): Body {
    [Block([], [load, Call(1, Use(0), [])], Ret(Use(1)))]
  }

  predicate Enabled(env: map<string, string>, plan: Plan, j: nat)
    requires |plan.order| > 0 && j < |plan.At(0)|
  {
    plan.At(0)[j].userIdentifier in env
  }

  function Selected(env: map<string, string>, plan: Plan): Instr
    requires |plan.order| > 0 && |plan.At(0)| == 2
  {
    if Enabled(env, plan, 1) then Op(0, Copy, [Const(0)])
    else Op(0, Load, [Const(if Enabled(env, plan, 0) then 1 else 0)])
  }

  lemma WitnessReference(src: seq<Function>, plan: Plan, jobs: seq<Job>, env: map<string, string>)
    requires IsWitness(src, plan, jobs)
    ensures Reference(env, src, plan) == [src[0].(body := Caller(Selected(env, plan))), src[1]]
  {
    var points, code := plan.At(0), src[0].body[0].code;
    assert code[0 := ReadNext(code[0])] == [Op(0, Load, [Const(1)]), code[1]];
    assert code[0 := ReadNothing(code[0])] == [Op(0, Copy, [Const(0)]), code[1]];
    assert Mutant(points[0], src[0].body) == Caller(Op(0, Load, [Const(1)]));
    assert Mutant(points[1], src[0].body) == Caller(Op(0, Copy, [Const(0)]));
    assert LastEnabled(env, points, 2)
        == if Enabled(env, plan, 1) then Some(1) else if Enabled(env, plan, 0) then Some(0) else None;
    assert plan.Of(0) == points && plan.Of(1) == [];
  }

  /** The call through the value v that the instruction yields. */
  lemma CallerRuns(m: Machine, p: seq<Function>, load: Instr, w: World, v: Value)
    requires p == [CallThroughMemory()[0].(body := Caller(load)), CallThroughMemory()[1]]
    requires !load.Call? && Simple(m, load, Start([]), w) == Running(SetReg(Start([]), 0, v), w)
    requires v == Fn(1) || !v.Fn?
    ensures Invoke(m, p, 2, 1, 0, [], w) == if v == Fn(1) then Returned(Int(7), w) else Crashed
  {
    var call, fr := Call(1, Use(0), []), SetReg(Start([]), 0, v);
    var r := if v == Fn(1) then Running(SetReg(fr, 1, Int(7)), w) else Halted(Crashed);
    assert RunCode(m, p, 1, 1, [call], fr, w) == r by {
      assert [call][1..] == [] && EvalAll([], fr) == [] && Eval(call.callee, fr) == v;
      assert Arrive(m, p, 0, 1, p[1].body[0], None, Start([]), w) == Running(Start([]), w);
      assert Invoke(m, p, 1, 1, 1, [], w) == Returned(Int(7), w);
      assert RunCode(m, p, 1, 1, [], SetReg(fr, 1, Int(7)), w).Running?;
    }
    assert [load, call][1..] == [call];
    assert Arrive(m, p, 1, 1, p[0].body[0], None, Start([]), w) == r;
  }

  lemma ReferenceRuns(src: seq<Function>, plan: Plan, jobs: seq<Job>, env: map<string, string>)
    requires IsWitness(src, plan, jobs)
    ensures Invoke(MemoryMachine(env), Reference(env, src, plan), 2, 1, 0, [], PointerInMemory())
         == if Enabled(env, plan, 0) || Enabled(env, plan, 1) then Crashed else Returned(Int(7), PointerInMemory())
  {
    WitnessReference(src, plan, jobs, env);
    var load := Selected(env, plan);
    var v := if Enabled(env, plan, 1) then Int(0) else if Enabled(env, plan, 0) then Null else Fn(1);
    assert EvalAll(load.args, Start([])) == [Int(if Enabled(env, plan, 0) && !Enabled(env, plan, 1) then 1 else 0)];
    CallerRuns(MemoryMachine(env), Reference(env, src, plan), load, PointerInMemory(), v);
  }

  /**
   All hypotheses of the whole-program theorem are met at once, and it says that the instrumented program
   follows the pointer, or fails to if either point is enabled.
   */
  lemma FollowsThePointer(src: seq<Function>, plan: Plan, jobs: seq<Job>, env: map<string, string>)
    requires IsWitness(src, plan, jobs)
    ensures Transformable(src, plan) && ValidJobs(src, plan, jobs)
    ensures |src| == 2 && SafeMachine(2, MemoryMachine(env)) && SafeArgs(2, []) && SafeWorld(2, PointerInMemory())
    ensures Ends(MemoryMachine(env), Instrumented(src, plan, jobs), 0, [], PointerInMemory(),
                 if Enabled(env, plan, 0) || Enabled(env, plan, 1) then Crashed
                 else Returned(Int(7), PointerInMemory()))
  {
    WitnessPlanIsValid(src, plan, jobs);
    WitnessIsTransformable(src, plan, jobs);
    WitnessJobs(src, plan, jobs);
    MemoryMachineIsSafe(2, env);
    ReferenceRuns(src, plan, jobs, env);
    WholeProgramCorrect(MemoryMachine(env), src, plan, jobs, 0, [], PointerInMemory(),
                        if Enabled(env, plan, 0) || Enabled(env, plan, 1) then Crashed
                        else Returned(Int(7), PointerInMemory()));
  }
}
