/**
 The body that replaces a mutated function: block 0 is the entry, block 1 selects the
 original copy, block 2 makes the call, and blocks 3 + 2i and 4 + 2i check the i-th
 covered mutant and select its clone. Each check falls through to the previous one.
 */
module Trampoline {
  import opened IR
  import opened Interpreter

  /** A covered mutation point as its trampoline sees it. */
  datatype Choice = Choice(key: string, clone: FnId)

  const SLOT: Reg := 0
  const FOUND: Reg := 1
  const ENABLED: Reg := 2
  const TARGET: Reg := 3
  const RESULT: Reg := 4

  const ORIGINAL_BLOCK: Label := 1
  const CALL_BLOCK: Label := 2

  /** The block at which dispatching over the first n choices starts. */
  function Head(n: nat): Label {
    if n == 0 then ORIGINAL_BLOCK else 2 * n + 1
  }

  function EntryBlock(n: nat): Block {
    Block([], [Alloca(SLOT)], Br(Head(n)))
  }

  function OriginalBlock(copy: Operand): Block {
    Block([], [Store(copy, SLOT)], Br(CALL_BLOCK))
  }

  function CallBlock(isVoid: bool, arity: nat): Block {
    Block([],
          [Load(TARGET, SLOT), Call(RESULT, Use(TARGET), seq(arity, i requires 0 <= i < arity => Arg(i)))],
          Ret(if isVoid then NoValue else Use(RESULT)))
  }

  function CheckBlock(key: string, head: Label, mutation: Label): Block {
    Block([], [GetEnv(FOUND, key), IsNotNull(ENABLED, Use(FOUND))], CondBr(Use(ENABLED), head, mutation))
  }

  function MutationBlock(clone: FnId): Block {
    Block([], [Store(FnRef(clone), SLOT)], Br(CALL_BLOCK))
  }

  function Checks(choices: seq<Choice>): (blocks: Body)
    ensures |blocks| == 2 * |choices|
  {
    if choices == [] then []
    else
      var n := |choices| - 1;
      Checks(choices[..n]) + [CheckBlock(choices[n].key, Head(n), 2 * n + 4), MutationBlock(choices[n].clone)]
  }

  function Build(isVoid: bool, arity: nat, copy: Operand, choices: seq<Choice>): Body {
    [EntryBlock(|choices|), OriginalBlock(copy), CallBlock(isVoid, arity)] + Checks(choices)
  }

  /** The function a trampoline calls: the clone of the last enabled choice, else the original copy. */
  function Dispatch(env: map<string, string>, copy: FnId, choices: seq<Choice>): FnId {
    if choices == [] then copy
    else
      var last := choices[|choices| - 1];
      if last.key in env then last.clone else Dispatch(env, copy, choices[..|choices| - 1])
  }

  /** How many blocks a run enters from Head(|choices|) up to and including the call block. */
  function PathLength(env: map<string, string>, choices: seq<Choice>): nat {
    if choices == [] then 2
    else if choices[|choices| - 1].key in env then 3
    else 1 + PathLength(env, choices[..|choices| - 1])
  }

  lemma {:induction false} PathLengthBound(env: map<string, string>, choices: seq<Choice>)
    ensures 2 <= PathLength(env, choices) <= |choices| + 2
  {
    if choices != [] {
      PathLengthBound(env, choices[..|choices| - 1]);
    }
  }

  /** The i-th choice is enabled and no later one is. */
  ghost predicate Wins(env: map<string, string>, choices: seq<Choice>, i: nat) {
    && i < |choices|
    && choices[i].key in env
    && forall j | i < j < |choices| :: choices[j].key !in env
  }

  /** Without enabled choices the original copy is called; otherwise the last enabled one wins. */
  lemma {:induction false} DispatchDefault(env: map<string, string>, copy: FnId, choices: seq<Choice>)
    requires forall i | 0 <= i < |choices| :: choices[i].key !in env
    ensures Dispatch(env, copy, choices) == copy
  {
    if choices != [] {
      DispatchDefault(env, copy, choices[..|choices| - 1]);
    }
  }

  lemma {:induction false} DispatchWinner(env: map<string, string>, copy: FnId, choices: seq<Choice>, i: nat)
    requires Wins(env, choices, i)
    ensures Dispatch(env, copy, choices) == choices[i].clone
  {
    var n := |choices| - 1;
    if i < n {
      assert choices[n].key !in env;
      DispatchWinner(env, copy, choices[..n], i);
    }
  }

  lemma {:induction false} ChecksAt(choices: seq<Choice>, i: nat)
    requires i < |choices|
    ensures Checks(choices)[2 * i] == CheckBlock(choices[i].key, Head(i), 2 * i + 4)
    ensures Checks(choices)[2 * i + 1] == MutationBlock(choices[i].clone)
  {
    var n := |choices| - 1;
    if i < n {
      ChecksAt(choices[..n], i);
    }
  }

  lemma {:induction false} ChecksStep(choices: seq<Choice>, c: Choice)
    ensures Checks(choices + [c])
         == Checks(choices) + [CheckBlock(c.key, Head(|choices|), 2 * |choices| + 4), MutationBlock(c.clone)]
  {
    var all := choices + [c];
    assert all[..|choices|] == choices;
  }

  /** Every edge of a trampoline leads to a block of smaller rank, so no run enters a block twice. */
  function Rank(choices: nat, l: Label): int {
    if l == 0 then 2 * choices + 3
    else if l == CALL_BLOCK then 0
    else if l == ORIGINAL_BLOCK then 1
    else if l % 2 == 1 then l
    else 1
  }

  function Targets(t: Terminator): set<Label> {
    match t
    case Br(l) => {l}
    case CondBr(_, f, t) => {f, t}
    case _ => {}
  }

  lemma BuildIsAcyclic(isVoid: bool, arity: nat, copy: Operand, choices: seq<Choice>, l: Label, t: Label)
    requires l < |Build(isVoid, arity, copy, choices)|
    requires t in Targets(Build(isVoid, arity, copy, choices)[l].term)
    ensures t < |Build(isVoid, arity, copy, choices)|
    ensures 0 <= Rank(|choices|, t) < Rank(|choices|, l)
  {
    if l >= 3 {
      ChecksAt(choices, (l - 3) / 2);
    }
  }

  /** What the call block does once the target is in the slot. */
  function CallTarget(m: Machine, p: seq<Function>, depth: nat, budget: nat, isVoid: bool, target: FnId,
                      args: seq<Value>, w: World): Outcome {
    Finish(isVoid, Invoke(m, p, depth, budget, target, args, w))
  }

  lemma RunCallBlock(m: Machine, p: seq<Function>, depth: nat, budget: nat, left: nat, isVoid: bool, arity: nat,
                     copy: Operand, choices: seq<Choice>,
                     from: Option<Label>, fr: Frame, w: World, target: FnId, args: seq<Value>)
    requires left > 0
    requires SLOT in fr.slots && fr.slots[SLOT] == Fn(target) && arity <= |fr.args| && fr.args[..arity] == args
    ensures RunBlock(m, p, depth, budget, left, Build(isVoid, arity, copy, choices), CALL_BLOCK, from, fr, w)
         == CallTarget(m, p, depth, budget, isVoid, target, args, w)
  {
    var block := CallBlock(isVoid, arity);
    assert Build(isVoid, arity, copy, choices)[CALL_BLOCK] == block;
    var fr1 := SetReg(fr, TARGET, Fn(target));
    assert EvalAll(block.code[1].args, fr1) == args;
    var rest := block.code[1..];
    assert rest[1..] == [];
    var o := Invoke(m, p, depth, budget, target, args, w);
    assert RunCode(m, p, depth, budget, rest, fr1, w) == FromCall(o, RESULT, fr1);
    assert Arrive(m, p, depth, budget, block, from, fr, w) == FromCall(o, RESULT, fr1);
  }

  lemma RunSelection(m: Machine, p: seq<Function>, depth: nat, budget: nat, left: nat, isVoid: bool, arity: nat,
                     copy: Operand, choices: seq<Choice>,
                     l: Label, from: Option<Label>, fr: Frame, w: World, target: FnId, args: seq<Value>)
    requires left > 0 && l < |Build(isVoid, arity, copy, choices)|
    requires Build(isVoid, arity, copy, choices)[l] == OriginalBlock(FnRef(target))
    requires SLOT in fr.slots && arity <= |fr.args| && fr.args[..arity] == args
    ensures RunBlock(m, p, depth, budget, left, Build(isVoid, arity, copy, choices), l, from, fr, w)
         == if left < 2 then OutOfFuel else CallTarget(m, p, depth, budget, isVoid, target, args, w)
  {
    var body := Build(isVoid, arity, copy, choices);
    var block := body[l];
    var fr1 := fr.(slots := fr.slots[SLOT := Fn(target)]);
    assert block.code[0] == Store(FnRef(target), SLOT) && block.code[1..] == [];
    assert RunCode(m, p, depth, budget, block.code[1..], fr1, w) == Running(fr1, w);
    assert Arrive(m, p, depth, budget, block, from, fr, w) == Running(fr1, w);
    if left >= 2 {
      RunCallBlock(m, p, depth, budget, left - 1, isVoid, arity, copy, choices, Some(l), fr1, w, target, args);
    }
  }

  /** One check: select the clone and call it, or go on to the previous choice. */
  lemma RunOneCheck(m: Machine, p: seq<Function>, depth: nat, budget: nat, left: nat, isVoid: bool, arity: nat,
                    copy: FnId, choices: seq<Choice>,
                    n: nat, from: Option<Label>, fr: Frame, w: World, args: seq<Value>) returns (fr2: Frame)
    requires 0 < n <= |choices| && left > 0
    requires SLOT in fr.slots && arity <= |fr.args| && fr.args[..arity] == args
    ensures fr2.args == fr.args && fr2.slots == fr.slots
    ensures RunBlock(m, p, depth, budget, left, Build(isVoid, arity, FnRef(copy), choices), Head(n), from, fr, w)
         == if choices[n - 1].key !in m.env
            then RunBlock(m, p, depth, budget, left - 1, Build(isVoid, arity, FnRef(copy), choices), Head(n - 1),
              Some(Head(n)), fr2, w)
            else if left < 3 then OutOfFuel
            else CallTarget(m, p, depth, budget, isVoid, choices[n - 1].clone, args, w)
  {
    var c := choices[n - 1];
    ChecksAt(choices, n - 1);
    var body := Build(isVoid, arity, FnRef(copy), choices);
    assert body[Head(n)] == CheckBlock(c.key, Head(n - 1), 2 * n + 2);
    fr2 := RunCheck(m, p, depth, budget, c.key, Head(n - 1), 2 * n + 2, from, fr, w);
    if c.key in m.env && left >= 2 {
      RunSelection(m, p, depth, budget, left - 1, isVoid, arity, FnRef(copy), choices, 2 * n + 2, Some(Head(n)), fr2,
        w, c.clone, args);
    }
  }

  /** From the head over the first n choices, a run ends in exactly one call, of the dispatched function. */
  lemma {:induction false} RunHead(m: Machine, p: seq<Function>, depth: nat, budget: nat, left: nat, isVoid: bool,
                                   arity: nat, copy: FnId, choices: seq<Choice>,
                                   n: nat, from: Option<Label>, fr: Frame, w: World, args: seq<Value>)
    requires n <= |choices|
    requires SLOT in fr.slots && arity <= |fr.args| && fr.args[..arity] == args
    ensures RunBlock(m, p, depth, budget, left, Build(isVoid, arity, FnRef(copy), choices), Head(n), from, fr, w)
         == if left < PathLength(m.env, choices[..n]) then OutOfFuel
            else CallTarget(m, p, depth, budget, isVoid, Dispatch(m.env, copy, choices[..n]), args, w)
    decreases n
  {
    PathLengthBound(m.env, choices[..n]);
    if left == 0 {
    } else if n == 0 {
      RunSelection(m, p, depth, budget, left, isVoid, arity, FnRef(copy), choices, ORIGINAL_BLOCK, from, fr, w, copy,
        args);
    } else {
      assert choices[..n][n - 1] == choices[n - 1] && choices[..n][..n - 1] == choices[..n - 1];
      var fr2 := RunOneCheck(m, p, depth, budget, left, isVoid, arity, copy, choices, n, from, fr, w, args);
      if choices[n - 1].key !in m.env {
        RunHead(m, p, depth, budget, left - 1, isVoid, arity, copy, choices, n - 1, Some(Head(n)), fr2, w, args);
      }
    }
  }

  lemma RunCheck(m: Machine, p: seq<Function>, depth: nat, budget: nat, key: string, head: Label, mutation: Label,
                 from: Option<Label>, fr: Frame, w: World) returns (fr2: Frame)
    ensures Arrive(m, p, depth, budget, CheckBlock(key, head, mutation), from, fr, w) == Running(fr2, w)
    ensures fr2.args == fr.args && fr2.slots == fr.slots
    ensures Eval(Use(ENABLED), fr2) == Int(if key in m.env then 1 else 0)
  {
    var block := CheckBlock(key, head, mutation);
    var fr1 := SetReg(fr, FOUND, if key in m.env then Text(m.env[key]) else Null);
    fr2 := SetReg(fr1, ENABLED, Int(if key in m.env then 1 else 0));
    assert block.code[1..] == [IsNotNull(ENABLED, Use(FOUND))];
    assert block.code[1..][1..] == [];
    assert RunCode(m, p, depth, budget, block.code[1..], fr1, w) == Running(fr2, w);
  }

  /**
   Running a trampoline from its entry is calling the dispatched function with the declared
   arguments, after entering one block per failed check and at most four others.
   */
  lemma RunTrampoline(m: Machine, p: seq<Function>, depth: nat, budget: nat, left: nat, isVoid: bool, arity: nat,
                      copy: FnId, choices: seq<Choice>,
                      w: World, args: seq<Value>)
    requires arity <= |args|
    ensures RunBlock(m, p, depth, budget, left, Build(isVoid, arity, FnRef(copy), choices), 0, None, Start(args), w)
         == if left < 1 + PathLength(m.env, choices) then OutOfFuel
            else CallTarget(m, p, depth, budget, isVoid, Dispatch(m.env, copy, choices), args[..arity], w)
  {
    PathLengthBound(m.env, choices);
    if left > 0 {
      var body := Build(isVoid, arity, FnRef(copy), choices);
      var fr1 := Start(args).(slots := map[SLOT := Undef]);
      assert body[0].code[0] == Alloca(SLOT) && body[0].code[1..] == [];
      assert RunCode(m, p, depth, budget, body[0].code[1..], fr1, w) == Running(fr1, w);
      assert Arrive(m, p, depth, budget, body[0], None, Start(args), w) == Running(fr1, w);
      assert choices[..|choices|] == choices;
      RunHead(m, p, depth, budget, left - 1, isVoid, arity, copy, choices, |choices|, Some(0), fr1, w, args[..arity]);
    }
  }
}
