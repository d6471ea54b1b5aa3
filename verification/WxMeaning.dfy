/**
  What regions mean, on three small ones with all literals: which way a branch goes, when
  a guard leaves and with what, and what a runtime call is given and gives back.
 */
module WxMeaning {
  import opened Wrappers
  import opened WxIr
  import opened WxSemantics
  import opened WxOptimizer
  import opened WxVerifier
  import opened WxSoundness
  import opened WxMachine
  import opened WxLaws
  import opened WxFolding

  const WIDE: WxType := Scalar(I64)

  // The value of an integer literal.
  function Wide(i: Int64): Val {
    Val(WIDE, if i < 0 then i + 0x1_0000_0000_0000_0000 else i)
  }

  // Three literals: a truth value and two integers.
  function Literals(c: bool, a: Int64, b: Int64): seq<Inst> {
    [LiteralInst(0, BOOL, BoolConst(c)), LiteralInst(1, WIDE, IntConst(a)), LiteralInst(2, WIDE, IntConst(b))]
  }

  function AfterLiterals(c: bool, a: Int64, b: Int64): Env<Val> {
    map[0 := Val(BOOL, Bit(c)), 1 := Wide(a), 2 := Wide(b)]
  }

  lemma WideBits(i: Int64)
    ensures Val(WIDE, ConstantBits(IntConst(i), WIDE)) == Wide(i)
  {
  }

  lemma WideLiteral(m: Machine, exits: seq<SideExit>, id: ValueId, i: Int64, env: Env<Val>)
    ensures RunInst(MachineAlgebra(m), exits, LiteralInst(id, WIDE, IntConst(i)), env, []) == Fall(env[id := Wide(i)], [])
  {
    LiteralRuns(m, exits, id, WIDE, IntConst(i), env, []);
    WideBits(i);
  }

  lemma LiteralsRun(m: Machine, exits: seq<SideExit>, c: bool, a: Int64, b: Int64)
    ensures RunInsts(MachineAlgebra(m), exits, Literals(c, a, b), map[], []) == Fall(AfterLiterals(c, a, b), [])
  {
    var env1: Env<Val> := map[0 := Val(BOOL, Bit(c))];
    var env2 := env1[1 := Wide(a)];
    LiteralRuns(m, exits, 0, BOOL, BoolConst(c), map[], []);
    hide RunInst, RunInsts, MachineAlgebra, Wide, LiteralInst;
    assert map[][0 := Val(BOOL, Bit(c))] == env1;
    WideLiteral(m, exits, 1, a, env1);
    WideLiteral(m, exits, 2, b, env2);
    RunThree(MachineAlgebra(m), exits, Literals(c, a, b), map[], env1, env2, env2[2 := Wide(b)], []);
    assert env2[2 := Wide(b)] == AfterLiterals(c, a, b);
  }

  // A literal as what an id holds.
  lemma ReadOne(env: Env<Val>, id: ValueId, tys: seq<WxType>, m: Machine)
    requires id in env && tys == [env[id].ty]
    ensures ReadTyped(MachineAlgebra(m), env, [id], tys) == Some([env[id]])
  {
    assert ReadAll(env, [id]).value == [env[id]];
  }

  lemma ReadBoth(env: Env<Val>, m: Machine)
    requires 1 in env && 2 in env && env[1].ty == env[2].ty == WIDE
    ensures ReadTyped(MachineAlgebra(m), env, [1, 2], [WIDE, WIDE]) == Some([env[1], env[2]])
  {
    assert ReadAll(env, [1, 2]).value == [env[1], env[2]];
  }

  // ------------------------------------------------------------------------ branches

  // Hands one of its literals to the next block, which returns it.
  function Choice(c: bool, a: Int64, b: Int64): Function {
    Function(
      0, [],
      [Block(0, [], Literals(c, a, b), Branch(0, Target(1, [1]), Target(1, [2]))),
       Block(1, [Typed(3, WIDE)], [], Return([3]))],
      [WIDE], [])
  }

  lemma ChoiceBranches(m: Machine, c: bool, a: Int64, b: Int64)
    ensures RunTerminator(MachineAlgebra(m), Choice(c, a, b), Choice(c, a, b).blocks[0].terminator, AfterLiterals(c, a, b), [])
         == Goto(1, [Wide(if c then a else b)], [])
  {
    var f, env := Choice(c, a, b), AfterLiterals(c, a, b);
    SecondBlock(c, a, b);
    ReadOne(env, 1, [WIDE], m);
    ReadOne(env, 2, [WIDE], m);
    hide Choice, FindBlock, ReadTyped, Wide;
    assert Edge(MachineAlgebra(m), f, Target(1, [1]), env) == Some([Wide(a)]);
    assert Edge(MachineAlgebra(m), f, Target(1, [2]), env) == Some([Wide(b)]);
    assert MachineAlgebra(m).fires(env[0], ExitWhenTrue) == Some(c);
    assert f.blocks[0].terminator == Branch(0, Target(1, [1]), Target(1, [2]));
  }

  lemma SecondBlock(c: bool, a: Int64, b: Int64)
    ensures var f := Choice(c, a, b);
      && FindBlock(f.blocks, 0) == Some(f.blocks[0]) && FindBlock(f.blocks, 1) == Some(f.blocks[1])
      && Types(f.blocks[1].parameters) == [WIDE] && Ids(f.blocks[1].parameters) == [3]
      && f.blocks[0].terminator == Branch(0, Target(1, [1]), Target(1, [2]))
  {
    var f := Choice(c, a, b);
    assert f.blocks[1..][0] == f.blocks[1];
  }

  lemma ChoiceStarts(m: Machine, c: bool, a: Int64, b: Int64)
    ensures Visit(MachineAlgebra(m), Choice(c, a, b), 0, [], []) == Goto(1, [Wide(if c then a else b)], [])
  {
    ChoiceBranches(m, c, a, b);
    LiteralsRun(m, [], c, a, b);
    assert EntryEnv<Val>([], []) == map[];
    SecondBlock(c, a, b);
    hide RunTerminator, RunInsts, MachineAlgebra, Literals, AfterLiterals, Wide, FindBlock;
  }

  lemma ChoiceEnds(m: Machine, c: bool, a: Int64, b: Int64, v: Val)
    requires v.ty == WIDE
    ensures Visit(MachineAlgebra(m), Choice(c, a, b), 1, [v], []) == Returned([v], [])
  {
    SecondBlock(c, a, b);
    var env: Env<Val> := map[3 := v];
    assert Bind<Val>(map[], [3], [v]) == env;
    ReadOne(env, 3, [WIDE], m);
    hide MachineAlgebra, Literals, FindBlock, ReadTyped, Bind;
    assert RunInsts(MachineAlgebra(m), [], [], env, []) == Fall(env, []);
  }

  lemma ChoiceReturns(m: Machine, c: bool, a: Int64, b: Int64)
    ensures Run(MachineAlgebra(m), Choice(c, a, b), 0, [], [], 2) == Ended(Returned([Wide(if c then a else b)], []))
  {
    ChoiceStarts(m, c, a, b);
    ChoiceEnds(m, c, a, b, Wide(if c then a else b));
    hide Visit, MachineAlgebra, Choice, Wide;
    var step := Visits(MachineAlgebra(m), Choice(c, a, b));
    assert Walk(step, 1, [Wide(if c then a else b)], [], 1) == Ended(step(1, [Wide(if c then a else b)], []));
  }

  // -------------------------------------------------------------------------- guards

  // Leaves with both literals in registers, or returns the first.
  function Guarded(c: bool, mode: GuardMode, a: Int64, b: Int64, pc: nat, x: Register, y: Register): Function {
    Function(
      0, [],
      [Block(0, [], Literals(c, a, b) + [Inst([], Guard(0, 7, mode))], Return([1]))],
      [WIDE], [SideExit(7, Deopt, pc, [StateValue(x, 1, WIDE), StateValue(y, 2, WIDE)])])
  }

  // What a firing guard hands over.
  function Resumed(a: Int64, b: Int64, pc: nat, x: Register, y: Register): Resume<Val> {
    Resume(7, Deopt, pc, [x, y], [Wide(a), Wide(b)])
  }

  lemma GuardDelivers(m: Machine, c: bool, mode: GuardMode, a: Int64, b: Int64, pc: nat, x: Register, y: Register)
    ensures Deliver(MachineAlgebra(m), Guarded(c, mode, a, b, pc, x, y).sideExits, 7, true, AfterLiterals(c, a, b))
         == Some(Resumed(a, b, pc, x, y))
  {
    var state := [StateValue(x, 1, WIDE), StateValue(y, 2, WIDE)];
    assert StateValues(state) == [1, 2] && StateTypes(state) == [WIDE, WIDE] && StateRegisters(state) == [x, y];
    ReadBoth(AfterLiterals(c, a, b), m);
    hide MachineAlgebra, Literals, ReadTyped, StateValues, StateTypes, StateRegisters;
  }

  lemma GuardRuns(m: Machine, c: bool, mode: GuardMode, a: Int64, b: Int64, pc: nat, x: Register, y: Register)
    ensures var f, env := Guarded(c, mode, a, b, pc, x, y), AfterLiterals(c, a, b);
      RunInst(MachineAlgebra(m), f.sideExits, Inst([], Guard(0, 7, mode)), env, [])
      == if c == (mode == ExitWhenTrue) then Leave(Resumed(a, b, pc, x, y), []) else Fall(env, [])
  {
    var env := AfterLiterals(c, a, b);
    GuardDelivers(m, c, mode, a, b, pc, x, y);
    assert MachineAlgebra(m).fires(env[0], mode) == Some(c == (mode == ExitWhenTrue));
    hide Deliver, MachineAlgebra, Guarded, Wide;
  }

  lemma GuardedLeaves(m: Machine, c: bool, mode: GuardMode, a: Int64, b: Int64, pc: nat, x: Register, y: Register)
    ensures Run(MachineAlgebra(m), Guarded(c, mode, a, b, pc, x, y), 0, [], [], 1) ==
      Ended(if c == (mode == ExitWhenTrue) then Left(Resumed(a, b, pc, x, y), []) else Returned([Wide(a)], []))
  {
    var f, alg, env := Guarded(c, mode, a, b, pc, x, y), MachineAlgebra(m), AfterLiterals(c, a, b);
    var guard := Inst([], Guard(0, 7, mode));
    LiteralsRun(m, f.sideExits, c, a, b);
    GuardRuns(m, c, mode, a, b, pc, x, y);
    ReadOne(env, 1, [WIDE], m);
    assert RunTerminator(alg, f, Return([1]), env, []) == Returned([Wide(a)], []);
    assert EntryEnv<Val>([], []) == map[];
    hide RunInst, RunTerminator, MachineAlgebra, Literals, AfterLiterals, Wide, Resumed, ReadTyped;
    RunAppend(alg, f.sideExits, Literals(c, a, b), guard, map[], []);
    assert f.blocks[0].instructions == Literals(c, a, b) + [guard];
    assert FindBlock(f.blocks, 0) == Some(f.blocks[0]);
    assert Visit(alg, f, 0, [], []) == if c == (mode == ExitWhenTrue) then Left(Resumed(a, b, pc, x, y), []) else Returned([Wide(a)], []);
  }

  // --------------------------------------------------------------------------- calls

  // Calls with both literals and returns the answer.
  function Calling(a: Int64, b: Int64, pc: nat, x: Register, y: Register, z: Register): Function {
    Function(
      0, [],
      [Block(0, [], Literals(true, a, b) + [Inst([Typed(3, WIDE)], RuntimeCall(pc, [RuntimeInput(x, 1, WIDE), RuntimeInput(y, 2, WIDE)], Some(z)))],
             Return([3]))],
      [WIDE], [])
  }

  lemma CallRuns(m: Machine, a: Int64, b: Int64, pc: nat, x: Register, y: Register, z: Register)
    ensures var call, env, calls := Calling(a, b, pc, x, y, z).blocks[0].instructions[3], AfterLiterals(true, a, b), [Call(pc, [x, y], [Wide(a), Wide(b)])];
      RunInst(MachineAlgebra(m), [], call, env, []) ==
        if m.fails(calls) then Abort(calls) else Fall(env[3 := Val(WIDE, m.answer(calls, 0))], calls)
  {
    var env, calls := AfterLiterals(true, a, b), [Call(pc, [x, y], [Wide(a), Wide(b)])];
    var inputs := [RuntimeInput(x, 1, WIDE), RuntimeInput(y, 2, WIDE)];
    assert InputValues(inputs) == [1, 2] && InputTypes(inputs) == [WIDE, WIDE];
    assert seq(|inputs|, i requires 0 <= i < |inputs| => inputs[i].register) == [x, y];
    assert [] + calls == calls;
    var results := [Typed(3, WIDE)];
    assert Types(results) == [WIDE] && Ids(results) == [3];
    ReadBoth(env, m);
    var answer := Val(WIDE, m.answer(calls, 0));
    AnswerOf(m, calls);
    assert Bind(env, [3], [answer]) == env[3 := answer];
    hide MachineAlgebra, ReadTyped, Bind, InputValues, InputTypes, Literals, Types, Ids;
    assert Calling(a, b, pc, x, y, z).blocks[0].instructions[3] == Inst(results, RuntimeCall(pc, inputs, Some(z)));
  }

  lemma AnswerOf(m: Machine, calls: seq<Call<Val>>)
    ensures MachineAlgebra(m).call(calls, [WIDE]) == if m.fails(calls) then Failed else Done([Val(WIDE, m.answer(calls, 0))])
  {
    if !m.fails(calls) {
      assert MachineAlgebra(m).call(calls, [WIDE]).results == [Val(WIDE, m.answer(calls, 0))];
    }
  }

  lemma CallingAnswers(m: Machine, a: Int64, b: Int64, pc: nat, x: Register, y: Register, z: Register)
    ensures var calls := [Call(pc, [x, y], [Wide(a), Wide(b)])];
      Run(MachineAlgebra(m), Calling(a, b, pc, x, y, z), 0, [], [], 1) ==
        Ended(if m.fails(calls) then Aborted(calls) else Returned([Val(WIDE, m.answer(calls, 0))], calls))
  {
    var f, alg, env := Calling(a, b, pc, x, y, z), MachineAlgebra(m), AfterLiterals(true, a, b);
    var call := f.blocks[0].instructions[3];
    var calls := [Call(pc, [x, y], [Wide(a), Wide(b)])];
    LiteralsRun(m, [], true, a, b);
    CallRuns(m, a, b, pc, x, y, z);
    var answer := Val(WIDE, m.answer(calls, 0));
    ReadOne(env[3 := answer], 3, [WIDE], m);
    assert RunTerminator(alg, f, Return([3]), env[3 := answer], calls) == Returned([answer], calls);
    assert EntryEnv<Val>([], []) == map[];
    hide RunInst, RunTerminator, MachineAlgebra, Literals, AfterLiterals, Wide, ReadTyped;
    RunAppend(alg, [], Literals(true, a, b), call, map[], []);
    assert f.blocks[0].instructions == Literals(true, a, b) + [call];
    assert FindBlock(f.blocks, 0) == Some(f.blocks[0]);
    assert Visit(alg, f, 0, [], []) == if m.fails(calls) then Aborted(calls) else Returned([answer], calls);
  }
}
