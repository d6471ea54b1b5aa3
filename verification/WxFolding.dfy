/**
  Where the optimizer does not keep the meaning: the folder compares integer
  literals at 64 bits, whatever the width of their type.
 */
module WxFolding {
  import opened Wrappers
  import opened WxIr
  import opened WxSemantics
  import opened WxOptimizer
  import opened WxVerifier
  import opened WxMachine
  import opened WxLaws
  import opened WxNumberingRuns

  function LiteralInst(id: ValueId, ty: WxType, c: Constant): Inst {
    Inst([Typed(id, ty)], Pure(ConstantShape(c), []))
  }

  function Comparison(op: IntCompare): Inst {
    Inst([Typed(2, BOOL)], Pure(CompareShape(IntegerCompare(op)), [0, 1]))
  }

  // A region that returns the comparison of two literals.
  function CompareLiterals(s: ScalarType, op: IntCompare, a: Int64, b: Int64): Function {
    Function(
      0, [],
      [Block(0, [], [LiteralInst(0, Scalar(s), IntConst(a)), LiteralInst(1, Scalar(s), IntConst(b)), Comparison(op)], Return([2]))],
      [BOOL], [])
  }

  function Answer(b: bool): Outcome<Val> {
    Ended(Returned([Val(BOOL, Bit(b))], []))
  }

  // Three instructions in a row that all fall through.
  lemma RunThree<V(!new)>(
    alg: Algebra<V>, exits: seq<SideExit>, insts: seq<Inst>, env: Env<V>, env1: Env<V>, env2: Env<V>, env3: Env<V>, calls: seq<Call<V>>)
    requires |insts| == 3
    requires RunInst(alg, exits, insts[0], env, calls) == Fall(env1, calls)
    requires RunInst(alg, exits, insts[1], env1, calls) == Fall(env2, calls)
    requires RunInst(alg, exits, insts[2], env2, calls) == Fall(env3, calls)
    ensures RunInsts(alg, exits, insts, env, calls) == Fall(env3, calls)
  {
    assert insts[..2][..1] == [insts[0]] && insts[..1][..0] == [];
    assert RunInsts(alg, exits, [], env, calls) == Fall(env, calls);
    RunAppend(alg, exits, [], insts[0], env, calls);
    RunAppend(alg, exits, [insts[0]], insts[1], env, calls);
    RunAppend(alg, exits, [insts[0], insts[1]], insts[2], env, calls);
    assert [] + [insts[0]] == [insts[0]] && [insts[0]] + [insts[1]] == [insts[0], insts[1]];
    assert [insts[0], insts[1]] + [insts[2]] == insts;
  }

  lemma LiteralRuns(m: Machine, exits: seq<SideExit>, id: ValueId, ty: WxType, c: Constant, env: Env<Val>, calls: seq<Call<Val>>)
    requires ConstantHasType(c, ty)
    ensures RunInst(MachineAlgebra(m), exits, LiteralInst(id, ty, c), env, calls) == Fall(env[id := Val(ty, ConstantBits(c, ty))], calls)
  {
    var inst := LiteralInst(id, ty, c);
    assert Types(inst.results) == [ty] && Ids(inst.results) == [id];
    var v := Val(ty, ConstantBits(c, ty));
    assert Results(m, ConstantShape(c), [], [ty]) == [v];
    assert ReadAll(env, []).value == [];
    assert Bind(env, [id], [v]) == env[id := v];
  }

  lemma ComparisonRuns(m: Machine, exits: seq<SideExit>, s: ScalarType, op: IntCompare, l: nat, r: nat, env: Env<Val>, calls: seq<Call<Val>>)
    requires IsIntegerScalar(s) && 0 in env && 1 in env && env[0] == Val(Scalar(s), l) && env[1] == Val(Scalar(s), r)
    ensures RunInst(MachineAlgebra(m), exits, Comparison(op), env, calls) == Fall(env[2 := Val(BOOL, Bit(CompareAt(s, op, l, r)))], calls)
  {
    var inst, vs := Comparison(op), [env[0], env[1]];
    assert Types(inst.results) == [BOOL] && Ids(inst.results) == [2];
    assert ReadAll(env, [0, 1]).value == vs;
    KindsOfPair(env[0], env[1]);
    var v := Val(BOOL, Bit(CompareAt(s, op, l, r)));
    assert Results(m, inst.kind.shape, vs, [BOOL]) == [v];
    assert Bind(env, [2], [v]) == env[2 := v];
  }

  lemma ReturnRuns(m: Machine, f: Function, env: Env<Val>, b: bool)
    requires f.resultTypes == [BOOL] && 2 in env && env[2] == Val(BOOL, Bit(b))
    ensures RunTerminator(MachineAlgebra(m), f, Return([2]), env, []) == Returned([Val(BOOL, Bit(b))], [])
  {
    assert ReadAll(env, [2]).value == [Val(BOOL, Bit(b))];
  }

  // The region returns the comparison at the width of its operands ...
  lemma ComparesAtWidth(m: Machine, s: ScalarType, op: IntCompare, a: Int64, b: Int64)
    requires IsIntegerScalar(s)
    ensures Run(MachineAlgebra(m), CompareLiterals(s, op, a, b), 0, [], [], 1) == Answer(CompareAt(s, op, a % Modulus(s), b % Modulus(s)))
  {
    var f, alg := CompareLiterals(s, op, a, b), MachineAlgebra(m);
    var insts := f.blocks[0].instructions;
    var env1: Env<Val> := map[0 := Val(Scalar(s), a % Modulus(s))];
    var env2 := env1[1 := Val(Scalar(s), b % Modulus(s))];
    var env3 := env2[2 := Val(BOOL, Bit(CompareAt(s, op, a % Modulus(s), b % Modulus(s))))];
    LiteralRuns(m, [], 0, Scalar(s), IntConst(a), map[], []);
    LiteralRuns(m, [], 1, Scalar(s), IntConst(b), env1, []);
    ComparisonRuns(m, [], s, op, a % Modulus(s), b % Modulus(s), env2, []);
    RunThree(alg, [], insts, map[], env1, env2, env3, []);
    ReturnRuns(m, f, env3, CompareAt(s, op, a % Modulus(s), b % Modulus(s)));
    assert EntryEnv<Val>([], []) == map[];
    assert Visit(alg, f, 0, [], []) == Returned([Val(BOOL, Bit(CompareAt(s, op, a % Modulus(s), b % Modulus(s))))], []);
  }

  // What is left of the region once the comparison is folded.
  function FoldedRegion(s: ScalarType, op: IntCompare, a: Int64, b: Int64): Function {
    CompareLiterals(s, op, a, b).(blocks := [Block(0, [], [LiteralInst(2, BOOL, BoolConst(Compare64(op, a, b)))], Return([2]))])
  }

  lemma RenameByNothing(inst: Inst)
    ensures RenameInst(map[], inst) == inst
  {
    RenameNothing(map[], inst);
  }

  // A literal that is not there yet is kept.
  lemma NewLiteralKept(c: CseState, id: ValueId, s: ScalarType, i: Int64)
    requires c.replacements == map[] && KeyOf(LiteralInst(id, Scalar(s), IntConst(i))).value !in c.expressions
    ensures var inst := LiteralInst(id, Scalar(s), IntConst(i));
      CseStep(c, inst) == c.(expressions := c.expressions[KeyOf(inst).value := [id]], optimized := c.optimized + [inst])
  {
    var inst := LiteralInst(id, Scalar(s), IntConst(i));
    RenameByNothing(inst);
    assert Ids(inst.results) == [id];
  }

  lemma TwoLiterals(s: ScalarType, a: Int64, b: Int64) returns (c: CseState)
    requires a != b
    ensures c == CseInsts(map[], [LiteralInst(0, Scalar(s), IntConst(a)), LiteralInst(1, Scalar(s), IntConst(b))])
    ensures c.replacements == map[] && c.guards == {}
    ensures c.optimized == [LiteralInst(0, Scalar(s), IntConst(a)), LiteralInst(1, Scalar(s), IntConst(b))]
    ensures forall key :: key in c.expressions ==> key.ty == Some(Scalar(s)) && key.shape.ConstantShape? && key.shape.constant.IntConst?
  {
    var l, r := LiteralInst(0, Scalar(s), IntConst(a)), LiteralInst(1, Scalar(s), IntConst(b));
    var c0 := CseState(map[], map[], {}, []);
    NewLiteralKept(c0, 0, s, a);
    var c1 := CseStep(c0, l);
    NewLiteralKept(c1, 1, s, b);
    c := CseStep(c1, r);
    assert [l, r][..1] == [l] && [l][..0] == [];
    assert CseInsts(map[], []) == c0;
    assert CseInsts(map[], [l]) == c1;
  }

  lemma ComparisonFolded(c: CseState, l: Inst, r: Inst, s: ScalarType, op: IntCompare, a: Int64, b: Int64)
    requires l == LiteralInst(0, Scalar(s), IntConst(a)) && r == LiteralInst(1, Scalar(s), IntConst(b))
    requires c.replacements == map[] && c.optimized == [l, r]
    requires forall key :: key in c.expressions ==> key.shape.ConstantShape? && key.shape.constant.IntConst?
    ensures CseStep(c, Comparison(op)).replacements == map[]
    ensures CseStep(c, Comparison(op)).optimized == [l, r, LiteralInst(2, BOOL, BoolConst(Compare64(op, a, b)))]
  {
    var folded := LiteralInst(2, BOOL, BoolConst(Compare64(op, a, b)));
    RenameByNothing(Comparison(op));
    ConstantsIn(l, r);
    assert Prepared(c, Comparison(op)) == folded;
    assert KeyOf(folded).value !in c.expressions;
  }

  lemma NumberedLiterals(s: ScalarType, op: IntCompare, a: Int64, b: Int64)
    requires a != b
    ensures var l, r := LiteralInst(0, Scalar(s), IntConst(a)), LiteralInst(1, Scalar(s), IntConst(b));
      var c := CseInsts(map[], [l, r, Comparison(op)]);
      c.replacements == map[] && c.optimized == [l, r, LiteralInst(2, BOOL, BoolConst(Compare64(op, a, b)))]
  {
    var l, r := LiteralInst(0, Scalar(s), IntConst(a)), LiteralInst(1, Scalar(s), IntConst(b));
    var c := TwoLiterals(s, a, b);
    ComparisonFolded(c, l, r, s, op, a, b);
    assert [l, r, Comparison(op)][..2] == [l, r];
  }

  lemma OneBlockNumbered(blocks: seq<Block>)
    requires |blocks| == 1
    ensures var c := CseInsts(map[], blocks[0].instructions);
      CseBlocks(map[], blocks) == ([blocks[0].(instructions := c.optimized)], c.replacements)
  {
    var before := blocks[..|blocks| - 1];
    assert before == [];
    assert CseBlocks(map[], before) == ([], map[]);
    var b, c := blocks[0], CseInsts(map[], blocks[0].instructions);
    var kept := [b.(instructions := c.optimized)];
    assert [] + kept == kept;
    assert CseBlocks(map[], blocks).1 == c.replacements;
    assert CseBlocks(map[], blocks).0 == kept;
  }

  lemma RenameFunctionByNothing(f: Function)
    requires |f.blocks| == 1 && f.entryState == [] && f.sideExits == [] && f.blocks[0].terminator == Return([2])
    ensures RenameFunction(map[], f) == f
  {
    var b := f.blocks[0];
    forall i | 0 <= i < |b.instructions| ensures RenameInsts(map[], b.instructions)[i] == b.instructions[i] {
      RenameByNothing(b.instructions[i]);
    }
    assert RenameInsts(map[], b.instructions) == b.instructions;
    assert RenameAll(map[], [2]) == [2];
    assert RenameBlocks(map[], f.blocks) == f.blocks;
    assert RenameState(map[], []) == [] && RenameExits(map[], []) == [];
  }

  lemma OneBlockKept(f: Function)
    requires |f.blocks| == 1 && f.entryState == [] && f.sideExits == [] && f.blocks[0].terminator == Return([2])
    ensures DceFunction(f) == f.(blocks := [f.blocks[0].(instructions := DceInsts(f.blocks[0].instructions, {2}).0)])
  {
    var b := f.blocks[0];
    assert f.blocks == [b] && f.blocks[..0] == [] && f.blocks[1..] == [];
    assert IdSet([2]) == {2} && AllTerminatorInputs([]) == {};
    assert AllTerminatorInputs(f.blocks) == {2};
    assert IdSet(StateValues([])) == {} && ExitValues([]) == {};
    assert BaseLive(f) == {2};
    assert DceBlocks([], {2}) == ([], {2});
    assert DceBlocks(f.blocks, {2}).0 == [b.(instructions := DceInsts(b.instructions, {2}).0)];
  }

  lemma ConstantsIn(l: Inst, r: Inst)
    requires exists s, a, b :: l == LiteralInst(0, Scalar(s), IntConst(a)) && r == LiteralInst(1, Scalar(s), IntConst(b))
    ensures ConstantIn([l, r], 0) == Some(l.kind.shape.constant) && ConstantIn([l, r], 1) == Some(r.kind.shape.constant)
  {
    assert [l, r][..1] == [l] && [l][..0] == [];
  }

  lemma DeadLiterals(l: Inst, r: Inst, last: Inst)
    requires exists s, a, b, c :: l == LiteralInst(0, Scalar(s), IntConst(a)) && r == LiteralInst(1, Scalar(s), IntConst(b)) && last == LiteralInst(2, BOOL, c)
    ensures DceInsts([l, r, last], {2}).0 == [last]
  {
    assert [l, r, last][..2] == [l, r] && [l, r][..1] == [l] && [l][..0] == [];
    assert Ids(l.results) == [0] && Ids(r.results) == [1] && Ids(last.results)[0] == 2;
    assert {2} + InputsOf(last.kind) == {2};
    assert DceInsts([l], {2}) == ([], {2});
    assert DceInsts([l, r], {2}) == ([], {2});
    assert Required(last, {2});
  }

  lemma OptimizedLiterals(s: ScalarType, op: IntCompare, a: Int64, b: Int64)
    requires a != b
    ensures Optimized(CompareLiterals(s, op, a, b)) == FoldedRegion(s, op, a, b)
  {
    var f := CompareLiterals(s, op, a, b);
    var l, r, folded := LiteralInst(0, Scalar(s), IntConst(a)), LiteralInst(1, Scalar(s), IntConst(b)), LiteralInst(2, BOOL, BoolConst(Compare64(op, a, b)));
    NumberedLiterals(s, op, a, b);
    OneBlockNumbered(f.blocks);
    var f1 := f.(blocks := [f.blocks[0].(instructions := [l, r, folded])]);
    assert Numbered(f) == (f1, map[]);
    RenameFunctionByNothing(f1);
    DeadLiterals(l, r, folded);
    OneBlockKept(f1);
    assert DceFunction(f1) == FoldedRegion(s, op, a, b);
  }

  // ... and after the optimizer their comparison at 64 bits.
  lemma ComparesAt64(m: Machine, s: ScalarType, op: IntCompare, a: Int64, b: Int64)
    requires a != b
    ensures Run(MachineAlgebra(m), Optimized(CompareLiterals(s, op, a, b)), 0, [], [], 1) == Answer(Compare64(op, a, b))
  {
    OptimizedLiterals(s, op, a, b);
    var f, alg, inst := FoldedRegion(s, op, a, b), MachineAlgebra(m), LiteralInst(2, BOOL, BoolConst(Compare64(op, a, b)));
    LiteralRuns(m, [], 2, BOOL, BoolConst(Compare64(op, a, b)), map[], []);
    RunAppend(alg, [], [], inst, map[], []);
    assert [] + [inst] == [inst];
    var env: Env<Val> := map[2 := Val(BOOL, Bit(Compare64(op, a, b)))];
    assert EntryEnv<Val>([], []) == map[];
    ReturnRuns(m, f, env, Compare64(op, a, b));
    assert Visit(alg, f, 0, [], []) == Returned([Val(BOOL, Bit(Compare64(op, a, b)))], []);
  }

  predicate FoldsRight(m: Machine, s: ScalarType, op: IntCompare, a: Int64, b: Int64) {
    Run(MachineAlgebra(m), Optimized(CompareLiterals(s, op, a, b)), 0, [], [], 1)
    == Run(MachineAlgebra(m), CompareLiterals(s, op, a, b), 0, [], [], 1)
  }

  lemma FoldsRightExactly(m: Machine, s: ScalarType, op: IntCompare, a: Int64, b: Int64)
    requires IsIntegerScalar(s) && a != b
    ensures FoldsRight(m, s, op, a, b) <==> CompareAt(s, op, a % Modulus(s), b % Modulus(s)) == Compare64(op, a, b)
  {
    ComparesAt64(m, s, op, a, b);
    ComparesAtWidth(m, s, op, a, b);
    assert Answer(true).flow.values[0] != Answer(false).flow.values[0];
  }

  lemma LiteralFitsTypes(id: ValueId, ty: WxType, c: Constant, env: Env<WxType>)
    requires ConstantHasType(c, ty)
    ensures RunInst(StaticAlgebra(), [], LiteralInst(id, ty, c), env, []) == Fall(env[id := ty], [])
  {
    var inst := LiteralInst(id, ty, c);
    assert Types(inst.results) == [ty] && Ids(inst.results) == [id];
    assert ReadAll(env, []).value == [];
    assert Bind(env, [id], [ty]) == env[id := ty];
  }

  lemma ComparisonFitsTypes(s: ScalarType, op: IntCompare, env: Env<WxType>)
    requires IsIntegerScalar(s) && 0 in env && 1 in env && env[0] == env[1] == Scalar(s)
    ensures RunInst(StaticAlgebra(), [], Comparison(op), env, []) == Fall(env[2 := BOOL], [])
  {
    var inst := Comparison(op);
    assert Types(inst.results) == [BOOL] && Ids(inst.results) == [2];
    assert ReadAll(env, [0, 1]).value == [Scalar(s), Scalar(s)];
    assert Bind(env, [2], [BOOL]) == env[2 := BOOL];
  }

  lemma CompareLiteralsFits(s: ScalarType, op: IntCompare, a: Int64, b: Int64)
    requires IsIntegerScalar(s)
    ensures BlockFits(CompareLiterals(s, op, a, b), CompareLiterals(s, op, a, b).blocks[0])
  {
    var f := CompareLiterals(s, op, a, b);
    var env1: Env<WxType> := map[0 := Scalar(s)];
    var env2 := env1[1 := Scalar(s)];
    LiteralFitsTypes(0, Scalar(s), IntConst(a), map[]);
    LiteralFitsTypes(1, Scalar(s), IntConst(b), env1);
    ComparisonFitsTypes(s, op, env2);
    RunThree(StaticAlgebra(), [], f.blocks[0].instructions, map[], env1, env2, env2[2 := BOOL], []);
    assert Types([]) == [] && EntryEnv<WxType>([], []) == map[];
    assert ReadAll(env2[2 := BOOL], [2]).value == [BOOL];
  }

  lemma CompareLiteralsSingle(s: ScalarType, op: IntCompare, a: Int64, b: Int64)
    ensures SingleDefs(CompareLiterals(s, op, a, b).blocks)
    ensures ExitUses(CompareLiterals(s, op, a, b).blocks) == []
  {
    var f := CompareLiterals(s, op, a, b);
    var insts := f.blocks[0].instructions;
    assert insts[..2][..1] == insts[..1] && insts[..1][..0] == [] && f.blocks[..0] == [];
    assert InstDefs([]) == {} && InstDefs(insts[..1]) == {0} by { assert Ids(insts[0].results) == [0]; }
    assert InstDefs(insts[..2]) == {0, 1} by { assert Ids(insts[1].results) == [1]; }
    assert FreshInsts([], {});
    assert FreshInsts(insts[..1], {});
    assert FreshInsts(insts[..2], {}) by { assert Ids(insts[1].results) == [1]; }
    assert FreshInsts(insts, {}) by { assert Ids(insts[2].results) == [2]; }
    assert Defs([]) == {} && SingleDefs([]);
    assert Ids([]) == [] && Defs([]) + IdSet(Ids([])) == {};
    assert FreshDefs([], {});
    assert InstExits([]) == [] && InstExits(insts[..1]) == [] && InstExits(insts[..2]) == [] && InstExits(insts) == [];
    assert ExitUses([]) == [];
  }

  // These regions are accepted by the verifier.
  lemma CompareLiteralsVerifies(s: ScalarType, op: IntCompare, a: Int64, b: Int64)
    requires IsIntegerScalar(s)
    ensures WellFormed(CompareLiterals(s, op, a, b))
  {
    hide BlockFits, SingleDefs, ExitUses;
    CompareLiteralsFits(s, op, a, b);
    CompareLiteralsSingle(s, op, a, b);
  }

  // Exactly the literals that their type can hold are folded rightly: against every
  // other such literal, every comparison means the same after the optimizer.
  lemma FoldingKeepsMeaningExactlyInRange(m: Machine, s: ScalarType, a: Int64)
    requires IsIntegerScalar(s)
    ensures Fits(Scalar(s), IntConst(a)) <==>
      forall op, b: Int64 :: Fits(Scalar(s), IntConst(b)) && b != a ==> FoldsRight(m, s, op, a, b)
  {
    if Fits(Scalar(s), IntConst(a)) {
      forall op, b: Int64 | Fits(Scalar(s), IntConst(b)) && b != a ensures FoldsRight(m, s, op, a, b) {
        FoldsRightExactly(m, s, op, a, b);
        Compare64Agrees(s, op, a, b);
      }
    } else {
      var b: Int64 := Signed(s, a % Modulus(s));
      WrappedInRange(s, b);
      FoldsRightExactly(m, s, Eq, a, b);
    }
  }
}
