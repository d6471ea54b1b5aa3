/**
  The region IR verifier as it runs (src/wxir/verifier.rs): loops over blocks and
  instructions that fill tables of ids and types, proved to accept exactly the
  well-formed functions.
 */
module WxVerify {
  import opened Wrappers
  import opened WxIr
  import opened WxSemantics
  import opened WxOptimizer
  import opened WxVerifier
  import opened WxSoundness
  import opened WxNumberingRuns
  import opened WxReverify

  datatype Refusal =
    | DuplicateBlock | MissingEntry | EntryStateMismatch | InvalidType | Redefinition
    | DuplicateExit | InvalidExitState | InvalidBlock(index: nat) | UnusedExit

  // Whether all elements differ, by inserting them into a set.
  method AllDistinct(ids: seq<nat>) returns (ok: bool)
    ensures ok <==> Distinct(ids)
  {
    var seen: set<nat> := {};
    for i := 0 to |ids|
      invariant seen == set x | x in ids[..i]
      invariant Distinct(ids[..i])
    {
      assert ids[..i + 1] == ids[..i] + [ids[i]];
      if ids[i] in seen {
        var j :| 0 <= j < i && ids[..i][j] == ids[i];
        assert ids[j] == ids[i];
        return false;
      }
      seen := seen + {ids[i]};
    }
    assert ids[..|ids|] == ids;
    return true;
  }

  // Vectors have lanes, and none of handles or pointers.
  method VerifyType(ty: WxType) returns (ok: bool)
    ensures ok <==> ValidType(ty)
  {
    match ty
    case Scalar(_) => ok := true;
    case Vector(lane, lanes) => ok := lanes > 0 && !lane.RuntimeHandle? && !lane.Ptr?;
  }

  // Whether every type is valid.
  method AllValid(tys: seq<WxType>) returns (ok: bool)
    ensures ok <==> forall i :: 0 <= i < |tys| ==> ValidType(tys[i])
  {
    for i := 0 to |tys|
      invariant forall j :: 0 <= j < i ==> ValidType(tys[j])
    {
      var valid := VerifyType(tys[i]);
      if !valid {
        return false;
      }
    }
    return true;
  }

  method VerifyEntryState(state: seq<StateValue>, parameters: seq<Typed>) returns (ok: bool)
    ensures ok <==> EntryStateFits(state, parameters)
  {
    if |state| != |parameters| {
      return false;
    }
    var registersDiffer := AllDistinct(StateRegisters(state));
    var valuesDiffer := AllDistinct(StateValues(state));
    if !registersDiffer || !valuesDiffer {
      return false;
    }
    for i := 0 to |state|
      invariant forall j :: 0 <= j < i ==> Typed(state[j].value, state[j].ty) in parameters
    {
      if Typed(state[i].value, state[i].ty) !in parameters {
        return false;
      }
    }
    return true;
  }

  // ------------------------------------------------------------------ definitions

  method DefineValues(ts: seq<Typed>, defined: set<ValueId>) returns (ok: bool, defined': set<ValueId>)
    ensures ok <==> FreshDefs(ts, defined)
    ensures ok ==> defined' == defined + IdSet(Ids(ts))
  {
    defined' := defined;
    for i := 0 to |ts|
      invariant FreshDefs(ts[..i], defined)
      invariant defined' == defined + IdSet(Ids(ts[..i]))
    {
      assert ts[..i + 1] == ts[..i] + [ts[i]];
      assert Ids(ts[..i + 1]) == Ids(ts[..i]) + [ts[i].id];
      var valid := VerifyType(ts[i].ty);
      if !valid || ts[i].id in defined' {
        if ts[i].id in IdSet(Ids(ts[..i])) {
          var j :| 0 <= j < i && Ids(ts[..i])[j] == ts[i].id;
          assert Ids(ts)[j] == Ids(ts)[i];
        } else if ts[i].id in defined {
          assert Ids(ts)[i] in IdSet(Ids(ts));
        }
        return false, defined';
      }
      defined' := defined' + {ts[i].id};
    }
    assert ts[..|ts|] == ts;
    return true, defined';
  }

  lemma {:induction false} FreshInstsPrefix(insts: seq<Inst>, taken: set<ValueId>, n: nat)
    requires n <= |insts| && FreshInsts(insts, taken)
    ensures FreshInsts(insts[..n], taken)
    ensures n < |insts| ==> FreshDefs(insts[n].results, taken + InstDefs(insts[..n]))
  {
    if n < |insts| {
      var before := insts[..|insts| - 1];
      if n < |before| {
        FreshInstsPrefix(before, taken, n);
        assert before[..n] == insts[..n];
      }
    } else {
      assert insts[..n] == insts;
    }
  }

  method DefineInsts(insts: seq<Inst>, taken: set<ValueId>) returns (ok: bool, defined: set<ValueId>)
    ensures ok <==> FreshInsts(insts, taken)
    ensures ok ==> defined == taken + InstDefs(insts)
  {
    defined := taken;
    for i := 0 to |insts|
      invariant FreshInsts(insts[..i], taken)
      invariant defined == taken + InstDefs(insts[..i])
    {
      assert insts[..i + 1][..i] == insts[..i];
      ok, defined := DefineValues(insts[i].results, defined);
      if !ok {
        if FreshInsts(insts, taken) {
          FreshInstsPrefix(insts, taken, i);
        }
        return;
      }
    }
    assert insts[..|insts|] == insts;
    ok := true;
  }

  method DefineBlock(b: Block, taken: set<ValueId>) returns (ok: bool, defined: set<ValueId>)
    ensures ok <==> FreshDefs(b.parameters, taken) && FreshInsts(b.instructions, taken + IdSet(Ids(b.parameters)))
    ensures ok ==> defined == taken + BlockDefs(b)
  {
    ok, defined := DefineValues(b.parameters, taken);
    if ok {
      ok, defined := DefineInsts(b.instructions, defined);
    }
  }

  method DefineAll(blocks: seq<Block>) returns (ok: bool)
    ensures ok <==> SingleDefs(blocks)
  {
    var defined: set<ValueId> := {};
    for k := 0 to |blocks|
      invariant SingleDefs(blocks[..k])
      invariant defined == Defs(blocks[..k])
    {
      assert blocks[..k + 1][..k] == blocks[..k];
      ok, defined := DefineBlock(blocks[k], defined);
      if !ok {
        if SingleDefs(blocks) {
          SinglePrefix(blocks, k);
        }
        return;
      }
    }
    assert blocks[..|blocks|] == blocks;
    ok := true;
  }

  // --------------------------------------------------------------- exit metadata

  method VerifyExitState(exit: SideExit) returns (ok: bool)
    ensures ok <==> ExitFits(exit)
  {
    var valid := AllValid(StateTypes(exit.state));
    var differ := AllDistinct(StateRegisters(exit.state));
    assert forall i :: 0 <= i < |exit.state| ==> StateTypes(exit.state)[i] == exit.state[i].ty;
    return valid && differ;
  }

  // ---------------------------------------------------------------- one instruction

  // The types of the values that are read, if all of them are available.
  method ValueTypes(available: Env<WxType>, ids: seq<ValueId>) returns (r: Option<seq<WxType>>)
    ensures r == ReadAll(available, ids)
  {
    var tys: seq<WxType> := [];
    for i := 0 to |ids|
      invariant |tys| == i && forall j :: 0 <= j < i ==> ids[j] in available && tys[j] == available[ids[j]]
    {
      if ids[i] !in available {
        return None;
      }
      tys := tys + [available[ids[i]]];
    }
    assert tys == ReadAll(available, ids).value;
    return Some(tys);
  }

  // Values of the expected types, in order.
  method VerifyValues(available: Env<WxType>, ids: seq<ValueId>, expected: seq<WxType>) returns (ok: bool)
    ensures ok <==> ReadTyped(StaticAlgebra(), available, ids, expected).Some?
  {
    var tys := ValueTypes(available, ids);
    ok := tys.Some? && tys.value == expected;
    if tys.Some? {
      assert AllTyped(StaticAlgebra(), tys.value, expected) <==> tys.value == expected;
    }
  }

  // A use of exit metadata: it exists, suits the use, was not used before, and every
  // register of its state is available with its type.
  method VerifyExitUse(exits: seq<SideExit>, id: ExitId, guard: bool, available: Env<WxType>, used: set<ExitId>)
    returns (ok: bool, used': set<ExitId>)
    ensures ok <==> Deliver(StaticAlgebra(), exits, id, guard, available).Some? && id !in used
    ensures ok ==> used' == used + {id}
  {
    used' := used + {id};
    match FindExit(exits, id)
    case None => ok := false;
    case Some(exit) =>
      ok := VerifyValues(available, StateValues(exit.state), StateTypes(exit.state));
      ok := ok && id !in used && exit.kind != (if guard then RegionExit else Deopt);
  }

  // Operand and result types of a pure instruction, family by family.
  method VerifyPure(shape: Shape, operands: seq<WxType>, results: seq<WxType>) returns (ok: bool)
    ensures ok <==> TypeRule(shape, operands, results)
  {
    if |results| != (if shape.CheckedShape? then 2 else 1) {
      return false;
    }
    match shape
    case ConstantShape(constant) =>
      var ty := results[0];
      ok := operands == [] &&
        (if constant.BoolConst? then ty == Scalar(I1)
         else if constant.IntConst? then IntegerBits(ty).Some?
         else if constant.F32Const? then ty == Scalar(F32)
         else if constant.F64Const? then ty == Scalar(F64)
         else ty == Scalar(Ptr));
    case BinaryShape(op) =>
      if |operands| != 2 || operands[0] != operands[1] || results[0] != operands[0] {
        return false;
      }
      ok := if op.IntegerOp? then IsInteger(operands[0]) else IsFloat(operands[0]);
    case CheckedShape(_) =>
      if |operands| != 2 || operands[0] != operands[1] || IntegerBits(operands[0]).None? {
        return false;
      }
      ok := results[0] == operands[0] && results[1] == Scalar(I1);
    case CompareShape(op) =>
      if |operands| != 2 || operands[0] != operands[1] {
        return false;
      }
      ok := if op.IntegerCompare? then IsInteger(operands[0]) else IsFloat(operands[0]);
      ok := ok && results[0] == ComparisonResult(operands[0]);
    case CastShape(op) =>
      if |operands| != 1 {
        return false;
      }
      ok := VerifyCast(op, operands[0], results[0]);
  }

  method VerifyCast(op: CastOp, from: WxType, to: WxType) returns (ok: bool)
    ensures ok <==> ValidCast(op, from, to)
  {
    var fromInt, toInt, fromFloat, toFloat := IntegerBits(from), IntegerBits(to), FloatBits(from), FloatBits(to);
    match op
    case ZeroExtend => ok := fromInt.Some? && toInt.Some? && fromInt.value < toInt.value;
    case SignExtend => ok := fromInt.Some? && toInt.Some? && fromInt.value < toInt.value;
    case Truncate => ok := fromInt.Some? && toInt.Some? && toInt.value < fromInt.value;
    case IntToFloat(_) => ok := fromInt.Some? && toFloat.Some?;
    case FloatToInt(_) => ok := fromFloat.Some? && toInt.Some?;
    case FloatPromote => ok := from == Scalar(F32) && to == Scalar(F64);
    case FloatDemote => ok := from == Scalar(F64) && to == Scalar(F32);
    case PtrToInt => ok := from == Scalar(Ptr) && toInt.Some?;
    case IntToPtr => ok := fromInt.Some? && to == Scalar(Ptr);
    case Bitcast =>
      var fromWidth := if fromInt.Some? then fromInt else fromFloat;
      ok := fromWidth.Some? && fromWidth == (if toInt.Some? then toInt else toFloat);
  }

  method VerifyInstruction(exits: seq<SideExit>, inst: Inst, available: Env<WxType>, used: set<ExitId>, ghost calls: seq<Call<WxType>>)
    returns (ok: bool, used': set<ExitId>)
    ensures ok <==>
      && RunInst(StaticAlgebra(), exits, inst, available, calls) != Stuck
      && (inst.kind.Guard? ==> inst.kind.exit !in used)
    ensures ok ==> used' == used + if inst.kind.Guard? then {inst.kind.exit} else {}
  {
    used' := used;
    match inst.kind
    case Pure(shape, operands) =>
      var tys := ValueTypes(available, operands);
      ok := tys.Some?;
      if ok {
        ok := VerifyPure(shape, tys.value, Types(inst.results));
      }
    case Guard(condition, exit, mode) =>
      if inst.results != [] || condition !in available || available[condition] != BOOL {
        return false, used;
      }
      ok, used' := VerifyExitUse(exits, exit, true, available, used);
    case RuntimeCall(pc, inputs, output) =>
      ok := VerifyValues(available, InputValues(inputs), InputTypes(inputs));
      ok := ok && |inst.results| == (if output.Some? then 1 else 0);
  }

  // What an accepted instruction makes available.
  lemma Accepted(exits: seq<SideExit>, inst: Inst, available: Env<WxType>, calls: seq<Call<WxType>>)
    requires RunInst(StaticAlgebra(), exits, inst, available, calls) != Stuck
    ensures RunInst(StaticAlgebra(), exits, inst, available, calls).Fall?
    ensures RunInst(StaticAlgebra(), exits, inst, available, calls).env == Bind(available, Ids(inst.results), Types(inst.results))
  {
    StaticFalls(exits, inst, available, calls);
  }

  // ------------------------------------------------------------------- one block

  lemma {:induction false} StuckStays<V(!new)>(
    alg: Algebra<V>, exits: seq<SideExit>, insts: seq<Inst>, n: nat, env: Env<V>, calls: seq<Call<V>>)
    requires n <= |insts| && RunInsts(alg, exits, insts[..n], env, calls) == Stuck
    ensures RunInsts(alg, exits, insts, env, calls) == Stuck
    decreases |insts|
  {
    if n < |insts| {
      var before := insts[..|insts| - 1];
      assert before[..n] == insts[..n];
      StuckStays(alg, exits, before, n, env, calls);
    } else {
      assert insts[..n] == insts;
    }
  }

  lemma {:induction false} ExitsPrefix(insts: seq<Inst>, n: nat) returns (rest: seq<ExitId>)
    requires n <= |insts|
    ensures InstExits(insts) == InstExits(insts[..n]) + rest
  {
    if n < |insts| {
      var before, last := insts[..|insts| - 1], insts[|insts| - 1];
      rest := ExitsPrefix(before, n);
      assert before[..n] == insts[..n];
      rest := rest + if last.kind.Guard? then [last.kind.exit] else [];
    } else {
      rest := [];
      assert insts[..n] == insts;
    }
  }

  // Uses that do not repeat, neither among themselves nor what was used before.
  predicate FreshUses(uses: seq<ExitId>, used: set<ExitId>) {
    Distinct(uses) && forall id :: id in uses ==> id !in used
  }

  lemma FreshUsesAppend(uses: seq<ExitId>, more: seq<ExitId>, used: set<ExitId>)
    ensures FreshUses(uses + more, used) <==> FreshUses(uses, used) && FreshUses(more, used + IdSet(uses))
  {
    DistinctParts(uses, more);
    var both := uses + more;
    assert forall id :: id in both <==> id in uses || id in more;
  }

  method VerifyInstructions(exits: seq<SideExit>, insts: seq<Inst>, types: Env<WxType>, used: set<ExitId>)
    returns (ok: bool, available: Env<WxType>, used': set<ExitId>)
    ensures ok <==> RunInsts(StaticAlgebra(), exits, insts, types, []) != Stuck && FreshUses(InstExits(insts), used)
    ensures ok ==>
      && RunInsts(StaticAlgebra(), exits, insts, types, []).Fall?
      && RunInsts(StaticAlgebra(), exits, insts, types, []).env == available
      && used' == used + IdSet(InstExits(insts))
  {
    hide RunInst, StaticAlgebra, Bind;
    available, used' := types, used;
    ghost var calls: seq<Call<WxType>> := [];
    for i := 0 to |insts|
      invariant RunInsts(StaticAlgebra(), exits, insts[..i], types, []) == Fall(available, calls)
      invariant FreshUses(InstExits(insts[..i]), used)
      invariant used' == used + IdSet(InstExits(insts[..i]))
    {
      ghost var before := insts[..i];
      assert insts[..i + 1] == before + [insts[i]];
      RunAppend(StaticAlgebra(), exits, before, insts[i], types, []);
      ExitsAppend(before, insts[i]);
      ghost var mine := if insts[i].kind.Guard? then [insts[i].kind.exit] else [];
      FreshUsesAppend(InstExits(before), mine, used);
      ok, used' := VerifyInstruction(exits, insts[i], available, used', calls);
      if !ok {
        if RunInst(StaticAlgebra(), exits, insts[i], available, calls) == Stuck {
          StuckStays(StaticAlgebra(), exits, insts, i + 1, types, []);
        } else {
          ghost var rest := ExitsPrefix(insts, i + 1);
          FreshUsesAppend(InstExits(insts[..i + 1]), rest, used);
          assert mine[0] in mine;
        }
        return;
      }
      Accepted(exits, insts[i], available, calls);
      calls := RunInst(StaticAlgebra(), exits, insts[i], available, calls).calls;
      available := Bind(available, Ids(insts[i].results), Types(insts[i].results));
    }
    assert insts[..|insts|] == insts;
    ok := true;
  }

  method VerifyTarget(f: Function, target: Target, available: Env<WxType>) returns (ok: bool)
    ensures ok <==> Edge(StaticAlgebra(), f, target, available).Some?
  {
    match FindBlock(f.blocks, target.block)
    case None => ok := false;
    case Some(block) => ok := VerifyValues(available, target.arguments, Types(block.parameters));
  }

  method VerifyTerminator(f: Function, t: Terminator, available: Env<WxType>, used: set<ExitId>, ghost calls: seq<Call<WxType>>)
    returns (ok: bool, used': set<ExitId>)
    ensures ok <==>
      && RunTerminator(StaticAlgebra(), f, t, available, calls) != StuckBlock
      && (t.SideExitTo? ==> t.exit !in used)
    ensures ok ==> used' == used + if t.SideExitTo? then {t.exit} else {}
  {
    used' := used;
    match t
    case Jump(target) =>
      ok := VerifyTarget(f, target, available);
    case Branch(condition, yes, no) =>
      if condition !in available || available[condition] != BOOL {
        return false, used;
      }
      ok := VerifyTarget(f, yes, available);
      if ok {
        ok := VerifyTarget(f, no, available);
      }
    case Return(values) =>
      ok := VerifyValues(available, values, f.resultTypes);
    case SideExitTo(exit, values) =>
      ok, used' := VerifyExitUse(f.sideExits, exit, false, available, used);
      ok := ok && values == StateValues(FindExit(f.sideExits, exit).value.state);
  }

  method VerifyBlock(f: Function, b: Block, used: set<ExitId>) returns (ok: bool, used': set<ExitId>)
    ensures ok <==> BlockFits(f, b) && FreshUses(BlockExits(b), used)
    ensures ok ==> used' == used + IdSet(BlockExits(b))
  {
    var types := EntryEnv(b.parameters, Types(b.parameters));
    var available;
    ok, available, used' := VerifyInstructions(f.sideExits, b.instructions, types, used);
    ghost var own := if b.terminator.SideExitTo? then [b.terminator.exit] else [];
    FreshUsesAppend(InstExits(b.instructions), own, used);
    if ok {
      ghost var calls := RunInsts(StaticAlgebra(), f.sideExits, b.instructions, types, []).calls;
      ok, used' := VerifyTerminator(f, b.terminator, available, used', calls);
      assert own != [] ==> own[0] in own;
    }
  }

  // ------------------------------------------------------------------ the function

  lemma {:induction false} UsesPrefix(blocks: seq<Block>, n: nat) returns (rest: seq<ExitId>)
    requires n <= |blocks|
    ensures ExitUses(blocks) == ExitUses(blocks[..n]) + rest
  {
    if n < |blocks| {
      var before := blocks[..|blocks| - 1];
      rest := UsesPrefix(before, n);
      assert before[..n] == blocks[..n];
      rest := rest + BlockExits(blocks[|blocks| - 1]);
    } else {
      rest := [];
      assert blocks[..n] == blocks;
    }
  }

  lemma UsesOfPrefixDistinct(blocks: seq<Block>, n: nat)
    requires n <= |blocks| && Distinct(ExitUses(blocks))
    ensures Distinct(ExitUses(blocks[..n]))
  {
    var rest := UsesPrefix(blocks, n);
    DistinctParts(ExitUses(blocks[..n]), rest);
  }

  // The next block, given the exits that the blocks before it use.
  method VerifyNextBlock(f: Function, k: nat, used: set<ExitId>) returns (ok: bool, used': set<ExitId>)
    requires k < |f.blocks| && Distinct(ExitUses(f.blocks[..k])) && used == IdSet(ExitUses(f.blocks[..k]))
    ensures ok <==> BlockFits(f, f.blocks[k]) && Distinct(ExitUses(f.blocks[..k + 1]))
    ensures ok ==> used' == IdSet(ExitUses(f.blocks[..k + 1]))
  {
    assert f.blocks[..k + 1][..k] == f.blocks[..k];
    FreshUsesAppend(ExitUses(f.blocks[..k]), BlockExits(f.blocks[k]), {});
    ok, used' := VerifyBlock(f, f.blocks[k], used);
  }

  // Whether all blocks fit, as the verifier asks one by one.
  method VerifyBlocks(f: Function) returns (refused: Option<nat>, used: set<ExitId>)
    ensures refused.None? <==> BlocksFit(f) && Distinct(ExitUses(f.blocks))
    ensures refused.None? ==> used == IdSet(ExitUses(f.blocks))
  {
    hide BlockFits;
    used := {};
    for k := 0 to |f.blocks|
      invariant forall j :: 0 <= j < k ==> BlockFits(f, f.blocks[j])
      invariant Distinct(ExitUses(f.blocks[..k]))
      invariant used == IdSet(ExitUses(f.blocks[..k]))
    {
      var ok;
      ok, used := VerifyNextBlock(f, k, used);
      if !ok {
        if Distinct(ExitUses(f.blocks)) {
          UsesOfPrefixDistinct(f.blocks, k + 1);
        }
        return Some(k), used;
      }
    }
    assert f.blocks[..|f.blocks|] == f.blocks;
    return None, used;
  }

  method VerifyHeader(f: Function) returns (refusal: Option<Refusal>)
    ensures refusal.None? <==> HeaderFits(f)
  {
    var ok := AllDistinct(BlockIds(f.blocks));
    if !ok { return Some(DuplicateBlock); }
    var entry := FindBlock(f.blocks, f.entry);
    if entry.None? { return Some(MissingEntry); }
    ok := VerifyEntryState(f.entryState, entry.value.parameters);
    if !ok { return Some(EntryStateMismatch); }
    ok := AllValid(f.resultTypes);
    if !ok { return Some(InvalidType); }
    ok := DefineAll(f.blocks);
    if !ok { return Some(Redefinition); }
    return None;
  }

  method VerifyMetadata(exits: seq<SideExit>) returns (refusal: Option<Refusal>)
    ensures refusal.None? <==> Distinct(ExitIds(exits)) && forall i :: 0 <= i < |exits| ==> ExitFits(exits[i])
  {
    var ok := AllDistinct(ExitIds(exits));
    if !ok { return Some(DuplicateExit); }
    for i := 0 to |exits|
      invariant forall j :: 0 <= j < i ==> ExitFits(exits[j])
    {
      ok := VerifyExitState(exits[i]);
      if !ok { return Some(InvalidExitState); }
    }
    return None;
  }

  method AllUsed(exits: seq<SideExit>, used: set<ExitId>) returns (ok: bool)
    ensures ok <==> forall i :: 0 <= i < |exits| ==> exits[i].id in used
  {
    for i := 0 to |exits|
      invariant forall j :: 0 <= j < i ==> exits[j].id in used
    {
      if exits[i].id !in used { return false; }
    }
    return true;
  }

  // The verifier accepts exactly the well-formed functions.
  method Verify(f: Function) returns (r: Result<(), Refusal>)
    ensures r.Ok? <==> WellFormed(f)
  {
    var refusal := VerifyHeader(f);
    if refusal.Some? { return Err(refusal.value); }
    refusal := VerifyMetadata(f.sideExits);
    if refusal.Some? { return Err(refusal.value); }
    var refused, used := VerifyBlocks(f);
    if refused.Some? { return Err(InvalidBlock(refused.value)); }
    var ok := AllUsed(f.sideExits, used);
    if !ok { return Err(UnusedExit); }
    return Ok(());
  }
}
