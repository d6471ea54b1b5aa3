/**
  The optimizer keeps the meaning of a region: block by block, hence along every
  run, on every lawful domain. On types this says that the result still verifies.
 */
module WxPreservation {
  import opened Wrappers
  import opened WxIr
  import opened WxSemantics
  import opened WxOptimizer
  import opened WxVerifier
  import opened WxSoundness
  import opened WxMachine
  import opened WxLaws
  import opened WxNumbering
  import opened WxNumberingRuns
  import opened WxDead

  lemma OptimizedStages(f: Function)
    ensures Optimized(f) == DropExits(DceFunction(RenamedFunction(f)))
  {
  }

  lemma OptimizedBlock<V(!new)>(alg: Algebra<V>, f: Function, k: nat, arguments: seq<V>, calls: seq<Call<V>>)
    requires Lawful(alg) && AllFoldsAgree(alg, f) && SingleDefs(f.blocks) && k < |f.blocks|
    requires RunBlock(alg, f, f.blocks[k], arguments, calls) != StuckBlock
    ensures |Optimized(f).blocks| == |f.blocks|
    ensures RunBlock(alg, Optimized(f), Optimized(f).blocks[k], arguments, calls) == RunBlock(alg, f, f.blocks[k], arguments, calls)
  {
    OptimizedStages(f);
    var renamed := RenamedFunction(f);
    RenamedBlock(alg, f, k, arguments, calls);
    KeptBlock(alg, renamed, k, arguments, calls);
    BlockWithExits(alg, DceFunction(renamed), k, arguments, calls);
  }

  lemma OptimizedSameBlocks(f: Function)
    requires SingleDefs(f.blocks)
    ensures SameBlocks(f.blocks, Optimized(f).blocks)
  {
    RenamedFunctionParts(f);
    LiveGrows(RenamedFunction(f).blocks, BaseLive(RenamedFunction(f)));
  }

  lemma OptimizedVisit<V(!new)>(alg: Algebra<V>, f: Function, id: BlockId, arguments: seq<V>, calls: seq<Call<V>>)
    requires Lawful(alg) && AllFoldsAgree(alg, f) && SingleDefs(f.blocks)
    requires Visit(alg, f, id, arguments, calls) != StuckBlock
    ensures Visit(alg, Optimized(f), id, arguments, calls) == Visit(alg, f, id, arguments, calls)
  {
    var f' := Optimized(f);
    OptimizedSameBlocks(f);
    FindSameBlock(f.blocks, f'.blocks, id);
    var k :| 0 <= k < |f.blocks| && FindBlock(f.blocks, id).value == f.blocks[k] && FindBlock(f'.blocks, id).value == f'.blocks[k];
    OptimizedBlock(alg, f, k, arguments, calls);
  }

  // Any run that is not stuck is the same run after the optimizer: the same calls
  // with the same inputs, the same return values, the same side exit with the same
  // value for every register.
  lemma OptimizedRun<V(!new)>(alg: Algebra<V>, f: Function, id: BlockId, arguments: seq<V>, calls: seq<Call<V>>, fuel: nat)
    requires Lawful(alg) && AllFoldsAgree(alg, f) && SingleDefs(f.blocks)
    requires Run(alg, f, id, arguments, calls, fuel) != Ended(StuckBlock)
    ensures Run(alg, Optimized(f), id, arguments, calls, fuel) == Run(alg, f, id, arguments, calls, fuel)
  {
    var step, step' := Visits(alg, f), Visits(alg, Optimized(f));
    forall i, a, c | step(i, a, c) != StuckBlock ensures step'(i, a, c) == step(i, a, c) {
      OptimizedVisit(alg, f, i, a, c);
    }
    WalkAgrees(step, step', id, arguments, calls, fuel);
  }

  // ---------------------------------------------------------------- on every machine

  // Every comparison of two integer literals that the optimizer folds comes out at 64
  // bits as it does at the width of their type.
  predicate FoldsAtWidth(m: Machine, f: Function) {
    AllFoldsAgree(MachineAlgebra(m), f)
  }

  // A verified region with such folds runs the same on every machine after the optimizer.
  lemma OptimizePreservesMeaning(m: Machine, f: Function, arguments: seq<Val>, fuel: nat)
    requires WellFormed(f) && FoldsAtWidth(m, f) && EntersWell(TypeOf, f, f.entry, arguments)
    ensures Run(MachineAlgebra(m), Optimized(f), f.entry, arguments, [], fuel) == Run(MachineAlgebra(m), f, f.entry, arguments, [], fuel)
    ensures Run(MachineAlgebra(m), f, f.entry, arguments, [], fuel) != Ended(StuckBlock)
  {
    var alg := MachineAlgebra(m);
    MachineIsLawful(m);
    VerifiedMachineRun(m, f, arguments, fuel);
    OptimizedRun(alg, f, f.entry, arguments, [], fuel);
  }

  // An integer literal is one that its declared type can hold.
  predicate LiteralInRange(inst: Inst) {
    inst.kind.Pure? && inst.kind.shape.ConstantShape? && |inst.results| == 1 ==>
      Fits(inst.results[0].ty, inst.kind.shape.constant)
  }

  predicate AllInRange(insts: seq<Inst>) {
    forall i :: 0 <= i < |insts| ==> LiteralInRange(insts[i])
  }

  lemma {:induction false} FoundInRange(insts: seq<Inst>, v: ValueId)
    requires AllInRange(insts) && ConstantIn(insts, v).Some?
    ensures Fits(LiteralType(insts, v), ConstantIn(insts, v).value)
  {
    var last := insts[|insts| - 1];
    if last.kind.Pure? && last.kind.shape.ConstantShape? && |last.results| == 1 && last.results[0].id == v {
      assert LiteralInRange(last);
    } else {
      FoundInRange(insts[..|insts| - 1], v);
    }
  }

  lemma FoldInRange(m: Machine, inst: Inst, prior: seq<Inst>)
    requires AllInRange(prior)
    ensures FoldAgrees(MachineAlgebra(m), inst, prior)
  {
    if Folded(inst, prior).Some? {
      var l, r := inst.kind.operands[0], inst.kind.operands[1];
      FoundInRange(prior, l);
      FoundInRange(prior, r);
      var (a, b, lty, rty) := (ConstantIn(prior, l).value, ConstantIn(prior, r).value, LiteralType(prior, l), LiteralType(prior, r));
      var shape := inst.kind.shape;
      if shape.CompareShape? && shape.compare.IntegerCompare? && a.IntConst? && b.IntConst? && IsScalarInteger(lty) && lty == rty {
        Compare64Agrees(lty.scalar, shape.compare.int_, a.i, b.i);
      }
    }
  }

  // Numbering makes no integer literals of its own.
  lemma PreparedInRange(s: CseState, inst: Inst)
    requires LiteralInRange(inst)
    ensures LiteralInRange(Prepared(s, inst))
  {
  }

  lemma StepAddsPrepared(s: CseState, inst: Inst)
    ensures CseStep(s, inst).optimized == s.optimized || CseStep(s, inst).optimized == s.optimized + [Prepared(s, inst)]
  {
    hide Prepared;
  }

  lemma {:induction false} NumberedInRange(m: Machine, r: Replacements, insts: seq<Inst>)
    requires AllInRange(insts)
    ensures AllInRange(CseInsts(r, insts).optimized) && FoldsAgree(MachineAlgebra(m), r, insts)
  {
    if insts != [] {
      hide CseStep, Prepared, LiteralInRange, FoldAgrees, MachineAlgebra;
      var before, last := insts[..|insts| - 1], insts[|insts| - 1];
      NumberedInRange(m, r, before);
      var s := CseInsts(r, before);
      FoldInRange(m, RenameInst(s.replacements, last), s.optimized);
      PreparedInRange(s, last);
      StepAddsPrepared(s, last);
    }
  }

  // So literals in the range of their types are enough.
  lemma InRangeFoldsAtWidth(m: Machine, f: Function)
    requires forall k :: 0 <= k < |f.blocks| ==> AllInRange(f.blocks[k].instructions)
    ensures FoldsAtWidth(m, f)
  {
    forall k | 0 <= k < |f.blocks| ensures FoldsAgree(MachineAlgebra(m), ReplacedBefore(f.blocks, k), f.blocks[k].instructions) {
      NumberedInRange(m, ReplacedBefore(f.blocks, k), f.blocks[k].instructions);
    }
  }
}
