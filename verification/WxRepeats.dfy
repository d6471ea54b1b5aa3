/**
  What the optimizer leaves behind: no block repeats a guard or, between two calls, a
  computation; no operation on literals is left to fold; no pure instruction is left
  whose results nothing uses.
 */
module WxRepeats {
  import opened Wrappers
  import opened WxIr
  import opened WxSemantics
  import opened WxOptimizer
  import opened WxVerifier
  import opened WxSoundness
  import opened WxMachine
  import opened WxLaws
  import opened WxNumbering
  import opened WxNumberingRuns
  import opened WxDead
  import opened WxPreservation
  import opened WxReverify

  // ------------------------------------------------------------ the same computation

  predicate SameComputation(a: Inst, b: Inst) {
    && a.kind.Pure? && b.kind.Pure? && a.kind.shape == b.kind.shape && Types(a.results) == Types(b.results)
    && (|| a.kind.operands == b.kind.operands
        || (OrderFree(a.kind.shape) && |a.kind.operands| == 2 && b.kind.operands == [a.kind.operands[1], a.kind.operands[0]]))
  }

  predicate SameGuard(a: Inst, b: Inst) {
    a.kind.Guard? && b.kind.Guard? && a.kind.condition == b.kind.condition && a.kind.mode == b.kind.mode
  }

  // The instructions after the last call.
  function Since(insts: seq<Inst>): seq<Inst> {
    if insts == [] then []
    else if insts[|insts| - 1].kind.RuntimeCall? then []
    else Since(insts[..|insts| - 1]) + [insts[|insts| - 1]]
  }

  predicate NoRepeats(insts: seq<Inst>) {
    insts == [] ||
    var before, last := insts[..|insts| - 1], insts[|insts| - 1];
    && NoRepeats(before)
    && (forall x :: x in before ==> !SameGuard(x, last))
    && (forall x :: x in Since(before) ==> !SameComputation(x, last))
  }

  // As many results as the operation has.
  predicate Shaped(inst: Inst) {
    inst.kind.Pure? ==> |inst.results| == ResultCount(inst.kind.shape)
  }

  lemma SwappedKey(shape: Shape, a: ValueId, b: ValueId)
    requires OrderFree(shape)
    ensures CanonicalOperands(shape, [a, b]) == CanonicalOperands(shape, [b, a])
  {
  }

  lemma SameKey(a: Inst, b: Inst)
    requires SameComputation(a, b) && Shaped(a) && Shaped(b)
    ensures KeyOf(a).Some? && KeyOf(a) == KeyOf(b)
  {
    assert |a.results| == |Types(a.results)| && |b.results| == |Types(b.results)|;
    assert Types(a.results)[0] == a.results[0].ty && Types(b.results)[0] == b.results[0].ty;
    if a.kind.operands != b.kind.operands {
      SwappedKey(a.kind.shape, a.kind.operands[0], a.kind.operands[1]);
      assert a.kind.operands == [a.kind.operands[0], a.kind.operands[1]];
    }
  }

  // What the tables know of the instructions kept so far.
  ghost predicate Tabled(s: CseState) {
    && (forall x :: x in s.optimized ==> Shaped(x))
    && (forall x :: x in s.optimized && x.kind.Guard? ==> (x.kind.condition, x.kind.mode) in s.guards)
    && (forall x :: x in Since(s.optimized) && x.kind.Pure? ==> KeyOf(x).Some? && KeyOf(x).value in s.expressions)
  }

  lemma PreparedShaped(s: CseState, inst: Inst)
    requires Shaped(inst)
    ensures Shaped(Prepared(s, inst))
  {
  }

  lemma ShapedHasKey(inst: Inst)
    requires Shaped(inst) && inst.kind.Pure?
    ensures KeyOf(inst).Some?
  {
  }

  lemma SinceAppend(insts: seq<Inst>, inst: Inst)
    ensures Since(insts + [inst]) == if inst.kind.RuntimeCall? then [] else Since(insts) + [inst]
    ensures NoRepeats(insts + [inst]) <==>
      && NoRepeats(insts)
      && (forall x :: x in insts ==> !SameGuard(x, inst))
      && (forall x :: x in Since(insts) ==> !SameComputation(x, inst))
  {
    assert (insts + [inst])[..|insts|] == insts;
  }

  lemma {:induction false} SinceWithin(insts: seq<Inst>)
    ensures forall x :: x in Since(insts) ==> x in insts
  {
    if insts != [] {
      SinceWithin(insts[..|insts| - 1]);
    }
  }

  // A kept instruction repeats none of those kept before.
  lemma StepNoRepeats(s: CseState, inst: Inst)
    requires Tabled(s) && NoRepeats(s.optimized) && Shaped(inst)
    ensures NoRepeats(CseStep(s, inst).optimized)
  {
    var p := Prepared(s, inst);
    PreparedShaped(s, inst);
    SinceAppend(s.optimized, p);
    SinceWithin(s.optimized);
    hide Prepared, KeyOf;
    if CseStep(s, inst).optimized != s.optimized {
      forall x | x in Since(s.optimized) && SameComputation(x, p) ensures false {
        SameKey(x, p);
        assert false;
      }
      assert CseStep(s, inst).optimized == s.optimized + [p];
    }
  }

  lemma StepTabled(s: CseState, inst: Inst)
    requires Tabled(s) && Shaped(inst)
    ensures Tabled(CseStep(s, inst))
  {
    var p := Prepared(s, inst);
    PreparedShaped(s, inst);
    SinceAppend(s.optimized, p);
    if p.kind.Pure? {
      ShapedHasKey(p);
    }
    hide Prepared, KeyOf, Shaped;
  }

  lemma {:induction false} NumberedNoRepeats(r: Replacements, insts: seq<Inst>)
    requires forall x :: x in insts ==> Shaped(x)
    ensures NoRepeats(CseInsts(r, insts).optimized) && Tabled(CseInsts(r, insts))
  {
    hide Tabled, NoRepeats, CseStep, Shaped;
    if insts != [] {
      NumberedNoRepeats(r, insts[..|insts| - 1]);
      StepNoRepeats(CseInsts(r, insts[..|insts| - 1]), insts[|insts| - 1]);
      StepTabled(CseInsts(r, insts[..|insts| - 1]), insts[|insts| - 1]);
    } else {
      NothingTabled(r);
    }
  }

  lemma NothingTabled(r: Replacements)
    ensures NoRepeats([]) && Tabled(CseState(r, map[], {}, []))
  {
  }

  // ------------------------------------------------------------------------- folding

  predicate IsLiteral(inst: Inst) {
    inst.kind.Pure? && inst.kind.shape.ConstantShape? && |inst.results| == 1
  }

  // An operation on two literals that can be computed right away.
  predicate OnLiterals(a: Inst, b: Inst, inst: Inst) {
    && IsLiteral(a) && IsLiteral(b) && inst.kind.Pure? && inst.results != []
    && inst.kind.operands == [a.results[0].id, b.results[0].id]
    && var l, r := a.kind.shape.constant, b.kind.shape.constant;
       || (l.IntConst? && r.IntConst? && inst.kind.shape.CompareShape? && inst.kind.shape.compare.IntegerCompare?)
       || (l.BoolConst? && r.BoolConst? && inst.kind.shape in {
             BinaryShape(IntegerOp(And)), BinaryShape(IntegerOp(Or)), BinaryShape(IntegerOp(Xor)),
             CompareShape(IntegerCompare(Eq)), CompareShape(IntegerCompare(Ne))})
  }

  predicate NothingToFold(insts: seq<Inst>) {
    insts == [] ||
    var before, last := insts[..|insts| - 1], insts[|insts| - 1];
    NothingToFold(before) && forall a, b :: a in before && b in before ==> !OnLiterals(a, b, last)
  }

  lemma {:induction false} LiteralFound(insts: seq<Inst>, taken: set<ValueId>, a: Inst)
    requires FreshInsts(insts, taken) && a in insts && IsLiteral(a)
    ensures ConstantIn(insts, a.results[0].id) == Some(a.kind.shape.constant)
    ensures a.results[0].id in InstDefs(insts)
  {
    var before, last := insts[..|insts| - 1], insts[|insts| - 1];
    assert Ids(a.results)[0] == a.results[0].id;
    if a != last {
      assert a in before;
      LiteralFound(before, taken, a);
      assert a.results[0].id !in Ids(last.results);
      if IsLiteral(last) {
        assert Ids(last.results)[0] == last.results[0].id;
      }
    }
  }

  lemma FoldedOnLiterals(prior: seq<Inst>, taken: set<ValueId>, a: Inst, b: Inst, inst: Inst)
    requires FreshInsts(prior, taken) && a in prior && b in prior && OnLiterals(a, b, inst)
    ensures Folded(inst, prior).Some?
  {
    LiteralFound(prior, taken, a);
    LiteralFound(prior, taken, b);
  }

  lemma FoldAppend(insts: seq<Inst>, inst: Inst)
    ensures NothingToFold(insts + [inst]) <==>
      NothingToFold(insts) && forall a, b :: a in insts && b in insts ==> !OnLiterals(a, b, inst)
  {
    assert (insts + [inst])[..|insts|] == insts;
  }

  lemma StepFolds(s: CseState, inst: Inst, taken: set<ValueId>)
    requires FreshInsts(s.optimized, taken) && NothingToFold(s.optimized)
    ensures NothingToFold(CseStep(s, inst).optimized)
  {
    var p := Prepared(s, inst);
    StepKeeps(s, inst);
    FoldAppend(s.optimized, p);
    forall a, b | a in s.optimized && b in s.optimized && OnLiterals(a, b, p) ensures false {
      FoldedOnLiterals(s.optimized, taken, a, b, RenameInst(s.replacements, inst));
      assert false;
    }
  }

  lemma {:induction false} NumberedFolds(r: Replacements, insts: seq<Inst>, taken: set<ValueId>)
    requires FreshInsts(insts, taken)
    ensures NothingToFold(CseInsts(r, insts).optimized)
  {
    if insts != [] {
      NumberedFolds(r, insts[..|insts| - 1], taken);
      NumberedFresh(r, insts[..|insts| - 1], taken);
      StepFolds(CseInsts(r, insts[..|insts| - 1]), insts[|insts| - 1], taken);
    }
  }

  // --------------------------------------------------------------- what dead code keeps

  lemma {:induction false} KeptWithin(insts: seq<Inst>, live: set<ValueId>)
    ensures forall x :: x in DceInsts(insts, live).0 ==> x in insts
    ensures forall x :: x in Since(DceInsts(insts, live).0) ==> x in Since(insts)
    decreases |insts|
  {
    if insts != [] {
      var before, last := insts[..|insts| - 1], insts[|insts| - 1];
      var live' := if Required(last, live) then live + InputsOf(last.kind) else live;
      KeptWithin(before, live');
      SinceAppend(DceInsts(before, live').0, last);
    }
  }

  lemma {:induction false} KeptNoRepeats(insts: seq<Inst>, live: set<ValueId>)
    requires NoRepeats(insts) && NothingToFold(insts)
    ensures NoRepeats(DceInsts(insts, live).0) && NothingToFold(DceInsts(insts, live).0)
    decreases |insts|
  {
    if insts != [] {
      var before, last := insts[..|insts| - 1], insts[|insts| - 1];
      var live' := if Required(last, live) then live + InputsOf(last.kind) else live;
      KeptNoRepeats(before, live');
      KeptWithin(before, live');
      SinceAppend(DceInsts(before, live').0, last);
      FoldAppend(DceInsts(before, live').0, last);
    }
  }

  // -------------------------------------------------------------- the whole optimizer

  lemma {:induction false} FallShaped(alg: Algebra<WxType>, exits: seq<SideExit>, insts: seq<Inst>, env: Env<WxType>, calls: seq<Call<WxType>>)
    requires HasArity(alg) && RunInsts(alg, exits, insts, env, calls).Fall?
    ensures forall x :: x in insts ==> Shaped(x)
  {
    if insts != [] {
      var before, last := insts[..|insts| - 1], insts[|insts| - 1];
      FallShaped(alg, exits, before, env, calls);
      var flow := RunInsts(alg, exits, before, env, calls);
      if last.kind.Pure? {
        RunPureValue(alg, exits, last, flow.env, flow.calls);
      }
    }
  }

  // No guard fires on types and no call leaves, so a block that fits runs to its end.
  lemma {:induction false} TypesFall(exits: seq<SideExit>, insts: seq<Inst>, env: Env<WxType>, calls: seq<Call<WxType>>)
    requires RunInsts(StaticAlgebra(), exits, insts, env, calls) != Stuck
    ensures RunInsts(StaticAlgebra(), exits, insts, env, calls).Fall?
  {
    if insts != [] {
      TypesFall(exits, insts[..|insts| - 1], env, calls);
    }
  }

  lemma {:induction false} RenamesNothing<V(!new)>(
    alg: Algebra<V>, exits: seq<SideExit>, r: Replacements, insts: seq<Inst>, env: Env<V>, calls: seq<Call<V>>)
    requires r.Keys !! env.Keys + InstDefs(insts)
    requires RunInsts(alg, exits, insts, env, calls).Fall?
    ensures RenameInsts(r, insts) == insts
    decreases |insts|
  {
    if insts != [] {
      var before, last := insts[..|insts| - 1], insts[|insts| - 1];
      RenamesNothing(alg, exits, r, before, env, calls);
      var flow := RunInsts(alg, exits, before, env, calls);
      FallDefines(alg, exits, before, env, calls);
      InputsDefined(alg, exits, last, flow.env, flow.calls);
      RenameNothing(r, last);
      assert RenameInsts(r, insts) == RenameInsts(r, before) + [last];
    }
  }

  // A verified block is numbered into instructions that no later renaming changes.
  lemma NumberedAndRenamed(f: Function, k: nat)
    requires SingleDefs(f.blocks) && k < |f.blocks| && BlockFits(f, f.blocks[k])
    ensures var numbered := CseInsts(ReplacedBefore(f.blocks, k), f.blocks[k].instructions).optimized;
      RenameInsts(Numbered(f).1, numbered) == numbered
    ensures forall x :: x in f.blocks[k].instructions ==> Shaped(x)
  {
    var alg, b, r := StaticAlgebra(), f.blocks[k], Numbered(f).1;
    StaticIsLawful();
    forall q | 0 <= q < |f.blocks| ensures FoldsAgree(alg, ReplacedBefore(f.blocks, q), f.blocks[q].instructions) {
      StaticFolds(ReplacedBefore(f.blocks, q), f.blocks[q].instructions);
    }
    var env := EntryEnv(b.parameters, Types(b.parameters));
    var s := CseInsts(ReplacedBefore(f.blocks, k), b.instructions);
    NumberedFlow(alg, f, k, Types(b.parameters), []);
    TypesFall(f.sideExits, b.instructions, env, []);
    FallShaped(alg, f.sideExits, b.instructions, env, []);
    TypesFall(RenameExits(r, f.sideExits), s.optimized, env, []);
    NumberedIds(f.blocks, k);
    RenamesNothing(alg, RenameExits(r, f.sideExits), r, s.optimized, env, []);
  }

  lemma OptimizedInstsTidied(f: Function, k: nat)
    requires SingleDefs(f.blocks) && k < |f.blocks| && BlockFits(f, f.blocks[k])
    ensures NoRepeats(OptimizedInsts(f, k)) && NothingToFold(OptimizedInsts(f, k))
  {
    var b, renamed := f.blocks[k], RenamedFunction(f);
    var numbered := CseInsts(ReplacedBefore(f.blocks, k), b.instructions).optimized;
    NumberedAndRenamed(f, k);
    NumberedNoRepeats(ReplacedBefore(f.blocks, k), b.instructions);
    SinglePrefix(f.blocks, k);
    NumberedFolds(ReplacedBefore(f.blocks, k), b.instructions, Defs(f.blocks[..k]) + IdSet(Ids(b.parameters)));
    if k < |renamed.blocks| {
      KeptNoRepeats(numbered, DceBlocks(renamed.blocks[..k], BaseLive(renamed)).1);
    }
  }

  lemma {:induction false} SinceHas(insts: seq<Inst>, i: nat)
    requires i < |insts| && forall k :: i <= k < |insts| ==> !insts[k].kind.RuntimeCall?
    ensures insts[i] in Since(insts)
  {
    if i < |insts| - 1 {
      SinceHas(insts[..|insts| - 1], i);
    }
  }

  lemma {:induction false} NoRepeatsAt(insts: seq<Inst>, i: nat, j: nat)
    requires NoRepeats(insts) && i < j < |insts|
    ensures !SameGuard(insts[i], insts[j])
    ensures SameComputation(insts[i], insts[j]) ==> exists k :: i < k < j && insts[k].kind.RuntimeCall?
  {
    var before := insts[..|insts| - 1];
    if j < |before| {
      NoRepeatsAt(before, i, j);
      if k :| i < k < j && before[k].kind.RuntimeCall? {
        assert insts[k].kind.RuntimeCall?;
      }
    } else if SameComputation(insts[i], insts[j]) && !exists k :: i < k < j && insts[k].kind.RuntimeCall? {
      SinceHas(before, i);
      assert false;
    } else {
      assert insts[i] == before[i] && before[i] in before;
    }
  }

  lemma {:induction false} NothingToFoldAt(insts: seq<Inst>, a: nat, b: nat, i: nat)
    requires NothingToFold(insts) && a < i && b < i < |insts|
    ensures !OnLiterals(insts[a], insts[b], insts[i])
  {
    var before := insts[..|insts| - 1];
    if i < |before| {
      NothingToFoldAt(before, a, b, i);
    } else {
      assert before[a] in before && before[b] in before;
    }
  }

  // In the optimized form of a verified function no block has the same guard twice, and
  // the same computation only on both sides of a call.
  lemma NothingIsRepeated(f: Function, k: nat, i: nat, j: nat)
    requires WellFormed(f) && k < |f.blocks|
    requires k < |Optimized(f).blocks| && i < j < |Optimized(f).blocks[k].instructions|
    ensures var insts := Optimized(f).blocks[k].instructions;
      && !SameGuard(insts[i], insts[j])
      && (SameComputation(insts[i], insts[j]) ==> exists c :: i < c < j && insts[c].kind.RuntimeCall?)
  {
    OptimizedBlockParts(f, k);
    OptimizedInstsTidied(f, k);
    NoRepeatsAt(Optimized(f).blocks[k].instructions, i, j);
  }

  // Nor does any operation on two literals of its block remain.
  lemma NothingIsLeftToFold(f: Function, k: nat, a: nat, b: nat, i: nat)
    requires WellFormed(f) && k < |f.blocks|
    requires k < |Optimized(f).blocks| && a < i && b < i < |Optimized(f).blocks[k].instructions|
    ensures var insts := Optimized(f).blocks[k].instructions;
      !OnLiterals(insts[a], insts[b], insts[i])
  {
    OptimizedBlockParts(f, k);
    OptimizedInstsTidied(f, k);
    NothingToFoldAt(Optimized(f).blocks[k].instructions, a, b, i);
  }

  // ------------------------------------------------------------- nothing kept in vain

  predicate ReadsId(kind: Kind, v: ValueId) {
    match kind
    case Pure(_, operands) => v in operands
    case Guard(condition, _, _) => v == condition
    case RuntimeCall(_, inputs, _) => exists i :: 0 <= i < |inputs| && inputs[i].value == v
  }

  predicate EndReadsId(t: Terminator, v: ValueId) {
    match t
    case Jump(target) => v in target.arguments
    case Branch(condition, yes, no) => v == condition || v in yes.arguments || v in no.arguments
    case Return(values) => v in values
    case SideExitTo(_, values) => v in values
  }

  predicate StateReadsId(state: seq<StateValue>, v: ValueId) {
    exists i :: 0 <= i < |state| && state[i].value == v
  }

  predicate ReadIn(insts: seq<Inst>, v: ValueId) {
    exists i :: 0 <= i < |insts| && ReadsId(insts[i].kind, v)
  }

  // An id that the states, a terminator or an instruction of the function names.
  predicate UsedIn(f: Function, v: ValueId) {
    || StateReadsId(f.entryState, v)
    || (exists i :: 0 <= i < |f.sideExits| && StateReadsId(f.sideExits[i].state, v))
    || (exists k :: 0 <= k < |f.blocks| && EndReadsId(f.blocks[k].terminator, v))
    || (exists k :: 0 <= k < |f.blocks| && ReadIn(f.blocks[k].instructions, v))
  }

  lemma InputIsRead(kind: Kind, v: ValueId)
    requires v in InputsOf(kind)
    ensures ReadsId(kind, v)
  {
    if kind.RuntimeCall? {
      var i :| 0 <= i < |kind.inputs| && InputValues(kind.inputs)[i] == v;
      assert kind.inputs[i].value == v;
    }
  }

  lemma StateIsRead(state: seq<StateValue>, v: ValueId)
    requires v in IdSet(StateValues(state))
    ensures StateReadsId(state, v)
  {
    var i :| 0 <= i < |state| && StateValues(state)[i] == v;
    assert state[i].value == v;
  }

  lemma ReadAppend(insts: seq<Inst>, inst: Inst, v: ValueId)
    ensures ReadIn(insts + [inst], v) <==> ReadIn(insts, v) || ReadsId(inst.kind, v)
  {
    var more := insts + [inst];
    assert more[|insts|] == inst;
    if i :| 0 <= i < |insts| && ReadsId(insts[i].kind, v) {
      assert more[i] == insts[i];
    }
  }

  // What becomes live is read by something that is kept.
  lemma {:induction false} LiveIsRead(insts: seq<Inst>, live: set<ValueId>, v: ValueId)
    ensures v in DceInsts(insts, live).1 ==> v in live || ReadIn(DceInsts(insts, live).0, v)
    decreases |insts|
  {
    if insts != [] {
      var before, last := insts[..|insts| - 1], insts[|insts| - 1];
      if Required(last, live) {
        LiveIsRead(before, live + InputsOf(last.kind), v);
        ReadAppend(DceInsts(before, live + InputsOf(last.kind)).0, last, v);
        if v in InputsOf(last.kind) {
          InputIsRead(last.kind, v);
        }
      } else {
        LiveIsRead(before, live, v);
      }
    }
  }

  // Some result of the instruction is live at the end or read by something kept.
  ghost predicate Useful(kept: seq<Inst>, live: set<ValueId>, inst: Inst) {
    inst.kind.Pure? ==> exists v :: v in Ids(inst.results) && (v in live || ReadIn(kept, v))
  }

  lemma {:induction false} KeptIsUseful(insts: seq<Inst>, live: set<ValueId>, inst: Inst)
    requires inst in DceInsts(insts, live).0
    ensures Useful(DceInsts(insts, live).0, live, inst)
    decreases |insts|
  {
    var before, last := insts[..|insts| - 1], insts[|insts| - 1];
    if !Required(last, live) {
      KeptIsUseful(before, live, inst);
    } else {
      var kept := DceInsts(before, live + InputsOf(last.kind)).0;
      if inst in kept && inst.kind.Pure? {
        KeptIsUseful(before, live + InputsOf(last.kind), inst);
        var v :| v in Ids(inst.results) && (v in live + InputsOf(last.kind) || ReadIn(kept, v));
        ReadAppend(kept, last, v);
        if v in InputsOf(last.kind) {
          InputIsRead(last.kind, v);
        }
      }
    }
  }

  predicate ReadInBlocks(blocks: seq<Block>, v: ValueId) {
    exists k :: 0 <= k < |blocks| && ReadIn(blocks[k].instructions, v)
  }

  lemma {:induction false} LiveIsReadInBlocks(blocks: seq<Block>, live: set<ValueId>, v: ValueId)
    requires v in DceBlocks(blocks, live).1
    ensures v in live || ReadInBlocks(DceBlocks(blocks, live).0, v)
    decreases |blocks|
  {
    if blocks != [] {
      var before, last := blocks[..|blocks| - 1], blocks[|blocks| - 1];
      var (kept, live') := DceBlocks(before, live);
      LiveIsRead(last.instructions, live', v);
      var all := DceBlocks(blocks, live).0;
      assert all[|kept|].instructions == DceInsts(last.instructions, live').0;
      if v in live' {
        LiveIsReadInBlocks(before, live, v);
        if k :| 0 <= k < |kept| && ReadIn(kept[k].instructions, v) {
          assert all[k] == kept[k];
        }
      }
    }
  }

  lemma {:induction false} ExitValueIsRead(exits: seq<SideExit>, v: ValueId)
    requires v in ExitValues(exits)
    ensures exists i :: 0 <= i < |exits| && StateReadsId(exits[i].state, v)
  {
    if v in IdSet(StateValues(exits[0].state)) {
      StateIsRead(exits[0].state, v);
    } else {
      ExitValueIsRead(exits[1..], v);
      var i :| 0 <= i < |exits[1..]| && StateReadsId(exits[1..][i].state, v);
      assert StateReadsId(exits[i + 1].state, v);
    }
  }

  lemma {:induction false} EndIsRead(blocks: seq<Block>, v: ValueId)
    requires v in AllTerminatorInputs(blocks)
    ensures exists k :: 0 <= k < |blocks| && EndReadsId(blocks[k].terminator, v)
  {
    if v in TerminatorInputs(blocks[0].terminator) {
      assert EndReadsId(blocks[0].terminator, v);
    } else {
      EndIsRead(blocks[1..], v);
      var k :| 0 <= k < |blocks[1..]| && EndReadsId(blocks[1..][k].terminator, v);
      assert EndReadsId(blocks[k + 1].terminator, v);
    }
  }

  lemma BaseIsUsed(f: Function, f': Function, v: ValueId)
    requires v in BaseLive(f) && SameBlocks(f.blocks, f'.blocks)
    requires f'.entryState == f.entryState && f'.sideExits == f.sideExits
    requires forall k :: 0 <= k < |f.blocks| ==> f'.blocks[k].terminator == f.blocks[k].terminator
    ensures UsedIn(f', v)
  {
    if v in IdSet(StateValues(f.entryState)) {
      StateIsRead(f.entryState, v);
    } else if v in ExitValues(f.sideExits) {
      ExitValueIsRead(f.sideExits, v);
    } else {
      EndIsRead(f.blocks, v);
      var k :| 0 <= k < |f.blocks| && EndReadsId(f.blocks[k].terminator, v);
      assert EndReadsId(f'.blocks[k].terminator, v);
    }
  }

  // Once dead instructions are gone, every pure instruction that is left has a result
  // that something in the function names.
  lemma NothingIsKeptInVain(f: Function, k: nat, inst: Inst)
    requires k < |DceFunction(f).blocks| && inst in DceFunction(f).blocks[k].instructions && inst.kind.Pure?
    ensures exists v :: v in Ids(inst.results) && UsedIn(DceFunction(f), v)
  {
    var f', base := DceFunction(f), BaseLive(f);
    LiveGrows(f.blocks, base);
    DceBlockAt(f.blocks, base, k);
    var live := DceBlocks(f.blocks[..k], base).1;
    KeptIsUseful(f.blocks[k].instructions, live, inst);
    var v :| v in Ids(inst.results) && (v in live || ReadIn(f'.blocks[k].instructions, v));
    if v in live {
      LiveIsReadInBlocks(f.blocks[..k], base, v);
      if v in base {
        forall q | 0 <= q < |f.blocks| ensures f'.blocks[q].terminator == f.blocks[q].terminator {
          DceBlockAt(f.blocks, base, q);
        }
        BaseIsUsed(f, f', v);
      } else {
        PrefixKept(f.blocks, base, k);
        var q :| 0 <= q < k && ReadIn(DceBlocks(f.blocks[..k], base).0[q].instructions, v);
        assert ReadIn(f'.blocks[q].instructions, v);
      }
    }
    assert UsedIn(f', v);
  }

  lemma PrefixKept(blocks: seq<Block>, live: set<ValueId>, k: nat)
    requires k <= |blocks|
    ensures |DceBlocks(blocks[..k], live).0| == k
    ensures |DceBlocks(blocks, live).0| == |blocks|
    ensures forall q :: 0 <= q < k ==> DceBlocks(blocks, live).0[q] == DceBlocks(blocks[..k], live).0[q]
  {
    LiveGrows(blocks, live);
    LiveGrows(blocks[..k], live);
    forall q | 0 <= q < k ensures DceBlocks(blocks, live).0[q] == DceBlocks(blocks[..k], live).0[q] {
      DceBlockAt(blocks, live, q);
      DceBlockAt(blocks[..k], live, q);
      assert blocks[..k][..q] == blocks[..q];
    }
  }
}
