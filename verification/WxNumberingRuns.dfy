/**
  Value numbering of whole blocks, and the renaming that follows it: a block of the
  renamed function does what the block of the original function does.
 */
module WxNumberingRuns {
  import opened Wrappers
  import opened WxIr
  import opened WxSemantics
  import opened WxOptimizer
  import opened WxVerifier
  import opened WxLaws
  import opened WxNumbering

  // A block that falls through has defined exactly its results.
  lemma {:induction false} FallDefines<V(!new)>(alg: Algebra<V>, exits: seq<SideExit>, insts: seq<Inst>, env: Env<V>, calls: seq<Call<V>>)
    requires RunInsts(alg, exits, insts, env, calls).Fall?
    ensures RunInsts(alg, exits, insts, env, calls).env.Keys == env.Keys + InstDefs(insts)
    decreases |insts|
  {
    if insts != [] {
      var before, last := insts[..|insts| - 1], insts[|insts| - 1];
      FallDefines(alg, exits, before, env, calls);
      var flow := RunInsts(alg, exits, before, env, calls);
      match last.kind
      case Pure(shape, operands) =>
        var vs := ReadAll(flow.env, operands).value;
        BindIn(flow.env, Ids(last.results), alg.apply(shape, vs, Types(last.results)).value);
      case Guard(_, _, _) =>
      case RuntimeCall(_, _, _) =>
        var rs := CallResults(alg, exits, last, flow.env, flow.calls);
        BindIn(flow.env, Ids(last.results), rs);
    }
  }

  // Every fold among the instructions agrees.
  predicate FoldsAgree<V>(alg: Algebra<V>, r: Replacements, insts: seq<Inst>) {
    if insts == [] then true
    else
      var before := insts[..|insts| - 1];
      FoldsAgree(alg, r, before) && StepAgrees(alg, CseInsts(r, before), insts[|insts| - 1])
  }

  lemma AgreeRenamed<V(!new)>(r: Replacements, r': Replacements, env: Env<V>, env': Env<V>)
    requires Renamed(r, env, env') && AgreeOn(r', r, env.Keys)
    ensures Renamed(r', env, env')
  {
  }

  lemma InstFollows<V(!new)>(
    alg: Algebra<V>, exits: seq<SideExit>, exits': seq<SideExit>, s: CseState, inst: Inst,
    env: Env<V>, env': Env<V>, calls: seq<Call<V>>, env0: Env<V>, calls0: seq<Call<V>>)
    requires Lawful(alg) && AtStep(alg, s, inst, env, env')
    requires inst.kind.Guard? ==> SameDelivery(alg, exits, exits', inst.kind.exit, env, env')
    requires RunInsts(alg, exits', s.optimized, env0, calls0) == Fall(env', calls)
    ensures Follows(alg, CseStep(s, inst), RunInst(alg, exits, inst, env, calls),
                    RunInsts(alg, exits', CseStep(s, inst).optimized, env0, calls0))
  {
    match inst.kind
    case Pure(_, _) => PureStep(alg, exits, exits', s, inst, env, env', calls, env0, calls0);
    case Guard(_, _, _) => GuardStep(alg, exits, exits', s, inst, env, env', calls, env0, calls0);
    case RuntimeCall(_, _, _) => CallStep(alg, exits, exits', s, inst, env, env', calls, env0, calls0);
  }

  // What has left or aborted stays so when instructions are added.
  lemma StepKeepsLeft<V(!new)>(alg: Algebra<V>, exits: seq<SideExit>, s: CseState, inst: Inst, env: Env<V>, calls: seq<Call<V>>)
    requires !RunInsts(alg, exits, s.optimized, env, calls).Fall?
    ensures RunInsts(alg, exits, CseStep(s, inst).optimized, env, calls) == RunInsts(alg, exits, s.optimized, env, calls)
  {
    RunAppend(alg, exits, s.optimized, Prepared(s, inst), env, calls);
  }

  // The instructions of a block, numbered, against exit metadata renamed by `final`,
  // the replacements that all blocks end up with.
  lemma {:induction false} InstsFollow<V(!new)>(
    alg: Algebra<V>, exits: seq<SideExit>, final: Replacements, r: Replacements, insts: seq<Inst>, taken: set<ValueId>,
    env: Env<V>, calls: seq<Call<V>>)
    requires Lawful(alg) && FoldsAgree(alg, r, insts)
    requires FreshInsts(insts, taken) && env.Keys <= taken && r.Keys <= taken && r.Keys !! env.Keys
    requires AgreeOn(final, CseInsts(r, insts).replacements, env.Keys + InstDefs(insts))
    ensures Follows(alg, CseInsts(r, insts), RunInsts(alg, exits, insts, env, calls),
                    RunInsts(alg, RenameExits(final, exits), CseInsts(r, insts).optimized, env, calls))
    decreases |insts|
  {
    if insts != [] {
      var before, last := insts[..|insts| - 1], insts[|insts| - 1];
      var s, exits' := CseInsts(r, before), RenameExits(final, exits);
      InstsTidy(r, before, taken);
      StepTidy(s, last, r, InstDefs(before), taken + InstDefs(before));
      InstsFollow(alg, exits, final, r, before, taken, env, calls);
      var flow, flow' := RunInsts(alg, exits, before, env, calls), RunInsts(alg, exits', s.optimized, env, calls);
      if flow.Fall? {
        FallDefines(alg, exits, before, env, calls);
        AgreeRenamed(s.replacements, final, flow.env, flow'.env);
        if last.kind.Guard? && Deliver(alg, exits, last.kind.exit, true, flow.env).Some? {
          DeliverRenamed(alg, final, exits, last.kind.exit, true, flow.env, flow'.env);
        }
        InstFollows(alg, exits, exits', s, last, flow.env, flow'.env, flow.calls, env, calls);
      } else if !flow.Stuck? {
        StepKeepsLeft(alg, exits', s, last, env, calls);
      }
    }
  }

  // ------------------------------------------------------------------- renaming again

  // A step that is not stuck has everything it reads.
  lemma InputsDefined<V(!new)>(alg: Algebra<V>, exits: seq<SideExit>, inst: Inst, env: Env<V>, calls: seq<Call<V>>)
    requires RunInst(alg, exits, inst, env, calls) != Stuck
    ensures InputsOf(inst.kind) <= env.Keys
  {
  }

  lemma RenameNothing(r: Replacements, inst: Inst)
    requires InputsOf(inst.kind) !! r.Keys
    ensures RenameInst(r, inst) == inst
  {
    match inst.kind
    case Pure(_, operands) =>
      assert RenameAll(r, operands) == operands;
    case Guard(_, _, _) =>
    case RuntimeCall(_, inputs, _) =>
      forall i | 0 <= i < |inputs| ensures RenameInputs(r, inputs)[i] == inputs[i] {
        assert InputValues(inputs)[i] == inputs[i].value;
      }
      assert RenameInputs(r, inputs) == inputs;
  }

  lemma {:induction false} RenameAgain<V(!new)>(
    alg: Algebra<V>, exits: seq<SideExit>, r: Replacements, insts: seq<Inst>, insts': seq<Inst>, env: Env<V>, calls: seq<Call<V>>)
    requires |insts'| == |insts| && forall i :: 0 <= i < |insts| ==> insts'[i] == RenameInst(r, insts[i])
    requires r.Keys !! env.Keys + InstDefs(insts)
    requires RunInsts(alg, exits, insts, env, calls) != Stuck
    ensures RunInsts(alg, exits, insts', env, calls) == RunInsts(alg, exits, insts, env, calls)
    decreases |insts|
  {
    if insts != [] {
      var before, last := insts[..|insts| - 1], insts[|insts| - 1];
      RenameAgain(alg, exits, r, before, insts'[..|insts| - 1], env, calls);
      var flow := RunInsts(alg, exits, before, env, calls);
      if flow.Fall? {
        FallDefines(alg, exits, before, env, calls);
        InputsDefined(alg, exits, last, flow.env, flow.calls);
        RenameNothing(r, last);
      }
    }
  }

  // ---------------------------------------------------------------------- terminators

  // The same blocks as seen from an edge.
  predicate SameBlocks(blocks: seq<Block>, blocks': seq<Block>) {
    |blocks| == |blocks'| &&
    forall k :: 0 <= k < |blocks| ==> blocks'[k].id == blocks[k].id && blocks'[k].parameters == blocks[k].parameters
  }

  lemma {:induction false} FindSameBlock(blocks: seq<Block>, blocks': seq<Block>, id: BlockId)
    requires SameBlocks(blocks, blocks')
    ensures FindBlock(blocks, id).Some? <==> FindBlock(blocks', id).Some?
    ensures FindBlock(blocks, id).Some? ==>
      exists k :: 0 <= k < |blocks| && FindBlock(blocks, id).value == blocks[k] && FindBlock(blocks', id).value == blocks'[k]
  {
    if blocks != [] && blocks[0].id != id {
      FindSameBlock(blocks[1..], blocks'[1..], id);
      if FindBlock(blocks, id).Some? {
        var k :| 0 <= k < |blocks[1..]| &&
          FindBlock(blocks[1..], id).value == blocks[1..][k] && FindBlock(blocks'[1..], id).value == blocks'[1..][k];
        assert blocks[1..][k] == blocks[k + 1] && blocks'[1..][k] == blocks'[k + 1];
      }
    }
  }

  lemma EdgeRenamed<V(!new)>(alg: Algebra<V>, f: Function, f': Function, r: Replacements, t: Target, env: Env<V>, env': Env<V>)
    requires SameBlocks(f.blocks, f'.blocks) && Renamed(r, env, env') && Edge(alg, f, t, env).Some?
    ensures Edge(alg, f', RenameTarget(r, t), env') == Edge(alg, f, t, env)
  {
    FindSameBlock(f.blocks, f'.blocks, t.block);
    ReadTypedRenamed(alg, r, env, env', t.arguments, Types(FindBlock(f.blocks, t.block).value.parameters));
  }

  lemma TerminatorRenamed<V(!new)>(
    alg: Algebra<V>, f: Function, f': Function, r: Replacements, t: Terminator, env: Env<V>, env': Env<V>, calls: seq<Call<V>>)
    requires SameBlocks(f.blocks, f'.blocks) && Renamed(r, env, env')
    requires f'.resultTypes == f.resultTypes && f'.sideExits == RenameExits(r, f.sideExits)
    requires RunTerminator(alg, f, t, env, calls) != StuckBlock
    ensures RunTerminator(alg, f', RenameTerminator(r, t), env', calls) == RunTerminator(alg, f, t, env, calls)
  {
    match t
    case Jump(target) =>
      EdgeRenamed(alg, f, f', r, target, env, env');
    case Branch(condition, yes, no) =>
      EdgeRenamed(alg, f, f', r, yes, env, env');
      EdgeRenamed(alg, f, f', r, no, env, env');
    case Return(values) =>
      ReadTypedRenamed(alg, r, env, env', values, f.resultTypes);
    case SideExitTo(exit, values) =>
      DeliverRenamed(alg, r, f.sideExits, exit, false, env, env');
      FindRenamedExit(r, f.sideExits, exit);
      RenamedStateParts(r, FindExit(f.sideExits, exit).value.state);
  }

  // ----------------------------------------------------------------- across the blocks

  // All blocks together: what is replaced is gone, and is replaced by what is kept.
  ghost predicate Settled(blocks: seq<Block>, blocks': seq<Block>, r: Replacements) {
    && SameBlocks(blocks, blocks')
    && Defs(blocks') <= Defs(blocks) && r.Keys <= Defs(blocks)
    && Defs(blocks') !! r.Keys
    && forall v :: v in r ==> r[v] in Defs(blocks')
  }

  lemma DefsOfBlocks(before: seq<Block>, last: Block)
    ensures Defs(before + [last]) == Defs(before) + BlockDefs(last)
  {
    assert (before + [last])[..|before|] == before;
  }

  // One more block, in terms of the ids alone: `kept` are the ids of the blocks so
  // far that are still there, `mine` and `mine'` those of the new block.
  lemma SettledIds(r: Replacements, s: CseState, taken: set<ValueId>, kept: set<ValueId>, mine: set<ValueId>)
    requires Tidy(s, r, mine) && AgreeOn(s.replacements, r, taken) && r.Keys <= taken
    requires kept <= taken && kept !! r.Keys && forall v :: v in r ==> r[v] in kept
    ensures s.replacements.Keys <= taken + mine
    ensures kept + InstDefs(s.optimized) !! s.replacements.Keys
    ensures forall v :: v in s.replacements ==> s.replacements[v] in kept + InstDefs(s.optimized)
  {
    forall v | v in kept ensures v !in s.replacements {
      assert v in taken;
    }
  }

  lemma SettledAppend(before: seq<Block>, before': seq<Block>, r: Replacements, last: Block, s: CseState)
    requires Settled(before, before', r) && IdSet(Ids(last.parameters)) !! Defs(before)
    requires Tidy(s, r, InstDefs(last.instructions))
    requires AgreeOn(s.replacements, r, Defs(before) + IdSet(Ids(last.parameters)))
    ensures Settled(before + [last], before' + [last.(instructions := s.optimized)], s.replacements)
  {
    var params, last' := IdSet(Ids(last.parameters)), last.(instructions := s.optimized);
    SettledIds(r, s, Defs(before) + params, Defs(before') + params, InstDefs(last.instructions));
    DefsOfBlocks(before, last);
    DefsOfBlocks(before', last');
    assert Defs(before' + [last']) == (Defs(before') + params) + InstDefs(s.optimized);
  }

  // The last block is numbered with what the blocks before it replaced.
  lemma LastNumbered(blocks: seq<Block>)
    requires blocks != []
    ensures var before, last := blocks[..|blocks| - 1], blocks[|blocks| - 1];
      var s := CseInsts(CseBlocks(map[], before).1, last.instructions);
      && CseBlocks(map[], blocks).0 == CseBlocks(map[], before).0 + [last.(instructions := s.optimized)]
      && CseBlocks(map[], blocks).1 == s.replacements
  {
  }

  lemma {:induction false} BlocksTidy(blocks: seq<Block>)
    requires SingleDefs(blocks)
    ensures Settled(blocks, CseBlocks(map[], blocks).0, CseBlocks(map[], blocks).1)
  {
    if blocks != [] {
      hide CseBlocks, CseInsts, Settled, Tidy, AgreeOn;
      var before, last := blocks[..|blocks| - 1], blocks[|blocks| - 1];
      BlocksTidy(before);
      var r := CseBlocks(map[], before).1;
      var s := CseInsts(r, last.instructions);
      assert r.Keys <= Defs(before) by { ReplacedDefined(before, CseBlocks(map[], before).0, r); }
      InstsTidy(r, last.instructions, Defs(before) + IdSet(Ids(last.parameters)));
      SettledAppend(before, CseBlocks(map[], before).0, r, last, s);
      LastNumbered(blocks);
      assert before + [last] == blocks;
    }
  }

  lemma ReplacedDefined(blocks: seq<Block>, blocks': seq<Block>, r: Replacements)
    requires Settled(blocks, blocks', r)
    ensures r.Keys <= Defs(blocks) && |blocks'| == |blocks|
  {
  }

  // The replacements with which a block is reached.
  function ReplacedBefore(blocks: seq<Block>, k: nat): Replacements
    requires k < |blocks|
  {
    CseBlocks(map[], blocks[..k]).1
  }

  lemma {:induction false} NumberedBlock(blocks: seq<Block>, k: nat)
    requires SingleDefs(blocks) && k < |blocks|
    ensures var blocks' := CseBlocks(map[], blocks).0;
      && |blocks'| == |blocks|
      && blocks'[k] == blocks[k].(instructions := CseInsts(ReplacedBefore(blocks, k), blocks[k].instructions).optimized)
  {
    hide CseBlocks, CseInsts, Settled, SingleDefs;
    var before := blocks[..|blocks| - 1];
    SinglePrefix(blocks, |before|);
    BlocksTidy(before);
    ReplacedDefined(before, CseBlocks(map[], before).0, CseBlocks(map[], before).1);
    LastNumbered(blocks);
    if k < |before| {
      NumberedBlock(before, k);
      assert before[..k] == blocks[..k];
    }
  }

  // Later blocks leave the replacements of a block's ids alone.
  lemma {:induction false} SettledAfter(blocks: seq<Block>, k: nat)
    requires SingleDefs(blocks) && k < |blocks|
    ensures AgreeOn(CseBlocks(map[], blocks).1, CseInsts(ReplacedBefore(blocks, k), blocks[k].instructions).replacements,
                    Defs(blocks[..k]) + BlockDefs(blocks[k]))
  {
    hide CseBlocks, CseInsts, Settled, SingleDefs, Tidy, AgreeOn, FreshInsts;
    var before, last := blocks[..|blocks| - 1], blocks[|blocks| - 1];
    LastNumbered(blocks);
    if k < |before| {
      SinglePrefix(blocks, |before|);
      SettledAfter(before, k);
      assert before[..k] == blocks[..k];
      DefsOfPrefix(before, k);
      BlocksTidy(before);
      ReplacedDefined(before, CseBlocks(map[], before).0, CseBlocks(map[], before).1);
      var r, s := CseBlocks(map[], before).1, CseInsts(ReplacedBefore(blocks, k), blocks[k].instructions);
      var taken := Defs(before) + IdSet(Ids(last.parameters));
      InstsTidy(r, last.instructions, taken);
      AgreeThrough(CseBlocks(map[], blocks).1, r, s.replacements, taken, Defs(blocks[..k]) + BlockDefs(blocks[k]));
    } else {
      AgreesWithItself(CseBlocks(map[], blocks).1, Defs(blocks[..k]) + BlockDefs(blocks[k]));
    }
  }

  lemma AgreesWithItself(r: Replacements, on: set<ValueId>)
    ensures AgreeOn(r, r, on)
  {
  }

  lemma AgreeThrough(r: Replacements, r': Replacements, r'': Replacements, on: set<ValueId>, within: set<ValueId>)
    requires AgreeOn(r, r', on) && AgreeOn(r', r'', within) && within <= on
    ensures AgreeOn(r, r'', within)
  {
  }

  lemma {:induction false} DefsOfPrefix(blocks: seq<Block>, k: nat)
    requires k < |blocks|
    ensures Defs(blocks[..k]) + BlockDefs(blocks[k]) <= Defs(blocks)
  {
    var before := blocks[..|blocks| - 1];
    if k < |before| {
      DefsOfPrefix(before, k);
      assert before[..k] == blocks[..k];
    }
  }

  lemma {:induction false} SinglePrefix(blocks: seq<Block>, k: nat)
    requires SingleDefs(blocks) && k < |blocks|
    ensures SingleDefs(blocks[..k])
    ensures FreshDefs(blocks[k].parameters, Defs(blocks[..k]))
    ensures FreshInsts(blocks[k].instructions, Defs(blocks[..k]) + IdSet(Ids(blocks[k].parameters)))
  {
    var before := blocks[..|blocks| - 1];
    if k < |before| {
      SinglePrefix(before, k);
      assert before[..k] == blocks[..k];
    }
  }

  // ------------------------------------------------------------------ the whole stage

  // The function after value numbering and renaming.
  function RenamedFunction(f: Function): Function {
    RenameFunction(Numbered(f).1, Numbered(f).0)
  }

  lemma RenamedFunctionParts(f: Function)
    requires SingleDefs(f.blocks)
    ensures SameBlocks(f.blocks, RenamedFunction(f).blocks)
    ensures RenamedFunction(f).sideExits == RenameExits(Numbered(f).1, f.sideExits)
    ensures RenamedFunction(f).resultTypes == f.resultTypes
  {
    BlocksTidy(f.blocks);
  }

  // Every fold that the optimizer makes in the function agrees.
  predicate AllFoldsAgree<V>(alg: Algebra<V>, f: Function) {
    forall k :: 0 <= k < |f.blocks| ==> FoldsAgree(alg, ReplacedBefore(f.blocks, k), f.blocks[k].instructions)
  }

  // The ids of a block: not replaced before it, and settled after it.
  lemma NumberedIds(blocks: seq<Block>, k: nat)
    requires SingleDefs(blocks) && k < |blocks|
    ensures var r, r0, params := CseBlocks(map[], blocks).1, ReplacedBefore(blocks, k), IdSet(Ids(blocks[k].parameters));
      var s := CseInsts(r0, blocks[k].instructions);
      && FreshInsts(blocks[k].instructions, Defs(blocks[..k]) + params)
      && r0.Keys <= Defs(blocks[..k]) && r0.Keys !! params
      && AgreeOn(r, s.replacements, params + InstDefs(blocks[k].instructions))
      && r.Keys !! params + InstDefs(s.optimized)
  {
    SinglePrefix(blocks, k);
    BlocksTidy(blocks[..k]);
    BlocksTidy(blocks);
    NumberedBlock(blocks, k);
    SettledAfter(blocks, k);
    DefsOfPrefix(CseBlocks(map[], blocks).0, k);
  }

  // The flow of a block through its numbered instructions, not yet renamed again.
  lemma NumberedFlow<V(!new)>(alg: Algebra<V>, f: Function, k: nat, arguments: seq<V>, calls: seq<Call<V>>)
    requires Lawful(alg) && AllFoldsAgree(alg, f) && SingleDefs(f.blocks) && k < |f.blocks|
    requires |f.blocks[k].parameters| == |arguments|
    ensures var r, env, s := Numbered(f).1, EntryEnv(f.blocks[k].parameters, arguments),
                             CseInsts(ReplacedBefore(f.blocks, k), f.blocks[k].instructions);
      && Follows(alg, s, RunInsts(alg, f.sideExits, f.blocks[k].instructions, env, calls),
                 RunInsts(alg, RenameExits(r, f.sideExits), s.optimized, env, calls))
      && env.Keys == IdSet(Ids(f.blocks[k].parameters))
  {
    var b, r, r0 := f.blocks[k], Numbered(f).1, ReplacedBefore(f.blocks, k);
    var env := EntryEnv(b.parameters, arguments);
    BindIn(map[], Ids(b.parameters), arguments);
    NumberedIds(f.blocks, k);
    InstsFollow(alg, f.sideExits, r, r0, b.instructions, Defs(f.blocks[..k]) + IdSet(Ids(b.parameters)), env, calls);
  }

  // Each block of the renamed function does what the original block does.
  lemma RenamedBlock<V(!new)>(alg: Algebra<V>, f: Function, k: nat, arguments: seq<V>, calls: seq<Call<V>>)
    requires Lawful(alg) && AllFoldsAgree(alg, f) && SingleDefs(f.blocks) && k < |f.blocks|
    requires RunBlock(alg, f, f.blocks[k], arguments, calls) != StuckBlock
    ensures |RenamedFunction(f).blocks| == |f.blocks|
    ensures RunBlock(alg, RenamedFunction(f), RenamedFunction(f).blocks[k], arguments, calls) == RunBlock(alg, f, f.blocks[k], arguments, calls)
  {
    var b, r, f' := f.blocks[k], Numbered(f).1, RenamedFunction(f);
    RenamedFunctionParts(f);
    NumberedBlock(f.blocks, k);
    NumberedIds(f.blocks, k);
    NumberedFlow(alg, f, k, arguments, calls);
    var env, s := EntryEnv(b.parameters, arguments), CseInsts(ReplacedBefore(f.blocks, k), b.instructions);
    var flow, flow' := RunInsts(alg, f.sideExits, b.instructions, env, calls), RunInsts(alg, f'.sideExits, s.optimized, env, calls);
    assert f'.blocks[k].instructions == RenameInsts(r, s.optimized);
    RenameAgain(alg, f'.sideExits, r, s.optimized, f'.blocks[k].instructions, env, calls);
    if flow.Fall? {
      FallDefines(alg, f.sideExits, b.instructions, env, calls);
      AgreeRenamed(s.replacements, r, flow.env, flow'.env);
      TerminatorRenamed(alg, f, f', r, b.terminator, flow.env, flow'.env, flow.calls);
    }
  }
}
