/**
  Removing dead instructions and unreferenced exit metadata keeps what a block does.
 */
module WxDead {
  import opened Wrappers
  import opened WxIr
  import opened WxSemantics
  import opened WxOptimizer
  import opened WxVerifier
  import opened WxLaws
  import opened WxNumbering
  import opened WxNumberingRuns

  // ------------------------------------------------------------- dead instructions

  // The two environments hold the same for everything that is live.
  predicate SameLive<V(==)>(live: set<ValueId>, env: Env<V>, env': Env<V>) {
    forall v :: v in live ==> (v in env <==> v in env') && (v in env ==> env'[v] == env[v])
  }

  lemma ReadLive<V(!new)>(live: set<ValueId>, env: Env<V>, env': Env<V>, ids: seq<ValueId>)
    requires SameLive(live, env, env') && IdSet(ids) <= live
    ensures ReadAll(env', ids) == ReadAll(env, ids)
  {
    forall i | 0 <= i < |ids| ensures ids[i] in live {
    }
    if ReadAll(env, ids).Some? {
      assert ReadAll(env', ids).value == ReadAll(env, ids).value;
    }
  }

  lemma {:induction false} ExitValuesOf(exits: seq<SideExit>, id: ExitId)
    requires FindExit(exits, id).Some?
    ensures IdSet(StateValues(FindExit(exits, id).value.state)) <= ExitValues(exits)
  {
    if exits[0].id != id {
      ExitValuesOf(exits[1..], id);
    }
  }

  lemma DeliverLive<V(!new)>(
    alg: Algebra<V>, exits: seq<SideExit>, id: ExitId, guard: bool, live: set<ValueId>, env: Env<V>, env': Env<V>)
    requires SameLive(live, env, env') && ExitValues(exits) <= live
    ensures Deliver(alg, exits, id, guard, env') == Deliver(alg, exits, id, guard, env)
  {
    if FindExit(exits, id).Some? {
      ExitValuesOf(exits, id);
      ReadLive(live, env, env', StateValues(FindExit(exits, id).value.state));
    }
  }

  lemma SameLiveBind<V(!new)>(live: set<ValueId>, env: Env<V>, env': Env<V>, ids: seq<ValueId>, vs: seq<V>)
    requires SameLive(live, env, env') && |ids| == |vs|
    ensures SameLive(live, Bind(env, ids, vs), Bind(env', ids, vs))
    decreases |ids|
  {
    if ids != [] {
      SameLiveBind(live, env, env', ids[..|ids| - 1], vs[..|ids| - 1]);
    }
  }

  // How the run of the kept instructions follows the original run.
  ghost predicate FollowsLive<V>(live: set<ValueId>, flow: Flow<V>, flow': Flow<V>) {
    match flow
    case Fall(env, calls) => flow'.Fall? && flow'.calls == calls && SameLive(live, env, flow'.env)
    case Stuck => true
    case _ => flow' == flow
  }

  lemma KeptInst<V(!new)>(
    alg: Algebra<V>, exits: seq<SideExit>, inst: Inst, live: set<ValueId>, env: Env<V>, env': Env<V>, calls: seq<Call<V>>)
    requires SameLive(live + InputsOf(inst.kind), env, env') && ExitValues(exits) <= live
    ensures FollowsLive(live, RunInst(alg, exits, inst, env, calls), RunInst(alg, exits, inst, env', calls))
  {
    var wide := live + InputsOf(inst.kind);
    var flow := RunInst(alg, exits, inst, env, calls);
    match inst.kind
    case Pure(shape, operands) =>
      ReadLive(wide, env, env', operands);
      if flow.Fall? {
        var vs := ReadAll(env, operands).value;
        SameLiveBind(live, env, env', Ids(inst.results), alg.apply(shape, vs, Types(inst.results)).value);
      }
    case Guard(condition, exit, mode) =>
      assert condition in wide;
      DeliverLive(alg, exits, exit, true, wide, env, env');
    case RuntimeCall(_, inputs, _) =>
      ReadLive(wide, env, env', InputValues(inputs));
      if flow.Fall? {
        var rs := CallResults(alg, exits, inst, env, calls);
        SameLiveBind(live, env, env', Ids(inst.results), rs);
      }
  }

  lemma DroppedInst<V(!new)>(
    alg: Algebra<V>, exits: seq<SideExit>, inst: Inst, live: set<ValueId>, env: Env<V>, env': Env<V>, calls: seq<Call<V>>)
    requires SameLive(live, env, env') && !Required(inst, live)
    ensures FollowsLive(live, RunInst(alg, exits, inst, env, calls), Fall(env', calls))
  {
    var flow := RunInst(alg, exits, inst, env, calls);
    if flow.Fall? {
      var vs := ReadAll(env, inst.kind.operands).value;
      BindIn(env, Ids(inst.results), alg.apply(inst.kind.shape, vs, Types(inst.results)).value);
      assert forall v :: v in live ==> v !in Ids(inst.results);
    }
  }

  lemma {:induction false} KeptInsts<V(!new)>(
    alg: Algebra<V>, exits: seq<SideExit>, insts: seq<Inst>, live: set<ValueId>, env: Env<V>, calls: seq<Call<V>>)
    requires ExitValues(exits) <= live
    ensures FollowsLive(live, RunInsts(alg, exits, insts, env, calls), RunInsts(alg, exits, DceInsts(insts, live).0, env, calls))
    decreases |insts|
  {
    if insts != [] {
      var before, last := insts[..|insts| - 1], insts[|insts| - 1];
      var flow := RunInsts(alg, exits, before, env, calls);
      if Required(last, live) {
        var wide := live + InputsOf(last.kind);
        var kept := DceInsts(before, wide).0;
        KeptInsts(alg, exits, before, wide, env, calls);
        RunAppend(alg, exits, kept, last, env, calls);
        if flow.Fall? {
          KeptInst(alg, exits, last, live, flow.env, RunInsts(alg, exits, kept, env, calls).env, flow.calls);
        }
      } else {
        var kept := DceInsts(before, live).0;
        KeptInsts(alg, exits, before, live, env, calls);
        if flow.Fall? {
          DroppedInst(alg, exits, last, live, flow.env, RunInsts(alg, exits, kept, env, calls).env, flow.calls);
        }
      }
    }
  }

  // ------------------------------------------------------------------ terminators

  lemma EdgeLive<V(!new)>(alg: Algebra<V>, f: Function, f': Function, t: Target, live: set<ValueId>, env: Env<V>, env': Env<V>)
    requires SameBlocks(f.blocks, f'.blocks) && SameLive(live, env, env') && IdSet(t.arguments) <= live
    ensures Edge(alg, f', t, env') == Edge(alg, f, t, env)
  {
    FindSameBlock(f.blocks, f'.blocks, t.block);
    ReadLive(live, env, env', t.arguments);
  }

  lemma TerminatorLive<V(!new)>(
    alg: Algebra<V>, f: Function, f': Function, t: Terminator, live: set<ValueId>, env: Env<V>, env': Env<V>, calls: seq<Call<V>>)
    requires SameBlocks(f.blocks, f'.blocks) && f'.resultTypes == f.resultTypes && f'.sideExits == f.sideExits
    requires SameLive(live, env, env') && TerminatorInputs(t) <= live && ExitValues(f.sideExits) <= live
    ensures RunTerminator(alg, f', t, env', calls) == RunTerminator(alg, f, t, env, calls)
  {
    match t
    case Jump(target) =>
      EdgeLive(alg, f, f', target, live, env, env');
    case Branch(condition, yes, no) =>
      EdgeLive(alg, f, f', yes, live, env, env');
      EdgeLive(alg, f, f', no, live, env, env');
      assert condition in live;
    case Return(values) =>
      ReadLive(live, env, env', values);
    case SideExitTo(exit, values) =>
      DeliverLive(alg, f.sideExits, exit, false, live, env, env');
  }

  // ------------------------------------------------------------------------ blocks

  lemma {:induction false} InstsLiveGrows(insts: seq<Inst>, live: set<ValueId>)
    ensures live <= DceInsts(insts, live).1
    decreases |insts|
  {
    if insts != [] {
      var last := insts[|insts| - 1];
      InstsLiveGrows(insts[..|insts| - 1], if Required(last, live) then live + InputsOf(last.kind) else live);
    }
  }

  lemma {:induction false} LiveGrows(blocks: seq<Block>, live: set<ValueId>)
    ensures live <= DceBlocks(blocks, live).1 && SameBlocks(blocks, DceBlocks(blocks, live).0)
    decreases |blocks|
  {
    if blocks != [] {
      var before, last := blocks[..|blocks| - 1], blocks[|blocks| - 1];
      LiveGrows(before, live);
      InstsLiveGrows(last.instructions, DceBlocks(before, live).1);
    }
  }

  lemma {:induction false} DceBlockAt(blocks: seq<Block>, live: set<ValueId>, k: nat)
    requires k < |blocks|
    ensures |DceBlocks(blocks, live).0| == |blocks|
    ensures DceBlocks(blocks, live).0[k] ==
      blocks[k].(instructions := DceInsts(blocks[k].instructions, DceBlocks(blocks[..k], live).1).0)
    decreases |blocks|
  {
    var before := blocks[..|blocks| - 1];
    LiveGrows(before, live);
    if k < |before| {
      DceBlockAt(before, live, k);
      assert before[..k] == blocks[..k];
    }
  }

  lemma {:induction false} TerminatorInputsOf(blocks: seq<Block>, k: nat)
    requires k < |blocks|
    ensures TerminatorInputs(blocks[k].terminator) <= AllTerminatorInputs(blocks)
  {
    if k > 0 {
      TerminatorInputsOf(blocks[1..], k - 1);
    }
  }

  // Each block does the same without its dead instructions.
  lemma KeptBlock<V(!new)>(alg: Algebra<V>, f: Function, k: nat, arguments: seq<V>, calls: seq<Call<V>>)
    requires k < |f.blocks| && RunBlock(alg, f, f.blocks[k], arguments, calls) != StuckBlock
    ensures |DceFunction(f).blocks| == |f.blocks|
    ensures RunBlock(alg, DceFunction(f), DceFunction(f).blocks[k], arguments, calls) == RunBlock(alg, f, f.blocks[k], arguments, calls)
  {
    var b, f', base := f.blocks[k], DceFunction(f), BaseLive(f);
    var live := DceBlocks(f.blocks[..k], base).1;
    LiveGrows(f.blocks, base);
    LiveGrows(f.blocks[..k], base);
    DceBlockAt(f.blocks, base, k);
    TerminatorInputsOf(f.blocks, k);
    var env := EntryEnv(b.parameters, arguments);
    KeptInsts(alg, f.sideExits, b.instructions, live, env, calls);
    var flow, flow' := RunInsts(alg, f.sideExits, b.instructions, env, calls), RunInsts(alg, f.sideExits, f'.blocks[k].instructions, env, calls);
    if flow.Fall? {
      TerminatorLive(alg, f, f', b.terminator, live, flow.env, flow'.env, flow.calls);
    }
  }

  // ----------------------------------------------------------------- exit metadata

  lemma {:induction false} FindKeptExit(exits: seq<SideExit>, used: set<ExitId>, id: ExitId)
    ensures FindExit(KeepExits(exits, used), id) == if id in used then FindExit(exits, id) else None
  {
    if exits != [] {
      FindKeptExit(exits[1..], used, id);
      var rest := KeepExits(exits[1..], used);
      if exits[0].id in used {
        assert KeepExits(exits, used)[1..] == rest;
      } else {
        assert KeepExits(exits, used) == rest;
      }
    }
  }

  lemma {:induction false} InstsWithExits<V(!new)>(
    alg: Algebra<V>, exits: seq<SideExit>, used: set<ExitId>, insts: seq<Inst>, env: Env<V>, calls: seq<Call<V>>)
    requires forall id :: id in InstExits(insts) ==> id in used
    ensures RunInsts(alg, KeepExits(exits, used), insts, env, calls) == RunInsts(alg, exits, insts, env, calls)
    decreases |insts|
  {
    if insts != [] {
      var before, last := insts[..|insts| - 1], insts[|insts| - 1];
      InstsWithExits(alg, exits, used, before, env, calls);
      if last.kind.Guard? {
        assert last.kind.exit in InstExits(insts);
        FindKeptExit(exits, used, last.kind.exit);
      }
    }
  }

  lemma {:induction false} ExitsOfBlock(blocks: seq<Block>, k: nat, id: ExitId)
    requires k < |blocks| && id in BlockExits(blocks[k])
    ensures id in ExitUses(blocks)
  {
    if k < |blocks| - 1 {
      ExitsOfBlock(blocks[..|blocks| - 1], k, id);
    }
  }

  lemma TerminatorWithExits<V(!new)>(
    alg: Algebra<V>, f: Function, f': Function, used: set<ExitId>, t: Terminator, env: Env<V>, calls: seq<Call<V>>)
    requires f' == f.(sideExits := KeepExits(f.sideExits, used)) && (t.SideExitTo? ==> t.exit in used)
    ensures RunTerminator(alg, f', t, env, calls) == RunTerminator(alg, f, t, env, calls)
  {
    if t.SideExitTo? {
      FindKeptExit(f.sideExits, used, t.exit);
    }
  }

  lemma FlowWithExits<V(!new)>(alg: Algebra<V>, f: Function, f': Function, used: set<ExitId>, b: Block, env: Env<V>, calls: seq<Call<V>>)
    requires f' == f.(sideExits := KeepExits(f.sideExits, used)) && forall id :: id in BlockExits(b) ==> id in used
    ensures Finish(alg, f', b.terminator, RunInsts(alg, f'.sideExits, b.instructions, env, calls))
         == Finish(alg, f, b.terminator, RunInsts(alg, f.sideExits, b.instructions, env, calls))
  {
    InstsWithExits(alg, f.sideExits, used, b.instructions, env, calls);
    if b.terminator.SideExitTo? {
      assert b.terminator.exit in BlockExits(b);
    }
    var flow := RunInsts(alg, f.sideExits, b.instructions, env, calls);
    if flow.Fall? {
      TerminatorWithExits(alg, f, f', used, b.terminator, flow.env, flow.calls);
    }
  }

  // Each block does the same with only the exits that are referenced.
  lemma BlockWithExits<V(!new)>(alg: Algebra<V>, f: Function, k: nat, arguments: seq<V>, calls: seq<Call<V>>)
    requires k < |f.blocks|
    ensures RunBlock(alg, DropExits(f), f.blocks[k], arguments, calls) == RunBlock(alg, f, f.blocks[k], arguments, calls)
  {
    var b, used := f.blocks[k], set x | x in ExitUses(f.blocks);
    forall id | id in BlockExits(b) ensures id in used {
      ExitsOfBlock(f.blocks, k, id);
    }
    if |b.parameters| == |arguments| {
      FlowWithExits(alg, f, DropExits(f), used, b, EntryEnv(b.parameters, arguments), calls);
    }
  }
}
