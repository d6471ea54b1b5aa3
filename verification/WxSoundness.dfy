/**
  Type soundness of the region IR verifier: over any domain of typed values, an
  accepted function never gets stuck and whatever leaves it has the declared types.
 */
module WxSoundness {
  import opened Wrappers
  import opened WxIr
  import opened WxSemantics
  import opened WxOptimizer
  import opened WxVerifier

  function Kinds<V>(typeOf: V -> WxType, vs: seq<V>): seq<WxType> {
    seq(|vs|, i requires 0 <= i < |vs| => typeOf(vs[i]))
  }

  ghost predicate SoundApply<V(!new)>(alg: Algebra<V>, typeOf: V -> WxType) {
    forall shape, vs, tys {:trigger alg.apply(shape, vs, tys)} :: TypeRule(shape, Kinds(typeOf, vs), tys) ==>
      alg.apply(shape, vs, tys).Some? && Kinds(typeOf, alg.apply(shape, vs, tys).value) == tys
  }

  ghost predicate SoundCall<V(!new)>(alg: Algebra<V>, typeOf: V -> WxType) {
    forall calls, tys {:trigger alg.call(calls, tys)} ::
      alg.call(calls, tys).Done? ==> Kinds(typeOf, alg.call(calls, tys).results) == tys
  }

  // A domain whose values have types that its operations respect.
  ghost predicate Sound<V(!new)>(alg: Algebra<V>, typeOf: V -> WxType) {
    && (forall v, ty :: alg.typed(v, ty) <==> typeOf(v) == ty)
    && SoundApply(alg, typeOf)
    && (forall v, mode :: typeOf(v) == BOOL ==> alg.fires(v, mode).Some?)
    && SoundCall(alg, typeOf)
  }

  predicate EnvTyped<V>(typeOf: V -> WxType, env: Env<V>, types: Env<WxType>) {
    env.Keys == types.Keys && forall v :: v in env ==> typeOf(env[v]) == types[v]
  }

  // What a side exit delivers is what its metadata declares, register by register.
  ghost predicate ResumeFits<V>(typeOf: V -> WxType, exits: seq<SideExit>, resume: Resume<V>) {
    exists exit :: exit in exits && exit.id == resume.id
      && resume.kind == exit.kind && resume.pc == exit.resumePc
      && resume.registers == StateRegisters(exit.state) && Kinds(typeOf, resume.values) == StateTypes(exit.state)
  }

  lemma ReadSound<V(!new)>(typeOf: V -> WxType, env: Env<V>, types: Env<WxType>, ids: seq<ValueId>)
    requires EnvTyped(typeOf, env, types) && ReadAll(types, ids).Some?
    ensures ReadAll(env, ids).Some? && Kinds(typeOf, ReadAll(env, ids).value) == ReadAll(types, ids).value
  {
  }

  lemma ReadTypedSound<V(!new)>(alg: Algebra<V>, typeOf: V -> WxType, env: Env<V>, types: Env<WxType>, ids: seq<ValueId>, tys: seq<WxType>)
    requires Sound(alg, typeOf) && EnvTyped(typeOf, env, types) && ReadTyped(StaticAlgebra(), types, ids, tys).Some?
    ensures ReadTyped(alg, env, ids, tys).Some? && Kinds(typeOf, ReadTyped(alg, env, ids, tys).value) == tys
    ensures ReadTyped(StaticAlgebra(), types, ids, tys).value == tys
  {
    ReadSound(typeOf, env, types, ids);
    var ts, vs := ReadAll(types, ids).value, ReadAll(env, ids).value;
    assert forall i :: 0 <= i < |ts| ==> StaticAlgebra().typed(ts[i], tys[i]);
    assert ts == tys;
    forall i | 0 <= i < |vs| ensures alg.typed(vs[i], tys[i]) {
      assert Kinds(typeOf, vs)[i] == tys[i];
    }
  }

  lemma {:induction false} BindSound<V>(typeOf: V -> WxType, env: Env<V>, types: Env<WxType>, ids: seq<ValueId>, vs: seq<V>, tys: seq<WxType>)
    requires EnvTyped(typeOf, env, types) && |ids| == |vs| && Kinds(typeOf, vs) == tys
    ensures EnvTyped(typeOf, Bind(env, ids, vs), Bind(types, ids, tys))
  {
    if ids != [] {
      var last := |ids| - 1;
      assert Kinds(typeOf, vs[..last]) == tys[..last];
      BindSound(typeOf, env, types, ids[..last], vs[..last], tys[..last]);
      assert typeOf(vs[last]) == tys[last];
    }
  }

  lemma FindExitIn(exits: seq<SideExit>, id: ExitId)
    requires FindExit(exits, id).Some?
    ensures FindExit(exits, id).value in exits && FindExit(exits, id).value.id == id
  {
  }

  lemma DeliverSound<V(!new)>(alg: Algebra<V>, typeOf: V -> WxType, exits: seq<SideExit>, id: ExitId, guard: bool, env: Env<V>, types: Env<WxType>)
    requires Sound(alg, typeOf) && EnvTyped(typeOf, env, types)
    requires Deliver(StaticAlgebra(), exits, id, guard, types).Some?
    ensures Deliver(alg, exits, id, guard, env).Some?
    ensures ResumeFits(typeOf, exits, Deliver(alg, exits, id, guard, env).value)
  {
    FindExitIn(exits, id);
    var exit := FindExit(exits, id).value;
    ReadTypedSound(alg, typeOf, env, types, StateValues(exit.state), StateTypes(exit.state));
  }

  // What one step over types says about the same step over values.
  ghost predicate FlowSound<V>(typeOf: V -> WxType, exits: seq<SideExit>, flow: Flow<V>, typed: Flow<WxType>) {
    && typed.Fall?
    && !flow.Stuck?
    && (flow.Fall? ==> EnvTyped(typeOf, flow.env, typed.env))
    && (flow.Leave? ==> ResumeFits(typeOf, exits, flow.resume))
  }

  lemma PureSound<V(!new)>(
    alg: Algebra<V>, typeOf: V -> WxType, exits: seq<SideExit>, shape: Shape, operands: seq<ValueId>, results: seq<Typed>,
    env: Env<V>, types: Env<WxType>, calls: seq<Call<V>>, staticCalls: seq<Call<WxType>>)
    requires Sound(alg, typeOf) && EnvTyped(typeOf, env, types)
    requires RunPure(StaticAlgebra(), shape, operands, results, types, staticCalls) != Stuck
    ensures FlowSound(typeOf, exits, RunPure(alg, shape, operands, results, env, calls),
                      RunPure(StaticAlgebra(), shape, operands, results, types, staticCalls))
  {
    ReadSound(typeOf, env, types, operands);
    var vs := ReadAll(env, operands).value;
    var tys := Types(results);
    assert SoundApply(alg, typeOf);
    assert TypeRule(shape, Kinds(typeOf, vs), tys);
    var rs := alg.apply(shape, vs, tys).value;
    assert |Kinds(typeOf, rs)| == |results|;
    BindSound(typeOf, env, types, Ids(results), rs, tys);
  }

  lemma GuardSound<V(!new)>(
    alg: Algebra<V>, typeOf: V -> WxType, exits: seq<SideExit>, condition: ValueId, exit: ExitId, mode: GuardMode,
    results: seq<Typed>, env: Env<V>, types: Env<WxType>, calls: seq<Call<V>>, staticCalls: seq<Call<WxType>>)
    requires Sound(alg, typeOf) && EnvTyped(typeOf, env, types)
    requires RunGuard(StaticAlgebra(), exits, condition, exit, mode, results, types, staticCalls) != Stuck
    ensures FlowSound(typeOf, exits, RunGuard(alg, exits, condition, exit, mode, results, env, calls),
                      RunGuard(StaticAlgebra(), exits, condition, exit, mode, results, types, staticCalls))
  {
    DeliverSound(alg, typeOf, exits, exit, true, env, types);
    assert alg.fires(env[condition], mode).Some?;
  }

  lemma CallSound<V(!new)>(
    alg: Algebra<V>, typeOf: V -> WxType, exits: seq<SideExit>, pc: nat, inputs: seq<RuntimeInput>, output: Option<Register>,
    results: seq<Typed>, env: Env<V>, types: Env<WxType>, calls: seq<Call<V>>, staticCalls: seq<Call<WxType>>)
    requires Sound(alg, typeOf) && EnvTyped(typeOf, env, types)
    requires RunCall(StaticAlgebra(), pc, inputs, output, results, types, staticCalls) != Stuck
    ensures FlowSound(typeOf, exits, RunCall(alg, pc, inputs, output, results, env, calls),
                      RunCall(StaticAlgebra(), pc, inputs, output, results, types, staticCalls))
  {
    ReadTypedSound(alg, typeOf, env, types, InputValues(inputs), InputTypes(inputs));
    var vs := ReadTyped(alg, env, InputValues(inputs), InputTypes(inputs)).value;
    var calls' := calls + [Call(pc, seq(|inputs|, i requires 0 <= i < |inputs| => inputs[i].register), vs)];
    var tys := Types(results);
    var answer := alg.call(calls', tys);
    if answer.Done? {
      assert Kinds(typeOf, answer.results) == tys;
      assert |Kinds(typeOf, answer.results)| == |results|;
      BindSound(typeOf, env, types, Ids(results), answer.results, tys);
    }
  }

  lemma {:induction false} InstsSound<V(!new)>(
    alg: Algebra<V>, typeOf: V -> WxType, exits: seq<SideExit>, insts: seq<Inst>,
    env: Env<V>, types: Env<WxType>, calls: seq<Call<V>>, staticCalls: seq<Call<WxType>>)
    requires Sound(alg, typeOf) && EnvTyped(typeOf, env, types)
    requires RunInsts(StaticAlgebra(), exits, insts, types, staticCalls) != Stuck
    ensures FlowSound(typeOf, exits, RunInsts(alg, exits, insts, env, calls),
                      RunInsts(StaticAlgebra(), exits, insts, types, staticCalls))
    decreases |insts|
  {
    if insts != [] {
      var before, last := insts[..|insts| - 1], insts[|insts| - 1];
      InstsSound(alg, typeOf, exits, before, env, types, calls, staticCalls);
      var flow, typed := RunInsts(alg, exits, before, env, calls), RunInsts(StaticAlgebra(), exits, before, types, staticCalls);
      if flow.Fall? {
        match last.kind
        case Pure(shape, operands) =>
          PureSound(alg, typeOf, exits, shape, operands, last.results, flow.env, typed.env, flow.calls, typed.calls);
        case Guard(condition, exit, mode) =>
          GuardSound(alg, typeOf, exits, condition, exit, mode, last.results, flow.env, typed.env, flow.calls, typed.calls);
        case RuntimeCall(pc, inputs, output) =>
          CallSound(alg, typeOf, exits, pc, inputs, output, last.results, flow.env, typed.env, flow.calls, typed.calls);
      } else {
        StaticFalls(exits, last, typed.env, typed.calls);
      }
    }
  }

  // Over types a step either falls through or is stuck.
  lemma StaticFalls(exits: seq<SideExit>, inst: Inst, types: Env<WxType>, calls: seq<Call<WxType>>)
    ensures RunInst(StaticAlgebra(), exits, inst, types, calls).Fall? || RunInst(StaticAlgebra(), exits, inst, types, calls).Stuck?
  {
  }

  // ------------------------------------------------------------------ whole blocks

  // Where a block may go: existing blocks with arguments of their parameters' types.
  ghost predicate BlockFlowSound<V>(typeOf: V -> WxType, f: Function, flow: BlockFlow<V>) {
    match flow
    case Goto(next, arguments, _) =>
      FindBlock(f.blocks, next).Some? && Kinds(typeOf, arguments) == Types(FindBlock(f.blocks, next).value.parameters)
    case Returned(values, _) => Kinds(typeOf, values) == f.resultTypes
    case Left(resume, _) => ResumeFits(typeOf, f.sideExits, resume)
    case Aborted(_) => true
    case StuckBlock => false
  }

  lemma EdgeSound<V(!new)>(alg: Algebra<V>, typeOf: V -> WxType, f: Function, target: Target, env: Env<V>, types: Env<WxType>)
    requires Sound(alg, typeOf) && EnvTyped(typeOf, env, types) && Edge(StaticAlgebra(), f, target, types).Some?
    ensures FindBlock(f.blocks, target.block).Some? && Edge(alg, f, target, env).Some?
    ensures Kinds(typeOf, Edge(alg, f, target, env).value) == Types(FindBlock(f.blocks, target.block).value.parameters)
  {
    var block := FindBlock(f.blocks, target.block).value;
    ReadTypedSound(alg, typeOf, env, types, target.arguments, Types(block.parameters));
  }

  lemma TerminatorSound<V(!new)>(
    alg: Algebra<V>, typeOf: V -> WxType, f: Function, t: Terminator, env: Env<V>, types: Env<WxType>,
    calls: seq<Call<V>>, staticCalls: seq<Call<WxType>>)
    requires Sound(alg, typeOf) && EnvTyped(typeOf, env, types)
    requires RunTerminator(StaticAlgebra(), f, t, types, staticCalls) != StuckBlock
    ensures BlockFlowSound(typeOf, f, RunTerminator(alg, f, t, env, calls))
  {
    match t
    case Jump(target) =>
      EdgeSound(alg, typeOf, f, target, env, types);
    case Branch(condition, yes, no) =>
      EdgeSound(alg, typeOf, f, yes, env, types);
      EdgeSound(alg, typeOf, f, no, env, types);
      assert alg.fires(env[condition], ExitWhenTrue).Some?;
    case Return(values) =>
      ReadTypedSound(alg, typeOf, env, types, values, f.resultTypes);
    case SideExitTo(exit, values) =>
      DeliverSound(alg, typeOf, f.sideExits, exit, false, env, types);
  }

  lemma BlockSound<V(!new)>(
    alg: Algebra<V>, typeOf: V -> WxType, f: Function, block: Block, arguments: seq<V>, calls: seq<Call<V>>)
    requires Sound(alg, typeOf) && BlockFits(f, block) && Kinds(typeOf, arguments) == Types(block.parameters)
    ensures BlockFlowSound(typeOf, f, RunBlock(alg, f, block, arguments, calls))
  {
    var tys := Types(block.parameters);
    assert |Kinds(typeOf, arguments)| == |block.parameters|;
    BindSound(typeOf, map[], map[], Ids(block.parameters), arguments, tys);
    var env, types := EntryEnv(block.parameters, arguments), EntryEnv(block.parameters, tys);
    InstsSound(alg, typeOf, f.sideExits, block.instructions, env, types, calls, []);
    var flow := RunInsts(alg, f.sideExits, block.instructions, env, calls);
    var typed := RunInsts(StaticAlgebra(), f.sideExits, block.instructions, types, []);
    if flow.Fall? {
      TerminatorSound(alg, typeOf, f, block.terminator, flow.env, typed.env, flow.calls, typed.calls);
    }
  }

  lemma {:induction false} FindBlockAt(blocks: seq<Block>, id: BlockId) returns (k: nat)
    requires FindBlock(blocks, id).Some?
    ensures k < |blocks| && blocks[k] == FindBlock(blocks, id).value && blocks[k].id == id
  {
    if blocks[0].id == id {
      k := 0;
    } else {
      k := FindBlockAt(blocks[1..], id);
      k := k + 1;
    }
  }

  ghost predicate EntersWell<V>(typeOf: V -> WxType, f: Function, id: BlockId, arguments: seq<V>) {
    FindBlock(f.blocks, id).Some? && Kinds(typeOf, arguments) == Types(FindBlock(f.blocks, id).value.parameters)
  }

  lemma VisitSound<V(!new)>(alg: Algebra<V>, typeOf: V -> WxType, f: Function, id: BlockId, arguments: seq<V>, calls: seq<Call<V>>)
    requires Sound(alg, typeOf) && WellFormed(f) && EntersWell(typeOf, f, id, arguments)
    ensures BlockFlowSound(typeOf, f, Visit(alg, f, id, arguments, calls))
  {
    var k := FindBlockAt(f.blocks, id);
    BlockSound(alg, typeOf, f, f.blocks[k], arguments, calls);
  }

  // An accepted function, entered at any block with arguments of its parameters'
  // types, never gets stuck; returns have the declared types, and a side exit
  // delivers every register of its metadata with the type declared there.
  lemma VerifiedNeverStuck<V(!new)>(
    alg: Algebra<V>, typeOf: V -> WxType, f: Function, id: BlockId, arguments: seq<V>, calls: seq<Call<V>>, fuel: nat)
    requires Sound(alg, typeOf) && WellFormed(f) && EntersWell(typeOf, f, id, arguments)
    ensures var outcome := Run(alg, f, id, arguments, calls, fuel);
      outcome.Ended? ==> !outcome.flow.Goto? && BlockFlowSound(typeOf, f, outcome.flow)
  {
    var step := Visits(alg, f);
    var good := (i: BlockId, a: seq<V>) => EntersWell(typeOf, f, i, a);
    var final := (flow: BlockFlow<V>) => BlockFlowSound(typeOf, f, flow);
    forall i, a, c | good(i, a)
      ensures var flow := step(i, a, c); if flow.Goto? then good(flow.block, flow.arguments) else final(flow)
    {
      VisitSound(alg, typeOf, f, i, a, c);
    }
    WalkKeeps(step, good, final, id, arguments, calls, fuel);
  }

  // ------------------------------------------------------------------ entry state

  // Each entry parameter is filled from exactly one register.
  lemma EntryStateCovers(state: seq<StateValue>, parameters: seq<Typed>, p: nat) returns (i: nat)
    requires EntryStateFits(state, parameters) && Distinct(Ids(parameters)) && p < |parameters|
    ensures i < |state| && state[i].value == parameters[p].id && state[i].ty == parameters[p].ty
    ensures forall j :: 0 <= j < |state| && state[j].value == parameters[p].id ==> j == i
  {
    var values, ids := StateValues(state), Ids(parameters);
    var named, all := IdSet(values), IdSet(ids);
    SizeOfDistinct(values);
    SizeOfDistinct(ids);
    forall v | v in named ensures v in all {
      var j :| 0 <= j < |values| && values[j] == v;
      var q :| 0 <= q < |parameters| && parameters[q] == Typed(state[j].value, state[j].ty);
      assert ids[q] == v;
    }
    SubsetOfSameSize(named, all);
    assert ids[p] in all;
    i :| 0 <= i < |values| && values[i] == ids[p];
    var q :| 0 <= q < |parameters| && parameters[q] == Typed(state[i].value, state[i].ty);
    assert ids[q] == ids[p];
    forall j | 0 <= j < |state| && state[j].value == parameters[p].id ensures j == i {
      assert values[j] == values[i];
    }
  }

  lemma {:induction false} SizeOfDistinct(s: seq<nat>)
    requires Distinct(s)
    ensures |IdSet(s)| == |s|
  {
    if s != [] {
      var before, last := s[..|s| - 1], s[|s| - 1];
      assert Distinct(before);
      SizeOfDistinct(before);
      assert last !in before;
      assert s == before + [last];
      assert IdSet(s) == IdSet(before) + {last};
    }
  }

  lemma {:induction false} SubsetOfSameSize(a: set<nat>, b: set<nat>)
    requires a <= b && |a| == |b|
    ensures a == b
    decreases |a|
  {
    if x :| x in a {
      SubsetOfSameSize(a - {x}, b - {x});
      assert a == (a - {x}) + {x} && b == (b - {x}) + {x};
    } else {
      assert a == {};
    }
  }
}
