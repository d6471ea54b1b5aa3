/**
  Running the region IR over any domain of values. With types as values a run is
  the verifier's check of a block; with typed bit patterns it is an execution.
  Every use that is undefined, ill-typed or without metadata is `Stuck`.
 */
module WxSemantics {
  import opened Wrappers
  import opened WxIr

  // A runtime call that was made: the program counter and what each register held.
  datatype Call<V> = Call(pc: nat, registers: seq<Register>, inputs: seq<V>)

  datatype CallResult<V> = Done(results: seq<V>) | Failed

  // What a domain provides. `None` means that the operation does not apply; a
  // runtime call sees every call so far, the current one last. `agrees` says of two
  // typed literals that folding an operation on them gives what the operation gives.
  datatype Algebra<!V> = Algebra(
    apply: (Shape, seq<V>, seq<WxType>) -> Option<seq<V>>,
    typed: (V, WxType) -> bool,
    fires: (V, GuardMode) -> Option<bool>,
    call: (seq<Call<V>>, seq<WxType>) -> CallResult<V>,
    agrees: (Shape, Constant, WxType, Constant, WxType) -> bool)

  type Env<V> = map<ValueId, V>

  // What the interpreter resumes with after a side exit.
  datatype Resume<V> = Resume(id: ExitId, kind: ExitKind, pc: nat, registers: seq<Register>, values: seq<V>)

  datatype Flow<V> =
    | Fall(env: Env<V>, calls: seq<Call<V>>)
    | Leave(resume: Resume<V>, calls: seq<Call<V>>)
    | Abort(calls: seq<Call<V>>)
    | Stuck

  function ReadAll<V>(env: Env<V>, ids: seq<ValueId>): (r: Option<seq<V>>)
    ensures r.Some? <==> forall i :: 0 <= i < |ids| ==> ids[i] in env
    ensures r.Some? ==> |r.value| == |ids| && forall i :: 0 <= i < |ids| ==> r.value[i] == env[ids[i]]
  {
    if forall i :: 0 <= i < |ids| ==> ids[i] in env
    then Some(seq(|ids|, i requires 0 <= i < |ids| => env[ids[i]]))
    else None
  }

  predicate AllTyped<V>(alg: Algebra<V>, vs: seq<V>, tys: seq<WxType>) {
    |vs| == |tys| && forall i :: 0 <= i < |vs| ==> alg.typed(vs[i], tys[i])
  }

  // Defined values of the given types.
  function ReadTyped<V>(alg: Algebra<V>, env: Env<V>, ids: seq<ValueId>, tys: seq<WxType>): Option<seq<V>> {
    match ReadAll(env, ids)
    case None => None
    case Some(vs) => if AllTyped(alg, vs, tys) then Some(vs) else None
  }

  function Bind<V>(env: Env<V>, ids: seq<ValueId>, vs: seq<V>): Env<V>
    requires |ids| == |vs|
  {
    if ids == [] then env
    else Bind(env, ids[..|ids| - 1], vs[..|ids| - 1])[ids[|ids| - 1] := vs[|ids| - 1]]
  }

  // The registers that a side exit delivers, if its metadata fits its use.
  function Deliver<V>(alg: Algebra<V>, exits: seq<SideExit>, id: ExitId, guard: bool, env: Env<V>): Option<Resume<V>> {
    match FindExit(exits, id)
    case None => None
    case Some(exit) =>
      if exit.kind == (if guard then RegionExit else Deopt) then None
      else
        match ReadTyped(alg, env, StateValues(exit.state), StateTypes(exit.state))
        case None => None
        case Some(vs) => Some(Resume(id, exit.kind, exit.resumePc, StateRegisters(exit.state), vs))
  }

  function RunPure<V>(alg: Algebra<V>, shape: Shape, operands: seq<ValueId>, results: seq<Typed>, env: Env<V>, calls: seq<Call<V>>): Flow<V> {
    match ReadAll(env, operands)
    case None => Stuck
    case Some(vs) =>
      match alg.apply(shape, vs, Types(results))
      case None => Stuck
      case Some(rs) => if |rs| == |results| then Fall(Bind(env, Ids(results), rs), calls) else Stuck
  }

  function RunGuard<V>(
      alg: Algebra<V>, exits: seq<SideExit>, condition: ValueId, exit: ExitId, mode: GuardMode, results: seq<Typed>,
      env: Env<V>, calls: seq<Call<V>>): Flow<V>
  {
    if results != [] || condition !in env then Stuck
    else
      match Deliver(alg, exits, exit, true, env)
      case None => Stuck
      case Some(resume) =>
        match alg.fires(env[condition], mode)
        case None => Stuck
        case Some(fires) => if fires then Leave(resume, calls) else Fall(env, calls)
  }

  function RunCall<V>(
      alg: Algebra<V>, pc: nat, inputs: seq<RuntimeInput>, output: Option<Register>, results: seq<Typed>,
      env: Env<V>, calls: seq<Call<V>>): Flow<V>
  {
    if (output.Some? && |results| != 1) || (output.None? && results != []) then Stuck
    else
      match ReadTyped(alg, env, InputValues(inputs), InputTypes(inputs))
      case None => Stuck
      case Some(vs) =>
        var calls' := calls + [Call(pc, seq(|inputs|, i requires 0 <= i < |inputs| => inputs[i].register), vs)];
        match alg.call(calls', Types(results))
        case Failed => Abort(calls')
        case Done(rs) => if |rs| == |results| then Fall(Bind(env, Ids(results), rs), calls') else Stuck
  }

  function RunInst<V>(alg: Algebra<V>, exits: seq<SideExit>, inst: Inst, env: Env<V>, calls: seq<Call<V>>): Flow<V> {
    match inst.kind
    case Pure(shape, operands) => RunPure(alg, shape, operands, inst.results, env, calls)
    case Guard(condition, exit, mode) => RunGuard(alg, exits, condition, exit, mode, inst.results, env, calls)
    case RuntimeCall(pc, inputs, output) => RunCall(alg, pc, inputs, output, inst.results, env, calls)
  }

  // The instructions of a block in order, up to the first that leaves.
  function RunInsts<V>(alg: Algebra<V>, exits: seq<SideExit>, insts: seq<Inst>, env: Env<V>, calls: seq<Call<V>>): Flow<V>
    decreases |insts|
  {
    if insts == [] then Fall(env, calls)
    else
      match RunInsts(alg, exits, insts[..|insts| - 1], env, calls)
      case Fall(env', calls') => RunInst(alg, exits, insts[|insts| - 1], env', calls')
      case other => other
  }

  // ----------------------------------------------------------------- terminators

  datatype BlockFlow<V> =
    | Goto(block: BlockId, arguments: seq<V>, calls: seq<Call<V>>)
    | Returned(values: seq<V>, calls: seq<Call<V>>)
    | Left(resume: Resume<V>, calls: seq<Call<V>>)
    | Aborted(calls: seq<Call<V>>)
    | StuckBlock

  // The arguments of an edge, if the target exists and they fit its parameters.
  function Edge<V>(alg: Algebra<V>, f: Function, target: Target, env: Env<V>): Option<seq<V>> {
    match FindBlock(f.blocks, target.block)
    case None => None
    case Some(block) => ReadTyped(alg, env, target.arguments, Types(block.parameters))
  }

  function RunTerminator<V>(alg: Algebra<V>, f: Function, t: Terminator, env: Env<V>, calls: seq<Call<V>>): BlockFlow<V> {
    match t
    case Jump(target) =>
      (match Edge(alg, f, target, env)
       case None => StuckBlock
       case Some(vs) => Goto(target.block, vs, calls))
    case Branch(condition, yes, no) =>
      (match (Edge(alg, f, yes, env), Edge(alg, f, no, env))
       case (Some(ys), Some(ns)) =>
         if condition !in env then StuckBlock
         else
           (match alg.fires(env[condition], ExitWhenTrue)
            case None => StuckBlock
            case Some(taken) => if taken then Goto(yes.block, ys, calls) else Goto(no.block, ns, calls))
       case _ => StuckBlock)
    case Return(values) =>
      (match ReadTyped(alg, env, values, f.resultTypes)
       case None => StuckBlock
       case Some(vs) => Returned(vs, calls))
    case SideExitTo(exit, values) =>
      (match Deliver(alg, f.sideExits, exit, false, env)
       case None => StuckBlock
       case Some(resume) =>
         if FindExit(f.sideExits, exit).Some? && values == StateValues(FindExit(f.sideExits, exit).value.state)
         then Left(resume, calls)
         else StuckBlock)
  }

  function Finish<V>(alg: Algebra<V>, f: Function, t: Terminator, flow: Flow<V>): BlockFlow<V> {
    match flow
    case Fall(env, calls) => RunTerminator(alg, f, t, env, calls)
    case Leave(resume, calls) => Left(resume, calls)
    case Abort(calls) => Aborted(calls)
    case Stuck => StuckBlock
  }

  function EntryEnv<V>(parameters: seq<Typed>, arguments: seq<V>): Env<V>
    requires |parameters| == |arguments|
  {
    Bind(map[], Ids(parameters), arguments)
  }

  // A block run from its parameters; values of other blocks are not in scope.
  function RunBlock<V>(alg: Algebra<V>, f: Function, block: Block, arguments: seq<V>, calls: seq<Call<V>>): BlockFlow<V> {
    if |block.parameters| != |arguments| then StuckBlock
    else
      Finish(alg, f, block.terminator,
             RunInsts(alg, f.sideExits, block.instructions, EntryEnv(block.parameters, arguments), calls))
  }

  datatype Outcome<V> =
    | Ended(flow: BlockFlow<V>)
    | Running             // more blocks than asked for

  // At most `fuel` blocks from a block on, each run by `step`.
  function Walk<V>(
      step: (BlockId, seq<V>, seq<Call<V>>) -> BlockFlow<V>, id: BlockId, arguments: seq<V>, calls: seq<Call<V>>, fuel: nat): Outcome<V>
    decreases fuel
  {
    if fuel == 0 then Running
    else
      match step(id, arguments, calls)
      case Goto(next, arguments', calls') => Walk(step, next, arguments', calls', fuel - 1)
      case other => Ended(other)
  }

  function Visit<V>(alg: Algebra<V>, f: Function, id: BlockId, arguments: seq<V>, calls: seq<Call<V>>): BlockFlow<V> {
    match FindBlock(f.blocks, id)
    case None => StuckBlock
    case Some(block) => RunBlock(alg, f, block, arguments, calls)
  }

  function Visits<V>(alg: Algebra<V>, f: Function): (BlockId, seq<V>, seq<Call<V>>) -> BlockFlow<V> {
    (id: BlockId, arguments: seq<V>, calls: seq<Call<V>>) => Visit(alg, f, id, arguments, calls)
  }

  function Run<V>(alg: Algebra<V>, f: Function, id: BlockId, arguments: seq<V>, calls: seq<Call<V>>, fuel: nat): Outcome<V> {
    Walk(Visits(alg, f), id, arguments, calls, fuel)
  }

  // A property of entries that every block keeps holds along the whole walk.
  lemma {:induction false} WalkKeeps<V(!new)>(
    step: (BlockId, seq<V>, seq<Call<V>>) -> BlockFlow<V>, good: (BlockId, seq<V>) -> bool, final: BlockFlow<V> -> bool,
    id: BlockId, arguments: seq<V>, calls: seq<Call<V>>, fuel: nat)
    requires forall i, a, c {:trigger step(i, a, c)} :: good(i, a) ==>
      var flow := step(i, a, c);
      if flow.Goto? then good(flow.block, flow.arguments) else final(flow)
    requires good(id, arguments)
    ensures var outcome := Walk(step, id, arguments, calls, fuel);
      outcome.Ended? ==> !outcome.flow.Goto? && final(outcome.flow)
    decreases fuel
  {
    if fuel > 0 {
      var flow := step(id, arguments, calls);
      if flow.Goto? {
        WalkKeeps(step, good, final, flow.block, flow.arguments, flow.calls, fuel - 1);
      }
    }
  }

  // Two ways of running blocks that agree wherever the first is not stuck.
  lemma {:induction false} WalkAgrees<V(!new)>(
    step: (BlockId, seq<V>, seq<Call<V>>) -> BlockFlow<V>, step': (BlockId, seq<V>, seq<Call<V>>) -> BlockFlow<V>,
    id: BlockId, arguments: seq<V>, calls: seq<Call<V>>, fuel: nat)
    requires forall i, a, c {:trigger step(i, a, c)} :: step(i, a, c) != StuckBlock ==> step'(i, a, c) == step(i, a, c)
    requires Walk(step, id, arguments, calls, fuel) != Ended(StuckBlock)
    ensures Walk(step', id, arguments, calls, fuel) == Walk(step, id, arguments, calls, fuel)
    decreases fuel
  {
    if fuel > 0 {
      var flow := step(id, arguments, calls);
      if flow.Goto? {
        WalkAgrees(step, step', flow.block, flow.arguments, flow.calls, fuel - 1);
      }
    }
  }

  // ------------------------------------------------------------------ small facts

  lemma {:induction false} BindIn<V>(env: Env<V>, ids: seq<ValueId>, vs: seq<V>)
    requires |ids| == |vs|
    ensures Bind(env, ids, vs).Keys == env.Keys + set id | id in ids
    ensures forall v :: v in env && v !in ids ==> Bind(env, ids, vs)[v] == env[v]
  {
    if ids != [] {
      var last := |ids| - 1;
      BindIn(env, ids[..last], vs[..last]);
      assert ids == ids[..last] + [ids[last]];
    }
  }

  lemma {:induction false} BindAt<V>(env: Env<V>, ids: seq<ValueId>, vs: seq<V>, i: nat)
    requires |ids| == |vs| && i < |ids| && forall a, b :: 0 <= a < b < |ids| ==> ids[a] != ids[b]
    ensures ids[i] in Bind(env, ids, vs) && Bind(env, ids, vs)[ids[i]] == vs[i]
  {
    if i < |ids| - 1 {
      BindAt(env, ids[..|ids| - 1], vs[..|ids| - 1], i);
    }
  }

  lemma {:induction false} RunAppend<V>(alg: Algebra<V>, exits: seq<SideExit>, insts: seq<Inst>, inst: Inst, env: Env<V>, calls: seq<Call<V>>)
    ensures RunInsts(alg, exits, insts + [inst], env, calls) ==
      match RunInsts(alg, exits, insts, env, calls)
      case Fall(env', calls') => RunInst(alg, exits, inst, env', calls')
      case other => other
  {
    assert (insts + [inst])[..|insts|] == insts;
  }
}
