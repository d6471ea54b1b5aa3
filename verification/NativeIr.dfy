/**
  The snapshot IR of the adaptive runtime (src/adaptive_v2/wxir_v2/ir.rs) and its
  reference interpreter (wxir_v2/replay.rs). Operations that the passes do not look
  into are one kind, run by a machine; where an effect says that nothing is written,
  nothing is.
 */
module NativeIr {
  import opened Wrappers

  type ValueId = nat
  type BlockId = nat
  type Int64 = i: int | -0x8000_0000_0000_0000 <= i < 0x8000_0000_0000_0000

  datatype ValueType = I64 | F64 | Boolean | Handle | BorrowedView

  datatype Constant = IntegerConstant(i: Int64) | OtherConstant(v: Val)

  datatype Effect = Pure | Read | Write | Allocation | Helper | CallEffect | Backedge

  predicate IsBarrier(e: Effect) {
    e.Allocation? || e.Helper? || e.CallEffect? || e.Backedge?
  }

  datatype Kind =
    | Constant(constant: Constant)
    | Copy
    | IntegerAdd
    | ObjectGet
    | ObjectSet
    | Guard(guard: nat)
    | Other(code: nat, direct: bool)  // `direct` for list operations and calls
    | AtPc(pc: nat, operation: Kind)

  function Semantic(kind: Kind): Kind {
    if kind.AtPc? then Semantic(kind.operation) else kind
  }

  datatype Def = Def(id: ValueId, ty: ValueType)

  datatype Inst = Inst(kind: Kind, inputs: seq<ValueId>, output: Option<Def>, effect: Effect, sequence: Option<nat>, safepoint: Option<nat>)

  datatype Terminator =
    | Jump(target: BlockId, arguments: seq<ValueId>)
    | Branch(condition: ValueId, yes: BlockId, no: BlockId)
    | Return(values: seq<ValueId>)
    | SideExitTo(id: nat)
    | Other

  datatype Block = Block(id: BlockId, parameters: seq<Def>, instructions: seq<Inst>, terminator: Terminator)

  datatype Body = Body(entry: BlockId, blocks: seq<Block>)

  // ----------------------------------------------------------------- interpretation

  datatype Val = Integer(i: Int64) | FloatBits(bits: nat) | Truth(b: bool) | HandleOf(h: nat)

  type Objects = map<nat, map<Int64, Val>>

  // The fields of all objects, and everything else.
  datatype World = World(objects: Objects, rest: nat)

  type Env = map<ValueId, Val>

  // `execute` runs the operations that are not looked into.
  datatype Machine = Machine(execute: (nat, seq<Val>, World) -> Option<(Option<Val>, World)>)

  datatype Flow = Next(env: Env, world: World) | Exit(guard: nat, env: Env, world: World) | Invalid

  function Wrapping(i: int): Int64 {
    (i + 0x8000_0000_0000_0000) % 0x1_0000_0000_0000_0000 - 0x8000_0000_0000_0000
  }

  function ReadAll(env: Env, ids: seq<ValueId>): Option<seq<Val>> {
    if forall i :: 0 <= i < |ids| ==> ids[i] in env
    then Some(seq(|ids|, i requires 0 <= i < |ids| => env[ids[i]]))
    else None
  }

  // The result of an operation, if it has one, and the world after it.
  function Execute(m: Machine, kind: Kind, effect: Effect, inputs: seq<Val>, w: World): Option<(Option<Val>, World)> {
    match kind
    case Constant(IntegerConstant(i)) => Some((Some(Integer(i)), w))
    case Constant(OtherConstant(v)) => Some((Some(v), w))
    case Copy => if inputs == [] then None else Some((Some(inputs[0]), w))
    case IntegerAdd =>
      if |inputs| == 2 && inputs[0].Integer? && inputs[1].Integer?
      then Some((Some(Integer(Wrapping(inputs[0].i + inputs[1].i))), w))
      else None
    case ObjectGet =>
      if |inputs| == 2 && inputs[0].HandleOf? && inputs[1].Integer? then
        if inputs[0].h in w.objects && inputs[1].i in w.objects[inputs[0].h]
        then Some((Some(w.objects[inputs[0].h][inputs[1].i]), w))
        else Some((None, w))
      else None
    case ObjectSet =>
      if |inputs| == 3 && inputs[0].HandleOf? && inputs[1].Integer? && inputs[0].h in w.objects
      then Some((None, w.(objects := w.objects[inputs[0].h := w.objects[inputs[0].h][inputs[1].i := inputs[2]]])))
      else None
    case Guard(_) => Some((None, w))
    case Other(code, _) =>
      (match m.execute(code, inputs, w)
       case None => None
       case Some((v, w')) => Some((v, if effect.Pure? || effect.Read? then w else w')))
    case AtPc(_, _) => None
  }

  function Step(m: Machine, inst: Inst, env: Env, w: World): Flow {
    match ReadAll(env, inst.inputs)
    case None => Invalid
    case Some(inputs) =>
      match Execute(m, Semantic(inst.kind), inst.effect, inputs, w)
      case None => Invalid
      case Some((v, w')) =>
        var env' := if inst.output.Some? && v.Some? then env[inst.output.value.id := v.value] else env;
        if Semantic(inst.kind).Guard? && (inputs == [] || inputs[0] != Truth(true))
        then Exit(Semantic(inst.kind).guard, env', w')
        else Next(env', w')
  }

  function Steps(m: Machine, insts: seq<Inst>, env: Env, w: World): Flow
    decreases |insts|
  {
    if insts == [] then Next(env, w)
    else
      match Steps(m, insts[..|insts| - 1], env, w)
      case Next(env', w') => Step(m, insts[|insts| - 1], env', w')
      case other => other
  }

  datatype Outcome = Returned(values: seq<Val>, world: World) | SideExit(id: nat, world: World) | Stuck | StepLimit

  function Bind(env: Env, defs: seq<Def>, vs: seq<Val>): Env
    requires |defs| == |vs|
    decreases |defs|
  {
    if defs == [] then env
    else Bind(env[defs[0].id := vs[0]], defs[1..], vs[1..])
  }

  function FindBlock(blocks: seq<Block>, id: BlockId): Option<Block> {
    if blocks == [] then None
    else if blocks[0].id == id then Some(blocks[0])
    else FindBlock(blocks[1..], id)
  }

  // Where a block leads.
  datatype Visited = Done(outcome: Outcome) | Continue(id: BlockId, incoming: seq<Val>, env: Env, world: World)

  function Follow(t: Terminator, env: Env, w: World): Visited {
    match t
    case Jump(target, arguments) =>
      var vs := ReadAll(env, arguments);
      Continue(target, if vs.Some? then vs.value else [], env, w)
    case Branch(condition, yes, no) =>
      if condition in env && env[condition].Truth?
      then Continue(if env[condition].b then yes else no, [], env, w)
      else Done(Stuck)
    case Return(values) =>
      (match ReadAll(env, values)
       case Some(vs) => Done(Returned(vs, w))
       case None => Done(Stuck))
    case SideExitTo(exit) => Done(SideExit(exit, w))
    case Other => Done(Stuck)
  }

  function Visit(m: Machine, body: Body, id: BlockId, incoming: seq<Val>, env: Env, w: World): Visited {
    match FindBlock(body.blocks, id)
    case None => Done(Stuck)
    case Some(b) =>
      if |b.parameters| != |incoming| then Done(Stuck)
      else
        match Steps(m, b.instructions, Bind(env, b.parameters, incoming), w)
        case Invalid => Done(Stuck)
        case Exit(guard, _, w') => Done(SideExit(guard, w'))
        case Next(env', w') => Follow(b.terminator, env', w')
  }

  // Values stay in scope from block to block; `fuel` is the interpreter's step limit.
  function Replay(m: Machine, body: Body, id: BlockId, incoming: seq<Val>, env: Env, w: World, fuel: nat): Outcome
    decreases fuel
  {
    if fuel == 0 then StepLimit
    else
      match Visit(m, body, id, incoming, env, w)
      case Done(outcome) => outcome
      case Continue(id', incoming', env', w') => Replay(m, body, id', incoming', env', w', fuel - 1)
  }

  lemma {:induction false} StepsAppend(m: Machine, insts: seq<Inst>, inst: Inst, env: Env, w: World)
    ensures Steps(m, insts + [inst], env, w) ==
      match Steps(m, insts, env, w)
      case Next(env', w') => Step(m, inst, env', w')
      case other => other
  {
    assert (insts + [inst])[..|insts|] == insts;
  }

  // A branch goes to its first block exactly on true, and is stuck without a truth value.
  lemma BranchGoes(condition: ValueId, yes: BlockId, no: BlockId, env: Env, w: World)
    ensures condition in env && env[condition] == Truth(true) ==> Follow(Branch(condition, yes, no), env, w) == Continue(yes, [], env, w)
    ensures condition in env && env[condition] == Truth(false) ==> Follow(Branch(condition, yes, no), env, w) == Continue(no, [], env, w)
    ensures condition !in env || !env[condition].Truth? ==> Follow(Branch(condition, yes, no), env, w) == Done(Stuck)
  {
  }

  // A guard lets pass exactly what is true and leaves at its own exit otherwise.
  lemma GuardLeaves(m: Machine, guard: nat, condition: ValueId, effect: Effect, env: Env, w: World)
    requires condition in env
    ensures var inst := Inst(Kind.Guard(guard), [condition], None, effect, None, None);
      Step(m, inst, env, w) == if env[condition] == Truth(true) then Next(env, w) else Exit(guard, env, w)
  {
    assert ReadAll(env, [condition]).value == [env[condition]];
  }
}
