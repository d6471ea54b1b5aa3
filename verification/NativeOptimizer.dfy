/**
  Four passes of the native optimizer (src/adaptive_v2/native/optimizer.rs):
  constant folding, store-to-load forwarding, value numbering of additions and
  stripping of program counters. Each works block by block with a table; in any
  order they keep what a snapshot does.
 */
module NativeOptimizer {
  import opened Wrappers
  import opened NativeIr

  // ------------------------------------------------------------- single assignment

  function Defined(inst: Inst): set<ValueId> {
    if inst.output.Some? then {inst.output.value.id} else {}
  }

  // The ids that a block has read or written.
  function Mentioned(insts: seq<Inst>): set<ValueId> {
    if insts == [] then {}
    else
      var last := insts[|insts| - 1];
      Mentioned(insts[..|insts| - 1]) + (set v | v in last.inputs) + Defined(last)
  }

  // Within a block an id is written once, and not after it was read.
  predicate SingleAssignment(insts: seq<Inst>) {
    insts == [] ||
    var before, last := insts[..|insts| - 1], insts[|insts| - 1];
    SingleAssignment(before) && Defined(last) !! Mentioned(before) + set v | v in last.inputs
  }

  lemma StepChanges(m: Machine, inst: Inst, env: Env, w: World)
    requires Step(m, inst, env, w).Next?
    ensures forall v :: v in env && v !in Defined(inst) ==> v in Step(m, inst, env, w).env && Step(m, inst, env, w).env[v] == env[v]
  {
  }

  // ------------------------------------------------------------------ constant folding

  type Constants = map<ValueId, Int64>

  function Sum(a: int, b: int): int {
    a + b
  }

  predicate FitsInt64(i: int) {
    -0x8000_0000_0000_0000 <= i < 0x8000_0000_0000_0000
  }

  function FoldOne(constants: Constants, inst: Inst): (Inst, Constants) {
    match Semantic(inst.kind)
    case Constant(IntegerConstant(i)) =>
      (inst, if inst.output.Some? then constants[inst.output.value.id := i] else constants)
    case IntegerAdd =>
      if |inst.inputs| == 2 && inst.inputs[0] in constants && inst.inputs[1] in constants
         && FitsInt64(Sum(constants[inst.inputs[0]], constants[inst.inputs[1]]))
      then
        var sum: Int64 := Sum(constants[inst.inputs[0]], constants[inst.inputs[1]]);
        (inst.(kind := Constant(IntegerConstant(sum)), inputs := []),
         if inst.output.Some? then constants[inst.output.value.id := sum] else constants)
      else (inst, constants)
    case _ => (inst, constants)
  }

  function Fold(insts: seq<Inst>): (seq<Inst>, Constants) {
    if insts == [] then ([], map[])
    else
      var (done, constants) := Fold(insts[..|insts| - 1]);
      var (inst, constants') := FoldOne(constants, insts[|insts| - 1]);
      (done + [inst], constants')
  }

  ghost predicate ConstantsHold(constants: Constants, env: Env) {
    forall v :: v in constants ==> v in env && env[v] == Integer(constants[v])
  }

  lemma FoldStep(m: Machine, constants: Constants, inst: Inst, before: set<ValueId>, env: Env, w: World)
    requires ConstantsHold(constants, env) && constants.Keys <= before && Defined(inst) !! before
    ensures var (inst', constants') := FoldOne(constants, inst);
      && Step(m, inst', env, w) == Step(m, inst, env, w)
      && (Step(m, inst, env, w).Next? ==> ConstantsHold(constants', Step(m, inst, env, w).env))
      && constants'.Keys <= before + Defined(inst)
  {
    var (inst', constants') := FoldOne(constants, inst);
    if Step(m, inst, env, w).Next? {
      StepChanges(m, inst, env, w);
    }
    if inst' != inst {
      assert ReadAll(env, inst.inputs).value == [env[inst.inputs[0]], env[inst.inputs[1]]];
    }
  }

  lemma {:induction false} FoldFollows(m: Machine, insts: seq<Inst>, env: Env, w: World)
    requires SingleAssignment(insts)
    ensures Steps(m, Fold(insts).0, env, w) == Steps(m, insts, env, w)
    ensures Steps(m, insts, env, w).Next? ==> ConstantsHold(Fold(insts).1, Steps(m, insts, env, w).env)
    ensures Fold(insts).1.Keys <= Mentioned(insts)
    decreases |insts|
  {
    if insts != [] {
      var before, last := insts[..|insts| - 1], insts[|insts| - 1];
      FoldFollows(m, before, env, w);
      var (done, constants) := Fold(before);
      var inst := FoldOne(constants, last).0;
      StepsAppend(m, done, inst, env, w);
      var flow := Steps(m, before, env, w);
      if flow.Next? {
        FoldStep(m, constants, last, Mentioned(before), flow.env, flow.world);
      }
    }
  }

  // ------------------------------------------------------- store-to-load forwarding

  // The value last stored through an object id and a key id.
  type Fields = map<(ValueId, ValueId), ValueId>

  function ForwardOne(types: map<ValueId, ValueType>, fields: Fields, inst: Inst): (Inst, Fields) {
    var kind := Semantic(inst.kind);
    if kind.ObjectSet? && |inst.inputs| == 3 then
      (inst, map[(inst.inputs[0], inst.inputs[1]) := inst.inputs[2]])
    else if kind.ObjectGet? && |inst.inputs| == 2 then
      var key := (inst.inputs[0], inst.inputs[1]);
      if key in fields && inst.output.Some? && fields[key] in types && types[fields[key]] == inst.output.value.ty
      then (inst.(kind := Copy, inputs := [fields[key]], effect := Pure), fields)
      else (inst, fields)
    else if IsBarrier(inst.effect) || inst.effect.Write? then (inst, map[])
    else (inst, fields)
  }

  function Forward(types: map<ValueId, ValueType>, insts: seq<Inst>): (seq<Inst>, Fields) {
    if insts == [] then ([], map[])
    else
      var (done, fields) := Forward(types, insts[..|insts| - 1]);
      var (inst, fields') := ForwardOne(types, fields, insts[|insts| - 1]);
      (done + [inst], fields')
  }

  // The object holds under the key what the stored id holds; other ids may well be
  // handles of the same object.
  ghost predicate FieldHolds(key: (ValueId, ValueId), stored: ValueId, env: Env, w: World) {
    && key.0 in env && key.1 in env && stored in env
    && env[key.0].HandleOf? && env[key.1].Integer?
    && env[key.0].h in w.objects && env[key.1].i in w.objects[env[key.0].h]
    && w.objects[env[key.0].h][env[key.1].i] == env[stored]
  }

  ghost predicate FieldsHold(fields: Fields, env: Env, w: World) {
    forall key :: key in fields ==> FieldHolds(key, fields[key], env, w)
  }

  predicate FieldsWithin(fields: Fields, ids: set<ValueId>) {
    forall key :: key in fields ==> key.0 in ids && key.1 in ids && fields[key] in ids
  }

  lemma FieldsCarry(m: Machine, fields: Fields, inst: Inst, before: set<ValueId>, env: Env, w: World)
    requires FieldsHold(fields, env, w) && FieldsWithin(fields, before) && Defined(inst) !! before
    requires Step(m, inst, env, w).Next? && Step(m, inst, env, w).world.objects == w.objects
    ensures FieldsHold(fields, Step(m, inst, env, w).env, Step(m, inst, env, w).world)
  {
    hide Step;
    forall key | key in fields ensures FieldHolds(key, fields[key], Step(m, inst, env, w).env, Step(m, inst, env, w).world) {
      StepChanges(m, inst, env, w);
    }
  }

  // What an operation that is neither a store, a write nor a barrier leaves alone.
  lemma StepKeepsObjects(m: Machine, inst: Inst, env: Env, w: World)
    requires Step(m, inst, env, w).Next? && !Semantic(inst.kind).ObjectSet?
    requires !IsBarrier(inst.effect) && !inst.effect.Write?
    ensures Step(m, inst, env, w).world == w
  {
  }

  lemma StepOfGet(m: Machine, inst: Inst, env: Env, w: World)
    requires Step(m, inst, env, w).Next? && Semantic(inst.kind).ObjectGet?
    ensures Step(m, inst, env, w).world == w
  {
  }

  lemma StoreHolds(m: Machine, inst: Inst, before: set<ValueId>, env: Env, w: World)
    requires Step(m, inst, env, w).Next? && Semantic(inst.kind).ObjectSet? && |inst.inputs| == 3
    ensures FieldsHold(map[(inst.inputs[0], inst.inputs[1]) := inst.inputs[2]], Step(m, inst, env, w).env, Step(m, inst, env, w).world)
  {
    var inputs := ReadAll(env, inst.inputs).value;
    assert inputs[0] == env[inst.inputs[0]] && inputs[1] == env[inst.inputs[1]] && inputs[2] == env[inst.inputs[2]];
  }

  lemma ForwardedGet(m: Machine, inst: Inst, key: (ValueId, ValueId), stored: ValueId, env: Env, w: World)
    requires Semantic(inst.kind).ObjectGet? && inst.inputs == [key.0, key.1] && FieldHolds(key, stored, env, w)
    ensures Step(m, inst.(kind := Copy, inputs := [stored], effect := Pure), env, w) == Step(m, inst, env, w)
  {
    assert ReadAll(env, inst.inputs).value == [env[key.0], env[key.1]];
    assert ReadAll(env, [stored]).value == [env[stored]];
  }

  lemma ForwardStep(m: Machine, types: map<ValueId, ValueType>, fields: Fields, inst: Inst, before: set<ValueId>, env: Env, w: World)
    requires FieldsHold(fields, env, w) && FieldsWithin(fields, before)
    requires Defined(inst) !! before + set v | v in inst.inputs
    ensures var (inst', fields') := ForwardOne(types, fields, inst);
      && Step(m, inst', env, w) == Step(m, inst, env, w)
      && (Step(m, inst, env, w).Next? ==> FieldsHold(fields', Step(m, inst, env, w).env, Step(m, inst, env, w).world))
  {
    hide Step, FieldsHold, FieldHolds;
    var kind := Semantic(inst.kind);
    var flow := Step(m, inst, env, w);
    if kind.ObjectSet? && |inst.inputs| == 3 {
      if flow.Next? {
        StoreHolds(m, inst, before, env, w);
      }
    } else if kind.ObjectGet? && |inst.inputs| == 2 {
      var key := (inst.inputs[0], inst.inputs[1]);
      if ForwardOne(types, fields, inst).0 != inst {
        FieldsHoldAt(fields, key, env, w);
        ForwardedGet(m, inst, key, fields[key], env, w);
      }
      if flow.Next? {
        StepOfGet(m, inst, env, w);
        FieldsCarry(m, fields, inst, before, env, w);
      }
    } else if IsBarrier(inst.effect) || inst.effect.Write? {
      if flow.Next? {
        NothingHolds(flow.env, flow.world);
      }
    } else if flow.Next? {
      StepKeepsObjects(m, inst, env, w) by {
        if kind.ObjectSet? { StoreArity(m, inst, env, w); }
      }
      FieldsCarry(m, fields, inst, before, env, w);
    }
  }

  lemma NothingHolds(env: Env, w: World)
    ensures FieldsHold(map[], env, w)
  {
  }

  lemma FieldsHoldAt(fields: Fields, key: (ValueId, ValueId), env: Env, w: World)
    requires FieldsHold(fields, env, w) && key in fields
    ensures FieldHolds(key, fields[key], env, w)
  {
  }

  lemma StoreArity(m: Machine, inst: Inst, env: Env, w: World)
    requires Semantic(inst.kind).ObjectSet? && Step(m, inst, env, w).Next?
    ensures |inst.inputs| == 3
  {
  }

  lemma {:induction false} ForwardWithin(types: map<ValueId, ValueType>, insts: seq<Inst>)
    ensures FieldsWithin(Forward(types, insts).1, Mentioned(insts))
    decreases |insts|
  {
    if insts != [] {
      var before, last := insts[..|insts| - 1], insts[|insts| - 1];
      ForwardWithin(types, before);
      assert forall v :: v in last.inputs ==> v in Mentioned(insts);
    }
  }

  lemma {:induction false} ForwardFollows(m: Machine, types: map<ValueId, ValueType>, insts: seq<Inst>, env: Env, w: World)
    requires SingleAssignment(insts)
    ensures Steps(m, Forward(types, insts).0, env, w) == Steps(m, insts, env, w)
    ensures Steps(m, insts, env, w).Next? ==>
      FieldsHold(Forward(types, insts).1, Steps(m, insts, env, w).env, Steps(m, insts, env, w).world)
    decreases |insts|
  {
    if insts != [] {
      hide Step, ForwardOne, FieldsHold;
      var before, last := insts[..|insts| - 1], insts[|insts| - 1];
      ForwardFollows(m, types, before, env, w);
      ForwardWithin(types, before);
      var (done, fields) := Forward(types, before);
      var inst := ForwardOne(types, fields, last).0;
      StepsAppend(m, done, inst, env, w);
      var flow := Steps(m, before, env, w);
      if flow.Next? {
        ForwardStep(m, types, fields, last, Mentioned(before), flow.env, flow.world);
      }
    } else {
      NothingHolds(env, w);
    }
  }

  // ---------------------------------------------------------------- value numbering

  type Additions = map<(ValueId, ValueId), ValueId>

  function Sorted(a: ValueId, b: ValueId): (ValueId, ValueId) {
    if b < a then (b, a) else (a, b)
  }

  function NumberOne(adds: Additions, inst: Inst): (Inst, Additions) {
    if IsBarrier(inst.effect) then (inst, map[])
    else if Semantic(inst.kind).IntegerAdd? && inst.effect.Pure? && |inst.inputs| == 2 then
      var key := Sorted(inst.inputs[0], inst.inputs[1]);
      if key in adds then (inst.(kind := Copy, inputs := [adds[key]]), adds)
      else (inst, if inst.output.Some? then adds[key := inst.output.value.id] else adds)
    else (inst, adds)
  }

  function Number(insts: seq<Inst>): (seq<Inst>, Additions) {
    if insts == [] then ([], map[])
    else
      var (done, adds) := Number(insts[..|insts| - 1]);
      var (inst, adds') := NumberOne(adds, insts[|insts| - 1]);
      (done + [inst], adds')
  }

  ghost predicate AdditionHolds(key: (ValueId, ValueId), result: ValueId, env: Env) {
    && key.0 in env && key.1 in env && result in env
    && env[key.0].Integer? && env[key.1].Integer?
    && env[result] == Integer(Wrapping(Sum(env[key.0].i, env[key.1].i)))
  }

  ghost predicate AdditionsHold(adds: Additions, env: Env) {
    forall key :: key in adds ==> AdditionHolds(key, adds[key], env)
  }

  predicate AdditionsWithin(adds: Additions, ids: set<ValueId>) {
    forall key :: key in adds ==> key.0 in ids && key.1 in ids && adds[key] in ids
  }

  // The value of an addition does not depend on the order of its operands.
  lemma AddOf(m: Machine, inst: Inst, env: Env, w: World)
    requires Semantic(inst.kind).IntegerAdd? && |inst.inputs| == 2
    ensures var (a, b) := Sorted(inst.inputs[0], inst.inputs[1]);
      && Step(m, inst, env, w) ==
         (if a in env && b in env && env[a].Integer? && env[b].Integer? then
            var sum := Integer(Wrapping(Sum(env[a].i, env[b].i)));
            Next(if inst.output.Some? then env[inst.output.value.id := sum] else env, w)
          else Invalid)
  {
    if inst.inputs[0] in env && inst.inputs[1] in env {
      assert ReadAll(env, inst.inputs).value == [env[inst.inputs[0]], env[inst.inputs[1]]];
    }
  }

  lemma CopyOf(m: Machine, inst: Inst, source: ValueId, env: Env, w: World)
    requires inst.kind == Copy && inst.inputs == [source] && source in env
    ensures Step(m, inst, env, w) == Next(if inst.output.Some? then env[inst.output.value.id := env[source]] else env, w)
  {
    assert ReadAll(env, [source]).value == [env[source]];
  }

  lemma AdditionsCarry(m: Machine, adds: Additions, inst: Inst, before: set<ValueId>, env: Env, w: World)
    requires AdditionsHold(adds, env) && AdditionsWithin(adds, before) && Defined(inst) !! before
    requires Step(m, inst, env, w).Next?
    ensures AdditionsHold(adds, Step(m, inst, env, w).env)
  {
    hide Step;
    forall key | key in adds ensures AdditionHolds(key, adds[key], Step(m, inst, env, w).env) {
      StepChanges(m, inst, env, w);
    }
  }

  lemma NumberStep(m: Machine, adds: Additions, inst: Inst, before: set<ValueId>, env: Env, w: World)
    requires AdditionsHold(adds, env) && AdditionsWithin(adds, before)
    requires Defined(inst) !! before + set v | v in inst.inputs
    ensures var (inst', adds') := NumberOne(adds, inst);
      && Step(m, inst', env, w) == Step(m, inst, env, w)
      && (Step(m, inst, env, w).Next? ==> AdditionsHold(adds', Step(m, inst, env, w).env))
  {
    hide Step;
    var flow := Step(m, inst, env, w);
    if flow.Next? {
      AdditionsCarry(m, adds, inst, before, env, w);
    }
    if !IsBarrier(inst.effect) && Semantic(inst.kind).IntegerAdd? && inst.effect.Pure? && |inst.inputs| == 2 {
      var key := Sorted(inst.inputs[0], inst.inputs[1]);
      AddOf(m, inst, env, w);
      assert key.0 in inst.inputs && key.1 in inst.inputs;
      if key in adds {
        assert AdditionHolds(key, adds[key], env);
        CopyOf(m, NumberOne(adds, inst).0, adds[key], env, w);
      } else if inst.output.Some? && flow.Next? {
        assert AdditionHolds(key, inst.output.value.id, flow.env);
      }
    }
  }

  lemma {:induction false} NumberWithin(insts: seq<Inst>)
    ensures AdditionsWithin(Number(insts).1, Mentioned(insts))
    decreases |insts|
  {
    if insts != [] {
      var before, last := insts[..|insts| - 1], insts[|insts| - 1];
      NumberWithin(before);
      assert forall v :: v in last.inputs ==> v in Mentioned(insts);
    }
  }

  lemma {:induction false} NumberFollows(m: Machine, insts: seq<Inst>, env: Env, w: World)
    requires SingleAssignment(insts)
    ensures Steps(m, Number(insts).0, env, w) == Steps(m, insts, env, w)
    ensures Steps(m, insts, env, w).Next? ==> AdditionsHold(Number(insts).1, Steps(m, insts, env, w).env)
    decreases |insts|
  {
    if insts != [] {
      hide Step, NumberOne, AdditionHolds;
      var before, last := insts[..|insts| - 1], insts[|insts| - 1];
      NumberFollows(m, before, env, w);
      NumberWithin(before);
      var (done, adds) := Number(before);
      var inst := NumberOne(adds, last).0;
      StepsAppend(m, done, inst, env, w);
      var flow := Steps(m, before, env, w);
      if flow.Next? {
        NumberStep(m, adds, last, Mentioned(before), flow.env, flow.world);
      }
    }
  }

  // ------------------------------------------------------------- direct operations

  predicate IsDirect(kind: Kind) {
    kind.ObjectGet? || kind.ObjectSet? || (kind.Other? && kind.direct)
  }

  function DirectOne(inst: Inst): Inst {
    if inst.kind.AtPc? && IsDirect(Semantic(inst.kind.operation)) then inst.(kind := inst.kind.operation) else inst
  }

  function Direct(insts: seq<Inst>): seq<Inst> {
    if insts == [] then [] else Direct(insts[..|insts| - 1]) + [DirectOne(insts[|insts| - 1])]
  }

  lemma {:induction false} DirectFollows(m: Machine, insts: seq<Inst>, env: Env, w: World)
    ensures Steps(m, Direct(insts), env, w) == Steps(m, insts, env, w)
    decreases |insts|
  {
    if insts != [] {
      var before, last := insts[..|insts| - 1], insts[|insts| - 1];
      DirectFollows(m, before, env, w);
      StepsAppend(m, Direct(before), DirectOne(last), env, w);
    }
  }

  // ------------------------------------------------------------------------- passes

  datatype Pass = PropagateAndFold | DirectOperations | HeapForward | ValueNumbering

  function PassOver(pass: Pass, types: map<ValueId, ValueType>, insts: seq<Inst>): seq<Inst> {
    match pass
    case PropagateAndFold => Fold(insts).0
    case DirectOperations => Direct(insts)
    case HeapForward => Forward(types, insts).0
    case ValueNumbering => Number(insts).0
  }

  lemma PassFollows(m: Machine, pass: Pass, types: map<ValueId, ValueType>, insts: seq<Inst>, env: Env, w: World)
    requires SingleAssignment(insts)
    ensures Steps(m, PassOver(pass, types, insts), env, w) == Steps(m, insts, env, w)
  {
    match pass
    case PropagateAndFold => FoldFollows(m, insts, env, w);
    case DirectOperations => DirectFollows(m, insts, env, w);
    case HeapForward => ForwardFollows(m, types, insts, env, w);
    case ValueNumbering => NumberFollows(m, insts, env, w);
  }

  // An instruction that writes what the other writes and reads what it or the
  // instructions before it mention.
  predicate Narrower(inst: Inst, inst': Inst, before: set<ValueId>) {
    inst'.output == inst.output && forall v :: v in inst'.inputs ==> v in inst.inputs || v in before
  }

  lemma MentionedAppend(insts: seq<Inst>, inst: Inst)
    ensures Mentioned(insts + [inst]) == Mentioned(insts) + (set v | v in inst.inputs) + Defined(inst)
    ensures SingleAssignment(insts + [inst]) <==> SingleAssignment(insts) && Defined(inst) !! Mentioned(insts) + set v | v in inst.inputs
  {
    assert (insts + [inst])[..|insts|] == insts;
  }

  lemma NarrowerSingle(before: seq<Inst>, before': seq<Inst>, inst: Inst, inst': Inst)
    requires SingleAssignment(before + [inst]) && SingleAssignment(before')
    requires Mentioned(before') <= Mentioned(before) && Narrower(inst, inst', Mentioned(before))
    ensures SingleAssignment(before' + [inst']) && Mentioned(before' + [inst']) <= Mentioned(before + [inst])
  {
    MentionedAppend(before, inst);
    MentionedAppend(before', inst');
  }

  // Every pass keeps single assignment.
  lemma {:induction false} PassSingle(pass: Pass, types: map<ValueId, ValueType>, insts: seq<Inst>)
    requires SingleAssignment(insts)
    ensures SingleAssignment(PassOver(pass, types, insts)) && Mentioned(PassOver(pass, types, insts)) <= Mentioned(insts)
    decreases |insts|
  {
    if insts != [] {
      var before, last := insts[..|insts| - 1], insts[|insts| - 1];
      assert insts == before + [last];
      PassSingle(pass, types, before);
      var last' := LastOfPass(pass, types, before, last);
      NarrowerSingle(before, PassOver(pass, types, before), last, last');
    }
  }

  lemma LastOfPass(pass: Pass, types: map<ValueId, ValueType>, before: seq<Inst>, last: Inst) returns (last': Inst)
    ensures PassOver(pass, types, before + [last]) == PassOver(pass, types, before) + [last']
    ensures Narrower(last, last', Mentioned(before))
  {
    var insts := before + [last];
    assert insts[..|insts| - 1] == before;
    match pass {
      case PropagateAndFold => last' := FoldOne(Fold(before).1, last).0;
      case DirectOperations => last' := DirectOne(last);
      case HeapForward =>
        ForwardWithin(types, before);
        last' := ForwardOne(types, Forward(types, before).1, last).0;
      case ValueNumbering =>
        NumberWithin(before);
        last' := NumberOne(Number(before).1, last).0;
    }
  }

  // ------------------------------------------------------------------ whole snapshots

  function DefTypes(defs: seq<Def>): map<ValueId, ValueType> {
    if defs == [] then map[] else DefTypes(defs[..|defs| - 1])[defs[|defs| - 1].id := defs[|defs| - 1].ty]
  }

  function OutputTypes(insts: seq<Inst>): map<ValueId, ValueType> {
    if insts == [] then map[]
    else
      var output := insts[|insts| - 1].output;
      if output.Some? then OutputTypes(insts[..|insts| - 1])[output.value.id := output.value.ty]
      else OutputTypes(insts[..|insts| - 1])
  }

  function ValueTypes(blocks: seq<Block>): map<ValueId, ValueType> {
    if blocks == [] then map[]
    else
      var last := blocks[|blocks| - 1];
      ValueTypes(blocks[..|blocks| - 1]) + DefTypes(last.parameters) + OutputTypes(last.instructions)
  }

  // The block gives the id this type, as a parameter or as an output.
  predicate Gives(b: Block, id: ValueId, ty: ValueType) {
    || Def(id, ty) in b.parameters
    || (exists i :: 0 <= i < |b.instructions| && b.instructions[i].output == Some(Def(id, ty)))
  }

  lemma {:induction false} DefTypesExactly(defs: seq<Def>, id: ValueId)
    ensures id in DefTypes(defs) <==> exists ty :: Def(id, ty) in defs
    ensures id in DefTypes(defs) ==> Def(id, DefTypes(defs)[id]) in defs
  {
    if defs != [] {
      var before, last := defs[..|defs| - 1], defs[|defs| - 1];
      DefTypesExactly(before, id);
      assert defs == before + [last];
      assert last == Def(last.id, last.ty);
      if ty :| Def(id, ty) in defs {
        assert Def(id, ty) in before || Def(id, ty) == last;
      }
    }
  }

  predicate Outputs(insts: seq<Inst>, id: ValueId, ty: ValueType) {
    exists i :: 0 <= i < |insts| && insts[i].output == Some(Def(id, ty))
  }

  lemma OutputsAppend(before: seq<Inst>, last: Inst, id: ValueId, ty: ValueType)
    ensures Outputs(before + [last], id, ty) <==> Outputs(before, id, ty) || last.output == Some(Def(id, ty))
  {
    var insts := before + [last];
    assert insts[|before|] == last;
    if i :| 0 <= i < |before| && before[i].output == Some(Def(id, ty)) {
      assert insts[i].output == Some(Def(id, ty));
    }
  }

  lemma {:induction false} OutputTypesExactly(insts: seq<Inst>, id: ValueId)
    ensures id in OutputTypes(insts) <==> exists ty :: Outputs(insts, id, ty)
    ensures id in OutputTypes(insts) ==> Outputs(insts, id, OutputTypes(insts)[id])
  {
    if insts != [] {
      var before, last := insts[..|insts| - 1], insts[|insts| - 1];
      OutputTypesExactly(before, id);
      assert insts == before + [last];
      forall ty ensures Outputs(insts, id, ty) <==> Outputs(before, id, ty) || last.output == Some(Def(id, ty)) {
        OutputsAppend(before, last, id, ty);
      }
      if last.output.Some? {
        assert last.output == Some(Def(last.output.value.id, last.output.value.ty));
      }
    }
  }

  // The type table knows exactly the ids that the snapshot defines, and for each a type
  // that the snapshot gives it.
  lemma {:induction false} TypesExactly(blocks: seq<Block>, id: ValueId)
    ensures id in ValueTypes(blocks) <==> exists k, ty :: 0 <= k < |blocks| && Gives(blocks[k], id, ty)
    ensures id in ValueTypes(blocks) ==> exists k :: 0 <= k < |blocks| && Gives(blocks[k], id, ValueTypes(blocks)[id])
  {
    if blocks != [] {
      var n := |blocks| - 1;
      var before, last := blocks[..n], blocks[n];
      TypesExactly(before, id);
      DefTypesExactly(last.parameters, id);
      OutputTypesExactly(last.instructions, id);
      forall k, ty | 0 <= k < n ensures Gives(before[k], id, ty) == Gives(blocks[k], id, ty) {
      }
      forall ty ensures Gives(last, id, ty) <==> Def(id, ty) in last.parameters || Outputs(last.instructions, id, ty) {
      }
    }
  }

  function OverBlocks(pass: Pass, types: map<ValueId, ValueType>, blocks: seq<Block>): seq<Block> {
    seq(|blocks|, i requires 0 <= i < |blocks| => blocks[i].(instructions := PassOver(pass, types, blocks[i].instructions)))
  }

  function Applied(pass: Pass, body: Body): Body {
    body.(blocks := OverBlocks(pass, ValueTypes(body.blocks), body.blocks))
  }

  function AppliedAll(passes: seq<Pass>, body: Body): Body {
    if passes == [] then body else Applied(passes[|passes| - 1], AppliedAll(passes[..|passes| - 1], body))
  }

  // Each block writes its ids once, after no use of them; blocks may repeat.
  predicate BodySingle(body: Body) {
    forall i :: 0 <= i < |body.blocks| ==> SingleAssignment(body.blocks[i].instructions)
  }

  lemma {:induction false} FindPassed(pass: Pass, types: map<ValueId, ValueType>, blocks: seq<Block>, id: BlockId)
    ensures FindBlock(OverBlocks(pass, types, blocks), id) ==
      match FindBlock(blocks, id)
      case None => None
      case Some(b) => Some(b.(instructions := PassOver(pass, types, b.instructions)))
  {
    if blocks != [] && blocks[0].id != id {
      FindPassed(pass, types, blocks[1..], id);
      assert OverBlocks(pass, types, blocks)[1..] == OverBlocks(pass, types, blocks[1..]);
    }
  }

  lemma {:induction false} FoundSingle(blocks: seq<Block>, id: BlockId)
    requires forall i :: 0 <= i < |blocks| ==> SingleAssignment(blocks[i].instructions)
    requires FindBlock(blocks, id).Some?
    ensures SingleAssignment(FindBlock(blocks, id).value.instructions)
  {
    if blocks[0].id != id {
      FoundSingle(blocks[1..], id);
    }
  }

  lemma AppliedVisit(m: Machine, pass: Pass, body: Body, id: BlockId, incoming: seq<Val>, env: Env, w: World)
    requires BodySingle(body)
    ensures Visit(m, Applied(pass, body), id, incoming, env, w) == Visit(m, body, id, incoming, env, w)
  {
    hide Steps, PassOver, Bind, SingleAssignment, Follow;
    var types := ValueTypes(body.blocks);
    FindPassed(pass, types, body.blocks, id);
    if FindBlock(body.blocks, id).Some? {
      var b := FindBlock(body.blocks, id).value;
      FoundSingle(body.blocks, id);
      if |b.parameters| == |incoming| {
        PassFollows(m, pass, types, b.instructions, Bind(env, b.parameters, incoming), w);
      }
    }
  }

  lemma {:induction false} AppliedReplay(m: Machine, pass: Pass, body: Body, id: BlockId, incoming: seq<Val>, env: Env, w: World, fuel: nat)
    requires BodySingle(body)
    ensures Replay(m, Applied(pass, body), id, incoming, env, w, fuel) == Replay(m, body, id, incoming, env, w, fuel)
    decreases fuel
  {
    hide Visit, Applied, BodySingle;
    if fuel > 0 {
      AppliedVisit(m, pass, body, id, incoming, env, w);
      var visited := Visit(m, body, id, incoming, env, w);
      if visited.Continue? {
        AppliedReplay(m, pass, body, visited.id, visited.incoming, visited.env, visited.world, fuel - 1);
      }
    }
  }

  lemma AppliedSingle(pass: Pass, body: Body)
    requires BodySingle(body)
    ensures BodySingle(Applied(pass, body))
  {
    forall i | 0 <= i < |body.blocks| ensures SingleAssignment(Applied(pass, body).blocks[i].instructions) {
      PassSingle(pass, ValueTypes(body.blocks), body.blocks[i].instructions);
    }
  }

  // The passes, in any order and number, keep the result, the side exit and the heap
  // of a snapshot, for all inputs and whatever objects the handles alias.
  lemma {:induction false} PassesKeepReplay(
    m: Machine, passes: seq<Pass>, body: Body, incoming: seq<Val>, env: Env, w: World, fuel: nat)
    requires BodySingle(body)
    ensures BodySingle(AppliedAll(passes, body))
    ensures Replay(m, AppliedAll(passes, body), body.entry, incoming, env, w, fuel) == Replay(m, body, body.entry, incoming, env, w, fuel)
    decreases |passes|
  {
    if passes != [] {
      var before, last := passes[..|passes| - 1], passes[|passes| - 1];
      PassesKeepReplay(m, before, body, incoming, env, w, fuel);
      AppliedReplay(m, last, AppliedAll(before, body), body.entry, incoming, env, w, fuel);
      AppliedSingle(last, AppliedAll(before, body));
    }
  }

  // ------------------------------------------------------------- the passes as they run

  method FoldInst(constants: Constants, inst: Inst) returns (inst': Inst, constants': Constants)
    ensures (inst', constants') == FoldOne(constants, inst)
  {
    inst', constants' := inst, constants;
    match Semantic(inst.kind)
    case Constant(IntegerConstant(value)) =>
      if inst.output.Some? {
        constants' := constants[inst.output.value.id := value];
      }
    case IntegerAdd =>
      if |inst.inputs| == 2 && inst.inputs[0] in constants && inst.inputs[1] in constants {
        var sum := Sum(constants[inst.inputs[0]], constants[inst.inputs[1]]);
        if FitsInt64(sum) {
          inst' := inst.(kind := Constant(IntegerConstant(sum)), inputs := []);
          if inst.output.Some? {
            constants' := constants[inst.output.value.id := sum];
          }
        }
      }
    case _ =>
  }

  method FoldBlock(insts: seq<Inst>) returns (done: seq<Inst>, changed: bool)
    ensures done == Fold(insts).0 && (changed <==> done != insts)
  {
    done, changed := [], false;
    var constants: Constants := map[];
    for i := 0 to |insts|
      invariant (done, constants) == Fold(insts[..i])
      invariant |done| == i && (changed <==> done != insts[..i])
    {
      assert insts[..i + 1][..i] == insts[..i];
      var inst;
      inst, constants := FoldInst(constants, insts[i]);
      Extended(done, insts, i, inst);
      changed := changed || inst != insts[i];
      done := done + [inst];
    }
    assert insts[..|insts|] == insts;
  }

  lemma Extended(done: seq<Inst>, insts: seq<Inst>, i: nat, inst: Inst)
    requires i < |insts| && |done| == i
    ensures done + [inst] != insts[..i + 1] <==> done != insts[..i] || inst != insts[i]
  {
    if done + [inst] == insts[..i + 1] {
      assert (done + [inst])[..i] == done && insts[..i + 1][..i] == insts[..i];
      assert (done + [inst])[i] == insts[..i + 1][i];
    }
  }

  method ForwardBlock(types: map<ValueId, ValueType>, insts: seq<Inst>) returns (done: seq<Inst>, changed: bool)
    ensures done == Forward(types, insts).0 && (changed <==> done != insts)
  {
    done, changed := [], false;
    var fields: Fields := map[];
    for i := 0 to |insts|
      invariant (done, fields) == Forward(types, insts[..i])
      invariant |done| == i && (changed <==> done != insts[..i])
    {
      assert insts[..i + 1][..i] == insts[..i];
      var inst := insts[i];
      var kind := Semantic(inst.kind);
      if kind.ObjectSet? && |inst.inputs| == 3 {
        fields := map[];
        fields := fields[(inst.inputs[0], inst.inputs[1]) := inst.inputs[2]];
      } else if kind.ObjectGet? && |inst.inputs| == 2 {
        var key := (inst.inputs[0], inst.inputs[1]);
        if key in fields && inst.output.Some? && fields[key] in types && types[fields[key]] == inst.output.value.ty {
          inst := inst.(kind := Copy, inputs := [fields[key]], effect := Pure);
        }
      } else if IsBarrier(inst.effect) || inst.effect.Write? {
        fields := map[];
      }
      Extended(done, insts, i, inst);
      changed := changed || inst != insts[i];
      done := done + [inst];
    }
    assert insts[..|insts|] == insts;
  }

  method NumberBlock(insts: seq<Inst>) returns (done: seq<Inst>, changed: bool)
    ensures done == Number(insts).0 && (changed <==> done != insts)
  {
    done, changed := [], false;
    var adds: Additions := map[];
    for i := 0 to |insts|
      invariant (done, adds) == Number(insts[..i])
      invariant |done| == i && (changed <==> done != insts[..i])
    {
      assert insts[..i + 1][..i] == insts[..i];
      var inst := insts[i];
      if IsBarrier(inst.effect) {
        adds := map[];
      } else if Semantic(inst.kind).IntegerAdd? && inst.effect.Pure? && |inst.inputs| == 2 {
        var key := Sorted(inst.inputs[0], inst.inputs[1]);
        if key in adds {
          inst := inst.(kind := Copy, inputs := [adds[key]]);
        } else if inst.output.Some? {
          adds := adds[key := inst.output.value.id];
        }
      }
      Extended(done, insts, i, inst);
      changed := changed || inst != insts[i];
      done := done + [inst];
    }
    assert insts[..|insts|] == insts;
  }

  method DirectBlock(insts: seq<Inst>) returns (done: seq<Inst>, changed: bool)
    ensures done == Direct(insts) && (changed <==> done != insts)
  {
    done, changed := [], false;
    for i := 0 to |insts|
      invariant done == Direct(insts[..i])
      invariant |done| == i && (changed <==> done != insts[..i])
    {
      assert insts[..i + 1][..i] == insts[..i];
      var inst := DirectOne(insts[i]);
      Extended(done, insts, i, inst);
      changed := changed || inst != insts[i];
      done := done + [inst];
    }
    assert insts[..|insts|] == insts;
  }

  // One pass over a snapshot; without a change the snapshot is the same.
  method RunPass(pass: Pass, body: Body) returns (optimized: Body, changed: bool)
    ensures optimized == Applied(pass, body)
    ensures !changed ==> optimized == body
  {
    var types := ValueTypes(body.blocks);
    var blocks: seq<Block> := [];
    changed := false;
    for i := 0 to |body.blocks|
      invariant |blocks| == i
      invariant forall j :: 0 <= j < i ==>
        blocks[j] == body.blocks[j].(instructions := PassOver(pass, types, body.blocks[j].instructions))
      invariant !changed ==> forall j :: 0 <= j < i ==> blocks[j] == body.blocks[j]
    {
      var b := body.blocks[i];
      var done, rewritten;
      match pass {
        case PropagateAndFold => done, rewritten := FoldBlock(b.instructions);
        case DirectOperations => done, rewritten := DirectBlock(b.instructions);
        case HeapForward => done, rewritten := ForwardBlock(types, b.instructions);
        case ValueNumbering => done, rewritten := NumberBlock(b.instructions);
      }
      blocks := blocks + [b.(instructions := done)];
      changed := changed || rewritten;
    }
    assert blocks == OverBlocks(pass, types, body.blocks);
    optimized := body.(blocks := blocks);
    if !changed {
      assert blocks == body.blocks;
    }
  }
}
