/**
  Value numbering keeps what a block does: the run of the numbered block makes the
  same calls and leaves the same way, and every value of the original run is held
  by what replaced it.
 */
module WxNumbering {
  import opened Wrappers
  import opened WxIr
  import opened WxSemantics
  import opened WxOptimizer
  import opened WxVerifier
  import opened WxLaws

  // --------------------------------------------------- which ids are replaced by which

  lemma {:induction false} ReplaceEachKeys(r: Replacements, ids: seq<ValueId>, existing: seq<ValueId>)
    ensures r.Keys <= ReplaceEach(r, ids, existing).Keys <= r.Keys + IdSet(ids)
    ensures forall v :: v in r && v !in ids ==> ReplaceEach(r, ids, existing)[v] == r[v]
    ensures forall v :: v in ReplaceEach(r, ids, existing) ==>
      ReplaceEach(r, ids, existing)[v] in existing || (v in r && ReplaceEach(r, ids, existing)[v] == r[v])
    decreases |ids|
  {
    if ids != [] && existing != [] {
      ReplaceEachKeys(r[ids[0] := existing[0]], ids[1..], existing[1..]);
    }
  }

  lemma {:induction false} ReplaceEachAt(r: Replacements, ids: seq<ValueId>, existing: seq<ValueId>, i: nat)
    requires Distinct(ids) && i < |ids| == |existing|
    ensures ids[i] in ReplaceEach(r, ids, existing) && ReplaceEach(r, ids, existing)[ids[i]] == existing[i]
    decreases |ids|
  {
    var r' := r[ids[0] := existing[0]];
    if i == 0 {
      ReplaceEachKeys(r', ids[1..], existing[1..]);
      assert ids[0] !in ids[1..];
    } else {
      ReplaceEachAt(r', ids[1..], existing[1..], i - 1);
    }
  }

  predicate AgreeOn(r: Replacements, r': Replacements, on: set<ValueId>) {
    forall v :: v in on ==> (v in r <==> v in r') && Resolve(r, v) == Resolve(r', v)
  }

  // The ids of a block under way: replaced ids are gone, and are replaced by kept ones.
  ghost predicate Tidy(s: CseState, r: Replacements, defined: set<ValueId>) {
    && r.Keys <= s.replacements.Keys <= r.Keys + defined
    && (forall v :: v in r && v !in defined ==> s.replacements[v] == r[v])
    && InstDefs(s.optimized) <= defined
    && InstDefs(s.optimized) !! s.replacements.Keys
    && (forall key, id :: key in s.expressions && id in s.expressions[key] ==> id in InstDefs(s.optimized))
    && (forall v :: v in s.replacements ==>
          s.replacements[v] in InstDefs(s.optimized) || (v in r && s.replacements[v] == r[v]))
  }

  lemma DefsAppend(insts: seq<Inst>, inst: Inst)
    ensures InstDefs(insts + [inst]) == InstDefs(insts) + IdSet(Ids(inst.results))
  {
    assert (insts + [inst])[..|insts|] == insts;
  }

  lemma PreparedResults(s: CseState, inst: Inst)
    ensures IdSet(Ids(Prepared(s, inst).results)) <= IdSet(Ids(inst.results))
    ensures !Prepared(s, inst).kind.Pure? ==> Prepared(s, inst) == RenameInst(s.replacements, inst)
  {
    var p, ids := Prepared(s, inst), Ids(inst.results);
    forall v | v in Ids(p.results) ensures v in ids {
      var i :| 0 <= i < |p.results| && Ids(p.results)[i] == v;
      assert ids[i] == v;
    }
  }

  lemma StepTidy(s: CseState, inst: Inst, r: Replacements, defined: set<ValueId>, taken: set<ValueId>)
    requires Tidy(s, r, defined) && FreshDefs(inst.results, taken) && defined + r.Keys <= taken
    ensures Tidy(CseStep(s, inst), r, defined + IdSet(Ids(inst.results)))
    ensures AgreeOn(CseStep(s, inst).replacements, s.replacements, taken)
  {
    var p := Prepared(s, inst);
    PreparedResults(s, inst);
    DefsAppend(s.optimized, p);
    var ids := Ids(p.results);
    if KeyOf(p).Some? && KeyOf(p).value in s.expressions {
      ReplaceEachKeys(s.replacements, ids, s.expressions[KeyOf(p).value]);
    }
  }

  lemma {:induction false} InstsTidy(r: Replacements, insts: seq<Inst>, taken: set<ValueId>)
    requires FreshInsts(insts, taken) && r.Keys <= taken
    ensures Tidy(CseInsts(r, insts), r, InstDefs(insts))
    ensures AgreeOn(CseInsts(r, insts).replacements, r, taken)
  {
    if insts != [] {
      var before, last := insts[..|insts| - 1], insts[|insts| - 1];
      InstsTidy(r, before, taken);
      StepTidy(CseInsts(r, before), last, r, InstDefs(before), taken + InstDefs(before));
    }
  }

  // ---------------------------------------------------------- what is known in a block

  // Every value of the original run is held by what it is replaced by.
  ghost predicate Renamed<V>(r: Replacements, env: Env<V>, env': Env<V>) {
    env'.Keys <= env.Keys && forall v :: v in env ==> Resolve(r, v) in env' && env'[Resolve(r, v)] == env[v]
  }

  // The ids recorded for a key hold what its operation gives on its operands.
  ghost predicate KeyHolds<V>(alg: Algebra<V>, key: Key, ids: seq<ValueId>, env: Env<V>) {
    && ReadAll(env, key.operands).Some? && ReadAll(env, ids).Some?
    && exists tys :: (key.ty.Some? ==> tys == [key.ty.value])
         && alg.apply(key.shape, ReadAll(env, key.operands).value, tys) == ReadAll(env, ids)
  }

  ghost predicate KeysHold<V>(alg: Algebra<V>, expressions: map<Key, seq<ValueId>>, env: Env<V>) {
    forall key :: key in expressions ==> KeyHolds(alg, key, expressions[key], env)
  }

  ghost predicate GuardsHold<V>(alg: Algebra<V>, guards: set<(ValueId, GuardMode)>, env: Env<V>) {
    forall g :: g in guards ==> g.0 in env && alg.fires(env[g.0], g.1) == Some(false)
  }

  // The type of the literal that a value of the block is known to be.
  function LiteralType(insts: seq<Inst>, v: ValueId): WxType
    requires ConstantIn(insts, v).Some?
  {
    var last := insts[|insts| - 1];
    if last.kind.Pure? && last.kind.shape.ConstantShape? && |last.results| == 1 && last.results[0].id == v
    then last.results[0].ty
    else LiteralType(insts[..|insts| - 1], v)
  }

  ghost predicate LiteralsHold<V>(alg: Algebra<V>, insts: seq<Inst>, env: Env<V>) {
    forall v {:trigger ConstantIn(insts, v)} :: ConstantIn(insts, v).Some? ==>
      v in env && Literal(alg, ConstantIn(insts, v).value, LiteralType(insts, v), env[v])
  }

  ghost predicate Known<V>(alg: Algebra<V>, s: CseState, env: Env<V>) {
    && KeysHold(alg, s.expressions, env)
    && GuardsHold(alg, s.guards, env)
    && LiteralsHold(alg, s.optimized, env)
  }

  predicate Extends<V(==)>(env: Env<V>, env': Env<V>) {
    env.Keys <= env'.Keys && forall v :: v in env ==> env'[v] == env[v]
  }

  lemma ReadExtends<V(!new)>(env: Env<V>, env': Env<V>, ids: seq<ValueId>)
    requires Extends(env, env') && ReadAll(env, ids).Some?
    ensures ReadAll(env', ids) == ReadAll(env, ids)
  {
    assert ReadAll(env', ids).value == ReadAll(env, ids).value;
  }

  lemma KeysExtend<V(!new)>(alg: Algebra<V>, expressions: map<Key, seq<ValueId>>, env: Env<V>, env': Env<V>)
    requires KeysHold(alg, expressions, env) && Extends(env, env')
    ensures KeysHold(alg, expressions, env')
  {
    forall key | key in expressions ensures KeyHolds(alg, key, expressions[key], env') {
      assert KeyHolds(alg, key, expressions[key], env);
      ReadExtends(env, env', key.operands);
      ReadExtends(env, env', expressions[key]);
    }
  }

  lemma KnownExtends<V(!new)>(alg: Algebra<V>, s: CseState, env: Env<V>, env': Env<V>)
    requires Known(alg, s, env) && Extends(env, env')
    ensures Known(alg, s, env')
  {
    KeysExtend(alg, s.expressions, env, env');
  }

  lemma ReadRenamed<V(!new)>(r: Replacements, env: Env<V>, env': Env<V>, ids: seq<ValueId>)
    requires Renamed(r, env, env') && ReadAll(env, ids).Some?
    ensures ReadAll(env', RenameAll(r, ids)) == ReadAll(env, ids)
  {
    forall i | 0 <= i < |ids| ensures RenameAll(r, ids)[i] in env' && env'[RenameAll(r, ids)[i]] == env[ids[i]] {
    }
    assert ReadAll(env', RenameAll(r, ids)).value == ReadAll(env, ids).value;
  }

  lemma ReadTypedRenamed<V(!new)>(alg: Algebra<V>, r: Replacements, env: Env<V>, env': Env<V>, ids: seq<ValueId>, tys: seq<WxType>)
    requires Renamed(r, env, env') && ReadTyped(alg, env, ids, tys).Some?
    ensures ReadTyped(alg, env', RenameAll(r, ids), tys) == ReadTyped(alg, env, ids, tys)
  {
    ReadRenamed(r, env, env', ids);
  }

  lemma {:induction false} FindRenamedExit(r: Replacements, exits: seq<SideExit>, id: ExitId)
    ensures FindExit(RenameExits(r, exits), id) ==
      match FindExit(exits, id)
      case None => None
      case Some(exit) => Some(exit.(state := RenameState(r, exit.state)))
  {
    if exits != [] && exits[0].id != id {
      FindRenamedExit(r, exits[1..], id);
      assert RenameExits(r, exits)[1..] == RenameExits(r, exits[1..]);
    }
  }

  lemma RenamedStateParts(r: Replacements, state: seq<StateValue>)
    ensures StateValues(RenameState(r, state)) == RenameAll(r, StateValues(state))
    ensures StateTypes(RenameState(r, state)) == StateTypes(state)
    ensures StateRegisters(RenameState(r, state)) == StateRegisters(state)
  {
  }

  lemma DeliverRenamed<V(!new)>(
    alg: Algebra<V>, r: Replacements, exits: seq<SideExit>, id: ExitId, guard: bool, env: Env<V>, env': Env<V>)
    requires Renamed(r, env, env') && Deliver(alg, exits, id, guard, env).Some?
    ensures Deliver(alg, RenameExits(r, exits), id, guard, env') == Deliver(alg, exits, id, guard, env)
  {
    FindRenamedExit(r, exits, id);
    var exit := FindExit(exits, id).value;
    RenamedStateParts(r, exit.state);
    ReadTypedRenamed(alg, r, env, env', StateValues(exit.state), StateTypes(exit.state));
  }

  // --------------------------------------------------------------- pure instructions

  // What a pure instruction gives, if it applies.
  function PureValue<V>(alg: Algebra<V>, inst: Inst, env: Env<V>): Option<seq<V>>
    requires inst.kind.Pure?
  {
    match ReadAll(env, inst.kind.operands)
    case None => None
    case Some(vs) => alg.apply(inst.kind.shape, vs, Types(inst.results))
  }

  lemma RunPureValue<V(!new)>(alg: Algebra<V>, exits: seq<SideExit>, inst: Inst, env: Env<V>, calls: seq<Call<V>>)
    requires HasArity(alg) && inst.kind.Pure?
    ensures RunInst(alg, exits, inst, env, calls) == Stuck <==> PureValue(alg, inst, env).None?
    ensures PureValue(alg, inst, env).Some? ==>
      && |inst.results| == |PureValue(alg, inst, env).value| == ResultCount(inst.kind.shape)
      && |inst.kind.operands| == OperandCount(inst.kind.shape)
      && RunInst(alg, exits, inst, env, calls) == Fall(Bind(env, Ids(inst.results), PureValue(alg, inst, env).value), calls)
  {
    assert |Types(inst.results)| == |inst.results|;
  }

  // If the folder folds the instruction, it gives what the operation gives.
  predicate FoldAgrees<V>(alg: Algebra<V>, inst: Inst, prior: seq<Inst>) {
    Folded(inst, prior).Some? ==>
      var l, r := inst.kind.operands[0], inst.kind.operands[1];
      alg.agrees(inst.kind.shape, ConstantIn(prior, l).value, LiteralType(prior, l), ConstantIn(prior, r).value, LiteralType(prior, r))
  }

  predicate StepAgrees<V>(alg: Algebra<V>, s: CseState, inst: Inst) {
    FoldAgrees(alg, RenameInst(s.replacements, inst), s.optimized)
  }

  lemma FoldedValue<V(!new)>(alg: Algebra<V>, inst: Inst, prior: seq<Inst>, env: Env<V>)
    requires Lawful(alg) && inst.kind.Pure? && LiteralsHold(alg, prior, env) && FoldAgrees(alg, inst, prior)
    requires PureValue(alg, inst, env).Some? && Folded(inst, prior).Some?
    ensures PureValue(alg, Folded(inst, prior).value, env) == PureValue(alg, inst, env)
    ensures Folded(inst, prior).value.results == inst.results
  {
    var operands := inst.kind.operands;
    var l, r := ConstantIn(prior, operands[0]).value, ConstantIn(prior, operands[1]).value;
    var lv, rv := env[operands[0]], env[operands[1]];
    var lty, rty := LiteralType(prior, operands[0]), LiteralType(prior, operands[1]);
    assert Literal(alg, l, lty, lv) && Literal(alg, r, rty, rv);
    var shape, tys := inst.kind.shape, Types(inst.results);
    assert ReadAll(env, operands).value == [lv, rv];
    assert alg.apply(shape, [lv, rv], tys).Some?;
    assert |tys| == ResultCount(shape) == 1;
    assert inst.results == [inst.results[0]];
    assert FoldShape(shape, l, r).Some?;
    assert ReadAll(env, []).value == [];
  }

  lemma RenamedValue<V(!new)>(alg: Algebra<V>, r: Replacements, inst: Inst, env: Env<V>, env': Env<V>)
    requires Renamed(r, env, env') && inst.kind.Pure? && PureValue(alg, inst, env).Some?
    ensures PureValue(alg, RenameInst(r, inst), env') == PureValue(alg, inst, env)
  {
    ReadRenamed(r, env, env', inst.kind.operands);
  }

  // The instruction that is considered gives what the original one gives.
  lemma PreparedValue<V(!new)>(alg: Algebra<V>, s: CseState, inst: Inst, env: Env<V>, env': Env<V>)
    requires Lawful(alg) && Renamed(s.replacements, env, env') && LiteralsHold(alg, s.optimized, env') && StepAgrees(alg, s, inst)
    requires inst.kind.Pure? && PureValue(alg, inst, env).Some?
    ensures Prepared(s, inst).kind.Pure? && Prepared(s, inst).results == inst.results
    ensures PureValue(alg, Prepared(s, inst), env') == PureValue(alg, inst, env)
  {
    var renamed := RenameInst(s.replacements, inst);
    RenamedValue(alg, s.replacements, inst, env, env');
    if Folded(renamed, s.optimized).Some? {
      FoldedValue(alg, renamed, s.optimized, env');
    }
  }

  // Operands in canonical order give the same.
  lemma CanonicalValue<V(!new)>(alg: Algebra<V>, inst: Inst, env: Env<V>)
    requires Commutative(alg) && inst.kind.Pure? && PureValue(alg, inst, env).Some?
    ensures ReadAll(env, CanonicalOperands(inst.kind.shape, inst.kind.operands)).Some?
    ensures alg.apply(inst.kind.shape, ReadAll(env, CanonicalOperands(inst.kind.shape, inst.kind.operands)).value, Types(inst.results))
      == PureValue(alg, inst, env)
  {
    var ids := inst.kind.operands;
    if CanonicalOperands(inst.kind.shape, ids) != ids {
      var a, b := env[ids[0]], env[ids[1]];
      assert ReadAll(env, ids).value == [a, b];
      assert ReadAll(env, [ids[1], ids[0]]).value == [b, a];
    }
  }

  lemma KeyOfPure<V(!new)>(alg: Algebra<V>, inst: Inst, env: Env<V>)
    requires HasArity(alg) && inst.kind.Pure? && PureValue(alg, inst, env).Some?
    ensures KeyOf(inst).Some?
    ensures KeyOf(inst).value.shape == inst.kind.shape
    ensures KeyOf(inst).value.operands == CanonicalOperands(inst.kind.shape, inst.kind.operands)
    ensures KeyOf(inst).value.ty == if inst.kind.shape.CheckedShape? || inst.kind.shape.CompareShape? then None else Some(inst.results[0].ty)
  {
    assert |Types(inst.results)| == ResultCount(inst.kind.shape);
  }

  // A recorded key stands for the value of every instruction with that key.
  lemma KeyHit<V(!new)>(alg: Algebra<V>, expressions: map<Key, seq<ValueId>>, inst: Inst, env: Env<V>)
    requires Lawful(alg) && KeysHold(alg, expressions, env) && inst.kind.Pure? && PureValue(alg, inst, env).Some?
    requires KeyOf(inst).Some? && KeyOf(inst).value in expressions
    ensures ReadAll(env, expressions[KeyOf(inst).value]) == PureValue(alg, inst, env)
  {
    var key := KeyOf(inst).value;
    KeyOfPure(alg, inst, env);
    CanonicalValue(alg, inst, env);
    assert KeyHolds(alg, key, expressions[key], env);
    var vs := ReadAll(env, key.operands).value;
    var tys :| (key.ty.Some? ==> tys == [key.ty.value]) && alg.apply(key.shape, vs, tys) == ReadAll(env, expressions[key]);
    if key.ty.Some? {
      assert |Types(inst.results)| == 1;
      assert Types(inst.results) == tys;
    } else {
      assert alg.apply(key.shape, vs, Types(inst.results)).Some?;
    }
  }

  // ----------------------------------------------------------------- one instruction

  // How the run of the numbered instructions follows the original run.
  ghost predicate Follows<V>(alg: Algebra<V>, s: CseState, flow: Flow<V>, flow': Flow<V>) {
    match flow
    case Fall(env, calls) =>
      flow'.Fall? && flow'.calls == calls && Renamed(s.replacements, env, flow'.env) && Known(alg, s, flow'.env)
    case Stuck => true
    case _ => flow' == flow
  }

  lemma BindReads<V(!new)>(env: Env<V>, ids: seq<ValueId>, vs: seq<V>)
    requires |ids| == |vs| && Distinct(ids)
    ensures ReadAll(Bind(env, ids, vs), ids) == Some(vs)
  {
    BindIn(env, ids, vs);
    forall i | 0 <= i < |ids| ensures ids[i] in Bind(env, ids, vs) && Bind(env, ids, vs)[ids[i]] == vs[i] {
      BindAt(env, ids, vs, i);
    }
    assert ReadAll(Bind(env, ids, vs), ids).value == vs;
  }

  lemma BindExtends<V(!new)>(env: Env<V>, ids: seq<ValueId>, vs: seq<V>)
    requires |ids| == |vs| && IdSet(ids) !! env.Keys
    ensures Extends(env, Bind(env, ids, vs))
  {
    BindIn(env, ids, vs);
  }

  // New ids bound to the same values on both sides.
  lemma RenamedBind<V(!new)>(r: Replacements, env: Env<V>, env': Env<V>, ids: seq<ValueId>, vs: seq<V>)
    requires Renamed(r, env, env') && |ids| == |vs| && Distinct(ids) && IdSet(ids) !! env.Keys && IdSet(ids) !! r.Keys
    ensures Renamed(r, Bind(env, ids, vs), Bind(env', ids, vs))
  {
    BindIn(env, ids, vs);
    BindIn(env', ids, vs);
    var b, b' := Bind(env, ids, vs), Bind(env', ids, vs);
    forall v | v in b ensures Resolve(r, v) in b' && b'[Resolve(r, v)] == b[v] {
      if v in ids {
        var i :| 0 <= i < |ids| && ids[i] == v;
        BindAt(env, ids, vs, i);
        BindAt(env', ids, vs, i);
      } else {
        assert v in env && Resolve(r, v) in env';
        assert Resolve(r, v) in env.Keys;
      }
    }
  }

  // Ids that are replaced by ids which hold the values that they would have.
  lemma RenamedReplace<V(!new)>(r: Replacements, env: Env<V>, env': Env<V>, ids: seq<ValueId>, existing: seq<ValueId>, vs: seq<V>)
    requires Renamed(r, env, env') && |ids| == |vs| && Distinct(ids) && IdSet(ids) !! env.Keys
    requires ReadAll(env', existing) == Some(vs)
    ensures Renamed(ReplaceEach(r, ids, existing), Bind(env, ids, vs), env')
  {
    BindIn(env, ids, vs);
    ReplaceEachKeys(r, ids, existing);
    var b, r' := Bind(env, ids, vs), ReplaceEach(r, ids, existing);
    forall v | v in b ensures Resolve(r', v) in env' && env'[Resolve(r', v)] == b[v] {
      if v in ids {
        var i :| 0 <= i < |ids| && ids[i] == v;
        BindAt(env, ids, vs, i);
        ReplaceEachAt(r, ids, existing, i);
      } else {
        assert Resolve(r', v) == Resolve(r, v);
      }
    }
  }

  // A literal that is new is one that the instruction binds.
  lemma LiteralsAppend<V(!new)>(alg: Algebra<V>, insts: seq<Inst>, inst: Inst, env: Env<V>, env': Env<V>)
    requires LiteralsHold(alg, insts, env) && Extends(env, env')
    requires inst.kind.Pure? && inst.kind.shape.ConstantShape? && |inst.results| == 1 ==>
      inst.results[0].id in env' && Literal(alg, inst.kind.shape.constant, inst.results[0].ty, env'[inst.results[0].id])
    ensures LiteralsHold(alg, insts + [inst], env')
  {
    assert (insts + [inst])[..|insts|] == insts;
    forall v | ConstantIn(insts + [inst], v).Some?
      ensures v in env' && Literal(alg, ConstantIn(insts + [inst], v).value, LiteralType(insts + [inst], v), env'[v])
    {
      if ConstantIn(insts, v).Some? {
        assert v in env;
      }
    }
  }

  lemma KeyRecorded<V(!new)>(alg: Algebra<V>, s: CseState, inst: Inst, env: Env<V>, rs: seq<V>)
    requires Lawful(alg) && KeysHold(alg, s.expressions, env) && inst.kind.Pure? && PureValue(alg, inst, env) == Some(rs)
    requires |inst.results| == |rs| && Distinct(Ids(inst.results)) && IdSet(Ids(inst.results)) !! env.Keys
    requires KeyOf(inst).Some?
    ensures KeysHold(alg, s.expressions[KeyOf(inst).value := Ids(inst.results)], Bind(env, Ids(inst.results), rs))
  {
    var key, ids := KeyOf(inst).value, Ids(inst.results);
    var env' := Bind(env, ids, rs);
    KeyOfPure(alg, inst, env);
    CanonicalValue(alg, inst, env);
    BindExtends(env, ids, rs);
    BindReads(env, ids, rs);
    KeysExtend(alg, s.expressions, env, env');
    ReadExtends(env, env', key.operands);
    assert |Types(inst.results)| == ResultCount(inst.kind.shape);
    if key.ty.Some? {
      assert Types(inst.results) == [key.ty.value];
    }
    assert KeyHolds(alg, key, ids, env');
  }

  // The literal that a kept instruction defines.
  lemma NewLiteral<V(!new)>(alg: Algebra<V>, inst: Inst, env: Env<V>, rs: seq<V>)
    requires Lawful(alg) && inst.kind.Pure? && inst.kind.shape.ConstantShape?
    requires PureValue(alg, inst, env) == Some(rs) && |inst.results| == 1
    ensures |rs| == 1 && Literal(alg, inst.kind.shape.constant, inst.results[0].ty, rs[0])
  {
    assert |Types(inst.results)| == 1;
    assert ReadAll(env, inst.kind.operands).value == [];
    assert Types(inst.results) == [inst.results[0].ty];
    assert rs == [rs[0]];
    assert Literal(alg, inst.kind.shape.constant, inst.results[0].ty, rs[0]);
  }

  // What a step starts from: both runs have reached it, and its ids are new.
  ghost predicate AtStep<V>(alg: Algebra<V>, s: CseState, inst: Inst, env: Env<V>, env': Env<V>) {
    && Renamed(s.replacements, env, env') && Known(alg, s, env')
    && Distinct(Ids(inst.results)) && IdSet(Ids(inst.results)) !! env.Keys && IdSet(Ids(inst.results)) !! s.replacements.Keys
    && StepAgrees(alg, s, inst)
  }

  // A pure instruction whose key is recorded is left out.
  lemma PureHit<V(!new)>(alg: Algebra<V>, s: CseState, inst: Inst, env: Env<V>, env': Env<V>)
    requires Lawful(alg) && AtStep(alg, s, inst, env, env') && inst.kind.Pure? && PureValue(alg, inst, env).Some?
    requires KeyOf(Prepared(s, inst)).Some? && KeyOf(Prepared(s, inst)).value in s.expressions
    ensures |inst.results| == |PureValue(alg, inst, env).value|
    ensures Renamed(ReplaceEach(s.replacements, Ids(inst.results), s.expressions[KeyOf(Prepared(s, inst)).value]),
                    Bind(env, Ids(inst.results), PureValue(alg, inst, env).value), env')
  {
    var p := Prepared(s, inst);
    PreparedValue(alg, s, inst, env, env');
    KeyHit(alg, s.expressions, p, env');
    RunPureValue(alg, [], inst, env, []);
    RenamedReplace(s.replacements, env, env', Ids(inst.results), s.expressions[KeyOf(p).value], PureValue(alg, inst, env).value);
  }

  // Any other is kept and recorded.
  lemma PureMiss<V(!new)>(alg: Algebra<V>, s: CseState, inst: Inst, env: Env<V>, env': Env<V>)
    requires Lawful(alg) && AtStep(alg, s, inst, env, env') && inst.kind.Pure? && PureValue(alg, inst, env).Some?
    requires KeyOf(Prepared(s, inst)).Some?
    ensures |inst.results| == |PureValue(alg, inst, env).value|
    ensures var p, ids, rs := Prepared(s, inst), Ids(inst.results), PureValue(alg, inst, env).value;
      && KeysHold(alg, s.expressions[KeyOf(p).value := ids], Bind(env', ids, rs))
      && GuardsHold(alg, s.guards, Bind(env', ids, rs))
      && Renamed(s.replacements, Bind(env, ids, rs), Bind(env', ids, rs))
  {
    var p, ids, rs := Prepared(s, inst), Ids(inst.results), PureValue(alg, inst, env).value;
    PreparedValue(alg, s, inst, env, env');
    RunPureValue(alg, [], inst, env, []);
    RenamedBind(s.replacements, env, env', ids, rs);
    KeyRecorded(alg, s, p, env', rs);
    BindExtends(env', ids, rs);
  }

  lemma PureLiterals<V(!new)>(alg: Algebra<V>, s: CseState, inst: Inst, env: Env<V>, env': Env<V>)
    requires Lawful(alg) && AtStep(alg, s, inst, env, env') && inst.kind.Pure? && PureValue(alg, inst, env).Some?
    ensures |inst.results| == |PureValue(alg, inst, env).value|
    ensures LiteralsHold(alg, s.optimized + [Prepared(s, inst)], Bind(env', Ids(inst.results), PureValue(alg, inst, env).value))
  {
    var p, ids, rs := Prepared(s, inst), Ids(inst.results), PureValue(alg, inst, env).value;
    PreparedValue(alg, s, inst, env, env');
    RunPureValue(alg, [], inst, env, []);
    BindExtends(env', ids, rs);
    if p.kind.shape.ConstantShape? && |p.results| == 1 {
      NewLiteral(alg, p, env', rs);
      BindIn(env', ids, rs);
      BindAt(env', ids, rs, 0);
    }
    LiteralsAppend(alg, s.optimized, p, env', Bind(env', ids, rs));
  }

  lemma PureStep<V(!new)>(
    alg: Algebra<V>, exits: seq<SideExit>, exits': seq<SideExit>, s: CseState, inst: Inst,
    env: Env<V>, env': Env<V>, calls: seq<Call<V>>, env0: Env<V>, calls0: seq<Call<V>>)
    requires Lawful(alg) && AtStep(alg, s, inst, env, env') && inst.kind.Pure?
    requires RunInsts(alg, exits', s.optimized, env0, calls0) == Fall(env', calls)
    ensures Follows(alg, CseStep(s, inst), RunInst(alg, exits, inst, env, calls),
                    RunInsts(alg, exits', CseStep(s, inst).optimized, env0, calls0))
  {
    hide Renamed, KeysHold, GuardsHold, LiteralsHold, StepAgrees;
    RunPureValue(alg, exits, inst, env, calls);
    if PureValue(alg, inst, env).Some? {
      var p := Prepared(s, inst);
      PreparedValue(alg, s, inst, env, env');
      KeyOfPure(alg, p, env');
      if KeyOf(p).value in s.expressions {
        PureHit(alg, s, inst, env, env');
      } else {
        PureMiss(alg, s, inst, env, env');
        PureLiterals(alg, s, inst, env, env');
        RunPureValue(alg, exits', p, env', calls);
        RunAppend(alg, exits', s.optimized, p, env0, calls0);
      }
    }
  }

  // Exits that deliver the same wherever the original ones deliver.
  ghost predicate SameDelivery<V>(alg: Algebra<V>, exits: seq<SideExit>, exits': seq<SideExit>, id: ExitId, env: Env<V>, env': Env<V>) {
    Deliver(alg, exits, id, true, env).Some? ==> Deliver(alg, exits', id, true, env') == Deliver(alg, exits, id, true, env)
  }

  // A renamed guard does what the original guard does.
  lemma GuardRenamed<V(!new)>(
    alg: Algebra<V>, exits: seq<SideExit>, exits': seq<SideExit>, r: Replacements, inst: Inst, env: Env<V>, env': Env<V>, calls: seq<Call<V>>)
    requires inst.kind.Guard? && Renamed(r, env, env') && SameDelivery(alg, exits, exits', inst.kind.exit, env, env')
    ensures var flow, flow' := RunInst(alg, exits, inst, env, calls), RunInst(alg, exits', RenameInst(r, inst), env', calls);
      && (flow.Leave? ==> flow' == flow)
      && (flow.Fall? ==> flow == Fall(env, calls) && flow' == Fall(env', calls))
      && !flow.Abort?
    ensures RunInst(alg, exits, inst, env, calls) != Stuck ==>
      && Resolve(r, inst.kind.condition) in env'
      && alg.fires(env'[Resolve(r, inst.kind.condition)], inst.kind.mode) == Some(RunInst(alg, exits, inst, env, calls).Leave?)
  {
  }

  // What is known after a guard that was kept and did not fire.
  lemma GuardKnown<V(!new)>(alg: Algebra<V>, s: CseState, p: Inst, env: Env<V>)
    requires p.kind.Guard? && Known(alg, s, env)
    requires p.kind.condition in env && alg.fires(env[p.kind.condition], p.kind.mode) == Some(false)
    ensures KeysHold(alg, s.expressions, env)
    ensures GuardsHold(alg, s.guards + {(p.kind.condition, p.kind.mode)}, env)
    ensures LiteralsHold(alg, s.optimized + [p], env)
  {
    LiteralsAppend(alg, s.optimized, p, env, env);
  }

  // The two runs after a guard that was kept.
  lemma GuardFollows<V(!new)>(
    alg: Algebra<V>, s: CseState, p: Inst, env: Env<V>, env': Env<V>, calls: seq<Call<V>>, flow: Flow<V>, flow': Flow<V>)
    requires p.kind.Guard? && Renamed(s.replacements, env, env') && Known(alg, s, env')
    requires !flow.Abort? && (flow.Leave? ==> flow' == flow)
    requires flow.Fall? ==>
      && flow == Fall(env, calls) && flow' == Fall(env', calls)
      && p.kind.condition in env' && alg.fires(env'[p.kind.condition], p.kind.mode) == Some(false)
    ensures Follows(alg, s.(guards := s.guards + {(p.kind.condition, p.kind.mode)}, optimized := s.optimized + [p]), flow, flow')
  {
    if flow.Fall? {
      GuardKnown(alg, s, p, env');
    }
  }

  lemma GuardStep<V(!new)>(
    alg: Algebra<V>, exits: seq<SideExit>, exits': seq<SideExit>, s: CseState, inst: Inst,
    env: Env<V>, env': Env<V>, calls: seq<Call<V>>, env0: Env<V>, calls0: seq<Call<V>>)
    requires AtStep(alg, s, inst, env, env') && inst.kind.Guard? && SameDelivery(alg, exits, exits', inst.kind.exit, env, env')
    requires RunInsts(alg, exits', s.optimized, env0, calls0) == Fall(env', calls)
    ensures Follows(alg, CseStep(s, inst), RunInst(alg, exits, inst, env, calls),
                    RunInsts(alg, exits', CseStep(s, inst).optimized, env0, calls0))
  {
    var p := RenameInst(s.replacements, inst);
    GuardRenamed(alg, exits, exits', s.replacements, inst, env, env', calls);
    GuardCse(s, inst);
    if (p.kind.condition, p.kind.mode) !in s.guards {
      RunAppend(alg, exits', s.optimized, p, env0, calls0);
      GuardFollows(alg, s, p, env, env', calls, RunInst(alg, exits, inst, env, calls), RunInst(alg, exits', p, env', calls));
    }
  }

  // A guard is dropped exactly when the same renamed condition and mode were seen.
  lemma GuardCse(s: CseState, inst: Inst)
    requires inst.kind.Guard?
    ensures var g := (Resolve(s.replacements, inst.kind.condition), inst.kind.mode);
      CseStep(s, inst) ==
        if g in s.guards then s
        else s.(guards := s.guards + {g}, optimized := s.optimized + [RenameInst(s.replacements, inst)])
  {
  }

  // A runtime call is kept; what was known of expressions is forgotten.
  lemma CallCse(s: CseState, inst: Inst)
    requires inst.kind.RuntimeCall?
    ensures CseStep(s, inst) == s.(expressions := map[], optimized := s.optimized + [RenameInst(s.replacements, inst)])
  {
  }

  // A renamed call makes the same call and gets the same answer.
  lemma CallRenamed<V(!new)>(
    alg: Algebra<V>, exits: seq<SideExit>, exits': seq<SideExit>, r: Replacements, inst: Inst, env: Env<V>, env': Env<V>, calls: seq<Call<V>>)
    requires inst.kind.RuntimeCall? && Renamed(r, env, env') && RunInst(alg, exits, inst, env, calls) != Stuck
    ensures var flow, flow' := RunInst(alg, exits, inst, env, calls), RunInst(alg, exits', RenameInst(r, inst), env', calls);
      && !flow.Leave?
      && (flow.Abort? ==> flow' == flow)
      && (flow.Fall? ==>
            && alg.call(flow.calls, Types(inst.results)).Done?
            && var rs := alg.call(flow.calls, Types(inst.results)).results;
            |rs| == |inst.results| && flow.env == Bind(env, Ids(inst.results), rs)
            && flow' == Fall(Bind(env', Ids(inst.results), rs), flow.calls))
  {
    var inputs := inst.kind.inputs;
    RenamedInputParts(r, inputs);
    ReadTypedRenamed(alg, r, env, env', InputValues(inputs), InputTypes(inputs));
  }

  lemma CallStep<V(!new)>(
    alg: Algebra<V>, exits: seq<SideExit>, exits': seq<SideExit>, s: CseState, inst: Inst,
    env: Env<V>, env': Env<V>, calls: seq<Call<V>>, env0: Env<V>, calls0: seq<Call<V>>)
    requires AtStep(alg, s, inst, env, env') && inst.kind.RuntimeCall?
    requires RunInsts(alg, exits', s.optimized, env0, calls0) == Fall(env', calls)
    ensures Follows(alg, CseStep(s, inst), RunInst(alg, exits, inst, env, calls),
                    RunInsts(alg, exits', CseStep(s, inst).optimized, env0, calls0))
  {
    hide RunInst, CseStep, GuardsHold, LiteralsHold, StepAgrees;
    var flow := RunInst(alg, exits, inst, env, calls);
    if !flow.Stuck? {
      var p, ids := RenameInst(s.replacements, inst), Ids(inst.results);
      CallCse(s, inst);
      CallRenamed(alg, exits, exits', s.replacements, inst, env, env', calls);
      RunAppend(alg, exits', s.optimized, p, env0, calls0);
      if flow.Fall? {
        var rs := alg.call(flow.calls, Types(inst.results)).results;
        RenamedBind(s.replacements, env, env', ids, rs);
        BindExtends(env', ids, rs);
        KnownExtends(alg, s, env', Bind(env', ids, rs));
        LiteralsAppend(alg, s.optimized, p, env', Bind(env', ids, rs));
      }
    }
  }

  lemma RenamedInputParts(r: Replacements, inputs: seq<RuntimeInput>)
    ensures InputValues(RenameInputs(r, inputs)) == RenameAll(r, InputValues(inputs))
    ensures InputTypes(RenameInputs(r, inputs)) == InputTypes(inputs)
    ensures seq(|inputs|, i requires 0 <= i < |inputs| => RenameInputs(r, inputs)[i].register)
         == seq(|inputs|, i requires 0 <= i < |inputs| => inputs[i].register)
  {
  }

  lemma CallResults<V(!new)>(alg: Algebra<V>, exits: seq<SideExit>, inst: Inst, env: Env<V>, calls: seq<Call<V>>) returns (rs: seq<V>)
    requires inst.kind.RuntimeCall? && RunInst(alg, exits, inst, env, calls).Fall?
    ensures |rs| == |inst.results|
    ensures RunInst(alg, exits, inst, env, calls).env == Bind(env, Ids(inst.results), rs)
    ensures alg.call(RunInst(alg, exits, inst, env, calls).calls, Types(inst.results)) == Done(rs)
  {
    rs := alg.call(RunInst(alg, exits, inst, env, calls).calls, Types(inst.results)).results;
  }
}
