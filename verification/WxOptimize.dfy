/**
  The optimizer as it runs (src/wxir/optimizer.rs, optimizer/keys.rs,
  optimizer/dce.rs): tables filled in loops over blocks and instructions, proved to
  compute the optimized function.
 */
module WxOptimize {
  import opened Wrappers
  import opened WxIr
  import opened WxOptimizer
  import opened WxVerifier
  import opened WxNumbering
  import opened WxNumberingRuns
  import opened WxVerify

  // -------------------------------------------------------------------- rewriting

  // Replacements are followed until there is none.
  method Canonical(r: Replacements, v: ValueId) returns (value: ValueId)
    requires Flat(r)
    ensures value == Resolve(r, v)
  {
    value := v;
    while value in r
      invariant value == v || (v in r && value == r[v])
      decreases if value in r then 1 else 0
    {
      value := r[value];
    }
  }

  method RewriteAll(r: Replacements, ids: seq<ValueId>) returns (renamed: seq<ValueId>)
    requires Flat(r)
    ensures renamed == RenameAll(r, ids)
  {
    renamed := [];
    for i := 0 to |ids|
      invariant |renamed| == i && forall j :: 0 <= j < i ==> renamed[j] == Resolve(r, ids[j])
    {
      var value := Canonical(r, ids[i]);
      renamed := renamed + [value];
    }
  }

  method RewriteInputs(r: Replacements, inputs: seq<RuntimeInput>) returns (renamed: seq<RuntimeInput>)
    requires Flat(r)
    ensures renamed == RenameInputs(r, inputs)
  {
    renamed := [];
    for i := 0 to |inputs|
      invariant |renamed| == i && forall j :: 0 <= j < i ==> renamed[j] == inputs[j].(value := Resolve(r, inputs[j].value))
    {
      var value := Canonical(r, inputs[i].value);
      renamed := renamed + [inputs[i].(value := value)];
    }
  }

  method RewriteState(r: Replacements, state: seq<StateValue>) returns (renamed: seq<StateValue>)
    requires Flat(r)
    ensures renamed == RenameState(r, state)
  {
    renamed := [];
    for i := 0 to |state|
      invariant |renamed| == i && forall j :: 0 <= j < i ==> renamed[j] == state[j].(value := Resolve(r, state[j].value))
    {
      var value := Canonical(r, state[i].value);
      renamed := renamed + [state[i].(value := value)];
    }
  }

  method RewriteInstruction(r: Replacements, inst: Inst) returns (renamed: Inst)
    requires Flat(r)
    ensures renamed == RenameInst(r, inst)
  {
    match inst.kind
    case Pure(shape, operands) =>
      var ids := RewriteAll(r, operands);
      renamed := inst.(kind := Pure(shape, ids));
    case Guard(condition, exit, mode) =>
      var value := Canonical(r, condition);
      renamed := inst.(kind := Guard(value, exit, mode));
    case RuntimeCall(pc, inputs, output) =>
      var values := RewriteInputs(r, inputs);
      renamed := inst.(kind := RuntimeCall(pc, values, output));
  }

  method RewriteTerminator(r: Replacements, t: Terminator) returns (renamed: Terminator)
    requires Flat(r)
    ensures renamed == RenameTerminator(r, t)
  {
    match t
    case Jump(target) =>
      var ids := RewriteAll(r, target.arguments);
      renamed := Jump(target.(arguments := ids));
    case Branch(condition, yes, no) =>
      var value := Canonical(r, condition);
      var ys := RewriteAll(r, yes.arguments);
      var ns := RewriteAll(r, no.arguments);
      renamed := Branch(value, yes.(arguments := ys), no.(arguments := ns));
    case Return(values) =>
      var ids := RewriteAll(r, values);
      renamed := Return(ids);
    case SideExitTo(exit, values) =>
      var ids := RewriteAll(r, values);
      renamed := SideExitTo(exit, ids);
  }

  method RewriteBlock(r: Replacements, b: Block) returns (renamed: Block)
    requires Flat(r)
    ensures renamed == RenameBlock(r, b)
  {
    var insts: seq<Inst> := [];
    for i := 0 to |b.instructions|
      invariant |insts| == i && forall j :: 0 <= j < i ==> insts[j] == RenameInst(r, b.instructions[j])
    {
      var inst := RewriteInstruction(r, b.instructions[i]);
      insts := insts + [inst];
    }
    var t := RewriteTerminator(r, b.terminator);
    renamed := b.(instructions := insts, terminator := t);
  }

  method RewriteFunction(r: Replacements, f: Function) returns (renamed: Function)
    requires Flat(r)
    ensures renamed == RenameFunction(r, f)
  {
    var entryState := RewriteState(r, f.entryState);
    var exits: seq<SideExit> := [];
    for i := 0 to |f.sideExits|
      invariant |exits| == i
      invariant forall j :: 0 <= j < i ==> exits[j] == f.sideExits[j].(state := RenameState(r, f.sideExits[j].state))
    {
      var state := RewriteState(r, f.sideExits[i].state);
      exits := exits + [f.sideExits[i].(state := state)];
    }
    var blocks: seq<Block> := [];
    for i := 0 to |f.blocks|
      invariant |blocks| == i && forall j :: 0 <= j < i ==> blocks[j] == RenameBlock(r, f.blocks[j])
    {
      var block := RewriteBlock(r, f.blocks[i]);
      blocks := blocks + [block];
    }
    renamed := f.(entryState := entryState, sideExits := exits, blocks := blocks);
  }

  // ---------------------------------------------------------------- value numbering

  // The literals of the block so far, in a table, and the fold they allow.
  method FoldedInstruction(inst: Inst, prior: seq<Inst>) returns (folded: Option<Inst>)
    ensures folded == Folded(inst, prior)
  {
    var constants: map<ValueId, Constant> := map[];
    for i := 0 to |prior|
      invariant forall v :: (v in constants) == ConstantIn(prior[..i], v).Some?
      invariant forall v :: v in constants ==> ConstantIn(prior[..i], v) == Some(constants[v])
    {
      assert prior[..i + 1][..i] == prior[..i];
      var candidate := prior[i];
      if candidate.kind.Pure? && candidate.kind.shape.ConstantShape? && |candidate.results| == 1 {
        constants := constants[candidate.results[0].id := candidate.kind.shape.constant];
      }
    }
    assert prior[..|prior|] == prior;
    if inst.results == [] || !inst.kind.Pure? || |inst.kind.operands| != 2 {
      return None;
    }
    var l, r := inst.kind.operands[0], inst.kind.operands[1];
    if l !in constants || r !in constants {
      return None;
    }
    match FoldShape(inst.kind.shape, constants[l], constants[r])
    case None => return None;
    case Some(c) => return Some(Inst([inst.results[0]], Pure(ConstantShape(c), [])));
  }

  method ReplaceResults(r: Replacements, results: seq<ValueId>, existing: seq<ValueId>) returns (r': Replacements)
    ensures r' == ReplaceEach(r, results, existing)
  {
    r' := r;
    var i := 0;
    while i < |results| && i < |existing|
      invariant i <= |results| && i <= |existing|
      invariant ReplaceEach(r', results[i..], existing[i..]) == ReplaceEach(r, results, existing)
    {
      assert results[i..][1..] == results[i + 1..] && existing[i..][1..] == existing[i + 1..];
      r' := r'[results[i] := existing[i]];
      i := i + 1;
    }
  }

  // One instruction of the block, with the tables it reads and updates.
  method NumberInstruction(s: CseState, inst: Inst) returns (s': CseState)
    requires Flat(s.replacements)
    ensures s' == CseStep(s, inst)
  {
    var considered := RewriteInstruction(s.replacements, inst);
    var folded := FoldedInstruction(considered, s.optimized);
    if folded.Some? {
      considered := folded.value;
    }
    s' := s;
    if considered.kind.Guard? {
      var key := (considered.kind.condition, considered.kind.mode);
      if key in s.guards {
        return;
      }
      s' := s'.(guards := s'.guards + {key});
    }
    match KeyOf(considered) {
    case Some(key) =>
      var results := Ids(considered.results);
      if key in s'.expressions {
        var replacements := ReplaceResults(s'.replacements, results, s'.expressions[key]);
        s' := s'.(replacements := replacements);
        return;
      }
      s' := s'.(expressions := s'.expressions[key := results]);
    case None =>
      if considered.kind.RuntimeCall? {
        s' := s'.(expressions := map[]);
      }
    }
    s' := s'.(optimized := s'.optimized + [considered]);
  }

  // Replacements stay flat while a block is numbered.
  lemma FlatAfter(s: CseState, r: Replacements, defined: set<ValueId>, kept: set<ValueId>, taken: set<ValueId>)
    requires Tidy(s, r, defined) && AgreeOn(s.replacements, r, taken)
    requires kept <= taken && kept !! r.Keys && forall v :: v in r ==> r[v] in kept
    ensures Flat(s.replacements)
  {
    forall v | v in s.replacements ensures s.replacements[v] !in s.replacements {
    }
  }

  method NumberBlock(r: Replacements, insts: seq<Inst>, ghost kept: set<ValueId>, ghost taken: set<ValueId>) returns (s: CseState)
    requires FreshInsts(insts, taken) && r.Keys <= taken
    requires kept <= taken && kept !! r.Keys && forall v :: v in r ==> r[v] in kept
    ensures s == CseInsts(r, insts)
  {
    s := CseState(r, map[], {}, []);
    for i := 0 to |insts|
      invariant s == CseInsts(r, insts[..i])
    {
      FreshInstsPrefix(insts, taken, i);
      InstsTidy(r, insts[..i], taken);
      FlatAfter(s, r, InstDefs(insts[..i]), kept, taken);
      assert insts[..i + 1][..i] == insts[..i];
      s := NumberInstruction(s, insts[i]);
    }
    assert insts[..|insts|] == insts;
  }

  method NumberBlocks(blocks: seq<Block>) returns (numbered: seq<Block>, r: Replacements)
    requires SingleDefs(blocks)
    ensures (numbered, r) == CseBlocks(map[], blocks)
  {
    hide SingleDefs;
    numbered, r := [], map[];
    for k := 0 to |blocks|
      invariant (numbered, r) == CseBlocks(map[], blocks[..k])
    {
      SinglePrefix(blocks, k);
      BlocksTidy(blocks[..k]);
      var b := blocks[k];
      var s := NumberBlock(r, b.instructions, Defs(numbered), Defs(blocks[..k]) + IdSet(Ids(b.parameters)));
      assert blocks[..k + 1][..k] == blocks[..k];
      numbered, r := numbered + [b.(instructions := s.optimized)], s.replacements;
    }
    assert blocks[..|blocks|] == blocks;
  }

  // -------------------------------------------------------------- dead instructions

  method RetainLive(insts: seq<Inst>, live: set<ValueId>) returns (retained: seq<Inst>, live': set<ValueId>)
    ensures (retained, live') == DceInsts(insts, live)
  {
    retained, live' := [], live;
    var i := |insts|;
    assert insts[..i] == insts && DceInsts(insts, live).0 + [] == DceInsts(insts, live).0;
    while i > 0
      invariant 0 <= i <= |insts|
      invariant DceInsts(insts, live) == (DceInsts(insts[..i], live').0 + retained, DceInsts(insts[..i], live').1)
    {
      i := i - 1;
      assert insts[..i + 1][..i] == insts[..i];
      var inst := insts[i];
      if Required(inst, live') {
        assert (DceInsts(insts[..i], live' + InputsOf(inst.kind)).0 + [inst]) + retained
            == DceInsts(insts[..i], live' + InputsOf(inst.kind)).0 + ([inst] + retained);
        live' := live' + InputsOf(inst.kind);
        retained := [inst] + retained;
      }
    }
    assert [] + retained == retained;
  }

  method LiveInState(state: seq<StateValue>) returns (live: set<ValueId>)
    ensures live == IdSet(StateValues(state))
  {
    live := {};
    for i := 0 to |state|
      invariant live == set j | 0 <= j < i :: state[j].value
    {
      live := live + {state[i].value};
    }
    assert forall j :: 0 <= j < |state| ==> StateValues(state)[j] == state[j].value;
  }

  // What is live before any instruction is looked at.
  method LiveAtStart(f: Function) returns (live: set<ValueId>)
    ensures live == BaseLive(f)
  {
    live := LiveInState(f.entryState);
    ghost var entry := live;
    for i := 0 to |f.sideExits|
      invariant live + ExitValues(f.sideExits[i..]) == entry + ExitValues(f.sideExits)
    {
      assert f.sideExits[i..][1..] == f.sideExits[i + 1..];
      var values := LiveInState(f.sideExits[i].state);
      live := live + values;
    }
    ghost var states := live;
    for k := 0 to |f.blocks|
      invariant live + AllTerminatorInputs(f.blocks[k..]) == states + AllTerminatorInputs(f.blocks)
    {
      assert f.blocks[k..][1..] == f.blocks[k + 1..];
      match f.blocks[k].terminator {
        case Jump(target) => live := live + set v | v in target.arguments;
        case Branch(condition, yes, no) =>
          live := live + {condition} + (set v | v in yes.arguments) + (set v | v in no.arguments);
        case Return(values) => live := live + set v | v in values;
        case SideExitTo(_, values) => live := live + set v | v in values;
      }
    }
  }

  method RemoveDeadInstructions(f: Function) returns (f': Function)
    ensures f' == DceFunction(f)
  {
    var live := LiveAtStart(f);
    var blocks: seq<Block> := [];
    for k := 0 to |f.blocks|
      invariant (blocks, live) == DceBlocks(f.blocks[..k], BaseLive(f))
    {
      assert f.blocks[..k + 1][..k] == f.blocks[..k];
      var retained;
      retained, live := RetainLive(f.blocks[k].instructions, live);
      blocks := blocks + [f.blocks[k].(instructions := retained)];
    }
    assert f.blocks[..|f.blocks|] == f.blocks;
    f' := f.(blocks := blocks);
  }

  method RetainExits(exits: seq<SideExit>, referenced: set<ExitId>) returns (kept: seq<SideExit>)
    ensures kept == KeepExits(exits, referenced)
  {
    kept := [];
    for i := 0 to |exits|
      invariant KeepExits(exits, referenced) == kept + KeepExits(exits[i..], referenced)
    {
      assert exits[i..][1..] == exits[i + 1..];
      if exits[i].id in referenced {
        assert kept + ([exits[i]] + KeepExits(exits[i + 1..], referenced)) == (kept + [exits[i]]) + KeepExits(exits[i + 1..], referenced);
        kept := kept + [exits[i]];
      }
    }
  }

  method RemoveUnreferencedSideExits(f: Function) returns (f': Function)
    ensures f' == DropExits(f)
  {
    var kept := RetainExits(f.sideExits, set x | x in ExitUses(f.blocks));
    f' := f.(sideExits := kept);
  }

  // ----------------------------------------------------------------------- the passes

  // A region that is optimized in place.
  class Region {
    var body: Function

    constructor (f: Function)
      ensures body == f
    {
      body := f;
    }

    method Optimize()
      requires SingleDefs(body.blocks)
      modifies this
      ensures body == Optimized(old(body))
    {
      var numbered, r := NumberBlocks(body.blocks);
      BlocksTidy(body.blocks);
      body := body.(blocks := numbered);
      body := RewriteFunction(r, body);
      body := RemoveDeadInstructions(body);
      body := RemoveUnreferencedSideExits(body);
    }
  }
}
