/**
  The region optimizer (src/wxir/optimizer.rs, optimizer/keys.rs,
  optimizer/checked.rs, optimizer/dce.rs): value numbering and constant folding
  within each block, removal of repeated guards, renaming of what was replaced,
  removal of dead instructions and of unreferenced exit metadata.
 */
module WxOptimizer {
  import opened Wrappers
  import opened WxIr

  type Replacements = map<ValueId, ValueId>

  // ------------------------------------------------------------------ renaming

  function Resolve(r: Replacements, v: ValueId): ValueId {
    if v in r then r[v] else v
  }

  // Nothing is replaced by something that is itself replaced.
  predicate Flat(r: Replacements) {
    forall v :: v in r ==> r[v] !in r
  }

  function RenameAll(r: Replacements, ids: seq<ValueId>): seq<ValueId> {
    seq(|ids|, i requires 0 <= i < |ids| => Resolve(r, ids[i]))
  }

  function RenameInputs(r: Replacements, inputs: seq<RuntimeInput>): seq<RuntimeInput> {
    seq(|inputs|, i requires 0 <= i < |inputs| => inputs[i].(value := Resolve(r, inputs[i].value)))
  }

  function RenameState(r: Replacements, state: seq<StateValue>): seq<StateValue> {
    seq(|state|, i requires 0 <= i < |state| => state[i].(value := Resolve(r, state[i].value)))
  }

  function RenameKind(r: Replacements, kind: Kind): Kind {
    match kind
    case Pure(shape, operands) => Pure(shape, RenameAll(r, operands))
    case Guard(condition, exit, mode) => Guard(Resolve(r, condition), exit, mode)
    case RuntimeCall(pc, inputs, output) => RuntimeCall(pc, RenameInputs(r, inputs), output)
  }

  function RenameInst(r: Replacements, inst: Inst): Inst {
    inst.(kind := RenameKind(r, inst.kind))
  }

  function RenameTarget(r: Replacements, t: Target): Target {
    t.(arguments := RenameAll(r, t.arguments))
  }

  function RenameTerminator(r: Replacements, t: Terminator): Terminator {
    match t
    case Jump(target) => Jump(RenameTarget(r, target))
    case Branch(condition, yes, no) => Branch(Resolve(r, condition), RenameTarget(r, yes), RenameTarget(r, no))
    case Return(values) => Return(RenameAll(r, values))
    case SideExitTo(exit, values) => SideExitTo(exit, RenameAll(r, values))
  }

  function RenameInsts(r: Replacements, insts: seq<Inst>): seq<Inst> {
    seq(|insts|, i requires 0 <= i < |insts| => RenameInst(r, insts[i]))
  }

  function RenameBlock(r: Replacements, b: Block): Block {
    b.(instructions := RenameInsts(r, b.instructions), terminator := RenameTerminator(r, b.terminator))
  }

  function RenameBlocks(r: Replacements, blocks: seq<Block>): seq<Block> {
    seq(|blocks|, i requires 0 <= i < |blocks| => RenameBlock(r, blocks[i]))
  }

  function RenameExits(r: Replacements, exits: seq<SideExit>): seq<SideExit> {
    seq(|exits|, i requires 0 <= i < |exits| => exits[i].(state := RenameState(r, exits[i].state)))
  }

  function RenameFunction(r: Replacements, f: Function): Function {
    f.(entryState := RenameState(r, f.entryState),
       sideExits := RenameExits(r, f.sideExits),
       blocks := RenameBlocks(r, f.blocks))
  }

  // ------------------------------------------------------------- expression keys

  // Equal keys mean the same computation; the result type is part of the key
  // where the operands do not determine it.
  datatype Key = Key(shape: Shape, ty: Option<WxType>, operands: seq<ValueId>)

  predicate Commutes(shape: Shape) {
    match shape
    case BinaryShape(IntegerOp(op)) => op.Add? || op.Mul? || op.And? || op.Or? || op.Xor?
    case BinaryShape(FloatingOp(op)) => op.FAdd? || op.FMul?
    case CheckedShape(op) => op.AddOverflow? || op.MulOverflow?
    case CompareShape(IntegerCompare(op)) => op.Eq? || op.Ne?
    case CompareShape(FloatingCompare(op)) => op.FEq? || op.FNe?
    case _ => false
  }

  function CanonicalOperands(shape: Shape, operands: seq<ValueId>): seq<ValueId> {
    if Commutes(shape) && |operands| == 2 && operands[1] < operands[0] then [operands[1], operands[0]] else operands
  }

  function KeyOf(inst: Inst): Option<Key> {
    if !inst.kind.Pure? || inst.results == [] then None
    else
      var operands := CanonicalOperands(inst.kind.shape, inst.kind.operands);
      match inst.kind.shape
      case ConstantShape(_) => Some(Key(inst.kind.shape, Some(inst.results[0].ty), operands))
      case BinaryShape(_) => if |inst.results| == 1 then Some(Key(inst.kind.shape, Some(inst.results[0].ty), operands)) else None
      case CastShape(_) => if |inst.results| == 1 then Some(Key(inst.kind.shape, Some(inst.results[0].ty), operands)) else None
      case CheckedShape(_) => if |inst.results| == 2 then Some(Key(inst.kind.shape, None, operands)) else None
      case CompareShape(_) => if |inst.results| == 1 then Some(Key(inst.kind.shape, None, operands)) else None
  }

  // ------------------------------------------------------------- constant folding

  // The literal that a value of the block is known to be.
  function ConstantIn(insts: seq<Inst>, v: ValueId): Option<Constant> {
    if insts == [] then None
    else
      var last := insts[|insts| - 1];
      if last.kind.Pure? && last.kind.shape.ConstantShape? && |last.results| == 1 && last.results[0].id == v
      then Some(last.kind.shape.constant)
      else ConstantIn(insts[..|insts| - 1], v)
  }

  // An i64 read as u64.
  function Unsigned64(i: Int64): nat {
    if i < 0 then i + 0x1_0000_0000_0000_0000 else i
  }

  // The comparison the folder makes: always at 64 bits.
  predicate Compare64(op: IntCompare, l: Int64, r: Int64) {
    match op
    case Eq => l == r
    case Ne => l != r
    case SignedLt => l < r
    case SignedLe => l <= r
    case UnsignedLt => Unsigned64(l) < Unsigned64(r)
    case UnsignedLe => Unsigned64(l) <= Unsigned64(r)
  }

  function FoldShape(shape: Shape, l: Constant, r: Constant): Option<Constant> {
    match (shape, l, r)
    case (BinaryShape(IntegerOp(And)), BoolConst(a), BoolConst(b)) => Some(BoolConst(a && b))
    case (BinaryShape(IntegerOp(Or)), BoolConst(a), BoolConst(b)) => Some(BoolConst(a || b))
    case (BinaryShape(IntegerOp(Xor)), BoolConst(a), BoolConst(b)) => Some(BoolConst(a != b))
    case (CompareShape(IntegerCompare(op)), IntConst(a), IntConst(b)) => Some(BoolConst(Compare64(op, a, b)))
    case (CompareShape(IntegerCompare(Eq)), BoolConst(a), BoolConst(b)) => Some(BoolConst(a == b))
    case (CompareShape(IntegerCompare(Ne)), BoolConst(a), BoolConst(b)) => Some(BoolConst(a != b))
    case _ => None
  }

  function Folded(inst: Inst, prior: seq<Inst>): Option<Inst> {
    if inst.results == [] || !inst.kind.Pure? || |inst.kind.operands| != 2 then None
    else
      var l, r := ConstantIn(prior, inst.kind.operands[0]), ConstantIn(prior, inst.kind.operands[1]);
      if l.None? || r.None? then None
      else
        match FoldShape(inst.kind.shape, l.value, r.value)
        case None => None
        case Some(c) => Some(Inst([inst.results[0]], Pure(ConstantShape(c), [])))
  }

  // -------------------------------------------------------- value numbering, by block

  datatype CseState = CseState(
    replacements: Replacements,
    expressions: map<Key, seq<ValueId>>,
    guards: set<(ValueId, GuardMode)>,
    optimized: seq<Inst>)

  function ReplaceEach(r: Replacements, ids: seq<ValueId>, existing: seq<ValueId>): Replacements
    decreases |ids|
  {
    if ids == [] || existing == [] then r
    else ReplaceEach(r[ids[0] := existing[0]], ids[1..], existing[1..])
  }

  // The instruction that is considered: renamed and, where possible, folded.
  function Prepared(s: CseState, inst: Inst): Inst {
    var renamed := RenameInst(s.replacements, inst);
    match Folded(renamed, s.optimized)
    case Some(folded) => folded
    case None => renamed
  }

  function CseStep(s: CseState, inst: Inst): CseState {
    var prepared := Prepared(s, inst);
    if prepared.kind.Guard? && (prepared.kind.condition, prepared.kind.mode) in s.guards then s
    else
      var guards := if prepared.kind.Guard? then s.guards + {(prepared.kind.condition, prepared.kind.mode)} else s.guards;
      match KeyOf(prepared)
      case Some(key) =>
        if key in s.expressions then
          s.(replacements := ReplaceEach(s.replacements, Ids(prepared.results), s.expressions[key]))
        else
          s.(expressions := s.expressions[key := Ids(prepared.results)], optimized := s.optimized + [prepared])
      case None =>
        s.(expressions := if prepared.kind.RuntimeCall? then map[] else s.expressions,
           guards := guards,
           optimized := s.optimized + [prepared])
  }

  function CseInsts(r: Replacements, insts: seq<Inst>): CseState {
    if insts == [] then CseState(r, map[], {}, [])
    else CseStep(CseInsts(r, insts[..|insts| - 1]), insts[|insts| - 1])
  }

  function CseBlocks(r: Replacements, blocks: seq<Block>): (seq<Block>, Replacements)
    decreases |blocks|
  {
    if blocks == [] then ([], r)
    else
      var (before, r') := CseBlocks(r, blocks[..|blocks| - 1]);
      var last := blocks[|blocks| - 1];
      var s := CseInsts(r', last.instructions);
      (before + [last.(instructions := s.optimized)], s.replacements)
  }

  // -------------------------------------------------------------- dead instructions

  function IdSet(ids: seq<ValueId>): set<ValueId> {
    set v | v in ids
  }

  function InputsOf(kind: Kind): set<ValueId> {
    match kind
    case Pure(_, operands) => IdSet(operands)
    case Guard(condition, _, _) => {condition}
    case RuntimeCall(_, inputs, _) => IdSet(InputValues(inputs))
  }

  function TerminatorInputs(t: Terminator): set<ValueId> {
    match t
    case Jump(target) => IdSet(target.arguments)
    case Branch(condition, yes, no) => {condition} + IdSet(yes.arguments) + IdSet(no.arguments)
    case Return(values) => IdSet(values)
    case SideExitTo(_, values) => IdSet(values)
  }

  predicate Required(inst: Inst, live: set<ValueId>) {
    !inst.kind.Pure? || exists id :: id in Ids(inst.results) && id in live
  }

  // Backwards over a block: what is kept, and what is live before it.
  function DceInsts(insts: seq<Inst>, live: set<ValueId>): (seq<Inst>, set<ValueId>) {
    if insts == [] then ([], live)
    else
      var last := insts[|insts| - 1];
      if Required(last, live) then
        var (kept, before) := DceInsts(insts[..|insts| - 1], live + InputsOf(last.kind));
        (kept + [last], before)
      else
        DceInsts(insts[..|insts| - 1], live)
  }

  function ExitValues(exits: seq<SideExit>): set<ValueId> {
    if exits == [] then {} else IdSet(StateValues(exits[0].state)) + ExitValues(exits[1..])
  }

  function AllTerminatorInputs(blocks: seq<Block>): set<ValueId> {
    if blocks == [] then {} else TerminatorInputs(blocks[0].terminator) + AllTerminatorInputs(blocks[1..])
  }

  // What is live from the start: the entry state, every exit state and every terminator.
  function BaseLive(f: Function): set<ValueId> {
    IdSet(StateValues(f.entryState)) + ExitValues(f.sideExits) + AllTerminatorInputs(f.blocks)
  }

  // One live set goes through all blocks in order.
  function DceBlocks(blocks: seq<Block>, live: set<ValueId>): (seq<Block>, set<ValueId>)
    decreases |blocks|
  {
    if blocks == [] then ([], live)
    else
      var (before, live') := DceBlocks(blocks[..|blocks| - 1], live);
      var last := blocks[|blocks| - 1];
      var (kept, live'') := DceInsts(last.instructions, live');
      (before + [last.(instructions := kept)], live'')
  }

  function DceFunction(f: Function): Function {
    f.(blocks := DceBlocks(f.blocks, BaseLive(f)).0)
  }

  // ------------------------------------------------------------- unreferenced exits

  function InstExits(insts: seq<Inst>): seq<ExitId> {
    if insts == [] then []
    else
      var last := insts[|insts| - 1];
      InstExits(insts[..|insts| - 1]) + if last.kind.Guard? then [last.kind.exit] else []
  }

  function BlockExits(b: Block): seq<ExitId> {
    InstExits(b.instructions) + if b.terminator.SideExitTo? then [b.terminator.exit] else []
  }

  // Every use of exit metadata, in order.
  function ExitUses(blocks: seq<Block>): seq<ExitId> {
    if blocks == [] then []
    else ExitUses(blocks[..|blocks| - 1]) + BlockExits(blocks[|blocks| - 1])
  }

  function KeepExits(exits: seq<SideExit>, used: set<ExitId>): seq<SideExit> {
    if exits == [] then []
    else (if exits[0].id in used then [exits[0]] else []) + KeepExits(exits[1..], used)
  }

  function DropExits(f: Function): Function {
    f.(sideExits := KeepExits(f.sideExits, set x | x in ExitUses(f.blocks)))
  }

  // -------------------------------------------------------------------- the passes

  function Numbered(f: Function): (Function, Replacements) {
    var (blocks, r) := CseBlocks(map[], f.blocks);
    (f.(blocks := blocks), r)
  }

  function Optimized(f: Function): Function {
    var (numbered, r) := Numbered(f);
    DropExits(DceFunction(RenameFunction(r, numbered)))
  }
}
