/**
  The region IR verifier (src/wxir/verifier.rs): what it accepts, stated as a run
  of every block over types, and the verifier itself.
 */
module WxVerifier {
  import opened Wrappers
  import opened WxIr
  import opened WxSemantics
  import opened WxOptimizer

  // Types as values: an instruction applies when its types fit, and no guard fires.
  function StaticAlgebra(): Algebra<WxType> {
    Algebra(
      (shape: Shape, operands: seq<WxType>, results: seq<WxType>) =>
        if TypeRule(shape, operands, results) then Some(results) else None,
      (v: WxType, ty: WxType) => v == ty,
      (v: WxType, mode: GuardMode) => if v == BOOL then Some(false) else None,
      (calls: seq<Call<WxType>>, results: seq<WxType>) => Done(results),
      (shape: Shape, l: Constant, lty: WxType, r: Constant, rty: WxType) => true)
  }

  predicate Distinct<T(==)>(s: seq<T>) {
    forall i, j :: 0 <= i < j < |s| ==> s[i] != s[j]
  }

  function BlockIds(blocks: seq<Block>): seq<BlockId> {
    seq(|blocks|, i requires 0 <= i < |blocks| => blocks[i].id)
  }

  function ExitIds(exits: seq<SideExit>): seq<ExitId> {
    seq(|exits|, i requires 0 <= i < |exits| => exits[i].id)
  }

  // The entry state names each entry parameter once, by its type.
  predicate EntryStateFits(state: seq<StateValue>, parameters: seq<Typed>) {
    && |state| == |parameters|
    && Distinct(StateRegisters(state)) && Distinct(StateValues(state))
    && forall i :: 0 <= i < |state| ==> Typed(state[i].value, state[i].ty) in parameters
  }

  // ------------------------------------------------------------- single definitions

  function InstDefs(insts: seq<Inst>): set<ValueId> {
    if insts == [] then {}
    else InstDefs(insts[..|insts| - 1]) + IdSet(Ids(insts[|insts| - 1].results))
  }

  function BlockDefs(b: Block): set<ValueId> {
    IdSet(Ids(b.parameters)) + InstDefs(b.instructions)
  }

  function Defs(blocks: seq<Block>): set<ValueId> {
    if blocks == [] then {} else Defs(blocks[..|blocks| - 1]) + BlockDefs(blocks[|blocks| - 1])
  }

  // Definitions that are new, each made once and of a valid type.
  predicate FreshDefs(ts: seq<Typed>, taken: set<ValueId>) {
    Distinct(Ids(ts)) && IdSet(Ids(ts)) !! taken && forall i :: 0 <= i < |ts| ==> ValidType(ts[i].ty)
  }

  predicate FreshInsts(insts: seq<Inst>, taken: set<ValueId>) {
    insts == [] ||
    (&& FreshInsts(insts[..|insts| - 1], taken)
     && FreshDefs(insts[|insts| - 1].results, taken + InstDefs(insts[..|insts| - 1])))
  }

  // Every id has exactly one definition in the function.
  predicate SingleDefs(blocks: seq<Block>) {
    blocks == [] ||
    var before, last := blocks[..|blocks| - 1], blocks[|blocks| - 1];
    && SingleDefs(before)
    && FreshDefs(last.parameters, Defs(before))
    && FreshInsts(last.instructions, Defs(before) + IdSet(Ids(last.parameters)))
  }

  // ---------------------------------------------------------------------- acceptance

  predicate ExitFits(exit: SideExit) {
    && Distinct(StateRegisters(exit.state))
    && forall i :: 0 <= i < |exit.state| ==> ValidType(exit.state[i].ty)
  }

  predicate BlockFits(f: Function, b: Block) {
    RunBlock(StaticAlgebra(), f, b, Types(b.parameters), []) != StuckBlock
  }

  predicate ExitsUsedOnce(f: Function) {
    Distinct(ExitUses(f.blocks)) && forall i :: 0 <= i < |f.sideExits| ==> f.sideExits[i].id in ExitUses(f.blocks)
  }

  // Block ids, entry state, return types and definitions.
  predicate HeaderFits(f: Function) {
    && Distinct(BlockIds(f.blocks))
    && FindBlock(f.blocks, f.entry).Some?
    && EntryStateFits(f.entryState, FindBlock(f.blocks, f.entry).value.parameters)
    && (forall i :: 0 <= i < |f.resultTypes| ==> ValidType(f.resultTypes[i]))
    && SingleDefs(f.blocks)
  }

  predicate MetadataFits(f: Function) {
    Distinct(ExitIds(f.sideExits)) && forall i :: 0 <= i < |f.sideExits| ==> ExitFits(f.sideExits[i])
  }

  predicate BlocksFit(f: Function) {
    forall i :: 0 <= i < |f.blocks| ==> BlockFits(f, f.blocks[i])
  }

  predicate WellFormed(f: Function) {
    HeaderFits(f) && MetadataFits(f) && BlocksFit(f) && ExitsUsedOnce(f)
  }
}
