/**
  The optimizer's result still verifies, and exactly the exit metadata that is no
  longer referenced is gone.
 */
module WxReverify {
  import opened Wrappers
  import opened WxIr
  import opened WxSemantics
  import opened WxOptimizer
  import opened WxVerifier
  import opened WxSoundness
  import opened WxLaws
  import opened WxNumbering
  import opened WxNumberingRuns
  import opened WxDead
  import opened WxPreservation

  // --------------------------------------------------- definitions are still single

  lemma {:induction false} FewerTaken(insts: seq<Inst>, taken: set<ValueId>, fewer: set<ValueId>)
    requires FreshInsts(insts, taken) && fewer <= taken
    ensures FreshInsts(insts, fewer)
  {
    if insts != [] {
      FewerTaken(insts[..|insts| - 1], taken, fewer);
    }
  }

  lemma FreshAppend(insts: seq<Inst>, inst: Inst, taken: set<ValueId>)
    requires FreshInsts(insts, taken) && FreshDefs(inst.results, taken + InstDefs(insts))
    ensures FreshInsts(insts + [inst], taken)
  {
    assert (insts + [inst])[..|insts|] == insts;
  }

  lemma PreparedFresh(s: CseState, inst: Inst, taken: set<ValueId>)
    requires FreshDefs(inst.results, taken)
    ensures FreshDefs(Prepared(s, inst).results, taken)
  {
    PreparedResults(s, inst);
  }

  lemma StepKeeps(s: CseState, inst: Inst)
    ensures CseStep(s, inst).optimized == s.optimized || CseStep(s, inst).optimized == s.optimized + [Prepared(s, inst)]
  {
  }

  lemma {:induction false} NumberedFresh(r: Replacements, insts: seq<Inst>, taken: set<ValueId>)
    requires FreshInsts(insts, taken)
    ensures FreshInsts(CseInsts(r, insts).optimized, taken)
    ensures InstDefs(CseInsts(r, insts).optimized) <= InstDefs(insts)
  {
    if insts != [] {
      var before, last := insts[..|insts| - 1], insts[|insts| - 1];
      NumberedFresh(r, before, taken);
      var s := CseInsts(r, before);
      StepKeeps(s, last);
      NewFresh(s.optimized, Prepared(s, last), taken, taken + InstDefs(before)) by {
        PreparedFresh(s, last, taken + InstDefs(before));
      }
      PreparedResults(s, last);
    }
  }

  lemma NewFresh(insts: seq<Inst>, inst: Inst, taken: set<ValueId>, more: set<ValueId>)
    requires FreshInsts(insts, taken) && FreshDefs(inst.results, more) && taken + InstDefs(insts) <= more
    ensures FreshInsts(insts + [inst], taken)
    ensures InstDefs(insts + [inst]) == InstDefs(insts) + IdSet(Ids(inst.results))
  {
    FreshAppend(insts, inst, taken);
    DefsAppend(insts, inst);
  }

  lemma {:induction false} RenamedFresh(r: Replacements, insts: seq<Inst>, insts': seq<Inst>, taken: set<ValueId>)
    requires FreshInsts(insts, taken) && |insts'| == |insts| && forall i :: 0 <= i < |insts| ==> insts'[i].results == insts[i].results
    ensures FreshInsts(insts', taken) && InstDefs(insts') == InstDefs(insts)
  {
    if insts != [] {
      RenamedFresh(r, insts[..|insts| - 1], insts'[..|insts| - 1], taken);
    }
  }

  lemma {:induction false} KeptFresh(insts: seq<Inst>, live: set<ValueId>, taken: set<ValueId>)
    requires FreshInsts(insts, taken)
    ensures FreshInsts(DceInsts(insts, live).0, taken)
    ensures InstDefs(DceInsts(insts, live).0) <= InstDefs(insts)
    decreases |insts|
  {
    if insts != [] {
      var before, last := insts[..|insts| - 1], insts[|insts| - 1];
      var live' := if Required(last, live) then live + InputsOf(last.kind) else live;
      KeptFresh(before, live', taken);
      if Required(last, live) {
        FreshAppend(DceInsts(before, live').0, last, taken);
        DefsAppend(DceInsts(before, live').0, last);
      }
    }
  }

  // What each block of the result is made of.
  function OptimizedInsts(f: Function, k: nat): seq<Inst>
    requires k < |f.blocks|
  {
    var renamed := RenamedFunction(f);
    var insts := RenameInsts(Numbered(f).1, CseInsts(ReplacedBefore(f.blocks, k), f.blocks[k].instructions).optimized);
    if k < |renamed.blocks| then DceInsts(insts, DceBlocks(renamed.blocks[..k], BaseLive(renamed)).1).0 else []
  }

  lemma OptimizedBlockParts(f: Function, k: nat)
    requires SingleDefs(f.blocks) && k < |f.blocks|
    ensures |Optimized(f).blocks| == |f.blocks|
    ensures Optimized(f).blocks[k] ==
      f.blocks[k].(instructions := OptimizedInsts(f, k), terminator := RenameTerminator(Numbered(f).1, f.blocks[k].terminator))
  {
    RenamedFunctionParts(f);
    NumberedBlock(f.blocks, k);
    DceBlockAt(RenamedFunction(f).blocks, BaseLive(RenamedFunction(f)), k);
  }

  lemma OptimizedInstsFresh(f: Function, k: nat, taken: set<ValueId>)
    requires SingleDefs(f.blocks) && k < |f.blocks| && FreshInsts(f.blocks[k].instructions, taken)
    ensures FreshInsts(OptimizedInsts(f, k), taken)
    ensures InstDefs(OptimizedInsts(f, k)) <= InstDefs(f.blocks[k].instructions)
  {
    var renamed, r := RenamedFunction(f), Numbered(f).1;
    RenamedFunctionParts(f);
    var numbered := CseInsts(ReplacedBefore(f.blocks, k), f.blocks[k].instructions).optimized;
    NumberedFresh(ReplacedBefore(f.blocks, k), f.blocks[k].instructions, taken);
    RenamedFresh(r, numbered, RenameInsts(r, numbered), taken);
    KeptFresh(RenameInsts(r, numbered), DceBlocks(renamed.blocks[..k], BaseLive(renamed)).1, taken);
  }

  // Fewer definitions, which are new wherever the original ones are.
  ghost predicate Thinned(insts: seq<Inst>, insts': seq<Inst>) {
    InstDefs(insts') <= InstDefs(insts) && forall taken :: FreshInsts(insts, taken) ==> FreshInsts(insts', taken)
  }

  lemma {:induction false} ThinnedSingleDefs(blocks: seq<Block>, blocks': seq<Block>)
    requires SingleDefs(blocks) && SameBlocks(blocks, blocks')
    requires forall k :: 0 <= k < |blocks| ==> Thinned(blocks[k].instructions, blocks'[k].instructions)
    ensures SingleDefs(blocks') && Defs(blocks') <= Defs(blocks)
  {
    if blocks != [] {
      var n := |blocks| - 1;
      var before, before', last := blocks[..n], blocks'[..n], blocks[n];
      ThinnedSingleDefs(before, before');
      var params := IdSet(Ids(last.parameters));
      FewerTaken(blocks'[n].instructions, Defs(before) + params, Defs(before') + params);
    }
  }

  lemma OptimizedSingleDefs(f: Function)
    requires SingleDefs(f.blocks)
    ensures SingleDefs(Optimized(f).blocks)
  {
    OptimizedSameBlocks(f);
    forall k | 0 <= k < |f.blocks| ensures Thinned(f.blocks[k].instructions, Optimized(f).blocks[k].instructions) {
      OptimizedBlockParts(f, k);
      SinglePrefix(f.blocks, k);
      forall taken | FreshInsts(f.blocks[k].instructions, taken) ensures FreshInsts(OptimizedInsts(f, k), taken) {
        OptimizedInstsFresh(f, k, taken);
      }
      OptimizedInstsFresh(f, k, Defs(f.blocks[..k]) + IdSet(Ids(f.blocks[k].parameters)));
    }
    ThinnedSingleDefs(f.blocks, Optimized(f).blocks);
  }

  // ------------------------------------------------------------------ uses of exits

  // Some of the uses, none of them twice.
  predicate FewerUses(uses: seq<ExitId>, uses': seq<ExitId>) {
    (forall id :: id in uses' ==> id in uses) && (Distinct(uses) ==> Distinct(uses'))
  }

  lemma DistinctParts<T>(a: seq<T>, b: seq<T>)
    ensures Distinct(a + b) <==> Distinct(a) && Distinct(b) && forall x :: x in a ==> x !in b
  {
    var ab := a + b;
    if Distinct(ab) {
      forall i, j | 0 <= i < j < |a| ensures a[i] != a[j] {
        assert ab[i] == a[i] && ab[j] == a[j];
      }
      forall i, j | 0 <= i < j < |b| ensures b[i] != b[j] {
        assert ab[|a| + i] == b[i] && ab[|a| + j] == b[j];
      }
      forall i, j | 0 <= i < |a| && 0 <= j < |b| ensures a[i] != b[j] {
        assert ab[i] == a[i] && ab[|a| + j] == b[j];
      }
    }
    if Distinct(a) && Distinct(b) && forall x :: x in a ==> x !in b {
      forall i, j | 0 <= i < j < |ab| ensures ab[i] != ab[j] {
        if i < |a| <= j {
          assert a[i] in a && b[j - |a|] in b;
        }
      }
    }
  }

  lemma SameUses(uses: seq<ExitId>)
    ensures FewerUses(uses, uses)
  {
  }

  lemma FewerTogether(a: seq<ExitId>, a': seq<ExitId>, b: seq<ExitId>, b': seq<ExitId>)
    requires FewerUses(a, a') && FewerUses(b, b')
    ensures FewerUses(a + b, a' + b')
  {
    DistinctParts(a, b);
    DistinctParts(a', b');
  }

  lemma ExitsAppend(insts: seq<Inst>, inst: Inst)
    ensures InstExits(insts + [inst]) == InstExits(insts) + if inst.kind.Guard? then [inst.kind.exit] else []
  {
    assert (insts + [inst])[..|insts|] == insts;
  }

  lemma {:induction false} NumberedExits(r: Replacements, insts: seq<Inst>)
    ensures FewerUses(InstExits(insts), InstExits(CseInsts(r, insts).optimized))
  {
    if insts != [] {
      var before, last := insts[..|insts| - 1], insts[|insts| - 1];
      NumberedExits(r, before);
      var s := CseInsts(r, before);
      StepKeeps(s, last);
      PreparedResults(s, last);
      var mine := if last.kind.Guard? then [last.kind.exit] else [];
      var p := Prepared(s, last);
      var kept := if p.kind.Guard? then [p.kind.exit] else [];
      ExitsAppend(s.optimized, p);
      assert p.kind.Guard? ==> last.kind.Guard? && p.kind.exit == last.kind.exit;
      FewerTogether(InstExits(before), InstExits(s.optimized), mine, []);
      FewerTogether(InstExits(before), InstExits(s.optimized), mine, kept);
      assert InstExits(s.optimized) + [] == InstExits(s.optimized);
    }
  }

  lemma {:induction false} RenamedExits(r: Replacements, insts: seq<Inst>)
    ensures InstExits(RenameInsts(r, insts)) == InstExits(insts)
  {
    if insts != [] {
      RenamedExits(r, insts[..|insts| - 1]);
      assert RenameInsts(r, insts)[..|insts| - 1] == RenameInsts(r, insts[..|insts| - 1]);
    }
  }

  lemma {:induction false} KeptExits(insts: seq<Inst>, live: set<ValueId>)
    ensures InstExits(DceInsts(insts, live).0) == InstExits(insts)
    decreases |insts|
  {
    if insts != [] {
      var before, last := insts[..|insts| - 1], insts[|insts| - 1];
      var live' := if Required(last, live) then live + InputsOf(last.kind) else live;
      KeptExits(before, live');
      if Required(last, live) {
        ExitsAppend(DceInsts(before, live').0, last);
      }
    }
  }

  lemma OptimizedInstExits(f: Function, k: nat)
    requires SingleDefs(f.blocks) && k < |f.blocks|
    ensures FewerUses(InstExits(f.blocks[k].instructions), InstExits(OptimizedInsts(f, k)))
  {
    var renamed, r := RenamedFunction(f), Numbered(f).1;
    RenamedFunctionParts(f);
    var numbered := CseInsts(ReplacedBefore(f.blocks, k), f.blocks[k].instructions).optimized;
    NumberedExits(ReplacedBefore(f.blocks, k), f.blocks[k].instructions);
    RenamedExits(r, numbered);
    KeptExits(RenameInsts(r, numbered), DceBlocks(renamed.blocks[..k], BaseLive(renamed)).1);
  }

  lemma {:induction false} FewerBlockUses(blocks: seq<Block>, blocks': seq<Block>)
    requires |blocks| == |blocks'|
    requires forall k :: 0 <= k < |blocks| ==> FewerUses(BlockExits(blocks[k]), BlockExits(blocks'[k]))
    ensures FewerUses(ExitUses(blocks), ExitUses(blocks'))
  {
    if blocks != [] {
      var n := |blocks| - 1;
      FewerBlockUses(blocks[..n], blocks'[..n]);
      FewerTogether(ExitUses(blocks[..n]), ExitUses(blocks'[..n]), BlockExits(blocks[n]), BlockExits(blocks'[n]));
    }
  }

  lemma OptimizedUses(f: Function)
    requires SingleDefs(f.blocks)
    ensures FewerUses(ExitUses(f.blocks), ExitUses(Optimized(f).blocks))
  {
    hide FewerUses, Distinct, InstExits, ExitUses, SingleDefs, Optimized;
    OptimizedSameBlocks(f);
    forall k | 0 <= k < |f.blocks| ensures FewerUses(BlockExits(f.blocks[k]), BlockExits(Optimized(f).blocks[k])) {
      OptimizedBlockParts(f, k);
      OptimizedInstExits(f, k);
      var t := f.blocks[k].terminator;
      var own := if t.SideExitTo? then [t.exit] else [];
      SameUses(own);
      FewerTogether(InstExits(f.blocks[k].instructions), InstExits(OptimizedInsts(f, k)), own, own);
    }
    FewerBlockUses(f.blocks, Optimized(f).blocks);
  }

  // ------------------------------------------------------------------ exit metadata

  lemma OptimizedExits(f: Function)
    ensures Optimized(f).sideExits == KeepExits(RenameExits(Numbered(f).1, f.sideExits), set x | x in ExitUses(Optimized(f).blocks))
  {
  }

  // Exactly the metadata that is still referenced is there, renamed.
  lemma ExactlyUnreferencedExitsRemoved(f: Function, id: ExitId)
    ensures FindExit(Optimized(f).sideExits, id) ==
      if id !in ExitUses(Optimized(f).blocks) then None
      else
        match FindExit(f.sideExits, id)
        case None => None
        case Some(exit) => Some(exit.(state := RenameState(Numbered(f).1, exit.state)))
  {
    OptimizedExits(f);
    var used := set x | x in ExitUses(Optimized(f).blocks);
    FindKeptExit(RenameExits(Numbered(f).1, f.sideExits), used, id);
    FindRenamedExit(Numbered(f).1, f.sideExits, id);
  }

  lemma DistinctCons(x: ExitId, s: seq<ExitId>)
    ensures Distinct([x] + s) <==> Distinct(s) && x !in s
  {
    DistinctParts([x], s);
    assert Distinct([x]);
    assert forall y :: y in [x] <==> y == x;
  }

  lemma ExitIdsCons(exits: seq<SideExit>)
    requires exits != []
    ensures ExitIds(exits) == [exits[0].id] + ExitIds(exits[1..])
  {
  }

  lemma {:induction false} KeptExitsFit(exits: seq<SideExit>, used: set<ExitId>)
    requires Distinct(ExitIds(exits)) && forall i :: 0 <= i < |exits| ==> ExitFits(exits[i])
    ensures var kept := KeepExits(exits, used);
      && Distinct(ExitIds(kept))
      && (forall id :: id in ExitIds(kept) ==> id in used && id in ExitIds(exits))
      && (forall i :: 0 <= i < |kept| ==> ExitFits(kept[i]))
  {
    if exits != [] {
      hide ExitFits, Distinct;
      ExitIdsCons(exits);
      DistinctCons(exits[0].id, ExitIds(exits[1..]));
      KeptExitsFit(exits[1..], used);
      var rest := KeepExits(exits[1..], used);
      if exits[0].id in used {
        var kept := [exits[0]] + rest;
        ExitIdsCons(kept);
        assert kept[1..] == rest;
        DistinctCons(exits[0].id, ExitIds(rest));
      } else {
        assert [] + rest == rest;
      }
    }
  }

  // ------------------------------------------------------------------------ acceptance

  lemma EntryStateKept(f: Function)
    requires SingleDefs(f.blocks) && FindBlock(f.blocks, f.entry).Some?
    requires EntryStateFits(f.entryState, FindBlock(f.blocks, f.entry).value.parameters)
    ensures Optimized(f).entryState == f.entryState
  {
    var r := Numbered(f).1;
    var k := FindBlockAt(f.blocks, f.entry);
    NumberedIds(f.blocks, k);
    var params, state := f.blocks[k].parameters, f.entryState;
    forall i | 0 <= i < |state| ensures RenameState(r, state)[i] == state[i] {
      var q :| 0 <= q < |params| && params[q] == Typed(state[i].value, state[i].ty);
      assert Ids(params)[q] == state[i].value;
      assert state[i].value in IdSet(Ids(params));
    }
    assert RenameState(r, state) == state;
  }

  lemma {:induction false} StaticFolds(r: Replacements, insts: seq<Inst>)
    ensures FoldsAgree(StaticAlgebra(), r, insts)
  {
    if insts != [] {
      StaticFolds(r, insts[..|insts| - 1]);
    }
  }

  lemma OptimizedBlockFits(f: Function, k: nat)
    requires SingleDefs(f.blocks) && k < |f.blocks| && BlockFits(f, f.blocks[k])
    ensures |Optimized(f).blocks| == |f.blocks| && BlockFits(Optimized(f), Optimized(f).blocks[k])
  {
    StaticIsLawful();
    forall q | 0 <= q < |f.blocks| ensures FoldsAgree(StaticAlgebra(), ReplacedBefore(f.blocks, q), f.blocks[q].instructions) {
      StaticFolds(ReplacedBefore(f.blocks, q), f.blocks[q].instructions);
    }
    OptimizedBlock(StaticAlgebra(), f, k, Types(f.blocks[k].parameters), []);
    OptimizedSameBlocks(f);
  }

  lemma RenamedExitsFit(r: Replacements, exits: seq<SideExit>)
    requires Distinct(ExitIds(exits)) && forall i :: 0 <= i < |exits| ==> ExitFits(exits[i])
    ensures Distinct(ExitIds(RenameExits(r, exits)))
    ensures forall i :: 0 <= i < |exits| ==> ExitFits(RenameExits(r, exits)[i])
  {
    forall i | 0 <= i < |exits| ensures ExitFits(RenameExits(r, exits)[i]) && ExitIds(RenameExits(r, exits))[i] == ExitIds(exits)[i] {
      RenamedStateParts(r, exits[i].state);
      assert ExitFits(exits[i]);
    }
  }

  lemma OptimizedExitsFit(f: Function)
    requires Distinct(ExitIds(f.sideExits)) && forall i :: 0 <= i < |f.sideExits| ==> ExitFits(f.sideExits[i])
    requires SingleDefs(f.blocks) && Distinct(ExitUses(f.blocks))
    ensures Distinct(ExitIds(Optimized(f).sideExits))
    ensures forall i :: 0 <= i < |Optimized(f).sideExits| ==> ExitFits(Optimized(f).sideExits[i])
    ensures ExitsUsedOnce(Optimized(f))
  {
    OptimizedExits(f);
    var used := set x | x in ExitUses(Optimized(f).blocks);
    RenamedExitsFit(Numbered(f).1, f.sideExits);
    KeptExitsFit(RenameExits(Numbered(f).1, f.sideExits), used);
    OptimizedUses(f);
    forall i | 0 <= i < |Optimized(f).sideExits| ensures Optimized(f).sideExits[i].id in used {
      assert ExitIds(Optimized(f).sideExits)[i] == Optimized(f).sideExits[i].id;
    }
  }

  // What the optimizer makes of a verified function verifies again.
  lemma OptimizedStillVerifies(f: Function)
    requires WellFormed(f)
    ensures WellFormed(Optimized(f))
  {
    var f' := Optimized(f);
    OptimizedSameBlocks(f);
    assert BlockIds(f'.blocks) == BlockIds(f.blocks);
    FindSameBlock(f.blocks, f'.blocks, f.entry);
    EntryStateKept(f);
    OptimizedSingleDefs(f);
    OptimizedExitsFit(f);
    forall k | 0 <= k < |f'.blocks| ensures BlockFits(f', f'.blocks[k]) {
      OptimizedBlockFits(f, k);
    }
  }
}
