/**
  What each pass of the native optimizer leaves behind in a block: no addition of two
  known integers that fits, no read of a field that was just stored, no addition made
  twice, no direct operation under a program counter that could be dropped.
 */
module NativeEffects {
  import opened Wrappers
  import opened NativeIr
  import opened NativeOptimizer

  // ------------------------------------------------------------------ constant folding

  // The instruction defines an id as an integer constant.
  predicate Defines(inst: Inst, id: ValueId, i: Int64) {
    Semantic(inst.kind) == Constant(IntegerConstant(i)) && inst.output.Some? && inst.output.value.id == id
  }

  predicate AddsConstants(a: Inst, b: Inst, inst: Inst) {
    && Semantic(inst.kind).IntegerAdd? && |inst.inputs| == 2
    && exists i: Int64, j: Int64 :: Defines(a, inst.inputs[0], i) && Defines(b, inst.inputs[1], j)
         && -0x8000_0000_0000_0000 <= i + j < 0x8000_0000_0000_0000
  }

  // Every constant that the block defines is in the table.
  lemma {:induction false} ConstantsTabled(insts: seq<Inst>, done: seq<Inst>, k: nat, id: ValueId, i: Int64)
    requires SingleAssignment(insts) && done == Fold(insts).0 && k < |done| && Defines(done[k], id, i)
    ensures |done| == |insts| && id in Mentioned(insts)
    ensures id in Fold(insts).1 && Fold(insts).1[id] == i
    decreases |insts|
  {
    var n := |insts| - 1;
    var before, last := insts[..n], insts[n];
    var (done', constants) := Fold(before);
    FoldLength(before);
    assert done[..n] == done';
    if k < n {
      assert done[k] == done'[k];
      ConstantsTabled(before, done', k, id, i);
    }
  }

  lemma {:induction false} FoldLength(insts: seq<Inst>)
    ensures |Fold(insts).0| == |insts|
    decreases |insts|
  {
    if insts != [] {
      FoldLength(insts[..|insts| - 1]);
    }
  }

  // No addition of two constants defined before it is left, if the sum fits.
  lemma {:induction false} NothingLeftToAdd(insts: seq<Inst>, a: nat, b: nat, k: nat)
    requires SingleAssignment(insts) && a < k && b < k < |Fold(insts).0|
    ensures !AddsConstants(Fold(insts).0[a], Fold(insts).0[b], Fold(insts).0[k])
    decreases |insts|
  {
    var n := |insts| - 1;
    var before, last := insts[..n], insts[n];
    var (done, constants) := Fold(before);
    FoldLength(before);
    var all := Fold(insts).0;
    assert all[..n] == done;
    assert all[a] == done[a] && all[b] == done[b];
    if k < n {
      assert all[k] == done[k];
      NothingLeftToAdd(before, a, b, k);
    } else if AddsConstants(all[a], all[b], all[k]) {
      assert all[k] == last;
      var i: Int64, j: Int64 :| Defines(all[a], last.inputs[0], i) && Defines(all[b], last.inputs[1], j)
        && -0x8000_0000_0000_0000 <= i + j < 0x8000_0000_0000_0000;
      ConstantsTabled(before, done, a, last.inputs[0], i);
      ConstantsTabled(before, done, b, last.inputs[1], j);
      assert false;
    }
  }

  // ------------------------------------------------------- store-to-load forwarding

  predicate StoresField(inst: Inst, object_: ValueId, key: ValueId, stored: ValueId) {
    Semantic(inst.kind).ObjectSet? && inst.inputs == [object_, key, stored]
  }

  predicate ReadsField(inst: Inst, object_: ValueId, key: ValueId) {
    Semantic(inst.kind).ObjectGet? && inst.inputs == [object_, key]
  }

  // After this instruction nothing is known of the fields that were stored before it.
  predicate ForgetsFields(inst: Inst) {
    || (Semantic(inst.kind).ObjectSet? && |inst.inputs| == 3)
    || (!(Semantic(inst.kind).ObjectGet? && |inst.inputs| == 2) && inst.effect in {Write, Allocation, Helper, CallEffect, Backedge})
  }

  lemma {:induction false} ForwardLength(types: map<ValueId, ValueType>, insts: seq<Inst>)
    ensures |Forward(types, insts).0| == |insts|
    decreases |insts|
  {
    if insts != [] {
      ForwardLength(types, insts[..|insts| - 1]);
    }
  }

  lemma {:induction false} FieldTabled(
    types: map<ValueId, ValueType>, insts: seq<Inst>, done: seq<Inst>, j: nat, object_: ValueId, key: ValueId, stored: ValueId)
    requires done == Forward(types, insts).0 && j < |done| && StoresField(done[j], object_, key, stored)
    requires forall x :: j < x < |done| ==> !ForgetsFields(done[x])
    ensures (object_, key) in Forward(types, insts).1 && Forward(types, insts).1[(object_, key)] == stored
    decreases |insts|
  {
    var n := |insts| - 1;
    var before := insts[..n];
    var (done', fields) := Forward(types, before);
    ForwardLength(types, before);
    assert done[..n] == done';
    if j < n {
      forall x | j < x < |done'| ensures !ForgetsFields(done'[x]) {
        assert done'[x] == done[x];
      }
      assert done[j] == done'[j] && !ForgetsFields(done[n]);
      FieldTabled(types, before, done', j, object_, key, stored);
    }
  }

  // No field is read that was stored before in the block, with nothing forgotten since,
  // if the stored value has the type of the read.
  lemma {:induction false} NothingLeftToForward(
    types: map<ValueId, ValueType>, insts: seq<Inst>, j: nat, k: nat, object_: ValueId, key: ValueId, stored: ValueId)
    requires j < k < |Forward(types, insts).0|
    requires var done := Forward(types, insts).0;
      && StoresField(done[j], object_, key, stored) && ReadsField(done[k], object_, key)
      && forall x :: j < x < k ==> !ForgetsFields(done[x])
    ensures var read := Forward(types, insts).0[k];
      read.output.Some? && stored in types ==> types[stored] != read.output.value.ty
    decreases |insts|
  {
    var n := |insts| - 1;
    var before, last := insts[..n], insts[n];
    var (done, fields) := Forward(types, before);
    ForwardLength(types, before);
    var all := Forward(types, insts).0;
    assert all[..n] == done;
    assert forall x :: 0 <= x < n ==> all[x] == done[x];
    if k < n {
      NothingLeftToForward(types, before, j, k, object_, key, stored);
    } else {
      FieldTabled(types, before, done, j, object_, key, stored);
    }
  }

  // ---------------------------------------------------------------- value numbering

  predicate SameAddition(a: Inst, b: Inst) {
    && Semantic(a.kind).IntegerAdd? && Semantic(b.kind).IntegerAdd? && a.effect.Pure? && b.effect.Pure?
    && |a.inputs| == 2 && (b.inputs == a.inputs || b.inputs == [a.inputs[1], a.inputs[0]])
  }

  predicate ForgetsSums(inst: Inst) {
    inst.effect in {Allocation, Helper, CallEffect, Backedge}
  }

  lemma {:induction false} NumberLength(insts: seq<Inst>)
    ensures |Number(insts).0| == |insts|
    decreases |insts|
  {
    if insts != [] {
      NumberLength(insts[..|insts| - 1]);
    }
  }

  lemma {:induction false} AdditionTabled(insts: seq<Inst>, done: seq<Inst>, j: nat)
    requires done == Number(insts).0 && j < |done|
    requires Semantic(done[j].kind).IntegerAdd? && done[j].effect.Pure? && |done[j].inputs| == 2 && done[j].output.Some?
    requires forall x :: j < x < |done| ==> !ForgetsSums(done[x])
    ensures Sorted(done[j].inputs[0], done[j].inputs[1]) in Number(insts).1
    decreases |insts|
  {
    var n := |insts| - 1;
    var before := insts[..n];
    var (done', adds) := Number(before);
    NumberLength(before);
    assert done[..n] == done';
    if j < n {
      forall x | j < x < |done'| ensures !ForgetsSums(done'[x]) {
        assert done'[x] == done[x];
      }
      assert done[j] == done'[j] && !ForgetsSums(done[n]);
      AdditionTabled(before, done', j);
    }
  }

  lemma SameSorted(a: Inst, b: Inst)
    requires SameAddition(a, b)
    ensures |b.inputs| == 2 && Sorted(a.inputs[0], a.inputs[1]) == Sorted(b.inputs[0], b.inputs[1])
  {
  }

  // No addition is made twice in a block, in whichever order of its operands, unless
  // sums were forgotten in between.
  lemma {:induction false} NothingAddedTwice(insts: seq<Inst>, j: nat, k: nat)
    requires j < k < |Number(insts).0| && Number(insts).0[j].output.Some?
    requires SameAddition(Number(insts).0[j], Number(insts).0[k])
    ensures exists x :: j < x < k && ForgetsSums(Number(insts).0[x])
    decreases |insts|
  {
    var n := |insts| - 1;
    var before, last := insts[..n], insts[n];
    var (done, adds) := Number(before);
    NumberLength(before);
    var all := Number(insts).0;
    assert all[..n] == done;
    assert forall x :: 0 <= x < n ==> all[x] == done[x];
    if k < n {
      NothingAddedTwice(before, j, k);
      var x :| j < x < k && ForgetsSums(done[x]);
      assert ForgetsSums(all[x]);
    } else if forall x :: j < x < k ==> !ForgetsSums(all[x]) {
      AdditionTabled(before, done, j);
      SameSorted(all[j], all[k]);
      assert false;
    }
  }

  // ------------------------------------------------------------- direct operations

  // How many program counters an operation stands under.
  function Counters(kind: Kind): nat {
    if kind.AtPc? then 1 + Counters(kind.operation) else 0
  }

  // Reads and writes of fields, list operations and calls stand under one program
  // counter less, all others are as they were.
  lemma {:induction false} CountersDropped(insts: seq<Inst>, k: nat)
    requires k < |insts|
    ensures |Direct(insts)| == |insts|
    ensures var was, is_ := insts[k].kind, Direct(insts)[k].kind;
      var direct := Semantic(was).ObjectGet? || Semantic(was).ObjectSet? || (Semantic(was).Other? && Semantic(was).direct);
      && Semantic(is_) == Semantic(was)
      && Counters(is_) == (if direct && Counters(was) > 0 then Counters(was) - 1 else Counters(was))
      && Direct(insts)[k] == insts[k].(kind := is_)
    decreases |insts|
  {
    var n := |insts| - 1;
    var before, last := insts[..n], insts[n];
    if n > 0 {
      CountersDropped(before, if k < n then k else 0);
    }
    assert Direct(insts) == Direct(before) + [DirectOne(last)];
  }
}
