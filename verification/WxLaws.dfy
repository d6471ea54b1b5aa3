/**
  What the optimizer relies on: laws of a domain of values that make equal keys
  mean equal results and folded constants mean what they replace. They hold of
  types and of every machine.
 */
module WxLaws {
  import opened Wrappers
  import opened WxIr
  import opened WxSemantics
  import opened WxOptimizer
  import opened WxVerifier
  import opened WxSoundness
  import opened WxMachine

  function OperandCount(shape: Shape): nat {
    match shape
    case ConstantShape(_) => 0
    case CastShape(_) => 1
    case _ => 2
  }

  function ResultCount(shape: Shape): nat {
    if shape.CheckedShape? then 2 else 1
  }

  ghost predicate HasArity<V(!new)>(alg: Algebra<V>) {
    forall shape, vs, tys {:trigger alg.apply(shape, vs, tys)} :: alg.apply(shape, vs, tys).Some? ==>
      && |vs| == OperandCount(shape)
      && |tys| == ResultCount(shape) == |alg.apply(shape, vs, tys).value|
  }

  ghost predicate Commutative<V(!new)>(alg: Algebra<V>) {
    forall shape, a, b, tys {:trigger alg.apply(shape, [a, b], tys)} ::
      Commutes(shape) ==> alg.apply(shape, [a, b], tys) == alg.apply(shape, [b, a], tys)
  }

  // Where a key leaves the result types out, the operands determine them.
  ghost predicate Determined<V(!new)>(alg: Algebra<V>) {
    forall shape: Shape, vs, tys, tys' {:trigger alg.apply(shape, vs, tys), alg.apply(shape, vs, tys')} ::
      (shape.CheckedShape? || shape.CompareShape?) && alg.apply(shape, vs, tys).Some? && alg.apply(shape, vs, tys').Some? ==>
        alg.apply(shape, vs, tys) == alg.apply(shape, vs, tys')
  }

  // A value that the block defines as a literal.
  ghost predicate Literal<V>(alg: Algebra<V>, c: Constant, ty: WxType, v: V) {
    alg.apply(ConstantShape(c), [], [ty]) == Some([v])
  }

  ghost predicate Foldable<V(!new)>(alg: Algebra<V>) {
    forall shape, l, r, lty, rty, lv, rv, tys
      {:trigger FoldShape(shape, l, r), Literal(alg, l, lty, lv), Literal(alg, r, rty, rv), alg.apply(shape, [lv, rv], tys)} ::
      && Literal(alg, l, lty, lv) && Literal(alg, r, rty, rv)
      && FoldShape(shape, l, r).Some? && alg.agrees(shape, l, lty, r, rty) && alg.apply(shape, [lv, rv], tys).Some?
      ==> alg.apply(ConstantShape(FoldShape(shape, l, r).value), [], tys) == alg.apply(shape, [lv, rv], tys)
  }

  ghost predicate Lawful<V(!new)>(alg: Algebra<V>) {
    HasArity(alg) && Commutative(alg) && Determined(alg) && Foldable(alg)
  }

  // ---------------------------------------------------------------------- instances

  lemma TypesCommute(shape: Shape, a: WxType, b: WxType, tys: seq<WxType>)
    requires Commutes(shape)
    ensures TypeRule(shape, [a, b], tys) == TypeRule(shape, [b, a], tys)
  {
  }

  lemma TypesDetermined(shape: Shape, vs: seq<WxType>, tys: seq<WxType>, tys': seq<WxType>)
    requires (shape.CheckedShape? || shape.CompareShape?) && TypeRule(shape, vs, tys) && TypeRule(shape, vs, tys')
    ensures tys == tys'
  {
  }

  // A fold produces a literal of the type that the folded operation has.
  lemma FoldHasType(shape: Shape, l: Constant, r: Constant, lty: WxType, rty: WxType, tys: seq<WxType>)
    requires TypeRule(ConstantShape(l), [], [lty]) && TypeRule(ConstantShape(r), [], [rty])
    requires TypeRule(shape, [lty, rty], tys) && FoldShape(shape, l, r).Some?
    ensures TypeRule(ConstantShape(FoldShape(shape, l, r).value), [], tys)
    ensures tys == [BOOL]
  {
    assert |tys| == 1;
  }

  lemma StaticDetermined()
    ensures Determined(StaticAlgebra())
  {
    var alg := StaticAlgebra();
    forall shape: Shape, vs, tys, tys'
      | (shape.CheckedShape? || shape.CompareShape?) && alg.apply(shape, vs, tys).Some? && alg.apply(shape, vs, tys').Some?
      ensures alg.apply(shape, vs, tys) == alg.apply(shape, vs, tys')
    {
      TypesDetermined(shape, vs, tys, tys');
    }
  }

  lemma StaticFoldable()
    ensures Foldable(StaticAlgebra())
  {
    var alg := StaticAlgebra();
    forall shape, l, r, lty, rty, lv, rv, tys
      | && Literal(alg, l, lty, lv) && Literal(alg, r, rty, rv)
        && FoldShape(shape, l, r).Some? && alg.agrees(shape, l, lty, r, rty) && alg.apply(shape, [lv, rv], tys).Some?
      ensures alg.apply(ConstantShape(FoldShape(shape, l, r).value), [], tys) == alg.apply(shape, [lv, rv], tys)
    {
      assert lty == [lty][0] == [lv][0] == lv && rty == [rty][0] == [rv][0] == rv;
      FoldHasType(shape, l, r, lty, rty, tys);
    }
  }

  lemma StaticIsLawful()
    ensures Lawful(StaticAlgebra())
  {
    var alg := StaticAlgebra();
    forall shape, a, b, tys | Commutes(shape) ensures alg.apply(shape, [a, b], tys) == alg.apply(shape, [b, a], tys) {
      TypesCommute(shape, a, b, tys);
    }
    StaticDetermined();
    StaticFoldable();
  }

  lemma KindsOfPair(a: Val, b: Val)
    ensures Kinds(TypeOf, [a, b]) == [a.ty, b.ty]
  {
    var kinds := Kinds(TypeOf, [a, b]);
    assert |kinds| == 2 && kinds[0] == a.ty && kinds[1] == b.ty;
  }

  lemma ResultsCommute(m: Machine, shape: Shape, a: Val, b: Val, tys: seq<WxType>)
    requires Commutes(shape) && TypeRule(shape, [a.ty, b.ty], tys)
    ensures TypeRule(shape, Kinds(TypeOf, [a, b]), tys) && TypeRule(shape, Kinds(TypeOf, [b, a]), tys)
    ensures Results(m, shape, [a, b], tys) == Results(m, shape, [b, a], tys)
  {
    KindsOfPair(a, b);
    KindsOfPair(b, a);
    assert a.ty == b.ty;
    if a.bits == b.bits {
      assert a == b;
    }
    assert Ordered(shape, [a, b]) == Ordered(shape, [b, a]);
    forall i | 0 <= i < |tys| ensures ResultBits(m, shape, [a, b], tys, i) == ResultBits(m, shape, [b, a], tys, i) {
    }
  }

  lemma MachineCommutes(m: Machine)
    ensures Commutative(MachineAlgebra(m))
  {
    var alg := MachineAlgebra(m);
    forall shape, a, b, tys | Commutes(shape) ensures alg.apply(shape, [a, b], tys) == alg.apply(shape, [b, a], tys) {
      KindsOfPair(a, b);
      KindsOfPair(b, a);
      TypesCommute(shape, a.ty, b.ty, tys);
      if TypeRule(shape, [a.ty, b.ty], tys) {
        ResultsCommute(m, shape, a, b, tys);
      }
    }
  }

  lemma MachineDetermined(m: Machine)
    ensures Determined(MachineAlgebra(m))
  {
    var alg := MachineAlgebra(m);
    forall shape: Shape, vs, tys, tys'
      | (shape.CheckedShape? || shape.CompareShape?) && alg.apply(shape, vs, tys).Some? && alg.apply(shape, vs, tys').Some?
      ensures alg.apply(shape, vs, tys) == alg.apply(shape, vs, tys')
    {
      TypesDetermined(shape, Kinds(TypeOf, vs), tys, tys');
    }
  }

  // A fold on a machine: the literal has the bits that the operation would give.
  lemma FoldedComparison(m: Machine, op: IntCompare, l: Int64, r: Int64, lv: Val, rv: Val)
    requires lv.ty == rv.ty && IsScalarInteger(lv.ty)
    requires AgreesAtWidth(CompareShape(IntegerCompare(op)), IntConst(l), lv.ty, IntConst(r), rv.ty)
    requires lv.bits == l % Modulus(lv.ty.scalar) && rv.bits == r % Modulus(rv.ty.scalar)
    ensures TypeRule(CompareShape(IntegerCompare(op)), Kinds(TypeOf, [lv, rv]), [BOOL])
    ensures ResultBits(m, CompareShape(IntegerCompare(op)), [lv, rv], [BOOL], 0) == Bit(Compare64(op, l, r))
  {
    KindsOfPair(lv, rv);
  }

  lemma FoldedLogic(m: Machine, shape: Shape, l: bool, r: bool, lv: Val, rv: Val)
    requires lv == Val(BOOL, Bit(l)) && rv == Val(BOOL, Bit(r))
    requires TypeRule(shape, Kinds(TypeOf, [lv, rv]), [BOOL]) && FoldShape(shape, BoolConst(l), BoolConst(r)).Some?
    ensures ResultBits(m, shape, [lv, rv], [BOOL], 0) == ConstantBits(FoldShape(shape, BoolConst(l), BoolConst(r)).value, BOOL)
  {
  }

  lemma FoldedBits(m: Machine, shape: Shape, l: Constant, r: Constant, lv: Val, rv: Val)
    requires ConstantHasType(l, lv.ty) && ConstantHasType(r, rv.ty) && AgreesAtWidth(shape, l, lv.ty, r, rv.ty)
    requires lv.bits == ConstantBits(l, lv.ty) && rv.bits == ConstantBits(r, rv.ty)
    requires TypeRule(shape, Kinds(TypeOf, [lv, rv]), [BOOL]) && FoldShape(shape, l, r).Some?
    ensures ResultBits(m, shape, [lv, rv], [BOOL], 0) == ConstantBits(FoldShape(shape, l, r).value, BOOL)
  {
    if l.IntConst? {
      KindsOfPair(lv, rv);
      assert shape.CompareShape? && shape.compare.IntegerCompare? && r.IntConst?;
      FoldedComparison(m, shape.compare.int_, l.i, r.i, lv, rv);
    } else {
      assert l.BoolConst? && r.BoolConst?;
      FoldedLogic(m, shape, l.b, r.b, lv, rv);
    }
  }

  lemma LiteralBits(m: Machine, c: Constant, ty: WxType, v: Val)
    requires Literal(MachineAlgebra(m), c, ty, v)
    ensures v.ty == ty && ConstantHasType(c, ty) && v.bits == ConstantBits(c, ty)
  {
    assert Kinds(TypeOf, []) == [];
    var rs := Results(m, ConstantShape(c), [], [ty]);
    assert rs == [v];
    assert rs[0] == v;
  }

  lemma MachineFoldable(m: Machine)
    ensures Foldable(MachineAlgebra(m))
  {
    var alg := MachineAlgebra(m);
    forall shape, l, r, lty, rty, lv, rv, tys
      | && Literal(alg, l, lty, lv) && Literal(alg, r, rty, rv)
        && FoldShape(shape, l, r).Some? && alg.agrees(shape, l, lty, r, rty) && alg.apply(shape, [lv, rv], tys).Some?
      ensures alg.apply(ConstantShape(FoldShape(shape, l, r).value), [], tys) == alg.apply(shape, [lv, rv], tys)
    {
      LiteralBits(m, l, lty, lv);
      LiteralBits(m, r, rty, rv);
      KindsOfPair(lv, rv);
      assert Kinds(TypeOf, []) == [];
      FoldHasType(shape, l, r, lty, rty, tys);
      FoldedBits(m, shape, l, r, lv, rv);
      assert Results(m, ConstantShape(FoldShape(shape, l, r).value), [], tys) == Results(m, shape, [lv, rv], tys);
    }
  }

  lemma MachineIsLawful(m: Machine)
    ensures Lawful(MachineAlgebra(m))
  {
    MachineCommutes(m);
    MachineDetermined(m);
    MachineFoldable(m);
  }
}
