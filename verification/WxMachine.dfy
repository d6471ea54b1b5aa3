/**
  Execution of the region IR on typed bit patterns. Constants, comparisons of
  scalar integers and the logical operations on i1 are computed; every other
  operation and every runtime call is whatever a machine makes of it.
 */
module WxMachine {
  import opened Wrappers
  import opened WxIr
  import opened WxSemantics
  import opened WxOptimizer
  import opened WxVerifier
  import opened WxSoundness

  datatype Val = Val(ty: WxType, bits: nat)

  // `compute` gives the i-th result of an operation, `answer` that of a runtime
  // call; both may depend on everything they are given. The operands of a
  // commutative operation come in a fixed order.
  datatype Machine = Machine(
    compute: (Shape, seq<Val>, seq<WxType>, nat) -> nat,
    fails: seq<Call<Val>> -> bool,
    answer: (seq<Call<Val>>, nat) -> nat)

  function TypeOf(v: Val): WxType {
    v.ty
  }

  // 2 to the width of a scalar integer type.
  function Modulus(s: ScalarType): (m: nat)
    requires IsIntegerScalar(s)
    ensures m > 0 && m % 2 == 0
  {
    match s
    case I1 => 2
    case I8 => 0x100
    case I16 => 0x1_0000
    case I32 => 0x1_0000_0000
    case I64 => 0x1_0000_0000_0000_0000
  }

  function Signed(s: ScalarType, bits: nat): int
    requires IsIntegerScalar(s)
  {
    var b := bits % Modulus(s);
    if b < Modulus(s) / 2 then b else b - Modulus(s)
  }

  predicate CompareAt(s: ScalarType, op: IntCompare, l: nat, r: nat)
    requires IsIntegerScalar(s)
  {
    var m := Modulus(s);
    match op
    case Eq => l % m == r % m
    case Ne => l % m != r % m
    case SignedLt => Signed(s, l) < Signed(s, r)
    case SignedLe => Signed(s, l) <= Signed(s, r)
    case UnsignedLt => l % m < r % m
    case UnsignedLe => l % m <= r % m
  }

  function Bit(b: bool): nat {
    if b then 1 else 0
  }

  function ConstantBits(c: Constant, ty: WxType): nat {
    match c
    case BoolConst(b) => Bit(b)
    case IntConst(i) => if IsScalarInteger(ty) then i % Modulus(ty.scalar) else 0
    case F32Const(bits) => bits
    case F64Const(bits) => bits
    case NullPtr => 0
  }

  // The operations whose operands may be swapped.
  predicate OrderFree(shape: Shape) {
    shape in {
      BinaryShape(IntegerOp(Add)), BinaryShape(IntegerOp(Mul)),
      BinaryShape(IntegerOp(And)), BinaryShape(IntegerOp(Or)), BinaryShape(IntegerOp(Xor)),
      BinaryShape(FloatingOp(FAdd)), BinaryShape(FloatingOp(FMul)),
      CheckedShape(AddOverflow), CheckedShape(MulOverflow),
      CompareShape(IntegerCompare(Eq)), CompareShape(IntegerCompare(Ne)),
      CompareShape(FloatingCompare(FEq)), CompareShape(FloatingCompare(FNe))}
  }

  function Ordered(shape: Shape, vs: seq<Val>): seq<Val> {
    if OrderFree(shape) && |vs| == 2 && vs[1].bits < vs[0].bits then [vs[1], vs[0]] else vs
  }

  function Truth(v: Val): bool {
    v.bits != 0
  }

  function ResultBits(m: Machine, shape: Shape, vs: seq<Val>, tys: seq<WxType>, i: nat): nat
    requires TypeRule(shape, Kinds(TypeOf, vs), tys)
  {
    if shape.ConstantShape? then ConstantBits(shape.constant, tys[0])
    else if shape.CompareShape? && shape.compare.IntegerCompare? && IsScalarInteger(vs[0].ty) then
      Bit(CompareAt(vs[0].ty.scalar, shape.compare.int_, vs[0].bits, vs[1].bits))
    else if shape == BinaryShape(IntegerOp(And)) && vs[0].ty == BOOL then Bit(Truth(vs[0]) && Truth(vs[1]))
    else if shape == BinaryShape(IntegerOp(Or)) && vs[0].ty == BOOL then Bit(Truth(vs[0]) || Truth(vs[1]))
    else if shape == BinaryShape(IntegerOp(Xor)) && vs[0].ty == BOOL then Bit(Truth(vs[0]) != Truth(vs[1]))
    else m.compute(shape, Ordered(shape, vs), tys, i)
  }

  function Results(m: Machine, shape: Shape, vs: seq<Val>, tys: seq<WxType>): seq<Val>
    requires TypeRule(shape, Kinds(TypeOf, vs), tys)
  {
    seq(|tys|, i requires 0 <= i < |tys| => Val(tys[i], ResultBits(m, shape, vs, tys, i)))
  }

  // The integers that a scalar type holds as two's complement.
  predicate Fits(ty: WxType, c: Constant) {
    c.IntConst? && IsScalarInteger(ty) ==>
      0 <= 2 * c.i + Modulus(ty.scalar) < 2 * Modulus(ty.scalar)
  }

  // The 64-bit comparison of two integer literals is the one at the width of their type.
  predicate AgreesAtWidth(shape: Shape, l: Constant, lty: WxType, r: Constant, rty: WxType) {
    shape.CompareShape? && shape.compare.IntegerCompare? && l.IntConst? && r.IntConst? && IsScalarInteger(lty) && lty == rty ==>
      var m := Modulus(lty.scalar);
      CompareAt(lty.scalar, shape.compare.int_, l.i % m, r.i % m) == Compare64(shape.compare.int_, l.i, r.i)
  }

  function MachineAlgebra(m: Machine): Algebra<Val> {
    Algebra(
      (shape: Shape, vs: seq<Val>, tys: seq<WxType>) =>
        if TypeRule(shape, Kinds(TypeOf, vs), tys) then Some(Results(m, shape, vs, tys)) else None,
      (v: Val, ty: WxType) => v.ty == ty,
      (v: Val, mode: GuardMode) => if v.ty == BOOL then Some(Truth(v) == mode.ExitWhenTrue?) else None,
      (calls: seq<Call<Val>>, tys: seq<WxType>) =>
        if m.fails(calls) then Failed
        else Done(seq(|tys|, i requires 0 <= i < |tys| => Val(tys[i], m.answer(calls, i)))),
      (shape: Shape, l: Constant, lty: WxType, r: Constant, rty: WxType) => AgreesAtWidth(shape, l, lty, r, rty))
  }

  lemma MachineIsSound(m: Machine)
    ensures Sound(MachineAlgebra(m), TypeOf)
  {
    var alg := MachineAlgebra(m);
    forall shape, vs, tys | TypeRule(shape, Kinds(TypeOf, vs), tys)
      ensures alg.apply(shape, vs, tys).Some? && Kinds(TypeOf, alg.apply(shape, vs, tys).value) == tys
    {
      assert Kinds(TypeOf, Results(m, shape, vs, tys)) == tys;
    }
    forall calls, tys | alg.call(calls, tys).Done?
      ensures Kinds(TypeOf, alg.call(calls, tys).results) == tys
    {
      var rs := alg.call(calls, tys).results;
      assert |Kinds(TypeOf, rs)| == |tys|;
      assert forall i :: 0 <= i < |tys| ==> Kinds(TypeOf, rs)[i] == tys[i];
    }
  }

  // Running an accepted function on any machine from a well-typed entry.
  lemma VerifiedMachineRun(m: Machine, f: Function, arguments: seq<Val>, fuel: nat)
    requires WellFormed(f) && EntersWell(TypeOf, f, f.entry, arguments)
    ensures var outcome := Run(MachineAlgebra(m), f, f.entry, arguments, [], fuel);
      outcome.Ended? ==> !outcome.flow.Goto? && BlockFlowSound(TypeOf, f, outcome.flow)
  {
    MachineIsSound(m);
    VerifiedNeverStuck(MachineAlgebra(m), TypeOf, f, f.entry, arguments, [], fuel);
  }

  // --------------------------------------------------------- folding at 64 bits

  lemma WrappedInRange(s: ScalarType, i: Int64)
    requires IsIntegerScalar(s) && 0 <= 2 * i + Modulus(s) < 2 * Modulus(s)
    ensures i % Modulus(s) == if i < 0 then i + Modulus(s) else i
    ensures Signed(s, i % Modulus(s)) == i
  {
  }

  // The folder's 64-bit comparison is the comparison at the width of the type ...
  lemma Compare64Agrees(s: ScalarType, op: IntCompare, a: Int64, b: Int64)
    requires IsIntegerScalar(s) && Fits(Scalar(s), IntConst(a)) && Fits(Scalar(s), IntConst(b))
    ensures CompareAt(s, op, a % Modulus(s), b % Modulus(s)) == Compare64(op, a, b)
  {
    WrappedInRange(s, a);
    WrappedInRange(s, b);
  }

  // ... against every constant of that type exactly for the constants of that type.
  lemma FoldsRightExactlyWhenItFits(s: ScalarType, a: Int64)
    requires IsIntegerScalar(s)
    ensures Fits(Scalar(s), IntConst(a)) <==>
      forall op, b: Int64 :: Fits(Scalar(s), IntConst(b)) ==>
        CompareAt(s, op, a % Modulus(s), b % Modulus(s)) == Compare64(op, a, b)
  {
    if Fits(Scalar(s), IntConst(a)) {
      forall op, b: Int64 | Fits(Scalar(s), IntConst(b))
        ensures CompareAt(s, op, a % Modulus(s), b % Modulus(s)) == Compare64(op, a, b)
      {
        Compare64Agrees(s, op, a, b);
      }
    } else {
      var b: Int64 := Signed(s, a % Modulus(s));
      WrappedInRange(s, b);
      assert CompareAt(s, Eq, a % Modulus(s), b % Modulus(s)) && !Compare64(Eq, a, b);
    }
  }
}
