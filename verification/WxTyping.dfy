/**
  What the typing rules of the region IR (src/wxir/verifier.rs, src/wxir/types.rs)
  mean for bit patterns: how many patterns a scalar type has, which literals are among
  them, and which casts lose none, some or only change how they are read.
 */
module WxTyping {
  import opened MachineWords
  import opened Wrappers
  import opened WxIr
  import opened WxMachine

  // How many bit patterns a number type has.
  function Patterns(s: ScalarType): nat
    requires IsIntegerScalar(s) || s.F32? || s.F64?
  {
    if s.F32? then TWO_32 else if s.F64? then TWO_64 else Modulus(s)
  }

  predicate IsNumber(ty: WxType) {
    ty.Scalar? && (IsIntegerScalar(ty.scalar) || ty.scalar.F32? || ty.scalar.F64?)
  }

  // The integers of a type, read without and with a sign.
  ghost predicate UnsignedIn(s: ScalarType, i: int)
    requires IsIntegerScalar(s)
  {
    0 <= i < Modulus(s)
  }

  ghost predicate SignedIn(s: ScalarType, i: int)
    requires IsIntegerScalar(s)
  {
    0 <= 2 * i + Modulus(s) < 2 * Modulus(s)
  }

  // An accepted literal is a pattern of its type.
  lemma LiteralIsPattern(c: Constant, ty: WxType)
    requires ConstantHasType(c, ty) && !c.NullPtr?
    ensures IsNumber(ty) && ConstantBits(c, ty) < Patterns(ty.scalar)
  {
  }

  // Which types accept a literal, by their patterns: truth values where there are two,
  // integers at every scalar integer, floats at the one float type of their width.
  lemma LiteralTypes(c: Constant, ty: WxType)
    ensures ConstantHasType(c, ty) <==>
      match c
      case BoolConst(_) => IsScalarInteger(ty) && Modulus(ty.scalar) == 2
      case IntConst(_) => IsScalarInteger(ty)
      case F32Const(_) => IsNumber(ty) && !IsScalarInteger(ty) && Patterns(ty.scalar) == 0x1_0000_0000
      case F64Const(_) => IsNumber(ty) && !IsScalarInteger(ty) && Patterns(ty.scalar) == 0x1_0000_0000_0000_0000
      case NullPtr => ty == Scalar(Ptr)
  {
  }

  // Zero extension is accepted exactly when every unsigned integer of the first type is
  // one of the second, and not the other way round.
  lemma ZeroExtends(from: WxType, to: WxType)
    ensures ValidCast(ZeroExtend, from, to) <==>
      && IsScalarInteger(from) && IsScalarInteger(to)
      && (forall i :: UnsignedIn(from.scalar, i) ==> UnsignedIn(to.scalar, i))
      && Modulus(from.scalar) < Modulus(to.scalar)
  {
  }

  lemma SignExtends(from: WxType, to: WxType)
    ensures ValidCast(SignExtend, from, to) <==>
      && IsScalarInteger(from) && IsScalarInteger(to)
      && (forall i :: SignedIn(from.scalar, i) ==> SignedIn(to.scalar, i))
      && Modulus(from.scalar) < Modulus(to.scalar)
  {
  }

  // Truncation is the reverse.
  lemma Truncates(from: WxType, to: WxType)
    ensures ValidCast(Truncate, from, to) <==> ValidCast(ZeroExtend, to, from)
    ensures ValidCast(Truncate, from, to) <==>
      IsScalarInteger(from) && IsScalarInteger(to) && Modulus(from.scalar) > Modulus(to.scalar)
  {
  }

  // A bitcast keeps the patterns.
  lemma Bitcasts(from: WxType, to: WxType)
    ensures ValidCast(Bitcast, from, to) <==> IsNumber(from) && IsNumber(to) && Patterns(from.scalar) == Patterns(to.scalar)
  {
  }

  // Floats become wider or narrower, integers become floats and back, pointers become
  // integers and back.
  lemma Conversions(from: WxType, to: WxType, signed: bool)
    ensures ValidCast(FloatPromote, from, to) <==>
      IsNumber(from) && IsNumber(to) && !IsScalarInteger(from) && !IsScalarInteger(to) && Patterns(from.scalar) < Patterns(to.scalar)
    ensures ValidCast(FloatDemote, from, to) <==> ValidCast(FloatPromote, to, from)
    ensures ValidCast(IntToFloat(signed), from, to) <==> IsScalarInteger(from) && IsNumber(to) && !IsScalarInteger(to)
    ensures ValidCast(FloatToInt(signed), from, to) <==> ValidCast(IntToFloat(signed), to, from)
    ensures ValidCast(PtrToInt, from, to) <==> from == Scalar(Ptr) && IsScalarInteger(to)
    ensures ValidCast(IntToPtr, from, to) <==> ValidCast(PtrToInt, to, from)
  {
  }

  // A comparison has one truth value, or one for each lane.
  lemma ComparisonLanes(ty: WxType)
    ensures LaneOf(ComparisonResult(ty)) == I1
    ensures ty.Scalar? <==> ComparisonResult(ty).Scalar?
    ensures ty.Vector? ==> ComparisonResult(ty).lanes == ty.lanes
  {
  }

  // A type is one of integers, of floats, or of neither, lane by lane.
  lemma IntegersAndFloats(ty: WxType)
    ensures IsInteger(ty) <==> IsScalarInteger(Scalar(LaneOf(ty)))
    ensures IsFloat(ty) <==> IsNumber(Scalar(LaneOf(ty))) && !IsInteger(ty)
  {
  }
}
