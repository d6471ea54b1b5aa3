/**
  The SSA region IR (src/wxir/ir.rs, src/wxir/types.rs) without vectors lanes,
  memory and sequence instructions. The pure instruction families share one
  constructor: a shape (operator and constant) and the operands in order.
 */
module WxIr {
  import opened Wrappers

  type ValueId = nat
  type BlockId = nat
  type ExitId = nat
  type Register = nat

  datatype ScalarType = I1 | I8 | I16 | I32 | I64 | F32 | F64 | RuntimeHandle | Ptr

  datatype WxType = Scalar(scalar: ScalarType) | Vector(lane: ScalarType, lanes: nat)

  // Literals are i64 in the source.
  type Int64 = i: int | -0x8000_0000_0000_0000 <= i < 0x8000_0000_0000_0000

  // Bit patterns of floats.
  type Bits32 = b: nat | b < 0x1_0000_0000
  type Bits64 = b: nat | b < 0x1_0000_0000_0000_0000

  datatype Constant = BoolConst(b: bool) | IntConst(i: Int64) | F32Const(f32: Bits32) | F64Const(f64: Bits64) | NullPtr

  datatype IntOp = Add | Sub | Mul | FloorDiv | And | Or | Xor
  datatype FloatOp = FAdd | FSub | FMul | FDiv
  datatype BinaryOp = IntegerOp(int_: IntOp) | FloatingOp(float: FloatOp)
  datatype OverflowOp = AddOverflow | SubOverflow | MulOverflow
  datatype IntCompare = Eq | Ne | SignedLt | SignedLe | UnsignedLt | UnsignedLe
  datatype FloatCompare = FEq | FNe | FLt | FLe | FGt | FGe
  datatype CompareOp = IntegerCompare(int_: IntCompare) | FloatingCompare(float: FloatCompare)
  datatype CastOp =
    | ZeroExtend | SignExtend | Truncate
    | IntToFloat(signed: bool) | FloatToInt(signed: bool)
    | FloatPromote | FloatDemote | PtrToInt | IntToPtr | Bitcast

  datatype GuardMode = ExitWhenTrue | ExitWhenFalse
  datatype ExitKind = RegionExit | ReplayInstruction | Deopt

  // What a pure instruction computes, apart from its operands.
  datatype Shape =
    | ConstantShape(constant: Constant)
    | BinaryShape(binary: BinaryOp)
    | CheckedShape(checked: OverflowOp)
    | CompareShape(compare: CompareOp)
    | CastShape(cast: CastOp)

  datatype Typed = Typed(id: ValueId, ty: WxType)

  datatype RuntimeInput = RuntimeInput(register: Register, value: ValueId, ty: WxType)

  datatype Kind =
    | Pure(shape: Shape, operands: seq<ValueId>)
    | Guard(condition: ValueId, exit: ExitId, mode: GuardMode)
    | RuntimeCall(pc: nat, inputs: seq<RuntimeInput>, output: Option<Register>)

  datatype Inst = Inst(results: seq<Typed>, kind: Kind)

  datatype Target = Target(block: BlockId, arguments: seq<ValueId>)

  datatype Terminator =
    | Jump(target: Target)
    | Branch(condition: ValueId, yes: Target, no: Target)
    | Return(values: seq<ValueId>)
    | SideExitTo(exit: ExitId, values: seq<ValueId>)

  datatype Block = Block(id: BlockId, parameters: seq<Typed>, instructions: seq<Inst>, terminator: Terminator)

  datatype StateValue = StateValue(register: Register, value: ValueId, ty: WxType)

  datatype SideExit = SideExit(id: ExitId, kind: ExitKind, resumePc: nat, state: seq<StateValue>)

  datatype Function = Function(
    entry: BlockId,
    entryState: seq<StateValue>,
    blocks: seq<Block>,
    resultTypes: seq<WxType>,
    sideExits: seq<SideExit>)

  const BOOL: WxType := Scalar(I1)

  function Ids(ts: seq<Typed>): seq<ValueId> {
    seq(|ts|, i requires 0 <= i < |ts| => ts[i].id)
  }

  function Types(ts: seq<Typed>): seq<WxType> {
    seq(|ts|, i requires 0 <= i < |ts| => ts[i].ty)
  }

  function StateValues(state: seq<StateValue>): seq<ValueId> {
    seq(|state|, i requires 0 <= i < |state| => state[i].value)
  }

  function StateTypes(state: seq<StateValue>): seq<WxType> {
    seq(|state|, i requires 0 <= i < |state| => state[i].ty)
  }

  function StateRegisters(state: seq<StateValue>): seq<Register> {
    seq(|state|, i requires 0 <= i < |state| => state[i].register)
  }

  function InputValues(inputs: seq<RuntimeInput>): seq<ValueId> {
    seq(|inputs|, i requires 0 <= i < |inputs| => inputs[i].value)
  }

  function InputTypes(inputs: seq<RuntimeInput>): seq<WxType> {
    seq(|inputs|, i requires 0 <= i < |inputs| => inputs[i].ty)
  }

  function FindExit(exits: seq<SideExit>, id: ExitId): Option<SideExit> {
    if exits == [] then None
    else if exits[0].id == id then Some(exits[0])
    else FindExit(exits[1..], id)
  }

  function FindBlock(blocks: seq<Block>, id: BlockId): Option<Block> {
    if blocks == [] then None
    else if blocks[0].id == id then Some(blocks[0])
    else FindBlock(blocks[1..], id)
  }

  // ------------------------------------------------------------------- typing

  predicate IsIntegerScalar(s: ScalarType) {
    s.I1? || s.I8? || s.I16? || s.I32? || s.I64?
  }

  function LaneOf(ty: WxType): ScalarType {
    match ty
    case Scalar(s) => s
    case Vector(lane, _) => lane
  }

  predicate IsInteger(ty: WxType) {
    IsIntegerScalar(LaneOf(ty))
  }

  predicate IsFloat(ty: WxType) {
    LaneOf(ty).F32? || LaneOf(ty).F64?
  }

  predicate IsScalarInteger(ty: WxType) {
    ty.Scalar? && IsIntegerScalar(ty.scalar)
  }

  function IntegerBits(ty: WxType): Option<nat> {
    if ty.Vector? then None
    else
      match ty.scalar
      case I1 => Some(1)
      case I8 => Some(8)
      case I16 => Some(16)
      case I32 => Some(32)
      case I64 => Some(64)
      case _ => None
  }

  function FloatBits(ty: WxType): Option<nat> {
    if ty == Scalar(F32) then Some(32) else if ty == Scalar(F64) then Some(64) else None
  }

  function BitWidth(ty: WxType): Option<nat> {
    if IntegerBits(ty).Some? then IntegerBits(ty) else FloatBits(ty)
  }

  function ComparisonResult(operand: WxType): WxType {
    match operand
    case Scalar(_) => BOOL
    case Vector(_, lanes) => Vector(I1, lanes)
  }

  predicate ValidCast(op: CastOp, from: WxType, to: WxType) {
    match op
    case ZeroExtend => IntegerBits(from).Some? && IntegerBits(to).Some? && IntegerBits(from).value < IntegerBits(to).value
    case SignExtend => IntegerBits(from).Some? && IntegerBits(to).Some? && IntegerBits(from).value < IntegerBits(to).value
    case Truncate => IntegerBits(from).Some? && IntegerBits(to).Some? && IntegerBits(from).value > IntegerBits(to).value
    case IntToFloat(_) => IntegerBits(from).Some? && FloatBits(to).Some?
    case FloatToInt(_) => FloatBits(from).Some? && IntegerBits(to).Some?
    case FloatPromote => from == Scalar(F32) && to == Scalar(F64)
    case FloatDemote => from == Scalar(F64) && to == Scalar(F32)
    case PtrToInt => from == Scalar(Ptr) && IntegerBits(to).Some?
    case IntToPtr => IntegerBits(from).Some? && to == Scalar(Ptr)
    case Bitcast => BitWidth(from).Some? && BitWidth(from) == BitWidth(to)
  }

  predicate ValidType(ty: WxType) {
    ty.Vector? ==> ty.lanes != 0 && ty.lane != RuntimeHandle && ty.lane != Ptr
  }

  predicate ConstantHasType(c: Constant, ty: WxType) {
    match c
    case BoolConst(_) => ty == BOOL
    case IntConst(_) => IsScalarInteger(ty)
    case F32Const(_) => ty == Scalar(F32)
    case F64Const(_) => ty == Scalar(F64)
    case NullPtr => ty == Scalar(Ptr)
  }

  // Whether a pure instruction accepts these operand and result types.
  predicate TypeRule(shape: Shape, operands: seq<WxType>, results: seq<WxType>) {
    match shape
    case ConstantShape(c) => |operands| == 0 && |results| == 1 && ConstantHasType(c, results[0])
    case BinaryShape(op) =>
      && |operands| == 2 && |results| == 1
      && operands[0] == operands[1] == results[0]
      && (if op.IntegerOp? then IsInteger(operands[0]) else IsFloat(operands[0]))
    case CheckedShape(_) =>
      && |operands| == 2 && |results| == 2
      && operands[0] == operands[1] == results[0] && IsScalarInteger(operands[0]) && results[1] == BOOL
    case CompareShape(op) =>
      && |operands| == 2 && |results| == 1
      && operands[0] == operands[1] && results[0] == ComparisonResult(operands[0])
      && (if op.IntegerCompare? then IsInteger(operands[0]) else IsFloat(operands[0]))
    case CastShape(op) => |operands| == 1 && |results| == 1 && ValidCast(op, operands[0], results[0])
  }
}
