/**
  The register bytecode (src/bytecode.rs) with what each instruction reads and
  writes (src/verifier/initialization.rs, lines 80-215) and where control goes next.
 */
module Bytecode {
  import opened Wrappers

  type Register = nat

  datatype BinaryOperator = Add | Subtract | Multiply | Divide | FloorDivide | Power
  datatype CompareOperator = Eq | NotEq | Lt | Le | Gt | Ge
  datatype UnaryOperator = Negate | Not
  datatype BooleanOperator = And | Or

  datatype Instruction =
    | ConstSmallInt(dst: Register, int_: int)
    | ConstFloat(dst: Register, bits: nat)
    | ConstBool(dst: Register, bool_: bool)
    | ConstNone(dst: Register)
    | LoadConstant(dst: Register, constant: nat)
    | ConstI64(dst: Register, int_: int)
    | BinaryOp(dst: Register, binary: BinaryOperator, lhs: Register, rhs: Register, site: nat)
    | CompareOp(dst: Register, compare: CompareOperator, lhs: Register, rhs: Register, site: nat)
    | UnaryOp(dst: Register, unary: UnaryOperator, src: Register)
    | BooleanOp(dst: Register, boolean: BooleanOperator, lhs: Register, rhs: Register)
    | BuildTuple(dst: Register, items: seq<Register>)
    | BuildList(dst: Register, items: seq<Register>)
    | BuildDict(dst: Register, entries: seq<(Register, Register)>)
    | GetItem(dst: Register, obj: Register, key: Register)
    | GetAttr(dst: Register, obj: Register, name: string)
    | GetSlice(dst: Register, obj: Register, start: Option<Register>, stop: Option<Register>, step: Option<Register>)
    | SetItem(obj: Register, key: Register, value: Register)
    | SetAttr(obj: Register, name: string, value: Register)
    | SetSlice(obj: Register, start: Option<Register>, stop: Option<Register>, step: Option<Register>, value: Register)
    | ListAppend(list: Register, value: Register)
    | ListInsert(list: Register, index: Register, value: Register)
    | ListPop(dst: Register, list: Register, index: Register)
    | Length(dst: Register, obj: Register)
    | LoadCurrentFunction(dst: Register)
    | Call(dst: Register, callable: Register, args: seq<Register>)
    | CallMethod(dst: Register, receiver: Register, name: string, args: seq<Register>)
    | AddI64(dst: Register, lhs: Register, rhs: Register)
    | LtI64(dst: Register, lhs: Register, rhs: Register)
    | Jump(target: nat)
    | Branch(cond: Register, yes: nat, no: nat)
    | Return(src: Register)
    | Move(dst: Register, src: Register)

  type Code = seq<Instruction>

  function WrittenRegister(i: Instruction): Option<Register> {
    match i
    case SetItem(_, _, _) | SetAttr(_, _, _) | SetSlice(_, _, _, _, _) | ListAppend(_, _) | ListInsert(_, _, _)
       | Jump(_) | Branch(_, _, _) | Return(_) => None
    case _ => Some(i.dst)
  }

  function OptionalRead(r: Option<Register>): seq<Register> {
    if r.Some? then [r.value] else []
  }

  function EntryReads(entries: seq<(Register, Register)>): seq<Register> {
    if entries == [] then [] else [entries[0].0, entries[0].1] + EntryReads(entries[1..])
  }

  // The registers an instruction reads, in the order they are checked.
  function Reads(i: Instruction): seq<Register> {
    match i
    case ConstSmallInt(_, _) | ConstFloat(_, _) | ConstBool(_, _) | ConstNone(_) | LoadConstant(_, _) | ConstI64(_, _)
       | LoadCurrentFunction(_) | Jump(_) => []
    case BinaryOp(_, _, lhs, rhs, _) => [lhs, rhs]
    case CompareOp(_, _, lhs, rhs, _) => [lhs, rhs]
    case UnaryOp(_, _, src) => [src]
    case BooleanOp(_, _, lhs, rhs) => [lhs, rhs]
    case AddI64(_, lhs, rhs) => [lhs, rhs]
    case LtI64(_, lhs, rhs) => [lhs, rhs]
    case BuildTuple(_, items) => items
    case BuildList(_, items) => items
    case BuildDict(_, entries) => EntryReads(entries)
    case GetItem(_, obj, key) => [obj, key]
    case GetAttr(_, obj, _) => [obj]
    case GetSlice(_, obj, start, stop, step) => [obj] + OptionalRead(start) + OptionalRead(stop) + OptionalRead(step)
    case SetItem(obj, key, value) => [obj, key, value]
    case SetAttr(obj, _, value) => [obj, value]
    case SetSlice(obj, start, stop, step, value) =>
      [obj] + OptionalRead(start) + OptionalRead(stop) + OptionalRead(step) + [value]
    case ListAppend(list, value) => [list, value]
    case ListInsert(list, index, value) => [list, index, value]
    case ListPop(_, list, index) => [list, index]
    case Length(_, obj) => [obj]
    case Call(_, callable, args) => [callable] + args
    case CallMethod(_, receiver, _, args) => [receiver] + args
    case Branch(cond, _, _) => [cond]
    case Return(src) => [src]
    case Move(_, src) => [src]
  }

  predicate IsControl(i: Instruction) {
    i.Jump? || i.Branch? || i.Return?
  }

  // Where control may go after the instruction at `pc`.
  function Successors(code: Code, pc: nat): seq<nat>
    requires pc < |code|
  {
    if code[pc].Return? then []
    else if code[pc].Jump? then [code[pc].target]
    else if code[pc].Branch? then [code[pc].yes, code[pc].no]
    else if pc + 1 < |code| then [pc + 1]
    else []
  }

  // Control would run past the last instruction.
  predicate FallsOff(code: Code, pc: nat)
    requires pc < |code|
  {
    !IsControl(code[pc]) && pc + 1 == |code|
  }

  // Checked by the verifier before assignment is analysed (src/verifier.rs, lines 203-207).
  predicate TargetsInRange(code: Code) {
    forall pc :: 0 <= pc < |code| ==>
      && (code[pc].Jump? ==> code[pc].target < |code|)
      && (code[pc].Branch? ==> code[pc].yes < |code| && code[pc].no < |code|)
  }

  function Written(i: Instruction): set<Register> {
    if WrittenRegister(i).Some? then {WrittenRegister(i).value} else {}
  }
}
