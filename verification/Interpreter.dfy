/**
  The interpreter (src/wvm/interpreter.rs, src/wvm/arguments.rs): its dispatch
  loop on one frame, plain and quickened (src/wvm/quickening.rs), and what
  definite assignment guarantees about it.
  What the runtime computes for an instruction is an arbitrary function of the
  turn, the instruction and its operands, so calls, the heap and failures are
  all covered; it is only assumed not to produce `Uninitialized`.
 */
module Interpreter {
  import opened Wrappers
  import opened Bytecode
  import opened Initialization
  import opened Values

  datatype FrameState = FrameState(pc: nat, registers: seq<Value>)

  // The result of an operation: a value, or an error that ends the run.
  type Runtime = (nat, Instruction, seq<Value>) -> Option<Value>

  ghost predicate Initialized(runtime: Runtime) {
    forall turn, i, operands :: runtime(turn, i, operands) != Some(Uninitialized)
  }

  datatype Outcome =
    | Next(frame: FrameState)
    | Returned(value: Value)
    | Failed                      // a type or runtime error
    | OutOfTurns                  // only of a bounded run
    | InvalidRegister
    | ReadUninitialized
    | EndedWithoutReturn

  // What verified code must never do.
  predicate Broken(o: Outcome) {
    o.InvalidRegister? || o.ReadUninitialized? || o.EndedWithoutReturn?
  }

  function Operands(registers: seq<Value>, sources: seq<Register>): (operands: seq<Value>)
    ensures |operands| == |sources|
    ensures forall k :: 0 <= k < |sources| && sources[k] < |registers| ==> operands[k] == registers[sources[k]]
  {
    seq(|sources|, k requires 0 <= k < |sources| => if sources[k] < |registers| then registers[sources[k]] else Uninitialized)
  }

  // ------------------------------------------- what the interpreter itself looks up

  // Key and value of each entry, entry by entry.
  function LookedUpPairs(entries: seq<(Register, Register)>): seq<Register> {
    if entries == [] then []
    else
      var last := |entries| - 1;
      LookedUpPairs(entries[..last]) + [entries[last].0, entries[last].1]
  }

  // The registers that an instruction looks up while it is executed, in order, from its
  // own fields (src/wvm/interpreter.rs, src/wvm/runtime_dispatch.rs). The verifier has
  // another table, `Reads`.
  function LookedUp(i: Instruction): seq<Register> {
    if i.BinaryOp? || i.CompareOp? || i.BooleanOp? || i.AddI64? || i.LtI64? then [i.lhs, i.rhs]
    else if i.UnaryOp? || i.Move? || i.Return? then [i.src]
    else if i.BuildTuple? || i.BuildList? then i.items
    else if i.BuildDict? then LookedUpPairs(i.entries)
    else if i.GetItem? then [i.obj, i.key]
    else if i.GetAttr? || i.Length? then [i.obj]
    else if i.GetSlice? || i.SetSlice? then
      [i.obj]
      + (if i.start.Some? then [i.start.value] else [])
      + (if i.stop.Some? then [i.stop.value] else [])
      + (if i.step.Some? then [i.step.value] else [])
      + (if i.SetSlice? then [i.value] else [])
    else if i.SetItem? then [i.obj, i.key, i.value]
    else if i.SetAttr? then [i.obj, i.value]
    else if i.ListAppend? then [i.list, i.value]
    else if i.ListInsert? then [i.list, i.index, i.value]
    else if i.ListPop? then [i.list, i.index]
    else if i.Call? then [i.callable] + i.args
    else if i.CallMethod? then [i.receiver] + i.args
    else if i.Branch? then [i.cond]
    else []
  }

  // The register that an instruction stores its result in.
  function Destination(i: Instruction): Option<Register> {
    if i.SetItem? || i.SetAttr? || i.SetSlice? || i.ListAppend? || i.ListInsert? || i.Jump? || i.Branch? || i.Return? then None
    else Some(i.dst)
  }

  lemma {:induction false} EntryReadsAppend(entries: seq<(Register, Register)>, last: (Register, Register))
    ensures EntryReads(entries + [last]) == EntryReads(entries) + [last.0, last.1]
  {
    if entries == [] {
      assert entries + [last] == [last];
      assert [last][1..] == [];
    } else {
      EntryReadsAppend(entries[1..], last);
      assert (entries + [last])[1..] == entries[1..] + [last];
    }
  }

  lemma {:induction false} EntriesLookedUp(entries: seq<(Register, Register)>)
    ensures LookedUpPairs(entries) == EntryReads(entries)
  {
    if entries != [] {
      var last := |entries| - 1;
      EntriesLookedUp(entries[..last]);
      EntryReadsAppend(entries[..last], entries[last]);
      assert entries[..last] + [entries[last]] == entries;
    }
  }

  // The table of the verifier is exactly what the interpreter looks up, and so is the
  // table of the registers that are written.
  lemma LookedUpAreRead(i: Instruction)
    ensures LookedUp(i) == Reads(i)
    ensures Destination(i) == WrittenRegister(i)
  {
    if i.BuildDict? {
      EntriesLookedUp(i.entries);
    }
  }

  // Writing a result and going to the next instruction.
  function Write(f: FrameState, dst: Register, value: Value): Outcome {
    if dst < |f.registers| then Next(FrameState(f.pc + 1, f.registers[dst := value])) else InvalidRegister
  }

  datatype Ordering = Less | Equal | Greater

  function OrderOf(l: int, r: int): Ordering {
    if l < r then Less else if l == r then Equal else Greater
  }

  // The plain comparison of small integers (src/wvm/arithmetic.rs): equality, or an
  // ordering that is then looked at.
  predicate Compares(op: CompareOperator, l: int, r: int) {
    match op
    case Eq => l == r
    case NotEq => !(l == r)
    case Lt => OrderOf(l, r) == Less
    case Le => OrderOf(l, r) != Greater
    case Gt => OrderOf(l, r) == Greater
    case Ge => OrderOf(l, r) != Less
  }

  // An instruction on its operands.
  function Perform(i: Instruction, f: FrameState, operands: seq<Value>, turn: nat, runtime: Runtime): Outcome
    requires |operands| == |LookedUp(i)|
  {
    if i.Return? then Returned(operands[0])
    else if i.Jump? then Next(f.(pc := i.target))
    else if i.Branch? then
      if operands[0].Bool? then Next(f.(pc := if operands[0].b then i.yes else i.no)) else Failed
    else
      match Result(i, operands, turn, runtime)
      case None => Failed
      case Some(value) => if Destination(i).Some? then Write(f, Destination(i).value, value) else Next(f.(pc := f.pc + 1))
  }

  // The value of an instruction that goes on to the next one.
  function Result(i: Instruction, operands: seq<Value>, turn: nat, runtime: Runtime): Option<Value>
    requires |operands| == |LookedUp(i)|
  {
    if i.ConstSmallInt? || i.ConstI64? then Some(SmallInt(i.int_))
    else if i.ConstFloat? then Some(Float(i.bits))
    else if i.ConstBool? then Some(Bool(i.bool_))
    else if i.ConstNone? then Some(NoneValue)
    else if i.Move? then Some(operands[0])
    else if i.LtI64? then
      if operands[0].SmallInt? && operands[1].SmallInt? then Some(Bool(operands[0].i < operands[1].i)) else None
    else if i.CompareOp? && operands[0].SmallInt? && operands[1].SmallInt? then
      Some(Bool(Compares(i.compare, operands[0].i, operands[1].i)))
    else if i.BooleanOp? then
      if operands[0].Bool? && operands[1].Bool?
      then Some(Bool(if i.boolean.And? then operands[0].b && operands[1].b else operands[0].b || operands[1].b)) else None
    else if i.AddI64? && !(operands[0].SmallInt? && operands[1].SmallInt?) then None
    else runtime(turn, i, operands)
  }

  // One turn of the dispatch loop.
  function StepFrame(code: Code, f: FrameState, turn: nat, runtime: Runtime): Outcome {
    if f.pc >= |code| then EndedWithoutReturn
    else
      var sources := LookedUp(code[f.pc]);
      if exists r :: r in sources && r >= |f.registers| then InvalidRegister
      else
        var operands := Operands(f.registers, sources);
        if Uninitialized in operands then ReadUninitialized else Perform(code[f.pc], f, operands, turn, runtime)
  }

  // The loop, for whatever one turn does: the outcome of at most `turns` turns.
  function Run(step: (FrameState, nat) -> Outcome, f: FrameState, turn: nat, turns: nat): Outcome
    decreases turns
  {
    if turns == 0 then OutOfTurns
    else
      match step(f, turn)
      case Next(f') => Run(step, f', turn + 1, turns - 1)
      case o => o
  }

  function Dispatch(code: Code, runtime: Runtime): (FrameState, nat) -> Outcome {
    (f: FrameState, turn: nat) => StepFrame(code, f, turn, runtime)
  }

  // Registers are within the frame, as the verifier checks first.
  predicate RegistersInRange(code: Code, count: nat) {
    forall pc :: 0 <= pc < |code| ==>
      && (forall r :: r in Reads(code[pc]) ==> r < count)
      && (forall r :: r in Written(code[pc]) ==> r < count)
  }

  // ----------------------------------------------------------------- quick code

  datatype Quick =
    | QuickBinary(dst: Register, binary: BinaryOperator, lhs: Register, rhs: Register)
    | QuickCompare(dst: Register, compare: CompareOperator, lhs: Register, rhs: Register)

  type QuickCode = seq<Option<Quick>>

  // A quick instruction for every operator, as the interpreter without profiling has it.
  function InterpreterQuick(code: Code): QuickCode {
    seq(|code|, pc requires 0 <= pc < |code| =>
      if code[pc].BinaryOp? then Some(QuickBinary(code[pc].dst, code[pc].binary, code[pc].lhs, code[pc].rhs))
      else if code[pc].CompareOp? then Some(QuickCompare(code[pc].dst, code[pc].compare, code[pc].lhs, code[pc].rhs))
      else None)
  }

  // With profiling only some of them are there.
  predicate Quickens(quick: QuickCode, code: Code) {
    |quick| <= |code| && forall pc :: 0 <= pc < |quick| ==> quick[pc].None? || quick[pc] == InterpreterQuick(code)[pc]
  }

  predicate IsNumber(v: Value) {
    v.SmallInt? || v.Float?
  }

  predicate QuickCompares(op: CompareOperator, l: int, r: int) {
    match op
    case Eq => l == r
    case NotEq => l != r
    case Lt => l < r
    case Le => l <= r
    case Gt => l > r
    case Ge => l >= r
  }

  // What a quick instruction does, unless its guard misses: all three registers are
  // looked up first, but only the operands matter.
  function QuickOutcome(q: Quick, site: nat, f: FrameState, turn: nat, runtime: Runtime): Option<Outcome> {
    if q.dst >= |f.registers| || q.lhs >= |f.registers| || q.rhs >= |f.registers| then Some(InvalidRegister)
    else
      var l, r := f.registers[q.lhs], f.registers[q.rhs];
      match q
      case QuickCompare(dst, op, _, _) =>
        if l.SmallInt? && r.SmallInt? then Some(Write(f, dst, Bool(QuickCompares(op, l.i, r.i)))) else None
      case QuickBinary(dst, op, lhs, rhs) =>
        if IsNumber(l) && IsNumber(r) then
          match runtime(turn, BinaryOp(dst, op, lhs, rhs, site), [l, r])
          case None => Some(Failed)
          case Some(value) => Some(Write(f, dst, value))
        else None
  }

  // One turn of the loop with quick code: the plain turn where a guard misses.
  function StepQuick(code: Code, quick: QuickCode, f: FrameState, turn: nat, runtime: Runtime): Outcome {
    if f.pc < |code| && f.pc < |quick| && quick[f.pc].Some? then
      var site := if code[f.pc].BinaryOp? then code[f.pc].site else 0;
      match QuickOutcome(quick[f.pc].value, site, f, turn, runtime)
      case Some(o) => o
      case None => StepFrame(code, f, turn, runtime)
    else StepFrame(code, f, turn, runtime)
  }

  function QuickDispatch(code: Code, quick: QuickCode, runtime: Runtime): (FrameState, nat) -> Outcome {
    (f: FrameState, turn: nat) => StepQuick(code, quick, f, turn, runtime)
  }

  // Quick code stands for the arithmetic and the comparisons, for nothing else, and names
  // their operator and registers.
  lemma QuickenedExactly(code: Code, pc: nat)
    requires pc < |code|
    ensures |InterpreterQuick(code)| == |code|
    ensures InterpreterQuick(code)[pc].Some? <==> code[pc].BinaryOp? || code[pc].CompareOp?
    ensures InterpreterQuick(code)[pc].Some? ==>
      var q := InterpreterQuick(code)[pc].value;
      && q.dst == code[pc].dst && q.lhs == code[pc].lhs && q.rhs == code[pc].rhs
      && (if code[pc].BinaryOp? then q.QuickBinary? && q.binary == code[pc].binary else q.QuickCompare? && q.compare == code[pc].compare)
  {
  }

  // A quickened turn is the plain turn, whatever the registers hold.
  lemma QuickIsPlain(code: Code, quick: QuickCode, f: FrameState, turn: nat, runtime: Runtime)
    requires Quickens(quick, code) && RegistersInRange(code, |f.registers|)
    ensures StepQuick(code, quick, f, turn, runtime) == StepFrame(code, f, turn, runtime)
  {
    if f.pc < |quick| && quick[f.pc].Some? {
      var i, q := code[f.pc], quick[f.pc].value;
      assert quick[f.pc] == InterpreterQuick(code)[f.pc];
      assert Reads(i) == [q.lhs, q.rhs] && Written(i) == {q.dst};
      assert q.lhs in Reads(i) && q.rhs in Reads(i) && q.dst in Written(i);
      assert Operands(f.registers, LookedUp(i)) == [f.registers[q.lhs], f.registers[q.rhs]];
    }
  }

  // So quickened runs are plain runs.
  lemma {:induction false} QuickRunIsPlain(code: Code, quick: QuickCode, f: FrameState, turn: nat, turns: nat, runtime: Runtime)
    requires Quickens(quick, code) && RegistersInRange(code, |f.registers|)
    ensures Run(QuickDispatch(code, quick, runtime), f, turn, turns) == Run(Dispatch(code, runtime), f, turn, turns)
    decreases turns
  {
    hide StepFrame, StepQuick, Quickens, RegistersInRange;
    if turns > 0 {
      QuickIsPlain(code, quick, f, turn, runtime);
      var o := StepFrame(code, f, turn, runtime);
      if o.Next? {
        StepKeepsFrame(code, f, turn, runtime);
        QuickRunIsPlain(code, quick, o.frame, turn + 1, turns - 1, runtime);
      }
    }
  }

  lemma StepKeepsFrame(code: Code, f: FrameState, turn: nat, runtime: Runtime)
    ensures var o := StepFrame(code, f, turn, runtime); o.Next? ==> |o.frame.registers| == |f.registers|
  {
    hide LookedUp, Destination, Result;
  }

  // ------------------------------------------------------------------- the entry

  function Assign(registers: seq<Value>, params: seq<Register>, arguments: seq<Value>): seq<Value>
    requires |params| == |arguments|
  {
    if params == [] then registers
    else
      var last := |params| - 1;
      var before := Assign(registers, params[..last], arguments[..last]);
      if params[last] < |before| then before[params[last] := arguments[last]] else before
  }

  // `initialize_registers`: everything uninitialized, then the arguments.
  function EntryFrame(count: nat, params: seq<Register>, arguments: seq<Value>): FrameState
    requires |params| == |arguments|
  {
    FrameState(0, Assign(seq(count, _ => Uninitialized), params, arguments))
  }

  predicate HasAssigned(registers: seq<Value>, defined: set<Register>) {
    forall r :: r in defined ==> r < |registers| && registers[r] != Uninitialized
  }

  lemma {:induction false} AssignAssigns(registers: seq<Value>, params: seq<Register>, arguments: seq<Value>)
    requires |params| == |arguments| && Uninitialized !in arguments
    requires forall p :: p in params ==> p < |registers|
    ensures |Assign(registers, params, arguments)| == |registers|
    ensures HasAssigned(Assign(registers, params, arguments), set p | p in params)
  {
    if params != [] {
      var last := |params| - 1;
      assert params == params[..last] + [params[last]];
      assert forall v :: v in arguments[..last] ==> v in arguments;
      assert forall p :: p in params[..last] ==> p in params;
      AssignAssigns(registers, params[..last], arguments[..last]);
      assert forall p :: p in params ==> p in params[..last] || p == params[last];
    }
  }

  // Each parameter register holds its own argument, the last one where registers repeat.
  lemma {:induction false} AssignedAt(registers: seq<Value>, params: seq<Register>, arguments: seq<Value>, k: nat)
    requires |params| == |arguments| && k < |params| && forall j :: 0 <= j < |params| ==> params[j] < |registers|
    requires forall j :: k < j < |params| ==> params[j] != params[k]
    ensures |Assign(registers, params, arguments)| == |registers|
    ensures Assign(registers, params, arguments)[params[k]] == arguments[k]
  {
    var last := |params| - 1;
    AssignKeepsLength(registers, params[..last], arguments[..last]);
    if k < last {
      AssignedAt(registers, params[..last], arguments[..last], k);
    }
  }

  lemma {:induction false} AssignKeepsLength(registers: seq<Value>, params: seq<Register>, arguments: seq<Value>)
    requires |params| == |arguments|
    ensures |Assign(registers, params, arguments)| == |registers|
  {
    if params != [] {
      AssignKeepsLength(registers, params[..|params| - 1], arguments[..|params| - 1]);
    }
  }

  // A program that chooses between its two arguments by comparing them.
  function ChooseBy(op: CompareOperator): Code {
    [CompareOp(2, op, 0, 1, 0), Branch(2, 2, 3), Return(0), Return(1)]
  }

  lemma ChooseByChooses(op: CompareOperator, a: int, b: int, runtime: Runtime)
    ensures var o := Run(Dispatch(ChooseBy(op), runtime), EntryFrame(3, [0, 1], [SmallInt(a), SmallInt(b)]), 0, 3);
      && (op.Eq? ==> o == Returned(SmallInt(if a == b then a else b)))
      && (op.NotEq? ==> o == Returned(SmallInt(if a != b then a else b)))
      && (op.Lt? ==> o == Returned(SmallInt(if a < b then a else b)))
      && (op.Le? ==> o == Returned(SmallInt(if a <= b then a else b)))
      && (op.Gt? ==> o == Returned(SmallInt(if a > b then a else b)))
      && (op.Ge? ==> o == Returned(SmallInt(if a >= b then a else b)))
  {
    hide StepFrame, EntryFrame;
    var code, step := ChooseBy(op), Dispatch(ChooseBy(op), runtime);
    var f0 := EntryFrame(3, [0, 1], [SmallInt(a), SmallInt(b)]);
    TwoArguments(SmallInt(a), SmallInt(b));
    var holds := Compares(op, a, b);
    var f1 := FrameState(1, f0.registers[2 := Bool(holds)]);
    var f2 := FrameState(if holds then 2 else 3, f1.registers);
    CompareTurn(code, f0, 0, runtime);
    BranchTurn(code, f1, 1, runtime);
    ReturnTurn(code, f2, 2, runtime);
    assert Run(step, f2, 2, 1) == step(f2, 2);
    assert Run(step, f1, 1, 2) == Run(step, f2, 2, 1);
  }

  // Programs of one operation and a return.
  function Straight(i: Instruction): Code {
    [i, Return(2)]
  }

  // The program returns the value, given two arguments.
  ghost predicate Gives(i: Instruction, a: Value, b: Value, runtime: Runtime, result: Value) {
    Run(Dispatch(Straight(i), runtime), EntryFrame(3, [0, 1], [a, b]), 0, 2) == Returned(result)
  }

  lemma StraightTurn(i: Instruction, f: FrameState, result: Value, runtime: Runtime)
    requires f.pc == 0 && |f.registers| == 3 && f.registers[0] != Uninitialized && f.registers[1] != Uninitialized
    requires Destination(i) == Some(2) && (forall r :: r in LookedUp(i) ==> r < 2)
    requires Result(i, Operands(f.registers, LookedUp(i)), 0, runtime) == Some(result)
    ensures StepFrame(Straight(i), f, 0, runtime) == Next(FrameState(1, f.registers[2 := result]))
  {
    hide Result;
    var operands := Operands(f.registers, LookedUp(i));
    assert forall k :: 0 <= k < |operands| ==> LookedUp(i)[k] in LookedUp(i);
    assert Uninitialized !in operands;
  }

  lemma StraightGives(i: Instruction, a: Value, b: Value, result: Value, runtime: Runtime)
    requires a != Uninitialized && b != Uninitialized && result != Uninitialized
    requires Destination(i) == Some(2) && (forall r :: r in LookedUp(i) ==> r < 2)
    requires forall registers: seq<Value> {:trigger Operands(registers, LookedUp(i))} ::
      |registers| == 3 && registers[0] == a && registers[1] == b ==>
        Result(i, Operands(registers, LookedUp(i)), 0, runtime) == Some(result)
    ensures Gives(i, a, b, runtime, result)
  {
    TwoArguments(a, b);
    hide EntryFrame, Result, StepFrame, Operands, LookedUp, Destination;
    var f0 := EntryFrame(3, [0, 1], [a, b]);
    var f1 := FrameState(1, f0.registers[2 := result]);
    var operands := Operands(f0.registers, LookedUp(i));
    StraightTurn(i, f0, result, runtime);
    ReturnTurn(Straight(i), f1, 1, runtime);
    assert Run(Dispatch(Straight(i), runtime), f1, 1, 1) == Dispatch(Straight(i), runtime)(f1, 1);
  }

  // A constant is itself.
  lemma ConstantsCompute(a: Value, b: Value, runtime: Runtime, n: int, bits: nat, t: bool)
    requires a != Uninitialized && b != Uninitialized
    ensures Gives(ConstSmallInt(2, n), a, b, runtime, SmallInt(n)) && Gives(ConstI64(2, n), a, b, runtime, SmallInt(n))
    ensures Gives(ConstFloat(2, bits), a, b, runtime, Float(bits)) && Gives(ConstBool(2, t), a, b, runtime, Bool(t))
    ensures Gives(ConstNone(2), a, b, runtime, NoneValue)
  {
    hide Gives;
    StraightGives(ConstSmallInt(2, n), a, b, SmallInt(n), runtime);
    StraightGives(ConstI64(2, n), a, b, SmallInt(n), runtime);
    StraightGives(ConstFloat(2, bits), a, b, Float(bits), runtime);
    StraightGives(ConstBool(2, t), a, b, Bool(t), runtime);
    StraightGives(ConstNone(2), a, b, NoneValue, runtime);
  }

  // A move copies its source.
  lemma MovesCopy(a: Value, b: Value, runtime: Runtime)
    requires a != Uninitialized && b != Uninitialized
    ensures Gives(Move(2, 0), a, b, runtime, a) && Gives(Move(2, 1), a, b, runtime, b)
  {
    hide Gives;
    StraightGives(Move(2, 0), a, b, a, runtime);
    StraightGives(Move(2, 1), a, b, b, runtime);
  }

  // `<` on machine integers compares its operands in this order.
  lemma LessCompares(a: int, b: int, runtime: Runtime)
    ensures Gives(LtI64(2, 0, 1), SmallInt(a), SmallInt(b), runtime, Bool(a < b))
  {
    hide Gives;
    StraightGives(LtI64(2, 0, 1), SmallInt(a), SmallInt(b), Bool(a < b), runtime);
  }

  // `and` and `or` on truth values are the connectives.
  lemma LogicComputes(a: bool, b: bool, runtime: Runtime)
    ensures Gives(BooleanOp(2, And, 0, 1), Bool(a), Bool(b), runtime, Bool(a && b))
    ensures Gives(BooleanOp(2, Or, 0, 1), Bool(a), Bool(b), runtime, Bool(a || b))
  {
    hide Gives;
    StraightGives(BooleanOp(2, And, 0, 1), Bool(a), Bool(b), Bool(a && b), runtime);
    StraightGives(BooleanOp(2, Or, 0, 1), Bool(a), Bool(b), Bool(a || b), runtime);
  }

  lemma TwoArguments(a: Value, b: Value)
    ensures var f := EntryFrame(3, [0, 1], [a, b]); f.pc == 0 && |f.registers| == 3 && f.registers[0] == a && f.registers[1] == b
  {
    var empty := seq(3, _ => Uninitialized);
    AssignedAt(empty, [0, 1], [a, b], 0);
    AssignedAt(empty, [0, 1], [a, b], 1);
  }

  // Single turns: a comparison of small integers, a branch, a return.
  lemma CompareTurn(code: Code, f: FrameState, turn: nat, runtime: Runtime)
    requires f.pc < |code| && code[f.pc].CompareOp?
    requires var i := code[f.pc]; i.lhs < |f.registers| && i.rhs < |f.registers| && i.dst < |f.registers|
    requires f.registers[code[f.pc].lhs].SmallInt? && f.registers[code[f.pc].rhs].SmallInt?
    ensures var i := code[f.pc];
      StepFrame(code, f, turn, runtime)
      == Next(FrameState(f.pc + 1, f.registers[i.dst := Bool(Compares(i.compare, f.registers[i.lhs].i, f.registers[i.rhs].i))]))
  {
  }

  lemma BranchTurn(code: Code, f: FrameState, turn: nat, runtime: Runtime)
    requires f.pc < |code| && code[f.pc].Branch? && code[f.pc].cond < |f.registers| && f.registers[code[f.pc].cond].Bool?
    ensures StepFrame(code, f, turn, runtime) == Next(f.(pc := if f.registers[code[f.pc].cond].b then code[f.pc].yes else code[f.pc].no))
  {
  }

  lemma ReturnTurn(code: Code, f: FrameState, turn: nat, runtime: Runtime)
    requires f.pc < |code| && code[f.pc].Return? && code[f.pc].src < |f.registers| && f.registers[code[f.pc].src] != Uninitialized
    ensures StepFrame(code, f, turn, runtime) == Returned(f.registers[code[f.pc].src])
  {
  }

  // -------------------------------------------------------------------- soundness

  // Initialized operands give an initialized result.
  lemma ResultInitialized(i: Instruction, operands: seq<Value>, turn: nat, runtime: Runtime)
    requires Initialized(runtime) && |operands| == |LookedUp(i)| && Uninitialized !in operands
    ensures Result(i, operands, turn, runtime) != Some(Uninitialized)
  {
  }

  lemma PerformFollows(code: Code, f: FrameState, operands: seq<Value>, turn: nat, runtime: Runtime, defined: set<Register>)
    requires Initialized(runtime) && TargetsInRange(code) && f.pc < |code| && !FallsOff(code, f.pc)
    requires |operands| == |LookedUp(code[f.pc])| && Uninitialized !in operands
    requires HasAssigned(f.registers, defined) && forall r :: r in Written(code[f.pc]) ==> r < |f.registers|
    ensures var o := Perform(code[f.pc], f, operands, turn, runtime);
      && !Broken(o)
      && (o.Next? ==>
            && o.frame.pc in Successors(code, f.pc)
            && |o.frame.registers| == |f.registers|
            && HasAssigned(o.frame.registers, defined + Written(code[f.pc])))
  {
    LookedUpAreRead(code[f.pc]);
    hide LookedUp, Destination, Result, WrittenRegister;
    ResultInitialized(code[f.pc], operands, turn, runtime);
    ControlWritesNothing(code[f.pc]);
    var dst := WrittenRegister(code[f.pc]);
    assert dst.Some? ==> dst.value in Written(code[f.pc]);
  }

  lemma ControlWritesNothing(i: Instruction)
    ensures IsControl(i) ==> WrittenRegister(i).None?
  {
  }

  // A turn follows an edge of the control flow and assigns what the analysis says.
  lemma StepFollows(code: Code, f: FrameState, turn: nat, runtime: Runtime, defined: set<Register>)
    requires Initialized(runtime) && TargetsInRange(code) && RegistersInRange(code, |f.registers|)
    requires HasAssigned(f.registers, defined) && SafeAt(code, f.pc, defined)
    ensures var o := StepFrame(code, f, turn, runtime);
      && !Broken(o)
      && (o.Next? ==>
            && o.frame.pc in Successors(code, f.pc)
            && |o.frame.registers| == |f.registers|
            && HasAssigned(o.frame.registers, defined + Written(code[f.pc])))
  {
    LookedUpAreRead(code[f.pc]);
    hide LookedUp, Destination, Perform, Reads, Written;
    var sources := LookedUp(code[f.pc]);
    assert forall r :: r in sources ==> r in defined;
    var operands := Operands(f.registers, sources);
    forall k | 0 <= k < |operands| ensures operands[k] != Uninitialized {
      assert sources[k] in sources;
    }
    assert Uninitialized !in operands;
    PerformFollows(code, f, operands, turn, runtime, defined);
  }

  // Some path leads to the frame's instruction and assigns no more than the frame holds.
  ghost predicate Explained(code: Code, params: set<Register>, count: nat, f: FrameState) {
    && |f.registers| == count
    && exists defined: set<Register>, n: nat :: Arrives(code, params, f.pc, defined, n) && HasAssigned(f.registers, defined)
  }

  lemma StepExplained(code: Code, params: set<Register>, count: nat, f: FrameState, turn: nat, runtime: Runtime)
    requires Initialized(runtime) && TargetsInRange(code) && RegistersInRange(code, count)
    requires DefinitelyAssigned(code, params) && Explained(code, params, count, f)
    ensures var o := StepFrame(code, f, turn, runtime);
      !Broken(o) && (o.Next? ==> Explained(code, params, count, o.frame))
  {
    var defined: set<Register>, n: nat :| Arrives(code, params, f.pc, defined, n) && HasAssigned(f.registers, defined);
    assert SafeAt(code, f.pc, defined);
    StepFollows(code, f, turn, runtime, defined);
    var o := StepFrame(code, f, turn, runtime);
    if o.Next? {
      ArrivesNext(code, params, f.pc, o.frame.pc, defined, n);
    }
  }

  // Verified code runs safely from any frame that some path explains, for ever.
  lemma {:induction false} RunIsSafe(
      code: Code, params: set<Register>, count: nat, f: FrameState, turn: nat, turns: nat, runtime: Runtime)
    requires Initialized(runtime) && TargetsInRange(code) && RegistersInRange(code, count)
    requires DefinitelyAssigned(code, params) && Explained(code, params, count, f)
    ensures !Broken(Run(Dispatch(code, runtime), f, turn, turns))
    decreases turns
  {
    if turns > 0 {
      StepExplained(code, params, count, f, turn, runtime);
      var o := StepFrame(code, f, turn, runtime);
      if o.Next? {
        RunIsSafe(code, params, count, o.frame, turn + 1, turns - 1, runtime);
      }
    }
  }

  // Running a verified function never reads an uninitialized register, never
  // names one outside the frame, and never ends without `Return`: for every
  // argument list, every behaviour of the runtime and any number of turns.
  lemma VerifiedRunsSafely(
      code: Code, count: nat, params: seq<Register>, arguments: seq<Value>, turns: nat, runtime: Runtime)
    requires Initialized(runtime) && TargetsInRange(code) && RegistersInRange(code, count)
    requires |params| == |arguments| && Uninitialized !in arguments && forall p :: p in params ==> p < count
    requires DefinitelyAssigned(code, set p | p in params)
    ensures !Broken(Run(Dispatch(code, runtime), EntryFrame(count, params, arguments), 0, turns))
  {
    var entry := EntryFrame(count, params, arguments);
    var defined := set p | p in params;
    AssignAssigns(seq(count, _ => Uninitialized), params, arguments);
    assert Arrives(code, defined, 0, defined, 0);
    RunIsSafe(code, defined, count, entry, 0, turns, runtime);
  }

  // ------------------------------------------------------------- the loop in place

  class Frame {
    var pc: nat
    var registers: seq<Value>

    function View(): FrameState
      reads this
    {
      FrameState(pc, registers)
    }

    constructor (entry: FrameState)
      ensures View() == entry
    {
      pc, registers := entry.pc, entry.registers;
    }
  }

  // One turn of the loop: the frame advances unless the run is over.
  method ExecuteTurn(step: (FrameState, nat) -> Outcome, frame: Frame, turn: nat) returns (o: Outcome)
    modifies frame
    ensures o == step(old(frame.View()), turn)
    ensures frame.View() == if o.Next? then o.frame else old(frame.View())
  {
    o := step(frame.View(), turn);
    if o.Next? {
      frame.pc, frame.registers := o.frame.pc, o.frame.registers;
    }
  }

  // The dispatch loop on a frame, for at most `turns` turns.
  method Execute(step: (FrameState, nat) -> Outcome, frame: Frame, turns: nat) returns (o: Outcome)
    modifies frame
    ensures o == Run(step, old(frame.View()), 0, turns)
  {
    ghost var entry := frame.View();
    var turn := 0;
    while turn < turns
      invariant turn <= turns
      invariant Run(step, entry, 0, turns) == Run(step, frame.View(), turn, turns - turn)
    {
      o := ExecuteTurn(step, frame, turn);
      if !o.Next? {
        return;
      }
      turn := turn + 1;
    }
    o := OutOfTurns;
  }

  // A verified function executed on a fresh frame, with whatever quick code, never
  // breaks and does what the plain interpreter does.
  method ExecuteVerified(
      code: Code, quick: QuickCode, count: nat, params: seq<Register>, arguments: seq<Value>, turns: nat, runtime: Runtime)
    returns (r: Result<Outcome, AssignmentError>)
    requires Initialized(runtime) && TargetsInRange(code) && RegistersInRange(code, count) && Quickens(quick, code)
    requires |params| == |arguments| && Uninitialized !in arguments && forall p :: p in params ==> p < count
    ensures r.Ok? <==> DefinitelyAssigned(code, set p | p in params)
    ensures r.Ok? ==> !Broken(r.value)
    ensures r.Ok? ==> r.value == Run(Dispatch(code, runtime), EntryFrame(count, params, arguments), 0, turns)
  {
    var verified := VerifyDefiniteAssignment(code, set p | p in params);
    if verified.Err? {
      return Err(verified.error);
    }
    VerifiedRunsSafely(code, count, params, arguments, turns, runtime);
    AssignAssigns(seq(count, _ => Uninitialized), params, arguments);
    QuickRunIsPlain(code, quick, EntryFrame(count, params, arguments), 0, turns, runtime);
    var frame := new Frame(EntryFrame(count, params, arguments));
    var o := Execute(QuickDispatch(code, quick, runtime), frame, turns);
    return Ok(o);
  }
}
