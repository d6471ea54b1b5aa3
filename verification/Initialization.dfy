/**
  Definite assignment (src/verifier/initialization.rs): the worklist analysis,
  and the proof that it is exact with respect to all paths of the control flow.
 */
module Initialization {
  import opened Wrappers
  import opened Bytecode

  datatype AssignmentError =
    | NoReturn                       // the function has no instructions
    | FallsOffEnd(pc: nat)
    | ReadsUnassigned(pc: nat, register: Register)

  type State = Option<set<Register>>

  // ------------------------------------------------------- the property, by paths

  // Some path of `n` edges from the entry leads to `pc`, and along it exactly
  // `defined` has been assigned before `pc`.
  ghost predicate Arrives(code: Code, params: set<Register>, pc: nat, defined: set<Register>, n: nat)
    decreases n
  {
    if n == 0 then pc == 0 && 0 < |code| && defined == params
    else
      exists from: nat, before: set<Register> ::
        Arrives(code, params, from, before, n - 1) && Flows(code, from, before, pc, defined)
  }

  // One edge of a path.
  predicate Flows(code: Code, from: nat, before: set<Register>, pc: nat, defined: set<Register>) {
    from < |code| && pc in Successors(code, from) && defined == before + Written(code[from])
  }

  ghost predicate SafeAt(code: Code, pc: nat, defined: set<Register>) {
    pc < |code| && !FallsOff(code, pc) && forall r :: r in Reads(code[pc]) ==> r in defined
  }

  // No path falls off the end or reads a register before it is assigned.
  ghost predicate DefinitelyAssigned(code: Code, params: set<Register>) {
    && |code| > 0
    && forall pc: nat, defined: set<Register>, n: nat :: Arrives(code, params, pc, defined, n) ==> SafeAt(code, pc, defined)
  }

  // Some path reaches `pc` without having assigned `r`.
  ghost predicate Missable(code: Code, params: set<Register>, pc: nat, r: Register) {
    exists defined: set<Register>, n: nat :: Arrives(code, params, pc, defined, n) && r !in defined
  }

  ghost predicate Reachable(code: Code, params: set<Register>, pc: nat) {
    exists defined: set<Register>, n: nat :: Arrives(code, params, pc, defined, n)
  }

  lemma ArrivesNext(code: Code, params: set<Register>, pc: nat, next: nat, defined: set<Register>, n: nat)
    requires pc < |code| && next in Successors(code, pc) && Arrives(code, params, pc, defined, n)
    ensures Arrives(code, params, next, defined + Written(code[pc]), n + 1)
  {
    assert Flows(code, pc, defined, next, defined + Written(code[pc]));
  }

  // -------------------------------------------------------------- the fixpoint

  // The edges out of `pc` are accounted for.
  predicate EdgesDone(code: Code, s: seq<State>, pc: nat)
    requires |s| == |code| && pc < |code| && s[pc].Some?
  {
    && !FallsOff(code, pc)
    && forall t :: t in Successors(code, pc) ==> t < |s| && s[t].Some? && s[t].value <= s[pc].value + Written(code[pc])
  }

  ghost predicate Sound(code: Code, params: set<Register>, s: seq<State>) {
    && |s| == |code| > 0 && s[0].Some? && s[0].value <= params
    && (forall pc :: 0 <= pc < |s| && s[pc].Some? ==> Reachable(code, params, pc))
    && (forall pc, r :: 0 <= pc < |s| && s[pc].Some? && r !in s[pc].value ==> Missable(code, params, pc, r))
  }

  // All edges are done except those out of `x` and of what is queued.
  ghost predicate Settled(code: Code, s: seq<State>, queue: seq<nat>, x: set<nat>) {
    && |s| == |code|
    && (forall i :: 0 <= i < |queue| ==> queue[i] < |s| && s[queue[i]].Some?)
    && (forall pc :: 0 <= pc < |s| && s[pc].Some? && pc !in queue && pc !in x ==> EdgesDone(code, s, pc))
  }

  lemma BelowNext(code: Code, s: seq<State>, from: nat, pc: nat, before: set<Register>)
    requires |s| == |code| && from < |s| && s[from].Some? && EdgesDone(code, s, from) && pc in Successors(code, from)
    requires s[from].value <= before
    ensures pc < |s| && s[pc].Some? && s[pc].value <= before + Written(code[from])
  {
  }

  // At the fixpoint every path has assigned what its state says.
  lemma {:induction false} FixpointBelowPaths(
      code: Code, params: set<Register>, s: seq<State>, pc: nat, defined: set<Register>, n: nat)
    requires |s| == |code| > 0 && s[0].Some? && s[0].value <= params
    requires forall q :: 0 <= q < |s| && s[q].Some? ==> EdgesDone(code, s, q)
    requires Arrives(code, params, pc, defined, n)
    ensures pc < |s| && s[pc].Some? && s[pc].value <= defined
    decreases n
  {
    if n > 0 {
      var from: nat, before: set<Register> :|
        Arrives(code, params, from, before, n - 1) && Flows(code, from, before, pc, defined);
      FixpointBelowPaths(code, params, s, from, before, n - 1);
      BelowNext(code, s, from, pc, before);
    }
  }

  // -------------------------------------------------------------- propagation

  function Propagated(s: seq<State>, queue: seq<nat>, target: nat, outgoing: set<Register>): (seq<State>, seq<nat>)
    requires target < |s|
  {
    match s[target]
    case Some(current) =>
      var kept := current * outgoing;
      (s[target := Some(kept)], if |kept| != |current| then queue + [target] else queue)
    case None => (s[target := Some(outgoing)], queue + [target])
  }

  lemma SameSize<T>(a: set<T>, b: set<T>)
    requires a <= b && |a| == |b|
    ensures a == b
  {
    if a != b {
      var x :| x in b && x !in a;
      assert a <= b - {x};
      SubsetSize(a, b - {x});
    }
  }

  lemma SubsetSize<T>(a: set<T>, b: set<T>)
    requires a <= b
    ensures |a| <= |b|
  {
    if a != {} {
      var x :| x in a;
      SubsetSize(a - {x}, b - {x});
    }
  }

  // What propagation does to the states and the queue.
  ghost predicate Shrunk(s: seq<State>, queue: seq<nat>, target: nat, outgoing: set<Register>, s': seq<State>, queue': seq<nat>) {
    && |s'| == |s| && target < |s|
    && (forall pc :: 0 <= pc < |s| && pc != target ==> s'[pc] == s[pc])
    && s'[target] == Some(if s[target].Some? then s[target].value * outgoing else outgoing)
    && (if s' == s then queue' == queue else queue' == queue + [target])
  }

  lemma PropagatedShrinks(s: seq<State>, queue: seq<nat>, target: nat, outgoing: set<Register>)
    requires target < |s|
    ensures var (s', queue') := Propagated(s, queue, target, outgoing); Shrunk(s, queue, target, outgoing, s', queue')
  {
    if s[target].Some? {
      var kept := s[target].value * outgoing;
      if |kept| == |s[target].value| {
        SameSize(kept, s[target].value);
        assert s[target := Some(kept)] == s;
      } else {
        assert Propagated(s, queue, target, outgoing).0[target] != s[target];
      }
    } else {
      assert Propagated(s, queue, target, outgoing).0[target] != s[target];
    }
  }

  lemma ShrunkSound(
      code: Code, params: set<Register>, s: seq<State>, queue: seq<nat>, pc: nat, target: nat, outgoing: set<Register>,
      s': seq<State>, queue': seq<nat>)
    requires Sound(code, params, s) && Shrunk(s, queue, target, outgoing, s', queue')
    requires pc < |code| && Reachable(code, params, pc)
    requires forall r :: r !in outgoing ==> Missable(code, params, pc, r) && r !in Written(code[pc])
    requires target in Successors(code, pc)
    ensures Sound(code, params, s')
  {
    assert Reachable(code, params, target) by {
      var defined: set<Register>, n: nat :| Arrives(code, params, pc, defined, n);
      ArrivesNext(code, params, pc, target, defined, n);
    }
    forall r | r !in s'[target].value ensures Missable(code, params, target, r) {
      if r !in outgoing {
        var defined: set<Register>, n: nat :| Arrives(code, params, pc, defined, n) && r !in defined;
        ArrivesNext(code, params, pc, target, defined, n);
      }
    }
  }

  lemma ShrunkSettled(
      code: Code, s: seq<State>, queue: seq<nat>, x: set<nat>, target: nat, outgoing: set<Register>, s': seq<State>, queue': seq<nat>)
    requires Settled(code, s, queue, x) && Shrunk(s, queue, target, outgoing, s', queue')
    ensures Settled(code, s', queue', x)
  {
    if s' != s {
      forall pc | 0 <= pc < |s'| && s'[pc].Some? && pc !in queue' && pc !in x ensures EdgesDone(code, s', pc) {
        assert target in queue';
        assert forall q :: q in queue ==> q in queue';
        assert EdgesDone(code, s, pc);
      }
    }
  }

  // -------------------------------------------------------------- termination

  function Weight(state: State, bound: nat): nat {
    match state
    case None => bound + 1
    case Some(defined) => |defined|
  }

  function Measure(s: seq<State>, bound: nat): nat {
    if s == [] then 0 else Weight(s[0], bound) + Measure(s[1..], bound)
  }

  lemma {:induction false} MeasureUpdate(s: seq<State>, bound: nat, i: nat, state: State)
    requires i < |s|
    ensures Measure(s[i := state], bound) + Weight(s[i], bound) == Measure(s, bound) + Weight(state, bound)
  {
    if i == 0 {
      assert s[0 := state][1..] == s[1..];
    } else {
      assert s[i := state][1..] == s[1..][i - 1 := state];
      MeasureUpdate(s[1..], bound, i - 1, state);
    }
  }

  // Every register that is ever assigned.
  ghost function Universe(code: Code, params: set<Register>): set<Register> {
    params + set pc, r | 0 <= pc < |code| && r in Written(code[pc]) :: r
  }

  ghost predicate Bounded(code: Code, params: set<Register>, s: seq<State>) {
    forall pc :: 0 <= pc < |s| && s[pc].Some? ==> s[pc].value <= Universe(code, params)
  }

  // Propagation changes nothing, or it makes the measure smaller.
  lemma ShrunkMeasure(
      code: Code, params: set<Register>, s: seq<State>, queue: seq<nat>, target: nat, outgoing: set<Register>, s': seq<State>, queue': seq<nat>)
    requires Shrunk(s, queue, target, outgoing, s', queue')
    requires Bounded(code, params, s) && outgoing <= Universe(code, params)
    ensures Bounded(code, params, s')
    ensures s' == s || Measure(s', |Universe(code, params)|) < Measure(s, |Universe(code, params)|)
  {
    var bound := |Universe(code, params)|;
    assert s' == s[target := s'[target]];
    MeasureUpdate(s, bound, target, s'[target]);
    if s[target].Some? {
      SubsetSize(s'[target].value, s[target].value);
      if s' != s && |s'[target].value| == |s[target].value| {
        SameSize(s'[target].value, s[target].value);
      }
    } else {
      SubsetSize(outgoing, Universe(code, params));
    }
  }

  // ---------------------------------------------------------------- the analysis

  // Everything one propagation keeps, for the loop below.
  ghost predicate LoopInv(code: Code, params: set<Register>, s: seq<State>, queue: seq<nat>, x: set<nat>) {
    Sound(code, params, s) && Settled(code, s, queue, x) && Bounded(code, params, s)
  }

  lemma PropagatedKeeps(
      code: Code, params: set<Register>, s: seq<State>, queue: seq<nat>, x: set<nat>, pc: nat, target: nat, outgoing: set<Register>)
    requires LoopInv(code, params, s, queue, x) && target < |s| && pc < |code| && target in Successors(code, pc)
    requires Reachable(code, params, pc) && outgoing <= Universe(code, params)
    requires forall r :: r !in outgoing ==> Missable(code, params, pc, r) && r !in Written(code[pc])
    ensures var (s', queue') := Propagated(s, queue, target, outgoing);
      && Shrunk(s, queue, target, outgoing, s', queue')
      && LoopInv(code, params, s', queue', x)
      && (s' == s || Measure(s', |Universe(code, params)|) < Measure(s, |Universe(code, params)|))
  {
    var (s', queue') := Propagated(s, queue, target, outgoing);
    PropagatedShrinks(s, queue, target, outgoing);
    ShrunkSound(code, params, s, queue, pc, target, outgoing, s', queue');
    ShrunkSettled(code, s, queue, x, target, outgoing, s', queue');
    ShrunkMeasure(code, params, s, queue, target, outgoing, s', queue');
  }

  method Propagate(target: nat, outgoing: set<Register>, incoming: array<State>, worklist: seq<nat>) returns (worklist': seq<nat>)
    requires target < incoming.Length
    modifies incoming
    ensures (incoming[..], worklist') == Propagated(old(incoming[..]), worklist, target, outgoing)
  {
    worklist' := worklist;
    match incoming[target] {
      case Some(current) =>
        var previousLength := |current|;
        var kept := set r | r in current && r in outgoing;
        assert kept == current * outgoing;
        incoming[target] := Some(kept);
        if |kept| != previousLength {
          worklist' := worklist + [target];
        }
      case None =>
        incoming[target] := Some(outgoing);
        worklist' := worklist + [target];
    }
  }

  // The first register of a list that is not assigned.
  method FirstUnassigned(registers: seq<Register>, defined: set<Register>) returns (missing: Option<Register>)
    ensures missing.None? <==> forall r :: r in registers ==> r in defined
    ensures missing.Some? ==> missing.value in registers && missing.value !in defined
  {
    for i := 0 to |registers|
      invariant forall k :: 0 <= k < i ==> registers[k] in defined
    {
      if registers[i] !in defined {
        return Some(registers[i]);
      }
    }
    return None;
  }

  // What leaves an instruction is no more than some path can leave out.
  lemma OutgoingSound(code: Code, params: set<Register>, s: seq<State>, pc: nat)
    requires Sound(code, params, s) && Bounded(code, params, s) && pc < |s| && s[pc].Some?
    ensures Reachable(code, params, pc) && s[pc].value + Written(code[pc]) <= Universe(code, params)
    ensures forall r :: r !in s[pc].value + Written(code[pc]) ==> Missable(code, params, pc, r) && r !in Written(code[pc])
  {
  }

  // Once its edges are propagated, `pc` is done or it is queued again.
  lemma JumpDone(
      code: Code, s: seq<State>, queue: seq<nat>, pc: nat, target: nat, outgoing: set<Register>, s': seq<State>, queue': seq<nat>)
    requires pc < |s| == |code| && s[pc].Some? && outgoing == s[pc].value + Written(code[pc])
    requires Successors(code, pc) == [target] && !FallsOff(code, pc)
    requires Shrunk(s, queue, target, outgoing, s', queue') && Settled(code, s', queue', {pc})
    ensures Settled(code, s', queue', {})
  {
    if s'[pc] == s[pc] {
      assert EdgesDone(code, s', pc);
    } else {
      assert pc in queue';
    }
  }

  lemma BranchDone(
      code: Code, s: seq<State>, queue: seq<nat>, pc: nat, yes: nat, no: nat, outgoing: set<Register>,
      s1: seq<State>, queue1: seq<nat>, s2: seq<State>, queue2: seq<nat>)
    requires pc < |s| == |code| && s[pc].Some? && outgoing == s[pc].value + Written(code[pc])
    requires Successors(code, pc) == [yes, no] && !FallsOff(code, pc)
    requires Shrunk(s, queue, yes, outgoing, s1, queue1) && Shrunk(s1, queue1, no, outgoing, s2, queue2)
    requires Settled(code, s2, queue2, {pc})
    ensures Settled(code, s2, queue2, {})
  {
    if s2[pc] == s[pc] {
      assert s2[yes].value <= outgoing && s2[no].value <= outgoing;
      assert EdgesDone(code, s2, pc);
    } else {
      assert pc in queue2;
    }
  }

  function Outgoing(code: Code, s: seq<State>, pc: nat): set<Register>
    requires pc < |code| == |s| && s[pc].Some?
  {
    s[pc].value + Written(code[pc])
  }

  // The edges of `pc` propagated: to nobody, to one successor or to two.
  function EdgesPropagated(code: Code, s: seq<State>, queue: seq<nat>, pc: nat): (seq<State>, seq<nat>)
    requires TargetsInRange(code) && pc < |code| == |s| && s[pc].Some? && !FallsOff(code, pc)
  {
    var targets := Successors(code, pc);
    if targets == [] then (s, queue)
    else
      var (s1, queue1) := Propagated(s, queue, targets[0], Outgoing(code, s, pc));
      if |targets| == 1 then (s1, queue1) else Propagated(s1, queue1, targets[1], Outgoing(code, s, pc))
  }

  // One turn of the worklist keeps the invariant and makes progress.
  lemma EdgesPropagatedKeeps(code: Code, params: set<Register>, s: seq<State>, queue: seq<nat>, pc: nat)
    requires TargetsInRange(code) && pc < |code| == |s| && s[pc].Some? && !FallsOff(code, pc)
    requires LoopInv(code, params, s, queue, {pc})
    ensures var (s', queue') := EdgesPropagated(code, s, queue, pc);
      && LoopInv(code, params, s', queue', {})
      && ((s' == s && queue' == queue) || Measure(s', |Universe(code, params)|) < Measure(s, |Universe(code, params)|))
  {
    var targets, outgoing := Successors(code, pc), Outgoing(code, s, pc);
    OutgoingSound(code, params, s, pc);
    if targets == [] {
      NoEdgesDone(code, s, queue, pc);
    } else {
      PropagatedKeeps(code, params, s, queue, {pc}, pc, targets[0], outgoing);
      var (s1, queue1) := Propagated(s, queue, targets[0], outgoing);
      if |targets| == 1 {
        JumpDone(code, s, queue, pc, targets[0], outgoing, s1, queue1);
      } else {
        PropagatedKeeps(code, params, s1, queue1, {pc}, pc, targets[1], outgoing);
        var (s2, queue2) := Propagated(s1, queue1, targets[1], outgoing);
        BranchDone(code, s, queue, pc, targets[0], targets[1], outgoing, s1, queue1, s2, queue2);
      }
    }
  }

  lemma NoEdgesDone(code: Code, s: seq<State>, queue: seq<nat>, pc: nat)
    requires pc < |s| == |code| && s[pc].Some? && !FallsOff(code, pc) && Successors(code, pc) == []
    requires Settled(code, s, queue, {pc})
    ensures Settled(code, s, queue, {})
  {
    assert EdgesDone(code, s, pc);
  }

  // One turn of the worklist: the edges of `pc` are propagated to its successors.
  method PropagateEdges(code: Code, pc: nat, incoming: array<State>, worklist: seq<nat>)
    returns (worklist': seq<nat>, fallsOff: bool)
    requires TargetsInRange(code) && incoming.Length == |code| && pc < |code| && incoming[pc].Some?
    modifies incoming
    ensures fallsOff <==> FallsOff(code, pc)
    ensures !fallsOff ==> (incoming[..], worklist') == EdgesPropagated(code, old(incoming[..]), worklist, pc)
  {
    worklist', fallsOff := worklist, false;
    var outgoing := incoming[pc].value;
    var written := WrittenRegister(code[pc]);
    if written.Some? {
      outgoing := outgoing + {written.value};
    }
    assert outgoing == Outgoing(code, incoming[..], pc);
    if code[pc].Jump? {
      worklist' := Propagate(code[pc].target, outgoing, incoming, worklist');
    } else if code[pc].Branch? {
      worklist' := Propagate(code[pc].yes, outgoing, incoming, worklist');
      worklist' := Propagate(code[pc].no, outgoing, incoming, worklist');
    } else if !code[pc].Return? {
      var next := pc + 1;
      if next == |code| {
        fallsOff := true;
      } else {
        worklist' := Propagate(next, outgoing, incoming, worklist');
      }
    }
  }

  // The second pass: the reads of every instruction that has a state.
  method VerifyReads(code: Code, incoming: array<State>) returns (r: Result<(), AssignmentError>)
    requires incoming.Length == |code|
    ensures r.Ok? ==> forall pc :: 0 <= pc < |code| && incoming[pc].Some? ==> forall x :: x in Reads(code[pc]) ==> x in incoming[pc].value
    ensures r.Err? ==>
      && r.error.ReadsUnassigned? && r.error.pc < |code| && incoming[r.error.pc].Some?
      && r.error.register in Reads(code[r.error.pc]) && r.error.register !in incoming[r.error.pc].value
  {
    for pc := 0 to |code|
      invariant forall q :: 0 <= q < pc && incoming[q].Some? ==> forall x :: x in Reads(code[q]) ==> x in incoming[q].value
    {
      if incoming[pc].Some? {
        var missing := FirstUnassigned(Reads(code[pc]), incoming[pc].value);
        if missing.Some? {
          return Err(ReadsUnassigned(pc, missing.value));
        }
      }
    }
    return Ok(());
  }

  // The analysis accepts exactly the code in which no path from the entry falls
  // off the end or reads a register that the path has not assigned.
  method VerifyDefiniteAssignment(code: Code, params: set<Register>) returns (r: Result<(), AssignmentError>)
    requires TargetsInRange(code)
    ensures r.Ok? <==> DefinitelyAssigned(code, params)
  {
    if |code| == 0 {
      return Err(NoReturn);
    }
    var incoming := new State[|code|](_ => None);
    incoming[0] := Some(params);
    var worklist := [0];
    StartInv(code, params, incoming[..], worklist);
    while |worklist| > 0
      invariant LoopInv(code, params, incoming[..], worklist, {})
      decreases Measure(incoming[..], |Universe(code, params)|), |worklist|
    {
      var pc := worklist[0];
      PoppedSettled(code, incoming[..], worklist);
      worklist := worklist[1..];
      if FallsOff(code, pc) {
        FallingOffIsUnsafe(code, params, pc);
      } else {
        EdgesPropagatedKeeps(code, params, incoming[..], worklist, pc);
      }
      var fallsOff;
      worklist, fallsOff := PropagateEdges(code, pc, incoming, worklist);
      if fallsOff {
        return Err(FallsOffEnd(pc));
      }
    }
    r := VerifyReads(code, incoming);
    if r.Err? {
      MissingIsUnsafe(code, params, incoming[..], r.error.pc, r.error.register);
    } else {
      FixpointIsSafe(code, params, incoming[..]);
    }
  }

  lemma StartInv(code: Code, params: set<Register>, s: seq<State>, queue: seq<nat>)
    requires |s| == |code| > 0 && s[0] == Some(params) && queue == [0]
    requires forall pc :: 0 < pc < |s| ==> s[pc].None?
    ensures LoopInv(code, params, s, queue, {})
  {
    assert Arrives(code, params, 0, params, 0);
    assert 0 in queue;
  }

  lemma PoppedSettled(code: Code, s: seq<State>, queue: seq<nat>)
    requires Settled(code, s, queue, {}) && |queue| > 0
    ensures Settled(code, s, queue[1..], {queue[0]})
  {
    assert queue == [queue[0]] + queue[1..];
  }

  lemma FallingOffIsUnsafe(code: Code, params: set<Register>, pc: nat)
    requires pc < |code| && FallsOff(code, pc) && Reachable(code, params, pc)
    ensures !DefinitelyAssigned(code, params)
  {
    var defined: set<Register>, n: nat :| Arrives(code, params, pc, defined, n);
    assert !SafeAt(code, pc, defined);
  }

  lemma MissingIsUnsafe(code: Code, params: set<Register>, s: seq<State>, pc: nat, r: Register)
    requires Sound(code, params, s) && pc < |s| && s[pc].Some? && r in Reads(code[pc]) && r !in s[pc].value
    ensures !DefinitelyAssigned(code, params)
  {
    assert Missable(code, params, pc, r);
    var defined: set<Register>, n: nat :| Arrives(code, params, pc, defined, n) && r !in defined;
    assert !SafeAt(code, pc, defined);
  }

  lemma FixpointIsSafe(code: Code, params: set<Register>, s: seq<State>)
    requires Sound(code, params, s) && Settled(code, s, [], {})
    requires forall pc :: 0 <= pc < |s| && s[pc].Some? ==> forall x :: x in Reads(code[pc]) ==> x in s[pc].value
    ensures DefinitelyAssigned(code, params)
  {
    forall pc: nat, defined: set<Register>, n: nat | Arrives(code, params, pc, defined, n) ensures SafeAt(code, pc, defined) {
      FixpointBelowPaths(code, params, s, pc, defined, n);
      assert EdgesDone(code, s, pc);
    }
  }
}
