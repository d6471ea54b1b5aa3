/**
  The native run of a loop whose lists are found by reference
  (src/adaptive_v2/integration.rs, `execute_dynamic_object_loop_once`): all lists and
  tuples that the inputs reach are passed, and the changed ones written back together.
 */
module DynamicLoop {
  import opened MachineWords
  import opened Wrappers
  import opened Values
  import opened Sequences
  import opened ObjectHeaps
  import opened HeapObjects
  import opened LoopCommit

  datatype DynamicState = DynamicState(reference: ObjectRef, words: seq<int>, version: nat, strategy: Strategy, list: bool)

  function WordOf(native: Native, v: Value): Option<int> {
    match v
    case SmallInt(i) => Some(i)
    case Float(bits) => Some(Signed64(bits))
    case Bool(b) => Some(if b then 1 else 0)
    case Object(r) => native.encode(r)
    case _ => None
  }

  predicate AllWords(native: Native, vs: seq<Value>) {
    forall i :: 0 <= i < |vs| ==> WordOf(native, vs[i]).Some?
  }

  function WordsOf(native: Native, vs: seq<Value>): seq<int>
    requires AllWords(native, vs)
  {
    seq(|vs|, i requires 0 <= i < |vs| => WordOf(native, vs[i]).value)
  }

  predicate IsSequence(h: Heap, r: ObjectRef) {
    Get(h, r).Ok? && (Get(h, r).value.List? || Get(h, r).value.Tuple?)
  }

  // What is recorded of a list or tuple.
  predicate Describes(h: Heap, native: Native, s: DynamicState) {
    && IsSequence(h, s.reference)
    && var obj := Get(h, s.reference).value;
       && AllWords(native, Contents(obj.items)) && s.words == WordsOf(native, Contents(obj.items))
       && s.version == obj.version && s.strategy == StrategyOf(obj.items) && s.list == obj.List?
  }

  predicate AllDescribe(h: Heap, native: Native, states: seq<DynamicState>) {
    forall k :: 0 <= k < |states| ==> Describes(h, native, states[k])
  }

  function References(vs: seq<Value>): seq<ObjectRef> {
    if vs == [] then []
    else References(vs[..|vs| - 1]) + if vs[|vs| - 1].Object? then [vs[|vs| - 1].reference] else []
  }

  function Recorded(states: seq<DynamicState>): set<ObjectRef> {
    set k | 0 <= k < |states| :: states[k].reference
  }

  // What a list or tuple holds references to.
  function Children(h: Heap, r: ObjectRef): seq<ObjectRef> {
    if IsSequence(h, r) then References(Contents(Get(h, r).value.items)) else []
  }

  // From a root, each list or tuple on the way holding the next reference.
  ghost predicate Path(h: Heap, roots: seq<ObjectRef>, path: seq<ObjectRef>) {
    && path != [] && path[0] in roots
    && forall i :: 0 <= i < |path| - 1 ==> path[i + 1] in Children(h, path[i])
  }

  ghost predicate Reaches(h: Heap, roots: seq<ObjectRef>, r: ObjectRef) {
    exists path :: Path(h, roots, path) && path[|path| - 1] == r
  }

  ghost predicate AllReached(h: Heap, roots: seq<ObjectRef>, within: set<ObjectRef>) {
    forall x :: x in within ==> Reaches(h, roots, x)
  }

  // An object that cannot be passed: it is gone, or holds a value without a word.
  predicate Unpassable(h: Heap, native: Native, r: ObjectRef) {
    Get(h, r).Err? || (IsSequence(h, r) && !AllWords(native, Contents(Get(h, r).value.items)))
  }

  lemma RootReached(h: Heap, roots: seq<ObjectRef>, r: ObjectRef)
    requires r in roots
    ensures Reaches(h, roots, r)
  {
    assert Path(h, roots, [r]);
  }

  lemma RootsReached(h: Heap, roots: seq<ObjectRef>)
    ensures AllReached(h, roots, Queued(roots))
  {
    forall x | x in Queued(roots) ensures Reaches(h, roots, x) {
      RootReached(h, roots, x);
    }
  }

  lemma ChildReached(h: Heap, roots: seq<ObjectRef>, r: ObjectRef, child: ObjectRef)
    requires Reaches(h, roots, r) && child in Children(h, r)
    ensures Reaches(h, roots, child)
  {
    var path :| Path(h, roots, path) && path[|path| - 1] == r;
    assert Path(h, roots, path + [child]);
  }

  // One step of the search goes from what is reached to what is reached.
  lemma NextReached(h: Heap, roots: seq<ObjectRef>, visited: set<ObjectRef>, queue: seq<ObjectRef>)
    requires queue != [] && AllReached(h, roots, visited + Queued(queue))
    ensures Reaches(h, roots, queue[0])
    ensures AllReached(h, roots, visited + Queued(queue[1..]))
    ensures AllReached(h, roots, visited + {queue[0]} + Queued(queue[1..]))
    ensures AllReached(h, roots, visited + {queue[0]} + Queued(queue[1..] + Children(h, queue[0])))
  {
    hide Path, Reaches, Children;
    assert queue[0] in Queued(queue);
    forall x | x in visited + {queue[0]} + Queued(queue[1..] + Children(h, queue[0])) ensures Reaches(h, roots, x) {
      if x in Children(h, queue[0]) {
        ChildReached(h, roots, queue[0], x);
      } else {
        assert x in visited + Queued(queue);
      }
    }
  }

  // Everything that the recorded lists and tuples hold is recorded too.
  ghost predicate HoldsAll(roots: seq<ObjectRef>, within: set<ObjectRef>) {
    forall i :: 0 <= i < |roots| ==> roots[i] in within
  }

  ghost predicate ClosedUnder(h: Heap, states: seq<DynamicState>, within: set<ObjectRef>) {
    forall k :: 0 <= k < |states| ==> HoldsAll(Children(h, states[k].reference), within)
  }

  function AllReferences(h: Heap): set<ObjectRef> {
    set s | 0 <= s < |h.slots| :: ObjectRef(h.heapId, s, h.slots[s].generation)
  }

  function Queued(queue: seq<ObjectRef>): set<ObjectRef> {
    set q | q in queue
  }

  predicate DistinctStates(states: seq<DynamicState>) {
    forall j, k :: 0 <= j < k < |states| ==> states[j].reference != states[k].reference
  }

  // The search under way: what was seen is recorded, what is recorded was seen, and
  // all that it holds was seen or waits.
  ghost predicate Searching(
      h: Heap, native: Native, roots: seq<ObjectRef>, visited: set<ObjectRef>, queue: seq<ObjectRef>, states: seq<DynamicState>)
  {
    && visited <= AllReferences(h)
    && AllDescribe(h, native, states) && DistinctStates(states)
    && Recorded(states) <= visited
    && (forall x :: x in visited ==> IsLive(h, x) && (IsSequence(h, x) ==> x in Recorded(states)))
    && HoldsAll(roots, visited + Queued(queue))
    && ClosedUnder(h, states, visited + Queued(queue))
  }

  lemma Started(h: Heap, native: Native, roots: seq<ObjectRef>)
    ensures Searching(h, native, roots, {}, roots, [])
  {
  }

  lemma SkipSeen(h: Heap, native: Native, roots: seq<ObjectRef>, visited: set<ObjectRef>, queue: seq<ObjectRef>, states: seq<DynamicState>)
    requires queue != [] && Searching(h, native, roots, visited, queue, states) && queue[0] in visited
    ensures Searching(h, native, roots, visited, queue[1..], states)
  {
    assert visited + Queued(queue) == visited + Queued(queue[1..]);
  }

  lemma PassOther(h: Heap, native: Native, roots: seq<ObjectRef>, visited: set<ObjectRef>, queue: seq<ObjectRef>, states: seq<DynamicState>)
    requires queue != [] && Searching(h, native, roots, visited, queue, states)
    requires IsLive(h, queue[0]) && !IsSequence(h, queue[0])
    ensures Searching(h, native, roots, visited + {queue[0]}, queue[1..], states)
  {
    assert visited + Queued(queue) == visited + {queue[0]} + Queued(queue[1..]);
    assert queue[0] in AllReferences(h);
  }

  lemma RecordNext(
      h: Heap, native: Native, roots: seq<ObjectRef>, visited: set<ObjectRef>, queue: seq<ObjectRef>, states: seq<DynamicState>,
      state: DynamicState, children: seq<ObjectRef>)
    requires queue != [] && Searching(h, native, roots, visited, queue, states)
    requires state.reference == queue[0] && queue[0] !in visited && Describes(h, native, state)
    requires children == Children(h, queue[0])
    ensures Searching(h, native, roots, visited + {queue[0]}, queue[1..] + children, states + [state])
  {
    var narrow, rest := visited + Queued(queue), queue[1..] + children;
    var wide := visited + {queue[0]} + Queued(rest);
    forall i | 0 <= i < |children| ensures children[i] in wide {
      assert rest[|queue| - 1 + i] == children[i];
    }
    forall x | x in narrow ensures x in wide {
      if x in Queued(queue) && x != queue[0] {
        var i :| 0 <= i < |queue| && queue[i] == x;
        assert rest[i - 1] == x;
      }
    }
    RecordOne(h, states, state, narrow, wide, children);
    assert queue[0] in AllReferences(h);
    DistinctAppend(states, state, visited);
    DescribeAppend(h, native, states, state);
  }

  lemma DistinctAppend(states: seq<DynamicState>, state: DynamicState, visited: set<ObjectRef>)
    requires DistinctStates(states) && Recorded(states) <= visited && state.reference !in visited
    ensures DistinctStates(states + [state])
  {
    forall k | 0 <= k < |states| ensures states[k].reference != state.reference {
      assert states[k].reference in Recorded(states);
    }
  }

  lemma DescribeAppend(h: Heap, native: Native, states: seq<DynamicState>, state: DynamicState)
    requires AllDescribe(h, native, states) && Describes(h, native, state)
    ensures AllDescribe(h, native, states + [state])
  {
  }

  // Breadth first from the inputs: exactly the lists and tuples that they reach, each
  // once, unless one of the objects reached cannot be passed.
  method Collect(heap: ObjectHeap, native: Native, inputs: seq<Value>) returns (r: Option<seq<DynamicState>>)
    ensures r.None? <==> exists x :: Reaches(heap.View(), References(inputs), x) && Unpassable(heap.View(), native, x)
    ensures r.Some? ==> Collected(heap.View(), native, References(inputs), r.value)
  {
    hide Searching, Describes, AllReached, Reaches, Children, Collected;
    ghost var h, roots := heap.View(), References(inputs);
    var queue := References(inputs);
    var visited: set<ObjectRef> := {};
    var states: seq<DynamicState> := [];
    Started(h, native, roots);
    RootsReached(h, roots);
    assert visited + Queued(queue) == Queued(roots);
    while queue != []
      invariant Searching(h, native, roots, visited, queue, states)
      invariant AllReached(h, roots, visited + Queued(queue))
      decreases |AllReferences(h) - visited|, |queue|
    {
      var next := queue[0];
      NextReached(h, roots, visited, queue);
      if next in visited {
        SkipSeen(h, native, roots, visited, queue, states);
        queue := queue[1..];
      } else {
        var obj := Get(heap.View(), next);
        if obj.Err? {
          assert Unpassable(h, native, next);
          return None;
        }
        FewerUnseen(h, visited, next);
        if obj.value.List? || obj.value.Tuple? {
          var values := Contents(obj.value.items);
          if !AllWords(native, values) {
            assert Unpassable(h, native, next);
            return None;
          }
          var state := DynamicState(next, WordsOf(native, values), obj.value.version, StrategyOf(obj.value.items), obj.value.List?);
          Describing(h, native, state);
          RecordNext(h, native, roots, visited, queue, states, state, References(values));
          queue := queue[1..] + References(values);
          states := states + [state];
        } else {
          PassOther(h, native, roots, visited, queue, states);
          queue := queue[1..];
        }
        visited := visited + {next};
      }
    }
    SearchIsExact(h, native, roots, visited, states);
    return Some(states);
  }

  // Exactly the lists and tuples that the roots reach, each described and listed once.
  ghost predicate Collected(h: Heap, native: Native, roots: seq<ObjectRef>, states: seq<DynamicState>) {
    && AllDescribe(h, native, states) && DistinctStates(states)
    && forall x :: x in Recorded(states) <==> Reaches(h, roots, x) && IsSequence(h, x)
  }

  // Whatever a path leads to was seen once nothing waits any more.
  lemma {:induction false} PathSeen(
      h: Heap, native: Native, roots: seq<ObjectRef>, seen: set<ObjectRef>, states: seq<DynamicState>, path: seq<ObjectRef>)
    requires Searching(h, native, roots, seen, [], states) && Path(h, roots, path)
    ensures path[|path| - 1] in seen
    decreases |path|
  {
    assert seen + Queued([]) == seen;
    if |path| == 1 {
      var i :| 0 <= i < |roots| && roots[i] == path[0];
    } else {
      var before := path[..|path| - 1];
      PathSeen(h, native, roots, seen, states, before);
      var holder, last := before[|before| - 1], path[|path| - 1];
      assert last in Children(h, holder) by {
        assert path[|path| - 2 + 1] in Children(h, path[|path| - 2]);
      }
      assert holder in Recorded(states);
      var k :| 0 <= k < |states| && states[k].reference == holder;
      var i :| 0 <= i < |Children(h, holder)| && Children(h, holder)[i] == last;
    }
  }

  lemma SearchIsExact(h: Heap, native: Native, roots: seq<ObjectRef>, seen: set<ObjectRef>, states: seq<DynamicState>)
    requires Searching(h, native, roots, seen, [], states) && AllReached(h, roots, seen + Queued([]))
    ensures Collected(h, native, roots, states)
    ensures forall x :: Reaches(h, roots, x) ==> !Unpassable(h, native, x)
  {
    forall x | Reaches(h, roots, x) ensures x in seen {
      var path :| Path(h, roots, path) && path[|path| - 1] == x;
      PathSeen(h, native, roots, seen, states, path);
    }
    forall x | x in Recorded(states) ensures Reaches(h, roots, x) && IsSequence(h, x) {
      var k :| 0 <= k < |states| && states[k].reference == x;
      assert Describes(h, native, states[k]);
      assert x in seen + Queued([]);
    }
    forall x | Reaches(h, roots, x) ensures !Unpassable(h, native, x) {
      if IsSequence(h, x) {
        assert x in Recorded(states);
        var k :| 0 <= k < |states| && states[k].reference == x;
        assert Describes(h, native, states[k]);
      }
    }
  }

  lemma Describing(h: Heap, native: Native, s: DynamicState)
    requires IsSequence(h, s.reference)
    requires AllWords(native, Contents(Get(h, s.reference).value.items))
    requires var obj := Get(h, s.reference).value;
      s == DynamicState(s.reference, WordsOf(native, Contents(obj.items)), obj.version, StrategyOf(obj.items), obj.List?)
    ensures Describes(h, native, s)
    ensures Children(h, s.reference) == References(Contents(Get(h, s.reference).value.items))
  {
  }

  lemma FewerUnseen(h: Heap, visited: set<ObjectRef>, next: ObjectRef)
    requires IsLive(h, next) && next !in visited
    ensures |AllReferences(h) - (visited + {next})| < |AllReferences(h) - visited|
  {
    assert next in AllReferences(h);
    assert AllReferences(h) - (visited + {next}) == (AllReferences(h) - visited) - {next};
  }

  lemma RecordOne(h: Heap, states: seq<DynamicState>, state: DynamicState, narrow: set<ObjectRef>, wide: set<ObjectRef>, children: seq<ObjectRef>)
    requires ClosedUnder(h, states, narrow) && narrow <= wide && HoldsAll(children, wide)
    requires children == Children(h, state.reference)
    ensures ClosedUnder(h, states + [state], wide)
    ensures Recorded(states + [state]) == Recorded(states) + {state.reference}
  {
    var all := states + [state];
    forall k | 0 <= k < |all| ensures HoldsAll(Children(h, all[k].reference), wide) {
      if k < |states| {
        assert all[k] == states[k];
      }
    }
    assert all[|states|] == state;
    forall k | 0 <= k < |states| ensures states[k].reference in Recorded(all) {
      assert all[k] == states[k];
    }
  }

  // --------------------------------------------------------------------- the run

  predicate Changed(s: DynamicState, transaction: Option<seq<int>>) {
    transaction.Some? && transaction.value != s.words
  }

  function CommitFor(s: DynamicState, words: seq<int>): Commit {
    Commit(s.reference, s.version, Decoded(s.strategy.F64Strategy?, words))
  }

  // The write-backs of the changed lists of one strategy.
  function ChangedOf(states: seq<DynamicState>, transactions: seq<Option<seq<int>>>, strategy: Strategy): seq<Commit> {
    if states == [] || transactions == [] then []
    else
      (if Changed(states[0], transactions[0]) && states[0].strategy == strategy then [CommitFor(states[0], transactions[0].value)] else [])
      + ChangedOf(states[1..], transactions[1..], strategy)
  }

  // Only lists of integers or of floats can be written back.
  predicate Writable(states: seq<DynamicState>, transactions: seq<Option<seq<int>>>) {
    forall k :: 0 <= k < |states| && k < |transactions| && Changed(states[k], transactions[k]) ==>
      states[k].strategy.F64Strategy? || states[k].strategy.I64Strategy?
  }

  lemma {:induction false} ChangedAt(states: seq<DynamicState>, transactions: seq<Option<seq<int>>>, strategy: Strategy, k: nat) returns (i: nat)
    requires k < |states| && k < |transactions| && Changed(states[k], transactions[k]) && states[k].strategy == strategy
    ensures i < |ChangedOf(states, transactions, strategy)|
    ensures ChangedOf(states, transactions, strategy)[i] == CommitFor(states[k], transactions[k].value)
  {
    if k == 0 {
      i := 0;
    } else {
      i := ChangedAt(states[1..], transactions[1..], strategy, k - 1);
      i := i + |ChangedOf(states, transactions, strategy)| - |ChangedOf(states[1..], transactions[1..], strategy)|;
    }
  }

  lemma {:induction false} ChangedFrom(states: seq<DynamicState>, transactions: seq<Option<seq<int>>>, strategy: Strategy, i: nat) returns (k: nat)
    requires i < |ChangedOf(states, transactions, strategy)|
    ensures k < |states| && k < |transactions| && Changed(states[k], transactions[k]) && states[k].strategy == strategy
    ensures ChangedOf(states, transactions, strategy)[i] == CommitFor(states[k], transactions[k].value)
  {
    var rest := ChangedOf(states[1..], transactions[1..], strategy);
    var own := |ChangedOf(states, transactions, strategy)| - |rest|;
    if i < own {
      k := 0;
    } else {
      k := ChangedFrom(states[1..], transactions[1..], strategy, i - own);
      k := k + 1;
    }
  }

  // Two changes of one strategy are two write-backs, in order.
  lemma {:induction false} ChangedPair(states: seq<DynamicState>, transactions: seq<Option<seq<int>>>, strategy: Strategy, a: nat, b: nat)
    returns (i: nat, j: nat)
    requires a < b < |states| && b < |transactions|
    requires Changed(states[a], transactions[a]) && states[a].strategy == strategy
    requires Changed(states[b], transactions[b]) && states[b].strategy == strategy
    ensures i < j < |ChangedOf(states, transactions, strategy)|
    ensures ChangedOf(states, transactions, strategy)[i] == CommitFor(states[a], transactions[a].value)
    ensures ChangedOf(states, transactions, strategy)[j] == CommitFor(states[b], transactions[b].value)
  {
    var own := |ChangedOf(states, transactions, strategy)| - |ChangedOf(states[1..], transactions[1..], strategy)|;
    if a == 0 {
      i := 0;
      j := ChangedAt(states[1..], transactions[1..], strategy, b - 1);
      j := j + own;
    } else {
      i, j := ChangedPair(states[1..], transactions[1..], strategy, a - 1, b - 1);
      i, j := i + own, j + own;
    }
  }

  lemma {:induction false} ChangedFromPair(states: seq<DynamicState>, transactions: seq<Option<seq<int>>>, strategy: Strategy, i: nat, j: nat)
    returns (a: nat, b: nat)
    requires i < j < |ChangedOf(states, transactions, strategy)|
    ensures a < b < |states| && b < |transactions|
    ensures Changed(states[a], transactions[a]) && states[a].strategy == strategy
    ensures Changed(states[b], transactions[b]) && states[b].strategy == strategy
    ensures ChangedOf(states, transactions, strategy)[i] == CommitFor(states[a], transactions[a].value)
    ensures ChangedOf(states, transactions, strategy)[j] == CommitFor(states[b], transactions[b].value)
  {
    var own := |ChangedOf(states, transactions, strategy)| - |ChangedOf(states[1..], transactions[1..], strategy)|;
    if i < own {
      a := 0;
      b := ChangedFrom(states[1..], transactions[1..], strategy, j - own);
      b := b + 1;
    } else {
      a, b := ChangedFromPair(states[1..], transactions[1..], strategy, i - own, j - own);
      a, b := a + 1, b + 1;
    }
  }

  // Changes that can be written together: lists of integers or of floats, and more than
  // one only if they are different lists of floats.
  predicate WritableTogether(states: seq<DynamicState>, transactions: seq<Option<seq<int>>>) {
    && (forall a :: 0 <= a < |states| && a < |transactions| && Changed(states[a], transactions[a]) ==>
          states[a].list && (states[a].strategy.F64Strategy? || states[a].strategy.I64Strategy?))
    && (forall a, b :: 0 <= a < b < |states| && b < |transactions| && Changed(states[a], transactions[a]) && Changed(states[b], transactions[b]) ==>
          && states[a].strategy.F64Strategy? && states[b].strategy.F64Strategy?
          && states[a].reference != states[b].reference)
  }

  // Whether the write-backs of one strategy are accepted.
  lemma ChangesAccepted(h: Heap, native: Native, states: seq<DynamicState>, transactions: seq<Option<seq<int>>>, strategy: Strategy)
    requires AllDescribe(h, native, states) && (strategy.F64Strategy? || strategy.I64Strategy?)
    requires forall k :: 0 <= k < |states| && k < |transactions| && Changed(states[k], transactions[k]) ==> states[k].strategy == strategy
    requires strategy.I64Strategy? ==> |ChangedOf(states, transactions, strategy)| <= 1
    ensures var commits := ChangedOf(states, transactions, strategy);
      (DistinctLists(commits) && forall i :: 0 <= i < |commits| ==> CurrentIn(h, commits[i]))
      <==> WritableTogether(states, transactions)
  {
    var commits := ChangedOf(states, transactions, strategy);
    if WritableTogether(states, transactions) {
      forall i, j | 0 <= i < j < |commits| ensures commits[i].reference != commits[j].reference {
        var a, b := ChangedFromPair(states, transactions, strategy, i, j);
      }
      forall i | 0 <= i < |commits| ensures CurrentIn(h, commits[i]) {
        var k := ChangedFrom(states, transactions, strategy, i);
        assert Describes(h, native, states[k]);
      }
    }
    if DistinctLists(commits) && forall i :: 0 <= i < |commits| ==> CurrentIn(h, commits[i]) {
      forall a | 0 <= a < |states| && a < |transactions| && Changed(states[a], transactions[a]) ensures states[a].list {
        var i := ChangedAt(states, transactions, strategy, a);
        assert Describes(h, native, states[a]) && CurrentIn(h, commits[i]);
      }
      forall a, b | 0 <= a < b < |states| && b < |transactions| && Changed(states[a], transactions[a]) && Changed(states[b], transactions[b])
        ensures states[a].strategy.F64Strategy? && states[a].reference != states[b].reference
      {
        var i, j := ChangedPair(states, transactions, strategy, a, b);
        assert commits[i].reference != commits[j].reference;
      }
    }
  }

  // Two integer lists, or lists of both kinds, are never written together.
  lemma MixedRefused(states: seq<DynamicState>, transactions: seq<Option<seq<int>>>)
    requires !Writable(states, transactions) || |ChangedOf(states, transactions, I64Strategy)| > 1
      || (ChangedOf(states, transactions, I64Strategy) != [] && ChangedOf(states, transactions, F64Strategy) != [])
    ensures !WritableTogether(states, transactions)
  {
    if Writable(states, transactions) {
      if |ChangedOf(states, transactions, I64Strategy)| > 1 {
        var a, b := ChangedFromPair(states, transactions, I64Strategy, 0, 1);
      } else {
        var a := ChangedFrom(states, transactions, I64Strategy, 0);
        var b := ChangedFrom(states, transactions, F64Strategy, 0);
        assert a < b || b < a;
      }
    }
  }

  ghost predicate NoChange(r: ObjectRef, states: seq<DynamicState>, transactions: seq<Option<seq<int>>>) {
    forall k :: 0 <= k < |states| && k < |transactions| && Changed(states[k], transactions[k]) ==> states[k].reference != r
  }

  // Every changed transaction is in its list, and no other object has changed.
  ghost predicate ChangesWritten(h: Heap, h': Heap, states: seq<DynamicState>, transactions: seq<Option<seq<int>>>) {
    && (forall k :: 0 <= k < |states| && k < |transactions| && Changed(states[k], transactions[k]) ==>
          && Get(h', states[k].reference).Ok?
          && HoldsWords(Get(h', states[k].reference).value, states[k].strategy.F64Strategy?, transactions[k].value)
          && (states[k].version < VERSION_MAX ==> Get(h', states[k].reference).value.version == states[k].version + 1))
    && (forall r :: IsLive(h, r) && NoChange(r, states, transactions) ==> Get(h', r) == Get(h, r))
  }

  lemma WroteChanges(h: Heap, h': Heap, states: seq<DynamicState>, transactions: seq<Option<seq<int>>>, strategy: Strategy)
    requires WroteAll(h, h', ChangedOf(states, transactions, strategy))
    requires forall k :: 0 <= k < |states| && k < |transactions| && Changed(states[k], transactions[k]) ==> states[k].strategy == strategy
    ensures ChangesWritten(h, h', states, transactions)
  {
    var commits := ChangedOf(states, transactions, strategy);
    forall k | 0 <= k < |states| && k < |transactions| && Changed(states[k], transactions[k])
      ensures Get(h', states[k].reference) == Ok(Committed(CommitFor(states[k], transactions[k].value)))
      ensures HoldsWords(Committed(CommitFor(states[k], transactions[k].value)), states[k].strategy.F64Strategy?, transactions[k].value)
      ensures states[k].version < VERSION_MAX ==>
        Committed(CommitFor(states[k], transactions[k].value)).version == states[k].version + 1
    {
      CommittedHolds(CommitFor(states[k], transactions[k].value));
      var i := ChangedAt(states, transactions, strategy, k);
    }
    forall r | IsLive(h, r) && NoChange(r, states, transactions) ensures Get(h', r) == Get(h, r) {
      forall i | 0 <= i < |commits| ensures commits[i].reference != r {
        var k := ChangedFrom(states, transactions, strategy, i);
      }
    }
  }

  // If no list of the other strategy changed, all changes are of this one.
  lemma OnlyStrategy(states: seq<DynamicState>, transactions: seq<Option<seq<int>>>, strategy: Strategy, other: Strategy)
    requires Writable(states, transactions) && ChangedOf(states, transactions, other) == []
    requires (strategy == F64Strategy && other == I64Strategy) || (strategy == I64Strategy && other == F64Strategy)
    ensures forall k :: 0 <= k < |states| && k < |transactions| && Changed(states[k], transactions[k]) ==> states[k].strategy == strategy
  {
    forall k | 0 <= k < |states| && k < |transactions| && Changed(states[k], transactions[k]) ensures states[k].strategy == strategy {
      if states[k].strategy == other {
        var i := ChangedAt(states, transactions, other, k);
      }
    }
  }

  method WriteChanges(heap: ObjectHeap, ghost native: Native, states: seq<DynamicState>, transactions: seq<Option<seq<int>>>) returns (ok: bool)
    requires ObjectHeaps.Valid(heap.View()) && AllDescribe(heap.View(), native, states)
    modifies heap`slots
    ensures ObjectHeaps.Valid(heap.View())
    ensures ok <==> WritableTogether(states, transactions)
    ensures ok ==> ChangesWritten(old(heap.View()), heap.View(), states, transactions)
    ensures !ok ==> heap.View() == old(heap.View())
  {
    hide ChangesWritten, AllDescribe, WritableTogether, ChangedOf, AllHold;
    if !Writable(states, transactions) {
      MixedRefused(states, transactions);
      return false;
    }
    var floats, integers := ChangedOf(states, transactions, F64Strategy), ChangedOf(states, transactions, I64Strategy);
    if (floats != [] && integers != []) || |integers| > 1 {
      MixedRefused(states, transactions);
      return false;
    }
    var strategy := if floats != [] then F64Strategy else I64Strategy;
    var commits := if floats != [] then floats else integers;
    OnlyStrategy(states, transactions, strategy, if floats != [] then I64Strategy else F64Strategy);
    ghost var h := heap.View();
    ChangesAccepted(h, native, states, transactions, strategy);
    var committed := heap.CommitSnapshots(commits);
    ok := committed == Ok(true);
    if ok {
      WroteValid(h, heap.View(), commits);
      WroteChanges(h, heap.View(), states, transactions, strategy);
    }
  }

  // The storages that are inputs, each with the recorded state of the list it names.
  ghost predicate FixedMatch(native: Native, inputs: seq<Value>, states: seq<DynamicState>, fixed: seq<DynamicState>) {
    forall i :: 0 <= i < |fixed| && i < |native.storages| ==>
      && native.storages[i].0 < |inputs| && inputs[native.storages[i].0] == Object(fixed[i].reference)
      && fixed[i] in states
  }

  predicate Findable(inputs: seq<Value>, states: seq<DynamicState>, input: nat) {
    input < |inputs| && inputs[input].Object? && inputs[input].reference in Recorded(states)
  }

  method FindFixed(native: Native, inputs: seq<Value>, states: seq<DynamicState>) returns (r: Option<seq<DynamicState>>)
    ensures r.Some? <==> forall i :: 0 <= i < |native.storages| ==> Findable(inputs, states, native.storages[i].0)
    ensures r.Some? ==> |r.value| == |native.storages| && FixedMatch(native, inputs, states, r.value)
  {
    var fixed: seq<DynamicState> := [];
    for i := 0 to |native.storages|
      invariant |fixed| == i && FixedMatch(native, inputs, states, fixed)
      invariant forall j :: 0 <= j < i ==> Findable(inputs, states, native.storages[j].0)
    {
      var input := native.storages[i].0;
      if input >= |inputs| || !inputs[input].Object? {
        assert !Findable(inputs, states, native.storages[i].0);
        return None;
      }
      var k := 0;
      while k < |states| && states[k].reference != inputs[input].reference
        invariant k <= |states| && forall j :: 0 <= j < k ==> states[j].reference != inputs[input].reference
      {
        k := k + 1;
      }
      if k == |states| {
        assert !Findable(inputs, states, native.storages[i].0);
        return None;
      }
      fixed := fixed + [states[k]];
    }
    return Some(fixed);
  }

  // The states of all other lists and tuples, in the order in which they were found.
  function Others(states: seq<DynamicState>, fixed: set<ObjectRef>): seq<DynamicState> {
    if states == [] then []
    else
      var last := |states| - 1;
      Others(states[..last], fixed) + if states[last].reference in fixed then [] else [states[last]]
  }

  lemma {:induction false} OthersAre(states: seq<DynamicState>, fixed: set<ObjectRef>)
    ensures forall s :: s in Others(states, fixed) <==> s in states && s.reference !in fixed
    ensures DistinctStates(states) ==> DistinctStates(Others(states, fixed))
  {
    if states != [] {
      var before := states[..|states| - 1];
      OthersAre(before, fixed);
      if DistinctStates(states) {
        var others := Others(before, fixed);
        forall k | 0 <= k < |others| ensures others[k].reference != states[|states| - 1].reference {
          assert others[k] in before;
        }
      }
    }
  }

  method WithoutFixed(states: seq<DynamicState>, fixed: seq<DynamicState>) returns (others: seq<DynamicState>)
    ensures others == Others(states, Recorded(fixed))
  {
    others := [];
    for i := 0 to |states|
      invariant others == Others(states[..i], Recorded(fixed))
    {
      assert states[..i + 1][..i] == states[..i];
      if states[i].reference !in Recorded(fixed) {
        others := others + [states[i]];
      }
    }
    assert states[..|states|] == states;
  }

  // What native code gets: the named storages, and every other list or tuple that the
  // inputs reach, once.
  ghost predicate PassesAll(h: Heap, native: Native, inputs: seq<Value>, fixed: seq<DynamicState>, others: seq<DynamicState>) {
    exists states :: Collected(h, native, References(inputs), states) && PassesStates(native, inputs, states, fixed, others)
  }

  ghost predicate PassesStates(
      native: Native, inputs: seq<Value>, states: seq<DynamicState>, fixed: seq<DynamicState>, others: seq<DynamicState>)
  {
    && |fixed| == |native.storages| && FixedMatch(native, inputs, states, fixed)
    && others == Others(states, Recorded(fixed))
  }

  // Together they are exactly the lists and tuples that the inputs reach.
  lemma PassedIsReached(h: Heap, native: Native, inputs: seq<Value>, fixed: seq<DynamicState>, others: seq<DynamicState>)
    requires PassesAll(h, native, inputs, fixed, others)
    ensures AllDescribe(h, native, fixed + others) && DistinctStates(others)
    ensures Recorded(fixed) !! Recorded(others)
    ensures forall r :: r in Recorded(fixed + others) <==> Reaches(h, References(inputs), r) && IsSequence(h, r)
    ensures forall i :: 0 <= i < |fixed| ==> inputs[native.storages[i].0] == Object(fixed[i].reference)
  {
    hide Reaches, Describes, StrategyOf, Contents;
    var states: seq<DynamicState> :| Collected(h, native, References(inputs), states) && PassesStates(native, inputs, states, fixed, others);
    OthersAre(states, Recorded(fixed));
    var all := fixed + others;
    forall k | 0 <= k < |all| ensures all[k] in states && Describes(h, native, all[k]) {
      assert all[k] in fixed || all[k] in others;
      var j :| 0 <= j < |states| && states[j] == all[k];
    }
    RecordedTogether(states, fixed, others);
  }

  // Nothing that was found is missing among the storages and the others.
  lemma RecordedTogether(states: seq<DynamicState>, fixed: seq<DynamicState>, others: seq<DynamicState>)
    requires forall s :: s in states && s.reference !in Recorded(fixed) ==> s in others
    ensures Recorded(states) <= Recorded(fixed + others)
  {
    var all := fixed + others;
    forall r | r in Recorded(states) ensures r in Recorded(all) {
      if r in Recorded(fixed) {
        var k :| 0 <= k < |fixed| && fixed[k].reference == r;
        assert all[k] == fixed[k];
      } else {
        var k :| 0 <= k < |states| && states[k].reference == r;
        var j :| 0 <= j < |others| && others[j] == states[k];
        assert all[|fixed| + j] == others[j];
      }
    }
  }

  function FixedSnapshots(native: Native, fixed: seq<DynamicState>): seq<Snapshot>
    requires |fixed| == |native.storages|
  {
    seq(|fixed|, i requires 0 <= i < |fixed| => Snapshot(fixed[i].words, fixed[i].version, native.storages[i].1))
  }

  function OtherSnapshots(others: seq<DynamicState>): seq<Snapshot> {
    seq(|others|, i requires 0 <= i < |others| => Snapshot(others[i].words, others[i].version, others[i].list))
  }

  lemma {:induction false} ReferencesHold(vs: seq<Value>, k: nat)
    requires k < |vs| && vs[k].Object?
    ensures vs[k].reference in References(vs)
  {
    if k < |vs| - 1 {
      ReferencesHold(vs[..|vs| - 1], k);
    }
  }

  // Everything that the inputs reach can be passed, native code accepts them, and each
  // storage is the input of a list or tuple.
  ghost predicate Startable(h: Heap, native: Native, inputs: seq<Value>) {
    && (forall x :: Reaches(h, References(inputs), x) ==> !Unpassable(h, native, x))
    && Passable(native, inputs) && native.accepts(inputs)
    && forall i :: 0 <= i < |native.storages| ==> NamesSequence(h, inputs, native.storages[i].0)
  }

  predicate NamesSequence(h: Heap, inputs: seq<Value>, input: nat) {
    input < |inputs| && inputs[input].Object? && IsSequence(h, inputs[input].reference)
  }

  lemma FindableNames(h: Heap, native: Native, inputs: seq<Value>, states: seq<DynamicState>, input: nat)
    requires Collected(h, native, References(inputs), states)
    ensures Findable(inputs, states, input) <==> NamesSequence(h, inputs, input)
  {
    if input < |inputs| && inputs[input].Object? {
      ReferencesHold(inputs, input);
      RootReached(h, References(inputs), inputs[input].reference);
    }
  }

  // What becomes of a run, given what native code answers.
  function DynamicOutcome(native: Native, result: NativeResult, passed: seq<DynamicState>): Option<LoopResult> {
    match result
    case Refused => None
    case Failed => Some(LoopFailed)
    case Ran(deopts, transactions) =>
      if deopts > 0 then None
      else if !native.resumes then Some(LoopFailed)
      else if WritableTogether(passed, transactions) then Some(Executed)
      else None
  }

  // A list or tuple is still what its state was recorded from.
  predicate Unmoved(h: Heap, s: DynamicState) {
    && IsSequence(h, s.reference)
    && var obj := Get(h, s.reference).value;
       obj.List? == s.list && StrategyOf(obj.items) == s.strategy && obj.version == s.version
  }

  // Nothing else reaches the heap while native code runs, so the check of all states
  // never refuses.
  lemma AllUnmoved(h: Heap, native: Native, states: seq<DynamicState>)
    requires AllDescribe(h, native, states)
    ensures forall k :: 0 <= k < |states| ==> Unmoved(h, states[k])
  {
    forall k | 0 <= k < |states| ensures Unmoved(h, states[k]) {
      assert Describes(h, native, states[k]);
    }
  }

  // A single native run is all-or-nothing on the heap here as well: a success means
  // that every changed transaction is in its list, anything else that the heap is
  // what it was.
  method ExecuteDynamicObjectLoopOnce(heap: ObjectHeap, native: Native, inputs: seq<Value>)
    returns (r: Option<LoopResult>, ghost fixed: seq<DynamicState>, ghost others: seq<DynamicState>, ghost transactions: seq<Option<seq<int>>>)
    requires ObjectHeaps.Valid(heap.View())
    modifies heap`slots
    ensures ObjectHeaps.Valid(heap.View())
    ensures !Startable(old(heap.View()), native, inputs) ==> r.None?
    ensures Startable(old(heap.View()), native, inputs) ==>
      && PassesAll(old(heap.View()), native, inputs, fixed, others)
      && r == DynamicOutcome(native, native.run(inputs, FixedSnapshots(native, fixed), OtherSnapshots(others)), fixed + others)
    ensures r == Some(Executed) ==>
      && native.run(inputs, FixedSnapshots(native, fixed), OtherSnapshots(others)) == Ran(0, transactions)
      && ChangesWritten(old(heap.View()), heap.View(), fixed + others, transactions)
    ensures r != Some(Executed) ==> heap.View() == old(heap.View())
  {
    hide ChangesWritten, Collected, Describes, Reaches, Unpassable, Findable, NamesSequence, WritableTogether, AllDescribe;
    ghost var before := heap.View();
    r, fixed, others, transactions := None, [], [], [];
    var collected := Collect(heap, native, inputs);
    if collected.None? || !Passable(native, inputs) || !native.accepts(inputs) {
      return;
    }
    var states := collected.value;
    var found := FindFixed(native, inputs, states);
    forall i | 0 <= i < |native.storages|
      ensures Findable(inputs, states, native.storages[i].0) <==> NamesSequence(before, inputs, native.storages[i].0)
    {
      FindableNames(before, native, inputs, states, native.storages[i].0);
    }
    if found.None? {
      return;
    }
    var rest := WithoutFixed(states, found.value);
    fixed, others := found.value, rest;
    assert PassesStates(native, inputs, states, fixed, others);
    assert PassesAll(before, native, inputs, fixed, others);
    var result := native.run(inputs, FixedSnapshots(native, found.value), OtherSnapshots(rest));
    if !result.Ran? || result.deopts > 0 {
      r := if result.Failed? then Some(LoopFailed) else None;
      return;
    }
    // The check that nothing has moved belongs here; it always passes.
    CollectedUnmoved(before, native, References(inputs), states);
    if !native.resumes {
      r := Some(LoopFailed);
      return;
    }
    transactions := result.transactions;
    PassedIsReached(before, native, inputs, found.value, rest);
    var ok := WriteChanges(heap, native, found.value + rest, result.transactions);
    if ok {
      r := Some(Executed);
    }
  }

  // The words that native code gets of a list of integers or of floats are its elements.
  lemma DescribedHolds(h: Heap, native: Native, s: DynamicState)
    requires Describes(h, native, s) && s.list && (s.strategy.I64Strategy? || s.strategy.F64Strategy?)
    requires ValidFloats(h, s.reference)
    ensures HoldsWords(Get(h, s.reference).value, s.strategy.F64Strategy?, s.words)
  {
    var items := Get(h, s.reference).value.items;
    forall j | 0 <= j < |s.words|
      ensures Contents(items)[j] == if s.strategy.F64Strategy? then Float(s.words[j] % TWO_64) else SmallInt(s.words[j])
    {
      if items.Floats? {
        SignedBack(items.floats[j]);
      }
    }
  }

  // A word tells which value it stands for: an integer is itself, a float its bits, a
  // truth value 0 or 1, an object what it is encoded as. None and an uninitialized value
  // have no word.
  lemma WordExactly(native: Native, v: Value)
    ensures v.SmallInt? ==> WordOf(native, v) == Some(v.i)
    ensures v.Float? && v.bits < TWO_64 ==>
      WordOf(native, v).Some? && 0 - TWO_63 <= WordOf(native, v).value < TWO_63 && WordOf(native, v).value % TWO_64 == v.bits
    ensures v == Bool(true) ==> WordOf(native, v) == Some(1)
    ensures v == Bool(false) ==> WordOf(native, v) == Some(0)
    ensures v.Object? ==> WordOf(native, v) == native.encode(v.reference)
    ensures v == NoneValue || v == Uninitialized ==> WordOf(native, v).None?
  {
    if v.Float? && v.bits < TWO_64 {
      SignedBack(v.bits);
    }
  }

  // What native code is given: for each storage the sequence that its input names, for
  // the others every sequence that the inputs reach; the words of each in order, its
  // version, and whether it may be written.
  lemma SnapshotsGiven(h: Heap, native: Native, inputs: seq<Value>, fixed: seq<DynamicState>, others: seq<DynamicState>, k: nat)
    requires PassesAll(h, native, inputs, fixed, others)
    ensures |fixed| == |native.storages|
    ensures k < |fixed| ==>
      && native.storages[k].0 < |inputs| && inputs[native.storages[k].0] == Object(fixed[k].reference)
      && GivenAs(h, native, fixed[k].reference, native.storages[k].1, FixedSnapshots(native, fixed)[k])
    ensures k < |others| ==>
      && IsSequence(h, others[k].reference)
      && GivenAs(h, native, others[k].reference, Get(h, others[k].reference).value.List?, OtherSnapshots(others)[k])
  {
    var states :| Collected(h, native, References(inputs), states) && PassesStates(native, inputs, states, fixed, others);
    hide Collected, Describes, GivenAs, IsSequence, Others, Recorded;
    if k < |fixed| {
      DescribedIn(h, native, References(inputs), states, fixed[k]);
      DescribedGiven(h, native, fixed[k], native.storages[k].1);
    }
    if k < |others| {
      OthersAre(states, Recorded(fixed));
      assert others[k] in others;
      DescribedIn(h, native, References(inputs), states, others[k]);
      DescribedGiven(h, native, others[k], others[k].list);
    }
  }

  lemma DescribedIn(h: Heap, native: Native, roots: seq<ObjectRef>, states: seq<DynamicState>, s: DynamicState)
    requires Collected(h, native, roots, states) && s in states
    ensures Describes(h, native, s)
  {
  }

  lemma DescribedGiven(h: Heap, native: Native, s: DynamicState, mutates: bool)
    requires Describes(h, native, s)
    ensures GivenAs(h, native, s.reference, mutates, Snapshot(s.words, s.version, mutates))
    ensures IsSequence(h, s.reference) && s.list == Get(h, s.reference).value.List?
  {
    var contents := Contents(Get(h, s.reference).value.items);
    assert forall j :: 0 <= j < |contents| ==> WordOf(native, contents[j]).Some?;
    hide WordOf, Contents;
  }

  ghost predicate GivenAs(h: Heap, native: Native, r: ObjectRef, mutates: bool, snapshot: Snapshot) {
    && IsSequence(h, r)
    && var obj := Get(h, r).value;
       && snapshot.mutates == mutates && snapshot.version == obj.version
       && |snapshot.words| == |Contents(obj.items)|
       && forall j :: 0 <= j < |snapshot.words| ==> WordOf(native, Contents(obj.items)[j]) == Some(snapshot.words[j])
  }

  // A list whose transactions are all missing or the words that it had is left alone,
  // its version too.
  lemma UnchangedLeftAlone(h: Heap, h': Heap, states: seq<DynamicState>, transactions: seq<Option<seq<int>>>, r: ObjectRef)
    requires ChangesWritten(h, h', states, transactions) && IsLive(h, r)
    requires forall k :: 0 <= k < |states| && k < |transactions| && states[k].reference == r ==>
      transactions[k] == None || transactions[k] == Some(states[k].words)
    ensures Get(h', r) == Get(h, r)
  {
  }

  lemma CollectedUnmoved(h: Heap, native: Native, roots: seq<ObjectRef>, states: seq<DynamicState>)
    requires Collected(h, native, roots, states)
    ensures forall k :: 0 <= k < |states| ==> Unmoved(h, states[k])
  {
    AllUnmoved(h, native, states);
  }
}
