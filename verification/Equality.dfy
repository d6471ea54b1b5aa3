/**
  Structural equality on heaps that may contain themselves
  (src/wvm/equality.rs, lines 14-112): pairs being compared are assumed equal,
  but only while they are on the current path of the recursion.
 */
module Equality {
  import opened MachineWords
  import opened Wrappers
  import opened Values
  import opened FloatNumbers

  // Heap objects without dictionaries; `Other` is an object compared by identity only.
  datatype Obj =
    | Str(text: string)
    | BigInt(big: int)
    | Tuple(items: seq<Value>)
    | List(items: seq<Value>)
    | Function(id: nat)
    | Other

  type Heap = map<ObjectRef, Obj>

  type Pair = (ObjectRef, ObjectRef)

  datatype HeapError = InvalidReference

  // Both are tuples, or both are lists.
  predicate SameSequenceKind(a: Obj, b: Obj) {
    (a.Tuple? && b.Tuple?) || (a.List? && b.List?)
  }

  // ------------------------------------------------------- the algorithm as a function

  ghost function PairsLeft(h: Heap, visiting: set<Pair>): set<Pair> {
    (set a, b | a in h.Keys && b in h.Keys :: (a, b)) - visiting
  }

  // A number against a heap object.
  function NumberEqual(h: Heap, number: Value, reference: ObjectRef): Result<bool, HeapError>
    requires number.SmallInt? || number.Float?
  {
    if reference !in h then Err(InvalidReference)
    else if !h[reference].BigInt? then Ok(false)
    else if number.SmallInt? then Ok(h[reference].big == number.i)
    else Ok(IntegerFloatEqual(h[reference].big, number.bits))
  }

  // Everything but two distinct references to objects.
  function ShallowEqual(h: Heap, l: Value, r: Value): Result<bool, HeapError> {
    match (l, r)
    case (SmallInt(a), SmallInt(b)) => Ok(a == b)
    case (Float(a), Float(b)) => Ok(FloatEqual(a, b))
    case (SmallInt(a), Float(b)) => Ok(IntegerFloatEqual(a, b))
    case (Float(a), SmallInt(b)) => Ok(IntegerFloatEqual(b, a))
    case (Bool(a), Bool(b)) => Ok(a == b)
    case (Object(a), Object(b)) => if a in h && b in h then Ok(a == b) else Err(InvalidReference)
    case (SmallInt(_), Object(b)) => NumberEqual(h, l, b)
    case (Object(a), SmallInt(_)) => NumberEqual(h, r, a)
    case (Float(_), Object(b)) => NumberEqual(h, l, b)
    case (Object(a), Float(_)) => NumberEqual(h, r, a)
    case (Uninitialized, Uninitialized) => Ok(true)
    case _ => Ok(false)
  }

  predicate DistinctObjects(l: Value, r: Value) {
    l.Object? && r.Object? && l.reference != r.reference
  }

  // Two distinct objects that are not sequences of one kind.
  function LeafEqual(a: Obj, b: Obj): bool {
    match (a, b)
    case (Str(x), Str(y)) => x == y
    case (BigInt(x), BigInt(y)) => x == y
    case (Function(x), Function(y)) => x == y
    case _ => false
  }

  function Equal(h: Heap, l: Value, r: Value, visiting: set<Pair>): Result<bool, HeapError>
    decreases PairsLeft(h, visiting), 1, 0
  {
    if !DistinctObjects(l, r) then ShallowEqual(h, l, r)
    else
      var a, b := l.reference, r.reference;
      if a !in h || b !in h then Err(InvalidReference)
      else if !SameSequenceKind(h[a], h[b]) then Ok(LeafEqual(h[a], h[b]))
      else if (a, b) in visiting || (b, a) in visiting then Ok(true)
      else if |h[a].items| != |h[b].items| then Ok(false)
      else
        assert (a, b) in PairsLeft(h, visiting);
        ItemsEqual(h, h[a].items, h[b].items, visiting + {(a, b)}, 0)
  }

  // The items from `from` on, left to right, up to the first difference.
  function ItemsEqual(h: Heap, xs: seq<Value>, ys: seq<Value>, visiting: set<Pair>, from: nat): Result<bool, HeapError>
    requires |xs| == |ys|
    decreases PairsLeft(h, visiting), 2, |xs| - from
  {
    if from >= |xs| then Ok(true)
    else
      match Equal(h, xs[from], ys[from], visiting)
      case Ok(true) => ItemsEqual(h, xs, ys, visiting, from + 1)
      case other => other
  }

  // ------------------------------------------------ the meaning: paths to a mismatch

  // Both references name sequences of one kind and one length, and are distinct.
  predicate Comparable(h: Heap, l: Value, r: Value) {
    && DistinctObjects(l, r) && l.reference in h && r.reference in h
    && var a, b := h[l.reference], h[r.reference];
       ((a.List? && b.List?) || (a.Tuple? && b.Tuple?)) && |a.items| == |b.items|
  }

  // A value as a number: an integer of any size, or a binary64 pattern.
  datatype Number = NotANumber | IntegerNumber(n: int) | FloatNumber(bits: nat)

  function NumberOf(h: Heap, v: Value): Number {
    if v.SmallInt? then IntegerNumber(v.i)
    else if v.Float? then FloatNumber(v.bits)
    else if v.Object? && v.reference in h && h[v.reference].BigInt? then IntegerNumber(h[v.reference].big)
    else NotANumber
  }

  // The same number exactly; infinities are themselves, NaN is nothing.
  ghost predicate SameNumber(a: Number, b: Number) {
    if a.FloatNumber? && b.IntegerNumber? then Finite(a.bits) && b.n * Pow2(1074) == Scaled(a.bits)
    else if a.IntegerNumber? && b.FloatNumber? then Finite(b.bits) && a.n * Pow2(1074) == Scaled(b.bits)
    else if a.FloatNumber? && b.FloatNumber? then
      if Finite(a.bits) && Finite(b.bits) then Scaled(a.bits) == Scaled(b.bits) else a.bits == b.bits && !IsNaN(a.bits)
    else a == b
  }

  // What two values that are not followed further have in common: the number, the
  // object, the text or the function, the truth value, or being uninitialized.
  ghost predicate SameAtTop(h: Heap, l: Value, r: Value) {
    if NumberOf(h, l) != NotANumber && NumberOf(h, r) != NotANumber then SameNumber(NumberOf(h, l), NumberOf(h, r))
    else if l.Object? && r.Object? then
      l == r ||
      (l.reference in h && r.reference in h &&
       ((h[l.reference].Str? || h[l.reference].Function?) && h[l.reference] == h[r.reference]))
    else l == r && (l.Bool? || l.Uninitialized?)
  }

  // A reference that leads nowhere, where the comparison has to look.
  predicate Dangles(h: Heap, l: Value, r: Value) {
    || (l.Object? && l.reference !in h && (r.Object? || r.SmallInt? || r.Float?))
    || (r.Object? && r.reference !in h && (l.Object? || l.SmallInt? || l.Float?))
  }

  // Floats are 64-bit patterns.
  predicate ProperFloat(v: Value) {
    v.Float? ==> v.bits < TWO_64
  }

  predicate ProperFloats(h: Heap) {
    forall a :: a in h && (h[a].Tuple? || h[a].List?) ==> forall i :: 0 <= i < |h[a].items| ==> ProperFloat(h[a].items[i])
  }

  // A difference that shows without looking into items.
  ghost predicate Clash(h: Heap, l: Value, r: Value) {
    !Dangles(h, l, r) && !Comparable(h, l, r) && !SameAtTop(h, l, r)
  }

  lemma NumbersExact(a: nat, b: nat, i: int)
    requires a < TWO_64 && b < TWO_64
    ensures IntegerFloatEqual(i, a) <==> SameNumber(IntegerNumber(i), FloatNumber(a))
    ensures IntegerFloatEqual(i, a) <==> SameNumber(FloatNumber(a), IntegerNumber(i))
    ensures FloatEqual(a, b) <==> SameNumber(FloatNumber(a), FloatNumber(b))
  {
    IntegerFloatExact(i, a);
    FloatEqualExact(a, b);
  }

  // The comparison without looking into items is exactly having that in common.
  lemma ShallowIsSameAtTop(h: Heap, l: Value, r: Value)
    requires !DistinctObjects(l, r) && ProperFloat(l) && ProperFloat(r)
    ensures ShallowEqual(h, l, r) == if Dangles(h, l, r) then Err(InvalidReference) else Ok(SameAtTop(h, l, r))
  {
    hide IntegerFloatEqual, FloatEqual, SameNumber;
    assert forall a: int, b: int :: SameNumber(IntegerNumber(a), IntegerNumber(b)) <==> a == b by {
      forall a: int, b: int ensures SameNumber(IntegerNumber(a), IntegerNumber(b)) <==> a == b {
        IntegersSame(a, b);
      }
    }
    var x, y := if l.Float? then l.bits else 0, if r.Float? then r.bits else 0;
    var i := if NumberOf(h, l).IntegerNumber? then NumberOf(h, l).n else if NumberOf(h, r).IntegerNumber? then NumberOf(h, r).n else 0;
    NumbersExact(x, y, i);
    NumbersExact(y, x, i);
  }

  lemma IntegersSame(a: int, b: int)
    ensures SameNumber(IntegerNumber(a), IntegerNumber(b)) <==> a == b
  {
  }

  lemma LeafIsSameAtTop(h: Heap, l: Value, r: Value)
    requires DistinctObjects(l, r) && l.reference in h && r.reference in h && !SameSequenceKind(h[l.reference], h[r.reference])
    ensures LeafEqual(h[l.reference], h[r.reference]) == SameAtTop(h, l, r)
  {
  }

  // Following item indices through comparable pairs ends in a clash.
  ghost predicate Mismatch(h: Heap, l: Value, r: Value, path: seq<nat>)
    decreases |path|
  {
    if path == [] then Clash(h, l, r)
    else
      && Comparable(h, l, r)
      && path[0] < |h[l.reference].items|
      && Mismatch(h, h[l.reference].items[path[0]], h[r.reference].items[path[0]], path[1..])
  }

  ghost predicate Differ(h: Heap, l: Value, r: Value) {
    exists path :: Mismatch(h, l, r, path)
  }

  predicate Resolves(h: Heap, v: Value) {
    v.Object? ==> v.reference in h
  }

  // No sequence of the heap holds a dangling reference.
  predicate Closed(h: Heap) {
    forall a :: a in h && (h[a].Tuple? || h[a].List?) ==> forall v :: v in h[a].items ==> Resolves(h, v)
  }

  lemma ItemResolves(h: Heap, a: ObjectRef, i: nat)
    requires Closed(h) && a in h && (h[a].Tuple? || h[a].List?) && i < |h[a].items|
    ensures Resolves(h, h[a].items[i])
  {
    assert h[a].items[i] in h[a].items;
  }

  lemma {:induction false} MismatchSymmetric(h: Heap, l: Value, r: Value, path: seq<nat>)
    requires Mismatch(h, l, r, path)
    ensures Mismatch(h, r, l, path)
    decreases |path|
  {
    if path != [] {
      MismatchSymmetric(h, h[l.reference].items[path[0]], h[r.reference].items[path[0]], path[1..]);
    }
  }

  // --------------------------------------------------------------- no false alarms

  // A `false` answer always has a witness, whatever is assumed on the way.
  lemma {:induction false} FalseHasPath(h: Heap, l: Value, r: Value, visiting: set<Pair>) returns (path: seq<nat>)
    requires ProperFloats(h) && ProperFloat(l) && ProperFloat(r)
    requires Equal(h, l, r, visiting) == Ok(false)
    ensures Mismatch(h, l, r, path)
    decreases PairsLeft(h, visiting), 1, 0
  {
    if Comparable(h, l, r) {
      var a, b := l.reference, r.reference;
      assert (a, b) in PairsLeft(h, visiting);
      var tail: seq<nat>;
      var i: nat;
      i, tail := FalseItemHasPath(h, h[a].items, h[b].items, visiting + {(a, b)}, 0);
      path := [i] + tail;
      assert path[1..] == tail;
    } else {
      path := [];
      TopIsExact(h, l, r, visiting);
    }
  }

  // Where nothing is followed, an answer is what shows at the top.
  lemma TopIsExact(h: Heap, l: Value, r: Value, visiting: set<Pair>)
    requires ProperFloat(l) && ProperFloat(r) && !Comparable(h, l, r)
    ensures Equal(h, l, r, visiting) == Ok(false) ==> Clash(h, l, r)
    ensures Clash(h, l, r) && (DistinctObjects(l, r) ==> (l.reference, r.reference) !in visiting && (r.reference, l.reference) !in visiting)
      ==> Equal(h, l, r, visiting) == Ok(false)
  {
    if !DistinctObjects(l, r) {
      ShallowIsSameAtTop(h, l, r);
    } else if l.reference in h && r.reference in h && !SameSequenceKind(h[l.reference], h[r.reference]) {
      LeafIsSameAtTop(h, l, r);
    }
  }

  lemma {:induction false} FalseItemHasPath(h: Heap, xs: seq<Value>, ys: seq<Value>, visiting: set<Pair>, from: nat)
    returns (i: nat, path: seq<nat>)
    requires ProperFloats(h) && |xs| == |ys| && forall k :: 0 <= k < |xs| ==> ProperFloat(xs[k]) && ProperFloat(ys[k])
    requires ItemsEqual(h, xs, ys, visiting, from) == Ok(false)
    ensures i < |xs| && Mismatch(h, xs[i], ys[i], path)
    decreases PairsLeft(h, visiting), 2, |xs| - from
  {
    if Equal(h, xs[from], ys[from], visiting) == Ok(false) {
      i := from;
      path := FalseHasPath(h, xs[from], ys[from], visiting);
    } else {
      i, path := FalseItemHasPath(h, xs, ys, visiting, from + 1);
    }
  }

  // ----------------------------------------------------------- no difference missed

  // The pairs of references along a path are none of those being visited.
  ghost predicate Avoids(h: Heap, l: Value, r: Value, path: seq<nat>, visiting: set<Pair>)
    decreases |path|
  {
    && (l.Object? && r.Object? ==> (l.reference, r.reference) !in visiting && (r.reference, l.reference) !in visiting)
    && (path != [] && Comparable(h, l, r) && path[0] < |h[l.reference].items| ==>
          Avoids(h, h[l.reference].items[path[0]], h[r.reference].items[path[0]], path[1..], visiting))
  }

  lemma {:induction false} AvoidsSymmetric(h: Heap, l: Value, r: Value, path: seq<nat>, visiting: set<Pair>)
    requires Avoids(h, l, r, path, visiting)
    ensures Avoids(h, r, l, path, visiting)
    decreases |path|
  {
    if path != [] && Comparable(h, l, r) && path[0] < |h[l.reference].items| {
      AvoidsSymmetric(h, h[l.reference].items[path[0]], h[r.reference].items[path[0]], path[1..], visiting);
    }
  }

  lemma {:induction false} AvoidsNone(h: Heap, l: Value, r: Value, path: seq<nat>)
    ensures Avoids(h, l, r, path, {})
    decreases |path|
  {
    if path != [] && Comparable(h, l, r) && path[0] < |h[l.reference].items| {
      AvoidsNone(h, h[l.reference].items[path[0]], h[r.reference].items[path[0]], path[1..]);
    }
  }

  // A path that meets a pair contains a path from that pair, which is no longer.
  lemma {:induction false} PathFromMetPair(
      h: Heap, l: Value, r: Value, path: seq<nat>, visiting: set<Pair>, a: ObjectRef, b: ObjectRef) returns (rest: seq<nat>)
    requires Mismatch(h, l, r, path) && Avoids(h, l, r, path, visiting) && !Avoids(h, l, r, path, visiting + {(a, b)})
    ensures |rest| <= |path| && Mismatch(h, Object(a), Object(b), rest) && Avoids(h, Object(a), Object(b), rest, visiting)
    decreases |path|
  {
    if l == Object(a) && r == Object(b) {
      rest := path;
    } else if l == Object(b) && r == Object(a) {
      MismatchSymmetric(h, l, r, path);
      AvoidsSymmetric(h, l, r, path, visiting);
      rest := path;
    } else {
      rest := PathFromMetPair(h, h[l.reference].items[path[0]], h[r.reference].items[path[0]], path[1..], visiting, a, b);
    }
  }

  // A mismatch that can be reached without meeting a visited pair is found.
  lemma {:induction false} PathIsFound(h: Heap, l: Value, r: Value, path: seq<nat>, visiting: set<Pair>)
    requires ProperFloats(h) && ProperFloat(l) && ProperFloat(r)
    requires Closed(h) && Resolves(h, l) && Resolves(h, r)
    requires Mismatch(h, l, r, path) && Avoids(h, l, r, path, visiting)
    ensures Equal(h, l, r, visiting) == Ok(false)
    decreases PairsLeft(h, visiting), |path|
  {
    if path != [] {
      var a, b := l.reference, r.reference;
      var x, y := h[a].items[path[0]], h[b].items[path[0]];
      var entered := visiting + {(a, b)};
      assert (a, b) in PairsLeft(h, visiting);
      if Avoids(h, x, y, path[1..], entered) {
        ItemResolves(h, a, path[0]);
        ItemResolves(h, b, path[0]);
        PathIsFound(h, x, y, path[1..], entered);
        ItemIsFound(h, h[a].items, h[b].items, entered, 0, path[0]);
      } else {
        var rest := PathFromMetPair(h, x, y, path[1..], visiting, a, b);
        PathIsFound(h, l, r, rest, visiting);
      }
    } else {
      TopIsExact(h, l, r, visiting);
    }
  }

  // On a closed heap there are no errors.
  lemma {:induction false} ClosedHasNoError(h: Heap, l: Value, r: Value, visiting: set<Pair>)
    requires Closed(h) && Resolves(h, l) && Resolves(h, r)
    ensures Equal(h, l, r, visiting).Ok?
    decreases PairsLeft(h, visiting), 1, 0
  {
    if Comparable(h, l, r) && (l.reference, r.reference) !in visiting {
      assert (l.reference, r.reference) in PairsLeft(h, visiting);
      forall i | 0 <= i < |h[l.reference].items|
        ensures Resolves(h, h[l.reference].items[i]) && Resolves(h, h[r.reference].items[i])
      {
        ItemResolves(h, l.reference, i);
        ItemResolves(h, r.reference, i);
      }
      ClosedItemsHaveNoError(h, h[l.reference].items, h[r.reference].items, visiting + {(l.reference, r.reference)}, 0);
    }
  }

  lemma {:induction false} ClosedItemsHaveNoError(h: Heap, xs: seq<Value>, ys: seq<Value>, visiting: set<Pair>, from: nat)
    requires Closed(h) && |xs| == |ys| && (forall i :: 0 <= i < |xs| ==> Resolves(h, xs[i]) && Resolves(h, ys[i]))
    ensures ItemsEqual(h, xs, ys, visiting, from).Ok?
    decreases PairsLeft(h, visiting), 2, |xs| - from
  {
    if from < |xs| {
      ClosedHasNoError(h, xs[from], ys[from], visiting);
      ClosedItemsHaveNoError(h, xs, ys, visiting, from + 1);
    }
  }

  lemma {:induction false} ItemIsFound(h: Heap, xs: seq<Value>, ys: seq<Value>, visiting: set<Pair>, from: nat, i: nat)
    requires Closed(h) && |xs| == |ys| && (forall k :: 0 <= k < |xs| ==> Resolves(h, xs[k]) && Resolves(h, ys[k]))
    requires from <= i < |xs| && Equal(h, xs[i], ys[i], visiting) == Ok(false)
    ensures ItemsEqual(h, xs, ys, visiting, from) == Ok(false)
    decreases i - from
  {
    ClosedHasNoError(h, xs[from], ys[from], visiting);
    if from < i {
      ItemIsFound(h, xs, ys, visiting, from + 1, i);
    }
  }

  // ------------------------------------------------------------------ the main result

  // On every closed heap, cyclic ones included, the comparison ends without an
  // error and answers `false` exactly when some finite index path leads to a clash.
  lemma EqualIsExact(h: Heap, l: Value, r: Value)
    requires ProperFloats(h) && ProperFloat(l) && ProperFloat(r)
    requires Closed(h) && Resolves(h, l) && Resolves(h, r)
    ensures Equal(h, l, r, {}) == Ok(!Differ(h, l, r))
  {
    ClosedHasNoError(h, l, r, {});
    if Equal(h, l, r, {}) == Ok(false) {
      var path := FalseHasPath(h, l, r, {});
      assert Differ(h, l, r);
    } else {
      forall path ensures !Mismatch(h, l, r, path) {
        if Mismatch(h, l, r, path) {
          AvoidsNone(h, l, r, path);
          PathIsFound(h, l, r, path, {});
        }
      }
      assert Equal(h, l, r, {}).value;
    }
  }

  lemma EqualIsSymmetric(h: Heap, l: Value, r: Value)
    requires ProperFloats(h) && ProperFloat(l) && ProperFloat(r)
    requires Closed(h) && Resolves(h, l) && Resolves(h, r)
    ensures Equal(h, l, r, {}) == Equal(h, r, l, {})
  {
    EqualIsExact(h, l, r);
    EqualIsExact(h, r, l);
    if Differ(h, l, r) {
      var path :| Mismatch(h, l, r, path);
      MismatchSymmetric(h, l, r, path);
    }
    if Differ(h, r, l) {
      var path :| Mismatch(h, r, l, path);
      MismatchSymmetric(h, r, l, path);
    }
  }

  // Equality is not reflexive: a value equals itself exactly when it is neither
  // `None` nor a NaN.
  lemma ReflexiveIff(h: Heap, v: Value)
    requires Resolves(h, v)
    ensures Equal(h, v, v, {}) == Ok(true) <==> v != NoneValue && !(v.Float? && IsNaN(v.bits))
  {
  }

  // ------------------------------------------------------- the algorithm in place

  // The pairs being compared, shared by the whole recursion.
  class Visiting {
    var pairs: set<Pair>

    constructor ()
      ensures pairs == {}
    {
      pairs := {};
    }
  }

  method ValuesEqualWith(h: Heap, l: Value, r: Value, visiting: Visiting) returns (result: Result<bool, HeapError>)
    modifies visiting
    ensures visiting.pairs == old(visiting.pairs)
    ensures result == Equal(h, l, r, visiting.pairs)
    decreases PairsLeft(h, visiting.pairs), 1, 0
  {
    if !DistinctObjects(l, r) {
      return ShallowEqual(h, l, r);
    }
    result := ObjectEqual(h, l.reference, r.reference, visiting);
  }

  method ObjectEqual(h: Heap, a: ObjectRef, b: ObjectRef, visiting: Visiting) returns (result: Result<bool, HeapError>)
    requires a != b
    modifies visiting
    ensures visiting.pairs == old(visiting.pairs)
    ensures result == Equal(h, Object(a), Object(b), visiting.pairs)
    decreases PairsLeft(h, visiting.pairs), 0, 0
  {
    if a !in h || b !in h {
      return Err(InvalidReference);
    }
    if !SameSequenceKind(h[a], h[b]) {
      return Ok(LeafEqual(h[a], h[b]));
    }
    if (a, b) in visiting.pairs || (b, a) in visiting.pairs {
      return Ok(true);
    }
    assert (a, b) in PairsLeft(h, visiting.pairs);
    visiting.pairs := visiting.pairs + {(a, b)};
    result := SequenceEqual(h, h[a].items, h[b].items, visiting);
    visiting.pairs := visiting.pairs - {(a, b)};
    assert visiting.pairs == old(visiting.pairs);
  }

  method SequenceEqual(h: Heap, xs: seq<Value>, ys: seq<Value>, visiting: Visiting) returns (result: Result<bool, HeapError>)
    modifies visiting
    ensures visiting.pairs == old(visiting.pairs)
    ensures result == if |xs| != |ys| then Ok(false) else ItemsEqual(h, xs, ys, visiting.pairs, 0)
    decreases PairsLeft(h, visiting.pairs), 2, 0
  {
    if |xs| != |ys| {
      return Ok(false);
    }
    for i := 0 to |xs|
      invariant visiting.pairs == old(visiting.pairs)
      invariant ItemsEqual(h, xs, ys, visiting.pairs, 0) == ItemsEqual(h, xs, ys, visiting.pairs, i)
    {
      result := ValuesEqualWith(h, xs[i], ys[i], visiting);
      if result != Ok(true) {
        return;
      }
    }
    result := Ok(true);
  }

  method ValuesEqual(h: Heap, l: Value, r: Value) returns (result: Result<bool, HeapError>)
    ensures result == Equal(h, l, r, {})
    ensures ProperFloats(h) && ProperFloat(l) && ProperFloat(r) && Closed(h) && Resolves(h, l) && Resolves(h, r) ==>
      result == Ok(!Differ(h, l, r))
  {
    var visiting := new Visiting();
    result := ValuesEqualWith(h, l, r, visiting);
    ghost var proper := ProperFloats(h) && ProperFloat(l) && ProperFloat(r);
    if proper && Closed(h) && Resolves(h, l) && Resolves(h, r) {
      EqualIsExact(h, l, r);
    }
  }
}
