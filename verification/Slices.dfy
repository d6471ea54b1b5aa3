/**
  Slice indices (src/wvm/objects.rs): the loop in saturating 64-bit arithmetic and
  the arithmetic progression that it produces.
 */
module Slices {
  import opened Wrappers

  const I64_MAX: int := 0x7FFF_FFFF_FFFF_FFFF
  const I64_MIN: int := 0 - 0x8000_0000_0000_0000

  type Int64 = i: int | -0x8000_0000_0000_0000 <= i < 0x8000_0000_0000_0000

  // A slice operand as the machine sees it.
  datatype Operand = SmallInt(i: Int64) | BigInt(n: int) | NotInteger

  datatype SliceError = SequenceTooLarge | IndexOutOfRange | NotAnInteger | StepIsZero

  function Saturated(i: int): Int64 {
    if i > I64_MAX then I64_MAX else if i < I64_MIN then I64_MIN else i
  }

  function Clamped(i: int, low: int, high: int): int {
    if i < low then low else if i > high then high else i
  }

  function RawIndex(operand: Operand): Result<Int64, SliceError> {
    match operand
    case SmallInt(i) => Ok(i)
    case BigInt(n) => if I64_MIN <= n <= I64_MAX then Ok(n) else Err(IndexOutOfRange)
    case NotInteger => Err(NotAnInteger)
  }

  function OptionalIndex(operand: Option<Operand>): Result<Option<Int64>, SliceError> {
    match operand
    case None => Ok(None)
    case Some(o) =>
      match RawIndex(o)
      case Ok(i) => Ok(Some(i))
      case Err(e) => Err(e)
  }

  // A negative index counts from the end; everything is moved into [low, high].
  function Normalized(index: Int64, length: int, low: int, high: int): int
    requires 0 <= length <= I64_MAX
  {
    Clamped(if index < 0 then Saturated(length + index) else index, low, high)
  }

  // ------------------------------------------------------------- the specification

  function DefaultTo(index: Option<Int64>, otherwise: int): int {
    if index.Some? then index.value else otherwise
  }

  // Where a slice starts and stops for a given sign of the step.
  function Bounds(length: int, start: Option<Int64>, stop: Option<Int64>, forward: bool): (int, int)
    requires 0 <= length <= I64_MAX
  {
    if forward then
      (Normalized(if start.Some? then start.value else 0, length, 0, length),
       Normalized(if stop.Some? then stop.value else length, length, 0, length))
    else
      (if start.Some? then Normalized(start.value, length, -1, length - 1) else length - 1,
       if stop.Some? then Normalized(stop.value, length, -1, length - 1) else -1)
  }

  // How many steps fit between the bounds: a quotient rounded up.
  function Count(first: int, stop: int, step: int): nat
    requires step != 0
  {
    if step > 0 && first < stop then (stop - first - 1) / step + 1
    else if step < 0 && first > stop then (first - stop - 1) / (0 - step) + 1
    else 0
  }

  // The terms of an arithmetic progression.
  function Progression(first: int, step: int, count: nat): seq<int> {
    seq(count, k => first + k * step)
  }

  function Slice(length: nat, start: Option<Operand>, stop: Option<Operand>, step: Option<Operand>): Result<seq<int>, SliceError> {
    if length > I64_MAX then Err(SequenceTooLarge)
    else
      match OptionalIndex(step)
      case Err(e) => Err(e)
      case Ok(stride) =>
        if stride == Some(0) then Err(StepIsZero)
        else
          match OptionalIndex(start)
          case Err(e) => Err(e)
          case Ok(from) =>
            match OptionalIndex(stop)
            case Err(e) => Err(e)
            case Ok(until) =>
              var d := DefaultTo(stride, 1);
              var (first, last) := Bounds(length, from, until, d > 0);
              Ok(Progression(first, d, Count(first, last, d)))
  }

  // ------------------------------------------------------------------- arithmetic

  lemma Product(a: int, b: int)
    requires a >= 0 && b >= 0
    ensures a * b >= 0
    ensures a >= 1 ==> a * b >= b
  {
    if a >= 1 {
      assert a * b == b + (a - 1) * b;
    }
  }

  // `count` steps reach the bound and one fewer does not: that is the quotient.
  lemma CountIs(distance: int, step: int, count: nat)
    requires distance > 0 && step > 0 && count > 0
    requires (count - 1) * step < distance <= count * step
    ensures (distance - 1) / step + 1 == count
  {
    var q, r := (distance - 1) / step, (distance - 1) % step;
    assert distance - 1 == q * step + r && 0 <= r < step;
    if q > count - 1 {
      assert q * step == count * step + (q - count) * step;
      Product(q - count, step);
    } else if q < count - 1 {
      assert (count - 1) * step == (q + 1) * step + (count - 2 - q) * step;
      Product(count - 2 - q, step);
    }
  }

  // The number of steps taken is the count when the last one was needed.
  lemma CountTaken(first: int, stop: int, step: int, k: nat)
    requires step != 0
    requires k > 0 ==> if step > 0 then first + (k - 1) * step < stop else first + (k - 1) * step > stop
    requires if step > 0 then first + k * step >= stop else first + k * step <= stop
    ensures k == Count(first, stop, step)
  {
    if k == 0 {
      assert k * step == 0;
    } else if step > 0 {
      Product(k - 1, step);
      CountIs(stop - first, step, k);
    } else {
      var stride := 0 - step;
      assert (k - 1) * stride == 0 - (k - 1) * step && k * stride == 0 - k * step;
      Product(k - 1, stride);
      CountIs(first - stop, stride, k);
    }
  }

  lemma NextTerm(k: nat, step: int)
    ensures (k + 1) * step == k * step + step
    ensures step > 0 ==> k * step >= 0
  {
    if step > 0 {
      Product(k, step);
    }
  }

  // ------------------------------------------------------------------------ loops

  // Counting up: saturation happens only at or past the bound.
  method CountUp(first: int, stop: int, step: Int64) returns (indices: seq<int>)
    requires step > 0 && 0 <= first <= I64_MAX && 0 <= stop <= I64_MAX
    ensures indices == Progression(first, step, Count(first, stop, step))
  {
    hide Count;
    indices := [];
    var index: Int64 := first;
    while index < stop
      invariant indices == Progression(first, step, |indices|)
      invariant index == Saturated(first + |indices| * step) && first <= index
      invariant |indices| > 0 ==> first + (|indices| - 1) * step < stop
      decreases I64_MAX - index
    {
      NextTerm(|indices|, step);
      indices := indices + [index];
      index := Saturated(index + step);
    }
    CountTaken(first, stop, step, |indices|);
  }

  // Counting down never gets below the least 64-bit integer.
  method CountDown(first: int, stop: int, step: Int64) returns (indices: seq<int>)
    requires step < 0 && -1 <= first <= I64_MAX && -1 <= stop <= I64_MAX
    ensures indices == Progression(first, step, Count(first, stop, step))
  {
    hide Count;
    indices := [];
    var index: Int64 := first;
    while index > stop
      invariant indices == Progression(first, step, |indices|)
      invariant index == first + |indices| * step
      invariant |indices| > 0 ==> first + (|indices| - 1) * step > stop
      decreases index - stop
    {
      NextTerm(|indices|, step);
      indices := indices + [index];
      index := Saturated(index + step);
    }
    CountTaken(first, stop, step, |indices|);
  }

  method SliceIndices(length: nat, start: Option<Operand>, stop: Option<Operand>, step: Option<Operand>)
    returns (r: Result<seq<int>, SliceError>)
    ensures r == Slice(length, start, stop, step)
  {
    if length > I64_MAX {
      return Err(SequenceTooLarge);
    }
    var stride := OptionalIndex(step);
    if stride.Err? {
      return Err(stride.error);
    }
    var d: Int64 := if stride.value.Some? then stride.value.value else 1;
    if d == 0 {
      return Err(StepIsZero);
    }
    var from := OptionalIndex(start);
    if from.Err? {
      return Err(from.error);
    }
    var until := OptionalIndex(stop);
    if until.Err? {
      return Err(until.error);
    }
    var bounds := Bounds(length, from.value, until.value, d > 0);
    var indices;
    if d > 0 {
      indices := CountUp(bounds.0, bounds.1, d);
    } else {
      indices := CountDown(bounds.0, bounds.1, d);
    }
    return Ok(indices);
  }

  // The interval of a slice with step one.
  method ForwardSliceBounds(length: nat, start: Option<Operand>, stop: Option<Operand>) returns (r: Result<(int, int), SliceError>)
    ensures length > I64_MAX ==> r == Err(SequenceTooLarge)
    ensures length <= I64_MAX ==> (r.Ok? <==> OptionalIndex(start).Ok? && OptionalIndex(stop).Ok?)
    ensures r.Ok? ==>
      var (first, last) := Bounds(length, OptionalIndex(start).value, OptionalIndex(stop).value, true);
      r.value == (first, if last < first then first else last)
    ensures r.Ok? ==>
      && 0 <= r.value.0 <= r.value.1 <= length
      && Slice(length, start, stop, None) == Ok(seq(r.value.1 - r.value.0, k => r.value.0 + k))
  {
    if length > I64_MAX {
      return Err(SequenceTooLarge);
    }
    var from := OptionalIndex(start);
    if from.Err? {
      return Err(from.error);
    }
    var until := OptionalIndex(stop);
    if until.Err? {
      return Err(until.error);
    }
    var bounds := Bounds(length, from.value, until.value, true);
    StepOneIsInterval(length, start, stop);
    return Ok((bounds.0, if bounds.1 < bounds.0 then bounds.0 else bounds.1));
  }

  // ----------------------------------------------------------- what a slice selects

  // Whether an index is one of those that a walk from `first` by `step` visits
  // before it reaches `stop`.
  ghost predicate Visited(first: int, stop: int, step: int, i: int) {
    && (exists k: nat :: i == first + k * step)
    && (if step > 0 then i < stop else i > stop)
  }

  // The quotient counts the steps that stay below the distance.
  lemma CountReaches(distance: int, stride: int, k: nat)
    requires distance > 0 && stride > 0
    ensures k < (distance - 1) / stride + 1 <==> distance > k * stride
  {
    var q, r := (distance - 1) / stride, (distance - 1) % stride;
    assert distance - 1 == q * stride + r && 0 <= r < stride;
    if k <= q {
      assert q * stride == k * stride + (q - k) * stride;
      Product(q - k, stride);
    } else {
      assert k * stride == (q + 1) * stride + (k - q - 1) * stride;
      Product(k - q - 1, stride);
    }
  }

  lemma CountBounds(first: int, stop: int, step: int, k: nat)
    requires step != 0
    ensures k < Count(first, stop, step) <==> if step > 0 then first + k * step < stop else first + k * step > stop
  {
    var stride := if step > 0 then step else 0 - step;
    var distance := if step > 0 then stop - first else first - stop;
    assert k * stride == if step > 0 then k * step else 0 - k * step;
    if distance > 0 {
      CountReaches(distance, stride, k);
    } else {
      Product(k, stride);
    }
  }

  // A slice selects exactly what is visited.
  lemma ProgressionVisits(first: int, stop: int, step: int, i: int)
    requires step != 0
    ensures i in Progression(first, step, Count(first, stop, step)) <==> Visited(first, stop, step, i)
  {
    hide Count;
    var s := Progression(first, step, Count(first, stop, step));
    if i in s {
      var k: nat :| k < |s| && s[k] == i;
      CountBounds(first, stop, step, k);
    }
    if Visited(first, stop, step, i) {
      var k: nat :| i == first + k * step;
      CountBounds(first, stop, step, k);
      assert s[k] == i;
    }
  }

  lemma ProgressionMonotone(first: int, step: int, n: nat, a: nat, b: nat)
    requires step != 0 && a < b < n
    ensures var s := Progression(first, step, n);
      if step > 0 then s[a] < s[b] else s[a] > s[b]
  {
    assert b * step == a * step + (b - a) * step;
    if step > 0 {
      Product(b - a, step);
    } else {
      Product(b - a, 0 - step);
      assert (b - a) * step == 0 - (b - a) * (0 - step);
    }
  }

  lemma VisitedInRange(length: nat, start: Option<Int64>, stop: Option<Int64>, step: int, i: int)
    requires length <= I64_MAX && step != 0
    requires var (first, last) := Bounds(length, start, stop, step > 0); Visited(first, last, step, i)
    ensures 0 <= i < length
  {
    var (first, last) := Bounds(length, start, stop, step > 0);
    var k: nat :| i == first + k * step;
    if step > 0 {
      Product(k, step);
    } else {
      Product(k, 0 - step);
      assert k * step == 0 - k * (0 - step);
    }
  }

  // Every slice is strictly monotone and selects valid indices only.
  lemma SliceInRange(length: nat, start: Option<Operand>, stop: Option<Operand>, step: Option<Operand>)
    requires Slice(length, start, stop, step).Ok?
    ensures var s := Slice(length, start, stop, step).value;
      && (forall i :: i in s ==> 0 <= i < length)
      && (if DefaultTo(OptionalIndex(step).value, 1) > 0
          then forall a, b :: 0 <= a < b < |s| ==> s[a] < s[b]
          else forall a, b :: 0 <= a < b < |s| ==> s[a] > s[b])
  {
    hide Count, Bounds, Visited, Progression;
    var d := DefaultTo(OptionalIndex(step).value, 1);
    var from, until := OptionalIndex(start).value, OptionalIndex(stop).value;
    var (first, last) := Bounds(length, from, until, d > 0);
    var s := Progression(first, d, Count(first, last, d));
    forall i | i in s ensures 0 <= i < length {
      ProgressionVisits(first, last, d, i);
      VisitedInRange(length, from, until, d, i);
    }
    forall a, b | 0 <= a < b < |s| ensures if d > 0 then s[a] < s[b] else s[a] > s[b] {
      ProgressionLength(first, d, Count(first, last, d));
      ProgressionMonotone(first, d, |s|, a, b);
    }
  }

  lemma ProgressionLength(first: int, step: int, n: nat)
    ensures |Progression(first, step, n)| == n
  {
  }

  // With no step, or step one, a slice is the interval of `ForwardSliceBounds`.
  lemma StepOneIsInterval(length: nat, start: Option<Operand>, stop: Option<Operand>)
    requires length <= I64_MAX && OptionalIndex(start).Ok? && OptionalIndex(stop).Ok?
    ensures var (first, last) := Bounds(length, OptionalIndex(start).value, OptionalIndex(stop).value, true);
      var high := if last < first then first else last;
      && Slice(length, start, stop, None) == Ok(seq(high - first, k => first + k))
      && Slice(length, start, stop, Some(SmallInt(1))) == Slice(length, start, stop, None)
  {
    var (first, last) := Bounds(length, OptionalIndex(start).value, OptionalIndex(stop).value, true);
    var high := if last < first then first else last;
    assert Count(first, last, 1) == high - first;
    assert Progression(first, 1, high - first) == seq(high - first, k => first + k);
  }

  // The whole sequence backwards.
  lemma FullReverse(length: nat)
    requires length <= I64_MAX
    ensures Slice(length, None, None, Some(SmallInt(-1))) == Ok(seq(length, k => length - 1 - k))
  {
    assert Bounds(length, None, None, false) == (length - 1, -1);
    assert Count(length - 1, -1, -1) == length;
    assert Progression(length - 1, -1, length) == seq(length, k => length - 1 - k);
  }

  // ------------------------------------------------------ what the operands mean

  // A slice by 64-bit operands.
  function SliceBy(length: nat, start: Option<Int64>, stop: Option<Int64>, step: Int64): Result<seq<int>, SliceError> {
    Slice(length, if start.Some? then Some(SmallInt(start.value)) else None, if stop.Some? then Some(SmallInt(stop.value)) else None,
          Some(SmallInt(step)))
  }

  // Inside the bounds a slice going up is first, first + step, ... below the stop.
  lemma UpFromTo(length: nat, a: Int64, b: Int64, step: Int64, i: int)
    requires length <= I64_MAX && 0 <= a <= length && 0 <= b <= length && step > 0
    ensures SliceBy(length, Some(a), Some(b), step).Ok?
    ensures i in SliceBy(length, Some(a), Some(b), step).value <==> exists k: nat :: i == a + k * step && i < b
  {
    ProgressionVisits(a, b, step, i);
  }

  lemma StepOneUp(length: nat, a: Int64, b: Int64)
    requires length <= I64_MAX && 0 <= a <= b <= length
    ensures SliceBy(length, Some(a), Some(b), 1) == Ok(seq(b - a, k => a + k))
  {
    StepOneIsInterval(length, Some(SmallInt(a)), Some(SmallInt(b)));
    assert Count(a, b, 1) == b - a;
  }

  // And going down it is first, first - |step|, ... above the stop.
  lemma DownFromTo(length: nat, a: Int64, b: Int64, step: Int64, i: int)
    requires length <= I64_MAX && 0 <= a < length && 0 <= b < length && step < 0
    ensures SliceBy(length, Some(a), Some(b), step).Ok?
    ensures i in SliceBy(length, Some(a), Some(b), step).value <==> exists k: nat :: i == a + k * step && i > b
  {
    ProgressionVisits(a, b, step, i);
  }

  // Down to the beginning, where the first index is still selected.
  lemma DownFrom(length: nat, a: Int64, step: Int64, i: int)
    requires length <= I64_MAX && 0 <= a < length && step < 0
    ensures SliceBy(length, Some(a), None, step).Ok?
    ensures i in SliceBy(length, Some(a), None, step).value <==> exists k: nat :: i == a + k * step && i >= 0
  {
    ProgressionVisits(a, -1, step, i);
  }

  // A negative operand counts from the end.
  lemma NegativeFromEnd(length: nat, start: Option<Int64>, stop: Option<Int64>, step: Int64, i: Int64)
    requires length <= I64_MAX && step != 0 && 0 - length <= i < 0
    ensures SliceBy(length, Some(i), stop, step) == SliceBy(length, Some(length + i), stop, step)
    ensures SliceBy(length, start, Some(i), step) == SliceBy(length, start, Some(length + i), step)
  {
  }

  // Before the beginning: going up that is the beginning, going down nothing is left
  // to start from and nothing stops.
  lemma BeforeBeginning(length: nat, start: Option<Int64>, stop: Option<Int64>, step: Int64, i: Int64)
    requires length <= I64_MAX && step != 0 && i < 0 - length
    ensures step > 0 ==> SliceBy(length, Some(i), stop, step) == SliceBy(length, Some(0), stop, step)
    ensures step > 0 ==> SliceBy(length, start, Some(i), step) == Ok([])
    ensures step < 0 ==> SliceBy(length, Some(i), stop, step) == Ok([])
    ensures step < 0 ==> SliceBy(length, start, Some(i), step) == SliceBy(length, start, None, step)
  {
    hide Progression;
    NothingVisited(step);
  }

  // Past the end: going up nothing is left to start from and nothing stops, going down
  // that is the last index.
  lemma PastEnd(length: nat, start: Option<Int64>, stop: Option<Int64>, step: Int64, i: Int64)
    requires length <= I64_MAX && step != 0 && i >= length
    ensures step > 0 ==> SliceBy(length, Some(i), stop, step) == Ok([])
    ensures step > 0 ==> SliceBy(length, start, Some(i), step) == SliceBy(length, start, None, step)
    ensures step < 0 ==> SliceBy(length, Some(i), stop, step) == SliceBy(length, None, stop, step)
    ensures step < 0 ==> SliceBy(length, start, Some(i), step) == Ok([])
  {
    hide Progression;
    NothingVisited(step);
  }

  lemma NothingVisited(step: int)
    ensures forall first :: Progression(first, step, 0) == []
  {
  }

  // Without operands: from the first index up past the last, or from the last one down.
  lemma Defaults(length: nat, stop: Option<Int64>, start: Option<Int64>, step: Int64)
    requires length <= I64_MAX && step != 0
    ensures step > 0 ==> SliceBy(length, None, stop, step) == SliceBy(length, Some(0), stop, step)
    ensures step > 0 ==> SliceBy(length, start, None, step) == SliceBy(length, start, Some(length), step)
    ensures step < 0 && length > 0 ==> SliceBy(length, None, stop, step) == SliceBy(length, Some(length - 1), stop, step)
  {
  }

  // A slice fails for the first of these that applies: the sequence is too long, the
  // step is no 64-bit integer, it is zero, the start is none, the stop is none.
  lemma OperandErrors(length: nat, start: Option<Operand>, stop: Option<Operand>, step: Option<Operand>)
    ensures var r := Slice(length, start, stop, step);
      if length > 0x7FFF_FFFF_FFFF_FFFF then r == Err(SequenceTooLarge)
      else if Bad(step) then r == Err(Complaint(step))
      else if Zero(step) then r == Err(StepIsZero)
      else if Bad(start) then r == Err(Complaint(start))
      else if Bad(stop) then r == Err(Complaint(stop))
      else r.Ok?
  {
  }

  predicate Bad(operand: Option<Operand>) {
    operand.Some? && (operand.value.NotInteger? ||
      (operand.value.BigInt? && !(-0x8000_0000_0000_0000 <= operand.value.n < 0x8000_0000_0000_0000)))
  }

  function Complaint(operand: Option<Operand>): SliceError {
    if operand.Some? && operand.value.NotInteger? then NotAnInteger else IndexOutOfRange
  }

  predicate Zero(operand: Option<Operand>) {
    operand == Some(SmallInt(0)) || operand == Some(BigInt(0))
  }

  // Small and big integers of 64 bits are the same.
  lemma BigIsSmall(length: nat, start: Option<Operand>, stop: Option<Operand>, step: Option<Operand>, i: Int64)
    ensures Slice(length, Some(BigInt(i)), stop, step) == Slice(length, Some(SmallInt(i)), stop, step)
    ensures Slice(length, start, Some(BigInt(i)), step) == Slice(length, start, Some(SmallInt(i)), step)
    ensures Slice(length, start, stop, Some(BigInt(i))) == Slice(length, start, stop, Some(SmallInt(i)))
  {
  }
}
