/**
  The stop-the-world protocol (src/adaptive_v2/safepoint.rs). Every stretch of
  code that runs under the coordinator's lock is one atomic function on the
  shared `Control`; a run interleaves these sections of any number of mutators
  in any order. Waiting on the condition variable is a section that changes
  nothing, so it is left out, and a spurious wake-up is harmless.
 */
module Safepoint {
  import opened Wrappers

  type Id = nat

  // What the lock protects.
  datatype Control = Control(epoch: nat, nextId: Id, requestedBy: Option<Id>, mutators: map<Id, bool>)

  // Where the owner of a mutator is.
  datatype Place =
    | Running              // between calls
    | Requesting           // in `request_with`, waiting for the others to park
    | Operating            // in `request_with`, running the operation without the lock
    | Parked               // in `poll` or `park_for_next_request`, waiting for the request to end
    | Idle                 // in `park_for_next_request`, waiting for a request

  // ------------------------------------------------------- sections of the lock

  function Registered(c: Control): Control {
    c.(nextId := c.nextId + 1, mutators := c.mutators[c.nextId := false])
  }

  function Requested(c: Control, m: Id): Control {
    c.(epoch := c.epoch + 1, requestedBy := Some(m))
  }

  // The condition that ends a requester's wait.
  predicate OthersParked(c: Control, m: Id) {
    forall id :: id in c.mutators && id != m ==> c.mutators[id]
  }

  function Finished(c: Control): Control {
    c.(requestedBy := None, mutators := map id | id in c.mutators :: false)
  }

  // Whether a poll has to stop.
  predicate MustPark(c: Control, m: Id) {
    c.requestedBy.Some? && c.requestedBy.value != m
  }

  function ParkedBy(c: Control, m: Id): Control {
    if MustPark(c, m) then c.(mutators := c.mutators[m := true]) else c
  }

  function Dropped(c: Control, m: Id): Control {
    c.(mutators := c.mutators - {m})
  }

  // ------------------------------------------------------------ the whole system

  datatype System = System(control: Control, places: map<Id, Place>)

  function Initial(): System {
    System(Control(0, 0, None, map[]), map[])
  }

  datatype Event =
    | Register
    | Request(m: Id)      // entering `request_with`
    | Begin(m: Id)        // the wait is over, the lock is released, the operation starts
    | End(m: Id)          // after the operation, whether it returned or panicked
    | Poll(m: Id)
    | AwaitRequest(m: Id) // entering `park_for_next_request`
    | SeeRequest(m: Id)   // its first wait is over
    | Resume(m: Id)       // a parked mutator finds no request
    | Drop(m: Id)

  // The owner of a mutator is one thread, so it takes a section only from its place.
  predicate Enabled(s: System, e: Event) {
    match e
    case Register => true
    case Request(m) => m in s.places && s.places[m] == Running
    case Begin(m) => m in s.places && s.places[m] == Requesting && OthersParked(s.control, m)
    case End(m) => m in s.places && s.places[m] == Operating
    case Poll(m) => m in s.places && s.places[m] == Running
    case AwaitRequest(m) => m in s.places && s.places[m] == Running && s.control.requestedBy.None?
    case SeeRequest(m) => m in s.places && (s.places[m] == Running || s.places[m] == Idle) && s.control.requestedBy.Some?
    case Resume(m) => m in s.places && s.places[m] == Parked && s.control.requestedBy.None?
    case Drop(m) => m in s.places && s.places[m] == Running
  }

  function Next(s: System, e: Event): System
    requires Enabled(s, e)
  {
    match e
    case Register => System(Registered(s.control), s.places[s.control.nextId := Running])
    case Request(m) => System(Requested(s.control, m), s.places[m := Requesting])
    case Begin(m) => s.(places := s.places[m := Operating])
    case End(m) => System(Finished(s.control), s.places[m := Running])
    case Poll(m) => System(ParkedBy(s.control, m), s.places[m := if MustPark(s.control, m) then Parked else Running])
    case AwaitRequest(m) => s.(places := s.places[m := Idle])
    case SeeRequest(m) => System(ParkedBy(s.control, m), s.places[m := if MustPark(s.control, m) then Parked else Running])
    case Resume(m) => s.(places := s.places[m := Running])
    case Drop(m) => System(Dropped(s.control, m), s.places - {m})
  }

  // Which sections a mutator may enter: one that runs may do anything, and waiting for a
  // request starts as one of two sections according to whether there is one; the other
  // places have one way on, and only a parked, an idle and a requesting mutator wait.
  lemma WaysOn(s: System, m: Id)
    requires m in s.places
    ensures s.places[m] == Running ==>
      && Enabled(s, Request(m)) && Enabled(s, Poll(m)) && Enabled(s, Drop(m))
      && (Enabled(s, SeeRequest(m)) <==> s.control.requestedBy.Some?) && (Enabled(s, AwaitRequest(m)) <==> s.control.requestedBy.None?)
    ensures s.places[m] == Operating ==> Enabled(s, End(m))
    ensures s.places[m] == Requesting ==>
      (Enabled(s, Begin(m)) <==> forall o :: o in s.control.mutators && o != m ==> s.control.mutators[o])
    ensures s.places[m] == Parked ==> (Enabled(s, Resume(m)) <==> s.control.requestedBy.None?)
    ensures s.places[m] == Idle ==> (Enabled(s, SeeRequest(m)) <==> s.control.requestedBy.Some?)
    ensures s.places[m] != Running ==>
      !Enabled(s, Request(m)) && !Enabled(s, Poll(m)) && !Enabled(s, Drop(m)) && !Enabled(s, AwaitRequest(m))
  {
  }

  ghost predicate IsRun(ss: seq<System>, es: seq<Event>) {
    && |ss| == |es| + 1
    && forall i :: 0 <= i < |es| ==> Enabled(ss[i], es[i]) && ss[i + 1] == Next(ss[i], es[i])
  }

  // ------------------------------------------------------------------ invariants

  // A parked flag is only ever raised for an owner that is blocked, never
  // without a request, and the recorded requester is waiting or operating.
  ghost predicate Inv(s: System) {
    && s.places.Keys == s.control.mutators.Keys
    && (forall m :: m in s.places ==> m < s.control.nextId)
    && (forall m :: m in s.places && s.control.mutators[m] ==> s.places[m] == Parked)
    && (s.control.requestedBy.None? ==> forall m :: m in s.places ==> !s.control.mutators[m])
    && (s.control.requestedBy.Some? ==>
          var r := s.control.requestedBy.value;
          r in s.places && (s.places[r] == Requesting || s.places[r] == Operating))
    && (forall m, o :: m in s.places && o in s.places && s.places[m] == Operating && s.places[o] == Operating ==> m == o)
  }

  lemma InitialInv()
    ensures Inv(Initial())
  {
  }

  // The start of an operation finds every other mutator blocked.
  lemma BeginFindsParked(s: System, m: Id)
    requires Inv(s) && Enabled(s, Begin(m))
    ensures forall o :: o in s.places && o != m ==> s.places[o] == Parked && s.control.mutators[o]
  {
    forall o | o in s.places && o != m ensures s.places[o] == Parked && s.control.mutators[o] {
      assert o in s.control.mutators;
    }
  }

  // The invariant survives every section that any mutator may take next.
  lemma StepInv(s: System, e: Event)
    requires Inv(s) && Enabled(s, e)
    ensures Inv(Next(s, e))
  {
    if e.Begin? {
      BeginFindsParked(s, e.m);
    }
  }

  lemma {:induction false} RunInv(ss: seq<System>, es: seq<Event>, n: nat)
    requires IsRun(ss, es) && ss[0] == Initial() && n <= |es|
    ensures Inv(ss[n])
  {
    if n == 0 {
      InitialInv();
    } else {
      RunInv(ss, es, n - 1);
      StepInv(ss[n - 1], es[n - 1]);
    }
  }

  // In every reachable state of every interleaving at most one operation runs.
  lemma AtMostOneOperation(ss: seq<System>, es: seq<Event>, n: nat, a: Id, b: Id)
    requires IsRun(ss, es) && ss[0] == Initial() && n <= |es|
    requires a in ss[n].places && ss[n].places[a] == Operating
    requires b in ss[n].places && ss[n].places[b] == Operating
    ensures a == b
  {
    RunInv(ss, es, n);
  }

  // -------------------------------------------------------- the world stays stopped

  // During an operation of `m`, these mutators are held.
  ghost predicate Held(s: System, m: Id, others: set<Id>) {
    && m in s.places && s.places[m] == Operating
    && (others != {} ==> s.control.requestedBy.Some?)
    && forall o :: o in others ==> o in s.places && s.places[o] == Parked
  }

  lemma BeginHolds(s: System, m: Id)
    requires Inv(s) && Enabled(s, Begin(m))
    ensures Held(Next(s, Begin(m)), m, s.places.Keys - {m})
  {
    BeginFindsParked(s, m);
    if s.places.Keys - {m} != {} {
      var o :| o in s.places.Keys - {m};
      assert s.control.mutators[o];
    }
  }

  lemma StepHolds(s: System, e: Event, m: Id, others: set<Id>)
    requires Inv(s) && Held(s, m, others) && m !in others && Enabled(s, e) && e != End(m)
    ensures Held(Next(s, e), m, others)
  {
    assert forall o :: o in others ==> o < s.control.nextId;
  }

  // From the moment an operation starts until it ends, every other mutator that
  // was registered at its start stays blocked, in every interleaving; mutators
  // that register meanwhile may run.
  lemma WorldStopped(ss: seq<System>, es: seq<Event>, start: nat, n: nat, m: Id)
    requires IsRun(ss, es) && ss[0] == Initial() && start < n <= |es|
    requires es[start] == Begin(m)
    requires forall i :: start < i < n ==> es[i] != End(m)
    ensures Held(ss[n], m, ss[start].places.Keys - {m})
  {
    RunInv(ss, es, start);
    BeginHolds(ss[start], m);
    for i := start + 1 to n
      invariant Held(ss[i], m, ss[start].places.Keys - {m})
    {
      RunInv(ss, es, i);
      StepHolds(ss[i], es[i], m, ss[start].places.Keys - {m});
    }
  }

  // An operation may run without a pending request, but only alone: when it
  // started, nobody else was registered.
  lemma NoRequestOnlyAlone(s: System, m: Id)
    requires Inv(s) && Enabled(s, Begin(m)) && s.control.requestedBy.None?
    ensures s.places.Keys == {m}
  {
    BeginFindsParked(s, m);
    assert forall o :: o in s.places ==> o == m;
  }

  // ------------------------------------------------- when a request is still served

  // `m` waits for a mutator that waits for something that never comes: another
  // requester, a blocked mutator whose flag a previous operation cleared before
  // it woke up, or, once the request itself was cleared, an idle mutator.
  ghost predicate Doomed(s: System, m: Id) {
    && m in s.places && s.places[m] == Requesting
    && (
      || (exists o :: o in s.places && o != m && s.places[o] == Requesting)
      || (s.control.requestedBy.Some? && NoneOperating(s) && exists o :: o in s.places && Forgotten(s, o))
      || (s.control.requestedBy.None? && exists o :: o in s.places && s.places[o] == Idle)
    )
  }

  ghost predicate NoneOperating(s: System) {
    forall o :: o in s.places ==> s.places[o] != Operating
  }

  // Blocked, but not counted as parked.
  ghost predicate Forgotten(s: System, o: Id) {
    o in s.places && s.places[o] == Parked && o in s.control.mutators && !s.control.mutators[o]
  }

  // From `s` there is a schedule of `n` more sections after which `m` starts its operation.
  ghost predicate ServedIn(s: System, m: Id, n: nat)
    decreases n
  {
    if n == 0 then Enabled(s, Begin(m))
    else exists e :: Enabled(s, e) && ServedIn(Next(s, e), m, n - 1)
  }

  // While someone is doomed nobody starts an operation.
  lemma NoBeginWhileDoomed(s: System, m: Id, x: Id)
    requires Inv(s) && Doomed(s, m)
    ensures !Enabled(s, Begin(x))
  {
    if Enabled(s, Begin(x)) {
      BeginFindsParked(s, x);
      assert false;
    }
  }

  lemma RequesterStays(s: System, m: Id, e: Event, o: Id)
    requires Inv(s) && Enabled(s, e) && !e.Begin? && m in s.places && s.places[m] == Requesting
    requires o in s.places && s.places[o] == Requesting
    ensures m in Next(s, e).places && Next(s, e).places[m] == Requesting
    ensures o in Next(s, e).places && Next(s, e).places[o] == Requesting
  {
  }

  lemma ForgottenStays(s: System, m: Id, e: Event, o: Id)
    requires Inv(s) && Enabled(s, e) && !e.Begin? && m in s.places && s.places[m] == Requesting
    requires s.control.requestedBy.Some? && NoneOperating(s) && Forgotten(s, o)
    ensures Forgotten(Next(s, e), o) && Next(s, e).control.requestedBy.Some? && NoneOperating(Next(s, e))
  {
  }

  lemma IdleStays(s: System, m: Id, e: Event, o: Id)
    requires Inv(s) && Enabled(s, e) && !e.Begin? && m in s.places && s.places[m] == Requesting
    requires s.control.requestedBy.None? && o in s.places && s.places[o] == Idle
    ensures Doomed(Next(s, e), m)
  {
    var s' := Next(s, e);
    if e.Request? {
      assert s'.places[e.m] == Requesting;
    } else {
      assert s'.places[o] == Idle;
    }
  }

  lemma DoomedStays(s: System, m: Id, e: Event)
    requires Inv(s) && Doomed(s, m) && Enabled(s, e)
    ensures Doomed(Next(s, e), m)
  {
    if e.Begin? {
      NoBeginWhileDoomed(s, m, e.m);
    } else if o :| o in s.places && o != m && s.places[o] == Requesting {
      RequesterStays(s, m, e, o);
    } else if s.control.requestedBy.Some? {
      var o :| o in s.places && Forgotten(s, o);
      RequesterStays(s, m, e, m);
      ForgottenStays(s, m, e, o);
    } else {
      var o :| o in s.places && s.places[o] == Idle;
      IdleStays(s, m, e, o);
    }
  }

  lemma {:induction false} DoomedNeverServed(s: System, m: Id, n: nat)
    requires Inv(s) && Doomed(s, m)
    ensures !ServedIn(s, m, n)
    decreases n
  {
    if n == 0 {
      NoBeginWhileDoomed(s, m, m);
    } else {
      forall e | Enabled(s, e) ensures !ServedIn(Next(s, e), m, n - 1) {
        StepInv(s, e);
        DoomedStays(s, m, e);
        DoomedNeverServed(Next(s, e), m, n - 1);
      }
    }
  }

  // How far the other mutators are from having left.
  ghost function Distance(s: System): nat {
    |s.places| + |NotRunning(s.places)| + |IdleOnes(s.places)|
  }

  ghost function NotRunning(places: map<Id, Place>): set<Id> {
    set o | o in places && places[o] != Running
  }

  ghost function IdleOnes(places: map<Id, Place>): set<Id> {
    set o | o in places && places[o] == Idle
  }

  // One that was idle or blocked and moves on.
  lemma MovingCloser(places: map<Id, Place>, o: Id, p: Place)
    requires o in places && places[o] != Running && p != Idle
    requires p == Running || places[o] == Idle
    ensures |places[o := p]| == |places|
    ensures |NotRunning(places[o := p])| + |IdleOnes(places[o := p])| < |NotRunning(places)| + |IdleOnes(places)|
  {
    var after := places[o := p];
    assert after.Keys == places.Keys && |after| == |after.Keys| && |places| == |places.Keys|;
    assert NotRunning(after) == if p == Running then NotRunning(places) - {o} else NotRunning(places);
    assert IdleOnes(after) == IdleOnes(places) - {o};
    assert o in NotRunning(places);
    assert places[o] == Idle ==> o in IdleOnes(places);
  }

  lemma LeavingCloser(places: map<Id, Place>, o: Id)
    requires o in places && places[o] == Running
    ensures |places - {o}| < |places|
    ensures NotRunning(places - {o}) == NotRunning(places) && IdleOnes(places - {o}) == IdleOnes(places)
  {
    var after := places - {o};
    assert after.Keys == places.Keys - {o} && |after| == |after.Keys| && |places| == |places.Keys|;
  }

  // `m` waits and need not wait for ever.
  ghost predicate Hopeful(s: System, m: Id) {
    m in s.places && s.places[m] == Requesting && !Doomed(s, m)
  }

  lemma SeeingHelps(s: System, m: Id, o: Id)
    requires Inv(s) && Hopeful(s, m)
    requires o in s.places && s.places[o] == Idle && s.control.requestedBy.Some?
    ensures Hopeful(Next(s, SeeRequest(o)), m)
  {
    var s' := Next(s, SeeRequest(o));
    assert forall x :: x in s.places ==> (Forgotten(s', x) ==> Forgotten(s, x));
    assert forall x :: x in s.places && x != o ==> s'.places[x] == s.places[x];
  }

  lemma EndingHelps(s: System, m: Id, o: Id)
    requires Inv(s) && Hopeful(s, m)
    requires o in s.places && s.places[o] == Operating && IdleOnes(s.places) == {}
    ensures Hopeful(Next(s, End(o)), m)
  {
    var s' := Next(s, End(o));
    assert forall x :: x in s'.places && s'.places[x] == Idle ==> x in IdleOnes(s.places);
  }

  lemma ResumingHelps(s: System, m: Id, o: Id)
    requires Inv(s) && Hopeful(s, m)
    requires o in s.places && s.places[o] == Parked && s.control.requestedBy.None?
    ensures Hopeful(Next(s, Resume(o)), m)
  {
    var s' := Next(s, Resume(o));
    assert forall x :: x in s.places && x != o ==> s'.places[x] == s.places[x];
  }

  lemma DroppingHelps(s: System, m: Id, o: Id)
    requires Inv(s) && Hopeful(s, m)
    requires o in s.places && s.places[o] == Running && NoneOperating(s)
    ensures Hopeful(Next(s, Drop(o)), m)
  {
    var s' := Next(s, Drop(o));
    assert forall x :: x in s'.places ==> (Forgotten(s', x) ==> Forgotten(s, x));
    assert forall x :: x in s'.places ==> s'.places[x] == s.places[x];
  }

  // Until `m` can start, some section brings it closer without dooming it.
  lemma SomeSectionHelps(s: System, m: Id) returns (e: Event)
    requires Inv(s) && Hopeful(s, m) && !Enabled(s, Begin(m))
    ensures Enabled(s, e) && Hopeful(Next(s, e), m) && Distance(Next(s, e)) < Distance(s)
  {
    if o :| o in s.places && s.places[o] == Idle {
      SeeingHelps(s, m, o);
      MovingCloser(s.places, o, Parked);
      e := SeeRequest(o);
    } else if o :| o in s.places && s.places[o] == Operating {
      assert IdleOnes(s.places) == {};
      EndingHelps(s, m, o);
      MovingCloser(s.places, o, Running);
      e := End(o);
    } else if o :| o in s.places && s.places[o] == Running {
      DroppingHelps(s, m, o);
      LeavingCloser(s.places, o);
      e := Drop(o);
    } else {
      var o :| o in s.control.mutators && o != m && !s.control.mutators[o];
      assert s.places[o] == Parked;
      assert Forgotten(s, o);
      ResumingHelps(s, m, o);
      MovingCloser(s.places, o, Running);
      e := Resume(o);
    }
  }

  lemma {:induction false} HopefulServed(s: System, m: Id) returns (n: nat)
    requires Inv(s) && Hopeful(s, m)
    ensures ServedIn(s, m, n)
    decreases Distance(s)
  {
    if Enabled(s, Begin(m)) {
      n := 0;
    } else {
      var e := SomeSectionHelps(s, m);
      StepInv(s, e);
      var k := HopefulServed(Next(s, e), m);
      n := k + 1;
    }
  }

  ghost predicate CanBeServed(s: System, m: Id) {
    exists n: nat :: ServedIn(s, m, n)
  }

  // Liveness is not promised; this is exactly what is lost. A waiting requester
  // can still be served by some schedule if and only if it is not doomed.
  lemma ServedIffNotDoomed(s: System, m: Id)
    requires Inv(s) && m in s.places && s.places[m] == Requesting
    ensures CanBeServed(s, m) <==> !Doomed(s, m)
  {
    if Doomed(s, m) {
      forall n: nat ensures !ServedIn(s, m, n) {
        DoomedNeverServed(s, m, n);
      }
    } else {
      var n := HopefulServed(s, m);
      assert ServedIn(s, m, n);
    }
  }

  function After(s: System, es: seq<Event>): Option<System>
    decreases |es|
  {
    if es == [] then Some(s)
    else if Enabled(s, es[0]) then After(Next(s, es[0]), es[1..])
    else None
  }

  // Two mutators suffice: when the initiator requests again before the parked
  // mutator has woken up, neither of them ever proceeds.
  lemma SecondRequestTooSoon()
    ensures var s := After(Initial(), [Register, Register, Request(0), Poll(1), Begin(0), End(0), Request(0)]);
      s.Some? && Doomed(s.value, 0)
  {
    var s1 := Next(Next(Initial(), Register), Register);
    var s2 := Next(Next(s1, Request(0)), Poll(1));
    var s3 := Next(Next(s2, Begin(0)), End(0));
    var s4 := Next(s3, Request(0));
    assert After(s3, [Request(0)]) == Some(s4) by { assert [Request(0)][1..] == []; }
    assert After(s2, [Begin(0), End(0), Request(0)]) == Some(s4) by {
      assert [Begin(0), End(0), Request(0)][1..] == [End(0), Request(0)];
      assert [End(0), Request(0)][1..] == [Request(0)];
    }
    assert After(s1, [Request(0), Poll(1), Begin(0), End(0), Request(0)]) == Some(s4) by {
      assert [Request(0), Poll(1), Begin(0), End(0), Request(0)][1..] == [Poll(1), Begin(0), End(0), Request(0)];
      assert [Poll(1), Begin(0), End(0), Request(0)][1..] == [Begin(0), End(0), Request(0)];
    }
    assert Forgotten(s4, 1);
    var es := [Register, Register, Request(0), Poll(1), Begin(0), End(0), Request(0)];
    assert es[1..] == [Register, Request(0), Poll(1), Begin(0), End(0), Request(0)];
    assert es[1..][1..] == [Request(0), Poll(1), Begin(0), End(0), Request(0)];
  }

  // ---------------------------------------------------- the coordinator in place

  // The shared state updated under the lock, section by section.
  class Coordinator {
    var epoch: nat
    var nextId: Id
    var requestedBy: Option<Id>
    var mutators: map<Id, bool>

    function View(): Control
      reads this
    {
      Control(epoch, nextId, requestedBy, mutators)
    }

    constructor ()
      ensures View() == Initial().control
    {
      epoch, nextId, requestedBy, mutators := 0, 0, None, map[];
    }

    method Register() returns (id: Id, observed: nat)
      modifies this
      ensures View() == Registered(old(View())) && id == old(nextId) && observed == epoch
    {
      id := nextId;
      nextId := nextId + 1;
      observed := epoch;
      mutators := mutators[id := false];
    }

    method BeginRequest(initiator: Id)
      modifies this
      ensures View() == Requested(old(View()), initiator)
    {
      epoch := epoch + 1;
      requestedBy := Some(initiator);
    }

    // The condition a requester evaluates each time it wakes up.
    method MustWait(initiator: Id) returns (wait: bool)
      ensures wait <==> !OthersParked(View(), initiator)
    {
      var rest := mutators.Keys;
      while rest != {}
        invariant rest <= mutators.Keys
        invariant forall id :: id in mutators && id !in rest && id != initiator ==> mutators[id]
        decreases rest
      {
        var id :| id in rest;
        if id != initiator && !mutators[id] {
          return true;
        }
        rest := rest - {id};
      }
      return false;
    }

    method EndRequest()
      modifies this
      ensures View() == Finished(old(View()))
    {
      requestedBy := None;
      var rest := mutators.Keys;
      while rest != {}
        invariant rest <= mutators.Keys == old(mutators).Keys
        invariant forall id :: id in mutators && id !in rest ==> !mutators[id]
        invariant epoch == old(epoch) && nextId == old(nextId) && requestedBy == None
        decreases rest
      {
        var id :| id in rest;
        mutators := mutators[id := false];
        rest := rest - {id};
      }
    }

    // The section that `poll` and `park_for_next_request` share.
    method ParkIfRequested(id: Id) returns (parked: bool)
      modifies this
      ensures View() == ParkedBy(old(View()), id) && parked == MustPark(old(View()), id)
    {
      parked := requestedBy.Some? && requestedBy.value != id;
      if parked {
        mutators := mutators[id := true];
      }
    }

    method DropMutator(id: Id)
      modifies this
      ensures View() == Dropped(old(View()), id)
    {
      mutators := mutators - {id};
    }
  }
}
