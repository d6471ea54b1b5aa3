/**
  The shared cache of native code (src/adaptive_v2/native/cache.rs): entries with
  sizes, uses and leases, evicted by least recent use. Every method runs under one
  lock, so a run is a sequence of them.
 */
module CodeCache {
  import opened MachineWords
  import opened Wrappers

  const CLOCK_MAX: nat := 0xFFFF_FFFF_FFFF_FFFF
  const ACTIVE_MAX: nat := 0xFFFF_FFFF

  datatype Key = Key(snapshot: nat, fingerprint: nat, tier: nat, derivation: nat)

  // The order of keys, field by field.
  predicate KeyLess(a: Key, b: Key) {
    if a.snapshot != b.snapshot then a.snapshot < b.snapshot
    else if a.fingerprint != b.fingerprint then a.fingerprint < b.fingerprint
    else if a.tier != b.tier then a.tier < b.tier
    else a.derivation < b.derivation
  }

  datatype Entry<T> = Entry(value: T, bytes: nat, lastUse: nat, active: nat, stale: bool)

  type Entries<T> = map<Key, Entry<T>>

  // Less recently used; the key decides among equals.
  predicate UsedBefore<T>(entries: Entries<T>, a: Key, b: Key)
    requires a in entries && b in entries
  {
    entries[a].lastUse < entries[b].lastUse || (entries[a].lastUse == entries[b].lastUse && KeyLess(a, b))
  }

  // ------------------------------------------------------------- sums over entries

  ghost function Total<T>(entries: Entries<T>): nat
    decreases |entries|
  {
    if entries == map[] then 0
    else
      var k :| k in entries;
      entries[k].bytes + Total(entries - {k})
  }

  // The entries that hold a value.
  ghost function Holders<T(!new)>(entries: Entries<T>, v: T): set<Key> {
    set k | k in entries && entries[k].value == v
  }

  lemma {:induction false} TotalWithout<T>(entries: Entries<T>, k: Key)
    requires k in entries
    ensures Total(entries) == entries[k].bytes + Total(entries - {k})
    decreases |entries|
  {
    var x :| x in entries && Total(entries) == entries[x].bytes + Total(entries - {x});
    if x != k {
      TotalWithout(entries - {x}, k);
      TotalWithout(entries - {k}, x);
      assert entries - {x} - {k} == entries - {k} - {x};
    }
  }

  lemma HoldersWithout<T(!new)>(entries: Entries<T>, k: Key, v: T)
    requires k in entries
    ensures |Holders(entries, v)| == |Holders(entries - {k}, v)| + if entries[k].value == v then 1 else 0
  {
    assert Holders(entries - {k}, v) == Holders(entries, v) - {k};
  }

  lemma InsertingTotal<T>(entries: Entries<T>, k: Key, e: Entry<T>)
    ensures Total(entries[k := e]) == Total(entries - {k}) + e.bytes
  {
    TotalWithout(entries[k := e], k);
    assert entries[k := e] - {k} == entries - {k};
  }

  lemma InsertingHolder<T(!new)>(entries: Entries<T>, k: Key, e: Entry<T>, v: T)
    ensures |Holders(entries[k := e], v)| == |Holders(entries - {k}, v)| + if e.value == v then 1 else 0
  {
    HoldersWithout(entries[k := e], k, v);
    assert entries[k := e] - {k} == entries - {k};
  }

  lemma {:induction false} SameSizes<T>(entries: Entries<T>, marked: Entries<T>)
    requires marked.Keys == entries.Keys && forall k :: k in entries ==> marked[k].bytes == entries[k].bytes
    ensures Total(marked) == Total(entries)
    decreases |entries|
  {
    if k :| k in entries {
      TotalWithout(entries, k);
      TotalWithout(marked, k);
      SameSizes(entries - {k}, marked - {k});
    } else {
      assert entries == map[] && marked == map[];
    }
  }

  // --------------------------------------------------------------------- the state

  datatype Cache<T> = Cache(entries: Entries<T>, evicted: seq<T>, maxCount: nat, maxBytes: nat, usedBytes: nat, clock: nat)

  predicate WithinLimits<T>(c: Cache<T>) {
    |c.entries| <= c.maxCount && c.usedBytes <= c.maxBytes
  }

  predicate AllLeased<T>(entries: Entries<T>) {
    forall k :: k in entries ==> entries[k].active > 0
  }

  predicate IdleStale<T>(e: Entry<T>) {
    e.stale && e.active == 0
  }

  // Used bytes are the sum of the sizes.
  ghost predicate Accounted<T>(c: Cache<T>) {
    c.usedBytes == Total(c.entries) && c.usedBytes <= USIZE_MAX
  }

  function Dropped<T>(c: Cache<T>, k: Key): Cache<T> {
    if k !in c.entries then c
    else
      c.(entries := c.entries - {k},
         usedBytes := if c.entries[k].bytes <= c.usedBytes then c.usedBytes - c.entries[k].bytes else 0,
         evicted := c.evicted + [c.entries[k].value])
  }

  function DroppedAll<T>(c: Cache<T>, keys: seq<Key>): Cache<T>
    decreases |keys|
  {
    if keys == [] then c else Dropped(DroppedAll(c, keys[..|keys| - 1]), keys[|keys| - 1])
  }

  // How often a value is in the cache or waits to be drained.
  ghost function Copies<T(!new)>(c: Cache<T>, v: T): nat {
    |Holders(c.entries, v)| + multiset(c.evicted)[v]
  }

  lemma DroppedAccounted<T>(c: Cache<T>, k: Key)
    requires Accounted(c)
    ensures Accounted(Dropped(c, k))
  {
    if k in c.entries {
      TotalWithout(c.entries, k);
    }
  }

  lemma DroppedConserves<T(!new)>(c: Cache<T>, k: Key, v: T)
    ensures Copies(Dropped(c, k), v) == Copies(c, v)
  {
    if k in c.entries {
      HoldersWithout(c.entries, k, v);
      assert multiset(c.evicted + [c.entries[k].value]) == multiset(c.evicted) + multiset{c.entries[k].value};
    }
  }

  // Exactly the idle stale entries, in the order of keys.
  ghost predicate StaleGone<T>(entries: Entries<T>, gone: seq<Key>) {
    && (forall i :: 0 <= i < |gone| ==> gone[i] in entries && IdleStale(entries[gone[i]]))
    && (forall k :: k in entries && IdleStale(entries[k]) ==> k in gone)
    && (forall i, j :: 0 <= i < j < |gone| ==> KeyLess(gone[i], gone[j]))
  }

  // Idle entries, least recently used first, each gone before any that stays.
  ghost predicate OldestGone<T>(entries: Entries<T>, gone: seq<Key>) {
    && (forall i :: 0 <= i < |gone| ==> gone[i] in entries && entries[gone[i]].active == 0)
    && (forall i, j :: 0 <= i < j < |gone| ==> gone[i] != gone[j] && UsedBefore(entries, gone[i], gone[j]))
    && (forall i, k :: 0 <= i < |gone| && k in entries && k !in gone && entries[k].active == 0 ==> UsedBefore(entries, gone[i], k))
  }

  // As many of the oldest as the limits ask for.
  ghost predicate WithinLimitsAfter<T>(c: Cache<T>, c': Cache<T>, oldest: seq<Key>) {
    && OldestGone(c.entries, oldest)
    && c' == DroppedAll(c, oldest)
    && (WithinLimits(c') || AllLeased(c'.entries))
    && forall i :: 0 <= i < |oldest| ==> !WithinLimits(DroppedAll(c, oldest[..i]))
  }

  // Eviction: stale entries first, then the oldest.
  ghost predicate Evicted<T>(c: Cache<T>, c': Cache<T>, stale: seq<Key>, oldest: seq<Key>) {
    StaleGone(c.entries, stale) && WithinLimitsAfter(DroppedAll(c, stale), c', oldest)
  }

  // ------------------------------------------------------ what eviction keeps and loses

  lemma {:induction false} DroppedAllEntries<T>(c: Cache<T>, keys: seq<Key>)
    ensures DroppedAll(c, keys).entries == c.entries - set k | k in keys
    ensures DroppedAll(c, keys).maxCount == c.maxCount && DroppedAll(c, keys).maxBytes == c.maxBytes && DroppedAll(c, keys).clock == c.clock
    decreases |keys|
  {
    if keys != [] {
      var last := |keys| - 1;
      DroppedAllEntries(c, keys[..last]);
      assert (set k | k in keys) == (set k | k in keys[..last]) + {keys[last]};
    } else {
      assert (set k | k in keys) == {};
    }
  }

  lemma {:induction false} DroppedAllAccounted<T>(c: Cache<T>, keys: seq<Key>)
    requires Accounted(c)
    ensures Accounted(DroppedAll(c, keys))
    decreases |keys|
  {
    if keys != [] {
      var last := |keys| - 1;
      DroppedAllAccounted(c, keys[..last]);
      DroppedAccounted(DroppedAll(c, keys[..last]), keys[last]);
    }
  }

  lemma {:induction false} DroppedAllConserves<T(!new)>(c: Cache<T>, keys: seq<Key>, v: T)
    ensures Copies(DroppedAll(c, keys), v) == Copies(c, v)
    decreases |keys|
  {
    if keys != [] {
      var last := |keys| - 1;
      DroppedAllConserves(c, keys[..last], v);
      DroppedConserves(DroppedAll(c, keys[..last]), keys[last], v);
    }
  }

  // Leased entries stay, and no entry changes.
  lemma EvictedKeeps<T>(c: Cache<T>, c': Cache<T>, stale: seq<Key>, oldest: seq<Key>)
    requires Evicted(c, c', stale, oldest)
    ensures c'.entries.Keys <= c.entries.Keys && forall k :: k in c'.entries ==> c'.entries[k] == c.entries[k]
    ensures forall k :: k in c.entries && c.entries[k].active > 0 ==> k in c'.entries
    ensures forall k :: k in c'.entries ==> !IdleStale(c'.entries[k])
    ensures c'.maxCount == c.maxCount && c'.maxBytes == c.maxBytes && c'.clock == c.clock
    ensures WithinLimits(c') || AllLeased(c'.entries)
  {
    DroppedAllEntries(c, stale);
    DroppedAllEntries(DroppedAll(c, stale), oldest);
  }

  // Sizes stay accounted for.
  lemma EvictedAccounted<T>(c: Cache<T>, c': Cache<T>, stale: seq<Key>, oldest: seq<Key>)
    requires Evicted(c, c', stale, oldest) && Accounted(c)
    ensures Accounted(c')
  {
    DroppedAllAccounted(c, stale);
    DroppedAllAccounted(DroppedAll(c, stale), oldest);
  }

  // No value is lost, whatever the sizes say.
  lemma EvictedConserves<T(!new)>(c: Cache<T>, c': Cache<T>, stale: seq<Key>, oldest: seq<Key>, v: T)
    requires Evicted(c, c', stale, oldest)
    ensures Copies(c', v) == Copies(c, v)
  {
    DroppedAllConserves(c, stale, v);
    DroppedAllConserves(DroppedAll(c, stale), oldest, v);
  }

  // ------------------------------------------------------------------ eviction as it runs

  lemma OrderTotal(a: Key, b: Key)
    ensures a == b || KeyLess(a, b) || KeyLess(b, a)
  {
  }

  // Keys are ordered as their fields in turn, the snapshot first.
  lemma OrderOfFields(a: Key, b: Key)
    ensures a.snapshot < b.snapshot ==> KeyLess(a, b)
    ensures a.snapshot == b.snapshot && a.fingerprint < b.fingerprint ==> KeyLess(a, b)
    ensures a.snapshot == b.snapshot && a.fingerprint == b.fingerprint && a.tier < b.tier ==> KeyLess(a, b)
    ensures a.(derivation := 0) == b.(derivation := 0) && a.derivation < b.derivation ==> KeyLess(a, b)
    ensures !(KeyLess(a, b) && KeyLess(b, a)) && !KeyLess(a, a)
  {
  }

  // The smallest of the idle stale keys.
  method FirstStale<T>(entries: Entries<T>) returns (found: Option<Key>)
    ensures found.None? ==> forall k :: k in entries ==> !IdleStale(entries[k])
    ensures found.Some? ==>
      && found.value in entries && IdleStale(entries[found.value])
      && forall k :: k in entries && IdleStale(entries[k]) && k != found.value ==> KeyLess(found.value, k)
  {
    found := None;
    var rest := entries.Keys;
    while rest != {}
      invariant rest <= entries.Keys
      invariant found.None? ==> forall k :: k in entries && k !in rest ==> !IdleStale(entries[k])
      invariant found.Some? ==>
        && found.value in entries && IdleStale(entries[found.value])
        && forall k :: k in entries && k !in rest && IdleStale(entries[k]) && k != found.value ==> KeyLess(found.value, k)
      decreases |rest|
    {
      var k :| k in rest;
      rest := rest - {k};
      if IdleStale(entries[k]) {
        if found.Some? {
          OrderTotal(k, found.value);
        }
        if found.None? || KeyLess(k, found.value) {
          found := Some(k);
        }
      }
    }
  }

  // The least recently used idle key.
  method Oldest<T>(entries: Entries<T>) returns (found: Option<Key>)
    ensures found.None? ==> AllLeased(entries)
    ensures found.Some? ==>
      && found.value in entries && entries[found.value].active == 0
      && forall k :: k in entries && entries[k].active == 0 && k != found.value ==> UsedBefore(entries, found.value, k)
  {
    found := None;
    var rest := entries.Keys;
    while rest != {}
      invariant rest <= entries.Keys
      invariant found.None? ==> forall k :: k in entries && k !in rest ==> entries[k].active > 0
      invariant found.Some? ==>
        && found.value in entries && entries[found.value].active == 0
        && forall k :: k in entries && k !in rest && entries[k].active == 0 && k != found.value ==> UsedBefore(entries, found.value, k)
      decreases |rest|
    {
      var k :| k in rest;
      rest := rest - {k};
      if entries[k].active == 0 {
        if found.Some? {
          OrderTotal(k, found.value);
        }
        if found.None? || UsedBefore(entries, k, found.value) {
          found := Some(k);
        }
      }
    }
  }

  // Stale entries under removal: those gone are the smallest.
  ghost predicate StaleSoFar<T>(entries: Entries<T>, gone: seq<Key>) {
    && (forall i :: 0 <= i < |gone| ==> gone[i] in entries && IdleStale(entries[gone[i]]))
    && (forall i, j :: 0 <= i < j < |gone| ==> KeyLess(gone[i], gone[j]))
    && (forall i, k :: 0 <= i < |gone| && k in entries && k !in gone && IdleStale(entries[k]) ==> KeyLess(gone[i], k))
  }

  lemma StaleNext<T>(c: Cache<T>, gone: seq<Key>, k: Key)
    requires StaleSoFar(c.entries, gone)
    requires var rest := DroppedAll(c, gone).entries;
      && k in rest && IdleStale(rest[k])
      && forall x :: x in rest && IdleStale(rest[x]) && x != k ==> KeyLess(k, x)
    ensures StaleSoFar(c.entries, gone + [k])
    ensures DroppedAll(c, gone + [k]) == Dropped(DroppedAll(c, gone), k)
  {
    DroppedAllEntries(c, gone);
    assert (gone + [k])[..|gone|] == gone;
  }

  lemma StaleDone<T>(c: Cache<T>, gone: seq<Key>)
    requires StaleSoFar(c.entries, gone)
    requires forall x :: x in DroppedAll(c, gone).entries ==> !IdleStale(DroppedAll(c, gone).entries[x])
    ensures StaleGone(c.entries, gone)
  {
    DroppedAllEntries(c, gone);
    var rest := DroppedAll(c, gone).entries;
    assert forall k :: k in c.entries && k !in gone ==> k in rest && rest[k] == c.entries[k];
  }

  lemma OldestNext<T>(c: Cache<T>, gone: seq<Key>, k: Key)
    requires OldestGone(c.entries, gone)
    requires var rest := DroppedAll(c, gone).entries;
      && k in rest && rest[k].active == 0
      && forall x :: x in rest && rest[x].active == 0 && x != k ==> UsedBefore(rest, k, x)
    ensures OldestGone(c.entries, gone + [k])
    ensures DroppedAll(c, gone + [k]) == Dropped(DroppedAll(c, gone), k)
  {
    DroppedAllEntries(c, gone);
    assert (gone + [k])[..|gone|] == gone;
    OldestExtends(c.entries, gone, DroppedAll(c, gone).entries, k);
  }

  lemma OldestExtends<T>(entries: Entries<T>, gone: seq<Key>, rest: Entries<T>, k: Key)
    requires OldestGone(entries, gone) && rest == entries - set x | x in gone
    requires k in rest && rest[k].active == 0
    requires forall x :: x in rest && rest[x].active == 0 && x != k ==> UsedBefore(rest, k, x)
    ensures OldestGone(entries, gone + [k])
  {
    var more := gone + [k];
    forall i, x | 0 <= i < |more| && x in entries && x !in more && entries[x].active == 0 ensures UsedBefore(entries, more[i], x) {
      assert x !in gone && x in rest;
    }
  }

  class SharedCodeCache<T> {
    var entries: Entries<T>
    var evicted: seq<T>
    const maxCount: nat
    const maxBytes: nat
    var usedBytes: nat
    var clock: nat

    function View(): Cache<T>
      reads this
    {
      Cache(entries, evicted, maxCount, maxBytes, usedBytes, clock)
    }

    constructor (maxCount: nat, maxBytes: nat)
      ensures View() == Cache(map[], [], maxCount, maxBytes, 0, 0)
    {
      this.maxCount, this.maxBytes := maxCount, maxBytes;
      entries, evicted, usedBytes, clock := map[], [], 0, 0;
    }

    // One entry leaves the cache for the list of values to drain.
    method RemoveEntry(k: Key)
      requires k in entries
      modifies this`entries, this`usedBytes, this`evicted
      ensures View() == Dropped(old(View()), k)
    {
      var entry := entries[k];
      entries := entries - {k};
      usedBytes := if entry.bytes <= usedBytes then usedBytes - entry.bytes else 0;
      evicted := evicted + [entry.value];
    }

    method EvictStale() returns (ghost gone: seq<Key>)
      modifies this`entries, this`usedBytes, this`evicted
      ensures StaleGone(old(entries), gone) && View() == DroppedAll(old(View()), gone)
    {
      ghost var c := View();
      gone := [];
      var next := FirstStale(entries);
      while next.Some?
        invariant StaleSoFar(c.entries, gone) && View() == DroppedAll(c, gone)
        invariant next.None? ==> forall k :: k in entries ==> !IdleStale(entries[k])
        invariant next.Some? ==>
          && next.value in entries && IdleStale(entries[next.value])
          && forall k :: k in entries && IdleStale(entries[k]) && k != next.value ==> KeyLess(next.value, k)
        decreases |entries| + if next.Some? then 1 else 0
      {
        StaleNext(c, gone, next.value);
        ghost var before := entries;
        gone := gone + [next.value];
        RemoveEntry(next.value);
        assert |entries.Keys| == |before.Keys - {next.value}|;
        next := FirstStale(entries);
      }
      StaleDone(c, gone);
    }

    method EvictOldest() returns (ghost gone: seq<Key>)
      modifies this`entries, this`usedBytes, this`evicted
      ensures WithinLimitsAfter(old(View()), View(), gone)
    {
      ghost var c := View();
      gone := [];
      while !(|entries| <= maxCount && usedBytes <= maxBytes)
        invariant OldestGone(c.entries, gone) && View() == DroppedAll(c, gone)
        invariant forall i :: 0 <= i < |gone| ==> !WithinLimits(DroppedAll(c, gone[..i]))
        decreases |entries|
      {
        var candidate := Oldest(entries);
        if candidate.None? {
          return;
        }
        OldestNext(c, gone, candidate.value);
        ghost var before, was := entries, gone;
        assert !WithinLimits(DroppedAll(c, gone));
        gone := gone + [candidate.value];
        forall i | 0 <= i < |gone| ensures !WithinLimits(DroppedAll(c, gone[..i])) {
          if i < |was| {
            assert gone[..i] == was[..i];
          } else {
            assert gone[..i] == was;
          }
        }
        RemoveEntry(candidate.value);
        assert |entries.Keys| == |before.Keys - {candidate.value}|;
      }
    }

    method EvictShared() returns (ghost stale: seq<Key>, ghost oldest: seq<Key>)
      modifies this`entries, this`usedBytes, this`evicted
      ensures Evicted(old(View()), View(), stale, oldest)
    {
      stale := EvictStale();
      oldest := EvictOldest();
    }

    // A new value under a key; `active` is 1 if it is leased at once.
    method Put(key: Key, bytes: nat, value: T, active: nat) returns (ghost stale: seq<Key>, ghost oldest: seq<Key>)
      modifies this
      ensures Evicted(AfterPut(old(View()), key, bytes, value, active), View(), stale, oldest)
    {
      hide Evicted;
      clock := if clock < CLOCK_MAX then clock + 1 else 0;
      usedBytes := if usedBytes + bytes <= USIZE_MAX then usedBytes + bytes else USIZE_MAX;
      var replaced := if key in entries then Some(entries[key]) else None;
      entries := entries[key := Entry(value, bytes, clock, active, false)];
      if replaced.Some? {
        usedBytes := if replaced.value.bytes <= usedBytes then usedBytes - replaced.value.bytes else 0;
        evicted := evicted + [replaced.value.value];
      }
      assert View() == AfterPut(old(View()), key, bytes, value, active);
      stale, oldest := EvictShared();
    }

    // A lease, unless the entry is missing or stale.
    method Lease(key: Key) returns (ok: bool)
      modifies this`entries, this`clock
      ensures (View(), ok) == AfterLease(old(View()), key)
    {
      clock := if clock < CLOCK_MAX then clock + 1 else 0;
      if key !in entries || entries[key].stale {
        return false;
      }
      var entry := entries[key];
      entries := entries[key := entry.(active := if entry.active < ACTIVE_MAX then entry.active + 1 else ACTIVE_MAX, lastUse := clock)];
      return true;
    }

    method DropLease(key: Key) returns (ghost stale: seq<Key>, ghost oldest: seq<Key>)
      modifies this
      ensures Evicted(AfterDrop(old(View()), key), View(), stale, oldest)
    {
      if key in entries {
        var entry := entries[key];
        entries := entries[key := entry.(active := if entry.active > 0 then entry.active - 1 else 0)];
      }
      stale, oldest := EvictShared();
    }

    method InvalidateSnapshot(snapshot: nat) returns (ghost stale: seq<Key>, ghost oldest: seq<Key>)
      modifies this
      ensures Evicted(AfterInvalidation(old(View()), snapshot), View(), stale, oldest)
    {
      entries := map k | k in entries :: if k.snapshot == snapshot then entries[k].(stale := true) else entries[k];
      stale, oldest := EvictShared();
    }

    method DrainEvicted() returns (values: seq<T>)
      modifies this`evicted
      ensures values == old(evicted) && View() == old(View()).(evicted := [])
    {
      values := evicted;
      evicted := [];
    }
  }

  // ------------------------------------------------------------------- whole runs

  function Ticked(clock: nat): nat {
    if clock < CLOCK_MAX then clock + 1 else 0
  }

  function AfterPut<T>(c: Cache<T>, key: Key, bytes: nat, value: T, active: nat): Cache<T> {
    var used := if c.usedBytes + bytes <= USIZE_MAX then c.usedBytes + bytes else USIZE_MAX;
    var entries := c.entries[key := Entry(value, bytes, Ticked(c.clock), active, false)];
    if key in c.entries then
      c.(entries := entries, clock := Ticked(c.clock),
         usedBytes := if c.entries[key].bytes <= used then used - c.entries[key].bytes else 0,
         evicted := c.evicted + [c.entries[key].value])
    else
      c.(entries := entries, clock := Ticked(c.clock), usedBytes := used)
  }

  function AfterLease<T>(c: Cache<T>, key: Key): (Cache<T>, bool) {
    var c' := c.(clock := Ticked(c.clock));
    if key !in c.entries || c.entries[key].stale then (c', false)
    else
      var entry := c.entries[key];
      var leased := entry.(active := if entry.active < ACTIVE_MAX then entry.active + 1 else ACTIVE_MAX, lastUse := c'.clock);
      (c'.(entries := c.entries[key := leased]), true)
  }

  function AfterDrop<T>(c: Cache<T>, key: Key): Cache<T> {
    if key !in c.entries then c
    else
      var entry := c.entries[key];
      c.(entries := c.entries[key := entry.(active := if entry.active > 0 then entry.active - 1 else 0)])
  }

  function AfterInvalidation<T>(c: Cache<T>, snapshot: nat): Cache<T> {
    c.(entries := map k | k in c.entries :: if k.snapshot == snapshot then c.entries[k].(stale := true) else c.entries[k])
  }

  datatype Op<T> =
    | Insert(key: Key, bytes: nat, value: T)
    | InsertAndLease(key: Key, bytes: nat, value: T)
    | TakeLease(key: Key)
    | DropLease(key: Key)
    | Invalidate(snapshot: nat)
    | Drain

  // The cache with what its users hold and have seen.
  datatype World<T> = World(cache: Cache<T>, leases: multiset<Key>, inserted: multiset<T>, drained: multiset<T>)

  ghost predicate EvictedSomehow<T>(c: Cache<T>, c': Cache<T>) {
    exists stale, oldest :: Evicted(c, c', stale, oldest)
  }

  // What an operation does before it evicts.
  function Before<T>(w: World<T>, op: Op<T>): World<T> {
    match op
    case Insert(key, bytes, value) =>
      w.(cache := AfterPut(w.cache, key, bytes, value, 0), inserted := w.inserted + multiset{value})
    case InsertAndLease(key, bytes, value) =>
      w.(cache := AfterPut(w.cache, key, bytes, value, 1), inserted := w.inserted + multiset{value}, leases := w.leases + multiset{key})
    case TakeLease(key) =>
      var (cache, ok) := AfterLease(w.cache, key);
      w.(cache := cache, leases := if ok then w.leases + multiset{key} else w.leases)
    case DropLease(key) => w.(cache := AfterDrop(w.cache, key), leases := w.leases - multiset{key})
    case Invalidate(snapshot) => w.(cache := AfterInvalidation(w.cache, snapshot))
    case Drain => w.(cache := w.cache.(evicted := []), drained := w.drained + multiset(w.cache.evicted))
  }

  predicate Evicts<T>(op: Op<T>) {
    !op.TakeLease? && !op.Drain?
  }

  ghost predicate Next<T>(w: World<T>, op: Op<T>, w': World<T>) {
    && w' == Before(w, op).(cache := w'.cache)
    && if Evicts(op) then EvictedSomehow(Before(w, op).cache, w'.cache) else w'.cache == Before(w, op).cache
  }

  // Nothing is so large that the byte counter fills up.
  predicate SizeFits<T>(w: World<T>, op: Op<T>) {
    op.Insert? || op.InsertAndLease? ==> w.cache.usedBytes + op.bytes <= USIZE_MAX
  }

  // A key is not inserted again while it is leased, and its lease counter does not fill up.
  predicate Disciplined<T>(w: World<T>, op: Op<T>) {
    match op
    case Insert(key, _, _) => w.leases[key] == 0
    case InsertAndLease(key, _, _) => w.leases[key] == 0
    case TakeLease(key) => AfterLease(w.cache, key).1 ==> w.leases[key] < 0xFFFF_FFFF
    case _ => true
  }

  // The leases of a key are counted at its entry.
  ghost predicate CountedAt<T>(w: World<T>, k: Key) {
    && (k in w.cache.entries ==> w.cache.entries[k].active == w.leases[k])
    && (w.leases[k] > 0 ==> k in w.cache.entries)
  }

  // Every lease is counted at its entry, and only there.
  ghost predicate LeasesCounted<T>(w: World<T>) {
    forall k :: CountedAt(w, k)
  }

  // Nothing that was ever inserted is lost or doubled.
  ghost predicate Conserved<T(!new)>(w: World<T>) {
    forall v :: Copies(w.cache, v) + w.drained[v] == w.inserted[v]
  }

  predicate Limited<T>(c: Cache<T>) {
    WithinLimits(c) || AllLeased(c.entries)
  }

  // --------------------------------------------------------------- sizes and values

  // Insertion keeps the sizes accounted for exactly when the counter can hold them.
  lemma PutAccountedExactly<T>(c: Cache<T>, key: Key, bytes: nat, value: T, active: nat)
    requires Accounted(c)
    ensures Accounted(AfterPut(c, key, bytes, value, active)) <==> c.usedBytes + bytes <= USIZE_MAX
  {
    InsertingTotal(c.entries, key, Entry(value, bytes, Ticked(c.clock), active, false));
    if key in c.entries {
      TotalWithout(c.entries, key);
    } else {
      assert c.entries - {key} == c.entries;
    }
  }

  lemma PutConserves<T(!new)>(c: Cache<T>, key: Key, bytes: nat, value: T, active: nat, v: T)
    ensures Copies(AfterPut(c, key, bytes, value, active), v) == Copies(c, v) + if v == value then 1 else 0
  {
    InsertingHolder(c.entries, key, Entry(value, bytes, Ticked(c.clock), active, false), v);
    if key in c.entries {
      HoldersWithout(c.entries, key, v);
      assert multiset(c.evicted + [c.entries[key].value]) == multiset(c.evicted) + multiset{c.entries[key].value};
    } else {
      assert c.entries - {key} == c.entries;
    }
  }

  // An entry after each operation.
  lemma PutEntry<T>(c: Cache<T>, key: Key, bytes: nat, value: T, active: nat, k: Key)
    ensures k in AfterPut(c, key, bytes, value, active).entries <==> k == key || k in c.entries
    ensures AfterPut(c, key, bytes, value, active).clock == Ticked(c.clock)
    ensures k == key ==> AfterPut(c, key, bytes, value, active).entries[k] == Entry(value, bytes, Ticked(c.clock), active, false)
    ensures k != key && k in c.entries ==> AfterPut(c, key, bytes, value, active).entries[k] == c.entries[k]
  {
  }

  lemma LeaseEntry<T>(c: Cache<T>, key: Key, k: Key)
    ensures var (c', ok) := AfterLease(c, key);
      && c'.clock == Ticked(c.clock) && (k in c'.entries <==> k in c.entries)
      && (ok <==> key in c.entries && !c.entries[key].stale)
      && (k in c.entries ==> c'.entries[k] == c.entries[k].(active := c'.entries[k].active, lastUse := c'.entries[k].lastUse))
      && (k in c.entries ==> c'.entries[k].lastUse == if ok && k == key then c'.clock else c.entries[k].lastUse)
  {
  }

  lemma DropEntry<T>(c: Cache<T>, key: Key, k: Key)
    ensures var c' := AfterDrop(c, key);
      && c'.clock == c.clock && (k in c'.entries <==> k in c.entries)
      && (k in c.entries ==> c'.entries[k] == c.entries[k].(active := c'.entries[k].active))
  {
  }

  lemma InvalidationEntry<T>(c: Cache<T>, snapshot: nat, k: Key)
    ensures var c' := AfterInvalidation(c, snapshot);
      && c'.clock == c.clock && (k in c'.entries <==> k in c.entries)
      && (k in c.entries ==> c'.entries[k] == c.entries[k].(stale := c.entries[k].stale || snapshot == k.snapshot))
  {
  }

  lemma CacheAfter<T>(w: World<T>, op: Op<T>)
    ensures op.Insert? || op.InsertAndLease? ==>
      Before(w, op).cache == AfterPut(w.cache, op.key, op.bytes, op.value, if op.Insert? then 0 else 1)
    ensures op.TakeLease? ==> Before(w, op).cache == AfterLease(w.cache, op.key).0
    ensures op.DropLease? ==> Before(w, op).cache == AfterDrop(w.cache, op.key)
    ensures op.Invalidate? ==> Before(w, op).cache == AfterInvalidation(w.cache, op.snapshot)
    ensures op.Drain? ==> Before(w, op).cache == w.cache.(evicted := [])
  {
    hide AfterPut, AfterDrop, AfterInvalidation;
  }

  // The operations that insert nothing change neither sizes nor values.
  lemma BeforeTouches<T>(w: World<T>, op: Op<T>)
    requires !op.Insert? && !op.InsertAndLease?
    ensures var e, e' := w.cache.entries, Before(w, op).cache.entries;
      && e'.Keys == e.Keys
      && forall k :: k in e ==> e'[k].bytes == e[k].bytes && e'[k].value == e[k].value
    ensures Before(w, op).cache.usedBytes == w.cache.usedBytes
    ensures op.Drain? || (Before(w, op).cache.evicted == w.cache.evicted && Before(w, op).drained == w.drained)
    ensures Before(w, op).inserted == w.inserted
  {
    match op
    case TakeLease(key) =>
    case DropLease(key) =>
    case Invalidate(snapshot) => hide AfterPut, AfterLease, AfterDrop;
    case Drain =>
    case _ =>
  }

  lemma BeforeAccounted<T>(w: World<T>, op: Op<T>)
    requires Accounted(w.cache) && SizeFits(w, op)
    ensures Accounted(Before(w, op).cache)
  {
    if op.Insert? || op.InsertAndLease? {
      PutAccountedExactly(w.cache, op.key, op.bytes, op.value, if op.Insert? then 0 else 1);
    } else {
      BeforeTouches(w, op);
      SameSizes(w.cache.entries, Before(w, op).cache.entries);
    }
  }

  lemma BeforeConserves<T(!new)>(w: World<T>, op: Op<T>, v: T)
    ensures Copies(Before(w, op).cache, v) + Before(w, op).drained[v] - Before(w, op).inserted[v]
         == Copies(w.cache, v) + w.drained[v] - w.inserted[v]
  {
    if op.Insert? || op.InsertAndLease? {
      PutConserves(w.cache, op.key, op.bytes, op.value, if op.Insert? then 0 else 1, v);
    } else {
      BeforeTouches(w, op);
      assert Holders(Before(w, op).cache.entries, v) == Holders(w.cache.entries, v);
    }
  }

  // Every operation whatever ends within the limits or with all entries leased.
  lemma NextLimits<T>(w: World<T>, op: Op<T>, w': World<T>)
    requires Next(w, op, w') && Limited(w.cache)
    ensures Limited(w'.cache)
  {
    if Evicts(op) {
      var stale, oldest :| Evicted(Before(w, op).cache, w'.cache, stale, oldest);
      EvictedKeeps(Before(w, op).cache, w'.cache, stale, oldest);
    } else if op.TakeLease? && op.key in w.cache.entries {
      assert w'.cache.entries.Keys == w.cache.entries.Keys;
      assert |w'.cache.entries| == |w'.cache.entries.Keys| && |w.cache.entries| == |w.cache.entries.Keys|;
    }
  }

  // Every operation whatever conserves the values.
  lemma NextConserves<T(!new)>(w: World<T>, op: Op<T>, w': World<T>)
    requires Next(w, op, w') && Conserved(w)
    ensures Conserved(w')
  {
    hide Before, Copies;
    var b := Before(w, op);
    forall v ensures Copies(w'.cache, v) + w'.drained[v] == w'.inserted[v] {
      BeforeConserves(w, op, v);
      if Evicts(op) {
        var stale, oldest :| Evicted(b.cache, w'.cache, stale, oldest);
        EvictedConserves(b.cache, w'.cache, stale, oldest, v);
      }
    }
  }

  lemma NextAccounted<T>(w: World<T>, op: Op<T>, w': World<T>)
    requires Next(w, op, w') && SizeFits(w, op) && Accounted(w.cache)
    ensures Accounted(w'.cache)
  {
    hide Before, Accounted, SizeFits;
    BeforeAccounted(w, op);
    if Evicts(op) {
      var stale, oldest :| Evicted(Before(w, op).cache, w'.cache, stale, oldest);
      EvictedAccounted(Before(w, op).cache, w'.cache, stale, oldest);
    }
  }

  // Any operation, under leased keys too, keeps the limits and the values; those
  // whose sizes fit keep the sizes accounted for.
  lemma StepInv<T(!new)>(w: World<T>, op: Op<T>, w': World<T>)
    requires Next(w, op, w')
    ensures Limited(w.cache) ==> Limited(w'.cache)
    ensures Conserved(w) ==> Conserved(w')
    ensures Accounted(w.cache) && SizeFits(w, op) ==> Accounted(w'.cache)
  {
    hide Next, Conserved, Accounted, Limited, SizeFits;
    if Limited(w.cache) {
      NextLimits(w, op, w');
    }
    if Conserved(w) {
      NextConserves(w, op, w');
    }
    if Accounted(w.cache) && SizeFits(w, op) {
      NextAccounted(w, op, w');
    }
  }

  ghost predicate Run<T>(ws: seq<World<T>>, ops: seq<Op<T>>) {
    |ws| == |ops| + 1 && forall i :: 0 <= i < |ops| ==> Next(ws[i], ops[i], ws[i + 1])
  }

  // In every run from the empty cache: inserted values are resident, evicted or
  // drained, and the cache is within its limits or all its entries are leased.
  lemma {:induction false} RunInv<T(!new)>(ws: seq<World<T>>, ops: seq<Op<T>>, n: nat)
    requires Run(ws, ops) && n <= |ops| && Fresh(ws[0])
    ensures Limited(ws[n].cache) && Conserved(ws[n])
  {
    hide Next, Conserved, Limited;
    if n == 0 {
      FreshInv(ws[0]);
    } else {
      RunInv(ws, ops, n - 1);
      StepInv(ws[n - 1], ops[n - 1], ws[n]);
    }
  }

  // As long as no insertion fills the counter up, used bytes are the sum of the sizes.
  lemma {:induction false} RunAccounted<T(!new)>(ws: seq<World<T>>, ops: seq<Op<T>>, n: nat)
    requires Run(ws, ops) && n <= |ops| && Fresh(ws[0])
    requires forall i :: 0 <= i < n ==> SizeFits(ws[i], ops[i])
    ensures Accounted(ws[n].cache)
  {
    hide Next, Conserved, Accounted, SizeFits;
    if n == 0 {
      FreshInv(ws[0]);
    } else {
      RunAccounted(ws, ops, n - 1);
      StepInv(ws[n - 1], ops[n - 1], ws[n]);
    }
  }

  ghost predicate Fresh<T>(w: World<T>) {
    && w.cache.entries == map[] && w.cache.evicted == [] && w.cache.usedBytes == 0
    && w.leases == multiset{} && w.inserted == multiset{} && w.drained == multiset{}
  }

  lemma FreshInv<T(!new)>(w: World<T>)
    requires Fresh(w)
    ensures Limited(w.cache) && Conserved(w) && Accounted(w.cache) && LeasesCounted(w)
  {
    forall v: T ensures Copies(w.cache, v) == 0 {
      assert Holders(w.cache.entries, v) == {};
    }
  }

  // ------------------------------------------------------------------------ leases

  // The discipline as far as the key is concerned.
  predicate DisciplinedAt<T>(w: World<T>, op: Op<T>, k: Key) {
    (op.Insert? || op.InsertAndLease? || op.TakeLease?) && op.key == k ==> Disciplined(w, op)
  }

  lemma BeforeCountsExactly<T>(w: World<T>, op: Op<T>, k: Key)
    requires CountedAt(w, k)
    ensures CountedAt(Before(w, op), k) <==> DisciplinedAt(w, op, k)
  {
  }

  // Only entries that are not leased leave, so eviction changes no count.
  lemma EvictedCounts<T>(w: World<T>, c': Cache<T>, k: Key)
    requires EvictedSomehow(w.cache, c')
    ensures CountedAt(w, k) ==> CountedAt(w.(cache := c'), k)
    ensures k in w.cache.entries && w.cache.entries[k].active > 0 ==> k in c'.entries && c'.entries[k] == w.cache.entries[k]
    ensures k in c'.entries ==> k in w.cache.entries && c'.entries[k] == w.cache.entries[k]
  {
    var stale, oldest :| Evicted(w.cache, c', stale, oldest);
    EvictedKeeps(w.cache, c', stale, oldest);
  }

  // Leases of a key are still counted after an operation exactly when it is disciplined.
  lemma NextCountsExactly<T>(w: World<T>, op: Op<T>, w': World<T>, k: Key)
    requires Next(w, op, w') && CountedAt(w, k)
    ensures CountedAt(w', k) <==> DisciplinedAt(w, op, k)
  {
    BeforeCountsExactly(w, op, k);
    if Evicts(op) {
      EvictedCounts(Before(w, op), w'.cache, k);
      if !DisciplinedAt(w, op, k) {
        UncountedStays(w, op, w', k);
      }
    }
  }

  // What an insertion under a lease leaves behind is not the count, gone or not.
  lemma UncountedStays<T>(w: World<T>, op: Op<T>, w': World<T>, k: Key)
    requires Next(w, op, w') && Evicts(op) && CountedAt(w, k) && !DisciplinedAt(w, op, k)
    ensures !CountedAt(w', k)
  {
    var b := Before(w, op);
    assert op.Insert? || op.InsertAndLease?;
    assert b.leases[k] > b.cache.entries[k].active;
    EvictedCounts(b, w'.cache, k);
  }

  // Insertion, leases, invalidation and draining keep the lease counts exactly when
  // no leased key is inserted again and no counter fills up.
  lemma StepCountsExactly<T>(w: World<T>, op: Op<T>, w': World<T>)
    requires Next(w, op, w') && LeasesCounted(w)
    ensures LeasesCounted(w') <==> Disciplined(w, op)
  {
    hide Next, CountedAt, AfterLease;
    forall k ensures CountedAt(w', k) <==> DisciplinedAt(w, op, k) {
      NextCountsExactly(w, op, w', k);
    }
    if op.Insert? || op.InsertAndLease? || op.TakeLease? {
      assert DisciplinedAt(w, op, op.key) <==> Disciplined(w, op);
    }
  }

  // In every disciplined run active counts are the outstanding leases.
  lemma {:induction false} RunCounts<T(!new)>(ws: seq<World<T>>, ops: seq<Op<T>>, n: nat)
    requires Run(ws, ops) && n <= |ops| && Fresh(ws[0])
    requires forall i :: 0 <= i < n ==> Disciplined(ws[i], ops[i])
    ensures LeasesCounted(ws[n])
  {
    hide Next, Disciplined, LeasesCounted, Conserved;
    if n == 0 {
      FreshInv(ws[0]);
    } else {
      RunCounts(ws, ops, n - 1);
      StepCountsExactly(ws[n - 1], ops[n - 1], ws[n]);
    }
  }

  // While a lease is out, its entry stays and holds the same value, whatever happens
  // under other keys.
  lemma LeasedValueStays<T>(w: World<T>, op: Op<T>, w': World<T>, k: Key)
    requires Next(w, op, w') && CountedAt(w, k) && DisciplinedAt(w, op, k) && w.leases[k] > 0 && w'.leases[k] > 0
    ensures CountedAt(w', k)
    ensures k in w.cache.entries && k in w'.cache.entries && w'.cache.entries[k].value == w.cache.entries[k].value
  {
    BeforeCountsExactly(w, op, k);
    if Evicts(op) {
      EvictedCounts(Before(w, op), w'.cache, k);
    }
  }

  lemma {:induction false} LeasedValueStaysThroughout<T>(ws: seq<World<T>>, ops: seq<Op<T>>, n: nat, k: Key)
    requires Run(ws, ops) && n <= |ops| && CountedAt(ws[0], k)
    requires forall i :: 0 <= i < n ==> DisciplinedAt(ws[i], ops[i], k)
    requires forall i :: 0 <= i <= n ==> ws[i].leases[k] > 0
    ensures CountedAt(ws[n], k) && k in ws[0].cache.entries && k in ws[n].cache.entries
    ensures ws[n].cache.entries[k].value == ws[0].cache.entries[k].value
  {
    hide Next, DisciplinedAt;
    if n > 0 {
      LeasedValueStaysThroughout(ws, ops, n - 1, k);
      LeasedValueStays(ws[n - 1], ops[n - 1], ws[n], k);
    }
  }

  // A leased key that is inserted again can leave the cache under the lease.
  lemma ReinsertedUnderLease<T>(w: World<T>, key: Key, bytes: nat, value: T, w': World<T>)
    requires w.leases[key] > 0 && w.cache.maxCount == 0
    requires Next(w, Insert(key, bytes, value), w')
    ensures w'.leases[key] > 0 && key !in w'.cache.entries
  {
    var b := Before(w, Op.Insert(key, bytes, value));
    var stale, oldest :| Evicted(b.cache, w'.cache, stale, oldest);
    EvictedKeeps(b.cache, w'.cache, stale, oldest);
  }

  // ------------------------------------------------------------------- invalidation

  predicate Inserts<T>(op: Op<T>, k: Key) {
    (op.Insert? || op.InsertAndLease?) && op.key == k
  }

  // What an entry is before the eviction: the one that was there, unless it was
  // inserted just now or goes stale just now.
  lemma BeforeEntry<T>(w: World<T>, op: Op<T>, k: Key)
    requires k in Before(w, op).cache.entries && !Inserts(op, k)
    ensures k in w.cache.entries
    ensures var e, e' := w.cache.entries[k], Before(w, op).cache.entries[k];
      e'.value == e.value && e'.bytes == e.bytes && (e'.stale <==> e.stale || op == Invalidate(k.snapshot))
  {
    hide Before, AfterPut, AfterLease, AfterDrop, AfterInvalidation;
    CacheAfter(w, op);
    match op
    case Insert(key, bytes, value) => PutEntry(w.cache, key, bytes, value, 0, k);
    case InsertAndLease(key, bytes, value) => PutEntry(w.cache, key, bytes, value, 1, k);
    case TakeLease(key) => LeaseEntry(w.cache, key, k);
    case DropLease(key) => DropEntry(w.cache, key, k);
    case Invalidate(snapshot) => InvalidationEntry(w.cache, snapshot, k);
    case Drain =>
  }

  lemma BeforeInserted<T>(w: World<T>, op: Op<T>, k: Key)
    requires Inserts(op, k)
    ensures k in Before(w, op).cache.entries
    ensures var e' := Before(w, op).cache.entries[k];
      e'.value == op.value && e'.bytes == op.bytes && !e'.stale
  {
  }

  lemma NextEntry<T>(w: World<T>, op: Op<T>, w': World<T>, k: Key)
    requires Next(w, op, w') && k in w'.cache.entries
    ensures k in Before(w, op).cache.entries && w'.cache.entries[k] == Before(w, op).cache.entries[k]
  {
    hide Before;
    if Evicts(op) {
      EvictedCounts(Before(w, op), w'.cache, k);
    }
  }

  ghost predicate SameEntry<T>(e: Entry<T>, e': Entry<T>, wentStale: bool) {
    e'.value == e.value && e'.bytes == e.bytes && (e'.stale <==> e.stale || wentStale)
  }

  lemma StaysAsItWas<T>(w: World<T>, op: Op<T>, w': World<T>, k: Key)
    requires Next(w, op, w') && k in w'.cache.entries && !Inserts(op, k)
    ensures k in w.cache.entries
    ensures SameEntry(w.cache.entries[k], w'.cache.entries[k], op == Invalidate(k.snapshot))
  {
    hide Next, Before, Inserts;
    NextEntry(w, op, w', k);
    BeforeEntry(w, op, k);
  }

  lemma IsAsInserted<T>(w: World<T>, op: Op<T>, w': World<T>, k: Key)
    requires Next(w, op, w') && k in w'.cache.entries && Inserts(op, k)
    ensures var e' := w'.cache.entries[k];
      e'.value == op.value && e'.bytes == op.bytes && !e'.stale
  {
    hide Next, Before;
    NextEntry(w, op, w', k);
    BeforeInserted(w, op, k);
  }

  // A resident entry is the one last inserted under its key, and it is stale exactly
  // when its snapshot was invalidated since.
  lemma {:induction false} StaleExactly<T>(ws: seq<World<T>>, ops: seq<Op<T>>, inserted: nat, n: nat, k: Key)
    requires Run(ws, ops) && inserted < n <= |ops| && Inserts(ops[inserted], k)
    requires forall i :: inserted < i < n ==> !Inserts(ops[i], k)
    requires k in ws[n].cache.entries
    ensures ws[n].cache.entries[k].value == ops[inserted].value && ws[n].cache.entries[k].bytes == ops[inserted].bytes
    ensures ws[n].cache.entries[k].stale <==> exists i :: inserted < i < n && ops[i] == Invalidate(k.snapshot)
    decreases n
  {
    hide Next;
    if inserted < n - 1 {
      StaysAsItWas(ws[n - 1], ops[n - 1], ws[n], k);
      StaleExactly(ws, ops, inserted, n - 1, k);
    } else {
      IsAsInserted(ws[n - 1], ops[n - 1], ws[n], k);
    }
  }

  // A lease is granted exactly when the entry is resident and its snapshot was not
  // invalidated since it was inserted; a refused one changes nothing but the clock.
  lemma LeasedExactly<T>(ws: seq<World<T>>, ops: seq<Op<T>>, inserted: nat, n: nat, k: Key)
    requires Run(ws, ops) && inserted < n < |ops| && Inserts(ops[inserted], k) && ops[n] == TakeLease(k)
    requires forall i :: inserted < i < n ==> !Inserts(ops[i], k)
    ensures var granted := k in ws[n].cache.entries && !exists i :: inserted < i < n && ops[i] == Invalidate(k.snapshot);
      && ws[n + 1].leases == (if granted then ws[n].leases + multiset{k} else ws[n].leases)
      && (!granted ==> ws[n + 1].cache.entries == ws[n].cache.entries)
  {
    if k in ws[n].cache.entries {
      StaleExactly(ws, ops, inserted, n, k);
    }
  }

  // After an invalidation no key of the snapshot is leased until it is inserted again,
  // whether it was resident or not.
  lemma InvalidatedNeverLeased<T>(ws: seq<World<T>>, ops: seq<Op<T>>, at: nat, n: nat, k: Key)
    requires Run(ws, ops) && at < n < |ops| && ops[at] == Invalidate(k.snapshot) && ops[n] == TakeLease(k)
    requires forall i :: at < i < n ==> !Inserts(ops[i], k)
    ensures ws[n + 1].leases == ws[n].leases && ws[n + 1].cache.entries == ws[n].cache.entries
  {
    InvalidatedIsUnusable(ws, ops, at, n, k);
  }

  lemma {:induction false} InvalidatedIsUnusable<T>(ws: seq<World<T>>, ops: seq<Op<T>>, at: nat, n: nat, k: Key)
    requires Run(ws, ops) && at < n <= |ops| && ops[at] == Invalidate(k.snapshot)
    requires forall i :: at < i < n ==> !Inserts(ops[i], k)
    ensures k in ws[n].cache.entries ==> ws[n].cache.entries[k].stale
    decreases n
  {
    hide Next;
    if k in ws[n].cache.entries {
      StaysAsItWas(ws[n - 1], ops[n - 1], ws[n], k);
      if at < n - 1 {
        InvalidatedIsUnusable(ws, ops, at, n - 1, k);
      }
    }
  }

  // --------------------------------------------------------------- what eviction takes

  // Within the limits it takes the idle stale entries and nothing else.
  lemma {:induction false} OnlyStaleWithinLimits<T>(c: Cache<T>, c': Cache<T>, k: Key)
    requires EvictedSomehow(c, c') && |c.entries| <= c.maxCount && c.usedBytes <= c.maxBytes
    ensures k in c'.entries <==> k in c.entries && (c.entries[k].active > 0 || !c.entries[k].stale)
  {
    var stale, oldest :| Evicted(c, c', stale, oldest);
    DroppedAllEntries(c, stale);
    var rest := DroppedAll(c, stale);
    assert rest.entries.Keys <= c.entries.Keys;
    FewerKeys(c.entries, rest.entries);
    DroppedAllUses(c, stale);
    assert oldest == [] by {
      if oldest != [] {
        NotYet(rest, c', oldest);
        assert false;
      }
    }
  }

  lemma NotYet<T>(c: Cache<T>, c': Cache<T>, oldest: seq<Key>)
    requires WithinLimitsAfter(c, c', oldest) && oldest != []
    ensures !WithinLimits(c)
  {
    assert DroppedAll(c, oldest[..0]) == c;
  }

  lemma FewerKeys<T>(m: Entries<T>, m': Entries<T>)
    requires m'.Keys <= m.Keys
    ensures |m'| <= |m|
  {
    KeysCounted(m.Keys, m'.Keys);
    assert |m.Keys| == |m| && |m'.Keys| == |m'|;
  }

  lemma KeysCounted(a: set<Key>, b: set<Key>)
    requires b <= a
    ensures |b| <= |a|
  {
    assert a == b + (a - b);
  }

  lemma {:induction false} DroppedAllUses<T>(c: Cache<T>, keys: seq<Key>)
    ensures DroppedAll(c, keys).usedBytes <= c.usedBytes
    decreases |keys|
  {
    if keys != [] {
      DroppedAllUses(c, keys[..|keys| - 1]);
    }
  }

  // Of the entries that are not stale, no idle one stays that was used before one that went.
  lemma LeastRecentlyUsedGo<T>(c: Cache<T>, c': Cache<T>, gone: Key, kept: Key)
    requires EvictedSomehow(c, c')
    requires gone in c.entries && gone !in c'.entries && !c.entries[gone].stale
    requires kept in c'.entries && kept in c.entries && c.entries[kept].active == 0
    ensures c.entries[gone].active == 0 && c.entries[gone].lastUse <= c.entries[kept].lastUse
  {
    var stale, oldest :| Evicted(c, c', stale, oldest);
    var rest := DroppedAll(c, stale);
    DroppedAllEntries(c, stale);
    DroppedAllEntries(rest, oldest);
    hide DroppedAll, UsedBefore;
    assert gone !in stale && kept !in stale;
    var i :| 0 <= i < |oldest| && oldest[i] == gone;
    assert kept !in oldest;
    assert UsedBefore(rest.entries, oldest[i], kept);
    UsedNoLater(rest.entries, gone, kept);
  }

  lemma UsedNoLater<T>(entries: Entries<T>, a: Key, b: Key)
    requires a in entries && b in entries && UsedBefore(entries, a, b)
    ensures entries[a].lastUse <= entries[b].lastUse
  {
  }

  // No entry was used after now.
  predicate UsedByNow<T>(c: Cache<T>) {
    forall k :: k in c.entries ==> c.entries[k].lastUse <= c.clock
  }

  // Whether an operation uses the entry of a key.
  ghost predicate Uses<T>(w: World<T>, op: Op<T>, k: Key) {
    Inserts(op, k) || (op == TakeLease(k) && k in w.cache.entries && !w.cache.entries[k].stale)
  }

  lemma BeforeUses<T>(w: World<T>, op: Op<T>, k: Key)
    requires UsedByNow(w.cache) && w.cache.clock < 0xFFFF_FFFF_FFFF_FFFF && k in Before(w, op).cache.entries
    ensures var used, now := Before(w, op).cache.entries[k].lastUse, Before(w, op).cache.clock;
      && (Uses(w, op, k) ==> used == now == w.cache.clock + 1)
      && (!Uses(w, op, k) ==> k in w.cache.entries && used == w.cache.entries[k].lastUse <= w.cache.clock <= now)
  {
    hide Before, AfterPut, AfterLease, AfterDrop, AfterInvalidation;
    CacheAfter(w, op);
    match op
    case Insert(key, bytes, value) => PutEntry(w.cache, key, bytes, value, 0, k);
    case InsertAndLease(key, bytes, value) => PutEntry(w.cache, key, bytes, value, 1, k);
    case TakeLease(key) => LeaseEntry(w.cache, key, k);
    case DropLease(key) => DropEntry(w.cache, key, k);
    case Invalidate(snapshot) => InvalidationEntry(w.cache, snapshot, k);
    case Drain =>
  }

  lemma NextClock<T>(w: World<T>, op: Op<T>, w': World<T>)
    requires Next(w, op, w')
    ensures w'.cache.clock == Before(w, op).cache.clock
  {
    hide Before;
    if Evicts(op) {
      var stale, oldest :| Evicted(Before(w, op).cache, w'.cache, stale, oldest);
      EvictedKeeps(Before(w, op).cache, w'.cache, stale, oldest);
    }
  }

  // Unless the clock wraps, an insertion and a granted lease make an entry the one most
  // recently used.
  lemma UsedIsNewest<T>(w: World<T>, op: Op<T>, w': World<T>, k: Key)
    requires Next(w, op, w') && UsedByNow(w.cache) && w.cache.clock < 0xFFFF_FFFF_FFFF_FFFF
    ensures UsedByNow(w'.cache)
    ensures Uses(w, op, k) && k in w'.cache.entries ==>
      forall x :: x in w'.cache.entries && x != k ==> w'.cache.entries[x].lastUse < w'.cache.entries[k].lastUse
  {
    hide Next, Before;
    NextClock(w, op, w');
    forall x | x in w'.cache.entries
      ensures w'.cache.entries[x].lastUse <= w'.cache.clock
      ensures Uses(w, op, k) && k in w'.cache.entries && x != k ==> w'.cache.entries[x].lastUse < w'.cache.entries[k].lastUse
    {
      NextEntry(w, op, w', x);
      BeforeUses(w, op, x);
      if Uses(w, op, k) && k in w'.cache.entries && x != k {
        NextEntry(w, op, w', k);
        BeforeUses(w, op, k);
      }
    }
  }
}
