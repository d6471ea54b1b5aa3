/**
  Reachability over the handle graph, and the marking worklist that the minor
  and the major collector share (src/adaptive_v2/heap/major.rs, lines 90-119).
 */
module Tracing {
  import opened Handles

  // The references an object holds, for each handle that resolves.
  type Graph = map<StableHandle, seq<StableHandle>>

  function Elements(s: seq<StableHandle>): set<StableHandle> {
    set h | h in s
  }

  predicate Edge(g: Graph, h: StableHandle, child: StableHandle) {
    h in g && child in g[h]
  }

  // A path of exactly `n` references leads from a seed to `h`.
  ghost predicate ReachableIn(g: Graph, seeds: set<StableHandle>, h: StableHandle, n: nat)
    decreases n
  {
    if n == 0 then h in seeds
    else exists parent :: ReachableIn(g, seeds, parent, n - 1) && Edge(g, parent, h)
  }

  ghost predicate Reachable(g: Graph, seeds: set<StableHandle>, h: StableHandle) {
    exists n: nat :: ReachableIn(g, seeds, h, n)
  }

  lemma SeedReachable(g: Graph, seeds: set<StableHandle>, h: StableHandle)
    requires h in seeds
    ensures Reachable(g, seeds, h)
  {
    assert ReachableIn(g, seeds, h, 0);
  }

  lemma ChildReachable(g: Graph, seeds: set<StableHandle>, h: StableHandle, child: StableHandle)
    requires Reachable(g, seeds, h) && Edge(g, h, child)
    ensures Reachable(g, seeds, child)
  {
    var n: nat :| ReachableIn(g, seeds, h, n);
    assert ReachableIn(g, seeds, child, n + 1);
  }

  ghost predicate Closed(g: Graph, marked: set<StableHandle>) {
    forall h, child :: h in marked && Edge(g, h, child) ==> child in marked
  }

  // A set that holds the seeds and is closed under references holds all that is reachable.
  lemma ClosedHoldsReachable(g: Graph, seeds: set<StableHandle>, marked: set<StableHandle>, h: StableHandle)
    requires seeds <= marked && Closed(g, marked) && Reachable(g, seeds, h)
    ensures h in marked
  {
    var n: nat :| ReachableIn(g, seeds, h, n);
    ClosedHoldsReachableIn(g, seeds, marked, h, n);
  }

  lemma {:induction false} ClosedHoldsReachableIn(
      g: Graph, seeds: set<StableHandle>, marked: set<StableHandle>, h: StableHandle, n: nat)
    requires seeds <= marked && Closed(g, marked) && ReachableIn(g, seeds, h, n)
    ensures h in marked
    decreases n
  {
    if n > 0 {
      var parent :| ReachableIn(g, seeds, parent, n - 1) && Edge(g, parent, h);
      ClosedHoldsReachableIn(g, seeds, marked, parent, n - 1);
    }
  }

  // Reachability only depends on the references of what is reachable, and more
  // seeds never lose a handle.
  lemma ReachableTransfer(g: Graph, g': Graph, seeds: set<StableHandle>, seeds': set<StableHandle>, h: StableHandle)
    requires seeds <= seeds'
    requires forall x, c :: Reachable(g, seeds, x) && Edge(g, x, c) ==> Edge(g', x, c)
    requires Reachable(g, seeds, h)
    ensures Reachable(g', seeds', h)
  {
    var n: nat :| ReachableIn(g, seeds, h, n);
    ReachableInTransfer(g, g', seeds, seeds', h, n);
  }

  lemma {:induction false} ReachableInTransfer(
      g: Graph, g': Graph, seeds: set<StableHandle>, seeds': set<StableHandle>, h: StableHandle, n: nat)
    requires seeds <= seeds'
    requires forall x, c :: Reachable(g, seeds, x) && Edge(g, x, c) ==> Edge(g', x, c)
    requires ReachableIn(g, seeds, h, n)
    ensures Reachable(g', seeds', h)
    decreases n
  {
    if n == 0 {
      SeedReachable(g', seeds', h);
    } else {
      var parent :| ReachableIn(g, seeds, parent, n - 1) && Edge(g, parent, h);
      ReachableInTransfer(g, g', seeds, seeds', parent, n - 1);
      ChildReachable(g', seeds', parent, h);
    }
  }

  // Every handle a trace can meet.
  ghost function Universe(g: Graph, seeds: set<StableHandle>): set<StableHandle> {
    seeds + set x, c | x in g && c in g[x] :: c
  }

  // The state of a trace: `marked` and `queue` only hold reachable handles, and
  // what is still missing is reachable from the queue.
  ghost predicate TraceInvariant(g: Graph, seeds: set<StableHandle>, marked: set<StableHandle>, queue: seq<StableHandle>) {
    && (forall h :: h in marked || h in queue ==> Reachable(g, seeds, h) && h in Universe(g, seeds))
    && (forall h :: h in seeds ==> h in marked || h in queue)
    && (forall h, c :: h in marked && Edge(g, h, c) ==> c in marked || c in queue)
  }

  lemma TraceStep(g: Graph, seeds: set<StableHandle>, marked: set<StableHandle>, queue: seq<StableHandle>)
    requires TraceInvariant(g, seeds, marked, queue) && |queue| > 0
    ensures var h := queue[0];
      && (h in marked ==> TraceInvariant(g, seeds, marked, queue[1..]))
      && (h !in marked ==> TraceInvariant(g, seeds, marked + {h}, queue[1..] + if h in g then g[h] else []))
      && (h !in marked ==> Universe(g, seeds) - (marked + {h}) < Universe(g, seeds) - marked)
  {
    var h := queue[0];
    assert h in queue;
    assert queue == [h] + queue[1..];
    if h !in marked {
      assert h in Universe(g, seeds) - marked;
      var children := if h in g then g[h] else [];
      forall c | c in children ensures Reachable(g, seeds, c) && c in Universe(g, seeds) {
        ChildReachable(g, seeds, h, c);
      }
    }
  }

  lemma TraceStart(g: Graph, seed: seq<StableHandle>)
    ensures TraceInvariant(g, Elements(seed), {}, seed)
  {
    forall h | h in seed ensures Reachable(g, Elements(seed), h) {
      SeedReachable(g, Elements(seed), h);
    }
  }

  lemma TraceEnd(g: Graph, seeds: set<StableHandle>, marked: set<StableHandle>)
    requires TraceInvariant(g, seeds, marked, [])
    ensures forall h :: h in marked <==> Reachable(g, seeds, h)
  {
    forall h | Reachable(g, seeds, h) ensures h in marked {
      ClosedHoldsReachable(g, seeds, marked, h);
    }
  }

  // The marker over an owned snapshot of the graph.
  method MarkSnapshot(g: Graph, seed: seq<StableHandle>) returns (marked: set<StableHandle>)
    ensures forall h :: h in marked <==> Reachable(g, Elements(seed), h)
  {
    marked := {};
    var queue := seed;
    ghost var seeds := Elements(seed);
    TraceStart(g, seed);
    while |queue| > 0
      invariant TraceInvariant(g, seeds, marked, queue)
      decreases Universe(g, seeds) - marked, |queue|
    {
      TraceStep(g, seeds, marked, queue);
      var h := queue[0];
      queue := queue[1..];
      if h in marked {
        continue;
      }
      marked := marked + {h};
      if h in g {
        queue := queue + g[h];
      } else {
        assert queue + [] == queue;
      }
    }
    assert queue == [];
    TraceEnd(g, seeds, marked);
  }
}
