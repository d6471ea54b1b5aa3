/**
  The sweep at the end of a major cycle (src/adaptive_v2/heap/major.rs, lines
  51-69): unmarked old handles are released and their cells cleared, one by one.
 */
module MajorSweep {
  import opened Wrappers
  import opened Handles
  import opened Tracing
  import opened HeapModel

  predicate Swept(h: Heap, marked: set<StableHandle>, done: set<StableHandle>, g: StableHandle) {
    g in done && h.IsOld(g) && g !in marked
  }

  ghost predicate SweepTable(h: Heap, marked: set<StableHandle>, done: set<StableHandle>, t: Table<Location>, live: nat) {
    && t.Valid() && t.runtime == h.table.runtime
    && (forall g :: h.table.Spent(g) ==> t.Spent(g))
    && (forall g :: t.IsLive(g) <==> h.table.IsLive(g) && !Swept(h, marked, done, g))
    && (forall g :: t.IsLive(g) ==> t.At(g) == h.table.At(g))
    && live == |t.LiveSet()|
  }

  ghost predicate SweepCells(h: Heap, t: Table<Location>, oldSpace: seq<Option<GcObject>>) {
    && |oldSpace| == |h.oldSpace|
    && (forall g :: t.IsLive(g) && t.At(g).Old? ==> t.At(g).index < |oldSpace| && oldSpace[t.At(g).index] == Some(h.ObjectOf(g)))
    && Covered(t, h.nursery, oldSpace)
  }

  lemma SweepStart(h: Heap, marked: set<StableHandle>)
    requires h.Valid()
    ensures SweepTable(h, marked, {}, h.table, h.live) && SweepCells(h, h.table, h.oldSpace)
  {
    forall g | h.table.IsLive(g) && h.table.At(g).Old?
      ensures h.table.At(g).index < |h.oldSpace| && h.oldSpace[h.table.At(g).index] == Some(h.ObjectOf(g))
    {
      assert CellIn(h.nursery, h.oldSpace, h.table.At(g)).Some?;
    }
  }

  lemma SweepKeep(h: Heap, marked: set<StableHandle>, done: set<StableHandle>, g: StableHandle, t: Table<Location>, live: nat)
    requires SweepTable(h, marked, done, t, live) && (!h.IsOld(g) || g in marked)
    ensures SweepTable(h, marked, done + {g}, t, live)
  {
    assert forall x :: Swept(h, marked, done + {g}, x) <==> Swept(h, marked, done, x);
  }

  lemma SweepRelease(h: Heap, marked: set<StableHandle>, done: set<StableHandle>, g: StableHandle, t: Table<Location>, live: nat)
    requires SweepTable(h, marked, done, t, live) && h.IsOld(g) && g !in marked && g !in done
    ensures var (t', r) := Released(t, g);
      && live > 0 && r == Ok(h.table.At(g))
      && SweepTable(h, marked, done + {g}, t', live - 1)
      && (forall x :: t'.IsLive(x) <==> t.IsLive(x) && x != g)
      && (forall x :: t'.IsLive(x) ==> t'.At(x) == t.At(x))
  {
    ReleaseCorrect(t, g);
    assert g in t.LiveSet();
    assert forall x :: Swept(h, marked, done + {g}, x) <==> Swept(h, marked, done, x) || x == g;
  }

  // Clearing the cell of a released handle touches no other handle's cell.
  lemma SweepClear(h: Heap, t: Table<Location>, t': Table<Location>, g: StableHandle, oldSpace: seq<Option<GcObject>>)
    requires Mapped(h.table, h.nursery, h.oldSpace) && SweepCells(h, t, oldSpace)
    requires t.IsLive(g) && t.At(g).Old?
    requires forall x :: t.IsLive(x) ==> h.table.IsLive(x) && t.At(x) == h.table.At(x)
    requires (forall x :: t'.IsLive(x) <==> t.IsLive(x) && x != g) && (forall x :: t'.IsLive(x) ==> t'.At(x) == t.At(x))
    ensures t.At(g).index < |oldSpace| && SweepCells(h, t', oldSpace[t.At(g).index := None])
  {
    var cleared := oldSpace[t.At(g).index := None];
    forall x | t'.IsLive(x) ensures t'.At(x) != t.At(g) {
      assert h.table.At(x) != h.table.At(g);
    }
    forall l | Named(t, l) && l != t.At(g) ensures Named(t', l) {
      var x :| t.IsLive(x) && t.At(x) == l;
      assert t'.IsLive(x) && t'.At(x) == l;
    }
    assert Covered(t', h.nursery, cleared);
  }

  lemma SweepEndValid(
      h: Heap, marked: set<StableHandle>, done: set<StableHandle>, t: Table<Location>, live: nat, oldSpace: seq<Option<GcObject>>,
      remembered: set<StableHandle>)
    requires h.Valid()
    requires SweepTable(h, marked, done, t, live) && SweepCells(h, t, oldSpace)
    requires forall g :: g in h.pins ==> g in marked
    requires remembered == h.remembered * t.LiveSet()
    ensures h.(table := t, oldSpace := oldSpace, live := live, remembered := remembered, barrier := {}, marking := false).Valid()
  {
    forall g | t.IsLive(g) ensures CellIn(h.nursery, oldSpace, t.At(g)).Some? {
      assert CellIn(h.nursery, h.oldSpace, h.table.At(g)).Some?;
    }
    assert Mapped(t, h.nursery, oldSpace);
    forall g | g in h.pins ensures t.IsLive(g) {
      assert g in h.LiveSet();
    }
  }

  // A finished sweep is the end of a major cycle.
  lemma SweepEnd(
      h: Heap, roots: set<StableHandle>, marks: set<StableHandle>, marked: set<StableHandle>, done: set<StableHandle>,
      t: Table<Location>, live: nat, oldSpace: seq<Option<GcObject>>, remembered: set<StableHandle>)
    requires h.Valid() && (forall g :: h.table.IsLive(g) ==> g in done)
    requires SweepTable(h, marked, done, t, live) && SweepCells(h, t, oldSpace)
    requires forall g :: g in marked <==> g in marks || Reachable(h.Edges(), FinishSeeds(h, roots), g)
    requires remembered == h.remembered * t.LiveSet()
    ensures FinishSpec(
              h, h.(table := t, oldSpace := oldSpace, live := live, remembered := remembered, barrier := {}, marking := false), roots, marks)
  {
    var h' := h.(table := t, oldSpace := oldSpace, live := live, remembered := remembered, barrier := {}, marking := false);
    assert h'.Valid() by {
      forall g | g in h.pins ensures g in marked {
        SeedReachable(h.Edges(), FinishSeeds(h, roots), g);
      }
      SweepEndValid(h, marked, done, t, live, oldSpace, remembered);
    }
    forall g | t.IsLive(g) ensures h'.ObjectOf(g) == h.ObjectOf(g) {
      assert CellIn(h.nursery, h.oldSpace, h.table.At(g)).Some?;
    }
  }
}
