/**
  The copying phase of a minor collection as it goes over the live handles
  (src/adaptive_v2/heap/collection.rs, lines 54-86). Handles already visited
  name cells of the new nursery while the others still name cells of the old
  one, so two handles may name equal locations until the nursery is replaced.
 */
module MinorCopy {
  import opened Wrappers
  import opened Handles
  import opened Tracing
  import opened HeapModel

  predicate IsYoung(h: Heap, g: StableHandle) {
    h.table.IsLive(g) && h.table.At(g).Nursery?
  }

  function NewAge(h: Heap, g: StableHandle): nat {
    AgedBy(h.AgeOf(g))
  }

  predicate Visited(h: Heap, done: set<StableHandle>, g: StableHandle) {
    g in done && IsYoung(h, g)
  }

  // The table during the pass: visited young handles that are not reachable are
  // gone, those still to be visited are as they were.
  ghost predicate TablePart(h: Heap, reachable: set<StableHandle>, done: set<StableHandle>, t: Table<Location>, live: nat) {
    && t.Valid() && t.runtime == h.table.runtime
    && (forall g :: h.table.Spent(g) ==> t.Spent(g))
    && (forall g :: t.IsLive(g) <==> h.table.IsLive(g) && (Visited(h, done, g) ==> g in reachable))
    && (forall g :: h.table.IsLive(g) && !Visited(h, done, g) ==> t.At(g) == h.table.At(g))
    && live == |t.LiveSet()|
  }

  // The cells that are still to be visited are intact.
  ghost predicate NurseryPart(h: Heap, done: set<StableHandle>, nursery: seq<Option<NurseryCell>>) {
    && |nursery| == |h.nursery|
    && forall g :: IsYoung(h, g) && g !in done ==>
         && h.table.At(g).index < |nursery|
         && nursery[h.table.At(g).index] == Some(NurseryCell(h.ObjectOf(g), h.AgeOf(g)))
  }

  // The cells made so far; `moved` and `promoted` say for which handle.
  ghost predicate MadePart(
      h: Heap, toSpace: seq<Option<NurseryCell>>, oldSpace: seq<Option<GcObject>>,
      moved: seq<StableHandle>, promoted: seq<StableHandle>)
  {
    && |toSpace| == |moved|
    && (forall j :: 0 <= j < |moved| ==> toSpace[j] == Some(NurseryCell(h.ObjectOf(moved[j]), NewAge(h, moved[j]))))
    && |oldSpace| == |h.oldSpace| + |promoted|
    && (forall j :: 0 <= j < |h.oldSpace| ==> oldSpace[j] == h.oldSpace[j])
    && (forall j :: |h.oldSpace| <= j < |oldSpace| ==> oldSpace[j] == Some(h.ObjectOf(promoted[j - |h.oldSpace|])))
  }

  // A survivor and its new place belong together.
  predicate Settled(
      h: Heap, promotionAge: nat, t: Table<Location>, moved: seq<StableHandle>, promoted: seq<StableHandle>, g: StableHandle)
  {
    && t.IsLive(g)
    && match t.At(g)
       case Nursery(j) => NewAge(h, g) < promotionAge && j < |moved| && moved[j] == g
       case Old(j) => NewAge(h, g) >= promotionAge && |h.oldSpace| <= j < |h.oldSpace| + |promoted| && promoted[j - |h.oldSpace|] == g
  }

  ghost predicate SettledPart(
      h: Heap, reachable: set<StableHandle>, promotionAge: nat, done: set<StableHandle>,
      t: Table<Location>, moved: seq<StableHandle>, promoted: seq<StableHandle>)
  {
    forall g :: Visited(h, done, g) && g in reachable ==> Settled(h, promotionAge, t, moved, promoted, g)
  }

  // The new cells `first`, `first + 1`, ... are named by the handles they were made for.
  ghost predicate OwnedPart(
      h: Heap, reachable: set<StableHandle>, done: set<StableHandle>, t: Table<Location>, owners: seq<StableHandle>, young: bool, first: nat)
  {
    forall j :: 0 <= j < |owners| ==>
      && Visited(h, done, owners[j]) && owners[j] in reachable
      && t.IsLive(owners[j]) && t.At(owners[j]) == if young then Nursery(first + j) else Old(first + j)
  }

  ghost predicate PlacePart(
      h: Heap, reachable: set<StableHandle>, promotionAge: nat, done: set<StableHandle>,
      t: Table<Location>, moved: seq<StableHandle>, promoted: seq<StableHandle>)
  {
    && SettledPart(h, reachable, promotionAge, done, t, moved, promoted)
    && OwnedPart(h, reachable, done, t, moved, true, 0)
    && OwnedPart(h, reachable, done, t, promoted, false, |h.oldSpace|)
  }

  // Everything the loop keeps.
  ghost predicate CopyParts(
      h: Heap, reachable: set<StableHandle>, promotionAge: nat, done: set<StableHandle>, t: Table<Location>, live: nat,
      nursery: seq<Option<NurseryCell>>, toSpace: seq<Option<NurseryCell>>, oldSpace: seq<Option<GcObject>>,
      moved: seq<StableHandle>, promoted: seq<StableHandle>)
  {
    && TablePart(h, reachable, done, t, live)
    && NurseryPart(h, done, nursery)
    && MadePart(h, toSpace, oldSpace, moved, promoted)
    && PlacePart(h, reachable, promotionAge, done, t, moved, promoted)
  }

  // ----------------------------------------------------------------- starting

  lemma StartParts(h: Heap, reachable: set<StableHandle>, promotionAge: nat)
    requires h.Valid()
    ensures TablePart(h, reachable, {}, h.table, h.live)
    ensures NurseryPart(h, {}, h.nursery)
    ensures MadePart(h, [], h.oldSpace, [], [])
    ensures PlacePart(h, reachable, promotionAge, {}, h.table, [], [])
  {
    forall g | IsYoung(h, g)
      ensures h.table.At(g).index < |h.nursery|
      ensures h.nursery[h.table.At(g).index] == Some(NurseryCell(h.ObjectOf(g), h.AgeOf(g)))
    {
      assert CellIn(h.nursery, h.oldSpace, h.table.At(g)).Some?;
    }
  }

  // ------------------------------------------------------------- one handle

  lemma SkipOld(
      h: Heap, reachable: set<StableHandle>, promotionAge: nat, done: set<StableHandle>, g: StableHandle,
      t: Table<Location>, live: nat, nursery: seq<Option<NurseryCell>>, moved: seq<StableHandle>, promoted: seq<StableHandle>)
    requires !IsYoung(h, g)
    requires TablePart(h, reachable, done, t, live)
    requires NurseryPart(h, done, nursery)
    requires PlacePart(h, reachable, promotionAge, done, t, moved, promoted)
    ensures TablePart(h, reachable, done + {g}, t, live)
    ensures NurseryPart(h, done + {g}, nursery)
    ensures PlacePart(h, reachable, promotionAge, done + {g}, t, moved, promoted)
  {
    assert forall x :: Visited(h, done + {g}, x) <==> Visited(h, done, x);
  }

  lemma TakeCell(h: Heap, done: set<StableHandle>, g: StableHandle, nursery: seq<Option<NurseryCell>>)
    requires Mapped(h.table, h.nursery, h.oldSpace)
    requires IsYoung(h, g) && g !in done
    requires NurseryPart(h, done, nursery)
    ensures h.table.At(g).index < |nursery|
    ensures NurseryPart(h, done + {g}, nursery[h.table.At(g).index := None])
  {
    forall x | IsYoung(h, x) && x !in done + {g} ensures h.table.At(x).index != h.table.At(g).index {
      assert h.table.At(x) != h.table.At(g);
    }
  }

  lemma ReleaseTable(h: Heap, reachable: set<StableHandle>, done: set<StableHandle>, g: StableHandle, t: Table<Location>, live: nat)
    requires IsYoung(h, g) && g !in done && g !in reachable
    requires TablePart(h, reachable, done, t, live)
    ensures live > 0
    ensures TablePart(h, reachable, done + {g}, Released(t, g).0, live - 1)
    ensures Without(t, Released(t, g).0, g)
  {
    ReleaseCorrect(t, g);
    assert g in t.LiveSet();
    assert forall x :: Visited(h, done + {g}, x) <==> Visited(h, done, x) || x == g;
  }

  // `t'` is `t` without `g`.
  ghost predicate Without(t: Table<Location>, t': Table<Location>, g: StableHandle) {
    && (forall x :: t'.IsLive(x) <==> t.IsLive(x) && x != g)
    && (forall x :: t.IsLive(x) && x != g ==> t'.At(x) == t.At(x))
  }

  // `t'` is `t` with `g` at `l`.
  ghost predicate With(t: Table<Location>, t': Table<Location>, g: StableHandle, l: Location) {
    && (forall x :: t'.IsLive(x) <==> t.IsLive(x))
    && (forall x :: t.IsLive(x) && x != g ==> t'.At(x) == t.At(x))
    && t'.IsLive(g) && t'.At(g) == l
  }

  lemma ReleasePlaces(
      h: Heap, reachable: set<StableHandle>, promotionAge: nat, done: set<StableHandle>, g: StableHandle,
      t: Table<Location>, t': Table<Location>, moved: seq<StableHandle>, promoted: seq<StableHandle>)
    requires g !in done && g !in reachable && Without(t, t', g)
    requires PlacePart(h, reachable, promotionAge, done, t, moved, promoted)
    ensures PlacePart(h, reachable, promotionAge, done + {g}, t', moved, promoted)
  {
    forall x | Visited(h, done + {g}, x) && x in reachable ensures Settled(h, promotionAge, t', moved, promoted, x) {
      assert Visited(h, done, x);
      assert Settled(h, promotionAge, t, moved, promoted, x);
    }
  }

  lemma RelocateTable(
      h: Heap, reachable: set<StableHandle>, done: set<StableHandle>, g: StableHandle, t: Table<Location>, live: nat, l: Location)
    requires IsYoung(h, g) && g !in done && g in reachable
    requires TablePart(h, reachable, done, t, live)
    ensures TablePart(h, reachable, done + {g}, Relocated(t, g, l).0, live)
    ensures With(t, Relocated(t, g, l).0, g, l)
  {
    RelocateCorrect(t, g, l);
    assert forall x :: Visited(h, done + {g}, x) <==> Visited(h, done, x) || x == g;
    assert Relocated(t, g, l).0.LiveSet() == t.LiveSet();
  }

  // Moving one more handle keeps what was settled settled.
  lemma SettleOne(
      h: Heap, reachable: set<StableHandle>, promotionAge: nat, done: set<StableHandle>, g: StableHandle,
      t: Table<Location>, t': Table<Location>, moved: seq<StableHandle>, moved': seq<StableHandle>,
      promoted: seq<StableHandle>, promoted': seq<StableHandle>, l: Location)
    requires g !in done && With(t, t', g, l) && moved <= moved' && promoted <= promoted'
    requires SettledPart(h, reachable, promotionAge, done, t, moved, promoted)
    requires Settled(h, promotionAge, t', moved', promoted', g)
    ensures SettledPart(h, reachable, promotionAge, done + {g}, t', moved', promoted')
  {
    forall x | Visited(h, done + {g}, x) && x in reachable ensures Settled(h, promotionAge, t', moved', promoted', x) {
      if x != g {
        assert Visited(h, done, x);
        assert Settled(h, promotionAge, t, moved, promoted, x);
      }
    }
  }

  lemma OwnMore(
      h: Heap, reachable: set<StableHandle>, done: set<StableHandle>, g: StableHandle,
      t: Table<Location>, t': Table<Location>, owners: seq<StableHandle>, young: bool, first: nat, l: Location)
    requires IsYoung(h, g) && g in reachable && g !in done && With(t, t', g, l)
    requires OwnedPart(h, reachable, done, t, owners, young, first)
    ensures OwnedPart(h, reachable, done + {g}, t', owners, young, first)
    ensures l == (if young then Nursery(first + |owners|) else Old(first + |owners|)) ==>
      OwnedPart(h, reachable, done + {g}, t', owners + [g], young, first)
  {
    forall j | 0 <= j < |owners|
      ensures Visited(h, done + {g}, owners[j]) && owners[j] in reachable
      ensures t'.IsLive(owners[j]) && t'.At(owners[j]) == if young then Nursery(first + j) else Old(first + j)
    {
      assert Visited(h, done, owners[j]);
    }
  }

  lemma MovePlaces(
      h: Heap, reachable: set<StableHandle>, promotionAge: nat, done: set<StableHandle>, g: StableHandle,
      t: Table<Location>, t': Table<Location>, moved: seq<StableHandle>, promoted: seq<StableHandle>)
    requires IsYoung(h, g) && g !in done && g in reachable && NewAge(h, g) < promotionAge
    requires With(t, t', g, Nursery(|moved|))
    requires PlacePart(h, reachable, promotionAge, done, t, moved, promoted)
    ensures PlacePart(h, reachable, promotionAge, done + {g}, t', moved + [g], promoted)
  {
    SettleOne(h, reachable, promotionAge, done, g, t, t', moved, moved + [g], promoted, promoted, Nursery(|moved|));
    OwnMore(h, reachable, done, g, t, t', moved, true, 0, Nursery(|moved|));
    OwnMore(h, reachable, done, g, t, t', promoted, false, |h.oldSpace|, Nursery(|moved|));
  }

  lemma PromotePlaces(
      h: Heap, reachable: set<StableHandle>, promotionAge: nat, done: set<StableHandle>, g: StableHandle,
      t: Table<Location>, t': Table<Location>, moved: seq<StableHandle>, promoted: seq<StableHandle>)
    requires IsYoung(h, g) && g !in done && g in reachable && NewAge(h, g) >= promotionAge
    requires With(t, t', g, Old(|h.oldSpace| + |promoted|))
    requires PlacePart(h, reachable, promotionAge, done, t, moved, promoted)
    ensures PlacePart(h, reachable, promotionAge, done + {g}, t', moved, promoted + [g])
  {
    var l := Old(|h.oldSpace| + |promoted|);
    SettleOne(h, reachable, promotionAge, done, g, t, t', moved, moved, promoted, promoted + [g], l);
    OwnMore(h, reachable, done, g, t, t', moved, true, 0, l);
    OwnMore(h, reachable, done, g, t, t', promoted, false, |h.oldSpace|, l);
  }

  // The loop body on each of its four paths.
  lemma SkipStep(
      h: Heap, reachable: set<StableHandle>, promotionAge: nat, done: set<StableHandle>, t: Table<Location>, live: nat,
      nursery: seq<Option<NurseryCell>>, toSpace: seq<Option<NurseryCell>>, oldSpace: seq<Option<GcObject>>,
      moved: seq<StableHandle>, promoted: seq<StableHandle>, g: StableHandle)
    requires CopyParts(h, reachable, promotionAge, done, t, live, nursery, toSpace, oldSpace, moved, promoted)
    requires !IsYoung(h, g)
    ensures CopyParts(h, reachable, promotionAge, done + {g}, t, live, nursery, toSpace, oldSpace, moved, promoted)
  {
    SkipOld(h, reachable, promotionAge, done, g, t, live, nursery, moved, promoted);
  }

  lemma DropStep(
      h: Heap, reachable: set<StableHandle>, promotionAge: nat, done: set<StableHandle>, t: Table<Location>, live: nat,
      nursery: seq<Option<NurseryCell>>, toSpace: seq<Option<NurseryCell>>, oldSpace: seq<Option<GcObject>>,
      moved: seq<StableHandle>, promoted: seq<StableHandle>, g: StableHandle)
    requires Mapped(h.table, h.nursery, h.oldSpace) && IsYoung(h, g) && g !in done && g !in reachable
    requires CopyParts(h, reachable, promotionAge, done, t, live, nursery, toSpace, oldSpace, moved, promoted)
    ensures live > 0 && h.table.At(g).index < |nursery|
    ensures CopyParts(
              h, reachable, promotionAge, done + {g}, Released(t, g).0, live - 1,
              nursery[h.table.At(g).index := None], toSpace, oldSpace, moved, promoted)
  {
    TakeCell(h, done, g, nursery);
    ReleaseTable(h, reachable, done, g, t, live);
    ReleasePlaces(h, reachable, promotionAge, done, g, t, Released(t, g).0, moved, promoted);
  }

  lemma PromoteStep(
      h: Heap, reachable: set<StableHandle>, promotionAge: nat, done: set<StableHandle>, t: Table<Location>, live: nat,
      nursery: seq<Option<NurseryCell>>, toSpace: seq<Option<NurseryCell>>, oldSpace: seq<Option<GcObject>>,
      moved: seq<StableHandle>, promoted: seq<StableHandle>, g: StableHandle)
    requires Mapped(h.table, h.nursery, h.oldSpace) && IsYoung(h, g) && g !in done && g in reachable && NewAge(h, g) >= promotionAge
    requires CopyParts(h, reachable, promotionAge, done, t, live, nursery, toSpace, oldSpace, moved, promoted)
    ensures h.table.At(g).index < |nursery|
    ensures CopyParts(
              h, reachable, promotionAge, done + {g}, Relocated(t, g, Old(|oldSpace|)).0, live,
              nursery[h.table.At(g).index := None], toSpace, oldSpace + [Some(h.ObjectOf(g))], moved, promoted + [g])
  {
    TakeCell(h, done, g, nursery);
    RelocateTable(h, reachable, done, g, t, live, Old(|oldSpace|));
    PromotePlaces(h, reachable, promotionAge, done, g, t, Relocated(t, g, Old(|oldSpace|)).0, moved, promoted);
  }

  lemma MoveStep(
      h: Heap, reachable: set<StableHandle>, promotionAge: nat, done: set<StableHandle>, t: Table<Location>, live: nat,
      nursery: seq<Option<NurseryCell>>, toSpace: seq<Option<NurseryCell>>, oldSpace: seq<Option<GcObject>>,
      moved: seq<StableHandle>, promoted: seq<StableHandle>, g: StableHandle)
    requires Mapped(h.table, h.nursery, h.oldSpace) && IsYoung(h, g) && g !in done && g in reachable && NewAge(h, g) < promotionAge
    requires CopyParts(h, reachable, promotionAge, done, t, live, nursery, toSpace, oldSpace, moved, promoted)
    ensures h.table.At(g).index < |nursery|
    ensures CopyParts(
              h, reachable, promotionAge, done + {g}, Relocated(t, g, Nursery(|toSpace|)).0, live,
              nursery[h.table.At(g).index := None], toSpace + [Some(NurseryCell(h.ObjectOf(g), NewAge(h, g)))], oldSpace,
              moved + [g], promoted)
  {
    TakeCell(h, done, g, nursery);
    RelocateTable(h, reachable, done, g, t, live, Nursery(|toSpace|));
    MovePlaces(h, reachable, promotionAge, done, g, t, Relocated(t, g, Nursery(|toSpace|)).0, moved, promoted);
  }

  // The cell of a handle that is still to be visited.
  lemma CellToVisit(
      h: Heap, reachable: set<StableHandle>, promotionAge: nat, done: set<StableHandle>, t: Table<Location>, live: nat,
      nursery: seq<Option<NurseryCell>>, toSpace: seq<Option<NurseryCell>>, oldSpace: seq<Option<GcObject>>,
      moved: seq<StableHandle>, promoted: seq<StableHandle>, g: StableHandle)
    requires CopyParts(h, reachable, promotionAge, done, t, live, nursery, toSpace, oldSpace, moved, promoted)
    requires h.table.IsLive(g) && g !in done
    ensures t.Valid() && t.IsLive(g) && t.At(g) == h.table.At(g)
    ensures t.At(g).Nursery? ==>
      && IsYoung(h, g) && t.At(g).index < |nursery|
      && nursery[t.At(g).index] == Some(NurseryCell(h.ObjectOf(g), h.AgeOf(g)))
  {
  }

  // ------------------------------------------------------------------- ending

  // The cell of a settled handle.
  lemma EndYoung(
      h: Heap, promotionAge: nat, t: Table<Location>,
      toSpace: seq<Option<NurseryCell>>, oldSpace: seq<Option<GcObject>>, moved: seq<StableHandle>, promoted: seq<StableHandle>,
      g: StableHandle)
    requires Settled(h, promotionAge, t, moved, promoted, g)
    requires MadePart(h, toSpace, oldSpace, moved, promoted)
    ensures CellIn(toSpace, oldSpace, t.At(g)) == Some(h.ObjectOf(g))
    ensures t.At(g).Old? <==> NewAge(h, g) >= promotionAge
    ensures t.At(g).Nursery? ==>
      t.At(g).index < |toSpace| && toSpace[t.At(g).index] == Some(NurseryCell(h.ObjectOf(g), NewAge(h, g)))
  {
  }

  // Replacing the nursery makes every live handle name its own object again.
  lemma EndObject(
      h: Heap, reachable: set<StableHandle>, promotionAge: nat, done: set<StableHandle>, t: Table<Location>, live: nat,
      toSpace: seq<Option<NurseryCell>>, oldSpace: seq<Option<GcObject>>, moved: seq<StableHandle>, promoted: seq<StableHandle>,
      g: StableHandle)
    requires Mapped(h.table, h.nursery, h.oldSpace) && t.IsLive(g) && g in done
    requires TablePart(h, reachable, done, t, live)
    requires MadePart(h, toSpace, oldSpace, moved, promoted)
    requires SettledPart(h, reachable, promotionAge, done, t, moved, promoted)
    ensures h.table.IsLive(g)
    ensures CellIn(toSpace, oldSpace, t.At(g)) == Some(h.ObjectOf(g))
    ensures h.IsOld(g) ==> t.At(g) == h.table.At(g)
    ensures IsYoung(h, g) ==> (t.At(g).Old? <==> NewAge(h, g) >= promotionAge)
    ensures t.At(g).Nursery? ==>
      t.At(g).index < |toSpace| && toSpace[t.At(g).index] == Some(NurseryCell(h.ObjectOf(g), NewAge(h, g)))
  {
    assert h.table.IsLive(g);
    if IsYoung(h, g) {
      assert Visited(h, done, g);
      EndYoung(h, promotionAge, t, toSpace, oldSpace, moved, promoted, g);
    } else {
      assert t.At(g) == h.table.At(g);
      assert CellIn(h.nursery, h.oldSpace, h.table.At(g)).Some?;
    }
  }

  lemma EndInjective(
      h: Heap, reachable: set<StableHandle>, promotionAge: nat, done: set<StableHandle>, t: Table<Location>, live: nat,
      moved: seq<StableHandle>, promoted: seq<StableHandle>, x: StableHandle, y: StableHandle)
    requires Mapped(h.table, h.nursery, h.oldSpace) && (forall g :: h.table.IsLive(g) ==> g in done)
    requires TablePart(h, reachable, done, t, live)
    requires PlacePart(h, reachable, promotionAge, done, t, moved, promoted)
    requires t.IsLive(x) && t.IsLive(y) && t.At(x) == t.At(y)
    ensures x == y
  {
    assert h.table.IsLive(x) && h.table.IsLive(y);
    assert CellIn(h.nursery, h.oldSpace, h.table.At(x)).Some? && CellIn(h.nursery, h.oldSpace, h.table.At(y)).Some?;
    if IsYoung(h, x) {
      assert Visited(h, done, x);
      assert Settled(h, promotionAge, t, moved, promoted, x);
    }
    if IsYoung(h, y) {
      assert Visited(h, done, y);
      assert Settled(h, promotionAge, t, moved, promoted, y);
    }
  }

  lemma EndCovered(
      h: Heap, reachable: set<StableHandle>, promotionAge: nat, done: set<StableHandle>, t: Table<Location>, live: nat,
      toSpace: seq<Option<NurseryCell>>, oldSpace: seq<Option<GcObject>>, moved: seq<StableHandle>, promoted: seq<StableHandle>)
    requires Covered(h.table, h.nursery, h.oldSpace)
    requires TablePart(h, reachable, done, t, live)
    requires MadePart(h, toSpace, oldSpace, moved, promoted)
    requires PlacePart(h, reachable, promotionAge, done, t, moved, promoted)
    ensures Covered(t, toSpace, oldSpace)
  {
    forall i | 0 <= i < |toSpace| ensures Named(t, Nursery(i)) {
      assert t.IsLive(moved[i]) && t.At(moved[i]) == Nursery(i);
    }
    forall i | 0 <= i < |oldSpace| && oldSpace[i].Some? ensures Named(t, Old(i)) {
      if i < |h.oldSpace| {
        assert Named(h.table, Old(i));
        var g :| h.table.IsLive(g) && h.table.At(g) == Old(i);
        assert t.IsLive(g) && t.At(g) == Old(i);
      } else {
        assert t.IsLive(promoted[i - |h.oldSpace|]) && t.At(promoted[i - |h.oldSpace|]) == Old(i);
      }
    }
  }

  lemma EndValid(
      h: Heap, reachable: set<StableHandle>, promotionAge: nat, done: set<StableHandle>, t: Table<Location>, live: nat,
      toSpace: seq<Option<NurseryCell>>, oldSpace: seq<Option<GcObject>>, moved: seq<StableHandle>, promoted: seq<StableHandle>)
    requires h.Valid() && (forall g :: h.table.IsLive(g) ==> g in done)
    requires TablePart(h, reachable, done, t, live)
    requires MadePart(h, toSpace, oldSpace, moved, promoted)
    requires PlacePart(h, reachable, promotionAge, done, t, moved, promoted)
    requires forall g :: g in h.pins && IsYoung(h, g) ==> g in reachable
    ensures h.(table := t, nursery := toSpace, oldSpace := oldSpace, live := live).Valid()
  {
    EndCovered(h, reachable, promotionAge, done, t, live, toSpace, oldSpace, moved, promoted);
    assert Mapped(t, toSpace, oldSpace) by {
      forall g | t.IsLive(g) ensures CellIn(toSpace, oldSpace, t.At(g)).Some? {
        EndObject(h, reachable, promotionAge, done, t, live, toSpace, oldSpace, moved, promoted, g);
      }
      forall x, y | t.IsLive(x) && t.IsLive(y) && t.At(x) == t.At(y) ensures x == y {
        EndInjective(h, reachable, promotionAge, done, t, live, moved, promoted, x, y);
      }
    }
    forall g | h.IsOld(g) ensures t.IsLive(g) && t.At(g) == h.table.At(g) {
      assert !Visited(h, done, g);
    }
  }

  // A finished pass is a minor collection.
  lemma EndMinor(
      h: Heap, roots: set<StableHandle>, reachable: set<StableHandle>, promotionAge: nat, done: set<StableHandle>,
      t: Table<Location>, live: nat,
      toSpace: seq<Option<NurseryCell>>, oldSpace: seq<Option<GcObject>>, moved: seq<StableHandle>, promoted: seq<StableHandle>)
    requires h.Valid() && (forall g :: h.table.IsLive(g) ==> g in done)
    requires TablePart(h, reachable, done, t, live)
    requires MadePart(h, toSpace, oldSpace, moved, promoted)
    requires PlacePart(h, reachable, promotionAge, done, t, moved, promoted)
    requires forall g :: g in reachable <==> IsYoung(h, g) && Reachable(h.Edges(), MinorSeeds(h, roots), g)
    ensures MinorSpec(h, h.(table := t, nursery := toSpace, oldSpace := oldSpace, live := live), roots, promotionAge)
  {
    var h' := h.(table := t, nursery := toSpace, oldSpace := oldSpace, live := live);
    assert h'.Valid() by {
      forall g | g in h.pins && IsYoung(h, g) ensures g in reachable {
        SeedReachable(h.Edges(), MinorSeeds(h, roots), g);
      }
      EndValid(h, reachable, promotionAge, done, t, live, toSpace, oldSpace, moved, promoted);
    }
    forall g | h'.table.IsLive(g)
      ensures h.table.IsLive(g) && h'.ObjectOf(g) == h.ObjectOf(g)
      ensures !h.IsOld(g) ==> if NewAge(h, g) >= promotionAge then h'.IsOld(g) else !h'.IsOld(g) && h'.AgeOf(g) == NewAge(h, g)
    {
      EndObject(h, reachable, promotionAge, done, t, live, toSpace, oldSpace, moved, promoted, g);
    }
    forall g ensures h'.table.IsLive(g) <==>
        h.table.IsLive(g) && (h.IsOld(g) || Reachable(h.Edges(), MinorSeeds(h, roots), g))
    {
      assert h.table.IsLive(g) ==> (Visited(h, done, g) <==> !h.IsOld(g));
    }
    forall g | h.IsOld(g) ensures h'.table.IsLive(g) && h'.table.At(g) == h.table.At(g) {
      assert !Visited(h, done, g);
    }
  }
}
