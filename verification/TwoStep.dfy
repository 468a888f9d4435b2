/** UNPIN_PAGES and UNMAP as they run beside FREE_DMA_BUF_EX: both take the object
    off its list under the file lock and destroy it only after they have let go of
    the lock, while FREE_DMA_BUF_EX walks the lists and destroys under it. */
module TwoStep {
  import opened Common
  import opened Iatu
  import opened MemoryState
  import opened MemoryOps
  import opened MappingOps
  import opened KernelState

  /** Objects of one handle that are off their lists and not destroyed yet. */
  datatype Delisted = Delisted(pins: seq<Pinning>, views: seq<Mapping>)

  const NOTHING := Delisted([], [])

  // ---------------------------------------------------------------- half steps

  /** First half of UNPIN_PAGES: only the list changes. */
  function DelistPin(s: State, h: Handle, j: nat): State
    requires h in s.files && j < |s.files[h].pinnings|
  {
    s.(files := s.files[h := s.files[h].(pinnings := RemoveAt(s.files[h].pinnings, j))])
  }

  /** Second half of UNPIN_PAGES, in the tables. */
  function DestroyPin(s: State, p: Pinning): State {
    Released(s, {p.region})
  }

  /** First half of UNMAP. */
  function DelistView(s: State, h: Handle, j: nat): State
    requires h in s.files && j < |s.files[h].mappings|
  {
    s.(files := s.files[h := s.files[h].(mappings := RemoveAt(s.files[h].mappings, j))])
  }

  /** With nothing in between the halves are the request. */
  lemma UnpinHalves(s: State, h: Handle, j: nat)
    requires h in s.files && j < |s.files[h].pinnings|
    ensures DestroyPin(DelistPin(s, h, j), s.files[h].pinnings[j]) == Unpinned(s, h, j)
  {
    ReleaseLeavesFiles(s, {s.files[h].pinnings[j].region}, DelistPin(s, h, j).files);
  }

  // -------------------------------------------------- what is held in between

  /** The handle's objects, listed and delisted. */
  function Whole(f: File, d: Delisted, views: seq<Mapping>): File {
    f.(pinnings := f.pinnings + d.pins, mappings := views)
  }

  /** What is held for the handle is what its listed and delisted objects account
      for together. */
  ghost predicate Accounted(k: Holdings, h: Handle, f: File, d: Delisted, gone: bool) {
    && h in k.views && multiset(k.views[h]) == multiset(f.mappings) + multiset(d.views)
    && FileMatches(k, h, Whole(f, d, k.views[h]), gone) && RegionsOk(Whole(f, d, k.views[h]))
  }

  /** A healthy handle with nothing delisted is accounted for. */
  lemma HealthyIsAccounted(k: Holdings, s: State, h: Handle)
    requires Inv(s) && Matches(k, s) && h in s.files
    ensures Accounted(k, h, s.files[h], NOTHING, s.detached)
  {
    InvFileReady(k, s, h);
    assert Whole(s.files[h], NOTHING, k.views[h]) == s.files[h];
  }

  // --------------------------------------------------- the halves keep accounts

  function ToEnd<T>(xs: seq<T>, j: nat): seq<T>
    requires j < |xs|
  {
    RemoveAt(xs, j) + [xs[j]]
  }

  /** Where position i of the rotated list was. */
  function Origin(n: nat, j: nat, i: nat): nat
    requires j < n && i < n
  {
    if i == n - 1 then j else if i < j then i else i + 1
  }

  lemma ToEndIndex<T>(xs: seq<T>, j: nat)
    requires j < |xs|
    ensures |ToEnd(xs, j)| == |xs|
    ensures forall i | 0 <= i < |xs| :: Origin(|xs|, j, i) < |xs| && ToEnd(xs, j)[i] == xs[Origin(|xs|, j, i)]
    ensures forall x | x in xs :: x in ToEnd(xs, j)
    ensures forall x | x in ToEnd(xs, j) :: x in xs
  {
    forall x | x in xs
      ensures x in ToEnd(xs, j)
    {
      var i :| 0 <= i < |xs| && xs[i] == x;
      assert ToEnd(xs, j)[if i == j then |xs| - 1 else if i < j then i else i - 1] == x;
    }
  }

  lemma ToEndKeepsRegions(f: File, j: nat)
    requires RegionsOk(f) && j < |f.pinnings|
    ensures RegionsOk(f.(pinnings := ToEnd(f.pinnings, j)))
  {
    ToEndIndex(f.pinnings, j);
  }

  /** What an account says of the pinnings does not depend on their order. */
  lemma OrderDoesNotMatter(k: Holdings, h: Handle, f: File, ps: seq<Pinning>, gone: bool)
    requires FileMatches(k, h, f, gone) && forall p :: p in ps <==> p in f.pinnings
    ensures FileMatches(k, h, f.(pinnings := ps), gone)
  {
    var f' := f.(pinnings := ps);
    if !gone {
      forall r | r in k.aims && k.aims[r].h == h
        ensures ListedIn(f', r, k.aims[r])
      {
        assert ListedIn(f, r, k.aims[r]);
        ListedAnyOrder(f, ps, r, k.aims[r]);
      }
      assert forall j | 0 <= j < |ps| :: ps[j] in f.pinnings;
    }
    forall mem: Memory | mem.h == h
      ensures mem in k.memory <==> HeldIn(f', mem)
    {
      assert mem in k.memory <==> HeldIn(f, mem);
      if mem.Pages? {
        SomeDirectPinAnyOrder(f.creator, f.pinnings, ps, mem);
        SomeDirectPinAnyOrder(f.creator, ps, f.pinnings, mem);
      }
    }
  }

  lemma ListedAnyOrder(f: File, ps: seq<Pinning>, r: nat, mem: Memory)
    requires ListedIn(f, r, mem) && forall p | p in f.pinnings :: p in ps
    ensures ListedIn(f.(pinnings := ps), r, mem)
  {
    match mem
    case Buffer(_, i) =>
      if j :| 0 <= j < |f.pinnings| && BackedBy(f.pinnings[j], i) && f.pinnings[j].region == r {
        assert f.pinnings[j] in ps;
      }
    case Pages(_, process, va, size) =>
      var j :| 0 <= j < |f.pinnings| && f.pinnings[j].region == r && IsDirectPin(f.creator, f.pinnings[j], process, va, size);
      assert f.pinnings[j] in ps;
  }

  lemma SomeDirectPinAnyOrder(creator: Process, ps: seq<Pinning>, qs: seq<Pinning>, mem: Memory)
    requires mem.Pages? && forall p | p in ps :: p in qs
    ensures SomeDirectPin(creator, ps, mem.process, mem.va, mem.size) ==>
      SomeDirectPin(creator, qs, mem.process, mem.va, mem.size)
  {
    if j :| 0 <= j < |ps| && IsDirectPin(creator, ps[j], mem.process, mem.va, mem.size) {
      assert ps[j] in qs;
    }
  }

  lemma DelistPinKeeps(k: Holdings, h: Handle, f: File, d: Delisted, gone: bool, j: nat)
    requires Accounted(k, h, f, d, gone) && j < |f.pinnings|
    ensures Accounted(k, h, f.(pinnings := RemoveAt(f.pinnings, j)), d.(pins := d.pins + [f.pinnings[j]]), gone)
  {
    var all := Whole(f, d, k.views[h]);
    ToEndIndex(all.pinnings, j);
    assert RemoveAt(f.pinnings, j) + (d.pins + [f.pinnings[j]]) == ToEnd(all.pinnings, j);
    OrderDoesNotMatter(k, h, all, ToEnd(all.pinnings, j), gone);
    ToEndKeepsRegions(all, j);
  }

  /** Destroying a delisted pinning: its pages, if it locked any, may go once its
      region has. */
  lemma DestroyPinKeeps(k: Holdings, h: Handle, f: File, d: Delisted, gone: bool, x: nat)
    requires Accounted(k, h, f, d, gone) && x < |d.pins|
    ensures var p := d.pins[x]; var mem := PinMemory(h, f.creator, p); var k1 := TornDown(k, gone, p.region);
      && (p.backing.None? ==> CanFree(k1, gone, mem))
      && Accounted(if p.backing.None? then Freed(k1, mem) else k1, h, f, d.(pins := RemoveAt(d.pins, x)), gone)
  {
    var all, j := Whole(f, d, k.views[h]), |f.pinnings| + x;
    assert f.pinnings + RemoveAt(d.pins, x) == RemoveAt(all.pinnings, j);
    PinDropped(k, h, all, j, gone);
  }

  lemma RemovedFromMultiset<T>(xs: seq<T>, j: nat)
    requires j < |xs|
    ensures multiset(RemoveAt(xs, j)) + multiset{xs[j]} == multiset(xs)
  {
    assert xs == xs[..j] + [xs[j]] + xs[j + 1..];
  }

  lemma RemovedFromBoth<T>(vs: seq<T>, j: nat, ms: seq<T>, ds: seq<T>, x: nat)
    requires j < |vs| && x < |ds| && vs[j] == ds[x] && multiset(vs) == multiset(ms) + multiset(ds)
    ensures multiset(RemoveAt(vs, j)) == multiset(ms) + multiset(RemoveAt(ds, x))
  {
    RemovedFromMultiset(vs, j);
    RemovedFromMultiset(ds, x);
    var a, b := multiset(RemoveAt(vs, j)), multiset(ms) + multiset(RemoveAt(ds, x));
    assert a + multiset{vs[j]} == b + multiset{vs[j]};
    assert a == (a + multiset{vs[j]}) - multiset{vs[j]} && b == (b + multiset{vs[j]}) - multiset{vs[j]};
  }

  lemma DelistViewKeeps(k: Holdings, h: Handle, f: File, d: Delisted, gone: bool, j: nat)
    requires Accounted(k, h, f, d, gone) && j < |f.mappings|
    ensures Accounted(k, h, f.(mappings := RemoveAt(f.mappings, j)), d.(views := d.views + [f.mappings[j]]), gone)
  {
    RemovedFromMultiset(f.mappings, j);
    var f', d' := f.(mappings := RemoveAt(f.mappings, j)), d.(views := d.views + [f.mappings[j]]);
    assert Whole(f', d', k.views[h]) == Whole(f, d, k.views[h]);
  }

  /** Destroying a delisted view unmaps it, wherever it is among the views. */
  lemma DestroyViewKeeps(k: Holdings, h: Handle, f: File, d: Delisted, gone: bool, x: nat) returns (j: nat)
    requires Accounted(k, h, f, d, gone) && x < |d.views|
    ensures j < |k.views[h]| && k.views[h][j] == d.views[x]
    ensures Accounted(WithViews(k, h, RemoveAt(k.views[h], j)), h, f, d.(views := RemoveAt(d.views, x)), gone)
  {
    var vs, m := k.views[h], d.views[x];
    assert m in multiset(d.views) && m in multiset(vs);
    assert m in vs;
    j :| 0 <= j < |vs| && vs[j] == m;
    var all := Whole(f, d, vs);
    ViewsChanged(k, h, all, RemoveAt(vs, j), gone);
    RemovedFromBoth(vs, j, f.mappings, d.views, x);
    assert Whole(f, d.(views := RemoveAt(d.views, x)), RemoveAt(vs, j)) == all.(mappings := RemoveAt(vs, j));
  }

  // --------------------------------------------------------------- the free

  /** A delisted object still refers to buffer i: a view shows it, or, while the
      device is there, an aperture reaches it. */
  ghost predicate StillReferred(d: Delisted, i: nat, gone: bool) {
    || (exists x | 0 <= x < |d.views| :: Shows(d.views[x], i))
    || (!gone && exists x | 0 <= x < |d.pins| :: BackedBy(d.pins[x], i) && d.pins[x].region != -1)
  }

  /** When the busy walks of FREE_DMA_BUF_EX find nothing, deleting the buffer's
      memory is safe if and only if no object delisted and not yet destroyed still
      refers to the buffer. */
  lemma FreeIsSafeIff(k: Holdings, h: Handle, f: File, d: Delisted, gone: bool, b: DmaBuf)
    requires Accounted(k, h, f, d, gone) && RefsLive(f) && Live(f, b) && -1 <= b.region
    requires forall x | 0 <= x < |d.pins| :: -1 <= d.pins[x].region
    requires !BufMapped(f, b) && !BufPinned(f, b)
    ensures CanFree(TornDown(k, gone, b.region), gone, Buffer(h, b.index)) <==> !StillReferred(d, b.index, gone)
  {
    UnreferencedIsUnseen(f, b);
    assert HeldIn(Whole(f, d, k.views[h]), Buffer(h, b.index));
    ShownIff(k, h, f, d, gone, b.index);
    if !gone {
      AimedAtIff(k, h, f, d, b);
    }
  }

  lemma ShownIff(k: Holdings, h: Handle, f: File, d: Delisted, gone: bool, i: nat)
    requires Accounted(k, h, f, d, gone) && forall j | 0 <= j < |f.mappings| :: !Shows(f.mappings[j], i)
    ensures (exists j | 0 <= j < |k.views[h]| :: Shows(k.views[h][j], i)) <==> exists x | 0 <= x < |d.views| :: Shows(d.views[x], i)
  {
    var vs := k.views[h];
    if j :| 0 <= j < |vs| && Shows(vs[j], i) {
      assert vs[j] in multiset(vs);
      assert vs[j] in f.mappings || vs[j] in d.views;
    }
    if x :| 0 <= x < |d.views| && Shows(d.views[x], i) {
      assert d.views[x] in multiset(d.views);
      assert d.views[x] in multiset(vs);
      assert d.views[x] in vs;
    }
  }

  lemma AimedAtIff(k: Holdings, h: Handle, f: File, d: Delisted, b: DmaBuf)
    requires Accounted(k, h, f, d, false) && Live(f, b) && -1 <= b.region
    requires forall x | 0 <= x < |d.pins| :: -1 <= d.pins[x].region
    requires forall j | 0 <= j < |f.pinnings| :: !BackedBy(f.pinnings[j], b.index)
    ensures var k1 := TornDown(k, false, b.region);
      (exists r :: r in k1.aims && k1.aims[r] == Buffer(h, b.index)) <==>
        exists x | 0 <= x < |d.pins| :: BackedBy(d.pins[x], b.index) && d.pins[x].region != -1
  {
    var all, k1, mem := Whole(f, d, k.views[h]), TornDown(k, false, b.region), Buffer(h, b.index);
    if r :| r in k1.aims && k1.aims[r] == mem {
      assert ListedIn(all, r, mem);
      var j :| 0 <= j < |all.pinnings| && BackedBy(all.pinnings[j], b.index) && all.pinnings[j].region == r;
      assert j >= |f.pinnings| && all.pinnings[j] == d.pins[j - |f.pinnings|];
    }
    if x :| 0 <= x < |d.pins| && BackedBy(d.pins[x], b.index) && d.pins[x].region != -1 {
      assert all.pinnings[|f.pinnings| + x] == d.pins[x];
      assert d.pins[x].region in k1.aims && k1.aims[d.pins[x].region] == mem;
    }
  }

  // --------------------------------------------------------------- the race

  /** Pinning j alone refers to buffer b, and an aperture of its own reaches it. */
  ghost predicate OnlyPinned(f: File, j: nat, b: DmaBuf) {
    && j < |f.pinnings| && f.pinnings[j].backing == Some(b) && f.pinnings[j].region != -1
    && (forall x | 0 <= x < |f.pinnings| && x != j :: f.pinnings[x].backing != Some(b)) && !BufMapped(f, b)
  }

  /** As one step, UNPIN_PAGES and FREE_DMA_BUF_EX of the backing buffer exclude each
      other: busy before, safe after. Between the halves of the unpin the free
      succeeds, and deletes memory that the pinning's aperture still reaches. */
  lemma FreeRacesUnpin(k: Holdings, s: State, h: Handle, j: nat, b: DmaBuf)
    requires Inv(s) && Matches(k, s) && h in s.files && OnlyPinned(s.files[h], j, b)
    requires FileOkSlots(s.files[h]) && Gate(s, h, NR_FREE_DMA_BUF_EX) == Success
    ensures var p, mem, t := s.files[h].pinnings[j], Buffer(h, b.index), DelistPin(s, h, j);
      && FreeDmaBufEx(s, h, b.index, 0).1 == DeviceBusy
      && FreeDmaBufEx(Unpinned(s, h, j), h, b.index, 0).1 == Success
      && CanFree(TornDown(TornDown(k, false, p.region), false, b.region), false, mem)
      && FreeDmaBufEx(t, h, b.index, 0) == (BufFreed(t, h, b), Success)
      && !CanFree(TornDown(k, false, b.region), false, mem)
  {
    FreePassesItsWalk(s, h, j, b);
    FreeAroundUnpin(k, s, h, j, b);
  }

  lemma FreePassesItsWalk(s: State, h: Handle, j: nat, b: DmaBuf)
    requires Inv(s) && h in s.files && OnlyPinned(s.files[h], j, b)
    requires FileOkSlots(s.files[h]) && Gate(s, h, NR_FREE_DMA_BUF_EX) == Success
    ensures var t := DelistPin(s, h, j);
      && FreeDmaBufEx(s, h, b.index, 0).1 == DeviceBusy
      && FreeDmaBufEx(Unpinned(s, h, j), h, b.index, 0).1 == Success
      && FreeDmaBufEx(t, h, b.index, 0) == (BufFreed(t, h, b), Success)
  {
    var f := s.files[h];
    assert FileOk(s, h, f) && PinOk(s, h, f, f.pinnings[j]);
    RemoveAtIndex(f.pinnings, j);
  }

  lemma FreeAroundUnpin(k: Holdings, s: State, h: Handle, j: nat, b: DmaBuf)
    requires Inv(s) && Matches(k, s) && !s.detached && h in s.files && OnlyPinned(s.files[h], j, b)
    ensures var p, mem := s.files[h].pinnings[j], Buffer(h, b.index);
      && !CanFree(TornDown(k, false, b.region), false, mem)
      && CanFree(TornDown(TornDown(k, false, p.region), false, b.region), false, mem)
  {
    var f, p := s.files[h], s.files[h].pinnings[j];
    assert FileOk(s, h, f) && PinOk(s, h, f, p) && BufOk(s, h, b.index, b);
    InvFileReady(k, s, h);
    HealthyIsAccounted(k, s, h);
    AroundUnpin(k, h, f, j, b);
  }

  lemma AroundUnpin(k: Holdings, h: Handle, f: File, j: nat, b: DmaBuf)
    requires Accounted(k, h, f, NOTHING, false) && RefsLive(f) && Live(f, b) && OnlyPinned(f, j, b)
    requires -1 <= b.region && -1 <= f.pinnings[j].region
    ensures var p, mem := f.pinnings[j], Buffer(h, b.index);
      && !CanFree(TornDown(k, false, b.region), false, mem)
      && CanFree(TornDown(TornDown(k, false, p.region), false, b.region), false, mem)
  {
    var p, rest, d := f.pinnings[j], f.(pinnings := RemoveAt(f.pinnings, j)), Delisted([f.pinnings[j]], []);
    RemoveAtIndex(f.pinnings, j);
    DelistPinKeeps(k, h, f, NOTHING, false, j);
    assert NOTHING.pins + [p] == d.pins;
    FreeIsSafeIff(k, h, rest, d, false, b);
    assert BackedBy(d.pins[0], b.index);
    DestroyPinKeeps(k, h, rest, d, false, 0);
    assert RemoveAt(d.pins, 0) == [];
    FreeIsSafeIff(TornDown(k, false, p.region), h, rest, NOTHING, false, b);
  }

  /** The aperture still sends the range to the freed buffer's addresses. */
  lemma FreedWhileTargeted(s: State, h: Handle, j: nat, b: DmaBuf, x: nat)
    requires Inv(s) && !s.detached && h in s.files && OnlyPinned(s.files[h], j, b) && x < s.files[h].pinnings[j].size
    ensures var p, t := s.files[h].pinnings[j], BufFreed(DelistPin(s, h, j), h, b);
      && p.noc >= NOC_PCIE_OFFSET && Targets(t.apertures, p.noc - NOC_PCIE_OFFSET + x) == {p.physical + x}
      && b.logical <= p.physical + x < b.logical + b.size && t.files[h].bufs[b.index].None?
  {
    var f, p := s.files[h], s.files[h].pinnings[j];
    assert FileOk(s, h, f) && PinOk(s, h, f, p) && BufOk(s, h, b.index, b);
    OtherTargetsStay(DelistPin(s, h, j), {b.region}, p.region, p.noc - NOC_PCIE_OFFSET + x);
  }

  /** Tearing down other regions leaves a region's translation alone. */
  lemma OtherTargetsStay(s: State, rs: set<int>, r: nat, x: nat)
    requires TablesOk(s) && !s.detached && r < REGIONS && r !in rs && Hits(s.apertures[r], x)
    ensures Targets(Released(s, rs).apertures, x) == {s.apertures[r].value.target + (x - s.apertures[r].value.base)}
  {
    ReleasedTables(s, rs);
    OneTarget(Released(s, rs).claims, Released(s, rs).apertures, r, x);
  }

  /** View j alone refers to buffer b. */
  ghost predicate OnlyShown(f: File, j: nat, b: DmaBuf) {
    && j < |f.mappings| && f.mappings[j].dmaBuf == Some(b)
    && (forall x | 0 <= x < |f.mappings| && x != j :: f.mappings[x].dmaBuf != Some(b)) && !BufPinned(f, b)
  }

  /** The same race with UNMAP: the user view outlives the memory it shows. */
  lemma FreeRacesUnmap(k: Holdings, s: State, h: Handle, j: nat, b: DmaBuf)
    requires Inv(s) && Matches(k, s) && h in s.files && OnlyShown(s.files[h], j, b)
    requires FileOkSlots(s.files[h]) && Gate(s, h, NR_FREE_DMA_BUF_EX) == Success
    ensures var t := DelistView(s, h, j);
      && FreeDmaBufEx(s, h, b.index, 0).1 == DeviceBusy
      && FreeDmaBufEx(t, h, b.index, 0) == (BufFreed(t, h, b), Success)
      && !CanFree(TornDown(k, false, b.region), false, Buffer(h, b.index))
  {
    FreePassesViewWalk(s, h, j, b);
    FreeAroundUnmap(k, s, h, j, b);
  }

  lemma FreePassesViewWalk(s: State, h: Handle, j: nat, b: DmaBuf)
    requires Inv(s) && h in s.files && OnlyShown(s.files[h], j, b)
    requires FileOkSlots(s.files[h]) && Gate(s, h, NR_FREE_DMA_BUF_EX) == Success
    ensures var t := DelistView(s, h, j);
      && FreeDmaBufEx(s, h, b.index, 0).1 == DeviceBusy
      && FreeDmaBufEx(t, h, b.index, 0) == (BufFreed(t, h, b), Success)
  {
    var f := s.files[h];
    assert FileOk(s, h, f) && MapOk(s, h, f, f.mappings[j]);
    RemoveAtIndex(f.mappings, j);
  }

  lemma FreeAroundUnmap(k: Holdings, s: State, h: Handle, j: nat, b: DmaBuf)
    requires Inv(s) && Matches(k, s) && !s.detached && h in s.files && OnlyShown(s.files[h], j, b)
    ensures !CanFree(TornDown(k, false, b.region), false, Buffer(h, b.index))
  {
    var f, m := s.files[h], s.files[h].mappings[j];
    assert FileOk(s, h, f) && MapOk(s, h, f, m) && BufOk(s, h, b.index, b);
    InvFileReady(k, s, h);
    HealthyIsAccounted(k, s, h);
    AroundUnmap(k, h, f, j, b);
  }

  lemma AroundUnmap(k: Holdings, h: Handle, f: File, j: nat, b: DmaBuf)
    requires Accounted(k, h, f, NOTHING, false) && RefsLive(f) && Live(f, b) && OnlyShown(f, j, b) && -1 <= b.region
    ensures !CanFree(TornDown(k, false, b.region), false, Buffer(h, b.index))
  {
    var m, rest, d := f.mappings[j], f.(mappings := RemoveAt(f.mappings, j)), Delisted([], [f.mappings[j]]);
    RemoveAtIndex(f.mappings, j);
    DelistViewKeeps(k, h, f, NOTHING, false, j);
    assert NOTHING.views + [m] == d.views;
    FreeIsSafeIff(k, h, rest, d, false, b);
    assert Shows(d.views[0], b.index);
  }
}
