/** What the kernel and the hardware hold for the handles, effect by effect: the
    memory handed out and not yet given back, what each enabled aperture reaches,
    and the user views not yet unmapped. Giving memory back is an effect with a
    precondition, so the order of a teardown is part of what is proved. */
module KernelState {
  import opened Common
  import opened Iatu
  import opened MemoryState
  import opened MemoryOps
  import opened MappingOps
  import opened LifecycleOps

  /** A common buffer, by its slot, or a locked range of a process's pages. */
  datatype Memory = Buffer(h: Handle, index: nat) | Pages(h: Handle, process: Process, va: nat, size: nat)

  datatype Holdings = Holdings(
    memory: set<Memory>,
    aims: map<nat, Memory>,            // enabled aperture to the memory it reaches
    views: map<Handle, seq<Mapping>>)  // user views, in the order they were made

  function PinMemory(h: Handle, creator: Process, p: Pinning): Memory {
    if p.backing.Some? then Buffer(h, p.backing.value.index) else Pages(h, creator, p.va, p.size)
  }

  predicate Shows(m: Mapping, i: nat) {
    m.dmaBuf.Some? && m.dmaBuf.value.index == i
  }

  predicate BackedBy(p: Pinning, i: nat) {
    p.backing.Some? && p.backing.value.index == i
  }

  // -------------------------------------------------------------------- effects

  /** Memory may be given back once no aperture reaches it, unless the device is
      gone, and no user view shows it. */
  ghost predicate CanFree(k: Holdings, gone: bool, mem: Memory) {
    && mem in k.memory
    && (!gone ==> forall r | r in k.aims :: k.aims[r] != mem)
    && (mem.Buffer? && mem.h in k.views ==>
          forall j | 0 <= j < |k.views[mem.h]| :: !Shows(k.views[mem.h][j], mem.index))
  }

  /** Memory nothing holds, reaches or shows yet. */
  ghost predicate CanObtain(k: Holdings, mem: Memory) {
    && mem !in k.memory && (forall r | r in k.aims :: k.aims[r] != mem)
    && (mem.Buffer? && mem.h in k.views ==>
          forall j | 0 <= j < |k.views[mem.h]| :: !Shows(k.views[mem.h][j], mem.index))
  }

  function Obtained(k: Holdings, mem: Memory): Holdings {
    k.(memory := k.memory + {mem})
  }

  function Freed(k: Holdings, mem: Memory): Holdings {
    k.(memory := k.memory - {mem})
  }

  function Aimed(k: Holdings, r: nat, mem: Memory): Holdings {
    k.(aims := k.aims[r := mem])
  }

  /** TtTeardownNocDma leaves the hardware of a lost device alone. */
  function TornDown(k: Holdings, gone: bool, region: int): Holdings {
    if gone || region < 0 then k else k.(aims := k.aims - {region})
  }

  function WithViews(k: Holdings, h: Handle, ms: seq<Mapping>): Holdings {
    k.(views := k.views[h := ms])
  }

  class Kernel {
    ghost var holdings: Holdings

    constructor ()
      ensures holdings == Holdings({}, map[], map[])
    {
      holdings := Holdings({}, map[], map[]);
    }

    /** WdfCommonBufferCreate and MmProbeAndLockPages. */
    ghost method ObtainMemory(mem: Memory)
      requires mem !in holdings.memory
      modifies this
      ensures holdings == Obtained(old(holdings), mem)
    {
      holdings := Obtained(holdings, mem);
    }

    /** WdfObjectDelete and MmUnlockPages. */
    ghost method FreeMemory(mem: Memory, gone: bool)
      requires CanFree(holdings, gone, mem)
      modifies this
      ensures holdings == Freed(old(holdings), mem)
    {
      holdings := Freed(holdings, mem);
    }

    /** An outbound region enabled; only ever onto memory that is held. */
    ghost method AimAperture(r: nat, mem: Memory)
      requires mem in holdings.memory && r !in holdings.aims
      modifies this
      ensures holdings == Aimed(old(holdings), r, mem)
    {
      holdings := Aimed(holdings, r, mem);
    }

    ghost method DisableAperture(region: int, gone: bool)
      modifies this
      ensures holdings == TornDown(old(holdings), gone, region)
    {
      holdings := TornDown(holdings, gone, region);
    }

    /** MmMapLockedPagesSpecifyCache; only ever onto memory that is held. */
    ghost method MapView(h: Handle, m: Mapping)
      requires h in holdings.views && (m.dmaBuf.Some? ==> Buffer(h, m.dmaBuf.value.index) in holdings.memory)
      modifies this
      ensures holdings == WithViews(old(holdings), h, old(holdings).views[h] + [m])
    {
      holdings := WithViews(holdings, h, holdings.views[h] + [m]);
    }

    /** MmUnmapLockedPages, in TtDestroyUserMapping. */
    ghost method UnmapView(h: Handle, j: nat)
      requires h in holdings.views && j < |holdings.views[h]|
      modifies this
      ensures holdings == WithViews(old(holdings), h, RemoveAt(old(holdings).views[h], j))
    {
      holdings := WithViews(holdings, h, RemoveAt(holdings.views[h], j));
    }

    ghost method OpenHandle(h: Handle)
      requires h !in holdings.views
      modifies this
      ensures holdings == WithViews(old(holdings), h, [])
    {
      holdings := WithViews(holdings, h, []);
    }

    /** A handle goes for good only when nothing is held for it. */
    ghost method CloseHandle(h: Handle)
      requires h in holdings.views && holdings.views[h] == []
      requires forall mem | mem in holdings.memory :: mem.h != h
      modifies this
      ensures holdings == old(holdings).(views := old(holdings).views - {h})
    {
      holdings := holdings.(views := holdings.views - {h});
    }
  }

  // ------------------------------------------------------- one handle's holdings

  ghost predicate ListedIn(f: File, r: nat, mem: Memory) {
    match mem
    case Buffer(_, i) =>
      || (i < |f.bufs| && f.bufs[i].Some? && f.bufs[i].value.region == r)
      || (exists j | 0 <= j < |f.pinnings| :: BackedBy(f.pinnings[j], i) && f.pinnings[j].region == r)
    case Pages(_, process, va, size) =>
      exists j | 0 <= j < |f.pinnings| :: f.pinnings[j].region == r && IsDirectPin(f.creator, f.pinnings[j], process, va, size)
  }

  ghost predicate IsDirectPin(creator: Process, p: Pinning, process: Process, va: nat, size: nat) {
    p.backing.None? && p.va == va && p.size == size && creator == process
  }

  ghost predicate HeldIn(f: File, mem: Memory) {
    match mem
    case Buffer(_, i) => i < |f.bufs| && f.bufs[i].Some?
    case Pages(_, process, va, size) => SomeDirectPin(f.creator, f.pinnings, process, va, size)
  }

  /** Every enabled aperture that reaches the handle's memory belongs to one of its
      objects, and every object's aperture reaches its own memory. */
  ghost predicate AimsMatch(k: Holdings, h: Handle, f: File) {
    && (forall r | r in k.aims && k.aims[r].h == h :: ListedIn(f, r, k.aims[r]))
    && (forall i | 0 <= i < |f.bufs| && f.bufs[i].Some? && f.bufs[i].value.region != -1 ::
          f.bufs[i].value.region in k.aims && k.aims[f.bufs[i].value.region] == Buffer(h, i))
    && (forall j | 0 <= j < |f.pinnings| && f.pinnings[j].region != -1 ::
          f.pinnings[j].region in k.aims && k.aims[f.pinnings[j].region] == PinMemory(h, f.creator, f.pinnings[j]))
  }

  ghost predicate FileMatches(k: Holdings, h: Handle, f: File, gone: bool) {
    && (!gone ==> AimsMatch(k, h, f))
    && (forall mem: Memory | mem.h == h :: mem in k.memory <==> HeldIn(f, mem))
    && h in k.views && k.views[h] == f.mappings
  }

  /** Nothing of the other handles differs. */
  ghost predicate SameOthers(k: Holdings, k': Holdings, h: Handle) {
    && (forall r | r in k.aims && k.aims[r].h != h :: r in k'.aims && k'.aims[r] == k.aims[r])
    && (forall r | r in k'.aims && k'.aims[r].h != h :: r in k.aims && k'.aims[r] == k.aims[r])
    && (forall mem: Memory | mem.h != h :: mem in k.memory <==> mem in k'.memory)
    && (forall g | g != h :: g in k.views <==> g in k'.views)
    && (forall g | g != h && g in k.views :: k'.views[g] == k.views[g])
  }

  /** No two objects of the handle share a region, no two pinnings a range. */
  ghost predicate RegionsOk(f: File) {
    RegionsDistinct(f) && PinsDistinct(f.pinnings)
  }

  /** A pinning's region is torn down, then its pages are unlocked, which is safe;
      and then what is held matches the list without it. */
  lemma PinDropped(k: Holdings, h: Handle, f: File, j: nat, gone: bool)
    requires FileMatches(k, h, f, gone) && RegionsOk(f) && j < |f.pinnings|
    ensures var p := f.pinnings[j]; var mem := PinMemory(h, f.creator, p); var k1 := TornDown(k, gone, p.region);
      var k2 := if p.backing.None? then Freed(k1, mem) else k1;
      && (p.backing.None? ==> CanFree(k1, gone, mem))
      && FileMatches(k2, h, f.(pinnings := RemoveAt(f.pinnings, j)), gone) && SameOthers(k, k2, h)
      && RegionsOk(f.(pinnings := RemoveAt(f.pinnings, j)))
  {
    var p, f' := f.pinnings[j], f.(pinnings := RemoveAt(f.pinnings, j));
    var mem, k1 := PinMemory(h, f.creator, p), TornDown(k, gone, p.region);
    var k2 := if p.backing.None? then Freed(k1, mem) else k1;
    PinListShrinks(f, j);
    RemoveAtIndex(f.pinnings, j);
    PinListedWithout(f, j);
    if !gone {
      PinAimsDropped(k, h, f, j);
    }
  }

  lemma RemoveAtIndex<T>(xs: seq<T>, j: nat)
    requires j < |xs|
    ensures forall i | 0 <= i < |xs| - 1 :: RemoveAt(xs, j)[i] == xs[if i < j then i else i + 1]
    ensures forall i | 0 <= i < |xs| && i != j :: RemoveAt(xs, j)[if i < j then i else i - 1] == xs[i]
  {
  }

  /** What remains listed and held when pinning j leaves the list. */
  lemma PinListedWithout(f: File, j: nat)
    requires RegionsOk(f) && j < |f.pinnings|
    ensures var p, f' := f.pinnings[j], f.(pinnings := RemoveAt(f.pinnings, j));
      && (forall r: nat, mem: Memory | ListedIn(f, r, mem) && r != p.region :: ListedIn(f', r, mem))
      && (forall mem: Memory | mem != PinMemory(mem.h, f.creator, p) || p.backing.Some? :: HeldIn(f, mem) <==> HeldIn(f', mem))
      && (forall mem: Memory | mem == PinMemory(mem.h, f.creator, p) && p.backing.None? :: HeldIn(f, mem) && !HeldIn(f', mem))
  {
    var p, f' := f.pinnings[j], f.(pinnings := RemoveAt(f.pinnings, j));
    RemoveAtIndex(f.pinnings, j);
    forall r: nat, mem: Memory | ListedIn(f, r, mem) && r != p.region
      ensures ListedIn(f', r, mem)
    {
      PinStillListed(f, j, r, mem);
    }
    forall mem: Memory
      ensures (mem != PinMemory(mem.h, f.creator, p) || p.backing.Some?) ==> (HeldIn(f, mem) <==> HeldIn(f', mem))
      ensures (mem == PinMemory(mem.h, f.creator, p) && p.backing.None?) ==> HeldIn(f, mem) && !HeldIn(f', mem)
    {
      PinStillHeld(f, j, mem);
    }
  }

  lemma PinStillListed(f: File, j: nat, r: nat, mem: Memory)
    requires j < |f.pinnings| && ListedIn(f, r, mem) && r != f.pinnings[j].region
    ensures ListedIn(f.(pinnings := RemoveAt(f.pinnings, j)), r, mem)
  {
    var ps := RemoveAt(f.pinnings, j);
    RemoveAtIndex(f.pinnings, j);
    match mem
    case Buffer(_, i) =>
      if x :| 0 <= x < |f.pinnings| && BackedBy(f.pinnings[x], i) && f.pinnings[x].region == r {
        assert ps[if x < j then x else x - 1] == f.pinnings[x];
      }
    case Pages(_, process, va, size) =>
      var x :| 0 <= x < |f.pinnings| && f.pinnings[x].region == r && IsDirectPin(f.creator, f.pinnings[x], process, va, size);
      assert ps[if x < j then x else x - 1] == f.pinnings[x];
  }

  lemma PinStillHeld(f: File, j: nat, mem: Memory)
    requires PinsDistinct(f.pinnings) && j < |f.pinnings|
    ensures var p, f' := f.pinnings[j], f.(pinnings := RemoveAt(f.pinnings, j));
      if p.backing.None? && mem == PinMemory(mem.h, f.creator, p) then HeldIn(f, mem) && !HeldIn(f', mem)
      else HeldIn(f, mem) <==> HeldIn(f', mem)
  {
    RemoveAtIndex(f.pinnings, j);
    if mem.Pages? {
      DirectPinsWithout(f.creator, f.pinnings, j, mem.process, mem.va, mem.size);
    }
  }

  ghost predicate SomeDirectPin(creator: Process, ps: seq<Pinning>, process: Process, va: nat, size: nat) {
    exists j | 0 <= j < |ps| :: IsDirectPin(creator, ps[j], process, va, size)
  }

  lemma DirectPinsWithout(creator: Process, ps: seq<Pinning>, j: nat, process: Process, va: nat, size: nat)
    requires PinsDistinct(ps) && j < |ps|
    ensures var qs := RemoveAt(ps, j);
      if IsDirectPin(creator, ps[j], process, va, size) then !SomeDirectPin(creator, qs, process, va, size)
      else SomeDirectPin(creator, ps, process, va, size) <==> SomeDirectPin(creator, qs, process, va, size)
  {
    var qs := RemoveAt(ps, j);
    RemoveAtIndex(ps, j);
    if x :| 0 <= x < |ps| && IsDirectPin(creator, ps[x], process, va, size) && x != j {
      assert IsDirectPin(creator, qs[if x < j then x else x - 1], process, va, size);
    }
  }

  lemma PinAimsDropped(k: Holdings, h: Handle, f: File, j: nat)
    requires AimsMatch(k, h, f) && RegionsOk(f) && j < |f.pinnings|
    ensures var p, f' := f.pinnings[j], f.(pinnings := RemoveAt(f.pinnings, j)); var k1 := TornDown(k, false, p.region);
      && AimsMatch(k1, h, f')
      && (p.backing.None? ==> forall r | r in k1.aims :: k1.aims[r] != PinMemory(h, f.creator, p))
      && (p.region != -1 ==> p.region in k.aims && k.aims[p.region].h == h)
  {
    RemoveAtIndex(f.pinnings, j);
    PinListedWithout(f, j);
    if f.pinnings[j].backing.None? {
      PagesUnaimed(k, h, f, j);
    }
  }

  /** With a direct pinning's own region torn down nothing reaches its pages: only
      one pinning of the handle has that address and size. */
  lemma PagesUnaimed(k: Holdings, h: Handle, f: File, j: nat)
    requires AimsMatch(k, h, f) && PinsDistinct(f.pinnings) && j < |f.pinnings| && f.pinnings[j].backing.None?
    ensures var p := f.pinnings[j];
      forall r | r in TornDown(k, false, p.region).aims :: TornDown(k, false, p.region).aims[r] != PinMemory(h, f.creator, p)
  {
    var p := f.pinnings[j];
    var mem := PinMemory(h, f.creator, p);
    forall r | r in k.aims && k.aims[r] == mem
      ensures r == p.region
    {
      assert ListedIn(f, r, mem);
    }
  }

  /** A buffer's region is torn down, then its memory is deleted, which is safe when
      nothing else refers to the buffer. */
  lemma BufDropped(k: Holdings, h: Handle, f: File, i: nat, gone: bool)
    requires FileMatches(k, h, f, gone) && i < |f.bufs| && f.bufs[i].Some?
    requires forall j | 0 <= j < |f.mappings| :: !Shows(f.mappings[j], i)
    requires forall j | 0 <= j < |f.pinnings| :: !BackedBy(f.pinnings[j], i)
    ensures var k1 := TornDown(k, gone, f.bufs[i].value.region); var k2 := Freed(k1, Buffer(h, i));
      && CanFree(k1, gone, Buffer(h, i))
      && FileMatches(k2, h, f.(bufs := f.bufs[i := None]), gone) && SameOthers(k, k2, h)
  {
    var f' := f.(bufs := f.bufs[i := None]);
    var k1 := TornDown(k, gone, f.bufs[i].value.region);
    assert HeldIn(f, Buffer(h, i));
    if !gone {
      forall r | r in k1.aims && k1.aims[r].h == h
        ensures ListedIn(f', r, k1.aims[r]) && k1.aims[r] != Buffer(h, i)
      {
        assert ListedIn(f, r, k.aims[r]);
      }
    }
  }

  // ----------------------------------------------------------------- new objects

  /** A buffer obtained, its aperture, if any, aimed at it, and its record stored. */
  lemma BufAdded(k: Holdings, h: Handle, f: File, i: nat, b: DmaBuf)
    requires FileMatches(k, h, f, false) && i < |f.bufs| && f.bufs[i].None?
    requires forall j | 0 <= j < |f.pinnings| :: !BackedBy(f.pinnings[j], i)
    requires -1 <= b.region < REGIONS && (b.region != -1 ==> b.region !in k.aims)
    ensures var k1 := Obtained(k, Buffer(h, i));
      var k2 := if b.region == -1 then k1 else Aimed(k1, b.region, Buffer(h, i));
      && Buffer(h, i) !in k.memory
      && FileMatches(k2, h, f.(bufs := f.bufs[i := Some(b)]), false) && SameOthers(k, k2, h)
  {
    var k1 := Obtained(k, Buffer(h, i));
    var k2 := if b.region == -1 then k1 else Aimed(k1, b.region, Buffer(h, i));
    var f' := f.(bufs := f.bufs[i := Some(b)]);
    forall r | r in k2.aims && k2.aims[r].h == h
      ensures ListedIn(f', r, k2.aims[r])
    {
      if r in k.aims && r != b.region {
        assert ListedIn(f, r, k.aims[r]);
      }
    }
  }

  /** A range pinned: locked when nothing backs it, and its aperture aimed. */
  lemma PinListed(k: Holdings, h: Handle, f: File, p: Pinning)
    requires FileMatches(k, h, f, false) && !AlreadyPinned(f.pinnings, p.va, p.size)
    requires -1 <= p.region < REGIONS && (p.region != -1 ==> p.region !in k.aims)
    ensures var mem := PinMemory(h, f.creator, p); var k1 := if p.backing.None? then Obtained(k, mem) else k;
      var k2 := if p.region == -1 then k1 else Aimed(k1, p.region, mem);
      && (p.backing.None? ==> mem !in k.memory)
      && FileMatches(k2, h, f.(pinnings := f.pinnings + [p]), false) && SameOthers(k, k2, h)
  {
    var mem := PinMemory(h, f.creator, p);
    var k1 := if p.backing.None? then Obtained(k, mem) else k;
    var k2 := if p.region == -1 then k1 else Aimed(k1, p.region, mem);
    var f' := f.(pinnings := f.pinnings + [p]);
    assert f'.pinnings[|f.pinnings|] == p && forall j | 0 <= j < |f.pinnings| :: f'.pinnings[j] == f.pinnings[j];
    forall r | r in k2.aims && k2.aims[r].h == h
      ensures ListedIn(f', r, k2.aims[r])
    {
      if r in k.aims && r != p.region {
        assert ListedIn(f, r, k.aims[r]);
        OnePinMoreListed(f, p, r, k.aims[r]);
      }
    }
    forall m: Memory | m.h == h
      ensures m in k2.memory <==> HeldIn(f', m)
    {
      if m.Pages? {
        OnePinMore(f.creator, f.pinnings, p, m.process, m.va, m.size);
      }
    }
  }

  lemma OnePinMoreListed(f: File, p: Pinning, r: nat, mem: Memory)
    requires ListedIn(f, r, mem)
    ensures ListedIn(f.(pinnings := f.pinnings + [p]), r, mem)
  {
    var ps := f.pinnings + [p];
    assert forall j | 0 <= j < |f.pinnings| :: ps[j] == f.pinnings[j];
  }

  lemma OnePinMore(creator: Process, ps: seq<Pinning>, p: Pinning, process: Process, va: nat, size: nat)
    ensures SomeDirectPin(creator, ps + [p], process, va, size) <==>
      SomeDirectPin(creator, ps, process, va, size) || IsDirectPin(creator, p, process, va, size)
  {
    var qs := ps + [p];
    assert qs[|ps|] == p && forall j | 0 <= j < |ps| :: qs[j] == ps[j];
  }

  /** The list of views and the views themselves change together. */
  lemma ViewsChanged(k: Holdings, h: Handle, f: File, ms: seq<Mapping>, gone: bool)
    requires FileMatches(k, h, f, gone)
    ensures FileMatches(WithViews(k, h, ms), h, f.(mappings := ms), gone) && SameOthers(k, WithViews(k, h, ms), h)
  {
    var k', f' := WithViews(k, h, ms), f.(mappings := ms);
    if !gone {
      forall r | r in k'.aims && k'.aims[r].h == h
        ensures ListedIn(f', r, k'.aims[r])
      {
        assert ListedIn(f, r, k.aims[r]);
      }
    }
  }

  /** What a failing request obtained, it gives back. */
  lemma ObtainedCanGoBack(k: Holdings, mem: Memory)
    requires CanObtain(k, mem)
    ensures CanFree(Obtained(k, mem), false, mem) && Freed(Obtained(k, mem), mem) == k
  {
    assert Freed(Obtained(k, mem), mem).memory == k.memory;
  }

  lemma AimUndone(k: Holdings, r: nat, mem: Memory)
    requires r !in k.aims
    ensures TornDown(Aimed(k, r, mem), false, r) == k
  {
    assert TornDown(Aimed(k, r, mem), false, r).aims == k.aims;
  }

  // ------------------------------------------------------------ the whole device

  /** The enabled apertures are the ones recorded. */
  ghost predicate AimsAreApertures(k: Holdings, aps: Apertures) {
    forall r: nat :: r in k.aims <==> r < |aps| && aps[r].Some?
  }

  /** What is held is exactly what the device's objects account for. */
  ghost predicate Matches(k: Holdings, s: State) {
    && AimsAreApertures(k, s.apertures) && k.views.Keys == s.files.Keys
    && (forall mem | mem in k.memory :: mem.h in s.files)
    && (!s.detached ==> forall r | r in k.aims :: k.aims[r].h in s.files)
    && forall h {:trigger FileMatches(k, h, s.files[h], s.detached)} | h in s.files :: FileMatches(k, h, s.files[h], s.detached)
  }

  lemma StartMatches(c: Config, needsHwInit: bool)
    ensures Matches(Holdings({}, map[], map[]), Start(c, needsHwInit))
  {
  }

  /** A handler's step on its own handle, in all but that handle's holdings. */
  lemma StepMatches(k: Holdings, k': Holdings, s: State, s': State, h: Handle, f: File)
    requires Matches(k, s) && h in s.files && SameOthers(k, k', h)
    requires s'.files == s.files[h := f] && s'.detached == s.detached
    requires AimsAreApertures(k', s'.apertures) && FileMatches(k', h, f, s.detached)
    ensures Matches(k', s')
  {
    assert k'.views.Keys == s'.files.Keys;
    forall mem | mem in k'.memory
      ensures mem.h in s'.files
    {
      assert mem.h == h || mem in k.memory;
    }
    forall g | g in s'.files && g != h
      ensures FileMatches(k', g, s'.files[g], s'.detached)
    {
      OthersMatch(k, k', h, g, s.files[g], s.detached);
    }
  }

  lemma OthersMatch(k: Holdings, k': Holdings, h: Handle, g: Handle, f: File, gone: bool)
    requires FileMatches(k, g, f, gone) && SameOthers(k, k', h) && g != h
    ensures FileMatches(k', g, f, gone)
  {
    if !gone {
      forall r | r in k'.aims && k'.aims[r].h == g
        ensures ListedIn(f, r, k'.aims[r])
      {
        assert ListedIn(f, r, k.aims[r]);
      }
    }
  }

  lemma SameOthersReflexive(k: Holdings, h: Handle)
    ensures SameOthers(k, k, h)
  {
  }

  lemma SameOthersTransitive(k: Holdings, k': Holdings, k'': Holdings, h: Handle)
    requires SameOthers(k, k', h) && SameOthers(k', k'', h)
    ensures SameOthers(k, k'', h)
  {
  }

  // ------------------------------------------------ what a handler starts from

  /** References of the handle are to its own live buffers. */
  ghost predicate RefsLive(f: File) {
    && (forall j | 0 <= j < |f.mappings| && f.mappings[j].dmaBuf.Some? :: Live(f, f.mappings[j].dmaBuf.value))
    && (forall j | 0 <= j < |f.pinnings| && f.pinnings[j].backing.Some? :: Live(f, f.pinnings[j].backing.value))
  }

  ghost predicate FileReady(k: Holdings, h: Handle, f: File, gone: bool) {
    FileMatches(k, h, f, gone) && RegionsOk(f) && RefsLive(f) && FileOkSlots(f) && ViewsInReach(f)
  }

  ghost predicate Ready(k: Holdings, s: State, h: Handle) {
    && TablesOk(s) && AimsAreApertures(k, s.apertures)
    && h in s.files && FileReady(k, h, s.files[h], s.detached)
  }

  /** What a handler leaves behind for its own handle and for the others. */
  ghost predicate Moved(k: Holdings, k': Holdings, s': State, h: Handle) {
    && SameOthers(k, k', h) && AimsAreApertures(k', s'.apertures)
    && h in s'.files && FileMatches(k', h, s'.files[h], s'.detached)
  }

  lemma InvFileReady(k: Holdings, s: State, h: Handle)
    requires Inv(s) && Matches(k, s) && h in s.files
    ensures FileReady(k, h, s.files[h], s.detached)
  {
    var f := s.files[h];
    assert FileOk(s, h, f);
    forall i | 0 <= i < |f.bufs| && f.bufs[i].Some?
      ensures f.bufs[i].value.index == i
    {
      assert BufOk(s, h, i, f.bufs[i].value);
    }
    forall j | 0 <= j < |f.pinnings|
      ensures f.pinnings[j].backing.Some? ==> Live(f, f.pinnings[j].backing.value)
    {
      assert PinOk(s, h, f, f.pinnings[j]);
    }
    forall j | 0 <= j < |f.mappings| && f.mappings[j].dmaBuf.Some?
      ensures Live(f, f.mappings[j].dmaBuf.value)
    {
      assert MapOk(s, h, f, f.mappings[j]);
    }
    ViewsAreInReach(s, h);
  }

  /** A buffer no list refers to is neither shown nor backing anything. */
  lemma UnreferencedIsUnseen(f: File, b: DmaBuf)
    requires RefsLive(f) && Live(f, b) && !BufMapped(f, b) && !BufPinned(f, b)
    ensures forall j | 0 <= j < |f.mappings| :: !Shows(f.mappings[j], b.index)
    ensures forall j | 0 <= j < |f.pinnings| :: !BackedBy(f.pinnings[j], b.index)
  {
  }

  /** Nor is an empty slot; so nothing is held for it and nothing reaches it. */
  lemma EmptySlotIsFree(k: Holdings, h: Handle, f: File, i: nat)
    requires FileMatches(k, h, f, false) && RefsLive(f) && i < |f.bufs| && f.bufs[i].None?
    ensures forall j | 0 <= j < |f.pinnings| :: !BackedBy(f.pinnings[j], i)
    ensures CanObtain(k, Buffer(h, i))
  {
    forall r | r in k.aims && k.aims[r].h == h
      ensures k.aims[r] != Buffer(h, i)
    {
      assert ListedIn(f, r, k.aims[r]);
    }
  }

  lemma NewRangeIsFree(k: Holdings, h: Handle, f: File, va: nat, size: nat)
    requires FileMatches(k, h, f, false) && !AlreadyPinned(f.pinnings, va, size)
    ensures CanObtain(k, Pages(h, f.creator, va, size))
  {
    var mem := Pages(h, f.creator, va, size);
    forall r | r in k.aims && k.aims[r].h == h
      ensures k.aims[r] != mem
    {
      assert ListedIn(f, r, k.aims[r]);
    }
  }

  /** A new pinning's memory is a held buffer or a range not held yet. */
  lemma PinCanStart(k: Holdings, h: Handle, f: File, p: Pinning)
    requires FileMatches(k, h, f, false) && !AlreadyPinned(f.pinnings, p.va, p.size)
    requires p.backing.Some? ==> Live(f, p.backing.value)
    ensures var mem := PinMemory(h, f.creator, p); if p.backing.None? then CanObtain(k, mem) else mem in k.memory
  {
    NewRangeIsFree(k, h, f, p.va, p.size);
    if p.backing.Some? {
      assert HeldIn(f, PinMemory(h, f.creator, p));
    }
  }

  /** A region set up is a new aperture. */
  lemma SetUpAims(k: Holdings, cs: Claims, cs': Claims, aps: Apertures, aps': Apertures,
                  h: Handle, topDown: bool, size: nat, target: nat, noc: nat, region: int, mem: Memory)
    requires SetUp(cs, cs', aps, aps', h, topDown, size, target, noc, region)
    requires Agree(cs, aps) && AimsAreApertures(k, aps) && 1 < size
    ensures region < |aps| && region !in k.aims && AimsAreApertures(Aimed(k, region, mem), aps')
  {
  }

  // ---------------------------------------------------- close, exit, reset

  ghost predicate NothingHeld(k: Holdings, h: Handle, gone: bool) {
    && h in k.views && k.views[h] == [] && (forall mem | mem in k.memory :: mem.h != h)
    && (!gone ==> forall r | r in k.aims :: k.aims[r].h != h)
  }

  lemma EmptyFileHoldsNothing(k: Holdings, h: Handle, f: File, gone: bool)
    requires FileMatches(k, h, f, gone) && f.mappings == [] && f.pinnings == []
    requires forall i | 0 <= i < |f.bufs| :: f.bufs[i].None?
    ensures NothingHeld(k, h, gone)
  {
    forall mem | mem in k.memory
      ensures mem.h != h
    {
      assert mem.h == h ==> HeldIn(f, mem);
    }
    if !gone {
      forall r | r in k.aims
        ensures k.aims[r].h != h
      {
        assert k.aims[r].h == h ==> ListedIn(f, r, k.aims[r]);
      }
    }
  }

  /** The last step of a cleanup: the handle itself. */
  lemma CloseMatches(k: Holdings, k': Holdings, s: State, s': State, h: Handle)
    requires Matches(k, s) && h in s.files && SameOthers(k, k', h) && NothingHeld(k', h, s.detached)
    requires s'.files == s.files - {h} && s'.detached == s.detached && AimsAreApertures(k', s'.apertures)
    ensures Matches(k'.(views := k'.views - {h}), s')
  {
    var k2 := k'.(views := k'.views - {h});
    assert k2.views.Keys == s'.files.Keys;
    forall g | g in s'.files
      ensures FileMatches(k2, g, s'.files[g], s'.detached)
    {
      OthersMatch(k, k', h, g, s.files[g], s.detached);
      SameHoldings(k', k2, g, s.files[g], s.files[g], s.detached);
    }
  }

  /** What a file's holdings are does not depend on its generation. */
  lemma SameHoldings(k: Holdings, k': Holdings, h: Handle, f: File, f': File, gone: bool)
    requires FileMatches(k, h, f, gone) && f' == f.(openGen := f'.openGen)
    requires k'.aims == k.aims && k'.memory == k.memory && h in k'.views && k'.views[h] == k.views[h]
    ensures FileMatches(k', h, f', gone)
  {
    if !gone {
      forall r | r in k'.aims && k'.aims[r].h == h
        ensures ListedIn(f', r, k'.aims[r])
      {
        assert ListedIn(f, r, k.aims[r]);
      }
    }
    forall mem: Memory | mem.h == h
      ensures mem in k'.memory <==> HeldIn(f', mem)
    {
      assert mem in k.memory <==> HeldIn(f, mem);
    }
  }

  lemma OpenMatches(k: Holdings, s: State, h: Handle, creator: Process)
    requires Matches(k, s) && h !in s.files
    ensures h !in k.views && Matches(WithViews(k, h, []), Opened(s, h, creator))
  {
    var k', s' := WithViews(k, h, []), Opened(s, h, creator);
    forall g | g in s'.files
      ensures FileMatches(k', g, s'.files[g], s'.detached)
    {
      if g != h {
        OthersMatch(k, k', h, g, s.files[g], s.detached);
      }
    }
  }

  lemma BumpMatches(k: Holdings, s: State, h: Handle)
    requires Matches(k, s) && h in s.files
    ensures Matches(k, Bumped(s, h))
  {
    SameHoldings(k, k, h, s.files[h], Bumped(s, h).files[h], s.detached);
  }

  /** A lost device no longer answers for its apertures. */
  lemma GoneMatches(k: Holdings, s: State)
    requires Matches(k, s)
    ensures Matches(k, s.(detached := true))
  {
    assert forall h | h in s.files :: FileMatches(k, h, s.files[h], s.detached);
  }

  /** Of a process nothing but the buffers of its handles is held: no view, and no
      locked page. */
  ghost predicate NothingHeldFor(k: Holdings, s: State, p: Process) {
    && (forall h | h in s.files && s.files[h].creator == p :: h in k.views && k.views[h] == [])
    && (forall mem | mem in k.memory && mem.Pages? :: mem.process != p)
  }

  lemma ExitHoldsNothing(k: Holdings, s: State, p: Process)
    requires Matches(k, Exited(s, p))
    ensures NothingHeldFor(k, Exited(s, p), p)
  {
    var s' := Exited(s, p);
    assert forall h | h in s'.files :: FileMatches(k, h, s'.files[h], s'.detached);
    forall mem | mem in k.memory && mem.Pages?
      ensures mem.process != p
    {
      assert FileMatches(k, mem.h, s'.files[mem.h], s'.detached) && HeldIn(s'.files[mem.h], mem);
    }
  }

  // ------------------------------------------------------- what matching means

  function MemoryOf(s: State, u: User): Memory
    requires u.h in s.files && (u.PinUser? ==> u.position < |s.files[u.h].pinnings|)
  {
    match u
    case BufUser(h, i) => Buffer(h, i)
    case PinUser(h, j) => PinMemory(h, s.files[h].creator, s.files[h].pinnings[j])
  }

  /** No enabled aperture reaches memory that was given back: it reaches the memory
      of the one live object its region belongs to, and that memory is held. */
  lemma AperturesReachHeldMemory(k: Holdings, s: State, r: nat) returns (u: User)
    requires Inv(s) && Matches(k, s) && !s.detached && r in k.aims
    ensures Uses(s, u, r) && k.aims[r] == MemoryOf(s, u) && k.aims[r] in k.memory
    ensures forall v | Uses(s, v, r) :: v == u
  {
    var h := k.aims[r].h;
    var f := s.files[h];
    assert FileMatches(k, h, f, false) && ListedIn(f, r, k.aims[r]);
    InvFileReady(k, s, h);
    if i :| 0 <= i < |f.bufs| && f.bufs[i].Some? && f.bufs[i].value.region == r {
      u := BufUser(h, i);
      assert HeldIn(f, Buffer(h, i));
    } else {
      var j :| 0 <= j < |f.pinnings| && f.pinnings[j].region == r;
      u := PinUser(h, j);
      PinMemoryHeld(f, h, j);
    }
    assert Uses(s, u, r);
    SlotsConserved(s, r);
  }

  lemma PinMemoryHeld(f: File, h: Handle, j: nat)
    requires RefsLive(f) && j < |f.pinnings|
    ensures HeldIn(f, PinMemory(h, f.creator, f.pinnings[j]))
  {
    var p := f.pinnings[j];
    if p.backing.None? {
      assert IsDirectPin(f.creator, p, f.creator, p.va, p.size);
    }
  }

  /** Nor does any user view show memory that was given back. */
  lemma ViewsShowHeldMemory(k: Holdings, s: State, h: Handle, j: nat)
    requires Inv(s) && Matches(k, s) && h in s.files && h in k.views && j < |k.views[h]| && k.views[h][j].dmaBuf.Some?
    ensures Buffer(h, k.views[h][j].dmaBuf.value.index) in k.memory
  {
    InvFileReady(k, s, h);
    assert HeldIn(s.files[h], Buffer(h, k.views[h][j].dmaBuf.value.index));
  }
}
