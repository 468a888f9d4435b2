/** One device's memory objects: DMA buffers, user mappings, pinned ranges, TLB
    windows and iATU slots, as a value, and the invariant that ties the tables
    to the objects that refer to them. */
module MemoryState {
  import opened Common
  import opened Iatu
  import opened WindowGeometry
  import opened TlbPoolSpec
  import opened TlbTokens
  import opened Sums

  const PAGE := 4096
  const MAX_DMA_BUF_SIZE: nat := 0x1000_0000

  /** PEPROCESS: an opaque process. A handle keeps a reference to its creator,
      so the name of a dead process is not used again while it matters. */
  type Process = nat

  /** TT_DMABUF. Its fields never change once it is in its slot, so a pointer to
      it is modelled by the record, with ptr for its identity. noc keeps the
      NOC address its request reported. */
  datatype DmaBuf = DmaBuf(ptr: nat, index: nat, size: nat, logical: nat, cpu: nat, region: int, noc: nat)

  datatype Cache = NonCached | WriteCombined | Cached

  /** TT_USER_MAPPING; physical is the range its MDL describes, cache how it was
      mapped. */
  datatype Mapping = Mapping(va: nat, length: nat, physical: nat, cache: Cache, tlbId: int,
                             isDmaBuf: bool, dmaBuf: Option<DmaBuf>, process: Process)

  /** TT_PINNING, with the physical and NOC addresses its request reported. */
  datatype Pinning = Pinning(va: nat, size: nat, physical: nat, backing: Option<DmaBuf>, region: int, noc: nat)

  type Slots = seq<Option<DmaBuf>>

  /** TT_FILE_CONTEXT, without the lock, power and NOC-cleanup fields. */
  datatype File = File(openGen: int, creator: Process,
                       mappings: seq<Mapping>, pinnings: seq<Pinning>, bufs: Slots)

  /** What is fixed while the device runs. */
  datatype Config = Config(isBlackhole: bool, dmaCapable: bool, identityDomain: bool, simulated: bool,
                           tlb4gCount: nat, barBase: seq<nat>, barLength: seq<nat>, limit: nat)

  datatype State = State(
    cfg: Config,
    claims: Claims,                 // Context->Iatu
    apertures: Apertures,           // the hardware regions
    windows: Owners,                // Context->TlbOwner
    files: map<Handle, File>,       // Context->FileList
    gen: int,                       // Context->ResetGen
    detached: bool,
    needsHwInit: bool,
    bytes: int,                     // Context->DmaBufBytes
    dead: set<Process>)             // processes that have exited

  /** What PrepareHardware makes sure of: on a Blackhole the 4 GiB windows are as
      many as BAR4 holds, up to eight, BAR0 reaches past its registers, and there
      is a BAR2; only a Blackhole gets a DMA enabler, and only with one is the
      domain probed. */
  predicate ConfigOk(c: Config) {
    && |c.barBase| == |c.barLength| == 6 && (c.identityDomain ==> c.dmaCapable)
    && if c.isBlackhole
       then
         && c.tlb4gCount == Min(c.barLength[4] / SIZE_4G, WINDOWS_4G_MAX)
         && c.barLength[0] >= BAR0_MIN && c.barLength[2] > 0
       else c.tlb4gCount == 0 && !c.dmaCapable
  }

  const BAR0_MIN: nat := 0x1FE0_0000

  function Min(a: nat, b: nat): nat {
    if a <= b then a else b
  }

  // ----------------------------------------------------------------- one handle

  predicate Owned(cs: Claims, r: int, h: Handle) {
    0 <= r < |cs| && cs[r].Some? && cs[r].value.owner == h
  }

  /** An object of handle h that owns region r: the claim is h's and covers
      exactly the object's size at its NOC address, and the hardware sends that
      range to the object's device address. */
  ghost predicate Routed(s: State, h: Handle, r: int, size: nat, noc: nat, physical: nat)
    requires |s.claims| == |s.apertures| == REGIONS
  {
    r != -1 ==>
      && 0 <= r < REGIONS && NOC_PCIE_OFFSET <= noc && 0 < size
      && var base := noc - NOC_PCIE_OFFSET;
      && s.claims[r] == Some(Claim(h, base, base + size - 1))
      && (!s.detached ==> s.apertures[r] == Some(Aperture(base, base + size - 1, physical)))
  }

  /** b is one of f's buffers. */
  ghost predicate Live(f: File, b: DmaBuf) {
    b.index < |f.bufs| && f.bufs[b.index] == Some(b)
  }

  /** A buffer is where it says, of a legal size, and within the device's reach. */
  ghost predicate BufOk(s: State, h: Handle, i: nat, b: DmaBuf)
    requires |s.claims| == |s.apertures| == REGIONS
  {
    && b.index == i && 0 < b.size <= MAX_DMA_BUF_SIZE && b.size % PAGE == 0
    && b.logical + b.size - 1 <= NOC_DMA_LIMIT
    && Routed(s, h, b.region, b.size, b.noc, b.logical)
  }

  /** A pinning backed by a buffer lies inside that buffer. */
  ghost predicate PinOk(s: State, h: Handle, f: File, p: Pinning)
    requires |s.claims| == |s.apertures| == REGIONS
  {
    && 0 < p.size && Routed(s, h, p.region, p.size, p.noc, p.physical)
    && (p.backing.Some? ==>
          && Live(f, p.backing.value) && p.backing.value.logical <= p.physical
          && p.physical + p.size <= p.backing.value.logical + p.backing.value.size)
  }

  /** A mapping belongs to the creator; a buffer view shows a live buffer from its
      start; a window view shows a window of the same handle; and only a current
      handle of an attached device has views of the device itself. */
  ghost predicate MapOk(s: State, h: Handle, f: File, m: Mapping) {
    && m.process == f.creator && 0 < m.length && (m.isDmaBuf <==> m.dmaBuf.Some?)
    && (m.isDmaBuf ==>
          && m.tlbId == -1 && Live(f, m.dmaBuf.value)
          && m.physical == m.dmaBuf.value.cpu && m.length <= m.dmaBuf.value.size)
    && (m.tlbId != -1 ==> 0 <= m.tlbId < |s.windows| && s.windows[m.tlbId] == Some(h))
    && (!m.isDmaBuf ==> f.openGen == s.gen && !s.detached)
  }

  function BufRegions(bs: Slots): set<int> {
    set i | 0 <= i < |bs| && bs[i].Some? :: bs[i].value.region
  }

  function PinRegions(ps: seq<Pinning>): set<int> {
    set k | 0 <= k < |ps| :: ps[k].region
  }

  function UsedRegions(f: File): set<int> {
    BufRegions(f.bufs) + PinRegions(f.pinnings)
  }

  /** No two objects of the handle use the same region. */
  ghost predicate RegionsDistinct(f: File) {
    && (forall i, j | 0 <= i < j < |f.bufs| :: f.bufs[i].Some? && f.bufs[j].Some? && f.bufs[i].value.region != -1 ==>
          f.bufs[i].value.region != f.bufs[j].value.region)
    && (forall i, j | 0 <= i < j < |f.pinnings| :: f.pinnings[i].region != -1 ==>
          f.pinnings[i].region != f.pinnings[j].region)
    && (forall i, j | 0 <= i < |f.bufs| && 0 <= j < |f.pinnings| :: f.bufs[i].Some? && f.pinnings[j].region != -1 ==>
          f.bufs[i].value.region != f.pinnings[j].region)
  }

  ghost predicate PinsDistinct(ps: seq<Pinning>) {
    forall i, j | 0 <= i < j < |ps| :: ps[i].va != ps[j].va || ps[i].size != ps[j].size
  }

  ghost predicate ClaimsUsed(s: State, h: Handle, f: File) {
    forall r | 0 <= r < |s.claims| && Owned(s.claims, r, h) :: r in UsedRegions(f)
  }

  ghost predicate BufsOk(s: State, h: Handle, f: File)
    requires |s.claims| == |s.apertures| == REGIONS
  {
    |f.bufs| == MAX_DMA_BUFS && forall i | 0 <= i < |f.bufs| :: f.bufs[i].Some? ==> BufOk(s, h, i, f.bufs[i].value)
  }

  ghost predicate PinsOk(s: State, h: Handle, f: File)
    requires |s.claims| == |s.apertures| == REGIONS
  {
    forall k | 0 <= k < |f.pinnings| :: PinOk(s, h, f, f.pinnings[k])
  }

  ghost predicate MapsOk(s: State, h: Handle, f: File) {
    forall k | 0 <= k < |f.mappings| :: MapOk(s, h, f, f.mappings[k])
  }

  ghost predicate FileOk(s: State, h: Handle, f: File)
    requires |s.claims| == |s.apertures| == REGIONS
  {
    && BufsOk(s, h, f) && PinsOk(s, h, f) && MapsOk(s, h, f)
    && PinsDistinct(f.pinnings) && RegionsDistinct(f) && ClaimsUsed(s, h, f)
    && f.openGen <= s.gen
    && (f.creator in s.dead ==> f.mappings == [] && f.pinnings == [])
  }

  // ------------------------------------------------------------ the whole device

  /** Only windows the device has are ever owned. */
  ghost predicate WindowsExist(c: Config, ow: Owners) {
    forall w | 0 <= w < |ow| :: ow[w].Some? ==> c.isBlackhole && Describe(c.tlb4gCount, w).Some?
  }

  ghost predicate TablesOk(s: State) {
    && WellFormed(s.claims) && |s.apertures| == REGIONS && |s.windows| == WINDOWS_TOTAL
    && s.windows[KERNEL_WINDOW].None? && WindowsExist(s.cfg, s.windows)
    && (!s.detached ==> Agree(s.claims, s.apertures))
  }

  ghost predicate OwnersOpen(s: State) {
    && (forall r | 0 <= r < |s.claims| :: s.claims[r].Some? ==> s.claims[r].value.owner in s.files)
    && (forall w | 0 <= w < |s.windows| :: s.windows[w].Some? ==> s.windows[w].value in s.files)
  }

  function SizeOf(x: Option<DmaBuf>): nat {
    if x.Some? then x.value.size else 0
  }

  ghost function SizeSum(bs: Slots): nat {
    if bs == [] then 0 else SizeSum(bs[..|bs| - 1]) + SizeOf(bs[|bs| - 1])
  }

  ghost function Sizes(files: map<Handle, File>): map<Handle, nat> {
    map h | h in files :: SizeSum(files[h].bufs)
  }

  ghost function Bytes(files: map<Handle, File>): nat {
    Total(Sizes(files))
  }

  /** The invariant. In particular every used slot and window has an open owner,
      every slot is used by exactly one object of its owner, and the byte count
      is that of the live buffers. */
  ghost predicate Inv(s: State) {
    && ConfigOk(s.cfg) && TablesOk(s) && OwnersOpen(s)
    && (forall h | h in s.files :: FileOk(s, h, s.files[h]))
    && s.bytes == Bytes(s.files)
    && (s.cfg.limit != 0 ==> s.bytes <= s.cfg.limit)
  }

  /** The device as TtEvtDevicePrepareHardware leaves it; re-initialisation is due
      from the start when firmware could not be initialised. */
  function Start(c: Config, needsHwInit: bool): State {
    State(c, seq(REGIONS, _ => None), seq(REGIONS, _ => None), seq(WINDOWS_TOTAL, _ => None),
          map[], 0, false, needsHwInit, 0, {})
  }

  // ---------------------------------------------------------------- byte counts

  lemma {:induction false} SizeSumUpdate(bs: Slots, i: nat, x: Option<DmaBuf>)
    requires i < |bs|
    ensures SizeSum(bs[i := x]) == SizeSum(bs) - SizeOf(bs[i]) + SizeOf(x)
    decreases |bs|
  {
    var n := |bs| - 1;
    if i == n {
      assert bs[i := x][..n] == bs[..n];
    } else {
      assert bs[i := x][..n] == bs[..n][i := x];
      SizeSumUpdate(bs[..n], i, x);
    }
  }

  lemma {:induction false} SizeSumEmpty(bs: Slots)
    requires forall i | 0 <= i < |bs| :: bs[i].None?
    ensures SizeSum(bs) == 0
    decreases |bs|
  {
    if bs != [] {
      SizeSumEmpty(bs[..|bs| - 1]);
    }
  }

  lemma BytesAdd(files: map<Handle, File>, h: Handle, f: File)
    requires h !in files
    ensures Bytes(files[h := f]) == Bytes(files) + SizeSum(f.bufs)
  {
    TotalInsert(Sizes(files), h, SizeSum(f.bufs));
    assert Sizes(files[h := f]) == Sizes(files)[h := SizeSum(f.bufs)];
  }

  lemma BytesRemove(files: map<Handle, File>, h: Handle)
    requires h in files
    ensures Bytes(files - {h}) == Bytes(files) - SizeSum(files[h].bufs)
  {
    TotalRemove(Sizes(files), h);
    assert Sizes(files - {h}) == Sizes(files) - {h};
  }

  lemma BytesUpdate(files: map<Handle, File>, h: Handle, f: File)
    requires h in files
    ensures Bytes(files[h := f]) == Bytes(files) - SizeSum(files[h].bufs) + SizeSum(f.bufs)
  {
    BytesRemove(files, h);
    BytesAdd(files - {h}, h, f);
    assert (files - {h})[h := f] == files[h := f];
  }

  lemma StartInv(c: Config, needsHwInit: bool)
    requires ConfigOk(c)
    ensures Inv(Start(c, needsHwInit))
  {
    assert Sizes(map[]) == map[];
  }

  lemma BytesSame(files: map<Handle, File>, files': map<Handle, File>)
    requires files.Keys == files'.Keys && forall h | h in files :: files'[h].bufs == files[h].bufs
    ensures Bytes(files') == Bytes(files)
  {
    assert Sizes(files) == Sizes(files');
  }

  // -------------------------------------------------------------------- frames

  /** Nothing that handle g's objects rely on differs. */
  ghost predicate SameFor(s: State, s': State, g: Handle) {
    && |s.claims| == |s'.claims| == |s.apertures| == |s'.apertures| == REGIONS && |s.windows| == |s'.windows|
    && (forall r | 0 <= r < REGIONS :: Owned(s.claims, r, g) || Owned(s'.claims, r, g) ==>
          s'.claims[r] == s.claims[r] && s'.apertures[r] == s.apertures[r])
    && (forall w | 0 <= w < |s.windows| :: s.windows[w] == Some(g) ==> s'.windows[w] == Some(g))
    && s'.gen == s.gen && s'.detached == s.detached && s'.dead == s.dead
  }

  lemma Kept(s: State, s': State, g: Handle, f: File)
    requires SameFor(s, s', g) && FileOk(s, g, f)
    ensures FileOk(s', g, f)
  {
    forall i | 0 <= i < |f.bufs| && f.bufs[i].Some?
      ensures BufOk(s', g, i, f.bufs[i].value)
    {
      var b := f.bufs[i].value;
      assert BufOk(s, g, i, b);
      assert b.region != -1 ==> Owned(s.claims, b.region, g);
    }
    forall k | 0 <= k < |f.pinnings|
      ensures PinOk(s', g, f, f.pinnings[k])
    {
      var p := f.pinnings[k];
      assert PinOk(s, g, f, p);
      assert p.region != -1 ==> Owned(s.claims, p.region, g);
    }
    forall k | 0 <= k < |f.mappings|
      ensures MapOk(s', g, f, f.mappings[k])
    {
      assert MapOk(s, g, f, f.mappings[k]);
    }
  }

  ghost predicate MineOrFree(c: Option<Claim>, h: Handle) {
    c.Some? ==> c.value.owner == h
  }

  ghost predicate MyWindowOrFree(o: Option<Handle>, h: Handle) {
    o.Some? ==> o.value == h
  }

  /** The tables differ only where they are free or h's, before and after. */
  ghost predicate OnlyFor(s: State, s': State, h: Handle) {
    && |s.claims| == |s'.claims| == |s.apertures| == |s'.apertures| == REGIONS && |s.windows| == |s'.windows|
    && (forall r | 0 <= r < REGIONS ::
          || (s'.claims[r] == s.claims[r] && s'.apertures[r] == s.apertures[r])
          || (MineOrFree(s.claims[r], h) && MineOrFree(s'.claims[r], h)))
    && (forall w | 0 <= w < |s.windows| ::
          || s'.windows[w] == s.windows[w]
          || (MyWindowOrFree(s.windows[w], h) && MyWindowOrFree(s'.windows[w], h)))
    && s'.gen == s.gen && s'.detached == s.detached && s'.dead == s.dead
  }

  /** A step of one handle, in all but its own file. */
  lemma UpdateKeepsInv(s: State, s': State, h: Handle, f: File)
    requires Inv(s) && h in s.files && s'.files == s.files[h := f] && s'.cfg == s.cfg
    requires OnlyFor(s, s', h) && TablesOk(s') && FileOk(s', h, f)
    requires s'.bytes == s.bytes - SizeSum(s.files[h].bufs) + SizeSum(f.bufs)
    requires s.cfg.limit != 0 ==> s'.bytes <= s.cfg.limit
    ensures Inv(s')
  {
    BytesUpdate(s.files, h, f);
    forall g | g in s'.files
      ensures FileOk(s', g, s'.files[g])
    {
      if g != h {
        assert SameFor(s, s', g);
        Kept(s, s', g, s.files[g]);
      }
    }
    forall r | 0 <= r < REGIONS && s'.claims[r].Some?
      ensures s'.claims[r].value.owner in s'.files
    {
      assert s'.claims[r] == s.claims[r] || s'.claims[r].value.owner == h;
    }
    forall w | 0 <= w < |s'.windows| && s'.windows[w].Some?
      ensures s'.windows[w].value in s'.files
    {
      assert s'.windows[w] == s.windows[w] || s'.windows[w].value == h;
    }
  }

  // --------------------------------------------------------- what the Inv means

  /** Address translation: every byte of a live buffer's NOC range is sent to the
      same byte of the buffer, and nowhere else. */
  lemma BufferTranslates(s: State, h: Handle, i: nat, k: nat)
    requires Inv(s) && !s.detached && h in s.files && i < MAX_DMA_BUFS && s.files[h].bufs[i].Some?
    requires s.files[h].bufs[i].value.region != -1 && k < s.files[h].bufs[i].value.size
    ensures var b := s.files[h].bufs[i].value;
      b.noc >= NOC_PCIE_OFFSET && Targets(s.apertures, b.noc - NOC_PCIE_OFFSET + k) == {b.logical + k}
  {
    var b := s.files[h].bufs[i].value;
    assert BufOk(s, h, i, b);
    OneTarget(s.claims, s.apertures, b.region, b.noc - NOC_PCIE_OFFSET + k);
  }

  /** The same for a pinned range; when a buffer backs it, the target lies inside
      that buffer, which is live. */
  lemma PinningTranslates(s: State, h: Handle, j: nat, k: nat)
    requires Inv(s) && !s.detached && h in s.files && j < |s.files[h].pinnings|
    requires s.files[h].pinnings[j].region != -1 && k < s.files[h].pinnings[j].size
    ensures var p := s.files[h].pinnings[j];
      && p.noc >= NOC_PCIE_OFFSET && Targets(s.apertures, p.noc - NOC_PCIE_OFFSET + k) == {p.physical + k}
      && (p.backing.Some? ==>
            && Live(s.files[h], p.backing.value)
            && p.backing.value.logical <= p.physical + k < p.backing.value.logical + p.backing.value.size)
  {
    var p := s.files[h].pinnings[j];
    assert PinOk(s, h, s.files[h], p);
    OneTarget(s.claims, s.apertures, p.region, p.noc - NOC_PCIE_OFFSET + k);
  }

  /** Who uses a region: a buffer slot or a pinning of some handle. */
  datatype User = BufUser(h: Handle, index: nat) | PinUser(h: Handle, position: nat)

  ghost predicate Uses(s: State, u: User, r: int) {
    match u
    case BufUser(h, i) =>
      h in s.files && i < |s.files[h].bufs| && s.files[h].bufs[i].Some? && s.files[h].bufs[i].value.region == r
    case PinUser(h, k) =>
      h in s.files && k < |s.files[h].pinnings| && s.files[h].pinnings[k].region == r
  }

  lemma ClaimHasUser(s: State, r: nat) returns (u: User)
    requires Inv(s) && r < REGIONS && s.claims[r].Some?
    ensures Uses(s, u, r)
  {
    var h := s.claims[r].value.owner;
    var f := s.files[h];
    assert FileOk(s, h, f) && Owned(s.claims, r, h);
    if i :| 0 <= i < |f.bufs| && f.bufs[i].Some? && f.bufs[i].value.region == r {
      u := BufUser(h, i);
    } else {
      var k :| 0 <= k < |f.pinnings| && f.pinnings[k].region == r;
      u := PinUser(h, k);
    }
  }

  lemma UserOwnsSlot(s: State, u: User, r: nat)
    requires Inv(s) && r < REGIONS && Uses(s, u, r)
    ensures s.claims[r].Some? && s.claims[r].value.owner == u.h
  {
    var f := s.files[u.h];
    assert FileOk(s, u.h, f);
    match u
    case BufUser(h, i) => assert BufOk(s, h, i, f.bufs[i].value);
    case PinUser(h, k) => assert PinOk(s, h, f, f.pinnings[k]);
  }

  lemma UserIsUnique(s: State, u: User, v: User, r: nat)
    requires u.h == v.h && u.h in s.files && RegionsDistinct(s.files[u.h]) && Uses(s, u, r) && Uses(s, v, r)
    ensures u == v
  {
  }

  /** Slot conservation: a slot is claimed if and only if some object uses it;
      that object is unique and belongs to the recorded owner. */
  lemma SlotsConserved(s: State, r: nat)
    requires Inv(s) && r < REGIONS
    ensures s.claims[r].Some? <==> exists u :: Uses(s, u, r)
    ensures forall u | Uses(s, u, r) :: s.claims[r].Some? && s.claims[r].value.owner == u.h
    ensures forall u, v | Uses(s, u, r) && Uses(s, v, r) :: u == v
  {
    if s.claims[r].Some? {
      var u := ClaimHasUser(s, r);
    }
    forall u | Uses(s, u, r)
      ensures s.claims[r].Some? && s.claims[r].value.owner == u.h
    {
      UserOwnsSlot(s, u, r);
    }
    forall u, v | Uses(s, u, r) && Uses(s, v, r)
      ensures u == v
    {
      assert FileOk(s, u.h, s.files[u.h]);
      UserIsUnique(s, u, v, r);
    }
  }
}
