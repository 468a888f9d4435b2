/** What each memory request tells and gives its caller, said without the handlers'
    own helpers: when it succeeds, what the reply means, what a view shows, where
    a byte of a pinned range lies, and that a refusal changes nothing. */
module RequestResults {
  import opened Common
  import opened Iatu
  import opened WindowGeometry
  import opened TlbPoolSpec
  import opened TlbTokens
  import opened MemoryState
  import opened MemoryOps
  import opened MappingOps
  import opened LifecycleOps

  /** The handle was opened, or made current by its own reset, in this generation of
      an attached device. */
  ghost predicate UpToDate(s: State, h: Handle) {
    h in s.files && !s.detached && s.files[h].openGen == s.gen
  }

  /** Nothing keeps it from the requests that wait for re-initialisation. */
  ghost predicate InService(s: State, h: Handle) {
    UpToDate(s, h) && !s.needsHwInit
  }

  // ----------------------------------------------------------------------- gates

  /** What a request refused at the gate is told: that the device is gone, except that
      telemetry is not ready while re-initialisation is due. */
  lemma GateTells(s: State, h: Handle, nr: nat)
    requires h in s.files
    ensures Gate(s, h, nr) ==
      if !UpToDate(s, h) then DeviceRemoved
      else if s.needsHwInit && nr == 0x102 then DeviceNotReady
      else if s.needsHwInit && nr !in {0, 5, 6, 0xFFFF_FFFF} then DeviceRemoved
      else Success
  {
  }

  /** A process other than the handle's creator maps, unmaps, pins and unpins nothing,
      whatever it asks for. */
  lemma ForeignProcessRefused(s: State, h: Handle, caller: Process, va: nat, size: nat, reserved: nat,
                              token: nat, length: nat, env: MapEnv)
    requires h in s.files && UpToDate(s, h) && !s.needsHwInit && caller != s.files[h].creator
    requires ConfigOk(s.cfg) && |s.windows| == WINDOWS_TOTAL && |s.files[h].bufs| == MAX_DMA_BUFS
    ensures Map(s, h, caller, token, length, env) == (s, AccessDenied)
    ensures Unmap(s, h, caller, va, reserved) == (s, AccessDenied)
    ensures Unpin(s, h, caller, va, size, reserved) == (s, AccessDenied)
  {
  }

  lemma ForeignPinRefused(s: State, h: Handle, caller: Process, q: PinRequest, env: PinEnv, s': State, status: Status, p: Pinning)
    requires h in s.files && caller != s.files[h].creator && PinEnvOk(q, env) && Pins(s, h, caller, q, env, s', status, p)
    ensures s' == s && status != Success && (InService(s, h) ==> status == AccessDenied)
  {
  }

  // ---------------------------------------------------------------- ALLOCATE_TLB

  /** A window of the requested size that the device has and nobody owns. */
  ghost predicate FreeWindowOfSize(s: State, w: nat, size: nat)
    requires |s.windows| == WINDOWS_TOTAL
  {
    && w < WINDOWS_TOTAL && w != 201 && s.windows[w].None?
    && Describe(s.cfg.tlb4gCount, w).Some? && Describe(s.cfg.tlb4gCount, w).value.size == size
  }

  /** ALLOCATE_TLB succeeds exactly for an in-service handle of a Blackhole that has a
      free window of exactly that size; it gives the lowest, and otherwise changes
      nothing. */
  lemma AllocateTlbSucceedsIff(s: State, h: Handle, size: nat, outputOk: bool, s': State, reply: TlbReply)
    requires Inv(s) && h in s.files && AllocatesTlb(s, h, size, outputOk, s', reply)
    ensures reply.status == Success <==>
      InService(s, h) && s.cfg.isBlackhole && outputOk && exists w :: FreeWindowOfSize(s, w, size)
    ensures if reply.status == Success
      then && FreeWindowOfSize(s, reply.id, size) && s' == s.(windows := s.windows[reply.id := Some(h)])
           && forall w | FreeWindowOfSize(s, w, size) :: reply.id <= w
      else s' == s
  {
    if w :| FreeWindowOfSize(s, w, size) {
      assert IsFree(s.windows, w);
    }
    if reply.status == Success {
      assert FreeWindowOfSize(s, reply.id, size);
      forall w | FreeWindowOfSize(s, w, size)
        ensures reply.id <= w
      {
        assert IsFree(s.windows, w);
      }
    }
  }

  /** The two tokens of the reply: for every length up to the window they decode to
      the window, the first for uncached and the second for write-combined access, and
      MAP resolves them to the window's own bytes with that access. */
  lemma TlbReplyMeans(s: State, h: Handle, size: nat, s': State, reply: TlbReply, length: nat)
    requires Inv(s) && h in s.files && |s.files[h].bufs| == MAX_DMA_BUFS
    requires AllocatesTlb(s, h, size, true, s', reply) && reply.status == Success && length <= size
    ensures Describe(s.cfg.tlb4gCount, reply.id).Some? && |s'.windows| == WINDOWS_TOTAL
    ensures var w := Describe(s.cfg.tlb4gCount, reply.id).value; var start := s.cfg.barBase[w.bar] + w.offset;
      && w.size == size
      && Decode(reply.uc, length) == TlbWindow(reply.id, w.bar, w.offset, false)
      && Decode(reply.wc, length) == TlbWindow(reply.id, w.bar, w.offset, true)
      && Resolve(s', h, reply.uc, length) == Resolved(start, NonCached, reply.id, None)
      && Resolve(s', h, reply.wc, length) == Resolved(start, WriteCombined, reply.id, None)
  {
    AllocateTlbKeepsInv(s, h, size, true, s', reply);
    WindowTokenMeans(s', h, reply.id, false, length);
    WindowTokenMeans(s', h, reply.id, true, length);
  }

  lemma WindowTokenMeans(s: State, h: Handle, w: nat, wc: bool, length: nat)
    requires Inv(s) && h in s.files && |s.files[h].bufs| == MAX_DMA_BUFS && |s.windows| == WINDOWS_TOTAL
    requires Describe(s.cfg.tlb4gCount, w).Some? && length <= Describe(s.cfg.tlb4gCount, w).value.size
    requires s.windows[w] == Some(h)
    ensures var d := Describe(s.cfg.tlb4gCount, w).value; var cache := if wc then WriteCombined else NonCached;
      && Decode(WindowToken(d, wc), length) == TlbWindow(w, d.bar, d.offset, wc)
      && Resolve(s, h, WindowToken(d, wc), length) == Resolved(s.cfg.barBase[d.bar] + d.offset, cache, w, None)
  {
    WindowRoundTrip(s.cfg.tlb4gCount, w, wc, length);
    WindowTokenResolvesIff(s, h, w, wc, length);
  }

  /** FREE_TLB succeeds exactly for an in-service handle that owns the window and has
      no view of it. */
  lemma FreeTlbSucceedsIff(s: State, h: Handle, id: nat)
    requires h in s.files && |s.windows| == WINDOWS_TOTAL
    ensures var (s', status) := FreeTlb(s, h, id);
      && (status == Success <==>
            && InService(s, h) && id < WINDOWS_TOTAL && s.windows[id] == Some(h)
            && forall k | 0 <= k < |s.files[h].mappings| :: s.files[h].mappings[k].tlbId != id)
      && s' == if status == Success then s.(windows := s.windows[id := None]) else s
  {
  }

  /** What a refused window request is told. */
  lemma TlbRequestTells(s: State, h: Handle, size: nat, outputOk: bool, s': State, reply: TlbReply, id: nat)
    requires Inv(s) && InService(s, h)
    ensures AllocatesTlb(s, h, size, outputOk, s', reply) ==>
      && (reply.status == InvalidParameter <==> !s.cfg.isBlackhole || size !in {0x20_0000, 0x1_0000_0000})
      && (reply.status == NoResources <==>
            s.cfg.isBlackhole && size in {0x20_0000, 0x1_0000_0000} && forall w :: !FreeWindowOfSize(s, w, size))
      && reply.status in {Success, InvalidParameter, NoResources, AccessViolation}
    ensures var status := FreeTlb(s, h, id).1;
      && (status == InvalidParameter <==> id >= 256)
      && (status == AccessDenied <==> id < 256 && !(id < WINDOWS_TOTAL && s.windows[id] == Some(h)))
      && status in {Success, InvalidParameter, AccessDenied, DeviceBusy}
  {
    if AllocatesTlb(s, h, size, outputOk, s', reply) {
      if w :| FreeWindowOfSize(s, w, size) {
        assert IsFree(s.windows, w);
      }
      if reply.status == AccessViolation {
        var (lo, hi) := PoolOf(s.cfg, size).value;
        var w :| lo <= w < hi && IsFree(s.windows, w);
        assert FreeWindowOfSize(s, w, size);
      } else if reply.status == Success {
        assert FreeWindowOfSize(s, reply.id, size);
      }
    }
  }

  // ------------------------------------------------------------ ALLOCATE_DMA_BUF

  /** [base, base + size) lies in the first 2^58 bytes and meets no claimed region. */
  ghost predicate Room(cs: Claims, size: nat, base: nat) {
    && base + size <= 0x400_0000_0000_0000
    && forall r | 0 <= r < |cs| && cs[r].Some? :: base + size <= cs[r].value.base || cs[r].value.limit < base
  }

  lemma RoomIff(cs: Claims, size: nat, base: nat)
    requires size > 0
    ensures Room(cs, size, base) <==> Fits(cs, size, base)
  {
  }

  /** A region can be had: a slot is free and the range fits somewhere. */
  ghost predicate RegionAvailable(cs: Claims, size: nat) {
    (exists r :: 0 <= r < |cs| && cs[r].None?) && exists base :: Room(cs, size, base)
  }

  lemma RegionAvailableIff(cs: Claims, size: nat)
    requires 0 < size <= 0x100_0000_0000
    ensures RegionAvailable(cs, size) <==> CanSetUp(cs, size)
  {
    if base :| Room(cs, size, base) {
      RoomIff(cs, size, base);
    }
    if b: nat :| Fits(cs, size, b) {
      RoomIff(cs, size, b);
    }
  }

  /** The NOC address is the highest, or the lowest, at which the range fits. */
  ghost predicate Placed(cs: Claims, topDown: bool, size: nat, noc: nat) {
    && noc >= 0x1000_0000_0000_0000 && Room(cs, size, noc - 0x1000_0000_0000_0000)
    && forall base: nat | Room(cs, size, base) ::
         if topDown then base <= noc - 0x1000_0000_0000_0000 else noc - 0x1000_0000_0000_0000 <= base
  }

  lemma SetUpPlaces(cs: Claims, cs': Claims, aps: Apertures, aps': Apertures,
                    h: Handle, topDown: bool, size: nat, target: nat, noc: nat, region: int)
    requires size > 0 && SetUp(cs, cs', aps, aps', h, topDown, size, target, noc, region)
    ensures Placed(cs, topDown, size, noc)
  {
    RoomIff(cs, size, noc - NOC_PCIE_OFFSET);
    forall base: nat | Room(cs, size, base)
      ensures if topDown then base <= noc - NOC_PCIE_OFFSET else noc - NOC_PCIE_OFFSET <= base
    {
      RoomIff(cs, size, base);
    }
  }

  /** ALLOCATE_DMA_BUF succeeds exactly when the arguments are legal, the slot is
      empty, the bytes fit under the limit, the memory is within the device's reach,
      a region can be had if one is asked for, and no kernel call fails. Then the
      buffer of that size is in its slot, with the highest NOC address that fits if
      one was asked for; otherwise nothing changes. */
  lemma AllocateBufSucceedsIff(s: State, h: Handle, q: BufRequest, env: BufEnv, s': State, status: Status, b: DmaBuf)
    requires Inv(s) && h in s.files && |s.files[h].bufs| == MAX_DMA_BUFS && AllocatesBuf(s, h, q, env, s', status, b)
    ensures status == Success <==>
      && InService(s, h) && s.cfg.dmaCapable
      && q.index < 256 && 0 < q.size <= 0x1000_0000 && q.size % 4096 == 0 && s.files[h].bufs[q.index].None?
      && (s.cfg.limit == 0 || s.bytes + q.size <= s.cfg.limit)
      && env.bufferOk && env.logical + q.size <= 0x400_0000_0000_0000
      && (q.nocDma ==> RegionAvailable(s.claims, q.size)) && env.poolOk && env.outputOk
    ensures if status == Success
      then && h in s'.files && |s'.files[h].bufs| == 256 && s'.files[h].bufs[q.index] == Some(b)
           && b.index == q.index && b.size == q.size && b.logical == env.logical && b.cpu == env.cpu && b.ptr == env.ptr
           && s'.bytes == s.bytes + q.size
           && (if q.nocDma then Placed(s.claims, true, q.size, b.noc) else b.noc == 0)
      else s' == s
  {
    if 0 < q.size <= MAX_DMA_BUF_SIZE {
      RegionAvailableIff(s.claims, q.size);
    }
    if status == Success && q.nocDma {
      SetUpPlaces(s.claims, s'.claims, s.apertures, s'.apertures, h, true, q.size, env.logical, b.noc, b.region);
    }
  }

  /** What a refused ALLOCATE_DMA_BUF of an in-service handle is told: bad arguments
      before the ceiling, the ceiling before everything that can fail. */
  lemma AllocateBufTells(s: State, h: Handle, q: BufRequest, env: BufEnv, s': State, status: Status, b: DmaBuf)
    requires InService(s, h) && |s.files[h].bufs| == MAX_DMA_BUFS && AllocatesBuf(s, h, q, env, s', status, b)
    ensures var legal := s.cfg.dmaCapable && q.index < 256 && 0 < q.size <= 0x1000_0000 && q.size % 4096 == 0 &&
                         s.files[h].bufs[q.index].None?;
      && (status == InvalidParameter <==> !legal)
      && (status == QuotaExceeded <==> legal && s.cfg.limit != 0 && s.bytes + q.size > s.cfg.limit)
      && status in {Success, InvalidParameter, QuotaExceeded, NoResources, AccessViolation}
      && (status == AccessViolation ==> !env.outputOk)
  {
  }

  /** FREE_DMA_BUF_EX succeeds exactly for an in-service handle, on a used slot whose
      buffer no view shows and no pinning is backed by. */
  lemma FreeBufSucceedsIff(s: State, h: Handle, index: nat, reserved: nat)
    requires h in s.files && FileOkSlots(s.files[h])
    ensures var (s', status) := FreeDmaBufEx(s, h, index, reserved); var f := s.files[h];
      && (status == Success <==>
            && InService(s, h) && reserved == 0 && index < 256 && f.bufs[index].Some?
            && (forall k | 0 <= k < |f.mappings| :: f.mappings[k].dmaBuf != f.bufs[index])
            && (forall k | 0 <= k < |f.pinnings| :: f.pinnings[k].backing != f.bufs[index]))
      && (status == Success ==>
            && h in s'.files && s'.files[h] == f.(bufs := f.bufs[index := None])
            && s'.bytes == s.bytes - f.bufs[index].value.size)
      && (status != Success ==> s' == s)
  {
  }

  // ------------------------------------------------------------------------- MAP

  /** A buffer token shows its slot's buffer from the start, cached. */
  lemma BufferTokenShows(s: State, h: Handle, i: nat, length: nat)
    requires ConfigOk(s.cfg) && |s.windows| == WINDOWS_TOTAL && h in s.files && |s.files[h].bufs| == MAX_DMA_BUFS
    requires i < 256
    ensures Resolve(s, h, 0xF0_0000_0000 + i * 0x1_0000_0000, length) ==
      if s.files[h].bufs[i].Some? && length <= s.files[h].bufs[i].value.size
      then Resolved(s.files[h].bufs[i].value.cpu, Cached, -1, s.files[h].bufs[i])
      else Refused(InvalidParameter)
  {
    SlotRoundTrip(i, length);
  }

  /** Regions 0 and 1 show BAR0, 2 and 3 BAR2, 4 and 5 BAR4, the odd ones
      write-combined, from the BAR's base plus the offset, and only inside the BAR. */
  lemma BarTokenShows(s: State, h: Handle, region: nat, offset: nat, length: nat)
    requires ConfigOk(s.cfg) && |s.windows| == WINDOWS_TOTAL && h in s.files && |s.files[h].bufs| == MAX_DMA_BUFS
    requires region < 6 && offset < 0x10_0000_0000 && length > 0
    ensures var bar := 2 * (region / 2);
      Resolve(s, h, region * 0x10_0000_0000 + offset, length) ==
        if offset + length <= s.cfg.barLength[bar]
        then Resolved(s.cfg.barBase[bar] + offset, if region % 2 == 1 then WriteCombined else NonCached, -1, None)
        else Refused(InvalidParameter)
  {
    var token := region * 0x10_0000_0000 + offset;
    assert token / RESOURCE_SIZE == region && token % RESOURCE_SIZE == offset;
  }

  /** Every token that resolves is one of these: a buffer's, a BAR region's, or one of
      the two window ranges'. */
  lemma OtherTokensRefused(s: State, h: Handle, token: nat, length: nat)
    requires ConfigOk(s.cfg) && |s.windows| == WINDOWS_TOTAL && h in s.files && |s.files[h].bufs| == MAX_DMA_BUFS
    requires Resolve(s, h, token, length).Resolved?
    ensures
      || (exists i: nat :: i < 256 && token == 0xF0_0000_0000 + i * 0x1_0000_0000)
      || token < 6 * 0x10_0000_0000
      || 0x60_0000_0000 <= token < 0x80_0000_0000
  {
    if token >= DMA_BUFS {
      var i := (token - DMA_BUFS) / DMA_STRIDE;
      assert token == 0xF0_0000_0000 + i * 0x1_0000_0000;
    }
  }

  /** MAP succeeds exactly for the creator through an up-to-date handle, with whole
      pages that a token of its own resolves to, when no kernel call fails. The new
      view, last in the list, shows what the token resolves to; a refusal changes
      nothing. Pending re-initialisation does not matter. */
  lemma MapSucceedsIff(s: State, h: Handle, caller: Process, token: nat, length: nat, env: MapEnv)
    requires ConfigOk(s.cfg) && |s.windows| == WINDOWS_TOTAL && h in s.files && |s.files[h].bufs| == MAX_DMA_BUFS
    ensures var (s', status) := Map(s, h, caller, token, length, env); var r := Resolve(s, h, token, length); var f := s.files[h];
      && (status == Success <==>
            && UpToDate(s, h) && caller == f.creator
            && 0 < length < 0x1_0000_0000 && length % 4096 == 0 && token % 4096 == 0 && r.Resolved?
            && env.poolOk && env.mdlOk && env.va.Some? && env.outputOk)
      && (status == Success ==>
            s' == s.(files := s.files[h := f.(mappings := f.mappings +
              [Mapping(env.va.value, length, r.physical, r.cache, r.tlbId, r.dmaBuf.Some?, r.dmaBuf, caller)])]))
      && (status != Success ==> s' == s)
  {
    match Decode(token, length)
    case _ =>
  }

  /** UNMAP succeeds exactly for the creator with an address at which a view starts,
      and takes the oldest such view; a refusal changes nothing. */
  lemma UnmapSucceedsIff(s: State, h: Handle, caller: Process, va: nat, reserved: nat)
    requires h in s.files
    ensures var (s', status) := Unmap(s, h, caller, va, reserved); var f := s.files[h];
      && (status == Success <==>
            UpToDate(s, h) && caller == f.creator && reserved == 0 && exists k :: 0 <= k < |f.mappings| && f.mappings[k].va == va)
      && (status == Success ==> exists k | 0 <= k < |f.mappings| ::
            && f.mappings[k].va == va && (forall j | 0 <= j < k :: f.mappings[j].va != va)
            && s' == s.(files := s.files[h := f.(mappings := f.mappings[..k] + f.mappings[k + 1..])]))
      && (status != Success ==> s' == s)
  {
    var ms := s.files[h].mappings;
    var k := FirstAt(MappingVas(ms), va);
    assert k < |ms| ==> ms[k].va == va && RemoveAt(ms, k) == ms[..k] + ms[k + 1..];
  }

  /** What the creator is told by a refused MAP, UNMAP or FREE_DMA_BUF_EX. */
  lemma ViewRequestTells(s: State, h: Handle, token: nat, length: nat, env: MapEnv, va: nat, reserved: nat, index: nat)
    requires ConfigOk(s.cfg) && |s.windows| == WINDOWS_TOTAL && InService(s, h) && FileOkSlots(s.files[h])
    ensures var status := Map(s, h, s.files[h].creator, token, length, env).1; var r := Resolve(s, h, token, length);
      var legal := 0 < length < 0x1_0000_0000 && length % 4096 == 0 && token % 4096 == 0;
      && (!legal ==> status == InvalidParameter) && (legal && r.Refused? ==> status == r.status)
      && (legal && r.Resolved? ==> status in {Success, NoResources, AccessViolation})
    ensures Unmap(s, h, s.files[h].creator, va, reserved).1 in {Success, InvalidParameter}
    ensures var status := FreeDmaBufEx(s, h, index, reserved).1;
      && (status == InvalidParameter <==> reserved != 0 || index >= 256 || s.files[h].bufs[index].None?)
      && status in {Success, InvalidParameter, DeviceBusy}
  {
  }

  // ------------------------------------------------------------------- PIN_PAGES

  /** Mapping m is a view of a buffer and contains the whole range. */
  ghost predicate Contains(m: Mapping, va: nat, size: nat) {
    m.isDmaBuf && m.dmaBuf.Some? && m.va <= va && va + size <= m.va + m.length
  }

  /** The oldest view that contains the range, if any does. */
  ghost predicate IsOldestView(ms: seq<Mapping>, va: nat, size: nat, x: nat) {
    x < |ms| && Contains(ms[x], va, size) && forall j | 0 <= j < x :: !Contains(ms[j], va, size)
  }

  /** The device's address of byte k of the range: as far into the buffer as the byte
      is into the oldest view that contains the range, or in the k/4096-th of the
      locked page frames. */
  ghost predicate ByteAt(f: File, q: PinRequest, env: PinEnv, k: nat, address: nat) {
    && (forall x: nat | IsOldestView(f.mappings, q.va, q.size, x) ::
          address == f.mappings[x].dmaBuf.value.logical + (q.va + k - f.mappings[x].va))
    && ((forall x: nat :: !IsOldestView(f.mappings, q.va, q.size, x)) ==>
          k / 4096 < |env.pfns| && address == env.pfns[k / 4096] * 4096 + k % 4096)
  }

  /** A successful PIN_PAGES reports the range: every byte of it is at the reported
      address plus its offset. */
  lemma PinReportsRange(s: State, h: Handle, caller: Process, q: PinRequest, env: PinEnv, s': State, p: Pinning, k: nat)
    requires h in s.files && PinEnvOk(q, env) && Pins(s, h, caller, q, env, s', Success, p) && k < q.size
    ensures ByteAt(s.files[h], q, env, k, p.physical + k)
    ensures p.va == q.va && p.size == q.size
  {
    var ms := s.files[h].mappings;
    var x := FindViewFindsFirst(ms, q.va, q.size);
    if x < |ms| {
      assert IsOldestView(ms, q.va, q.size, x);
      forall y: nat | IsOldestView(ms, q.va, q.size, y)
        ensures y == x
      {
      }
    } else {
      DirectPinIsLinear(s, h, caller, q, env, s', Success, p, k);
    }
  }

  /** A pinning backed by a buffer is linear in it. */
  lemma BackedPinIsLinear(s: State, h: Handle, caller: Process, q: PinRequest, env: PinEnv, s': State, p: Pinning, k: nat)
    returns (x: nat)
    requires h in s.files && PinEnvOk(q, env) && Pins(s, h, caller, q, env, s', Success, p) && p.backing.Some? && k < q.size
    ensures IsOldestView(s.files[h].mappings, q.va, q.size, x)
    ensures var m, b := s.files[h].mappings[x], p.backing.value;
      m.dmaBuf == Some(b) && p.physical + k == b.logical + (q.va + k - m.va)
  {
    x := FindViewFindsFirst(s.files[h].mappings, q.va, q.size);
  }

  /** PIN_PAGES succeeds exactly for the creator through an in-service handle, with
      whole pages not pinned yet as that range, that a view contains or else that lock
      as consecutive frames in an identity domain, when a region can be had if one is
      asked for and no kernel call fails. The pinning, last in the list, is backed
      exactly by the view's buffer; with either NOC flag it has an address at the end
      of the NOC space that the top-down flag asks for. A refusal changes nothing. */
  lemma PinSucceedsIff(s: State, h: Handle, caller: Process, q: PinRequest, env: PinEnv, s': State, status: Status, p: Pinning)
    requires h in s.files && WellFormed(s.claims) && PinEnvOk(q, env) && Pins(s, h, caller, q, env, s', status, p)
    ensures status == Success <==> PinWanted(s, h, caller, q) && PinPossible(s, s.files[h], q, env) && env.outputOk
    ensures if status == Success
      then && h in s'.files && s'.files[h] == s.files[h].(pinnings := s.files[h].pinnings + [p])
           && (p.backing.Some? <==> exists x :: IsOldestView(s.files[h].mappings, q.va, q.size, x))
           && (if q.flags.nocDma || q.flags.topDown then Placed(s.claims, q.flags.topDown, q.size, p.noc) && p.region != -1
               else p.noc == 0 && p.region == -1)
      else s' == s
  {
    OldestViewFound(s.files[h].mappings, q.va, q.size);
    if 0 < q.size <= MAXULONG {
      RegionAvailableIff(s.claims, q.size);
    }
    if status == Success && (q.flags.nocDma || q.flags.topDown) {
      SetUpPlaces(s.claims, s'.claims, s.apertures, s'.apertures, h, q.flags.topDown, q.size, p.physical, p.noc, p.region);
    }
  }

  /** The caller may ask, and asks for something legal and new. */
  ghost predicate PinWanted(s: State, h: Handle, caller: Process, q: PinRequest) {
    && InService(s, h) && caller == s.files[h].creator
    && !q.flags.unknown && !q.flags.readOnly
    && q.va % 4096 == 0 && q.size % 4096 == 0 && 0 < q.size < 0x1_0000_0000
    && forall j | 0 <= j < |s.files[h].pinnings| :: s.files[h].pinnings[j].va != q.va || s.files[h].pinnings[j].size != q.size
  }

  ghost predicate PinPossible(s: State, f: File, q: PinRequest, env: PinEnv) {
    && env.poolOk
    && ((exists x :: IsOldestView(f.mappings, q.va, q.size, x)) ||
        (s.cfg.identityDomain && env.mdlOk && env.lockOk && forall j | 0 < j < |env.pfns| :: env.pfns[j] == env.pfns[j - 1] + 1))
    && (q.flags.nocDma || q.flags.topDown ==> RegionAvailable(s.claims, q.size))
  }

  /** What the creator is told by a refused PIN_PAGES: bad arguments, read-only, a range
      pinned already, no view and no identity domain, each before the next. */
  lemma PinTells(s: State, h: Handle, q: PinRequest, env: PinEnv, s': State, status: Status, p: Pinning)
    requires InService(s, h) && PinEnvOk(q, env) && Pins(s, h, s.files[h].creator, q, env, s', status, p)
    ensures var legal := !q.flags.unknown && q.va % 4096 == 0 && q.size % 4096 == 0 && 0 < q.size < 0x1_0000_0000;
      var pinned := exists j | 0 <= j < |s.files[h].pinnings| :: s.files[h].pinnings[j].va == q.va && s.files[h].pinnings[j].size == q.size;
      var viewed := exists x :: IsOldestView(s.files[h].mappings, q.va, q.size, x);
      && (!legal ==> status == InvalidParameter)
      && (status == NameCollision <==> legal && !q.flags.readOnly && pinned)
      && (status == NotSupported <==> legal && (q.flags.readOnly || (!pinned && !viewed && !s.cfg.identityDomain)))
  {
    OldestViewFound(s.files[h].mappings, q.va, q.size);
  }

  /** UNPIN_PAGES succeeds exactly for the creator, at an address whose oldest pinning
      has the size; it takes that pinning, and a refusal changes nothing. */
  lemma UnpinTakesOldest(s: State, h: Handle, caller: Process, va: nat, size: nat, reserved: nat)
    requires h in s.files
    ensures var (s', status) := Unpin(s, h, caller, va, size, reserved); var f := s.files[h];
      && (status == Success <==>
            && InService(s, h) && caller == f.creator && reserved == 0 && size >= 4096
            && exists k | 0 <= k < |f.pinnings| ::
                 f.pinnings[k].va == va && f.pinnings[k].size == size && forall j | 0 <= j < k :: f.pinnings[j].va != va)
      && (status == Success ==> h in s'.files && exists k | 0 <= k < |f.pinnings| ::
            && f.pinnings[k].va == va && f.pinnings[k].size == size && (forall j | 0 <= j < k :: f.pinnings[j].va != va)
            && s'.files[h] == f.(pinnings := f.pinnings[..k] + f.pinnings[k + 1..]))
      && (status != Success ==> s' == s)
  {
    var ps := s.files[h].pinnings;
    var k := FirstAt(PinVas(ps), va);
    assert k < |ps| ==> ps[k].va == va && RemoveAt(ps, k) == ps[..k] + ps[k + 1..];
  }

  lemma OldestViewFound(ms: seq<Mapping>, va: nat, size: nat)
    ensures FindView(ms, va, size).Some? <==> exists x :: IsOldestView(ms, va, size, x)
  {
    var x := FindViewFindsFirst(ms, va, size);
    if x < |ms| {
      assert IsOldestView(ms, va, size, x);
    }
  }

  // ---------------------------------------------------------------------- opening

  /** A newly opened handle of an attached device is up to date, in any generation,
      and owns nothing. */
  lemma OpenedIsUpToDate(s: State, h: Handle, creator: Process)
    requires Inv(s) && h !in s.files && !s.detached
    ensures var s' := Opened(s, h, creator);
      && UpToDate(s', h) && Current(s', h) && s'.files[h].creator == creator
      && s'.files[h].mappings == [] && s'.files[h].pinnings == [] && (forall i | 0 <= i < 256 :: s'.files[h].bufs[i].None?)
      && s' == s.(files := s'.files) && forall g | g in s.files :: g in s'.files && s'.files[g] == s.files[g]
  {
  }
}
