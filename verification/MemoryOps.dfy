/** What each memory request does to the device state, failures included: a
    refused request changes nothing. */
module MemoryOps {
  import opened Common
  import opened Iatu
  import opened WindowGeometry
  import opened TlbPoolSpec
  import opened TlbTokens
  import opened MemoryState

  const MAXULONG: nat := 0xFFFF_FFFF
  const MAX_INBOUND_TLBS := 256
  /** Buffers are contiguous ranges of the 64-bit bus address space. */
  const BUS_SPACE: nat := 0x1_0000_0000_0000_0000

  datatype Status =
    | Success | InvalidParameter | AccessDenied | DeviceBusy | NoResources | QuotaExceeded
    | NotSupported | NameCollision | AccessViolation | DeviceRemoved | DeviceNotReady

  // ---------------------------------------------------------------------- gates

  // Request numbers, as TtIoctlNr computes them; MAP and UNMAP pass the marker.
  const NR_DEVICE_INFO := 0
  const NR_ALLOCATE_DMA_BUF := 3
  const NR_DRIVER_INFO := 5
  const NR_RESET_DEVICE := 6
  const NR_PIN_PAGES := 7
  const NR_UNPIN_PAGES := 10
  const NR_ALLOCATE_TLB := 11
  const NR_FREE_TLB := 12
  const NR_CONFIGURE_TLB := 13
  const NR_QUERY_TELEMETRY := 0x102
  const NR_FREE_DMA_BUF_EX := 0x104
  const NR_MARKER := 0xFFFF_FFFF

  predicate Current(s: State, h: Handle) {
    !s.detached && h in s.files && s.files[h].openGen == s.gen
  }

  /** TtCheckIoGates. */
  function Gate(s: State, h: Handle, nr: nat): Status
    requires h in s.files
  {
    if s.detached then DeviceRemoved
    else if s.files[h].openGen != s.gen then DeviceRemoved
    else if s.needsHwInit && nr != NR_MARKER && nr != NR_DEVICE_INFO && nr != NR_DRIVER_INFO && nr != NR_RESET_DEVICE then
      if nr == NR_QUERY_TELEMETRY then DeviceNotReady else DeviceRemoved
    else Success
  }

  /** The gates of TtEvtIoInCallerContext: also the creator-process check. */
  function CallerGate(s: State, h: Handle, nr: nat, caller: Process): Status
    requires h in s.files
  {
    if Gate(s, h, nr) != Success then Gate(s, h, nr)
    else if s.files[h].creator != caller then AccessDenied
    else Success
  }

  /** A request passes the gates if and only if its handle is current and, after
      a reset that wants re-initialisation, it is one of the exempt requests. */
  lemma GateIff(s: State, h: Handle, nr: nat)
    requires h in s.files
    ensures Gate(s, h, nr) == Success <==>
      Current(s, h) && (s.needsHwInit ==> nr in {NR_DEVICE_INFO, NR_DRIVER_INFO, NR_RESET_DEVICE, NR_MARKER})
  {
  }

  // -------------------------------------------------------------- table helpers

  function Without<T>(cs: seq<Option<T>>, rs: set<int>): (r: seq<Option<T>>)
    ensures |r| == |cs|
  {
    seq(|cs|, i requires 0 <= i < |cs| => if i in rs then None else cs[i])
  }

  /** Regions torn down: claims dropped, and apertures disabled unless the device
      is gone. */
  function Released(s: State, rs: set<int>): State {
    s.(claims := Without(s.claims, rs),
       apertures := if s.detached then s.apertures else Without(s.apertures, rs))
  }

  lemma ReleaseLeavesFiles(s: State, rs: set<int>, files: map<Handle, File>)
    ensures Released(s.(files := files), rs) == Released(s, rs).(files := files)
  {
  }

  lemma ReleasedTables(s: State, rs: set<int>)
    requires TablesOk(s)
    ensures TablesOk(Released(s, rs))
  {
  }

  /** Once its region is torn down, no NOC address of an object reaches anything:
      neither the memory about to be freed nor another object's. */
  lemma ReleasedIsUnreachable(s: State, rs: set<int>, r: nat, x: nat)
    requires TablesOk(s) && !s.detached && r < REGIONS && r in rs && Hits(s.apertures[r], x)
    ensures Targets(Released(s, rs).apertures, x) == {}
  {
    var t := Released(s, rs).apertures;
    assert forall q | 0 <= q < REGIONS :: s.apertures[q].Some? ==> s.claims[q].Some?;
    assert forall q | 0 <= q < REGIONS :: !Hits(t[q], x);
  }

  function RemoveAt<T>(xs: seq<T>, k: nat): seq<T>
    requires k < |xs|
  {
    xs[..k] + xs[k + 1..]
  }

  // ----------------------------------------------------------------- TLB windows

  /** The pool an allocation of this size draws from. */
  function PoolOf(c: Config, size: nat): Option<(nat, nat)> {
    if size == SIZE_2M then Some((0, WINDOWS_2M))
    else if size == SIZE_4G then Some((WINDOWS_2M, WINDOWS_2M + c.tlb4gCount))
    else None
  }

  datatype TlbReply = TlbReply(status: Status, id: nat, uc: nat, wc: nat)

  function WindowReply(c: Config, id: nat): TlbReply
    requires Describe(c.tlb4gCount, id).Some?
  {
    var w := Describe(c.tlb4gCount, id).value;
    TlbReply(Success, id, WindowToken(w, false), WindowToken(w, true))
  }

  /** ALLOCATE_TLB: the first free window of the exact-size pool, or an error and
      no change. */
  ghost predicate AllocatesTlb(s: State, h: Handle, size: nat, outputOk: bool, s': State, reply: TlbReply)
    requires h in s.files && ConfigOk(s.cfg)
  {
    if Gate(s, h, NR_ALLOCATE_TLB) != Success then s' == s && reply.status == Gate(s, h, NR_ALLOCATE_TLB)
    else if !s.cfg.isBlackhole || PoolOf(s.cfg, size).None? then s' == s && reply.status == InvalidParameter
    else
      var (lo, hi) := PoolOf(s.cfg, size).value;
      if NoneFree(s.windows, lo, hi) then s' == s && reply.status == NoResources
      else if !outputOk then s' == s && reply.status == AccessViolation
      else
        && IsFirstFreeWindow(s.windows, lo, hi, reply.id)
        && reply == WindowReply(s.cfg, reply.id)
        && s' == s.(windows := s.windows[reply.id := Some(h)])
  }

  lemma AllocateTlbKeepsInv(s: State, h: Handle, size: nat, outputOk: bool, s': State, reply: TlbReply)
    requires Inv(s) && h in s.files && AllocatesTlb(s, h, size, outputOk, s', reply)
    ensures Inv(s')
  {
    if s' != s {
      Kept(s, s', h, s.files[h]);
      UpdateKeepsInv(s, s', h, s.files[h]);
    }
  }

  ghost predicate WindowMapped(f: File, id: nat) {
    exists k | 0 <= k < |f.mappings| :: f.mappings[k].tlbId == id
  }

  /** FREE_TLB: only by the owner, and only while no view of the window is left. */
  ghost function FreeTlb(s: State, h: Handle, id: nat): (State, Status)
    requires h in s.files && |s.windows| == WINDOWS_TOTAL
  {
    if Gate(s, h, NR_FREE_TLB) != Success then (s, Gate(s, h, NR_FREE_TLB))
    else if id >= MAX_INBOUND_TLBS then (s, InvalidParameter)
    else if id >= WINDOWS_TOTAL || s.windows[id] != Some(h) then (s, AccessDenied)
    else if WindowMapped(s.files[h], id) then (s, DeviceBusy)
    else (s.(windows := s.windows[id := None]), Success)
  }

  lemma FreeTlbKeepsInv(s: State, h: Handle, id: nat)
    requires Inv(s) && h in s.files
    ensures Inv(FreeTlb(s, h, id).0)
  {
    var s', f := FreeTlb(s, h, id).0, s.files[h];
    if s' != s {
      forall k | 0 <= k < |f.mappings|
        ensures MapOk(s', h, f, f.mappings[k])
      {
        assert MapOk(s, h, f, f.mappings[k]);
      }
      SameRegionsOk(s, s', h, f);
      UpdateKeepsInv(s, s', h, f);
    }
  }

  /** With the tables of regions unchanged, so is what buffers and pinnings say. */
  lemma SameRegionsOk(s: State, s': State, h: Handle, f: File)
    requires |s.claims| == |s.apertures| == REGIONS && FileOk(s, h, f)
    requires s'.claims == s.claims && s'.apertures == s.apertures && s'.detached == s.detached
    ensures BufsOk(s', h, f) && PinsOk(s', h, f) && ClaimsUsed(s', h, f)
  {
    forall i | 0 <= i < |f.bufs| && f.bufs[i].Some?
      ensures BufOk(s', h, i, f.bufs[i].value)
    {
      assert BufOk(s, h, i, f.bufs[i].value);
    }
    forall k | 0 <= k < |f.pinnings|
      ensures PinOk(s', h, f, f.pinnings[k])
    {
      assert PinOk(s, h, f, f.pinnings[k]);
    }
  }

  // ----------------------------------------------------------------- DMA buffers

  datatype BufRequest = BufRequest(index: nat, size: nat, nocDma: bool)

  /** What the common-buffer, pool and output-buffer calls return. */
  datatype BufEnv = BufEnv(bufferOk: bool, logical: nat, cpu: nat, poolOk: bool, ptr: nat, outputOk: bool)

  /** What can go wrong once the bytes are reserved. */
  ghost function BuildRefusal(s: State, q: BufRequest, env: BufEnv): Status {
    if !env.bufferOk || env.logical + q.size - 1 > NOC_DMA_LIMIT then NoResources
    else if q.nocDma && !CanSetUp(s.claims, q.size) then NoResources
    else if !env.poolOk then NoResources
    else if !env.outputOk then AccessViolation
    else Success
  }

  /** The first check that refuses an ALLOCATE_DMA_BUF, in the handler's order. */
  ghost function BufRefusal(s: State, h: Handle, q: BufRequest, env: BufEnv): Status
    requires h in s.files && |s.files[h].bufs| == MAX_DMA_BUFS
  {
    if Gate(s, h, NR_ALLOCATE_DMA_BUF) != Success then Gate(s, h, NR_ALLOCATE_DMA_BUF)
    else if !s.cfg.dmaCapable || q.index >= MAX_DMA_BUFS then InvalidParameter
    else if q.size == 0 || q.size % PAGE != 0 || q.size > MAX_DMA_BUF_SIZE then InvalidParameter
    else if s.files[h].bufs[q.index].Some? then InvalidParameter
    else if s.cfg.limit != 0 && s.bytes + q.size > s.cfg.limit then QuotaExceeded
    else BuildRefusal(s, q, env)
  }

  /** ALLOCATE_DMA_BUF: the reply's record goes into the slot, with a top-down
      region when NOC access was asked for; or a refusal and no change. */
  ghost predicate AllocatesBuf(s: State, h: Handle, q: BufRequest, env: BufEnv, s': State, status: Status, b: DmaBuf)
    requires h in s.files && |s.files[h].bufs| == MAX_DMA_BUFS
  {
    && status == BufRefusal(s, h, q, env)
    && if status != Success then s' == s
       else
         var f := s.files[h];
         && b == DmaBuf(env.ptr, q.index, q.size, env.logical, env.cpu, b.region, b.noc)
         && s' == s.(claims := s'.claims, apertures := s'.apertures, bytes := s.bytes + q.size,
                     files := s.files[h := f.(bufs := f.bufs[q.index := Some(b)])])
         && if q.nocDma
            then SetUp(s.claims, s'.claims, s.apertures, s'.apertures, h, true, q.size, env.logical, b.noc, b.region)
            else s'.claims == s.claims && s'.apertures == s.apertures && b.region == -1 && b.noc == 0
  }

  /** A region just set up carries its object, and every other slot is as it was. */
  lemma SetUpRoutes(s: State, s': State, h: Handle, topDown: bool, size: nat, target: nat, noc: nat, region: int)
    requires TablesOk(s) && !s.detached && !s'.detached && size > 1
    requires s'.windows == s.windows && s'.cfg == s.cfg
    requires SetUp(s.claims, s'.claims, s.apertures, s'.apertures, h, topDown, size, target, noc, region)
    ensures TablesOk(s') && 0 <= region < REGIONS && s.claims[region].None?
    ensures Routed(s', h, region, size, noc, target) && Owned(s'.claims, region, h)
    ensures forall r | 0 <= r < REGIONS && r != region :: s'.claims[r] == s.claims[r] && s'.apertures[r] == s.apertures[r]
  {
    ClaimKeepsDisjoint(s.claims, region, h, size, noc - NOC_PCIE_OFFSET);
  }

  /** Nothing of f uses a region that is free. */
  lemma FreeIsUnused(s: State, h: Handle, f: File, region: nat)
    requires |s.claims| == |s.apertures| == REGIONS && FileOk(s, h, f) && region < REGIONS && s.claims[region].None?
    ensures region !in UsedRegions(f)
  {
    forall i | 0 <= i < |f.bufs| && f.bufs[i].Some?
      ensures f.bufs[i].value.region != region
    {
      assert BufOk(s, h, i, f.bufs[i].value);
    }
    forall k | 0 <= k < |f.pinnings|
      ensures f.pinnings[k].region != region
    {
      assert PinOk(s, h, f, f.pinnings[k]);
    }
  }

  /** What a new region (or none) means for the tables, seen from handle h. */
  ghost predicate NewRegion(s: State, s': State, h: Handle, region: int) {
    && |s.claims| == |s'.claims| == |s.apertures| == |s'.apertures| == REGIONS && -1 <= region < REGIONS
    && (region >= 0 ==> s.claims[region].None? && Owned(s'.claims, region, h))
    && (forall r | 0 <= r < REGIONS && r != region :: s'.claims[r] == s.claims[r] && s'.apertures[r] == s.apertures[r])
    && s'.detached == s.detached && s'.windows == s.windows && s'.gen == s.gen && s'.dead == s.dead
  }

  lemma OldObjectsOk(s: State, s': State, h: Handle, f: File, region: int)
    requires FileOkAndNew(s, s', h, f, region)
    ensures BufsOk(s', h, f) && PinsOk(s', h, f) && MapsOk(s', h, f) && region !in UsedRegions(f) - {-1}
    ensures forall r | 0 <= r < REGIONS && Owned(s'.claims, r, h) :: r == region || r in UsedRegions(f)
  {
    if region >= 0 {
      FreeIsUnused(s, h, f, region);
    }
    forall i | 0 <= i < |f.bufs| && f.bufs[i].Some?
      ensures BufOk(s', h, i, f.bufs[i].value)
    {
      assert BufOk(s, h, i, f.bufs[i].value);
    }
    forall k | 0 <= k < |f.pinnings|
      ensures PinOk(s', h, f, f.pinnings[k])
    {
      assert PinOk(s, h, f, f.pinnings[k]);
    }
    forall k | 0 <= k < |f.mappings|
      ensures MapOk(s', h, f, f.mappings[k])
    {
      assert MapOk(s, h, f, f.mappings[k]);
    }
  }

  ghost predicate FileOkAndNew(s: State, s': State, h: Handle, f: File, region: int) {
    NewRegion(s, s', h, region) && FileOk(s, h, f)
  }

  lemma AllocateBufKeepsInv(s: State, h: Handle, q: BufRequest, env: BufEnv, s': State, status: Status, b: DmaBuf)
    requires Inv(s) && h in s.files && FileOk(s, h, s.files[h]) && AllocatesBuf(s, h, q, env, s', status, b)
    ensures Inv(s')
  {
    if status == Success {
      var f := s.files[h];
      var f' := f.(bufs := f.bufs[q.index := Some(b)]);
      if q.nocDma {
        SetUpRoutes(s, s', h, true, q.size, env.logical, b.noc, b.region);
      }
      OldObjectsOk(s, s', h, f, b.region);
      BufferAdded(s, s', h, f, q.index, b);
      SizeSumUpdate(f.bufs, q.index, Some(b));
      UpdateKeepsInv(s, s', h, f');
    }
  }

  lemma BufferAdded(s: State, s': State, h: Handle, f: File, i: nat, b: DmaBuf)
    requires FileOkAndNew(s, s', h, f, b.region) && i < MAX_DMA_BUFS && f.bufs[i].None?
    requires BufOk(s', h, i, b)
    ensures FileOk(s', h, f.(bufs := f.bufs[i := Some(b)]))
  {
    var f' := f.(bufs := f.bufs[i := Some(b)]);
    OldObjectsOk(s, s', h, f, b.region);
    forall c: DmaBuf | Live(f, c)
      ensures Live(f', c)
    {
    }
    forall r | 0 <= r < REGIONS && Owned(s'.claims, r, h)
      ensures r in UsedRegions(f')
    {
      if r == b.region {
        assert f'.bufs[i].Some? && f'.bufs[i].value.region == r;
      } else {
        UsedStays(f, f', i, r);
      }
    }
    assert PinsOk(s', h, f') by {
      forall k | 0 <= k < |f.pinnings|
        ensures PinOk(s', h, f', f.pinnings[k])
      {
        assert PinOk(s', h, f, f.pinnings[k]);
      }
    }
    assert MapsOk(s', h, f') by {
      forall k | 0 <= k < |f.mappings|
        ensures MapOk(s', h, f', f.mappings[k])
      {
        assert MapOk(s', h, f, f.mappings[k]);
      }
    }
    RegionsStayDistinct(f, f', i, b);
  }

  lemma UsedStays(f: File, f': File, i: nat, r: int)
    requires |f.bufs| == |f'.bufs| && i < |f.bufs| && r in UsedRegions(f) && f'.pinnings == f.pinnings
    requires f.bufs[i].None? && forall j | 0 <= j < |f.bufs| && j != i :: f'.bufs[j] == f.bufs[j]
    ensures r in UsedRegions(f')
  {
    if j :| 0 <= j < |f.bufs| && f.bufs[j].Some? && f.bufs[j].value.region == r {
      assert f'.bufs[j].Some? && f'.bufs[j].value.region == r;
    }
  }

  lemma RegionsStayDistinct(f: File, f': File, i: nat, b: DmaBuf)
    requires RegionsDistinct(f) && i < |f.bufs| && f.bufs[i].None? && b.region !in UsedRegions(f) - {-1}
    requires f' == f.(bufs := f.bufs[i := Some(b)])
    ensures RegionsDistinct(f')
  {
    forall j | 0 <= j < |f.bufs| && f.bufs[j].Some? && b.region != -1
      ensures f.bufs[j].value.region != b.region
    {
      assert f.bufs[j].value.region in UsedRegions(f);
    }
    forall k | 0 <= k < |f.pinnings| && b.region != -1
      ensures f.pinnings[k].region != b.region
    {
      assert f.pinnings[k].region in UsedRegions(f);
    }
  }

  ghost predicate BufMapped(f: File, b: DmaBuf) {
    exists k | 0 <= k < |f.mappings| :: f.mappings[k].dmaBuf == Some(b)
  }

  ghost predicate BufPinned(f: File, b: DmaBuf) {
    exists k | 0 <= k < |f.pinnings| :: f.pinnings[k].backing == Some(b)
  }

  /** A buffer out of its slot, its region torn down and its bytes given back. */
  ghost function BufFreed(s: State, h: Handle, b: DmaBuf): State
    requires h in s.files && b.index < |s.files[h].bufs|
  {
    var f := s.files[h];
    var t := Released(s, {b.region});
    t.(files := s.files[h := f.(bufs := f.bufs[b.index := None])], bytes := s.bytes - b.size)
  }

  /** FREE_DMA_BUF_EX: only while no view and no pinning refers to the buffer. */
  ghost function FreeDmaBufEx(s: State, h: Handle, index: nat, reserved: nat): (State, Status)
    requires h in s.files && FileOkSlots(s.files[h])
  {
    if Gate(s, h, NR_FREE_DMA_BUF_EX) != Success then (s, Gate(s, h, NR_FREE_DMA_BUF_EX))
    else if reserved != 0 || index >= MAX_DMA_BUFS then (s, InvalidParameter)
    else if s.files[h].bufs[index].None? then (s, InvalidParameter)
    else
      var b := s.files[h].bufs[index].value;
      if BufMapped(s.files[h], b) || BufPinned(s.files[h], b) then (s, DeviceBusy)
      else (BufFreed(s, h, b), Success)
  }

  ghost predicate FileOkSlots(f: File) {
    |f.bufs| == MAX_DMA_BUFS && forall i | 0 <= i < |f.bufs| :: f.bufs[i].Some? ==> f.bufs[i].value.index == i
  }

  lemma SlotsOk(s: State, h: Handle)
    requires Inv(s) && h in s.files
    ensures FileOkSlots(s.files[h])
  {
    forall i | 0 <= i < |s.files[h].bufs| && s.files[h].bufs[i].Some?
      ensures s.files[h].bufs[i].value.index == i
    {
      assert BufOk(s, h, i, s.files[h].bufs[i].value);
    }
  }

  lemma FreeBufKeepsInv(s: State, h: Handle, b: DmaBuf)
    requires Inv(s) && h in s.files && Live(s.files[h], b)
    requires !BufMapped(s.files[h], b) && !BufPinned(s.files[h], b)
    ensures Inv(BufFreed(s, h, b))
  {
    var f, s' := s.files[h], BufFreed(s, h, b);
    var f' := f.(bufs := f.bufs[b.index := None]);
    assert BufOk(s, h, b.index, b);
    ReleasedTables(s, {b.region});
    BufferRemoved(s, s', h, f, b);
    SizeSumUpdate(f.bufs, b.index, None);
    UpdateKeepsInv(s, s', h, f');
  }

  /** After FREE_DMA_BUF_EX no byte of the buffer's NOC range is translated. */
  lemma FreedBufferIsUnreachable(s: State, h: Handle, b: DmaBuf, k: nat)
    requires Inv(s) && !s.detached && h in s.files && Live(s.files[h], b) && b.region != -1 && k < b.size
    ensures b.noc >= NOC_PCIE_OFFSET && Targets(BufFreed(s, h, b).apertures, b.noc - NOC_PCIE_OFFSET + k) == {}
  {
    assert BufOk(s, h, b.index, b);
    ReleasedIsUnreachable(s, {b.region}, b.region, b.noc - NOC_PCIE_OFFSET + k);
  }

  lemma BufferRemoved(s: State, s': State, h: Handle, f: File, b: DmaBuf)
    requires |s.claims| == |s.apertures| == REGIONS && FileOk(s, h, f) && Live(f, b)
    requires !BufMapped(f, b) && !BufPinned(f, b)
    requires s' == Released(s, {b.region}).(files := s'.files, bytes := s'.bytes)
    ensures FileOk(s', h, f.(bufs := f.bufs[b.index := None]))
  {
    var f' := f.(bufs := f.bufs[b.index := None]);
    forall i | 0 <= i < |f'.bufs| && f'.bufs[i].Some?
      ensures BufOk(s', h, i, f'.bufs[i].value)
    {
      assert BufOk(s, h, i, f.bufs[i].value);
    }
    forall k | 0 <= k < |f.pinnings|
      ensures PinOk(s', h, f', f.pinnings[k])
    {
      assert PinOk(s, h, f, f.pinnings[k]);
    }
    forall k | 0 <= k < |f.mappings|
      ensures MapOk(s', h, f', f.mappings[k])
    {
      assert MapOk(s, h, f, f.mappings[k]);
    }
    forall r | 0 <= r < REGIONS && Owned(s'.claims, r, h)
      ensures r in UsedRegions(f')
    {
      assert Owned(s.claims, r, h) && r != b.region;
      if i :| 0 <= i < |f.bufs| && f.bufs[i].Some? && f.bufs[i].value.region == r {
        assert f'.bufs[i].Some? && f'.bufs[i].value.region == r;
      }
    }
  }
}
