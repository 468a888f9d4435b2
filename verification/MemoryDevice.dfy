/** The device object and its memory handlers: tables, lists and counters updated
    in place, each handler tied to its transition. */
module MemoryDevice {
  import opened Common
  import opened Iatu
  import opened WindowGeometry
  import opened WindowRegisters
  import opened TlbPoolSpec
  import opened TlbPool
  import opened TlbTokens
  import opened MemoryState
  import opened MemoryOps
  import opened MappingOps
  import opened LifecycleOps
  import opened KernelState
  import opened FileContexts
  import opened MemoryUndo

  /** A region set up for mem if one is wanted, and nothing else done. */
  ghost predicate NocReady(s: State, t: State, k: Holdings, k': Holdings, h: Handle, wanted: bool, topDown: bool,
                           size: nat, target: nat, noc: nat, region: int, mem: Memory) {
    && t == s.(claims := t.claims, apertures := t.apertures)
    && -1 <= region < REGIONS && (region != -1 ==> region !in k.aims)
    && k' == (if region == -1 then k else Aimed(k, region, mem))
    && if wanted then SetUp(s.claims, t.claims, s.apertures, t.apertures, h, topDown, size, target, noc, region)
       else t == s && region == -1 && noc == 0
  }

  lemma NocUndone(s: State, t: State, k: Holdings, k': Holdings, h: Handle, wanted: bool, topDown: bool,
                  size: nat, target: nat, noc: nat, region: int, mem: Memory)
    requires TablesOk(s) && !s.detached && NocReady(s, t, k, k', h, wanted, topDown, size, target, noc, region, mem)
    ensures Released(t, {region}) == s && TornDown(k', false, region) == k
  {
    if wanted {
      ReleaseUndoesSetUp(s, t, h, topDown, size, target, noc, region);
      AimUndone(k, region, mem);
    } else {
      NothingReleased(s);
    }
  }

  /** A buffer made and, if asked for, aimed at, but not yet recorded. */
  ghost predicate Built(s: State, t: State, k: Holdings, k': Holdings, h: Handle, q: BufRequest, env: BufEnv, b: DmaBuf) {
    var mem := Buffer(h, q.index);
    && b == DmaBuf(env.ptr, q.index, q.size, env.logical, env.cpu, b.region, b.noc)
    && NocReady(s, t, Obtained(k, mem), k', h, q.nocDma, true, q.size, env.logical, b.noc, b.region, mem)
  }

  /** No pinning of the handle is backed by buffer i. */
  ghost predicate NotBacking(f: File, i: nat) {
    forall j | 0 <= j < |f.pinnings| :: !BackedBy(f.pinnings[j], i)
  }

  /** Reservation, memory, region and record together are an accepted allocation. */
  lemma SlotFilled(s: State, t: State, k: Holdings, k': Holdings, h: Handle, q: BufRequest, env: BufEnv, b: DmaBuf)
    requires h in s.files && |s.files[h].bufs| == MAX_DMA_BUFS && FileMatches(k, h, s.files[h], false) && NotBacking(s.files[h], q.index)
    requires !s.detached && BufRefusal(s, h, q, env) == Success
    requires Built(s.(bytes := s.bytes + q.size), t, k, k', h, q, env, b) && AimsAreApertures(k', t.apertures)
    ensures var f := s.files[h]; var s' := t.(files := s.files[h := f.(bufs := f.bufs[q.index := Some(b)])]);
      AllocatesBuf(s, h, q, env, s', Success, b) && Moved(k, k', s', h)
  {
    BufAdded(k, h, s.files[h], q.index, b);
  }

  lemma UnlinkedThenDestroyed(s: State, h: Handle, b: DmaBuf)
    requires h in s.files && b.index < |s.files[h].bufs|
    ensures var f := s.files[h]; var t := s.(files := s.files[h := f.(bufs := f.bufs[b.index := None])]);
      BufFreed(s, h, b) == Released(t, {b.region}).(bytes := t.bytes - b.size)
  {
  }

  /** The claim table and the hardware regions. */
  datatype Tables = TablePair(claims: Claims, apertures: Apertures)

  /** Regions torn down: what Released does to the two tables. */
  function Torn(t: Tables, gone: bool, rs: set<int>): Tables {
    TablePair(Without(t.claims, rs), if gone then t.apertures else Without(t.apertures, rs))
  }

  lemma TornNothing(t: Tables, gone: bool)
    ensures Torn(t, gone, PinRegions([])) == t == Torn(t, gone, BufRegions([])) == Torn(t, gone, {})
  {
    assert Torn(t, gone, {}) == t;
    assert PinRegions([]) == {} == BufRegions([]);
  }

  lemma TornTwice(t: Tables, gone: bool, rs: set<int>, qs: set<int>)
    ensures Torn(Torn(t, gone, rs), gone, qs) == Torn(t, gone, rs + qs)
  {
    WithoutTwice(t.claims, rs, qs);
    WithoutTwice(t.apertures, rs, qs);
  }

  lemma WithoutTwice<T>(cs: seq<Option<T>>, rs: set<int>, qs: set<int>)
    ensures Without(Without(cs, rs), qs) == Without(cs, rs + qs)
  {
  }

  /** Pinnings first, then buffers; the region -1 is nobody's. */
  lemma TornUsed(t: Tables, gone: bool, f: File)
    ensures Torn(Torn(t, gone, PinRegions(f.pinnings)), gone, BufRegions(f.bufs)) == Torn(t, gone, UsedRegions(f) - {-1})
  {
    TornTwice(t, gone, PinRegions(f.pinnings), BufRegions(f.bufs));
    assert PinRegions(f.pinnings) + BufRegions(f.bufs) == UsedRegions(f);
    NoneIsNoRegion(t.claims, UsedRegions(f));
    NoneIsNoRegion(t.apertures, UsedRegions(f));
  }

  lemma NoneIsNoRegion<T>(cs: seq<Option<T>>, rs: set<int>)
    ensures Without(cs, rs) == Without(cs, rs - {-1})
  {
  }

  /** Everything the handle owns is found by a walk over its objects, each region
      once. */
  ghost predicate WalkIsComplete(s: State, h: Handle) {
    && h in s.files && |s.files[h].bufs| == MAX_DMA_BUFS && RegionsOk(s.files[h])
    && OwnedBy(s.claims, h) == UsedRegions(s.files[h]) - {-1}
  }

  ghost predicate AllRegionsOk(s: State) {
    forall h {:trigger RegionsOk(s.files[h])} | h in s.files :: RegionsOk(s.files[h])
  }

  function RegionOf(x: Option<DmaBuf>): set<int> {
    if x.Some? then {x.value.region} else {}
  }

  /** Tearing down the first pinning's region and then the others' is tearing them
      all down. */
  lemma FirstPinTorn(t: Tables, gone: bool, ps: seq<Pinning>)
    requires ps != []
    ensures Torn(Torn(t, gone, {ps[0].region}), gone, PinRegions(ps[1..])) == Torn(t, gone, PinRegions(ps))
  {
    TornTwice(t, gone, {ps[0].region}, PinRegions(ps[1..]));
    assert PinRegions(ps) == {ps[0].region} + PinRegions(ps[1..]) by {
      assert forall k | 0 < k < |ps| :: ps[k] == ps[1..][k - 1];
    }
  }

  /** The same for one buffer, and its bytes. */
  lemma OneBufTorn(t: Tables, gone: bool, bs: Slots, i: nat)
    requires i < |bs|
    ensures Torn(Torn(t, gone, RegionOf(bs[i])), gone, BufRegions(bs[i := None])) == Torn(t, gone, BufRegions(bs))
    ensures SizeSum(bs[i := None]) == SizeSum(bs) - SizeOf(bs[i])
  {
    TornTwice(t, gone, RegionOf(bs[i]), BufRegions(bs[i := None]));
    assert BufRegions(bs) == RegionOf(bs[i]) + BufRegions(bs[i := None]) by {
      forall r | r in BufRegions(bs)
        ensures r in RegionOf(bs[i]) + BufRegions(bs[i := None])
      {
        var k :| 0 <= k < |bs| && bs[k].Some? && bs[k].value.region == r;
        assert k != i ==> bs[i := None][k] == bs[k];
      }
    }
    SizeSumUpdate(bs, i, None);
  }

  lemma NoBufTorn(t: Tables, gone: bool, bs: Slots)
    requires forall i | 0 <= i < |bs| :: bs[i].None?
    ensures Torn(t, gone, BufRegions(bs)) == t && SizeSum(bs) == 0
  {
    SizeSumEmpty(bs);
    assert BufRegions(bs) == {};
    TornNothing(t, gone);
  }

  lemma ExitNobody(s: State, p: Process)
    requires |s.claims| == |s.apertures|
    ensures ExitedSoFar(s, p, s.files.Keys - s.files.Keys) == s
  {
    var t := ExitedSoFar(s, p, s.files.Keys - s.files.Keys);
    assert PinnedBy(s.files, p, s.files.Keys - s.files.Keys) == {};
    assert t.claims == s.claims && t.apertures == s.apertures && t.files == s.files;
  }

  lemma ExitEverybody(s: State, p: Process)
    ensures ExitedSoFar(s, p, s.files.Keys).(dead := s.dead + {p}) == Exited(s, p)
  {
    assert ExitedSoFar(s, p, s.files.Keys).files == Exited(s, p).files;
  }

  /** One more handle of the exit walk. */
  lemma ExitNext(s: State, p: Process, hs: set<Handle>, h: Handle)
    requires h in s.files && h !in hs && |s.claims| == |s.apertures|
    ensures var t, f := ExitedSoFar(s, p, hs), s.files[h];
      ExitedSoFar(s, p, hs + {h}) ==
        if f.creator == p
        then Released(t, PinRegions(f.pinnings)).(files := t.files[h := f.(mappings := [], pinnings := [])])
        else t
  {
    var t, u, f := ExitedSoFar(s, p, hs), ExitedSoFar(s, p, hs + {h}), s.files[h];
    PinnedByNext(s.files, p, hs, h);
    if f.creator == p {
      var v := Released(t, PinRegions(f.pinnings)).(files := t.files[h := f.(mappings := [], pinnings := [])]);
      assert u.claims == v.claims && u.apertures == v.apertures;
      assert u.files == v.files;
    } else {
      assert u.files == t.files;
    }
  }

  lemma PinnedByNext(files: map<Handle, File>, p: Process, hs: set<Handle>, h: Handle)
    requires h in files
    ensures PinnedBy(files, p, hs + {h}) ==
      PinnedBy(files, p, hs) + if files[h].creator == p then PinRegions(files[h].pinnings) else {}
  {
  }

  lemma ZapNobody(s: State)
    ensures ZappedSoFar(s, {}) == s
  {
    assert ZappedSoFar(s, {}).files == s.files;
  }

  lemma ZapEverybody(s: State)
    ensures ZappedSoFar(s, s.files.Keys - {}) == Zapped(s)
  {
    assert ZappedSoFar(s, s.files.Keys - {}).files == Zapped(s).files;
  }

  lemma ZapNext(s: State, hs: set<Handle>, h: Handle)
    requires h in s.files && h !in hs
    ensures var t, f := ZappedSoFar(s, hs), s.files[h];
      ZappedSoFar(s, hs + {h}) == t.(files := t.files[h := f.(mappings := DmaViews(f.mappings))]) && t.files[h] == f
  {
    var t, f := ZappedSoFar(s, hs), s.files[h];
    assert ZappedSoFar(s, hs + {h}).files == t.files[h := f.(mappings := DmaViews(f.mappings))];
  }

  class Device {
    const cfg: Config
    const iatu: IatuTable
    const pool: WindowPool
    const kernel: Kernel
    var files: map<Handle, FileContext>
    var resetGen: int
    var detached: bool
    var needsHwInit: bool
    var dmaBufBytes: int
    ghost var dead: set<Process>

    ghost predicate Valid()
      reads this, iatu.slots, pool.used, pool.owner
    {
      && ConfigOk(cfg) && iatu.Valid() && pool.Valid()
      && forall h, g | h in files && g in files && h != g :: files[h] != files[g]
    }

    ghost function View(): State
      requires Valid()
      reads this, iatu.slots, iatu.regions, pool.used, pool.owner, files.Values
    {
      State(cfg, iatu.Claims(), iatu.Apertures(), pool.owner[..],
            Files(), resetGen, detached, needsHwInit, dmaBufBytes, dead)
    }

    ghost function Files(): map<Handle, File>
      reads this`files, files.Values
    {
      map h | h in files :: files[h].View()
    }

    ghost function Tables(): Tables
      requires iatu.Valid()
      reads iatu.slots, iatu.regions
    {
      TablePair(iatu.Claims(), iatu.Apertures())
    }

    /** The enabled apertures are those of the hardware table. */
    ghost predicate AimsOk()
      requires iatu.Valid()
      reads kernel, iatu.slots, iatu.regions
    {
      AimsAreApertures(kernel.holdings, Tables().apertures)
    }

    /** Structure, invariant and holdings together: what every request starts from
        and leaves behind. */
    ghost predicate Healthy()
      reads this, kernel, iatu.slots, iatu.regions, pool.used, pool.owner, files.Values
    {
      Valid() && Inv(View()) && Matches(kernel.holdings, View())
    }

    /** What a handler needs of its own handle; Healthy gives it for all. */
    ghost predicate HandleReady(h: Handle)
      reads this, kernel, iatu.slots, iatu.regions, pool.used, pool.owner, files.Values
    {
      Valid() && Ready(kernel.holdings, View(), h)
    }

    /** TtEvtDevicePrepareHardware. */
    constructor (c: Config, needsHwInit: bool)
      requires ConfigOk(c)
      ensures Healthy() && View() == Start(c, needsHwInit)
    {
      cfg := c;
      iatu := new IatuTable();
      pool := new WindowPool();
      kernel := new Kernel();
      files := map[];
      resetGen, detached, dmaBufBytes, dead := 0, false, 0, {};
      this.needsHwInit := needsHwInit;
      new;
      StartInv(c, needsHwInit);
      StartMatches(c, needsHwInit);
    }

    /** TtCheckIoGates. */
    method CheckIoGates(h: Handle, nr: nat) returns (status: Status)
      requires Valid() && h in files
      ensures status == Gate(View(), h, nr)
    {
      if detached {
        return DeviceRemoved;
      }
      if files[h].openResetGen != resetGen {
        return DeviceRemoved;
      }
      if needsHwInit && nr != NR_MARKER && nr != NR_DEVICE_INFO && nr != NR_DRIVER_INFO && nr != NR_RESET_DEVICE {
        return if nr == NR_QUERY_TELEMETRY then DeviceNotReady else DeviceRemoved;
      }
      return Success;
    }

    /** The gate sequence of TtEvtIoInCallerContext. */
    method CheckCaller(h: Handle, nr: nat, caller: Process) returns (status: Status)
      requires Valid() && h in files
      ensures status == CallerGate(View(), h, nr, caller)
    {
      status := CheckIoGates(h, nr);
      if status == Success && files[h].creator != caller {
        status := AccessDenied;
      }
    }

    // -------------------------------------------------- the tables, seen in View

    method ClaimWindow(h: Handle, lo: nat, hi: nat) returns (id: int)
      requires Valid() && lo <= hi <= WINDOWS_TOTAL
      modifies pool.used, pool.owner
      ensures Valid() && -1 <= id
      ensures var s := old(View());
        && (id == -1 <==> NoneFree(s.windows, lo, hi))
        && (id >= 0 ==> IsFirstFreeWindow(s.windows, lo, hi, id))
        && View() == if id >= 0 then s.(windows := s.windows[id := Some(h)]) else s
    {
      id := pool.Claim(h, lo, hi);
    }

    method ReleaseWindow(id: nat)
      requires Valid() && id < WINDOWS_TOTAL && id != KERNEL_WINDOW
      modifies pool.used, pool.owner
      ensures Valid() && View() == old(View()).(windows := old(View()).windows[id := None])
    {
      pool.Release(id);
    }

    /** Claims and programs a region that reaches mem. */
    method SetupRegion(h: Handle, topDown: bool, size: nat, target: nat, ghost mem: Memory)
      returns (ok: bool, noc: nat, region: int)
      requires iatu.Valid() && WellFormed(iatu.Claims()) && Agree(iatu.Claims(), iatu.Apertures())
      requires AimsOk()
      requires 1 < size < UINT64_MAX - NOC_DMA_LIMIT && target <= UINT64_MAX && mem in kernel.holdings.memory
      modifies iatu.slots, iatu.regions, kernel
      ensures iatu.Valid() && AimsOk()
      ensures ok <==> CanSetUp(old(iatu.Claims()), size)
      ensures ok ==> SetUp(old(iatu.Claims()), iatu.Claims(), old(iatu.Apertures()), iatu.Apertures(),
                           h, topDown, size, target, noc, region)
      ensures !ok ==> region == -1 && iatu.Claims() == old(iatu.Claims()) && iatu.Apertures() == old(iatu.Apertures())
      ensures ok ==> region !in old(kernel.holdings.aims) && kernel.holdings == Aimed(old(kernel.holdings), region, mem)
      ensures !ok ==> kernel.holdings == old(kernel.holdings)
    {
      ghost var k, cs, aps := kernel.holdings, iatu.Claims(), iatu.Apertures();
      ok, noc, region := iatu.SetupNocDma(h, topDown, size, target);
      if ok {
        SetUpAims(k, cs, iatu.Claims(), aps, iatu.Apertures(), h, topDown, size, target, noc, region, mem);
        kernel.AimAperture(region, mem);
      }
    }

    /** Frees a region: the claim goes, and the aperture with it unless the device
        is gone. */
    method TeardownRegion(region: int)
      requires Valid() && AimsOk()
      modifies iatu.slots, iatu.regions, kernel
      ensures Valid() && View() == Released(old(View()), {region})
      ensures Tables() == Torn(old(Tables()), detached, {region})
      ensures AimsOk()
      ensures kernel.holdings == TornDown(old(kernel.holdings), detached, region)
    {
      ghost var s, t := View(), Tables();
      TearDown(region);
      assert Released(s, {region}) == s.(claims := Torn(t, detached, {region}).claims, apertures := Torn(t, detached, {region}).apertures);
    }

    method TearDown(region: int)
      requires iatu.Valid() && AimsOk()
      modifies iatu.slots, iatu.regions, kernel
      ensures iatu.Valid() && Tables() == Torn(old(Tables()), detached, {region}) && AimsOk()
      ensures kernel.holdings == TornDown(old(kernel.holdings), detached, region)
    {
      ghost var cs, aps := iatu.Claims(), iatu.Apertures();
      iatu.TeardownNocDma(region, detached);
      kernel.DisableAperture(region, detached);
      assert iatu.Claims() == Without(cs, {region});
      assert !detached ==> iatu.Apertures() == Without(aps, {region});
    }

    method SetupIfWanted(h: Handle, wanted: bool, topDown: bool, size: nat, target: nat, ghost mem: Memory)
      returns (ok: bool, noc: nat, region: int)
      requires Valid() && WellFormed(View().claims) && Agree(View().claims, View().apertures) && AimsOk()
      requires 1 < size < UINT64_MAX - NOC_DMA_LIMIT && target <= UINT64_MAX && mem in kernel.holdings.memory
      modifies iatu.slots, iatu.regions, kernel
      ensures Valid() && AimsOk() && (ok <==> !wanted || CanSetUp(old(View()).claims, size))
      ensures if ok then NocReady(old(View()), View(), old(kernel.holdings), kernel.holdings,
                                  h, wanted, topDown, size, target, noc, region, mem)
              else View() == old(View()) && kernel.holdings == old(kernel.holdings)
    {
      ok, noc, region := true, 0, -1;
      if wanted {
        ok, noc, region := SetupRegion(h, topDown, size, target, mem);
      }
    }

    /** The part ALLOCATE_DMA_BUF and PIN_PAGES share: a region if one is wanted, and
        its teardown when what follows fails. */
    method SetupOrUndo(h: Handle, wanted: bool, topDown: bool, size: nat, target: nat, ghost mem: Memory, rest: Status)
      returns (status: Status, noc: nat, region: int)
      requires Valid() && TablesOk(View()) && !detached && AimsOk()
      requires 1 < size < UINT64_MAX - NOC_DMA_LIMIT && target <= UINT64_MAX && mem in kernel.holdings.memory
      modifies iatu.slots, iatu.regions, kernel
      ensures Valid() && AimsOk()
      ensures status == if wanted && !CanSetUp(old(View()).claims, size) then NoResources else rest
      ensures status != Success ==> View() == old(View()) && kernel.holdings == old(kernel.holdings)
      ensures status == Success ==> NocReady(old(View()), View(), old(kernel.holdings), kernel.holdings,
                                             h, wanted, topDown, size, target, noc, region, mem)
    {
      ghost var s, k := View(), kernel.holdings;
      var ok;
      ok, noc, region := SetupIfWanted(h, wanted, topDown, size, target, mem);
      if !ok {
        return NoResources, noc, region;
      }
      status := rest;
      if status != Success {
        NocUndone(s, View(), k, kernel.holdings, h, wanted, topDown, size, target, noc, region, mem);
        TeardownRegion(region);
      }
    }

    // --------------------------------------------------------------- TLB windows

    /** TtIoctlAllocateTlb. */
    method AllocateTlb(h: Handle, size: nat, outputOk: bool) returns (reply: TlbReply)
      requires Valid() && h in files
      modifies pool.used, pool.owner
      ensures Valid() && AllocatesTlb(old(View()), h, size, outputOk, View(), reply)
    {
      ghost var s := View();
      reply := TlbReply(Success, 0, 0, 0);
      var gate := CheckIoGates(h, NR_ALLOCATE_TLB);
      if gate != Success {
        return reply.(status := gate);
      }
      if !cfg.isBlackhole {
        return reply.(status := InvalidParameter);
      }
      var start, count := 0, 0;
      if size == SIZE_2M {
        count := WINDOWS_2M;
      } else if size == SIZE_4G {
        start, count := WINDOWS_2M, cfg.tlb4gCount;
      } else {
        return reply.(status := InvalidParameter);
      }
      reply := TakeWindow(h, start, start + count, outputOk);
    }

    /** The claim, the reply, and the release when the reply cannot be delivered. */
    method TakeWindow(h: Handle, lo: nat, hi: nat, outputOk: bool) returns (reply: TlbReply)
      requires Valid() && lo <= hi <= WINDOWS_2M + cfg.tlb4gCount
      modifies pool.used, pool.owner
      ensures Valid()
      ensures var s := old(View());
        if NoneFree(s.windows, lo, hi) then View() == s && reply.status == NoResources
        else if !outputOk then View() == s && reply.status == AccessViolation
        else
          && IsFirstFreeWindow(s.windows, lo, hi, reply.id) && Describe(cfg.tlb4gCount, reply.id).Some?
          && reply == WindowReply(cfg, reply.id)
          && View() == s.(windows := s.windows[reply.id := Some(h)])
    {
      ghost var s := View();
      var id := ClaimWindow(h, lo, hi);
      if id < 0 {
        return TlbReply(NoResources, 0, 0, 0);
      }
      reply := WindowReply(cfg, id);
      if !outputOk {
        ReleaseWindow(id);
        assert s.windows[id := Some(h)][id := None] == s.windows;
        reply := reply.(status := AccessViolation);
      }
    }

    /** TtIoctlFreeTlb. */
    method FreeTlb(h: Handle, id: nat) returns (status: Status)
      requires Valid() && h in files
      modifies pool.used, pool.owner
      ensures Valid() && (View(), status) == MemoryOps.FreeTlb(old(View()), h, id)
    {
      ghost var s := View();
      status := CheckIoGates(h, NR_FREE_TLB);
      if status != Success {
        return;
      }
      if id >= MAX_INBOUND_TLBS {
        return InvalidParameter;
      }
      if !pool.Owns(h, id) {
        return AccessDenied;
      }
      var busy := files[h].IsWindowMapped(id);
      if busy {
        return DeviceBusy;
      }
      ReleaseWindow(id);
    }

    /** TtIoctlConfigureTlb, as one step: only a window's owner reaches its
        registers, which then decode to the request; no other window's registers
        change, and on a refusal none do. The memory state does not change. */
    method ConfigureTlb(h: Handle, id: nat, c: TlbConfig, outputOk: bool) returns (status: Status)
      requires Valid() && h in files && c.addr < UINT64
      modifies pool.registers.regs
      ensures Valid() && View() == old(View())
      ensures status ==
        if Gate(View(), h, NR_CONFIGURE_TLB) != Success then Gate(View(), h, NR_CONFIGURE_TLB)
        else if id >= MAX_INBOUND_TLBS then InvalidParameter
        else if id >= WINDOWS_TOTAL || View().windows[id] != Some(h) then AccessDenied
        else if c.addr % WindowSize(id) != 0 then InvalidParameter
        else if !outputOk then AccessViolation
        else Success
      ensures status == Success || status == AccessViolation ==>
        id != KERNEL_WINDOW && DecodeWindow(id, pool.registers.Window(id)) == Truncated(c)
      ensures status != Success && status != AccessViolation ==> pool.registers.regs[..] == old(pool.registers.regs[..])
      ensures forall w | 0 <= w < WINDOWS_TOTAL && w != id :: pool.registers.Window(w) == old(pool.registers.Window(w))
    {
      status := CheckIoGates(h, NR_CONFIGURE_TLB);
      if status != Success {
        return;
      }
      if id >= MAX_INBOUND_TLBS {
        return InvalidParameter;
      }
      var allowed, ok := pool.Configure(h, id, c);
      if !allowed {
        return AccessDenied;
      }
      if !ok {
        return InvalidParameter;
      }
      return if outputOk then Success else AccessViolation;
    }

    // --------------------------------------------------------------- DMA buffers

    /** Writes one entry of a handle's buffer table. */
    method StoreBuf(h: Handle, i: nat, x: Option<DmaBuf>)
      requires Valid() && h in files && i < |files[h].dmaBufs|
      modifies files[h]
      ensures Valid()
      ensures var s := old(View()); View() == s.(files := s.files[h := s.files[h].(bufs := s.files[h].bufs[i := x])])
    {
      ghost var s := View();
      files[h].dmaBufs := files[h].dmaBufs[i := x];
      assert View().files == s.files[h := s.files[h].(bufs := s.files[h].bufs[i := x])];
    }

    /** TtDmaAccountReserve, run as one step. */
    method Reserve(bytes: nat) returns (ok: bool)
      requires Valid()
      modifies this`dmaBufBytes
      ensures Valid() && (ok <==> cfg.limit == 0 || old(dmaBufBytes) + bytes <= cfg.limit)
      ensures View() == if ok then old(View()).(bytes := old(View()).bytes + bytes) else old(View())
    {
      dmaBufBytes := dmaBufBytes + bytes;
      if cfg.limit != 0 && dmaBufBytes > cfg.limit {
        dmaBufBytes := dmaBufBytes - bytes;
        return false;
      }
      return true;
    }

    /** TtDmaAccountRelease. */
    method GiveBack(bytes: nat)
      requires Valid()
      modifies this`dmaBufBytes
      ensures Valid() && View() == old(View()).(bytes := old(View()).bytes - bytes)
    {
      dmaBufBytes := dmaBufBytes - bytes;
    }

    /** The buffer's memory, deleted again when the device cannot reach its end. */
    method MakeBuffer(q: BufRequest, env: BufEnv, ghost mem: Memory) returns (ok: bool)
      requires Valid() && CanObtain(kernel.holdings, mem) && 1 < q.size && env.logical + q.size <= BUS_SPACE
      modifies kernel
      ensures Valid() && View() == old(View())
      ensures ok <==> env.bufferOk && env.logical + q.size - 1 <= NOC_DMA_LIMIT
      ensures kernel.holdings == if ok then Obtained(old(kernel.holdings), mem) else old(kernel.holdings)
    {
      if !env.bufferOk {
        return false;
      }
      ObtainedCanGoBack(kernel.holdings, mem);
      kernel.ObtainMemory(mem);
      var last: u64 := env.logical + q.size - 1;
      if last > NOC_DMA_LIMIT {
        kernel.FreeMemory(mem, false);
        return false;
      }
      return true;
    }

    /** The setup part of ALLOCATE_DMA_BUF, after the reservation: the memory, its
        reach, its region, its record and the reply. Whatever fails is undone, the
        aperture first. */
    method BuildBuf(h: Handle, q: BufRequest, env: BufEnv) returns (status: Status, b: DmaBuf)
      requires Valid() && TablesOk(View()) && !detached && AimsOk()
      requires CanObtain(kernel.holdings, Buffer(h, q.index))
      requires 1 < q.size <= MAX_DMA_BUF_SIZE && env.logical + q.size <= BUS_SPACE
      modifies iatu.slots, iatu.regions, kernel
      ensures Valid() && AimsOk()
      ensures status != Success ==> View() == old(View()) && kernel.holdings == old(kernel.holdings)
      ensures status == BuildRefusal(old(View()), q, env)
      ensures status == Success ==> Built(old(View()), View(), old(kernel.holdings), kernel.holdings, h, q, env, b)
    {
      ghost var mem := Buffer(h, q.index);
      ObtainedCanGoBack(kernel.holdings, mem);
      var ok := MakeBuffer(q, env, mem);
      if !ok {
        return NoResources, DmaBuf(env.ptr, q.index, q.size, env.logical, env.cpu, -1, 0);
      }
      status := if !env.poolOk then NoResources else if !env.outputOk then AccessViolation else Success;
      var noc, region;
      status, noc, region := SetupOrUndo(h, q.nocDma, true, q.size, env.logical, mem, status);
      b := DmaBuf(env.ptr, q.index, q.size, env.logical, env.cpu, region, noc);
      if status != Success {
        kernel.FreeMemory(mem, detached);
      }
    }

    /** TtIoctlAllocateDmaBuf. */
    method AllocateDmaBuf(h: Handle, q: BufRequest, env: BufEnv) returns (status: Status, b: DmaBuf)
      requires HandleReady(h) && env.logical + q.size <= BUS_SPACE
      modifies this`dmaBufBytes, iatu.slots, iatu.regions, kernel, files[h]
      ensures Valid() && AllocatesBuf(old(View()), h, q, env, View(), status, b)
      ensures Moved(old(kernel.holdings), kernel.holdings, View(), h)
    {
      ghost var s := View();
      b := DmaBuf(env.ptr, q.index, q.size, env.logical, env.cpu, -1, 0);
      status := CheckIoGates(h, NR_ALLOCATE_DMA_BUF);
      if status != Success {
        return;
      }
      if !cfg.dmaCapable || q.index >= MAX_DMA_BUFS {
        return InvalidParameter, b;
      }
      if q.size == 0 || q.size % PAGE != 0 || q.size > MAX_DMA_BUF_SIZE {
        return InvalidParameter, b;
      }
      var f := files[h];
      if f.dmaBufs[q.index].Some? {
        return InvalidParameter, b;
      }
      status, b := FillSlot(h, q, env);
    }

    /** The rest of ALLOCATE_DMA_BUF, for an empty slot: the reservation, given back
        when the setup fails. */
    method FillSlot(h: Handle, q: BufRequest, env: BufEnv) returns (status: Status, b: DmaBuf)
      requires HandleReady(h) && env.logical + q.size <= BUS_SPACE
      requires Gate(View(), h, NR_ALLOCATE_DMA_BUF) == Success && cfg.dmaCapable && q.index < MAX_DMA_BUFS
      requires 0 < q.size <= MAX_DMA_BUF_SIZE && q.size % PAGE == 0 && files[h].dmaBufs[q.index].None?
      modifies this`dmaBufBytes, iatu.slots, iatu.regions, kernel, files[h]
      ensures Valid() && AllocatesBuf(old(View()), h, q, env, View(), status, b)
      ensures Moved(old(kernel.holdings), kernel.holdings, View(), h)
    {
      ghost var s := View();
      EmptySlotIsFree(kernel.holdings, h, s.files[h], q.index);
      var reserved := Reserve(q.size);
      if !reserved {
        return QuotaExceeded, DmaBuf(env.ptr, q.index, q.size, env.logical, env.cpu, -1, 0);
      }
      status, b := FillReserved(h, q, env, s);
    }

    method FillReserved(h: Handle, q: BufRequest, env: BufEnv, ghost s: State) returns (status: Status, b: DmaBuf)
      requires Valid() && View() == s.(bytes := s.bytes + q.size) && TablesOk(s) && AimsOk() && h in s.files
      requires |s.files[h].bufs| == MAX_DMA_BUFS && FileMatches(kernel.holdings, h, s.files[h], false) && NotBacking(s.files[h], q.index)
      requires CanObtain(kernel.holdings, Buffer(h, q.index)) && env.logical + q.size <= BUS_SPACE && 1 < q.size <= MAX_DMA_BUF_SIZE
      requires q.index < MAX_DMA_BUFS && BufRefusal(s, h, q, env) == BuildRefusal(s, q, env) && !s.detached
      modifies this`dmaBufBytes, iatu.slots, iatu.regions, kernel, files[h]
      ensures Valid() && AllocatesBuf(s, h, q, env, View(), status, b)
      ensures Moved(old(kernel.holdings), kernel.holdings, View(), h)
    {
      ghost var k := kernel.holdings;
      status, b := BuildBuf(h, q, env);
      if status != Success {
        GiveBack(q.size);
        assert View() == s;
        SameOthersReflexive(k, h);
        return;
      }
      RecordBuf(h, q, env, b, s, k);
    }

    /** The record into its slot. */
    method RecordBuf(h: Handle, q: BufRequest, env: BufEnv, b: DmaBuf, ghost s: State, ghost k: Holdings)
      requires Valid() && AimsOk() && Built(s.(bytes := s.bytes + q.size), View(), k, kernel.holdings, h, q, env, b)
      requires h in s.files && |s.files[h].bufs| == MAX_DMA_BUFS && FileMatches(k, h, s.files[h], false) && NotBacking(s.files[h], q.index)
      requires !s.detached && BufRefusal(s, h, q, env) == Success
      modifies files[h]
      ensures Valid() && AllocatesBuf(s, h, q, env, View(), Success, b)
      ensures Moved(k, kernel.holdings, View(), h)
    {
      SlotFilled(s, View(), k, kernel.holdings, h, q, env, b);
      StoreBuf(h, q.index, Some(b));
    }

    /** TtDmaBufDestroy: the aperture goes before the memory it reaches, then the
        bytes. */
    method DmaBufDestroy(b: DmaBuf, ghost mem: Memory)
      requires Valid() && AimsOk()
      requires CanFree(TornDown(kernel.holdings, detached, b.region), detached, mem)
      modifies this`dmaBufBytes, iatu.slots, iatu.regions, kernel
      ensures Valid() && AimsOk()
      ensures Tables() == Torn(old(Tables()), detached, {b.region}) && dmaBufBytes == old(dmaBufBytes) - b.size
      ensures kernel.holdings == Freed(TornDown(old(kernel.holdings), detached, b.region), mem)
    {
      TearDown(b.region);
      kernel.FreeMemory(mem, detached);
      dmaBufBytes := dmaBufBytes - b.size;
    }

    /** The same, seen in the whole device. */
    method DestroyUnlinked(b: DmaBuf, ghost mem: Memory)
      requires Valid() && AimsOk()
      requires CanFree(TornDown(kernel.holdings, detached, b.region), detached, mem)
      modifies this`dmaBufBytes, iatu.slots, iatu.regions, kernel
      ensures Valid() && View() == Released(old(View()), {b.region}).(bytes := old(View()).bytes - b.size)
      ensures AimsOk() && kernel.holdings == Freed(TornDown(old(kernel.holdings), detached, b.region), mem)
    {
      DmaBufDestroy(b, mem);
    }

    /** TtIoctlFreeDmaBufEx. */
    method FreeDmaBufEx(h: Handle, index: nat, reserved: nat) returns (status: Status)
      requires HandleReady(h)
      modifies this`dmaBufBytes, iatu.slots, iatu.regions, kernel, files[h]
      ensures Valid() && (View(), status) == MemoryOps.FreeDmaBufEx(old(View()), h, index, reserved)
      ensures Moved(old(kernel.holdings), kernel.holdings, View(), h)
    {
      status := CheckIoGates(h, NR_FREE_DMA_BUF_EX);
      if status != Success {
        return;
      }
      if reserved != 0 || index >= MAX_DMA_BUFS {
        return InvalidParameter;
      }
      var f := files[h];
      if f.dmaBufs[index].None? {
        return InvalidParameter;
      }
      var b := f.dmaBufs[index].value;
      var busy := f.IsReferenced(b);
      if busy {
        return DeviceBusy;
      }
      DropBuf(h, b);
    }

    /** Nothing refers to the buffer, so its memory may go once its aperture has. */
    method DropBuf(h: Handle, b: DmaBuf)
      requires Valid() && h in files && Live(files[h].View(), b) && AimsOk()
      requires FileMatches(kernel.holdings, h, files[h].View(), detached) && RefsLive(files[h].View())
      requires !BufMapped(files[h].View(), b) && !BufPinned(files[h].View(), b)
      modifies this`dmaBufBytes, iatu.slots, iatu.regions, kernel, files[h]
      ensures Valid() && View() == BufFreed(old(View()), h, b)
      ensures Moved(old(kernel.holdings), kernel.holdings, View(), h)
    {
      ghost var f := files[h].View();
      UnreferencedIsUnseen(f, b);
      BufDropped(kernel.holdings, h, f, b.index, detached);
      EmptySlot(h, b);
    }

    /** Unlinks an unreferenced buffer, then destroys it. */
    method EmptySlot(h: Handle, b: DmaBuf)
      requires Valid() && h in files && b.index < |files[h].dmaBufs|
      requires AimsOk()
      requires CanFree(TornDown(kernel.holdings, detached, b.region), detached, Buffer(h, b.index))
      modifies this`dmaBufBytes, iatu.slots, iatu.regions, kernel, files[h]
      ensures Valid() && View() == BufFreed(old(View()), h, b)
      ensures kernel.holdings == Freed(TornDown(old(kernel.holdings), detached, b.region), Buffer(h, b.index))
      ensures AimsOk()
    {
      ghost var s := View();
      StoreBuf(h, b.index, None);
      UnlinkedThenDestroyed(s, h, b);
      DestroyUnlinked(b, Buffer(h, b.index));
    }

    // ------------------------------------------------------------ MAP and UNMAP

    /** TtResolveMapTarget. */
    method ResolveMapTarget(h: Handle, token: nat, length: nat) returns (r: Resolution)
      requires Valid() && h in files && |files[h].dmaBufs| == MAX_DMA_BUFS
      ensures r == Resolve(View(), h, token, length)
    {
      match Decode(token, length)
      case DmaSlot(i) =>
        var slot := files[h].dmaBufs[i];
        if slot.None? || length > slot.value.size {
          return Refused(InvalidParameter);
        }
        return Resolved(slot.value.cpu, Cached, -1, slot);
      case BarRange(bar, offset, wc) =>
        if cfg.barLength[bar] == 0 || offset >= cfg.barLength[bar] || length > cfg.barLength[bar] - offset {
          return Refused(InvalidParameter);
        }
        return Resolved(cfg.barBase[bar] + offset, CacheOf(wc), -1, None);
      case TlbWindow(id, bar, offset, wc) =>
        if id >= WINDOWS_TOTAL || cfg.barLength[bar] == 0 || offset + length > cfg.barLength[bar] {
          return Refused(InvalidParameter);
        }
        if !pool.Owns(h, id) {
          return Refused(AccessDenied);
        }
        return Resolved(cfg.barBase[bar] + offset, CacheOf(wc), id, None);
      case NoTarget =>
        return Refused(InvalidParameter);
    }

    /** Replaces a handle's lists. */
    method StoreLists(h: Handle, mappings: seq<Mapping>, pinnings: seq<Pinning>)
      requires Valid() && h in files
      modifies files[h]
      ensures Valid()
      ensures var s := old(View());
        View() == s.(files := s.files[h := s.files[h].(mappings := mappings, pinnings := pinnings)])
    {
      ghost var s := View();
      files[h].mappings := mappings;
      files[h].pinnings := pinnings;
      assert View().files == s.files[h := s.files[h].(mappings := mappings, pinnings := pinnings)];
    }

    /** TtIoctlMap. A view whose address cannot be reported is unmapped again. */
    method Map(h: Handle, caller: Process, token: nat, length: nat, env: MapEnv) returns (status: Status)
      requires HandleReady(h)
      modifies kernel, files[h]
      ensures Valid() && (View(), status) == MappingOps.Map(old(View()), h, caller, token, length, env)
      ensures Moved(old(kernel.holdings), kernel.holdings, View(), h)
    {
      status := CheckCaller(h, NR_MARKER, caller);
      if status != Success {
        return;
      }
      if length == 0 || length % PAGE != 0 || token % PAGE != 0 || length > MAXULONG {
        return InvalidParameter;
      }
      var r := ResolveMapTarget(h, token, length);
      if r.Refused? {
        return r.status;
      }
      if !env.poolOk || !env.mdlOk || env.va.None? {
        return NoResources;
      }
      var m := Mapping(env.va.value, length, r.physical, r.cache, r.tlbId, token >= DMA_BUFS, r.dmaBuf, caller);
      status := AddView(h, m, env.outputOk);
    }

    /** The mapping of the pages, the reply, and the list entry. */
    method AddView(h: Handle, m: Mapping, outputOk: bool) returns (status: Status)
      requires HandleReady(h) && (m.dmaBuf.Some? ==> Live(files[h].View(), m.dmaBuf.value))
      modifies kernel, files[h]
      ensures Valid() && status == if outputOk then Success else AccessViolation
      ensures var s := old(View()); var f := s.files[h];
        View() == if outputOk then s.(files := s.files[h := f.(mappings := f.mappings + [m])]) else s
      ensures Moved(old(kernel.holdings), kernel.holdings, View(), h)
    {
      ghost var k, f := kernel.holdings, files[h].View();
      ViewsChanged(k, h, f, f.mappings + [m], detached);
      assert m.dmaBuf.Some? ==> HeldIn(f, Buffer(h, m.dmaBuf.value.index));
      MapPages(h, m, outputOk);
      if !outputOk {
        return AccessViolation;
      }
      StoreLists(h, files[h].mappings + [m], files[h].pinnings);
      return Success;
    }

    /** The view, unmapped again when its address cannot be reported. */
    ghost method MapPages(h: Handle, m: Mapping, outputOk: bool)
      requires h in kernel.holdings.views && (m.dmaBuf.Some? ==> Buffer(h, m.dmaBuf.value.index) in kernel.holdings.memory)
      modifies kernel
      ensures var k := old(kernel.holdings);
        kernel.holdings == if outputOk then WithViews(k, h, k.views[h] + [m]) else k
    {
      ghost var ms := kernel.holdings.views[h];
      SameViews(kernel.holdings, h);
      kernel.MapView(h, m);
      if !outputOk {
        assert RemoveAt(ms + [m], |ms|) == ms;
        kernel.UnmapView(h, |ms|);
      }
    }

    /** TtIoctlUnmap. */
    method Unmap(h: Handle, caller: Process, va: nat, reserved: nat) returns (status: Status)
      requires HandleReady(h)
      modifies kernel, files[h]
      ensures Valid() && (View(), status) == MappingOps.Unmap(old(View()), h, caller, va, reserved)
      ensures Moved(old(kernel.holdings), kernel.holdings, View(), h)
    {
      status := CheckCaller(h, NR_MARKER, caller);
      if status != Success {
        return;
      }
      if reserved != 0 {
        return InvalidParameter;
      }
      ghost var f := files[h].View();
      var found := RemoveMapping(h, va);
      if !found {
        return InvalidParameter;
      }
      ViewsChanged(old(kernel.holdings), h, f, RemoveAt(f.mappings, FirstAt(MappingVas(f.mappings), va)), detached);
    }

    /** Delists the mapping, then unmaps it. */
    method RemoveMapping(h: Handle, va: nat) returns (found: bool)
      requires Valid() && h in files && h in kernel.holdings.views && kernel.holdings.views[h] == files[h].mappings
      modifies kernel, files[h]
      ensures Valid()
      ensures var s, k := old(View()), old(kernel.holdings); var ms := s.files[h].mappings; var j := FirstAt(MappingVas(ms), va);
        && (found <==> j < |ms|)
        && View() == (if found then s.(files := s.files[h := s.files[h].(mappings := RemoveAt(ms, j))]) else s)
        && kernel.holdings == if found then WithViews(k, h, RemoveAt(ms, j)) else k
    {
      ghost var j := FirstAt(MappingVas(files[h].mappings), va);
      found := DelistMapping(h, va);
      if found {
        kernel.UnmapView(h, j);
      }
    }

    method DelistMapping(h: Handle, va: nat) returns (found: bool)
      requires Valid() && h in files
      modifies files[h]
      ensures Valid()
      ensures var s := old(View()); var k := FirstAt(MappingVas(s.files[h].mappings), va);
        && (found <==> k < |s.files[h].mappings|)
        && View() == if found then s.(files := s.files[h := s.files[h].(mappings := RemoveAt(s.files[h].mappings, k))])
                     else s
    {
      ghost var s := View();
      found := files[h].TakeMapping(va);
      assert View().files == s.files[h := files[h].View()];
    }

    // -------------------------------------------------- PIN_PAGES, UNPIN_PAGES

    /** The direct path of PIN_PAGES: probe, lock, and check that the frames are
        consecutive; if they are not, the pages are unlocked again. */
    method LockRange(q: PinRequest, env: PinEnv, ghost mem: Memory) returns (status: Status, physical: nat)
      requires PinArgumentsOk(q) && PinEnvOk(q, env) && mem.Pages?
      requires CanObtain(kernel.holdings, mem)
      modifies kernel
      ensures status ==
        if !env.mdlOk then NoResources
        else if !env.lockOk then AccessViolation
        else if !Contiguous(env.pfns) then InvalidParameter
        else Success
      ensures status == Success ==> |env.pfns| > 0 && physical == env.pfns[0] * PAGE
      ensures kernel.holdings == if status == Success then Obtained(old(kernel.holdings), mem) else old(kernel.holdings)
    {
      physical := 0;
      if !env.mdlOk {
        return NoResources, physical;
      }
      if !env.lockOk {
        return AccessViolation, physical;
      }
      ObtainedCanGoBack(kernel.holdings, mem);
      kernel.ObtainMemory(mem);
      var i := 1;
      while i < |env.pfns|
        invariant 1 <= i <= |env.pfns| && kernel.holdings == Obtained(old(kernel.holdings), mem)
        invariant forall k | 0 < k < i :: env.pfns[k] == env.pfns[k - 1] + 1
      {
        if env.pfns[i] != env.pfns[i - 1] + 1 {
          kernel.FreeMemory(mem, false);
          return InvalidParameter, physical;
        }
        i := i + 1;
      }
      return Success, env.pfns[0] * PAGE;
    }

    /** The gate, argument and duplicate checks of PIN_PAGES. */
    method CheckPinRequest(h: Handle, caller: Process, q: PinRequest) returns (status: Status)
      requires Valid() && h in files
      ensures status == PinRequestRefusal(View(), h, caller, q)
    {
      status := CheckCaller(h, NR_PIN_PAGES, caller);
      if status != Success {
        return;
      }
      if q.flags.unknown {
        return InvalidParameter;
      }
      if q.va % PAGE != 0 || q.size % PAGE != 0 || q.size == 0 || q.size > MAXULONG {
        return InvalidParameter;
      }
      if q.flags.readOnly {
        return NotSupported;
      }
      var pinned := files[h].IsPinned(q.va, q.size);
      if pinned {
        return NameCollision;
      }
    }

    /** Where the pinned range is for the device; without a backing buffer its pages
        are locked. */
    method FindPinTarget(h: Handle, q: PinRequest, env: PinEnv)
      returns (status: Status, physical: nat, backing: Option<DmaBuf>)
      requires HandleReady(h) && !detached && PinEnvOk(q, env) && PinArgumentsOk(q)
      requires !AlreadyPinned(files[h].pinnings, q.va, q.size)
      modifies kernel
      ensures Valid() && View() == old(View())
      ensures status == TargetRefusal(View(), files[h].View(), q, env)
      ensures status == Success ==>
        && (FindView(files[h].mappings, q.va, q.size).Some? || |env.pfns| > 0)
        && physical == PinPhysical(files[h].View(), q, env) && physical <= UINT64_MAX
        && backing == PinBacking(files[h].View(), q) && (backing.Some? ==> Live(files[h].View(), backing.value))
      ensures kernel.holdings ==
        if status == Success && backing.None?
        then Obtained(old(kernel.holdings), Pages(h, files[h].creator, q.va, q.size)) else old(kernel.holdings)
    {
      physical, backing := 0, None;
      var view := files[h].FindDmaBufView(q.va, q.size);
      if view.None? && !cfg.identityDomain {
        return NotSupported, physical, backing;
      }
      if !env.poolOk {
        return NoResources, physical, backing;
      }
      ghost var k := FindViewFindsFirst(files[h].mappings, q.va, q.size);
      if view.Some? {
        return Success, view.value.0.logical + view.value.1, Some(view.value.0);
      }
      NewRangeIsFree(kernel.holdings, h, files[h].View(), q.va, q.size);
      status, physical := LockRange(q, env, Pages(h, files[h].creator, q.va, q.size));
    }

    /** TtIoctlPinPages. */
    method PinPages(h: Handle, caller: Process, q: PinRequest, env: PinEnv) returns (status: Status, p: Pinning)
      requires HandleReady(h) && PinEnvOk(q, env)
      modifies iatu.slots, iatu.regions, kernel, files[h]
      ensures Valid() && Pins(old(View()), h, caller, q, env, View(), status, p)
      ensures Moved(old(kernel.holdings), kernel.holdings, View(), h)
    {
      p := Pinning(q.va, q.size, 0, None, -1, 0);
      status := CheckPinRequest(h, caller, q);
      if status != Success {
        return;
      }
      ghost var k := kernel.holdings;
      var physical, backing;
      status, physical, backing := FindPinTarget(h, q, env);
      if status != Success {
        return;
      }
      status, p := FinishPin(h, q, env, p.(physical := physical, backing := backing), k);
    }

    /** The region, the reply and the list entry of a PIN_PAGES whose address is
        known and whose pages, if it needs them, are locked. Whatever fails is
        undone, the aperture before the pages. */
    method FinishPin(h: Handle, q: PinRequest, env: PinEnv, draft: Pinning, ghost k: Holdings)
      returns (status: Status, p: Pinning)
      requires Valid() && Ready(k, View(), h) && !detached && 1 < q.size <= MAXULONG && !AlreadyPinned(files[h].pinnings, q.va, q.size)
      requires draft.physical <= UINT64_MAX && draft.va == q.va && draft.size == q.size && draft.region == -1 && draft.noc == 0
      requires draft.backing.Some? ==> Live(files[h].View(), draft.backing.value)
      requires kernel.holdings == if draft.backing.None? then Obtained(k, PinMemory(h, files[h].creator, draft)) else k
      modifies iatu.slots, iatu.regions, kernel, files[h]
      ensures Valid()
      ensures status ==
        if WantsNoc(q.flags) && !CanSetUp(old(View()).claims, q.size) then NoResources
        else if !env.outputOk then AccessViolation
        else Success
      ensures status != Success ==> View() == old(View())
      ensures status == Success ==>
        var s, t := old(View()), View();
        && p == draft.(region := p.region, noc := p.noc)
        && t == s.(claims := t.claims, apertures := t.apertures,
                   files := s.files[h := s.files[h].(pinnings := s.files[h].pinnings + [p])])
        && if WantsNoc(q.flags)
           then SetUp(s.claims, t.claims, s.apertures, t.apertures, h, q.flags.topDown, q.size, p.physical, p.noc, p.region)
           else t.claims == s.claims && t.apertures == s.apertures && p.region == -1 && p.noc == 0
      ensures Moved(k, kernel.holdings, View(), h)
    {
      p := draft;
      ghost var f, mem := files[h].View(), PinMemory(h, files[h].creator, draft);
      PinCanStart(k, h, f, draft);
      status, p := AimPin(h, q, env, draft, mem, k);
      if status == Success {
        PinListed(k, h, files[h].View(), p);
        StoreLists(h, files[h].mappings, files[h].pinnings + [p]);
      }
    }

    /** FinishPin up to the list entry. */
    method AimPin(h: Handle, q: PinRequest, env: PinEnv, draft: Pinning, ghost mem: Memory, ghost k: Holdings)
      returns (status: Status, p: Pinning)
      requires Valid() && TablesOk(View()) && !detached && AimsAreApertures(k, View().apertures)
      requires 1 < q.size <= MAXULONG && draft.physical <= UINT64_MAX && draft.region == -1 && draft.noc == 0
      requires if draft.backing.None? then CanObtain(k, mem) else mem in k.memory
      requires kernel.holdings == if draft.backing.None? then Obtained(k, mem) else k
      modifies iatu.slots, iatu.regions, kernel
      ensures Valid() && AimsOk()
      ensures status ==
        if WantsNoc(q.flags) && !CanSetUp(old(View()).claims, q.size) then NoResources
        else if !env.outputOk then AccessViolation
        else Success
      ensures status != Success ==> View() == old(View()) && kernel.holdings == k
      ensures status == Success ==>
        var s, t := old(View()), View();
        var k1 := if draft.backing.None? then Obtained(k, mem) else k;
        && p == draft.(region := p.region, noc := p.noc)
        && NocReady(s, t, k1, kernel.holdings, h, WantsNoc(q.flags), q.flags.topDown, q.size, p.physical, p.noc, p.region, mem)
    {
      if draft.backing.None? {
        ObtainedCanGoBack(k, mem);
      }
      status := if env.outputOk then Success else AccessViolation;
      var noc, region;
      status, noc, region := SetupOrUndo(h, q.flags.nocDma || q.flags.topDown, q.flags.topDown, q.size, draft.physical, mem, status);
      p := draft.(region := region, noc := noc);
      if status != Success {
        UnlockPages(draft, mem);
      }
    }

    /** MmUnlockPages, for a pinning that locked any. */
    ghost method UnlockPages(p: Pinning, mem: Memory)
      requires p.backing.None? ==> CanFree(kernel.holdings, detached, mem)
      modifies kernel
      ensures kernel.holdings == if p.backing.None? then Freed(old(kernel.holdings), mem) else old(kernel.holdings)
    {
      if p.backing.None? {
        kernel.FreeMemory(mem, detached);
      }
    }

    /** TtDestroyPinning: the aperture goes before the pages it reaches. */
    method DestroyPinning(p: Pinning, ghost mem: Memory)
      requires Valid() && AimsOk()
      requires p.backing.None? ==> CanFree(TornDown(kernel.holdings, detached, p.region), detached, mem)
      modifies iatu.slots, iatu.regions, kernel
      ensures Valid() && View() == Released(old(View()), {p.region})
      ensures Tables() == Torn(old(Tables()), detached, {p.region})
      ensures AimsOk()
      ensures var k1 := TornDown(old(kernel.holdings), detached, p.region);
        kernel.holdings == if p.backing.None? then Freed(k1, mem) else k1
    {
      TeardownRegion(p.region);
      UnlockPages(p, mem);
    }

    /** TtIoctlUnpinPages. */
    method UnpinPages(h: Handle, caller: Process, va: nat, size: nat, reserved: nat) returns (status: Status)
      requires HandleReady(h)
      modifies iatu.slots, iatu.regions, kernel, files[h]
      ensures Valid() && (View(), status) == MappingOps.Unpin(old(View()), h, caller, va, size, reserved)
      ensures Moved(old(kernel.holdings), kernel.holdings, View(), h)
    {
      status := CheckCaller(h, NR_UNPIN_PAGES, caller);
      if status != Success {
        return;
      }
      if reserved != 0 || size == 0 || size / PAGE == 0 {
        return InvalidParameter;
      }
      ghost var s := View();
      var found := RemovePinning(h, va, size);
      if !found {
        assert View() == s;
        return InvalidParameter;
      }
    }

    /** Delists the pinning, then destroys it. */
    method RemovePinning(h: Handle, va: nat, size: nat) returns (found: bool)
      requires HandleReady(h)
      modifies iatu.slots, iatu.regions, kernel, files[h]
      ensures Valid()
      ensures var s := old(View()); var ps := s.files[h].pinnings; var j := FirstAt(PinVas(ps), va);
        && (found <==> j < |ps| && ps[j].size == size)
        && View() == if found then Unpinned(s, h, j) else s
      ensures Moved(old(kernel.holdings), kernel.holdings, View(), h)
    {
      ghost var s, f := View(), files[h].View();
      ghost var j := FirstAt(PinVas(f.pinnings), va);
      var p := DelistPinning(h, va, size);
      found := p.Some?;
      if found {
        PinDropped(kernel.holdings, h, f, j, detached);
        ReleaseLeavesFiles(s, {p.value.region}, View().files);
        DestroyPinning(p.value, PinMemory(h, f.creator, p.value));
      }
    }

    method DelistPinning(h: Handle, va: nat, size: nat) returns (found: Option<Pinning>)
      requires Valid() && h in files
      modifies files[h]
      ensures Valid()
      ensures var s := old(View()); var ps := s.files[h].pinnings; var k := FirstAt(PinVas(ps), va);
        if k < |ps| && ps[k].size == size
        then found == Some(ps[k]) && View() == s.(files := s.files[h := s.files[h].(pinnings := RemoveAt(ps, k))])
        else found == None && View() == s
    {
      ghost var s := View();
      found := files[h].TakePinning(va, size);
      assert View().files == s.files[h := files[h].View()];
    }

    // ------------------------------------------------------------ open and close

    /** TtEvtDeviceFileCreate. */
    method Open(h: Handle, caller: Process)
      requires Valid() && h !in files && h !in kernel.holdings.views
      modifies this`files, kernel
      ensures Valid() && View() == Opened(old(View()), h, caller)
      ensures kernel.holdings == WithViews(old(kernel.holdings), h, [])
    {
      kernel.OpenHandle(h);
      Enlist(h, caller);
    }

    method Enlist(h: Handle, caller: Process)
      requires Valid() && h !in files
      modifies this`files
      ensures Valid() && View() == Opened(old(View()), h, caller)
    {
      ghost var s := View();
      var f := new FileContext(resetGen, caller);
      files := files[h := f];
      assert View().files == s.files[h := f.View()];
    }

    /** One turn of the pinning loop: the head of the list goes, then its region,
        then its pages. */
    method DestroyFirstPinning(f: FileContext, ghost h: Handle)
      requires Valid() && f.pinnings != [] && AimsOk()
      requires FileMatches(kernel.holdings, h, f.View(), detached) && RegionsOk(f.View())
      modifies iatu.slots, iatu.regions, kernel, f
      ensures Valid() && f.View() == old(f.View()).(pinnings := old(f.pinnings)[1..])
      ensures Tables() == Torn(old(Tables()), detached, {old(f.pinnings)[0].region})
      ensures AimsOk() && SameOthers(old(kernel.holdings), kernel.holdings, h)
      ensures FileMatches(kernel.holdings, h, f.View(), detached) && RegionsOk(f.View())
    {
      PinDropped(kernel.holdings, h, f.View(), 0, detached);
      assert RemoveAt(f.pinnings, 0) == f.pinnings[1..];
      var p := f.pinnings[0];
      f.pinnings := f.pinnings[1..];
      DestroyPinning(p, PinMemory(h, f.creator, p));
    }

    /** The pinning loop of cleanup and of process exit. */
    method DestroyPinnings(f: FileContext, ghost h: Handle)
      requires Valid() && AimsOk()
      requires FileMatches(kernel.holdings, h, f.View(), detached) && RegionsOk(f.View())
      modifies iatu.slots, iatu.regions, kernel, f
      ensures Valid() && f.View() == old(f.View()).(pinnings := [])
      ensures Tables() == Torn(old(Tables()), detached, PinRegions(old(f.pinnings)))
      ensures AimsOk() && SameOthers(old(kernel.holdings), kernel.holdings, h)
      ensures FileMatches(kernel.holdings, h, f.View(), detached) && RegionsOk(f.View())
    {
      TornNothing(Tables(), detached);
      while f.pinnings != []
        invariant f.View() == old(f.View()).(pinnings := f.pinnings)
        invariant Valid() && Torn(Tables(), detached, PinRegions(f.pinnings)) == old(Torn(Tables(), detached, PinRegions(f.pinnings)))
        invariant AimsOk() && SameOthers(old(kernel.holdings), kernel.holdings, h)
        invariant FileMatches(kernel.holdings, h, f.View(), detached) && RegionsOk(f.View())
        decreases |f.pinnings|
      {
        ghost var k := kernel.holdings;
        FirstPinTorn(Tables(), detached, f.pinnings);
        DestroyFirstPinning(f, h);
        SameOthersTransitive(old(kernel.holdings), k, kernel.holdings, h);
      }
      TornNothing(Tables(), detached);
    }

    /** One turn of the buffer loop, on a used entry. By now no view and no pinning
        of the handle is left to refer to the buffer. */
    method DestroyBufAt(f: FileContext, ghost h: Handle, i: nat)
      requires Valid() && i < |f.dmaBufs| && f.dmaBufs[i].Some? && AimsOk()
      requires FileMatches(kernel.holdings, h, f.View(), detached)
      requires f.mappings == [] && f.pinnings == []
      modifies iatu.slots, iatu.regions, f, kernel, this`dmaBufBytes
      ensures Valid() && f.View() == old(f.View()).(bufs := old(f.dmaBufs)[i := None])
      ensures var b := old(f.dmaBufs)[i].value;
        Tables() == Torn(old(Tables()), detached, {b.region}) && dmaBufBytes == old(dmaBufBytes) - b.size
      ensures AimsOk() && SameOthers(old(kernel.holdings), kernel.holdings, h)
      ensures FileMatches(kernel.holdings, h, f.View(), detached)
    {
      BufDropped(kernel.holdings, h, f.View(), i, detached);
      var b := f.dmaBufs[i].value;
      f.dmaBufs := f.dmaBufs[i := None];
      DmaBufDestroy(b, Buffer(h, i));
    }

    /** The same on any entry. What is torn down and what is still to be torn down
        stay the same together, and so do the bytes. */
    method EmptyBufAt(f: FileContext, ghost h: Handle, i: nat)
      requires Valid() && i < |f.dmaBufs| && AimsOk()
      requires FileMatches(kernel.holdings, h, f.View(), detached)
      requires f.mappings == [] && f.pinnings == []
      modifies iatu.slots, iatu.regions, f, kernel, this`dmaBufBytes
      ensures Valid() && f.View() == old(f.View()).(bufs := old(f.dmaBufs)[i := None])
      ensures Torn(Tables(), detached, BufRegions(f.dmaBufs)) == old(Torn(Tables(), detached, BufRegions(f.dmaBufs)))
      ensures dmaBufBytes - SizeSum(f.dmaBufs) == old(dmaBufBytes - SizeSum(f.dmaBufs))
      ensures AimsOk() && SameOthers(old(kernel.holdings), kernel.holdings, h)
      ensures FileMatches(kernel.holdings, h, f.View(), detached)
    {
      OneBufTorn(Tables(), detached, f.dmaBufs, i);
      if f.dmaBufs[i].Some? {
        DestroyBufAt(f, h, i);
      } else {
        assert f.dmaBufs[i := None] == f.dmaBufs;
      }
    }

    /** Step 3 of TtMemoryFileCleanup. */
    method DestroyBuffers(f: FileContext, ghost h: Handle)
      requires Valid() && |f.dmaBufs| == MAX_DMA_BUFS && AimsOk()
      requires FileMatches(kernel.holdings, h, f.View(), detached)
      requires f.mappings == [] && f.pinnings == []
      modifies iatu.slots, iatu.regions, f, kernel, this`dmaBufBytes
      ensures Valid()
      ensures Tables() == Torn(old(Tables()), detached, BufRegions(old(f.dmaBufs)))
      ensures dmaBufBytes == old(dmaBufBytes) - SizeSum(old(f.dmaBufs))
      ensures AimsOk() && SameOthers(old(kernel.holdings), kernel.holdings, h)
      ensures NothingHeld(kernel.holdings, h, detached)
    {
      var i := 0;
      while i < MAX_DMA_BUFS
        invariant 0 <= i <= MAX_DMA_BUFS == |f.dmaBufs| && f.mappings == [] && f.pinnings == []
        invariant forall j | 0 <= j < i :: f.dmaBufs[j].None?
        invariant Valid() && Torn(Tables(), detached, BufRegions(f.dmaBufs)) == old(Torn(Tables(), detached, BufRegions(f.dmaBufs)))
        invariant dmaBufBytes - SizeSum(f.dmaBufs) == old(dmaBufBytes - SizeSum(f.dmaBufs))
        invariant AimsOk() && SameOthers(old(kernel.holdings), kernel.holdings, h)
        invariant FileMatches(kernel.holdings, h, f.View(), detached)
      {
        ghost var k := kernel.holdings;
        EmptyBufAt(f, h, i);
        SameOthersTransitive(old(kernel.holdings), k, kernel.holdings, h);
        i := i + 1;
      }
      NoBufTorn(Tables(), detached, f.dmaBufs);
      EmptyFileHoldsNothing(kernel.holdings, h, f.View(), detached);
    }

    /** Steps 1 and 2 of TtMemoryFileCleanup, and all of TtMemoryProcessExit: the
        views, then the pinnings. */
    method DestroyLists(f: FileContext, ghost h: Handle)
      requires Valid() && AimsOk()
      requires FileMatches(kernel.holdings, h, f.View(), detached) && RegionsOk(f.View())
      modifies iatu.slots, iatu.regions, kernel, f
      ensures Valid() && f.View() == old(f.View()).(mappings := [], pinnings := [])
      ensures Tables() == Torn(old(Tables()), detached, PinRegions(old(f.pinnings)))
      ensures AimsOk() && SameOthers(old(kernel.holdings), kernel.holdings, h)
      ensures FileMatches(kernel.holdings, h, f.View(), detached) && RegionsOk(f.View())
    {
      ghost var k := kernel.holdings;
      ViewsChanged(k, h, f.View(), [], detached);
      f.DestroyMappings(kernel, h);
      ghost var k1 := kernel.holdings;
      DestroyPinnings(f, h);
      SameOthersTransitive(k, k1, kernel.holdings, h);
    }

    /** Steps 1 to 3 of TtMemoryFileCleanup, for a file no longer on the list. */
    method DestroyObjects(f: FileContext, ghost h: Handle)
      requires Valid() && |f.dmaBufs| == MAX_DMA_BUFS && AimsOk()
      requires FileMatches(kernel.holdings, h, f.View(), detached) && RegionsOk(f.View())
      modifies this`dmaBufBytes, iatu.slots, iatu.regions, kernel, f
      ensures Valid() && dmaBufBytes == old(dmaBufBytes) - SizeSum(old(f.dmaBufs))
      ensures Tables() == Torn(old(Tables()), detached, UsedRegions(old(f.View())) - {-1})
      ensures AimsOk() && SameOthers(old(kernel.holdings), kernel.holdings, h)
      ensures NothingHeld(kernel.holdings, h, detached)
    {
      ghost var g, k := f.View(), kernel.holdings;
      TornUsed(Tables(), detached, g);
      DestroyLists(f, h);
      ghost var k1 := kernel.holdings;
      DestroyBuffers(f, h);
      SameOthersTransitive(k, k1, kernel.holdings, h);
    }

    /** The delisting of TtEvtFileCleanup. */
    method Delist(h: Handle) returns (f: FileContext)
      requires Valid() && h in files
      modifies this`files
      ensures Valid() && f == old(files)[h] && f !in files.Values
      ensures View() == old(View()).(files := old(View()).files - {h})
    {
      ghost var s := View();
      f := files[h];
      files := files - {h};
      assert View().files == s.files - {h};
    }

    method ReleaseWindows(h: Handle)
      requires Valid()
      modifies pool.used, pool.owner
      ensures Valid() && View() == old(View()).(windows := Disowned(old(View()).windows, h))
    {
      pool.ReleaseOwned(h);
    }

    /** TtEvtFileCleanup's memory side. The walk over the handle's own objects
        leaves exactly what the owner-by-owner statement of Closed asks for, and
        the handle goes only when nothing is held for it. */
    method FileCleanup(h: Handle)
      requires Valid() && Matches(kernel.holdings, View()) && h in files && WalkIsComplete(View(), h)
      modifies this`files, this`dmaBufBytes, iatu.slots, iatu.regions, kernel, pool.used, pool.owner, files[h]
      ensures Valid() && View() == Closed(old(View()), h) && Matches(kernel.holdings, View())
    {
      ghost var s, k := View(), kernel.holdings;
      CleanUp(h);
      DropHandle(h, s, k);
    }

    /** The handle itself, at the end of its cleanup. */
    ghost method DropHandle(h: Handle, s: State, k: Holdings)
      requires Valid() && h in s.files && Matches(k, s) && View() == Closed(s, h)
      requires AimsOk() && SameOthers(k, kernel.holdings, h)
      requires NothingHeld(kernel.holdings, h, detached)
      modifies kernel
      ensures Valid() && View() == old(View()) && Matches(kernel.holdings, View())
    {
      CloseMatches(k, kernel.holdings, s, View(), h);
      kernel.CloseHandle(h);
    }

    /** The files on the list say what they said, if none was written to. */
    twostate lemma FilesUntouched()
      requires files == old(files) && forall f | f in files.Values :: unchanged(f)
      ensures Files() == old(Files())
    {
    }

    /** Destroying a delisted file leaves the list as it is. */
    method DestroyDelisted(f: FileContext, ghost h: Handle)
      requires Valid() && f !in files.Values && |f.dmaBufs| == MAX_DMA_BUFS && AimsOk()
      requires FileMatches(kernel.holdings, h, f.View(), detached) && RegionsOk(f.View())
      modifies this`dmaBufBytes, iatu.slots, iatu.regions, kernel, f
      ensures Valid()
      ensures View() == Released(old(View()), UsedRegions(old(f.View())) - {-1}).(bytes := old(View()).bytes - SizeSum(old(f.dmaBufs)))
      ensures AimsOk() && SameOthers(old(kernel.holdings), kernel.holdings, h)
      ensures NothingHeld(kernel.holdings, h, detached)
    {
      DestroyObjects(f, h);
      FilesUntouched();
    }

    /** CleanUp up to the handle's windows. */
    method DestroyFile(h: Handle)
      requires Valid() && h in files && |files[h].dmaBufs| == MAX_DMA_BUFS && AimsOk()
      requires FileMatches(kernel.holdings, h, files[h].View(), detached) && RegionsOk(files[h].View())
      modifies this`files, this`dmaBufBytes, iatu.slots, iatu.regions, kernel, files[h]
      ensures var s := old(View());
        && Valid()
        && View() == Released(s, UsedRegions(s.files[h]) - {-1}).(files := s.files - {h},
                                                                  bytes := s.bytes - SizeSum(s.files[h].bufs))
      ensures AimsOk() && SameOthers(old(kernel.holdings), kernel.holdings, h)
      ensures NothingHeld(kernel.holdings, h, detached)
    {
      ghost var s := View();
      ReleaseLeavesFiles(s, UsedRegions(s.files[h]) - {-1}, s.files - {h});
      var f := Delist(h);
      DestroyDelisted(f, h);
    }

    method CleanUp(h: Handle)
      requires Valid() && h in files && WalkIsComplete(View(), h)
      requires FileMatches(kernel.holdings, h, files[h].View(), detached)
      requires AimsOk()
      modifies this`files, this`dmaBufBytes, iatu.slots, iatu.regions, kernel, pool.used, pool.owner, files[h]
      ensures Valid() && View() == Closed(old(View()), h)
      ensures AimsOk() && SameOthers(old(kernel.holdings), kernel.holdings, h)
      ensures NothingHeld(kernel.holdings, h, detached)
    {
      DestroyFile(h);
      ReleaseWindows(h);
    }

    // --------------------------------------------------------------- process exit

    /** TtMemoryProcessExit. */
    method MemoryProcessExit(h: Handle)
      requires Valid() && h in files && AimsOk()
      requires FileMatches(kernel.holdings, h, files[h].View(), detached) && RegionsOk(files[h].View())
      modifies iatu.slots, iatu.regions, kernel, files[h]
      ensures Valid()
      ensures var s := old(View()); var f := s.files[h];
        View() == Released(s, PinRegions(f.pinnings)).(files := s.files[h := f.(mappings := [], pinnings := [])])
      ensures Moved(old(kernel.holdings), kernel.holdings, View(), h)
    {
      ghost var s := View();
      DestroyLists(files[h], h);
      assert View().files == s.files[h := s.files[h].(mappings := [], pinnings := [])];
    }

    /** One handle of the process-exit walk; todo holds those still to come. */
    method ExitOne(ghost s: State, p: Process, todo: set<Handle>, h: Handle)
      requires Valid() && h in todo && todo <= files.Keys
      requires s.files.Keys == files.Keys && AllRegionsOk(s) && |s.claims| == |s.apertures|
      requires View() == ExitedSoFar(s, p, files.Keys - todo) && Matches(kernel.holdings, View())
      modifies iatu.slots, iatu.regions, kernel, files[h]
      ensures Valid() && View() == ExitedSoFar(s, p, files.Keys - (todo - {h})) && Matches(kernel.holdings, View())
    {
      ghost var t, k := View(), kernel.holdings;
      ghost var done := files.Keys - todo;
      ExitNext(s, p, done, h);
      assert done + {h} == files.Keys - (todo - {h});
      assert t.files[h] == s.files[h] && t.files[h] == files[h].View();
      if files[h].creator == p {
        MemoryProcessExit(h);
        StepMatches(k, kernel.holdings, t, View(), h, View().files[h]);
      }
    }

    method ExitNextHandle(ghost s: State, p: Process, todo: set<Handle>) returns (rest: set<Handle>)
      requires Valid() && todo != {} && todo <= files.Keys
      requires s.files.Keys == files.Keys && AllRegionsOk(s) && |s.claims| == |s.apertures|
      requires View() == ExitedSoFar(s, p, files.Keys - todo) && Matches(kernel.holdings, View())
      modifies iatu.slots, iatu.regions, kernel, files.Values
      ensures Valid() && View() == ExitedSoFar(s, p, files.Keys - rest) && Matches(kernel.holdings, View())
      ensures rest < todo
    {
      var h :| h in todo;
      ExitOne(s, p, todo, h);
      rest := todo - {h};
    }

    /** The walk of TtProcessNotify over this device's handles. */
    method WalkHandles(p: Process)
      requires Valid() && Matches(kernel.holdings, View()) && AllRegionsOk(View())
      modifies iatu.slots, iatu.regions, kernel, files.Values
      ensures Valid() && View() == ExitedSoFar(old(View()), p, files.Keys - {}) && Matches(kernel.holdings, View())
    {
      ghost var s := View();
      var todo := files.Keys;
      ExitNobody(s, p);
      ghost var t := s;
      while todo != {}
        invariant Valid() && todo <= files.Keys && View() == t && Matches(kernel.holdings, t)
        invariant t == ExitedSoFar(s, p, files.Keys - todo)
        decreases todo
      {
        todo := ExitNextHandle(s, p, todo);
        t := View();
      }
    }

    /** What TtProcessNotify does to one device. Nothing stays held for the process
        but its handles' buffers. */
    method ProcessExit(p: Process)
      requires Valid() && Matches(kernel.holdings, View()) && AllRegionsOk(View())
      modifies this`dead, iatu.slots, iatu.regions, kernel, files.Values
      ensures Valid() && View() == Exited(old(View()), p) && Matches(kernel.holdings, View())
      ensures NothingHeldFor(kernel.holdings, View(), p)
    {
      ghost var s := View();
      WalkHandles(p);
      assert files.Keys - {} == s.files.Keys;
      EndProcess(s, p);
      ExitHoldsNothing(kernel.holdings, s, p);
    }

    ghost method EndProcess(s: State, p: Process)
      requires Valid() && View() == ExitedSoFar(s, p, s.files.Keys)
      modifies this`dead
      ensures Valid() && View() == Exited(s, p)
    {
      ExitEverybody(s, p);
      dead := dead + {p};
    }

    // ------------------------------------------------------------ reset, removal

    /** One handle of the zap; todo holds those still to come. */
    method ZapOne(ghost s: State, todo: set<Handle>, h: Handle)
      requires Valid() && h in todo && todo <= files.Keys && s.files.Keys == files.Keys
      requires View() == ZappedSoFar(s, files.Keys - todo) && Matches(kernel.holdings, View())
      modifies kernel, files[h]
      ensures Valid() && View() == ZappedSoFar(s, files.Keys - (todo - {h})) && Matches(kernel.holdings, View())
    {
      ghost var t, k := View(), kernel.holdings;
      ZapNext(s, files.Keys - todo, h);
      assert files.Keys - todo + {h} == files.Keys - (todo - {h});
      ViewsChanged(k, h, t.files[h], DmaViews(t.files[h].mappings), detached);
      ZapFile(h);
      StepMatches(k, kernel.holdings, t, View(), h, View().files[h]);
    }

    method ZapFile(h: Handle)
      requires Valid() && h in files && h in kernel.holdings.views && kernel.holdings.views[h] == files[h].mappings
      modifies kernel, files[h]
      ensures Valid()
      ensures var s, ms := old(View()), DmaViews(old(files[h].mappings));
        && View() == s.(files := s.files[h := s.files[h].(mappings := ms)])
        && kernel.holdings == WithViews(old(kernel.holdings), h, ms)
    {
      ghost var s := View();
      files[h].ZapMappings(kernel, h);
      assert View().files == s.files[h := files[h].View()];
    }

    /** TtResetZapMappings. */
    method ZapMappings()
      requires Valid() && Matches(kernel.holdings, View())
      modifies kernel, files.Values
      ensures Valid() && View() == Zapped(old(View())) && Matches(kernel.holdings, View())
    {
      ghost var s := View();
      var todo := files.Keys;
      ZapNobody(s);
      ghost var t := s;
      while todo != {}
        invariant Valid() && todo <= files.Keys && View() == t && Matches(kernel.holdings, t)
        invariant t == ZappedSoFar(s, files.Keys - todo)
        decreases todo
      {
        var h :| h in todo;
        ZapOne(s, todo, h);
        todo, t := todo - {h}, View();
      }
      assert files.Keys - todo == s.files.Keys - {};
      ZapEverybody(s);
    }

    /** The generation step of TtBumpResetGen; waking the lock waiters is the lock
        model's. */
    method BumpResetGen(h: Handle)
      requires Valid() && h in files
      modifies this`resetGen, files[h]
      ensures Valid() && View() == Bumped(old(View()), h)
    {
      ghost var s := View();
      resetGen := resetGen + 1;
      files[h].openResetGen := resetGen;
      assert View().files == s.files[h := s.files[h].(openGen := s.gen + 1)];
    }

    /** TtEvtDeviceSurpriseRemoval. */
    method SurpriseRemoval()
      requires Valid() && Matches(kernel.holdings, View())
      modifies this`detached, kernel, files.Values
      ensures Valid() && View() == Removed(old(View())) && Matches(kernel.holdings, View())
    {
      GoneMatches(kernel.holdings, View());
      SetDetached();
      ZapMappings();
    }

    method SetDetached()
      requires Valid()
      modifies this`detached
      ensures Valid() && View() == old(View()).(detached := true)
    {
      detached := true;
    }

    /** TtIoctlResetDevice. */
    method ResetDevice(h: Handle, flags: nat, env: ResetEnv) returns (reply: ResetReply)
      requires Valid() && h in files && Matches(kernel.holdings, View())
      modifies this`resetGen, this`needsHwInit, kernel, files.Values
      ensures Valid() && (View(), reply) == LifecycleOps.Reset(old(View()), h, flags, env)
      ensures Matches(kernel.holdings, View())
    {
      var gate := CheckIoGates(h, NR_RESET_DEVICE);
      if gate != Success {
        return ResetReply(gate, 0);
      }
      if flags > POST_RESET {
        return ResetReply(InvalidParameter, 0);
      }
      var ok := RunReset(h, flags, env);
      reply := ResetReply(if env.outputOk then Success else AccessViolation, if ok then 0 else 1);
    }

    /** The switch of TtIoctlResetDevice. */
    method RunReset(h: Handle, flags: nat, env: ResetEnv) returns (ok: bool)
      requires Valid() && h in files && flags <= POST_RESET && Matches(kernel.holdings, View())
      modifies this`resetGen, this`needsHwInit, kernel, files.Values
      ensures Valid() && View() == ResetState(old(View()), h, flags) && ok == ResetOk(old(View()), flags, env)
      ensures Matches(kernel.holdings, View())
    {
      if flags == RESTORE_STATE {
        ok := env.hardwareOk;
      } else if flags == RESET_PCIE_LINK {
        ZapMappings();
        ok := env.hardwareOk;
      } else if flags == POST_RESET {
        ok := env.markerZero;
        if needsHwInit {
          SetNeedsHwInit(false);
          ok := ok && env.hardwareOk;
        }
      } else if !FlagPermitted(cfg, flags) {
        ok := false;
      } else {
        StartGeneration(h);
        ok := flags == USER_RESET || (env.hardwareOk && (flags == CONFIG_WRITE || cfg.isBlackhole));
        if flags != CONFIG_WRITE {
          SetNeedsHwInit(true);
        }
      }
    }

    method StartGeneration(h: Handle)
      requires Valid() && h in files && Matches(kernel.holdings, View())
      modifies this`resetGen, kernel, files.Values
      ensures Valid() && View() == NewGeneration(old(View()), h) && Matches(kernel.holdings, View())
    {
      BumpMatches(kernel.holdings, View(), h);
      BumpResetGen(h);
      ZapMappings();
    }

    method SetNeedsHwInit(needed: bool)
      requires Valid()
      modifies this`needsHwInit
      ensures Valid() && View() == old(View()).(needsHwInit := needed)
    {
      needsHwInit := needed;
    }
  }
}
