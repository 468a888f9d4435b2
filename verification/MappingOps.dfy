/** MAP, UNMAP, PIN_PAGES and UNPIN_PAGES as transitions of the device state. */
module MappingOps {
  import opened Common
  import opened Iatu
  import opened WindowGeometry
  import opened TlbTokens
  import opened MemoryState
  import opened MemoryOps

  // ------------------------------------------------------------------------ MAP

  datatype Resolution =
    | Refused(status: Status)
    | Resolved(physical: nat, cache: Cache, tlbId: int, dmaBuf: Option<DmaBuf>)

  function CacheOf(wc: bool): Cache {
    if wc then WriteCombined else NonCached
  }

  /** TtResolveMapTarget: the decoded token against the device's state. */
  function Resolve(s: State, h: Handle, token: nat, length: nat): Resolution
    requires ConfigOk(s.cfg) && |s.windows| == WINDOWS_TOTAL && h in s.files && |s.files[h].bufs| == MAX_DMA_BUFS
  {
    match Decode(token, length)
    case DmaSlot(i) =>
      var slot := s.files[h].bufs[i];
      if slot.None? || length > slot.value.size then Refused(InvalidParameter)
      else Resolved(slot.value.cpu, Cached, -1, slot)
    case BarRange(bar, offset, wc) =>
      var size := s.cfg.barLength[bar];
      if size == 0 || offset >= size || length > size - offset then Refused(InvalidParameter)
      else Resolved(s.cfg.barBase[bar] + offset, CacheOf(wc), -1, None)
    case TlbWindow(id, bar, offset, wc) =>
      var size := s.cfg.barLength[bar];
      if id >= WINDOWS_TOTAL || size == 0 || offset + length > size then Refused(InvalidParameter)
      else if s.windows[id] != Some(h) then Refused(AccessDenied)
      else Resolved(s.cfg.barBase[bar] + offset, CacheOf(wc), id, None)
    case NoTarget => Refused(InvalidParameter)
  }

  /** A user address that is not NULL, which stands for a mapping that failed. */
  type UserVa = x: nat | x != 0 witness 1

  datatype MapEnv = MapEnv(poolOk: bool, mdlOk: bool, va: Option<UserVa>, outputOk: bool)

  predicate MapArgumentsOk(token: nat, length: nat) {
    length != 0 && length % PAGE == 0 && token % PAGE == 0 && length <= MAXULONG
  }

  function Map(s: State, h: Handle, caller: Process, token: nat, length: nat, env: MapEnv): (State, Status)
    requires ConfigOk(s.cfg) && |s.windows| == WINDOWS_TOTAL && h in s.files && |s.files[h].bufs| == MAX_DMA_BUFS
  {
    if CallerGate(s, h, NR_MARKER, caller) != Success then (s, CallerGate(s, h, NR_MARKER, caller))
    else if !MapArgumentsOk(token, length) then (s, InvalidParameter)
    else match Resolve(s, h, token, length)
      case Refused(status) => (s, status)
      case Resolved(physical, cache, tlbId, dmaBuf) =>
        if !env.poolOk || !env.mdlOk || env.va.None? then (s, NoResources)
        else if !env.outputOk then (s, AccessViolation)
        else
          var m := Mapping(env.va.value, length, physical, cache, tlbId, token >= DMA_BUFS, dmaBuf, caller);
          var f := s.files[h];
          (s.(files := s.files[h := f.(mappings := f.mappings + [m])]), Success)
  }

  /** A resolved target is a view the invariant allows. */
  lemma ResolvedIsOk(s: State, h: Handle, token: nat, length: nat, va: nat)
    requires Inv(s) && h in s.files && FileOkSlots(s.files[h]) && Current(s, h) && length > 0
    requires Resolve(s, h, token, length).Resolved?
    ensures var r := Resolve(s, h, token, length); var f := s.files[h];
      MapOk(s, h, f, Mapping(va, length, r.physical, r.cache, r.tlbId, token >= DMA_BUFS, r.dmaBuf, f.creator))
  {
  }

  lemma MapKeepsInv(s: State, h: Handle, caller: Process, token: nat, length: nat, env: MapEnv)
    requires Inv(s) && h in s.files && FileOkSlots(s.files[h]) && caller !in s.dead
    ensures Inv(Map(s, h, caller, token, length, env).0)
  {
    var (s', status) := Map(s, h, caller, token, length, env);
    if status == Success {
      var f, f' := s.files[h], s'.files[h];
      ResolvedIsOk(s, h, token, length, env.va.value);
      MappingsChanged(s, s', h, f, f');
      UpdateKeepsInv(s, s', h, f');
    }
  }

  /** Only the list of mappings differs, and every entry is allowed. */
  lemma MappingsChanged(s: State, s': State, h: Handle, f: File, f': File)
    requires |s.claims| == |s.apertures| == REGIONS && FileOk(s, h, f)
    requires f' == f.(mappings := f'.mappings) && s' == s.(files := s'.files)
    requires forall k | 0 <= k < |f'.mappings| :: MapOk(s, h, f, f'.mappings[k]) || f'.mappings[k] in f.mappings
    requires f.creator in s.dead ==> f'.mappings == []
    ensures FileOk(s', h, f')
  {
    SameRegionsOk(s, s', h, f);
    forall k | 0 <= k < |f'.mappings|
      ensures MapOk(s', h, f', f'.mappings[k])
    {
      assert MapOk(s, h, f, f'.mappings[k]);
    }
    assert PinsOk(s', h, f') by {
      forall k | 0 <= k < |f.pinnings|
        ensures PinOk(s', h, f', f.pinnings[k])
      {
        assert PinOk(s', h, f, f.pinnings[k]);
      }
    }
    assert UsedRegions(f') == UsedRegions(f);
  }

  /** The token round trip at the handler: the token ALLOCATE_TLB reports for a
      window resolves, for its owner and for nobody else, to exactly that window,
      at its start, with the cache type of the token, for any length inside it. */
  lemma WindowTokenResolvesIff(s: State, h: Handle, id: nat, wc: bool, length: nat)
    requires ConfigOk(s.cfg) && TablesOk(s) && h in s.files && |s.files[h].bufs| == MAX_DMA_BUFS
    requires s.cfg.isBlackhole && Describe(s.cfg.tlb4gCount, id).Some?
    requires length <= Describe(s.cfg.tlb4gCount, id).value.size
    ensures var w := Describe(s.cfg.tlb4gCount, id).value;
      Resolve(s, h, WindowToken(w, wc), length) ==
        if s.windows[id] == Some(h) then Resolved(s.cfg.barBase[w.bar] + w.offset, CacheOf(wc), id, None)
        else Refused(AccessDenied)
  {
    WindowRoundTrip(s.cfg.tlb4gCount, id, wc, length);
    WindowsFit(s.cfg, id);
  }

  /** Every window the device has lies inside its BAR. */
  lemma WindowsFit(c: Config, id: nat)
    requires ConfigOk(c) && c.isBlackhole && Describe(c.tlb4gCount, id).Some?
    ensures var w := Describe(c.tlb4gCount, id).value; (w.bar == 0 || w.bar == 4) && w.offset + w.size <= c.barLength[w.bar]
  {
    if id >= WINDOWS_2M {
      assert c.tlb4gCount * SIZE_4G <= c.barLength[4];
      assert (id - WINDOWS_2M + 1) * SIZE_4G <= c.tlb4gCount * SIZE_4G;
    }
  }

  /** With the kernel's own calls succeeding, the owner's MAP of a whole number of
      pages of its window succeeds if and only if the length fits in 32 bits. */
  lemma OwnWindowMapsIff(s: State, h: Handle, id: nat, wc: bool, length: nat, env: MapEnv)
    requires ConfigOk(s.cfg) && TablesOk(s) && Current(s, h) && |s.files[h].bufs| == MAX_DMA_BUFS
    requires id < WINDOWS_TOTAL && s.windows[id] == Some(h)
    requires 0 < length <= Describe(s.cfg.tlb4gCount, id).value.size && length % PAGE == 0
    requires env.poolOk && env.mdlOk && env.va.Some? && env.outputOk
    ensures var token := WindowToken(Describe(s.cfg.tlb4gCount, id).value, wc);
      Map(s, h, s.files[h].creator, token, length, env).1 == Success <==> length <= MAXULONG
  {
    WindowTokenResolvesIff(s, h, id, wc, length);
    TokensArePages(s.cfg.tlb4gCount, id, wc);
  }

  /** So no 4 GiB window can be mapped whole. */
  lemma WholeBigWindowRefused(s: State, h: Handle, id: nat, wc: bool, env: MapEnv)
    requires ConfigOk(s.cfg) && TablesOk(s) && Current(s, h) && |s.files[h].bufs| == MAX_DMA_BUFS
    requires WINDOWS_2M <= id < WINDOWS_TOTAL && s.windows[id] == Some(h)
    ensures var token := WindowToken(Describe(s.cfg.tlb4gCount, id).value, wc);
      Map(s, h, s.files[h].creator, token, SIZE_4G, env) == (s, InvalidParameter)
  {
  }

  lemma TokensArePages(tlb4gCount: nat, id: nat, wc: bool)
    requires Describe(tlb4gCount, id).Some?
    ensures WindowToken(Describe(tlb4gCount, id).value, wc) % PAGE == 0
  {
  }

  /** A view that MAP ties to window id lies inside that window if and only if its
      token was a BAR4 one or named one of the 202 small windows. BAR0 and BAR4
      are different ranges of the bus. */
  lemma ViewInsideItsWindowIff(s: State, h: Handle, token: nat, length: nat)
    requires ConfigOk(s.cfg) && TablesOk(s) && h in s.files && |s.files[h].bufs| == MAX_DMA_BUFS
    requires s.cfg.barBase[0] + s.cfg.barLength[0] <= s.cfg.barBase[4] || s.cfg.barBase[4] + s.cfg.barLength[4] <= s.cfg.barBase[0]
    requires length > 0 && Resolve(s, h, token, length).Resolved? && Resolve(s, h, token, length).tlbId != -1
    ensures var r := Resolve(s, h, token, length); var t := Decode(token, length);
      && t.TlbWindow? && r.tlbId == t.id && Describe(s.cfg.tlb4gCount, t.id).Some?
      && var w := Describe(s.cfg.tlb4gCount, t.id).value;
      && var start := s.cfg.barBase[w.bar] + w.offset;
      start <= r.physical && r.physical + length <= start + w.size <==> t.bar == 4 || t.id < WINDOWS_2M
  {
    WindowsFit(s.cfg, Decode(token, length).id);
  }

  /** The owner of the first big window reaches 2 MiB of BAR0 that belong to no
      window, under that window's id. */
  lemma ViewOutsideItsWindow(s: State, h: Handle)
    requires ConfigOk(s.cfg) && TablesOk(s) && h in s.files && |s.files[h].bufs| == MAX_DMA_BUFS
    requires s.windows[WINDOWS_2M] == Some(h)
    ensures Resolve(s, h, TLB_UC + WINDOWS_2M * SIZE_2M, SIZE_2M) ==
            Resolved(s.cfg.barBase[0] + WINDOWS_2M * SIZE_2M, NonCached, WINDOWS_2M, None)
    ensures Describe(s.cfg.tlb4gCount, WINDOWS_2M) == Some(Window(4, 0, SIZE_4G))
  {
  }

  // ---------------------------------------------------------------------- UNMAP

  function MappingVas(ms: seq<Mapping>): (vas: seq<nat>)
    ensures |vas| == |ms| && forall k | 0 <= k < |ms| :: vas[k] == ms[k].va
  {
    seq(|ms|, k requires 0 <= k < |ms| => ms[k].va)
  }

  function PinVas(ps: seq<Pinning>): (vas: seq<nat>)
    ensures |vas| == |ps| && forall k | 0 <= k < |ps| :: vas[k] == ps[k].va
  {
    seq(|ps|, k requires 0 <= k < |ps| => ps[k].va)
  }

  /** Where a list walk by address stops: the first entry at va, or the end. */
  function FirstAt(vas: seq<nat>, va: nat): (k: nat)
    ensures k <= |vas| && (k < |vas| ==> vas[k] == va)
    ensures forall j | 0 <= j < k :: vas[j] != va
    decreases |vas|
  {
    if vas == [] || vas[0] == va then 0
    else
      assert forall j | 0 < j < |vas| :: vas[j] == vas[1..][j - 1];
      1 + FirstAt(vas[1..], va)
  }

  function Unmap(s: State, h: Handle, caller: Process, va: nat, reserved: nat): (State, Status)
    requires h in s.files
  {
    if CallerGate(s, h, NR_MARKER, caller) != Success then (s, CallerGate(s, h, NR_MARKER, caller))
    else if reserved != 0 then (s, InvalidParameter)
    else
      var f := s.files[h];
      var k := FirstAt(MappingVas(f.mappings), va);
      if k == |f.mappings| then (s, InvalidParameter)
      else (s.(files := s.files[h := f.(mappings := RemoveAt(f.mappings, k))]), Success)
  }

  lemma UnmapKeepsInv(s: State, h: Handle, caller: Process, va: nat, reserved: nat)
    requires Inv(s) && h in s.files
    ensures Inv(Unmap(s, h, caller, va, reserved).0)
  {
    if Unmap(s, h, caller, va, reserved).1 == Success {
      UnmappedKeepsInv(s, h, FirstAt(MappingVas(s.files[h].mappings), va));
    }
  }

  lemma UnmappedKeepsInv(s: State, h: Handle, k: nat)
    requires Inv(s) && h in s.files && k < |s.files[h].mappings|
    ensures var f := s.files[h]; Inv(s.(files := s.files[h := f.(mappings := RemoveAt(f.mappings, k))]))
  {
    var f := s.files[h];
    var f' := f.(mappings := RemoveAt(f.mappings, k));
    var s' := s.(files := s.files[h := f']);
    MappingsChanged(s, s', h, f, f');
    UpdateKeepsInv(s, s', h, f');
  }

  // ------------------------------------------------------------------ PIN_PAGES

  ghost predicate InView(m: Mapping, va: nat, size: nat) {
    m.isDmaBuf && m.dmaBuf.Some? && m.va <= va && va + size <= m.va + m.length
  }

  /** TtFindDmaBufView: the first view that contains the range, and the offset
      of the range in its buffer. */
  ghost function FindView(ms: seq<Mapping>, va: nat, size: nat): Option<(DmaBuf, nat)>
    decreases |ms|
  {
    if ms == [] then None
    else if InView(ms[0], va, size) then Some((ms[0].dmaBuf.value, va - ms[0].va))
    else FindView(ms[1..], va, size)
  }

  /** None if and only if no view contains the range; otherwise the buffer of the
      first that does. */
  lemma {:induction false} FindViewFindsFirst(ms: seq<Mapping>, va: nat, size: nat) returns (k: nat)
    ensures k <= |ms| && forall j | 0 <= j < k :: !InView(ms[j], va, size)
    ensures FindView(ms, va, size) ==
      if k < |ms| && InView(ms[k], va, size) then Some((ms[k].dmaBuf.value, va - ms[k].va)) else None
    ensures k < |ms| ==> InView(ms[k], va, size)
    decreases |ms|
  {
    if ms == [] || InView(ms[0], va, size) {
      k := 0;
    } else {
      var i := FindViewFindsFirst(ms[1..], va, size);
      k := i + 1;
    }
  }

  const MAX_PFN: nat := 0x10_0000_0000_0000

  datatype PinFlags = PinFlags(contiguous: bool, nocDma: bool, topDown: bool, readOnly: bool, unknown: bool)
  datatype PinRequest = PinRequest(va: nat, size: nat, flags: PinFlags)

  /** What the pool, MDL, page-locking and output-buffer calls return; pfns are
      the page frames of the locked range. */
  datatype PinEnv = PinEnv(poolOk: bool, mdlOk: bool, lockOk: bool, pfns: seq<nat>, outputOk: bool)

  /** One frame per page, and physical addresses of at most 64 bits. */
  ghost predicate PinEnvOk(q: PinRequest, env: PinEnv) {
    (env.lockOk ==> |env.pfns| == q.size / PAGE) && forall k | 0 <= k < |env.pfns| :: env.pfns[k] < MAX_PFN
  }

  ghost predicate AlreadyPinned(ps: seq<Pinning>, va: nat, size: nat) {
    exists k | 0 <= k < |ps| :: ps[k].va == va && ps[k].size == size
  }

  ghost predicate Contiguous(pfns: seq<nat>) {
    forall k | 0 < k < |pfns| :: pfns[k] == pfns[k - 1] + 1
  }

  predicate WantsNoc(flags: PinFlags) {
    flags.nocDma || flags.topDown
  }

  predicate PinArgumentsOk(q: PinRequest) {
    q.va % PAGE == 0 && q.size % PAGE == 0 && q.size != 0 && q.size <= MAXULONG
  }

  /** The address checks of PIN_PAGES: a view of an own buffer needs no locking;
      anything else needs an identity domain and consecutive locked pages. */
  ghost function TargetRefusal(s: State, f: File, q: PinRequest, env: PinEnv): Status {
    var view := FindView(f.mappings, q.va, q.size);
    if view.None? && !s.cfg.identityDomain then NotSupported
    else if !env.poolOk then NoResources
    else if view.Some? then Success
    else if !env.mdlOk then NoResources
    else if !env.lockOk then AccessViolation
    else if !Contiguous(env.pfns) then InvalidParameter
    else Success
  }

  /** The gate, argument and duplicate checks of PIN_PAGES. */
  ghost function PinRequestRefusal(s: State, h: Handle, caller: Process, q: PinRequest): Status
    requires h in s.files
  {
    if CallerGate(s, h, NR_PIN_PAGES, caller) != Success then CallerGate(s, h, NR_PIN_PAGES, caller)
    else if q.flags.unknown || !PinArgumentsOk(q) then InvalidParameter
    else if q.flags.readOnly then NotSupported
    else if AlreadyPinned(s.files[h].pinnings, q.va, q.size) then NameCollision
    else Success
  }

  /** The first check that refuses a PIN_PAGES, in the handler's order. */
  ghost function PinRefusal(s: State, h: Handle, caller: Process, q: PinRequest, env: PinEnv): Status
    requires h in s.files
  {
    if PinRequestRefusal(s, h, caller, q) != Success then PinRequestRefusal(s, h, caller, q)
    else if TargetRefusal(s, s.files[h], q, env) != Success then TargetRefusal(s, s.files[h], q, env)
    else if WantsNoc(q.flags) && !CanSetUp(s.claims, q.size) then NoResources
    else if !env.outputOk then AccessViolation
    else Success
  }

  /** The device address of the range: inside the backing buffer, or the first
      locked page. */
  ghost function PinPhysical(f: File, q: PinRequest, env: PinEnv): nat
    requires FindView(f.mappings, q.va, q.size).Some? || |env.pfns| > 0
  {
    var view := FindView(f.mappings, q.va, q.size);
    if view.Some? then view.value.0.logical + view.value.1 else env.pfns[0] * PAGE
  }

  ghost function PinBacking(f: File, q: PinRequest): Option<DmaBuf> {
    var view := FindView(f.mappings, q.va, q.size);
    if view.Some? then Some(view.value.0) else None
  }

  ghost predicate Pins(s: State, h: Handle, caller: Process, q: PinRequest, env: PinEnv, s': State, status: Status, p: Pinning)
    requires h in s.files && PinEnvOk(q, env)
  {
    && status == PinRefusal(s, h, caller, q, env)
    && if status != Success then s' == s
       else
         var f := s.files[h];
         && p == Pinning(q.va, q.size, PinPhysical(f, q, env), PinBacking(f, q), p.region, p.noc)
         && s' == s.(claims := s'.claims, apertures := s'.apertures,
                     files := s.files[h := f.(pinnings := f.pinnings + [p])])
         && if WantsNoc(q.flags)
            then SetUp(s.claims, s'.claims, s.apertures, s'.apertures, h, q.flags.topDown, q.size, p.physical, p.noc, p.region)
            else s'.claims == s.claims && s'.apertures == s.apertures && p.region == -1 && p.noc == 0
  }

  /** A range inside a view of a live buffer is inside the buffer. */
  lemma ViewInsideBuffer(s: State, h: Handle, va: nat, size: nat)
    requires Inv(s) && h in s.files && FindView(s.files[h].mappings, va, size).Some?
    ensures var (b, offset) := FindView(s.files[h].mappings, va, size).value;
      Live(s.files[h], b) && offset + size <= b.size && b.logical + b.size - 1 <= NOC_DMA_LIMIT
  {
    var f := s.files[h];
    var k := FindViewFindsFirst(f.mappings, va, size);
    assert MapOk(s, h, f, f.mappings[k]);
    var b := f.mappings[k].dmaBuf.value;
    assert BufOk(s, h, b.index, b);
  }

  /** Every buffer a view shows lies within the device's reach. */
  ghost predicate ViewsInReach(f: File) {
    forall k | 0 <= k < |f.mappings| && f.mappings[k].dmaBuf.Some? ::
      var b := f.mappings[k].dmaBuf.value; f.mappings[k].length <= b.size && b.logical + b.size - 1 <= NOC_DMA_LIMIT
  }

  lemma ViewsAreInReach(s: State, h: Handle)
    requires Inv(s) && h in s.files
    ensures ViewsInReach(s.files[h])
  {
    var f := s.files[h];
    forall k | 0 <= k < |f.mappings| && f.mappings[k].dmaBuf.Some?
      ensures var b := f.mappings[k].dmaBuf.value; f.mappings[k].length <= b.size && b.logical + b.size - 1 <= NOC_DMA_LIMIT
    {
      var b := f.mappings[k].dmaBuf.value;
      assert MapOk(s, h, f, f.mappings[k]);
      assert BufOk(s, h, b.index, b);
    }
  }

  lemma PinKeepsInv(s: State, h: Handle, caller: Process, q: PinRequest, env: PinEnv, s': State, status: Status, p: Pinning)
    requires Inv(s) && h in s.files && FileOk(s, h, s.files[h]) && caller !in s.dead && PinEnvOk(q, env)
    requires Pins(s, h, caller, q, env, s', status, p)
    ensures Inv(s')
  {
    if status == Success {
      var f := s.files[h];
      var f' := f.(pinnings := f.pinnings + [p]);
      if p.backing.Some? {
        ViewInsideBuffer(s, h, q.va, q.size);
      }
      if WantsNoc(q.flags) {
        SetUpRoutes(s, s', h, q.flags.topDown, q.size, p.physical, p.noc, p.region);
      }
      PinAdded(s, s', h, f, p);
      UpdateKeepsInv(s, s', h, f');
    }
  }

  lemma PinAdded(s: State, s': State, h: Handle, f: File, p: Pinning)
    requires FileOkAndNew(s, s', h, f, p.region) && PinOk(s', h, f, p)
    requires !AlreadyPinned(f.pinnings, p.va, p.size) && f.creator !in s.dead
    ensures FileOk(s', h, f.(pinnings := f.pinnings + [p]))
  {
    var f' := f.(pinnings := f.pinnings + [p]);
    OldObjectsOk(s, s', h, f, p.region);
    forall k | 0 <= k < |f'.pinnings|
      ensures PinOk(s', h, f', f'.pinnings[k])
    {
      assert k < |f.pinnings| ==> PinOk(s', h, f, f.pinnings[k]);
    }
    assert MapsOk(s', h, f') by {
      forall k | 0 <= k < |f.mappings|
        ensures MapOk(s', h, f', f.mappings[k])
      {
        assert MapOk(s', h, f, f.mappings[k]);
      }
    }
    PinRegionsGrow(f, p);
    PinRegionsStayDistinct(f, p);
  }

  lemma PinRegionsStayDistinct(f: File, p: Pinning)
    requires RegionsDistinct(f) && p.region !in UsedRegions(f) - {-1}
    ensures RegionsDistinct(f.(pinnings := f.pinnings + [p]))
  {
    forall i | 0 <= i < |f.bufs| && f.bufs[i].Some? && p.region != -1
      ensures f.bufs[i].value.region != p.region
    {
      assert f.bufs[i].value.region in UsedRegions(f);
    }
    forall k | 0 <= k < |f.pinnings| && p.region != -1
      ensures f.pinnings[k].region != p.region
    {
      assert f.pinnings[k].region in UsedRegions(f);
    }
  }

  lemma PinRegionsGrow(f: File, p: Pinning)
    ensures UsedRegions(f.(pinnings := f.pinnings + [p])) == UsedRegions(f) + {p.region}
  {
    var ps := f.pinnings + [p];
    assert ps[|f.pinnings|].region == p.region;
    forall r | r in PinRegions(f.pinnings)
      ensures r in PinRegions(ps)
    {
      var k :| 0 <= k < |f.pinnings| && f.pinnings[k].region == r;
      assert ps[k].region == r;
    }
  }

  /** On the direct path every byte of the range sits at the reported physical
      address plus its offset: the frames are consecutive from the first. */
  lemma {:induction false} FramesAreLinear(pfns: seq<nat>, k: nat)
    requires Contiguous(pfns) && k < |pfns| * PAGE
    ensures pfns[k / PAGE] * PAGE + k % PAGE == pfns[0] * PAGE + k
    decreases k
  {
    if k >= PAGE {
      FramesAreLinear(pfns, k - PAGE);
      assert pfns[k / PAGE] == pfns[k / PAGE - 1] + 1;
    }
  }

  /** So a directly pinned range is linear: page frame and offset of any byte give
      the reported physical address plus the byte's offset in the range. */
  lemma DirectPinIsLinear(s: State, h: Handle, caller: Process, q: PinRequest, env: PinEnv,
                          s': State, status: Status, p: Pinning, k: nat)
    requires h in s.files && PinEnvOk(q, env) && Pins(s, h, caller, q, env, s', status, p)
    requires status == Success && p.backing.None? && k < q.size
    ensures k / PAGE < |env.pfns| && env.pfns[k / PAGE] * PAGE + k % PAGE == p.physical + k
  {
    FramesAreLinear(env.pfns, k);
  }

  // ---------------------------------------------------------------- UNPIN_PAGES

  function Unpinned(s: State, h: Handle, k: nat): State
    requires h in s.files && k < |s.files[h].pinnings|
  {
    var f := s.files[h];
    Released(s, {f.pinnings[k].region}).(files := s.files[h := f.(pinnings := RemoveAt(f.pinnings, k))])
  }

  /** UNPIN_PAGES stops at the first pinning with the address, whatever its
      size. */
  function Unpin(s: State, h: Handle, caller: Process, va: nat, size: nat, reserved: nat): (State, Status)
    requires h in s.files
  {
    if CallerGate(s, h, NR_UNPIN_PAGES, caller) != Success then (s, CallerGate(s, h, NR_UNPIN_PAGES, caller))
    else if reserved != 0 || size < PAGE then (s, InvalidParameter)
    else
      var ps := s.files[h].pinnings;
      var k := FirstAt(PinVas(ps), va);
      if k == |ps| || ps[k].size != size then (s, InvalidParameter)
      else (Unpinned(s, h, k), Success)
  }

  lemma UnpinKeepsInv(s: State, h: Handle, caller: Process, va: nat, size: nat, reserved: nat)
    requires Inv(s) && h in s.files
    ensures Inv(Unpin(s, h, caller, va, size, reserved).0)
  {
    if Unpin(s, h, caller, va, size, reserved).1 == Success {
      UnpinnedKeepsInv(s, h, FirstAt(PinVas(s.files[h].pinnings), va));
    }
  }

  lemma UnpinnedKeepsInv(s: State, h: Handle, k: nat)
    requires Inv(s) && h in s.files && k < |s.files[h].pinnings|
    ensures Inv(Unpinned(s, h, k))
  {
    UnpinnedIsMine(s, h, k);
    UpdateKeepsInv(s, Unpinned(s, h, k), h, Unpinned(s, h, k).files[h]);
  }

  lemma UnpinnedIsMine(s: State, h: Handle, k: nat)
    requires TablesOk(s) && h in s.files && FileOk(s, h, s.files[h]) && k < |s.files[h].pinnings|
    ensures var s' := Unpinned(s, h, k); OnlyFor(s, s', h) && TablesOk(s') && FileOk(s', h, s'.files[h])
  {
    ReleasedTables(s, {s.files[h].pinnings[k].region});
    PinRemoved(s, Unpinned(s, h, k), h, s.files[h], k);
  }

  lemma PinListShrinks(f: File, k: nat)
    requires k < |f.pinnings| && PinsDistinct(f.pinnings) && RegionsDistinct(f)
    ensures var f' := f.(pinnings := RemoveAt(f.pinnings, k)); PinsDistinct(f'.pinnings) && RegionsDistinct(f')
    ensures UsedRegions(f) - {f.pinnings[k].region} <= UsedRegions(f.(pinnings := RemoveAt(f.pinnings, k)))
  {
    var qs := RemoveAt(f.pinnings, k);
    assert forall j | 0 <= j < |qs| :: qs[j] == f.pinnings[if j < k then j else j + 1];
    forall r | r in PinRegions(f.pinnings) && r != f.pinnings[k].region
      ensures r in PinRegions(qs)
    {
      var j :| 0 <= j < |f.pinnings| && f.pinnings[j].region == r;
      assert qs[if j < k then j else j - 1].region == r;
    }
  }

  lemma PinRemoved(s: State, s': State, h: Handle, f: File, k: nat)
    requires |s.claims| == |s.apertures| == REGIONS && FileOk(s, h, f) && k < |f.pinnings|
    requires s' == Released(s, {f.pinnings[k].region}).(files := s'.files)
    ensures FileOk(s', h, f.(pinnings := RemoveAt(f.pinnings, k)))
    ensures forall r | 0 <= r < REGIONS && r == f.pinnings[k].region :: Owned(s.claims, r, h)
  {
    var p, f' := f.pinnings[k], f.(pinnings := RemoveAt(f.pinnings, k));
    assert PinOk(s, h, f, p);
    PinListShrinks(f, k);
    assert BufsOk(s', h, f') by {
      forall i | 0 <= i < |f.bufs| && f.bufs[i].Some?
        ensures BufOk(s', h, i, f.bufs[i].value)
      {
        assert BufOk(s, h, i, f.bufs[i].value);
      }
    }
    OtherPinsOk(s, s', h, f, k);
    assert MapsOk(s', h, f') by {
      forall j | 0 <= j < |f.mappings|
        ensures MapOk(s', h, f', f.mappings[j])
      {
        assert MapOk(s, h, f, f.mappings[j]);
      }
    }
    forall r | 0 <= r < REGIONS && Owned(s'.claims, r, h)
      ensures r in UsedRegions(f')
    {
      assert Owned(s.claims, r, h) && r != p.region;
    }
  }

  lemma OtherPinsOk(s: State, s': State, h: Handle, f: File, k: nat)
    requires |s.claims| == |s.apertures| == REGIONS && PinsOk(s, h, f) && RegionsDistinct(f) && k < |f.pinnings|
    requires s' == Released(s, {f.pinnings[k].region}).(files := s'.files)
    ensures PinsOk(s', h, f.(pinnings := RemoveAt(f.pinnings, k)))
  {
    var f' := f.(pinnings := RemoveAt(f.pinnings, k));
    forall j | 0 <= j < |f'.pinnings|
      ensures PinOk(s', h, f', f'.pinnings[j])
    {
      var i := if j < k then j else j + 1;
      assert f'.pinnings[j] == f.pinnings[i] && PinOk(s, h, f, f.pinnings[i]);
      assert f.pinnings[i].region != -1 ==> f.pinnings[i].region != f.pinnings[k].region;
    }
  }

  /** Past its gates, UNPIN_PAGES removes a pinning if and only if the oldest
      pinning at that address has that size. */
  lemma UnpinSucceedsIff(s: State, h: Handle, caller: Process, va: nat, size: nat)
    requires h in s.files && CallerGate(s, h, NR_UNPIN_PAGES, caller) == Success && size >= PAGE
    ensures var ps := s.files[h].pinnings;
      Unpin(s, h, caller, va, size, 0).1 == Success <==>
      exists k | 0 <= k < |ps| :: ps[k].va == va && ps[k].size == size && forall j | 0 <= j < k :: ps[j].va != va
  {
    var ps := s.files[h].pinnings;
    var k := FirstAt(PinVas(ps), va);
    if k < |ps| && ps[k].size == size {
      assert ps[k].va == va && ps[k].size == size && forall j | 0 <= j < k :: ps[j].va != va;
    }
  }
}
