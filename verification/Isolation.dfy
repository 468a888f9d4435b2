/** Handles of one device do not disturb each other: whatever one of them asks for,
    opens or closes, every other keeps its file, its regions with what they reach,
    and its windows. */
module Isolation {
  import opened Common
  import opened Iatu
  import opened TlbTokens
  import opened MemoryState
  import opened MemoryOps
  import opened MappingOps
  import opened LifecycleOps
  import opened MemoryRuns

  /** A request of a handle, with its tables. */
  ghost predicate IsRequest(e: Event) {
    e.AllocateTlb? || e.FreeTlb? || e.AllocateBuf? || e.FreeBuf? || e.Map? || e.Unmap? || e.Pin? || e.Unpin?
  }

  lemma OnlyForSpares(s: State, s': State, h: Handle, g: Handle)
    requires OnlyFor(s, s', h) && g != h && g in s.files && g in s'.files && s'.files[g] == s.files[g]
    ensures SameHandle(s, s', g)
  {
  }

  /** A region or none, of h alone before and after. */
  lemma RegionOnlyFor(s: State, s': State, h: Handle, region: int)
    requires |s.claims| == |s'.claims| == |s.apertures| == |s'.apertures| == REGIONS && s'.windows == s.windows
    requires s'.gen == s.gen && s'.detached == s.detached && s'.dead == s.dead
    requires forall r | 0 <= r < REGIONS && r != region :: s'.claims[r] == s.claims[r] && s'.apertures[r] == s.apertures[r]
    requires 0 <= region < REGIONS ==> MineOrFree(s.claims[region], h) && MineOrFree(s'.claims[region], h)
    ensures OnlyFor(s, s', h)
  {
  }

  lemma AllocateBufSpares(s: State, h: Handle, q: BufRequest, env: BufEnv, s': State, status: Status, b: DmaBuf)
    requires Inv(s) && h in s.files && |s.files[h].bufs| == MAX_DMA_BUFS && AllocatesBuf(s, h, q, env, s', status, b)
    ensures OnlyFor(s, s', h)
  {
    if status == Success && q.nocDma {
      SetUpRoutes(s, s', h, true, q.size, env.logical, b.noc, b.region);
      RegionOnlyFor(s, s', h, b.region);
    }
  }

  lemma PinSpares(s: State, h: Handle, caller: Process, q: PinRequest, env: PinEnv, s': State, status: Status, p: Pinning)
    requires Inv(s) && h in s.files && PinEnvOk(q, env) && Pins(s, h, caller, q, env, s', status, p)
    ensures OnlyFor(s, s', h)
  {
    if status == Success && WantsNoc(q.flags) {
      SetUpRoutes(s, s', h, q.flags.topDown, q.size, p.physical, p.noc, p.region);
      RegionOnlyFor(s, s', h, p.region);
    }
  }

  lemma FreeBufSpares(s: State, h: Handle, index: nat, reserved: nat)
    requires Inv(s) && h in s.files && FileOkSlots(s.files[h])
    ensures OnlyFor(s, FreeDmaBufEx(s, h, index, reserved).0, h)
  {
    var (s', status) := FreeDmaBufEx(s, h, index, reserved);
    if status == Success {
      var b := s.files[h].bufs[index].value;
      assert FileOk(s, h, s.files[h]) && BufOk(s, h, index, b);
      RegionOnlyFor(s, s', h, b.region);
    }
  }

  lemma UnpinSpares(s: State, h: Handle, caller: Process, va: nat, size: nat, reserved: nat)
    requires Inv(s) && h in s.files
    ensures OnlyFor(s, MappingOps.Unpin(s, h, caller, va, size, reserved).0, h)
  {
    var (s', status) := MappingOps.Unpin(s, h, caller, va, size, reserved);
    if status == Success {
      var p := s.files[h].pinnings[FirstAt(PinVas(s.files[h].pinnings), va)];
      assert FileOk(s, h, s.files[h]) && PinOk(s, h, s.files[h], p);
      RegionOnlyFor(s, s', h, p.region);
    }
  }

  lemma RegionRequestSpares(s: State, e: Event, s': State)
    requires Inv(s) && Step(s, e, s') && (e.AllocateBuf? || e.FreeBuf? || e.Pin? || e.Unpin?)
    ensures OnlyFor(s, s', e.h)
  {
    match e
    case AllocateBuf(h, q, env, status, b) => AllocateBufSpares(s, h, q, env, s', status, b);
    case FreeBuf(h, index, reserved) =>
      assert s' == FreeDmaBufEx(s, h, index, reserved).0;
      FreeBufSpares(s, h, index, reserved);
    case Pin(h, caller, q, env, status, p) => PinSpares(s, h, caller, q, env, s', status, p);
    case Unpin(h, caller, va, size, reserved) =>
      assert s' == MappingOps.Unpin(s, h, caller, va, size, reserved).0;
      UnpinSpares(s, h, caller, va, size, reserved);
  }

  /** The tables change only where they are free or the requester's. */
  lemma RequestSpares(s: State, e: Event, s': State)
    requires Inv(s) && Step(s, e, s') && IsRequest(e)
    ensures OnlyFor(s, s', e.h)
  {
    if e.AllocateBuf? || e.FreeBuf? || e.Pin? || e.Unpin? {
      RegionRequestSpares(s, e, s');
    } else if e.AllocateTlb? {
      AllocateTlbSpares(s, e.h, e.size, e.outputOk, s', e.tlb);
    } else if e.FreeTlb? {
      assert s' == MemoryOps.FreeTlb(s, e.h, e.id).0;
      FreeTlbSpares(s, e.h, e.id);
    } else {
      ViewRequestSpares(s, e, s');
      RegionOnlyFor(s, s', e.h, -1);
    }
  }

  lemma AllocateTlbSpares(s: State, h: Handle, size: nat, outputOk: bool, s': State, reply: TlbReply)
    requires TablesOk(s) && ConfigOk(s.cfg) && h in s.files && AllocatesTlb(s, h, size, outputOk, s', reply)
    ensures OnlyFor(s, s', h)
  {
  }

  lemma FreeTlbSpares(s: State, h: Handle, id: nat)
    requires TablesOk(s) && h in s.files
    ensures OnlyFor(s, MemoryOps.FreeTlb(s, h, id).0, h)
  {
  }

  lemma ViewRequestSpares(s: State, e: Event, s': State)
    requires Step(s, e, s') && (e.Map? || e.Unmap?)
    ensures s' == s.(files := s'.files)
  {
  }

  lemma RequestSparesFiles(s: State, e: Event, s': State, g: Handle)
    requires Step(s, e, s') && IsRequest(e) && e.h != g && g in s.files
    ensures g in s'.files && s'.files[g] == s.files[g]
  {
  }

  /** What one handle asks for, its opening and its closing leave every other handle
      as it was. */
  lemma HandlesAreIsolated(s: State, e: Event, s': State, g: Handle)
    requires Inv(s) && Step(s, e, s') && g in s.files && (IsRequest(e) || e.Open? || e.Close?) && e.h != g
    ensures SameHandle(s, s', g)
  {
    if IsRequest(e) {
      RequestSpares(s, e, s');
      RequestSparesFiles(s, e, s', g);
      OnlyForSpares(s, s', e.h, g);
    } else if e.Close? {
      assert s' == Closed(s, e.h);
      CloseFreesExactlyItsOwn(s, e.h);
    }
  }
}
