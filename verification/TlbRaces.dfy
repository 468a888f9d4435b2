/** ALLOCATE_TLB and CONFIGURE_TLB as they run beside other requests: both let go
    of TlbLock in the middle. What may run in between is any stretch of a run, so
    the second half starts from any state the invariant allows. */
module TlbRaces {
  import opened Common
  import opened History
  import opened WindowGeometry
  import opened WindowRegisters
  import opened TlbPoolSpec
  import opened TlbPool
  import opened TlbTokens
  import opened MemoryState
  import opened MemoryOps
  import opened MappingOps
  import opened MemoryRuns

  // ------------------------------------------------- ALLOCATE_TLB in two halves

  /** First half: the window is claimed. */
  function ClaimTlb(s: State, h: Handle, id: nat): State
    requires id < |s.windows|
  {
    s.(windows := s.windows[id := Some(h)])
  }

  /** Second half, when the reply cannot be delivered: the window is cleared,
      whoever has it by now. */
  function RollbackTlb(s: State, id: nat): State
    requires id < |s.windows|
  {
    s.(windows := s.windows[id := None])
  }

  /** The claim alone is a delivered request, and the halves together with nothing
      in between are an undelivered one. */
  lemma AllocateTlbHalves(s: State, h: Handle, size: nat, id: nat)
    requires ConfigOk(s.cfg) && TablesOk(s) && h in s.files && Gate(s, h, NR_ALLOCATE_TLB) == Success
    requires s.cfg.isBlackhole && PoolOf(s.cfg, size).Some?
    requires IsFirstFreeWindow(s.windows, PoolOf(s.cfg, size).value.0, PoolOf(s.cfg, size).value.1, id)
    ensures Describe(s.cfg.tlb4gCount, id).Some?
    ensures AllocatesTlb(s, h, size, true, ClaimTlb(s, h, id), WindowReply(s.cfg, id))
    ensures AllocatesTlb(s, h, size, false, RollbackTlb(ClaimTlb(s, h, id), id), TlbReply(AccessViolation, 0, 0, 0))
  {
    assert RollbackTlb(ClaimTlb(s, h, id), id).windows == s.windows;
  }

  /** No other handle loses a window. */
  ghost predicate OthersKeepWindows(s: State, t: State, h: Handle) {
    |t.windows| == |s.windows| &&
    forall w | 0 <= w < |s.windows| :: s.windows[w].Some? && s.windows[w].value != h ==> t.windows[w] == s.windows[w]
  }

  /** Whatever ran since the claim, the rollback keeps the invariant and takes no
      other handle's window if and only if the window is free or still the
      handle's, and the handle has no view of it. */
  lemma RollbackIsSafeIff(s: State, h: Handle, id: nat)
    requires Inv(s) && id < WINDOWS_TOTAL
    ensures Inv(RollbackTlb(s, id)) && OthersKeepWindows(s, RollbackTlb(s, id), h) <==>
      MyWindowOrFree(s.windows[id], h) && (h in s.files ==> !WindowMapped(s.files[h], id))
  {
    var t := RollbackTlb(s, id);
    if h in s.files && WindowMapped(s.files[h], id) {
      MappedWindowStays(s, h, id);
    } else if s.windows[id] == Some(h) {
      UnmappedRollbackKeepsInv(s, h, id);
    } else if s.windows[id].None? {
      assert t.windows == s.windows;
    }
  }

  lemma MappedWindowStays(s: State, h: Handle, id: nat)
    requires TablesOk(s) && id < WINDOWS_TOTAL && h in s.files && WindowMapped(s.files[h], id)
    ensures !Inv(RollbackTlb(s, id))
  {
    var t, f := RollbackTlb(s, id), s.files[h];
    var k :| 0 <= k < |f.mappings| && f.mappings[k].tlbId == id;
    assert !MapOk(t, h, f, f.mappings[k]);
  }

  lemma UnmappedRollbackKeepsInv(s: State, h: Handle, id: nat)
    requires Inv(s) && id < WINDOWS_TOTAL && s.windows[id] == Some(h) && h in s.files && !WindowMapped(s.files[h], id)
    ensures Inv(RollbackTlb(s, id))
  {
    var t, f := RollbackTlb(s, id), s.files[h];
    forall k | 0 <= k < |f.mappings|
      ensures MapOk(t, h, f, f.mappings[k])
    {
      assert MapOk(s, h, f, f.mappings[k]);
    }
    SameRegionsOk(s, t, h, f);
    assert t.files == s.files[h := f];
    UpdateKeepsInv(s, t, h, f);
  }

  /** A MAP of the window by its handle in between succeeds, and the rollback leaves
      a view of a window that nobody owns and the next ALLOCATE_TLB may give to
      anyone. */
  lemma RollbackRacesMap(s: State, h: Handle, id: nat, wc: bool, length: nat, env: MapEnv)
    requires Inv(s) && Current(s, h) && s.cfg.isBlackhole && |s.files[h].bufs| == MAX_DMA_BUFS
    requires id < WINDOWS_TOTAL && Describe(s.cfg.tlb4gCount, id).Some?
    requires 0 < length <= Describe(s.cfg.tlb4gCount, id).value.size && length % PAGE == 0 && length <= MAXULONG
    requires IsFree(s.windows, id) && env.poolOk && env.mdlOk && env.va.Some? && env.outputOk
    ensures var t := ClaimTlb(s, h, id);
      var (u, status) := MappingOps.Map(t, h, s.files[h].creator, WindowToken(Describe(s.cfg.tlb4gCount, id).value, wc), length, env);
      && status == Success && h in u.files && |u.windows| == |s.windows| && WindowMapped(u.files[h], id)
      && RollbackTlb(u, id).windows[id].None? && !Inv(RollbackTlb(u, id))
  {
    var t := ClaimTlb(s, h, id);
    var w := Describe(s.cfg.tlb4gCount, id).value;
    var (u, status) := MappingOps.Map(t, h, s.files[h].creator, WindowToken(w, wc), length, env);
    OwnWindowMapsIff(t, h, id, wc, length, env);
    WindowTokenResolvesIff(t, h, id, wc, length);
    var ms := u.files[h].mappings;
    assert ms[|ms| - 1].tlbId == id;
    MappedWindowStays(u, h, id);
  }

  /** A FREE_TLB of the window by its handle in between succeeds; if another handle
      is then given the window, the rollback takes it away from that handle. */
  lemma RollbackRacesFree(s: State, h: Handle, g: Handle, size: nat, id: nat, u: State, reply: TlbReply)
    requires ConfigOk(s.cfg) && |s.windows| == WINDOWS_TOTAL && h in s.files && g in s.files && g != h
    requires id < WINDOWS_TOTAL && s.windows[id] == Some(h) && !WindowMapped(s.files[h], id)
    requires Gate(s, h, NR_FREE_TLB) == Success
    requires AllocatesTlb(MemoryOps.FreeTlb(s, h, id).0, g, size, true, u, reply) && reply.status == Success && reply.id == id
    ensures MemoryOps.FreeTlb(s, h, id).1 == Success
    ensures |u.windows| == WINDOWS_TOTAL && u.windows[id] == Some(g)
    ensures RollbackTlb(u, id).windows[id].None? && !OthersKeepWindows(u, RollbackTlb(u, id), h)
  {
  }

  // --------------------------------------- who owns a window, over a whole run

  /** The step gives window id to handle h. */
  ghost predicate Takes(e: Event, h: Handle, id: nat) {
    e.AllocateTlb? && e.h == h && e.tlb.status == Success && e.tlb.id == id
  }

  /** The step takes window id away from handle h, if it has it. */
  ghost predicate GivesUp(s: State, e: Event, h: Handle, id: nat) {
    match e
    case Close(g) => g == h
    case FreeTlb(g, w) =>
      g == h && w == id && h in s.files && |s.windows| == WINDOWS_TOTAL && MemoryOps.FreeTlb(s, h, id).1 == Success
    case _ => false
  }

  /** A handle has a window after a step if and only if the step gave it the window,
      or it had it before and the step did not take it away. */
  lemma OwnerAfterStep(s: State, e: Event, s': State, h: Handle, id: nat)
    requires Inv(s) && Step(s, e, s') && id < WINDOWS_TOTAL
    ensures |s.windows| == |s'.windows| == WINDOWS_TOTAL
    ensures s'.windows[id] == Some(h) <==> Takes(e, h, id) || (s.windows[id] == Some(h) && !GivesUp(s, e, h, id))
  {
    if e.Map? || e.Unmap? || e.Pin? || e.Unpin? || e.AllocateBuf? || e.FreeBuf? {
      RequestKeepsWindows(s, e, s');
    } else if e.AllocateTlb? || e.FreeTlb? {
      OwnerAfterTlbRequest(s, e, s', h, id);
    } else if !e.Close? {
      RestKeepsWindows(s, e, s');
    }
  }

  lemma OwnerAfterTlbRequest(s: State, e: Event, s': State, h: Handle, id: nat)
    requires TablesOk(s) && Step(s, e, s') && id < WINDOWS_TOTAL && (e.AllocateTlb? || e.FreeTlb?)
    ensures |s'.windows| == WINDOWS_TOTAL
    ensures s'.windows[id] == Some(h) <==> Takes(e, h, id) || (s.windows[id] == Some(h) && !GivesUp(s, e, h, id))
  {
  }

  lemma RestKeepsWindows(s: State, e: Event, s': State)
    requires Step(s, e, s') && (e.Reset? || e.Open? || e.Exit? || e.Remove?)
    ensures s'.windows == s.windows
  {
  }

  lemma RequestKeepsWindows(s: State, e: Event, s': State)
    requires Step(s, e, s') && (e.Map? || e.Unmap? || e.Pin? || e.Unpin? || e.AllocateBuf? || e.FreeBuf?)
    ensures s'.windows == s.windows
  {
  }

  ghost function HasWindow(run: seq<State>, h: Handle, id: nat): seq<bool> {
    seq(|run|, n requires 0 <= n < |run| => id < |run[n].windows| && run[n].windows[id] == Some(h))
  }

  ghost function Taking(events: seq<Event>, h: Handle, id: nat): seq<bool> {
    seq(|events|, n requires 0 <= n < |events| => Takes(events[n], h, id))
  }

  ghost function GivingUp(run: seq<State>, events: seq<Event>, h: Handle, id: nat): seq<bool>
    requires |run| == |events| + 1
  {
    seq(|events|, n requires 0 <= n < |events| => GivesUp(run[n], events[n], h, id))
  }

  lemma OwnershipFollows(run: seq<State>, events: seq<Event>, h: Handle, id: nat)
    requires IsRun(run, events) && id < WINDOWS_TOTAL
    ensures Follows(HasWindow(run, h, id), Taking(events, h, id), GivingUp(run, events, h, id))
  {
    forall n | 0 <= n < |events|
      ensures HasWindow(run, h, id)[n + 1] <==>
        Taking(events, h, id)[n] || (HasWindow(run, h, id)[n] && !GivingUp(run, events, h, id)[n])
    {
      OwnerAfterEvent(run, events, n, h, id);
    }
  }

  lemma OwnerAfterEvent(run: seq<State>, events: seq<Event>, n: nat, h: Handle, id: nat)
    requires IsRun(run, events) && n < |events| && id < WINDOWS_TOTAL
    ensures |run[n].windows| == |run[n + 1].windows| == WINDOWS_TOTAL
    ensures run[n + 1].windows[id] == Some(h) <==>
      Takes(events[n], h, id) || (run[n].windows[id] == Some(h) && !GivesUp(run[n], events[n], h, id))
  {
    AllRuns(run, events, n);
    assert StepAt(run, events, n);
    OwnerAfterStep(run[n], events[n], run[n + 1], h, id);
  }

  /** In every reachable state the owner of a window is exactly the handle that was
      given it and has neither freed it nor been closed since. */
  lemma OwnsIff(run: seq<State>, events: seq<Event>, j: nat, h: Handle, id: nat)
    requires IsRun(run, events) && j < |run| && id < WINDOWS_TOTAL
    ensures HasWindow(run, h, id)[j] <==> GivenIn(Taking(events, h, id), GivingUp(run, events, h, id), 0, j)
  {
    OwnershipFollows(run, events, h, id);
    HoldsIff(HasWindow(run, h, id), Taking(events, h, id), GivingUp(run, events, h, id), 0, j);
  }

  // ------------------------------------------------ CONFIGURE_TLB in two halves

  /** The owner check of CONFIGURE_TLB passes at state i, the registers are written
      at state j: the window is still the handle's if and only if the handle has
      not given it up in between, or has been given it again since. */
  lemma LateWriteIsOwnersIff(run: seq<State>, events: seq<Event>, i: nat, j: nat, h: Handle, id: nat)
    requires IsRun(run, events) && i <= j < |run| && id < WINDOWS_TOTAL && HasWindow(run, h, id)[i]
    ensures HasWindow(run, h, id)[j] <==>
      || NotTaken(GivingUp(run, events, h, id), i, j)
      || GivenIn(Taking(events, h, id), GivingUp(run, events, h, id), i, j)
  {
    OwnershipFollows(run, events, h, id);
    HoldsIff(HasWindow(run, h, id), Taking(events, h, id), GivingUp(run, events, h, id), i, j);
  }

  /** The failing interleaving, on the pool and the registers: h passes the check,
      frees the window, g is given it, and then h's write sets g's window. */
  method LateWrite(pool: WindowPool, h: Handle, g: Handle, id: nat, c: TlbConfig) returns (allowed: bool, given: int, ok: bool)
    requires pool.Valid() && id < WINDOWS_TOTAL && pool.owner[..][id] == Some(h) && g != h
    requires c.addr < UINT64 && c.addr % WindowSize(id) == 0
    modifies pool.used, pool.owner, pool.registers.regs
    ensures pool.Valid() && allowed && given == id && ok
    ensures pool.owner[..] == old(pool.owner[..])[id := Some(g)]
    ensures DecodeWindow(id, pool.registers.Window(id)) == Truncated(c)
  {
    allowed := pool.Owns(h, id);
    pool.Release(id);
    assert IsFree(pool.owner[..], id);
    given := pool.Claim(g, id, id + 1);
    ok := pool.registers.ConfigureUserTlb(id, c);
  }
}
