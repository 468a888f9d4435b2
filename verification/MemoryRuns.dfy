/** Whole runs of one device: every request, callback and reset as a step, and
    what holds in every later state. */
module MemoryRuns {
  import opened Common
  import opened Iatu
  import opened WindowGeometry
  import opened MemoryState
  import opened MemoryOps
  import opened MappingOps
  import opened LifecycleOps
  import opened RequestResults

  /** A step with its arguments, its environment and, where the outcome is chosen
      by a search, what it answered. */
  datatype Event =
    | Open(h: Handle, creator: Process)
    | Close(h: Handle)
    | AllocateTlb(h: Handle, size: nat, outputOk: bool, tlb: TlbReply)
    | FreeTlb(h: Handle, id: nat)
    | AllocateBuf(h: Handle, buf: BufRequest, bufEnv: BufEnv, status: Status, b: DmaBuf)
    | FreeBuf(h: Handle, index: nat, reserved: nat)
    | Map(h: Handle, caller: Process, token: nat, length: nat, mapEnv: MapEnv)
    | Unmap(h: Handle, caller: Process, va: nat, reserved: nat)
    | Pin(h: Handle, caller: Process, pin: PinRequest, pinEnv: PinEnv, status: Status, p: Pinning)
    | Unpin(h: Handle, caller: Process, va: nat, size: nat, reserved: nat)
    | Exit(process: Process)
    | Reset(h: Handle, flags: nat, resetEnv: ResetEnv)
    | Remove

  ghost predicate Shaped(s: State) {
    && ConfigOk(s.cfg) && |s.windows| == WINDOWS_TOTAL && |s.claims| == |s.apertures| == REGIONS
    && forall h | h in s.files :: FileOkSlots(s.files[h])
  }

  lemma InvIsShaped(s: State)
    requires Inv(s)
    ensures Shaped(s)
  {
    forall h | h in s.files
      ensures FileOkSlots(s.files[h])
    {
      SlotsOk(s, h);
    }
  }

  /** Requests come from open handles, and MAP to UNPIN run in live processes. */
  ghost predicate Transition(s: State, e: Event, s': State)
    requires Shaped(s)
  {
    match e
    case Open(h, creator) => h !in s.files && creator !in s.dead && s' == Opened(s, h, creator)
    case Close(h) => h in s.files && s' == Closed(s, h)
    case AllocateTlb(h, size, outputOk, reply) => h in s.files && AllocatesTlb(s, h, size, outputOk, s', reply)
    case FreeTlb(h, id) => h in s.files && s' == MemoryOps.FreeTlb(s, h, id).0
    case AllocateBuf(h, q, env, status, b) => h in s.files && AllocatesBuf(s, h, q, env, s', status, b)
    case FreeBuf(h, index, reserved) => h in s.files && s' == FreeDmaBufEx(s, h, index, reserved).0
    case Map(h, caller, token, length, env) =>
      h in s.files && caller !in s.dead && s' == MappingOps.Map(s, h, caller, token, length, env).0
    case Unmap(h, caller, va, reserved) => h in s.files && s' == MappingOps.Unmap(s, h, caller, va, reserved).0
    case Pin(h, caller, q, env, status, p) =>
      h in s.files && caller !in s.dead && PinEnvOk(q, env) && Pins(s, h, caller, q, env, s', status, p)
    case Unpin(h, caller, va, size, reserved) =>
      h in s.files && s' == MappingOps.Unpin(s, h, caller, va, size, reserved).0
    case Exit(p) => s' == Exited(s, p)
    case Reset(h, flags, env) => h in s.files && s' == LifecycleOps.Reset(s, h, flags, env).0
    case Remove => s' == Removed(s)
  }

  ghost predicate Step(s: State, e: Event, s': State) {
    Shaped(s) && Transition(s, e, s')
  }

  lemma FreeKeepsInv(s: State, h: Handle, index: nat, reserved: nat)
    requires Inv(s) && h in s.files && FileOkSlots(s.files[h])
    ensures Inv(FreeDmaBufEx(s, h, index, reserved).0)
  {
    if FreeDmaBufEx(s, h, index, reserved).1 == Success {
      FreeBufKeepsInv(s, h, s.files[h].bufs[index].value);
    }
  }

  lemma TableRequestKeepsInv(s: State, e: Event, s': State)
    requires Inv(s) && Step(s, e, s') && (e.AllocateTlb? || e.FreeTlb? || e.AllocateBuf? || e.FreeBuf?)
    ensures Inv(s')
  {
    match e
    case AllocateTlb(h, size, outputOk, reply) => AllocateTlbKeepsInv(s, h, size, outputOk, s', reply);
    case FreeTlb(h, id) =>
      assert s' == MemoryOps.FreeTlb(s, h, id).0;
      FreeTlbKeepsInv(s, h, id);
    case AllocateBuf(h, q, env, status, b) => AllocateBufKeepsInv(s, h, q, env, s', status, b);
    case FreeBuf(h, index, reserved) =>
      assert s' == FreeDmaBufEx(s, h, index, reserved).0;
      FreeKeepsInv(s, h, index, reserved);
  }

  lemma ViewRequestKeepsInv(s: State, e: Event, s': State)
    requires Inv(s) && Step(s, e, s') && (e.Map? || e.Unmap?)
    ensures Inv(s')
  {
    match e
    case Map(h, caller, token, length, env) =>
      assert s' == MappingOps.Map(s, h, caller, token, length, env).0;
      MapKeepsInv(s, h, caller, token, length, env);
    case Unmap(h, caller, va, reserved) =>
      assert s' == MappingOps.Unmap(s, h, caller, va, reserved).0;
      UnmapKeepsInv(s, h, caller, va, reserved);
  }

  lemma PinRequestKeepsInv(s: State, e: Event, s': State)
    requires Inv(s) && Step(s, e, s') && (e.Pin? || e.Unpin?)
    ensures Inv(s')
  {
    match e
    case Pin(h, caller, q, env, status, p) => PinKeepsInv(s, h, caller, q, env, s', status, p);
    case Unpin(h, caller, va, size, reserved) =>
      assert s' == MappingOps.Unpin(s, h, caller, va, size, reserved).0;
      UnpinKeepsInv(s, h, caller, va, size, reserved);
  }

  lemma OpenStepKeepsInv(s: State, h: Handle, creator: Process, s': State)
    requires Inv(s) && Step(s, Open(h, creator), s')
    ensures Inv(s')
  {
    assert s' == Opened(s, h, creator);
    OpenKeepsInv(s, h, creator);
  }

  lemma CloseStepKeepsInv(s: State, h: Handle, s': State)
    requires Inv(s) && Step(s, Close(h), s')
    ensures Inv(s')
  {
    assert s' == Closed(s, h);
    CloseKeepsInv(s, h);
  }

  lemma ExitStepKeepsInv(s: State, p: Process, s': State)
    requires Inv(s) && Step(s, Exit(p), s')
    ensures Inv(s')
  {
    assert s' == Exited(s, p);
    ExitKeepsInv(s, p);
  }

  lemma ResetStepKeepsInv(s: State, h: Handle, flags: nat, env: ResetEnv, s': State)
    requires Inv(s) && Step(s, Event.Reset(h, flags, env), s')
    ensures Inv(s')
  {
    assert s' == LifecycleOps.Reset(s, h, flags, env).0;
    ResetKeepsInv(s, h, flags, env);
  }

  lemma RemoveStepKeepsInv(s: State, s': State)
    requires Inv(s) && Step(s, Remove, s')
    ensures Inv(s')
  {
    assert s' == Removed(s);
    RemovalKeepsInv(s);
  }

  /** Every step keeps the invariant. */
  lemma StepKeepsInv(s: State, e: Event, s': State)
    requires Inv(s) && Step(s, e, s')
    ensures Inv(s')
  {
    if e.AllocateTlb? || e.FreeTlb? || e.AllocateBuf? || e.FreeBuf? {
      TableRequestKeepsInv(s, e, s');
    } else if e.Map? || e.Unmap? {
      ViewRequestKeepsInv(s, e, s');
    } else if e.Pin? || e.Unpin? {
      PinRequestKeepsInv(s, e, s');
    } else {
      match e
      case Open(h, creator) => OpenStepKeepsInv(s, h, creator, s');
      case Close(h) => CloseStepKeepsInv(s, h, s');
      case Exit(p) => ExitStepKeepsInv(s, p, s');
      case Reset(h, flags, env) => ResetStepKeepsInv(s, h, flags, env, s');
      case Remove => RemoveStepKeepsInv(s, s');
    }
  }

  ghost predicate StepAt(run: seq<State>, events: seq<Event>, i: nat)
    requires i < |events| && |run| == |events| + 1
  {
    Step(run[i], events[i], run[i + 1])
  }

  ghost predicate IsRun(run: seq<State>, events: seq<Event>) {
    && |run| == |events| + 1 && ConfigOk(run[0].cfg) && run[0] == Start(run[0].cfg, run[0].needsHwInit)
    && forall i {:trigger StepAt(run, events, i)} | 0 <= i < |events| :: StepAt(run, events, i)
  }

  /** The invariant holds in every reachable state. */
  lemma {:induction false} AllRuns(run: seq<State>, events: seq<Event>, n: nat)
    requires IsRun(run, events) && n < |run|
    ensures Inv(run[n])
  {
    if n == 0 {
      StartInv(run[0].cfg, run[0].needsHwInit);
    } else {
      AllRuns(run, events, n - 1);
      InvAt(run, events, n - 1);
    }
  }

  lemma InvAt(run: seq<State>, events: seq<Event>, n: nat)
    requires IsRun(run, events) && n < |events| && Inv(run[n])
    ensures Inv(run[n + 1])
  {
    assert StepAt(run, events, n);
    StepKeepsInv(run[n], events[n], run[n + 1]);
  }

  /** So the shape a step asks of its state never stands in a run's way. */
  lemma RunsNeverLoseShape(run: seq<State>, events: seq<Event>, n: nat, e: Event, s': State)
    requires IsRun(run, events) && n < |run|
    ensures Shaped(run[n]) && (Step(run[n], e, s') <==> Transition(run[n], e, s'))
  {
    AllRuns(run, events, n);
    InvIsShaped(run[n]);
  }

  /** In every reachable state of an attached device each enabled aperture belongs
      to exactly one live object, a buffer or a pinning. */
  lemma EveryApertureHasItsObject(run: seq<State>, events: seq<Event>, n: nat, r: nat) returns (u: User)
    requires IsRun(run, events) && n < |run| && !run[n].detached
    requires r < |run[n].apertures| && run[n].apertures[r].Some?
    ensures Uses(run[n], u, r) && forall v | Uses(run[n], v, r) :: v == u
  {
    AllRuns(run, events, n);
    SlotsConserved(run[n], r);
    u :| Uses(run[n], u, r);
  }

  // ------------------------------------------------------- translation stability

  /** The only steps that take buffer i away from handle h: closing it, or a free
      of the slot that succeeds. */
  ghost predicate Frees(s: State, e: Event, h: Handle, i: nat) {
    match e
    case Close(g) => g == h
    case FreeBuf(g, index, reserved) =>
      g == h && index == i && Shaped(s) && h in s.files && FreeDmaBufEx(s, h, index, reserved).1 == Success
    case _ => false
  }

  ghost predicate HasBuf(s: State, h: Handle, i: nat, b: DmaBuf) {
    h in s.files && i < |s.files[h].bufs| && s.files[h].bufs[i] == Some(b)
  }

  lemma ZapKeepsBuf(s: State, h: Handle, g: Handle, i: nat, b: DmaBuf)
    requires HasBuf(s, h, i, b)
    ensures HasBuf(Zapped(s), h, i, b)
    ensures g in s.files ==> HasBuf(NewGeneration(s, g), h, i, b)
  {
  }

  lemma FreeKeepsOtherBufs(s: State, g: Handle, index: nat, reserved: nat, h: Handle, i: nat, b: DmaBuf)
    requires Shaped(s) && g in s.files && HasBuf(s, h, i, b) && !Frees(s, FreeBuf(g, index, reserved), h, i)
    ensures HasBuf(FreeDmaBufEx(s, g, index, reserved).0, h, i, b)
  {
  }

  lemma MapUnmapKeepBufs(s: State, e: Event, s': State, h: Handle, i: nat, b: DmaBuf)
    requires Step(s, e, s') && HasBuf(s, h, i, b) && (e.Map? || e.Unmap?)
    ensures HasBuf(s', h, i, b)
  {
  }

  lemma PinUnpinKeepBufs(s: State, e: Event, s': State, h: Handle, i: nat, b: DmaBuf)
    requires Step(s, e, s') && HasBuf(s, h, i, b) && (e.Pin? || e.Unpin?)
    ensures HasBuf(s', h, i, b)
  {
  }

  lemma ResetKeepsBufs(s: State, g: Handle, flags: nat, env: ResetEnv, h: Handle, i: nat, b: DmaBuf)
    requires g in s.files && HasBuf(s, h, i, b)
    ensures HasBuf(LifecycleOps.Reset(s, g, flags, env).0, h, i, b)
  {
    ResetCases(s, g, flags);
    ZapKeepsBuf(s, h, g, i, b);
  }

  lemma AllocateKeepsBufs(s: State, e: Event, s': State, h: Handle, i: nat, b: DmaBuf)
    requires Step(s, e, s') && HasBuf(s, h, i, b) && (e.AllocateBuf? || e.AllocateTlb? || e.FreeTlb?)
    ensures HasBuf(s', h, i, b)
  {
  }

  lemma OpenCloseExitKeepBufs(s: State, e: Event, s': State, h: Handle, i: nat, b: DmaBuf)
    requires Step(s, e, s') && HasBuf(s, h, i, b) && (e.Open? || e.Exit? || (e.Close? && e.h != h))
    ensures HasBuf(s', h, i, b)
  {
  }

  lemma BufStays(s: State, e: Event, s': State, h: Handle, i: nat, b: DmaBuf)
    requires Step(s, e, s') && HasBuf(s, h, i, b) && !Frees(s, e, h, i)
    ensures HasBuf(s', h, i, b)
  {
    if e.FreeBuf? {
      FreeKeepsOtherBufs(s, e.h, e.index, e.reserved, h, i, b);
    } else if e.Reset? {
      ResetKeepsBufs(s, e.h, e.flags, e.resetEnv, h, i, b);
    } else if e.Remove? {
      ZapKeepsBuf(s.(detached := true), h, h, i, b);
    } else if e.Map? || e.Unmap? {
      MapUnmapKeepBufs(s, e, s', h, i, b);
    } else if e.Pin? || e.Unpin? {
      PinUnpinKeepBufs(s, e, s', h, i, b);
    } else if e.AllocateBuf? || e.AllocateTlb? || e.FreeTlb? {
      AllocateKeepsBufs(s, e, s', h, i, b);
    } else {
      OpenCloseExitKeepBufs(s, e, s', h, i, b);
    }
  }

  lemma {:induction false} BufStaysOverRun(run: seq<State>, events: seq<Event>, i: nat, j: nat, h: Handle, x: nat, b: DmaBuf)
    requires IsRun(run, events) && i <= j < |run| && HasBuf(run[i], h, x, b)
    requires forall n | i <= n < j :: !Frees(run[n], events[n], h, x)
    ensures HasBuf(run[j], h, x, b)
    decreases j
  {
    if i < j {
      BufStaysOverRun(run, events, i, j - 1, h, x, b);
      BufStaysAt(run, events, j - 1, h, x, b);
    }
  }

  lemma BufStaysAt(run: seq<State>, events: seq<Event>, n: nat, h: Handle, x: nat, b: DmaBuf)
    requires IsRun(run, events) && n < |events| && HasBuf(run[n], h, x, b) && !Frees(run[n], events[n], h, x)
    ensures HasBuf(run[n + 1], h, x, b)
  {
    assert StepAt(run, events, n);
    BufStays(run[n], events[n], run[n + 1], h, x, b);
  }

  /** Translation stability for ALLOCATE_DMA_BUF: whatever happens afterwards on
      any handle, until its own handle frees the slot or closes, every byte of
      the reported NOC range is sent to that byte of the reported physical range
      and nowhere else, as long as the device is attached. */
  lemma BufferTranslationStable(run: seq<State>, events: seq<Event>, i: nat, j: nat, k: nat)
    requires IsRun(run, events) && i < j < |run|
    requires events[i].AllocateBuf? && events[i].status == Success && events[i].buf.nocDma
    requires forall n | i < n < j :: !Frees(run[n], events[n], events[i].h, events[i].buf.index)
    requires !run[j].detached && k < events[i].buf.size
    ensures var b := events[i].b;
      && b.logical == events[i].bufEnv.logical && b.noc >= NOC_PCIE_OFFSET
      && Targets(run[j].apertures, b.noc - NOC_PCIE_OFFSET + k) == {b.logical + k}
  {
    BufIsRecordedAt(run, events, i);
    BufStaysTranslated(run, events, i + 1, j, events[i].h, events[i].buf.index, events[i].b, k);
  }

  lemma BufStaysTranslated(run: seq<State>, events: seq<Event>, i: nat, j: nat, h: Handle, x: nat, b: DmaBuf, k: nat)
    requires IsRun(run, events) && i <= j < |run| && HasBuf(run[i], h, x, b)
    requires forall n | i <= n < j :: !Frees(run[n], events[n], h, x)
    requires !run[j].detached && b.region != -1 && k < b.size
    ensures b.noc >= NOC_PCIE_OFFSET && Targets(run[j].apertures, b.noc - NOC_PCIE_OFFSET + k) == {b.logical + k}
  {
    BufStaysOverRun(run, events, i, j, h, x, b);
    AllRuns(run, events, j);
    HeldBufTranslates(run[j], h, x, b, k);
  }

  lemma HeldBufTranslates(s: State, h: Handle, x: nat, b: DmaBuf, k: nat)
    requires Inv(s) && !s.detached && HasBuf(s, h, x, b) && b.region != -1 && k < b.size
    ensures b.noc >= NOC_PCIE_OFFSET && Targets(s.apertures, b.noc - NOC_PCIE_OFFSET + k) == {b.logical + k}
  {
    assert FileOk(s, h, s.files[h]);
    BufferTranslates(s, h, x, k);
  }

  lemma BufIsRecordedAt(run: seq<State>, events: seq<Event>, i: nat)
    requires IsRun(run, events) && i < |events|
    requires events[i].AllocateBuf? && events[i].status == Success && events[i].buf.nocDma
    ensures var e := events[i];
      && HasBuf(run[i + 1], e.h, e.buf.index, e.b) && e.b.region != -1
      && e.b.size == e.buf.size && e.b.logical == e.bufEnv.logical
  {
    assert StepAt(run, events, i);
    BufIsRecorded(run[i], events[i], run[i + 1]);
  }

  lemma BufIsRecorded(s: State, e: Event, s': State)
    requires Step(s, e, s') && e.AllocateBuf? && e.status == Success && e.buf.nocDma
    ensures HasBuf(s', e.h, e.buf.index, e.b) && e.b.region != -1
    ensures e.b.size == e.buf.size && e.b.logical == e.bufEnv.logical
  {
  }

  /** The only steps that take a pinning of (va, size) away from handle h: closing
      it, the exit of its process, or an unpin of that range that succeeds. */
  ghost predicate Unpins(s: State, e: Event, h: Handle, va: nat, size: nat) {
    match e
    case Close(g) => g == h
    case Unpin(g, caller, a, n, reserved) =>
      g == h && a == va && n == size && h in s.files && MappingOps.Unpin(s, h, caller, va, size, reserved).1 == Success
    case Exit(p) => h in s.files && s.files[h].creator == p
    case _ => false
  }

  ghost predicate HasPin(s: State, h: Handle, p: Pinning) {
    h in s.files && p in s.files[h].pinnings
  }

  lemma ZapKeepsPin(s: State, h: Handle, g: Handle, p: Pinning)
    requires HasPin(s, h, p)
    ensures HasPin(Zapped(s), h, p)
    ensures g in s.files ==> HasPin(NewGeneration(s, g), h, p)
  {
  }

  lemma UnpinTakesOnlyItsOwn(s: State, g: Handle, caller: Process, va: nat, size: nat, reserved: nat, h: Handle, p: Pinning)
    requires g in s.files && HasPin(s, h, p) && !Unpins(s, Event.Unpin(g, caller, va, size, reserved), h, p.va, p.size)
    ensures HasPin(MappingOps.Unpin(s, g, caller, va, size, reserved).0, h, p)
  {
    var ps, k := s.files[g].pinnings, FirstAt(PinVas(s.files[g].pinnings), va);
    if g == h && MappingOps.Unpin(s, g, caller, va, size, reserved).1 == Success {
      var j :| 0 <= j < |ps| && ps[j] == p;
      if j != k {
        assert RemoveAt(ps, k)[if j < k then j else j - 1] == p;
      }
    }
  }

  lemma BufRequestsKeepPins(s: State, e: Event, s': State, h: Handle, p: Pinning)
    requires Step(s, e, s') && HasPin(s, h, p) && (e.AllocateBuf? || e.FreeBuf? || e.AllocateTlb? || e.FreeTlb?)
    ensures HasPin(s', h, p)
  {
  }

  lemma MapPinKeepPins(s: State, e: Event, s': State, h: Handle, p: Pinning)
    requires Step(s, e, s') && HasPin(s, h, p) && (e.Map? || e.Unmap? || e.Pin?)
    ensures HasPin(s', h, p)
  {
  }

  lemma ResetKeepsPins(s: State, g: Handle, flags: nat, env: ResetEnv, h: Handle, p: Pinning)
    requires g in s.files && HasPin(s, h, p)
    ensures HasPin(LifecycleOps.Reset(s, g, flags, env).0, h, p)
  {
    ResetCases(s, g, flags);
    ZapKeepsPin(s, h, g, p);
  }

  lemma OpenCloseExitKeepPins(s: State, e: Event, s': State, h: Handle, p: Pinning)
    requires Step(s, e, s') && HasPin(s, h, p) && (e.Open? || e.Exit? || e.Close?) && !Unpins(s, e, h, p.va, p.size)
    ensures HasPin(s', h, p)
  {
  }

  lemma PinStays(s: State, e: Event, s': State, h: Handle, p: Pinning)
    requires Step(s, e, s') && HasPin(s, h, p) && !Unpins(s, e, h, p.va, p.size)
    ensures HasPin(s', h, p)
  {
    if e.Unpin? {
      UnpinTakesOnlyItsOwn(s, e.h, e.caller, e.va, e.size, e.reserved, h, p);
    } else if e.Reset? {
      ResetKeepsPins(s, e.h, e.flags, e.resetEnv, h, p);
    } else if e.Remove? {
      ZapKeepsPin(s.(detached := true), h, h, p);
    } else if e.Map? || e.Unmap? || e.Pin? {
      MapPinKeepPins(s, e, s', h, p);
    } else if e.AllocateBuf? || e.FreeBuf? || e.AllocateTlb? || e.FreeTlb? {
      BufRequestsKeepPins(s, e, s', h, p);
    } else {
      OpenCloseExitKeepPins(s, e, s', h, p);
    }
  }

  lemma {:induction false} PinStaysOverRun(run: seq<State>, events: seq<Event>, i: nat, j: nat, h: Handle, p: Pinning)
    requires IsRun(run, events) && i <= j < |run| && HasPin(run[i], h, p)
    requires forall n | i <= n < j :: !Unpins(run[n], events[n], h, p.va, p.size)
    ensures HasPin(run[j], h, p)
    decreases j
  {
    if i < j {
      PinStaysOverRun(run, events, i, j - 1, h, p);
      PinStaysAt(run, events, j - 1, h, p);
    }
  }

  lemma PinStaysAt(run: seq<State>, events: seq<Event>, n: nat, h: Handle, p: Pinning)
    requires IsRun(run, events) && n < |events| && HasPin(run[n], h, p) && !Unpins(run[n], events[n], h, p.va, p.size)
    ensures HasPin(run[n + 1], h, p)
  {
    assert StepAt(run, events, n);
    PinStays(run[n], events[n], run[n + 1], h, p);
  }

  /** Translation stability for PIN_PAGES, until it is unpinned, its handle closes
      or its process exits: each byte of the NOC range goes to the device's address
      of that byte of the range as it was when it was pinned; a backed pin's target
      stays inside its live buffer. */
  lemma PinTranslationStable(run: seq<State>, events: seq<Event>, i: nat, j: nat, k: nat)
    requires IsRun(run, events) && i < j < |run|
    requires events[i].Pin? && events[i].status == Success && (events[i].pin.flags.nocDma || events[i].pin.flags.topDown)
    requires forall n | i < n < j :: !Unpins(run[n], events[n], events[i].h, events[i].pin.va, events[i].pin.size)
    requires !run[j].detached && k < events[i].pin.size
    ensures events[i].h in run[i].files
    ensures ByteAt(run[i].files[events[i].h], events[i].pin, events[i].pinEnv, k, events[i].p.physical + k)
    ensures var h, p := events[i].h, events[i].p;
      && p.noc >= NOC_PCIE_OFFSET && Targets(run[j].apertures, p.noc - NOC_PCIE_OFFSET + k) == {p.physical + k}
      && (p.backing.Some? ==>
            && h in run[j].files && Live(run[j].files[h], p.backing.value)
            && p.backing.value.logical <= p.physical + k < p.backing.value.logical + p.backing.value.size)
  {
    PinIsRecordedAt(run, events, i);
    PinReportsAt(run, events, i, k);
    PinStaysTranslated(run, events, i + 1, j, events[i].h, events[i].p, k);
  }

  lemma PinReportsAt(run: seq<State>, events: seq<Event>, i: nat, k: nat)
    requires IsRun(run, events) && i < |events| && events[i].Pin? && events[i].status == Success && k < events[i].pin.size
    ensures events[i].h in run[i].files
    ensures ByteAt(run[i].files[events[i].h], events[i].pin, events[i].pinEnv, k, events[i].p.physical + k)
  {
    var e := events[i];
    assert StepAt(run, events, i);
    PinReportsRange(run[i], e.h, e.caller, e.pin, e.pinEnv, run[i + 1], e.p, k);
  }

  lemma PinStaysTranslated(run: seq<State>, events: seq<Event>, i: nat, j: nat, h: Handle, p: Pinning, k: nat)
    requires IsRun(run, events) && i <= j < |run| && HasPin(run[i], h, p)
    requires forall n | i <= n < j :: !Unpins(run[n], events[n], h, p.va, p.size)
    requires !run[j].detached && p.region != -1 && k < p.size
    ensures p.noc >= NOC_PCIE_OFFSET && Targets(run[j].apertures, p.noc - NOC_PCIE_OFFSET + k) == {p.physical + k}
    ensures p.backing.Some? ==>
      && h in run[j].files && Live(run[j].files[h], p.backing.value)
      && p.backing.value.logical <= p.physical + k < p.backing.value.logical + p.backing.value.size
  {
    PinStaysOverRun(run, events, i, j, h, p);
    AllRuns(run, events, j);
    ListedPinTranslates(run[j], h, p, k);
  }

  lemma ListedPinTranslates(s: State, h: Handle, p: Pinning, k: nat)
    requires Inv(s) && !s.detached && HasPin(s, h, p) && p.region != -1 && k < p.size
    ensures
      && p.noc >= NOC_PCIE_OFFSET && Targets(s.apertures, p.noc - NOC_PCIE_OFFSET + k) == {p.physical + k}
      && (p.backing.Some? ==>
            && Live(s.files[h], p.backing.value)
            && p.backing.value.logical <= p.physical + k < p.backing.value.logical + p.backing.value.size)
  {
    var x :| 0 <= x < |s.files[h].pinnings| && s.files[h].pinnings[x] == p;
    PinningTranslates(s, h, x, k);
  }

  lemma PinIsRecordedAt(run: seq<State>, events: seq<Event>, i: nat)
    requires IsRun(run, events) && i < |events|
    requires events[i].Pin? && events[i].status == Success && WantsNoc(events[i].pin.flags)
    ensures var e := events[i];
      HasPin(run[i + 1], e.h, e.p) && e.p.region != -1 && e.p.size == e.pin.size && e.p.va == e.pin.va
  {
    assert StepAt(run, events, i);
    PinIsRecorded(run[i], events[i], run[i + 1]);
  }

  lemma PinIsRecorded(s: State, e: Event, s': State)
    requires Step(s, e, s') && e.Pin? && e.status == Success && WantsNoc(e.pin.flags)
    ensures HasPin(s', e.h, e.p) && e.p.region != -1 && e.p.size == e.pin.size && e.p.va == e.pin.va
  {
    var f := s'.files[e.h];
    assert f.pinnings[|f.pinnings| - 1] == e.p;
  }

  // ------------------------------------------------------- staleness, exit, closing

  ghost predicate Stale(s: State, h: Handle) {
    h in s.files && !Current(s, h)
  }

  /** Neither the generations nor the set of handles and exited processes. */
  ghost predicate SameGenerations(s: State, s': State) {
    && s'.gen == s.gen && s'.detached == s.detached && s'.dead == s.dead && s'.files.Keys == s.files.Keys
    && forall g | g in s.files :: s'.files[g].openGen == s.files[g].openGen
  }

  lemma BufRequestsKeepGenerations(s: State, e: Event, s': State)
    requires Step(s, e, s') && (e.AllocateBuf? || e.FreeBuf? || e.AllocateTlb? || e.FreeTlb?)
    ensures SameGenerations(s, s')
  {
  }

  lemma CallerRequestsKeepGenerations(s: State, e: Event, s': State)
    requires Step(s, e, s') && (e.Map? || e.Unmap? || e.Pin? || e.Unpin?)
    ensures SameGenerations(s, s')
  {
  }

  lemma StaleStays(s: State, e: Event, s': State, h: Handle)
    requires Inv(s) && Step(s, e, s') && Stale(s, h) && e != Close(h)
    ensures Stale(s', h)
  {
    GenerationsAreOld(s, h);
    if e.AllocateBuf? || e.FreeBuf? || e.AllocateTlb? || e.FreeTlb? {
      BufRequestsKeepGenerations(s, e, s');
    } else if e.Map? || e.Unmap? || e.Pin? || e.Unpin? {
      CallerRequestsKeepGenerations(s, e, s');
    } else if e.Reset? {
      ResetKeepsStale(s, e.h, e.flags, e.resetEnv, h);
    } else {
      RestKeepsStale(s, e, s', h);
    }
  }

  lemma ResetKeepsStale(s: State, g: Handle, flags: nat, env: ResetEnv, h: Handle)
    requires Inv(s) && g in s.files && Stale(s, h) && s.files[h].openGen <= s.gen
    ensures Stale(LifecycleOps.Reset(s, g, flags, env).0, h)
  {
    ResetCases(s, g, flags);
  }

  lemma RestKeepsStale(s: State, e: Event, s': State, h: Handle)
    requires Step(s, e, s') && Stale(s, h) && (e.Open? || e.Exit? || e.Remove? || (e.Close? && e.h != h))
    ensures Stale(s', h)
  {
  }

  /** Staleness is permanent: a handle that is stale or whose device is gone never
      becomes current again, and has no view of the device in any later state. */
  lemma {:induction false} StaleForever(run: seq<State>, events: seq<Event>, i: nat, j: nat, h: Handle)
    requires IsRun(run, events) && i <= j < |run| && Stale(run[i], h)
    requires forall n | i <= n < j :: events[n] != Close(h)
    ensures Stale(run[j], h) && forall m | m in run[j].files[h].mappings :: m.isDmaBuf
    decreases j
  {
    AllRuns(run, events, j);
    if i < j {
      StaleForever(run, events, i, j - 1, h);
      StaleStaysAt(run, events, j - 1, h);
    }
    StaleHasNoDeviceView(run[j], h);
  }

  lemma StaleStaysAt(run: seq<State>, events: seq<Event>, n: nat, h: Handle)
    requires IsRun(run, events) && n < |events| && Stale(run[n], h) && events[n] != Close(h)
    ensures Stale(run[n + 1], h)
  {
    AllRuns(run, events, n);
    assert StepAt(run, events, n);
    StaleStays(run[n], events[n], run[n + 1], h);
  }

  lemma StaleHasNoDeviceView(s: State, h: Handle)
    requires Inv(s) && Stale(s, h)
    ensures forall m | m in s.files[h].mappings :: m.isDmaBuf
  {
    var f := s.files[h];
    assert FileOk(s, h, f);
    forall m | m in f.mappings
      ensures m.isDmaBuf
    {
      var k :| 0 <= k < |f.mappings| && f.mappings[k] == m;
      assert MapOk(s, h, f, f.mappings[k]);
    }
  }

  ghost predicate HasView(s: State, h: Handle, m: Mapping) {
    h in s.files && m in s.files[h].mappings && m.isDmaBuf
  }

  /** The only steps that take a view of a DMA buffer away from handle h: closing
      it, the exit of its process, or an unmap of the address that succeeds. */
  ghost predicate Unmaps(s: State, e: Event, h: Handle, va: nat) {
    match e
    case Close(g) => g == h
    case Unmap(g, caller, a, reserved) =>
      g == h && a == va && h in s.files && MappingOps.Unmap(s, h, caller, va, reserved).1 == Success
    case Exit(p) => h in s.files && s.files[h].creator == p
    case _ => false
  }

  lemma UnmapTakesOnlyItsOwn(s: State, g: Handle, caller: Process, va: nat, reserved: nat, h: Handle, m: Mapping)
    requires g in s.files && HasView(s, h, m) && !Unmaps(s, Event.Unmap(g, caller, va, reserved), h, m.va)
    ensures HasView(MappingOps.Unmap(s, g, caller, va, reserved).0, h, m)
  {
    var ms, k := s.files[g].mappings, FirstAt(MappingVas(s.files[g].mappings), va);
    if g == h && MappingOps.Unmap(s, g, caller, va, reserved).1 == Success {
      var j :| 0 <= j < |ms| && ms[j] == m;
      assert RemoveAt(ms, k)[if j < k then j else j - 1] == m;
    }
  }

  lemma ZapKeepsView(s: State, h: Handle, g: Handle, m: Mapping)
    requires HasView(s, h, m)
    ensures HasView(Zapped(s), h, m)
    ensures g in s.files ==> HasView(NewGeneration(s, g), h, m)
  {
  }

  lemma ResetKeepsViews(s: State, g: Handle, flags: nat, env: ResetEnv, h: Handle, m: Mapping)
    requires g in s.files && HasView(s, h, m)
    ensures HasView(LifecycleOps.Reset(s, g, flags, env).0, h, m)
  {
    ResetCases(s, g, flags);
    ZapKeepsView(s, h, g, m);
  }

  lemma RequestsKeepViews(s: State, e: Event, s': State, h: Handle, m: Mapping)
    requires Step(s, e, s') && HasView(s, h, m)
    requires e.AllocateBuf? || e.FreeBuf? || e.AllocateTlb? || e.FreeTlb? || e.Map? || e.Pin? || e.Unpin?
    ensures HasView(s', h, m)
  {
  }

  lemma OpenCloseExitKeepViews(s: State, e: Event, s': State, h: Handle, m: Mapping)
    requires Step(s, e, s') && HasView(s, h, m) && (e.Open? || e.Exit? || e.Close?) && !Unmaps(s, e, h, m.va)
    ensures HasView(s', h, m)
  {
  }

  /** Views of DMA buffers survive everything but UNMAP, close and process exit;
      in particular every reset, staleness and removal. */
  lemma BufferViewSurvives(s: State, e: Event, s': State, h: Handle, m: Mapping)
    requires Step(s, e, s') && HasView(s, h, m) && !Unmaps(s, e, h, m.va)
    ensures HasView(s', h, m)
  {
    if e.Unmap? {
      UnmapTakesOnlyItsOwn(s, e.h, e.caller, e.va, e.reserved, h, m);
    } else if e.Reset? {
      ResetKeepsViews(s, e.h, e.flags, e.resetEnv, h, m);
    } else if e.Remove? {
      ZapKeepsView(s.(detached := true), h, h, m);
    } else if e.Open? || e.Exit? || e.Close? {
      OpenCloseExitKeepViews(s, e, s', h, m);
    } else {
      RequestsKeepViews(s, e, s', h, m);
    }
  }

  lemma {:induction false} BufferViewSurvivesRun(run: seq<State>, events: seq<Event>, i: nat, j: nat, h: Handle, m: Mapping)
    requires IsRun(run, events) && i <= j < |run| && HasView(run[i], h, m)
    requires forall n | i <= n < j :: !Unmaps(run[n], events[n], h, m.va)
    ensures HasView(run[j], h, m)
    decreases j
  {
    if i < j {
      BufferViewSurvivesRun(run, events, i, j - 1, h, m);
      ViewSurvivesAt(run, events, j - 1, h, m);
    }
  }

  lemma ViewSurvivesAt(run: seq<State>, events: seq<Event>, n: nat, h: Handle, m: Mapping)
    requires IsRun(run, events) && n < |events| && HasView(run[n], h, m) && !Unmaps(run[n], events[n], h, m.va)
    ensures HasView(run[n + 1], h, m)
  {
    assert StepAt(run, events, n);
    BufferViewSurvives(run[n], events[n], run[n + 1], h, m);
  }

  lemma DeadStays(s: State, e: Event, s': State, p: Process)
    requires Step(s, e, s') && p in s.dead
    ensures p in s'.dead
  {
    if e.AllocateBuf? || e.FreeBuf? || e.AllocateTlb? || e.FreeTlb? {
      BufRequestsKeepGenerations(s, e, s');
    } else if e.Map? || e.Unmap? || e.Pin? || e.Unpin? {
      CallerRequestsKeepGenerations(s, e, s');
    } else if e.Reset? {
      ResetCases(s, e.h, e.flags);
    }
  }

  lemma {:induction false} DeadForever(run: seq<State>, events: seq<Event>, i: nat, j: nat, p: Process)
    requires IsRun(run, events) && i < j < |run| && events[i] == Exit(p)
    ensures p in run[j].dead
    decreases j
  {
    if i < j - 1 {
      DeadForever(run, events, i, j - 1, p);
    }
    DeadAt(run, events, j - 1, p);
  }

  lemma DeadAt(run: seq<State>, events: seq<Event>, n: nat, p: Process)
    requires IsRun(run, events) && n < |events| && (p in run[n].dead || events[n] == Exit(p))
    ensures p in run[n + 1].dead
  {
    assert StepAt(run, events, n);
    if p in run[n].dead {
      DeadStays(run[n], events[n], run[n + 1], p);
    }
  }

  /** Every mapping's process is its handle's creator, and is alive. */
  lemma MappingsAreOfTheLiving(s: State, h: Handle, m: Mapping)
    requires Inv(s) && h in s.files && m in s.files[h].mappings
    ensures m.process == s.files[h].creator && m.process !in s.dead
  {
    var f := s.files[h];
    var k :| 0 <= k < |f.mappings| && f.mappings[k] == m;
    assert FileOk(s, h, f) && MapOk(s, h, f, f.mappings[k]);
  }

  /** Process-exit completeness: once p has exited, no handle p created has a
      mapping or a pinning in any later state. */
  lemma NothingLeftAfterExit(run: seq<State>, events: seq<Event>, i: nat, j: nat, p: Process, h: Handle)
    requires IsRun(run, events) && i < j < |run| && events[i] == Exit(p)
    requires h in run[j].files && run[j].files[h].creator == p
    ensures run[j].files[h].mappings == [] && run[j].files[h].pinnings == []
  {
    AllRuns(run, events, j);
    DeadForever(run, events, i, j, p);
    assert FileOk(run[j], h, run[j].files[h]);
  }

  /** Reference safety in every reachable state: what mappings and pinnings point
      at is a live slot of the same handle, and a mapped window is owned. */
  lemma ReferencesAreLive(run: seq<State>, events: seq<Event>, n: nat, h: Handle)
    requires IsRun(run, events) && n < |run| && h in run[n].files
    ensures var s, f := run[n], run[n].files[h];
      && (forall m | m in f.mappings && m.dmaBuf.Some? :: Live(f, m.dmaBuf.value))
      && (forall m | m in f.mappings && m.tlbId != -1 :: 0 <= m.tlbId < |s.windows| && s.windows[m.tlbId] == Some(h))
      && (forall p | p in f.pinnings && p.backing.Some? :: Live(f, p.backing.value))
  {
    AllRuns(run, events, n);
    var s, f := run[n], run[n].files[h];
    assert FileOk(s, h, f);
    forall m | m in f.mappings
      ensures MapOk(s, h, f, m)
    {
      var k :| 0 <= k < |f.mappings| && f.mappings[k] == m;
      assert MapOk(s, h, f, f.mappings[k]);
    }
    forall p | p in f.pinnings
      ensures PinOk(s, h, f, p)
    {
      var k :| 0 <= k < |f.pinnings| && f.pinnings[k] == p;
      assert PinOk(s, h, f, f.pinnings[k]);
    }
  }
}
