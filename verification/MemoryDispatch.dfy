/** The requests and callbacks of one device as its callers see them. Each starts
    from a healthy device, leaves one, and is a step of the state machine whose
    runs MemoryRuns speaks about. */
module MemoryDispatch {
  import opened Common
  import opened MemoryState
  import opened MemoryOps
  import opened MappingOps
  import opened LifecycleOps
  import opened KernelState
  import opened MemoryDevice
  import opened MemoryRuns

  /** The step is of handle h's own file. */
  ghost predicate OwnStep(s: State, s': State, h: Handle) {
    && h in s.files && h in s'.files && s'.detached == s.detached && s'.files == s.files[h := s'.files[h]]
  }

  lemma RequestIsOwnStep(s: State, e: Event, s': State)
    requires Step(s, e, s')
    requires e.AllocateTlb? || e.FreeTlb? || e.AllocateBuf? || e.FreeBuf? || e.Map? || e.Unmap? || e.Pin? || e.Unpin?
    ensures OwnStep(s, s', e.h)
  {
    assert s.files[e.h := s.files[e.h]] == s.files;
  }

  /** A handler that accounts for its own handle leaves the device healthy. */
  lemma RequestKeepsHealth(k: Holdings, k': Holdings, s: State, e: Event, s': State)
    requires Inv(s) && Matches(k, s) && Step(s, e, s')
    requires e.AllocateBuf? || e.FreeBuf? || e.Map? || e.Unmap? || e.Pin? || e.Unpin?
    requires Moved(k, k', s', e.h)
    ensures Inv(s') && Matches(k', s')
  {
    StepKeepsInv(s, e, s');
    RequestIsOwnStep(s, e, s');
    StepMatches(k, k', s, s', e.h, s'.files[e.h]);
  }

  /** Window requests hold and release nothing. */
  lemma WindowStepMatches(k: Holdings, s: State, e: Event, s': State)
    requires Matches(k, s) && Step(s, e, s') && (e.AllocateTlb? || e.FreeTlb?)
    ensures Matches(k, s')
  {
    assert s'.files == s.files && s'.apertures == s.apertures && s'.detached == s.detached;
    assert forall h | h in s.files :: FileMatches(k, h, s.files[h], s.detached);
  }

  lemma InvIsReady(k: Holdings, s: State)
    requires Inv(s) && Matches(k, s)
    ensures Shaped(s) && AllRegionsOk(s)
    ensures forall h | h in s.files :: Ready(k, s, h)
  {
    InvIsShaped(s);
    forall h | h in s.files
      ensures Ready(k, s, h) && RegionsOk(s.files[h])
    {
      InvFileReady(k, s, h);
    }
  }

  lemma InvWalkIsComplete(s: State, h: Handle)
    requires Inv(s) && h in s.files
    ensures WalkIsComplete(s, h)
  {
    WalkFindsEverySlot(s, h);
    assert FileOk(s, h, s.files[h]);
  }

  // ------------------------------------------------------------------ callbacks

  method FileCreate(d: Device, h: Handle, caller: Process)
    requires d.Healthy() && h !in d.files && caller !in d.dead
    modifies d`files, d.kernel
    ensures d.Healthy() && Step(old(d.View()), Open(h, caller), d.View())
  {
    ghost var s, k := d.View(), d.kernel.holdings;
    InvIsShaped(s);
    OpenMatches(k, s, h, caller);
    OpenKeepsInv(s, h, caller);
    d.Open(h, caller);
  }

  method FileCleanup(d: Device, h: Handle)
    requires d.Healthy() && h in d.files
    modifies d`files, d`dmaBufBytes, d.iatu.slots, d.iatu.regions, d.kernel, d.pool.used, d.pool.owner, d.files[h]
    ensures d.Healthy() && Step(old(d.View()), Close(h), d.View())
  {
    ghost var s := d.View();
    InvIsShaped(s);
    InvWalkIsComplete(s, h);
    CloseKeepsInv(s, h);
    d.FileCleanup(h);
  }

  /** One device's part of TtProcessNotify. */
  method ProcessExit(d: Device, p: Process)
    requires d.Healthy()
    modifies d`dead, d.iatu.slots, d.iatu.regions, d.kernel, d.files.Values
    ensures d.Healthy() && Step(old(d.View()), Exit(p), d.View()) && d.View() == Exited(old(d.View()), p)
    ensures NothingHeldFor(d.kernel.holdings, d.View(), p)
  {
    ghost var s := d.View();
    InvIsReady(d.kernel.holdings, s);
    ExitKeepsInv(s, p);
    d.ProcessExit(p);
  }

  method SurpriseRemoval(d: Device)
    requires d.Healthy()
    modifies d`detached, d.kernel, d.files.Values
    ensures d.Healthy() && Step(old(d.View()), Remove, d.View())
  {
    ghost var s := d.View();
    InvIsShaped(s);
    RemovalKeepsInv(s);
    d.SurpriseRemoval();
  }

  method ResetDevice(d: Device, h: Handle, flags: nat, env: ResetEnv) returns (reply: ResetReply)
    requires d.Healthy() && h in d.files
    modifies d`resetGen, d`needsHwInit, d.kernel, d.files.Values
    ensures d.Healthy() && Step(old(d.View()), Event.Reset(h, flags, env), d.View())
  {
    ghost var s := d.View();
    InvIsShaped(s);
    ResetKeepsInv(s, h, flags, env);
    reply := d.ResetDevice(h, flags, env);
  }

  // ------------------------------------------------------------------- requests

  method AllocateTlb(d: Device, h: Handle, size: nat, outputOk: bool) returns (reply: TlbReply)
    requires d.Healthy() && h in d.files
    modifies d.pool.used, d.pool.owner
    ensures d.Healthy() && Step(old(d.View()), Event.AllocateTlb(h, size, outputOk, reply), d.View())
  {
    ghost var s := d.View();
    InvIsShaped(s);
    reply := d.AllocateTlb(h, size, outputOk);
    ghost var e := Event.AllocateTlb(h, size, outputOk, reply);
    StepKeepsInv(s, e, d.View());
    WindowStepMatches(d.kernel.holdings, s, e, d.View());
  }

  method FreeTlb(d: Device, h: Handle, id: nat) returns (status: Status)
    requires d.Healthy() && h in d.files
    modifies d.pool.used, d.pool.owner
    ensures d.Healthy() && Step(old(d.View()), Event.FreeTlb(h, id), d.View())
  {
    ghost var s := d.View();
    InvIsShaped(s);
    status := d.FreeTlb(h, id);
    StepKeepsInv(s, Event.FreeTlb(h, id), d.View());
    WindowStepMatches(d.kernel.holdings, s, Event.FreeTlb(h, id), d.View());
  }

  method AllocateDmaBuf(d: Device, h: Handle, q: BufRequest, env: BufEnv) returns (status: Status, b: DmaBuf)
    requires d.Healthy() && h in d.files && env.logical + q.size <= BUS_SPACE
    modifies d`dmaBufBytes, d.iatu.slots, d.iatu.regions, d.kernel, d.files[h]
    ensures d.Healthy() && Step(old(d.View()), AllocateBuf(h, q, env, status, b), d.View())
  {
    ghost var s, k := d.View(), d.kernel.holdings;
    InvIsReady(k, s);
    status, b := d.AllocateDmaBuf(h, q, env);
    RequestKeepsHealth(k, d.kernel.holdings, s, AllocateBuf(h, q, env, status, b), d.View());
  }

  method FreeDmaBufEx(d: Device, h: Handle, index: nat, reserved: nat) returns (status: Status)
    requires d.Healthy() && h in d.files
    modifies d`dmaBufBytes, d.iatu.slots, d.iatu.regions, d.kernel, d.files[h]
    ensures d.Healthy() && Step(old(d.View()), FreeBuf(h, index, reserved), d.View())
  {
    ghost var s, k := d.View(), d.kernel.holdings;
    InvIsReady(k, s);
    status := d.FreeDmaBufEx(h, index, reserved);
    RequestKeepsHealth(k, d.kernel.holdings, s, FreeBuf(h, index, reserved), d.View());
  }

  method Map(d: Device, h: Handle, caller: Process, token: nat, length: nat, env: MapEnv) returns (status: Status)
    requires d.Healthy() && h in d.files && caller !in d.dead
    modifies d.kernel, d.files[h]
    ensures d.Healthy() && Step(old(d.View()), Event.Map(h, caller, token, length, env), d.View())
  {
    ghost var s, k := d.View(), d.kernel.holdings;
    InvIsReady(k, s);
    status := d.Map(h, caller, token, length, env);
    RequestKeepsHealth(k, d.kernel.holdings, s, Event.Map(h, caller, token, length, env), d.View());
  }

  method Unmap(d: Device, h: Handle, caller: Process, va: nat, reserved: nat) returns (status: Status)
    requires d.Healthy() && h in d.files
    modifies d.kernel, d.files[h]
    ensures d.Healthy() && Step(old(d.View()), Event.Unmap(h, caller, va, reserved), d.View())
  {
    ghost var s, k := d.View(), d.kernel.holdings;
    InvIsReady(k, s);
    status := d.Unmap(h, caller, va, reserved);
    RequestKeepsHealth(k, d.kernel.holdings, s, Event.Unmap(h, caller, va, reserved), d.View());
  }

  method PinPages(d: Device, h: Handle, caller: Process, q: PinRequest, env: PinEnv) returns (status: Status, p: Pinning)
    requires d.Healthy() && h in d.files && caller !in d.dead && PinEnvOk(q, env)
    modifies d.iatu.slots, d.iatu.regions, d.kernel, d.files[h]
    ensures d.Healthy() && Step(old(d.View()), Pin(h, caller, q, env, status, p), d.View())
  {
    ghost var s, k := d.View(), d.kernel.holdings;
    InvIsReady(k, s);
    status, p := d.PinPages(h, caller, q, env);
    RequestKeepsHealth(k, d.kernel.holdings, s, Pin(h, caller, q, env, status, p), d.View());
  }

  method UnpinPages(d: Device, h: Handle, caller: Process, va: nat, size: nat, reserved: nat) returns (status: Status)
    requires d.Healthy() && h in d.files
    modifies d.iatu.slots, d.iatu.regions, d.kernel, d.files[h]
    ensures d.Healthy() && Step(old(d.View()), Event.Unpin(h, caller, va, size, reserved), d.View())
  {
    ghost var s, k := d.View(), d.kernel.holdings;
    InvIsReady(k, s);
    status := d.UnpinPages(h, caller, va, size, reserved);
    RequestKeepsHealth(k, d.kernel.holdings, s, Event.Unpin(h, caller, va, size, reserved), d.View());
  }
}
