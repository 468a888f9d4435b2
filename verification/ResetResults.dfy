/** RESET_DEVICE and the flag that gates the device until it is initialised again:
    what each flavour does and reports, and who is refused when, over whole runs. */
module ResetResults {
  import opened Common
  import opened History
  import opened MemoryState
  import opened MemoryOps
  import opened LifecycleOps
  import opened MemoryRuns

  /** Through the gate with a flavour there is. */
  ghost predicate Accepted(s: State, h: Handle, flags: nat) {
    h in s.files && !s.detached && s.files[h].openGen == s.gen && flags <= 6
  }

  /** Flavours 3 and 5, and 4 on the simulated device, leave the device to be
      initialised again; flavour 6 ends that whatever the hardware says; no other
      flavour touches it. */
  lemma ResetSetsFlagIff(s: State, h: Handle, flags: nat, env: ResetEnv)
    requires Accepted(s, h, flags)
    ensures LifecycleOps.Reset(s, h, flags, env).0.needsHwInit <==>
      flags == 3 || flags == 5 || (flags == 4 && s.cfg.simulated) || (flags != 6 && s.needsHwInit)
  {
  }

  /** What an accepted reset reports, by what the hardware did. */
  lemma ResetReports(s: State, h: Handle, flags: nat, env: ResetEnv)
    requires Accepted(s, h, flags)
    ensures var reply := LifecycleOps.Reset(s, h, flags, env).1;
      && reply.result in {0, 1} && reply.status == (if env.outputOk then Success else AccessViolation)
      && (flags in {0, 1} ==> (reply.result == 0 <==> env.hardwareOk))
      && (flags == 2 ==> (reply.result == 0 <==> s.cfg.simulated && env.hardwareOk))
      && (flags == 3 ==> reply.result == 0)
      && (flags == 4 ==> (reply.result == 0 <==> s.cfg.simulated && s.cfg.isBlackhole && env.hardwareOk))
      && (flags == 5 ==> (reply.result == 0 <==> s.cfg.isBlackhole && env.hardwareOk))
      && (flags == 6 ==> (reply.result == 0 <==> env.markerZero && (s.needsHwInit ==> env.hardwareOk)))
  {
  }

  /** A stale handle, a device that is gone or an unknown flavour resets nothing. */
  lemma RefusedResetChangesNothing(s: State, h: Handle, flags: nat, env: ResetEnv)
    requires h in s.files && !Accepted(s, h, flags)
    ensures LifecycleOps.Reset(s, h, flags, env) ==
      (s, ResetReply(if s.detached || s.files[h].openGen != s.gen then DeviceRemoved else InvalidParameter, 0))
  {
  }

  /** Only buffer views are left on any handle. */
  ghost predicate NoDeviceViews(s: State) {
    forall h, m | h in s.files && m in s.files[h].mappings :: m.isDmaBuf
  }

  /** Everything of the handles but their device views is as it was. */
  ghost predicate KeepsObjects(s: State, s': State) {
    && s'.files.Keys == s.files.Keys && s'.claims == s.claims && s'.apertures == s.apertures
    && s'.windows == s.windows && s'.bytes == s.bytes && s'.dead == s.dead && s'.cfg == s.cfg && s'.detached == s.detached
    && forall h | h in s.files ::
         && s'.files[h].bufs == s.files[h].bufs && s'.files[h].pinnings == s.files[h].pinnings
         && s'.files[h].creator == s.files[h].creator
         && forall m | m in s.files[h].mappings && m.isDmaBuf :: m in s'.files[h].mappings
  }

  /** The flavours that reset anything, the link reset 1 among them, leave no device
      view anywhere; all keep every buffer, pinning, window and buffer view. */
  lemma ResetZapsIff(s: State, h: Handle, flags: nat, env: ResetEnv)
    requires Accepted(s, h, flags)
    ensures var s' := LifecycleOps.Reset(s, h, flags, env).0;
      && KeepsObjects(s, s')
      && (flags in {1, 3, 5} || (s.cfg.simulated && flags in {2, 4}) ==> NoDeviceViews(s'))
      && (flags in {0, 6} || (!s.cfg.simulated && flags in {2, 4}) ==> s'.files == s.files)
  {
    ResetCases(s, h, flags);
  }

  /** Surprise removal takes every device view and the device, and nothing else. */
  lemma RemovalZaps(s: State)
    ensures var s' := Removed(s); s'.detached && NoDeviceViews(s') && KeepsObjects(s.(detached := true), s')
  {
  }

  // ---------------------------------------------------------------- whole runs

  /** The event leaves the device to be initialised again, or ends that. */
  ghost predicate SetsFlag(s: State, e: Event) {
    e.Reset? && Accepted(s, e.h, e.flags) && (e.flags == 3 || e.flags == 5 || (e.flags == 4 && s.cfg.simulated))
  }

  ghost predicate ClearsFlag(s: State, e: Event) {
    e.Reset? && Accepted(s, e.h, e.flags) && e.flags == 6
  }

  ghost function Due(run: seq<State>): seq<bool> {
    seq(|run|, n requires 0 <= n < |run| => run[n].needsHwInit)
  }

  ghost function Setting(run: seq<State>, events: seq<Event>): seq<bool>
    requires |run| == |events| + 1
  {
    seq(|events|, n requires 0 <= n < |events| => SetsFlag(run[n], events[n]))
  }

  ghost function Clearing(run: seq<State>, events: seq<Event>): seq<bool>
    requires |run| == |events| + 1
  {
    seq(|events|, n requires 0 <= n < |events| => ClearsFlag(run[n], events[n]))
  }

  lemma FlagAfterStep(s: State, e: Event, s': State)
    requires Step(s, e, s')
    ensures s'.needsHwInit <==> SetsFlag(s, e) || (s.needsHwInit && !ClearsFlag(s, e))
  {
    if e.Reset? {
      if Accepted(s, e.h, e.flags) {
        ResetSetsFlagIff(s, e.h, e.flags, e.resetEnv);
      } else {
        RefusedResetChangesNothing(s, e.h, e.flags, e.resetEnv);
      }
    } else {
      OtherStepsKeepFlag(s, e, s');
    }
  }

  lemma OtherStepsKeepFlag(s: State, e: Event, s': State)
    requires Step(s, e, s') && !e.Reset?
    ensures s'.needsHwInit == s.needsHwInit
  {
  }

  lemma FlagFollows(run: seq<State>, events: seq<Event>)
    requires IsRun(run, events)
    ensures Follows(Due(run), Setting(run, events), Clearing(run, events))
  {
    forall n | 0 <= n < |events|
      ensures Due(run)[n + 1] <==> Setting(run, events)[n] || (Due(run)[n] && !Clearing(run, events)[n])
    {
      FlagAt(run, events, n);
    }
  }

  lemma FlagAt(run: seq<State>, events: seq<Event>, n: nat)
    requires IsRun(run, events) && n < |events|
    ensures run[n + 1].needsHwInit <==> SetsFlag(run[n], events[n]) || (run[n].needsHwInit && !ClearsFlag(run[n], events[n]))
  {
    assert StepAt(run, events, n);
    FlagAfterStep(run[n], events[n], run[n + 1]);
  }

  /** A request of an up-to-date handle that is not exempt is refused exactly when the
      last reset that set or cleared the flag set it, or none did and the device
      started with it set. */
  lemma RefusedIff(run: seq<State>, events: seq<Event>, j: nat, h: Handle, nr: nat)
    requires IsRun(run, events) && j < |run| && h in run[j].files
    requires !run[j].detached && run[j].files[h].openGen == run[j].gen && nr !in {0, 5, 6, 0xFFFF_FFFF}
    ensures Gate(run[j], h, nr) != Success <==>
      || GivenIn(Setting(run, events), Clearing(run, events), 0, j)
      || (run[0].needsHwInit && NotTaken(Clearing(run, events), 0, j))
  {
    FlagFollows(run, events);
    HoldsIff(Due(run), Setting(run, events), Clearing(run, events), 0, j);
  }

  // -------------------------------------------------------------------- frames

  /** The generation moves by one with a reset that starts one and not otherwise; the
      device is gone from its removal on; a process is dead from its exit on; and the
      configuration never changes. */
  lemma GlobalsAfterStep(s: State, e: Event, s': State)
    requires Inv(s) && Step(s, e, s')
    ensures s'.cfg == s.cfg && s'.detached == (s.detached || e.Remove?)
    ensures s'.dead == if e.Exit? then s.dead + {e.process} else s.dead
    ensures s'.gen == s.gen + if StartsOne(s, e) then 1 else 0
  {
    if e.AllocateBuf? || e.FreeBuf? || e.AllocateTlb? || e.FreeTlb? {
      BufRequestsKeepGenerations(s, e, s');
    } else if e.Map? || e.Unmap? || e.Pin? || e.Unpin? {
      CallerRequestsKeepGenerations(s, e, s');
    } else if e.Reset? {
      GlobalsAfterReset(s, e.h, e.flags, e.resetEnv);
    }
    ConfigStays(s, e, s');
  }

  /** An accepted reset of a flavour that starts a generation: 3 and 5, and on the
      simulated device 2 and 4. */
  ghost predicate StartsOne(s: State, e: Event) {
    e.Reset? && Accepted(s, e.h, e.flags) && (e.flags in {3, 5} || (s.cfg.simulated && e.flags in {2, 4}))
  }

  lemma GlobalsAfterReset(s: State, h: Handle, flags: nat, env: ResetEnv)
    requires h in s.files
    ensures var s' := LifecycleOps.Reset(s, h, flags, env).0;
      && s'.detached == s.detached && s'.dead == s.dead
      && s'.gen == s.gen + if StartsOne(s, Event.Reset(h, flags, env)) then 1 else 0
  {
  }

  lemma ConfigStays(s: State, e: Event, s': State)
    requires Step(s, e, s')
    ensures s'.cfg == s.cfg
  {
  }
}
