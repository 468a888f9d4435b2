/** Opening and closing handles, process exit, reset and surprise removal as
    transitions of the device state. */
module LifecycleOps {
  import opened Common
  import opened Iatu
  import opened TlbPoolSpec
  import opened TlbTokens
  import opened MemoryState
  import opened MemoryOps

  // ------------------------------------------------------------ open and close

  /** TtEvtDeviceFileCreate: the handle joins at the current generation. */
  function Opened(s: State, h: Handle, creator: Process): State {
    s.(files := s.files[h := File(s.gen, creator, [], [], seq(MAX_DMA_BUFS, _ => None))])
  }

  lemma OpenKeepsInv(s: State, h: Handle, creator: Process)
    requires Inv(s) && h !in s.files && creator !in s.dead
    ensures Inv(Opened(s, h, creator))
  {
    var s' := Opened(s, h, creator);
    SizeSumEmpty(s'.files[h].bufs);
    BytesAdd(s.files, h, s'.files[h]);
    forall g | g in s'.files
      ensures FileOk(s', g, s'.files[g])
    {
      if g == h {
        NewFileOk(s', h, s'.files[h]);
      } else {
        Kept(s, s', g, s.files[g]);
      }
    }
  }

  lemma NewFileOk(s: State, h: Handle, f: File)
    requires |s.claims| == |s.apertures| == REGIONS && f.creator !in s.dead
    requires forall r | 0 <= r < REGIONS :: !Owned(s.claims, r, h)
    requires f == File(s.gen, f.creator, [], [], seq(MAX_DMA_BUFS, _ => None))
    ensures FileOk(s, h, f)
  {
  }

  /** Slots of h in the claim table. */
  function OwnedBy(cs: Claims, h: Handle): set<int> {
    set r | 0 <= r < |cs| && Owned(cs, r, h)
  }

  /** What a closed handle must leave behind: nothing of its own, and everything
      of everyone else's. Stated by owner, as the cleanup code never looks. */
  ghost function Closed(s: State, h: Handle): State
    requires h in s.files
  {
    Released(s, OwnedBy(s.claims, h)).(windows := Disowned(s.windows, h), files := s.files - {h},
                                       bytes := s.bytes - SizeSum(s.files[h].bufs))
  }

  lemma CloseKeepsInv(s: State, h: Handle)
    requires Inv(s) && h in s.files
    ensures Inv(Closed(s, h))
  {
    var s' := Closed(s, h);
    ReleasedTables(s, OwnedBy(s.claims, h));
    BytesRemove(s.files, h);
    forall g | g in s'.files
      ensures FileOk(s', g, s'.files[g])
    {
      Kept(s, s', g, s.files[g]);
    }
    forall r | 0 <= r < |s'.claims| && s'.claims[r].Some?
      ensures s'.claims[r].value.owner in s'.files
    {
      assert s.claims[r].Some? && !Owned(s.claims, r, h);
    }
  }

  /** The slots a handle owns are exactly the regions its objects use, so a walk
      over its objects finds every slot. */
  lemma WalkFindsEverySlot(s: State, h: Handle)
    requires Inv(s) && h in s.files
    ensures OwnedBy(s.claims, h) == UsedRegions(s.files[h]) - {-1}
  {
    var f := s.files[h];
    assert FileOk(s, h, f);
    forall r | r in UsedRegions(f) && r != -1
      ensures r in OwnedBy(s.claims, h)
    {
      if i :| 0 <= i < |f.bufs| && f.bufs[i].Some? && f.bufs[i].value.region == r {
        assert BufOk(s, h, i, f.bufs[i].value);
      } else {
        var k :| 0 <= k < |f.pinnings| && f.pinnings[k].region == r;
        assert PinOk(s, h, f, f.pinnings[k]);
      }
    }
  }

  /** After cleanup nothing belongs to the closed handle and everything of every
      other handle is as it was. */
  lemma CloseFreesExactlyItsOwn(s: State, h: Handle)
    requires Inv(s) && h in s.files
    ensures var s' := Closed(s, h);
      && h !in s'.files && OwnedBy(s'.claims, h) == {}
      && (forall w | 0 <= w < |s'.windows| :: s'.windows[w] != Some(h))
      && (!s.detached ==> forall r | r in OwnedBy(s.claims, h) :: s'.apertures[r].None?)
      && s'.files.Keys == s.files.Keys - {h}
      && forall g | g in s.files && g != h :: SameHandle(s, s', g)
  {
    var s' := Closed(s, h);
    forall g | g in s.files && g != h
      ensures SameHandle(s, s', g)
    {
      forall r | r in OwnedBy(s.claims, g)
        ensures !Owned(s.claims, r, h)
      {
      }
    }
  }

  /** Nor is any NOC address of the closed handle translated any more. */
  lemma ClosedIsUnreachable(s: State, h: Handle, r: nat, x: nat)
    requires Inv(s) && h in s.files && !s.detached && r < REGIONS && Owned(s.claims, r, h)
    requires s.claims[r].value.base <= x <= s.claims[r].value.limit
    ensures Targets(Closed(s, h).apertures, x) == {}
  {
    ReleasedIsUnreachable(s, OwnedBy(s.claims, h), r, x);
  }

  /** Handle g keeps its file, its slots with their apertures, and its windows. */
  ghost predicate SameHandle(s: State, s': State, g: Handle) {
    && |s'.claims| == |s.claims| && |s'.apertures| == |s.apertures| && |s.apertures| == |s.claims|
    && |s'.windows| == |s.windows|
    && g in s.files && g in s'.files && s'.files[g] == s.files[g]
    && OwnedBy(s'.claims, g) == OwnedBy(s.claims, g)
    && (forall r | r in OwnedBy(s.claims, g) :: s'.claims[r] == s.claims[r] && s'.apertures[r] == s.apertures[r])
    && (forall w | 0 <= w < |s.windows| :: s'.windows[w] == Some(g) <==> s.windows[w] == Some(g))
  }

  // -------------------------------------------------------------- process exit

  function ExitFile(f: File, p: Process): File {
    if f.creator == p then f.(mappings := [], pinnings := []) else f
  }

  /** Regions of the pinnings of those handles among hs that p created. */
  function PinnedBy(files: map<Handle, File>, p: Process, hs: set<Handle>): set<int> {
    set h, k | h in hs && h in files && files[h].creator == p && 0 <= k < |files[h].pinnings| :: files[h].pinnings[k].region
  }

  function ExitRegions(s: State, p: Process): set<int> {
    PinnedBy(s.files, p, s.files.Keys)
  }

  /** The walk over the handle list has passed hs. */
  function ExitedSoFar(s: State, p: Process, hs: set<Handle>): State {
    Released(s, PinnedBy(s.files, p, hs)).(files := map h | h in s.files ::
      if h in hs then ExitFile(s.files[h], p) else s.files[h])
  }

  /** TtProcessNotify on one device. */
  function Exited(s: State, p: Process): State {
    Released(s, ExitRegions(s, p)).(files := map h | h in s.files :: ExitFile(s.files[h], p), dead := s.dead + {p})
  }

  /** The regions torn down at exit belong to handles of p, and to none of their
      buffers. */
  lemma ExitRegionsArePinned(s: State, p: Process, h: Handle, r: int)
    requires Inv(s) && h in s.files && 0 <= r < REGIONS && Owned(s.claims, r, h)
    ensures r in ExitRegions(s, p) <==> s.files[h].creator == p && r in PinRegions(s.files[h].pinnings)
  {
    if r in ExitRegions(s, p) {
      var g, k :| g in s.files && s.files[g].creator == p && 0 <= k < |s.files[g].pinnings| && s.files[g].pinnings[k].region == r;
      assert FileOk(s, g, s.files[g]) && PinOk(s, g, s.files[g], s.files[g].pinnings[k]);
      assert g == h;
    }
  }

  lemma ExitKeepsInv(s: State, p: Process)
    requires Inv(s)
    ensures Inv(Exited(s, p))
  {
    var s' := Exited(s, p);
    ReleasedTables(s, ExitRegions(s, p));
    BytesSame(s.files, s'.files);
    assert OwnersOpen(s') by {
      assert s'.files.Keys == s.files.Keys;
    }
    forall h | h in s'.files
      ensures FileOk(s', h, s'.files[h])
    {
      ExitFileOk(s, p, h);
    }
  }

  lemma ExitFileOk(s: State, p: Process, h: Handle)
    requires Inv(s) && h in s.files
    ensures FileOk(Exited(s, p), h, ExitFile(s.files[h], p))
  {
    var s', f := Exited(s, p), s.files[h];
    var f' := ExitFile(f, p);
    assert FileOk(s, h, f);
    forall i | 0 <= i < |f.bufs| && f.bufs[i].Some?
      ensures BufOk(s', h, i, f.bufs[i].value)
    {
      var b := f.bufs[i].value;
      assert BufOk(s, h, i, b);
      if b.region != -1 {
        ExitRegionsArePinned(s, p, h, b.region);
      }
    }
    forall k | 0 <= k < |f'.pinnings|
      ensures PinOk(s', h, f', f'.pinnings[k])
    {
      var q := f.pinnings[k];
      assert PinOk(s, h, f, q);
      if q.region != -1 {
        ExitRegionsArePinned(s, p, h, q.region);
      }
    }
    forall k | 0 <= k < |f'.mappings|
      ensures MapOk(s', h, f', f'.mappings[k])
    {
      assert MapOk(s, h, f, f.mappings[k]);
    }
    forall r | 0 <= r < REGIONS && Owned(s'.claims, r, h)
      ensures r in UsedRegions(f')
    {
      assert Owned(s.claims, r, h) && r !in ExitRegions(s, p);
      ExitRegionsArePinned(s, p, h, r);
    }
  }

  /** Process exit empties every handle of p of mappings and pinnings, so that it
      keeps just its buffers' regions; all buffers and windows stay. */
  lemma ExitReleasesProcessState(s: State, p: Process, h: Handle)
    requires Inv(s) && h in s.files && s.files[h].creator == p
    ensures var s', f := Exited(s, p), s.files[h];
      && s'.windows == s.windows && s'.files.Keys == s.files.Keys && s'.bytes == s.bytes
      && s'.files[h] == f.(mappings := [], pinnings := [])
      && OwnedBy(s'.claims, h) == BufRegions(f.bufs) - {-1}
  {
    ExitKeepsInv(s, p);
    WalkFindsEverySlot(Exited(s, p), h);
    ExitedFile(s, p, h);
  }

  lemma ExitedFile(s: State, p: Process, h: Handle)
    requires h in s.files && s.files[h].creator == p
    ensures Exited(s, p).files[h] == s.files[h].(mappings := [], pinnings := [])
    ensures UsedRegions(Exited(s, p).files[h]) == BufRegions(s.files[h].bufs)
  {
    assert PinRegions([]) == {};
  }

  /** Every handle of another process is as it was. */
  lemma ExitSparesOthers(s: State, p: Process, h: Handle)
    requires Inv(s) && h in s.files && s.files[h].creator != p
    ensures SameHandle(s, Exited(s, p), h)
  {
    forall r | 0 <= r < REGIONS && Owned(s.claims, r, h)
      ensures r !in ExitRegions(s, p)
    {
      ExitRegionsArePinned(s, p, h, r);
    }
  }

  // ------------------------------------------------------------ reset, removal

  /** The views that survive a zap: those of DMA buffers. */
  function DmaViews(ms: seq<Mapping>): (r: seq<Mapping>)
    ensures forall m :: m in r <==> m in ms && m.isDmaBuf
  {
    if ms == [] then []
    else if ms[0].isDmaBuf then [ms[0]] + DmaViews(ms[1..])
    else DmaViews(ms[1..])
  }

  /** The zap has passed the handles hs. */
  function ZappedSoFar(s: State, hs: set<Handle>): State {
    s.(files := map h | h in s.files ::
      if h in hs then s.files[h].(mappings := DmaViews(s.files[h].mappings)) else s.files[h])
  }

  /** TtResetZapMappings. */
  function Zapped(s: State): State {
    s.(files := map h | h in s.files :: s.files[h].(mappings := DmaViews(s.files[h].mappings)))
  }

  /** The generation step of TtBumpResetGen. */
  function Bumped(s: State, h: Handle): State
    requires h in s.files
  {
    s.(gen := s.gen + 1, files := s.files[h := s.files[h].(openGen := s.gen + 1)])
  }

  /** A reset with its bump: new generation, every device view gone. */
  function NewGeneration(s: State, h: Handle): State
    requires h in s.files
  {
    Zapped(Bumped(s, h))
  }

  /** TtEvtDeviceSurpriseRemoval. */
  function Removed(s: State): State {
    Zapped(s.(detached := true))
  }

  /** States that differ in generation or detachment, and have no device views. */
  lemma ZapKeepsInv(s: State, s': State)
    requires Inv(s) && s'.files.Keys == s.files.Keys
    requires s' == s.(files := s'.files, gen := s'.gen, detached := s'.detached, needsHwInit := s'.needsHwInit)
    requires s.detached ==> s'.detached
    requires forall h | h in s.files ::
      && s'.files[h].openGen <= s'.gen
      && s'.files[h] == s.files[h].(openGen := s'.files[h].openGen, mappings := DmaViews(s.files[h].mappings))
    ensures Inv(s')
  {
    BytesSame(s.files, s'.files);
    forall h | h in s'.files
      ensures FileOk(s', h, s'.files[h])
    {
      ZapFileOk(s, s', h, s.files[h], s'.files[h]);
    }
  }

  lemma ZapFileOk(s: State, s': State, h: Handle, f: File, f': File)
    requires |s.claims| == |s.apertures| == REGIONS && FileOk(s, h, f) && f'.openGen <= s'.gen
    requires s'.claims == s.claims && s'.apertures == s.apertures && s'.windows == s.windows && s'.dead == s.dead
    requires s.detached ==> s'.detached
    requires f' == f.(openGen := f'.openGen, mappings := DmaViews(f.mappings))
    ensures FileOk(s', h, f')
  {
    forall i | 0 <= i < |f.bufs| && f.bufs[i].Some?
      ensures BufOk(s', h, i, f.bufs[i].value)
    {
      assert BufOk(s, h, i, f.bufs[i].value);
    }
    forall k | 0 <= k < |f.pinnings|
      ensures PinOk(s', h, f', f.pinnings[k])
    {
      assert PinOk(s, h, f, f.pinnings[k]);
    }
    forall k | 0 <= k < |f'.mappings|
      ensures MapOk(s', h, f', f'.mappings[k])
    {
      assert f'.mappings[k] in f'.mappings;
      var j :| 0 <= j < |f.mappings| && f.mappings[j] == f'.mappings[k];
      assert MapOk(s, h, f, f.mappings[j]);
    }
    assert UsedRegions(f') == UsedRegions(f);
  }

  lemma GenerationsAreOld(s: State, h: Handle)
    requires Inv(s) && h in s.files
    ensures s.files[h].openGen <= s.gen
  {
    assert FileOk(s, h, s.files[h]);
  }

  lemma NewGenerationKeepsInv(s: State, h: Handle)
    requires Inv(s) && h in s.files
    ensures Inv(NewGeneration(s, h))
  {
    forall g | g in s.files
      ensures s.files[g].openGen <= s.gen
    {
      GenerationsAreOld(s, g);
    }
    ZapKeepsInv(s, NewGeneration(s, h));
  }

  lemma RemovalKeepsInv(s: State)
    requires Inv(s)
    ensures Inv(Removed(s))
  {
    forall g | g in s.files
      ensures s.files[g].openGen <= s.gen
    {
      GenerationsAreOld(s, g);
    }
    ZapKeepsInv(s, Removed(s));
  }

  /** A bump leaves exactly the resetter current. */
  lemma OnlyResetterCurrent(s: State, h: Handle)
    requires Inv(s) && h in s.files && !s.detached
    ensures forall g | g in s.files :: Current(NewGeneration(s, h), g) <==> g == h
  {
    forall g | g in s.files
      ensures s.files[g].openGen <= s.gen
    {
      GenerationsAreOld(s, g);
    }
  }

  /** No device view survives; every buffer view does. */
  lemma ZapSparesBufferViews(s: State, h: Handle)
    requires h in s.files
    ensures forall m | m in Zapped(s).files[h].mappings :: m.isDmaBuf
    ensures forall m | m in s.files[h].mappings && m.isDmaBuf :: m in Zapped(s).files[h].mappings
  {
  }

  // --------------------------------------------------------------- RESET_DEVICE

  const RESTORE_STATE := 0
  const RESET_PCIE_LINK := 1
  const CONFIG_WRITE := 2
  const USER_RESET := 3
  const ASIC_RESET := 4
  const ASIC_DMC_RESET := 5
  const POST_RESET := 6

  /** What the PCI and firmware work of a reset returns. */
  datatype ResetEnv = ResetEnv(hardwareOk: bool, markerZero: bool, outputOk: bool)

  datatype ResetReply = ResetReply(status: Status, result: nat)

  /** TtResetLegacyFlagPermitted. */
  predicate FlagPermitted(c: Config, flags: nat) {
    (flags != CONFIG_WRITE && flags != ASIC_RESET) || c.simulated
  }

  function ResetState(s: State, h: Handle, flags: nat): State
    requires h in s.files
  {
    if flags == RESET_PCIE_LINK then Zapped(s)
    else if !FlagPermitted(s.cfg, flags) then s
    else if flags == CONFIG_WRITE then NewGeneration(s, h)
    else if flags == USER_RESET || flags == ASIC_RESET || flags == ASIC_DMC_RESET then
      NewGeneration(s, h).(needsHwInit := true)
    else if flags == POST_RESET then s.(needsHwInit := false)
    else s
  }

  predicate ResetOk(s: State, flags: nat, env: ResetEnv) {
    if !FlagPermitted(s.cfg, flags) then false
    else if flags == USER_RESET then true
    else if flags == ASIC_RESET || flags == ASIC_DMC_RESET then s.cfg.isBlackhole && env.hardwareOk
    else if flags == POST_RESET then env.markerZero && (s.needsHwInit ==> env.hardwareOk)
    else env.hardwareOk
  }

  /** RESET_DEVICE: a failed reset still succeeds as a request and reports 1; a
      short output buffer turns the reply into a fault after the reset. */
  function Reset(s: State, h: Handle, flags: nat, env: ResetEnv): (State, ResetReply)
    requires h in s.files
  {
    if Gate(s, h, NR_RESET_DEVICE) != Success then (s, ResetReply(Gate(s, h, NR_RESET_DEVICE), 0))
    else if flags > POST_RESET then (s, ResetReply(InvalidParameter, 0))
    else (ResetState(s, h, flags),
          ResetReply(if env.outputOk then Success else AccessViolation, if ResetOk(s, flags, env) then 0 else 1))
  }

  lemma ResetKeepsInv(s: State, h: Handle, flags: nat, env: ResetEnv)
    requires Inv(s) && h in s.files
    ensures Inv(Reset(s, h, flags, env).0)
  {
    if flags == RESET_PCIE_LINK {
      ZapAloneKeepsInv(s);
    } else if flags == POST_RESET {
      HwInitKeepsInv(s, false);
    } else {
      NewGenerationKeepsInv(s, h);
      HwInitKeepsInv(NewGeneration(s, h), true);
    }
    ResetCases(s, h, flags);
  }

  /** The four things a reset can do to the state. */
  lemma ResetCases(s: State, h: Handle, flags: nat)
    requires h in s.files
    ensures var s', n := ResetState(s, h, flags), NewGeneration(s, h);
      || s' == s || (s' == Zapped(s) && flags == RESET_PCIE_LINK)
      || (s' == s.(needsHwInit := false) && flags == POST_RESET)
      || (flags in {CONFIG_WRITE, USER_RESET, ASIC_RESET, ASIC_DMC_RESET} && (s' == n || s' == n.(needsHwInit := true)))
  {
  }

  lemma ZapAloneKeepsInv(s: State)
    requires Inv(s)
    ensures Inv(Zapped(s))
  {
    forall g | g in s.files
      ensures s.files[g].openGen <= s.gen
    {
      GenerationsAreOld(s, g);
    }
    ZapKeepsInv(s, Zapped(s));
  }

  lemma HwInitKeepsInv(s: State, needed: bool)
    requires Inv(s)
    ensures Inv(s.(needsHwInit := needed))
  {
    var s' := s.(needsHwInit := needed);
    forall g | g in s.files
      ensures FileOk(s', g, s.files[g])
    {
      Kept(s, s', g, s.files[g]);
    }
  }

  /** After a bump: the next generation, the resetter alone in it, and nobody with
      a view of the device. */
  ghost predicate FreshGeneration(s: State, s': State, h: Handle) {
    && s'.gen == s.gen + 1
    && (forall g | g in s'.files :: Current(s', g) <==> g == h)
    && (forall g, m | g in s'.files && m in s'.files[g].mappings :: m.isDmaBuf)
  }

  lemma NewGenerationIsFresh(s: State, h: Handle)
    requires Inv(s) && h in s.files && !s.detached
    ensures FreshGeneration(s, NewGeneration(s, h), h)
    ensures FreshGeneration(s, NewGeneration(s, h).(needsHwInit := true), h)
  {
    OnlyResetterCurrent(s, h);
  }

  /** The flavours that start a generation: 3 and 5 always, 2 and 4 only on the
      simulated device. */
  predicate StartsGeneration(c: Config, flags: nat) {
    flags == USER_RESET || flags == ASIC_DMC_RESET || (c.simulated && (flags == CONFIG_WRITE || flags == ASIC_RESET))
  }

  /** RESET_DEVICE starts a generation if and only if its gate is open and its
      flavour does, and then leaves a fresh one; otherwise every handle's
      generation is as it was. Flavours 2 and 4 change nothing on silicon and
      report failure. */
  lemma ResetBumpsIff(s: State, h: Handle, flags: nat, env: ResetEnv)
    requires Inv(s) && h in s.files
    ensures var (s', reply) := Reset(s, h, flags, env);
      && (s'.gen != s.gen <==> Current(s, h) && StartsGeneration(s.cfg, flags))
      && (if s'.gen != s.gen then FreshGeneration(s, s', h)
          else s'.files.Keys == s.files.Keys && forall g | g in s.files :: s'.files[g].openGen == s.files[g].openGen)
      && (Current(s, h) && !s.cfg.simulated && flags in {CONFIG_WRITE, ASIC_RESET} ==> s' == s && reply.result == 1)
  {
    if Gate(s, h, NR_RESET_DEVICE) == Success && flags <= POST_RESET {
      if StartsGeneration(s.cfg, flags) {
        NewGenerationIsFresh(s, h);
      } else {
        NoNewGeneration(s, h, flags);
      }
    }
  }

  lemma NoNewGeneration(s: State, h: Handle, flags: nat)
    requires h in s.files && !StartsGeneration(s.cfg, flags)
    ensures var s' := ResetState(s, h, flags);
      && s'.gen == s.gen && s'.files.Keys == s.files.Keys && forall g | g in s.files :: s'.files[g].openGen == s.files[g].openGen
  {
  }
}
