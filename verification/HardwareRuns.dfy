/** The outbound regions of the hardware itself beside a run of the driver. The
    driver writes a region when it sets one up or tears one down and never again;
    a reset of the chip may clear them all behind its back. */
module HardwareRuns {
  import opened Common
  import opened History
  import opened Iatu
  import opened MemoryState
  import opened MemoryOps
  import opened MappingOps
  import opened LifecycleOps
  import opened RequestResults
  import opened MemoryRuns

  function Cleared(): Apertures {
    seq(REGIONS, _ => None)
  }

  /** What the driver's step writes; every other region is as it was. */
  ghost predicate Writes(s: State, s': State, hw: Apertures, hw': Apertures) {
    && |s.apertures| == |s'.apertures| == |hw| == |hw'| == REGIONS
    && forall r | 0 <= r < REGIONS :: hw'[r] == if s'.apertures[r] != s.apertures[r] then s'.apertures[r] else hw[r]
  }

  /** hw is the hardware along the run; lost tells at which resets it was cleared,
      any or none of them. */
  ghost predicate IsHardwareRun(run: seq<State>, events: seq<Event>, lost: seq<bool>, hw: seq<Apertures>) {
    && IsRun(run, events) && |lost| == |events| && |hw| == |run| && hw[0] == Cleared()
    && forall n {:trigger HardwareStepAt(run, events, lost, hw, n)} | 0 <= n < |events| :: HardwareStepAt(run, events, lost, hw, n)
  }

  ghost predicate HardwareStepAt(run: seq<State>, events: seq<Event>, lost: seq<bool>, hw: seq<Apertures>, n: nat)
    requires n < |events| == |lost| && |hw| == |run| == |events| + 1
  {
    HardwareStep(run[n], events[n], run[n + 1], lost[n], hw[n], hw[n + 1])
  }

  ghost predicate HardwareStep(s: State, e: Event, s': State, lost: bool, hw: Apertures, hw': Apertures) {
    if lost then e.Reset? && hw' == Cleared() else Writes(s, s', hw, hw')
  }

  /** A region of the hardware is what the driver last wrote, or cleared. */
  ghost predicate Within(hw: Apertures, aps: Apertures) {
    |hw| == |aps| && forall r | 0 <= r < |aps| :: hw[r] == aps[r] || hw[r].None?
  }

  lemma {:induction false} HardwareWithin(run: seq<State>, events: seq<Event>, lost: seq<bool>, hw: seq<Apertures>, n: nat)
    requires IsHardwareRun(run, events, lost, hw) && n < |run|
    ensures Within(hw[n], run[n].apertures)
  {
    if n > 0 {
      HardwareWithin(run, events, lost, hw, n - 1);
      WithinAt(run, events, lost, hw, n - 1);
    }
  }

  lemma WithinAt(run: seq<State>, events: seq<Event>, lost: seq<bool>, hw: seq<Apertures>, n: nat)
    requires IsHardwareRun(run, events, lost, hw) && n < |events| && Within(hw[n], run[n].apertures)
    ensures Within(hw[n + 1], run[n + 1].apertures)
  {
    AllRuns(run, events, n + 1);
    assert HardwareStepAt(run, events, lost, hw, n);
    StepKeepsWithin(run[n], events[n], run[n + 1], lost[n], hw[n], hw[n + 1]);
  }

  lemma StepKeepsWithin(s: State, e: Event, s': State, lost: bool, hw: Apertures, hw': Apertures)
    requires HardwareStep(s, e, s', lost, hw, hw') && Within(hw, s.apertures) && |s'.apertures| == REGIONS
    ensures Within(hw', s'.apertures)
  {
  }

  /** Region r of the hardware holds exactly a. */
  ghost function Holding(hw: seq<Apertures>, r: nat, a: Aperture): seq<bool> {
    seq(|hw|, n requires 0 <= n < |hw| => r < |hw[n]| && hw[n][r] == Some(a))
  }

  /** While the record does not change, a region that holds it goes on holding it
      exactly until the hardware is cleared, and never gets it back. */
  lemma {:induction false} RegionHoldsIff(run: seq<State>, events: seq<Event>, lost: seq<bool>, hw: seq<Apertures>,
                                          i: nat, j: nat, r: nat, a: Aperture)
    requires IsHardwareRun(run, events, lost, hw) && i <= j < |run| && r < REGIONS
    requires forall n | i <= n <= j :: |run[n].apertures| == REGIONS && run[n].apertures[r] == Some(a)
    requires Holding(hw, r, a)[i]
    ensures Holding(hw, r, a)[j] <==> NotTaken(lost, i, j)
    decreases j
  {
    if i < j {
      RegionHoldsIff(run, events, lost, hw, i, j - 1, r, a);
      OneStepHolds(run, events, lost, hw, j - 1, r, a);
      assert NotTaken(lost, i, j) <==> NotTaken(lost, i, j - 1) && !lost[j - 1];
    }
  }

  lemma OneStepHolds(run: seq<State>, events: seq<Event>, lost: seq<bool>, hw: seq<Apertures>, n: nat, r: nat, a: Aperture)
    requires IsHardwareRun(run, events, lost, hw) && n < |events| && r < REGIONS
    requires |run[n].apertures| == |run[n + 1].apertures| == REGIONS
    requires run[n].apertures[r] == run[n + 1].apertures[r] == Some(a)
    ensures Holding(hw, r, a)[n + 1] <==> Holding(hw, r, a)[n] && !lost[n]
  {
    HardwareWithin(run, events, lost, hw, n);
    assert HardwareStepAt(run, events, lost, hw, n);
  }

  // --------------------------------------------------------------- translation

  /** With region r of the driver's table covering x, the hardware translates x
      exactly when its region still holds the record, and then to the same
      address. */
  lemma HardwareTargets(s: State, hw: Apertures, r: nat, x: nat)
    requires TablesOk(s) && !s.detached && Within(hw, s.apertures) && r < REGIONS && Hits(s.apertures[r], x)
    ensures Targets(hw, x) == if hw[r] == s.apertures[r] then Targets(s.apertures, x) else {}
  {
    OneTarget(s.claims, s.apertures, r, x);
    assert forall q | 0 <= q < REGIONS && Hits(s.apertures[q], x) :: q == r by {
      assert forall q | 0 <= q < REGIONS && s.apertures[q].Some? :: s.claims[q].Some?;
    }
  }

  lemma {:induction false} AttachedBefore(run: seq<State>, events: seq<Event>, i: nat, j: nat)
    requires IsRun(run, events) && i <= j < |run| && !run[j].detached
    ensures !run[i].detached
    decreases j
  {
    if i < j {
      AttachedAt(run, events, j - 1);
      AttachedBefore(run, events, i, j - 1);
    }
  }

  lemma AttachedAt(run: seq<State>, events: seq<Event>, n: nat)
    requires IsRun(run, events) && n < |events| && !run[n + 1].detached
    ensures !run[n].detached
  {
    assert StepAt(run, events, n);
    if run[n].detached {
      DetachedStays(run[n], events[n], run[n + 1]);
    }
  }

  lemma DetachedStays(s: State, e: Event, s': State)
    requires Step(s, e, s') && s.detached
    ensures s'.detached
  {
    if e.AllocateBuf? || e.FreeBuf? || e.AllocateTlb? || e.FreeTlb? {
      BufRequestsKeepGenerations(s, e, s');
    } else if e.Map? || e.Unmap? || e.Pin? || e.Unpin? {
      CallerRequestsKeepGenerations(s, e, s');
    } else if e.Reset? {
      ResetCases(s, e.h, e.flags);
    }
  }

  function RecordOf(noc: nat, size: nat, physical: nat): Aperture
    requires noc >= NOC_PCIE_OFFSET && size > 0
  {
    Aperture(noc - NOC_PCIE_OFFSET, noc - NOC_PCIE_OFFSET + size - 1, physical)
  }

  /** A request's region is written when it is set up, whatever was there before. */
  lemma SetUpIsWritten(s: State, s': State, hw: Apertures, hw': Apertures,
                       h: Handle, topDown: bool, size: nat, target: nat, noc: nat, region: int)
    requires TablesOk(s) && !s.detached && size > 1 && Writes(s, s', hw, hw')
    requires SetUp(s.claims, s'.claims, s.apertures, s'.apertures, h, topDown, size, target, noc, region)
    ensures region < REGIONS && noc >= NOC_PCIE_OFFSET && hw'[region] == Some(RecordOf(noc, size, target))
  {
  }

  /** Region r is set up by event i, and its record stays until state j. */
  ghost predicate StaysSetUp(run: seq<State>, i: nat, j: nat, r: int, noc: nat, size: nat, physical: nat)
    requires i < j < |run|
  {
    && 0 <= r < REGIONS && noc >= NOC_PCIE_OFFSET && size > 0
    && forall n | i < n <= j :: |run[n].apertures| == REGIONS && run[n].apertures[r] == Some(RecordOf(noc, size, physical))
  }

  /** The hardware translates a byte of such a range exactly when no reset since the
      setup cleared it, and then to the reported address. */
  lemma TranslatedIff(run: seq<State>, events: seq<Event>, lost: seq<bool>, hw: seq<Apertures>, i: nat, j: nat,
                      r: nat, noc: nat, size: nat, physical: nat, k: nat)
    requires IsHardwareRun(run, events, lost, hw) && i < j < |run| && StaysSetUp(run, i, j, r, noc, size, physical)
    requires !run[j].detached && k < size && |hw[i + 1]| == REGIONS && hw[i + 1][r] == Some(RecordOf(noc, size, physical))
    ensures Targets(hw[j], noc - NOC_PCIE_OFFSET + k) == if NotTaken(lost, i + 1, j) then {physical + k} else {}
  {
    var a := RecordOf(noc, size, physical);
    assert Holding(hw, r, a)[i + 1];
    RegionHoldsIff(run, events, lost, hw, i + 1, j, r, a);
    AllRuns(run, events, j);
    HardwareWithin(run, events, lost, hw, j);
    RecordTranslates(run[j], hw[j], r, noc, size, physical, k);
    assert Holding(hw, r, a)[j] <==> hw[j][r] == Some(a);
  }

  lemma RecordTranslates(s: State, hw: Apertures, r: nat, noc: nat, size: nat, physical: nat, k: nat)
    requires TablesOk(s) && !s.detached && Within(hw, s.apertures) && r < REGIONS && noc >= NOC_PCIE_OFFSET && k < size
    requires s.apertures[r] == Some(RecordOf(noc, size, physical))
    ensures Targets(hw, noc - NOC_PCIE_OFFSET + k) == if hw[r] == s.apertures[r] then {physical + k} else {}
  {
    HardwareTargets(s, hw, r, noc - NOC_PCIE_OFFSET + k);
    OneTarget(s.claims, s.apertures, r, noc - NOC_PCIE_OFFSET + k);
  }

  // --------------------------------------------------------- ALLOCATE_DMA_BUF

  lemma BufStaysSetUp(run: seq<State>, events: seq<Event>, i: nat, j: nat, h: Handle, x: nat, b: DmaBuf)
    requires IsRun(run, events) && i < j < |run| && HasBuf(run[i + 1], h, x, b) && b.region != -1
    requires forall n | i < n < j :: !Frees(run[n], events[n], h, x)
    requires !run[j].detached
    ensures b.noc >= NOC_PCIE_OFFSET && b.size > 0 && StaysSetUp(run, i, j, b.region, b.noc, b.size, b.logical)
  {
    forall n | i < n <= j
      ensures 0 <= b.region < REGIONS && b.noc >= NOC_PCIE_OFFSET && b.size > 0
      ensures |run[n].apertures| == REGIONS && run[n].apertures[b.region] == Some(RecordOf(b.noc, b.size, b.logical))
    {
      BufStaysOverRun(run, events, i + 1, n, h, x, b);
      AttachedBefore(run, events, n, j);
      AllRuns(run, events, n);
      BufIsRouted(run[n], h, x, b);
    }
    assert i < j <= j;
  }

  lemma BufIsRouted(s: State, h: Handle, x: nat, b: DmaBuf)
    requires Inv(s) && !s.detached && HasBuf(s, h, x, b) && b.region != -1
    ensures 0 <= b.region < REGIONS == |s.apertures| && b.noc >= NOC_PCIE_OFFSET && b.size > 0
    ensures s.apertures[b.region] == Some(RecordOf(b.noc, b.size, b.logical))
  {
    assert FileOk(s, h, s.files[h]) && BufOk(s, h, x, b);
  }

  /** What ALLOCATE_DMA_BUF reported holds of the hardware, in any later state up to
      its free or close, if and only if no reset in between cleared the regions. */
  lemma BufferTranslatedIff(run: seq<State>, events: seq<Event>, lost: seq<bool>, hw: seq<Apertures>, i: nat, j: nat, k: nat)
    requires IsHardwareRun(run, events, lost, hw) && i < j < |run|
    requires events[i].AllocateBuf? && events[i].status == Success && events[i].buf.nocDma
    requires forall n | i < n < j :: !Frees(run[n], events[n], events[i].h, events[i].buf.index)
    requires !run[j].detached && k < events[i].buf.size
    ensures var b := events[i].b;
      && b.logical == events[i].bufEnv.logical && b.noc >= NOC_PCIE_OFFSET
      && Targets(hw[j], b.noc - NOC_PCIE_OFFSET + k) == if NotTaken(lost, i + 1, j) then {b.logical + k} else {}
  {
    var b := events[i].b;
    BufIsRecordedAt(run, events, i);
    BufStaysSetUp(run, events, i, j, events[i].h, events[i].buf.index, b);
    BufIsWritten(run, events, lost, hw, i);
    TranslatedIff(run, events, lost, hw, i, j, b.region, b.noc, b.size, b.logical, k);
  }

  lemma BufIsWritten(run: seq<State>, events: seq<Event>, lost: seq<bool>, hw: seq<Apertures>, i: nat)
    requires IsHardwareRun(run, events, lost, hw) && i < |events|
    requires events[i].AllocateBuf? && events[i].status == Success && events[i].buf.nocDma
    ensures var b := events[i].b;
      && b.noc >= NOC_PCIE_OFFSET && b.size > 0 && 0 <= b.region < REGIONS == |hw[i + 1]|
      && hw[i + 1][b.region] == Some(RecordOf(b.noc, b.size, b.logical))
  {
    var e := events[i];
    AllRuns(run, events, i);
    assert HardwareStepAt(run, events, lost, hw, i) && StepAt(run, events, i);
    BufSetUp(run[i], e, run[i + 1]);
    SetUpIsWritten(run[i], run[i + 1], hw[i], hw[i + 1], e.h, true, e.buf.size, e.bufEnv.logical, e.b.noc, e.b.region);
  }

  lemma BufSetUp(s: State, e: Event, s': State)
    requires Step(s, e, s') && e.AllocateBuf? && e.status == Success && e.buf.nocDma
    ensures !s.detached && e.buf.size > 1 && e.b.size == e.buf.size && e.b.logical == e.bufEnv.logical
    ensures SetUp(s.claims, s'.claims, s.apertures, s'.apertures, e.h, true, e.buf.size, e.bufEnv.logical, e.b.noc, e.b.region)
  {
  }

  // ------------------------------------------------------------------ PIN_PAGES

  lemma PinStaysSetUp(run: seq<State>, events: seq<Event>, i: nat, j: nat, h: Handle, p: Pinning)
    requires IsRun(run, events) && i < j < |run| && HasPin(run[i + 1], h, p) && p.region != -1
    requires forall n | i < n < j :: !Unpins(run[n], events[n], h, p.va, p.size)
    requires !run[j].detached
    ensures p.noc >= NOC_PCIE_OFFSET && p.size > 0 && StaysSetUp(run, i, j, p.region, p.noc, p.size, p.physical)
  {
    forall n | i < n <= j
      ensures 0 <= p.region < REGIONS && p.noc >= NOC_PCIE_OFFSET && p.size > 0
      ensures |run[n].apertures| == REGIONS && run[n].apertures[p.region] == Some(RecordOf(p.noc, p.size, p.physical))
    {
      PinStaysOverRun(run, events, i + 1, n, h, p);
      AttachedBefore(run, events, n, j);
      AllRuns(run, events, n);
      PinIsRouted(run[n], h, p);
    }
    assert i < j <= j;
  }

  lemma PinIsRouted(s: State, h: Handle, p: Pinning)
    requires Inv(s) && !s.detached && HasPin(s, h, p) && p.region != -1
    ensures 0 <= p.region < REGIONS == |s.apertures| && p.noc >= NOC_PCIE_OFFSET && p.size > 0
    ensures s.apertures[p.region] == Some(RecordOf(p.noc, p.size, p.physical))
  {
    var x :| 0 <= x < |s.files[h].pinnings| && s.files[h].pinnings[x] == p;
    assert FileOk(s, h, s.files[h]) && PinOk(s, h, s.files[h], s.files[h].pinnings[x]);
  }

  /** The same for PIN_PAGES, up to its unpin, its handle's close or its process's
      exit. */
  lemma PinTranslatedIff(run: seq<State>, events: seq<Event>, lost: seq<bool>, hw: seq<Apertures>, i: nat, j: nat, k: nat)
    requires IsHardwareRun(run, events, lost, hw) && i < j < |run|
    requires events[i].Pin? && events[i].status == Success && (events[i].pin.flags.nocDma || events[i].pin.flags.topDown)
    requires forall n | i < n < j :: !Unpins(run[n], events[n], events[i].h, events[i].pin.va, events[i].pin.size)
    requires !run[j].detached && k < events[i].pin.size
    ensures events[i].h in run[i].files
    ensures ByteAt(run[i].files[events[i].h], events[i].pin, events[i].pinEnv, k, events[i].p.physical + k)
    ensures var p := events[i].p;
      && p.noc >= NOC_PCIE_OFFSET
      && Targets(hw[j], p.noc - NOC_PCIE_OFFSET + k) == if NotTaken(lost, i + 1, j) then {p.physical + k} else {}
  {
    var p := events[i].p;
    PinIsRecordedAt(run, events, i);
    PinReportsAt(run, events, i, k);
    PinStaysSetUp(run, events, i, j, events[i].h, p);
    PinIsWritten(run, events, lost, hw, i);
    TranslatedIff(run, events, lost, hw, i, j, p.region, p.noc, p.size, p.physical, k);
  }

  lemma PinIsWritten(run: seq<State>, events: seq<Event>, lost: seq<bool>, hw: seq<Apertures>, i: nat)
    requires IsHardwareRun(run, events, lost, hw) && i < |events|
    requires events[i].Pin? && events[i].status == Success && WantsNoc(events[i].pin.flags)
    ensures var p := events[i].p;
      && p.noc >= NOC_PCIE_OFFSET && p.size > 0 && 0 <= p.region < REGIONS == |hw[i + 1]|
      && hw[i + 1][p.region] == Some(RecordOf(p.noc, p.size, p.physical))
  {
    var e := events[i];
    AllRuns(run, events, i);
    assert HardwareStepAt(run, events, lost, hw, i) && StepAt(run, events, i);
    PinSetUp(run[i], e, run[i + 1]);
    SetUpIsWritten(run[i], run[i + 1], hw[i], hw[i + 1], e.h, e.pin.flags.topDown, e.pin.size, e.p.physical, e.p.noc, e.p.region);
  }

  lemma PinSetUp(s: State, e: Event, s': State)
    requires Step(s, e, s') && e.Pin? && e.status == Success && WantsNoc(e.pin.flags)
    ensures !s.detached && e.pin.size > 1 && e.p.size == e.pin.size
    ensures SetUp(s.claims, s'.claims, s.apertures, s'.apertures, e.h, e.pin.flags.topDown, e.pin.size, e.p.physical, e.p.noc, e.p.region)
  {
  }
}
