/** Runs to the states in which something goes wrong: the failing inputs of the
    other modules do occur. All of them are on one attached Blackhole in an
    identity domain. */
module Reached {
  import opened Common
  import opened Iatu
  import opened WindowGeometry
  import opened TlbPoolSpec
  import opened TlbTokens
  import opened MemoryState
  import opened MemoryOps
  import opened MappingOps
  import opened LifecycleOps
  import opened KernelState
  import opened MemoryRuns
  import opened TwoStep
  import opened TlbRaces

  const CONFIG := Config(true, true, true, false, 8, [0x4000_0000, 0, 0x6000_0000, 0, 0x80_0000_0000, 0],
                         [0x2000_0000, 0, 0x10_0000, 0, 0x8_0000_0000, 0], 0)
  const VA: UserVa := 0x10000
  const NO_BUFS: Slots := seq(MAX_DMA_BUFS, _ => None)

  /** Handle 1 of process 7, open with these objects. */
  function With(ms: seq<Mapping>, ps: seq<Pinning>, bufs: Slots, bytes: nat): State {
    Start(CONFIG, false).(files := map[1 := File(0, 7, ms, ps, bufs)], bytes := bytes)
  }

  const OPENED := With([], [], NO_BUFS, 0)

  lemma ReachOpen()
    ensures Step(Start(CONFIG, false), Open(1, 7), OPENED)
  {
    assert OPENED.files == Opened(Start(CONFIG, false), 1, 7).files;
  }

  // ------------------------------------------- a buffer with one reference left

  const BUF := DmaBuf(0, 0, PAGE, 0, 0, -1, 0)
  const HELD: Slots := NO_BUFS[0 := Some(BUF)]
  const VIEW := Mapping(VA, PAGE, 0, Cached, -1, true, Some(BUF), 7)
  const PIN := Pinning(VA, PAGE, 0, Some(BUF), 0, NOC_PCIE_OFFSET)

  const ALLOCATE := AllocateBuf(1, BufRequest(0, PAGE, false), BufEnv(true, 0, 0, true, 0, true), Success, BUF)
  const MAP := Event.Map(1, 7, SlotToken(0), PAGE, MapEnv(true, true, Some(VA), true))
  const PIN_VIEW := Pin(1, 7, PinRequest(VA, PAGE, PinFlags(false, true, false, false, false)),
                        PinEnv(true, true, false, [], true), Success, PIN)
  const UNMAP := Event.Unmap(1, 7, VA, 0)

  const ALLOCATED := With([], [], HELD, PAGE)
  const SHOWN := With([VIEW], [], HELD, PAGE)
  const PINNED := Aiming(With([VIEW], [PIN], HELD, PAGE))
  const UNMAPPED := Aiming(With([], [PIN], HELD, PAGE))

  /** Region 0 aimed at the buffer. */
  function Aiming(s: State): State
    requires |s.claims| == |s.apertures| == REGIONS
  {
    s.(claims := s.claims[0 := Some(Claim(1, 0, PAGE - 1))], apertures := s.apertures[0 := Some(Aperture(0, PAGE - 1, 0))])
  }

  lemma ReachBuffer()
    ensures Step(OPENED, ALLOCATE, ALLOCATED)
  {
    assert ALLOCATED.files == OPENED.files[1 := OPENED.files[1].(bufs := OPENED.files[1].bufs[0 := Some(BUF)])];
  }

  lemma ReachView()
    ensures Step(ALLOCATED, MAP, SHOWN)
  {
    SlotRoundTrip(0, PAGE);
    assert ALLOCATED.files[1].mappings + [VIEW] == [VIEW];
    assert SHOWN.files == ALLOCATED.files[1 := ALLOCATED.files[1].(mappings := [VIEW])];
  }

  lemma ReachPin()
    ensures Step(SHOWN, PIN_VIEW, PINNED)
  {
    var k := FindViewFindsFirst([VIEW], VA, PAGE);
    assert InView(VIEW, VA, PAGE);
    assert Fits(SHOWN.claims, PAGE, 0) && SHOWN.claims[0].None?;
    assert SHOWN.files[1].pinnings + [PIN] == [PIN];
    assert PINNED.files == SHOWN.files[1 := SHOWN.files[1].(pinnings := [PIN])];
  }

  lemma ReachUnmap()
    ensures Step(PINNED, UNMAP, UNMAPPED)
  {
    assert FirstAt(MappingVas([VIEW]), VA) == 0;
    assert RemoveAt([VIEW], 0) == [];
    assert UNMAPPED.files == PINNED.files[1 := PINNED.files[1].(mappings := [])];
  }

  /** A handle allocates a buffer and maps it: the view alone refers to the buffer.
      This is where FreeRacesUnmap starts. */
  lemma UnmapRaceIsReached() returns (run: seq<State>, events: seq<Event>, k: Holdings)
    ensures IsRun(run, events) && Matches(k, run[|events|])
    ensures var s := run[|events|];
      1 in s.files && OnlyShown(s.files[1], 0, BUF) && Gate(s, 1, NR_FREE_DMA_BUF_EX) == Success
  {
    run, events := [Start(CONFIG, false), OPENED, ALLOCATED, SHOWN], [Open(1, 7), ALLOCATE, MAP];
    ReachOpen();
    ReachBuffer();
    ReachView();
    k := Holdings({Buffer(1, 0)}, map[], map[1 := [VIEW]]);
    assert FileMatches(k, 1, SHOWN.files[1], false);
  }

  /** It also pins the view with NOC access and unmaps it: the pinning alone refers
      to the buffer. This is where FreeRacesUnpin starts. */
  lemma UnpinRaceIsReached() returns (run: seq<State>, events: seq<Event>, k: Holdings)
    ensures IsRun(run, events) && Matches(k, run[|events|])
    ensures var s := run[|events|];
      1 in s.files && OnlyPinned(s.files[1], 0, BUF) && Gate(s, 1, NR_FREE_DMA_BUF_EX) == Success
  {
    run := [Start(CONFIG, false), OPENED, ALLOCATED, SHOWN, PINNED, UNMAPPED];
    events := [Open(1, 7), ALLOCATE, MAP, PIN_VIEW, UNMAP];
    ReachOpen();
    ReachBuffer();
    ReachView();
    ReachPin();
    ReachUnmap();
    k := Holdings({Buffer(1, 0)}, map[0 := Buffer(1, 0)], map[1 := []]);
    PinnedIsHeld(k);
  }

  lemma PinnedIsHeld(k: Holdings)
    requires k == Holdings({Buffer(1, 0)}, map[0 := Buffer(1, 0)], map[1 := []])
    ensures Matches(k, UNMAPPED)
  {
    var f := UNMAPPED.files[1];
    assert BackedBy(f.pinnings[0], 0) && ListedIn(f, 0, Buffer(1, 0));
    assert FileMatches(k, 1, f, false);
  }

  // -------------------------------------- two pinnings at one address

  const SMALL := Pinning(VA, PAGE, PAGE, None, -1, 0)
  const LARGE := Pinning(VA, 2 * PAGE, PAGE, None, -1, 0)
  const PLAIN := PinFlags(false, false, false, false, false)
  const PIN_SMALL := Pin(1, 7, PinRequest(VA, PAGE, PLAIN), PinEnv(true, true, true, [1], true), Success, SMALL)
  const PIN_LARGE := Pin(1, 7, PinRequest(VA, 2 * PAGE, PLAIN), PinEnv(true, true, true, [1, 2], true), Success, LARGE)

  lemma ReachSmall()
    ensures Step(OPENED, PIN_SMALL, With([], [SMALL], NO_BUFS, 0))
  {
    var s' := With([], [SMALL], NO_BUFS, 0);
    assert OPENED.files[1].pinnings + [SMALL] == [SMALL];
    assert s'.files == OPENED.files[1 := OPENED.files[1].(pinnings := [SMALL])];
  }

  lemma ReachLarge()
    ensures Step(With([], [SMALL], NO_BUFS, 0), PIN_LARGE, With([], [SMALL, LARGE], NO_BUFS, 0))
  {
    var s, s' := With([], [SMALL], NO_BUFS, 0), With([], [SMALL, LARGE], NO_BUFS, 0);
    assert s.files[1].pinnings + [LARGE] == [SMALL, LARGE];
    assert s'.files == s.files[1 := s.files[1].(pinnings := [SMALL, LARGE])];
  }

  /** A handle pins one page and then two pages at the same address. The second
      pinning exists, and cannot be unpinned before the first. */
  lemma UnpinCanMissItsPinning() returns (run: seq<State>, events: seq<Event>)
    ensures IsRun(run, events)
    ensures var s := run[|events|];
      && 1 in s.files && LARGE in s.files[1].pinnings && CallerGate(s, 1, NR_UNPIN_PAGES, 7) == Success
      && MappingOps.Unpin(s, 1, 7, LARGE.va, LARGE.size, 0) == (s, InvalidParameter)
  {
    run := [Start(CONFIG, false), OPENED, With([], [SMALL], NO_BUFS, 0), With([], [SMALL, LARGE], NO_BUFS, 0)];
    events := [Open(1, 7), PIN_SMALL, PIN_LARGE];
    ReachOpen();
    ReachSmall();
    ReachLarge();
    assert run[3].files[1].pinnings[1] == LARGE;
    assert FirstAt(PinVas([SMALL, LARGE]), VA) == 0;
  }

  // ------------------------------------------------------- a window on the move

  const TOKENS := WindowReply(CONFIG, 0)
  const BOTH := OPENED.(files := OPENED.files[2 := File(0, 8, [], [], NO_BUFS)])
  const FIRST := ClaimTlb(BOTH, 1, 0)
  const SECOND := ClaimTlb(BOTH, 2, 0)

  /** Where RollbackRacesMap starts, for window 0. */
  lemma RollbackMapRaceIsReached() returns (run: seq<State>, events: seq<Event>)
    ensures IsRun(run, events)
    ensures var s := run[|events|];
      && Inv(s) && Current(s, 1) && s.cfg.isBlackhole && |s.files[1].bufs| == MAX_DMA_BUFS
      && Describe(s.cfg.tlb4gCount, 0).Some? && IsFree(s.windows, 0)
  {
    run, events := [Start(CONFIG, false), OPENED], [Open(1, 7)];
    ReachOpen();
    AllRuns(run, events, 1);
  }

  /** Two handles; the first is given window 0 and frees it, the second is given it.
      A CONFIGURE_TLB of the first that passed its check at state 3 and writes at
      state 5 sets the second's window, and an ALLOCATE_TLB that claimed it by
      state 3 and rolls back at state 5 takes it away from the second. */
  lemma WindowRacesAreReached() returns (run: seq<State>, events: seq<Event>)
    ensures IsRun(run, events) && |events| == 5
    ensures HasWindow(run, 1, 0)[3] && !HasWindow(run, 1, 0)[5] && HasWindow(run, 2, 0)[5]
    ensures |run[5].windows| == WINDOWS_TOTAL && !OthersKeepWindows(run[5], RollbackTlb(run[5], 0), 1)
  {
    run := [Start(CONFIG, false), OPENED, BOTH, FIRST, BOTH, SECOND];
    events := [Open(1, 7), Open(2, 8), Event.AllocateTlb(1, SIZE_2M, true, TOKENS), Event.FreeTlb(1, 0),
               Event.AllocateTlb(2, SIZE_2M, true, TOKENS)];
    ReachOpen();
    ReachBoth();
    ReachFirst();
    ReachFreed();
    ReachSecond();
  }

  lemma ReachBoth()
    ensures Step(OPENED, Open(2, 8), BOTH)
  {
    assert BOTH.files == Opened(OPENED, 2, 8).files;
  }

  lemma ReachFirst()
    ensures Step(BOTH, Event.AllocateTlb(1, SIZE_2M, true, TOKENS), FIRST)
  {
    assert IsFirstFreeWindow(BOTH.windows, 0, WINDOWS_2M, 0);
  }

  lemma ReachFreed()
    ensures Step(FIRST, Event.FreeTlb(1, 0), BOTH)
  {
    assert FIRST.windows[0 := None] == BOTH.windows;
  }

  lemma ReachSecond()
    ensures Step(BOTH, Event.AllocateTlb(2, SIZE_2M, true, TOKENS), SECOND)
  {
    assert IsFirstFreeWindow(BOTH.windows, 0, WINDOWS_2M, 0);
  }
}
