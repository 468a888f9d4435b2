/** The per-handle lists and slots, with the walks that memory.c makes over
    them. */
module FileContexts {
  import opened Common
  import opened TlbTokens
  import opened MemoryState
  import opened MemoryOps
  import opened MappingOps
  import opened LifecycleOps
  import opened KernelState

  lemma FirstAtIs(vas: seq<nat>, va: nat, k: nat)
    requires k < |vas| && vas[k] == va && forall j | 0 <= j < k :: vas[j] != va
    ensures FirstAt(vas, va) == k
  {
  }

  lemma {:induction false} DmaViewsConcat(xs: seq<Mapping>, ys: seq<Mapping>)
    ensures DmaViews(xs + ys) == DmaViews(xs) + DmaViews(ys)
    decreases |xs|
  {
    if xs == [] {
      assert xs + ys == ys;
    } else {
      assert (xs + ys)[1..] == xs[1..] + ys;
      DmaViewsConcat(xs[1..], ys);
    }
  }

  lemma DmaViewsWithout(ms: seq<Mapping>, k: nat)
    requires k < |ms| && !ms[k].isDmaBuf
    ensures DmaViews(RemoveAt(ms, k)) == DmaViews(ms)
  {
    var xs, m, ys := ms[..k], ms[k], ms[k + 1..];
    assert ms == xs + ([m] + ys);
    DmaViewsConcat(xs, [m] + ys);
    DmaViewsConcat([m], ys);
    DmaViewsConcat(xs, ys);
  }

  lemma {:induction false} DmaViewsOfViews(ms: seq<Mapping>)
    requires forall k | 0 <= k < |ms| :: ms[k].isDmaBuf
    ensures DmaViews(ms) == ms
    decreases |ms|
  {
    if ms != [] {
      DmaViewsOfViews(ms[1..]);
    }
  }

  class FileContext {
    var openResetGen: int
    const creator: Process
    var mappings: seq<Mapping>
    var pinnings: seq<Pinning>
    var dmaBufs: Slots

    function View(): File
      reads this
    {
      File(openResetGen, creator, mappings, pinnings, dmaBufs)
    }

    /** TtEvtDeviceFileCreate and TtFileContextInitMemory. */
    constructor (gen: int, caller: Process)
      ensures View() == File(gen, caller, [], [], seq(MAX_DMA_BUFS, _ => None))
    {
      openResetGen, creator := gen, caller;
      mappings, pinnings, dmaBufs := [], [], seq(MAX_DMA_BUFS, _ => None);
    }

    /** The -EBUSY walk of FREE_TLB. */
    method IsWindowMapped(id: nat) returns (found: bool)
      ensures found <==> WindowMapped(View(), id)
    {
      var k := 0;
      while k < |mappings|
        invariant 0 <= k <= |mappings|
        invariant forall j | 0 <= j < k :: mappings[j].tlbId != id
      {
        if mappings[k].tlbId == id {
          return true;
        }
        k := k + 1;
      }
      return false;
    }

    /** The two -EBUSY walks of FREE_DMA_BUF_EX. */
    method IsReferenced(b: DmaBuf) returns (found: bool)
      ensures found <==> BufMapped(View(), b) || BufPinned(View(), b)
    {
      var k := 0;
      while k < |mappings|
        invariant 0 <= k <= |mappings|
        invariant forall j | 0 <= j < k :: mappings[j].dmaBuf != Some(b)
      {
        if mappings[k].dmaBuf == Some(b) {
          return true;
        }
        k := k + 1;
      }
      k := 0;
      while k < |pinnings|
        invariant 0 <= k <= |pinnings|
        invariant forall j | 0 <= j < k :: pinnings[j].backing != Some(b)
      {
        if pinnings[k].backing == Some(b) {
          return true;
        }
        k := k + 1;
      }
      return false;
    }

    /** The -EEXIST walk of PIN_PAGES. */
    method IsPinned(va: nat, size: nat) returns (found: bool)
      ensures found <==> AlreadyPinned(pinnings, va, size)
    {
      var k := 0;
      while k < |pinnings|
        invariant 0 <= k <= |pinnings|
        invariant forall j | 0 <= j < k :: pinnings[j].va != va || pinnings[j].size != size
      {
        if pinnings[k].va == va && pinnings[k].size == size {
          return true;
        }
        k := k + 1;
      }
      return false;
    }

    /** TtFindDmaBufView. */
    method FindDmaBufView(va: nat, size: nat) returns (view: Option<(DmaBuf, nat)>)
      ensures view == FindView(mappings, va, size)
    {
      var k := 0;
      while k < |mappings|
        invariant 0 <= k <= |mappings|
        invariant forall j | 0 <= j < k :: !InView(mappings[j], va, size)
      {
        var m := mappings[k];
        if m.isDmaBuf && m.dmaBuf.Some? && va >= m.va && size <= m.length && va - m.va <= m.length - size {
          ghost var first := FindViewFindsFirst(mappings, va, size);
          assert first == k;
          return Some((m.dmaBuf.value, va - m.va));
        }
        k := k + 1;
      }
      ghost var first := FindViewFindsFirst(mappings, va, size);
      return None;
    }

    /** The search of UNMAP, which delists what it finds. */
    method TakeMapping(va: nat) returns (found: bool)
      modifies this`mappings
      ensures found <==> FirstAt(MappingVas(old(mappings)), va) < |old(mappings)|
      ensures mappings == if found then RemoveAt(old(mappings), FirstAt(MappingVas(old(mappings)), va)) else old(mappings)
    {
      var k := 0;
      while k < |mappings|
        invariant 0 <= k <= |mappings| && mappings == old(mappings)
        invariant forall j | 0 <= j < k :: mappings[j].va != va
      {
        if mappings[k].va == va {
          FirstAtIs(MappingVas(mappings), va, k);
          mappings := mappings[..k] + mappings[k + 1..];
          return true;
        }
        k := k + 1;
      }
      return false;
    }

    /** The search of UNPIN_PAGES: the first pinning at va decides. */
    method TakePinning(va: nat, size: nat) returns (found: Option<Pinning>)
      modifies this`pinnings
      ensures var k := FirstAt(PinVas(old(pinnings)), va);
        if k < |old(pinnings)| && old(pinnings)[k].size == size
        then found == Some(old(pinnings)[k]) && pinnings == RemoveAt(old(pinnings), k)
        else found == None && pinnings == old(pinnings)
    {
      var k := 0;
      while k < |pinnings|
        invariant 0 <= k <= |pinnings| && pinnings == old(pinnings)
        invariant forall j | 0 <= j < k :: pinnings[j].va != va
      {
        var p := pinnings[k];
        if p.va == va {
          FirstAtIs(PinVas(pinnings), va, k);
          if p.size != size {
            return None;
          }
          pinnings := pinnings[..k] + pinnings[k + 1..];
          return Some(p);
        }
        k := k + 1;
      }
      return None;
    }

    /** The inner loop of TtResetZapMappings: entries are unlinked and unmapped
        while the list is walked. */
    method ZapMappings(kernel: Kernel, ghost h: Handle)
      requires h in kernel.holdings.views && kernel.holdings.views[h] == mappings
      modifies this`mappings, kernel
      ensures mappings == DmaViews(old(mappings))
      ensures kernel.holdings == WithViews(old(kernel.holdings), h, mappings)
    {
      SameViews(kernel.holdings, h);
      var k := 0;
      while k < |mappings|
        invariant 0 <= k <= |mappings|
        invariant forall j | 0 <= j < k :: mappings[j].isDmaBuf
        invariant DmaViews(mappings) == DmaViews(old(mappings))
        invariant kernel.holdings == WithViews(old(kernel.holdings), h, mappings)
        decreases |mappings| - k
      {
        if mappings[k].isDmaBuf {
          k := k + 1;
        } else {
          DmaViewsWithout(mappings, k);
          mappings := mappings[..k] + mappings[k + 1..];
          kernel.UnmapView(h, k);
        }
      }
      DmaViewsOfViews(mappings);
    }

    /** The release of every user mapping, at cleanup and at process exit. */
    method DestroyMappings(kernel: Kernel, ghost h: Handle)
      requires h in kernel.holdings.views && kernel.holdings.views[h] == mappings
      modifies this`mappings, kernel
      ensures mappings == [] && kernel.holdings == WithViews(old(kernel.holdings), h, [])
    {
      SameViews(kernel.holdings, h);
      while mappings != []
        invariant kernel.holdings == WithViews(old(kernel.holdings), h, mappings)
        decreases |mappings|
      {
        assert RemoveAt(mappings, 0) == mappings[1..];
        mappings := mappings[1..];
        kernel.UnmapView(h, 0);
      }
    }
  }

  lemma SameViews(k: Holdings, h: Handle)
    requires h in k.views
    ensures WithViews(k, h, k.views[h]) == k
  {
    assert k.views[h := k.views[h]] == k.views;
  }
}
