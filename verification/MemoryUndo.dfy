/** What one request does, the matching release undoes: the whole device state is
    back to what it was. */
module MemoryUndo {
  import opened Common
  import opened Iatu
  import opened TlbTokens
  import opened MemoryState
  import opened MemoryOps
  import opened MappingOps

  /** FREE_TLB undoes ALLOCATE_TLB. */
  lemma FreeUndoesAllocateTlb(s: State, h: Handle, size: nat, s': State, reply: TlbReply)
    requires Inv(s) && h in s.files && AllocatesTlb(s, h, size, true, s', reply) && reply.status == Success
    ensures FreeTlb(s', h, reply.id) == (s, Success)
  {
    var f := s.files[h];
    forall k | 0 <= k < |f.mappings|
      ensures f.mappings[k].tlbId != reply.id
    {
      assert FileOk(s, h, f) && MapOk(s, h, f, f.mappings[k]);
    }
    assert s'.windows[reply.id := None] == s.windows;
  }

  /** Tearing down a region just set up restores both tables. */
  lemma ReleaseUndoesSetUp(s: State, t: State, h: Handle, topDown: bool, size: nat, target: nat, noc: nat, region: int)
    requires TablesOk(s) && !s.detached && t == s.(claims := t.claims, apertures := t.apertures)
    requires SetUp(s.claims, t.claims, s.apertures, t.apertures, h, topDown, size, target, noc, region)
    ensures Released(t, {region}) == s
  {
    assert Released(t, {region}).claims == s.claims;
    assert Released(t, {region}).apertures == s.apertures;
  }

  lemma NothingReleased(s: State)
    ensures Released(s, {-1}) == s
  {
    assert Released(s, {-1}).claims == s.claims;
    assert Released(s, {-1}).apertures == s.apertures;
  }

  /** FREE_DMA_BUF_EX undoes ALLOCATE_DMA_BUF, region, record and bytes. */
  lemma FreeUndoesAllocateBuf(s: State, h: Handle, q: BufRequest, env: BufEnv, s': State, b: DmaBuf)
    requires Inv(s) && h in s.files && FileOkSlots(s.files[h])
    requires AllocatesBuf(s, h, q, env, s', Success, b)
    ensures FileOkSlots(s'.files[h]) && FreeDmaBufEx(s', h, q.index, 0) == (s, Success)
  {
    var f, f' := s.files[h], s'.files[h];
    NothingRefersToNew(s, h, q.index, b);
    assert f'.bufs[q.index := None] == f.bufs;
    assert s'.files[h := f] == s.files;
    var t := s.(claims := s'.claims, apertures := s'.apertures);
    if q.nocDma {
      ReleaseUndoesSetUp(s, t, h, true, q.size, env.logical, b.noc, b.region);
    } else {
      NothingReleased(s);
    }
    assert BufFreed(s', h, b) == Released(t, {b.region});
  }

  /** An empty slot has no references. */
  lemma NothingRefersToNew(s: State, h: Handle, i: nat, b: DmaBuf)
    requires Inv(s) && h in s.files && b.index == i && i < MAX_DMA_BUFS && s.files[h].bufs[i].None?
    ensures !BufMapped(s.files[h], b) && !BufPinned(s.files[h], b)
  {
    var f := s.files[h];
    assert FileOk(s, h, f);
    forall k | 0 <= k < |f.mappings|
      ensures f.mappings[k].dmaBuf != Some(b)
    {
      assert MapOk(s, h, f, f.mappings[k]);
    }
    forall k | 0 <= k < |f.pinnings|
      ensures f.pinnings[k].backing != Some(b)
    {
      assert PinOk(s, h, f, f.pinnings[k]);
    }
  }

  /** UNMAP undoes MAP, since the kernel hands out an address the process has no
      view at. */
  lemma UnmapUndoesMap(s: State, h: Handle, caller: Process, token: nat, length: nat, env: MapEnv)
    requires Inv(s) && h in s.files && FileOkSlots(s.files[h])
    requires Map(s, h, caller, token, length, env).1 == Success
    requires forall k | 0 <= k < |s.files[h].mappings| :: s.files[h].mappings[k].va != env.va.value
    ensures Unmap(Map(s, h, caller, token, length, env).0, h, caller, env.va.value, 0) == (s, Success)
  {
    var s', f := Map(s, h, caller, token, length, env).0, s.files[h];
    var ms := s'.files[h].mappings;
    var k := FirstAt(MappingVas(ms), env.va.value);
    assert ms[|f.mappings|].va == env.va.value;
    assert forall j | 0 <= j < |f.mappings| :: ms[j] == f.mappings[j];
    assert k == |f.mappings| && RemoveAt(ms, k) == f.mappings;
    assert s'.files[h := f] == s.files;
  }

  ghost predicate PinnedAt(ps: seq<Pinning>, va: nat) {
    exists k | 0 <= k < |ps| :: ps[k].va == va
  }

  /** UNPIN_PAGES undoes PIN_PAGES if and only if the handle had nothing pinned at
      the address before; otherwise it is refused and changes nothing. */
  lemma UnpinUndoesPinIff(s: State, h: Handle, caller: Process, q: PinRequest, env: PinEnv, s': State, p: Pinning)
    requires Inv(s) && h in s.files && PinEnvOk(q, env) && Pins(s, h, caller, q, env, s', Success, p)
    ensures Unpin(s', h, caller, q.va, q.size, 0) == (s, Success) <==> !PinnedAt(s.files[h].pinnings, q.va)
    ensures PinnedAt(s.files[h].pinnings, q.va) ==> Unpin(s', h, caller, q.va, q.size, 0) == (s', InvalidParameter)
  {
    var f, ps, qs := s.files[h], s.files[h].pinnings, s'.files[h].pinnings;
    var k := FirstAt(PinVas(qs), q.va);
    assert qs[|ps|] == p && forall j | 0 <= j < |ps| :: qs[j] == ps[j];
    if PinnedAt(ps, q.va) {
      var j :| 0 <= j < |ps| && ps[j].va == q.va;
      assert qs[j].va == q.va && k <= j && ps[k].va == q.va;
      assert qs[k].size != q.size;
    } else {
      PinUnpinned(s, h, q, env, caller, s', p);
    }
  }

  lemma PinUnpinned(s: State, h: Handle, q: PinRequest, env: PinEnv, caller: Process, s': State, p: Pinning)
    requires TablesOk(s) && h in s.files && PinEnvOk(q, env) && Pins(s, h, caller, q, env, s', Success, p)
    requires !PinnedAt(s.files[h].pinnings, q.va)
    ensures Unpin(s', h, caller, q.va, q.size, 0) == (s, Success)
  {
    var f, ps, qs := s.files[h], s.files[h].pinnings, s'.files[h].pinnings;
    assert qs[|ps|] == p && forall j | 0 <= j < |ps| :: qs[j] == ps[j];
    var k := FirstAt(PinVas(qs), q.va);
    assert k == |ps| && RemoveAt(qs, k) == ps;
    assert s'.files[h := f] == s.files;
    var t := s.(claims := s'.claims, apertures := s'.apertures);
    if WantsNoc(q.flags) {
      ReleaseUndoesSetUp(s, t, h, q.flags.topDown, q.size, p.physical, p.noc, p.region);
    } else {
      NothingReleased(s);
    }
    assert Unpinned(s', h, k) == Released(t, {p.region});
  }
}
