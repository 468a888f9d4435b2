/** What the TLB window pool promises. */
module TlbPoolSpec {
  import opened Common
  import opened WindowGeometry

  /** The owner of every window, as the rest of the driver sees the pool. */
  type Owners = seq<Option<Handle>>

  /** The kernel window is always used and never owned; any other window is used
      exactly when it has an owner. */
  ghost predicate PoolOk(used: seq<bool>, owner: Owners) {
    && |used| == |owner| == WINDOWS_TOTAL
    && used[KERNEL_WINDOW] && owner[KERNEL_WINDOW].None?
    && forall w | 0 <= w < WINDOWS_TOTAL && w != KERNEL_WINDOW :: used[w] <==> owner[w].Some?
  }

  ghost predicate IsFree(ow: Owners, w: nat) {
    w < |ow| && w != KERNEL_WINDOW && ow[w].None?
  }

  ghost predicate IsFirstFreeWindow(ow: Owners, lo: nat, hi: nat, id: nat) {
    lo <= id < hi && IsFree(ow, id) && forall w | lo <= w < id :: !IsFree(ow, w)
  }

  ghost predicate NoneFree(ow: Owners, lo: nat, hi: nat) {
    forall w | lo <= w < hi :: !IsFree(ow, w)
  }

  /** The owners once everything h owns is given back. */
  function Disowned(ow: Owners, h: Handle): (r: Owners)
    ensures |r| == |ow|
  {
    seq(|ow|, w requires 0 <= w < |ow| => if ow[w] == Some(h) then None else ow[w])
  }
}

/** The TLB window pool: which windows are used, by whom, and the registers
    behind them. */
module TlbPool {
  import opened Common
  import opened WindowGeometry
  import opened WindowRegisters
  import opened TlbPoolSpec

  class WindowPool {
    const used: array<bool>
    const owner: array<Option<Handle>>
    const registers: RegisterBlock

    ghost predicate Valid()
      reads used, owner
    {
      registers.regs.Length == REG_WORDS && PoolOk(used[..], owner[..])
    }

    /** The pool set up by TtEvtDevicePrepareHardware. */
    constructor ()
      ensures Valid() && fresh(used) && fresh(owner) && fresh(registers) && fresh(registers.regs)
      ensures owner[..] == seq(WINDOWS_TOTAL, _ => None)
    {
      used := new bool[WINDOWS_TOTAL](_ => false);
      owner := new Option<Handle>[WINDOWS_TOTAL](_ => None);
      registers := new RegisterBlock();
      new;
      used[KERNEL_WINDOW] := true;
    }

    /** The claiming loop of TtIoctlAllocateTlb over one pool. */
    method Claim(h: Handle, lo: nat, hi: nat) returns (id: int)
      requires Valid() && lo <= hi <= WINDOWS_TOTAL
      modifies used, owner
      ensures Valid() && -1 <= id
      ensures id == -1 <==> NoneFree(old(owner[..]), lo, hi)
      ensures id >= 0 ==> IsFirstFreeWindow(old(owner[..]), lo, hi, id)
      ensures owner[..] == if id >= 0 then old(owner[..])[id := Some(h)] else old(owner[..])
    {
      id := lo;
      while id < hi
        invariant lo <= id <= hi
        invariant forall w | lo <= w < id :: !IsFree(owner[..], w)
        invariant Valid() && owner[..] == old(owner[..])
      {
        if !used[id] {
          assert IsFree(old(owner[..]), id);
          used[id] := true;
          owner[id] := Some(h);
          return;
        }
        id := id + 1;
      }
      id := -1;
    }

    method Release(id: nat)
      requires Valid() && id < WINDOWS_TOTAL && id != KERNEL_WINDOW
      modifies used, owner
      ensures Valid() && owner[..] == old(owner[..])[id := None]
    {
      used[id] := false;
      owner[id] := None;
    }

    /** The ownership test of FREE_TLB, CONFIGURE_TLB and MAP. */
    predicate Owns(h: Handle, id: nat)
      requires Valid()
      reads used, owner
      ensures Owns(h, id) <==> id < WINDOWS_TOTAL && owner[..][id] == Some(h)
    {
      id < WINDOWS_TOTAL && used[id] && owner[id] == Some(h)
    }

    /** Step 4 of TtMemoryFileCleanup. */
    method ReleaseOwned(h: Handle)
      requires Valid()
      modifies used, owner
      ensures Valid() && owner[..] == Disowned(old(owner[..]), h)
    {
      ghost var ow := owner[..];
      var i := 0;
      while i < WINDOWS_TOTAL
        invariant 0 <= i <= WINDOWS_TOTAL && Valid()
        invariant forall w | 0 <= w < i :: owner[w] == Disowned(ow, h)[w]
        invariant forall w | i <= w < WINDOWS_TOTAL :: owner[w] == ow[w]
      {
        if owner[i] == Some(h) {
          used[i] := false;
          owner[i] := None;
        }
        i := i + 1;
      }
    }

    /** TtIoctlConfigureTlb behind its gates: only the owner reaches a window's
        registers, and reaches no other window's; nobody reaches the kernel's. */
    method Configure(h: Handle, id: nat, c: TlbConfig) returns (allowed: bool, ok: bool)
      requires Valid() && c.addr < UINT64
      modifies registers.regs
      ensures allowed <==> id < WINDOWS_TOTAL && owner[..][id] == Some(h)
      ensures ok <==> allowed && c.addr % WindowSize(id) == 0
      ensures ok ==> DecodeWindow(id, registers.Window(id)) == Truncated(c)
      ensures !ok ==> registers.regs[..] == old(registers.regs[..])
      ensures forall w | 0 <= w < WINDOWS_TOTAL && w != id :: registers.Window(w) == old(registers.Window(w))
      ensures allowed ==> id != KERNEL_WINDOW
      ensures Valid()
    {
      ok := false;
      allowed := Owns(h, id);
      if allowed {
        ok := registers.ConfigureUserTlb(id, c);
      }
    }
  }
}
