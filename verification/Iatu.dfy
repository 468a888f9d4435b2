/** The outbound iATU: sixteen address-translation regions shared by every
    handle, the first-fit allocator over the NOC-DMA space, and the hardware
    records it programs. */
module Iatu {

  import opened Common

  const REGIONS := 16
  const NOC_DMA_LIMIT: nat := 0x3FF_FFFF_FFFF_FFFF
  const NOC_PCIE_OFFSET: nat := 0x1000_0000_0000_0000
  const UINT64_MAX: nat := 0xFFFF_FFFF_FFFF_FFFF
  const MAX_REGION_SIZE: nat := 0x100_0000_0000

  type u64 = x: nat | x <= UINT64_MAX

  /** One entry of Context->Iatu[]. */
  datatype Slot = Slot(used: bool, owner: Option<Handle>, base: u64, limit: u64)

  /** One hardware region record in BAR2. */
  datatype Region = Region(base: u64, limit: u64, target: u64, enabled: bool)

  // What the two tables mean, with the fields of unused entries forgotten.
  datatype Claim = Claim(owner: Handle, base: nat, limit: nat)
  datatype Aperture = Aperture(base: nat, limit: nat, target: nat)
  type Claims = seq<Option<Claim>>
  type Apertures = seq<Option<Aperture>>

  ghost predicate Overlaps(c: Claim, d: Claim) {
    c.base <= d.limit && d.base <= c.limit
  }

  /** Claimed regions lie inside [0, 2^58-1] and are pairwise disjoint. */
  ghost predicate WellFormed(cs: Claims) {
    && |cs| == REGIONS
    && (forall i | 0 <= i < |cs| :: cs[i].Some? ==> cs[i].value.base <= cs[i].value.limit <= NOC_DMA_LIMIT)
    && (forall i, j | 0 <= i < |cs| && 0 <= j < |cs| && i != j ::
          cs[i].Some? && cs[j].Some? ==> !Overlaps(cs[i].value, cs[j].value))
  }

  /** [b, b+size-1] lies in the NOC-DMA space and meets no claimed region. */
  ghost predicate Fits(cs: Claims, size: nat, b: nat) {
    && size > 0 && b + size - 1 <= NOC_DMA_LIMIT
    && forall i | 0 <= i < |cs| :: cs[i].Some? ==> b + size - 1 < cs[i].value.base || cs[i].value.limit < b
  }

  /** The base the allocator promises: the highest fitting one top-down, the
      lowest one bottom-up. */
  ghost predicate IsBest(cs: Claims, topDown: bool, size: nat, b: nat) {
    && Fits(cs, size, b)
    && forall b': nat | Fits(cs, size, b') :: if topDown then b' <= b else b <= b'
  }

  ghost predicate IsFirstFree(cs: Claims, slot: nat) {
    slot < |cs| && cs[slot].None? && forall i | 0 <= i < slot :: cs[i].Some?
  }

  ghost predicate AllClaimed(cs: Claims) {
    forall i | 0 <= i < |cs| :: cs[i].Some?
  }

  lemma BestIsUnique(cs: Claims, topDown: bool, size: nat, a: nat, b: nat)
    requires IsBest(cs, topDown, size, a) && IsBest(cs, topDown, size, b)
    ensures a == b
  {
  }

  /** Claiming any fitting range keeps the regions disjoint and in range. */
  lemma ClaimKeepsDisjoint(cs: Claims, slot: nat, owner: Handle, size: nat, b: nat)
    requires WellFormed(cs) && slot < |cs| && cs[slot].None? && Fits(cs, size, b)
    ensures WellFormed(cs[slot := Some(Claim(owner, b, b + size - 1))])
  {
  }

  // ------------------------------------------------------------ translation

  ghost predicate Hits(a: Option<Aperture>, x: nat) {
    a.Some? && a.value.base <= x <= a.value.limit
  }

  /** Every bus address the enabled regions send NOC offset x to. */
  ghost function Targets(aps: Apertures, x: nat): set<int> {
    set r | 0 <= r < |aps| && Hits(aps[r], x) :: aps[r].value.target + (x - aps[r].value.base)
  }

  /** The hardware records describe exactly the claimed regions. */
  ghost predicate Agree(cs: Claims, aps: Apertures) {
    && |cs| == |aps|
    && forall i | 0 <= i < |cs| ::
         match cs[i]
         case None => aps[i].None?
         case Some(c) => aps[i].Some? && aps[i].value.base == c.base && aps[i].value.limit == c.limit
  }

  /** An address inside a claimed region is translated to one target and no
      other. */
  lemma OneTarget(cs: Claims, aps: Apertures, r: nat, x: nat)
    requires WellFormed(cs) && Agree(cs, aps) && r < |cs| && Hits(aps[r], x)
    ensures Targets(aps, x) == {aps[r].value.target + (x - aps[r].value.base)}
  {
    forall q | 0 <= q < |aps| && Hits(aps[q], x)
      ensures q == r
    {
      if q != r {
        assert Overlaps(cs[q].value, cs[r].value);
      }
    }
  }

  // ------------------------------------------------------- the sorted copy

  datatype Interval = Interval(base: u64, limit: u64)

  /** Ascending and disjoint. */
  ghost predicate Ascending(u: seq<Interval>) {
    && (forall k | 0 <= k < |u| :: u[k].base <= u[k].limit <= NOC_DMA_LIMIT)
    && (forall j, k | 0 <= j < k < |u| :: u[j].limit < u[k].base)
  }

  ghost predicate SameRegions(u: seq<Interval>, cs: Claims) {
    && (forall iv :: iv in u ==> exists i | 0 <= i < |cs| :: IsRegion(cs[i], iv))
    && (forall i | 0 <= i < |cs| :: cs[i].Some? ==> exists iv :: iv in u && IsRegion(cs[i], iv))
  }

  ghost predicate IsRegion(c: Option<Claim>, iv: Interval) {
    c.Some? && c.value.base == iv.base && c.value.limit == iv.limit
  }

  ghost predicate FitsBetween(u: seq<Interval>, size: nat, b: nat) {
    && size > 0 && b + size - 1 <= NOC_DMA_LIMIT
    && forall k | 0 <= k < |u| :: b + size - 1 < u[k].base || u[k].limit < b
  }

  lemma SameFits(u: seq<Interval>, cs: Claims, size: nat, b: nat)
    requires SameRegions(u, cs)
    ensures FitsBetween(u, size, b) <==> Fits(cs, size, b)
  {
    if FitsBetween(u, size, b) {
      forall i | 0 <= i < |cs| && cs[i].Some?
        ensures b + size - 1 < cs[i].value.base || cs[i].value.limit < b
      {
        var iv :| iv in u && IsRegion(cs[i], iv);
        var k :| 0 <= k < |u| && u[k] == iv;
      }
    } else if size > 0 && b + size - 1 <= NOC_DMA_LIMIT {
      var k :| 0 <= k < |u| && !(b + size - 1 < u[k].base || u[k].limit < b);
      assert u[k] in u;
      var i :| 0 <= i < |cs| && IsRegion(cs[i], u[k]);
    }
  }

  /** One insertion of the sort: shifts the larger entries up by one. */
  method InsertByBase(used: array<Interval>, count: nat, iv: Interval) returns (j: nat)
    requires count < used.Length && iv.base <= iv.limit <= NOC_DMA_LIMIT
    requires Ascending(used[..count])
    requires forall k | 0 <= k < count :: used[k].limit < iv.base || iv.limit < used[k].base
    modifies used
    ensures j <= count && used[..count + 1] == Inserted(old(used[..count]), j, iv)
    ensures Ascending(used[..count + 1])
  {
    ghost var u := used[..count];
    j := count;
    while j > 0 && used[j - 1].base > iv.base
      invariant j <= count
      invariant forall k | 0 <= k < j :: used[k] == u[k]
      invariant forall k | j < k <= count :: used[k] == u[k - 1]
      invariant j < count ==> iv.base < u[j].base
    {
      used[j] := used[j - 1];
      j := j - 1;
    }
    used[j] := iv;
    assert used[..count + 1] == Inserted(u, j, iv) by {
      assert forall k | 0 <= k < count + 1 :: used[..count + 1][k] == Inserted(u, j, iv)[k];
    }
    InsertAscending(u, j, iv);
  }

  ghost function Inserted(u: seq<Interval>, j: nat, iv: Interval): seq<Interval>
    requires j <= |u|
  {
    seq(|u| + 1, k requires 0 <= k <= |u| => if k < j then u[k] else if k == j then iv else u[k - 1])
  }

  lemma InsertAscending(u: seq<Interval>, j: nat, iv: Interval)
    requires Ascending(u) && j <= |u| && iv.base <= iv.limit <= NOC_DMA_LIMIT
    requires forall k | 0 <= k < |u| :: u[k].limit < iv.base || iv.limit < u[k].base
    requires (j > 0 ==> u[j - 1].base <= iv.base) && (j < |u| ==> iv.base < u[j].base)
    ensures Ascending(Inserted(u, j, iv))
  {
    forall k | 0 <= k < |u|
      ensures k < j ==> u[k].limit < iv.base
      ensures j <= k ==> iv.limit < u[k].base
    {
    }
  }

  lemma InsertMembers(u: seq<Interval>, j: nat, iv: Interval)
    requires j <= |u|
    ensures forall x :: x in Inserted(u, j, iv) <==> x == iv || x in u
  {
    assert Inserted(u, j, iv) == u[..j] + [iv] + u[j..];
    assert u == u[..j] + u[j..];
  }

  /** The sorted copy of the regions claimed in the first n slots. */
  ghost predicate SortedCopy(u: seq<Interval>, cs: Claims, n: nat) {
    n <= |cs| && Ascending(u) && SameRegions(u, cs[..n])
  }

  lemma ExtendCopy(u: seq<Interval>, v: seq<Interval>, cs: Claims, n: nat, iv: Interval)
    requires n < |cs| && SortedCopy(u, cs, n) && Ascending(v) && IsRegion(cs[n], iv)
    requires forall x :: x in v <==> x == iv || x in u
    ensures SortedCopy(v, cs, n + 1)
  {
    forall x | x in v
      ensures exists i {:trigger cs[..n + 1][i]} | 0 <= i < n + 1 :: IsRegion(cs[..n + 1][i], x)
    {
      if x == iv {
        assert IsRegion(cs[..n + 1][n], x);
      } else {
        var i :| 0 <= i < n && IsRegion(cs[..n][i], x);
        assert IsRegion(cs[..n + 1][i], x);
      }
    }
    forall i | 0 <= i < n + 1 && cs[i].Some?
      ensures exists x :: x in v && IsRegion(cs[..n + 1][i], x)
    {
      if i < n {
        assert cs[..n][i].Some?;
        var x :| x in u && IsRegion(cs[..n][i], x);
        assert x in v;
      } else {
        assert iv in v;
      }
    }
  }

  lemma SkipCopy(u: seq<Interval>, cs: Claims, n: nat)
    requires n < |cs| && SortedCopy(u, cs, n) && cs[n].None?
    ensures SortedCopy(u, cs, n + 1)
  {
    forall x | x in u
      ensures exists i {:trigger cs[..n + 1][i]} | 0 <= i < n + 1 :: IsRegion(cs[..n + 1][i], x)
    {
      var i :| 0 <= i < n && IsRegion(cs[..n][i], x);
      assert IsRegion(cs[..n + 1][i], x);
    }
    forall i | 0 <= i < n + 1 && cs[i].Some?
      ensures exists x :: x in u && IsRegion(cs[..n + 1][i], x)
    {
      assert cs[..n][i].Some?;
    }
  }

  lemma CopyAvoids(u: seq<Interval>, cs: Claims, n: nat)
    requires WellFormed(cs) && n < |cs| && cs[n].Some? && SortedCopy(u, cs, n)
    ensures forall k | 0 <= k < |u| :: u[k].limit < cs[n].value.base || cs[n].value.limit < u[k].base
  {
    forall k | 0 <= k < |u|
      ensures u[k].limit < cs[n].value.base || cs[n].value.limit < u[k].base
    {
      assert u[k] in u;
      var i :| 0 <= i < n && IsRegion(cs[..n][i], u[k]);
      assert !Overlaps(cs[i].value, cs[n].value);
    }
  }

  /** The collecting step for a slot in use. */
  method InsertClaim(used: array<Interval>, count: nat, ghost cs: Claims, n: nat, iv: Interval)
    requires WellFormed(cs) && n < |cs| && count < used.Length
    requires SortedCopy(used[..count], cs, n) && IsRegion(cs[n], iv)
    modifies used
    ensures SortedCopy(used[..count + 1], cs, n + 1)
  {
    ghost var u := used[..count];
    CopyAvoids(u, cs, n);
    ghost var j := InsertByBase(used, count, iv);
    InsertMembers(u, j, iv);
    ExtendCopy(u, used[..count + 1], cs, n, iv);
  }

  // ------------------------------------------------------------- gap scans

  /** Bottom-up first fit over the sorted regions. No 64-bit addition wraps, in
      the order the driver makes them, for any size below 2^64 - 2^58. */
  method LowestGap(u: array<Interval>, count: nat, size: u64) returns (base: Option<u64>)
    requires count <= u.Length && Ascending(u[..count])
    requires 0 < size < UINT64_MAX - NOC_DMA_LIMIT
    ensures base.Some? ==> FitsBetween(u[..count], size, base.value)
    ensures base.Some? ==> forall b: nat | FitsBetween(u[..count], size, b) :: base.value <= b
    ensures base.None? ==> forall b: nat :: !FitsBetween(u[..count], size, b)
  {
    var gapStart: u64 := 0;
    var i := 0;
    while i < count
      invariant i <= count
      invariant gapStart == if i == 0 then 0 else u[i - 1].limit + 1
      invariant forall b: nat | FitsBetween(u[..count], size, b) :: gapStart <= b
    {
      if u[i].base > gapStart && u[i].base - gapStart >= size {
        break;
      }
      forall b: nat | FitsBetween(u[..count], size, b)
        ensures u[i].limit + 1 <= b
      {
        assert b + size - 1 < u[..count][i].base || u[..count][i].limit < b;
      }
      gapStart := u[i].limit + 1;
      i := i + 1;
    }
    var end: u64 := gapStart + size;
    if end - 1 > NOC_DMA_LIMIT {
      return None;
    }
    return Some(gapStart);
  }

  /** Top-down first fit over the sorted regions. */
  method HighestGap(u: array<Interval>, count: nat, size: u64) returns (base: Option<u64>)
    requires count <= u.Length && Ascending(u[..count]) && 0 < size
    ensures base.Some? ==> FitsBetween(u[..count], size, base.value)
    ensures base.Some? ==> forall b: nat | FitsBetween(u[..count], size, b) :: b <= base.value
    ensures base.None? ==> forall b: nat :: !FitsBetween(u[..count], size, b)
  {
    var gapEnd: u64 := NOC_DMA_LIMIT;
    var placed := false;
    var i := count;
    while i > 0
      invariant 0 <= i <= count && !placed
      invariant i < count ==> u[i].base > 0
      invariant gapEnd == if i == count then NOC_DMA_LIMIT else u[i].base - 1
      invariant forall b: nat | FitsBetween(u[..count], size, b) :: b + size - 1 <= gapEnd
    {
      if gapEnd >= u[i - 1].limit && gapEnd - u[i - 1].limit >= size {
        placed := true;
        break;
      }
      forall b: nat | FitsBetween(u[..count], size, b)
        ensures b + size - 1 < u[i - 1].base
      {
        var below := u[..count][i - 1];
      }
      if u[i - 1].base == 0 {
        return None;
      }
      gapEnd := u[i - 1].base - 1;
      i := i - 1;
    }
    if !placed && gapEnd + 1 < size {
      return None;
    }
    return Some(gapEnd - size + 1);
  }

  /** The gap found in the sorted copy is the best base for the claims. */
  lemma GapIsBest(u: seq<Interval>, cs: Claims, topDown: bool, size: nat, found: Option<u64>)
    requires |cs| == REGIONS && SortedCopy(u, cs, REGIONS)
    requires found.Some? ==> FitsBetween(u, size, found.value)
    requires found.Some? ==> forall b: nat | FitsBetween(u, size, b) :: if topDown then b <= found.value else found.value <= b
    requires found.None? ==> forall b: nat :: !FitsBetween(u, size, b)
    ensures found.Some? ==> IsBest(cs, topDown, size, found.value)
    ensures found.None? ==> forall b: nat :: !Fits(cs, size, b)
  {
    assert cs[..REGIONS] == cs;
    forall b: nat
      ensures FitsBetween(u, size, b) <==> Fits(cs, size, b)
    {
      SameFits(u, cs, size, b);
    }
  }

  // ------------------------------------------------------------- the tables

  class IatuTable {
    const slots: array<Slot>
    const regions: array<Region>

    ghost predicate Valid()
      reads slots
    {
      && slots.Length == REGIONS && regions.Length == REGIONS
      && forall i | 0 <= i < REGIONS :: slots[i].used ==> slots[i].owner.Some?
    }

    ghost function Claims(): (cs: Claims)
      requires Valid()
      reads slots
      ensures |cs| == REGIONS
    {
      seq(REGIONS, i requires 0 <= i < slots.Length && Valid() reads slots =>
        if slots[i].used then Some(Claim(slots[i].owner.value, slots[i].base, slots[i].limit)) else None)
    }

    ghost function Apertures(): (aps: Apertures)
      requires regions.Length == REGIONS
      reads regions
      ensures |aps| == REGIONS
    {
      seq(REGIONS, i requires 0 <= i < regions.Length reads regions =>
        if regions[i].enabled then Some(Aperture(regions[i].base, regions[i].limit, regions[i].target)) else None)
    }

    constructor ()
      ensures Valid() && fresh(slots) && fresh(regions)
      ensures Claims() == seq(REGIONS, _ => None) && Apertures() == seq(REGIONS, _ => None)
    {
      slots := new Slot[REGIONS](_ => Slot(false, None, 0, 0));
      regions := new Region[REGIONS](_ => Region(0, 0, 0, false));
    }

    /** TtIatuFindAndClaim: takes the first unused slot and the extreme fitting
        base; fails exactly when every slot is used or nothing fits. */
    method FindAndClaim(owner: Handle, topDown: bool, size: u64) returns (slot: int, base: u64)
      requires Valid() && WellFormed(Claims())
      requires 0 < size < UINT64_MAX - NOC_DMA_LIMIT
      modifies slots
      ensures Valid()
      ensures -1 <= slot < REGIONS
      ensures slot == -1 <==> AllClaimed(old(Claims())) || forall b: nat :: !Fits(old(Claims()), size, b)
      ensures slot == -1 ==> Claims() == old(Claims())
      ensures slot >= 0 ==>
        && IsFirstFree(old(Claims()), slot) && IsBest(old(Claims()), topDown, size, base)
        && Claims() == old(Claims())[slot := Some(Claim(owner, base, base + size - 1))]
    {
      ghost var cs := Claims();
      base := 0;
      var used, count;
      used, count, slot := Collect();
      if slot < 0 {
        return;
      }
      var found;
      if !topDown {
        found := LowestGap(used, count, size);
      } else {
        found := HighestGap(used, count, size);
      }
      GapIsBest(used[..count], cs, topDown, size, found);
      if found.None? {
        slot := -1;
        return;
      }
      base := found.value;
      slots[slot] := Slot(true, Some(owner), base, base + (size - 1));
    }

    /** The collecting loop: the sorted copy of the regions in use, and the first
        unused slot. */
    method Collect() returns (used: array<Interval>, count: nat, slot: int)
      requires Valid() && WellFormed(Claims())
      ensures fresh(used) && count <= used.Length && SortedCopy(used[..count], Claims(), REGIONS)
      ensures -1 <= slot < REGIONS
      ensures slot == -1 ==> AllClaimed(Claims())
      ensures slot >= 0 ==> IsFirstFree(Claims(), slot)
    {
      ghost var cs := Claims();
      used := new Interval[REGIONS](_ => Interval(0, 0));
      count := 0;
      slot := -1;
      var i := 0;
      while i < REGIONS
        invariant 0 <= i <= REGIONS && count <= i && -1 <= slot < i
        invariant slot == -1 ==> forall k | 0 <= k < i :: cs[k].Some?
        invariant slot >= 0 ==> IsFirstFree(cs, slot)
        invariant SortedCopy(used[..count], cs, i)
      {
        if slots[i].used {
          InsertClaim(used, count, cs, i, Interval(slots[i].base, slots[i].limit));
          count := count + 1;
        } else {
          SkipCopy(used[..count], cs, i);
          if slot < 0 {
            slot := i;
          }
        }
        i := i + 1;
      }
    }

    /** TtBhConfigureOutboundAtu: refuses regions over 1 TiB; a zero limit
        disables the region. */
    method ConfigureOutboundAtu(region: nat, base: u64, limit: u64, target: u64) returns (ok: bool)
      requires regions.Length == REGIONS
      modifies regions
      ensures ok <==> region < REGIONS && (limit == 0 || RegionSize(base, limit) <= MAX_REGION_SIZE)
      ensures !ok ==> Apertures() == old(Apertures())
      ensures ok ==> Apertures() == old(Apertures())[region :=
          if limit == 0 then None else Some(Aperture(base, limit, target))]
    {
      var size := RegionSize(base, limit);
      if limit != 0 && size > MAX_REGION_SIZE {
        return false;
      }
      if region >= REGIONS {
        return false;
      }
      regions[region] := Region(base, limit, target, limit != 0);
      return true;
    }

    /** TtSetupNocDma: claims a region and programs it, or leaves both tables
        as they were. */
    method SetupNocDma(owner: Handle, topDown: bool, size: u64, target: u64)
      returns (ok: bool, nocAddress: u64, region: int)
      requires Valid() && WellFormed(Claims())
      requires size < UINT64_MAX - NOC_DMA_LIMIT
      modifies slots, regions
      ensures Valid()
      ensures ok <==> CanSetUp(old(Claims()), size)
      ensures !ok ==> region == -1 && Claims() == old(Claims()) && Apertures() == old(Apertures())
      ensures ok ==> SetUp(old(Claims()), Claims(), old(Apertures()), Apertures(),
                           owner, topDown, size, target, nocAddress, region)
    {
      nocAddress := 0;
      region := -1;
      ok := false;
      if size == 0 {
        return;
      }
      ghost var cs := Claims();
      var slot, base := FindAndClaim(owner, topDown, size);
      if slot < 0 {
        return;
      }
      ghost var claimed := Claims();
      var programmed := ConfigureOutboundAtu(slot, base, base + (size - 1), target);
      if !programmed {
        slots[slot] := slots[slot].(used := false, owner := None);
        assert forall i | 0 <= i < REGIONS && i != slot :: Claims()[i] == claimed[i] == cs[i];
        assert Claims() == cs;
        return;
      }
      nocAddress := NOC_PCIE_OFFSET + base;
      region := slot;
      ok := true;
    }

    /** TtTeardownNocDma: frees the region; the hardware is not written once the
        device is detached. */
    method TeardownNocDma(region: int, detached: bool)
      requires Valid()
      modifies slots, regions
      ensures Valid()
      ensures Claims() == Unclaim(old(Claims()), region)
      ensures Apertures() == if detached then old(Apertures()) else Disable(old(Apertures()), region)
    {
      if region < 0 || region >= REGIONS {
        return;
      }
      if !detached {
        var _ := ConfigureOutboundAtu(region, 0, 0, 0);
      }
      slots[region] := Slot(false, None, 0, 0);
    }
  }

  /** Limit - Base + 1 in 64 bits, whichever of the two is larger. */
  function RegionSize(base: u64, limit: u64): u64 {
    if limit + 1 < base then UINT64_MAX - base + limit + 2
    else if limit + 1 - base > UINT64_MAX then 0
    else limit + 1 - base
  }

  ghost predicate CanSetUp(cs: Claims, size: nat) {
    0 < size <= MAX_REGION_SIZE && !AllClaimed(cs) && exists b: nat :: Fits(cs, size, b)
  }

  /** What a successful setup did: first free slot, extreme fitting base, and a
      hardware record for exactly that range (none only for the one-byte region
      at zero, whose limit the hardware reads as "disabled"). */
  ghost predicate SetUp(cs: Claims, cs': Claims, aps: Apertures, aps': Apertures,
                        owner: Handle, topDown: bool, size: nat, target: nat, nocAddress: nat, region: int) {
    && |cs| == |aps| && 0 <= region && IsFirstFree(cs, region) && NOC_PCIE_OFFSET <= nocAddress
    && var base := nocAddress - NOC_PCIE_OFFSET;
    && IsBest(cs, topDown, size, base)
    && cs' == cs[region := Some(Claim(owner, base, base + size - 1))]
    && aps' == aps[region := if base + size - 1 == 0 then None else Some(Aperture(base, base + size - 1, target))]
  }

  function Unclaim(cs: Claims, region: int): Claims {
    if 0 <= region < |cs| then cs[region := None] else cs
  }

  function Disable(aps: Apertures, region: int): Apertures {
    if 0 <= region < |aps| then aps[region := None] else aps
  }
}
