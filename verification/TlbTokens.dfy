/** The mmap-offset namespace: the tokens ALLOCATE_TLB and ALLOCATE_DMA_BUF hand
    out, and the decoding MAP does. */
module TlbTokens {
  import opened Common
  import opened WindowGeometry

  const RESOURCE_SIZE: nat := 0x10_0000_0000
  const TLB_UC: nat := 6 * RESOURCE_SIZE
  const TLB_WC: nat := 7 * RESOURCE_SIZE
  const DMA_BUFS: nat := 0xF0_0000_0000
  const DMA_STRIDE: nat := 0x1_0000_0000
  const MAX_DMA_BUFS := 256
  /** BAR4 windows are re-based behind the 512 MiB of BAR0. */
  const BAR0_SIZE: nat := 0x2000_0000

  datatype Window = Window(bar: nat, offset: nat, size: nat)

  /** TtTlbDescribe: where a window sits. */
  function Describe(tlb4gCount: nat, id: nat): Option<Window> {
    if id < WINDOWS_2M then Some(Window(0, id * SIZE_2M, SIZE_2M))
    else if id < WINDOWS_2M + tlb4gCount then Some(Window(4, (id - WINDOWS_2M) * SIZE_4G, SIZE_4G))
    else None
  }

  /** The token ALLOCATE_TLB reports for a window. */
  function WindowToken(w: Window, wc: bool): nat {
    (if wc then TLB_WC else TLB_UC) + w.offset + if w.bar == 4 then BAR0_SIZE else 0
  }

  function SlotToken(index: nat): nat {
    DMA_BUFS + index * DMA_STRIDE
  }

  /** What a token names, before any look at the device's state. */
  datatype Target =
    | DmaSlot(index: nat)
    | BarRange(bar: nat, offset: nat, wc: bool)
    | TlbWindow(id: nat, bar: nat, offset: nat, wc: bool)
    | NoTarget

  /** The decoding in TtResolveMapTarget. */
  function Decode(token: nat, length: nat): Target {
    if token >= DMA_BUFS then
      var rel := token - DMA_BUFS;
      if rel % DMA_STRIDE != 0 || rel / DMA_STRIDE >= MAX_DMA_BUFS then NoTarget
      else DmaSlot(rel / DMA_STRIDE)
    else if token < TLB_UC then
      var region := token / RESOURCE_SIZE;
      BarRange(region - region % 2, token % RESOURCE_SIZE, region % 2 == 1)
    else if token < TLB_WC + RESOURCE_SIZE then
      var wc := token >= TLB_WC;
      var encoded := token - if wc then TLB_WC else TLB_UC;
      if encoded < BAR0_SIZE then
        if encoded % SIZE_2M != 0 || length > SIZE_2M then NoTarget
        else TlbWindow(encoded / SIZE_2M, 0, encoded, wc)
      else
        var offset := encoded - BAR0_SIZE;
        if offset % SIZE_4G != 0 || length > SIZE_4G then NoTarget
        else TlbWindow(WINDOWS_2M + offset / SIZE_4G, 4, offset, wc)
    else NoTarget
  }

  /** Every window's token decodes to that window, BAR, offset and cache type,
      for every length up to the window's size. */
  lemma WindowRoundTrip(tlb4gCount: nat, id: nat, wc: bool, length: nat)
    requires tlb4gCount <= WINDOWS_4G_MAX && Describe(tlb4gCount, id).Some?
    requires length <= Describe(tlb4gCount, id).value.size
    ensures var w := Describe(tlb4gCount, id).value;
      Decode(WindowToken(w, wc), length) == TlbWindow(id, w.bar, w.offset, wc)
  {
  }

  lemma SlotRoundTrip(index: nat, length: nat)
    requires index < MAX_DMA_BUFS
    ensures Decode(SlotToken(index), length) == DmaSlot(index)
  {
  }

  /** A token that decodes to a usable window id names that window if and only if
      it is a BAR4 token or its id is one of the 202 small windows; it is then
      the window's own token. */
  lemma DecodeNamesItsWindowIff(token: nat, length: nat)
    requires Decode(token, length).TlbWindow? && Decode(token, length).id < WINDOWS_TOTAL
    ensures var t := Decode(token, length); var w := Describe(WINDOWS_4G_MAX, t.id).value;
      && (w.bar == t.bar && w.offset == t.offset <==> t.bar == 4 || t.id < WINDOWS_2M)
      && (t.bar == 4 || t.id < WINDOWS_2M ==> token == WindowToken(w, t.wc))
  {
  }

  /** The BAR0 path does not stop at 202 windows: this BAR0 offset decodes to a
      window id that Describe places in BAR4. */
  lemma DecodeCanMisname()
    ensures exists token: nat :: Decode(token, SIZE_2M) == TlbWindow(WINDOWS_2M, 0, WINDOWS_2M * SIZE_2M, false)
              && Describe(WINDOWS_4G_MAX, WINDOWS_2M) == Some(Window(4, 0, SIZE_4G))
  {
    assert Decode(TLB_UC + WINDOWS_2M * SIZE_2M, SIZE_2M) == TlbWindow(WINDOWS_2M, 0, WINDOWS_2M * SIZE_2M, false);
  }

  /** Everything a token can name, with the range of tokens it owns. */
  datatype Name = BarName(region: nat) | WindowName(id: nat, wc: bool) | SlotName(index: nat)

  predicate IsName(n: Name) {
    match n
    case BarName(region) => region < 6
    case WindowName(id, _) => id < WINDOWS_TOTAL
    case SlotName(index) => index < MAX_DMA_BUFS
  }

  function First(n: Name): nat
    requires IsName(n)
  {
    match n
    case BarName(region) => region * RESOURCE_SIZE
    case WindowName(id, wc) => WindowToken(Describe(WINDOWS_4G_MAX, id).value, wc)
    case SlotName(index) => SlotToken(index)
  }

  function Extent(n: Name): nat
    requires IsName(n)
  {
    match n
    case BarName(_) => RESOURCE_SIZE
    case WindowName(id, _) => Describe(WINDOWS_4G_MAX, id).value.size
    case SlotName(_) => DMA_STRIDE
  }

  /** BAR, TLB and DMA-buffer token ranges never overlap, nor do two windows or
      two slots. */
  lemma TokenRangesDisjoint(m: Name, n: Name)
    requires IsName(m) && IsName(n) && m != n
    ensures First(m) + Extent(m) <= First(n) || First(n) + Extent(n) <= First(m)
  {
  }
}
