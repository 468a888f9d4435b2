/** The 96-bit NOC window registers: three 32-bit words per window, packed one
    bit at a time by TtBhSetBits, and the register file they are written to. */
module WindowRegisters {
  import opened Arithmetic
  import opened WindowGeometry

  const STRIDED_COUNT := 32
  /** The 4 KiB register block, in 32-bit words. */
  const REG_WORDS := 1024
  const STRIDED_BASE := WINDOWS_TOTAL * 3

  const UINT64: nat := 0x1_0000_0000_0000_0000

  // ---------------------------------------------------------------- single bits

  predicate WordBit(w: bv32, k: nat)
    requires k < 32
  {
    (w >> k) & 1 == 1
  }

  /** Bit p of a three-word register, little-endian across the words. */
  predicate RegBit(words: seq<bv32>, p: nat)
    requires |words| == 3 && p < 96
  {
    WordBit(words[p / 32], p % 32)
  }

  /** Bit i of an unsigned value: (Value >> i) & 1. */
  predicate ValueBit(v: nat, i: nat) {
    (v / Pow2(i)) % 2 == 1
  }

  lemma OrBitVector(w: bv32, k: bv32, j: bv32)
    requires k < 32 && j < 32
    ensures ((w | (1 << k)) >> j) & 1 == 1 <==> (j == k || (w >> j) & 1 == 1)
  {
  }

  lemma OrSetsOneBit(w: bv32, k: nat, j: nat)
    requires k < 32 && j < 32
    ensures WordBit(w | (1 << k), j) <==> j == k || WordBit(w, j)
  {
    OrBitVector(w, k as bv32, j as bv32);
  }

  /** TtBhSetBits: ORs `len` bits of v into the register at bit offset `off`,
      crossing word boundaries, and touches no other bit. */
  method SetBits(words: array<bv32>, off: nat, len: nat, v: nat)
    requires words.Length == 3 && off + len <= 96
    modifies words
    ensures forall p: nat | p < 96 :: RegBit(words[..], p) <==>
        RegBit(old(words[..]), p) || (off <= p < off + len && ValueBit(v, p - off))
  {
    var i := 0;
    while i < len
      invariant i <= len
      invariant forall p: nat | p < 96 :: RegBit(words[..], p) <==>
          RegBit(old(words[..]), p) || (off <= p < off + i && ValueBit(v, p - off))
    {
      if (v / Pow2(i)) % 2 == 1 {
        ghost var before := words[..];
        var q, r := (off + i) / 32, (off + i) % 32;
        words[q] := words[q] | (1 << r);
        forall p: nat | p < 96
          ensures RegBit(words[..], p) <==> p == off + i || RegBit(before, p)
        {
          OrSetsOneBit(before[q], r, p % 32);
        }
      }
      i := i + 1;
    }
  }

  // ---------------------------------------------------------------- fields

  /** Reads `len` bits of the register at bit offset `off` back as a number. */
  function Field(words: seq<bv32>, off: nat, len: nat): nat
    requires |words| == 3 && off + len <= 96
    decreases len
  {
    if len == 0 then 0
    else (if RegBit(words, off) then 1 else 0) + 2 * Field(words, off + 1, len - 1)
  }

  lemma HalfMod(v: nat, m: nat)
    requires m > 0
    ensures v % 2 + 2 * ((v / 2) % m) == v % (2 * m)
  {
    var q := (v / 2) / m;
    assert v == 2 * (m * q + (v / 2) % m) + v % 2;
    assert v == (2 * m) * q + (2 * ((v / 2) % m) + v % 2);
    DivModUnique(v, 2 * m, q, 2 * ((v / 2) % m) + v % 2);
  }

  lemma DivDiv(v: nat, m: nat)
    requires m > 0
    ensures v / (2 * m) == (v / 2) / m
  {
    HalfMod(v, m);
    var q := (v / 2) / m;
    assert v == (2 * m) * q + (2 * ((v / 2) % m) + v % 2);
    DivModUnique(v, 2 * m, q, 2 * ((v / 2) % m) + v % 2);
  }

  lemma ValueBitHalf(v: nat, i: nat)
    ensures ValueBit(v, i + 1) <==> ValueBit(v / 2, i)
  {
    DivDiv(v, Pow2(i));
  }

  /** If the register holds the bits of v at off, reading the field back yields
      exactly v modulo the field's width. */
  lemma {:induction false} FieldReadsBack(words: seq<bv32>, off: nat, len: nat, v: nat)
    requires |words| == 3 && off + len <= 96
    requires forall i: nat | i < len :: RegBit(words, off + i) <==> ValueBit(v, i)
    ensures Field(words, off, len) == v % Pow2(len)
    decreases len
  {
    if len > 0 {
      assert RegBit(words, off + 0) <==> ValueBit(v, 0);
      forall i: nat | i < len - 1
        ensures RegBit(words, (off + 1) + i) <==> ValueBit(v / 2, i)
      {
        assert RegBit(words, off + (i + 1)) <==> ValueBit(v, i + 1);
        ValueBitHalf(v, i);
      }
      FieldReadsBack(words, off + 1, len - 1, v / 2);
      assert Field(words, off, len) == v % 2 + 2 * ((v / 2) % Pow2(len - 1));
      HalfMod(v, Pow2(len - 1));
    }
  }

  // ---------------------------------------------------------------- layouts

  datatype FieldSpec = FieldSpec(off: nat, len: nat, value: nat)

  ghost predicate Inside(f: FieldSpec, p: nat) {
    f.off <= p < f.off + f.len
  }

  /** Fields in ascending order, disjoint, inside the 96 bits. */
  ghost predicate WellLaidOut(fs: seq<FieldSpec>) {
    && (forall k | 0 <= k < |fs| :: fs[k].off + fs[k].len <= 96)
    && (forall j, k | 0 <= j < k < |fs| :: fs[j].off + fs[j].len <= fs[k].off)
  }

  ghost predicate Covers(f: FieldSpec, p: nat) {
    Inside(f, p) && ValueBit(f.value, p - f.off)
  }

  /** The register is exactly what SetBits leaves after writing fs onto zeroes. */
  ghost predicate Packed(words: seq<bv32>, fs: seq<FieldSpec>) {
    |words| == 3 &&
    forall p: nat | p < 96 :: RegBit(words, p) <==> exists f :: f in fs && Covers(f, p)
  }

  /** Unpacking inverts packing: whatever well-laid-out fields were written,
      each one reads back as its value modulo its own width. */
  lemma UnpackInvertsPack(words: seq<bv32>, fs: seq<FieldSpec>, k: nat)
    requires WellLaidOut(fs) && Packed(words, fs) && k < |fs|
    ensures Field(words, fs[k].off, fs[k].len) == fs[k].value % Pow2(fs[k].len)
  {
    var f := fs[k];
    forall i: nat | i < f.len
      ensures RegBit(words, f.off + i) <==> ValueBit(f.value, i)
    {
      var p := f.off + i;
      if RegBit(words, p) {
        var g :| g in fs && Covers(g, p);
        var j :| 0 <= j < |fs| && fs[j] == g;
      } else {
        assert !Covers(f, p);
      }
    }
    FieldReadsBack(words, f.off, f.len, f.value);
  }

  method SetField(words: array<bv32>, ghost fs: seq<FieldSpec>, off: nat, len: nat, v: nat)
    returns (ghost fs': seq<FieldSpec>)
    requires words.Length == 3 && off + len <= 96 && Packed(words[..], fs)
    modifies words
    ensures fs' == fs + [FieldSpec(off, len, v)] && Packed(words[..], fs')
  {
    fs' := fs + [FieldSpec(off, len, v)];
    ghost var before, f := words[..], FieldSpec(off, len, v);
    SetBits(words, off, len, v);
    forall p: nat | p < 96
      ensures RegBit(words[..], p) <==> exists g :: g in fs' && Covers(g, p)
    {
      assert RegBit(words[..], p) <==> RegBit(before, p) || Covers(f, p);
      assert f in fs';
    }
  }

  /** tenstorrent_noc_tlb_config. */
  datatype TlbConfig = TlbConfig(addr: nat, xEnd: nat, yEnd: nat, xStart: nat, yStart: nat,
                                 noc: nat, mcast: nat, ordering: nat, linked: nat, staticVc: nat)

  function WindowSize(id: nat): nat {
    if id < WINDOWS_2M then SIZE_2M else SIZE_4G
  }

  /** What a packed window register says, field by field. */
  function DecodeWindow(id: nat, w: seq<bv32>): TlbConfig
    requires |w| == 3
  {
    if id < WINDOWS_2M then
      TlbConfig(Field(w, 0, 43) * SIZE_2M, Field(w, 43, 6), Field(w, 49, 6), Field(w, 55, 6),
                Field(w, 61, 6), Field(w, 67, 2), Field(w, 69, 1), Field(w, 70, 2), Field(w, 72, 1), Field(w, 73, 1))
    else
      TlbConfig(Field(w, 0, 32) * SIZE_4G, Field(w, 32, 6), Field(w, 38, 6), Field(w, 44, 6),
                Field(w, 50, 6), Field(w, 56, 2), Field(w, 58, 1), Field(w, 59, 2), Field(w, 61, 1), Field(w, 62, 1))
  }

  /** The configuration with every field cut to its hardware width. The address
      is kept whole. */
  function Truncated(c: TlbConfig): TlbConfig {
    TlbConfig(c.addr, c.xEnd % 64, c.yEnd % 64, c.xStart % 64, c.yStart % 64,
              c.noc % 4, c.mcast % 2, c.ordering % 4, c.linked % 2, c.staticVc % 2)
  }

  function Layout(id: nat, c: TlbConfig): seq<FieldSpec> {
    if id < WINDOWS_2M then
      [FieldSpec(0, 43, c.addr / SIZE_2M), FieldSpec(43, 6, c.xEnd), FieldSpec(49, 6, c.yEnd),
       FieldSpec(55, 6, c.xStart), FieldSpec(61, 6, c.yStart), FieldSpec(67, 2, c.noc),
       FieldSpec(69, 1, c.mcast), FieldSpec(70, 2, c.ordering), FieldSpec(72, 1, c.linked),
       FieldSpec(73, 1, c.staticVc)]
    else
      [FieldSpec(0, 32, c.addr / SIZE_4G), FieldSpec(32, 6, c.xEnd), FieldSpec(38, 6, c.yEnd),
       FieldSpec(44, 6, c.xStart), FieldSpec(50, 6, c.yStart), FieldSpec(56, 2, c.noc),
       FieldSpec(58, 1, c.mcast), FieldSpec(59, 2, c.ordering), FieldSpec(61, 1, c.linked),
       FieldSpec(62, 1, c.staticVc)]
  }

  lemma {:induction false} Pow2Sum(m: nat, n: nat)
    ensures Pow2(m + n) == Pow2(m) * Pow2(n)
  {
    if m > 0 {
      Pow2Sum(m - 1, n);
    }
  }

  lemma Pow2Values()
    ensures Pow2(1) == 2 && Pow2(2) == 4 && Pow2(6) == 64
    ensures Pow2(32) == SIZE_4G && Pow2(43) == 0x800_0000_0000
  {
    assert Pow2(2) == 4 && Pow2(3) == 8;
    Pow2Sum(2, 2);
    Pow2Sum(2, 4);
    Pow2Sum(4, 4);
    Pow2Sum(8, 8);
    Pow2Sum(16, 16);
    Pow2Sum(8, 3);
    Pow2Sum(32, 11);
  }

  lemma AlignedAddress(addr: nat, window: nat, slots: nat)
    requires window > 0 && addr % window == 0 && addr < window * slots
    ensures (addr / window) % slots * window == addr
  {
    var q := addr / window;
    assert addr == window * q;
    if slots <= q {
      MulAtLeast(window, slots, q);
    }
    assert q % slots == q;
  }

  lemma MulAtLeast(m: nat, a: nat, b: nat)
    requires a <= b
    ensures m * a <= m * b
  {
    if a < b {
      MulGap(m, a, b);
    }
  }

  lemma DisjointLayout(id: nat, c: TlbConfig)
    ensures WellLaidOut(Layout(id, c))
  {
  }

  lemma Decodes(id: nat, c: TlbConfig, words: seq<bv32>, k: nat)
    requires Packed(words, Layout(id, c)) && k < 10
    ensures var f := Layout(id, c)[k]; Field(words, f.off, f.len) == f.value % Pow2(f.len)
  {
    DisjointLayout(id, c);
    UnpackInvertsPack(words, Layout(id, c), k);
  }

  /** Main result: the register TtBhConfigureUserTlb composes decodes to the
      requested configuration, every field modulo its width, and every aligned
      64-bit address exactly. */
  lemma WindowDecodes(id: nat, c: TlbConfig, words: seq<bv32>)
    requires c.addr < UINT64 && c.addr % WindowSize(id) == 0
    requires Packed(words, Layout(id, c))
    ensures DecodeWindow(id, words) == Truncated(c)
  {
    Pow2Values();
    Decodes(id, c, words, 0);
    Decodes(id, c, words, 1);
    Decodes(id, c, words, 2);
    Decodes(id, c, words, 3);
    Decodes(id, c, words, 4);
    Decodes(id, c, words, 5);
    Decodes(id, c, words, 6);
    Decodes(id, c, words, 7);
    Decodes(id, c, words, 8);
    Decodes(id, c, words, 9);
    if id < WINDOWS_2M {
      AlignedAddress(c.addr, SIZE_2M, 0x800_0000_0000);
    } else {
      AlignedAddress(c.addr, SIZE_4G, SIZE_4G);
    }
  }

  lemma ZeroPacked(words: seq<bv32>)
    requires words == [0, 0, 0]
    ensures Packed(words, [])
  {
    forall p: nat | p < 96
      ensures !RegBit(words, p)
    {
      ShiftedZero((p % 32) as bv32);
    }
  }

  lemma ShiftedZero(k: bv32)
    requires k < 32
    ensures ((0 as bv32) >> k) & 1 == 0
  {
  }

  /** The register block at BAR0 + TLB_REGS_START. */
  class RegisterBlock {
    const regs: array<bv32>

    constructor ()
      ensures fresh(regs) && regs.Length == REG_WORDS
    {
      regs := new bv32[REG_WORDS](_ => 0);
    }

    ghost function Window(id: nat): seq<bv32>
      requires id < WINDOWS_TOTAL && regs.Length == REG_WORDS
      reads regs
    {
      regs[3 * id .. 3 * id + 3]
    }

    method WriteWindow(id: nat, words: array<bv32>)
      requires id < WINDOWS_TOTAL && regs.Length == REG_WORDS && words.Length == 3 && words != regs
      modifies regs
      ensures Window(id) == words[..]
      ensures forall r | 0 <= r < REG_WORDS && !(3 * id <= r < 3 * id + 3) :: regs[r] == old(regs[r])
    {
      regs[3 * id] := words[0];
      regs[3 * id + 1] := words[1];
      regs[3 * id + 2] := words[2];
    }

    /** TtBhConfigureUserTlb. An unaligned base is refused with nothing written;
        otherwise the window decodes to the request and the only other word
        that changes is the window's own strided register, which is cleared. */
    method ConfigureUserTlb(id: nat, c: TlbConfig) returns (ok: bool)
      requires regs.Length == REG_WORDS && id < WINDOWS_TOTAL && c.addr < UINT64
      modifies regs
      ensures ok <==> c.addr % WindowSize(id) == 0
      ensures !ok ==> regs[..] == old(regs[..])
      ensures ok ==> DecodeWindow(id, Window(id)) == Truncated(c)
      ensures ok && id < STRIDED_COUNT ==> regs[STRIDED_BASE + id] == 0
      ensures forall r | 0 <= r < REG_WORDS && !(3 * id <= r < 3 * id + 3) &&
          !(id < STRIDED_COUNT && r == STRIDED_BASE + id) :: regs[r] == old(regs[r])
      ensures forall w | 0 <= w < WINDOWS_TOTAL && w != id :: Window(w) == old(Window(w))
    {
      if c.addr % WindowSize(id) != 0 {
        return false;
      }
      var words := ComposeWindow(id, c);
      WriteWindow(id, words);
      ghost var window := Window(id);
      if id < STRIDED_COUNT {
        regs[STRIDED_BASE + id] := 0;
      }
      assert Window(id) == window;
      return true;
    }

    /** TtBhConfigureKernelTlb: points window 201 at the 2 MiB granule holding
        (x, y, addr) and returns the offset of addr inside the kernel view. */
    method ConfigureKernelTlb(x: nat, y: nat, addr: nat, noc: nat) returns (offset: nat)
      requires regs.Length == REG_WORDS && addr < UINT64
      modifies regs
      ensures offset < SIZE_2M && offset <= addr
      ensures DecodeWindow(KERNEL_WINDOW, Window(KERNEL_WINDOW)) ==
              Truncated(TlbConfig(addr - offset, x, y, 0, 0, noc, 0, 1, 0, 0))
      ensures forall r | 0 <= r < REG_WORDS && !(3 * KERNEL_WINDOW <= r < 3 * KERNEL_WINDOW + 3) ::
          regs[r] == old(regs[r])
    {
      offset := addr % SIZE_2M;
      var words := ComposeKernelWindow(x, y, addr - offset, noc);
      WriteWindow(KERNEL_WINDOW, words);
    }
  }

  method ComposeWindow(id: nat, c: TlbConfig) returns (words: array<bv32>)
    requires c.addr < UINT64 && c.addr % WindowSize(id) == 0
    ensures fresh(words) && words.Length == 3
    ensures DecodeWindow(id, words[..]) == Truncated(c)
  {
    words := new bv32[3](_ => 0);
    ZeroPacked(words[..]);
    if id < WINDOWS_2M {
      Fill2M(id, c, words);
    } else {
      Fill4G(id, c, words);
    }
    WindowDecodes(id, c, words[..]);
  }

  method Fill2M(ghost id: nat, c: TlbConfig, words: array<bv32>)
    requires id < WINDOWS_2M && words.Length == 3 && Packed(words[..], [])
    modifies words
    ensures Packed(words[..], Layout(id, c))
  {
    ghost var fs: seq<FieldSpec> := [];
    fs := SetField(words, fs, 0, 43, c.addr / SIZE_2M);
    fs := SetField(words, fs, 43, 6, c.xEnd);
    fs := SetField(words, fs, 49, 6, c.yEnd);
    fs := SetField(words, fs, 55, 6, c.xStart);
    fs := SetField(words, fs, 61, 6, c.yStart);
    fs := SetField(words, fs, 67, 2, c.noc);
    fs := SetField(words, fs, 69, 1, c.mcast);
    fs := SetField(words, fs, 70, 2, c.ordering);
    fs := SetField(words, fs, 72, 1, c.linked);
    fs := SetField(words, fs, 73, 1, c.staticVc);
    assert fs == Layout(id, c);
  }

  method Fill4G(ghost id: nat, c: TlbConfig, words: array<bv32>)
    requires id >= WINDOWS_2M && words.Length == 3 && Packed(words[..], [])
    modifies words
    ensures Packed(words[..], Layout(id, c))
  {
    ghost var fs: seq<FieldSpec> := [];
    fs := SetField(words, fs, 0, 32, c.addr / SIZE_4G);
    fs := SetField(words, fs, 32, 6, c.xEnd);
    fs := SetField(words, fs, 38, 6, c.yEnd);
    fs := SetField(words, fs, 44, 6, c.xStart);
    fs := SetField(words, fs, 50, 6, c.yStart);
    fs := SetField(words, fs, 56, 2, c.noc);
    fs := SetField(words, fs, 58, 1, c.mcast);
    fs := SetField(words, fs, 59, 2, c.ordering);
    fs := SetField(words, fs, 61, 1, c.linked);
    fs := SetField(words, fs, 62, 1, c.staticVc);
    assert fs == Layout(id, c);
  }

  method ComposeKernelWindow(x: nat, y: nat, base: nat, noc: nat) returns (words: array<bv32>)
    requires base < UINT64 && base % SIZE_2M == 0
    ensures fresh(words) && words.Length == 3
    ensures DecodeWindow(KERNEL_WINDOW, words[..]) == Truncated(TlbConfig(base, x, y, 0, 0, noc, 0, 1, 0, 0))
  {
    words := new bv32[3](_ => 0);
    ZeroPacked(words[..]);
    ghost var c := TlbConfig(base, x, y, 0, 0, noc, 0, 1, 0, 0);
    ghost var fs := SetField(words, [], 0, 43, base / SIZE_2M);
    fs := SetField(words, fs, 43, 6, x);
    fs := SetField(words, fs, 49, 6, y);
    fs := SetField(words, fs, 67, 2, noc);
    fs := SetField(words, fs, 70, 2, 1);
    assert fs == KernelLayout(c);
    UnwrittenFieldsAreZero(c, words[..]);
    WindowDecodes(KERNEL_WINDOW, c, words[..]);
  }

  /** The fields TtBhConfigureKernelTlb writes: the others are left zero. */
  function KernelLayout(c: TlbConfig): seq<FieldSpec> {
    [FieldSpec(0, 43, c.addr / SIZE_2M), FieldSpec(43, 6, c.xEnd), FieldSpec(49, 6, c.yEnd),
     FieldSpec(67, 2, c.noc), FieldSpec(70, 2, c.ordering)]
  }

  /** Leaving a field unwritten packs the same register as writing zero to it. */
  lemma UnwrittenFieldsAreZero(c: TlbConfig, words: seq<bv32>)
    requires Packed(words, KernelLayout(c))
    requires c.xStart == c.yStart == c.mcast == c.linked == c.staticVc == 0
    ensures Packed(words, Layout(KERNEL_WINDOW, c))
  {
    var ks, fs := KernelLayout(c), Layout(KERNEL_WINDOW, c);
    assert ks == [fs[0], fs[1], fs[2], fs[5], fs[7]];
    forall f, p: nat | f in fs && f !in ks
      ensures !Covers(f, p)
    {
      if Inside(f, p) {
        ZeroHasNoBits(p - f.off);
      }
    }
  }

  lemma ZeroHasNoBits(i: nat)
    ensures !ValueBit(0, i)
  {
    DivModUnique(0, Pow2(i), 0, 0);
  }
}
