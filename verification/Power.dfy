/** Multi-client power aggregation: every handle stores a contribution, the
    device sends firmware the OR of the flags and the maximum of each setting. */
module Power {
  import opened Arithmetic

  const SETTINGS := 14
  const FLAG_COUNT := 15
  const FLAG_MAX_AI_CLK: nat := 1
  const ARGSZ := 40
  const MSG_TYPE_POWER_SETTING: nat := 0x21

  type u8 = x: nat | x <= 0xFF
  type u16 = x: nat | x <= 0xFFFF
  type u32 = x: nat | x <= 0xFFFF_FFFF

  /** The power fields of a handle, as TtPowerAggregate reads them. */
  datatype Contribution = Contribution(contributes: bool, openGen: int, validity: u8, flags: u16, settings: seq<u16>)

  /** The low and the high nibble of the validity byte. */
  function FlagsCount(validity: u8): nat {
    validity % 16
  }

  function SettingsCount(validity: u8): nat {
    validity / 16
  }

  // Flag words are 16-bit numbers; bits and OR are spelled out arithmetically.

  predicate FlagBit(flags: nat, b: nat) {
    if b == 0 then flags % 2 == 1 else FlagBit(flags / 2, b - 1)
  }

  function Or(a: nat, b: nat): nat {
    if a == 0 && b == 0 then 0
    else (if a % 2 == 1 || b % 2 == 1 then 1 else 0) + 2 * Or(a / 2, b / 2)
  }

  /** ~((1 << count) - 1) & 0x7FFF: the flags past the declared count. */
  function UnspecifiedMask(count: nat): nat
    requires count <= FLAG_COUNT
  {
    MaskMonotone(count, FLAG_COUNT);
    Pow2(FLAG_COUNT) - Pow2(count)
  }

  lemma MaskMonotone(c: nat, n: nat)
    requires c <= n
    ensures Pow2(c) <= Pow2(n)
  {
    if c < n {
      MaskMonotone(c, n - 1);
    }
  }

  function SettingsUsed(validity: u8): nat {
    if SettingsCount(validity) > SETTINGS then SETTINGS else SettingsCount(validity)
  }

  /** Skipped: stale handles and those that never contributed. */
  predicate Counts(c: Contribution, gen: int) {
    c.contributes && c.openGen == gen
  }

  /** Flags the client does not know about are on. */
  function EffectiveFlags(c: Contribution): nat {
    Or(c.flags, UnspecifiedMask(FlagsCount(c.validity)))
  }

  // ------------------------------------------------------- reference meaning

  /** Contribution c asks for flag b: it sets it, or b is past its flag count. */
  predicate AsksFor(c: Contribution, b: nat) {
    FlagBit(c.flags, b) || (c.validity % 16 <= b < 15)
  }

  ghost predicate SomeoneAsksFor(cs: seq<Contribution>, gen: int, b: nat) {
    exists c :: c in cs && c.contributes && c.openGen == gen && AsksFor(c, b)
  }

  /** A current contributor whose settings count reaches past i. */
  predicate Declares(c: Contribution, gen: int, i: nat) {
    c.contributes && c.openGen == gen && i < c.validity / 16
  }

  /** n is the largest settings count of the current contributors. */
  ghost predicate IsLargestCount(cs: seq<Contribution>, gen: int, n: nat) {
    && (forall c | c in cs && c.contributes && c.openGen == gen :: c.validity / 16 <= n)
    && (n == 0 || exists c :: c in cs && c.contributes && c.openGen == gen && c.validity / 16 == n)
  }

  /** m is the largest value any contributor declaring setting i gives it. */
  ghost predicate IsLargest(cs: seq<Contribution>, gen: int, i: nat, m: u16)
    requires i < SETTINGS && WellFormed(cs)
  {
    && (forall c | c in cs && Declares(c, gen, i) :: c.settings[i] <= m)
    && (m == 0 || exists c :: c in cs && Declares(c, gen, i) && c.settings[i] == m)
  }

  ghost predicate WellFormed(cs: seq<Contribution>) {
    forall c | c in cs :: |c.settings| == SETTINGS
  }

  // ------------------------------------------------------------------ folds

  function AggFlags(cs: seq<Contribution>, gen: int): nat {
    if cs == [] then 0
    else
      var c, rest := cs[|cs| - 1], AggFlags(cs[..|cs| - 1], gen);
      if Counts(c, gen) then Or(rest, EffectiveFlags(c)) else rest
  }

  function Max(a: u16, b: u16): u16 {
    if b > a then b else a
  }

  function AggSetting(cs: seq<Contribution>, gen: int, i: nat): u16
    requires i < SETTINGS && WellFormed(cs)
  {
    if cs == [] then 0
    else
      var c, rest := cs[|cs| - 1], AggSetting(cs[..|cs| - 1], gen, i);
      if Counts(c, gen) && i < SettingsUsed(c.validity) then Max(rest, c.settings[i]) else rest
  }

  function MaxCount(cs: seq<Contribution>, gen: int): nat {
    if cs == [] then 0
    else
      var c, rest := cs[|cs| - 1], MaxCount(cs[..|cs| - 1], gen);
      if Counts(c, gen) && SettingsCount(c.validity) > rest then SettingsCount(c.validity) else rest
  }

  /** What one more contribution adds to the three aggregates. */
  lemma OneMore(cs: seq<Contribution>, gen: int, e: nat)
    requires e < |cs| && WellFormed(cs)
    ensures AggFlags(cs[..e + 1], gen) ==
      if Counts(cs[e], gen) then Or(AggFlags(cs[..e], gen), EffectiveFlags(cs[e])) else AggFlags(cs[..e], gen)
    ensures MaxCount(cs[..e + 1], gen) ==
      if Counts(cs[e], gen) && SettingsCount(cs[e].validity) > MaxCount(cs[..e], gen)
      then SettingsCount(cs[e].validity) else MaxCount(cs[..e], gen)
    ensures forall i: nat | i < SETTINGS ::
      AggSetting(cs[..e + 1], gen, i) ==
        if Counts(cs[e], gen) && i < SettingsUsed(cs[e].validity)
        then Max(AggSetting(cs[..e], gen, i), cs[e].settings[i]) else AggSetting(cs[..e], gen, i)
  {
    assert cs[..e + 1][..e] == cs[..e] && cs[..e + 1][e] == cs[e];
  }

  lemma {:induction false} OrBit(a: nat, b: nat, k: nat)
    ensures FlagBit(Or(a, b), k) <==> FlagBit(a, k) || FlagBit(b, k)
    decreases k
  {
    OrHalves(a, b);
    if k > 0 {
      OrBit(a / 2, b / 2, k - 1);
    }
  }

  lemma OrHalves(a: nat, b: nat)
    ensures Or(a, b) / 2 == Or(a / 2, b / 2) && (Or(a, b) % 2 == 1 <==> a % 2 == 1 || b % 2 == 1)
  {
    if a != 0 || b != 0 {
      Doubled(if a % 2 == 1 || b % 2 == 1 then 1 else 0, Or(a / 2, b / 2));
    }
  }

  lemma Doubled(d: nat, q: nat)
    requires d < 2
    ensures (d + 2 * q) / 2 == q && (d + 2 * q) % 2 == d
  {
  }

  lemma {:induction false} ZeroBit(k: nat)
    ensures !FlagBit(0, k)
  {
    if k > 0 {
      ZeroBit(k - 1);
    }
  }

  lemma {:induction false} MaskBit(c: nat, n: nat, k: nat)
    requires c <= n
    ensures Pow2(c) <= Pow2(n)
    ensures FlagBit(Pow2(n) - Pow2(c), k) <==> c <= k < n
    decreases n
  {
    MaskMonotone(c, n);
    if c == n {
      ZeroBit(k);
    } else if c == 0 {
      MaskBit(0, n - 1, if k > 0 then k - 1 else 0);
      assert (Pow2(n) - 1) / 2 == Pow2(n - 1) - 1;
    } else {
      MaskBit(c - 1, n - 1, if k > 0 then k - 1 else 0);
      assert (Pow2(n) - Pow2(c)) / 2 == Pow2(n - 1) - Pow2(c - 1);
    }
  }

  lemma EffectiveBit(c: Contribution, k: nat)
    ensures FlagBit(EffectiveFlags(c), k) <==> AsksFor(c, k)
  {
    var count := FlagsCount(c.validity);
    OrBit(c.flags, UnspecifiedMask(count), k);
    MaskBit(count, FLAG_COUNT, k);
  }

  lemma SnocMembers(cs: seq<Contribution>)
    requires cs != []
    ensures forall c :: c in cs <==> c in cs[..|cs| - 1] || c == cs[|cs| - 1]
  {
    assert cs == cs[..|cs| - 1] + [cs[|cs| - 1]];
  }

  /** The aggregate flag word says exactly what someone asks for. */
  lemma {:induction false} FlagsMean(cs: seq<Contribution>, gen: int, b: nat)
    ensures FlagBit(AggFlags(cs, gen), b) <==> SomeoneAsksFor(cs, gen, b)
  {
    if cs == [] {
      ZeroBit(b);
    } else {
      var c, rest := cs[|cs| - 1], cs[..|cs| - 1];
      SnocMembers(cs);
      FlagsMean(rest, gen, b);
      OrBit(AggFlags(rest, gen), EffectiveFlags(c), b);
      EffectiveBit(c, b);
    }
  }

  /** The aggregate setting is the maximum over the contributors declaring it. */
  lemma {:induction false} SettingMeans(cs: seq<Contribution>, gen: int, i: nat)
    requires i < SETTINGS && WellFormed(cs)
    ensures IsLargest(cs, gen, i, AggSetting(cs, gen, i))
  {
    if cs != [] {
      SnocMembers(cs);
      SettingMeans(cs[..|cs| - 1], gen, i);
    }
  }

  /** The count in the message is the largest settings count. */
  lemma {:induction false} CountMeans(cs: seq<Contribution>, gen: int)
    ensures IsLargestCount(cs, gen, MaxCount(cs, gen))
  {
    if cs != [] {
      SnocMembers(cs);
      CountMeans(cs[..|cs| - 1], gen);
    }
  }

  /** Flag b is bit b. */
  lemma {:induction false} FlagBitIsBit(flags: nat, b: nat)
    ensures Pow2(b) > 0 && (FlagBit(flags, b) <==> (flags / Pow2(b)) % 2 == 1)
    decreases b
  {
    if b > 0 {
      FlagBitIsBit(flags / 2, b - 1);
      DivDiv(flags, Pow2(b - 1));
    }
  }

  lemma DivDiv(x: nat, p: nat)
    requires p > 0
    ensures x / 2 / p == x / (2 * p)
  {
    var q := x / (2 * p);
    var r := x - 2 * p * q;
    DivModUnique(x, 2 * p, q, x % (2 * p));
    DivModUnique(x / 2, p, q, r / 2);
  }

  lemma LargestIsUnique(cs: seq<Contribution>, gen: int, i: nat, m: u16, n: u16)
    requires i < SETTINGS && WellFormed(cs) && IsLargest(cs, gen, i, m) && IsLargest(cs, gen, i, n)
    ensures m == n
  {
  }

  lemma {:induction false} SameBits(a: nat, b: nat)
    requires forall k: nat :: FlagBit(a, k) <==> FlagBit(b, k)
    ensures a == b
    decreases a + b
  {
    if a != 0 || b != 0 {
      assert FlagBit(a, 0) <==> FlagBit(b, 0);
      forall k: nat
        ensures FlagBit(a / 2, k) <==> FlagBit(b / 2, k)
      {
        assert FlagBit(a, k + 1) <==> FlagBit(b, k + 1);
      }
      SameBits(a / 2, b / 2);
    }
  }

  lemma {:induction false} OrFits(a: nat, b: nat, n: nat)
    requires a < Pow2(n) && b < Pow2(n)
    ensures Or(a, b) < Pow2(n)
    decreases n
  {
    if n > 0 {
      OrFits(a / 2, b / 2, n - 1);
    }
  }

  lemma {:induction false} AggFits(cs: seq<Contribution>, gen: int)
    ensures AggFlags(cs, gen) <= 0xFFFF
  {
    assert Pow2(4) == 16 && Pow2(8) == 256 && Pow2(12) == 4096 && Pow2(16) == 0x1_0000;
    if cs != [] {
      var c := cs[|cs| - 1];
      AggFits(cs[..|cs| - 1], gen);
      MaskMonotone(FLAG_COUNT, 16);
      OrFits(c.flags, UnspecifiedMask(FlagsCount(c.validity)), 16);
      OrFits(AggFlags(cs[..|cs| - 1], gen), EffectiveFlags(c), 16);
    }
  }

  /** The aggregate does not depend on the order of the handle list, nor on how
      often a contribution is repeated. */
  lemma OrderIndependent(cs: seq<Contribution>, ds: seq<Contribution>, gen: int)
    requires WellFormed(cs) && WellFormed(ds) && forall c :: c in cs <==> c in ds
    ensures AggFlags(cs, gen) == AggFlags(ds, gen)
    ensures forall i: nat | i < SETTINGS :: AggSetting(cs, gen, i) == AggSetting(ds, gen, i)
  {
    forall b: nat
      ensures FlagBit(AggFlags(cs, gen), b) <==> FlagBit(AggFlags(ds, gen), b)
    {
      FlagsMean(cs, gen, b);
      FlagsMean(ds, gen, b);
    }
    SameBits(AggFlags(cs, gen), AggFlags(ds, gen));
    forall i: nat | i < SETTINGS
      ensures AggSetting(cs, gen, i) == AggSetting(ds, gen, i)
    {
      SettingMeans(cs, gen, i);
      SettingMeans(ds, gen, i);
      LargestIsUnique(cs, gen, i, AggSetting(cs, gen, i), AggSetting(ds, gen, i));
    }
  }

  /** Adding handles never clears a flag and never lowers a setting. */
  lemma Monotone(cs: seq<Contribution>, ds: seq<Contribution>, gen: int)
    requires WellFormed(ds) && forall c :: c in cs ==> c in ds
    ensures forall b: nat :: FlagBit(AggFlags(cs, gen), b) ==> FlagBit(AggFlags(ds, gen), b)
    ensures forall i: nat | i < SETTINGS :: AggSetting(cs, gen, i) <= AggSetting(ds, gen, i)
  {
    forall b: nat
      ensures FlagBit(AggFlags(cs, gen), b) ==> FlagBit(AggFlags(ds, gen), b)
    {
      FlagsMean(cs, gen, b);
      FlagsMean(ds, gen, b);
    }
    forall i: nat | i < SETTINGS
      ensures AggSetting(cs, gen, i) <= AggSetting(ds, gen, i)
    {
      SettingMeans(cs, gen, i);
      SettingMeans(ds, gen, i);
    }
  }

  // -------------------------------------------------------------------- wire

  /** The POWER_SETTING message: header word and seven payload words. */
  datatype PowerMessage = PowerMessage(header: u32, payload: seq<u32>)

  function Validity(flagsCount: nat, settingsCount: nat): u8 {
    flagsCount % 16 + (settingsCount % 16) * 16
  }

  /** type | validity << 8 | flags << 16, the three parts being disjoint. */
  function PackHeader(count: nat, flags: u16): u32 {
    MSG_TYPE_POWER_SETTING + Validity(15, count) * 0x100 + flags * 0x1_0000
  }

  /** lo | hi << 16, the two halves being disjoint. */
  function PackPair(lo: u16, hi: u16): u32 {
    lo + hi * 0x1_0000
  }

  /** What firmware reads out of a message: flags, settings count, setting i. */
  function WireType(m: PowerMessage): nat {
    m.header % 0x100
  }

  function WireValidity(m: PowerMessage): u8 {
    (m.header / 0x100) % 0x100
  }

  function WireFlags(m: PowerMessage): nat {
    m.header / 0x1_0000
  }

  function WireSetting(m: PowerMessage, i: nat): u16
    requires |m.payload| == SETTINGS / 2 && i < SETTINGS
  {
    if i % 2 == 0 then m.payload[i / 2] % 0x1_0000 else m.payload[i / 2] / 0x1_0000
  }

  lemma LowByte(x: nat, b: nat)
    requires b < 0x100
    ensures (b + x * 0x100) % 0x100 == b && (b + x * 0x100) / 0x100 == x
  {
    DivModUnique(b + x * 0x100, 0x100, x, b);
  }

  lemma ValidityUnpacks(count: nat)
    requires count <= 15
    ensures FlagsCount(Validity(15, count)) == 15 && SettingsCount(Validity(15, count)) == count
  {
    DivModUnique(Validity(15, count), 16, count, 15);
  }

  lemma HeaderUnpacks(count: nat, flags: u16, payload: seq<u32>)
    requires count <= 15
    ensures var m := PowerMessage(PackHeader(count, flags), payload);
      WireFlags(m) == flags && WireType(m) == MSG_TYPE_POWER_SETTING &&
      FlagsCount(WireValidity(m)) == 15 && SettingsCount(WireValidity(m)) == count
  {
    var v: nat := Validity(15, count);
    ValidityUnpacks(count);
    HeaderParts(v, flags);
  }

  lemma HeaderParts(v: nat, flags: nat)
    requires v <= 0xFF
    ensures var header := MSG_TYPE_POWER_SETTING + v * 0x100 + flags * 0x1_0000;
      header % 0x100 == MSG_TYPE_POWER_SETTING && (header / 0x100) % 0x100 == v && header / 0x1_0000 == flags
  {
    var header := MSG_TYPE_POWER_SETTING + v * 0x100 + flags * 0x1_0000;
    assert header == MSG_TYPE_POWER_SETTING + (v + flags * 0x100) * 0x100;
    LowByte(v + flags * 0x100, MSG_TYPE_POWER_SETTING);
    LowByte(flags, v);
    DivModUnique(header, 0x1_0000, flags, MSG_TYPE_POWER_SETTING + v * 0x100);
  }

  lemma PayloadUnpacks(header: u32, payload: seq<u32>, settings: seq<u16>)
    requires |settings| == SETTINGS && |payload| == SETTINGS / 2
    requires forall k: nat | k < SETTINGS / 2 :: payload[k] == PackPair(settings[2 * k], settings[2 * k + 1])
    ensures forall i: nat | i < SETTINGS :: WireSetting(PowerMessage(header, payload), i) == settings[i]
  {
    forall i: nat | i < SETTINGS
      ensures WireSetting(PowerMessage(header, payload), i) == settings[i]
    {
      var k := i / 2;
      assert payload[k] == PackPair(settings[2 * k], settings[2 * k + 1]);
    }
  }

  /** The validity byte is bits 8 to 15 of the header, a nibble each. */
  lemma HeaderNibbles(count: nat, flags: u16)
    requires count <= 15
    ensures var header := PackHeader(count, flags);
      (header / 0x100) % 0x10 == 15 && (header / 0x1000) % 0x10 == count
  {
    var header := PackHeader(count, flags);
    DivModUnique(header, 0x100, 15 + (count + flags * 16) * 16, 0x21);
    DivModUnique(15 + (count + flags * 16) * 16, 16, count + flags * 16, 15);
    DivModUnique(header, 0x1000, count + flags * 16, 0x21 + 15 * 0x100);
    DivModUnique(count + flags * 16, 16, flags, count);
  }

  lemma AggregateMeans(cs: seq<Contribution>, gen: int)
    requires WellFormed(cs)
    ensures forall b: nat :: FlagBit(AggFlags(cs, gen), b) <==> SomeoneAsksFor(cs, gen, b)
    ensures forall i: nat | i < SETTINGS :: IsLargest(cs, gen, i, AggSetting(cs, gen, i))
    ensures IsLargestCount(cs, gen, MaxCount(cs, gen))
  {
    forall b: nat
      ensures FlagBit(AggFlags(cs, gen), b) <==> SomeoneAsksFor(cs, gen, b)
    {
      FlagsMean(cs, gen, b);
    }
    forall i: nat | i < SETTINGS
      ensures IsLargest(cs, gen, i, AggSetting(cs, gen, i))
    {
      SettingMeans(cs, gen, i);
    }
    CountMeans(cs, gen);
  }

  lemma {:induction false} MaxCountFits(cs: seq<Contribution>, gen: int)
    ensures MaxCount(cs, gen) <= 15
  {
    if cs != [] {
      MaxCountFits(cs[..|cs| - 1], gen);
    }
  }

  // ---------------------------------------------------------------- the code

  lemma LegacyFlags(b: nat)
    ensures FlagBit(0x7FFF - FLAG_MAX_AI_CLK, b) <==> 1 <= b < FLAG_COUNT
  {
    assert Pow2(4) == 16 && Pow2(8) == 256 && Pow2(12) == 4096 && Pow2(15) == 0x8000 && Pow2(1) == 2;
    MaskBit(1, FLAG_COUNT, b);
  }

  class PowerHandle {
    var openResetGen: int
    var powerContributes: bool
    var powerValidity: u8
    var powerFlags: u16
    var powerSettings: seq<u16>

    ghost function View(): Contribution
      reads this
    {
      Contribution(powerContributes, openResetGen, powerValidity, powerFlags, powerSettings)
    }

    /** TtPowerFileDefault: every flag but MAX_AI_CLK, no settings. */
    constructor (gen: int)
      ensures View().settings == seq(SETTINGS, _ => 0) && powerContributes && openResetGen == gen
      ensures forall b: nat :: AsksFor(View(), b) <==> 1 <= b < FLAG_COUNT
    {
      openResetGen := gen;
      powerContributes := true;
      powerValidity := Validity(15, 0);
      powerFlags := 0x7FFF - FLAG_MAX_AI_CLK;
      powerSettings := seq(SETTINGS, _ => 0);
      new;
      forall b: nat
        ensures AsksFor(View(), b) <==> 1 <= b < FLAG_COUNT
      {
        LegacyFlags(b);
      }
    }

    /** TtIoctlSetPowerState up to the re-aggregation: validates, then replaces
        the whole contribution. */
    method SetPowerState(argsz: nat, inFlags: nat, reserved0: nat, validity: u8, flags: u16, settings: seq<u16>)
      returns (ok: bool)
      requires |settings| == SETTINGS
      modifies this
      ensures ok <==> argsz == 40 && inFlags == 0 && reserved0 == 0 && validity / 16 <= 14
      ensures View() == if ok then Contribution(true, old(openResetGen), validity, flags, settings) else old(View())
    {
      if argsz != ARGSZ {
        return false;
      }
      if inFlags != 0 || reserved0 != 0 {
        return false;
      }
      if validity > Validity(15, 14) {
        return false;
      }
      powerContributes, powerValidity, powerFlags, powerSettings := true, validity, flags, settings;
      return true;
    }
  }

  class PowerDevice {
    var resetGen: int
    var fileList: seq<PowerHandle>
    var isBlackhole: bool
    var detached: bool
    var powerAggValid: bool
    var powerAggFlags: u16
    var powerAggSettings: seq<u16>

    ghost function Contributions(): seq<Contribution>
      reads this, fileList
    {
      seq(|fileList|, i requires 0 <= i < |fileList| reads this, fileList => fileList[i].View())
    }

    /** TtPowerAggregate: walks the handle list, stores the aggregate and builds
        the firmware message, from which flags and all settings read back. What
        is stored and sent is what the current contributors ask for. */
    method Aggregate() returns (sent: bool, msg: PowerMessage)
      requires WellFormed(Contributions())
      modifies this`powerAggValid, this`powerAggFlags, this`powerAggSettings
      ensures powerAggValid && powerAggFlags == AggFlags(old(Contributions()), resetGen)
      ensures |powerAggSettings| == SETTINGS
      ensures forall i: nat | i < SETTINGS :: powerAggSettings[i] == AggSetting(old(Contributions()), resetGen, i)
      ensures forall b: nat :: FlagBit(powerAggFlags, b) <==> SomeoneAsksFor(old(Contributions()), resetGen, b)
      ensures forall i: nat | i < SETTINGS :: IsLargest(old(Contributions()), resetGen, i, powerAggSettings[i])
      ensures sent <==> isBlackhole && !detached
      ensures sent ==> |msg.payload| == SETTINGS / 2 && msg.header % 0x100 == 0x21 && msg.header / 0x1_0000 == powerAggFlags
      ensures sent ==> (msg.header / 0x100) % 0x10 == 15
      ensures sent ==> IsLargestCount(old(Contributions()), resetGen, (msg.header / 0x1000) % 0x10)
      ensures sent ==> forall k: nat | k < 7 ::
        msg.payload[k] % 0x1_0000 == powerAggSettings[2 * k] && msg.payload[k] / 0x1_0000 == powerAggSettings[2 * k + 1]
    {
      AggregateMeans(Contributions(), resetGen);
      var aggFlags, aggSettings, maxSettingsCount := Fold();
      powerAggValid, powerAggFlags, powerAggSettings := true, aggFlags, aggSettings;
      sent := isBlackhole && !detached;
      msg := PowerMessage(0, []);
      if sent {
        MaxCountFits(old(Contributions()), resetGen);
        msg := Pack(maxSettingsCount, aggFlags, aggSettings);
      }
    }

    /** The walk over the handle list. */
    method Fold() returns (aggFlags: u16, aggSettings: seq<u16>, maxSettingsCount: nat)
      requires WellFormed(Contributions())
      ensures aggFlags == AggFlags(Contributions(), resetGen) && maxSettingsCount == MaxCount(Contributions(), resetGen)
      ensures |aggSettings| == SETTINGS
      ensures forall i: nat | i < SETTINGS :: aggSettings[i] == AggSetting(Contributions(), resetGen, i)
    {
      ghost var cs := Contributions();
      var settings := new u16[SETTINGS](_ => 0);
      aggFlags, maxSettingsCount := 0, 0;
      var e := 0;
      while e < |fileList|
        invariant 0 <= e <= |fileList|
        invariant aggFlags == AggFlags(cs[..e], resetGen)
        invariant maxSettingsCount == MaxCount(cs[..e], resetGen)
        invariant forall i: nat | i < SETTINGS :: settings[i] == AggSetting(cs[..e], resetGen, i)
      {
        var fc := fileList[e];
        assert cs[e] == fc.View() && fc.View() in cs;
        OneMore(cs, resetGen, e);
        if fc.powerContributes && fc.openResetGen == resetGen {
          AggFits(cs[..e + 1], resetGen);
          aggFlags, maxSettingsCount := AddContribution(fc, aggFlags, maxSettingsCount, settings);
        }
        e := e + 1;
      }
      assert cs[..|fileList|] == cs;
      aggSettings := settings[..];
    }

    /** One counted handle of the walk. */
    method AddContribution(fc: PowerHandle, flags: u16, count: nat, settings: array<u16>) returns (aggFlags: u16, maxCount: nat)
      requires settings.Length == SETTINGS == |fc.powerSettings| && Or(flags, EffectiveFlags(fc.View())) <= 0xFFFF
      modifies settings
      ensures aggFlags == Or(flags, EffectiveFlags(fc.View()))
      ensures maxCount == if SettingsCount(fc.powerValidity) > count then SettingsCount(fc.powerValidity) else count
      ensures forall i: nat | i < SETTINGS ::
        settings[i] == if i < SettingsUsed(fc.powerValidity) then Max(old(settings[i]), fc.powerSettings[i]) else old(settings[i])
    {
      var settingsCount := SettingsCount(fc.powerValidity);
      maxCount := if settingsCount > count then settingsCount else count;
      aggFlags := Or(flags, Or(fc.powerFlags, UnspecifiedMask(FlagsCount(fc.powerValidity))));
      RaiseSettings(settings, SettingsUsed(fc.powerValidity), fc.powerSettings);
    }

    /** The inner loop over the settings one handle declares. */
    method RaiseSettings(agg: array<u16>, count: nat, settings: seq<u16>)
      requires agg.Length == SETTINGS == |settings| && count <= SETTINGS
      modifies agg
      ensures forall i: nat | i < SETTINGS ::
        agg[i] == if i < count then Max(old(agg[i]), settings[i]) else old(agg[i])
    {
      var i := 0;
      while i < count
        invariant 0 <= i <= count
        invariant forall k: nat | k < SETTINGS ::
          agg[k] == if k < i then Max(old(agg[k]), settings[k]) else old(agg[k])
      {
        if settings[i] > agg[i] {
          agg[i] := settings[i];
        }
        i := i + 1;
      }
    }

    /** Composes the message: type, validity and flags in the header, two
        settings per payload word. */
    method Pack(count: nat, flags: u16, settings: seq<u16>) returns (msg: PowerMessage)
      requires |settings| == SETTINGS && count <= 15
      ensures |msg.payload| == SETTINGS / 2 && WireFlags(msg) == flags && WireType(msg) == MSG_TYPE_POWER_SETTING
      ensures (msg.header / 0x100) % 0x10 == 15 && (msg.header / 0x1000) % 0x10 == count
      ensures forall k: nat | k < 7 ::
        msg.payload[k] % 0x1_0000 == settings[2 * k] && msg.payload[k] / 0x1_0000 == settings[2 * k + 1]
    {
      var payload: seq<u32> := [];
      var i := 0;
      while i < SETTINGS / 2
        invariant 0 <= i <= SETTINGS / 2 && |payload| == i
        invariant forall k: nat | k < i :: payload[k] == PackPair(settings[2 * k], settings[2 * k + 1])
      {
        payload := payload + [PackPair(settings[2 * i], settings[2 * i + 1])];
        i := i + 1;
      }
      msg := PowerMessage(PackHeader(count, flags), payload);
      HeaderUnpacks(count, flags, payload);
      HeaderNibbles(count, flags);
    }
  }
}
