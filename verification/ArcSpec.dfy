/** The ARC message rings: a request ring and a response ring in the shared CSM
    memory, each with pointers kept modulo twice the number of entries. The
    memory is addressed word by word; histories of everything ever published
    say what the rings hold. */
module ArcSpec {
  import opened Arithmetic

  const MAXUINT32: nat := 0xFFFF_FFFF
  const WORD_COUNT: nat := 0x1_0000_0000

  const CSM_BASE: nat := 0x1000_0000
  const CSM_SIZE: nat := 0x8_0000

  const HEADER_SIZE := 32
  const REQ_WPTR := 0x00
  const RES_RPTR := 0x04
  const REQ_RPTR := 0x10
  const RES_WPTR := 0x14

  type u32 = x: nat | x <= MAXUINT32

  /** TT_ARC_MSG: the header word and seven payload words. */
  type Message = m: seq<u32> | |m| == 8 witness [0, 0, 0, 0, 0, 0, 0, 0]

  type Mem = map<nat, u32>

  /** queueInfo & 0xFF, after the zero check. */
  type Entries = n: nat | 0 < n <= 255 witness 8

  function Load(mem: Mem, a: nat): u32 {
    if a in mem then mem[a] else 0
  }

  // ------------------------------------------------------- modular arithmetic

  lemma ModShift(a: int, k: int, m: nat)
    requires m > 0
    ensures (a + m * k) % m == a % m
  {
    assert a + m * k == m * (a / m + k) + a % m;
    DivModUnique(a + m * k, m, a / m + k, a % m);
  }

  lemma ModMod(a: nat, n: nat)
    requires n > 0
    ensures (a % (2 * n)) % n == a % n
  {
    var q := a / (2 * n);
    assert a == n * (2 * q) + a % (2 * n);
    ModShift(a % (2 * n), 2 * q, n);
  }

  lemma ModSub(a: nat, b: nat, m: nat)
    requires m > 0
    ensures (a % m - b % m) % m == (a - b) % m
  {
    assert a - b == (a % m - b % m) + m * (a / m - b / m);
    ModShift(a % m - b % m, a / m - b / m, m);
  }

  lemma ModSucc(a: nat, m: nat)
    requires m > 0
    ensures (a % m + 1) % m == (a + 1) % m
  {
    assert a + 1 == (a % m + 1) + m * (a / m);
    ModShift(a % m + 1, a / m, m);
  }

  lemma DifferentSlots(a: nat, b: nat, n: nat)
    requires a < b < a + n
    ensures a % n != b % n
  {
    if a % n == b % n {
      assert b - a == n * (b / n - a / n);
      if b / n - a / n >= 1 {
        MulGap(n, 0, b / n - a / n);
      } else if b / n - a / n < 0 {
        MulGap(n, b / n - a / n, 0);
      }
    }
  }

  // ---------------------------------------------------------------- occupancy

  /** (wptr - rptr) % (2 * N) as the driver computes it, in 32-bit arithmetic. */
  function DriverOccupancy(w: u32, r: u32, n: nat): nat
    requires n > 0
  {
    ((w - r) % WORD_COUNT) % (2 * n)
  }

  /** The ring sizes for which 32-bit wrap-around does no harm. */
  predicate WrapsCleanly(n: nat) {
    n > 0 && WORD_COUNT % (2 * n) == 0
  }

  /** The 32-bit subtraction gives the true occupancy for every pair of pointers
      exactly when twice the ring size divides 2^32. */
  lemma OccupancyExactIff(n: nat)
    requires 0 < n <= 255
    ensures WrapsCleanly(n) <==>
      forall w: u32, r: u32 | w < 2 * n && r < 2 * n :: DriverOccupancy(w, r, n) == (w - r) % (2 * n)
  {
    var m := 2 * n;
    forall w: u32, r: u32 | w < m && r < m
      ensures w >= r ==> DriverOccupancy(w, r, n) == (w - r) % m
      ensures w < r ==> (w - r) % WORD_COUNT == w - r + WORD_COUNT
      ensures WrapsCleanly(n) ==> DriverOccupancy(w, r, n) == (w - r) % m
    {
      if w < r {
        DivModUnique(w - r, WORD_COUNT, -1, w - r + WORD_COUNT);
        if WrapsCleanly(n) {
          assert WORD_COUNT == m * (WORD_COUNT / m);
          ModShift(w - r, WORD_COUNT / m, m);
        }
      } else {
        DivModUnique(w - r, WORD_COUNT, 0, w - r);
      }
    }
    if forall w: u32, r: u32 | w < m && r < m :: DriverOccupancy(w, r, n) == (w - r) % m {
      var w: u32, r: u32 := 0, 1;
      assert DriverOccupancy(w, r, n) == (w - r) % m;
      assert (WORD_COUNT - 1) % m == (-1) % m;
      DivModUnique(-1, m, -1, m - 1);
      var q := (WORD_COUNT - 1) / m;
      assert WORD_COUNT == m * (q + 1) + 0;
      DivModUnique(WORD_COUNT, m, q + 1, 0);
    }
  }

  /** Every power of two up to 128 qualifies; three entries do not: with the write
      pointer at 0, a ring holding one entry (read pointer 5) reads as holding
      five, and a full ring (read pointer 3) reads as holding one, so that a push
      goes ahead and overwrites an unconsumed request. */
  lemma PowersOfTwoWrapCleanly(k: nat)
    requires k <= 7
    ensures WrapsCleanly(Pow2(k))
    ensures !WrapsCleanly(3) && DriverOccupancy(0, 5, 3) == 5 && (0 - 5) % 6 == 1
    ensures DriverOccupancy(0, 3, 3) == 1 && (0 - 3) % 6 == 3
  {
    assert Pow2(0) == 1 && Pow2(1) == 2 && Pow2(2) == 4 && Pow2(3) == 8;
    assert Pow2(4) == 16 && Pow2(5) == 32 && Pow2(6) == 64 && Pow2(7) == 128;
  }

  lemma DriverOccupancyIsTrue(w: nat, r: nat, n: nat)
    requires WrapsCleanly(n) && n <= 255 && r <= w <= r + n
    ensures DriverOccupancy(w % (2 * n), r % (2 * n), n) == w - r
  {
    OccupancyExactIff(n);
    ModSub(w, r, 2 * n);
    DivModUnique(w - r, 2 * n, 0, w - r);
  }

  // ------------------------------------------------------------------ layout

  function ReqAddr(base: nat, slot: nat, word: nat): nat {
    base + HEADER_SIZE + slot * 32 + word * 4
  }

  function ResAddr(base: nat, n: nat, slot: nat, word: nat): nat {
    base + HEADER_SIZE + n * 32 + slot * 32 + word * 4
  }

  /** The two rings and the four pointers never share a word. */
  lemma LayoutDisjoint(base: nat, n: nat, s: nat, t: nat, v: nat, w: nat)
    requires s < n && t < n && v < 8 && w < 8
    ensures ReqAddr(base, s, v) != ResAddr(base, n, t, w)
    ensures ReqAddr(base, s, v) == ReqAddr(base, t, w) ==> s == t && v == w
    ensures ResAddr(base, n, s, v) == ResAddr(base, n, t, w) ==> s == t && v == w
    ensures ReqAddr(base, s, v) > base + RES_WPTR + 4 && ResAddr(base, n, s, v) > base + RES_WPTR + 4
  {
  }

  predicate InCsm(a: nat) {
    CSM_BASE <= a <= CSM_BASE + CSM_SIZE - 4
  }

  /** The whole queue, header and both rings, lies in the CSM. */
  predicate QueueFits(base: nat, n: nat) {
    CSM_BASE <= base && base + HEADER_SIZE + 2 * n * 32 <= CSM_BASE + CSM_SIZE
  }

  lemma AddressesInCsm(base: nat, n: nat, slot: nat, word: nat)
    requires QueueFits(base, n) && slot < n && word < 8
    ensures InCsm(base + REQ_WPTR) && InCsm(base + REQ_RPTR) && InCsm(base + RES_WPTR) && InCsm(base + RES_RPTR)
    ensures InCsm(ReqAddr(base, slot, word)) && InCsm(ResAddr(base, n, slot, word))
  {
  }

  // ----------------------------------------------------------------- channel

  datatype Channel = Channel(
    base: nat, n: Entries, mem: Mem,
    sent: seq<Message>, taken: nat,        // requests published; consumed by firmware
    answered: seq<Message>, popped: nat)   // responses published; consumed by the driver
  {
    function At(offset: nat): u32 {
      Load(mem, base + offset)
    }

    function ReqWord(slot: nat, w: nat): u32 {
      Load(mem, ReqAddr(base, slot, w))
    }

    function ResWord(slot: nat, w: nat): u32 {
      Load(mem, ResAddr(base, n, slot, w))
    }

    /** The abstract queues the rings stand for. */
    function Requests(): seq<Message>
      requires taken <= |sent|
    {
      sent[taken..]
    }

    function Responses(): seq<Message>
      requires popped <= |answered|
    {
      answered[popped..]
    }
  }

  ghost predicate HoldsRequest(c: Channel, slot: nat, m: Message) {
    forall w: nat | w < 8 :: c.ReqWord(slot, w) == m[w]
  }

  ghost predicate HoldsResponse(c: Channel, slot: nat, m: Message) {
    forall w: nat | w < 8 :: c.ResWord(slot, w) == m[w]
  }

  /** The rings in memory are bounded FIFO queues of at most n messages, every
      queued entry completely written; firmware answers what it has taken. */
  ghost predicate Inv(c: Channel) {
    && WrapsCleanly(c.n)
    && c.taken <= |c.sent| <= c.taken + c.n
    && c.popped <= |c.answered| <= c.popped + c.n
    && |c.answered| <= c.taken
    && c.At(REQ_WPTR) == |c.sent| % (2 * c.n) && c.At(REQ_RPTR) == c.taken % (2 * c.n)
    && c.At(RES_WPTR) == |c.answered| % (2 * c.n) && c.At(RES_RPTR) == c.popped % (2 * c.n)
    && (forall k | c.taken <= k < |c.sent| :: HoldsRequest(c, k % c.n, c.sent[k]))
    && (forall k | c.popped <= k < |c.answered| :: HoldsResponse(c, k % c.n, c.answered[k]))
  }

  // ---------------------------------------------------------- firmware's side

  ghost predicate FwTake(c: Channel, d: Channel) {
    && c.taken < |c.sent|
    && d == c.(taken := c.taken + 1, mem := c.mem[c.base + REQ_RPTR := (c.At(REQ_RPTR) + 1) % (2 * c.n)])
  }

  ghost predicate FwWriteWord(c: Channel, d: Channel, w: nat, v: u32) {
    && w < 8 && |c.answered| < c.popped + c.n
    && d == c.(mem := c.mem[ResAddr(c.base, c.n, |c.answered| % c.n, w) := v])
  }

  ghost predicate FwPublish(c: Channel, d: Channel, m: Message) {
    && |c.answered| < c.popped + c.n && |c.answered| < c.taken
    && HoldsResponse(c, |c.answered| % c.n, m)
    && d == c.(answered := c.answered + [m], mem := c.mem[c.base + RES_WPTR := (c.At(RES_WPTR) + 1) % (2 * c.n)])
  }

  /** What any amount of firmware activity leaves to the driver. */
  ghost predicate Rely(c: Channel, d: Channel) {
    && Inv(d) && d.base == c.base && d.n == c.n
    && d.sent == c.sent && d.popped == c.popped
    && c.taken <= d.taken && c.answered <= d.answered
    && (forall s: nat, w: nat | s < c.n && w < 8 :: d.ReqWord(s, w) == c.ReqWord(s, w))
  }

  lemma RelyIsTransitive(c: Channel, d: Channel, e: Channel)
    requires Rely(c, d) && Rely(d, e)
    ensures Rely(c, e)
  {
  }

  /** Writing one of the four pointer words leaves every ring entry alone. */
  lemma PointerWrite(c: Channel, d: Channel, offset: nat, v: u32)
    requires offset <= RES_WPTR && d.base == c.base && d.n == c.n
    requires d.mem == c.mem[c.base + offset := v]
    ensures forall s: nat, w: nat | s < c.n && w < 8 :: d.ReqWord(s, w) == c.ReqWord(s, w)
    ensures forall s: nat, w: nat | s < c.n && w < 8 :: d.ResWord(s, w) == c.ResWord(s, w)
  {
    forall s: nat, w: nat | s < c.n && w < 8 {
      LayoutDisjoint(c.base, c.n, s, s, w, w);
    }
  }

  lemma FwTakeKeeps(c: Channel, d: Channel)
    requires Inv(c) && FwTake(c, d)
    ensures Rely(c, d)
  {
    PointerWrite(c, d, REQ_RPTR, (c.At(REQ_RPTR) + 1) % (2 * c.n));
    ModSucc(c.taken, 2 * c.n);
  }

  lemma FwWriteWordKeeps(c: Channel, d: Channel, w: nat, v: u32)
    requires Inv(c) && FwWriteWord(c, d, w, v)
    ensures Rely(c, d)
  {
    var slot := |c.answered| % c.n;
    forall s: nat, x: nat | s < c.n && x < 8
      ensures d.ReqWord(s, x) == c.ReqWord(s, x)
      ensures s != slot ==> d.ResWord(s, x) == c.ResWord(s, x)
    {
      LayoutDisjoint(c.base, c.n, s, slot, x, w);
      LayoutDisjoint(c.base, c.n, slot, s, w, x);
    }
    forall k | c.popped <= k < |c.answered|
      ensures HoldsResponse(d, k % c.n, c.answered[k])
    {
      DifferentSlots(k, |c.answered|, c.n);
      assert HoldsResponse(c, k % c.n, c.answered[k]);
    }
    forall k | c.taken <= k < |c.sent|
      ensures HoldsRequest(d, k % c.n, c.sent[k])
    {
      assert HoldsRequest(c, k % c.n, c.sent[k]);
    }
    LayoutDisjoint(c.base, c.n, slot, slot, w, w);
  }

  lemma FwPublishKeeps(c: Channel, d: Channel, m: Message)
    requires Inv(c) && FwPublish(c, d, m)
    ensures Rely(c, d)
  {
    PointerWrite(c, d, RES_WPTR, (c.At(RES_WPTR) + 1) % (2 * c.n));
    ModSucc(|c.answered|, 2 * c.n);
    forall k | d.popped <= k < |d.answered|
      ensures HoldsResponse(d, k % d.n, d.answered[k])
    {
      if k < |c.answered| {
        assert HoldsResponse(c, k % c.n, c.answered[k]);
      }
    }
    forall k | d.taken <= k < |d.sent|
      ensures HoldsRequest(d, k % d.n, d.sent[k])
    {
      assert HoldsRequest(c, k % c.n, c.sent[k]);
    }
  }

  // ------------------------------------------------------------ driver's side

  /** Writing a word of the next free request slot disturbs nothing queued: the
      abstract queues, and what firmware may look at, are unchanged. */
  lemma PushWordKeeps(c: Channel, w: nat, v: u32)
    requires Inv(c) && |c.sent| < c.taken + c.n && w < 8
    ensures Inv(c.(mem := c.mem[ReqAddr(c.base, |c.sent| % c.n, w) := v]))
  {
    var slot := |c.sent| % c.n;
    var d := c.(mem := c.mem[ReqAddr(c.base, slot, w) := v]);
    forall s: nat, x: nat | s < c.n && x < 8
      ensures s != slot ==> d.ReqWord(s, x) == c.ReqWord(s, x)
      ensures d.ResWord(s, x) == c.ResWord(s, x)
    {
      LayoutDisjoint(c.base, c.n, s, slot, x, w);
      LayoutDisjoint(c.base, c.n, slot, s, w, x);
    }
    forall k | c.taken <= k < |c.sent|
      ensures HoldsRequest(d, k % c.n, c.sent[k])
    {
      DifferentSlots(k, |c.sent|, c.n);
      assert HoldsRequest(c, k % c.n, c.sent[k]);
    }
    forall k | c.popped <= k < |c.answered|
      ensures HoldsResponse(d, k % c.n, c.answered[k])
    {
      assert HoldsResponse(c, k % c.n, c.answered[k]);
    }
    LayoutDisjoint(c.base, c.n, slot, slot, w, w);
  }

  /** Publishing a completely written slot appends exactly that message to the
      abstract request queue. */
  lemma PublishAppends(c: Channel, m: Message)
    requires Inv(c) && |c.sent| < c.taken + c.n && HoldsRequest(c, |c.sent| % c.n, m)
    ensures var d := c.(sent := c.sent + [m], mem := c.mem[c.base + REQ_WPTR := (|c.sent| + 1) % (2 * c.n)]);
      Inv(d) && d.Requests() == c.Requests() + [m] && d.Responses() == c.Responses()
  {
    var d := c.(sent := c.sent + [m], mem := c.mem[c.base + REQ_WPTR := (|c.sent| + 1) % (2 * c.n)]);
    PointerWrite(c, d, REQ_WPTR, (|c.sent| + 1) % (2 * c.n));
    forall k | d.taken <= k < |d.sent|
      ensures HoldsRequest(d, k % d.n, d.sent[k])
    {
      if k < |c.sent| {
        assert HoldsRequest(c, k % c.n, c.sent[k]);
      }
    }
    forall k | d.popped <= k < |d.answered|
      ensures HoldsResponse(d, k % d.n, d.answered[k])
    {
      assert HoldsResponse(c, k % c.n, c.answered[k]);
    }
  }

  /** Advancing the response read pointer removes exactly the oldest response. */
  lemma PopRemovesOldest(c: Channel)
    requires Inv(c) && c.popped < |c.answered|
    ensures var d := c.(popped := c.popped + 1, mem := c.mem[c.base + RES_RPTR := (c.popped + 1) % (2 * c.n)]);
      Inv(d) && [c.answered[c.popped]] + d.Responses() == c.Responses() && d.Requests() == c.Requests()
  {
    var d := c.(popped := c.popped + 1, mem := c.mem[c.base + RES_RPTR := (c.popped + 1) % (2 * c.n)]);
    PointerWrite(c, d, RES_RPTR, (c.popped + 1) % (2 * c.n));
    forall k | d.taken <= k < |d.sent|
      ensures HoldsRequest(d, k % d.n, d.sent[k])
    {
      assert HoldsRequest(c, k % c.n, c.sent[k]);
    }
    forall k | d.popped <= k < |d.answered|
      ensures HoldsResponse(d, k % d.n, d.answered[k])
    {
      assert HoldsResponse(c, k % c.n, c.answered[k]);
    }
  }

  /** Whatever firmware reads between its own pointer and the published one is
      a complete message, the one the driver sent at that position. */
  lemma FirmwareSeesWholeMessages(c: Channel, k: nat)
    requires Inv(c) && c.taken <= k < |c.sent|
    ensures seq(8, w requires 0 <= w < 8 => c.ReqWord((k % (2 * c.n)) % c.n, w)) == c.sent[k]
    ensures DriverOccupancy(c.At(REQ_WPTR), c.At(REQ_RPTR), c.n) == |c.Requests()| <= c.n
  {
    ModMod(k, c.n);
    assert HoldsRequest(c, k % c.n, c.sent[k]);
    DriverOccupancyIsTrue(|c.sent|, c.taken, c.n);
  }

  /** 32-bit address arithmetic never wraps once the first pointer read has
      passed the CSM range gate. */
  lemma AddressesFit(base: nat, n: Entries, slot: nat, w: nat)
    requires InCsm(base + REQ_WPTR) && slot < n && w < 8
    ensures ReqAddr(base, slot, w) < ResAddr(base, n, slot, w) < WORD_COUNT
  {
  }

  // ------------------------------------------------------------- transactions

  /** Both rings empty and nothing in flight. */
  predicate Quiet(c: Channel) {
    |c.sent| == c.taken == |c.answered| == c.popped
  }

  /** A completed TtBhSendArcMessage: its request went out and one response was
      popped, with firmware active throughout. */
  ghost predicate Transaction(c: Channel, d: Channel, msg: Message, reply: Message) {
    && Inv(d) && d.sent == c.sent + [msg] && d.popped == c.popped + 1
    && c.answered <= d.answered && c.popped < |d.answered| && reply == d.answered[c.popped]
  }

  /** A TtBhSendArcMessage whose pop gave up after the request went out. */
  ghost predicate TimedOut(c: Channel, d: Channel, msg: Message) {
    Inv(d) && d.sent == c.sent + [msg] && d.popped == c.popped && c.answered <= d.answered
  }

  /** Requests whose response the driver has not popped. */
  function Lag(c: Channel): int {
    |c.sent| - c.popped
  }

  /** A send that never published anything: the ready gate, the queue discovery,
      the CSM range or the wait for space stopped it. Firmware may have gone on. */
  ghost predicate Unsent(c: Channel, d: Channel) {
    d.sent == c.sent && d.popped == c.popped && c.answered <= d.answered && Inv(d)
  }

  datatype Send = Done(msg: Message, reply: Message) | GaveUp(msg: Message) | NotSent(msg: Message)

  ghost predicate IsSend(c: Channel, d: Channel, s: Send) {
    match s
    case Done(msg, reply) => Transaction(c, d, msg, reply)
    case GaveUp(msg) => TimedOut(c, d, msg)
    case NotSent(_) => Unsent(c, d)
  }

  ghost predicate IsSendRun(run: seq<Channel>, sends: seq<Send>) {
    && |run| == |sends| + 1 && Inv(run[0]) && Quiet(run[0])
    && forall i | 0 <= i < |sends| :: IsSend(run[i], run[i + 1], sends[i])
  }

  function GiveUps(sends: seq<Send>): nat {
    if sends == [] then 0 else GiveUps(sends[..|sends| - 1]) + if sends[|sends| - 1].GaveUp? then 1 else 0
  }

  /** Along any run of sends from quiet rings, whatever their outcomes, the lag is
      the number of sends that gave up waiting for their reply so far. */
  lemma {:induction false} LagCountsGiveUps(run: seq<Channel>, sends: seq<Send>, i: nat)
    requires IsSendRun(run, sends) && i <= |sends|
    ensures Inv(run[i]) && Lag(run[i]) == GiveUps(sends[..i])
    ensures GiveUps(sends[..i]) == 0 <==> Quiet(run[i])
  {
    if i > 0 {
      LagCountsGiveUps(run, sends, i - 1);
      assert sends[..i][..i - 1] == sends[..i - 1];
      assert IsSend(run[i - 1], run[i], sends[i - 1]);
    }
  }

  /** Transaction matching, exactly: a completed send returns the response at the
      driver's position in the stream, which answers its own request exactly when
      no earlier send of the run gave up; and then the rings are quiet before and
      after it. */
  lemma ReplyMatchesIff(run: seq<Channel>, sends: seq<Send>, i: nat)
    requires IsSendRun(run, sends) && i < |sends| && sends[i].Done?
    ensures var c, d := run[i], run[i + 1];
      && c.popped == |c.sent| - GiveUps(sends[..i])
      && c.popped < |d.answered| && sends[i].reply == d.answered[c.popped]
      && d.sent[|c.sent|] == sends[i].msg
      && (c.popped == |c.sent| <==> GiveUps(sends[..i]) == 0)
      && (GiveUps(sends[..i]) == 0 ==> Quiet(c) && Quiet(d))
  {
    LagCountsGiveUps(run, sends, i);
    LagCountsGiveUps(run, sends, i + 1);
    assert IsSend(run[i], run[i + 1], sends[i]);
    assert sends[..i + 1][..i] == sends[..i];
  }
}
