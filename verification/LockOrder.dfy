/** Deadlock freedom of the driver's locks: every handler acquires along one
    rank order, so in any interleaving of any number of threads someone can go
    on. The reset resource is shared/exclusive and holds back new readers while
    a writer waits. */
module LockOrder {
  import opened Common

  type Device = nat
  type Thread = nat

  datatype Lock =
    | DeviceList                       // g_TtDeviceListLock
    | ResetResource(d: Device)
    | PowerLock(d: Device)
    | FileListLock(d: Device)
    | FileLock(h: Handle)
    | TlbLock(d: Device)
    | IatuLock(d: Device)
    | LockLock(d: Device)
    | ArcMsgLock(d: Device)
    | KernelTlbLock(d: Device)

  const TOP := 8

  function Rank(l: Lock): (r: nat)
    ensures r < TOP
  {
    match l
    case DeviceList => 0
    case ResetResource(_) => 1
    case PowerLock(_) => 2
    case FileListLock(_) => 3
    case FileLock(_) => 4
    case TlbLock(_) | IatuLock(_) | LockLock(_) => 5
    case ArcMsgLock(_) => 6
    case KernelTlbLock(_) => 7
  }

  datatype Op = Acquire(l: Lock, shared: bool) | Release(l: Lock)

  // ------------------------------------------------------------ ranked threads

  /** The locks held after running ops, if every acquisition ranks above all
      locks held and every release is of a held lock. */
  function After(held: set<Lock>, ops: seq<Op>): (r: set<Lock>)
    requires Follows(held, ops)
    decreases |ops|
  {
    if ops == [] then held
    else match ops[0]
      case Acquire(l, _) => After(held + {l}, ops[1..])
      case Release(l) => After(held - {l}, ops[1..])
  }

  predicate Follows(held: set<Lock>, ops: seq<Op>)
    decreases |ops|
  {
    if ops == [] then true
    else match ops[0]
      case Acquire(l, _) => Above(l, held) && Follows(held + {l}, ops[1..])
      case Release(l) => l in held && Follows(held - {l}, ops[1..])
  }

  predicate Above(l: Lock, held: set<Lock>) {
    forall m | m in held :: Rank(m) < Rank(l)
  }

  /** A thread's remaining program keeps the order and ends holding nothing. */
  predicate Orderly(held: set<Lock>, ops: seq<Op>) {
    Follows(held, ops) && After(held, ops) == {}
  }

  /** What a thread has left to do, and how it holds what it holds. */
  datatype ThreadState = ThreadState(todo: seq<Op>, held: map<Lock, bool>)

  type System = map<Thread, ThreadState>

  ghost predicate Holds(s: System, t: Thread, l: Lock) {
    t in s && l in s[t].held
  }

  ghost predicate WaitsExclusive(s: System, t: Thread, l: Lock) {
    t in s && s[t].todo != [] && s[t].todo[0] == Acquire(l, false)
  }

  /** Nobody else's hold or, for a reader, waiting writer is in the way. */
  ghost predicate CanStep(s: System, t: Thread) {
    && t in s && s[t].todo != []
    && match s[t].todo[0]
       case Release(_) => true
       case Acquire(l, shared) =>
         && (forall u | u in s && u != t && Holds(s, u, l) :: shared && s[u].held[l])
         && (shared ==> forall u | u in s && u != t :: !WaitsExclusive(s, u, l))
  }

  ghost function Step(s: System, t: Thread): System
    requires CanStep(s, t)
  {
    var th := s[t];
    match th.todo[0]
    case Acquire(l, shared) => s[t := ThreadState(th.todo[1..], th.held[l := shared])]
    case Release(l) => s[t := ThreadState(th.todo[1..], th.held - {l})]
  }

  ghost predicate AllOrderly(s: System) {
    forall t | t in s :: Orderly(s[t].held.Keys, s[t].todo)
  }

  lemma StepKeepsOrderly(s: System, t: Thread)
    requires AllOrderly(s) && CanStep(s, t)
    ensures AllOrderly(Step(s, t))
  {
    var th, s' := s[t], Step(s, t);
    forall u | u in s'
      ensures Orderly(s'[u].held.Keys, s'[u].todo)
    {
      if u == t {
        assert Orderly(th.held.Keys, th.todo);
        match th.todo[0] {
          case Acquire(l, shared) =>
            assert th.held[l := shared].Keys == th.held.Keys + {l};
          case Release(l) =>
            assert (th.held - {l}).Keys == th.held.Keys - {l};
        }
      }
    }
  }

  /** The number of acquisitions above the one a thread is waiting for. */
  function Headroom(op: Op): nat {
    match op
    case Acquire(l, shared) => 2 * (TOP - Rank(l)) + if shared then 1 else 0
    case Release(_) => 0
  }

  /** From any unfinished thread, following whoever is in the way leads up the
      rank order to a thread that can go on. */
  lemma SomeoneCanStep(s: System, t: Thread) returns (u: Thread)
    requires AllOrderly(s) && t in s && s[t].todo != []
    ensures CanStep(s, u)
    decreases Headroom(s[t].todo[0])
  {
    u := t;
    assert Orderly(s[t].held.Keys, s[t].todo);
    if !CanStep(s, t) {
      var l, shared := s[t].todo[0].l, s[t].todo[0].shared;
      if v :| v in s && v != t && Holds(s, v, l) {
        u := HolderMovesOn(s, v, l, Headroom(s[t].todo[0]));
      } else {
        var w :| w in s && w != t && WaitsExclusive(s, w, l);
        u := SomeoneCanStep(s, w);
      }
    }
  }

  /** A thread holding l is not finished, and waits, if at all, above l. */
  lemma HolderMovesOn(s: System, v: Thread, l: Lock, room: nat) returns (u: Thread)
    requires AllOrderly(s) && Holds(s, v, l) && room >= 2 * (TOP - Rank(l))
    ensures CanStep(s, u)
    decreases room, 0
  {
    assert Orderly(s[v].held.Keys, s[v].todo);
    assert l in s[v].held.Keys;
    if s[v].todo[0].Release? {
      u := v;
    } else {
      assert Rank(l) < Rank(s[v].todo[0].l);
      u := SomeoneCanStep(s, v);
    }
  }

  /** A run of the whole system: any threads, any interleaving. */
  ghost predicate IsRun(run: seq<System>, who: seq<Thread>) {
    && |run| == |who| + 1
    && (forall t | t in run[0] :: run[0][t].held == map[] && Orderly({}, run[0][t].todo))
    && forall i | 0 <= i < |who| :: CanStep(run[i], who[i]) && run[i + 1] == Step(run[i], who[i])
  }

  /** Deadlock freedom: in every reachable state with an unfinished thread, some
      thread can step. */
  lemma {:induction false} DeadlockFree(run: seq<System>, who: seq<Thread>, n: nat)
    requires IsRun(run, who) && n < |run|
    ensures AllOrderly(run[n])
    ensures (exists t :: t in run[n] && run[n][t].todo != []) ==> exists u :: CanStep(run[n], u)
  {
    if n == 0 {
      forall t | t in run[0]
        ensures Orderly(run[0][t].held.Keys, run[0][t].todo)
      {
        assert run[0][t].held.Keys == {};
      }
    } else {
      DeadlockFree(run, who, n - 1);
      StepKeepsOrderly(run[n - 1], who[n - 1]);
    }
    if t :| t in run[n] && run[n][t].todo != [] {
      var u := SomeoneCanStep(run[n], t);
    }
  }

  // --------------------------------------------------------- structured code

  /** Handler code reduced to its lock structure. */
  datatype Code = Skip | Then(a: Code, b: Code) | With(l: Lock, shared: bool, body: Code)

  function Ops(c: Code): seq<Op> {
    match c
    case Skip => []
    case Then(a, b) => Ops(a) + Ops(b)
    case With(l, shared, body) => [Acquire(l, shared)] + Ops(body) + [Release(l)]
  }

  /** Every lock is taken at rank `floor` or above, and above all the locks
      around it. */
  predicate Nested(floor: nat, c: Code)
    decreases c
  {
    match c
    case Skip => true
    case Then(a, b) => Nested(floor, a) && Nested(floor, b)
    case With(l, _, body) => floor <= Rank(l) && Nested(Rank(l) + 1, body)
  }

  lemma {:induction false} AfterConcat(held: set<Lock>, p: seq<Op>, q: seq<Op>)
    requires Follows(held, p) && Follows(After(held, p), q)
    ensures Follows(held, p + q) && After(held, p + q) == After(After(held, p), q)
    decreases |p|
  {
    if p == [] {
      assert p + q == q;
    } else {
      assert (p + q)[0] == p[0] && (p + q)[1..] == p[1..] + q;
      match p[0]
      case Acquire(l, _) => AfterConcat(held + {l}, p[1..], q);
      case Release(l) => AfterConcat(held - {l}, p[1..], q);
    }
  }

  ghost predicate Below(held: set<Lock>, floor: nat) {
    forall m | m in held :: Rank(m) < floor
  }

  /** Nested code follows the order and gives back everything it takes. */
  lemma {:induction false} NestedIsBalanced(held: set<Lock>, floor: nat, c: Code)
    requires Below(held, floor) && Nested(floor, c)
    ensures Follows(held, Ops(c)) && After(held, Ops(c)) == held
    decreases c
  {
    match c
    case Skip =>
    case Then(a, b) =>
      NestedIsBalanced(held, floor, a);
      NestedIsBalanced(held, floor, b);
      AfterConcat(held, Ops(a), Ops(b));
    case With(l, shared, body) =>
      assert l !in held;
      NestedIsBalanced(held + {l}, Rank(l) + 1, body);
      assert After(held + {l}, [Release(l)]) == held + {l} - {l} == held;
      AfterConcat(held + {l}, Ops(body), [Release(l)]);
      assert Ops(c)[1..] == Ops(body) + [Release(l)];
  }

  // ------------------------------------------------------------ the handlers

  function Lone(l: Lock): Code {
    With(l, false, Skip)
  }

  function Times(n: nat, c: Code): Code {
    if n == 0 then Skip else Then(c, Times(n - 1, c))
  }

  lemma {:induction false} TimesNested(floor: nat, n: nat, c: Code)
    requires Nested(floor, c)
    ensures Nested(floor, Times(n, c))
  {
    if n > 0 {
      TimesNested(floor, n - 1, c);
    }
  }

  /** One handle visited by a list walk: its lock, and n region teardowns. */
  datatype Visit = Visit(h: Handle, teardowns: nat)

  function Visits(d: Device, vs: seq<Visit>): Code {
    if vs == [] then Skip
    else Then(With(FileLock(vs[0].h), false, Times(vs[0].teardowns, Lone(IatuLock(d)))), Visits(d, vs[1..]))
  }

  lemma {:induction false} VisitsNested(floor: nat, d: Device, vs: seq<Visit>)
    requires floor <= 4
    ensures Nested(floor, Visits(d, vs))
    decreases |vs|
  {
    if vs != [] {
      TimesNested(5, vs[0].teardowns, Lone(IatuLock(d)));
      VisitsNested(floor, d, vs[1..]);
    }
  }

  /** TtResetZapMappings. */
  function Zap(d: Device, vs: seq<Visit>): Code {
    With(FileListLock(d), false, Visits(d, vs))
  }

  /** TtBhSendArcMessage: n kernel-window accesses under the message lock. */
  function Arc(d: Device, n: nat): Code {
    With(ArcMsgLock(d), false, Times(n, Lone(KernelTlbLock(d))))
  }

  /** TtPowerAggregate: the walk, then the message outside both locks. */
  function Aggregate(d: Device, n: nat): Code {
    Then(With(PowerLock(d), false, Lone(FileListLock(d))), Arc(d, n))
  }

  /** What one thread may be doing: a request, a callback, or several in turn.
      n counts kernel-window accesses or teardowns, as the hardware decides. */
  datatype Handler =
    | AllocateTlb(d: Device)
    | ConfigureTlb(d: Device)
    | FreeTlb(d: Device, h: Handle)
    | AllocateDmaBuf(d: Device, h: Handle, n: nat)
    | FreeDmaBufEx(d: Device, h: Handle)
    | Map(d: Device, h: Handle)
    | Unmap(d: Device, h: Handle)
    | PinPages(d: Device, h: Handle, n: nat)
    | UnpinPages(d: Device, h: Handle)
    | LockCtl(d: Device)
    | SetPowerState(d: Device, h: Handle, n: nat)
    | QueryTelemetry(d: Device, n: nat)
    | ResetDevice(d: Device, vs: seq<Visit>, n: nat)
    | SurpriseRemoval(d: Device, vs: seq<Visit>)
    | FileCreate(d: Device, n: nat)
    | FileCleanup(d: Device, v: Visit, n: nat)
    | PrepareHardware(d: Device, n: nat)
    | SetNocCleanup(d: Device, h: Handle)
    | Query(d: Device)                 // the information requests
    | ListDevice
    | ProcessExit(walk: seq<(Device, seq<Visit>)>)

  function Request(d: Device, body: Code): Code {
    With(ResetResource(d), true, body)
  }

  function ExitWalk(walk: seq<(Device, seq<Visit>)>): Code {
    if walk == [] then Skip
    else Then(Request(walk[0].0, Zap(walk[0].0, walk[0].1)), ExitWalk(walk[1..]))
  }

  function CodeOf(x: Handler): Code {
    match x
    case AllocateTlb(d) => Request(d, Then(Lone(TlbLock(d)), Lone(TlbLock(d))))
    case ConfigureTlb(d) => Request(d, Lone(TlbLock(d)))
    case FreeTlb(d, h) => Request(d, With(FileLock(h), false, Lone(TlbLock(d))))
    case AllocateDmaBuf(d, h, n) => Request(d, With(FileLock(h), false, Times(n, Lone(IatuLock(d)))))
    case FreeDmaBufEx(d, h) => Request(d, With(FileLock(h), false, Lone(IatuLock(d))))
    case Map(d, h) => Request(d, With(FileLock(h), false, Lone(TlbLock(d))))
    case Unmap(d, h) => Request(d, Lone(FileLock(h)))
    case PinPages(d, h, n) => Request(d, With(FileLock(h), false, Times(n, Lone(IatuLock(d)))))
    case UnpinPages(d, h) => Request(d, Then(Lone(FileLock(h)), Lone(IatuLock(d))))
    case LockCtl(d) => Request(d, Lone(LockLock(d)))
    case SetPowerState(d, h, n) => Request(d, Then(Lone(FileLock(h)), Aggregate(d, n)))
    case QueryTelemetry(d, n) => Request(d, Times(n, Lone(KernelTlbLock(d))))
    case ResetDevice(d, vs, n) =>
      With(ResetResource(d), false,
        Then(Lone(LockLock(d)), Then(Zap(d, vs), Then(Times(n, Lone(KernelTlbLock(d))), Times(n, Arc(d, n))))))
    case SurpriseRemoval(d, vs) => Then(With(ResetResource(d), false, Zap(d, vs)), Lone(LockLock(d)))
    case FileCreate(d, n) => Then(Lone(FileListLock(d)), Aggregate(d, n))
    case FileCleanup(d, v, n) =>
      Then(Request(d, Then(Lone(KernelTlbLock(d)), Then(Lone(LockLock(d)),
        Then(Lone(FileListLock(d)), Then(Visits(d, [v]), Lone(TlbLock(d))))))), Aggregate(d, n))
    case PrepareHardware(d, n) => Then(Times(n, Lone(KernelTlbLock(d))), Then(Times(n, Arc(d, n)), Aggregate(d, n)))
    case SetNocCleanup(d, h) => Request(d, Lone(FileLock(h)))
    case Query(d) => Request(d, Skip)
    case ListDevice => Lone(DeviceList)
    case ProcessExit(walk) => With(DeviceList, false, ExitWalk(walk))
  }

  lemma LoneNested(floor: nat, l: Lock)
    requires floor <= Rank(l)
    ensures Nested(floor, Lone(l))
  {
    assert Nested(Rank(l) + 1, Skip);
  }

  /** A request's body runs inside the reset resource. */
  lemma RequestNested(floor: nat, d: Device, body: Code)
    requires floor <= 1 && Nested(2, body)
    ensures Nested(floor, Request(d, body))
  {
  }

  lemma ArcNested(floor: nat, d: Device, n: nat)
    requires floor <= 6
    ensures Nested(floor, Arc(d, n))
  {
    TimesNested(7, n, Lone(KernelTlbLock(d)));
  }

  lemma AggregateNested(floor: nat, d: Device, n: nat)
    requires floor <= 2
    ensures Nested(floor, Aggregate(d, n))
  {
    ArcNested(floor, d, n);
    LoneNested(3, FileListLock(d));
  }

  lemma ZapNested(floor: nat, d: Device, vs: seq<Visit>)
    requires floor <= 3
    ensures Nested(floor, Zap(d, vs))
  {
    VisitsNested(4, d, vs);
  }

  lemma {:induction false} ExitWalkNested(walk: seq<(Device, seq<Visit>)>)
    ensures Nested(1, ExitWalk(walk))
    decreases |walk|
  {
    if walk != [] {
      ZapNested(2, walk[0].0, walk[0].1);
      RequestNested(1, walk[0].0, Zap(walk[0].0, walk[0].1));
      ExitWalkNested(walk[1..]);
    }
  }

  lemma CleanupNested(d: Device, v: Visit, n: nat)
    ensures Nested(0, CodeOf(FileCleanup(d, v, n)))
  {
    LoneNested(2, KernelTlbLock(d));
    LoneNested(2, LockLock(d));
    LoneNested(2, FileListLock(d));
    LoneNested(2, TlbLock(d));
    VisitsNested(2, d, [v]);
    var tail := Then(Visits(d, [v]), Lone(TlbLock(d)));
    assert Nested(2, tail);
    var rest := Then(Lone(LockLock(d)), Then(Lone(FileListLock(d)), tail));
    assert Nested(2, rest);
    RequestNested(0, d, Then(Lone(KernelTlbLock(d)), rest));
    AggregateNested(0, d, n);
  }

  lemma ResetNested(d: Device, vs: seq<Visit>, n: nat)
    ensures Nested(0, CodeOf(ResetDevice(d, vs, n)))
  {
    LoneNested(2, LockLock(d));
    ZapNested(2, d, vs);
    ArcNested(2, d, n);
    TimesNested(2, n, Arc(d, n));
    TimesNested(2, n, Lone(KernelTlbLock(d)));
    var sends := Then(Times(n, Lone(KernelTlbLock(d))), Times(n, Arc(d, n)));
    assert Nested(2, sends);
    assert Nested(2, Then(Zap(d, vs), sends));
  }

  lemma PrepareNested(d: Device, n: nat)
    ensures Nested(0, CodeOf(PrepareHardware(d, n)))
  {
    LoneNested(0, KernelTlbLock(d));
    TimesNested(0, n, Lone(KernelTlbLock(d)));
    ArcNested(0, d, n);
    TimesNested(0, n, Arc(d, n));
    AggregateNested(0, d, n);
    assert Nested(0, Then(Times(n, Arc(d, n)), Aggregate(d, n)));
  }

  /** One inner lock under the file lock. */
  lemma InnerNested(d: Device, h: Handle, inner: Lock, n: nat)
    requires Rank(inner) == 5
    ensures Nested(0, Request(d, With(FileLock(h), false, Lone(inner))))
    ensures Nested(0, Request(d, With(FileLock(h), false, Times(n, Lone(inner)))))
  {
    LoneNested(5, inner);
    TimesNested(5, n, Lone(inner));
    RequestNested(0, d, With(FileLock(h), false, Lone(inner)));
    RequestNested(0, d, With(FileLock(h), false, Times(n, Lone(inner))));
  }

  lemma PairNested(d: Device, k: Lock, l: Lock)
    requires 2 <= Rank(k) && 2 <= Rank(l)
    ensures Nested(0, Request(d, Lone(k))) && Nested(0, Request(d, Then(Lone(k), Lone(l))))
  {
    LoneNested(2, k);
    LoneNested(2, l);
    RequestNested(0, d, Lone(k));
    RequestNested(0, d, Then(Lone(k), Lone(l)));
  }

  /** Every handler of the driver nests its locks along the rank order. */
  lemma HandlersNested(x: Handler)
    ensures Nested(0, CodeOf(x))
  {
    match x
    case AllocateTlb(d) => PairNested(d, TlbLock(d), TlbLock(d));
    case ConfigureTlb(d) => PairNested(d, TlbLock(d), TlbLock(d));
    case FreeTlb(d, h) => InnerNested(d, h, TlbLock(d), 0);
    case AllocateDmaBuf(d, h, n) => InnerNested(d, h, IatuLock(d), n);
    case FreeDmaBufEx(d, h) => InnerNested(d, h, IatuLock(d), 0);
    case Map(d, h) => InnerNested(d, h, TlbLock(d), 0);
    case Unmap(d, h) => PairNested(d, FileLock(h), FileLock(h));
    case PinPages(d, h, n) => InnerNested(d, h, IatuLock(d), n);
    case UnpinPages(d, h) => PairNested(d, FileLock(h), IatuLock(d));
    case LockCtl(d) => PairNested(d, LockLock(d), LockLock(d));
    case SetPowerState(d, h, n) =>
      LoneNested(2, FileLock(h));
      AggregateNested(2, d, n);
      RequestNested(0, d, Then(Lone(FileLock(h)), Aggregate(d, n)));
    case QueryTelemetry(d, n) =>
      LoneNested(2, KernelTlbLock(d));
      TimesNested(2, n, Lone(KernelTlbLock(d)));
      RequestNested(0, d, Times(n, Lone(KernelTlbLock(d))));
    case ResetDevice(d, vs, n) => ResetNested(d, vs, n);
    case SurpriseRemoval(d, vs) =>
      ZapNested(2, d, vs);
      LoneNested(0, LockLock(d));
    case FileCreate(d, n) =>
      LoneNested(0, FileListLock(d));
      AggregateNested(0, d, n);
    case FileCleanup(d, v, n) => CleanupNested(d, v, n);
    case PrepareHardware(d, n) => PrepareNested(d, n);
    case SetNocCleanup(d, h) => PairNested(d, FileLock(h), FileLock(h));
    case Query(d) => RequestNested(0, d, Skip);
    case ListDevice => LoneNested(0, DeviceList);
    case ProcessExit(walk) => ExitWalkNested(walk);
  }

  /** Threads that run handlers, one after another, start out orderly. */
  function Program(xs: seq<Handler>): Code {
    if xs == [] then Skip else Then(CodeOf(xs[0]), Program(xs[1..]))
  }

  lemma {:induction false} ProgramNested(xs: seq<Handler>)
    ensures Nested(0, Program(xs))
    decreases |xs|
  {
    if xs != [] {
      HandlersNested(xs[0]);
      ProgramNested(xs[1..]);
    }
  }

  /** Main result: any number of threads, each running any handlers on any
      devices in any order, never deadlock. */
  lemma DriverDeadlockFree(work: map<Thread, seq<Handler>>, run: seq<System>, who: seq<Thread>, n: nat)
    requires |run| == |who| + 1 && n < |run|
    requires run[0] == map t | t in work :: ThreadState(Ops(Program(work[t])), map[])
    requires forall i | 0 <= i < |who| :: CanStep(run[i], who[i]) && run[i + 1] == Step(run[i], who[i])
    ensures (exists t :: t in run[n] && run[n][t].todo != []) ==> exists u :: CanStep(run[n], u)
  {
    forall t | t in run[0]
      ensures run[0][t].held == map[] && Orderly({}, run[0][t].todo)
    {
      ProgramNested(work[t]);
      NestedIsBalanced({}, 0, Program(work[t]));
    }
    DeadlockFree(run, who, n);
  }
}
