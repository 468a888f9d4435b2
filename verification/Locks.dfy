/** Resource locks: 64 device locks, a bitmap of the held ones, a bitmap per
    handle, and a FIFO of pended ACQUIRE_BLOCKING requests retried in batches
    of at most 64. Bitmaps are sets of lock indices. */
module LockSpec {
  import opened Common

  const LOCK_COUNT := 64
  const WAKE_BATCH := 64

  /** A pended request: its identity, its file object, the lock it wants, and
      whether its output buffer can take the answer. */
  datatype Request = Request(id: nat, handle: Handle, index: nat, outputOk: bool)

  datatype State = State(
    held: set<nat>,                   // Context->ResourceLockHeld
    mine: map<Handle, set<nat>>,      // FileContext->LocksHeld
    openGen: map<Handle, int>,        // FileContext->OpenResetGen
    gen: int,                         // Context->ResetGen
    detached: bool,
    closed: set<Handle>,              // handles whose cleanup has run
    queue: seq<Request>)              // Context->LockWaitQueue

  ghost predicate WellTyped(s: State) {
    s.mine.Keys == s.openGen.Keys && s.closed <= s.mine.Keys
  }

  /** The handle passes the detached and generation gates. */
  predicate Current(s: State, h: Handle) {
    !s.detached && h in s.openGen && h in s.mine && s.openGen[h] == s.gen
  }

  // ------------------------------------------------------------ the wake pass

  function BatchSize(q: seq<Request>): (n: nat)
    ensures n <= |q|
  {
    if |q| <= WAKE_BATCH then |q| else WAKE_BATCH
  }

  /** The k-th drained request takes its lock: it is current, the lock was free,
      and no older current request in the batch wants the same lock. */
  predicate Wins(s: State, k: nat)
    requires k < |s.queue|
  {
    && Current(s, s.queue[k].handle)
    && s.queue[k].index !in s.held
    && forall j | 0 <= j < k :: s.queue[j].index == s.queue[k].index ==> !Current(s, s.queue[j].handle)
  }

  /** It is current but its lock is taken by the time it is retried. */
  predicate Loses(s: State, k: nat)
    requires k < |s.queue|
  {
    Current(s, s.queue[k].handle) && !Wins(s, k)
  }

  /** The losers among the first n drained requests, oldest first, without those
      the queue refuses to take back. */
  function Losers(s: State, n: nat, refused: set<nat>): seq<Request>
    requires n <= |s.queue|
  {
    if n == 0 then []
    else Losers(s, n - 1, refused) +
         if Loses(s, n - 1) && s.queue[n - 1].id !in refused then [s.queue[n - 1]] else []
  }

  function Granted(s: State, n: nat): set<nat>
    requires n <= |s.queue|
  {
    set k | 0 <= k < n && Wins(s, k) :: s.queue[k].index
  }

  function GrantedTo(s: State, n: nat, h: Handle): set<nat>
    requires n <= |s.queue|
  {
    set k | 0 <= k < n && Wins(s, k) && s.queue[k].handle == h :: s.queue[k].index
  }

  /** State after n drained requests have been retried; the rest of the batch is
      still in the drain array. */
  function Retried(s: State, n: nat, refused: set<nat>): State
    requires n <= BatchSize(s.queue)
  {
    s.(held := s.held + Granted(s, n),
       mine := map h | h in s.mine :: s.mine[h] + GrantedTo(s, n, h),
       queue := s.queue[BatchSize(s.queue)..] + Losers(s, n, refused))
  }

  /** How the k-th drained request is completed, or None when it is put back: it
      is told that its device is gone, or it is granted its lock, or the queue
      refuses to take it back. */
  function Completion(s: State, k: nat, refused: set<nat>): Option<Reply>
    requires k < |s.queue|
  {
    if !Current(s, s.queue[k].handle) then Some(DeviceRemoved)
    else if Wins(s, k) then Some(if s.queue[k].outputOk then Value(1) else Fault)
    else if s.queue[k].id in refused then Some(NoResources)
    else None
  }

  /** One wake pass. */
  function Wake(s: State, refused: set<nat>): State {
    Retried(s, BatchSize(s.queue), refused)
  }

  // -------------------------------------------------------------- operations

  function TakeLock(s: State, h: Handle, index: nat): State
    requires h in s.mine
  {
    s.(held := s.held + {index}, mine := s.mine[h := s.mine[h] + {index}])
  }

  function DropLock(s: State, h: Handle, index: nat): State
    requires h in s.mine
  {
    s.(held := s.held - {index}, mine := s.mine[h := s.mine[h] - {index}])
  }

  /** The closing handle's locks are free and it holds none. */
  function Closing(s: State, h: Handle): State
    requires h in s.mine
  {
    s.(held := s.held - s.mine[h], mine := s.mine[h := {}], closed := s.closed + {h})
  }

  /** A new generation, to which only the resetter belongs. */
  function Bumped(s: State, h: Handle): State {
    s.(gen := s.gen + 1, openGen := s.openGen[h := s.gen + 1])
  }

  /** TtLocksReleaseAll at handle cleanup. */
  function ReleaseAll(s: State, h: Handle, refused: set<nat>): State
    requires h in s.mine
  {
    Wake(Closing(s, h), refused)
  }

  /** TtBumpResetGen: everyone but the resetter goes stale, then one wake. */
  function BumpGen(s: State, h: Handle, refused: set<nat>): State
    requires h in s.openGen
  {
    Wake(Bumped(s, h), refused)
  }

  /** Surprise removal: detached, then one wake. */
  function Detach(s: State, refused: set<nat>): State {
    Wake(s.(detached := true), refused)
  }

  datatype Op = Acquire | Release | Test | AcquireBlocking | Unknown
  datatype Reply = Value(v: nat) | Pended | InvalidParameter | DeviceRemoved | NoResources | Fault

  /** What a LOCK_CTL request can meet outside the lock state. */
  datatype Env = Env(id: nat, contextOk: bool, forwardOk: bool, outputOk: bool, refused: set<nat>)

  /** LOCK_CTL behind the dispatch gates. A short output buffer turns the reply
      into a fault but does not undo what the request did. */
  function LockCtl(s: State, h: Handle, op: Op, index: nat, env: Env): (State, Reply)
    requires h in s.mine
  {
    var done := (t: State, v: nat) => (t, if env.outputOk then Value(v) else Fault);
    if !Current(s, h) then (s, DeviceRemoved)
    else if index >= LOCK_COUNT then (s, InvalidParameter)
    else match op
      case Acquire =>
        if index in s.held then done(s, 0) else done(TakeLock(s, h, index), 1)
      case Release =>
        if index in s.mine[h] then done(Wake(DropLock(s, h, index), env.refused), 1) else done(s, 0)
      case Test =>
        done(s, (if index in s.held then 2 else 0) + (if index in s.mine[h] then 1 else 0))
      case AcquireBlocking =>
        if index !in s.held then done(TakeLock(s, h, index), 1)
        else if !env.contextOk || !env.forwardOk then (s, NoResources)
        else (s.(queue := s.queue + [Request(env.id, h, index, env.outputOk)]), Pended)
      case Unknown => (s, InvalidParameter)
  }

  // -------------------------------------------------------------- invariants

  ghost predicate HeldBySomeone(s: State, i: nat) {
    exists h :: h in s.mine && i in s.mine[h]
  }

  /** Mutual exclusion: the handles' bitmaps are pairwise disjoint and the device
      bitmap is their union. */
  ghost predicate Exclusive(s: State) {
    && (forall h, i: nat | h in s.mine && i in s.mine[h] :: i in s.held)
    && (forall i: nat | i in s.held :: HeldBySomeone(s, i))
    && (forall h, g | h in s.mine && g in s.mine && h != g :: s.mine[h] !! s.mine[g])
  }

  ghost predicate GensLatched(s: State) {
    forall h | h in s.openGen :: s.openGen[h] <= s.gen
  }

  /** A queued waiter that really must wait: its lock is held and a wake would
      not complete it as removed. */
  ghost predicate Blocked(s: State, r: Request) {
    r.index in s.held && Current(s, r.handle)
  }

  ghost predicate NoLostWakeup(s: State) {
    forall k | 0 <= k < |s.queue| :: Blocked(s, s.queue[k])
  }

  lemma LosersAreQueued(s: State, n: nat, refused: set<nat>)
    requires n <= |s.queue|
    ensures forall r | r in Losers(s, n, refused) ::
      exists k | 0 <= k < n :: Loses(s, k) && s.queue[k] == r && r.id !in refused
  {
    if n > 0 {
      LosersAreQueued(s, n - 1, refused);
    }
  }

  lemma LosersFound(s: State, n: nat, refused: set<nat>, k: nat)
    requires n <= |s.queue| && k < n && Loses(s, k) && s.queue[k].id !in refused
    ensures s.queue[k] in Losers(s, n, refused)
  {
    if k < n - 1 {
      LosersFound(s, n - 1, refused, k);
    }
  }

  /** A current request in the batch whose lock is free has a winner for that
      lock at or before it: the oldest current one. */
  lemma OldestWins(s: State, k: nat) returns (w: nat)
    requires k < |s.queue| && Current(s, s.queue[k].handle) && s.queue[k].index !in s.held
    ensures w <= k && Wins(s, w) && s.queue[w].index == s.queue[k].index
  {
    w := k;
    while !Wins(s, w)
      invariant w <= k && s.queue[w].index == s.queue[k].index && Current(s, s.queue[w].handle)
      decreases w
    {
      var j :| 0 <= j < w && s.queue[j].index == s.queue[w].index && Current(s, s.queue[j].handle);
      w := j;
    }
  }

  /** A lock has at most one winner per pass. */
  lemma OneWinner(s: State, j: nat, k: nat)
    requires j < |s.queue| && k < |s.queue| && Wins(s, j) && Wins(s, k) && s.queue[j].index == s.queue[k].index
    ensures j == k
  {
  }

  /** Mutual exclusion survives a wake pass, whatever is queued. */
  lemma WakeKeepsExclusive(s: State, refused: set<nat>)
    requires Exclusive(s)
    ensures Exclusive(Wake(s, refused))
  {
    var n, t := BatchSize(s.queue), Wake(s, refused);
    forall i: nat | i in t.held
      ensures HeldBySomeone(t, i)
    {
      if i in s.held {
        var h :| h in s.mine && i in s.mine[h];
        assert h in t.mine && i in t.mine[h];
      } else {
        var k :| 0 <= k < n && Wins(s, k) && s.queue[k].index == i;
        assert i in t.mine[s.queue[k].handle];
      }
    }
    forall h, g, i: nat | h in t.mine && g in t.mine && i in t.mine[h] && i in t.mine[g]
      ensures h == g
    {
      if i !in s.held {
        var j :| 0 <= j < n && Wins(s, j) && s.queue[j].handle == h && s.queue[j].index == i;
        var k :| 0 <= k < n && Wins(s, k) && s.queue[k].handle == g && s.queue[k].index == i;
        OneWinner(s, j, k);
      }
    }
  }

  /** After a wake, no waiter that was drained and put back is missing a wakeup. */
  lemma DrainedAreBlocked(s: State, refused: set<nat>, r: Request)
    requires r in Losers(s, BatchSize(s.queue), refused)
    ensures Blocked(Wake(s, refused), r)
  {
    var n := BatchSize(s.queue);
    LosersAreQueued(s, n, refused);
    var k :| 0 <= k < n && Loses(s, k) && s.queue[k] == r;
    if r.index !in s.held {
      var w := OldestWins(s, k);
      assert r.index in Granted(s, n);
    }
  }

  /** The waiter at position k, not drained by this pass, stays blocked exactly
      when it is current and its lock is held or is about to be granted. */
  ghost predicate StaysBlocked(s: State, k: nat)
    requires k < |s.queue|
  {
    && Current(s, s.queue[k].handle)
    && (s.queue[k].index in s.held ||
        exists j | 0 <= j < BatchSize(s.queue) ::
          s.queue[j].index == s.queue[k].index && Current(s, s.queue[j].handle))
  }

  lemma UndrainedBlocked(s: State, refused: set<nat>, k: nat)
    requires BatchSize(s.queue) <= k < |s.queue|
    ensures StaysBlocked(s, k) <==> Blocked(Wake(s, refused), s.queue[k])
  {
    var n := BatchSize(s.queue);
    if s.queue[k].index !in s.held {
      if j :| 0 <= j < n && s.queue[j].index == s.queue[k].index && Current(s, s.queue[j].handle) {
        var w := OldestWins(s, j);
        assert s.queue[k].index in Granted(s, n);
      }
    }
  }

  /** No lost wakeup, exactly: a wake leaves every queued waiter blocked if and
      only if every request beyond the batch cap stays blocked. In particular
      always when at most 64 requests are queued. */
  lemma WakeLosesNothingIff(s: State, refused: set<nat>)
    ensures NoLostWakeup(Wake(s, refused)) <==>
      forall k | BatchSize(s.queue) <= k < |s.queue| :: StaysBlocked(s, k)
    ensures |s.queue| <= WAKE_BATCH ==> NoLostWakeup(Wake(s, refused))
  {
    var n, t := BatchSize(s.queue), Wake(s, refused);
    forall k | n <= k < |s.queue|
      ensures t.queue[k - n] == s.queue[k] && (StaysBlocked(s, k) <==> Blocked(t, s.queue[k]))
    {
      UndrainedBlocked(s, refused, k);
    }
    forall k | |s.queue| - n <= k < |t.queue|
      ensures Blocked(t, t.queue[k])
    {
      assert t.queue[k] in Losers(s, n, refused);
      DrainedAreBlocked(s, refused, t.queue[k]);
    }
    if NoLostWakeup(t) {
      forall k | n <= k < |s.queue|
        ensures StaysBlocked(s, k)
      {
        assert Blocked(t, t.queue[k - n]);
      }
    }
  }

  // ------------------------------------------------------------ FIFO and grants

  /** A released lock goes to the oldest current waiter in the batch, and to
      nobody else. */
  lemma GrantGoesToOldest(s: State, refused: set<nat>, k: nat)
    requires k < BatchSize(s.queue) && Current(s, s.queue[k].handle)
    requires s.queue[k].index !in s.held && Exclusive(s)
    requires forall j | 0 <= j < k :: s.queue[j].index == s.queue[k].index ==> !Current(s, s.queue[j].handle)
    ensures s.queue[k].index in Wake(s, refused).mine[s.queue[k].handle]
    ensures forall h | h in s.mine && h != s.queue[k].handle :: s.queue[k].index !in Wake(s, refused).mine[h]
  {
    var t := Wake(s, refused);
    WakeKeepsExclusive(s, refused);
    assert Wins(s, k);
    assert s.queue[k].index in GrantedTo(s, BatchSize(s.queue), s.queue[k].handle);
    forall h | h in s.mine && h != s.queue[k].handle
      ensures s.queue[k].index !in t.mine[h]
    {
      assert t.mine[h] !! t.mine[s.queue[k].handle];
    }
  }

  /** q is what is left of p after deleting some elements. */
  ghost predicate Subsequence(q: seq<Request>, p: seq<Request>)
    decreases |p|
  {
    if q == [] then true
    else if p == [] then false
    else (q[|q| - 1] == p[|p| - 1] && Subsequence(q[..|q| - 1], p[..|p| - 1])) || Subsequence(q, p[..|p| - 1])
  }

  /** Losers keep their relative order. */
  lemma {:induction false} LosersKeepOrder(s: State, n: nat, refused: set<nat>)
    requires n <= |s.queue|
    ensures Subsequence(Losers(s, n, refused), s.queue[..n])
  {
    if n > 0 {
      LosersKeepOrder(s, n - 1, refused);
      var ls := Losers(s, n - 1, refused);
      assert s.queue[..n][..n - 1] == s.queue[..n - 1];
      if Loses(s, n - 1) && s.queue[n - 1].id !in refused {
        assert Losers(s, n, refused)[..|ls|] == ls;
      } else {
        assert Losers(s, n, refused) == ls;
      }
    }
  }

  /** A generation bump leaves only the resetter current, so it can grant only to
      the resetter: it grants nothing, and every bitmap is unchanged, if and only
      if none of the resetter's own drained requests wants a free lock. Of the
      drained waiters only the resetter's stay queued. */
  lemma BumpKeepsLocksIff(s: State, h: Handle, refused: set<nat>)
    requires h in s.openGen && h in s.mine && GensLatched(s)
    ensures BumpGen(s, h, refused).held == s.held <==> NothingToGrant(s, h)
    ensures NothingToGrant(s, h) ==> BumpGen(s, h, refused).mine == s.mine
    ensures forall r | r in Losers(Bumped(s, h), BatchSize(s.queue), refused) :: r.handle == h
  {
    var u := Bumped(s, h);
    var n := BatchSize(u.queue);
    LosersAreQueued(u, n, refused);
    if NothingToGrant(s, h) {
      assert forall k | 0 <= k < n :: !Wins(u, k);
      forall g | g in s.mine
        ensures BumpGen(s, h, refused).mine[g] == s.mine[g]
      {
        assert GrantedTo(u, n, g) == {};
      }
    } else {
      var k :| 0 <= k < n && s.queue[k].handle == h && s.queue[k].index !in s.held;
      var w := OldestWins(u, k);
      assert u.queue[w].index in Granted(u, n);
    }
  }

  ghost predicate NothingToGrant(s: State, h: Handle) {
    s.detached || forall k | 0 <= k < BatchSize(s.queue) :: s.queue[k].handle == h ==> s.queue[k].index in s.held
  }

  /** With no wakeup lost before, a bump never grants. */
  lemma BumpGrantsNothing(s: State, h: Handle, refused: set<nat>)
    requires NoLostWakeup(s) && h in s.openGen && h in s.mine && GensLatched(s)
    ensures BumpGen(s, h, refused).held == s.held && BumpGen(s, h, refused).mine == s.mine
  {
    forall k | 0 <= k < BatchSize(s.queue)
      ensures s.queue[k].index in s.held
    {
      assert Blocked(s, s.queue[k]);
    }
    BumpKeepsLocksIff(s, h, refused);
  }

  /** TtLocksReleaseAll leaves the closing handle holding exactly the locks its
      own queued requests win in the wake it triggers; so nothing exactly when
      none of its requests wins. */
  lemma ClosingHandleHolds(s: State, h: Handle, refused: set<nat>)
    requires h in s.mine
    ensures var u := Closing(s, h);
      ReleaseAll(s, h, refused).mine[h] == {} <==>
      forall k | 0 <= k < BatchSize(u.queue) :: u.queue[k].handle == h ==> !Wins(u, k)
    ensures (forall k | 0 <= k < |s.queue| :: s.queue[k].handle != h) ==> ReleaseAll(s, h, refused).mine[h] == {}
  {
    var u := Closing(s, h);
    var n := BatchSize(u.queue);
    if k :| 0 <= k < n && u.queue[k].handle == h && Wins(u, k) {
      assert u.queue[k].index in GrantedTo(u, n, h);
    }
  }

  // ----------------------------------------------------------------- all runs

  /** Every transition of the lock state. */
  datatype Event =
    | Open(h: Handle)
    | Ctl(h: Handle, op: Op, index: nat, env: Env)
    | Cancel(position: nat)
    | Close(h: Handle, refused: set<nat>)
    | Reset(h: Handle, refused: set<nat>)
    | Remove(refused: set<nat>)

  ghost predicate Enabled(s: State, e: Event) {
    match e
    case Open(h) => h !in s.mine
    case Ctl(h, _, _, _) => h in s.mine && h !in s.closed
    case Cancel(p) => p < |s.queue|
    case Close(h, _) => h in s.mine && h !in s.closed
    case Reset(h, _) => h in s.mine && h !in s.closed && Current(s, h)
    case Remove(_) => true
  }

  function Apply(s: State, e: Event): State
    requires WellTyped(s) && Enabled(s, e)
  {
    match e
    case Open(h) => s.(mine := s.mine[h := {}], openGen := s.openGen[h := s.gen])
    case Ctl(h, op, index, env) => LockCtl(s, h, op, index, env).0
    case Cancel(p) => s.(queue := s.queue[..p] + s.queue[p + 1..])
    case Close(h, refused) => ReleaseAll(s, h, refused)
    case Reset(h, refused) => BumpGen(s, h, refused)
    case Remove(refused) => Detach(s, refused)
  }

  ghost predicate Inv(s: State) {
    WellTyped(s) && Exclusive(s) && GensLatched(s)
  }

  ghost function Init(): State {
    State({}, map[], map[], 0, false, {}, [])
  }

  lemma TakeKeepsExclusive(s: State, h: Handle, index: nat)
    requires Exclusive(s) && h in s.mine && index !in s.held
    ensures Exclusive(TakeLock(s, h, index))
  {
    var t := TakeLock(s, h, index);
    forall i: nat | i in t.held
      ensures HeldBySomeone(t, i)
    {
      if i == index {
        assert i in t.mine[h];
      } else {
        var g :| g in s.mine && i in s.mine[g];
        assert i in t.mine[g];
      }
    }
  }

  lemma DropKeepsExclusive(s: State, h: Handle, locks: set<nat>)
    requires Exclusive(s) && h in s.mine && locks <= s.mine[h]
    ensures Exclusive(s.(held := s.held - locks, mine := s.mine[h := s.mine[h] - locks]))
  {
    var t := s.(held := s.held - locks, mine := s.mine[h := s.mine[h] - locks]);
    forall i: nat | i in t.held
      ensures HeldBySomeone(t, i)
    {
      var g :| g in s.mine && i in s.mine[g];
      assert i in t.mine[g];
    }
    forall g, i: nat | g in t.mine && i in t.mine[g]
      ensures i in t.held
    {
      if g != h {
        assert s.mine[g] !! s.mine[h];
      }
    }
  }

  lemma OpenKeepsExclusive(s: State, h: Handle)
    requires Exclusive(s) && h !in s.mine
    ensures Exclusive(s.(mine := s.mine[h := {}], openGen := s.openGen[h := s.gen]))
  {
    var t := s.(mine := s.mine[h := {}], openGen := s.openGen[h := s.gen]);
    forall i: nat | i in t.held
      ensures HeldBySomeone(t, i)
    {
      var g :| g in s.mine && i in s.mine[g];
      assert i in t.mine[g];
    }
  }

  lemma CtlKeepsExclusive(s: State, h: Handle, op: Op, index: nat, env: Env)
    requires Exclusive(s) && h in s.mine
    ensures Exclusive(LockCtl(s, h, op, index, env).0)
  {
    if Current(s, h) && index < LOCK_COUNT {
      if (op.Acquire? || op.AcquireBlocking?) && index !in s.held {
        TakeKeepsExclusive(s, h, index);
      } else if op.Release? && index in s.mine[h] {
        DropKeepsExclusive(s, h, {index});
        WakeKeepsExclusive(DropLock(s, h, index), env.refused);
      } else if op.AcquireBlocking? {
        SameHolders(s, s.(queue := s.queue + [Request(env.id, h, index, env.outputOk)]));
      }
    }
  }

  lemma CloseKeepsExclusive(s: State, h: Handle, refused: set<nat>)
    requires Exclusive(s) && h in s.mine
    ensures Exclusive(ReleaseAll(s, h, refused))
  {
    DropKeepsExclusive(s, h, s.mine[h]);
    assert s.mine[h] - s.mine[h] == {};
    var u := Closing(s, h);
    SameHolders(s.(held := s.held - s.mine[h], mine := s.mine[h := s.mine[h] - s.mine[h]]), u);
    WakeKeepsExclusive(u, refused);
  }

  lemma ResetKeepsExclusive(s: State, h: Handle, refused: set<nat>)
    requires Exclusive(s) && h in s.openGen
    ensures Exclusive(BumpGen(s, h, refused))
  {
    SameHolders(s, Bumped(s, h));
    WakeKeepsExclusive(Bumped(s, h), refused);
  }

  lemma DetachKeepsExclusive(s: State, refused: set<nat>)
    requires Exclusive(s)
    ensures Exclusive(Detach(s, refused))
  {
    SameHolders(s, s.(detached := true));
    WakeKeepsExclusive(s.(detached := true), refused);
  }

  /** Mutual exclusion is kept by every transition. */
  lemma StepKeepsExclusive(s: State, e: Event)
    requires WellTyped(s) && Exclusive(s) && Enabled(s, e)
    ensures Exclusive(Apply(s, e))
  {
    match e
    case Open(h) => OpenKeepsExclusive(s, h);
    case Ctl(h, op, index, env) => CtlKeepsExclusive(s, h, op, index, env);
    case Cancel(p) => SameHolders(s, Apply(s, e));
    case Close(h, refused) => CloseKeepsExclusive(s, h, refused);
    case Reset(h, refused) => ResetKeepsExclusive(s, h, refused);
    case Remove(refused) => DetachKeepsExclusive(s, refused);
  }

  lemma WakeFrame(s: State, refused: set<nat>)
    ensures var t := Wake(s, refused);
      t.mine.Keys == s.mine.Keys && t.openGen == s.openGen && t.gen == s.gen && t.closed == s.closed
  {
  }

  lemma StepKeepsTypes(s: State, e: Event)
    requires WellTyped(s) && GensLatched(s) && Enabled(s, e)
    ensures WellTyped(Apply(s, e)) && GensLatched(Apply(s, e))
  {
    match e
    case Open(_) =>
    case Ctl(h, op, index, env) => WakeFrame(DropLock(s, h, index), env.refused);
    case Cancel(_) =>
    case Close(h, refused) =>
      WakeFrame(Closing(s, h), refused);
    case Reset(h, refused) => WakeFrame(Bumped(s, h), refused);
    case Remove(refused) => WakeFrame(s.(detached := true), refused);
  }

  lemma StepKeepsInv(s: State, e: Event)
    requires Inv(s) && Enabled(s, e)
    ensures Inv(Apply(s, e))
  {
    StepKeepsExclusive(s, e);
    StepKeepsTypes(s, e);
  }

  lemma SameHolders(s: State, t: State)
    requires Exclusive(s) && t.held == s.held && t.mine == s.mine
    ensures Exclusive(t)
  {
    forall i: nat | i in t.held
      ensures HeldBySomeone(t, i)
    {
      assert HeldBySomeone(s, i);
    }
  }

  /** While at most 64 requests are queued, no transition loses a wakeup. */
  lemma StepKeepsNoLostWakeup(s: State, e: Event)
    requires Inv(s) && Enabled(s, e) && NoLostWakeup(s) && |s.queue| <= WAKE_BATCH
    ensures NoLostWakeup(Apply(s, e))
  {
    match e
    case Open(h) =>
      StillBlocked(s, Apply(s, e));
    case Ctl(h, op, index, env) =>
      if Current(s, h) && index < LOCK_COUNT && op.Release? && index in s.mine[h] {
        WakeLosesNothingIff(DropLock(s, h, index), env.refused);
      } else {
        CtlStillBlocked(s, h, op, index, env);
      }
    case Cancel(p) =>
      StillBlocked(s, Apply(s, e));
    case Close(h, refused) =>
      WakeLosesNothingIff(Closing(s, h), refused);
    case Reset(h, refused) =>
      WakeLosesNothingIff(Bumped(s, h), refused);
    case Remove(refused) =>
      WakeLosesNothingIff(s.(detached := true), refused);
  }

  /** Waiters already queued stay blocked when bits are only set and handles only
      added. */
  lemma StillBlocked(s: State, t: State)
    requires NoLostWakeup(s) && s.held <= t.held && t.detached == s.detached && t.gen == s.gen
    requires forall h | Current(s, h) :: Current(t, h)
    requires forall r | r in t.queue :: r in s.queue || Blocked(t, r)
    ensures NoLostWakeup(t)
  {
    forall k | 0 <= k < |t.queue|
      ensures Blocked(t, t.queue[k])
    {
      assert t.queue[k] in t.queue;
      if t.queue[k] in s.queue {
        var j :| 0 <= j < |s.queue| && s.queue[j] == t.queue[k];
        assert Blocked(s, s.queue[j]);
      }
    }
  }

  lemma CtlStillBlocked(s: State, h: Handle, op: Op, index: nat, env: Env)
    requires NoLostWakeup(s) && h in s.mine
    requires !(Current(s, h) && index < LOCK_COUNT && op.Release? && index in s.mine[h])
    ensures NoLostWakeup(LockCtl(s, h, op, index, env).0)
  {
    StillBlocked(s, LockCtl(s, h, op, index, env).0);
  }

  /** 64 waiters on lock 1 and one more on lock 0; handle 7 holds both. */
  function CrowdedQueue(): State {
    State({0, 1}, map[5 := {}, 7 := {0, 1}], map[5 := 0, 7 := 0], 0, false, {},
          seq(WAKE_BATCH, i requires 0 <= i => Request(i, 5, 1, true)) + [Request(WAKE_BATCH, 5, 0, true)])
  }

  const RELEASE_ZERO := Ctl(7, Release, 0, Env(0, true, true, true, {}))

  lemma CrowdedQueueOk()
    ensures Inv(CrowdedQueue()) && NoLostWakeup(CrowdedQueue()) && Enabled(CrowdedQueue(), RELEASE_ZERO)
  {
    var s := CrowdedQueue();
    assert 0 in s.mine[7] && 1 in s.mine[7];
    assert HeldBySomeone(s, 0) && HeldBySomeone(s, 1);
  }

  /** Beyond the cap one step can lose a wakeup: everybody queued is rightly
      blocked, the holder releases lock 0, and 64 waiters on lock 1, which stays
      held, hide the 65th, who waits for lock 0. */
  lemma WakeupLostBeyondCap() returns (s: State, e: Event)
    ensures Inv(s) && NoLostWakeup(s) && |s.queue| == WAKE_BATCH + 1
    ensures e.Ctl? && e.op == Release && Enabled(s, e) && !NoLostWakeup(Apply(s, e))
  {
    s, e := CrowdedQueue(), RELEASE_ZERO;
    CrowdedQueueOk();
    var t := DropLock(s, 7, 0);
    assert !StaysBlocked(t, WAKE_BATCH);
    WakeLosesNothingIff(t, {});
  }

  /** And then a reset by the forgotten waiter's handle grants it the lock. */
  lemma BumpCanGrant() returns (s: State, e: Event, r: Event)
    ensures Inv(s) && NoLostWakeup(s) && Enabled(s, e) && r.Reset? && Enabled(Apply(s, e), r)
    ensures Apply(Apply(s, e), r).held != Apply(s, e).held
  {
    s, e, r := CrowdedQueue(), RELEASE_ZERO, Event.Reset(5, {});
    CrowdedQueueOk();
    var t := Apply(s, e);
    assert t.held == {1} by {
      var u := DropLock(s, 7, 0);
      assert u.held == {1};
      assert forall k | 0 <= k < WAKE_BATCH :: !Wins(u, k);
    }
    assert t.queue[0] == Request(WAKE_BATCH, 5, 0, true);
    assert !NothingToGrant(t, 5);
    BumpKeepsLocksIff(t, 5, {});
  }

  /** A handle that closes while its own request is queued behind a lock it holds
      is granted that lock again by its own release: it takes lock 0, asks for it
      again, and closes. */
  lemma ClosingHandleCanRegainItsLock() returns (run: seq<State>, events: seq<Event>)
    ensures IsRun(run, events) && |events| == 4 && events[3] == Close(5, {})
    ensures 5 in run[4].mine && run[4].mine[5] != {}
  {
    events := [Open(5), Ctl(5, Acquire, 0, SELF_ENV), Ctl(5, AcquireBlocking, 0, SELF_ENV), Close(5, {})];
    SelfWait();
    SelfRegained();
    run := [Init(), SelfHolds({}), SelfHolds({0}), SELF_WAITS, Apply(SELF_WAITS, events[3])];
  }

  const SELF_ENV := Env(1, true, true, true, {})
  const SELF_WAITS := SelfHolds({0}).(queue := [Request(1, 5, 0, true)])

  function SelfHolds(locks: set<nat>): State {
    State(locks, map[5 := locks], map[5 := 0], 0, false, {}, [])
  }

  lemma SelfWait()
    ensures Apply(Init(), Open(5)) == SelfHolds({})
    ensures Apply(SelfHolds({}), Ctl(5, Acquire, 0, SELF_ENV)) == SelfHolds({0})
    ensures Apply(SelfHolds({0}), Ctl(5, AcquireBlocking, 0, SELF_ENV)) == SELF_WAITS
  {
    var none: set<nat> := {};
    assert none + {0} == {0} && map[5 := none][5 := {0}] == map[5 := {0}];
    assert TakeLock(SelfHolds({}), 5, 0) == SelfHolds({0});
  }

  lemma SelfRegained()
    ensures Enabled(SELF_WAITS, Close(5, {})) && Apply(SELF_WAITS, Close(5, {})).mine[5] != {}
  {
    var u := Closing(SELF_WAITS, 5);
    assert u.queue[0] == Request(1, 5, 0, true) && Wins(u, 0);
    ClosingHandleHolds(SELF_WAITS, 5, {});
  }

  ghost predicate Stale(s: State, h: Handle) {
    h in s.openGen && h in s.mine && (s.detached || s.openGen[h] < s.gen)
  }

  lemma WakeSkipsStale(s: State, refused: set<nat>, h: Handle)
    requires Stale(s, h)
    ensures Stale(Wake(s, refused), h) && Wake(s, refused).mine[h] == s.mine[h]
  {
    assert GrantedTo(s, BatchSize(s.queue), h) == {};
  }

  /** A stale handle stays stale and its bitmap only shrinks. */
  lemma StaleOnlyShrinks(s: State, e: Event, h: Handle)
    requires Inv(s) && Enabled(s, e) && Stale(s, h)
    ensures Stale(Apply(s, e), h) && Apply(s, e).mine[h] <= s.mine[h]
  {
    match e
    case Open(_) =>
    case Ctl(g, op, index, env) =>
      if Current(s, g) && index < LOCK_COUNT && op.Release? && index in s.mine[g] {
        WakeSkipsStale(DropLock(s, g, index), env.refused, h);
      }
    case Cancel(_) =>
    case Close(g, refused) =>
      WakeSkipsStale(Closing(s, g), refused, h);
    case Reset(g, refused) =>
      WakeSkipsStale(Bumped(s, g), refused, h);
    case Remove(refused) =>
      WakeSkipsStale(s.(detached := true), refused, h);
  }

  /** A closed handle with no request of its own queued holds nothing and never
      will again. */
  ghost predicate Gone(s: State, h: Handle) {
    h in s.closed && h in s.mine && s.mine[h] == {} && forall k | 0 <= k < |s.queue| :: s.queue[k].handle != h
  }

  lemma WakeQueueMembers(s: State, refused: set<nat>)
    ensures forall r | r in Wake(s, refused).queue :: r in s.queue
  {
    LosersAreQueued(s, BatchSize(s.queue), refused);
  }

  lemma WakeKeepsGone(s: State, refused: set<nat>, h: Handle)
    requires Gone(s, h)
    ensures Gone(Wake(s, refused), h)
  {
    WakeQueueMembers(s, refused);
    var t := Wake(s, refused);
    forall k | 0 <= k < |t.queue|
      ensures t.queue[k].handle != h
    {
      assert t.queue[k] in s.queue;
    }
  }

  lemma CtlKeepsGone(s: State, g: Handle, op: Op, index: nat, env: Env, h: Handle)
    requires Gone(s, h) && g in s.mine && g != h
    ensures Gone(LockCtl(s, g, op, index, env).0, h)
  {
    if Current(s, g) && index < LOCK_COUNT && op.Release? && index in s.mine[g] {
      WakeKeepsGone(DropLock(s, g, index), env.refused, h);
    }
  }

  lemma GoneStaysGone(s: State, e: Event, h: Handle)
    requires Inv(s) && Enabled(s, e) && Gone(s, h)
    ensures Gone(Apply(s, e), h)
  {
    match e
    case Open(_) =>
    case Ctl(g, op, index, env) =>
      CtlKeepsGone(s, g, op, index, env, h);
    case Cancel(p) =>
      var q := Apply(s, e).queue;
      assert forall k | 0 <= k < |q| :: q[k] == s.queue[if k < p then k else k + 1];
    case Close(g, refused) =>
      WakeKeepsGone(Closing(s, g), refused, h);
    case Reset(g, refused) =>
      WakeKeepsGone(Bumped(s, g), refused, h);
    case Remove(refused) =>
      WakeKeepsGone(s.(detached := true), refused, h);
  }

  /** A finite run: each state follows from the one before by an enabled event. */
  ghost predicate IsRun(run: seq<State>, events: seq<Event>) {
    && |run| == |events| + 1 && run[0] == Init()
    && forall i | 0 <= i < |events| ::
         WellTyped(run[i]) && Enabled(run[i], events[i]) && run[i + 1] == Apply(run[i], events[i])
  }

  /** Mutual exclusion in every reachable state; and no lost wakeup along every
      run in which the queue never outgrows one batch. */
  lemma {:induction false} AllRuns(run: seq<State>, events: seq<Event>, n: nat)
    requires IsRun(run, events) && n < |run|
    ensures Inv(run[n])
    ensures (forall i | 0 <= i < n :: |run[i].queue| <= WAKE_BATCH) ==> NoLostWakeup(run[n])
  {
    if n > 0 {
      AllRuns(run, events, n - 1);
      StepKeepsInv(run[n - 1], events[n - 1]);
      if forall i | 0 <= i < n :: |run[i].queue| <= WAKE_BATCH {
        StepKeepsNoLostWakeup(run[n - 1], events[n - 1]);
      }
    }
  }

  /** Staleness is permanent, and a stale handle's bitmap only ever shrinks. */
  lemma {:induction false} StaleForever(run: seq<State>, events: seq<Event>, h: Handle, i: nat, j: nat)
    requires IsRun(run, events) && i <= j < |run| && Stale(run[i], h)
    ensures Stale(run[j], h) && run[j].mine[h] <= run[i].mine[h]
    decreases j
  {
    if i < j {
      StaleForever(run, events, h, i, j - 1);
      AllRuns(run, events, j - 1);
      StaleOnlyShrinks(run[j - 1], events[j - 1], h);
    }
  }

  /** A closed handle that holds nothing and has nothing queued holds nothing in
      any later state. */
  lemma {:induction false} GoneForever(run: seq<State>, events: seq<Event>, h: Handle, i: nat, j: nat)
    requires IsRun(run, events) && i <= j < |run| && Gone(run[i], h)
    ensures Gone(run[j], h)
    decreases j
  {
    if i < j {
      GoneForever(run, events, h, i, j - 1);
      AllRuns(run, events, j - 1);
      GoneStaysGone(run[j - 1], events[j - 1], h);
    }
  }

  // -------------------------------------------------------- rotation progress

  /** A sequence of wake passes: between two passes anything may change except
      that nothing joins or leaves the queue. */
  ghost predicate Passes(before: seq<State>, refused: seq<set<nat>>) {
    && |before| == |refused|
    && forall i | 0 <= i < |before| - 1 :: before[i + 1].queue == Wake(before[i], refused[i]).queue
  }

  /** A waiter beyond the batch moves up by exactly one batch per pass. */
  lemma UndrainedMovesUp(s: State, refused: set<nat>, k: nat)
    requires WAKE_BATCH <= k < |s.queue|
    ensures k - WAKE_BATCH < |Wake(s, refused).queue|
    ensures Wake(s, refused).queue[k - WAKE_BATCH] == s.queue[k]
  {
  }

  /** Rotation progress: the waiter at position k is drained and retried by pass
      number k / 64, so n waiters are all retried within ceil(n / 64) passes. */
  lemma {:induction false} Rotation(before: seq<State>, refused: seq<set<nat>>, k: nat) returns (j: nat)
    requires Passes(before, refused) && |before| > 0 && k < |before[0].queue| && k / WAKE_BATCH < |before|
    ensures j < BatchSize(before[k / WAKE_BATCH].queue)
    ensures before[k / WAKE_BATCH].queue[j] == before[0].queue[k]
    decreases k
  {
    if k < WAKE_BATCH {
      j := k;
    } else {
      UndrainedMovesUp(before[0], refused[0], k);
      assert before[0 + 1].queue == Wake(before[0], refused[0]).queue;
      forall i | 0 <= i < |before[1..]| - 1
        ensures before[1..][i + 1].queue == Wake(before[1..][i], refused[1..][i]).queue
      {
        assert before[(i + 1) + 1].queue == Wake(before[i + 1], refused[i + 1]).queue;
      }
      j := Rotation(before[1..], refused[1..], k - WAKE_BATCH);
      assert before[1..][(k - WAKE_BATCH) / WAKE_BATCH] == before[k / WAKE_BATCH];
    }
  }
}
