/** What LOCK_CTL tells its callers, in terms of who holds what: the answers of the
    request itself and of the wake passes, and that no two of them ever give out
    one lock. */
module LockReplies {
  import opened Common
  import opened LockSpec

  // ------------------------------------------------------------- the request

  /** ACQUIRE answers 1 to whoever then holds the lock, which nobody held, and 0
      exactly when somebody holds it, changing nothing. */
  lemma AcquireReply(s: State, h: Handle, index: nat, env: Env)
    requires Inv(s) && h in s.mine && !s.detached && s.openGen[h] == s.gen && index < 64 && env.outputOk
    ensures var (t, r) := LockCtl(s, h, Acquire, index, env);
      && (r == Value(1) <==> !HeldBySomeone(s, index)) && (r == Value(0) <==> HeldBySomeone(s, index))
      && (r == Value(1) ==> index in t.mine[h] && t.held == s.held + {index} && t.queue == s.queue)
      && (r == Value(0) ==> t == s)
  {
    if HeldBySomeone(s, index) {
      assert index in s.held;
    }
  }

  /** ACQUIRE_BLOCKING answers 1 likewise; when somebody holds the lock it waits as
      the last of the queue, or fails with nothing changed. */
  lemma AcquireBlockingReply(s: State, h: Handle, index: nat, env: Env)
    requires Inv(s) && h in s.mine && !s.detached && s.openGen[h] == s.gen && index < 64 && env.outputOk
    ensures var (t, r) := LockCtl(s, h, AcquireBlocking, index, env);
      && (r == Value(1) <==> !HeldBySomeone(s, index))
      && (r == Pended <==> HeldBySomeone(s, index) && env.contextOk && env.forwardOk)
      && (r == Pended <==> t == s.(queue := s.queue + [Request(env.id, h, index, true)]))
      && (r == Value(1) ==> index in t.mine[h] && t.held == s.held + {index} && t.queue == s.queue)
      && (r == NoResources <==> HeldBySomeone(s, index) && !(env.contextOk && env.forwardOk))
      && (r == NoResources ==> t == s)
  {
    if HeldBySomeone(s, index) {
      assert index in s.held;
    }
    var t := LockCtl(s, h, AcquireBlocking, index, env).0;
    assert |t.queue| == |s.queue| <==> t.queue == s.queue;
  }

  /** RELEASE answers 1 exactly to the holder; then the lock is free or a waiter's.
      Answering 0 it changes nothing. */
  lemma ReleaseReply(s: State, h: Handle, index: nat, env: Env)
    requires Inv(s) && h in s.mine && !s.detached && s.openGen[h] == s.gen && index < 64 && env.outputOk
    ensures var (t, r) := LockCtl(s, h, Release, index, env);
      && (r == Value(1) <==> index in s.mine[h]) && (r == Value(0) <==> index !in s.mine[h])
      && (r == Value(0) ==> t == s)
      && (r == Value(1) ==> Passed(s, t, index))
  {
  }

  /** Lock index is free in t, or held by the handle of a request that waited for it
      in s. */
  ghost predicate Passed(s: State, t: State, index: nat) {
    || index !in t.held
    || exists k | 0 <= k < |s.queue| ::
         s.queue[k].index == index && s.queue[k].handle in t.mine && index in t.mine[s.queue[k].handle]
  }

  /** TEST tells in bit 0 whether the caller holds the lock, in bit 1 whether anybody
      does, and changes nothing. */
  lemma TestReply(s: State, h: Handle, index: nat, env: Env)
    requires Inv(s) && h in s.mine && !s.detached && s.openGen[h] == s.gen && index < 64 && env.outputOk
    ensures var (t, r) := LockCtl(s, h, Test, index, env);
      && t == s && r.Value? && r.v < 4
      && (r.v % 2 == 1 <==> index in s.mine[h]) && (r.v / 2 == 1 <==> HeldBySomeone(s, index))
  {
    if HeldBySomeone(s, index) {
      assert index in s.held;
    }
  }

  /** What is refused changes nothing: a handle that is stale or whose device is gone,
      an index past the last lock, an unknown operation. */
  lemma RefusedCtl(s: State, h: Handle, op: Op, index: nat, env: Env)
    requires Inv(s) && h in s.mine && (s.detached || s.openGen[h] != s.gen || index >= 64 || op.Unknown?)
    ensures LockCtl(s, h, op, index, env) ==
      (s, if s.detached || s.openGen[h] != s.gen then DeviceRemoved else InvalidParameter)
  {
  }

  /** A short output buffer hides the answer, not the effect. */
  lemma HiddenAnswer(s: State, h: Handle, op: Op, index: nat, env: Env)
    requires h in s.mine && !env.outputOk
    ensures var (t, r) := LockCtl(s, h, op, index, env);
      var (u, v) := LockCtl(s, h, op, index, env.(outputOk := true));
      r != Pended ==> t == u && r == if v.Value? then Fault else v
  {
  }

  // ------------------------------------------------------------ the wake pass

  /** Every drained request is settled: it is told the device is gone exactly when its
      handle is stale or detached; it is granted its lock, which was free and is now
      its handle's; it is refused or put back only while somebody holds its lock, and
      put back it is queued again. */
  lemma WakeSettles(s: State, refused: set<nat>, k: nat)
    requires Exclusive(s) && k < |s.queue| && k < 64 && s.queue[k].handle in s.mine && s.queue[k].handle in s.openGen
    ensures var t, q, c := Wake(s, refused), s.queue[k], Completion(s, k, refused);
      && (c == Some(DeviceRemoved) <==> s.detached || s.openGen[q.handle] != s.gen)
      && (c == Some(Value(1)) || c == Some(Fault) ==> q.index !in s.held && q.index in t.mine[q.handle])
      && (c == Some(Value(1)) ==> q.outputOk) && (c == Some(Fault) ==> !q.outputOk)
      && (c == Some(NoResources) ==> q.id in refused && HeldBySomeone(t, q.index))
      && (c == None ==> q in t.queue && HeldBySomeone(t, q.index))
      && (c.Some? ==> c.value in {DeviceRemoved, Value(1), Fault, NoResources})
  {
    var t, q, n := Wake(s, refused), s.queue[k], BatchSize(s.queue);
    WakeKeepsExclusive(s, refused);
    if Wins(s, k) {
      assert q.index in GrantedTo(s, n, q.handle);
    } else if Current(s, q.handle) {
      LoserFindsItHeld(s, refused, k);
      if q.id !in refused {
        LosersFound(s, n, refused, k);
      }
    }
  }

  lemma LoserFindsItHeld(s: State, refused: set<nat>, k: nat)
    requires Exclusive(s) && k < BatchSize(s.queue) && Loses(s, k)
    ensures s.queue[k].index in Wake(s, refused).held
  {
    if s.queue[k].index !in s.held {
      var w := OldestWins(s, k);
      assert s.queue[w].index in Granted(s, BatchSize(s.queue));
    }
  }

  /** A pass gives out each lock at most once, and only to drained requests: whatever
      lock changed hands has exactly one request that was told so. */
  lemma WakeGrantsOnce(s: State, refused: set<nat>, x: nat, h: Handle)
    requires Exclusive(s) && h in s.mine
    ensures x in Wake(s, refused).mine[h] && x !in s.mine[h] <==>
      x !in s.mine[h] && exists k | 0 <= k < BatchSize(s.queue) :: GrantedBy(s, refused, k, h, x)
    ensures forall j, k | 0 <= j < BatchSize(s.queue) && 0 <= k < BatchSize(s.queue) && s.queue[j].index == s.queue[k].index ::
      Told(s, refused, j) && Told(s, refused, k) ==> j == k
  {
    var n, t := BatchSize(s.queue), Wake(s, refused);
    if x in t.mine[h] && x !in s.mine[h] {
      var k :| 0 <= k < n && Wins(s, k) && s.queue[k].handle == h && s.queue[k].index == x;
      assert GrantedBy(s, refused, k, h, x);
    }
    if k :| 0 <= k < n && GrantedBy(s, refused, k, h, x) {
      assert x in GrantedTo(s, n, h);
    }
    forall j, k | 0 <= j < n && 0 <= k < n && s.queue[j].index == s.queue[k].index && Told(s, refused, j) && Told(s, refused, k)
      ensures j == k
    {
      OneWinner(s, j, k);
    }
  }

  /** The k-th drained request is completed as granted. */
  ghost predicate Told(s: State, refused: set<nat>, k: nat)
    requires k < |s.queue|
  {
    Completion(s, k, refused) in {Some(Value(1)), Some(Fault)}
  }

  ghost predicate GrantedBy(s: State, refused: set<nat>, k: nat, h: Handle, x: nat)
    requires k < |s.queue|
  {
    s.queue[k].handle == h && s.queue[k].index == x && Told(s, refused, k)
  }

  // ------------------------------------------------------------- whole runs

  /** The wake pass an event triggers: the state it starts from, and what the queue
      refuses to take back. */
  ghost function PassOf(s: State, e: Event): Option<(State, set<nat>)>
    requires Enabled(s, e)
  {
    match e
    case Ctl(h, op, x, env) =>
      if op.Release? && Current(s, h) && x < 64 && x in s.mine[h] then Some((DropLock(s, h, x), env.refused)) else None
    case Close(h, refused) => Some((Closing(s, h), refused))
    case Reset(h, refused) => Some((Bumped(s, h), refused))
    case Remove(refused) => Some((s.(detached := true), refused))
    case _ => None
  }

  /** Handle h is told, by an answer of 1 or by a completed wait, that it has lock x. */
  ghost predicate ToldHolder(s: State, e: Event, h: Handle, x: nat)
    requires Enabled(s, e)
  {
    || (e.Ctl? && e.h == h && e.index == x && (e.op.Acquire? || e.op.AcquireBlocking?) &&
        LockCtl(s, h, e.op, x, e.env).1 == Value(1))
    || (PassOf(s, e).Some? &&
        var (u, refused) := PassOf(s, e).value;
        exists k | 0 <= k < BatchSize(u.queue) ::
          u.queue[k].handle == h && u.queue[k].index == x && Completion(u, k, refused) == Some(Value(1)))
  }

  /** Handle h gives lock x up: it releases it, or it closes. */
  ghost predicate GivesBack(s: State, e: Event, h: Handle, x: nat) {
    match e
    case Ctl(g, op, y, _) => g == h && op.Release? && y == x && h in s.mine && x in s.mine[h]
    case Close(g, _) => g == h
    case _ => false
  }

  lemma WakeOnlyAdds(s: State, refused: set<nat>, h: Handle)
    requires h in s.mine
    ensures s.mine[h] <= Wake(s, refused).mine[h]
  {
  }

  /** A pass starts from locks that only its own release or close has changed. */
  lemma PassStartsSound(s: State, e: Event, h: Handle, x: nat)
    requires Inv(s) && Enabled(s, e) && PassOf(s, e).Some?
    ensures Exclusive(PassOf(s, e).value.0)
    ensures Apply(s, e) == Wake(PassOf(s, e).value.0, PassOf(s, e).value.1)
    ensures h in s.mine && x in s.mine[h] && !GivesBack(s, e, h, x) ==>
      x in PassOf(s, e).value.0.mine[h] && x in PassOf(s, e).value.0.held
  {
    match e
    case Ctl(g, op, y, env) => DropKeepsExclusive(s, g, {y});
    case Close(g, refused) =>
      DropKeepsExclusive(s, g, s.mine[g]);
      assert s.mine[g] - s.mine[g] == {};
      SameHolders(s.(held := s.held - s.mine[g], mine := s.mine[g := s.mine[g] - s.mine[g]]), Closing(s, g));
    case Reset(g, refused) => SameHolders(s, Bumped(s, g));
    case Remove(refused) => SameHolders(s, s.(detached := true));
  }

  /** With at most 64 waiters, every event that wakes them answers those that can no
      longer be served: after a removal nobody waits, and whoever still waits for a
      held lock is on a handle of the newest generation. */
  lemma NoWaiterLeftBehind(s: State, e: Event)
    requires Inv(s) && Enabled(s, e) && |s.queue| <= 64
    requires e.Close? || e.Reset? || e.Remove? || (e.Ctl? && e.op.Release? && LockCtl(s, e.h, e.op, e.index, e.env).1 == Value(1))
    ensures Apply(s, e).detached ==> Apply(s, e).queue == []
    ensures var t := Apply(s, e);
      forall k | 0 <= k < |t.queue| ::
        && t.queue[k].handle in t.openGen && t.openGen[t.queue[k].handle] == t.gen
        && t.queue[k] in s.queue && t.queue[k].index in t.held
  {
    var (u, refused) := PassOf(s, e).value;
    PassStartsSound(s, e, if e.Remove? then 0 else e.h, 0);
    var t := Apply(s, e);
    assert t == Wake(u, refused) && t.queue == Losers(u, |u.queue|, refused);
    if t.queue != [] {
      LoserIsBlocked(u, |u.queue|, refused, t.queue[0]);
    }
    forall k | 0 <= k < |t.queue|
      ensures t.queue[k].handle in t.openGen && t.openGen[t.queue[k].handle] == t.gen
      ensures t.queue[k] in s.queue && t.queue[k].index in t.held
    {
      LoserIsBlocked(u, |u.queue|, refused, t.queue[k]);
    }
  }

  lemma LoserIsBlocked(u: State, n: nat, refused: set<nat>, r: Request)
    requires n <= |u.queue| && r in Losers(u, n, refused)
    ensures Current(u, r.handle) && r in u.queue && r.index in u.held + Granted(u, n)
  {
    LosersAreQueued(u, n, refused);
    var k :| 0 <= k < n && Loses(u, k) && u.queue[k] == r;
    if r.index !in u.held {
      var j :| 0 <= j < k && u.queue[j].index == u.queue[k].index && Current(u, u.queue[j].handle);
      var w := OldestWins(u, j);
    }
  }

  /** A held lock stays held until its holder gives it back. */
  lemma HoldStays(s: State, e: Event, h: Handle, x: nat)
    requires Inv(s) && Enabled(s, e) && h in s.mine && x in s.mine[h] && !GivesBack(s, e, h, x)
    ensures h in Apply(s, e).mine && x in Apply(s, e).mine[h]
  {
    if PassOf(s, e).Some? {
      PassStartsSound(s, e, h, x);
      WakeOnlyAdds(PassOf(s, e).value.0, PassOf(s, e).value.1, h);
    }
  }

  /** Whoever is told that it has a lock has it then. */
  lemma ToldHasIt(s: State, e: Event, h: Handle, x: nat)
    requires Inv(s) && Enabled(s, e) && ToldHolder(s, e, h, x)
    ensures h in Apply(s, e).mine && x in Apply(s, e).mine[h]
  {
    if PassOf(s, e).Some? {
      PassStartsSound(s, e, h, x);
      var (u, refused) := PassOf(s, e).value;
      if k :| 0 <= k < BatchSize(u.queue) && u.queue[k].handle == h && u.queue[k].index == x &&
              Completion(u, k, refused) == Some(Value(1)) {
        assert x in GrantedTo(u, BatchSize(u.queue), h);
      }
    }
  }

  /** Nobody is told it has a lock that another handle holds and is not just giving
      back. */
  lemma ToldOnlyIfFree(s: State, e: Event, h: Handle, g: Handle, x: nat)
    requires Inv(s) && Enabled(s, e) && h in s.mine && x in s.mine[h] && ToldHolder(s, e, g, x)
    ensures GivesBack(s, e, h, x)
  {
    assert x in s.held;
    if PassOf(s, e).Some? {
      PassStartsSound(s, e, h, x);
    }
  }

  lemma {:induction false} HoldStaysOverRun(run: seq<State>, events: seq<Event>, i: nat, j: nat, h: Handle, x: nat)
    requires IsRun(run, events) && i <= j < |run| && h in run[i].mine && x in run[i].mine[h]
    requires forall n | i <= n < j :: !GivesBack(run[n], events[n], h, x)
    ensures h in run[j].mine && x in run[j].mine[h]
    decreases j
  {
    if i < j {
      HoldStaysOverRun(run, events, i, j - 1, h, x);
      AllRuns(run, events, j - 1);
      HoldStays(run[j - 1], events[j - 1], h, x);
    }
  }

  /** One lock, two clients told that they have it: in between the first one gave it
      back, by a release or by closing. */
  lemma ToldTwice(run: seq<State>, events: seq<Event>, i: nat, j: nat, h: Handle, g: Handle, x: nat) returns (n: nat)
    requires IsRun(run, events) && i < j < |events|
    requires Enabled(run[i], events[i]) && ToldHolder(run[i], events[i], h, x)
    requires Enabled(run[j], events[j]) && ToldHolder(run[j], events[j], g, x)
    ensures i < n <= j && GivesBack(run[n], events[n], h, x)
  {
    AllRuns(run, events, i);
    ToldHasIt(run[i], events[i], h, x);
    assert run[i + 1] == Apply(run[i], events[i]);
    if forall m | i + 1 <= m < j :: !GivesBack(run[m], events[m], h, x) {
      HoldStaysOverRun(run, events, i + 1, j, h, x);
      AllRuns(run, events, j);
      ToldOnlyIfFree(run[j], events[j], h, g, x);
      n := j;
    } else {
      n :| i + 1 <= n < j && GivesBack(run[n], events[n], h, x);
    }
  }
}
