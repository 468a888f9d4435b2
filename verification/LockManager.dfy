/** The imperative side of the resource locks: the device and handle fields that
    locks.c updates in place, each method tied to its transition in LockSpec. */
module LockManager {
  import opened Common
  import opened LockSpec

  class FileContext {
    var openResetGen: int
    var locksHeld: set<nat>

    constructor (gen: int)
      ensures openResetGen == gen && locksHeld == {}
    {
      openResetGen := gen;
      locksHeld := {};
    }
  }

  /** A drained request wins exactly when it is current and its lock is still
      free once the older ones have been retried. */
  lemma WinsWhenRetried(s: State, i: nat, refused: set<nat>)
    requires i < BatchSize(s.queue)
    ensures Wins(s, i) <==> Current(s, s.queue[i].handle) && s.queue[i].index !in Retried(s, i, refused).held
  {
    var r := s.queue[i];
    if Current(s, r.handle) && r.index !in s.held && !Wins(s, i) {
      var w := OldestWins(s, i);
      assert r.index in Granted(s, i);
    }
  }

  lemma StartRetry(s: State, refused: set<nat>)
    ensures Retried(s, 0, refused) == s.(queue := s.queue[BatchSize(s.queue)..])
  {
    var t := Retried(s, 0, refused);
    assert Granted(s, 0) == {};
    assert forall h | h in s.mine :: GrantedTo(s, 0, h) == {};
    assert forall h | h in s.mine :: t.mine[h] == s.mine[h];
    assert t.held == s.held && t.mine == s.mine && t.queue == s.queue[BatchSize(s.queue)..];
  }

  /** What one iteration of the retry loop does to the abstract state. */
  function RetryOne(t: State, r: Request, refused: set<nat>): State {
    if !Current(t, r.handle) then t
    else if r.index !in t.held then TakeLock(t, r.handle, r.index)
    else if r.id in refused then t
    else t.(queue := t.queue + [r])
  }

  /** How that iteration completes the request. */
  function RetryReply(t: State, r: Request, refused: set<nat>): Option<Reply> {
    if !Current(t, r.handle) then Some(DeviceRemoved)
    else if r.index !in t.held then Some(if r.outputOk then Value(1) else Fault)
    else if r.id in refused then Some(NoResources)
    else None
  }

  /** How the first n drained requests are completed. */
  function Completions(s: State, n: nat, refused: set<nat>): seq<Option<Reply>>
    requires n <= |s.queue|
  {
    seq(n, k requires 0 <= k < n => Completion(s, k, refused))
  }

  lemma RetryCompletes(s: State, i: nat, refused: set<nat>)
    requires i < BatchSize(s.queue)
    ensures Completions(s, i + 1, refused) ==
      Completions(s, i, refused) + [RetryReply(Retried(s, i, refused), s.queue[i], refused)]
  {
    WinsWhenRetried(s, i, refused);
  }

  /** Retrying one more request is one iteration of the loop. */
  lemma RetryStep(s: State, i: nat, refused: set<nat>)
    requires i < BatchSize(s.queue)
    ensures Retried(s, i + 1, refused) == RetryOne(Retried(s, i, refused), s.queue[i], refused)
  {
    WinsWhenRetried(s, i, refused);
    GrantStep(s, i);
    var u, v := Retried(s, i + 1, refused), RetryOne(Retried(s, i, refused), s.queue[i], refused);
    assert u.held == v.held && u.queue == v.queue;
    assert u.mine == v.mine by {
      forall h | h in s.mine
        ensures u.mine[h] == v.mine[h]
      {
        RetryMine(s, i, refused, h);
      }
    }
  }

  lemma RetryMine(s: State, i: nat, refused: set<nat>, h: Handle)
    requires i < BatchSize(s.queue) && h in s.mine
    ensures Retried(s, i + 1, refused).mine[h] == RetryOne(Retried(s, i, refused), s.queue[i], refused).mine[h]
  {
    WinsWhenRetried(s, i, refused);
    GrantToStep(s, i, h);
  }

  lemma GrantStep(s: State, i: nat)
    requires i < |s.queue|
    ensures Granted(s, i + 1) == Granted(s, i) + if Wins(s, i) then {s.queue[i].index} else {}
  {
  }

  lemma GrantToStep(s: State, i: nat, h: Handle)
    requires i < |s.queue|
    ensures GrantedTo(s, i + 1, h) ==
      GrantedTo(s, i, h) + if Wins(s, i) && s.queue[i].handle == h then {s.queue[i].index} else {}
  {
  }

  class Locks {
    var resetGen: int
    var detached: bool
    var resourceLockHeld: set<nat>
    var lockWaitQueue: seq<Request>
    var files: map<Handle, FileContext>
    ghost var closed: set<Handle>

    ghost predicate Valid()
      reads this
    {
      && closed <= files.Keys
      && forall h, g | h in files && g in files && h != g :: files[h] != files[g]
    }

    ghost function View(): State
      reads this, files.Values
    {
      State(resourceLockHeld,
            map h | h in files :: files[h].locksHeld,
            map h | h in files :: files[h].openResetGen,
            resetGen, detached, closed, lockWaitQueue)
    }

    constructor ()
      ensures Valid() && View() == Init()
    {
      resetGen, detached, resourceLockHeld := 0, false, {};
      lockWaitQueue, files, closed := [], map[], {};
    }

    /** The lock side of TtEvtDeviceFileCreate: latches the generation. */
    method Open(h: Handle)
      requires Valid() && h !in files
      modifies this
      ensures Valid() && View() == Apply(old(View()), Event.Open(h))
    {
      ghost var s := View();
      var f := new FileContext(resetGen);
      files := files[h := f];
      assert files.Keys == s.mine.Keys + {h} && files.Keys == s.openGen.Keys + {h};
      assert forall g | g in s.mine :: files[g].locksHeld == s.mine[g] && files[g].openResetGen == s.openGen[g];
      assert View().mine == s.mine[h := {}];
      assert View().openGen == s.openGen[h := s.gen];
    }

    /** TtLockTryAcquire. */
    method TryAcquire(h: Handle, index: nat) returns (won: bool)
      requires Valid() && h in files
      modifies this`resourceLockHeld, files[h]
      ensures Valid()
      ensures won <==> index !in old(resourceLockHeld)
      ensures View() == if won then TakeLock(old(View()), h, index) else old(View())
    {
      if index in resourceLockHeld {
        return false;
      }
      resourceLockHeld := resourceLockHeld + {index};
      files[h].locksHeld := files[h].locksHeld + {index};
      return true;
    }

    /** TtLocksWakeWaiters: drain up to one batch, then retry each in turn. What
        each was completed with is returned; those put back are not completed. */
    method WakeWaiters(refused: set<nat>) returns (completed: seq<Option<Reply>>)
      requires Valid()
      modifies this`resourceLockHeld, this`lockWaitQueue, files.Values
      ensures Valid() && View() == Wake(old(View()), refused)
      ensures completed == Completions(old(View()), BatchSize(old(lockWaitQueue)), refused)
    {
      ghost var s := View();
      var batch := Drain();
      StartRetry(s, refused);
      completed := [];
      var i := 0;
      while i < |batch|
        invariant 0 <= i <= |batch| && Valid()
        invariant View() == Retried(s, i, refused) && completed == Completions(s, i, refused)
      {
        RetryStep(s, i, refused);
        RetryCompletes(s, i, refused);
        var reply := Retry(batch[i], refused);
        completed := completed + [reply];
        i := i + 1;
      }
    }

    /** Moves up to one batch of requests out of the wait queue. */
    method Drain() returns (drained: seq<Request>)
      requires Valid()
      modifies this`lockWaitQueue
      ensures Valid() && drained == old(lockWaitQueue)[..BatchSize(old(lockWaitQueue))]
      ensures View() == old(View()).(queue := old(lockWaitQueue)[|drained|..])
    {
      var batch := new Request[WAKE_BATCH](_ => Request(0, 0, 0, false));
      var count := 0;
      while count < WAKE_BATCH && lockWaitQueue != []
        invariant 0 <= count <= BatchSize(old(lockWaitQueue))
        invariant lockWaitQueue == old(lockWaitQueue)[count..]
        invariant batch[..count] == old(lockWaitQueue)[..count]
      {
        batch[count] := lockWaitQueue[0];
        lockWaitQueue := lockWaitQueue[1..];
        count := count + 1;
      }
      drained := batch[..count];
    }

    /** Retries one drained request: completed as removed, granted, or put back
        at the tail. */
    method Retry(r: Request, refused: set<nat>) returns (reply: Option<Reply>)
      requires Valid()
      modifies this`resourceLockHeld, this`lockWaitQueue, files.Values
      ensures Valid() && View() == RetryOne(old(View()), r, refused)
      ensures reply == RetryReply(old(View()), r, refused)
    {
      if r.handle !in files || detached || files[r.handle].openResetGen != resetGen {
        return Some(DeviceRemoved);
      }
      ghost var s := View();
      var won := TryAcquire(r.handle, r.index);
      if won {
        return Some(if r.outputOk then Value(1) else Fault);
      }
      if r.id in refused {
        return Some(NoResources);
      }
      lockWaitQueue := lockWaitQueue + [r];
      assert View() == s.(queue := s.queue + [r]);
      return None;
    }

    /** TtLocksReleaseAll. */
    method ReleaseAll(h: Handle, refused: set<nat>)
      requires Valid() && h in files
      modifies this, files.Values
      ensures Valid() && View() == LockSpec.ReleaseAll(old(View()), h, refused)
    {
      ghost var s := View();
      resourceLockHeld := resourceLockHeld - files[h].locksHeld;
      files[h].locksHeld := {};
      closed := closed + {h};
      assert View() == Closing(s, h);
      var _ := WakeWaiters(refused);
    }

    /** TtBumpResetGen. */
    method BumpResetGen(h: Handle, refused: set<nat>)
      requires Valid() && h in files
      modifies this, files.Values
      ensures Valid() && View() == BumpGen(old(View()), h, refused)
    {
      ghost var s := View();
      resetGen := resetGen + 1;
      files[h].openResetGen := resetGen;
      assert View() == Bumped(s, h);
      var _ := WakeWaiters(refused);
    }

    /** The lock side of TtEvtDeviceSurpriseRemoval. */
    method SurpriseRemoval(refused: set<nat>)
      requires Valid()
      modifies this, files.Values
      ensures Valid() && View() == Detach(old(View()), refused)
    {
      ghost var s := View();
      detached := true;
      assert View() == s.(detached := true);
      var _ := WakeWaiters(refused);
    }

    /** LOCK_CTL behind the gates of TtEvtIoDeviceControl. */
    method Ctl(h: Handle, op: Op, index: nat, env: Env) returns (reply: Reply)
      requires Valid() && h in files
      modifies this`resourceLockHeld, this`lockWaitQueue, files.Values
      ensures Valid() && (View(), reply) == LockCtl(old(View()), h, op, index, env)
    {
      var f := files[h];
      if detached || f.openResetGen != resetGen {
        return DeviceRemoved;
      }
      if index >= LOCK_COUNT {
        return InvalidParameter;
      }
      var value := 0;
      match op {
        case Acquire =>
          var won := TryAcquire(h, index);
          value := if won then 1 else 0;
        case Release =>
          if index in f.locksHeld {
            ghost var s := View();
            f.locksHeld := f.locksHeld - {index};
            resourceLockHeld := resourceLockHeld - {index};
            assert View() == DropLock(s, h, index);
            value := 1;
            var _ := WakeWaiters(env.refused);
          }
        case Test =>
          value := (if index in resourceLockHeld then 2 else 0) + (if index in f.locksHeld then 1 else 0);
        case AcquireBlocking =>
          ghost var s := View();
          var won := TryAcquire(h, index);
          if won {
            value := 1;
          } else {
            if !env.contextOk || !env.forwardOk {
              return NoResources;
            }
            lockWaitQueue := lockWaitQueue + [Request(env.id, h, index, env.outputOk)];
            assert View() == s.(queue := s.queue + [Request(env.id, h, index, env.outputOk)]);
            return Pended;
          }
        case Unknown =>
          return InvalidParameter;
      }
      return if env.outputOk then Value(value) else Fault;
    }
  }
}
