/** The per-device DMA-buffer ceiling. A reservation is one atomic add, and a
    second atomic step that takes it back when it went over; other threads run
    in between. The counter is a mathematical integer; that it never leaves the
    64-bit range under a limit is proved. */
module QuotaSpec {
  import opened Sums

  const LONG64_MAX: int := 0x7FFF_FFFF_FFFF_FFFF
  const MAX_BUF: nat := 0x1000_0000
  const MAX_LIMIT: nat := 0xFFFF_FFFF * 0x10_0000
  /** Threads that can be inside the reservation at once: thread ids are 32-bit. */
  const MAX_THREADS: nat := 0xFFFF_FFFF

  type Thread = nat
  type Buffer = nat

  datatype State = State(
    counter: int,                   // Context->DmaBufBytes
    limit: nat,                     // Context->DmaBufLimitBytes, 0 = unlimited
    live: map<Buffer, nat>,         // accepted reservations
    pending: map<Thread, nat>)      // refused ones not yet taken back

  datatype Event = Reserve(t: Thread, id: Buffer, bytes: nat) | Rollback(t: Thread) | Release(id: Buffer)

  ghost predicate Enabled(s: State, e: Event) {
    match e
    case Reserve(t, id, bytes) =>
      t !in s.pending && id !in s.live && 0 < bytes <= MAX_BUF && |s.pending| < MAX_THREADS
    case Rollback(t) => t in s.pending
    case Release(id) => id in s.live
  }

  /** The test TtDmaAccountReserve makes on the value its add returned. */
  predicate Over(s: State, bytes: nat) {
    s.limit != 0 && s.counter + bytes > s.limit
  }

  function Apply(s: State, e: Event): State
    requires Enabled(s, e)
  {
    match e
    case Reserve(t, id, bytes) =>
      if Over(s, bytes) then s.(counter := s.counter + bytes, pending := s.pending[t := bytes])
      else s.(counter := s.counter + bytes, live := s.live[id := bytes])
    case Rollback(t) => s.(counter := s.counter - s.pending[t], pending := s.pending - {t})
    case Release(id) => s.(counter := s.counter - s.live[id], live := s.live - {id})
  }

  ghost function Charged(s: State): nat {
    Total(s.live) + Total(s.pending)
  }

  /** The counter is what is live plus what is still to be taken back; live
      bytes never exceed a nonzero limit. */
  ghost predicate Inv(s: State) {
    && s.limit <= MAX_LIMIT && |s.pending| <= MAX_THREADS
    && (forall t | t in s.pending :: s.pending[t] <= MAX_BUF)
    && s.counter == Charged(s)
    && (s.limit != 0 ==> Total(s.live) <= s.limit)
  }

  lemma InFlightBound(s: State)
    requires Inv(s)
    ensures Total(s.pending) <= MAX_THREADS * MAX_BUF
  {
    TotalBound(s.pending, MAX_BUF);
    assert |s.pending| * MAX_BUF <= MAX_THREADS * MAX_BUF;
  }

  /** A refusal means exactly that what is live, what is in flight and the new
      request together exceed the limit. */
  lemma RefusedIff(s: State, bytes: nat)
    requires Inv(s) && bytes <= MAX_BUF
    ensures Over(s, bytes) <==> s.limit != 0 && Charged(s) + bytes > s.limit
  {
  }

  lemma ReserveKeepsInv(s: State, t: Thread, id: Buffer, bytes: nat)
    requires Inv(s) && Enabled(s, Reserve(t, id, bytes))
    ensures Inv(Apply(s, Reserve(t, id, bytes)))
  {
    if Over(s, bytes) {
      TotalInsert(s.pending, t, bytes);
    } else {
      TotalInsert(s.live, id, bytes);
    }
  }

  lemma RollbackKeepsInv(s: State, t: Thread)
    requires Inv(s) && t in s.pending
    ensures Inv(Apply(s, Rollback(t)))
  {
    TotalRemove(s.pending, t);
  }

  lemma ReleaseKeepsInv(s: State, id: Buffer)
    requires Inv(s) && id in s.live
    ensures Inv(Apply(s, Release(id)))
  {
    TotalRemove(s.live, id);
  }

  lemma StepKeepsInv(s: State, e: Event)
    requires Inv(s) && Enabled(s, e)
    ensures Inv(Apply(s, e))
  {
    match e
    case Reserve(t, id, bytes) => ReserveKeepsInv(s, t, id, bytes);
    case Rollback(t) => RollbackKeepsInv(s, t);
    case Release(id) => ReleaseKeepsInv(s, id);
  }

  ghost predicate IsRun(run: seq<State>, events: seq<Event>, limit: nat) {
    && |run| == |events| + 1 && run[0] == State(0, limit, map[], map[])
    && forall i | 0 <= i < |events| :: Enabled(run[i], events[i]) && run[i + 1] == Apply(run[i], events[i])
  }

  /** Along every interleaving: the counter is exactly the bytes charged; under
      a limit the accepted bytes never exceed it and no 64-bit step overflows. */
  lemma {:induction false} AllRuns(run: seq<State>, events: seq<Event>, limit: nat, n: nat)
    requires limit <= MAX_LIMIT && IsRun(run, events, limit) && n < |run|
    ensures Inv(run[n]) && run[n].limit == limit && run[n].counter == Charged(run[n])
    ensures limit != 0 ==> Total(run[n].live) <= limit && run[n].counter + MAX_BUF <= LONG64_MAX
  {
    if n > 0 {
      AllRuns(run, events, limit, n - 1);
      StepKeepsInv(run[n - 1], events[n - 1]);
    }
    InFlightBound(run[n]);
  }

  /** With nothing in flight a request is refused exactly when it does not fit;
      but another refused request still in flight can push it over. */
  lemma RefusalIsExactWhenAlone(s: State, bytes: nat)
    requires Inv(s) && bytes <= MAX_BUF && s.pending == map[]
    ensures Over(s, bytes) <==> s.limit != 0 && Total(s.live) + bytes > s.limit
  {
    RefusedIff(s, bytes);
  }

  const MIB: nat := 0x10_0000

  /** Two reservations under a 10 MiB limit: one of 6 MiB is accepted, then one of
      5 MiB is refused and not yet taken back. */
  function TwoReservations(): seq<Event> {
    [Reserve(1, 1, 6 * MIB), Reserve(2, 2, 5 * MIB)]
  }

  /** In the state they lead to, a request of 3 MiB is refused although it fits
      beside the 6 MiB that are live. */
  lemma SpuriousRefusal() returns (run: seq<State>)
    ensures IsRun(run, TwoReservations(), 10 * MIB)
    ensures Total(run[2].live) + 3 * MIB <= run[2].limit && Over(run[2], 3 * MIB)
    ensures Enabled(run[2], Reserve(3, 3, 3 * MIB)) && Apply(run[2], Reserve(3, 3, 3 * MIB)).live == run[2].live
  {
    var es := TwoReservations();
    var s0 := State(0, 10 * MIB, map[], map[]);
    var s1 := Apply(s0, es[0]);
    var s2 := Apply(s1, es[1]);
    assert |s0.pending| == 0 && |s1.pending| == 0;
    assert s2.live == map[1 := 6 * MIB] && s2.pending == map[2 := 5 * MIB];
    TotalRemove(s2.live, 1);
    assert s2.live - {1} == map[];
    assert |s2.pending.Keys| == |{2}|;
    run := [s0, s1, s2];
  }
}

/** TtDmaAccountReserve and TtDmaAccountRelease, with any number of steps of
    other threads before each atomic add. */
module Quota {
  import opened QuotaSpec

  class DmaAccount {
    const limit: nat
    var dmaBufBytes: int
    // Histories of the reservations outstanding on the device.
    var live: map<Buffer, nat>
    var pending: map<Thread, nat>

    ghost function View(): State
      reads this
    {
      State(dmaBufBytes, limit, live, pending)
    }

    ghost predicate Valid()
      reads this
    {
      Inv(View())
    }

    /** Some step of some other thread. */
    method OtherStep(self: Thread)
      requires Valid()
      modifies this
      ensures Valid() && (self in pending <==> self in old(pending))
      ensures self in pending ==> pending[self] == old(pending)[self]
    {
      ghost var s := View();
      var choice: nat, t: Thread, id: Buffer, bytes: nat := *, *, *, *;
      if choice == 0 && t != self && t !in pending && id !in live && 0 < bytes <= MAX_BUF && |pending| < MAX_THREADS {
        var over := limit != 0 && dmaBufBytes + bytes > limit;
        dmaBufBytes := dmaBufBytes + bytes;
        if over {
          pending := pending[t := bytes];
        } else {
          live := live[id := bytes];
        }
        ReserveKeepsInv(s, t, id, bytes);
      } else if choice == 1 && t != self && t in pending {
        dmaBufBytes := dmaBufBytes - pending[t];
        pending := pending - {t};
        RollbackKeepsInv(s, t);
      } else if choice == 2 && id in live {
        dmaBufBytes := dmaBufBytes - live[id];
        live := live - {id};
        ReleaseKeepsInv(s, id);
      }
    }

    method Others(self: Thread)
      requires Valid()
      modifies this
      ensures Valid() && (self in pending <==> self in old(pending))
      ensures self in pending ==> pending[self] == old(pending)[self]
    {
      var steps: nat := *;
      while steps > 0
        invariant Valid() && (self in pending <==> self in old(pending))
        invariant self in pending ==> pending[self] == old(pending)[self]
      {
        OtherStep(self);
        steps := steps - 1;
      }
    }

    /** TtDmaAccountReserve. Accepted bytes join the live ones; a refused add is
        taken back before returning, other threads running in between. */
    method Reserve(self: Thread, id: Buffer, bytes: nat) returns (ok: bool)
      requires Valid() && self !in pending && 0 < bytes <= MAX_BUF && |pending| < MAX_THREADS && id !in live
      modifies this
      ensures Valid() && self !in pending
      ensures ok <==> limit == 0 || old(Charged(View())) + bytes <= limit
      ensures ok ==> View() == Apply(old(View()), Event.Reserve(self, id, bytes))
    {
      ReserveKeepsInv(View(), self, id, bytes);
      var total := dmaBufBytes + bytes;
      dmaBufBytes := total;
      if limit != 0 && total > limit {
        pending := pending[self := bytes];
        Others(self);
        ghost var s := View();
        dmaBufBytes := dmaBufBytes - bytes;
        pending := pending - {self};
        RollbackKeepsInv(s, self);
        return false;
      }
      live := live[id := bytes];
      return true;
    }

    /** TtDmaAccountRelease. */
    method Release(id: Buffer)
      requires Valid() && id in live
      modifies this
      ensures Valid() && View() == Apply(old(View()), Event.Release(id))
    {
      ReleaseKeepsInv(View(), id);
      dmaBufBytes := dmaBufBytes - live[id];
      live := live - {id};
    }
  }
}
