/** The driver's side of the ARC rings (TtBhArcMsgPush, TtBhArcMsgPop,
    TtBhSendArcMessage), with firmware free to run any number of its own steps
    before every single access the driver makes. */
module ArcQueue {
  import opened Common
  import opened ArcSpec

  /** A pointer kept modulo 2N names the slot, and the next pointer, of the
      position it stands for. */
  lemma NextSlot(pointer: nat, position: nat, n: Entries)
    ensures pointer == position % (2 * n) ==>
      pointer % n == position % n && (pointer + 1) % (2 * n) == (position + 1) % (2 * n)
  {
    ModMod(position, n);
    ModSucc(position, 2 * n);
  }

  class ArcQueue {
    const base: nat
    const n: Entries

    var mem: Mem
    var gone: bool                 // the device reads as all ones from now on
    // Histories: what was published and consumed so far on each ring.
    var sent: seq<Message>
    var taken: nat
    var answered: seq<Message>
    var popped: nat

    ghost function View(): Channel
      reads this
    {
      Channel(base, n, mem, sent, taken, answered, popped)
    }

    /** The driver may go on: the invariant holds unless the device is gone. */
    ghost predicate Live()
      reads this
    {
      !gone ==> Inv(View())
    }

    constructor (base: nat, n: Entries)
      requires WrapsCleanly(n)
      ensures this.base == base && this.n == n && !gone && Live() && Quiet(View())
    {
      this.base, this.n := base, n;
      mem, gone := map[], false;
      sent, taken, answered, popped := [], 0, [], 0;
    }

    /** Any number of firmware steps, and possibly the loss of the device. */
    method Firmware()
      requires Live()
      modifies this`mem, this`taken, this`answered, this`gone
      ensures Live() && (old(gone) ==> gone)
      ensures !gone ==> Rely(old(View()), View())
    {
      var steps: nat := *;
      var lost: bool := *;
      gone := gone || lost;
      ghost var start := View();
      while steps > 0 && !gone
        invariant !gone ==> Rely(start, View())
        invariant old(gone) ==> gone
      {
        ghost var c := View();
        var choice: nat, w: nat, v: u32 := *, *, *;
        if choice == 0 && taken < |sent| {
          mem := mem[base + REQ_RPTR := (Load(mem, base + REQ_RPTR) + 1) % (2 * n)];
          taken := taken + 1;
          FwTakeKeeps(c, View());
          RelyIsTransitive(start, c, View());
        } else if choice == 1 && w < 8 && |answered| < popped + n {
          mem := mem[ResAddr(base, n, |answered| % n, w) := v];
          FwWriteWordKeeps(c, View(), w, v);
          RelyIsTransitive(start, c, View());
        } else if choice == 2 && |answered| < popped + n && |answered| < taken {
          var m: Message := seq(8, i requires 0 <= i < 8 reads this => Load(mem, ResAddr(base, n, |answered| % n, i)));
          mem := mem[base + RES_WPTR := (Load(mem, base + RES_WPTR) + 1) % (2 * n)];
          answered := answered + [m];
          assert HoldsResponse(c, |c.answered| % c.n, m);
          FwPublishKeeps(c, View(), m);
          RelyIsTransitive(start, c, View());
        }
        steps := steps - 1;
      }
    }

    /** TtBhCsmRead32: the range gate, then one word; all ones when gone. */
    method CsmRead32(a: nat) returns (ok: bool, v: u32)
      requires Live()
      modifies this`mem, this`taken, this`answered, this`gone
      ensures Live() && (old(gone) ==> gone)
      ensures !gone ==> Rely(old(View()), View())
      ensures ok <==> InCsm(a)
      ensures ok ==> v == if gone then MAXUINT32 else Load(mem, a)
    {
      Firmware();
      if a < CSM_BASE || a > CSM_BASE + CSM_SIZE - 4 {
        return false, 0;
      }
      return true, if gone then MAXUINT32 else Load(mem, a);
    }

    /** TtBhCsmWrite32: the range gate, then one word. `before` is the channel
        just before the store. */
    method CsmWrite32(a: nat, v: u32) returns (ok: bool, ghost before: Channel)
      requires Live()
      modifies this`mem, this`taken, this`answered, this`gone
      ensures old(gone) ==> gone
      ensures !gone ==> Rely(old(View()), before)
      ensures ok <==> InCsm(a)
      ensures !gone ==> View() == if ok then before.(mem := before.mem[a := v]) else before
    {
      Firmware();
      before := View();
      if a < CSM_BASE || a > CSM_BASE + CSM_SIZE - 4 {
        return false, before;
      }
      if !gone {
        mem := mem[a := v];
      }
      return true, before;
    }

    /** TtBhArcMsgPush. On success, and while the device lives, exactly msg was
        appended to the request queue; otherwise nothing was published. With the
        queue in the CSM it succeeds whenever the ring had room, and otherwise
        gives up only on a ring it last saw full. */
    method ArcMsgPush(msg: Message, polls: nat) returns (ok: bool)
      requires Live()
      modifies this`mem, this`taken, this`answered, this`gone, this`sent
      ensures Live() && (old(gone) ==> gone) && popped == old(popped)
      ensures !gone ==> old(answered) <= answered && old(taken) <= taken
      ensures !gone ==> sent == if ok then old(sent) + [msg] else old(sent)
      ensures !gone && QueueFits(base, n) && |old(sent)| < old(taken) + n ==> ok
      ensures !gone && QueueFits(base, n) && !ok ==> |sent| == taken + n
    {
      var wptr;
      InReach();
      ok, wptr := CsmRead32(base + REQ_WPTR);
      if !ok || wptr == MAXUINT32 {
        return false;
      }
      NextSlot(wptr, |sent|, n);
      ok := AwaitSpace(wptr, polls);
      if !ok {
        return;
      }
      ok := WriteRequest(wptr % n, msg);
      if !ok {
        return;
      }
      ok := PublishRequest((wptr + 1) % (2 * n), msg);
    }

    /** The four pointers of a queue that fits are in the CSM. */
    ghost method InReach()
      ensures QueueFits(base, n) ==>
        InCsm(base + REQ_WPTR) && InCsm(base + REQ_RPTR) && InCsm(base + RES_WPTR) && InCsm(base + RES_RPTR)
    {
      if QueueFits(base, n) {
        AddressesInCsm(base, n, 0, 0);
      }
    }

    /** The polling loop of TtBhArcMsgPush: room for one more, or give up. */
    method AwaitSpace(wptr: u32, polls: nat) returns (ok: bool)
      requires Live() && (!gone ==> wptr == |sent| % (2 * n))
      modifies this`mem, this`taken, this`answered, this`gone
      ensures Live() && (old(gone) ==> gone)
      ensures !gone ==> old(taken) <= taken && old(answered) <= answered
      ensures !gone && ok ==> |sent| < taken + n
      ensures !gone && InCsm(base + REQ_RPTR) && !ok ==> |sent| == taken + n
    {
      var left := polls;
      while true
        invariant Live() && (old(gone) ==> gone)
        invariant !gone ==> old(taken) <= taken && old(answered) <= answered
        decreases left
      {
        var rptr;
        ok, rptr := CsmRead32(base + REQ_RPTR);
        if !ok || rptr == MAXUINT32 {
          return false;
        }
        if !gone {
          DriverOccupancyIsTrue(|sent|, taken, n);
        }
        if DriverOccupancy(wptr, rptr, n) < n {
          return true;
        }
        if left == 0 {
          return false;
        }
        left := left - 1;
      }
    }

    /** The final pointer write of TtBhArcMsgPush. */
    method PublishRequest(wptr: u32, msg: Message) returns (ok: bool)
      requires Live()
      requires !gone ==> |sent| < taken + n && HoldsRequest(View(), |sent| % n, msg) && wptr == (|sent| + 1) % (2 * n)
      modifies this`mem, this`taken, this`answered, this`gone, this`sent
      ensures Live() && (old(gone) ==> gone)
      ensures !gone ==> old(taken) <= taken && old(answered) <= answered
      ensures !gone ==> sent == if ok then old(sent) + [msg] else old(sent)
      ensures InCsm(base + REQ_WPTR) ==> ok
    {
      ghost var before;
      ok, before := CsmWrite32(base + REQ_WPTR, wptr);
      if ok && !gone {
        sent := sent + [msg];
        PublishAppends(before, msg);
      }
    }

    /** The entry-writing loop of TtBhArcMsgPush. */
    method WriteRequest(slot: nat, msg: Message) returns (ok: bool)
      requires Live() && slot < n
      requires !gone ==> slot == |sent| % n && |sent| < taken + n
      modifies this`mem, this`taken, this`answered, this`gone
      ensures Live() && (old(gone) ==> gone)
      ensures !gone ==> old(taken) <= taken && old(answered) <= answered
      ensures !gone && ok ==> HoldsRequest(View(), slot, msg)
      ensures QueueFits(base, n) ==> ok
    {
      var i := 0;
      while i < 8
        invariant 0 <= i <= 8 && Live() && (old(gone) ==> gone)
        invariant !gone ==> old(taken) <= taken && old(answered) <= answered
        invariant !gone ==> forall j: nat | j < i :: View().ReqWord(slot, j) == msg[j]
      {
        ghost var c := View();
        ghost var before;
        if QueueFits(base, n) {
          AddressesInCsm(base, n, slot, i);
        }
        ok, before := CsmWrite32(ReqAddr(base, slot, i), msg[i]);
        if !gone {
          if ok {
            PushWordKeeps(before, i, msg[i]);
            forall j: nat | j < i {
              LayoutDisjoint(base, n, slot, slot, i, j);
            }
          }
        }
        if !ok {
          return;
        }
        i := i + 1;
      }
      ok := true;
    }

    /** TtBhArcMsgPop. On success, and while the device lives, msg is the oldest
        response and is removed; otherwise no response was removed. With the queue
        in the CSM it succeeds whenever a response was waiting, and otherwise gives
        up only on a ring it last saw empty. */
    method ArcMsgPop(polls: nat) returns (ok: bool, msg: Message)
      requires Live()
      modifies this`mem, this`taken, this`answered, this`gone, this`popped
      ensures Live() && (old(gone) ==> gone) && sent == old(sent)
      ensures !gone ==> old(answered) <= answered && old(taken) <= taken
      ensures !gone ==> popped == old(popped) + if ok then 1 else 0
      ensures !gone && ok ==> old(popped) < |answered| && msg == answered[old(popped)]
      ensures !gone && QueueFits(base, n) && old(popped) < |old(answered)| ==> ok
      ensures !gone && QueueFits(base, n) && !ok ==> |answered| == popped
    {
      InReach();
      msg := [0, 0, 0, 0, 0, 0, 0, 0];
      var rptr;
      ok, rptr := CsmRead32(base + RES_RPTR);
      if !ok || rptr == MAXUINT32 {
        return false, msg;
      }
      NextSlot(rptr, popped, n);
      ok := AwaitResponse(rptr, polls);
      if !ok {
        return;
      }
      ok, msg := ReadResponse(rptr % n);
      if !ok {
        return;
      }
      ok := AdvanceResponse((rptr + 1) % (2 * n));
    }

    /** The polling loop of TtBhArcMsgPop: a response is there, or give up. */
    method AwaitResponse(rptr: u32, polls: nat) returns (ok: bool)
      requires Live() && (!gone ==> rptr == popped % (2 * n))
      modifies this`mem, this`taken, this`answered, this`gone
      ensures Live() && (old(gone) ==> gone)
      ensures !gone ==> old(taken) <= taken && old(answered) <= answered
      ensures !gone && ok ==> popped < |answered|
      ensures !gone && InCsm(base + RES_WPTR) && !ok ==> |answered| == popped
    {
      var left := polls;
      while true
        invariant Live() && (old(gone) ==> gone)
        invariant !gone ==> old(taken) <= taken && old(answered) <= answered
        decreases left
      {
        var wptr;
        ok, wptr := CsmRead32(base + RES_WPTR);
        if !ok || wptr == MAXUINT32 {
          return false;
        }
        if !gone {
          DriverOccupancyIsTrue(|answered|, popped, n);
        }
        if DriverOccupancy(wptr, rptr, n) > 0 {
          return true;
        }
        if left == 0 {
          return false;
        }
        left := left - 1;
      }
    }

    /** The final pointer write of TtBhArcMsgPop. */
    method AdvanceResponse(rptr: u32) returns (ok: bool)
      requires Live()
      requires !gone ==> popped < |answered| && rptr == (popped + 1) % (2 * n)
      modifies this`mem, this`taken, this`answered, this`gone, this`popped
      ensures Live() && (old(gone) ==> gone)
      ensures !gone ==> old(taken) <= taken && old(answered) <= answered
      ensures !gone ==> popped == old(popped) + if ok then 1 else 0
      ensures InCsm(base + RES_RPTR) ==> ok
    {
      ghost var before;
      ok, before := CsmWrite32(base + RES_RPTR, rptr);
      if ok && !gone {
        popped := popped + 1;
        PopRemovesOldest(before);
      }
    }

    /** The entry-reading loop of TtBhArcMsgPop. */
    method ReadResponse(slot: nat) returns (ok: bool, msg: Message)
      requires Live() && slot < n
      requires !gone ==> slot == popped % n && popped < |answered|
      modifies this`mem, this`taken, this`answered, this`gone
      ensures Live() && (old(gone) ==> gone)
      ensures !gone ==> old(answered) <= answered && old(taken) <= taken
      ensures !gone && ok ==> msg == answered[popped]
      ensures QueueFits(base, n) ==> ok
    {
      msg := [0, 0, 0, 0, 0, 0, 0, 0];
      var i := 0;
      while i < 8
        invariant 0 <= i <= 8 && |msg| == 8 && Live() && (old(gone) ==> gone)
        invariant !gone ==> old(answered) <= answered && old(taken) <= taken
        invariant !gone ==> msg[..i] == old(answered)[popped][..i]
      {
        var v;
        if QueueFits(base, n) {
          AddressesInCsm(base, n, slot, i);
        }
        ok, v := CsmRead32(ResAddr(base, n, slot, i));
        if !ok {
          return;
        }
        if !gone {
          assert HoldsResponse(View(), popped % n, answered[popped]);
          assert v == View().ResWord(slot, i);
        }
        msg := msg[i := v];
        i := i + 1;
      }
      ok := true;
    }

    /** What the queue control block says: the base and the information word, the
        low byte of which is the number of entries; none when a read of it falls
        outside the CSM. */
    static function NumEntries(info: u32): nat {
      info % 0x100
    }

    /** TtBhSendArcMessage: ready gate, queue discovery, then push, doorbell and
        pop as one transaction under ArcMsgLock. Firmware names the same queue
        every time. The response returned is the one at the driver's position in
        the response stream, so it answers this very request exactly when the
        rings were quiet; and then they are quiet again afterwards. From quiet rings
        in the CSM a ready device always gets the request, and the send is done if
        the reply is there by the time the pop begins (middle), or else unless the
        pop last saw no reply. */
    method SendArcMessage(ready: bool, block: Option<(u32, u32)>, msg: Message, polls: nat)
      returns (ok: bool, pushed: bool, done: bool, reply: Message, ghost middle: Channel)
      requires Live()
      requires block.Some? && block.value.1 % 0x100 != 0 ==> block.value.0 == base && block.value.1 % 0x100 == n
      modifies this`mem, this`taken, this`answered, this`gone, this`sent, this`popped
      ensures Live() && (old(gone) ==> gone)
      ensures ok <==> done && reply[0] == 0
      ensures done ==> pushed
      ensures pushed ==> ready && block.Some? && block.value.1 % 0x100 != 0
      ensures !gone && done ==> IsSend(old(View()), View(), Done(msg, reply))
      ensures !gone && pushed && !done ==> IsSend(old(View()), View(), GaveUp(msg))
      ensures !gone && !pushed ==> IsSend(old(View()), View(), NotSent(msg))
      ensures !gone && done && old(Quiet(View())) ==>
        Quiet(View()) && reply == answered[|old(sent)|] && sent[|old(sent)|] == msg
      ensures !gone && QueueFits(base, n) && ready && block.Some? && block.value.1 % 0x100 != 0 && old(Quiet(View())) ==> pushed
      ensures !gone && QueueFits(base, n) && pushed && middle.popped < |middle.answered| ==> done
      ensures !gone && pushed ==> middle.sent == sent && middle.popped == old(popped) && middle.answered <= answered
      ensures !gone && QueueFits(base, n) && pushed && !done ==> |answered| == popped
    {
      ok, pushed, done, reply, middle := false, false, false, msg, View();
      if !ready {
        return;
      }
      if block.None? {
        return;
      }
      if NumEntries(block.value.1) == 0 {
        return;
      }
      pushed := ArcMsgPush(msg, polls);
      middle := View();
      if !pushed {
        return;
      }
      done, reply := ArcMsgPop(polls);
      if !done {
        return;
      }
      ok := reply[0] == 0;
    }
  }
}
