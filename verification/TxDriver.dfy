/** mqnic_start_xmit and mqnic_process_tx_cq as imperative code over the shared ring.

    The object carries the run it has taken part in so far.  Between any two accesses of shared
    state `Others` may run the other thread and the NIC, so each method is verified under
    interference; its contract says that all it does is one run of the protocol in TxQueue. */
module TxDriver {
  import opened Wrappers
  import opened PtrArith
  import opened DescRing
  import opened TxQueue

  // ----- what other threads leave alone -----

  /** process_tx_cq stands still; the NIC's tail only grows. */
  predicate PollStands(s: TxState, s': TxState) {
    && s'.q.poll == s.q.poll && s'.wake == s.wake && s'.q.freed == s.q.freed && s'.q.taken == s.q.taken
    && s'.q.scanned == s.q.scanned && s'.q.cq.(buf := s.q.cq.buf) == s.q.cq
    && s'.q.ring.clean == s.q.ring.clean && s'.q.ring.tail == s.q.ring.tail
    && s'.q.ring.tailPtr == s.q.ring.tailPtr && s'.q.nic.tail >= s.q.nic.tail
  }

  /** start_xmit stands still. */
  predicate XmitStands(s: TxState, s': TxState) {
    && s'.xmit == s.xmit && s'.q.ring.posted == s.q.ring.posted && s'.q.nic.told == s.q.nic.told
    && s'.q.ring.headPtr == s.q.ring.headPtr
  }

  lemma {:induction false} OthersLeavePoll(s: TxState, step: Step)
    requires Enabled(s, step) && !OfPoll(step)
    ensures PollStands(s, Do(s, step))
  {
  }

  lemma {:induction false} OthersLeaveXmit(s: TxState, step: Step)
    requires Enabled(s, step) && !OfXmit(step)
    ensures XmitStands(s, Do(s, step))
  {
  }

  class TxRing {
    const size: nat
    const cqSize: nat
    const txInfo: array<Option<Skb>>
    const cqBuf: array<u16>
    var headPtr: u32
    var tailPtr: u32
    var cleanTailPtr: u32
    var cqHeadPtr: u32
    var cqTailPtr: u32
    var queueStopped: bool
    var nic: Nic
    ghost var s: TxState
    ghost var trace: seq<Step>

    ghost predicate OnRun()
      reads this
    {
      && ValidSize(size) && ValidSize(cqSize)
      && IsRun(Boot(size, cqSize), trace) && s == After(Boot(size, cqSize), trace)
      && Shaped(s.q) && s.q.ring.size == size && s.q.cq.size == cqSize
    }

    /** The real fields are those of the protocol state. */
    ghost predicate Valid()
      reads this, txInfo, cqBuf
    {
      && OnRun()
      && txInfo[..] == s.q.ring.info && cqBuf[..] == s.q.cq.buf
      && headPtr == s.q.ring.headPtr && tailPtr == s.q.ring.tailPtr
      && cleanTailPtr == s.q.ring.cleanPtr
      && cqHeadPtr == s.q.cq.headPtr && cqTailPtr == s.q.cq.tailPtr
      && queueStopped == s.stopped && nic == s.q.nic
    }

    constructor (size: nat, cqSize: nat)
      requires ValidSize(size) && ValidSize(cqSize)
      ensures Valid() && fresh(txInfo) && fresh(cqBuf)
      ensures trace == [] && this.size == size && this.cqSize == cqSize
    {
      this.size, this.cqSize := size, cqSize;
      txInfo := new Option<Skb>[size](_ => None);
      cqBuf := new u16[cqSize](_ => 0);
      headPtr, tailPtr, cleanTailPtr, cqHeadPtr, cqTailPtr := 0, 0, 0, 0, 0;
      queueStopped, nic := false, Nic(0, 0, 0, []);
      s, trace := Boot(size, cqSize), [];
      new;
    }

    ghost method Record(step: Step)
      requires OnRun() && Enabled(s, step)
      modifies this`s, this`trace
      ensures OnRun() && s == Do(old(s), step) && trace == old(trace) + [step]
    {
      RunExtends(Boot(size, cqSize), trace, step);
      s, trace := Do(s, step), trace + [step];
    }

    lemma {:induction false} Sound()
      requires OnRun()
      ensures TxInv(s)
    {
      FreshInv<Skb>(size, cqSize);
      RunKeeps(Boot(size, cqSize), trace);
    }

    /** Any run of start_xmit and of the NIC (OthersLeavePoll). */
    method OthersThanPoll()
      requires Valid()
      modifies this, txInfo, cqBuf
      ensures Valid() && old(trace) <= trace
      ensures PollStands(old(s), s)
    {
    }

    /** Any run of process_tx_cq and of the NIC (OthersLeaveXmit). */
    method OthersThanXmit()
      requires Valid()
      modifies this, txInfo, cqBuf
      ensures Valid() && old(trace) <= trace
      ensures XmitStands(old(s), s)
    {
    }

    predicate IsRingFull()
      reads this
    {
      Sub32(headPtr, cleanTailPtr) >= size / 2
    }

    /** How many completions the NIC has written that are not yet handled, or the budget. */
    ghost function Due(budget: nat): int
      reads this
    {
      var pending := |s.q.nic.done| - |s.q.freed|;
      if pending < budget then pending else budget
    }

    /** mqnic_process_tx_cq: frees, in order, the skbs of the completions found, up to `budget`; then
        the clean tail is at the first descriptor that is not completed, or where the NIC's tail was
        when it was read; and the queue stays stopped only if the ring is full. */
    method ProcessTxCq(budget: nat) returns (done: nat)
      requires Valid() && s.q.poll.Idle?
      modifies this, txInfo, cqBuf
      ensures Valid() && s.q.poll.Idle? && old(trace) <= trace
      ensures done == old(Due(budget)) && |s.q.freed| == |old(s.q.freed)| + done
      ensures old(s.q.freed) <= s.q.freed && old(s.q.taken) <= s.q.taken
      ensures s.q.ring.tail >= old(s.q.nic.tail)
      ensures s.q.ring.clean == s.q.ring.tail || s.q.ring.clean !in s.q.freed
      ensures s.stopped && s.xmit.Out? ==> InUse(s) >= FullSize(s)
    {
      Sound();
      StartPoll(budget);
      OthersThanPoll();
      done := DrainCompletions(budget);
      OthersThanPoll();
      ReclaimAndWake();
      Sound();
    }

    /** Read how far the NIC has got. */
    method StartPoll(budget: nat)
      requires Valid() && s.q.poll.Idle?
      modifies this`cqHeadPtr, this`s, this`trace
      ensures Valid() && s.q.poll == Consuming(cqTailPtr, budget) && trace == old(trace) + [PollStart(budget)]
      ensures s.q.cq.head == |old(s.q.nic.done)| && s.q.nic == old(s.q.nic) && s.wake == old(s.wake)
      ensures s.q.freed == old(s.q.freed) && s.q.taken == old(s.q.taken)
    {
      Sound();
      cqHeadPtr := ReadPtr(cqHeadPtr, Low16(|nic.done|));
      Record(PollStart(budget));
      Sound();
    }

    method ReclaimAndWake()
      requires Valid() && s.q.poll.Draining? && s.wake.Testing?
      modifies this, txInfo, cqBuf
      ensures Valid() && s.q.poll.Idle? && old(trace) <= trace
      ensures s.q.freed == old(s.q.freed) && s.q.taken == old(s.q.taken)
      ensures s.q.ring.tail == old(s.q.nic.tail)
      ensures s.q.ring.clean == s.q.ring.tail || s.q.ring.clean !in s.q.freed
    {
      ReclaimSlots();
      OthersThanPoll();
      WakeIfRoom();
    }

    /** Frees the slot that the completion under `tail` names; it always holds an skb. */
    method FreeTxDesc(tail: u32)
      requires Valid() && s.q.poll.Consuming? && s.q.poll.cqPtr == tail
      requires cqHeadPtr != tail && s.q.poll.budget > 0
      modifies this`s, this`trace, txInfo
      ensures Valid() && trace == old(trace) + [PollConsume] && s.wake == old(s.wake)
      ensures s.q.cq.head == old(s.q.cq.head) && s.q.nic == old(s.q.nic)
      ensures s.q.poll == Consuming(Inc32(tail), old(s.q.poll.budget) - 1)
      ensures old(s.q.freed) < s.q.freed && |s.q.freed| == |old(s.q.freed)| + 1
      ensures old(s.q.taken) < s.q.taken && |s.q.taken| == |old(s.q.taken)| + 1
      ensures s.q.taken[|old(s.q.taken)|].Some?
    {
      Sound();
      ConsumeHits(s.q, Pending(s));
      var ringIndex := Slot(cqBuf[Slot(tail, cqSize)], size);
      txInfo[ringIndex] := None;
      Record(PollConsume);
    }

    method DrainCompletions(budget: nat) returns (done: nat)
      requires Valid() && s.q.poll == Consuming(cqTailPtr, budget)
      modifies this, txInfo, cqBuf
      ensures Valid() && s.q.poll.Draining? && old(trace) <= trace && s.wake == old(s.wake)
      ensures done <= budget && |s.q.freed| == |old(s.q.freed)| + done
      ensures done == budget || |s.q.freed| == old(s.q.cq.head)
      ensures |s.q.freed| <= old(s.q.cq.head) && s.q.nic.tail >= old(s.q.nic.tail)
      ensures old(s.q.freed) <= s.q.freed && old(s.q.taken) <= s.q.taken
    {
      done := 0;
      var tail := cqTailPtr;
      while cqHeadPtr != tail && done < budget
        invariant Valid() && done <= budget && s.q.poll == Consuming(tail, budget - done)
        invariant old(trace) <= trace && s.wake == old(s.wake)
        invariant |s.q.freed| == |old(s.q.freed)| + done && s.q.cq.head == old(s.q.cq.head)
        invariant s.q.nic.tail >= old(s.q.nic.tail)
        invariant old(s.q.freed) <= s.q.freed && old(s.q.taken) <= s.q.taken
        decreases budget - done
      {
        FreeTxDesc(tail);
        done, tail := done + 1, Inc32(tail);
        OthersThanPoll();
      }
      Drained();
      Publish(tail);
    }

    method Publish(tail: u32)
      requires Valid() && s.q.poll.Consuming? && s.q.poll.cqPtr == tail && Enabled(s, PollPublish)
      modifies this`cqTailPtr, this`nic, this`s, this`trace
      ensures Valid() && s.q.poll.Draining? && trace == old(trace) + [PollPublish] && s.wake == old(s.wake)
      ensures s.q.freed == old(s.q.freed) && s.q.taken == old(s.q.taken) && s.q.nic.tail == old(s.q.nic.tail)
    {
      cqTailPtr := tail;
      nic := nic.(cqTail := Follow(nic.cqTail, Low16(tail)));
      Record(PollPublish);
    }

    /** The pointers meet just when all completions found at the start of the poll are handled. */
    lemma {:induction false} Drained()
      requires OnRun() && s.q.poll.Consuming?
      ensures s.q.cq.headPtr == s.q.poll.cqPtr <==> |s.q.freed| == s.q.cq.head
      ensures |s.q.freed| <= s.q.cq.head
    {
      Sound();
      DistanceExact(s.q.cq.head, |s.q.freed|);
    }

    lemma {:induction false} Remaining()
      requires Valid() && s.q.poll.Scanning? && s.q.poll.cleanPtr != tailPtr
      ensures s.q.scanned < s.q.ring.tail
    {
      Sound();
    }

    /** Where the NIC's tail is, and where the scan for empty slots starts. */
    method ReadTail() returns (clean: u32)
      requires Valid() && s.q.poll.Draining?
      modifies this`tailPtr, this`s, this`trace
      ensures Valid() && s.q.poll == Scanning(clean) && old(trace) <= trace && s.wake == old(s.wake)
      ensures s.q.freed == old(s.q.freed) && s.q.taken == old(s.q.taken)
      ensures s.q.ring.tail == s.q.nic.tail == old(s.q.nic.tail)
    {
      tailPtr := ReadPtr(tailPtr, Low16(nic.tail));
      clean := cleanTailPtr;
      Record(PollReadTail);
    }

    method ReclaimSlots()
      requires Valid() && s.q.poll.Draining?
      modifies this, txInfo, cqBuf
      ensures Valid() && s.q.poll.Released? && old(trace) <= trace && s.wake == old(s.wake)
      ensures s.q.freed == old(s.q.freed) && s.q.taken == old(s.q.taken)
      ensures s.q.ring.tail == old(s.q.nic.tail)
      ensures s.q.ring.clean == s.q.ring.tail || s.q.ring.clean !in s.q.freed
    {
      var clean := ReadTail();
      OthersThanPoll();
      clean := SkipEmptySlots(clean);
      Scanned();
      cleanTailPtr := clean;
      Record(PollRelease);
    }

    /** Where the scan stops: at the tail it read, or at a descriptor that is not completed. */
    lemma {:induction false} Scanned()
      requires OnRun() && s.q.poll.Scanning? && !CanScan(s.q)
      ensures s.q.scanned == s.q.ring.tail || s.q.scanned !in s.q.freed
    {
      Sound();
      DistanceExact(s.q.ring.tail, s.q.scanned);
      PtrSlot(s.q.scanned, s.q.ring.size);
    }

    method SkipEmptySlots(start: u32) returns (clean: u32)
      requires Valid() && s.q.poll == Scanning(start)
      modifies this, txInfo, cqBuf
      ensures Valid() && s.q.poll == Scanning(clean) && old(trace) <= trace
      ensures s.wake == old(s.wake) && !CanScan(s.q) && s.q.ring.tail == old(s.q.ring.tail)
      ensures s.q.freed == old(s.q.freed) && s.q.taken == old(s.q.taken)
    {
      clean := start;
      ghost var limit := s.q.ring.tail;
      while clean != tailPtr
        invariant Valid() && s.q.poll == Scanning(clean) && s.q.ring.tail == limit
        invariant old(trace) <= trace && s.wake == old(s.wake)
        invariant s.q.freed == old(s.q.freed) && s.q.taken == old(s.q.taken)
        decreases limit - s.q.scanned
      {
        Remaining();
        if txInfo[Slot(clean, size)].Some? {
          break;
        }
        Record(PollScan);
        clean := Inc32(clean);
        OthersThanPoll();
      }
    }

    method WakeIfRoom()
      requires Valid() && s.q.poll.Released? && s.wake.Testing?
      modifies this, txInfo, cqBuf
      ensures Valid() && s.q.poll.Idle? && old(trace) <= trace
      ensures s.q.freed == old(s.q.freed) && s.q.taken == old(s.q.taken)
      ensures s.q.ring.clean == old(s.q.ring.clean) && s.q.ring.tail == old(s.q.ring.tail)
    {
      var isStopped := SeeStopped();
      if isStopped {
        OthersThanPoll();
        var room := SeeRoom();
        if room {
          OthersThanPoll();
          Wake();
        }
      }
    }

    method SeeStopped() returns (isStopped: bool)
      requires Valid() && s.q.poll.Released? && s.wake.Testing?
      modifies this`s, this`trace
      ensures Valid() && trace == old(trace) + [PollTestStopped] && isStopped == queueStopped
      ensures s == if isStopped then old(s).(wake := SawStopped) else Finish(old(s))
    {
      isStopped := queueStopped;
      Record(PollTestStopped);
    }

    method SeeRoom() returns (room: bool)
      requires Valid() && s.q.poll.Released? && s.wake.SawStopped?
      modifies this`s, this`trace
      ensures Valid() && trace == old(trace) + [PollTestFull] && room == !IsRingFull()
      ensures s == if room then old(s).(wake := Waking) else Finish(old(s))
    {
      room := !IsRingFull();
      Record(PollTestFull);
    }

    method Wake()
      requires Valid() && s.q.poll.Released? && s.wake.Waking?
      modifies this`queueStopped, this`s, this`trace
      ensures Valid() && trace == old(trace) + [PollWake] && s == Finish(old(s).(stopped := false))
    {
      queueStopped := false;
      Record(PollWake);
    }

    /** mqnic_start_xmit, called by the stack on a queue that is awake.  An skb that was mapped is
        posted.  After a call with no more to follow the NIC knows of all that was posted, unless this
        skb could not be mapped and it did not know before. */
    method StartXmit(skb: Skb, mapFails: bool, more: bool)
      requires Valid() && s.xmit.Out? && !queueStopped
      modifies this, txInfo, cqBuf
      ensures Valid() && s.xmit.Out? && old(trace) <= trace
      ensures s.q.ring.posted == old(s.q.ring.posted) + (if mapFails then [] else [skb])
      ensures !mapFails && s.stopped ==> s.q.nic.told == Head(s.q)
      ensures !more ==>
                (s.q.nic.told == Head(s.q) <==> !mapFails || old(s.q.nic.told) == old(Head(s.q)))
    {
      var mapped := MapSkb(skb, mapFails);
      if mapped {
        OthersThanXmit();
        PostSkb(skb);
        OthersThanXmit();
        var stopQueue := StopIfRingFull();
        OthersThanXmit();
        TellNic(more, stopQueue);
      }
    }

    /** The doorbell, and the second look at a queue that was stopped. */
    method TellNic(more: bool, stopQueue: bool)
      requires Valid() && s.xmit == Notifying(stopQueue)
      modifies this, txInfo, cqBuf
      ensures Valid() && s.xmit.Out? && old(trace) <= trace && s.q.ring.posted == old(s.q.ring.posted)
      ensures s.q.nic.told == Head(s.q) || (more && !s.stopped)
    {
      NotifyNic(more, stopQueue);
      if stopQueue {
        OthersThanXmit();
        RestartIfRoom();
      }
      Sound();
    }

    method PostSkb(skb: Skb)
      requires Valid() && s.xmit == Mapped(skb)
      modifies this`headPtr, this`s, this`trace
      ensures Valid() && s.xmit.Posted? && old(trace) <= trace
      ensures s.q.ring.posted == old(s.q.ring.posted) + [skb]
    {
      headPtr := Inc32(headPtr);
      Record(Post);
    }

    /** mqnic_map_skb fills an empty slot, and empties it again when the mapping fails. */
    method MapSkb(skb: Skb, mapFails: bool) returns (mapped: bool)
      requires Valid() && s.xmit.Out? && !queueStopped
      modifies this, txInfo, cqBuf
      ensures Valid() && old(trace) <= trace && s.q.ring.posted == old(s.q.ring.posted)
      ensures mapped == !mapFails && s.xmit == if mapped then Mapped(skb) else Out
      ensures s.q.nic.told == old(s.q.nic.told)
      ensures old(txInfo[Slot(headPtr, size)]) == None
    {
      assert txInfo[Slot(headPtr, size)] == None by {
        Sound();
        FullExact(s);
        PlaceInv(s.q, Pending(s), Some(skb));
      }
      var index := Slot(headPtr, size);
      txInfo[index] := Some(skb);
      Record(Map(skb));
      mapped := !mapFails;
      if mapFails {
        OthersThanXmit();
        Sound();
        txInfo[index] := None;
        Record(MapFails);
      }
    }

    method StopIfRingFull() returns (stopQueue: bool)
      requires Valid() && s.xmit.Posted?
      modifies this, txInfo, cqBuf
      ensures Valid() && old(trace) <= trace && s.q.ring.posted == old(s.q.ring.posted)
      ensures s.xmit == Notifying(stopQueue) && stopQueue == old(IsRingFull())
    {
      stopQueue := IsRingFull();
      Record(TestFull);
      OthersThanXmit();
      if stopQueue {
        queueStopped := true;
      }
      Record(StopIfFull);
    }

    method NotifyNic(more: bool, stopQueue: bool)
      requires Valid() && s.xmit == Notifying(stopQueue)
      modifies this`nic, this`s, this`trace
      ensures Valid() && old(trace) <= trace && s.q.ring.posted == old(s.q.ring.posted)
      ensures s.xmit == if stopQueue then Rechecking else Out
      ensures s.q.nic.told == if !more || stopQueue then Head(s.q) else old(s.q.nic.told)
    {
      Sound();
      FollowExact(s.q.nic.told, Head(s.q));
      if !more || stopQueue {
        nic := nic.(told := Follow(nic.told, Low16(headPtr)));
      }
      Record(Notify(more));
    }

    method RestartIfRoom()
      requires Valid() && s.xmit.Rechecking?
      modifies this, txInfo, cqBuf
      ensures Valid() && s.xmit.Out? && old(trace) <= trace
      ensures s.q.ring.posted == old(s.q.ring.posted) && s.q.nic.told == old(s.q.nic.told)
      ensures !old(IsRingFull()) ==> !queueStopped
    {
      var full := IsRingFull();
      Record(Recheck);
      if !full {
        OthersThanXmit();
        queueStopped := false;
        Record(Rewake);
      }
    }
  }
}
