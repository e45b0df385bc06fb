/** mqnic_process_rx_cq and mqnic_refill_rx_buffers as imperative code over the shared ring.

    The poll routine is the only driver thread here; `NicRuns` may let the NIC run between any two
    accesses.  Each method's contract says that all it does is one run of the protocol in RxQueue. */
module RxDriver {
  import opened Wrappers
  import opened PtrArith
  import opened DescRing
  import opened RxQueue

  predicate OfNic(step: Step) { step.NicFetch? || step.NicComplete? }

  /** What the NIC leaves alone: the ring and the driver's pointers; its tail only grows. */
  predicate DriverStands(s: RxState, s': RxState) {
    && s' == s.(q := s'.q) && s'.q == s.q.(nic := s'.q.nic, cq := s'.q.cq)
    && s'.q.cq == s.q.cq.(buf := s'.q.cq.buf)
    && s'.q.nic.told == s.q.nic.told && s'.q.nic.cqTail == s.q.nic.cqTail && s'.q.nic.tail >= s.q.nic.tail
  }

  lemma {:induction false} NicLeavesDriver(s: RxState, step: Step)
    requires Enabled(s, step) && OfNic(step)
    ensures DriverStands(s, Do(s, step))
  {
  }

  function Min(a: int, b: int): int { if a < b then a else b }

  /** How many of the next `n` pages, from attempt `i` on, are had before one is not. */
  function Served(allocs: nat -> Alloc, i: nat, n: nat): (k: nat)
    ensures k <= n && (forall j | i <= j < i + k :: allocs(j).Mapped?)
    ensures k < n ==> !allocs(i + k).Mapped?
    decreases n
  {
    if n == 0 || !allocs(i).Mapped? then 0 else 1 + Served(allocs, i + 1, n - 1)
  }

  /** What refill posts when `missing` slots are free: nothing below eight, else all until a page is not to
      be had. */
  function Refilled(allocs: nat -> Alloc, missing: nat): nat {
    if missing < 8 then 0 else Served(allocs, 0, missing)
  }

  class RxRing {
    const size: nat
    const cqSize: nat
    const rxInfo: array<Option<Page>>
    const cqBuf: array<u16>
    var headPtr: u32
    var tailPtr: u32
    var cleanTailPtr: u32
    var cqHeadPtr: u32
    var cqTailPtr: u32
    var nic: Nic
    var nextPage: nat
    /** The pages handed to the network stack, oldest first. */
    var handedUp: seq<Page>
    ghost var s: RxState
    ghost var trace: seq<Step>

    ghost predicate OnRun()
      reads this
    {
      && ValidSize(size) && ValidSize(cqSize)
      && IsRun(Activated(size, cqSize), trace) && s == After(Activated(size, cqSize), trace)
      && Shaped(s.q) && s.q.ring.size == size && s.q.cq.size == cqSize
    }

    ghost predicate Valid()
      reads this, rxInfo, cqBuf
    {
      && OnRun()
      && rxInfo[..] == s.q.ring.info && cqBuf[..] == s.q.cq.buf
      && headPtr == s.q.ring.headPtr && tailPtr == s.q.ring.tailPtr
      && cleanTailPtr == s.q.ring.cleanPtr
      && cqHeadPtr == s.q.cq.headPtr && cqTailPtr == s.q.cq.tailPtr
      && nic == s.q.nic && nextPage == s.nextPage
      && |handedUp| == |s.q.taken|
      && (forall k | 0 <= k < |handedUp| :: s.q.taken[k] == Some(handedUp[k]))
    }

    constructor (size: nat, cqSize: nat)
      requires ValidSize(size) && ValidSize(cqSize)
      ensures Valid() && fresh(rxInfo) && fresh(cqBuf) && trace == []
    {
      this.size, this.cqSize := size, cqSize;
      rxInfo := new Option<Page>[size](_ => None);
      cqBuf := new u16[cqSize](_ => 0);
      headPtr, tailPtr, cleanTailPtr, cqHeadPtr, cqTailPtr := 0, 0, 0, 0, 0;
      nic, nextPage, handedUp := Nic(0, 0, 0, []), 0, [];
      s, trace := Activated(size, cqSize), [];
    }

    lemma {:induction false} Sound()
      requires OnRun()
      ensures RxInv(s)
    {
      ActivatedInv(size, cqSize);
      RunKeeps(Activated(size, cqSize), trace);
    }

    ghost method Record(step: Step)
      requires OnRun() && Enabled(s, step)
      modifies this`s, this`trace
      ensures OnRun() && s == Do(old(s), step) && trace == old(trace) + [step]
    {
      RunExtends(Activated(size, cqSize), trace, step);
      s, trace := Do(s, step), trace + [step];
    }

    /** Any run of the NIC, which writes completions and moves its pointers (NicLeavesDriver). */
    method NicRuns()
      requires Valid()
      modifies this`nic, this`s, this`trace, cqBuf
      ensures Valid() && old(trace) <= trace
      ensures DriverStands(old(s), s)
    {
    }

    /** How many completions the NIC has written that are not yet handled, or the budget. */
    ghost function Due(budget: nat): int
      reads this
    {
      var pending := |s.q.nic.done| - |s.q.freed|;
      if pending < budget then pending else budget
    }

    /** mqnic_process_rx_cq, when `skbs` calls of napi_get_frags succeed before one fails, and the n-th
        page is had as `allocs` says: hands up, in completion order, the pages of the completions found,
        up to `budget` and `skbs`; moves the clean tail to the first descriptor that is not completed, or to
        the NIC's tail; and fills the ring up unless fewer than eight slots are free or a page is not to be
        had, telling the NIC of it. */
    method ProcessRxCq(budget: nat, skbs: nat, allocs: nat -> Alloc) returns (done: nat)
      requires Valid() && s.q.poll.Idle? && s.refill.Resting?
      modifies this, rxInfo, cqBuf
      ensures Valid() && s.q.poll.Idle? && s.refill.Resting? && old(trace) <= trace
      ensures done == Min(old(Due(budget)), skbs)
      ensures |handedUp| == |old(handedUp)| + done && old(handedUp) <= handedUp
      ensures s.q.ring.tail >= old(s.q.nic.tail)
      ensures s.q.ring.clean == s.q.ring.tail || s.q.ring.clean !in s.q.freed
      ensures var missing := s.q.ring.clean + size - old(Head(s.q));
              && missing >= 0 && Head(s.q) == old(Head(s.q)) + Refilled(allocs, missing)
              && (missing >= 8 ==> s.q.nic.told == Head(s.q))
    {
      Sound();
      StartPoll(budget);
      NicRuns();
      done := HandUpPages(budget, skbs);
      NicRuns();
      ReclaimAndRefill(allocs);
    }

    /** Read how far the NIC has got. */
    method StartPoll(budget: nat)
      requires Valid() && s.q.poll.Idle? && s.refill.Resting?
      modifies this`cqHeadPtr, this`s, this`trace
      ensures Valid() && s.q.poll == Consuming(cqTailPtr, budget) && trace == old(trace) + [PollStart(budget)]
      ensures s.refill.Resting? && s.q.cq.head == |old(s.q.nic.done)| && s.q.nic == old(s.q.nic)
      ensures s.q.freed == old(s.q.freed) && s.q.ring.posted == old(s.q.ring.posted)
    {
      Sound();
      cqHeadPtr := ReadPtr(cqHeadPtr, Low16(|nic.done|));
      Record(PollStart(budget));
      Sound();
    }

    method ReclaimAndRefill(allocs: nat -> Alloc)
      requires Valid() && s.q.poll.Draining? && s.refill.Resting?
      modifies this, rxInfo, cqBuf
      ensures Valid() && s.q.poll.Idle? && s.refill.Resting? && old(trace) <= trace
      ensures handedUp == old(handedUp) && s.q.freed == old(s.q.freed)
      ensures s.q.ring.tail == old(s.q.nic.tail)
      ensures s.q.ring.clean == s.q.ring.tail || s.q.ring.clean !in s.q.freed
      ensures var missing := s.q.ring.clean + size - old(Head(s.q));
              && missing >= 0 && Head(s.q) == old(Head(s.q)) + Refilled(allocs, missing)
              && (missing >= 8 ==> s.q.nic.told == Head(s.q))
    {
      ReclaimSlots();
      NicRuns();
      RefillBuffers(allocs);
    }

    method HandUpPages(budget: nat, skbs: nat) returns (done: nat)
      requires Valid() && s.q.poll == Consuming(cqTailPtr, budget) && s.refill.Resting?
      modifies this, rxInfo, cqBuf
      ensures Valid() && s.q.poll.Draining? && s.refill.Resting? && old(trace) <= trace
      ensures done == Min(Min(old(s.q.cq.head - |s.q.freed|), budget), skbs)
      ensures |handedUp| == |old(handedUp)| + done
      ensures old(handedUp) <= handedUp && |s.q.freed| == |old(s.q.freed)| + done <= old(s.q.cq.head)
      ensures s.q.nic.tail >= old(s.q.nic.tail) && s.q.ring.posted == old(s.q.ring.posted)
    {
      done := 0;
      var tail, gaveUp := cqTailPtr, false;
      while cqHeadPtr != tail && done < budget
        invariant Valid() && done <= budget && s.q.poll == Consuming(tail, budget - done)
        invariant s.refill.Resting? && old(trace) <= trace && done <= skbs && !gaveUp
        invariant |handedUp| == |old(handedUp)| + done && old(handedUp) <= handedUp
        invariant |s.q.freed| == |old(s.q.freed)| + done && s.q.cq.head == old(s.q.cq.head)
        invariant s.q.nic.tail >= old(s.q.nic.tail) && s.q.ring.posted == old(s.q.ring.posted)
        decreases budget - done
      {
        if done == skbs {
          // napi_get_frags fails; the completion is left for the next poll
          gaveUp := true;
          break;
        }
        HandUpPage(tail);
        done, tail := done + 1, Inc32(tail);
        NicRuns();
      }
      Drained();
      Publish(tail, gaveUp);
    }

    method Publish(tail: u32, gaveUp: bool)
      requires Valid() && s.q.poll.Consuming? && s.q.poll.cqPtr == tail && s.refill.Resting?
      requires Enabled(s, PollPublish(gaveUp))
      modifies this`cqTailPtr, this`nic, this`s, this`trace
      ensures Valid() && s.q.poll.Draining? && trace == old(trace) + [PollPublish(gaveUp)]
      ensures s.refill.Resting? && s.q.freed == old(s.q.freed)
      ensures s.q.nic.tail == old(s.q.nic.tail) && s.q.ring.posted == old(s.q.ring.posted)
    {
      cqTailPtr := tail;
      nic := nic.(cqTail := Follow(nic.cqTail, Low16(tail)));
      Record(PollPublish(gaveUp));
    }

    /** The pointers meet just when all completions found at the start of the poll are handled. */
    lemma {:induction false} Drained()
      requires OnRun() && s.q.poll.Consuming?
      ensures s.q.cq.headPtr == s.q.poll.cqPtr <==> |s.q.freed| == s.q.cq.head
      ensures |s.q.freed| <= s.q.cq.head
    {
      Sound();
      DistanceExact(s.q.cq.head, |s.q.freed|);
    }

    /** Hands up the page of the completion under `tail`; the slot named there always has one. */
    method HandUpPage(tail: u32)
      requires Valid() && s.q.poll.Consuming? && s.q.poll.cqPtr == tail && s.refill.Resting?
      requires cqHeadPtr != tail && s.q.poll.budget > 0
      modifies this`s, this`trace, this`handedUp, rxInfo
      ensures Valid() && old(trace) <= trace && s.refill.Resting?
      ensures s.q.poll == Consuming(Inc32(tail), old(s.q.poll.budget) - 1)
      ensures |handedUp| == |old(handedUp)| + 1 && old(handedUp) <= handedUp
      ensures |s.q.freed| == |old(s.q.freed)| + 1 && s.q.ring.posted == old(s.q.ring.posted)
      ensures s.q.cq.head == old(s.q.cq.head) && s.q.nic == old(s.q.nic)
    {
      Sound();
      ConsumeHits(s.q, None);
      var ringIndex := Slot(cqBuf[Slot(tail, cqSize)], size);
      var page := rxInfo[ringIndex];
      assert page.Some?;
      rxInfo[ringIndex] := None;
      handedUp := handedUp + [page.value];
      Record(PollConsume);
    }

    /** Where the NIC's tail is, and where the scan for empty slots starts. */
    method ReadTail() returns (clean: u32)
      requires Valid() && s.q.poll.Draining? && s.refill.Resting?
      modifies this`tailPtr, this`s, this`trace
      ensures Valid() && s.q.poll == Scanning(clean) && s.refill.Resting? && old(trace) <= trace
      ensures s.q.ring.tail == s.q.nic.tail == old(s.q.nic.tail) && s.q.freed == old(s.q.freed)
      ensures s.q.ring.posted == old(s.q.ring.posted)
    {
      tailPtr := ReadPtr(tailPtr, Low16(nic.tail));
      clean := cleanTailPtr;
      Record(PollReadTail);
    }

    method ReclaimSlots()
      requires Valid() && s.q.poll.Draining? && s.refill.Resting?
      modifies this, rxInfo, cqBuf
      ensures Valid() && s.q.poll.Released? && s.refill.Resting? && old(trace) <= trace
      ensures handedUp == old(handedUp) && s.q.freed == old(s.q.freed)
      ensures s.q.ring.tail == old(s.q.nic.tail) && s.q.ring.posted == old(s.q.ring.posted)
      ensures s.q.ring.clean == s.q.ring.tail || s.q.ring.clean !in s.q.freed
    {
      var clean := ReadTail();
      NicRuns();
      clean := SkipEmptySlots(clean);
      Scanned();
      cleanTailPtr := clean;
      Record(PollRelease);
    }

    /** Where the scan stops: at the tail it read, or at a descriptor that is not completed. */
    lemma {:induction false} Scanned()
      requires OnRun() && s.q.poll.Scanning? && !CanScan(s.q)
      ensures s.q.scanned == s.q.ring.tail || s.q.scanned !in s.q.freed
    {
      Sound();
      DistanceExact(s.q.ring.tail, s.q.scanned);
      PtrSlot(s.q.scanned, s.q.ring.size);
    }

    method SkipEmptySlots(start: u32) returns (clean: u32)
      requires Valid() && s.q.poll == Scanning(start) && s.refill.Resting?
      modifies this`nic, this`s, this`trace, cqBuf
      ensures Valid() && s.q.poll == Scanning(clean) && s.refill.Resting? && old(trace) <= trace
      ensures !CanScan(s.q) && s.q.ring == old(s.q.ring) && s.q.freed == old(s.q.freed)
    {
      clean := start;
      ghost var limit := s.q.ring.tail;
      while clean != tailPtr
        invariant Valid() && s.q.poll == Scanning(clean) && s.q.ring.tail == limit
        invariant s.refill.Resting? && old(trace) <= trace
        invariant s.q.ring == old(s.q.ring) && s.q.freed == old(s.q.freed)
        decreases limit - s.q.scanned
      {
        Remaining();
        if rxInfo[Slot(clean, size)].Some? {
          break;
        }
        Record(PollScan);
        clean := Inc32(clean);
        NicRuns();
      }
    }

    lemma {:induction false} Remaining()
      requires Valid() && s.q.poll.Scanning? && s.q.poll.cleanPtr != tailPtr
      ensures s.q.scanned < s.q.ring.tail
    {
      Sound();
    }

    /** mqnic_refill_rx_buffers: nothing while fewer than eight slots are free; else it posts pages until
        the ring is full or one is not to be had, and tells the NIC. */
    method RefillBuffers(allocs: nat -> Alloc)
      requires Valid() && s.q.poll.Released? && s.refill.Resting?
      modifies this, rxInfo, cqBuf
      ensures Valid() && s.q.poll.Idle? && s.refill.Resting? && old(trace) <= trace
      ensures handedUp == old(handedUp) && s.q.freed == old(s.q.freed)
      ensures s.q.ring.clean == old(s.q.ring.clean) && s.q.ring.tail == old(s.q.ring.tail)
      ensures var missing := s.q.ring.clean + size - old(Head(s.q));
              && missing >= 0 && Head(s.q) == old(Head(s.q)) + Refilled(allocs, missing)
              && (missing >= 8 ==> s.q.nic.told == Head(s.q))
    {
      Sound();
      MissingExact(s);
      var missing := Low32(size - Sub32(headPtr, cleanTailPtr));
      Record(RefillStart);
      if missing < 8 {
        return;
      }
      FillSlots(missing, allocs);
      TellNic();
    }

    /** The doorbell. */
    method TellNic()
      requires Valid() && s.q.poll.Released? && s.refill.Filling?
      modifies this`nic, this`s, this`trace
      ensures Valid() && s.q.poll.Idle? && s.refill.Resting? && trace == old(trace) + [RefillEnd]
      ensures s.q.ring == old(s.q.ring) && s.q.freed == old(s.q.freed) && s.q.nic.told == Head(s.q)
    {
      Sound();
      FollowExact(s.q.nic.told, Head(s.q));
      nic := nic.(told := Follow(nic.told, Low16(headPtr)));
      Record(RefillEnd);
    }

    method FillSlots(count: nat, allocs: nat -> Alloc)
      requires Valid() && s.q.poll.Released? && s.refill == Filling(count)
      modifies this, rxInfo, cqBuf
      ensures Valid() && s.q.poll.Released? && s.refill.Filling? && old(trace) <= trace
      ensures handedUp == old(handedUp) && s.q.freed == old(s.q.freed)
      ensures s.q.ring.clean == old(s.q.ring.clean) && s.q.ring.tail == old(s.q.ring.tail)
      ensures Head(s.q) == old(Head(s.q)) + Served(allocs, 0, count)
    {
      var missing: nat, n: nat := count, 0;
      while missing > 0
        invariant Valid() && s.q.poll.Released? && s.refill == Filling(missing)
        invariant old(trace) <= trace && handedUp == old(handedUp) && s.q.freed == old(s.q.freed)
        invariant s.q.ring.clean == old(s.q.ring.clean) && s.q.ring.tail == old(s.q.ring.tail)
        invariant n + missing == count && Head(s.q) == old(Head(s.q)) + n
        invariant Served(allocs, 0, count) == n + Served(allocs, n, missing)
        decreases missing
      {
        var filled := PrepareRxDesc(allocs(n));
        if !filled {
          break;
        }
        missing, n := missing - 1, n + 1;
        NicRuns();
      }
    }

    /** mqnic_prepare_rx_desc on the slot at the head, and the increment of the head: a fresh page if one
        is to be had. */
    method PrepareRxDesc(alloc: Alloc) returns (filled: bool)
      requires Valid() && s.q.poll.Released? && s.refill.Filling? && s.refill.missing > 0
      modifies this, rxInfo
      ensures Valid() && s.q.poll.Released? && s.refill.Filling? && old(trace) <= trace
      ensures old(rxInfo[Slot(headPtr, size)]) == None && filled == alloc.Mapped?
      ensures !filled ==> s.q == old(s.q) && rxInfo[..] == old(rxInfo[..]) && headPtr == old(headPtr)
      ensures filled ==> s.refill.missing == old(s.refill.missing) - 1
                         && s.q.ring.posted == old(s.q.ring.posted) + [old(nextPage)]
      ensures handedUp == old(handedUp) && s.q.freed == old(s.q.freed)
      ensures s.q.ring.clean == old(s.q.ring.clean) && s.q.ring.tail == old(s.q.ring.tail)
    {
      Sound();
      RefillMeetsEmptySlot(s);
      var index := Slot(headPtr, size);
      assert rxInfo[index].None?;
      match alloc {
        case NoMemory =>
        case MapFailed =>
          nextPage := nextPage + 1;
        case Mapped =>
          rxInfo[index] := Some(nextPage);
          headPtr, nextPage := Inc32(headPtr), nextPage + 1;
      }
      filled := alloc.Mapped?;
      Record(RefillSlot(alloc));
    }
  }

  lemma {:induction false} RunExtends(s: RxState, steps: seq<Step>, step: Step)
    requires IsRun(s, steps) && Enabled(After(s, steps), step)
    ensures IsRun(s, steps + [step]) && After(s, steps + [step]) == Do(After(s, steps), step)
    decreases |steps|
  {
    if steps == [] {
      assert (steps + [step])[1..] == [];
    } else {
      RunExtends(Do(s, steps[0]), steps[1..], step);
      assert (steps + [step])[1..] == steps[1..] + [step];
    }
  }
}
