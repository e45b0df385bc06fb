/** The simulation driver as an object.

    Its coroutines give way where they access the device; `Others` may then run every other coroutine
    and the NIC.  Each method's contract says which steps of PacketPool it takes. */
module PacketDriver {
  import opened Wrappers
  import opened PtrArith
  import opened PacketPool

  /** What other coroutines and the NIC leave of a queue while its completion routine stands still: they
      post, fetch and complete, but consume and reclaim nothing. */
  predicate Still(q: Queue, q': Queue) {
    && q'.rx == q.rx && q'.cqHead == q.cqHead && q'.cqTail == q.cqTail && q'.taken == q.taken
    && q'.tail == q.tail && q'.clean == q.clean && q'.acked == q.acked && q'.Size() == q.Size()
    && q.done <= q'.done && q.fetched <= q'.fetched && q.posted <= q'.posted
    && (q.rx ==> q'.posted == q.posted)
  }

  /** The steps of the completion routine of queue `k`. */
  predicate IsOwn(step: Step, k: nat) {
    step.k == k && (step.Poll? || step.Ack? || step.Clean? || step.Refill?)
  }

  lemma {:induction false} PostManyElsewhere(s: State, i: nat, n: nat, k: nat)
    requires i < |s.rings| && k < |s.rings| && AllShaped(s.rings) && i != k
    ensures PostMany(s, i, n).rings[k] == s.rings[k]
    decreases n
  {
    if n > 0 {
      PostManyElsewhere(Post(s, i), i, n - 1, k);
    }
  }

  lemma {:induction false} ConsumeElsewhere(s: State, i: nat, j: nat, stop: nat, k: nat)
    requires i < |s.rings| && k < |s.rings| && AllShaped(s.rings) && i != k
    ensures Consume(s, i, j, stop).rings[k] == s.rings[k]
    decreases stop - j
  {
    if !s.failed && j < stop {
      ConsumeElsewhere(FreeDesc(s, i, IndexAt(s.rings[i], j)), i, j + 1, stop, k);
    }
  }

  /** Every step of others keeps the queue still. */
  lemma {:induction false} OthersKeepStill(s: State, step: Step, k: nat)
    requires Inv(s) && Enabled(s, step) && k < |s.rings| && !IsOwn(step, k)
    ensures Still(s.rings[k], Do(s, step).rings[k])
  {
    var i, q := step.k, s.rings[step.k];
    match step
    case Refill(_) => PostManyElsewhere(s, i, Missing(q), k);
    case Poll(_, found) =>
      var head := Follow(q.cqHead, Low16(found));
      ConsumeElsewhere(With(s, i, q.(cqHead := head)), i, q.cqTail, head, k);
    case _ =>
  }

  lemma {:induction false} StillOn(q: Queue, q1: Queue, q2: Queue)
    requires Still(q, q1) && Still(q1, q2)
    ensures Still(q, q2)
  {
    assert q.done <= q1.done <= q2.done && q.posted <= q1.posted <= q2.posted;
  }

  /** So does every run of others. */
  lemma {:induction false} OthersRunKeepsStill(s: State, steps: seq<Step>, k: nat)
    requires Inv(s) && IsRun(s, steps) && AlwaysRoom(s, steps) && k < |s.rings|
    requires forall i | 0 <= i < |steps| :: !IsOwn(steps[i], k)
    ensures |After(s, steps).rings| == |s.rings| && Still(s.rings[k], After(s, steps).rings[k])
    decreases |steps|
  {
    if steps != [] {
      var s1 := Do(s, steps[0]);
      OthersKeepStill(s, steps[0], k);
      StepKeeps(s, steps[0]);
      OthersRunKeepsStill(s1, steps[1..], k);
      StillOn(s.rings[k], s1.rings[k], After(s1, steps[1..]).rings[k]);
    }
  }

  class Driver {
    ghost const shapes: seq<Shape>
    var allocatedPackets: seq<Pkt>
    var freePackets: seq<Pkt>
    /** What the root complex will hand out next. */
    var nextRegion: Pkt
    /** The queues of all interfaces, with what the NIC holds of them. */
    var rings: seq<Queue>
    var failed: bool
    ghost var trace: seq<Step>

    ghost function Abstract(): State
      reads this
    {
      State(allocatedPackets, freePackets, nextRegion, rings, failed)
    }

    /** It has taken part in a run in which every start_xmit found room. */
    ghost predicate Valid()
      reads this
    {
      && AllSizes(shapes) && IsRun(Boot(shapes), trace) && AlwaysRoom(Boot(shapes), trace)
      && AllShaped(rings) && Abstract() == After(Boot(shapes), trace)
    }

    constructor (shapes: seq<Shape>)
      requires AllSizes(shapes)
      ensures Valid() && trace == [] && this.shapes == shapes
    {
      this.shapes := shapes;
      allocatedPackets, freePackets, nextRegion, failed := [], [], 0, false;
      rings, trace := NewQueues(shapes), [];
    }

    lemma {:induction false} Sound()
      requires Valid()
      ensures Inv(Abstract())
    {
      BootInv(shapes);
      RunKeeps(Boot(shapes), trace);
    }

    /** Add the step just taken to the run. */
    ghost method Record(step: Step, before: State)
      requires AllSizes(shapes) && IsRun(Boot(shapes), trace) && AlwaysRoom(Boot(shapes), trace)
      requires before == After(Boot(shapes), trace) && Enabled(before, step) && FindsRoom(before, step)
      requires Abstract() == Do(before, step)
      modifies this`trace
      ensures Valid() && trace == old(trace) + [step]
    {
      RunExtends(Boot(shapes), trace, step);
      trace := trace + [step];
    }

    /** Any run of the other coroutines and of the NIC. */
    method Others(k: nat)
      requires Valid() && k < |rings|
      modifies this
      ensures Valid() && old(trace) <= trace && |rings| == |old(rings)|
      ensures Still(old(rings)[k], rings[k])
      ensures old(failed) ==> Abstract() == old(Abstract())
    {
    }

    /** alloc_pkt */
    method AllocPkt() returns (pkt: Pkt)
      modifies this`allocatedPackets, this`freePackets, this`nextRegion
      ensures pkt == if old(freePackets) != [] then old(freePackets)[|old(freePackets)| - 1] else old(nextRegion)
      ensures if old(freePackets) != []
              then freePackets == old(freePackets)[..|old(freePackets)| - 1]
                   && allocatedPackets == old(allocatedPackets) && nextRegion == old(nextRegion)
              else freePackets == [] && allocatedPackets == old(allocatedPackets) + [pkt]
                   && nextRegion == old(nextRegion) + 1
    {
      if freePackets != [] {
        var n := |freePackets| - 1;
        pkt, freePackets := freePackets[n], freePackets[..n];
      } else {
        pkt, nextRegion := nextRegion, nextRegion + 1;
        allocatedPackets := allocatedPackets + [pkt];
      }
    }

    /** A buffer into the slot at the head. */
    method PostDesc(k: nat)
      requires k < |rings| && AllShaped(rings)
      modifies this`allocatedPackets, this`freePackets, this`nextRegion, this`rings
      ensures Abstract() == Post(old(Abstract()), k)
    {
      var pkt := AllocPkt();
      var q := rings[k];
      rings := rings[k := q.(info := q.info[q.HeadSlot() := Some(pkt)], posted := q.posted + [pkt])];
    }

    /** start_xmit up to its doorbell.  On a ring with room it takes its step; on an occupied slot the
        buffer there is lost. */
    method StartXmit(k: nat)
      requires Valid() && !failed && k < |rings| && !rings[k].rx
      modifies this
      ensures Abstract() == Post(old(Abstract()), k)
      ensures Partition(Abstract()) <==> old(rings)[k].info[old(rings)[k].HeadSlot()].None?
      ensures Partition(Abstract()) ==> Valid() && trace == old(trace) + [Xmit(k)]
      ensures old(rings)[k].Head() < old(rings)[k].clean + old(rings)[k].Size() ==> Valid()
    {
      Sound();
      HeadEmpty(rings[k]);
      ghost var before := Abstract();
      if rings[k].info[rings[k].HeadSlot()].None? {
        PostPartition(Abstract(), k);
      } else {
        var p := XmitLoses(Abstract(), k);
      }
      PostDesc(k);
      if Partition(Abstract()) {
        Record(Xmit(k), before);
      }
    }

    /** Write the head register, the next time the coroutine runs. */
    method WriteHeadPtr(k: nat, head: nat)
      requires Valid() && !failed && k < |rings| && rings[k].told <= head <= rings[k].Head()
      modifies this
      ensures Valid() && trace == old(trace) + [Doorbell(k, head)] && !failed
      ensures rings == old(rings)[k := old(rings)[k].(told := head)]
    {
      Sound();
      DoorbellInv(rings[k], head);
      ghost var before := Abstract();
      rings := rings[k := rings[k].(told := Follow(rings[k].told, Low16(head)))];
      Record(Doorbell(k, head), before);
    }

    /** free_desc and free_pkt; `ok` is false where they raise an exception. */
    method FreeDescAt(k: nat, index: nat) returns (ok: bool)
      requires k < |rings| && AllShaped(rings) && !failed
      modifies this`rings, this`freePackets, this`failed
      ensures Abstract() == FreeDesc(old(Abstract()), k, index) && ok == !failed
    {
      var q := rings[k];
      ok := index < q.Size() && q.info[index].Some?;
      if ok {
        var pkt := q.info[index].value;
        freePackets := freePackets + [pkt];
        rings := rings[k := q.(info := q.info[index := None], taken := q.taken + [pkt])];
      } else {
        failed := true;
      }
    }

    /** The loop over the completions found. */
    method ConsumeFound(k: nat, found: nat) returns (ok: bool)
      requires k < |rings| && AllShaped(rings) && !failed
      modifies this`rings, this`freePackets, this`failed
      ensures Abstract() == PollFound(old(Abstract()), k, found) && ok == !failed
    {
      ok := true;
      rings := rings[k := rings[k].(cqHead := Follow(rings[k].cqHead, Low16(found)))];
      var head, cqTailPtr: nat := rings[k].cqHead, rings[k].cqTail;
      ghost var s1 := Abstract();
      while cqTailPtr < head && ok
        invariant |rings| == |old(rings)| && AllShaped(rings) && ok == !failed
        invariant Consume(Abstract(), k, cqTailPtr, head) == Consume(s1, k, s1.rings[k].cqTail, head)
        decreases head - cqTailPtr
      {
        ok := FreeDescAt(k, IndexAt(rings[k], cqTailPtr));
        cqTailPtr := cqTailPtr + 1;
      }
      if ok {
        rings := rings[k := rings[k].(cqTail := head)];
      }
    }

    /** Skip empty slots up to the tail the NIC reported. */
    method CleanUp(k: nat, seen: nat)
      requires k < |rings| && AllShaped(rings)
      modifies this`rings
      ensures Abstract() == With(old(Abstract()), k, CleanSeen(old(rings)[k], seen))
    {
      var q := rings[k].(tail := Follow(rings[k].tail, Low16(seen)));
      var clean: nat := q.clean;
      while clean < q.tail && q.info[Slot(clean, q.Size())].None?
        invariant Skip(q, clean) == Skip(q, q.clean)
        decreases q.tail - clean
      {
        clean := clean + 1;
      }
      rings := rings[k := q.(clean := clean)];
    }

    /** refill_buffers up to its doorbell: all descriptors missing, if they are at least eight. */
    method RefillBuffers(k: nat)
      requires k < |rings| && AllShaped(rings)
      modifies this`allocatedPackets, this`freePackets, this`nextRegion, this`rings
      ensures Abstract() == PostMany(old(Abstract()), k, Missing(old(rings)[k]))
    {
      var missing := Missing(rings[k]);
      for n := 0 to missing
        invariant |rings| == |old(rings)| && AllShaped(rings) && failed == old(failed)
        invariant PostMany(Abstract(), k, missing - n) == PostMany(old(Abstract()), k, missing)
      {
        PostDesc(k);
      }
    }

    /** Read the head register, consume what it says and write the tail register. */
    method ConsumeAll(k: nat) returns (ok: bool)
      requires Valid() && !failed && k < |rings|
      modifies this
      ensures Valid() && ok == !failed && old(trace) <= trace && |rings| == |old(rings)|
      ensures ok ==>
                var q, q' := old(rings)[k], rings[k];
                && |q'.taken| == |q.done| && q.done <= q'.done && q.posted <= q'.posted
                && (q.rx ==> q'.posted == q.posted) && q.fetched <= q'.fetched
                && q'.rx == q.rx && q'.tail == q.tail && q'.clean == q.clean && q'.Size() == q.Size()
                && q'.acked == |q'.taken|
    {
      Sound();
      var found := |rings[k].done|;
      Others(k);
      if failed {
        return false;
      }
      ok := Poll(k, found);
      if !ok {
        return;
      }
      Others(k);
      if failed {
        return false;
      }
      AckTail(k);
    }

    /** What both completion routines do: consume the completions, then read the ring's tail and move
        the clean tail. */
    method Reclaim(k: nat) returns (ok: bool)
      requires Valid() && !failed && k < |rings|
      modifies this
      ensures Valid() && ok == !failed && old(trace) <= trace && |rings| == |old(rings)|
      ensures ok ==> Reclaimed(old(rings)[k], rings[k])
                     && (rings[k].rx ==> rings[k].posted == old(rings)[k].posted)
    {
      Sound();
      ok := ConsumeAll(k);
      if !ok {
        return;
      }
      Others(k);
      if failed {
        return false;
      }
      var seen := rings[k].fetched;
      Others(k);
      if failed {
        return false;
      }
      Sound();
      CleanTail(k, seen);
      Sound();
      TakenGrows(old(rings)[k], rings[k]);
      ok := true;
    }

    method Poll(k: nat, found: nat) returns (ok: bool)
      requires Valid() && !failed && k < |rings| && rings[k].cqHead <= found <= |rings[k].done|
      modifies this
      ensures Valid() && trace == old(trace) + [Step.Poll(k, found)] && |rings| == |old(rings)|
      ensures var q, q' := old(rings)[k], rings[k];
              && ok == !failed && (failed <==> OutOfRange(q.done, q.Size(), q.cqHead, found))
              && q' == q.(cqHead := found, cqTail := q'.cqTail, info := q'.info, taken := q'.taken)
              && q'.Size() == q.Size()
              && (ok ==> |q'.taken| == found == q'.cqTail)
    {
      Sound();
      PollKeeps(Abstract(), k, found);
      ghost var before := Abstract();
      ok := ConsumeFound(k, found);
      Record(Step.Poll(k, found), before);
    }

    method AckTail(k: nat)
      requires Valid() && !failed && k < |rings|
      modifies this
      ensures Valid() && trace == old(trace) + [Ack(k, old(rings)[k].cqTail)] && !failed
      ensures rings == old(rings)[k := old(rings)[k].(acked := old(rings)[k].cqTail)]
    {
      Sound();
      ghost var before := Abstract();
      var q := rings[k];
      AckInv(q, q.cqTail);
      rings := rings[k := q.(acked := Follow(q.acked, Low16(q.cqTail)))];
      Record(Ack(k, q.cqTail), before);
    }

    method CleanTail(k: nat, seen: nat)
      requires Valid() && !failed && k < |rings| && rings[k].tail <= seen <= rings[k].fetched
      modifies this
      ensures Valid() && trace == old(trace) + [Step.Clean(k, seen)] && !failed
      ensures rings == old(rings)[k := CleanSeen(old(rings)[k], seen)]
      ensures var q, q' := old(rings)[k], rings[k];
              && Stopped(q') && q'.tail <= seen
              && (q.rx || q.Head() <= q.clean + q.Size() ==> q'.tail == seen)
    {
      Sound();
      CleanInv(rings[k], seen);
      CleanStops(rings[k], seen);
      ghost var before := Abstract();
      CleanUp(k, seen);
      Record(Step.Clean(k, seen), before);
    }

    /** process_tx_cq; `ok` is false where an exception ends the simulation. */
    method ProcessTxCq(k: nat) returns (ok: bool)
      requires Valid() && !failed && k < |rings| && !rings[k].rx
      modifies this
      ensures Valid() && ok == !failed && old(trace) <= trace && |rings| == |old(rings)|
      ensures ok ==> Reclaimed(old(rings)[k], rings[k])
    {
      ok := Reclaim(k);
    }

    /** process_rx_cq: the same, then fill the ring up. */
    method ProcessRxCq(k: nat) returns (ok: bool)
      requires Valid() && !failed && k < |rings| && rings[k].rx
      modifies this
      ensures Valid() && ok == !failed && old(trace) <= trace && |rings| == |old(rings)|
      ensures ok ==> Reclaimed(old(rings)[k], rings[k])
                     && FilledUp(old(rings)[k].Head(), rings[k])
    {
      ok := Reclaim(k);
      if ok {
        ghost var q := rings[k];
        ok := RefillRing(k);
        if ok {
          StaysStopped(q, rings[k]);
        }
      }
    }

    /** Post what is missing and tell the NIC. */
    method RefillRing(k: nat) returns (ok: bool)
      requires Valid() && !failed && k < |rings| && rings[k].rx
      modifies this
      ensures Valid() && ok == !failed && old(trace) <= trace && |rings| == |old(rings)|
      ensures ok ==>
                var q, q' := old(rings)[k], rings[k];
                && q'.taken == q.taken && q'.tail == q.tail && q'.clean == q.clean && q.done <= q'.done
                && q.posted <= q'.posted && QueueInv(q)
                && q'.rx && q'.acked == q.acked && FilledUp(q.Head(), q')
    {
      Sound();
      ghost var before := Abstract();
      var missing := Missing(rings[k]);
      PostManyKeeps(Abstract(), k, missing);
      PostManySame(Abstract(), k, missing);
      RefillBuffers(k);
      Record(Refill(k), before);
      ok := true;
      if missing > 0 {
        var head := rings[k].Head();
        Others(k);
        if failed {
          return false;
        }
        Sound();
        WriteHeadPtr(k, head);
      }
    }
  }

  /** The clean tail is at the tail, at a descriptor that is not completed, or at one whose slot is in use
      again. */
  predicate Stopped(q: Queue) {
    q.clean == q.tail || !Freed(q, q.clean) || q.clean < Oldest(q)
  }

  /** The ring was filled up from `head` on, and the NIC told of it, unless fewer than eight descriptors were
      missing. */
  predicate FilledUp(head: nat, q: Queue) {
    var missing := q.clean + q.Size() - head;
    if missing < 8 then q.Head() == head else q.Head() == head + missing == q.told
  }

  /** All completions that were there have been consumed, the NIC has been told so, and the slots are
      reclaimed. */
  predicate Reclaimed(q: Queue, q': Queue) {
    && |q'.taken| == |q.done| == q'.acked && q.taken <= q'.taken && q.posted <= q'.posted
    && q'.rx == q.rx && Stopped(q')
    && (q.rx || q'.Head() <= q.clean + q.Size() ==> q'.tail >= q.fetched)
  }

  lemma {:induction false} CleanStops(q: Queue, seen: nat)
    requires QueueInv(q) && q.tail <= seen <= q.fetched
    ensures Stopped(CleanSeen(q, seen))
  {
    var q', q1 := CleanSeen(q, seen), q.(tail := Follow(q.tail, Low16(seen)));
    FollowBounds(q.tail, seen);
    SameSlots(q, q1);
    SkipExact(q1, q1.clean);
    CleanInv(q, seen);
    if q'.clean != q'.tail && q'.clean >= Oldest(q') {
      assert SlotHolds(q', q'.clean);
    }
  }

  lemma {:induction false} TakenGrows(q: Queue, q': Queue)
    requires Returned(q) && Returned(q') && q.done <= q'.done && q.posted <= q'.posted
    requires |q.taken| <= |q'.taken|
    ensures q.taken <= q'.taken
  {
    forall j | 0 <= j < |q.taken|
      ensures q.taken[j] == q'.taken[j]
    {
      assert q.taken[j] == q.posted[q.done[j]] && q'.taken[j] == q'.posted[q'.done[j]];
    }
  }

  lemma {:induction false} StaysStopped(q: Queue, q': Queue)
    requires QueueInv(q) && q.rx && Stopped(q)
    requires q'.taken == q.taken && q'.tail == q.tail && q'.clean == q.clean && q.done <= q'.done
    ensures Stopped(q')
  {
    assert q'.done[..|q.taken|] == q.done[..|q.taken|];
  }

  lemma {:induction false} PostManySame(s: State, k: nat, n: nat)
    requires k < |s.rings| && AllShaped(s.rings)
    ensures var q, q' := s.rings[k], PostMany(s, k, n).rings[k];
            && q' == q.(info := q'.info, posted := q'.posted) && q.posted <= q'.posted
            && |q'.info| == |q.info| && q'.Head() == q.Head() + n
    decreases n
  {
    if n > 0 {
      PostManySame(Post(s, k), k, n - 1);
    }
  }
}
