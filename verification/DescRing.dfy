/** A descriptor ring shared by the driver and the NIC, and the completion queue that reports on it.

    One state holds the driver's ring, its completion ring, the NIC and the local variables of the
    poll routine.  Every step is one atomic access of one of them, so that other threads can be
    placed between any two steps.  All decisions are taken on the wrapping 32-bit pointers and
    16-bit registers; the counters beside them never wrap and are history only. */
module DescRing {
  import opened Wrappers
  import opened PtrArith

  /** `info` is tx_info or rx_info; `posted[d]` is the item placed in the d-th descriptor ever. */
  datatype Ring<T> = Ring(size: nat, info: seq<Option<T>>,
                          headPtr: u32, tailPtr: u32, cleanPtr: u32,
                          tail: nat, clean: nat, posted: seq<T>)

  datatype Cq = Cq(size: nat, buf: seq<u16>, headPtr: u32, tailPtr: u32, head: nat, tail: nat)

  /** `told` and `cqTail` are what the driver wrote last; `done` lists the completed descriptors. */
  datatype Nic = Nic(told: nat, tail: nat, cqTail: nat, done: seq<nat>)

  /** Where the poll routine stands, with the pointers it keeps in local variables. */
  datatype Poll =
    | Idle
    | Consuming(cqPtr: u32, budget: nat)
    | Draining
    | Scanning(cleanPtr: u32)
    | Released

  /** `freed` lists the descriptors whose completion the poll routine has handled and `taken` what it
      found in the slots it emptied; `scanned` counts what its local clean pointer stands for. */
  datatype Queue<T> = Queue(ring: Ring<T>, cq: Cq, nic: Nic, poll: Poll, freed: seq<nat>, taken: seq<Option<T>>,
                            scanned: nat)

  function Head<T>(q: Queue<T>): nat { |q.ring.posted| }

  predicate Shaped<T>(q: Queue<T>) {
    && ValidSize(q.ring.size) && |q.ring.info| == q.ring.size
    && ValidSize(q.cq.size) && |q.cq.buf| == q.cq.size
  }

  // ----- steps of the NIC -----

  /** The NIC may fetch descriptors up to the head it was told. */
  predicate CanFetch<T>(q: Queue<T>, upTo: nat) {
    q.nic.tail <= upTo <= q.nic.told
  }

  function Fetch<T>(q: Queue<T>, upTo: nat): Queue<T>
    requires CanFetch(q, upTo)
  {
    q.(nic := q.nic.(tail := upTo))
  }

  /** It completes a descriptor it was told of at most once, in any order, and leaves alone a
      completion queue without room. */
  predicate CanComplete<T>(q: Queue<T>, d: nat) {
    d < q.nic.told && d !in q.nic.done && |q.nic.done| < q.nic.cqTail + q.cq.size
  }

  function Complete<T>(q: Queue<T>, d: nat): Queue<T>
    requires Shaped(q) && CanComplete(q, d)
  {
    q.(nic := q.nic.(done := q.nic.done + [d]),
       cq := q.cq.(buf := q.cq.buf[Slot(|q.nic.done|, q.cq.size) := Low16(d)]))
  }

  // ----- steps of the driver that post work -----

  /** Fill the slot at the head; the descriptor is not yet part of the ring. */
  function Place<T>(q: Queue<T>, item: Option<T>): Queue<T>
    requires Shaped(q)
  {
    q.(ring := q.ring.(info := q.ring.info[Slot(q.ring.headPtr, q.ring.size) := item]))
  }

  function Enqueue<T>(q: Queue<T>, item: T): Queue<T> {
    q.(ring := q.ring.(headPtr := Inc32(q.ring.headPtr), posted := q.ring.posted + [item]))
  }

  /** Write the head register. */
  function RingDoorbell<T>(q: Queue<T>): Queue<T> {
    q.(nic := q.nic.(told := Follow(q.nic.told, Low16(q.ring.headPtr))))
  }

  // ----- steps of the poll routine -----

  function StartPoll<T>(q: Queue<T>, budget: nat): Queue<T>
    requires q.poll.Idle?
  {
    q.(cq := q.cq.(headPtr := ReadPtr(q.cq.headPtr, Low16(|q.nic.done|)), head := |q.nic.done|),
       poll := Consuming(q.cq.tailPtr, budget))
  }

  /** The slot that the completion under the local pointer names. */
  function NamedSlot<T>(q: Queue<T>): nat
    requires Shaped(q) && q.poll.Consuming?
  {
    Slot(q.cq.buf[Slot(q.poll.cqPtr, q.cq.size)], q.ring.size)
  }

  predicate CanConsume<T>(q: Queue<T>) {
    q.poll.Consuming? && q.cq.headPtr != q.poll.cqPtr && q.poll.budget > 0
  }

  function Consume<T>(q: Queue<T>): Queue<T>
    requires Shaped(q) && CanConsume(q) && |q.freed| < |q.nic.done|
  {
    q.(ring := q.ring.(info := q.ring.info[NamedSlot(q) := None]),
       poll := Consuming(Inc32(q.poll.cqPtr), q.poll.budget - 1),
       freed := q.freed + [q.nic.done[|q.freed|]],
       taken := q.taken + [q.ring.info[NamedSlot(q)]])
  }

  /** The loop is left when nothing is pending, the budget is used up, or it gives up. */
  predicate CanPublish<T>(q: Queue<T>, giveUp: bool) {
    q.poll.Consuming? && (giveUp || q.cq.headPtr == q.poll.cqPtr || q.poll.budget == 0)
  }

  function Publish<T>(q: Queue<T>): Queue<T>
    requires q.poll.Consuming?
  {
    q.(cq := q.cq.(tailPtr := q.poll.cqPtr, tail := |q.freed|),
       nic := q.nic.(cqTail := Follow(q.nic.cqTail, Low16(q.poll.cqPtr))),
       poll := Draining)
  }

  function ReadTail<T>(q: Queue<T>): Queue<T>
    requires q.poll.Draining?
  {
    q.(ring := q.ring.(tailPtr := ReadPtr(q.ring.tailPtr, Low16(q.nic.tail)), tail := q.nic.tail),
       poll := Scanning(q.ring.cleanPtr),
       scanned := q.ring.clean)
  }

  predicate CanScan<T>(q: Queue<T>)
    requires Shaped(q)
  {
    && q.poll.Scanning? && q.poll.cleanPtr != q.ring.tailPtr
    && q.ring.info[Slot(q.poll.cleanPtr, q.ring.size)].None?
  }

  function Scan<T>(q: Queue<T>): Queue<T>
    requires q.poll.Scanning?
  {
    q.(poll := Scanning(Inc32(q.poll.cleanPtr)), scanned := q.scanned + 1)
  }

  predicate CanRelease<T>(q: Queue<T>)
    requires Shaped(q)
  {
    q.poll.Scanning? && !CanScan(q)
  }

  /** WRITE_ONCE(ring->clean_tail_ptr, ...) */
  function Release<T>(q: Queue<T>): Queue<T>
    requires q.poll.Scanning?
  {
    q.(ring := q.ring.(cleanPtr := q.poll.cleanPtr, clean := q.scanned), poll := Released)
  }

  // ----- the invariant -----

  /** What the slot of descriptor `d` holds.  `mapped` is an item placed but not yet enqueued. */
  function Expected<T>(posted: seq<T>, freed: seq<nat>, mapped: Option<T>, d: nat): Option<T> {
    if d == |posted| then mapped
    else if d > |posted| || d in freed then None
    else Some(posted[d])
  }

  ghost predicate Pointers<T>(q: Queue<T>) {
    && q.ring.headPtr == Low32(Head(q))
    && q.ring.tailPtr == Low32(q.ring.tail)
    && q.ring.cleanPtr == Low32(q.ring.clean)
    && q.cq.headPtr == Low32(q.cq.head)
    && q.cq.tailPtr == Low32(q.cq.tail)
  }

  ghost predicate Ordered<T>(q: Queue<T>) {
    && q.ring.clean <= q.ring.tail <= q.nic.tail <= q.nic.told <= Head(q) <= q.ring.clean + q.ring.size
    && q.nic.cqTail == q.cq.tail <= |q.freed| <= q.cq.head <= |q.nic.done| <= q.nic.cqTail + q.cq.size
  }

  ghost predicate NicSane<T>(q: Queue<T>)
    requires Shaped(q)
  {
    && q.freed <= q.nic.done
    && (forall i | 0 <= i < |q.nic.done| :: q.nic.done[i] < q.nic.told)
    && (forall i, j | 0 <= i < j < |q.nic.done| :: q.nic.done[i] != q.nic.done[j])
    && (forall k | q.nic.cqTail <= k < |q.nic.done| ::
          q.cq.buf[Slot(k, q.cq.size)] == Low16(q.nic.done[k]))
  }

  ghost predicate PollSane<T>(q: Queue<T>)
  {
    match q.poll
    case Consuming(p, _) => p == Low32(|q.freed|)
    case Scanning(p) =>
      && |q.freed| == q.cq.tail
      && p == Low32(q.scanned) && q.ring.clean <= q.scanned <= q.ring.tail
      && (forall d | q.ring.clean <= d < q.scanned :: d in q.freed)
    case _ => |q.freed| == q.cq.tail
  }

  /** Slots hold exactly the posted and not yet freed items of [clean, head). */
  ghost predicate Slots<T>(q: Queue<T>, mapped: Option<T>)
    requires Shaped(q)
  {
    && (mapped.Some? ==> Head(q) < q.ring.clean + q.ring.size)
    && (forall d | 0 <= d < q.ring.clean :: d in q.freed)
    && (forall d | q.ring.clean <= d < q.ring.clean + q.ring.size ::
          q.ring.info[Slot(d, q.ring.size)] == Expected(q.ring.posted, q.freed, mapped, d))
  }

  /** Every handled completion yielded the very item posted with that descriptor. */
  ghost predicate Returned<T>(q: Queue<T>) {
    && |q.taken| == |q.freed|
    && (forall k | 0 <= k < |q.freed| ::
          q.freed[k] < |q.ring.posted| && q.taken[k] == Some(q.ring.posted[q.freed[k]]))
  }

  ghost predicate Inv<T>(q: Queue<T>, mapped: Option<T>) {
    Shaped(q) && Pointers(q) && Ordered(q) && NicSane(q) && PollSane(q) && Slots(q, mapped)
    && Returned(q)
  }

  function Fresh<T>(size: nat, cqSize: nat): Queue<T> {
    Queue(Ring(size, seq(size, _ => None), 0, 0, 0, 0, 0, []),
          Cq(cqSize, seq(cqSize, _ => 0), 0, 0, 0, 0), Nic(0, 0, 0, []), Idle, [], [], 0)
  }

  lemma {:induction false} FreshInv<T>(size: nat, cqSize: nat)
    requires ValidSize(size) && ValidSize(cqSize)
    ensures Inv(Fresh<T>(size, cqSize), None)
  {
  }

  // ----- every step keeps the invariant -----

  lemma {:induction false} FetchInv<T>(q: Queue<T>, mapped: Option<T>, upTo: nat)
    requires Inv(q, mapped) && CanFetch(q, upTo)
    ensures Inv(Fetch(q, upTo), mapped)
  {
  }

  lemma {:induction false} CompleteInv<T>(q: Queue<T>, mapped: Option<T>, d: nat)
    requires Inv(q, mapped) && CanComplete(q, d)
    ensures Inv(Complete(q, d), mapped)
  {
    var q', n := Complete(q, d), |q.nic.done|;
    forall k | q'.nic.cqTail <= k < |q'.nic.done|
      ensures q'.cq.buf[Slot(k, q.cq.size)] == Low16(q'.nic.done[k])
    {
      if k < n && Slot(k, q.cq.size) == Slot(n, q.cq.size) {
        SlotsDistinct(k, n, q.cq.size);
      }
    }
  }

  /** The slot at the head lies outside [clean, head) as long as the ring has room. */
  lemma {:induction false} PlaceInv<T>(q: Queue<T>, mapped: Option<T>, item: Option<T>)
    requires Inv(q, mapped) && Head(q) < q.ring.clean + q.ring.size
    ensures q.ring.info[Slot(q.ring.headPtr, q.ring.size)] == mapped
    ensures Inv(Place(q, item), item)
  {
    var q', h := Place(q, item), Head(q);
    PtrSlot(h, q.ring.size);
    forall d | q.ring.clean <= d < q.ring.clean + q.ring.size
      ensures q'.ring.info[Slot(d, q.ring.size)] == Expected(q'.ring.posted, q'.freed, item, d)
    {
      if Slot(d, q.ring.size) == Slot(h, q.ring.size) {
        SlotsDistinct(d, h, q.ring.size);
      }
    }
  }

  lemma {:induction false} EnqueueInv<T>(q: Queue<T>, item: T)
    requires Inv(q, Some(item))
    ensures Inv(Enqueue(q, item), None)
  {
    var q', h := Enqueue(q, item), Head(q);
    IncExact(h);
    assert h !in q.freed;
    forall d | q.ring.clean <= d < q.ring.clean + q.ring.size
      ensures q'.ring.info[Slot(d, q.ring.size)] == Expected(q'.ring.posted, q'.freed, None, d)
    {
      assert q.ring.info[Slot(d, q.ring.size)] == Expected(q.ring.posted, q.freed, Some(item), d);
    }
  }

  lemma {:induction false} DoorbellInv<T>(q: Queue<T>, mapped: Option<T>)
    requires Inv(q, mapped)
    ensures RingDoorbell(q).nic.told == Head(q)
    ensures Inv(RingDoorbell(q), mapped)
  {
    FollowExact(q.nic.told, Head(q));
  }

  lemma {:induction false} StartPollInv<T>(q: Queue<T>, mapped: Option<T>, budget: nat)
    requires Inv(q, mapped) && q.poll.Idle?
    ensures Inv(StartPoll(q, budget), mapped)
  {
    ReadPtrExact(q.cq.head, |q.nic.done|);
  }

  /** The completion names a slot that still holds the item posted with that descriptor. */
  lemma {:induction false} ConsumeHits<T>(q: Queue<T>, mapped: Option<T>)
    requires Inv(q, mapped) && CanConsume(q)
    ensures |q.freed| < |q.nic.done|
    ensures var d := q.nic.done[|q.freed|];
            && q.ring.clean <= d < Head(q) && d !in q.freed
            && NamedSlot(q) == Slot(d, q.ring.size)
            && q.ring.info[NamedSlot(q)] == Some(q.ring.posted[d])
  {
    var d := q.nic.done[|q.freed|];
    PtrSlot(|q.freed|, q.cq.size);
    DistanceExact(q.cq.head, |q.freed|);
    assert q.cq.buf[Slot(|q.freed|, q.cq.size)] == Low16(d);
    PtrSlot(d, q.ring.size);
    assert q.ring.info[Slot(d, q.ring.size)] == Expected(q.ring.posted, q.freed, mapped, d);
  }

  lemma {:induction false} ConsumeSlots<T>(q: Queue<T>, mapped: Option<T>)
    requires Inv(q, mapped) && CanConsume(q)
    ensures Slots(Consume(q), mapped)
  {
    ConsumeHits(q, mapped);
    var q', d := Consume(q), q.nic.done[|q.freed|];
    forall e | q.ring.clean <= e < q.ring.clean + q.ring.size
      ensures q'.ring.info[Slot(e, q.ring.size)] == Expected(q'.ring.posted, q'.freed, mapped, e)
    {
      assert q.ring.info[Slot(e, q.ring.size)] == Expected(q.ring.posted, q.freed, mapped, e);
      if Slot(e, q.ring.size) == Slot(d, q.ring.size) {
        SlotsDistinct(e, d, q.ring.size);
      }
    }
  }

  lemma {:induction false} ConsumeInv<T>(q: Queue<T>, mapped: Option<T>)
    requires Inv(q, mapped) && CanConsume(q)
    ensures Inv(Consume(q), mapped)
  {
    ConsumeHits(q, mapped);
    IncExact(|q.freed|);
    ConsumeSlots(q, mapped);
  }

  lemma {:induction false} PublishInv<T>(q: Queue<T>, mapped: Option<T>)
    requires Inv(q, mapped) && q.poll.Consuming?
    ensures Inv(Publish(q), mapped)
  {
    FollowExact(q.nic.cqTail, |q.freed|);
  }

  lemma {:induction false} ReadTailInv<T>(q: Queue<T>, mapped: Option<T>)
    requires Inv(q, mapped) && q.poll.Draining?
    ensures Inv(ReadTail(q), mapped)
  {
    ReadPtrExact(q.ring.tail, q.nic.tail);
  }

  lemma {:induction false} ScanInv<T>(q: Queue<T>, mapped: Option<T>)
    requires Inv(q, mapped) && CanScan(q)
    ensures Inv(Scan(q), mapped)
  {
    PtrSlot(q.scanned, q.ring.size);
    DistanceExact(q.ring.tail, q.scanned);
    IncExact(q.scanned);
    assert q.ring.info[Slot(q.scanned, q.ring.size)] == Expected(q.ring.posted, q.freed, mapped, q.scanned);
  }

  lemma {:induction false} ReleaseInv<T>(q: Queue<T>, mapped: Option<T>)
    requires Inv(q, mapped) && q.poll.Scanning?
    ensures Inv(Release(q), mapped)
  {
    var q', size := Release(q), q.ring.size;
    forall d | q'.ring.clean <= d < q'.ring.clean + size
      ensures q'.ring.info[Slot(d, size)] == Expected(q'.ring.posted, q'.freed, mapped, d)
    {
      if d < q.ring.clean + size {
        assert q.ring.info[Slot(d, size)] == Expected(q.ring.posted, q.freed, mapped, d);
      } else {
        assert q.ring.info[Slot(d - size, size)] == Expected(q.ring.posted, q.freed, mapped, d - size);
      }
    }
  }
}
