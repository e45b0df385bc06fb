/** The receive queue: process_rx_cq hands pages up and refill_rx_buffers posts fresh ones, while
    the NIC fills and completes posted pages in any order. */
module RxQueue {
  import opened Wrappers
  import opened PtrArith
  import opened DescRing

  type Page = nat

  /** What happens when prepare_rx_desc allocates and maps a page. */
  datatype Alloc = Mapped | NoMemory | MapFailed

  /** The loop of refill_rx_buffers, which runs at activation and after every poll. */
  datatype Refill = Resting | Filling(missing: nat)

  /** Pages are numbered in the order of their allocation; `returned` went back to the allocator
      because mapping failed, and `clashes` counts refills that met a page not yet processed. */
  datatype RxState = Rx(q: Queue<Page>, refill: Refill, nextPage: nat, returned: seq<Page>,
                        clashes: nat)

  datatype Step =
    | NicFetch(upTo: nat)
    | NicComplete(d: nat)
    | PollStart(budget: nat)
    | PollConsume
    | PollPublish(giveUp: bool)
    | PollReadTail
    | PollScan
    | PollRelease
    | RefillStart
    | RefillSlot(alloc: Alloc)
    | RefillEnd

  function Missing(s: RxState): u32 {
    Low32(s.q.ring.size - Sub32(s.q.ring.headPtr, s.q.ring.cleanPtr))
  }

  predicate Enabled(s: RxState, step: Step) {
    && Shaped(s.q)
    && match step
       case NicFetch(upTo) => CanFetch(s.q, upTo)
       case NicComplete(d) => CanComplete(s.q, d)
       case PollStart(_) => s.q.poll.Idle?
       case PollConsume => CanConsume(s.q) && |s.q.freed| < |s.q.nic.done|
       case PollPublish(giveUp) => CanPublish(s.q, giveUp)
       case PollReadTail => s.q.poll.Draining?
       case PollScan => CanScan(s.q)
       case PollRelease => CanRelease(s.q)
       case RefillStart => s.q.poll.Released? && s.refill.Resting?
       case RefillSlot(_) => s.refill.Filling? && s.refill.missing > 0
       case RefillEnd => s.refill.Filling?
  }

  function HeadSlot(s: RxState): Option<Page>
    requires Shaped(s.q)
  {
    s.q.ring.info[Slot(s.q.ring.headPtr, s.q.ring.size)]
  }

  /** mqnic_prepare_rx_desc and the increment of the head; a failure ends the loop. */
  function FillSlot(s: RxState, alloc: Alloc): RxState
    requires Shaped(s.q) && s.refill.Filling? && s.refill.missing > 0
  {
    var stop := Filling(0);
    if HeadSlot(s).Some? then
      s.(refill := stop, clashes := s.clashes + 1)
    else match alloc
      case NoMemory => s.(refill := stop)
      case MapFailed => s.(refill := stop, nextPage := s.nextPage + 1,
                           returned := s.returned + [s.nextPage])
      case Mapped => s.(q := Enqueue(Place(s.q, Some(s.nextPage)), s.nextPage),
                        refill := Filling(s.refill.missing - 1), nextPage := s.nextPage + 1)
  }

  function Do(s: RxState, step: Step): RxState
    requires Enabled(s, step)
  {
    match step
    case NicFetch(upTo) => s.(q := Fetch(s.q, upTo))
    case NicComplete(d) => s.(q := Complete(s.q, d))
    case PollStart(budget) => s.(q := StartPoll(s.q, budget))
    case PollConsume => s.(q := Consume(s.q))
    case PollPublish(_) => s.(q := Publish(s.q))
    case PollReadTail => s.(q := ReadTail(s.q))
    case PollScan => s.(q := Scan(s.q))
    case PollRelease => s.(q := Release(s.q))
    case RefillStart =>
      if Missing(s) < 8 then s.(q := s.q.(poll := Idle)) else s.(refill := Filling(Missing(s)))
    case RefillSlot(alloc) => FillSlot(s, alloc)
    case RefillEnd => s.(q := RingDoorbell(s.q).(poll := Idle), refill := Resting)
  }

  /** Every page allocated so far was either posted, in this order, or returned. */
  ghost predicate Owned(s: RxState) {
    var posted := s.q.ring.posted;
    && (forall i | 0 <= i < |posted| :: posted[i] < s.nextPage)
    && (forall i, j | 0 <= i < j < |posted| :: posted[i] < posted[j])
    && (forall p | p in s.returned :: p < s.nextPage && p !in posted)
    && (forall p | 0 <= p < s.nextPage :: p in posted || p in s.returned)
  }

  ghost predicate RxInv(s: RxState) {
    && Inv(s.q, None)
    && Owned(s)
    && s.clashes == 0
    && (s.refill.Filling? ==>
          s.q.poll.Released? && s.refill.missing + Head(s.q) <= s.q.ring.clean + s.q.ring.size)
  }

  /** Activation refills an empty ring before the first poll. */
  function Activated(size: nat, cqSize: nat): RxState {
    Rx(Fresh(size, cqSize).(poll := Released), Resting, 0, [], 0)
  }

  /** What the loop of refill_rx_buffers counts down is the number of slots not in use. */
  lemma {:induction false} MissingExact(s: RxState)
    requires RxInv(s)
    ensures Missing(s) == s.q.ring.size - (Head(s.q) - s.q.ring.clean)
  {
    DistanceExact(Head(s.q), s.q.ring.clean);
  }

  /** A refill never meets a page that is not yet processed. */
  lemma {:induction false} RefillMeetsEmptySlot(s: RxState)
    requires RxInv(s) && s.refill.Filling? && s.refill.missing > 0
    ensures HeadSlot(s) == None
  {
    PlaceInv(s.q, None, None);
  }

  lemma {:induction false} FillSlotKeeps(s: RxState, alloc: Alloc)
    requires RxInv(s) && s.refill.Filling? && s.refill.missing > 0
    ensures RxInv(FillSlot(s, alloc))
  {
    RefillMeetsEmptySlot(s);
    if alloc.Mapped? {
      var placed := Place(s.q, Some(s.nextPage));
      PlaceInv(s.q, None, Some(s.nextPage));
      EnqueueInv(placed, s.nextPage);
      assert Enqueue(placed, s.nextPage).ring.posted == s.q.ring.posted + [s.nextPage];
    }
  }

  lemma {:induction false} PollKept(s: RxState, step: Step)
    requires Inv(s.q, None) && Enabled(s, step)
    requires step.PollStart? || step.PollConsume? || step.PollPublish?
    ensures Inv(Do(s, step).q, None)
  {
    match step
    case PollStart(budget) => StartPollInv(s.q, None, budget);
    case PollConsume => ConsumeInv(s.q, None);
    case PollPublish(_) => PublishInv(s.q, None);
  }

  lemma {:induction false} ScanKept(s: RxState, step: Step)
    requires Inv(s.q, None) && Enabled(s, step)
    requires step.PollReadTail? || step.PollScan? || step.PollRelease?
    ensures Inv(Do(s, step).q, None)
  {
    match step
    case PollReadTail => ReadTailInv(s.q, None);
    case PollScan => ScanInv(s.q, None);
    case PollRelease => ReleaseInv(s.q, None);
  }

  lemma {:induction false} OtherKept(s: RxState, step: Step)
    requires Inv(s.q, None) && Enabled(s, step)
    requires step.NicFetch? || step.NicComplete? || step.RefillStart? || step.RefillEnd?
    requires step.RefillEnd? ==> s.q.poll.Released?
    ensures Inv(Do(s, step).q, None)
  {
    match step
    case NicFetch(upTo) => FetchInv(s.q, None, upTo);
    case NicComplete(d) => CompleteInv(s.q, None, d);
    case RefillStart =>
    case RefillEnd => DoorbellInv(s.q, None);
  }

  lemma {:induction false} StepKeeps(s: RxState, step: Step)
    requires RxInv(s) && Enabled(s, step)
    ensures RxInv(Do(s, step))
  {
    if step.RefillSlot? {
      FillSlotKeeps(s, step.alloc);
    } else if step.PollStart? || step.PollConsume? || step.PollPublish? {
      PollKept(s, step);
    } else if step.PollReadTail? || step.PollScan? || step.PollRelease? {
      ScanKept(s, step);
    } else {
      OtherKept(s, step);
      MissingExact(s);
    }
  }

  // ----- runs -----

  ghost predicate IsRun(s: RxState, steps: seq<Step>)
    decreases |steps|
  {
    steps == [] || (Enabled(s, steps[0]) && IsRun(Do(s, steps[0]), steps[1..]))
  }

  ghost function After(s: RxState, steps: seq<Step>): (s': RxState)
    requires IsRun(s, steps)
    ensures s'.q.ring.size == s.q.ring.size && |s'.q.ring.info| == |s.q.ring.info|
    decreases |steps|
  {
    if steps == [] then s else After(Do(s, steps[0]), steps[1..])
  }

  lemma {:induction false} RunKeeps(s: RxState, steps: seq<Step>)
    requires RxInv(s) && IsRun(s, steps)
    ensures RxInv(After(s, steps))
    decreases |steps|
  {
    if steps != [] {
      StepKeeps(s, steps[0]);
      RunKeeps(Do(s, steps[0]), steps[1..]);
    }
  }

  lemma {:induction false} ActivatedInv(size: nat, cqSize: nat)
    requires ValidSize(size) && ValidSize(cqSize)
    ensures RxInv(Activated(size, cqSize))
  {
    FreshInv<Page>(size, cqSize);
  }

  /** In every run, with completions in any order: no refill clashes with an unprocessed page, at
      most `size` slots are in use, and slots hold pages only inside [clean, head). */
  lemma {:induction false} SlotsAndBounds(size: nat, cqSize: nat, steps: seq<Step>)
    requires ValidSize(size) && ValidSize(cqSize) && IsRun(Activated(size, cqSize), steps)
    ensures var s := After(Activated(size, cqSize), steps);
            && s.clashes == 0
            && s.q.ring.clean <= Head(s.q) <= s.q.ring.clean + size
            && (forall d | Head(s.q) <= d < s.q.ring.clean + size ::
                  s.q.ring.info[Slot(d, size)] == None)
  {
    ActivatedInv(size, cqSize);
    RunKeeps(Activated(size, cqSize), steps);
  }

  /** Where each page ever allocated is: returned to the allocator, in exactly one slot, or handed
      up exactly once. */
  lemma {:induction false} PagesConserved(size: nat, cqSize: nat, steps: seq<Step>)
    requires ValidSize(size) && ValidSize(cqSize) && IsRun(Activated(size, cqSize), steps)
    ensures var s := After(Activated(size, cqSize), steps); var q := s.q;
            && (forall k | 0 <= k < |q.taken| :: q.taken[k].Some?)
            && (forall j, k | 0 <= j < k < |q.taken| :: q.taken[j] != q.taken[k])
            && (forall p | 0 <= p < s.nextPage && p !in s.returned ::
                  Some(p) in q.taken || exists i :: 0 <= i < size && q.ring.info[i] == Some(p))
            && (forall i, p | 0 <= i < size && q.ring.info[i] == Some(p) ::
                  p < s.nextPage && p !in s.returned && Some(p) !in q.taken)
            && (forall i, j | 0 <= i < j < size && q.ring.info[i].Some? ::
                  q.ring.info[i] != q.ring.info[j])
  {
    ActivatedInv(size, cqSize);
    RunKeeps(Activated(size, cqSize), steps);
    var s := After(Activated(size, cqSize), steps);
    TakenDistinct(s);
    forall p | 0 <= p < s.nextPage && p !in s.returned
      ensures Some(p) in s.q.taken
              || exists i :: 0 <= i < size && s.q.ring.info[i] == Some(p)
    {
      PageSomewhere(s, p);
    }
    forall i, p | 0 <= i < size && s.q.ring.info[i] == Some(p)
      ensures p < s.nextPage && p !in s.returned && Some(p) !in s.q.taken
    {
      var d := HolderOf(s, i);
    }
    forall i, j | 0 <= i < j < size && s.q.ring.info[i].Some?
      ensures s.q.ring.info[i] != s.q.ring.info[j]
    {
      var d := HolderOf(s, i);
      if s.q.ring.info[i] == s.q.ring.info[j] {
        var e := HolderOf(s, j);
      }
    }
  }

  lemma {:induction false} TakenDistinct(s: RxState)
    requires RxInv(s)
    ensures forall j, k | 0 <= j < k < |s.q.taken| :: s.q.taken[j] != s.q.taken[k]
  {
    var q := s.q;
    forall j, k | 0 <= j < k < |q.taken|
      ensures q.taken[j] != q.taken[k]
    {
      assert q.freed[j] == q.nic.done[j] && q.freed[k] == q.nic.done[k];
    }
  }

  lemma {:induction false} PageSomewhere(s: RxState, p: Page)
    requires RxInv(s) && p < s.nextPage && p !in s.returned
    ensures Some(p) in s.q.taken
            || exists i :: 0 <= i < s.q.ring.size && s.q.ring.info[i] == Some(p)
  {
    var q := s.q;
    var d :| 0 <= d < |q.ring.posted| && q.ring.posted[d] == p;
    if d in q.freed {
      var k :| 0 <= k < |q.freed| && q.freed[k] == d;
      assert q.taken[k] == Some(p);
    } else {
      assert q.ring.info[Slot(d, q.ring.size)] == Some(p);
    }
  }

  /** The descriptor whose page an occupied slot holds. */
  lemma {:induction false} HolderOf(s: RxState, i: nat) returns (d: nat)
    requires RxInv(s) && i < s.q.ring.size && s.q.ring.info[i].Some?
    ensures s.q.ring.clean <= d < Head(s.q) && Slot(d, s.q.ring.size) == i && d !in s.q.freed
    ensures s.q.ring.info[i] == Some(s.q.ring.posted[d])
    ensures Some(s.q.ring.posted[d]) !in s.q.taken
  {
    var q := s.q;
    d := SlotInWindow(q.ring.clean, q.ring.size, i);
    assert q.ring.info[Slot(d, q.ring.size)] == Expected(q.ring.posted, q.freed, None, d);
    forall k | 0 <= k < |q.taken|
      ensures q.taken[k] != Some(q.ring.posted[d])
    {
      assert q.freed[k] != d;
    }
  }

  /** Each slot belongs to exactly one descriptor of a window as long as the ring. */
  lemma {:induction false} SlotInWindow(start: nat, size: nat, i: nat) returns (d: nat)
    requires i < size
    ensures start <= d < start + size && Slot(d, size) == i
  {
    if start <= i {
      d := i;
    } else {
      d := SlotInWindow(if start < size then 0 else start - size, size, i);
      d := d + size;
      assert Slot(d, size) == Slot(d - size, size);
    }
  }
}
