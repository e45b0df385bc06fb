/** The transmit queue: start_xmit and process_tx_cq run on different CPUs against the NIC.

    A run is any interleaving of their atomic steps with steps of the NIC.  start_xmit itself is
    serialised by the stack, which calls it only while the queue is awake, and process_tx_cq is
    serialised by NAPI. */
module TxQueue {
  import opened Wrappers
  import opened PtrArith
  import opened DescRing

  type Skb = nat

  /** Where start_xmit stands between two accesses of shared state. */
  datatype Xmit =
    | Out
    | Mapped(skb: Skb)
    | Posted
    | Tested(stop: bool)
    | Notifying(stop: bool)
    | Rechecking
    | Rewaking

  /** The wake test at the end of process_tx_cq reads two shared variables before it acts. */
  datatype Wake = Testing | SawStopped | Waking

  datatype TxState = Tx(q: Queue<Skb>, stopped: bool, xmit: Xmit, wake: Wake)

  datatype Step =
    | NicFetch(upTo: nat)
    | NicComplete(d: nat)
    | Map(skb: Skb)
    | MapFails
    | Post
    | TestFull
    | StopIfFull
    | Notify(more: bool)
    | Recheck
    | Rewake
    | PollStart(budget: nat)
    | PollConsume
    | PollPublish
    | PollReadTail
    | PollScan
    | PollRelease
    | PollTestStopped
    | PollTestFull
    | PollWake

  function FullSize(s: TxState): nat { s.q.ring.size / 2 }

  /** mqnic_is_tx_ring_full */
  predicate IsFull(s: TxState) {
    Sub32(s.q.ring.headPtr, s.q.ring.cleanPtr) >= FullSize(s)
  }

  predicate Enabled(s: TxState, step: Step) {
    && Shaped(s.q)
    && match step
       case NicFetch(upTo) => CanFetch(s.q, upTo)
       case NicComplete(d) => CanComplete(s.q, d)
       case Map(_) => s.xmit.Out? && !s.stopped
       case MapFails => s.xmit.Mapped?
       case Post => s.xmit.Mapped?
       case TestFull => s.xmit.Posted?
       case StopIfFull => s.xmit.Tested?
       case Notify(_) => s.xmit.Notifying?
       case Recheck => s.xmit.Rechecking?
       case Rewake => s.xmit.Rewaking?
       case PollStart(_) => s.q.poll.Idle?
       case PollConsume => CanConsume(s.q) && |s.q.freed| < |s.q.nic.done|
       case PollPublish => CanPublish(s.q, false)
       case PollReadTail => s.q.poll.Draining?
       case PollScan => CanScan(s.q)
       case PollRelease => CanRelease(s.q)
       case PollTestStopped => s.q.poll.Released? && s.wake.Testing?
       case PollTestFull => s.q.poll.Released? && s.wake.SawStopped?
       case PollWake => s.q.poll.Released? && s.wake.Waking?
  }

  function Finish(s: TxState): TxState {
    s.(q := s.q.(poll := Idle), wake := Testing)
  }

  function Do(s: TxState, step: Step): TxState
    requires Enabled(s, step)
  {
    match step
    case NicFetch(upTo) => s.(q := Fetch(s.q, upTo))
    case NicComplete(d) => s.(q := Complete(s.q, d))
    case Map(skb) => s.(q := Place(s.q, Some(skb)), xmit := Mapped(skb))
    case MapFails => s.(q := Place(s.q, None), xmit := Out)
    case Post => s.(q := Enqueue(s.q, s.xmit.skb), xmit := Posted)
    case TestFull => s.(xmit := Tested(IsFull(s)))
    case StopIfFull => s.(stopped := s.stopped || s.xmit.stop, xmit := Notifying(s.xmit.stop))
    case Notify(more) =>
      var q := if !more || s.xmit.stop then RingDoorbell(s.q) else s.q;
      s.(q := q, xmit := if s.xmit.stop then Rechecking else Out)
    case Recheck => s.(xmit := if IsFull(s) then Out else Rewaking)
    case Rewake => s.(stopped := false, xmit := Out)
    case PollStart(budget) => s.(q := StartPoll(s.q, budget))
    case PollConsume => s.(q := Consume(s.q))
    case PollPublish => s.(q := Publish(s.q))
    case PollReadTail => s.(q := ReadTail(s.q))
    case PollScan => s.(q := Scan(s.q))
    case PollRelease => s.(q := Release(s.q))
    case PollTestStopped => if s.stopped then s.(wake := SawStopped) else Finish(s)
    case PollTestFull => if IsFull(s) then Finish(s) else s.(wake := Waking)
    case PollWake => Finish(s.(stopped := false))
  }

  // ----- what every run keeps -----

  function InUse(s: TxState): int { Head(s.q) - s.q.ring.clean }

  function Pending(s: TxState): Option<Skb> {
    if s.xmit.Mapped? then Some(s.xmit.skb) else None
  }

  /** How many slots can be in use, by the position of start_xmit.  A wake-up that process_tx_cq
      decided on but has not delivered costs one slot of the allowance. */
  ghost predicate Occupancy(s: TxState) {
    var due := if s.wake.Waking? then 1 else 0;
    && InUse(s) <= FullSize(s) + 1 - due
    && (s.xmit.Mapped? || s.xmit.Posted? || s.xmit.Tested? ==> !s.stopped)
    && match s.xmit
       case Out => !s.stopped ==> InUse(s) <= FullSize(s) - due
       case Mapped(_) => InUse(s) <= FullSize(s) - due
       case Posted => true
       case Tested(stop) => !stop ==> InUse(s) < FullSize(s)
       case Notifying(stop) =>
         if stop then !s.stopped ==> InUse(s) <= FullSize(s) && s.wake.Testing?
         else !s.stopped && InUse(s) < FullSize(s)
       case Rechecking => !s.stopped ==> InUse(s) <= FullSize(s) && s.wake.Testing?
       case Rewaking => InUse(s) < FullSize(s)
  }

  /** No wake-up is lost, and a stopped queue has told the NIC all it posted. */
  ghost predicate Live(s: TxState) {
    && (s.stopped && s.xmit.Out? && !s.q.poll.Released? ==> InUse(s) >= FullSize(s))
    && (s.stopped && s.xmit.Out? ==> s.q.nic.told == Head(s.q))
    && (s.xmit.Rechecking? || s.xmit.Rewaking? ==> s.q.nic.told == Head(s.q))
  }

  ghost predicate Limits(s: TxState) {
    (!s.wake.Testing? ==> s.q.poll.Released?) && Occupancy(s) && Live(s)
  }

  ghost predicate TxInv(s: TxState) {
    Inv(s.q, Pending(s)) && Limits(s)
  }

  function Boot(size: nat, cqSize: nat): TxState {
    Tx(Fresh(size, cqSize), false, Out, Testing)
  }

  /** The wrapped full test sees the true number of slots in use. */
  lemma {:induction false} FullExact(s: TxState)
    requires TxInv(s)
    ensures IsFull(s) <==> InUse(s) >= FullSize(s)
    ensures FullSize(s) + 1 <= s.q.ring.size
  {
    DistanceExact(Head(s.q), s.q.ring.clean);
  }

  lemma {:induction false} NicStepKeeps(s: TxState, step: Step)
    requires Inv(s.q, Pending(s)) && Enabled(s, step) && (step.NicFetch? || step.NicComplete?)
    ensures Inv(Do(s, step).q, Pending(Do(s, step)))
  {
    match step
    case NicFetch(upTo) => FetchInv(s.q, Pending(s), upTo);
    case NicComplete(d) => CompleteInv(s.q, Pending(s), d);
  }

  lemma {:induction false} SlotStepKeeps(s: TxState, step: Step)
    requires Inv(s.q, Pending(s)) && Enabled(s, step) && (step.Map? || step.MapFails?)
    requires InUse(s) < s.q.ring.size
    ensures Inv(Do(s, step).q, Pending(Do(s, step)))
  {
    PlaceInv(s.q, Pending(s), if step.Map? then Some(step.skb) else None);
  }

  lemma {:induction false} HeadStepKeeps(s: TxState, step: Step)
    requires Inv(s.q, Pending(s)) && Enabled(s, step) && (step.Post? || step.Notify?)
    ensures Inv(Do(s, step).q, Pending(Do(s, step)))
    ensures step.Notify? && s.xmit.stop ==> Do(s, step).q.nic.told == Head(s.q)
  {
    match step
    case Post => EnqueueInv(s.q, s.xmit.skb);
    case Notify(_) => DoorbellInv(s.q, Pending(s));
  }

  predicate InCompletions(step: Step) {
    step.PollStart? || step.PollConsume? || step.PollPublish?
  }

  lemma {:induction false} CompletionStepKeeps(s: TxState, step: Step)
    requires Inv(s.q, Pending(s)) && Enabled(s, step) && InCompletions(step)
    ensures Inv(Do(s, step).q, Pending(Do(s, step)))
  {
    match step
    case PollStart(budget) => StartPollInv(s.q, Pending(s), budget);
    case PollConsume => ConsumeInv(s.q, Pending(s));
    case PollPublish => PublishInv(s.q, Pending(s));
  }

  predicate InScan(step: Step) {
    step.PollReadTail? || step.PollScan? || step.PollRelease?
  }

  lemma {:induction false} ScanStepKeeps(s: TxState, step: Step)
    requires Inv(s.q, Pending(s)) && Enabled(s, step) && InScan(step)
    ensures Inv(Do(s, step).q, Pending(Do(s, step)))
    ensures step.PollRelease? ==> InUse(Do(s, step)) <= InUse(s)
  {
    match step
    case PollReadTail => ReadTailInv(s.q, Pending(s));
    case PollScan => ScanInv(s.q, Pending(s));
    case PollRelease => ReleaseInv(s.q, Pending(s));
  }

  lemma {:induction false} FlagStepKeeps(s: TxState, step: Step)
    requires Inv(s.q, Pending(s)) && Enabled(s, step)
    requires Do(s, step).q == s.q || Do(s, step).q == s.q.(poll := Idle)
    requires Pending(Do(s, step)) == Pending(s)
    requires s.q.poll.Released? || Do(s, step).q == s.q
    ensures Inv(Do(s, step).q, Pending(Do(s, step)))
  {
  }

  lemma {:induction false} RingKept(s: TxState, step: Step)
    requires Inv(s.q, Pending(s)) && Enabled(s, step)
    requires step.Map? || step.MapFails? ==> InUse(s) < s.q.ring.size
    ensures Inv(Do(s, step).q, Pending(Do(s, step)))
    ensures step.Notify? && s.xmit.stop ==> Do(s, step).q.nic.told == Head(s.q)
    ensures step.PollRelease? ==> InUse(Do(s, step)) <= InUse(s)
  {
    if step.NicFetch? || step.NicComplete? {
      NicStepKeeps(s, step);
    } else if step.Map? || step.MapFails? {
      SlotStepKeeps(s, step);
    } else if step.Post? || step.Notify? {
      HeadStepKeeps(s, step);
    } else if InCompletions(step) {
      CompletionStepKeeps(s, step);
    } else if InScan(step) {
      ScanStepKeeps(s, step);
    } else {
      FlagStepKeeps(s, step);
    }
  }

  /** The steps of process_tx_cq. */
  predicate OfPoll(step: Step) {
    step.PollStart? || step.PollConsume? || step.PollPublish? || step.PollReadTail? || step.PollScan?
    || step.PollRelease? || step.PollTestStopped? || step.PollTestFull? || step.PollWake?
  }

  /** The steps of start_xmit. */
  predicate OfXmit(step: Step) {
    step.Map? || step.MapFails? || step.Post? || step.TestFull? || step.StopIfFull? || step.Notify?
    || step.Recheck? || step.Rewake?
  }

  lemma {:induction false} XmitLimits(s: TxState, step: Step)
    requires Enabled(s, step) && Limits(s) && OfXmit(step)
    requires IsFull(s) <==> InUse(s) >= FullSize(s)
    requires step.Notify? && s.xmit.stop ==> Do(s, step).q.nic.told == Head(s.q)
    ensures Limits(Do(s, step))
  {
  }

  lemma {:induction false} PollLimits(s: TxState, step: Step)
    requires Enabled(s, step) && Limits(s) && OfPoll(step)
    requires IsFull(s) <==> InUse(s) >= FullSize(s)
    requires step.PollRelease? ==> InUse(Do(s, step)) <= InUse(s)
    ensures Limits(Do(s, step))
  {
  }

  lemma {:induction false} LimitsKept(s: TxState, step: Step)
    requires Enabled(s, step) && Limits(s)
    requires IsFull(s) <==> InUse(s) >= FullSize(s)
    requires step.Notify? && s.xmit.stop ==> Do(s, step).q.nic.told == Head(s.q)
    requires step.PollRelease? ==> InUse(Do(s, step)) <= InUse(s)
    ensures Limits(Do(s, step))
  {
    if OfXmit(step) {
      XmitLimits(s, step);
    } else if OfPoll(step) {
      PollLimits(s, step);
    }
  }

  lemma {:induction false} StepKeeps(s: TxState, step: Step)
    requires TxInv(s) && Enabled(s, step)
    ensures TxInv(Do(s, step))
  {
    FullExact(s);
    RingKept(s, step);
    LimitsKept(s, step);
  }

  // ----- runs -----

  ghost predicate IsRun(s: TxState, steps: seq<Step>)
    decreases |steps|
  {
    steps == [] || (Enabled(s, steps[0]) && IsRun(Do(s, steps[0]), steps[1..]))
  }

  ghost function After(s: TxState, steps: seq<Step>): (s': TxState)
    requires IsRun(s, steps)
    ensures s'.q.ring.size == s.q.ring.size && |s'.q.ring.info| == |s.q.ring.info|
    decreases |steps|
  {
    if steps == [] then s else After(Do(s, steps[0]), steps[1..])
  }

  lemma {:induction false} RunKeeps(s: TxState, steps: seq<Step>)
    requires TxInv(s) && IsRun(s, steps)
    ensures TxInv(After(s, steps))
    decreases |steps|
  {
    if steps != [] {
      StepKeeps(s, steps[0]);
      RunKeeps(Do(s, steps[0]), steps[1..]);
    }
  }

  /** In every interleaving at most full_size + 1 slots are in use, and the slot that start_xmit
      fills next never still holds an skb. */
  lemma {:induction false} NoSlotOverwritten(size: nat, cqSize: nat, steps: seq<Step>)
    requires ValidSize(size) && ValidSize(cqSize) && IsRun(Boot(size, cqSize), steps)
    ensures var s := After(Boot(size, cqSize), steps);
            && 0 <= InUse(s) <= size / 2 + 1 <= size
            && (s.xmit.Out? && !s.stopped ==>
                  s.q.ring.info[Slot(s.q.ring.headPtr, size)] == None)
  {
    FreshInv<Skb>(size, cqSize);
    RunKeeps(Boot(size, cqSize), steps);
    var s := After(Boot(size, cqSize), steps);
    if s.xmit.Out? && !s.stopped {
      PlaceInv(s.q, Pending(s), None);
    }
  }

  /** No lost wake-up: a stopped queue that neither start_xmit nor process_tx_cq is about to recheck
      is really full, and the NIC has been told of everything in it. */
  lemma {:induction false} NoLostWakeup(size: nat, cqSize: nat, steps: seq<Step>)
    requires ValidSize(size) && ValidSize(cqSize) && IsRun(Boot(size, cqSize), steps)
    ensures var s := After(Boot(size, cqSize), steps);
            s.stopped && s.xmit.Out? && !s.q.poll.Released? ==>
              IsFull(s) && s.q.nic.told == Head(s.q) >= s.q.ring.clean + size / 2
  {
    FreshInv<Skb>(size, cqSize);
    RunKeeps(Boot(size, cqSize), steps);
    FullExact(After(Boot(size, cqSize), steps));
  }

  /** Each completion makes process_tx_cq free the skb posted with that descriptor, each descriptor
      is freed at most once, and what was posted and not freed is still in its slot. */
  lemma {:induction false} EverySkbOnce(size: nat, cqSize: nat, steps: seq<Step>)
    requires ValidSize(size) && ValidSize(cqSize) && IsRun(Boot(size, cqSize), steps)
    ensures var q := After(Boot(size, cqSize), steps).q;
            && |q.taken| == |q.freed|
            && (forall k | 0 <= k < |q.freed| ::
                  q.freed[k] < Head(q) && q.taken[k] == Some(q.ring.posted[q.freed[k]]))
            && (forall j, k | 0 <= j < k < |q.freed| :: q.freed[j] != q.freed[k])
            && (forall d | 0 <= d < Head(q) && d !in q.freed ::
                  q.ring.info[Slot(d, size)] == Some(q.ring.posted[d]))
  {
    FreshInv<Skb>(size, cqSize);
    RunKeeps(Boot(size, cqSize), steps);
    var q := After(Boot(size, cqSize), steps).q;
    assert forall j | 0 <= j < |q.freed| :: q.freed[j] == q.nic.done[j];
  }

  lemma {:induction false} RunExtends(s: TxState, steps: seq<Step>, step: Step)
    requires IsRun(s, steps) && Enabled(After(s, steps), step)
    ensures IsRun(s, steps + [step]) && After(s, steps + [step]) == Do(After(s, steps), step)
    decreases |steps|
  {
    if steps == [] {
      assert (steps + [step])[1..] == [];
    } else {
      RunExtends(Do(s, steps[0]), steps[1..], step);
      assert (steps + [step])[1..] == steps[1..] + [step];
    }
  }

  // ----- packets the NIC does not know of -----

  ghost predicate Reaches(size: nat, cqSize: nat, s: TxState) {
    exists steps :: IsRun(Boot(size, cqSize), steps) && After(Boot(size, cqSize), steps) == s
  }

  lemma {:induction false} ReachesStep(size: nat, cqSize: nat, s: TxState, step: Step)
    requires Reaches(size, cqSize, s) && Enabled(s, step)
    ensures Reaches(size, cqSize, Do(s, step))
  {
    var steps :| IsRun(Boot(size, cqSize), steps) && After(Boot(size, cqSize), steps) == s;
    RunExtends(Boot(size, cqSize), steps, step);
  }

  /** A first packet is posted with more to follow. */
  lemma {:induction false} PostOne(size: nat, cqSize: nat) returns (s: TxState)
    requires ValidSize(size) && ValidSize(cqSize) && size >= 4
    ensures Reaches(size, cqSize, s) && s.xmit == Notifying(false) && !s.stopped
    ensures Head(s.q) == 1 && s.q.nic.told == 0 && Shaped(s.q)
  {
    var s0 := Boot(size, cqSize);
    assert IsRun(s0, []) && After(s0, []) == s0;
    ReachesStep(size, cqSize, s0, Map(0));
    var s1 := Do(s0, Map(0));
    ReachesStep(size, cqSize, s1, Post);
    var s2 := Do(s1, Post);
    ReachesStep(size, cqSize, s2, TestFull);
    var s3 := Do(s2, TestFull);
    ReachesStep(size, cqSize, s3, StopIfFull);
    s := Do(s3, StopIfFull);
  }

  /** A packet posted with more to follow, and then one whose mapping fails: start_xmit is done, the queue
      is awake, and the NIC has not been told of the first one. */
  lemma {:induction false} UntoldReachable(size: nat, cqSize: nat) returns (s: TxState)
    requires ValidSize(size) && ValidSize(cqSize) && size >= 4
    ensures Reaches(size, cqSize, s) && s.xmit.Out? && !s.stopped
    ensures s.q.nic.told == 0 && Head(s.q) == 1
  {
    var s4 := PostOne(size, cqSize);
    ReachesStep(size, cqSize, s4, Notify(true));
    var s5 := Do(s4, Notify(true));
    ReachesStep(size, cqSize, s5, Map(1));
    var s6 := Do(s5, Map(1));
    ReachesStep(size, cqSize, s6, MapFails);
    s := Do(s6, MapFails);
  }
}
