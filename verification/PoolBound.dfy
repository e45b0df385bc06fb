/** How many packet buffers the simulation driver ever allocates: it takes one from the free list as long as
    there is one, so that there are never more than the rings have slots. */
module PoolBound {
  import opened Wrappers
  import opened PtrArith
  import opened PacketPool

  // ----- slots in use -----

  function InUse(info: seq<Option<Pkt>>): nat {
    if info == [] then 0 else InUse(info[..|info| - 1]) + if info[|info| - 1].Some? then 1 else 0
  }

  function AllInUse(rings: seq<Queue>): nat {
    if rings == [] then 0 else AllInUse(rings[..|rings| - 1]) + InUse(rings[|rings| - 1].info)
  }

  function AllSlots(rings: seq<Queue>): nat {
    if rings == [] then 0 else AllSlots(rings[..|rings| - 1]) + rings[|rings| - 1].Size()
  }

  function Held(o: Option<Pkt>): nat { if o.Some? then 1 else 0 }

  lemma {:induction false} InUseUpdate(info: seq<Option<Pkt>>, i: nat, o: Option<Pkt>)
    requires i < |info|
    ensures InUse(info[i := o]) + Held(info[i]) == InUse(info) + Held(o)
  {
    var n := |info| - 1;
    if i < n {
      InUseUpdate(info[..n], i, o);
      assert info[i := o][..n] == info[..n][i := o];
    } else {
      assert info[i := o][..n] == info[..n];
    }
  }

  lemma {:induction false} RingUpdate(rings: seq<Queue>, k: nat, q: Queue)
    requires k < |rings| && q.Size() == rings[k].Size()
    ensures AllInUse(rings[k := q]) + InUse(rings[k].info) == AllInUse(rings) + InUse(q.info)
    ensures AllSlots(rings[k := q]) == AllSlots(rings)
  {
    var n := |rings| - 1;
    if k < n {
      RingUpdate(rings[..n], k, q);
      assert rings[k := q][..n] == rings[..n][k := q];
    } else {
      assert rings[k := q][..n] == rings[..n];
    }
  }

  lemma {:induction false} InUseBound(info: seq<Option<Pkt>>)
    ensures InUse(info) <= |info|
  {
    if info != [] {
      InUseBound(info[..|info| - 1]);
    }
  }

  lemma {:induction false} AllInUseBound(rings: seq<Queue>)
    ensures AllInUse(rings) <= AllSlots(rings)
  {
    if rings != [] {
      AllInUseBound(rings[..|rings| - 1]);
      InUseBound(rings[|rings| - 1].info);
    }
  }

  // ----- every step -----

  /** Every buffer is free or in a slot, and there are at most as many as slots. */
  ghost predicate Bounded(s: State, slots: nat) {
    |s.pool| == |s.free| + AllInUse(s.rings) && |s.pool| <= slots == AllSlots(s.rings)
  }

  lemma {:induction false} PostBounded(s: State, k: nat, slots: nat)
    requires Bounded(s, slots) && AllShaped(s.rings) && k < |s.rings|
    requires s.rings[k].info[s.rings[k].HeadSlot()].None?
    ensures Bounded(Post(s, k), slots)
  {
    var q, q' := s.rings[k], Post(s, k).rings[k];
    InUseUpdate(q.info, q.HeadSlot(), q'.info[q.HeadSlot()]);
    assert q'.info == q.info[q.HeadSlot() := q'.info[q.HeadSlot()]];
    RingUpdate(s.rings, k, q');
    AllInUseBound(Post(s, k).rings);
  }

  lemma {:induction false} PostManyBounded(s: State, k: nat, n: nat, slots: nat)
    requires Inv(s) && !s.failed && k < |s.rings| && Bounded(s, slots)
    requires s.rings[k].Head() + n <= s.rings[k].clean + s.rings[k].Size()
    ensures Bounded(PostMany(s, k, n), slots)
    decreases n
  {
    if n > 0 {
      HeadEmpty(s.rings[k]);
      PostBounded(s, k, slots);
      PostKeeps(s, k);
      PostManyBounded(Post(s, k), k, n - 1, slots);
    }
  }

  lemma {:induction false} FreeBounded(s: State, k: nat, index: nat, slots: nat)
    requires Bounded(s, slots) && AllShaped(s.rings) && k < |s.rings|
    ensures Bounded(FreeDesc(s, k, index), slots)
  {
    var q := s.rings[k];
    if index < q.Size() && q.info[index].Some? {
      InUseUpdate(q.info, index, None);
      RingUpdate(s.rings, k, FreeDesc(s, k, index).rings[k]);
    }
  }

  lemma {:induction false} ConsumeBounded(s: State, k: nat, j: nat, stop: nat, slots: nat)
    requires Bounded(s, slots) && AllShaped(s.rings) && k < |s.rings|
    ensures Bounded(Consume(s, k, j, stop), slots)
    decreases stop - j
  {
    if !s.failed && j < stop {
      var index := IndexAt(s.rings[k], j);
      FreeBounded(s, k, index, slots);
      ConsumeBounded(FreeDesc(s, k, index), k, j + 1, stop, slots);
    }
  }

  lemma {:induction false} WithBounded(s: State, k: nat, q: Queue, slots: nat)
    requires Bounded(s, slots) && AllShaped(s.rings) && k < |s.rings| && q.Shaped() && q.info == s.rings[k].info
    ensures Bounded(With(s, k, q), slots)
  {
    RingUpdate(s.rings, k, q);
  }

  lemma {:induction false} PollBounded(s: State, k: nat, found: nat, slots: nat)
    requires Bounded(s, slots) && AllShaped(s.rings) && k < |s.rings|
    ensures Bounded(PollFound(s, k, found), slots)
  {
    var q := s.rings[k];
    var q1 := q.(cqHead := Follow(q.cqHead, Low16(found)));
    var s1 := With(s, k, q1);
    WithBounded(s, k, q1, slots);
    ConsumeBounded(s1, k, q.cqTail, q1.cqHead, slots);
    var s2 := Consume(s1, k, q.cqTail, q1.cqHead);
    if !s2.failed {
      WithBounded(s2, k, s2.rings[k].(cqTail := q1.cqHead), slots);
    }
  }

  lemma {:induction false} StepBounded(s: State, step: Step, slots: nat)
    requires Inv(s) && Enabled(s, step) && FindsRoom(s, step) && Bounded(s, slots)
    ensures Bounded(Do(s, step), slots)
  {
    var k, q := step.k, s.rings[step.k];
    match step
    case NicFetch(_, upTo) => WithBounded(s, k, q.(fetched := upTo), slots);
    case NicComplete(_, d) => WithBounded(s, k, AfterComplete(q, d), slots);
    case Xmit(_) => PostBounded(s, k, slots);
    case Refill(_) => PostManyBounded(s, k, Missing(q), slots);
    case Doorbell(_, head) => WithBounded(s, k, q.(told := Follow(q.told, Low16(head))), slots);
    case Poll(_, found) => PollBounded(s, k, found, slots);
    case Ack(_, tail) => WithBounded(s, k, q.(acked := Follow(q.acked, Low16(tail))), slots);
    case Clean(_, seen) => WithBounded(s, k, CleanSeen(q, seen), slots);
  }

  lemma {:induction false} RunBounded(s: State, steps: seq<Step>, slots: nat)
    requires Inv(s) && IsRun(s, steps) && AlwaysRoom(s, steps) && Bounded(s, slots)
    ensures Bounded(After(s, steps), slots)
    decreases |steps|
  {
    if steps != [] {
      StepKeeps(s, steps[0]);
      StepBounded(s, steps[0], slots);
      RunBounded(Do(s, steps[0]), steps[1..], slots);
    }
  }

  lemma {:induction false} NewInUse(info: seq<Option<Pkt>>)
    requires forall i | 0 <= i < |info| :: info[i].None?
    ensures InUse(info) == 0
  {
    if info != [] {
      NewInUse(info[..|info| - 1]);
    }
  }

  function Total(shapes: seq<Shape>): nat {
    if shapes == [] then 0 else Total(shapes[..|shapes| - 1]) + shapes[|shapes| - 1].size
  }

  lemma {:induction false} NewBounded(shapes: seq<Shape>)
    ensures AllInUse(NewQueues(shapes)) == 0 && AllSlots(NewQueues(shapes)) == Total(shapes)
  {
    if shapes != [] {
      var n := |shapes| - 1;
      NewBounded(shapes[..n]);
      assert NewQueues(shapes)[..n] == NewQueues(shapes[..n]);
      NewInUse(NewQueues(shapes)[n].info);
    }
  }

  /** In every run from the start in which start_xmit finds room, no more buffers are ever allocated than
      the rings have slots. */
  lemma {:induction false} NeverMore(shapes: seq<Shape>, steps: seq<Step>)
    requires AllSizes(shapes) && IsRun(Boot(shapes), steps) && AlwaysRoom(Boot(shapes), steps)
    ensures var s := After(Boot(shapes), steps);
            |s.pool| <= Total(shapes) && |s.pool| == |s.free| + AllInUse(s.rings)
  {
    BootInv(shapes);
    NewBounded(shapes);
    RunBounded(Boot(shapes), steps, Total(shapes));
  }
}
