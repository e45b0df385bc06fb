/** The packet buffers of the simulation driver and the queues they travel through.

    The driver runs as coroutines that give way only where they access the device, so what it does
    between two accesses is one step.  A run is any interleaving of these steps, of all queues of
    all interfaces, with steps of the NIC.  The driver's pointers are unbounded integers; registers
    and completions carry 16 bits of a counter. */
module PacketPool {
  import opened Wrappers
  import opened Arith
  import opened PtrArith

  /** A packet buffer, by its address. */
  type Pkt = nat

  /** A transmit or receive ring with its completion queue.  Of the driver: `info` is tx_info or
      rx_info, `posted[d]` the buffer put into the d-th descriptor ever, and `taken` the buffers freed
      (on a receive ring, handed up and freed) for a completion.  Of the NIC: it has been told of the
      descriptors below `told`, has fetched those below `fetched` and completed those in `done`, and
      may overwrite the completions below `acked`. */
  datatype Queue = Queue(rx: bool, info: seq<Option<Pkt>>, posted: seq<Pkt>, tail: nat, clean: nat,
                         cqBuf: seq<u16>, cqHead: nat, cqTail: nat, taken: seq<Pkt>,
                         told: nat, fetched: nat, acked: nat, done: seq<nat>)
  {
    function Size(): nat { |info| }

    function Head(): nat { |posted| }

    predicate Shaped() { ValidSize(|info|) && ValidSize(|cqBuf|) }

    /** The slot the next descriptor is put into. */
    function HeadSlot(): nat
      requires Shaped()
    {
      Slot(Head(), Size())
    }
  }

  /** `pool` lists all buffers ever allocated; `next` is what the root complex hands out next.  With
      `failed` an exception has ended the simulation. */
  datatype State = State(pool: seq<Pkt>, free: seq<Pkt>, next: Pkt, rings: seq<Queue>, failed: bool)

  datatype Step =
    | NicFetch(k: nat, upTo: nat)
    | NicComplete(k: nat, d: nat)
    | Xmit(k: nat)
    | Refill(k: nat)
    | Doorbell(k: nat, head: nat)
    | Poll(k: nat, found: nat)
    | Ack(k: nat, tail: nat)
    | Clean(k: nat, seen: nat)

  predicate AllShaped(rings: seq<Queue>) {
    forall k | 0 <= k < |rings| :: rings[k].Shaped()
  }

  /** The NIC completes each descriptor it was told of at most once, in any order, and only with room in
      the completion queue.  What the driver reads from or writes to a register may be as old as its
      last access of it. */
  predicate Enabled(s: State, step: Step) {
    && !s.failed && AllShaped(s.rings) && step.k < |s.rings|
    && var q := s.rings[step.k];
       match step
       case NicFetch(_, upTo) => q.fetched <= upTo <= q.told
       case NicComplete(_, d) => d < q.told && d !in q.done && |q.done| < q.acked + |q.cqBuf|
       case Xmit(_) => !q.rx
       case Refill(_) => q.rx
       case Doorbell(_, head) => q.told <= head <= q.Head()
       case Poll(_, found) => q.cqHead <= found <= |q.done|
       case Ack(_, tail) => q.acked <= tail <= q.cqTail
       case Clean(_, seen) => q.tail <= seen <= q.fetched
  }

  // ----- steps of the driver -----

  /** alloc_pkt, then the buffer into the slot at the head.  Neither start_xmit nor prepare_desc asks
      whether the slot is empty. */
  function Post(s: State, k: nat): (s': State)
    requires k < |s.rings| && AllShaped(s.rings)
    ensures |s'.rings| == |s.rings| && AllShaped(s'.rings)
  {
    var q := s.rings[k];
    var pkt := if s.free != [] then s.free[|s.free| - 1] else s.next;
    var rings := s.rings[k := q.(info := q.info[q.HeadSlot() := Some(pkt)], posted := q.posted + [pkt])];
    if s.free != [] then s.(free := s.free[..|s.free| - 1], rings := rings)
    else s.(pool := s.pool + [pkt], next := s.next + 1, rings := rings)
  }

  function PostMany(s: State, k: nat, n: nat): (s': State)
    requires k < |s.rings| && AllShaped(s.rings)
    ensures |s'.rings| == |s.rings| && AllShaped(s'.rings)
    decreases n
  {
    if n == 0 then s else PostMany(Post(s, k), k, n - 1)
  }

  /** The descriptors refill_buffers posts: all that are missing, if they are at least eight. */
  function Missing(q: Queue): nat {
    var missing := q.Size() - (q.Head() - q.clean);
    if missing < 8 then 0 else missing
  }

  /** free_desc and free_pkt for one completion; the index is not masked.  They raise an exception if it
      is not one of the list or the slot is empty. */
  function FreeDesc(s: State, k: nat, index: nat): (s': State)
    requires k < |s.rings| && AllShaped(s.rings)
    ensures |s'.rings| == |s.rings| && AllShaped(s'.rings)
  {
    var q := s.rings[k];
    if index >= q.Size() || q.info[index].None? then s.(failed := true)
    else
      var pkt := q.info[index].value;
      s.(rings := s.rings[k := q.(info := q.info[index := None], taken := q.taken + [pkt])],
         free := s.free + [pkt])
  }

  /** The index that completion `j` carries. */
  function IndexAt(q: Queue, j: nat): nat
    requires q.Shaped()
  {
    q.cqBuf[Slot(j, |q.cqBuf|)]
  }

  function Consume(s: State, k: nat, j: nat, stop: nat): (s': State)
    requires k < |s.rings| && AllShaped(s.rings)
    ensures |s'.rings| == |s.rings| && AllShaped(s'.rings)
    decreases stop - j
  {
    if s.failed || j >= stop then s
    else Consume(FreeDesc(s, k, IndexAt(s.rings[k], j)), k, j + 1, stop)
  }

  function With(s: State, k: nat, q: Queue): (s': State)
    requires k < |s.rings| && AllShaped(s.rings) && q.Shaped()
    ensures |s'.rings| == |s.rings| && AllShaped(s'.rings)
  {
    s.(rings := s.rings[k := q])
  }

  /** read_head_ptr returned `found`: consume the completions up to it. */
  function PollFound(s: State, k: nat, found: nat): (s': State)
    requires k < |s.rings| && AllShaped(s.rings)
    ensures |s'.rings| == |s.rings| && AllShaped(s'.rings)
  {
    var q := s.rings[k];
    var head := Follow(q.cqHead, Low16(found));
    var s1 := Consume(With(s, k, q.(cqHead := head)), k, q.cqTail, head);
    if s1.failed then s1 else With(s1, k, s1.rings[k].(cqTail := head))
  }

  /** Skip empty slots up to the tail. */
  function Skip(q: Queue, clean: nat): (c: nat)
    requires q.Shaped()
    decreases q.tail - clean
  {
    if clean < q.tail && q.info[Slot(clean, q.Size())].None? then Skip(q, clean + 1) else clean
  }

  /** read_tail_ptr returned `seen`: advance the clean tail. */
  function CleanSeen(q: Queue, seen: nat): Queue
    requires q.Shaped()
  {
    var q1 := q.(tail := Follow(q.tail, Low16(seen)));
    q1.(clean := Skip(q1, q1.clean))
  }

  function Do(s: State, step: Step): (s': State)
    requires Enabled(s, step)
    ensures |s'.rings| == |s.rings| && AllShaped(s'.rings)
  {
    var k, q := step.k, s.rings[step.k];
    match step
    case NicFetch(_, upTo) => With(s, k, q.(fetched := upTo))
    case NicComplete(_, d) =>
      With(s, k, q.(done := q.done + [d], cqBuf := q.cqBuf[Slot(|q.done|, |q.cqBuf|) := Low16(d)]))
    case Xmit(_) => Post(s, k)
    case Refill(_) => PostMany(s, k, Missing(q))
    case Doorbell(_, head) => With(s, k, q.(told := Follow(q.told, Low16(head))))
    case Poll(_, found) => PollFound(s, k, found)
    case Ack(_, tail) => With(s, k, q.(acked := Follow(q.acked, Low16(tail))))
    case Clean(_, seen) => With(s, k, CleanSeen(q, seen))
  }

  // ----- counting buffers -----

  function Is(o: Option<Pkt>, p: Pkt): nat { if o == Some(p) then 1 else 0 }

  /** How many slots hold `p`. */
  function InSlots(info: seq<Option<Pkt>>, p: Pkt): nat {
    if info == [] then 0 else InSlots(info[..|info| - 1], p) + Is(info[|info| - 1], p)
  }

  function InRings(rings: seq<Queue>, p: Pkt): nat {
    if rings == [] then 0
    else InRings(rings[..|rings| - 1], p) + InSlots(rings[|rings| - 1].info, p)
  }

  function Count(pkts: seq<Pkt>, p: Pkt): nat {
    if pkts == [] then 0
    else Count(pkts[..|pkts| - 1], p) + if pkts[|pkts| - 1] == p then 1 else 0
  }

  lemma {:induction false} CountAppend(pkts: seq<Pkt>, q: Pkt, p: Pkt)
    ensures Count(pkts + [q], p) == Count(pkts, p) + if q == p then 1 else 0
  {
    assert (pkts + [q])[..|pkts|] == pkts;
  }

  lemma {:induction false} CountSome(pkts: seq<Pkt>, p: Pkt)
    requires Count(pkts, p) > 0
    ensures p in pkts
  {
    if pkts[|pkts| - 1] != p {
      CountSome(pkts[..|pkts| - 1], p);
    }
  }

  lemma {:induction false} SlotsUpdate(info: seq<Option<Pkt>>, i: nat, o: Option<Pkt>, p: Pkt)
    requires i < |info|
    ensures InSlots(info[i := o], p) + Is(info[i], p) == InSlots(info, p) + Is(o, p)
  {
    var n := |info| - 1;
    if i < n {
      SlotsUpdate(info[..n], i, o, p);
      assert info[i := o][..n] == info[..n][i := o];
    } else {
      assert info[i := o][..n] == info[..n];
    }
  }

  lemma {:induction false} RingsUpdate(rings: seq<Queue>, k: nat, r: Queue, p: Pkt)
    requires k < |rings|
    ensures InRings(rings[k := r], p) + InSlots(rings[k].info, p) == InRings(rings, p) + InSlots(r.info, p)
  {
    var n := |rings| - 1;
    if k < n {
      RingsUpdate(rings[..n], k, r, p);
      assert rings[k := r][..n] == rings[..n][k := r];
    } else {
      assert rings[k := r][..n] == rings[..n];
    }
  }

  /** A change of one slot of one ring. */
  lemma {:induction false} SlotUpdate(rings: seq<Queue>, k: nat, i: nat, o: Option<Pkt>, r: Queue, p: Pkt)
    requires k < |rings| && i < |rings[k].info| && r.info == rings[k].info[i := o]
    ensures InRings(rings[k := r], p) + Is(rings[k].info[i], p) == InRings(rings, p) + Is(o, p)
  {
    SlotsUpdate(rings[k].info, i, o, p);
    RingsUpdate(rings, k, r, p);
  }

  lemma {:induction false} HeldOnce(info: seq<Option<Pkt>>, i: nat)
    requires i < |info| && info[i].Some?
    ensures InSlots(info, info[i].value) >= 1
  {
    if i < |info| - 1 {
      HeldOnce(info[..|info| - 1], i);
    }
  }

  lemma {:induction false} InRingsOnce(rings: seq<Queue>, k: nat, i: nat)
    requires k < |rings| && i < |rings[k].info| && rings[k].info[i].Some?
    ensures InRings(rings, rings[k].info[i].value) >= 1
  {
    if k < |rings| - 1 {
      InRingsOnce(rings[..|rings| - 1], k, i);
    } else {
      HeldOnce(rings[k].info, i);
    }
  }

  lemma {:induction false} CountOnce(pkts: seq<Pkt>, i: nat)
    requires i < |pkts|
    ensures Count(pkts, pkts[i]) >= 1
  {
    if i < |pkts| - 1 {
      CountOnce(pkts[..|pkts| - 1], i);
    }
  }

  // ----- the partition -----

  /** The places of a buffer: on the free list and in slots. */
  function Places(s: State, p: Pkt): nat { Count(s.free, p) + InRings(s.rings, p) }

  /** Every buffer ever allocated is in just one place, and no other is anywhere. */
  ghost predicate Partition(s: State) { forall p: Pkt :: PlacedOnce(s, p) }

  ghost predicate PlacedOnce(s: State, p: Pkt) {
    Places(s, p) == Count(s.pool, p) <= 1 && (Count(s.pool, p) == 1 ==> p < s.next)
  }

  /** So no buffer sits in two slots, of one ring or of two, and none in a slot is free. */
  lemma {:induction false} OnePlace(s: State, k: nat, i: nat, k': nat, i': nat)
    requires Partition(s)
    requires k < |s.rings| && i < s.rings[k].Size() && k' < |s.rings| && i' < s.rings[k'].Size()
    requires s.rings[k].info[i].Some?
    ensures s.rings[k].info[i].value in s.pool && s.rings[k].info[i].value !in s.free
    ensures s.rings[k'].info[i'] == s.rings[k].info[i] ==> k == k' && i == i'
  {
    var p := s.rings[k].info[i].value;
    assert PlacedOnce(s, p);
    InRingsOnce(s.rings, k, i);
    CountSome(s.pool, p);
    if p in s.free {
      var j :| 0 <= j < |s.free| && s.free[j] == p;
      CountOnce(s.free, j);
    }
    if s.rings[k'].info[i'] == s.rings[k].info[i] && !(k == k' && i == i') {
      var without := s.rings[k].(info := s.rings[k].info[i := None]);
      SlotUpdate(s.rings, k, i, None, without, p);
      InRingsOnce(s.rings[k := without], k', i');
    }
  }

  lemma {:induction false} SamePartition(s: State, s': State)
    requires Partition(s) && s'.pool == s.pool && s'.next == s.next
    requires forall p: Pkt :: Places(s', p) == Places(s, p)
    ensures Partition(s')
  {
    forall p: Pkt
      ensures PlacedOnce(s', p)
    {
      assert PlacedOnce(s, p);
    }
  }

  /** Whether the next buffer is a new one, and that is `p`. */
  function IsNew(s: State, p: Pkt): nat { if s.free == [] && p == s.next then 1 else 0 }

  /** A buffer loses its place just when it is overwritten. */
  lemma {:induction false} PostPlaces(s: State, k: nat, p: Pkt)
    requires k < |s.rings| && AllShaped(s.rings)
    ensures Places(Post(s, k), p) + Is(s.rings[k].info[s.rings[k].HeadSlot()], p)
         == Places(s, p) + IsNew(s, p)
    ensures Count(Post(s, k).pool, p) == Count(s.pool, p) + IsNew(s, p)
  {
    var q, s' := s.rings[k], Post(s, k);
    var pkt := if s.free != [] then s.free[|s.free| - 1] else s.next;
    SlotUpdate(s.rings, k, q.HeadSlot(), Some(pkt), s'.rings[k], p);
    CountAppend(s.pool, s.next, p);
  }

  lemma {:induction false} FreeDescPlaces(s: State, k: nat, index: nat, p: Pkt)
    requires k < |s.rings| && AllShaped(s.rings)
    ensures Places(FreeDesc(s, k, index), p) == Places(s, p) && FreeDesc(s, k, index).pool == s.pool
  {
    var q := s.rings[k];
    if index < q.Size() && q.info[index].Some? {
      var pkt := q.info[index].value;
      var q' := q.(info := q.info[index := None], taken := q.taken + [pkt]);
      Moved(s.rings, k, index, q', s.free, pkt, p);
    }
  }

  /** A buffer moves from a slot to the free list. */
  lemma {:induction false} Moved(rings: seq<Queue>, k: nat, i: nat, q: Queue, free: seq<Pkt>, pkt: Pkt, p: Pkt)
    requires k < |rings| && i < |rings[k].info| && rings[k].info[i] == Some(pkt)
    requires q.info == rings[k].info[i := None]
    ensures Count(free + [pkt], p) + InRings(rings[k := q], p) == Count(free, p) + InRings(rings, p)
  {
    SlotUpdate(rings, k, i, None, q, p);
    CountAppend(free, pkt, p);
  }

  lemma {:induction false} WithPlaces(s: State, k: nat, q: Queue, p: Pkt)
    requires k < |s.rings| && AllShaped(s.rings) && q.Shaped() && q.info == s.rings[k].info
    ensures Places(With(s, k, q), p) == Places(s, p)
  {
    RingsUpdate(s.rings, k, q, p);
  }

  // ----- what every run keeps of a queue -----

  predicate Freed(q: Queue, d: nat) { |q.taken| <= |q.done| && d in q.done[..|q.taken|] }

  /** What the slot of descriptor `d` holds. */
  function Holds(q: Queue, d: nat): Option<Pkt> {
    if d >= q.Head() || Freed(q, d) then None else Some(q.posted[d])
  }

  /** The oldest descriptor whose slot no later one shares. */
  function Oldest(q: Queue): nat {
    if q.Head() <= q.Size() then 0 else q.Head() - q.Size()
  }

  ghost predicate Ordered(q: Queue) {
    && q.clean <= q.tail <= q.fetched <= q.told <= q.Head()
    && q.acked <= q.cqTail <= |q.taken| <= q.cqHead <= |q.done| <= q.acked + |q.cqBuf|
    && (q.rx ==> q.Head() <= q.clean + q.Size())
  }

  ghost predicate Completed(q: Queue)
    requires q.Shaped()
  {
    && (forall i | 0 <= i < |q.done| :: q.done[i] < q.told)
    && (forall i, j | 0 <= i < j < |q.done| :: q.done[i] != q.done[j])
    && (forall j | q.acked <= j < |q.done| :: IndexAt(q, j) == Low16(q.done[j]))
  }

  ghost predicate SlotHolds(q: Queue, d: nat)
    requires q.Shaped()
  {
    q.info[Slot(d, q.Size())] == Holds(q, d)
  }

  /** The last descriptors of a ring's length are in their slots. */
  ghost predicate AllHeld(q: Queue)
    requires q.Shaped()
  {
    forall d | Oldest(q) <= d < Oldest(q) + q.Size() :: SlotHolds(q, d)
  }

  ghost predicate Slots(q: Queue)
    requires q.Shaped()
  {
    (forall d | 0 <= d < Oldest(q) || 0 <= d < q.clean :: Freed(q, d)) && AllHeld(q)
  }

  /** The buffer taken for a completion is the one posted with its descriptor. */
  ghost predicate Returned(q: Queue) {
    && |q.taken| <= |q.done|
    && forall j | 0 <= j < |q.taken| :: q.done[j] < q.Head() && q.taken[j] == q.posted[q.done[j]]
  }

  ghost predicate QueueInv(q: Queue) {
    q.Shaped() && Ordered(q) && Completed(q) && Slots(q) && Returned(q)
  }

  /** The slot at the head is empty iff the descriptor that had it a ring ago was freed. */
  lemma {:induction false} HeadEmpty(q: Queue)
    requires QueueInv(q)
    ensures q.info[q.HeadSlot()].None? <==> q.Head() < q.Size() || Freed(q, q.Head() - q.Size())
    ensures q.Head() < q.clean + q.Size() ==> q.info[q.HeadSlot()].None?
  {
    var size := q.Size();
    if q.Head() < size {
      assert SlotHolds(q, q.Head());
    } else {
      var d: nat := q.Head() - size;
      assert Mod(d + size, size) == Mod(d, size);
      assert SlotHolds(q, d);
    }
  }

  function Posted(q: Queue, pkt: Pkt): Queue
    requires q.Shaped()
  {
    q.(info := q.info[q.HeadSlot() := Some(pkt)], posted := q.posted + [pkt])
  }

  lemma {:induction false} PostedInv(q: Queue, pkt: Pkt)
    requires QueueInv(q) && q.info[q.HeadSlot()].None? && (q.rx ==> q.Head() < q.clean + q.Size())
    ensures QueueInv(Posted(q, pkt))
  {
    var q', size := Posted(q, pkt), q.Size();
    HeadEmpty(q);
    forall d | 0 <= d < Oldest(q') || 0 <= d < q'.clean
      ensures Freed(q', d)
    {
      assert Freed(q, d);
    }
    forall d | Oldest(q') <= d < Oldest(q') + size
      ensures SlotHolds(q', d)
    {
      if d == q.Head() {
        assert !Freed(q, d);
      } else {
        if Slot(d, size) == q.HeadSlot() {
          SlotsDistinct(d, q.Head(), size);
        }
        assert SlotHolds(q, d);
      }
    }
    forall j | 0 <= j < |q'.taken|
      ensures q'.done[j] < q'.Head() && q'.taken[j] == q'.posted[q'.done[j]]
    {
      assert q.taken[j] == q.posted[q.done[j]];
    }
  }

  /** The index a completion carries names a slot of the list iff the low 16 bits of its counter are
      below the size; then the slot holds the buffer posted with the descriptor. */
  lemma {:induction false} IndexNames(q: Queue)
    requires QueueInv(q) && |q.taken| < q.cqHead
    ensures var j := |q.taken|; var d := q.done[j]; var index := IndexAt(q, j);
            && (index < q.Size() <==> d % TWO16 < q.Size())
            && (index < q.Size() ==> index == Slot(d, q.Size()) && q.info[index] == Some(q.posted[d]))
  {
    var j := |q.taken|;
    var d, index := q.done[j], IndexAt(q, j);
    assert index == Low16(d);
    PtrSlot(d, q.Size());
    if index < q.Size() {
      assert Slot(index, q.Size()) == index;
      assert !Freed(q, d);
      assert SlotHolds(q, d);
    }
  }

  function Emptied(q: Queue, index: nat, pkt: Pkt): Queue
    requires index < q.Size()
  {
    q.(info := q.info[index := None], taken := q.taken + [pkt])
  }

  lemma {:induction false} FreedNext(q: Queue, q': Queue, d: nat)
    requires |q.taken| < |q.done| && q'.done == q.done && |q'.taken| == |q.taken| + 1
    ensures Freed(q', d) <==> Freed(q, d) || d == q.done[|q.taken|]
  {
    assert q.done[..|q.taken| + 1] == q.done[..|q.taken|] + [q.done[|q.taken|]];
  }

  lemma {:induction false} EmptiedHolds(q: Queue, index: nat, pkt: Pkt, d: nat)
    requires QueueInv(q) && |q.taken| < q.cqHead && index == IndexAt(q, |q.taken|) < q.Size()
    requires q.info[index] == Some(pkt) && Oldest(q) <= d < Oldest(q) + q.Size()
    ensures SlotHolds(Emptied(q, index, pkt), d)
  {
    var size, c := q.Size(), q.done[|q.taken|];
    IndexNames(q);
    FreedNext(q, Emptied(q, index, pkt), d);
    assert SlotHolds(q, d);
    assert !Freed(q, c);
    if Slot(d, size) == index {
      SlotsDistinct(d, c, size);
    }
  }

  lemma {:induction false} EmptiedInv(q: Queue, index: nat, pkt: Pkt)
    requires QueueInv(q) && |q.taken| < q.cqHead && index == IndexAt(q, |q.taken|) < q.Size()
    requires q.info[index] == Some(pkt)
    ensures QueueInv(Emptied(q, index, pkt))
  {
    var q' := Emptied(q, index, pkt);
    IndexNames(q);
    forall d | 0 <= d < Oldest(q') || 0 <= d < q'.clean
      ensures Freed(q', d)
    {
      assert Freed(q, d);
      FreedNext(q, q', d);
    }
    forall d | Oldest(q') <= d < Oldest(q') + q'.Size()
      ensures SlotHolds(q', d)
    {
      EmptiedHolds(q, index, pkt, d);
    }
  }

  /** Skipped slots belong to freed descriptors, and the first one not skipped does not. */
  lemma {:induction false} SkipExact(q: Queue, clean: nat)
    requires QueueInv(q) && q.clean <= clean <= q.tail
    ensures clean <= Skip(q, clean) <= q.tail
    ensures forall d | clean <= d < Skip(q, clean) :: Freed(q, d)
    ensures Skip(q, clean) == q.tail || q.info[Slot(Skip(q, clean), q.Size())].Some?
    decreases q.tail - clean
  {
    if clean < q.tail && q.info[Slot(clean, q.Size())].None? {
      if clean >= Oldest(q) {
        assert SlotHolds(q, clean);
      }
      SkipExact(q, clean + 1);
    }
  }

  lemma {:induction false} CleanInv(q: Queue, seen: nat)
    requires QueueInv(q) && q.tail <= seen <= q.fetched
    ensures QueueInv(CleanSeen(q, seen)) && q.tail <= CleanSeen(q, seen).tail <= seen
    ensures q.Head() <= q.clean + q.Size() ==> CleanSeen(q, seen).tail == seen
  {
    var tail := Follow(q.tail, Low16(seen));
    FollowBounds(q.tail, seen);
    var q1 := q.(tail := tail);
    SameSlots(q, q1);
    SkipExact(q1, q1.clean);
    CleanedInv(q1, Skip(q1, q1.clean));
  }

  lemma {:induction false} CleanedInv(q: Queue, clean: nat)
    requires QueueInv(q) && q.clean <= clean <= q.tail
    requires forall d | q.clean <= d < clean :: Freed(q, d)
    ensures QueueInv(q.(clean := clean))
  {
    var q' := q.(clean := clean);
    SameHolds(q, q');
    forall d | 0 <= d < Oldest(q') || 0 <= d < q'.clean
      ensures Freed(q', d)
    {
      assert Freed(q, d);
    }
  }

  lemma {:induction false} FollowBounds(known: nat, actual: nat)
    requires known <= actual
    ensures known <= Follow(known, Low16(actual)) <= actual
    ensures actual < known + TWO16 ==> Follow(known, Low16(actual)) == actual
  {
    var step, q := (Low16(actual) - known) % TWO16, (actual - known) / TWO16;
    ModUnique(Low16(actual) - known, TWO16, q - actual / TWO16, (actual - known) % TWO16);
  }

  /** What the slots hold depends on these alone. */
  ghost predicate SameItems(q: Queue, q': Queue) {
    && q'.info == q.info && q'.posted == q.posted && q'.taken == q.taken
    && |q.taken| <= |q.done| && q.done <= q'.done
  }

  lemma {:induction false} SameHolds(q: Queue, q': Queue)
    requires q.Shaped() && q'.Shaped() && SameItems(q, q')
    ensures forall d: nat :: Holds(q', d) == Holds(q, d) && Freed(q', d) == Freed(q, d)
    ensures AllHeld(q) ==> AllHeld(q')
  {
    assert q'.done[..|q.taken|] == q.done[..|q.taken|];
    forall d: nat
      ensures Holds(q', d) == Holds(q, d) && Freed(q', d) == Freed(q, d)
    {
    }
    if AllHeld(q) {
      forall d | Oldest(q') <= d < Oldest(q') + q'.Size()
        ensures SlotHolds(q', d)
      {
        assert SlotHolds(q, d);
      }
    }
  }

  lemma {:induction false} SameSlots(q: Queue, q': Queue)
    requires QueueInv(q) && q'.Shaped() && SameItems(q, q') && q'.clean == q.clean
    ensures Slots(q') && Returned(q')
  {
    SameHolds(q, q');
    forall d | 0 <= d < Oldest(q') || 0 <= d < q'.clean
      ensures Freed(q', d)
    {
      assert Freed(q, d);
    }
    forall j | 0 <= j < |q'.taken|
      ensures q'.done[j] < q'.Head() && q'.taken[j] == q'.posted[q'.done[j]]
    {
      assert q.taken[j] == q.posted[q.done[j]];
    }
  }

  /** The NIC was told of all descriptors but those of the last ring's length. */
  lemma {:induction false} ToldRecent(q: Queue)
    requires QueueInv(q)
    ensures q.Head() <= q.told + q.Size()
  {
    if Oldest(q) > 0 {
      assert Freed(q, Oldest(q) - 1);
    }
  }

  function AfterComplete(q: Queue, d: nat): Queue
    requires q.Shaped()
  {
    q.(done := q.done + [d], cqBuf := q.cqBuf[Slot(|q.done|, |q.cqBuf|) := Low16(d)])
  }

  lemma {:induction false} CompleteInv(q: Queue, d: nat)
    requires QueueInv(q) && d < q.told && d !in q.done && |q.done| < q.acked + |q.cqBuf|
    ensures QueueInv(AfterComplete(q, d))
  {
    var q', n := AfterComplete(q, d), |q.done|;
    SameSlots(q, q');
    forall j | q'.acked <= j < |q'.done|
      ensures IndexAt(q', j) == Low16(q'.done[j])
    {
      if j < n {
        if Slot(j, |q.cqBuf|) == Slot(n, |q.cqBuf|) {
          SlotsDistinct(j, n, |q.cqBuf|);
        }
        assert IndexAt(q, j) == Low16(q.done[j]);
      }
    }
  }

  lemma {:induction false} DoorbellInv(q: Queue, head: nat)
    requires QueueInv(q) && q.told <= head <= q.Head()
    ensures Follow(q.told, Low16(head)) == head && QueueInv(q.(told := head))
  {
    ToldRecent(q);
    FollowBounds(q.told, head);
    SameSlots(q, q.(told := head));
  }

  lemma {:induction false} AckInv(q: Queue, tail: nat)
    requires QueueInv(q) && q.acked <= tail <= q.cqTail
    ensures Follow(q.acked, Low16(tail)) == tail && QueueInv(q.(acked := tail))
  {
    FollowBounds(q.acked, tail);
    SameSlots(q, q.(acked := tail));
    var q' := q.(acked := tail);
    forall j | q'.acked <= j < |q'.done|
      ensures IndexAt(q', j) == Low16(q'.done[j])
    {
      assert IndexAt(q, j) == Low16(q.done[j]);
    }
  }

  lemma {:induction false} FetchInv(q: Queue, upTo: nat)
    requires QueueInv(q) && q.fetched <= upTo <= q.told
    ensures QueueInv(q.(fetched := upTo))
  {
    SameSlots(q, q.(fetched := upTo));
  }

  /** read_head_ptr sees the very number of completions. */
  lemma {:induction false} FoundInv(q: Queue, found: nat)
    requires QueueInv(q) && q.cqHead <= found <= |q.done|
    ensures Follow(q.cqHead, Low16(found)) == found && QueueInv(q.(cqHead := found))
  {
    FollowBounds(q.cqHead, found);
    SameSlots(q, q.(cqHead := found));
  }

  lemma {:induction false} ConsumedInv(q: Queue)
    requires QueueInv(q) && |q.taken| == q.cqHead
    ensures QueueInv(q.(cqTail := q.cqHead))
  {
    SameSlots(q, q.(cqTail := q.cqHead));
  }

  // ----- what every run keeps -----

  /** A completion the driver has found whose index lies outside the list. */
  predicate OutOfRange(done: seq<nat>, size: nat, from: nat, to: nat) {
    exists j :: from <= j < to && j < |done| && done[j] % TWO16 >= size
  }

  lemma {:induction false} RangeSplit(done: seq<nat>, size: nat, a: nat, b: nat, c: nat)
    requires a <= b <= c
    ensures OutOfRange(done, size, a, c) <==> OutOfRange(done, size, a, b) || OutOfRange(done, size, b, c)
  {
    if OutOfRange(done, size, a, c) {
      var j :| a <= j < c && j < |done| && done[j] % TWO16 >= size;
      assert j < b ==> OutOfRange(done, size, a, b);
    }
  }

  lemma {:induction false} OnlyOne(done: seq<nat>, size: nat, j: nat)
    requires j < |done|
    ensures OutOfRange(done, size, j, j + 1) <==> done[j] % TWO16 >= size
  {
  }

  predicate HasFailed(q: Queue) { OutOfRange(q.done, q.Size(), 0, q.cqHead) }

  ghost predicate AllInv(rings: seq<Queue>) {
    forall k | 0 <= k < |rings| :: QueueInv(rings[k])
  }

  /** Between steps all completions found are consumed; it has failed iff one was out of range. */
  ghost predicate Settled(s: State) {
    && (!s.failed ==> forall k | 0 <= k < |s.rings| :: s.rings[k].cqTail == |s.rings[k].taken| == s.rings[k].cqHead)
    && (s.failed <==> exists k :: 0 <= k < |s.rings| && HasFailed(s.rings[k]))
  }

  ghost predicate Inv(s: State) {
    AllShaped(s.rings) && Partition(s) && AllInv(s.rings) && Settled(s)
  }

  /** Queue `k` with its completions consumed from where it was up to `stop`, or up to a failure. */
  ghost predicate ConsumedTo(s: State, s': State, k: nat, stop: nat)
    requires k < |s.rings|
  {
    && |s'.rings| == |s.rings| && s'.rings == s.rings[k := s'.rings[k]]
    && s'.pool == s.pool && s'.next == s.next
    && var q, q' := s.rings[k], s'.rings[k];
       && q' == q.(info := q'.info, taken := q'.taken) && q'.Size() == q.Size()
       && (s'.failed <==> OutOfRange(q.done, q.Size(), |q.taken|, stop))
       && (!s'.failed ==> |q'.taken| == stop)
  }

  ghost predicate Sound(s: State, k: nat) {
    AllShaped(s.rings) && k < |s.rings| && Partition(s) && QueueInv(s.rings[k])
  }

  lemma {:induction false} FreeDescKeeps(s: State, k: nat)
    requires Sound(s, k) && !s.failed && |s.rings[k].taken| < s.rings[k].cqHead
    ensures var q := s.rings[k]; var j := |q.taken|; var s' := FreeDesc(s, k, IndexAt(q, j));
            Sound(s', k) && ConsumedTo(s, s', k, j + 1)
  {
    var q := s.rings[k];
    var j := |q.taken|;
    var s' := FreeDesc(s, k, IndexAt(q, j));
    IndexNames(q);
    OnlyOne(q.done, q.Size(), j);
    if !s'.failed {
      EmptiedInv(q, IndexAt(q, j), q.info[IndexAt(q, j)].value);
    }
    forall p: Pkt
      ensures Places(s', p) == Places(s, p)
    {
      FreeDescPlaces(s, k, IndexAt(q, j), p);
    }
    SamePartition(s, s');
  }

  lemma {:induction false} ConsumedMore(s: State, s1: State, s': State, k: nat, mid: nat, stop: nat)
    requires k < |s.rings| && ConsumedTo(s, s1, k, mid) && !s1.failed && ConsumedTo(s1, s', k, stop)
    requires |s.rings[k].taken| <= mid <= stop
    ensures ConsumedTo(s, s', k, stop)
  {
    var q := s.rings[k];
    RangeSplit(q.done, q.Size(), |q.taken|, mid, stop);
  }

  lemma {:induction false} ConsumeKeeps(s: State, k: nat, stop: nat)
    requires Sound(s, k) && !s.failed && |s.rings[k].taken| <= stop == s.rings[k].cqHead
    ensures var s' := Consume(s, k, |s.rings[k].taken|, stop);
            Sound(s', k) && ConsumedTo(s, s', k, stop)
    decreases stop - |s.rings[k].taken|
  {
    var q := s.rings[k];
    var j: nat := |q.taken|;
    if j < stop {
      FreeDescKeeps(s, k);
      var s1 := FreeDesc(s, k, IndexAt(q, j));
      if s1.failed {
        RangeSplit(q.done, q.Size(), j, j + 1, stop);
      } else {
        ConsumeKeeps(s1, k, stop);
        ConsumedMore(s, s1, Consume(s1, k, j + 1, stop), k, j + 1, stop);
      }
    }
  }

  /** One queue changes, and it is the one that decides about failure. */
  lemma {:induction false} OneChanged(s: State, s': State, k: nat)
    requires Inv(s) && !s.failed && k < |s.rings| == |s'.rings| && s'.rings == s.rings[k := s'.rings[k]]
    requires Partition(s') && QueueInv(s'.rings[k])
    requires s'.failed <==> HasFailed(s'.rings[k])
    requires !s'.failed ==> s'.rings[k].cqTail == |s'.rings[k].taken| == s'.rings[k].cqHead
    ensures Inv(s')
  {
    assert forall i | 0 <= i < |s.rings| && i != k :: s'.rings[i] == s.rings[i];
    if s'.failed {
      assert HasFailed(s'.rings[k]);
    }
  }

  lemma {:induction false} WithPartition(s: State, k: nat, q: Queue)
    requires k < |s.rings| && AllShaped(s.rings) && q.Shaped() && q.info == s.rings[k].info && Partition(s)
    ensures Partition(With(s, k, q))
  {
    forall p: Pkt
      ensures Places(With(s, k, q), p) == Places(s, p)
    {
      WithPlaces(s, k, q, p);
    }
    SamePartition(s, With(s, k, q));
  }

  lemma {:induction false} WithKeeps(s: State, k: nat, q: Queue)
    requires Inv(s) && !s.failed && k < |s.rings| && QueueInv(q) && q.info == s.rings[k].info
    requires q.cqTail == |q.taken| == q.cqHead && !HasFailed(q)
    ensures Inv(With(s, k, q))
  {
    WithPartition(s, k, q);
    OneChanged(s, With(s, k, q), k);
  }

  /** `q2` is queue `k` with the completions up to `found` consumed. */
  lemma {:induction false} PollSettles(s: State, s2: State, k: nat, found: nat)
    requires Inv(s) && !s.failed && k < |s.rings| && Sound(s2, k)
    requires s.rings[k].cqHead <= found <= |s.rings[k].done|
    requires ConsumedTo(With(s, k, s.rings[k].(cqHead := found)), s2, k, found)
    ensures s2.failed ==> Inv(s2)
    ensures !s2.failed ==> Inv(With(s2, k, s2.rings[k].(cqTail := found)))
    ensures s2.failed <==> OutOfRange(s.rings[k].done, s.rings[k].Size(), s.rings[k].cqHead, found)
  {
    var q, q2 := s.rings[k], s2.rings[k];
    RangeSplit(q.done, q.Size(), 0, q.cqHead, found);
    if s2.failed {
      OneChanged(s, s2, k);
    } else {
      var q3 := q2.(cqTail := found);
      ConsumedInv(q2);
      WithPartition(s2, k, q3);
      OneChanged(s, With(s2, k, q3), k);
    }
  }

  lemma {:induction false} PollKeeps(s: State, k: nat, found: nat)
    requires Inv(s) && !s.failed && k < |s.rings|
    requires s.rings[k].cqHead <= found <= |s.rings[k].done|
    ensures var q, s' := s.rings[k], PollFound(s, k, found);
            && Inv(s') && s'.pool == s.pool && s'.rings == s.rings[k := s'.rings[k]]
            && (s'.failed <==> OutOfRange(q.done, q.Size(), q.cqHead, found))
            && s'.rings[k].Size() == q.Size()
            && s'.rings[k] == q.(cqHead := found, cqTail := s'.rings[k].cqTail, info := s'.rings[k].info,
                                 taken := s'.rings[k].taken)
  {
    var q := s.rings[k];
    FoundInv(q, found);
    var q1 := q.(cqHead := found);
    var s1 := With(s, k, q1);
    WithPartition(s, k, q1);
    ConsumeKeeps(s1, k, found);
    PollSettles(s, Consume(s1, k, q1.cqTail, found), k, found);
  }

  lemma {:induction false} PostPartition(s: State, k: nat)
    requires AllShaped(s.rings) && k < |s.rings| && Partition(s)
    requires s.rings[k].info[s.rings[k].HeadSlot()].None?
    ensures Partition(Post(s, k))
  {
    var s' := Post(s, k);
    assert PlacedOnce(s, s.next);
    forall p: Pkt
      ensures PlacedOnce(s', p)
    {
      assert PlacedOnce(s, p);
      PostPlacedOnce(s, k, p);
    }
  }

  lemma {:induction false} PostPlacedOnce(s: State, k: nat, p: Pkt)
    requires AllShaped(s.rings) && k < |s.rings| && PlacedOnce(s, p) && PlacedOnce(s, s.next)
    requires s.rings[k].info[s.rings[k].HeadSlot()].None?
    ensures PlacedOnce(Post(s, k), p)
  {
    PostPlaces(s, k, p);
  }

  lemma {:induction false} PostKeeps(s: State, k: nat)
    requires Inv(s) && !s.failed && k < |s.rings| && s.rings[k].info[s.rings[k].HeadSlot()].None?
    requires s.rings[k].rx ==> s.rings[k].Head() < s.rings[k].clean + s.rings[k].Size()
    ensures Inv(Post(s, k)) && !Post(s, k).failed
    ensures Post(s, k).rings[k].Head() == s.rings[k].Head() + 1
    ensures Post(s, k).rings[k].clean == s.rings[k].clean && Post(s, k).rings[k].rx == s.rings[k].rx
    ensures Post(s, k).rings[k].Size() == s.rings[k].Size()
  {
    var q, s' := s.rings[k], Post(s, k);
    var pkt := if s.free != [] then s.free[|s.free| - 1] else s.next;
    PostedInv(q, pkt);
    PostPartition(s, k);
    OneChanged(s, s', k);
  }

  lemma {:induction false} PostManyKeeps(s: State, k: nat, n: nat)
    requires Inv(s) && !s.failed && k < |s.rings|
    requires s.rings[k].Head() + n <= s.rings[k].clean + s.rings[k].Size()
    ensures Inv(PostMany(s, k, n)) && !PostMany(s, k, n).failed
    ensures PostMany(s, k, n).rings[k].Head() == s.rings[k].Head() + n
    ensures PostMany(s, k, n).rings[k].clean == s.rings[k].clean
    ensures PostMany(s, k, n).rings[k].Size() == s.rings[k].Size()
    decreases n
  {
    if n > 0 {
      HeadEmpty(s.rings[k]);
      PostKeeps(s, k);
      PostManyKeeps(Post(s, k), k, n - 1);
    }
  }

  /** start_xmit finds the slot at the head empty. */
  predicate FindsRoom(s: State, step: Step)
    requires Enabled(s, step)
  {
    step.Xmit? ==> s.rings[step.k].info[s.rings[step.k].HeadSlot()].None?
  }

  lemma {:induction false} StepKeeps(s: State, step: Step)
    requires Inv(s) && Enabled(s, step) && FindsRoom(s, step)
    ensures Inv(Do(s, step))
  {
    var k, q := step.k, s.rings[step.k];
    match step
    case NicFetch(_, upTo) => FetchInv(q, upTo); WithKeeps(s, k, q.(fetched := upTo));
    case NicComplete(_, d) =>
      CompleteInv(q, d);
      assert forall j | 0 <= j < q.cqHead :: AfterComplete(q, d).done[j] == q.done[j];
      WithKeeps(s, k, AfterComplete(q, d));
    case Xmit(_) => PostKeeps(s, k);
    case Refill(_) => PostManyKeeps(s, k, Missing(q));
    case Doorbell(_, head) => DoorbellInv(q, head); WithKeeps(s, k, q.(told := head));
    case Poll(_, found) => PollKeeps(s, k, found);
    case Ack(_, tail) => AckInv(q, tail); WithKeeps(s, k, q.(acked := tail));
    case Clean(_, seen) => CleanInv(q, seen); WithKeeps(s, k, CleanSeen(q, seen));
  }

  // ----- whole runs -----

  ghost predicate IsRun(s: State, steps: seq<Step>)
    decreases |steps|
  {
    steps == [] || (Enabled(s, steps[0]) && IsRun(Do(s, steps[0]), steps[1..]))
  }

  ghost function After(s: State, steps: seq<Step>): State
    requires IsRun(s, steps)
    decreases |steps|
  {
    if steps == [] then s else After(Do(s, steps[0]), steps[1..])
  }

  /** Every start_xmit of the run finds the slot at the head empty. */
  ghost predicate AlwaysRoom(s: State, steps: seq<Step>)
    requires IsRun(s, steps)
    decreases |steps|
  {
    steps == [] || (FindsRoom(s, steps[0]) && AlwaysRoom(Do(s, steps[0]), steps[1..]))
  }

  lemma {:induction false} RunKeeps(s: State, steps: seq<Step>)
    requires Inv(s) && IsRun(s, steps) && AlwaysRoom(s, steps)
    ensures Inv(After(s, steps))
    decreases |steps|
  {
    if steps != [] {
      StepKeeps(s, steps[0]);
      RunKeeps(Do(s, steps[0]), steps[1..]);
    }
  }

  /** Allocated more often than it has places. */
  ghost predicate Lost(s: State, p: Pkt) { p < s.next && Places(s, p) < Count(s.pool, p) }

  lemma {:induction false} PostLoses(s: State, k: nat, p: Pkt)
    requires k < |s.rings| && AllShaped(s.rings) && Lost(s, p)
    ensures Lost(Post(s, k), p)
  {
    PostPlaces(s, k, p);
  }

  lemma {:induction false} PostManyLoses(s: State, k: nat, n: nat, p: Pkt)
    requires k < |s.rings| && AllShaped(s.rings) && Lost(s, p)
    ensures Lost(PostMany(s, k, n), p)
    decreases n
  {
    if n > 0 {
      PostLoses(s, k, p);
      PostManyLoses(Post(s, k), k, n - 1, p);
    }
  }

  lemma {:induction false} ConsumeLoses(s: State, k: nat, j: nat, stop: nat, p: Pkt)
    requires k < |s.rings| && AllShaped(s.rings) && Lost(s, p)
    ensures Lost(Consume(s, k, j, stop), p)
    decreases stop - j
  {
    if !s.failed && j < stop {
      FreeDescPlaces(s, k, IndexAt(s.rings[k], j), p);
      ConsumeLoses(FreeDesc(s, k, IndexAt(s.rings[k], j)), k, j + 1, stop, p);
    }
  }

  lemma {:induction false} WithLoses(s: State, k: nat, q: Queue, p: Pkt)
    requires k < |s.rings| && AllShaped(s.rings) && q.Shaped() && q.info == s.rings[k].info && Lost(s, p)
    ensures Lost(With(s, k, q), p)
  {
    WithPlaces(s, k, q, p);
  }

  /** A lost buffer never comes back. */
  lemma {:induction false} LossStays(s: State, step: Step, p: Pkt)
    requires Enabled(s, step) && Lost(s, p)
    ensures Lost(Do(s, step), p)
  {
    var k, q := step.k, s.rings[step.k];
    match step
    case NicFetch(_, upTo) => WithLoses(s, k, q.(fetched := upTo), p);
    case NicComplete(_, d) => WithLoses(s, k, AfterComplete(q, d), p);
    case Xmit(_) => PostLoses(s, k, p);
    case Refill(_) => PostManyLoses(s, k, Missing(q), p);
    case Doorbell(_, head) => WithLoses(s, k, q.(told := Follow(q.told, Low16(head))), p);
    case Poll(_, found) =>
      var q1 := q.(cqHead := Follow(q.cqHead, Low16(found)));
      WithLoses(s, k, q1, p);
      ConsumeLoses(With(s, k, q1), k, q.cqTail, q1.cqHead, p);
      var s1 := Consume(With(s, k, q1), k, q.cqTail, q1.cqHead);
      if !s1.failed {
        WithLoses(s1, k, s1.rings[k].(cqTail := q1.cqHead), p);
      }
    case Ack(_, tail) => WithLoses(s, k, q.(acked := Follow(q.acked, Low16(tail))), p);
    case Clean(_, seen) => WithLoses(s, k, CleanSeen(q, seen), p);
  }

  lemma {:induction false} LossLasts(s: State, steps: seq<Step>, p: Pkt)
    requires IsRun(s, steps) && Lost(s, p)
    ensures Lost(After(s, steps), p)
    decreases |steps|
  {
    if steps != [] {
      LossStays(s, steps[0], p);
      LossLasts(Do(s, steps[0]), steps[1..], p);
    }
  }

  /** start_xmit on an occupied slot loses the buffer there. */
  lemma {:induction false} XmitLoses(s: State, k: nat) returns (p: Pkt)
    requires Inv(s) && !s.failed && k < |s.rings| && s.rings[k].info[s.rings[k].HeadSlot()].Some?
    ensures s.rings[k].info[s.rings[k].HeadSlot()] == Some(p) && Lost(Post(s, k), p)
    ensures !Partition(Post(s, k))
  {
    p := s.rings[k].info[s.rings[k].HeadSlot()].value;
    assert PlacedOnce(s, p);
    InRingsOnce(s.rings, k, s.rings[k].HeadSlot());
    PostPlaces(s, k, p);
    assert !PlacedOnce(Post(s, k), p);
  }

  /** The partition survives a run iff every start_xmit finds the slot at the head empty. */
  lemma {:induction false} PartitionExact(s: State, steps: seq<Step>)
    requires Inv(s) && IsRun(s, steps)
    ensures Partition(After(s, steps)) <==> AlwaysRoom(s, steps)
    decreases |steps|
  {
    if steps != [] {
      var s' := Do(s, steps[0]);
      if FindsRoom(s, steps[0]) {
        StepKeeps(s, steps[0]);
        PartitionExact(s', steps[1..]);
      } else {
        var p := XmitLoses(s, steps[0].k);
        LossLasts(s', steps[1..], p);
        assert !PlacedOnce(After(s, steps), p);
        assert After(s, steps) == After(s', steps[1..]);
      }
    }
  }

  // ----- from the start -----

  datatype Shape = Shape(rx: bool, size: nat, cqSize: nat)

  predicate AllSizes(shapes: seq<Shape>) {
    forall k | 0 <= k < |shapes| :: ValidSize(shapes[k].size) && ValidSize(shapes[k].cqSize)
  }

  function NewQueue(h: Shape): Queue {
    Queue(h.rx, seq(h.size, _ => None), [], 0, 0, seq(h.cqSize, _ => 0), 0, 0, [], 0, 0, 0, [])
  }

  function NewQueues(shapes: seq<Shape>): (rings: seq<Queue>)
    ensures |rings| == |shapes|
  {
    seq(|shapes|, k requires 0 <= k < |shapes| => NewQueue(shapes[k]))
  }

  /** The queues as init leaves them. */
  function Boot(shapes: seq<Shape>): State {
    State([], [], 0, NewQueues(shapes), false)
  }

  lemma {:induction false} NoneHeld(info: seq<Option<Pkt>>, p: Pkt)
    requires forall i | 0 <= i < |info| :: info[i].None?
    ensures InSlots(info, p) == 0
  {
    if info != [] {
      NoneHeld(info[..|info| - 1], p);
    }
  }

  lemma {:induction false} NewHoldNone(shapes: seq<Shape>, p: Pkt)
    ensures InRings(NewQueues(shapes), p) == 0
  {
    if shapes != [] {
      var n := |shapes| - 1;
      NewHoldNone(shapes[..n], p);
      assert NewQueues(shapes)[..n] == NewQueues(shapes[..n]);
      NoneHeld(NewQueues(shapes)[n].info, p);
    }
  }

  lemma {:induction false} BootInv(shapes: seq<Shape>)
    requires AllSizes(shapes)
    ensures Inv(Boot(shapes))
  {
    var s := Boot(shapes);
    forall p: Pkt
      ensures PlacedOnce(s, p)
    {
      NewHoldNone(shapes, p);
    }
    forall k | 0 <= k < |s.rings|
      ensures QueueInv(s.rings[k])
    {
      assert s.rings[k] == NewQueue(shapes[k]);
    }
  }

  /** Over all runs from the start: the partition survives iff every start_xmit finds the slot at the
      head empty.  Then no assertion of free_pkt fails, each buffer freed is the one posted with the
      descriptor completed, so that none is freed twice, and the driver fails iff it has found a
      completion whose counter modulo 2^16 is no index of the list. */
  lemma {:induction false} PoolKept(shapes: seq<Shape>, steps: seq<Step>)
    requires AllSizes(shapes) && IsRun(Boot(shapes), steps)
    ensures var s := After(Boot(shapes), steps);
            && (Partition(s) <==> AlwaysRoom(Boot(shapes), steps))
            && (AlwaysRoom(Boot(shapes), steps) ==>
                  && (s.failed <==> exists k :: 0 <= k < |s.rings| && HasFailed(s.rings[k]))
                  && forall k | 0 <= k < |s.rings| :: QueueInv(s.rings[k]))
  {
    BootInv(shapes);
    PartitionExact(Boot(shapes), steps);
    if AlwaysRoom(Boot(shapes), steps) {
      RunKeeps(Boot(shapes), steps);
    }
  }

  /** Reached by a run without a loss. */
  ghost predicate Reaches(s: State, s': State) {
    exists steps :: IsRun(s, steps) && AlwaysRoom(s, steps) && After(s, steps) == s'
  }

  lemma {:induction false} RunExtends(s: State, steps: seq<Step>, step: Step)
    requires IsRun(s, steps) && Enabled(After(s, steps), step)
    ensures IsRun(s, steps + [step]) && After(s, steps + [step]) == Do(After(s, steps), step)
    ensures AlwaysRoom(s, steps) && FindsRoom(After(s, steps), step) ==> AlwaysRoom(s, steps + [step])
    decreases |steps|
  {
    if steps == [] {
      assert (steps + [step])[1..] == [];
    } else {
      RunExtends(Do(s, steps[0]), steps[1..], step);
      assert (steps + [step])[1..] == steps[1..] + [step];
    }
  }

  /** A driver with one transmit queue. */
  function Single(size: nat, cqSize: nat): State { Boot([Shape(false, size, cqSize)]) }

  lemma {:induction false} ReachesInv(size: nat, cqSize: nat, s: State)
    requires ValidSize(size) && ValidSize(cqSize) && Reaches(Single(size, cqSize), s)
    ensures Inv(s)
  {
    var start := Single(size, cqSize);
    BootInv([Shape(false, size, cqSize)]);
    var steps :| IsRun(start, steps) && AlwaysRoom(start, steps) && After(start, steps) == s;
    RunKeeps(start, steps);
  }

  lemma {:induction false} ReachesStep(start: State, s: State, step: Step)
    requires Reaches(start, s) && Enabled(s, step) && FindsRoom(s, step)
    ensures Reaches(start, Do(s, step))
  {
    var steps :| IsRun(start, steps) && AlwaysRoom(start, steps) && After(start, steps) == s;
    RunExtends(start, steps, step);
  }

  /** Where the pointers of its queue are, and whether it has failed. */
  datatype Stage = Stage(head: nat, told: nat, fetched: nat, done: nat, found: nat, acked: nat, clean: nat,
                         failed: bool)

  ghost predicate At(size: nat, cqSize: nat, s: State, g: Stage) {
    && ValidSize(size) && ValidSize(cqSize) && Reaches(Single(size, cqSize), s)
    && |s.rings| == 1 && s.failed == g.failed
    && var q := s.rings[0];
       && !q.rx && q.Size() == size && q.Head() == g.head && q.told == g.told && q.fetched == g.fetched
       && |q.done| == g.done && (forall i | 0 <= i < g.done :: q.done[i] == i)
       && q.cqHead == g.found && q.acked == g.acked && q.tail == q.clean == g.clean
  }

  /** `m` packets have come and gone. */
  function Quiet(m: nat): Stage { Stage(m, m, m, m, m, m, m, false) }

  lemma {:induction false} PutOne(size: nat, cqSize: nat, s: State, m: nat) returns (s': State)
    requires At(size, cqSize, s, Quiet(m))
    ensures At(size, cqSize, s', Stage(m + 1, m, m, m, m, m, m, false))
  {
    ReachesInv(size, cqSize, s);
    HeadEmpty(s.rings[0]);
    ReachesStep(Single(size, cqSize), s, Xmit(0));
    s' := Do(s, Xmit(0));
  }

  lemma {:induction false} SendOne(size: nat, cqSize: nat, s: State, m: nat) returns (s': State)
    requires At(size, cqSize, s, Quiet(m))
    ensures At(size, cqSize, s', Stage(m + 1, m + 1, m, m, m, m, m, false))
  {
    var s1 := PutOne(size, cqSize, s, m);
    ReachesInv(size, cqSize, s1);
    DoorbellInv(s1.rings[0], m + 1);
    ReachesStep(Single(size, cqSize), s1, Doorbell(0, m + 1));
    s' := Do(s1, Doorbell(0, m + 1));
  }

  lemma {:induction false} CompleteOne(size: nat, cqSize: nat, s: State, m: nat) returns (s': State)
    requires At(size, cqSize, s, Stage(m + 1, m + 1, m, m, m, m, m, false))
    ensures At(size, cqSize, s', Stage(m + 1, m + 1, m + 1, m + 1, m, m, m, false))
  {
    ReachesInv(size, cqSize, s);
    ReachesStep(Single(size, cqSize), s, NicFetch(0, m + 1));
    var s1 := Do(s, NicFetch(0, m + 1));
    ReachesStep(Single(size, cqSize), s1, NicComplete(0, m));
    s' := Do(s1, NicComplete(0, m));
  }

  lemma {:induction false} FindOne(size: nat, cqSize: nat, s: State, m: nat) returns (s': State)
    requires At(size, cqSize, s, Stage(m + 1, m + 1, m + 1, m + 1, m, m, m, false))
    ensures At(size, cqSize, s', Stage(m + 1, m + 1, m + 1, m + 1, m + 1, m, m, m % TWO16 >= size))
  {
    ReachesInv(size, cqSize, s);
    PollKeeps(s, 0, m + 1);
    OnlyOne(s.rings[0].done, size, m);
    ReachesStep(Single(size, cqSize), s, Poll(0, m + 1));
    s' := Do(s, Poll(0, m + 1));
  }

  lemma {:induction false} SettleOne(size: nat, cqSize: nat, s: State, m: nat) returns (s': State)
    requires At(size, cqSize, s, Stage(m + 1, m + 1, m + 1, m + 1, m + 1, m, m, false))
    ensures At(size, cqSize, s', Quiet(m + 1))
  {
    ReachesInv(size, cqSize, s);
    AckInv(s.rings[0], m + 1);
    ReachesStep(Single(size, cqSize), s, Ack(0, m + 1));
    var s1 := Do(s, Ack(0, m + 1));
    ReachesInv(size, cqSize, s1);
    var q := s1.rings[0];
    assert q.done[m] == m && q.done[..m + 1] == q.done && Freed(q, m);
    CleanInv(q, m + 1);
    CleansAll(q);
    ReachesStep(Single(size, cqSize), s1, Clean(0, m + 1));
    s' := Do(s1, Clean(0, m + 1));
  }

  lemma {:induction false} CleansAll(q: Queue)
    requires QueueInv(q) && q.clean + 1 == q.tail + 1 == q.Head() == q.fetched
    requires Freed(q, q.clean)
    ensures CleanSeen(q, q.Head()).clean == q.Head()
  {
    var q1 := q.(tail := q.Head());
    FollowBounds(q.tail, q.Head());
    SameSlots(q, q1);
    assert SlotHolds(q, q.clean);
    assert Skip(q1, q1.clean) == Skip(q1, q1.clean + 1);
  }

  lemma {:induction false} Rounds(size: nat, cqSize: nat, m: nat) returns (s: State)
    requires ValidSize(size) && ValidSize(cqSize) && m <= size
    ensures At(size, cqSize, s, Quiet(m))
    decreases m
  {
    if m == 0 {
      s := Single(size, cqSize);
      assert s.rings[0] == NewQueue(Shape(false, size, cqSize));
      assert IsRun(s, []) && AlwaysRoom(s, []) && After(s, []) == s;
    } else {
      s := Rounds(size, cqSize, m - 1);
      s := SendOne(size, cqSize, s, m - 1);
      s := CompleteOne(size, cqSize, s, m - 1);
      s := FindOne(size, cqSize, s, m - 1);
      s := SettleOne(size, cqSize, s, m - 1);
    }
  }

  /** Packets sent one at a time, on a ring of any size, bring the driver down with the completion of
      descriptor number `size`. */
  lemma {:induction false} IndexFails(size: nat, cqSize: nat) returns (s: State)
    requires ValidSize(size) && ValidSize(cqSize)
    ensures Reaches(Single(size, cqSize), s) && s.failed
    ensures |s.rings| == 1 && s.rings[0].Head() == |s.rings[0].done| == size + 1
  {
    s := Rounds(size, cqSize, size);
    s := SendOne(size, cqSize, s, size);
    s := CompleteOne(size, cqSize, s, size);
    s := FindOne(size, cqSize, s, size);
  }

  /** `m` packets are sent, and nothing else has happened. */
  ghost predicate Sent(size: nat, cqSize: nat, s: State, m: nat) {
    && ValidSize(size) && ValidSize(cqSize) && Reaches(Single(size, cqSize), s)
    && |s.rings| == 1 && !s.failed
    && !s.rings[0].rx && s.rings[0].Size() == size && s.rings[0].Head() == m && s.rings[0].taken == []
  }

  lemma {:induction false} SendMore(size: nat, cqSize: nat, s: State, m: nat) returns (s': State)
    requires Sent(size, cqSize, s, m) && m < size
    ensures Sent(size, cqSize, s', m + 1)
  {
    ReachesInv(size, cqSize, s);
    HeadEmpty(s.rings[0]);
    ReachesStep(Single(size, cqSize), s, Xmit(0));
    s' := Do(s, Xmit(0));
  }

  lemma {:induction false} SendMany(size: nat, cqSize: nat, m: nat) returns (s: State)
    requires ValidSize(size) && ValidSize(cqSize) && m <= size
    ensures Sent(size, cqSize, s, m)
    decreases m
  {
    if m == 0 {
      s := Single(size, cqSize);
      assert s.rings[0] == NewQueue(Shape(false, size, cqSize));
      assert IsRun(s, []) && AlwaysRoom(s, []) && After(s, []) == s;
    } else {
      s := SendMany(size, cqSize, m - 1);
      s := SendMore(size, cqSize, s, m - 1);
    }
  }

  /** As many packets as the ring has slots, and one more: on a ring of any size the last one costs the
      buffer `p` of the first. */
  lemma {:induction false} OverrunLoses(size: nat, cqSize: nat) returns (s: State, p: Pkt)
    requires ValidSize(size) && ValidSize(cqSize)
    ensures Reaches(Single(size, cqSize), s) && Enabled(s, Xmit(0)) && s.rings[0].Head() == size
    ensures !FindsRoom(s, Xmit(0)) && Lost(Do(s, Xmit(0)), p)
  {
    s := SendMany(size, cqSize, size);
    ReachesInv(size, cqSize, s);
    HeadEmpty(s.rings[0]);
    assert !Freed(s.rings[0], 0);
    p := XmitLoses(s, 0);
  }
}
