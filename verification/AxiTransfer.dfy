/** How an AXI master cuts a byte transfer into beats and bounded bursts. */
module AxiTransfer {
  import opened Arith

  type byte = x: nat | x < 256

  datatype BurstType = Fixed | Incr | Wrap

  /** One entry of an address queue; `length` is the number of beats less one, as on the bus. */
  datatype Burst = Burst(addr: nat, id: nat, length: nat, nb: nat, kind: BurstType)

  function Min(a: int, b: int): int { if a < b then a else b }

  function Max(a: int, b: int): int { if a < b then b else a }

  /** A bus of `bw` byte lanes and beats of `nb` bytes.  The widths the code allows, the powers of
      two up to 128, are the divisors of 4096 up to 128. */
  predicate Widths(bw: nat, nb: nat) {
    0 < nb <= bw <= 128 && Mod(0x1000, bw) == 0 && Mod(bw, nb) == 0
  }

  lemma {:induction false} PowersAreWidths(bw: nat, nb: nat)
    requires PowerOfTwo(bw) && PowerOfTwo(nb) && 0 < nb <= bw <= 128
    ensures Widths(bw, nb)
  {
    assert PowerOfTwo(0x1000);
    PowersDivide(bw, 0x1000);
    PowersDivide(nb, bw);
  }

  /** The number of beats of `nb` bytes that a transfer of `len` bytes takes. */
  function Cycles(addr: nat, len: nat, nb: nat): nat
    requires nb > 0
  {
    Div(len + nb - 1 + Mod(addr, nb), nb)
  }

  lemma {:induction false} Aligned(a: nat, k: nat, n: nat)
    requires n > 0 && Mod(a, n) == 0
    ensures Mod(a + Times(k, n), n) == 0
  {
    if k > 0 {
      Aligned(a, k - 1, n);
    }
  }

  lemma {:induction false} DownAligned(a: nat, n: nat)
    requires n > 0
    ensures Mod(Down(a, n), n) == 0
  {
    DivModTimes(a, n);
    TimesMod(Div(a, n), n, 0);
  }

  /** The beat at `cur` lies in one bus word, and so does each byte `a` of it. */
  lemma {:induction false} InOneWord(cur: nat, a: nat, nb: nat, bw: nat)
    requires Widths(bw, nb) && Mod(cur, nb) == 0 && cur <= a < cur + nb
    ensures Mod(cur, bw) + nb <= bw
    ensures Mod(a, bw) == Mod(cur, bw) + (a - cur)
    ensures Down(cur, bw) + Mod(a, bw) == a
  {
    ModMod(cur, bw, nb);
    MultiplesApart(Mod(cur, bw), bw, nb);
    ModAdd(cur, bw, a - cur);
  }

  /** One beat takes what is left of its `nb` bytes; the other beats take the rest. */
  lemma {:induction false} CyclesStep(addr: nat, len: nat, nb: nat)
    requires nb > 0 && len > 0
    ensures var m := nb - Mod(addr, nb);
            Cycles(addr, len, nb) == if len <= m then 1 else 1 + Cycles(addr + m, len - m, nb)
  {
    var m := nb - Mod(addr, nb);
    NextMultiple(addr, nb);
    if len <= m {
      assert Div(len + Mod(addr, nb) - 1, nb) == 0;
    }
  }

  lemma {:induction false} NextMultiple(a: nat, n: nat)
    requires n > 0
    ensures Mod(a + (n - Mod(a, n)), n) == 0
  {
    if a >= n {
      NextMultiple(a - n, n);
    }
  }

  // ----- bursts -----

  /** How many of `beats` beats fit before the end of the page, from an offset in the page. */
  function Fitting(offset: nat, beats: nat, nb: nat): nat
    requires nb > 0 && offset < 0x1000
  {
    Div(Min(Times(beats, nb), 0x1000 - offset) + nb - 1, nb)
  }

  /** The length of a burst that starts at beat address `cur`. */
  function BurstLen(cur: nat, remaining: nat, nb: nat, maxBurst: int): nat
    requires nb > 0
  {
    Fitting(cur % 0x1000, Min(remaining, Min(Max(maxBurst, 1), 256)), nb)
  }

  lemma {:induction false} TimesMonotone(j: nat, k: nat, n: nat)
    ensures j <= k ==> Times(j, n) <= Times(k, n)
    ensures j < k ==> Times(j, n) + n <= Times(k, n)
  {
    if j < k {
      TimesMonotone(j, k - 1, n);
    }
  }

  /** Some beats fit, at most as many as wanted, even from an unaligned offset. */
  lemma {:induction false} FittingSome(offset: nat, beats: nat, nb: nat)
    requires nb > 0 && offset < 0x1000 && beats > 0
    ensures 1 <= Fitting(offset, beats, nb) <= beats
  {
    TimesMonotone(1, beats, nb);
    var m := Min(Times(beats, nb), 0x1000 - offset) + nb - 1;
    DivModTimes(m, nb);
    TimesMonotone(beats + 1, Div(m, nb), nb);
  }

  /** From an aligned offset they end within the page. */
  lemma {:induction false} FittingInPage(offset: nat, beats: nat, nb: nat)
    requires nb > 0 && Mod(0x1000, nb) == 0 && Mod(offset, nb) == 0 && offset < 0x1000 && beats > 0
    ensures offset + Times(Fitting(offset, beats, nb), nb) <= 0x1000
  {
    var m := Min(Times(beats, nb), 0x1000 - offset) + nb - 1;
    var n := Div(m, nb);
    DivModTimes(m, nb);
    Aligned(offset, n, nb);
    if offset + Times(n, nb) > 0x1000 {
      MultiplesApart(0x1000, offset + Times(n, nb), nb);
    }
  }

  /** The bursts for `remaining` beats from `cur`: as long as allowed, one after the other, with
      cycling IDs. */
  function Plan(cur: nat, remaining: nat, nb: nat, maxBurst: int, id: nat, ids: nat,
                kind: BurstType): seq<Burst>
    requires nb > 0 && ids > 0
    decreases remaining
  {
    if remaining == 0 then []
    else
      BurstBounds(cur, remaining, nb, maxBurst);
      var n := BurstLen(cur, remaining, nb, maxBurst);
      [Burst(cur, id, n - 1, nb, kind)]
      + Plan(cur + Times(n, nb), remaining - n, nb, maxBurst, Mod(id + 1, ids), ids, kind)
  }

  lemma {:induction false} BurstBounds(cur: nat, remaining: nat, nb: nat, maxBurst: int)
    requires nb > 0 && remaining > 0
    ensures 1 <= BurstLen(cur, remaining, nb, maxBurst) <= Min(remaining, 256)
    ensures BurstLen(cur, remaining, nb, maxBurst) <= Max(maxBurst, 1)
  {
    FittingSome(cur % 0x1000, Min(remaining, Min(Max(maxBurst, 1), 256)), nb);
  }

  /** The checks of the RAM on an incrementing burst. */
  predicate Legal(b: Burst, bw: nat) {
    && 0 < b.nb <= bw && b.length <= 255
    && Down(b.addr, b.nb) % 0x1000 + Times(b.length + 1, b.nb) <= 0x1000
  }

  lemma {:induction false} BurstLegal(cur: nat, remaining: nat, bw: nat, nb: nat, maxBurst: int, n: nat, id: nat,
                   kind: BurstType)
    requires Widths(bw, nb) && Mod(cur, nb) == 0 && remaining > 0
    requires n == BurstLen(cur, remaining, nb, maxBurst)
    ensures 1 <= n <= remaining
    ensures Legal(Burst(cur, id, n - 1, nb, kind), bw)
  {
    ModMod(0x1000, bw, nb);
    BurstBounds(cur, remaining, nb, maxBurst);
    ModIs(cur, 0x1000);
    ModMod(cur, 0x1000, nb);
    FittingInPage(cur % 0x1000, Min(remaining, Min(Max(maxBurst, 1), 256)), nb);
  }

  lemma {:induction false} PlanUnfolds(cur: nat, remaining: nat, nb: nat, maxBurst: int, n: nat,
                                       b: Burst, cur': nat, remaining': nat, id': nat, ids: nat)
    requires nb > 0 && ids > 0 && remaining > 0 && n == BurstLen(cur, remaining, nb, maxBurst)
    requires 1 <= n <= remaining && b == Burst(cur, b.id, n - 1, nb, b.kind)
    requires cur' == cur + Times(n, nb) && remaining' == remaining - n && id' == Mod(b.id + 1, ids)
    ensures Plan(cur, remaining, nb, maxBurst, b.id, ids, b.kind)
         == [b] + Plan(cur', remaining', nb, maxBurst, id', ids, b.kind)
  {
  }

  /** Every burst the master ever issues has 1 to 256 beats and stays inside its 4 KiB page. */
  lemma {:induction false} PlanLegal(cur: nat, remaining: nat, bw: nat, nb: nat, maxBurst: int,
                                     id: nat, ids: nat, kind: BurstType)
    requires Widths(bw, nb) && Mod(cur, nb) == 0 && ids > 0
    ensures forall b | b in Plan(cur, remaining, nb, maxBurst, id, ids, kind) :: Legal(b, bw)
    decreases remaining
  {
    if remaining > 0 {
      var n := BurstLen(cur, remaining, nb, maxBurst);
      BurstLegal(cur, remaining, bw, nb, maxBurst, n, id, kind);
      Aligned(cur, n, nb);
      var cur', remaining', id' := cur + Times(n, nb), remaining - n, Mod(id + 1, ids);
      var b := Burst(cur, id, n - 1, nb, kind);
      PlanUnfolds(cur, remaining, nb, maxBurst, n, b, cur', remaining', id', ids);
      PlanLegal(cur', remaining', bw, nb, maxBurst, id', ids, kind);
    }
  }

  // ----- as few bursts as the rules allow -----

  /** The most beats a burst may have. */
  function Limit(maxBurst: int): nat { Min(Max(maxBurst, 1), 256) }

  function EndOf(b: Burst): nat { b.addr + Times(b.length + 1, b.nb) }

  /** A burst that does not take all beats has as many as it may, or ends at a page boundary. */
  lemma {:induction false} FittingMost(offset: nat, beats: nat, nb: nat)
    requires nb > 0 && Mod(0x1000, nb) == 0 && Mod(offset, nb) == 0 && offset < 0x1000 && beats > 0
    ensures Fitting(offset, beats, nb) == beats || offset + Times(Fitting(offset, beats, nb), nb) == 0x1000
  {
    if Times(beats, nb) <= 0x1000 - offset {
      TimesMod(beats, nb, nb - 1);
    } else {
      FittingInPage(offset, beats, nb);
      DivModTimes(0x1000 - offset + nb - 1, nb);
    }
  }

  lemma {:induction false} BurstMost(cur: nat, remaining: nat, bw: nat, nb: nat, maxBurst: int, n: nat)
    requires Widths(bw, nb) && Mod(cur, nb) == 0 && remaining > 0 && n == BurstLen(cur, remaining, nb, maxBurst)
    ensures n <= Limit(maxBurst)
    ensures n == remaining || n == Limit(maxBurst) || (cur + Times(n, nb)) % 0x1000 == 0
  {
    BurstBounds(cur, remaining, nb, maxBurst);
    ModMod(0x1000, bw, nb);
    ModIs(cur, 0x1000);
    ModMod(cur, 0x1000, nb);
    FittingMost(cur % 0x1000, Min(remaining, Limit(maxBurst)), nb);
  }

  /** Burst `i` of a plan for the beats in [cur, end): it starts where the one before ends, the last one ends
      at `end`, and any other is as long as the limit and the page allow; the IDs count up. */
  ghost predicate Planned(plan: seq<Burst>, i: nat, cur: nat, end: nat, nb: nat, limit: nat, id: nat, ids: nat,
                          kind: BurstType)
    requires i < |plan| && ids > 0
  {
    var b := plan[i];
    && b.nb == nb && b.kind == kind && b.length + 1 <= limit
    && b.id == (if i == 0 then id else Mod(id + i, ids)) && (i == 0 ==> b.addr == cur)
    && if i == |plan| - 1 then EndOf(b) == end
       else plan[i + 1].addr == EndOf(b) && (b.length + 1 == limit || EndOf(b) % 0x1000 == 0)
  }

  lemma {:induction false} PlannedLater(plan: seq<Burst>, b: Burst, i: nat, cur: nat, cur': nat, end: nat,
                                        nb: nat, limit: nat, id: nat, id': nat, ids: nat, kind: BurstType)
    requires i < |plan| && ids > 0 && id' == Mod(id + 1, ids)
    requires Planned(plan, i, cur', end, nb, limit, id', ids, kind)
    ensures Planned([b] + plan, i + 1, cur, end, nb, limit, id, ids, kind)
  {
    ModPlus(id + 1, ids, i);
    ModPlus(id + 1, ids, 0);
  }

  lemma {:induction false} PlannedFirst(b: Burst, rest: seq<Burst>, n: nat, remaining: nat, end: nat, limit: nat,
                                        ids: nat)
    requires ids > 0 && 1 <= n <= remaining && b.length + 1 == n <= limit
    requires end == b.addr + Times(remaining, b.nb) && (rest == [] <==> n == remaining)
    requires rest != [] ==> rest[0].addr == EndOf(b)
    requires n == remaining || n == limit || EndOf(b) % 0x1000 == 0
    ensures Planned([b] + rest, 0, b.addr, end, b.nb, limit, b.id, ids, b.kind)
  {
  }

  /** What is left after the `n` beats of the first burst. */
  lemma {:induction false} RestAligned(cur: nat, remaining: nat, nb: nat, n: nat, cur': nat)
    requires nb > 0 && Mod(cur, nb) == 0 && n <= remaining && cur' == cur + Times(n, nb)
    ensures Mod(cur', nb) == 0 && cur' + Times(remaining - n, nb) == cur + Times(remaining, nb)
  {
    Aligned(cur, n, nb);
    TimesAdd(n, remaining - n, nb);
  }

  lemma {:induction false} FirstPlanned(remaining: nat, bw: nat, maxBurst: int, b: Burst, n: nat, cur': nat,
                                        rest: seq<Burst>, id': nat, ids: nat)
    requires Widths(bw, b.nb) && Mod(b.addr, b.nb) == 0 && ids > 0 && remaining > 0
    requires n == BurstLen(b.addr, remaining, b.nb, maxBurst) && cur' == b.addr + Times(n, b.nb)
    requires 1 <= n <= remaining && b.length + 1 == n
    requires rest == Plan(cur', remaining - n, b.nb, maxBurst, id', ids, b.kind)
    ensures Planned([b] + rest, 0, b.addr, b.addr + Times(remaining, b.nb), b.nb, Limit(maxBurst), b.id, ids,
                    b.kind)
  {
    BurstMost(b.addr, remaining, bw, b.nb, maxBurst, n);
    PlanEmpty(cur', remaining - n, b.nb, maxBurst, id', ids, b.kind);
    PlannedFirst(b, rest, n, remaining, b.addr + Times(remaining, b.nb), Limit(maxBurst), ids);
  }

  /** The bursts of a transfer: exactly its beats, in order, and no burst ends sooner than it has to. */
  lemma {:induction false} PlanExact(cur: nat, remaining: nat, bw: nat, nb: nat, maxBurst: int, id: nat,
                                     ids: nat, kind: BurstType, i: nat)
    requires Widths(bw, nb) && Mod(cur, nb) == 0 && ids > 0
    requires i < |Plan(cur, remaining, nb, maxBurst, id, ids, kind)|
    ensures Planned(Plan(cur, remaining, nb, maxBurst, id, ids, kind), i, cur, cur + Times(remaining, nb), nb,
                    Limit(maxBurst), id, ids, kind)
    decreases remaining
  {
    var n := BurstLen(cur, remaining, nb, maxBurst);
    BurstBounds(cur, remaining, nb, maxBurst);
    var cur', left, id', b := cur + Times(n, nb), remaining - n, Mod(id + 1, ids), Burst(cur, id, n - 1, nb, kind);
    var rest := Plan(cur', left, nb, maxBurst, id', ids, kind);
    PlanUnfolds(cur, remaining, nb, maxBurst, n, b, cur', left, id', ids);
    if i == 0 {
      FirstPlanned(remaining, bw, maxBurst, b, n, cur', rest, id', ids);
    } else {
      RestAligned(cur, remaining, nb, n, cur');
      PlanExact(cur', left, bw, nb, maxBurst, id', ids, kind, i - 1);
      PlannedLater(rest, b, i - 1, cur, cur', cur + Times(remaining, nb), nb, Limit(maxBurst), id, id', ids, kind);
    }
  }

  lemma {:induction false} PlanEmpty(cur: nat, remaining: nat, nb: nat, maxBurst: int, id: nat, ids: nat,
                                     kind: BurstType)
    requires nb > 0 && ids > 0
    ensures Plan(cur, remaining, nb, maxBurst, id, ids, kind) == [] <==> remaining == 0
    ensures remaining > 0 ==> Plan(cur, remaining, nb, maxBurst, id, ids, kind)[0].addr == cur
  {
  }
}
