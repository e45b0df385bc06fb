/** Reads over the same bursts: what the RAM answers and what the master makes of the answers. */
module AxiReads {
  import opened Arith
  import opened Lanes
  import opened AxiTransfer
  import opened AxiRefinement

  datatype ReadBeat = ReadBeat(id: nat, data: nat, last: bool)

  // ----- the RAM -----

  /** The bus word that holds the byte at `cur`. */
  function ReadWord(mem: seq<byte>, cur: nat, bw: nat): nat
    requires RamFor(|mem|, bw)
  {
    WordFits(|mem|, cur, bw);
    var p := Mod(Down(cur, bw), |mem|);
    Pack(mem[p..p + bw], 256)
  }

  /** The words of a memory, by address. */
  function Words(mem: seq<byte>, bw: nat): nat -> nat {
    cur => if RamFor(|mem|, bw) then ReadWord(mem, cur, bw) else 0
  }

  /** The answers to `n` more beats of a burst. */
  function RamReadBurst(word: nat -> nat, b: Burst, cur: nat, n: nat): (beats: seq<ReadBeat>)
    requires b.nb > 0
    ensures |beats| == n
    decreases n
  {
    if n == 0 then []
    else [ReadBeat(b.id, word(cur), n == 1)] + RamReadBurst(word, b, NextAddr(b, cur), n - 1)
  }

  datatype Answers = Answers(beats: seq<ReadBeat>) | NoAnswers

  /** The answers to a list of bursts; `NoAnswers` stands for a failed assertion of the RAM. */
  function RamReads(word: nat -> nat, bursts: seq<Burst>, bw: nat): Answers
    decreases |bursts|
  {
    if bursts == [] then Answers([])
    else if !Accepted(bursts[0], bw) then NoAnswers
    else
      var b := bursts[0];
      match RamReads(word, bursts[1..], bw)
      case NoAnswers => NoAnswers
      case Answers(rest) => Answers(RamReadBurst(word, b, Down(b.addr, b.nb), b.length + 1) + rest)
  }

  // ----- the master -----

  /** `[(word >> j*8) & 0xff for j in range(start, stop)]` */
  function LanesOf(word: nat, start: nat, stop: nat): (bytes: seq<byte>)
    ensures |bytes| == if start < stop then stop - start else 0
    decreases stop
  {
    if start >= stop then []
    else
      LaneBelow(word, stop - 1);
      LanesOf(word, start, stop - 1) + [Lane(word, stop - 1, 256)]
  }

  lemma {:induction false} LaneBelow(word: nat, j: nat)
    ensures Lane(word, j, 256) < 256
    decreases j
  {
    if j > 0 {
      LaneBelow(word / 256, j - 1);
    }
  }

  /** The bytes taken from the beat at `cur` when `addr` is wanted next. */
  function BytesOf(word: nat, addr: nat, cur: nat, bw: nat, nb: nat): seq<byte>
    requires bw > 0
  {
    LanesOf(word, Mod(addr, bw), Mod(cur, bw) + nb)
  }

  type Queues = map<nat, seq<ReadBeat>>

  function QueueOf(queues: Queues, id: nat): seq<ReadBeat> {
    if id in queues then queues[id] else []
  }

  /** The state of a read: what is left in the queues, the byte wanted next, the beat it is in, and
      the bytes so far.  `Stuck` stands for a failed assertion or an endless wait. */
  datatype Reader = Reader(queues: Queues, addr: nat, cur: nat, data: seq<byte>) | Stuck

  function TakeBeat(r: Reader, id: nat, last: bool, bw: nat, nb: nat): Reader
    requires bw > 0
  {
    if r.Stuck? then Stuck
    else
      var q := QueueOf(r.queues, id);
      if q == [] || q[0].last != last then Stuck
      else Reader(r.queues[id := q[1..]], r.cur + nb, r.cur + nb,
                  r.data + BytesOf(q[0].data, r.addr, r.cur, bw, nb))
  }

  function TakeBurst(r: Reader, id: nat, n: nat, bw: nat, nb: nat): Reader
    requires bw > 0
    decreases n
  {
    if n == 0 then r else TakeBurst(TakeBeat(r, id, n == 1, bw, nb), id, n - 1, bw, nb)
  }

  /** The state after a whole burst. */
  function AfterBurst(r: Reader, b: Burst, bw: nat, nb: nat): Reader
    requires bw > 0
  {
    TakeBurst(r, b.id, b.length + 1, bw, nb)
  }

  function TakeAll(r: Reader, bursts: seq<Burst>, bw: nat, nb: nat): Reader
    requires bw > 0
    decreases |bursts|
  {
    if bursts == [] then r
    else TakeAll(AfterBurst(r, bursts[0], bw, nb), bursts[1..], bw, nb)
  }

  // ----- the queues by ID -----

  function ById(beats: seq<ReadBeat>, id: nat): seq<ReadBeat> {
    if beats == [] then []
    else (if beats[0].id == id then [beats[0]] else []) + ById(beats[1..], id)
  }

  /** The queues hold `beats` and then `more`, in any order that keeps the beats of one ID in
      order. */
  ghost predicate Holds(queues: Queues, beats: seq<ReadBeat>, more: Queues) {
    forall id: nat :: QueueOf(queues, id) == ById(beats, id) + QueueOf(more, id)
  }

  lemma {:induction false} ByIdNext(beat: ReadBeat, rest: seq<ReadBeat>, id: nat)
    ensures ById([beat] + rest, id) == (if beat.id == id then [beat] else []) + ById(rest, id)
  {
    assert ([beat] + rest)[1..] == rest;
  }

  lemma {:induction false} QueueNext(queues: Queues, beat: ReadBeat, rest: seq<ReadBeat>,
                                     more: Queues)
    requires Holds(queues, [beat] + rest, more)
    ensures QueueOf(queues, beat.id)
         == [beat] + (ById(rest, beat.id) + QueueOf(more, beat.id))
  {
    ByIdNext(beat, rest, beat.id);
  }

  lemma {:induction false} HoldsNext(queues: Queues, beat: ReadBeat, rest: seq<ReadBeat>, more: Queues)
    requires Holds(queues, [beat] + rest, more)
    ensures QueueOf(queues, beat.id) != [] && QueueOf(queues, beat.id)[0] == beat
    ensures Holds(queues[beat.id := QueueOf(queues, beat.id)[1..]], rest, more)
  {
    QueueNext(queues, beat, rest, more);
    var next := queues[beat.id := QueueOf(queues, beat.id)[1..]];
    forall id: nat
      ensures QueueOf(next, id) == ById(rest, id) + QueueOf(more, id)
    {
      ByIdNext(beat, rest, id);
      if id != beat.id {
        assert QueueOf(next, id) == QueueOf(queues, id);
      }
    }
  }

  // ----- pieces of memory -----

  lemma {:induction false} LoadAppend(mem: seq<byte>, addr: nat, m: nat, n: nat)
    requires |mem| > 0
    ensures Load(mem, addr, m) + Load(mem, addr + m, n) == Load(mem, addr, m + n)
  {
    if n > 0 {
      LoadAppend(mem, addr, m, n - 1);
    }
  }

  lemma {:induction false} LoadPrefix(mem: seq<byte>, addr: nat, m: nat, n: nat)
    requires |mem| > 0 && m <= n
    ensures Load(mem, addr, n)[..m] == Load(mem, addr, m)
  {
    LoadAppend(mem, addr, m, n - m);
  }

  /** The bytes of the memory at addresses `a` to `b`. */
  function Between(mem: seq<byte>, a: nat, b: nat): seq<byte>
    requires |mem| > 0 && a <= b
  {
    Load(mem, a, b - a)
  }

  lemma {:induction false} BetweenJoin(mem: seq<byte>, a: nat, b: nat, c: nat)
    requires |mem| > 0 && a <= b <= c
    ensures Between(mem, a, b) + Between(mem, b, c) == Between(mem, a, c)
  {
    LoadAppend(mem, a, b - a, c - b);
  }

  lemma {:induction false} WordLane(mem: seq<byte>, cur: nat, bw: nat, j: nat)
    requires RamFor(|mem|, bw) && j < bw
    ensures Lane(ReadWord(mem, cur, bw), j, 256) == mem[Mod(Down(cur, bw) + j, |mem|)]
  {
    WordFits(|mem|, cur, bw);
    var p := Mod(Down(cur, bw), |mem|);
    LaneOfPack(mem[p..p + bw], j, 256);
    ModAdd(Down(cur, bw), |mem|, j);
  }

  /** The lanes of a bus word are the bytes of the memory. */
  lemma {:induction false} LanesLoad(mem: seq<byte>, cur: nat, bw: nat, start: nat, stop: nat, a: nat)
    requires RamFor(|mem|, bw) && start <= stop <= bw && a == Down(cur, bw) + start
    ensures LanesOf(ReadWord(mem, cur, bw), start, stop) == Load(mem, a, stop - start)
    decreases stop
  {
    if start < stop {
      LanesLoad(mem, cur, bw, start, stop - 1, a);
      WordLane(mem, cur, bw, stop - 1);
    }
  }

  // ----- a read in progress -----

  /** The answers to `beats` are still to be taken; so far the bytes from `start` on were. */
  ghost predicate Reading(r: Reader, mem: seq<byte>, start: nat, beats: seq<ReadBeat>, more: Queues,
                          nb: nat)
    requires nb > 0 && |mem| > 0
  {
    && r.Reader? && start <= r.addr && Mod(r.cur, nb) == 0 && r.cur <= r.addr < r.cur + nb
    && Holds(r.queues, beats, more) && r.data == Between(mem, start, r.addr)
  }

  lemma {:induction false} BeatBytes(mem: seq<byte>, addr: nat, cur: nat, next: nat, bw: nat, nb: nat)
    requires Widths(bw, nb) && RamFor(|mem|, bw) && next == cur + nb
    requires Mod(cur, nb) == 0 && cur <= addr < next
    ensures BytesOf(ReadWord(mem, cur, bw), addr, cur, bw, nb) == Between(mem, addr, next)
  {
    InOneWord(cur, addr, nb, bw);
    LanesLoad(mem, cur, bw, Mod(addr, bw), Mod(cur, bw) + nb, addr);
  }

  lemma {:induction false} TakesBeat(r: Reader, beat: ReadBeat, q: seq<ReadBeat>, next: nat, bw: nat,
                                     nb: nat)
    requires bw > 0 && r.Reader? && next == r.cur + nb
    requires q == QueueOf(r.queues, beat.id) && q != [] && q[0] == beat
    ensures TakeBeat(r, beat.id, beat.last, bw, nb)
         == Reader(r.queues[beat.id := q[1..]], next, next,
                   r.data + BytesOf(beat.data, r.addr, r.cur, bw, nb))
  {
  }

  lemma {:induction false} ReadingNext(r: Reader, queues: Queues, mem: seq<byte>, start: nat,
                                       next: nat, beats: seq<ReadBeat>, more: Queues,
                                       piece: seq<byte>, rest: seq<ReadBeat>, nb: nat)
    requires nb > 0 && |mem| > 0 && r.Reader? && next == r.cur + nb
    requires Reading(r, mem, start, beats, more, nb) && Holds(queues, rest, more)
    requires piece == Between(mem, r.addr, next)
    ensures Reading(Reader(queues, next, next, r.data + piece), mem, start, rest, more, nb)
  {
    BetweenJoin(mem, start, r.addr, next);
    ModAdd(r.cur, nb, 0);
  }

  lemma {:induction false} BeatTaken(r: Reader, mem: seq<byte>, start: nat, beat: ReadBeat,
                                     rest: seq<ReadBeat>, more: Queues, next: nat, bw: nat, nb: nat)
    requires Widths(bw, nb) && RamFor(|mem|, bw) && r.Reader? && next == r.cur + nb
    requires Reading(r, mem, start, [beat] + rest, more, nb)
    requires beat.data == ReadWord(mem, r.cur, bw)
    ensures Reading(TakeBeat(r, beat.id, beat.last, bw, nb), mem, start, rest, more, nb)
    ensures TakeBeat(r, beat.id, beat.last, bw, nb).cur == next
  {
    HoldsNext(r.queues, beat, rest, more);
    var q := QueueOf(r.queues, beat.id);
    TakesBeat(r, beat, q, next, bw, nb);
    BeatBytes(mem, r.addr, r.cur, next, bw, nb);
    ReadingNext(r, r.queues[beat.id := q[1..]], mem, start, next, [beat] + rest, more,
                BytesOf(beat.data, r.addr, r.cur, bw, nb), rest, nb);
  }

  /** The answers to `n` more beats of a burst, and then `rest`. */
  function BurstFirst(word: nat -> nat, b: Burst, cur: nat, n: nat, rest: seq<ReadBeat>)
    : seq<ReadBeat>
    requires b.nb > 0
  {
    RamReadBurst(word, b, cur, n) + rest
  }

  lemma {:induction false} FirstAnswer(word: nat -> nat, b: Burst, cur: nat, next: nat, n: nat,
                                       m: nat, rest: seq<ReadBeat>)
    requires b.nb > 0 && b.kind.Incr? && n == m + 1 && next == cur + b.nb
    ensures BurstFirst(word, b, cur, n, rest)
         == [ReadBeat(b.id, word(cur), n == 1)] + BurstFirst(word, b, next, m, rest)
  {
  }

  lemma {:induction false} BurstTaken(r: Reader, mem: seq<byte>, start: nat, word: nat -> nat,
                                      b: Burst, cur: nat, n: nat, rest: seq<ReadBeat>, more: Queues,
                                      bw: nat)
    requires Widths(bw, b.nb) && RamFor(|mem|, bw) && b.kind.Incr?
    requires r.Reader? && r.cur == cur && word == Words(mem, bw)
    requires Reading(r, mem, start, BurstFirst(word, b, cur, n, rest), more, b.nb)
    ensures Reading(TakeBurst(r, b.id, n, bw, b.nb), mem, start, rest, more, b.nb)
    ensures TakeBurst(r, b.id, n, bw, b.nb).cur == cur + Times(n, b.nb)
    decreases n
  {
    if n > 0 {
      var next, m := cur + b.nb, n - 1;
      var beat := ReadBeat(b.id, word(cur), n == 1);
      FirstAnswer(word, b, cur, next, n, m, rest);
      BeatTaken(r, mem, start, beat, BurstFirst(word, b, next, m, rest), more, next, bw, b.nb);
      BurstTaken(TakeBeat(r, b.id, n == 1, bw, b.nb), mem, start, word, b, next, m, rest, more, bw);
    } else {
      assert RamReadBurst(word, b, cur, 0) + rest == rest;
    }
  }

  // ----- all bursts -----

  lemma {:induction false} AnswersStep(word: nat -> nat, b: Burst, n: nat, bursts: seq<Burst>,
                                       later: seq<ReadBeat>, bw: nat)
    requires b.nb > 0 && Accepted(b, bw) && Mod(b.addr, b.nb) == 0 && n == b.length + 1
    requires RamReads(word, bursts, bw) == Answers(later)
    ensures RamReads(word, [b] + bursts, bw) == Answers(BurstFirst(word, b, b.addr, n, later))
  {
    assert ([b] + bursts)[1..] == bursts;
    assert Down(b.addr, b.nb) == b.addr;
  }

  lemma {:induction false} BurstDone(r: Reader, mem: seq<byte>, start: nat, word: nat -> nat,
                                     b: Burst, cur: nat, cur': nat, n: nat, rest: seq<ReadBeat>,
                                     more: Queues, bw: nat, nb: nat)
    requires Widths(bw, nb) && RamFor(|mem|, bw) && b.kind.Incr? && b.nb == nb && n == b.length + 1
    requires r.Reader? && r.cur == cur && cur' == cur + Times(n, nb) && word == Words(mem, bw)
    requires Reading(r, mem, start, BurstFirst(word, b, cur, n, rest), more, nb)
    ensures Reading(AfterBurst(r, b, bw, nb), mem, start, rest, more, nb)
    ensures AfterBurst(r, b, bw, nb).cur == cur'
  {
    BurstTaken(r, mem, start, word, b, cur, n, rest, more, bw);
  }

  lemma {:induction false} TakeAllStep(r: Reader, b: Burst, bursts: seq<Burst>, bw: nat, nb: nat)
    requires bw > 0
    ensures TakeAll(r, [b] + bursts, bw, nb) == TakeAll(AfterBurst(r, b, bw, nb), bursts, bw, nb)
  {
    assert ([b] + bursts)[1..] == bursts;
  }

  /** From `r` the master takes `beats` as the bytes up to `end`, and leaves `rest`. */
  ghost predicate Takes(r: Reader, mem: seq<byte>, start: nat, bursts: seq<Burst>,
                        rest: seq<ReadBeat>, more: Queues, end: nat, bw: nat, nb: nat)
    requires nb > 0 && bw > 0 && |mem| > 0
  {
    var r' := TakeAll(r, bursts, bw, nb);
    Reading(r', mem, start, rest, more, nb) && r'.cur == end
  }

  lemma {:induction false} TakesStep(r: Reader, mem: seq<byte>, start: nat, b: Burst,
                                     bursts: seq<Burst>, rest: seq<ReadBeat>, more: Queues, end: nat,
                                     bw: nat, nb: nat)
    requires nb > 0 && bw > 0 && |mem| > 0
    requires Takes(AfterBurst(r, b, bw, nb), mem, start, bursts, rest, more, end, bw, nb)
    ensures Takes(r, mem, start, [b] + bursts, rest, more, end, bw, nb)
  {
    TakeAllStep(r, b, bursts, bw, nb);
  }

  /** The answers to the bursts planned from `cur` on. */
  function PlanAnswers(word: nat -> nat, cur: nat, remaining: nat, nb: nat, maxBurst: int, id: nat,
                       ids: nat): seq<ReadBeat>
    requires nb > 0 && ids > 0
    decreases remaining
  {
    if remaining == 0 then []
    else
      BurstBounds(cur, remaining, nb, maxBurst);
      var n := BurstLen(cur, remaining, nb, maxBurst);
      RamReadBurst(word, Burst(cur, id, n - 1, nb, Incr), cur, n)
      + PlanAnswers(word, cur + Times(n, nb), remaining - n, nb, maxBurst, Mod(id + 1, ids), ids)
  }

  /** Those answers, and then `rest`. */
  function PlanFirst(word: nat -> nat, cur: nat, remaining: nat, nb: nat, maxBurst: int, id: nat,
                     ids: nat, rest: seq<ReadBeat>): seq<ReadBeat>
    requires nb > 0 && ids > 0
  {
    PlanAnswers(word, cur, remaining, nb, maxBurst, id, ids) + rest
  }

  lemma {:induction false} AnswersUnfold(word: nat -> nat, b: Burst, cur: nat, remaining: nat, n: nat,
                                         cur': nat, remaining': nat, maxBurst: int, id': nat,
                                         ids: nat)
    requires b.nb > 0 && ids > 0 && remaining > 0 && n == BurstLen(cur, remaining, b.nb, maxBurst)
    requires 0 < n <= remaining && b == Burst(cur, b.id, n - 1, b.nb, Incr)
    requires cur' == cur + Times(n, b.nb) && remaining' == remaining - n && id' == Mod(b.id + 1, ids)
    ensures PlanAnswers(word, cur, remaining, b.nb, maxBurst, b.id, ids)
         == BurstFirst(word, b, cur, n,
                       PlanAnswers(word, cur', remaining', b.nb, maxBurst, id', ids))
  {
  }

  lemma {:induction false} PlanFirstUnfold(word: nat -> nat, b: Burst, cur: nat, remaining: nat,
                                           n: nat, cur': nat, remaining': nat, maxBurst: int,
                                           id': nat, ids: nat, rest: seq<ReadBeat>)
    requires b.nb > 0 && ids > 0 && remaining > 0 && n == BurstLen(cur, remaining, b.nb, maxBurst)
    requires 0 < n <= remaining && b == Burst(cur, b.id, n - 1, b.nb, Incr)
    requires cur' == cur + Times(n, b.nb) && remaining' == remaining - n && id' == Mod(b.id + 1, ids)
    ensures PlanFirst(word, cur, remaining, b.nb, maxBurst, b.id, ids, rest)
         == BurstFirst(word, b, cur, n,
                       PlanFirst(word, cur', remaining', b.nb, maxBurst, id', ids, rest))
  {
    AnswersUnfold(word, b, cur, remaining, n, cur', remaining', maxBurst, id', ids);
  }

  ghost predicate Answered(word: nat -> nat, cur: nat, remaining: nat, bw: nat, nb: nat,
                           maxBurst: int, id: nat, ids: nat)
    requires nb > 0 && ids > 0
  {
    RamReads(word, Plan(cur, remaining, nb, maxBurst, id, ids, Incr), bw)
    == Answers(PlanAnswers(word, cur, remaining, nb, maxBurst, id, ids))
  }

  lemma {:induction false} AnsweredStep(word: nat -> nat, cur: nat, remaining: nat, n: nat, bw: nat,
                                        nb: nat, maxBurst: int, id: nat, ids: nat, cur': nat,
                                        remaining': nat, id': nat)
    requires Widths(bw, nb) && Mod(cur, nb) == 0 && ids > 0
    requires remaining > 0 && n == BurstLen(cur, remaining, nb, maxBurst) && 1 <= n <= remaining
    requires cur' == cur + Times(n, nb) && remaining' == remaining - n && id' == Mod(id + 1, ids)
    requires Answered(word, cur', remaining', bw, nb, maxBurst, id', ids)
    ensures Answered(word, cur, remaining, bw, nb, maxBurst, id, ids)
  {
    var b := Burst(cur, id, n - 1, nb, Incr);
    BurstLegal(cur, remaining, bw, nb, maxBurst, n, id, Incr);
    PlanUnfolds(cur, remaining, nb, maxBurst, n, b, cur', remaining', id', ids);
    AnswersUnfold(word, b, cur, remaining, n, cur', remaining', maxBurst, id', ids);
    AnswersStep(word, b, n, Plan(cur', remaining', nb, maxBurst, id', ids, Incr),
                PlanAnswers(word, cur', remaining', nb, maxBurst, id', ids), bw);
  }

  /** The RAM accepts every burst of a read. */
  lemma {:induction false} PlanAnswered(word: nat -> nat, cur: nat, remaining: nat, bw: nat, nb: nat,
                                        maxBurst: int, id: nat, ids: nat)
    requires Widths(bw, nb) && Mod(cur, nb) == 0 && ids > 0
    ensures Answered(word, cur, remaining, bw, nb, maxBurst, id, ids)
    decreases remaining
  {
    if remaining > 0 {
      BurstBounds(cur, remaining, nb, maxBurst);
      var n := BurstLen(cur, remaining, nb, maxBurst);
      Aligned(cur, n, nb);
      var cur', remaining', id' := cur + Times(n, nb), remaining - n, Mod(id + 1, ids);
      PlanAnswered(word, cur', remaining', bw, nb, maxBurst, id', ids);
      AnsweredStep(word, cur, remaining, n, bw, nb, maxBurst, id, ids, cur', remaining', id');
    }
  }

  /** The address of the beat `n` beats on. */
  function BeatAddr(cur: nat, n: nat, nb: nat): nat { cur + Times(n, nb) }

  lemma {:induction false} BeatAddrStep(cur: nat, n: nat, cur': nat, all: nat, rest: nat, nb: nat)
    requires cur' == cur + Times(n, nb) && all == n + rest
    ensures BeatAddr(cur', rest, nb) == BeatAddr(cur, all, nb)
  {
    TimesAdd(n, rest, nb);
  }

  lemma {:induction false} PlanTaken(r: Reader, mem: seq<byte>, start: nat, word: nat -> nat,
                                     cur: nat, remaining: nat, end: nat, maxBurst: int, id: nat,
                                     ids: nat, rest: seq<ReadBeat>, more: Queues, bw: nat, nb: nat)
    requires Widths(bw, nb) && RamFor(|mem|, bw) && ids > 0 && word == Words(mem, bw)
    requires r.Reader? && r.cur == cur && end == BeatAddr(cur, remaining, nb)
    requires Reading(r, mem, start, PlanFirst(word, cur, remaining, nb, maxBurst, id, ids, rest), more,
                     nb)
    ensures Takes(r, mem, start, Plan(cur, remaining, nb, maxBurst, id, ids, Incr), rest, more,
                  end, bw, nb)
    decreases remaining
  {
    if remaining > 0 {
      BurstBounds(cur, remaining, nb, maxBurst);
      var n := BurstLen(cur, remaining, nb, maxBurst);
      var b := Burst(cur, id, n - 1, nb, Incr);
      var cur', remaining', id' := cur + Times(n, nb), remaining - n, Mod(id + 1, ids);
      BeatAddrStep(cur, n, cur', remaining, remaining', nb);
      PlanFirstUnfold(word, b, cur, remaining, n, cur', remaining', maxBurst, id', ids, rest);
      BurstDone(r, mem, start, word, b, cur, cur', n,
                PlanFirst(word, cur', remaining', nb, maxBurst, id', ids, rest), more, bw, nb);
      PlanTaken(AfterBurst(r, b, bw, nb), mem, start, word, cur', remaining', end, maxBurst, id',
                ids, rest, more, bw, nb);
      PlanUnfolds(cur, remaining, nb, maxBurst, n, b, cur', remaining', id', ids);
      TakesStep(r, mem, start, b, Plan(cur', remaining', nb, maxBurst, id', ids, Incr), rest, more,
                end, bw, nb);
    } else {
      assert PlanAnswers(word, cur, 0, nb, maxBurst, id, ids) + rest == rest;
    }
  }

  // ----- main results -----

  /** The beats of a transfer reach its end. */
  lemma {:induction false} CyclesCover(addr: nat, len: nat, nb: nat)
    requires nb > 0
    ensures Down(addr, nb) <= addr < Down(addr, nb) + nb && Mod(Down(addr, nb), nb) == 0
    ensures addr + len <= BeatAddr(Down(addr, nb), Cycles(addr, len, nb), nb)
  {
    DownAligned(addr, nb);
    DivModTimes(addr, nb);
    DivModTimes(len + nb - 1 + Mod(addr, nb), nb);
  }

  lemma {:induction false} ReadStarts(addr: nat, nb: nat, mem: seq<byte>, queues: Queues,
                                      beats: seq<ReadBeat>, more: Queues)
    requires nb > 0 && |mem| > 0 && Holds(queues, beats, more)
    ensures Reading(Reader(queues, addr, Down(addr, nb), []), mem, addr, beats, more, nb)
  {
    CyclesCover(addr, 0, nb);
  }

  lemma {:induction false} ReadEnds(r: Reader, addr: nat, len: nat, nb: nat, mem: seq<byte>,
                                    more: Queues)
    requires nb > 0 && |mem| > 0 && r.Reader? && Reading(r, mem, addr, [], more, nb)
    requires r.cur == BeatAddr(Down(addr, nb), Cycles(addr, len, nb), nb)
    ensures len <= |r.data| && r.data[..len] == Load(mem, addr, len)
  {
    CyclesCover(addr, len, nb);
    LoadPrefix(mem, addr, len, r.addr - addr);
  }

  /** The bursts of a read of `len` bytes. */
  function ReadPlan(addr: nat, len: nat, nb: nat, maxBurst: int, id: nat, ids: nat): seq<Burst>
    requires nb > 0 && ids > 0
  {
    Plan(Down(addr, nb), Cycles(addr, len, nb), nb, maxBurst, id, ids, Incr)
  }

  /** What the master hands over: the bytes it gathers from the queues, cut to length. */
  ghost predicate Reads(queues: Queues, addr: nat, len: nat, bursts: seq<Burst>, bw: nat, nb: nat,
                        data: seq<byte>, more: Queues)
    requires bw > 0 && nb > 0
  {
    var r := TakeAll(Reader(queues, addr, Down(addr, nb), []), bursts, bw, nb);
    r.Reader? && len <= |r.data| && data == r.data[..len] && Holds(r.queues, [], more)
  }

  /** The main result for reads: the RAM accepts every burst, and the bytes gathered from the
      answers are those of one direct byte-array load, in whatever order the answers of different
      IDs arrive; the answers to other reads (`more`) stay. */
  lemma {:induction false} ReadRefines(addr: nat, len: nat, bw: nat, nb: nat, maxBurst: int, id: nat,
                                       ids: nat, mem: seq<byte>, queues: Queues, more: Queues)
    requires Widths(bw, nb) && RamFor(|mem|, bw) && ids > 0
    ensures var bursts := ReadPlan(addr, len, nb, maxBurst, id, ids);
            var answers := RamReads(Words(mem, bw), bursts, bw);
            answers.Answers?
            && (Holds(queues, answers.beats, more) ==>
                  Reads(queues, addr, len, bursts, bw, nb, Load(mem, addr, len), more))
  {
    var cur, remaining := Down(addr, nb), Cycles(addr, len, nb);
    var word, end := Words(mem, bw), BeatAddr(cur, remaining, nb);
    var bursts := ReadPlan(addr, len, nb, maxBurst, id, ids);
    CyclesCover(addr, len, nb);
    PlanAnswered(word, cur, remaining, bw, nb, maxBurst, id, ids);
    var beats := RamReads(word, bursts, bw).beats;
    if Holds(queues, beats, more) {
      var r := Reader(queues, addr, cur, []);
      ReadStarts(addr, nb, mem, queues, beats, more);
      assert PlanFirst(word, cur, remaining, nb, maxBurst, id, ids, []) == beats;
      PlanTaken(r, mem, addr, word, cur, remaining, end, maxBurst, id, ids, [], more, bw, nb);
      ReadEnds(TakeAll(r, bursts, bw, nb), addr, len, nb, mem, more);
    }
  }

  /** A read that follows a write of the same range, even with another beat size, returns the data
      written. */
  lemma {:induction false} ReadReturnsWritten(addr: nat, data: seq<byte>, bw: nat, nb: nat, nb': nat,
                                              maxBurst: int, id: nat, ids: nat, id': nat,
                                              ids': nat, mem: seq<byte>, queues: Queues,
                                              more: Queues)
    requires Widths(bw, nb) && Widths(bw, nb') && RamFor(|mem|, bw) && ids > 0 && ids' > 0
    requires |data| <= |mem|
    ensures var o := RamServeAll(RamEffect(bw), mem,
                       Plan(Down(addr, nb), Cycles(addr, |data|, nb), nb, maxBurst, id, ids, Incr),
                       BeatsFrom(Down(addr, nb), WordsOf(addr, data, bw, nb), 0, nb, maxBurst), bw);
            var bursts := ReadPlan(addr, |data|, nb', maxBurst, id', ids');
            o.Done? && |o.mem| == |mem|
            && var answers := RamReads(Words(o.mem, bw), bursts, bw);
               answers.Answers?
               && (Holds(queues, answers.beats, more) ==>
                     Reads(queues, addr, |data|, bursts, bw, nb', data, more))
  {
    WriteRefines(addr, data, bw, nb, maxBurst, id, ids, mem);
    ReadRefines(addr, |data|, bw, nb', maxBurst, id', ids', Store(mem, addr, data, 0, |data|), queues,
                more);
    LoadAfterStore(mem, addr, data);
  }
}
