/** The AXI master and the AXI RAM as objects: their loops compute what AxiRefinement and AxiReads
    describe, so a write or read through the bus is one access of the byte array. */
module AxiBus {
  import opened Arith
  import opened Lanes
  import opened AxiTransfer
  import opened AxiRefinement
  import opened AxiReads

  // ----- the state of the loops, for their invariants -----

  /** The beats of `words`, when `left` of them still belong to the current burst. */
  function BeatsLeft(cur: nat, words: seq<Word>, left: nat, nb: nat, maxBurst: int): seq<WriteBeat>
    requires nb > 0 && left <= |words|
  {
    BeatsFrom(cur, words, left, nb, maxBurst)
  }

  /** The bursts after the current one, which has `left` more beats from `cur` on. */
  function PlanLeft(cur: nat, remaining: nat, left: nat, nb: nat, maxBurst: int, id: nat, ids: nat,
                    kind: BurstType): seq<Burst>
    requires nb > 0 && ids > 0 && left <= remaining
  {
    Plan(cur + Times(left, nb), remaining - left, nb, maxBurst, id, ids, kind)
  }

  lemma {:induction false} PlanNext(cur: nat, next: nat, remaining: nat, left: nat, nb: nat,
                                    maxBurst: int, id: nat, ids: nat, kind: BurstType)
    requires nb > 0 && ids > 0 && 0 < left <= remaining && next == cur + nb
    ensures PlanLeft(cur, remaining, left, nb, maxBurst, id, ids, kind)
         == PlanLeft(next, remaining - 1, left - 1, nb, maxBurst, id, ids, kind)
  {
  }

  lemma {:induction false} PlanIssues(cur: nat, remaining: nat, n: nat, nb: nat, maxBurst: int,
                                      b: Burst, id': nat, ids: nat)
    requires nb > 0 && ids > 0 && remaining > 0 && n == BurstLen(cur, remaining, nb, maxBurst)
    requires 1 <= n <= remaining && b == Burst(cur, b.id, n - 1, nb, b.kind)
    requires id' == Mod(b.id + 1, ids)
    ensures PlanLeft(cur, remaining, 0, nb, maxBurst, b.id, ids, b.kind)
         == [b] + PlanLeft(cur, remaining, n, nb, maxBurst, id', ids, b.kind)
  {
    PlanUnfolds(cur, remaining, nb, maxBurst, n, b, cur + Times(n, nb), remaining - n, id', ids);
  }

  lemma {:induction false} Queued<T>(queue: seq<T>, item: T, rest: seq<T>)
    ensures queue + [item] + rest == queue + ([item] + rest)
  {
  }

  /** With nothing left there is nothing to queue. */
  lemma {:induction false} NothingLeft(cur: nat, words: seq<Word>, left: nat, nb: nat, maxBurst: int, id: nat,
                                       ids: nat, kind: BurstType)
    requires nb > 0 && ids > 0 && words == [] && left == 0
    ensures BeatsLeft(cur, words, left, nb, maxBurst) == []
    ensures PlanLeft(cur, |words|, left, nb, maxBurst, id, ids, kind) == []
  {
  }

  lemma {:induction false} BeatEmitted(cur: nat, next: nat, words: seq<Word>, left: nat, nb: nat,
                                       maxBurst: int)
    requires nb > 0 && 0 < left <= |words| && next == cur + nb
    ensures BeatsLeft(cur, words, left, nb, maxBurst)
         == [WriteBeat(words[0], left == 1)] + BeatsLeft(next, words[1..], left - 1, nb, maxBurst)
  {
  }

  lemma {:induction false} BurstOpens(cur: nat, words: seq<Word>, n: nat, nb: nat, maxBurst: int)
    requires nb > 0 && words != [] && n == BurstLen(cur, |words|, nb, maxBurst) && n <= |words|
    ensures BeatsLeft(cur, words, 0, nb, maxBurst) == BeatsLeft(cur, words, n, nb, maxBurst)
  {
    BeatsStart(cur, words, n, nb, maxBurst);
  }

  /** A burst is opened, and its address is queued. */
  lemma {:induction false} BurstQueued(queue: seq<Burst>, cur: nat, words: seq<Word>, n: nat, nb: nat,
                                       maxBurst: int, b: Burst, id': nat, ids: nat)
    requires nb > 0 && ids > 0 && words != [] && n == BurstLen(cur, |words|, nb, maxBurst)
    requires 1 <= n <= |words| && b == Burst(cur, b.id, n - 1, nb, b.kind) && id' == Mod(b.id + 1, ids)
    ensures BeatsLeft(cur, words, 0, nb, maxBurst) == BeatsLeft(cur, words, n, nb, maxBurst)
    ensures queue + [b] + PlanLeft(cur, |words|, n, nb, maxBurst, id', ids, b.kind)
         == queue + PlanLeft(cur, |words|, 0, nb, maxBurst, b.id, ids, b.kind)
  {
    BurstOpens(cur, words, n, nb, maxBurst);
    PlanIssues(cur, |words|, n, nb, maxBurst, b, id', ids);
    Queued(queue, b, PlanLeft(cur, |words|, n, nb, maxBurst, id', ids, b.kind));
  }

  /** The next beat of a burst is queued. */
  lemma {:induction false} BeatQueued(queue: seq<WriteBeat>, beat: WriteBeat, cur: nat, next: nat,
                                      words: seq<Word>, left: nat, nb: nat, maxBurst: int)
    requires nb > 0 && 0 < left <= |words| && next == cur + nb && beat == WriteBeat(words[0], left == 1)
    ensures queue + [beat] + BeatsLeft(next, words[1..], left - 1, nb, maxBurst)
         == queue + BeatsLeft(cur, words, left, nb, maxBurst)
  {
    BeatEmitted(cur, next, words, left, nb, maxBurst);
    Queued(queue, beat, BeatsLeft(next, words[1..], left - 1, nb, maxBurst));
  }

  /** The words not yet queued, when data[offset..] is to be written from `at` on and the next beat is
      at `cur`. */
  ghost predicate WordsLeft(words: seq<Word>, data: seq<byte>, at: nat, offset: nat, cur: nat,
                            bw: nat, nb: nat)
    requires bw > 0 && nb > 0 && offset <= |data|
  {
    && Mod(cur, nb) == 0
    && (data == [] ==> words == [] || (words == [ChunkWord(at, data, 0, 0, bw)]
                                       && cur < at < cur + nb))
    && (data != [] ==> words == Chunks(at, data, offset, bw, nb))
    && (offset < |data| ==> cur <= at < cur + nb)
  }

  /** Lane `stop` of the next beat as the loop computes it. */
  lemma {:induction false} NextLanes(end: nat, len: nat, offset: nat, m: nat, cur: nat, next: nat,
                                     at: nat, bw: nat, nb: nat)
    requires Widths(bw, nb) && Mod(cur, nb) == 0 && next == cur + nb && cur <= at < next
    requires offset < len && m == ChunkLen(at, len - offset, nb) && end == at + (len - offset)
    ensures 0 < m <= len - offset && Mod(next, nb) == 0
    ensures offset + m < len ==> at + m == next && Mod(at, bw) + m == Mod(cur, bw) + nb
    ensures offset + m == len ==> Mod(at, bw) + m == Mod(end - 1, bw) + 1
  {
    ChunkBounds(cur, at, len - offset, m, nb);
    InOneWord(cur, at, nb, bw);
    if offset + m == len {
      InOneWord(cur, end - 1, nb, bw);
    }
  }

  lemma {:induction false} ChunksEmpty(addr: nat, data: seq<byte>, o: nat, bw: nat, nb: nat)
    requires bw > 0 && nb > 0 && o <= |data|
    ensures Chunks(addr, data, o, bw, nb) == [] <==> o == |data|
  {
  }

  /** The last lane of a beat: up to the end of the data for the last beat, else all of the beat. */
  function StopLane(last: bool, end: nat, cur: nat, bw: nat, nb: nat): nat
    requires bw > 0 && end > 0
  {
    if last then Mod(end - 1, bw) + 1 else Mod(cur, bw) + nb
  }

  lemma {:induction false} FirstWord(w: Word, rest: seq<Word>)
    ensures ([w] + rest)[0] == w && ([w] + rest)[1..] == rest && |[w] + rest| == 1 + |rest|
  {
  }

  /** The word that lanes [start, stop) make. */
  function WordOfLanes(bw: nat, start: nat, stop: nat, data: seq<byte>, o: nat, o': nat): Word
    requires o <= o' <= |data|
  {
    LaneWord(bw, start, stop, data[o..o'])
  }

  lemma {:induction false} NoBytesBeat(at: nat, words: seq<Word>, cur: nat, next: nat, start: nat,
                                       stop: nat, bw: nat, nb: nat)
    requires Widths(bw, nb) && words != [] && at > 0 && next == cur + nb
    requires WordsLeft(words, [], at, 0, cur, bw, nb)
    requires start == Mod(at, bw) && stop == StopLane(|words| == 1, at, cur, bw, nb)
    ensures start == stop && |words| == 1 && words[0] == WordOfLanes(bw, start, stop, [], 0, 0)
    ensures WordsLeft(words[1..], [], at, 0, next, bw, nb)
  {
    InOneWord(cur, at, nb, bw);
    InOneWord(cur, at - 1, nb, bw);
    ModAdd(cur, nb, 0);
  }

  lemma {:induction false} NextChunk(data: seq<byte>, at: nat, offset: nat, end: nat,
                                     words: seq<Word>, cur: nat, next: nat, start: nat, stop: nat,
                                     m: nat, at': nat, offset': nat, bw: nat, nb: nat)
    requires Widths(bw, nb) && offset < |data| && end == at + (|data| - offset) && next == cur + nb
    requires WordsLeft(words, data, at, offset, cur, bw, nb) && words != []
    requires start == Mod(at, bw) && stop == StopLane(|words| == 1, end, cur, bw, nb)
    requires m == ChunkLen(at, |data| - offset, nb) && at' == at + m && offset' == offset + m
    ensures stop == start + m && offset' <= |data|
    ensures words[0] == WordOfLanes(bw, start, stop, data, offset, offset')
    ensures WordsLeft(words[1..], data, at', offset', next, bw, nb)
    ensures |words| > 1 ==> at' == next
  {
    NextLanes(end, |data|, offset, m, cur, next, at, bw, nb);
    ChunksUnfold(at, at', data, offset, m, offset', bw, nb);
    ChunksEmpty(at', data, offset', bw, nb);
    FirstWord(ChunkWord(at, data, offset, m, bw), Chunks(at', data, offset', bw, nb));
  }

  /** Round `k` of the loop of write_logic is due: the words left, the position in the data and the
      running lane offset agree. */
  ghost predicate InData(k: nat, cycles: nat, words: seq<Word>, data: seq<byte>, at: nat, offset: nat,
                         end: nat, cur: nat, cycleOffset: nat, bw: nat, nb: nat)
    requires bw > 0 && nb > 0
  {
    && k <= cycles && |words| == cycles - k
    && offset <= |data| && end == at + (|data| - offset)
    && cycleOffset == Mod(cur, bw) && WordsLeft(words, data, at, offset, cur, bw, nb)
    && (if k == 0 then offset == 0 && at + |data| == end else k < cycles ==> at == cur)
  }

  /** And `n` of the `burstLength` beats of the current burst are queued, with `left` to come. */
  ghost predicate InRound(k: nat, cycles: nat, words: seq<Word>, data: seq<byte>, at: nat,
                          offset: nat, end: nat, cur: nat, cycleOffset: nat, n: nat,
                          burstLength: nat, left: nat, bw: nat, nb: nat)
    requires bw > 0 && nb > 0
  {
    && InData(k, cycles, words, data, at, offset, end, cur, cycleOffset, bw, nb)
    && n + left == burstLength && left <= |words|
  }

  /** What the lanes of the next beat carry, and what is left then. */
  lemma {:induction false} LanesOfBeat(data: seq<byte>, at: nat, offset: nat, end: nat,
                                       words: seq<Word>, cur: nat, next: nat, start: nat, stop: nat,
                                       at': int, offset': int, bw: nat, nb: nat)
    requires Widths(bw, nb) && offset <= |data| && end == at + (|data| - offset) > 0
    requires next == cur + nb && words != []
    requires WordsLeft(words, data, at, offset, cur, bw, nb)
    requires start == Mod(at, bw) && stop == StopLane(|words| == 1, end, cur, bw, nb)
    requires at' == at + (stop - start) && offset' == offset + (stop - start)
    ensures start <= stop && offset' <= |data|
    ensures words[0] == WordOfLanes(bw, start, stop, data, offset, offset')
    ensures WordsLeft(words[1..], data, at', offset', next, bw, nb)
    ensures |words| > 1 ==> at' == next
  {
    if data == [] {
      NoBytesBeat(at, words, cur, next, start, stop, bw, nb);
    } else {
      ChunksEmpty(at, data, offset, bw, nb);
      var m := ChunkLen(at, |data| - offset, nb);
      NextChunk(data, at, offset, end, words, cur, next, start, stop, m, at + m, offset + m, bw, nb);
    }
  }

  lemma {:induction false} RoundDone(k: nat, cycles: nat, words: seq<Word>, data: seq<byte>, at: nat,
                                     offset: nat, end: nat, cur: nat, next: nat, bw: nat, nb: nat)
    requires bw > 0 && nb > 0 && k < cycles && |words| == cycles - k
    requires offset <= |data| && end == at + (|data| - offset) && next == cur + nb
    requires WordsLeft(words[1..], data, at, offset, next, bw, nb) && (|words| > 1 ==> at == next)
    ensures InData(k + 1, cycles, words[1..], data, at, offset, end, next, Mod(Mod(cur, bw) + nb, bw), bw, nb)
  {
    ModPlus(cur, bw, nb);
  }

  /** The round after one that took lanes [start, stop). */
  lemma {:induction false} NextData(k: nat, cycles: nat, words: seq<Word>, data: seq<byte>, at: nat,
                                    offset: nat, end: nat, cur: nat, next: nat, start: nat, stop: nat,
                                    at': int, offset': int, cycleOffset: nat, bw: nat, nb: nat)
    requires Widths(bw, nb) && k < cycles && end > 0 && next == cur + nb
    requires InData(k, cycles, words, data, at, offset, end, cur, cycleOffset, bw, nb)
    requires start == Mod(at, bw) && stop == StopLane(k == cycles - 1, end, cur, bw, nb)
    requires at' == at + (stop - start) && offset' == offset + (stop - start)
    ensures start <= stop && offset' <= |data|
    ensures words[0] == WordOfLanes(bw, start, stop, data, offset, offset')
    ensures InData(k + 1, cycles, words[1..], data, at', offset', end, next, Mod(cycleOffset + nb, bw), bw, nb)
  {
    LanesOfBeat(data, at, offset, end, words, cur, next, start, stop, at', offset', bw, nb);
    RoundDone(k, cycles, words, data, at', offset', end, cur, next, bw, nb);
  }

  lemma {:induction false} WriteStarts(addr: nat, data: seq<byte>, cycles: nat, bw: nat, nb: nat,
                                       aligned: nat, wordAddr: nat)
    requires Widths(bw, nb) && aligned == Down(addr, nb) && wordAddr == Down(addr, bw)
    requires cycles == Cycles(addr, |data|, nb)
    ensures wordAddr <= aligned
    ensures InRound(0, cycles, WordsOf(addr, data, bw, nb), data, addr, 0, addr + |data|, aligned,
                    aligned - wordAddr, 0, 0, 0, bw, nb)
    ensures addr + |data| == 0 ==> cycles == 0
  {
    CyclesCover(addr, |data|, nb);
    AlignedOffset(addr, bw, nb, aligned, wordAddr);
    WordCount(addr, data, bw, nb);
  }

  lemma {:induction false} AlignedOffset(addr: nat, bw: nat, nb: nat, aligned: nat, wordAddr: nat)
    requires Widths(bw, nb) && aligned == Down(addr, nb) && wordAddr == Down(addr, bw)
    ensures wordAddr <= aligned && aligned - wordAddr == Mod(aligned, bw)
  {
    CyclesCover(addr, 0, nb);
    InOneWord(aligned, addr, nb, bw);
  }

  lemma {:induction false} StuckStays(r: Reader, id: nat, n: nat, bw: nat, nb: nat)
    requires bw > 0
    ensures r.Stuck? ==> TakeBurst(r, id, n, bw, nb).Stuck?
    decreases n
  {
    if n > 0 {
      StuckStays(TakeBeat(r, id, n == 1, bw, nb), id, n - 1, bw, nb);
    }
  }

  lemma {:induction false} StuckEnds(r: Reader, bursts: seq<Burst>, bw: nat, nb: nat)
    requires bw > 0
    ensures r.Stuck? ==> TakeAll(r, bursts, bw, nb).Stuck?
    decreases |bursts|
  {
    if bursts != [] {
      StuckStays(r, bursts[0].id, bursts[0].length + 1, bw, nb);
      StuckEnds(AfterBurst(r, bursts[0], bw, nb), bursts[1..], bw, nb);
    }
  }

  class AxiMaster {
    const bw: nat
    /** The number of transfer IDs of the bus; 1 when it has no ID signals. */
    const ids: nat
    var maxBurstLen: int
    var curWriteId: nat
    var curReadId: nat
    var writeAddrQueue: seq<Burst>
    var writeDataQueue: seq<WriteBeat>
    var readAddrQueue: seq<Burst>
    var readRespQueues: Queues

    constructor (bw: nat, ids: nat)
      requires PowerOfTwo(bw) && 0 < bw <= 128 && ids > 0
      ensures this.bw == bw && this.ids == ids && maxBurstLen == 256
      ensures writeAddrQueue == [] && writeDataQueue == [] && readAddrQueue == []
      ensures readRespQueues == map[]
    {
      this.bw, this.ids, maxBurstLen := bw, ids, 256;
      curWriteId, curReadId := 0, 0;
      writeAddrQueue, writeDataQueue, readAddrQueue, readRespQueues := [], [], [], map[];
    }

    /** Or the bytes from `offset` on into lanes [start, stop). */
    method PackBeat(data: seq<byte>, offset: nat, start: nat, stop: nat) returns (val: nat)
      requires start <= stop && offset + (stop - start) <= |data|
      ensures val == LaneWord(bw, start, stop, data[offset..offset + (stop - start)]).data
    {
      val := 0;
      PackZeros(start, 256);
      assert Zeros(start) + data[offset..offset] == Zeros(start);
      for j := start to stop
        invariant val == Pack(Zeros(start) + data[offset..offset + (j - start)], 256)
      {
        var next := offset + (j - start);
        assert Zeros(start) + data[offset..next + 1]
            == Zeros(start) + data[offset..next] + [data[next]];
        PackAppend(Zeros(start) + data[offset..next], data[next], 256);
        val := val + data[next] * Pow(256, j);
      }
    }

    /** The word of the beat at `cur`, from the lanes that the loop variables give. */
    method NextWord(data: seq<byte>, ghost at: nat, offset: nat, k: nat, cycles: nat,
                    ghost words: seq<Word>, ghost end: nat, ghost cur: nat, ghost next: nat,
                    startOffset: nat, endOffset: nat, cycleOffset: nat, nb: nat)
      returns (word: Word, offset': nat, cycleOffset': nat, ghost at': nat)
      requires Widths(bw, nb) && k < cycles && end > 0 && next == cur + nb
      requires InData(k, cycles, words, data, at, offset, end, cur, cycleOffset, bw, nb)
      requires k == 0 ==> startOffset == Mod(at, bw)
      requires endOffset == Mod(end - 1, bw) + 1
      ensures word == words[0]
      ensures InData(k + 1, cycles, words[1..], data, at', offset', end, next, cycleOffset', bw, nb)
    {
      var start, stop := cycleOffset, cycleOffset + nb;
      if k == 0 {
        start := startOffset;
      }
      if k == cycles - 1 {
        stop := endOffset;
      }
      NextData(k, cycles, words, data, at, offset, end, cur, next, start, stop, at + (stop - start),
               offset + (stop - start), cycleOffset, bw, nb);
      var val := PackBeat(data, offset, start, stop);
      offset' := offset + (stop - start);
      at' := at + (stop - start);
      word := Word(val, Strobe(bw, start, stop));
      cycleOffset' := Mod(cycleOffset + nb, bw);
    }

    /** Queue the address of the burst that starts with the beat at `curAddr`. */
    method IssueWrite(curAddr: nat, k: nat, cycles: nat, nb: nat, kind: BurstType)
      returns (burstLength: nat, ghost b: Burst)
      requires nb > 0 && k < cycles && ids > 0
      modifies this`writeAddrQueue, this`curWriteId
      ensures burstLength == BurstLen(curAddr, cycles - k, nb, maxBurstLen)
      ensures 1 <= burstLength <= cycles - k
      ensures b == Burst(curAddr, old(curWriteId), burstLength - 1, nb, kind)
      ensures writeAddrQueue == old(writeAddrQueue) + [b] && curWriteId == Mod(b.id + 1, ids)
    {
      BurstBounds(curAddr, cycles - k, nb, maxBurstLen);
      burstLength := BurstLen(curAddr, cycles - k, nb, maxBurstLen);
      b := Burst(curAddr, curWriteId, burstLength - 1, nb, kind);
      writeAddrQueue := writeAddrQueue + [Burst(curAddr, curWriteId, burstLength - 1, nb, kind)];
      curWriteId := Mod(curWriteId + 1, ids);
    }

    /** Open a burst if the current one has all its beats: `n` of its `burstLength` beats are
        queued. */
    method OpenBurst(ghost words: seq<Word>, curAddr: nat, k: nat, cycles: nat, nb: nat,
                     kind: BurstType, n: nat, burstLength: nat, ghost left: nat)
      returns (n': nat, burstLength': nat, ghost left': nat)
      requires nb > 0 && k < cycles && |words| == cycles - k && ids > 0
      requires n + left == burstLength && left <= |words|
      modifies this`writeAddrQueue, this`curWriteId
      ensures n' + left' == burstLength' && 0 < left' <= |words|
      ensures BeatsLeft(curAddr, words, left, nb, maxBurstLen)
           == BeatsLeft(curAddr, words, left', nb, maxBurstLen)
      ensures writeAddrQueue + PlanLeft(curAddr, |words|, left', nb, maxBurstLen, curWriteId, ids, kind)
           == old(writeAddrQueue)
              + PlanLeft(curAddr, |words|, left, nb, maxBurstLen, old(curWriteId), ids, kind)
    {
      n', burstLength', left' := n, burstLength, left;
      if n >= burstLength {
        ghost var b;
        burstLength', b := IssueWrite(curAddr, k, cycles, nb, kind);
        n', left' := 0, burstLength';
        BurstQueued(old(writeAddrQueue), curAddr, words, left', nb, maxBurstLen, b, curWriteId, ids);
      }
    }

    /** One round of the loop of write_logic. */
    method QueueBeat(ghost words: seq<Word>, word: Word, curAddr: nat, ghost next: nat, k: nat,
                     cycles: nat, nb: nat, kind: BurstType, n: nat, burstLength: nat,
                     ghost left: nat)
      returns (n': nat, burstLength': nat, ghost left': nat)
      requires nb > 0 && k < cycles && |words| == cycles - k && ids > 0 && next == curAddr + nb
      requires n + left == burstLength && left <= |words| && word == words[0]
      modifies this`writeAddrQueue, this`writeDataQueue, this`curWriteId
      ensures n' + left' == burstLength' && left' <= |words| - 1
      ensures writeDataQueue + BeatsLeft(next, words[1..], left', nb, maxBurstLen)
           == old(writeDataQueue) + BeatsLeft(curAddr, words, left, nb, maxBurstLen)
      ensures writeAddrQueue
                + PlanLeft(next, |words| - 1, left', nb, maxBurstLen, curWriteId, ids, kind)
           == old(writeAddrQueue)
              + PlanLeft(curAddr, |words|, left, nb, maxBurstLen, old(curWriteId), ids, kind)
    {
      n', burstLength', left' := OpenBurst(words, curAddr, k, cycles, nb, kind, n, burstLength, left);
      BeatQueued(writeDataQueue, WriteBeat(word, left' == 1), curAddr, next, words, left', nb, maxBurstLen);
      PlanNext(curAddr, next, |words|, left', nb, maxBurstLen, curWriteId, ids, kind);
      n', left' := n' + 1, left' - 1;
      writeDataQueue := writeDataQueue + [WriteBeat(word, n' >= burstLength')];
    }

    /** One round of the loop of write_logic. */
    method WriteRound(data: seq<byte>, ghost at: nat, offset: nat, ghost end: nat, k: nat,
                      cycles: nat, ghost words: seq<Word>, curAddr: nat, startOffset: nat,
                      endOffset: nat, cycleOffset: nat, nb: nat, kind: BurstType, n: nat,
                      burstLength: nat, ghost left: nat)
      returns (offset': nat, curAddr': nat, cycleOffset': nat, n': nat, burstLength': nat,
               ghost at': nat, ghost left': nat, ghost words': seq<Word>)
      requires Widths(bw, nb) && k < cycles && ids > 0 && end > 0
      requires InRound(k, cycles, words, data, at, offset, end, curAddr, cycleOffset, n, burstLength,
                       left, bw, nb)
      requires k == 0 ==> startOffset == Mod(at, bw)
      requires endOffset == Mod(end - 1, bw) + 1
      modifies this`writeAddrQueue, this`writeDataQueue, this`curWriteId
      ensures InRound(k + 1, cycles, words', data, at', offset', end, curAddr', cycleOffset', n',
                      burstLength', left', bw, nb)
      ensures writeDataQueue + BeatsLeft(curAddr', words', left', nb, maxBurstLen)
           == old(writeDataQueue) + BeatsLeft(curAddr, words, left, nb, maxBurstLen)
      ensures writeAddrQueue
                + PlanLeft(curAddr', |words'|, left', nb, maxBurstLen, curWriteId, ids, kind)
           == old(writeAddrQueue)
              + PlanLeft(curAddr, |words|, left, nb, maxBurstLen, old(curWriteId), ids, kind)
    {
      var word;
      curAddr' := curAddr + nb;
      words' := words[1..];
      word, offset', cycleOffset', at' :=
        NextWord(data, at, offset, k, cycles, words, end, curAddr, curAddr', startOffset, endOffset,
                 cycleOffset, nb);
      n', burstLength', left' :=
        QueueBeat(words, word, curAddr, curAddr', k, cycles, nb, kind, n, burstLength, left);
    }

    /** The loop of write_logic. */
    method QueueBeats(data: seq<byte>, ghost addr: nat, ghost end: nat, cycles: nat,
                      ghost words: seq<Word>, start: nat, startOffset: nat, endOffset: nat,
                      startCycle: nat, nb: nat, kind: BurstType)
      requires Widths(bw, nb) && ids > 0 && (cycles > 0 ==> end > 0 && endOffset == Mod(end - 1, bw) + 1)
      requires InRound(0, cycles, words, data, addr, 0, end, start, startCycle, 0, 0, 0, bw, nb)
      requires startOffset == Mod(addr, bw)
      modifies this`writeAddrQueue, this`writeDataQueue, this`curWriteId
      ensures writeDataQueue == old(writeDataQueue) + BeatsLeft(start, words, 0, nb, maxBurstLen)
      ensures writeAddrQueue == old(writeAddrQueue)
                + PlanLeft(start, |words|, 0, nb, maxBurstLen, old(curWriteId), ids, kind)
    {
      var curAddr: nat, cycleOffset: nat := start, startCycle;
      var offset: nat, n: nat, burstLength: nat := 0, 0, 0;
      ghost var at: nat, left: nat, rest := addr, 0, words;
      ghost var beats := writeDataQueue + BeatsLeft(start, words, 0, nb, maxBurstLen);
      ghost var plan := writeAddrQueue
                          + PlanLeft(start, |words|, 0, nb, maxBurstLen, curWriteId, ids, kind);
      for k := 0 to cycles
        invariant InRound(k, cycles, rest, data, at, offset, end, curAddr, cycleOffset, n,
                          burstLength, left, bw, nb)
        invariant k == 0 ==> startOffset == Mod(at, bw)
        invariant writeDataQueue + BeatsLeft(curAddr, rest, left, nb, maxBurstLen) == beats
        invariant writeAddrQueue
                    + PlanLeft(curAddr, |rest|, left, nb, maxBurstLen, curWriteId, ids, kind) == plan
      {
        offset, curAddr, cycleOffset, n, burstLength, at, left, rest :=
          WriteRound(data, at, offset, end, k, cycles, rest, curAddr, startOffset, endOffset,
                     cycleOffset, nb, kind, n, burstLength, left);
      }
      NothingLeft(curAddr, rest, left, nb, maxBurstLen, curWriteId, ids, kind);
    }

    /** write_logic: queue the bursts and the strobed beats of one write. */
    method Write(addr: nat, data: seq<byte>, nb: nat, kind: BurstType)
      requires Widths(bw, nb) && ids > 0
      modifies this`writeAddrQueue, this`writeDataQueue, this`curWriteId
      ensures writeAddrQueue == old(writeAddrQueue)
                + Plan(Down(addr, nb), Cycles(addr, |data|, nb), nb, maxBurstLen, old(curWriteId),
                       ids, kind)
      ensures writeDataQueue == old(writeDataQueue)
                + BeatsFrom(Down(addr, nb), WordsOf(addr, data, bw, nb), 0, nb, maxBurstLen)
    {
      var alignedAddr, wordAddr := Down(addr, nb), Down(addr, bw);
      var startOffset := Mod(addr, bw);
      var endOffset := if addr + |data| > 0 then Mod(addr + |data| - 1, bw) + 1 else bw;
      var cycles := Div(|data| + nb - 1 + Mod(addr, nb), nb);
      ghost var words := WordsOf(addr, data, bw, nb);
      WriteStarts(addr, data, cycles, bw, nb, alignedAddr, wordAddr);
      QueueBeats(data, addr, addr + |data|, cycles, words, alignedAddr, startOffset, endOffset,
                 alignedAddr - wordAddr, nb, kind);
    }

    /** One round of the loop of read_logic, whose counter runs ahead of that of write_logic by
        one: before round `k` > 0 the current burst has burstLength - 1 - n beats left. */
    method ReadRound(curAddr: nat, ghost next: nat, k: nat, cycles: nat, nb: nat, kind: BurstType,
                     n: nat, burstLength: nat, ghost left: nat)
      returns (n': nat, burstLength': nat, ghost left': nat)
      requires nb > 0 && k < cycles && ids > 0 && next == curAddr + nb && left <= cycles - k
      requires if k == 0 then n == burstLength == left == 0 else n + 1 + left == burstLength
      modifies this`readAddrQueue, this`curReadId
      ensures n' + 1 + left' == burstLength' && left' <= cycles - (k + 1)
      ensures readAddrQueue
                + PlanLeft(next, cycles - k - 1, left', nb, maxBurstLen, curReadId, ids, kind)
           == old(readAddrQueue)
              + PlanLeft(curAddr, cycles - k, left, nb, maxBurstLen, old(curReadId), ids, kind)
    {
      n', burstLength', left' := n + 1, burstLength, left;
      if n' >= burstLength {
        BurstBounds(curAddr, cycles - k, nb, maxBurstLen);
        burstLength' := BurstLen(curAddr, cycles - k, nb, maxBurstLen);
        n', left' := 0, burstLength';
        var b := Burst(curAddr, curReadId, burstLength' - 1, nb, kind);
        PlanIssues(curAddr, cycles - k, left', nb, maxBurstLen, b, Mod(curReadId + 1, ids), ids);
        readAddrQueue := readAddrQueue + [b];
        curReadId := Mod(curReadId + 1, ids);
      }
      PlanNext(curAddr, next, cycles - k, left', nb, maxBurstLen, curReadId, ids, kind);
      left' := left' - 1;
    }

    /** read_logic: queue the bursts of one read. */
    method Read(addr: nat, length: nat, nb: nat, kind: BurstType)
      requires Widths(bw, nb) && ids > 0
      modifies this`readAddrQueue, this`curReadId
      ensures readAddrQueue == old(readAddrQueue)
                + Plan(Down(addr, nb), Cycles(addr, length, nb), nb, maxBurstLen, old(curReadId), ids,
                       kind)
    {
      var cycles := Div(length + nb - 1 + Mod(addr, nb), nb);
      var curAddr: nat, n: nat, burstLength: nat := Down(addr, nb), 0, 0;
      ghost var left: nat := 0;
      ghost var plan := readAddrQueue
                          + PlanLeft(curAddr, cycles, 0, nb, maxBurstLen, curReadId, ids, kind);
      for k := 0 to cycles
        invariant left <= cycles - k
        invariant if k == 0 then n == burstLength == left == 0 else n + 1 + left == burstLength
        invariant readAddrQueue
                    + PlanLeft(curAddr, cycles - k, left, nb, maxBurstLen, curReadId, ids, kind) == plan
      {
        ghost var next := curAddr + nb;
        n, burstLength, left := ReadRound(curAddr, next, k, cycles, nb, kind, n, burstLength, left);
        curAddr := curAddr + nb;
      }
    }

    /** Bytes `start` to `stop` of one answer. */
    method UnpackBeat(word: nat, start: nat, stop: nat) returns (bytes: seq<byte>)
      ensures bytes == LanesOf(word, start, stop)
    {
      bytes := [];
      if start < stop {
        for j := start to stop
          invariant bytes == LanesOf(word, start, j)
        {
          LaneBelow(word, j);
          bytes := bytes + [Lane(word, j, 256)];
        }
      }
    }

    /** Take the next answer of an ID; `ok` is false if there is none yet or its last flag is
        wrong. */
    method CollectBeat(ghost r: Reader, id: nat, last: bool, start: nat, stop: nat, nb: nat,
                       data: seq<byte>)
      returns (ok: bool, data': seq<byte>)
      requires bw > 0 && r.Reader? && r.queues == readRespQueues && r.data == data
      requires start == Mod(r.addr, bw) && stop == Mod(r.cur, bw) + nb
      modifies this`readRespQueues
      ensures var r' := TakeBeat(r, id, last, bw, nb);
              ok == r'.Reader? && (ok ==> r'.queues == readRespQueues && r'.data == data')
    {
      data' := data;
      var q := if id in readRespQueues then readRespQueues[id] else [];
      if q == [] {
        return false, data';
      }
      readRespQueues := readRespQueues[id := q[1..]];
      if q[0].last != last {
        return false, data';
      }
      var bytes := UnpackBeat(q[0].data, start, stop);
      return true, data + bytes;
    }

    /** The answers of one burst. */
    method CollectBurst(ghost r: Reader, id: nat, burstLength: nat, startOffset: nat, first: bool,
                        cycleOffset: nat, nb: nat, data: seq<byte>)
      returns (ok: bool, first': bool, cycleOffset': nat, data': seq<byte>)
      requires bw > 0 && r.Reader? && r.queues == readRespQueues && r.data == data
      requires cycleOffset == Mod(r.cur, bw)
      requires if first then startOffset == Mod(r.addr, bw) else r.addr == r.cur
      modifies this`readRespQueues
      ensures var r' := TakeBurst(r, id, burstLength, bw, nb);
              && ok == r'.Reader?
              && (ok ==> r'.queues == readRespQueues && r'.data == data' && cycleOffset' == Mod(r'.cur, bw)
                         && if first' then first && r'.addr == r.addr else r'.addr == r'.cur)
    {
      first', cycleOffset', data' := first, cycleOffset, data;
      ghost var r' := r;
      for k := 0 to burstLength
        invariant r'.Reader? && r'.queues == readRespQueues && r'.data == data'
        invariant cycleOffset' == Mod(r'.cur, bw)
        invariant if first' then first && r'.addr == r.addr else r'.addr == r'.cur
        invariant TakeBurst(r, id, burstLength, bw, nb) == TakeBurst(r', id, burstLength - k, bw, nb)
      {
        var start := if first' then startOffset else cycleOffset';
        ok, data' := CollectBeat(r', id, k == burstLength - 1, start, cycleOffset' + nb, nb, data');
        ghost var next := TakeBeat(r', id, k == burstLength - 1, bw, nb);
        StuckStays(next, id, burstLength - k - 1, bw, nb);
        if !ok {
          return;
        }
        ModPlus(r'.cur, bw, nb);
        r', first', cycleOffset' := next, false, Mod(cycleOffset' + nb, bw);
      }
      ok := true;
    }

    /** read_resp_logic: gather the bytes of one read from the answers to its bursts; `ok` is false
        where the code would wait on or fail its assertion. */
    method Collect(addr: nat, length: nat, bursts: seq<Burst>, nb: nat)
      returns (ok: bool, data: seq<byte>)
      requires Widths(bw, nb)
      modifies this`readRespQueues
      ensures var r := TakeAll(Reader(old(readRespQueues), addr, Down(addr, nb), []), bursts, bw, nb);
              && ok == r.Reader?
              && (ok ==> r.queues == readRespQueues
                         && data == if length <= |r.data| then r.data[..length] else r.data)
    {
      var alignedAddr, wordAddr := Down(addr, nb), Down(addr, bw);
      var startOffset := Mod(addr, bw);
      AlignedOffset(addr, bw, nb, alignedAddr, wordAddr);
      var cycleOffset: nat, first := alignedAddr - wordAddr, true;
      data := [];
      ghost var r := Reader(readRespQueues, addr, alignedAddr, []);
      ghost var all := TakeAll(r, bursts, bw, nb);
      for i := 0 to |bursts|
        invariant r.Reader? && r.queues == readRespQueues && r.data == data
        invariant cycleOffset == Mod(r.cur, bw)
        invariant if first then startOffset == Mod(r.addr, bw) else r.addr == r.cur
        invariant all == TakeAll(r, bursts[i..], bw, nb)
      {
        var b := bursts[i];
        ghost var r' := AfterBurst(r, b, bw, nb);
        ok, first, cycleOffset, data :=
          CollectBurst(r, b.id, b.length + 1, startOffset, first, cycleOffset, nb, data);
        assert bursts[i..][1..] == bursts[i + 1..];
        StuckEnds(r', bursts[i + 1..], bw, nb);
        if !ok {
          return;
        }
        r := r';
      }
      ok := true;
      if length < |data| {
        data := data[..length];
      }
    }
  }
}
