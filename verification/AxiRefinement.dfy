/** What the RAM does with the beats of an AXI master, and that it amounts to one byte access. */
module AxiRefinement {
  import opened Arith
  import opened Lanes
  import opened AxiTransfer

  // ----- memory: the reference -----

  /** A direct store of data[o..e], byte after byte, in a memory whose addresses wrap. */
  function Store(mem: seq<byte>, addr: nat, data: seq<byte>, o: nat, e: nat): (mem': seq<byte>)
    requires |mem| > 0 && o <= e <= |data|
    ensures |mem'| == |mem|
    decreases e - o
  {
    if o == e then mem else Store(mem[Mod(addr, |mem|) := data[o]], addr + 1, data, o + 1, e)
  }

  function Load(mem: seq<byte>, addr: nat, length: nat): (data: seq<byte>)
    requires |mem| > 0
    ensures |data| == length
  {
    if length == 0 then []
    else Load(mem, addr, length - 1) + [mem[Mod(addr + length - 1, |mem|)]]
  }

  lemma {:induction false} StoreSplit(mem: seq<byte>, addr: nat, data: seq<byte>, o: nat, m: nat,
                                      e: nat)
    requires |mem| > 0 && o <= m <= e <= |data|
    ensures Store(Store(mem, addr, data, o, m), addr + (m - o), data, m, e)
         == Store(mem, addr, data, o, e)
    decreases m - o
  {
    if o < m {
      StoreSplit(mem[Mod(addr, |mem|) := data[o]], addr + 1, data, o + 1, m, e);
    }
  }

  lemma {:induction false} LoadAt(mem: seq<byte>, addr: nat, length: nat, i: nat)
    requires |mem| > 0 && i < length
    ensures Load(mem, addr, length)[i] == mem[Mod(addr + i, |mem|)]
  {
    if i < length - 1 {
      LoadAt(mem, addr, length - 1, i);
    }
  }

  lemma {:induction false} StoreAt(mem: seq<byte>, addr: nat, data: seq<byte>, o: nat, i: nat)
    requires 0 < |mem| && o <= i < |data| <= o + |mem|
    ensures Store(mem, addr, data, o, |data|)[Mod(addr + (i - o), |mem|)] == data[i]
    decreases i - o
  {
    var mem' := mem[Mod(addr, |mem|) := data[o]];
    if o < i {
      StoreAt(mem', addr + 1, data, o + 1, i);
    } else {
      StoreElsewhere(mem', addr + 1, data, o + 1, addr);
    }
  }

  lemma {:induction false} StoreElsewhere(mem: seq<byte>, addr: nat, data: seq<byte>, o: nat, x: nat)
    requires 0 < |mem| && o <= |data| && x < addr && addr + (|data| - o) <= x + |mem|
    ensures Store(mem, addr, data, o, |data|)[Mod(x, |mem|)] == mem[Mod(x, |mem|)]
    decreases |data| - o
  {
    if o < |data| {
      assert Mod(addr, |mem|) != Mod(x, |mem|) by {
        if Mod(addr, |mem|) == Mod(x, |mem|) {
          ModDistinct(x, addr, |mem|);
        }
      }
      StoreElsewhere(mem[Mod(addr, |mem|) := data[o]], addr + 1, data, o + 1, x);
    }
  }

  /** What was stored is read back, if the data does not overlap itself. */
  lemma {:induction false} LoadAfterStore(mem: seq<byte>, addr: nat, data: seq<byte>)
    requires 0 < |mem| && |data| <= |mem|
    ensures Load(Store(mem, addr, data, 0, |data|), addr, |data|) == data
  {
    var mem' := Store(mem, addr, data, 0, |data|);
    forall i | 0 <= i < |data|
      ensures Load(mem', addr, |data|)[i] == data[i]
    {
      LoadAt(mem', addr, |data|, i);
      StoreAt(mem, addr, data, 0, i);
    }
  }

  // ----- write beats of the master -----

  /** The data and byte-enable lanes of one beat. */
  datatype Word = Word(data: nat, strb: seq<bool>)

  datatype WriteBeat = WriteBeat(word: Word, last: bool)

  /** Bits [start, stop) of a byte-enable mask of `bw` bits. */
  function Strobe(bw: nat, start: nat, stop: nat): seq<bool> {
    seq(bw, i => start <= i < stop)
  }

  /** The bytes `d` in lanes [lo, hi). */
  function LaneWord(bw: nat, lo: nat, hi: nat, d: seq<byte>): Word {
    Word(Pack(Zeros(lo) + d, 256), Strobe(bw, lo, hi))
  }

  /** How many of `len` bytes from `addr` on the beat at `addr` carries. */
  function ChunkLen(addr: nat, len: nat, nb: nat): nat
    requires nb > 0
  {
    if len <= nb - Mod(addr, nb) then len else nb - Mod(addr, nb)
  }

  /** The word of the beat that carries data[o..o + m] at `addr`. */
  function ChunkWord(addr: nat, data: seq<byte>, o: nat, m: nat, bw: nat): Word
    requires bw > 0 && o + m <= |data|
  {
    LaneWord(bw, Mod(addr, bw), Mod(addr, bw) + m, data[o..o + m])
  }

  /** The words of the beats that write data[o..], cut at the multiples of `nb`. */
  function Chunks(addr: nat, data: seq<byte>, o: nat, bw: nat, nb: nat): seq<Word>
    requires bw > 0 && nb > 0 && o <= |data|
    decreases |data| - o
  {
    if o == |data| then []
    else
      var m := ChunkLen(addr, |data| - o, nb);
      [ChunkWord(addr, data, o, m, bw)] + Chunks(addr + m, data, o + m, bw, nb)
  }

  /** Writing no bytes at an unaligned address still takes one beat, without strobes. */
  function WordsOf(addr: nat, data: seq<byte>, bw: nat, nb: nat): seq<Word>
    requires Widths(bw, nb)
  {
    if data == [] && Mod(addr, nb) != 0 then [ChunkWord(addr, data, 0, 0, bw)]
    else Chunks(addr, data, 0, bw, nb)
  }

  lemma {:induction false} ChunksUnfold(addr: nat, addr': nat, data: seq<byte>, o: nat, m: nat,
                                        o': nat, bw: nat, nb: nat)
    requires bw > 0 && nb > 0 && o < |data| && m == ChunkLen(addr, |data| - o, nb)
    requires addr' == addr + m && o' == o + m
    ensures 0 < m <= |data| - o
    ensures Chunks(addr, data, o, bw, nb)
         == [ChunkWord(addr, data, o, m, bw)] + Chunks(addr', data, o', bw, nb)
  {
  }

  lemma {:induction false} ChunkCount(addr: nat, data: seq<byte>, o: nat, bw: nat, nb: nat)
    requires bw > 0 && nb > 0 && o < |data|
    ensures |Chunks(addr, data, o, bw, nb)| == Cycles(addr, |data| - o, nb)
    decreases |data| - o
  {
    var m := ChunkLen(addr, |data| - o, nb);
    var addr', o' := addr + m, o + m;
    ChunksUnfold(addr, addr', data, o, m, o', bw, nb);
    if o' < |data| {
      ChunkCount(addr', data, o', bw, nb);
    }
    CyclesStep(addr, |data| - o, nb);
  }

  lemma {:induction false} WordCount(addr: nat, data: seq<byte>, bw: nat, nb: nat)
    requires Widths(bw, nb)
    ensures |WordsOf(addr, data, bw, nb)| == Cycles(addr, |data|, nb)
  {
    if data != [] {
      ChunkCount(addr, data, 0, bw, nb);
    } else if Mod(addr, nb) != 0 {
      assert Div(Mod(addr, nb) - 1, nb) == 0;
    }
  }

  /** The beats of `words` from address `cur` on, when `left` of them still belong to the current
      burst; the last beat of each burst is flagged. */
  function BeatsFrom(cur: nat, words: seq<Word>, left: nat, nb: nat, maxBurst: int): seq<WriteBeat>
    requires nb > 0 && left <= |words|
    decreases |words|, left == 0
  {
    if left > 0 then
      [WriteBeat(words[0], left == 1)] + BeatsFrom(cur + nb, words[1..], left - 1, nb, maxBurst)
    else if words == [] then []
    else
      BurstBounds(cur, |words|, nb, maxBurst);
      BeatsFrom(cur, words, BurstLen(cur, |words|, nb, maxBurst), nb, maxBurst)
  }

  // ----- what the RAM does with writes -----

  predicate RamFor(size: nat, bw: nat) {
    0 < bw <= size && Mod(size, bw) == 0
  }

  /** One byte per set strobe bit, lane 0 first, shifting the word down as it goes. */
  function WriteLanes(mem: seq<byte>, pos: nat, word: nat, strb: seq<bool>): (mem': seq<byte>)
    requires pos + |strb| <= |mem|
    ensures |mem'| == |mem|
    decreases |strb|
  {
    if strb == [] then mem
    else WriteLanes(if strb[0] then mem[pos := word % 256] else mem, pos + 1, word / 256, strb[1..])
  }

  /** A bus word never crosses the end of the memory. */
  lemma {:induction false} WordFits(size: nat, cur: nat, bw: nat)
    requires RamFor(size, bw)
    ensures Mod(Down(cur, bw), size) + bw <= size
  {
    DownAligned(cur, bw);
    ModMod(Down(cur, bw), size, bw);
    MultiplesApart(Mod(Down(cur, bw), size), size, bw);
  }

  /** One bus word; the byte enables of a bus are as many as its lanes. */
  function RamWord(mem: seq<byte>, cur: nat, w: Word, bw: nat): (mem': seq<byte>)
    requires RamFor(|mem|, bw)
    ensures |mem'| == |mem|
  {
    WordFits(|mem|, cur, bw);
    if |w.strb| != bw then mem
    else WriteLanes(mem, Mod(Down(cur, bw), |mem|), w.data, w.strb)
  }

  /** What one beat does to a memory: the word, at an address. */
  type Effect = (seq<byte>, nat, Word) -> seq<byte>

  /** The effect of a beat on a RAM whose size is a multiple of the bus width. */
  function RamEffect(bw: nat): Effect {
    (mem, cur, w) => if RamFor(|mem|, bw) then RamWord(mem, cur, w, bw) else mem
  }

  /** The address after a beat, by burst type. */
  function NextAddr(b: Burst, cur: nat): nat
    requires b.nb > 0
  {
    match b.kind
    case Fixed => cur
    case Incr => cur + b.nb
    case Wrap => NextWrapped(b, cur)
  }

  function NextWrapped(b: Burst, cur: nat): nat
    requires b.nb > 0
  {
    TimesMonotone(1, b.length + 1, b.nb);
    var total := Times(b.length + 1, b.nb);
    var lower := Down(b.addr, total);
    if cur + b.nb == lower + total then lower else cur + b.nb
  }

  /** `Refused` stands for a failed assertion of the RAM. */
  datatype Outcome<+T> = Done(mem: seq<byte>, rest: seq<T>) | Refused

  /** The RAM takes `n` more beats of burst `b`; the last one must be flagged, and only that one. */
  function RamBurst(put: Effect, mem: seq<byte>, b: Burst, cur: nat, n: nat, beats: seq<WriteBeat>)
    : Outcome<WriteBeat>
    requires b.nb > 0
    decreases n
  {
    if n == 0 then Done(mem, beats)
    else if beats == [] || beats[0].last != (n == 1) then Refused
    else RamBurst(put, put(mem, cur, beats[0].word), b, NextAddr(b, cur), n - 1, beats[1..])
  }

  /** The size and 4 KiB assertions of the RAM. */
  predicate Accepted(b: Burst, bw: nat) {
    0 < b.nb <= bw && (b.kind.Incr? ==> Legal(b, bw))
  }

  function RamServe(put: Effect, mem: seq<byte>, b: Burst, beats: seq<WriteBeat>, bw: nat)
    : Outcome<WriteBeat>
  {
    if !Accepted(b, bw) then Refused
    else RamBurst(put, mem, b, Down(b.addr, b.nb), b.length + 1, beats)
  }

  function RamServeAll(put: Effect, mem: seq<byte>, bursts: seq<Burst>, beats: seq<WriteBeat>,
                       bw: nat): Outcome<WriteBeat>
    decreases |bursts|
  {
    if bursts == [] then Done(mem, beats)
    else
      match RamServe(put, mem, bursts[0], beats, bw)
      case Refused => Refused
      case Done(mem', rest) => RamServeAll(put, mem', bursts[1..], rest, bw)
  }

  // ----- one beat -----

  lemma {:induction false} WriteLane(mem: seq<byte>, pos: nat, lanes: seq<byte>, strb: seq<bool>)
    requires pos + |strb| <= |mem| && lanes != [] && strb != []
    ensures WriteLanes(mem, pos, Pack(lanes, 256), strb)
         == WriteLanes(if strb[0] then mem[pos := lanes[0]] else mem, pos + 1, Pack(lanes[1..], 256),
                       strb[1..])
  {
    assert Pack(lanes, 256) == lanes[0] as int + 256 * Pack(lanes[1..], 256);
  }

  /** A strobed word write stores exactly the bytes under the strobes. */
  lemma {:induction false} LanesStore(mem: seq<byte>, pos: nat, bw: nat, lo: nat, data: seq<byte>,
                                      o: nat, e: nat, addr: nat)
    requires |mem| > 0 && o <= e <= |data| && lo + (e - o) <= bw && pos + bw <= |mem|
    requires o < e ==> Mod(addr, |mem|) == pos + lo
    ensures WriteLanes(mem, pos, Pack(Zeros(lo) + data[o..e], 256), Strobe(bw, lo, lo + (e - o)))
         == Store(mem, addr, data, o, e)
    decreases bw
  {
    var lanes, strb := Zeros(lo) + data[o..e], Strobe(bw, lo, lo + (e - o));
    if bw > 0 {
      if lo > 0 {
        assert lanes[1..] == Zeros(lo - 1) + data[o..e];
        assert strb[1..] == Strobe(bw - 1, lo - 1, lo - 1 + (e - o));
        WriteLane(mem, pos, lanes, strb);
        LanesStore(mem, pos + 1, bw - 1, lo - 1, data, o, e, addr);
      } else if o == e {
        assert lanes == Zeros(0) + data[o..e] == [];
        assert strb[1..] == Strobe(bw - 1, 0, 0);
        LanesStore(mem, pos + 1, bw - 1, 0, data, o, e, addr);
      } else {
        assert lanes[1..] == Zeros(0) + data[o + 1..e];
        assert strb[1..] == Strobe(bw - 1, 0, e - o - 1);
        WriteLane(mem, pos, lanes, strb);
        if o + 1 < e {
          ModAdd(addr, |mem|, 1);
        }
        LanesStore(mem[pos := data[o]], pos + 1, bw - 1, 0, data, o + 1, e, addr + 1);
      }
    }
  }

  /** The beat at `cur` stores the bytes it carries from `addr` on. */
  lemma {:induction false} ChunkStores(mem: seq<byte>, cur: nat, addr: nat, data: seq<byte>, o: nat,
                                       m: nat, bw: nat, nb: nat)
    requires Widths(bw, nb) && RamFor(|mem|, bw) && Mod(cur, nb) == 0 && o + m <= |data|
    requires cur <= addr < cur + nb && addr + m <= cur + nb
    ensures Mod(addr, bw) + m <= bw
    ensures RamWord(mem, cur, ChunkWord(addr, data, o, m, bw), bw) == Store(mem, addr, data, o, o + m)
  {
    InOneWord(cur, addr, nb, bw);
    WordFits(|mem|, cur, bw);
    var lo := Mod(addr, bw);
    if m > 0 {
      ModAdd(Down(cur, bw), |mem|, lo);
    }
    LanesStore(mem, Mod(Down(cur, bw), |mem|), bw, lo, data, o, o + m, addr);
  }

  // ----- all beats of all bursts -----

  /** The memory after the words of consecutive beats from `cur` on. */
  function AfterWords(put: Effect, cur: nat, words: seq<Word>, nb: nat, mem: seq<byte>): seq<byte>
    decreases |words|
  {
    if words == [] then mem
    else AfterWords(put, cur + nb, words[1..], nb, put(mem, cur, words[0]))
  }

  lemma {:induction false} AfterMoreWords(put: Effect, cur: nat, words: seq<Word>, n: nat, nb: nat,
                                          mem: seq<byte>)
    requires n <= |words|
    ensures AfterWords(put, cur, words, nb, mem)
         == AfterWords(put, cur + Times(n, nb), words[n..], nb,
                       AfterWords(put, cur, words[..n], nb, mem))
    decreases n
  {
    if n > 0 {
      AfterMoreWords(put, cur + nb, words[1..], n - 1, nb, put(mem, cur, words[0]));
      assert words[..n][1..] == words[1..][..n - 1];
      assert words[1..][n - 1..] == words[n..];
    } else {
      assert words[0..] == words;
    }
  }

  /** What a burst of `n` beats from `cur` to `cur'` should leave. */
  function Written(put: Effect, mem: seq<byte>, cur: nat, words: seq<Word>, n: nat, cur': nat,
                     nb: nat, maxBurst: int): Outcome<WriteBeat>
    requires nb > 0 && n <= |words|
  {
    Done(AfterWords(put, cur, words[..n], nb, mem), BeatsFrom(cur', words[n..], 0, nb, maxBurst))
  }

  lemma {:induction false} WrittenStep(put: Effect, mem: seq<byte>, cur: nat, words: seq<Word>,
                                         n: nat, m: nat, next: nat, cur': nat, nb: nat,
                                         maxBurst: int)
    requires nb > 0 && n == m + 1 <= |words| && next == cur + nb
    ensures Written(put, put(mem, cur, words[0]), next, words[1..], m, cur', nb, maxBurst)
         == Written(put, mem, cur, words, n, cur', nb, maxBurst)
  {
    assert words[..n][1..] == words[1..][..m];
    assert words[1..][m..] == words[n..];
  }

  lemma {:induction false} BeatWritten(put: Effect, mem: seq<byte>, b: Burst, cur: nat,
                                     words: seq<Word>, n: nat, m: nat, next: nat, maxBurst: int)
    requires b.kind.Incr? && b.nb > 0 && n == m + 1 <= |words| && next == cur + b.nb
    ensures RamBurst(put, mem, b, cur, n, BeatsFrom(cur, words, n, b.nb, maxBurst))
         == RamBurst(put, put(mem, cur, words[0]), b, next, m,
                     BeatsFrom(next, words[1..], m, b.nb, maxBurst))
  {
    var beats := BeatsFrom(cur, words, n, b.nb, maxBurst);
    assert beats[1..] == BeatsFrom(next, words[1..], m, b.nb, maxBurst);
  }

  /** A burst applies its beats in order. */
  lemma {:induction false} BurstRuns(put: Effect, mem: seq<byte>, b: Burst, cur: nat,
                                     words: seq<Word>, n: nat, cur': nat, maxBurst: int)
    requires b.kind.Incr? && b.nb > 0 && n <= |words| && cur' == cur + Times(n, b.nb)
    ensures RamBurst(put, mem, b, cur, n, BeatsFrom(cur, words, n, b.nb, maxBurst))
         == Written(put, mem, cur, words, n, cur', b.nb, maxBurst)
    decreases n
  {
    if n > 0 {
      var next, m := cur + b.nb, n - 1;
      BeatWritten(put, mem, b, cur, words, n, m, next, maxBurst);
      BurstRuns(put, put(mem, cur, words[0]), b, next, words[1..], m, cur', maxBurst);
      WrittenStep(put, mem, cur, words, n, m, next, cur', b.nb, maxBurst);
    } else {
      assert words[0..] == words;
    }
  }

  lemma {:induction false} BeatsStart(cur: nat, words: seq<Word>, n: nat, nb: nat, maxBurst: int)
    requires nb > 0 && words != [] && n == BurstLen(cur, |words|, nb, maxBurst)
    ensures 1 <= n <= |words|
    ensures BeatsFrom(cur, words, 0, nb, maxBurst) == BeatsFrom(cur, words, n, nb, maxBurst)
  {
    BurstBounds(cur, |words|, nb, maxBurst);
  }

  lemma {:induction false} ServeAligned(put: Effect, mem: seq<byte>, b: Burst, n: nat,
                                        beats: seq<WriteBeat>, bw: nat)
    requires b.kind.Incr? && 0 < b.nb <= bw && Mod(b.addr, b.nb) == 0 && Legal(b, bw)
    requires n == b.length + 1
    ensures RamServe(put, mem, b, beats, bw) == RamBurst(put, mem, b, b.addr, n, beats)
  {
    assert Down(b.addr, b.nb) == b.addr;
  }

  /** One burst of the plan: the RAM accepts it and takes just its beats. */
  lemma {:induction false} ServeRuns(put: Effect, mem: seq<byte>, cur: nat, words: seq<Word>, n: nat,
                                     b: Burst, cur': nat, bw: nat, nb: nat, maxBurst: int)
    requires Widths(bw, nb) && Mod(cur, nb) == 0 && words != []
    requires n == BurstLen(cur, |words|, nb, maxBurst) && 1 <= n <= |words|
    requires b == Burst(cur, b.id, n - 1, nb, Incr) && cur' == cur + Times(n, nb)
    ensures RamServe(put, mem, b, BeatsFrom(cur, words, 0, nb, maxBurst), bw)
         == Written(put, mem, cur, words, n, cur', nb, maxBurst)
  {
    BurstLegal(cur, |words|, bw, nb, maxBurst, n, b.id, Incr);
    BeatsStart(cur, words, n, nb, maxBurst);
    ServeAligned(put, mem, b, n, BeatsFrom(cur, words, n, nb, maxBurst), bw);
    BurstRuns(put, mem, b, cur, words, n, cur', maxBurst);
  }

  lemma {:induction false} ServeAllStep(put: Effect, mem: seq<byte>, b: Burst, bursts: seq<Burst>,
                                        beats: seq<WriteBeat>, bw: nat, mem': seq<byte>,
                                        rest: seq<WriteBeat>)
    requires RamServe(put, mem, b, beats, bw) == Done(mem', rest)
    ensures RamServeAll(put, mem, [b] + bursts, beats, bw)
         == RamServeAll(put, mem', bursts, rest, bw)
  {
    assert ([b] + bursts)[1..] == bursts;
  }

  /** The bursts planned from `cur` on use up the beats and apply the words in order. */
  ghost predicate Applied(put: Effect, mem: seq<byte>, cur: nat, words: seq<Word>, id: nat, ids: nat,
                          bw: nat, nb: nat, maxBurst: int)
    requires nb > 0 && ids > 0
  {
    RamServeAll(put, mem, Plan(cur, |words|, nb, maxBurst, id, ids, Incr),
                BeatsFrom(cur, words, 0, nb, maxBurst), bw)
    == Done(AfterWords(put, cur, words, nb, mem), [])
  }

  lemma {:induction false} AppliedStep(put: Effect, mem: seq<byte>, cur: nat, words: seq<Word>,
                                       id: nat, ids: nat, bw: nat, nb: nat, maxBurst: int, n: nat,
                                       cur': nat, mem': seq<byte>, id': nat)
    requires Widths(bw, nb) && Mod(cur, nb) == 0 && ids > 0 && words != []
    requires n == BurstLen(cur, |words|, nb, maxBurst) && 1 <= n <= |words|
    requires cur' == cur + Times(n, nb) && id' == Mod(id + 1, ids)
    requires mem' == AfterWords(put, cur, words[..n], nb, mem)
    requires Applied(put, mem', cur', words[n..], id', ids, bw, nb, maxBurst)
    ensures Applied(put, mem, cur, words, id, ids, bw, nb, maxBurst)
  {
    var b, remaining' := Burst(cur, id, n - 1, nb, Incr), |words| - n;
    ServeRuns(put, mem, cur, words, n, b, cur', bw, nb, maxBurst);
    PlanUnfolds(cur, |words|, nb, maxBurst, n, b, cur', remaining', id', ids);
    ServeAllStep(put, mem, b, Plan(cur', remaining', nb, maxBurst, id', ids, Incr),
                 BeatsFrom(cur, words, 0, nb, maxBurst), bw,
                 mem', BeatsFrom(cur', words[n..], 0, nb, maxBurst));
    AfterMoreWords(put, cur, words, n, nb, mem);
  }

  lemma {:induction false} PlanRuns(put: Effect, mem: seq<byte>, cur: nat, words: seq<Word>, id: nat,
                                    ids: nat, bw: nat, nb: nat, maxBurst: int)
    requires Widths(bw, nb) && Mod(cur, nb) == 0 && ids > 0
    ensures Applied(put, mem, cur, words, id, ids, bw, nb, maxBurst)
    decreases |words|
  {
    if words != [] {
      BurstBounds(cur, |words|, nb, maxBurst);
      var n := BurstLen(cur, |words|, nb, maxBurst);
      Aligned(cur, n, nb);
      var cur', id' := cur + Times(n, nb), Mod(id + 1, ids);
      var mem' := AfterWords(put, cur, words[..n], nb, mem);
      PlanRuns(put, mem', cur', words[n..], id', ids, bw, nb, maxBurst);
      AppliedStep(put, mem, cur, words, id, ids, bw, nb, maxBurst, n, cur', mem', id');
    }
  }

  // ----- the words of a write -----

  lemma {:induction false} ChunkBounds(cur: nat, addr: nat, len: nat, m: nat, nb: nat)
    requires nb > 0 && Mod(cur, nb) == 0 && cur <= addr < cur + nb
    requires len > 0 && m == ChunkLen(addr, len, nb)
    ensures 0 < m <= len && addr + m <= cur + nb && Mod(cur + nb, nb) == 0
    ensures m < len ==> addr + m == cur + nb
  {
    ModAdd(cur, nb, addr - cur);
  }

  function StoreChunk(mem: seq<byte>, addr: nat, data: seq<byte>, o: nat, m: nat): (mem': seq<byte>)
    requires |mem| > 0 && o + m <= |data|
    ensures |mem'| == |mem|
  {
    Store(mem, addr, data, o, o + m)
  }

  lemma {:induction false} ChunkEffect(put: Effect, mem: seq<byte>, cur: nat, addr: nat,
                                       data: seq<byte>, o: nat, m: nat, bw: nat, nb: nat)
    requires Widths(bw, nb) && RamFor(|mem|, bw) && Mod(cur, nb) == 0 && o + m <= |data|
    requires cur <= addr < cur + nb && addr + m <= cur + nb && put == RamEffect(bw)
    ensures put(mem, cur, ChunkWord(addr, data, o, m, bw)) == StoreChunk(mem, addr, data, o, m)
  {
    ChunkStores(mem, cur, addr, data, o, m, bw, nb);
    var w := ChunkWord(addr, data, o, m, bw);
    assert RamEffect(bw)(mem, cur, w) == RamWord(mem, cur, w, bw);
  }

  /** The beats `words` from `cur` on store data[o..]. */
  ghost predicate Stored(put: Effect, mem: seq<byte>, cur: nat, words: seq<Word>, nb: nat, addr: nat,
                         data: seq<byte>, o: nat)
    requires |mem| > 0 && o <= |data|
  {
    AfterWords(put, cur, words, nb, mem) == Store(mem, addr, data, o, |data|)
  }

  lemma {:induction false} StoredLast(put: Effect, mem: seq<byte>, cur: nat, addr: nat,
                                      data: seq<byte>, bw: nat, nb: nat)
    requires bw > 0 && nb > 0 && |mem| > 0
    ensures Stored(put, mem, cur, Chunks(addr, data, |data|, bw, nb), nb, addr, data, |data|)
  {
  }

  lemma {:induction false} StoredStep(put: Effect, mem: seq<byte>, mem': seq<byte>, cur: nat,
                                      cur': nat, w: Word, words: seq<Word>, nb: nat, addr: nat,
                                      addr': nat, data: seq<byte>, o: nat, m: nat, o': nat)
    requires |mem'| == |mem| > 0 && o' == o + m <= |data| && addr' == addr + m && cur' == cur + nb
    requires put(mem, cur, w) == mem' == StoreChunk(mem, addr, data, o, m)
    requires Stored(put, mem', cur', words, nb, addr', data, o')
    ensures Stored(put, mem, cur, [w] + words, nb, addr, data, o)
  {
    assert ([w] + words)[1..] == words;
    StoreSplit(mem, addr, data, o, o + m, |data|);
  }

  lemma {:induction false} ChunkStored(put: Effect, mem: seq<byte>, cur: nat, cur': nat, addr: nat,
                                       addr': nat, data: seq<byte>, o: nat, m: nat, o': nat, bw: nat,
                                       nb: nat)
    requires Widths(bw, nb) && RamFor(|mem|, bw) && Mod(cur, nb) == 0 && put == RamEffect(bw)
    requires o < |data| && cur <= addr < cur + nb && m == ChunkLen(addr, |data| - o, nb)
    requires cur' == cur + nb && addr' == addr + m && o' == o + m <= |data|
    requires Stored(put, StoreChunk(mem, addr, data, o, m), cur', Chunks(addr', data, o', bw, nb), nb,
                    addr', data, o')
    ensures Stored(put, mem, cur, Chunks(addr, data, o, bw, nb), nb, addr, data, o)
  {
    ChunkBounds(cur, addr, |data| - o, m, nb);
    ChunkEffect(put, mem, cur, addr, data, o, m, bw, nb);
    var w, words := ChunkWord(addr, data, o, m, bw), Chunks(addr', data, o', bw, nb);
    StoredStep(put, mem, StoreChunk(mem, addr, data, o, m), cur, cur', w, words, nb, addr, addr', data,
               o, m, o');
    ChunksUnfold(addr, addr', data, o, m, o', bw, nb);
  }

  /** The chunks store the data, whatever the alignment of its ends. */
  lemma {:induction false} ChunksStore(put: Effect, mem: seq<byte>, cur: nat, addr: nat,
                                       data: seq<byte>, o: nat, bw: nat, nb: nat)
    requires Widths(bw, nb) && RamFor(|mem|, bw) && Mod(cur, nb) == 0 && put == RamEffect(bw)
    requires o <= |data| && (o < |data| ==> cur <= addr < cur + nb)
    ensures Stored(put, mem, cur, Chunks(addr, data, o, bw, nb), nb, addr, data, o)
    decreases |data| - o
  {
    if o == |data| {
      StoredLast(put, mem, cur, addr, data, bw, nb);
    } else {
      var m := ChunkLen(addr, |data| - o, nb);
      ChunkBounds(cur, addr, |data| - o, m, nb);
      var cur', addr', o' := cur + nb, addr + m, o + m;
      ChunksStore(put, StoreChunk(mem, addr, data, o, m), cur', addr', data, o', bw, nb);
      ChunkStored(put, mem, cur, cur', addr, addr', data, o, m, o', bw, nb);
    }
  }

  lemma {:induction false} WordsStore(mem: seq<byte>, addr: nat, data: seq<byte>, bw: nat, nb: nat)
    requires Widths(bw, nb) && RamFor(|mem|, bw)
    ensures AfterWords(RamEffect(bw), Down(addr, nb), WordsOf(addr, data, bw, nb), nb, mem)
         == Store(mem, addr, data, 0, |data|)
  {
    DownAligned(addr, nb);
    if data == [] && Mod(addr, nb) != 0 {
      ChunkStores(mem, Down(addr, nb), addr, [], 0, 0, bw, nb);
    } else {
      ChunksStore(RamEffect(bw), mem, Down(addr, nb), addr, data, 0, bw, nb);
    }
  }

  /** The main result for writes: the RAM accepts every burst, uses up every beat, and ends as after
      one direct byte-array store.  This holds for any width, beat size, burst limit, address and
      data, the empty data included. */
  lemma {:induction false} WriteRefines(addr: nat, data: seq<byte>, bw: nat, nb: nat, maxBurst: int,
                                        id: nat, ids: nat, mem: seq<byte>)
    requires Widths(bw, nb) && RamFor(|mem|, bw) && ids > 0
    ensures RamServeAll(RamEffect(bw), mem,
                        Plan(Down(addr, nb), Cycles(addr, |data|, nb), nb, maxBurst, id, ids, Incr),
                        BeatsFrom(Down(addr, nb), WordsOf(addr, data, bw, nb), 0, nb, maxBurst), bw)
         == Done(Store(mem, addr, data, 0, |data|), [])
  {
    DownAligned(addr, nb);
    WordCount(addr, data, bw, nb);
    PlanRuns(RamEffect(bw), mem, Down(addr, nb), WordsOf(addr, data, bw, nb), id, ids, bw, nb,
             maxBurst);
    WordsStore(mem, addr, data, bw, nb);
  }

  // ----- many writes -----

  /** Beats queued behind those of a burst stay queued. */
  lemma {:induction false} BurstLeaves(put: Effect, mem: seq<byte>, b: Burst, cur: nat, n: nat,
                                       beats: seq<WriteBeat>, more: seq<WriteBeat>)
    requires b.nb > 0
    ensures var o := RamBurst(put, mem, b, cur, n, beats);
            o.Done? ==> RamBurst(put, mem, b, cur, n, beats + more) == Done(o.mem, o.rest + more)
    decreases n
  {
    if n > 0 && beats != [] {
      assert (beats + more)[1..] == beats[1..] + more;
      BurstLeaves(put, put(mem, cur, beats[0].word), b, NextAddr(b, cur), n - 1, beats[1..], more);
    }
  }

  lemma {:induction false} ServeLeaves(put: Effect, mem: seq<byte>, b: Burst, beats: seq<WriteBeat>,
                                       bw: nat, more: seq<WriteBeat>)
    ensures var o := RamServe(put, mem, b, beats, bw);
            o.Done? ==> RamServe(put, mem, b, beats + more, bw) == Done(o.mem, o.rest + more)
  {
    if Accepted(b, bw) {
      BurstLeaves(put, mem, b, Down(b.addr, b.nb), b.length + 1, beats, more);
    }
  }

  lemma {:induction false} ServeAllThen(put: Effect, mem: seq<byte>, bursts: seq<Burst>,
                                        beats: seq<WriteBeat>, bw: nat, later: seq<Burst>,
                                        more: seq<WriteBeat>)
    ensures var o := RamServeAll(put, mem, bursts, beats, bw);
            o.Done? ==> (RamServeAll(put, mem, bursts + later, beats + more, bw)
                         == RamServeAll(put, o.mem, later, o.rest + more, bw))
    decreases |bursts|
  {
    if bursts != [] {
      var o := RamServe(put, mem, bursts[0], beats, bw);
      if o.Done? {
        ServeLeaves(put, mem, bursts[0], beats, bw, more);
        ServeAllThen(put, o.mem, bursts[1..], o.rest, bw, later, more);
        assert (bursts + later)[1..] == bursts[1..] + later;
      }
    } else {
      assert bursts + later == later;
    }
  }

  datatype WriteCommand = WriteCommand(addr: nat, data: seq<byte>, nb: nat, maxBurst: int, id: nat)

  predicate Possible(cmds: seq<WriteCommand>, bw: nat) {
    forall c | c in cmds :: Widths(bw, c.nb)
  }

  function BurstsOf(c: WriteCommand, ids: nat): seq<Burst>
    requires c.nb > 0 && ids > 0
  {
    Plan(Down(c.addr, c.nb), Cycles(c.addr, |c.data|, c.nb), c.nb, c.maxBurst, c.id, ids, Incr)
  }

  function BeatsOf(c: WriteCommand, bw: nat): seq<WriteBeat>
    requires Widths(bw, c.nb)
  {
    BeatsFrom(Down(c.addr, c.nb), WordsOf(c.addr, c.data, bw, c.nb), 0, c.nb, c.maxBurst)
  }

  function AllBursts(cmds: seq<WriteCommand>, bw: nat, ids: nat): seq<Burst>
    requires Possible(cmds, bw) && ids > 0
  {
    if cmds == [] then [] else BurstsOf(cmds[0], ids) + AllBursts(cmds[1..], bw, ids)
  }

  function AllBeats(cmds: seq<WriteCommand>, bw: nat): seq<WriteBeat>
    requires Possible(cmds, bw)
  {
    if cmds == [] then [] else BeatsOf(cmds[0], bw) + AllBeats(cmds[1..], bw)
  }

  function AllStores(mem: seq<byte>, cmds: seq<WriteCommand>): seq<byte>
    requires |mem| > 0
    decreases |cmds|
  {
    if cmds == [] then mem
    else AllStores(Store(mem, cmds[0].addr, cmds[0].data, 0, |cmds[0].data|), cmds[1..])
  }

  /** Any number of writes queued one behind the other end as after the stores in that order. */
  lemma {:induction false} WritesRefine(mem: seq<byte>, cmds: seq<WriteCommand>, bw: nat, ids: nat)
    requires Possible(cmds, bw) && RamFor(|mem|, bw) && ids > 0
    ensures RamServeAll(RamEffect(bw), mem, AllBursts(cmds, bw, ids), AllBeats(cmds, bw), bw)
         == Done(AllStores(mem, cmds), [])
    decreases |cmds|
  {
    if cmds != [] {
      var c := cmds[0];
      WriteRefines(c.addr, c.data, bw, c.nb, c.maxBurst, c.id, ids, mem);
      ServeAllThen(RamEffect(bw), mem, BurstsOf(c, ids), BeatsOf(c, bw), bw,
                   AllBursts(cmds[1..], bw, ids), AllBeats(cmds[1..], bw));
      var mem' := Store(mem, c.addr, c.data, 0, |c.data|);
      WritesRefine(mem', cmds[1..], bw, ids);
      assert [] + AllBeats(cmds[1..], bw) == AllBeats(cmds[1..], bw);
    }
  }
}
