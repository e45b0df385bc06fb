/** The AXI RAM as an object: its loops over an in-place byte array do what RamServeAll and RamReads
    describe. */
module AxiRam {
  import opened Arith
  import opened Lanes
  import opened AxiTransfer
  import opened AxiRefinement
  import opened AxiReads

  /** As many strobes as bus lanes in every beat. */
  predicate Strobed(beats: seq<WriteBeat>, bw: nat) {
    forall b | b in beats :: |b.word.strb| == bw
  }

  lemma {:induction false} WriteLanesStep(mem: seq<byte>, pos: nat, word: nat, strb: seq<bool>,
                                          i: nat)
    requires i < |strb| && pos + |strb| <= |mem|
    ensures WriteLanes(mem, pos + i, word, strb[i..])
         == WriteLanes(if strb[i] then mem[pos + i := word % 256] else mem, pos + i + 1, word / 256,
                       strb[i + 1..])
  {
    assert strb[i..][1..] == strb[i + 1..];
  }

  lemma {:induction false} AnswerStep(word: nat -> nat, b: Burst, cur: nat, n: nat,
                                      queue: seq<ReadBeat>)
    requires b.nb > 0 && n > 0
    ensures queue + RamReadBurst(word, b, cur, n)
         == queue + [ReadBeat(b.id, word(cur), n == 1)]
            + RamReadBurst(word, b, NextAddr(b, cur), n - 1)
  {
  }

  /** `bursts` answered behind `queue` is what `bursts'` is behind `queue'`. */
  ghost predicate SameAnswers(word: nat -> nat, bursts: seq<Burst>, queue: seq<ReadBeat>,
                              bursts': seq<Burst>, queue': seq<ReadBeat>, bw: nat)
  {
    var all, rest := RamReads(word, bursts, bw), RamReads(word, bursts', bw);
    && all.Answers? == rest.Answers?
    && (all.Answers? ==> queue + all.beats == queue' + rest.beats)
  }

  lemma {:induction false} SameAnswersStep(word: nat -> nat, bursts: seq<Burst>,
                                           queue: seq<ReadBeat>, bursts': seq<Burst>,
                                           queue': seq<ReadBeat>, bw: nat)
    requires bursts' != []
    requires SameAnswers(word, bursts, queue, bursts', queue', bw)
    ensures var b := bursts'[0];
            if Accepted(b, bw) then
              SameAnswers(word, bursts, queue, bursts'[1..],
                          queue' + RamReadBurst(word, b, Down(b.addr, b.nb), b.length + 1), bw)
            else RamReads(word, bursts, bw).NoAnswers?
  {
  }

  class RamPort {
    const bw: nat
    const mem: array<byte>
    var writeAddrQueue: seq<Burst>
    var writeDataQueue: seq<WriteBeat>
    var readAddrQueue: seq<Burst>
    var readRespQueue: seq<ReadBeat>

    ghost predicate Valid()
      reads this
    {
      RamFor(mem.Length, bw) && Strobed(writeDataQueue, bw)
    }

    constructor (size: nat, bw: nat)
      requires RamFor(size, bw)
      ensures Valid() && fresh(mem) && mem.Length == size && this.bw == bw
      ensures forall i | 0 <= i < size :: mem[i] == 0
      ensures writeAddrQueue == [] && writeDataQueue == []
      ensures readAddrQueue == [] && readRespQueue == []
    {
      mem := new byte[size](_ => 0);
      this.bw := bw;
      writeAddrQueue, writeDataQueue, readAddrQueue, readRespQueue := [], [], [], [];
    }

    /** Seek to the word of `cur` and write or skip one byte per lane. */
    method WriteWord(cur: nat, w: Word)
      requires Valid() && |w.strb| == bw
      modifies mem
      ensures mem[..] == RamWord(old(mem[..]), cur, w, bw)
    {
      WordFits(mem.Length, cur, bw);
      var pos := Mod(Down(cur, bw), mem.Length);
      var wdata := w.data;
      for i := 0 to bw
        invariant WriteLanes(old(mem[..]), pos, w.data, w.strb)
               == WriteLanes(mem[..], pos + i, wdata, w.strb[i..])
      {
        WriteLanesStep(mem[..], pos, wdata, w.strb, i);
        ghost var before := mem[..];
        if w.strb[i] {
          mem[pos + i] := wdata % 256;
          assert mem[..] == before[pos + i := wdata % 256];
        }
        wdata := wdata / 256;
      }
    }

    method NextAddress(b: Burst, cur: nat, lower: nat, upper: nat) returns (next: nat)
      requires b.nb > 0
      requires b.kind.Wrap? ==> lower == Down(b.addr, Times(b.length + 1, b.nb))
      requires b.kind.Wrap? ==> upper == lower + Times(b.length + 1, b.nb)
      ensures next == NextAddr(b, cur)
    {
      next := cur;
      if !b.kind.Fixed? {
        next := cur + b.nb;
        if b.kind.Wrap? && next == upper {
          next := lower;
        }
      }
    }

    /** The wrap boundaries; only wrapping bursts use them. */
    method WrapBounds(b: Burst) returns (lower: nat, upper: nat)
      requires b.nb > 0
      ensures b.kind.Wrap? ==> lower == Down(b.addr, Times(b.length + 1, b.nb))
      ensures b.kind.Wrap? ==> upper == lower + Times(b.length + 1, b.nb)
    {
      lower, upper := 0, 0;
      if b.kind.Wrap? {
        TimesMonotone(1, b.length + 1, b.nb);
        var transferSize := Times(b.length + 1, b.nb);
        lower := Down(b.addr, transferSize);
        upper := lower + transferSize;
      }
    }

    /** One beat of a burst of which `n` are left; `ok` is false if it is missing or badly
        flagged. */
    method WriteBeatOf(b: Burst, cur: nat, n: nat, lower: nat, upper: nat)
      returns (ok: bool, next: nat)
      requires Valid() && b.nb > 0 && n > 0
      requires b.kind.Wrap? ==> lower == Down(b.addr, Times(b.length + 1, b.nb))
      requires b.kind.Wrap? ==> upper == lower + Times(b.length + 1, b.nb)
      modifies mem, this`writeDataQueue
      ensures Valid()
      ensures var o := RamBurst(RamEffect(bw), old(mem[..]), b, cur, n, old(writeDataQueue));
              if ok then o == RamBurst(RamEffect(bw), mem[..], b, next, n - 1, writeDataQueue)
              else o.Refused?
    {
      next := cur;
      if writeDataQueue == [] {
        return false, next;
      }
      var beat := writeDataQueue[0];
      writeDataQueue := writeDataQueue[1..];
      WriteWord(cur, beat.word);
      if beat.last != (n == 1) {
        return false, next;
      }
      next := NextAddress(b, cur, lower, upper);
      ok := true;
    }

    /** write_logic: serve the next burst; `ok` is false where an assertion of the code fails or
        data is missing. */
    method WriteBurst() returns (ok: bool)
      requires Valid() && writeAddrQueue != []
      modifies mem, this`writeAddrQueue, this`writeDataQueue
      ensures Valid() && writeAddrQueue == old(writeAddrQueue)[1..]
      ensures RamServe(RamEffect(bw), old(mem[..]), old(writeAddrQueue)[0], old(writeDataQueue), bw)
           == if ok then Done(mem[..], writeDataQueue) else Refused
    {
      var b := writeAddrQueue[0];
      writeAddrQueue := writeAddrQueue[1..];
      if !Accepted(b, bw) {
        return false;
      }
      var cur := Down(b.addr, b.nb);
      var lower, upper := WrapBounds(b);
      for n := 0 to b.length + 1
        invariant Valid() && writeAddrQueue == old(writeAddrQueue)[1..]
        invariant RamServe(RamEffect(bw), old(mem[..]), b, old(writeDataQueue), bw)
               == RamBurst(RamEffect(bw), mem[..], b, cur, b.length + 1 - n, writeDataQueue)
      {
        ok, cur := WriteBeatOf(b, cur, b.length + 1 - n, lower, upper);
        if !ok {
          return;
        }
      }
      ok := true;
    }

    /** write_logic as long as there are bursts. */
    method ServeWrites() returns (ok: bool)
      requires Valid()
      modifies mem, this`writeAddrQueue, this`writeDataQueue
      ensures Valid()
      ensures RamServeAll(RamEffect(bw), old(mem[..]), old(writeAddrQueue), old(writeDataQueue), bw)
           == if ok then Done(mem[..], writeDataQueue) else Refused
      ensures ok ==> writeAddrQueue == []
    {
      while writeAddrQueue != []
        invariant Valid()
        invariant RamServeAll(RamEffect(bw), old(mem[..]), old(writeAddrQueue), old(writeDataQueue), bw)
               == RamServeAll(RamEffect(bw), mem[..], writeAddrQueue, writeDataQueue, bw)
        decreases |writeAddrQueue|
      {
        ok := WriteBurst();
        if !ok {
          return;
        }
      }
      ok := true;
    }

    /** The bytes of a word, shifted together from the top lane down. */
    method ReadWordAt(ghost word: nat -> nat, cur: nat) returns (val: nat)
      requires Valid() && word == Words(mem[..], bw)
      ensures val == word(cur)
    {
      WordFits(mem.Length, cur, bw);
      var p := Mod(Down(cur, bw), mem.Length);
      val := 0;
      assert mem[..][p + bw..p + bw] == [];
      for i := bw downto 0
        invariant val == Pack(mem[..][p + i..p + bw], 256)
      {
        assert mem[..][p + i..p + bw] == [mem[p + i]] + mem[..][p + i + 1..p + bw];
        val := 256 * val + mem[p + i];
      }
    }

    /** Queue the answer to one beat of a burst of which `n` are left. */
    method AnswerBeat(ghost word: nat -> nat, b: Burst, cur: nat, n: nat, lower: nat, upper: nat)
      returns (next: nat)
      requires Valid() && b.nb > 0 && n > 0 && word == Words(mem[..], bw)
      requires b.kind.Wrap? ==> lower == Down(b.addr, Times(b.length + 1, b.nb))
      requires b.kind.Wrap? ==> upper == lower + Times(b.length + 1, b.nb)
      modifies this`readRespQueue
      ensures next == NextAddr(b, cur)
      ensures readRespQueue + RamReadBurst(word, b, next, n - 1)
           == old(readRespQueue) + RamReadBurst(word, b, cur, n)
    {
      var val := ReadWordAt(word, cur);
      AnswerStep(word, b, cur, n, readRespQueue);
      readRespQueue := readRespQueue + [ReadBeat(b.id, val, n == 1)];
      next := NextAddress(b, cur, lower, upper);
    }

    /** read_logic: answer the next burst; `ok` is false where an assertion of the code fails. */
    method ReadBurst() returns (ok: bool)
      requires Valid() && readAddrQueue != []
      modifies this`readAddrQueue, this`readRespQueue
      ensures Valid() && readAddrQueue == old(readAddrQueue)[1..]
      ensures var b := old(readAddrQueue)[0];
              && ok == Accepted(b, bw)
              && readRespQueue == old(readRespQueue)
                   + if ok then RamReadBurst(Words(mem[..], bw), b, Down(b.addr, b.nb), b.length + 1)
                     else []
    {
      var b := readAddrQueue[0];
      readAddrQueue := readAddrQueue[1..];
      if !Accepted(b, bw) {
        return false;
      }
      var cur := Down(b.addr, b.nb);
      var lower, upper := WrapBounds(b);
      ghost var word := Words(mem[..], bw);
      ghost var answers := readRespQueue + RamReadBurst(word, b, cur, b.length + 1);
      for n := 0 to b.length + 1
        invariant Valid() && readAddrQueue == old(readAddrQueue)[1..]
        invariant answers == readRespQueue + RamReadBurst(word, b, cur, b.length + 1 - n)
      {
        cur := AnswerBeat(word, b, cur, b.length + 1 - n, lower, upper);
      }
      ok := true;
    }

    /** read_logic as long as there are bursts. */
    method ServeReads() returns (ok: bool)
      requires Valid()
      modifies this`readAddrQueue, this`readRespQueue
      ensures Valid()
      ensures var answers := RamReads(Words(mem[..], bw), old(readAddrQueue), bw);
              && ok == answers.Answers?
              && (ok ==> readAddrQueue == [] && readRespQueue == old(readRespQueue) + answers.beats)
    {
      ghost var word, queued := Words(mem[..], bw), readRespQueue;
      while readAddrQueue != []
        invariant Valid()
        invariant SameAnswers(word, old(readAddrQueue), queued, readAddrQueue, readRespQueue, bw)
        decreases |readAddrQueue|
      {
        SameAnswersStep(word, old(readAddrQueue), queued, readAddrQueue, readRespQueue, bw);
        ok := ReadBurst();
        if !ok {
          return;
        }
      }
      ok := true;
    }
  }
}
