/** The read ports of the DMA RAM together with its write ports: what a read delivers is the word as it
    was when the command was accepted. */
module DmaPorts {
  import opened Arith
  import opened Lanes
  import opened AxiTransfer
  import opened AxiRefinement
  import opened AxiReads
  import opened DmaRam
  import opened ReadPipeline

  /** `size` bytes in words of `bw`, of which every `stride`-th belongs to a port. */
  datatype Ram = Ram(bw: nat, stride: nat, size: nat)
  {
    predicate Valid() { Widths(bw, bw) && RamFor(size, bw) && stride > 0 }
  }

  /** A word written through any write port, or a clock edge of the read port at hand.  Accesses of one
      clock come in any order. */
  datatype Access =
    | Write(offset: nat, addr: nat, word: Word)
    | Read(offset: nat, addr: nat, respReady: bool, cmdValid: bool, pause: bool)

  function Place(a: Access, r: Ram): nat { PortAddr(a.addr, r.stride, a.offset, r.bw) }

  function Written(mem: seq<byte>, a: Access, r: Ram): (mem': seq<byte>)
    requires r.Valid() && |mem| == r.size
    ensures |mem'| == |mem|
  {
    if a.Write? then RamWord(mem, Place(a, r), a.word, r.bw) else mem
  }

  function Memory(mem: seq<byte>, accesses: seq<Access>, r: Ram): (mem': seq<byte>)
    requires r.Valid() && |mem| == r.size
    ensures |mem'| == |mem|
    decreases |accesses|
  {
    if accesses == [] then mem else Memory(Written(mem, accesses[0], r), accesses[1..], r)
  }

  /** What an edge of the read port sees. */
  function EdgeOf(mem: seq<byte>, a: Access, r: Ram): Edge<nat>
    requires r.Valid() && |mem| == r.size && a.Read?
  {
    Edge(a.respReady, a.cmdValid, a.pause, ReadWord(mem, Place(a, r), r.bw))
  }

  function Edges(mem: seq<byte>, accesses: seq<Access>, r: Ram): seq<Edge<nat>>
    requires r.Valid() && |mem| == r.size
    decreases |accesses|
  {
    if accesses == [] then []
    else (if accesses[0].Read? then [EdgeOf(mem, accesses[0], r)] else [])
         + Edges(Written(mem, accesses[0], r), accesses[1..], r)
  }

  lemma {:induction false} MemoryAppend(mem: seq<byte>, a: seq<Access>, b: seq<Access>, r: Ram)
    requires r.Valid() && |mem| == r.size
    ensures Memory(mem, a + b, r) == Memory(Memory(mem, a, r), b, r)
    decreases |a|
  {
    if a == [] {
      assert a + b == b;
    } else {
      assert (a + b)[1..] == a[1..] + b;
      MemoryAppend(Written(mem, a[0], r), a[1..], b, r);
    }
  }

  lemma {:induction false} EdgesAppend(mem: seq<byte>, a: seq<Access>, b: seq<Access>, r: Ram)
    requires r.Valid() && |mem| == r.size
    ensures Edges(mem, a + b, r) == Edges(mem, a, r) + Edges(Memory(mem, a, r), b, r)
    decreases |a|
  {
    if a == [] {
      assert a + b == b;
    } else {
      assert (a + b)[1..] == a[1..] + b;
      EdgesAppend(Written(mem, a[0], r), a[1..], b, r);
    }
  }

  lemma {:induction false} AcceptedAppend<T>(p: Pipe<T>, a: seq<Edge<T>>, b: seq<Edge<T>>)
    requires p.stages != []
    ensures ReadPipeline.Accepted(p, a + b)
         == ReadPipeline.Accepted(p, a) + ReadPipeline.Accepted(After(p, a), b)
    decreases |a|
  {
    if a == [] {
      assert a + b == b;
    } else {
      assert (a + b)[1..] == a[1..] + b;
      AcceptedAppend(OnEdge(p, a[0]), a[1..], b);
    }
  }

  /** The place of a word in the array. */
  function At(a: Access, r: Ram): nat
    requires r.Valid()
  {
    Mod(Place(a, r), r.size)
  }

  lemma {:induction false} OthersLeave(mem: seq<byte>, accesses: seq<Access>, to: Access, r: Ram)
    requires r.Valid() && |mem| == r.size
    requires forall i | 0 <= i < |accesses| :: accesses[i].Write? ==> At(accesses[i], r) != At(to, r)
    ensures ReadWord(Memory(mem, accesses, r), Place(to, r), r.bw) == ReadWord(mem, Place(to, r), r.bw)
    decreases |accesses|
  {
    if accesses != [] {
      var a := accesses[0];
      if a.Write? {
        PortAligned(a.addr, r.stride, a.offset, r.bw);
        PortAligned(to.addr, r.stride, to.offset, r.bw);
        WordsApart(mem, Place(a, r), a.word, Place(to, r), r.bw);
      }
      OthersLeave(Written(mem, a, r), accesses[1..], to, r);
    }
  }

  /** A full word of data. */
  predicate Fills(a: Access, data: seq<byte>, r: Ram) {
    a.Write? && |data| == r.bw && a.word == LaneWord(r.bw, 0, r.bw, data)
  }

  /** Over all runs, for every latency and every pattern of stalls and pauses: what is delivered, then
      what is in flight, are the words of the accepted commands in order, and the word of a command is
      what the last write to its place stored, if that was of a full word and came before the command
      was accepted, whatever is written elsewhere. */
  lemma {:induction false} ReadsLastWrite(mem: seq<byte>, early: seq<Access>, write: Access,
                                          data: seq<byte>, between: seq<Access>, read: Access,
                                          late: seq<Access>, latency: nat, r: Ram)
    requires r.Valid() && |mem| == r.size && latency >= 1 && Fills(write, data, r) && read.Read?
    requires At(read, r) == At(write, r)
    requires forall i | 0 <= i < |between| :: between[i].Write? ==> At(between[i], r) != At(read, r)
    ensures var p := Empty<nat>(latency); var before := early + [write] + between;
            var edges := Edges(mem, before + [read] + late, r);
            var m := Memory(mem, before, r); var seen := Edges(mem, before, r);
            var k := |ReadPipeline.Accepted(p, seen)|; var all := ReadPipeline.Accepted(p, edges);
            && Delivered(p, edges) + InFlight(After(p, edges)) == all
            && (Accepts(After(p, seen), EdgeOf(m, read, r)) ==> k < |all| && all[k] == Pack(data, 256))
  {
    var p, before := Empty<nat>(latency), early + [write] + between;
    var m := Memory(mem, before, r);
    InOrder<nat>(latency, Edges(mem, before + [read] + late, r));
    WordNow(mem, early, write, data, between, read, r);
    EdgesAppend(mem, before + [read], late, r);
    EdgesAppend(mem, before, [read], r);
    assert Edges(m, [read], r) == [EdgeOf(m, read, r)];
    AcceptedAppend(p, Edges(mem, before + [read], r), Edges(Memory(mem, before + [read], r), late, r));
    AcceptedAppend(p, Edges(mem, before, r), [EdgeOf(m, read, r)]);
  }

  lemma {:induction false} WordNow(mem: seq<byte>, early: seq<Access>, write: Access, data: seq<byte>,
                                   between: seq<Access>, read: Access, r: Ram)
    requires r.Valid() && |mem| == r.size && Fills(write, data, r) && At(read, r) == At(write, r)
    requires forall i | 0 <= i < |between| :: between[i].Write? ==> At(between[i], r) != At(read, r)
    ensures ReadWord(Memory(mem, early + [write] + between, r), Place(read, r), r.bw) == Pack(data, 256)
  {
    var m := Memory(mem, early, r);
    var m' := Written(m, write, r);
    MemoryAppend(mem, early + [write], between, r);
    MemoryAppend(mem, early, [write], r);
    assert Memory(m, [write], r) == m';
    OthersLeave(m', between, read, r);
    PortAligned(write.addr, r.stride, write.offset, r.bw);
    PortAligned(read.addr, r.stride, read.offset, r.bw);
    WordRoundTrip(m, Place(write, r), data, r.bw);
    SamePlace(m', Place(read, r), Place(write, r), r);
  }

  lemma {:induction false} SamePlace(mem: seq<byte>, a: nat, b: nat, r: Ram)
    requires r.Valid() && |mem| == r.size && Mod(a, r.size) == Mod(b, r.size)
    requires Down(a, r.bw) == a && Down(b, r.bw) == b
    ensures ReadWord(mem, a, r.bw) == ReadWord(mem, b, r.bw)
  {
  }
}
