/** The ports of the DMA RAM: `stride` ports share one byte array word by word. */
module DmaRam {
  import opened Arith
  import opened Lanes
  import opened AxiTransfer
  import opened AxiRefinement
  import opened AxiReads
  import opened AxiRam

  /** The index of the bus word behind address `addr` of port `offset`. */
  function WordIndex(addr: nat, stride: nat, offset: nat): nat { Times(addr, stride) + offset }

  /** `(addr*stride+offset)*bw` */
  function PortAddr(addr: nat, stride: nat, offset: nat, bw: nat): nat {
    Times(WordIndex(addr, stride, offset), bw)
  }

  /** Every word belongs to one address of one port. */
  lemma {:induction false} StripesTile(word: nat, stride: nat, addr: nat, offset: nat)
    requires stride > 0 && offset < stride
    ensures WordIndex(addr, stride, offset) == word
        <==> addr == Div(word, stride) && offset == Mod(word, stride)
  {
    TimesMod(addr, stride, offset);
    DivModTimes(word, stride);
  }

  /** Byte `p` of the array is in the word at `addr` of port `offset` just if these are its word number
      split by the number of ports. */
  lemma {:induction false} BytesTile(p: nat, stride: nat, addr: nat, offset: nat, bw: nat)
    requires bw > 0 && stride > 0 && offset < stride
    ensures PortAddr(addr, stride, offset, bw) <= p < PortAddr(addr, stride, offset, bw) + bw
        <==> addr == Div(Div(p, bw), stride) && offset == Mod(Div(p, bw), stride)
  {
    var word, w := Div(p, bw), WordIndex(addr, stride, offset);
    StripesTile(word, stride, addr, offset);
    DivModTimes(p, bw);
    if Times(w, bw) <= p < Times(w, bw) + bw {
      TimesMod(w, bw, p - Times(w, bw));
    }
  }

  lemma {:induction false} PortAligned(addr: nat, stride: nat, offset: nat, bw: nat)
    requires bw > 0
    ensures Mod(PortAddr(addr, stride, offset, bw), bw) == 0
    ensures Down(PortAddr(addr, stride, offset, bw), bw) == PortAddr(addr, stride, offset, bw)
  {
    TimesMod(WordIndex(addr, stride, offset), bw, 0);
  }

  lemma {:induction false} WriteLanesOutside(mem: seq<byte>, pos: nat, word: nat, strb: seq<bool>,
                                             j: nat)
    requires pos + |strb| <= |mem| && j < |mem| && (j < pos || pos + |strb| <= j)
    ensures WriteLanes(mem, pos, word, strb)[j] == mem[j]
    decreases |strb|
  {
    if strb != [] {
      WriteLanesOutside(if strb[0] then mem[pos := word % 256] else mem, pos + 1, word / 256, strb[1..],
                        j);
    }
  }

  /** A full word written at an aligned address is read back there. */
  lemma {:induction false} WordRoundTrip(mem: seq<byte>, cur: nat, data: seq<byte>, bw: nat)
    requires Widths(bw, bw) && RamFor(|mem|, bw) && Mod(cur, bw) == 0 && |data| == bw
    ensures ReadWord(RamWord(mem, cur, LaneWord(bw, 0, bw, data), bw), cur, bw) == Pack(data, 256)
  {
    assert data[0..0 + bw] == data;
    ChunkStores(mem, cur, cur, data, 0, bw, bw, bw);
    WordFits(|mem|, cur, bw);
    StoredThere(mem, cur, data, Mod(cur, |mem|));
  }

  lemma {:induction false} StoredThere(mem: seq<byte>, cur: nat, data: seq<byte>, p: nat)
    requires 0 < |mem| && p == Mod(cur, |mem|) && p + |data| <= |mem|
    ensures Store(mem, cur, data, 0, |data|)[p..p + |data|] == data
  {
    forall i | 0 <= i < |data|
      ensures Store(mem, cur, data, 0, |data|)[p + i] == data[i]
    {
      ModAdd(cur, |mem|, i);
      StoreAt(mem, cur, data, 0, i);
    }
  }

  /** Whatever is written, the words at other places of the array stay. */
  lemma {:induction false} WordsApart(mem: seq<byte>, cur: nat, w: Word, other: nat, bw: nat)
    requires RamFor(|mem|, bw) && Mod(cur, bw) == 0 && Mod(other, bw) == 0
    requires Mod(cur, |mem|) != Mod(other, |mem|)
    ensures ReadWord(RamWord(mem, cur, w, bw), other, bw) == ReadWord(mem, other, bw)
  {
    WordFits(|mem|, cur, bw);
    WordFits(|mem|, other, bw);
    var p, q := Mod(cur, |mem|), Mod(other, |mem|);
    ModMod(cur, |mem|, bw);
    ModMod(other, |mem|, bw);
    if p < q {
      MultiplesApart(p, q, bw);
    } else {
      MultiplesApart(q, p, bw);
    }
    if |w.strb| == bw {
      LanesApart(mem, p, w, q, bw);
    }
  }

  lemma {:induction false} LanesApart(mem: seq<byte>, p: nat, w: Word, q: nat, bw: nat)
    requires |w.strb| == bw && p + bw <= |mem| && q + bw <= |mem| && (p + bw <= q || q + bw <= p)
    ensures WriteLanes(mem, p, w.data, w.strb)[q..q + bw] == mem[q..q + bw]
  {
    forall j | q <= j < q + bw
      ensures WriteLanes(mem, p, w.data, w.strb)[j] == mem[j]
    {
      WriteLanesOutside(mem, p, w.data, w.strb, j);
    }
  }

  /** One clock of a write port. */
  method WriteClock(ram: RamPort, ready: bool, valid: bool, addr: nat, stride: nat, offset: nat,
                    data: nat, be: seq<bool>)
    requires ram.Valid() && |be| == ram.bw
    modifies ram.mem
    ensures ram.Valid()
    ensures ram.mem[..]
         == if ready && valid
            then RamWord(old(ram.mem[..]), PortAddr(addr, stride, offset, ram.bw), Word(data, be), ram.bw)
            else old(ram.mem[..])
  {
    if ready && valid {
      ram.WriteWord(PortAddr(addr, stride, offset, ram.bw), Word(data, be));
    }
  }

  /** The word that a read port puts into its pipeline when it accepts a command. */
  method ReadAt(ram: RamPort, addr: nat, stride: nat, offset: nat) returns (word: nat)
    requires ram.Valid()
    ensures word == ReadWord(ram.mem[..], PortAddr(addr, stride, offset, ram.bw), ram.bw)
  {
    word := ram.ReadWordAt(Words(ram.mem[..], ram.bw), PortAddr(addr, stride, offset, ram.bw));
  }
}
