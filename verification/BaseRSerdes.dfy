/** The 10GBASE-R endpoints: they behave as XGMII endpoints eight lanes wide whose words travel as
    64b/66b blocks, scrambled and perhaps bit-reversed. */
module BaseRSerdes {
  import opened Wrappers
  import opened Xgmii
  import opened BaseRCodec
  import opened BitVectors
  import Scrambler

  // ----- the line -----

  /** What tx_header and tx_data carry. */
  datatype Line = Line(header: seq<bool>, data: seq<bool>)

  datatype Mode = Mode(scramble: bool, reverse: bool)

  function HeaderBits(h: bv2): (bits: seq<bool>)
    ensures |bits| == 2
  {
    [h & 1 != 0, h & 2 != 0]
  }

  function Header(bits: seq<bool>): bv2
    requires |bits| == 2
  {
    (if bits[0] then 1 else 0) | (if bits[1] then 2 else 0)
  }

  function Flip(bits: seq<bool>, reverse: bool): (r: seq<bool>)
    ensures |r| == |bits|
  {
    if reverse then Reversed(bits) else bits
  }

  function ToLine(b: Block, state: Scrambler.State, m: Mode): (l: Line)
    ensures |l.header| == 2 && |l.data| == 64
  {
    var data := if m.scramble then Scrambler.Scramble(state, Bits(b.data)) else Bits(b.data);
    Line(Flip(HeaderBits(b.header), m.reverse), Flip(data, m.reverse))
  }

  function FromLine(l: Line, state: Scrambler.State, m: Mode): Block
    requires |l.header| == 2 && |l.data| == 64
  {
    var data := Flip(l.data, m.reverse);
    Block(Header(Flip(l.header, m.reverse)),
          WordOf(if m.scramble then Scrambler.Descramble(state, data) else data))
  }

  /** The register after a word on the line. */
  function NextState(l: Line, state: Scrambler.State, m: Mode): Scrambler.State {
    if m.scramble then Scrambler.After(state, Flip(l.data, m.reverse)) else state
  }

  /** What the 64 bits of tx_data take: a scrambled or reversed word is built anew from 64 bits of the
      block; a word as it is has to fit, or the assignment raises an exception. */
  predicate Fits(b: Block, m: Mode) { m.scramble || m.reverse || b.over == 0 }

  /** Both ends in the same mode and with equal registers carry the 64 bits of every block. */
  lemma {:induction false} LineTrip(b: Block, state: Scrambler.State, m: Mode)
    ensures FromLine(ToLine(b, state, m), state, m) == b.(over := 0)
  {
    ReversedTwice(Bits(b.data));
    ReversedTwice(Scrambler.Scramble(state, Bits(b.data)));
    ReversedTwice(HeaderBits(b.header));
    Scrambler.Inverse(state, Bits(b.data));
    WordOfBits(b.data);
    HeaderTrip(b.header);
  }

  lemma {:induction false} HeaderTrip(h: bv2)
    ensures Header(HeaderBits(h)) == h
  {
  }

  /** The 64 bits of a word on the line in the order of the block: bit i of the block is bit i of tx_data,
      or bit 63 - i with reversal. */
  function InOrder(l: Line, m: Mode): (bits: seq<bool>)
    requires |l.data| == 64
    ensures |bits| == 64
  {
    seq(64, i requires 0 <= i < 64 => l.data[if m.reverse then 63 - i else i])
  }

  lemma {:induction false} FlipIs(l: Line, m: Mode)
    requires |l.data| == 64
    ensures InOrder(l, m) == Flip(l.data, m.reverse)
  {
    ReversedAt(l.data);
  }

  /** What the line carries: the header and the bits of the block, each of them, with scrambling, combined
      with the bits of the line 39 and 58 places before it. */
  lemma {:induction false} LineExact(b: Block, state: Scrambler.State, m: Mode, i: nat)
    requires i < 64
    ensures var l := ToLine(b, state, m);
            var line := InOrder(l, m);
            var past := Scrambler.LineBit(state, line, i - 39) != Scrambler.LineBit(state, line, i - 58);
            && l.header == (if m.reverse then [b.header & 2 != 0, b.header & 1 != 0]
                            else [b.header & 1 != 0, b.header & 2 != 0])
            && line[i] == if m.scramble then Bits(b.data)[i] != past else Bits(b.data)[i]
  {
    var l := ToLine(b, state, m);
    FlipIs(l, m);
    ReversedTwice(Bits(b.data));
    ReversedTwice(Scrambler.Scramble(state, Bits(b.data)));
    ReversedAt(HeaderBits(b.header));
    if m.scramble {
      Scrambler.Polynomial(state, Bits(b.data), i);
    }
  }

  /** What the other end gets of a word, if it can be sent. */
  function Carried(w: Word, state: Scrambler.State, m: Mode): Option<Word> {
    if Fits(Encode(w), m) then Some(Decode(FromLine(ToLine(Encode(w), state, m), state, m))) else None
  }

  /** Which words arrive as they are: those the code can carry, and, if the line is scrambled or
      reversed, a sequence set whose other lanes are errors. */
  lemma {:induction false} WordTrip(w: Word, state: Scrambler.State, m: Mode)
    ensures Carried(w, state, m) == Some(w)
        <==> Codable(w) || ((m.scramble || m.reverse) && SequenceOfErrors(w))
    ensures Carried(w, state, m).None? <==> Os0Alone(w) && !m.scramble && !m.reverse
  {
    LineTrip(Encode(w), state, m);
    ComesBack(w);
    SameDecoding(Encode(w));
    if Codable(w) {
      BaseRCodec.RoundTrip(w);
    }
  }

  lemma {:induction false} SameDecoding(b: Block)
    ensures Decode(b.(over := 0)) == Decode(b)
  {
  }

  // ----- the source -----

  /** The lane of the terminator by block type. */
  function TermLaneOf(t: byte): Option<nat> {
    if t == 0x87 then Some(0)
    else if t == 0x99 then Some(1)
    else if t == 0xaa then Some(2)
    else if t == 0xb4 then Some(3)
    else if t == 0xcc then Some(4)
    else if t == 0xd2 then Some(5)
    else if t == 0xe1 then Some(6)
    else if t == 0xff then Some(7)
    else None
  }

  const IdleBlock := Block(SYNC_CTRL, 0x1e)

  /** The blocks of a frame, padded with idles. */
  function Blocks(lanes: seq<Lane>): seq<Block>
    decreases |lanes|
  {
    if lanes == [] then []
    else [Encode(Padded(lanes, 8))] + if |lanes| > 8 then Blocks(lanes[8..]) else []
  }

  datatype Serdes = Serdes(ifg: int, dic: bool, force: bool, queue: seq<Frame>, ccl: seq<Block>,
                           ifgCnt: int, deficit: nat)

  /** Pop a block; with the last one the gap begins. */
  function PopBlock(s: Serdes): Serdes
    requires s.ccl != []
  {
    var s' := s.(ccl := s.ccl[1..]);
    if s'.ccl != [] then s'
    else
      match TermLaneOf(TypeOf(s.ccl[0].data))
      case Some(l) => s'.(ifgCnt := s.ifg - (8 - l) + s.deficit)
      case None => s'.(ifgCnt := s.ifg + s.deficit)
  }

  /** The lanes of the next frame. */
  function NextLanes(s: Serdes): seq<Lane>
    requires s.queue != [] && Sendable(s.queue[0])
  {
    if s.ifgCnt >= 4 || s.force then Idles(4) + Framed(s.queue[0]) else Framed(s.queue[0])
  }

  function LoadBlocks(s: Serdes): Serdes
    requires s.queue != [] && Sendable(s.queue[0])
  {
    var cnt := if s.ifgCnt >= 4 || s.force then Max(s.ifgCnt - 4, 0) else s.ifgCnt;
    s.(queue := s.queue[1..], ccl := Blocks(NextLanes(s)), deficit := Max(cnt, 0), ifgCnt := 0)
  }

  datatype Sent = Sent(serdes: Serdes, block: Block)

  predicate GapLeft(s: Serdes) { s.ifgCnt > 7 || (!s.dic && s.ifgCnt > 0) }

  /** What the source asserts of the next frame. */
  predicate Ready(s: Serdes) {
    s.queue != [] ==> Sendable(s.queue[0])
  }

  function SerdesClock(s: Serdes): Sent
    requires Ready(s)
  {
    if GapLeft(s) then Sent(s.(ifgCnt := Max(s.ifgCnt - 8, 0)), IdleBlock)
    else if s.ccl != [] then Sent(PopBlock(s), s.ccl[0])
    else if s.queue != [] then
      BlocksSome(NextLanes(s));
      Sent(PopBlock(LoadBlocks(s)), LoadBlocks(s).ccl[0])
    else Sent(s.(ifgCnt := 0, deficit := 0), IdleBlock)
  }

  // ----- the words of a frame -----

  /** Data and then the terminator. */
  predicate Tail(lanes: seq<Lane>) {
    && lanes != [] && lanes[|lanes| - 1] == TermLane
    && forall i | 0 <= i < |lanes| - 1 :: !lanes[i].c
  }

  lemma {:induction false} FullWord(lanes: seq<Lane>)
    requires Tail(lanes) && |lanes| > 8
    ensures Codable(Padded(lanes, 8)) && Tail(lanes[8..])
  {
    assert NoCtrl(Padded(lanes, 8), 0, 8);
  }

  /** The last word of a frame goes out as the block type of its terminator. */
  lemma {:induction false} LastWord(lanes: seq<Lane>)
    requires Tail(lanes) && |lanes| <= 8
    ensures Codable(Padded(lanes, 8))
    ensures Encode(Padded(lanes, 8)) == Block(SYNC_CTRL, EncodeTerm(Padded(lanes, 8), |lanes| - 1))
  {
    var w: Word, k := Padded(lanes, 8), |lanes| - 1;
    PaddedIdles(lanes);
    assert EndsAt(w, k) && AllMapped(w, k + 1, 8);
    assert forall i | 0 <= i < 8 && i != k :: !EndsAt(w, i);
  }

  lemma {:induction false} PaddedIdles(lanes: seq<Lane>)
    requires |lanes| <= 8
    ensures forall i | 0 <= i < |lanes| :: Padded(lanes, 8)[i] == lanes[i]
    ensures forall i | |lanes| <= i < 8 :: Padded(lanes, 8)[i] == IdleLane
  {
    forall i | |lanes| <= i < 8
      ensures Padded(lanes, 8)[i] == IdleLane
    {
      IdlesAre(8 - |lanes|, i - |lanes|);
    }
  }

  /** The first word of a good frame, in lane 0 or 4. */
  lemma {:induction false} FirstWord(f: Frame, offset: bool)
    requires Good(f, 8)
    ensures var lanes := if offset then Idles(4) + Framed(f) else Framed(f);
            |lanes| > 8 && Codable(Padded(lanes, 8)) && Tail(lanes[8..])
  {
    FramedLanes(f);
    WireLanes(f);
    var framed := Framed(f);
    assert forall i | 1 <= i < |framed| :: framed[i] == framed[1..][i - 1] == Wire(f)[i];
    if offset {
      IdlesAre(4, 0);
      IdlesAre(4, 1);
      IdlesAre(4, 2);
      IdlesAre(4, 3);
      assert StartsAt(Padded(Idles(4) + framed, 8), 4) && AllMapped(Padded(Idles(4) + framed, 8), 0, 4);
    } else {
      assert StartsAt(Padded(framed, 8), 0);
    }
  }

  // ----- the source sends the blocks of an XGMII source's words -----

  lemma {:induction false} IdleWordIs()
    ensures Codable(Idles(8)) && Encode(Idles(8)) == IdleBlock
  {
    var w: Word := Idles(8);
    AllIdle(8);
    assert AllMapped(w, 0, 8);
    assert forall i | 0 <= i < 8 :: Code(w[i]) == 0;
    CodesOfIdles(w);
  }

  lemma {:induction false} IdleSent(w: Word)
    requires w == Idles(8)
    ensures Codable(w) && Encode(w) == IdleBlock
  {
    IdleWordIs();
  }

  lemma {:induction false} AllIdle(n: nat)
    ensures forall i | 0 <= i < n :: Idles(n)[i] == IdleLane
  {
    if n > 0 {
      AllIdle(n - 1);
    }
  }

  lemma {:induction false} CodesOfIdles(w: Word)
    requires forall i | 0 <= i < 8 :: Code(w[i]) == 0
    ensures EncodeCtrl(w) == 0x1e
  {
    assert Code(w[0]) == 0 && Code(w[1]) == 0 && Code(w[2]) == 0 && Code(w[3]) == 0;
    assert Code(w[4]) == 0 && Code(w[5]) == 0 && Code(w[6]) == 0 && Code(w[7]) == 0;
    assert Codes(w) == 0;
  }

  predicate AllGood8(frames: seq<Frame>) { AllGood(frames, 8) }

  /** The serdes source and the XGMII source are in the same place. */
  ghost predicate Sim(s: Serdes, x: Source) {
    && x.bw == 8 && x.ifg == s.ifg && x.dic == s.dic && x.force == s.force
    && x.queue == s.queue && AllGood8(s.queue) && x.ifgCnt == s.ifgCnt && x.deficit == s.deficit
    && (x.lanes != [] ==> Tail(x.lanes)) && s.ccl == Blocks(x.lanes)
  }

  /** From lanes whose first word has a block and which end as a frame does. */
  lemma {:induction false} PopKeeps(s: Serdes, x: Source)
    requires x.bw == 8 && x.ifg == s.ifg && x.dic == s.dic && x.force == s.force
    requires x.queue == s.queue && AllGood8(s.queue) && x.ifgCnt == s.ifgCnt && x.deficit == s.deficit
    requires x.lanes != [] && s.ccl == Blocks(x.lanes)
    requires if |x.lanes| > 8 then Tail(x.lanes[8..]) else Tail(x.lanes)
    ensures s.ccl != [] && Sim(PopBlock(s), Emit(x))
    ensures s.ccl[0] == Encode(Padded(x.lanes, 8))
  {
    if |x.lanes| > 8 {
      assert s.ccl[1..] == Blocks(x.lanes[8..]);
      BlocksSome(x.lanes[8..]);
    } else {
      var k := |x.lanes| - 1;
      LastWord(x.lanes);
      TermTypes(Padded(x.lanes, 8), k, s.ccl[0].data);
      TermLaneOfType(k);
    }
  }

  lemma {:induction false} BlocksSome(lanes: seq<Lane>)
    ensures Blocks(lanes) == [] <==> lanes == []
  {
  }

  lemma {:induction false} TermLaneOfType(k: nat)
    requires k < 8
    ensures TermLaneOf(TermType(k)) == Some(k)
  {
  }

  /** The clock sends the block of the XGMII source's word. */
  ghost predicate Agree(s: Serdes, x: Source)
    requires x.Valid() && Ready(s)
  {
    var u, t := SerdesClock(s), SourceClock(x);
    Sim(u.serdes, t.source) && Codable(t.word) && Encode(t.word) == u.block
  }

  lemma {:induction false} SimGap(s: Serdes, x: Source)
    requires Sim(s, x) && x.Valid() && Ready(s) && GapLeft(s)
    ensures Agree(s, x)
  {
    var u, t := SerdesClock(s), SourceClock(x);
    assert t.word == Idles(8) && u.block == IdleBlock && Sim(u.serdes, t.source);
    IdleSent(t.word);
  }

  lemma {:induction false} SimIdle(s: Serdes, x: Source)
    requires Sim(s, x) && x.Valid() && Ready(s) && !GapLeft(s) && x.lanes == [] && s.queue == []
    ensures Agree(s, x)
  {
    var u, t := SerdesClock(s), SourceClock(x);
    assert t.word == Idles(8) && u.block == IdleBlock && Sim(u.serdes, t.source);
    IdleSent(t.word);
  }

  lemma {:induction false} SimPop(s: Serdes, x: Source)
    requires Sim(s, x) && x.Valid() && Ready(s) && !GapLeft(s) && x.lanes != []
    ensures Agree(s, x)
  {
    if |x.lanes| > 8 {
      FullWord(x.lanes);
    } else {
      LastWord(x.lanes);
    }
    PopKeeps(s, x);
  }

  lemma {:induction false} SimLoad(s: Serdes, x: Source)
    requires Sim(s, x) && x.Valid() && Ready(s) && !GapLeft(s) && x.lanes == [] && s.queue != []
    ensures Agree(s, x)
  {
    assert Good(s.queue[0], 8);
    FirstWord(s.queue[0], s.ifgCnt >= 4 || s.force);
    PopKeeps(LoadBlocks(s), Load(x));
  }

  lemma {:induction false} SimClock(s: Serdes, x: Source)
    requires Sim(s, x) && x.Valid() && Ready(s)
    ensures var u, t := SerdesClock(s), SourceClock(x);
            Sim(u.serdes, t.source) && Codable(t.word) && Encode(t.word) == u.block
  {
    if GapLeft(s) {
      SimGap(s, x);
    } else if x.lanes != [] {
      SimPop(s, x);
    } else if s.queue != [] {
      SimLoad(s, x);
    } else {
      SimIdle(s, x);
    }
  }

  // ----- end to end -----

  datatype SerdesLink = SerdesLink(serdes: Serdes, tx: Scrambler.State, rx: Scrambler.State,
                                   mode: Mode, sink: Sink, sent: seq<Frame>)

  /** The clock raises no exception. */
  predicate CanClock(l: SerdesLink) { Ready(l.serdes) && Fits(SerdesClock(l.serdes).block, l.mode) }

  function Step(l: SerdesLink, e: Event): SerdesLink
    requires e.Clock? ==> CanClock(l)
  {
    match e
    case Send(f) =>
      l.(serdes := l.serdes.(queue := l.serdes.queue + [f]), sent := l.sent + [f])
    case Clock =>
      var u := SerdesClock(l.serdes);
      var line := ToLine(u.block, l.tx, l.mode);
      l.(serdes := u.serdes, tx := NextState(line, l.tx, l.mode), rx := NextState(line, l.rx, l.mode),
         sink := SinkClock(l.sink, Decode(FromLine(line, l.rx, l.mode))))
  }

  /** The serdes link and an XGMII link are in the same place. */
  ghost predicate Matches(l: SerdesLink, x: Link) {
    && Inv(x) && x.source.bw == 8 && Sim(l.serdes, x.source) && l.sink == x.sink && l.sent == x.sent
    && l.tx == l.rx
  }

  lemma {:induction false} ClockFits(l: SerdesLink, x: Link)
    requires Matches(l, x)
    ensures CanClock(l)
  {
    assert l.serdes.queue != [] ==> Good(l.serdes.queue[0], 8);
    SimClock(l.serdes, x.source);
    BaseRCodec.RoundTrip(SourceClock(x.source).word);
  }

  lemma {:induction false} WordArrives(l: SerdesLink, x: Link)
    requires Matches(l, x)
    ensures CanClock(l)
    ensures Step(l, Clock).sink == SinkClock(l.sink, SourceClock(x.source).word)
    ensures Step(l, Clock).tx == Step(l, Clock).rx
  {
    ClockFits(l, x);
    SimClock(l.serdes, x.source);
    BaseRCodec.RoundTrip(SourceClock(x.source).word);
    LineTrip(SerdesClock(l.serdes).block, l.tx, l.mode);
  }

  lemma {:induction false} StepMatches(l: SerdesLink, x: Link, e: Event)
    requires Matches(l, x) && (e.Send? ==> Good(e.frame, 8))
    ensures CanClock(l) && Matches(Step(l, e), Xgmii.Step(x, e))
  {
    ClockFits(l, x);
    StepKeeps(x, e);
    if e.Clock? {
      SimClock(l.serdes, x.source);
      WordArrives(l, x);
    }
  }

  lemma {:induction false} RestPossible(events: seq<Event>)
    requires Possible(events, 8) && events != []
    ensures Possible(events[1..], 8) && (events[0].Send? ==> Good(events[0].frame, 8))
  {
  }

  ghost function After(l: SerdesLink, x: Link, events: seq<Event>): SerdesLink
    requires Matches(l, x) && Possible(events, 8)
    decreases |events|
  {
    if events == [] then l
    else
      var e, rest := events[0], events[1..];
      RestPossible(events);
      StepMatches(l, x, e);
      After(Step(l, e), Xgmii.Step(x, e), rest)
  }

  /** In every run, with any setting of scrambling and reversal shared by both ends, the sink has
      queued just what the sink of an XGMII link would have. */
  lemma {:induction false} RunMatches(l: SerdesLink, x: Link, events: seq<Event>)
    requires Matches(l, x) && Possible(events, 8)
    ensures Matches(After(l, x, events), Xgmii.After(x, events))
    decreases |events|
  {
    if events != [] {
      var e, rest := events[0], events[1..];
      RestPossible(events);
      StepMatches(l, x, e);
      StepKeeps(x, e);
      RunMatches(Step(l, e), Xgmii.Step(x, e), rest);
    }
  }

  function Boot(ifg: int, dic: bool, force: bool, mode: Mode): SerdesLink {
    SerdesLink(Serdes(ifg, dic, force, [], [], 0, 0), Scrambler.Zero(), Scrambler.Zero(), mode,
               Sink(None, []), [])
  }

  lemma {:induction false} BootMatches(ifg: int, dic: bool, force: bool, mode: Mode)
    ensures Matches(Boot(ifg, dic, force, mode), Xgmii.Boot(8, ifg, dic, force))
  {
    BootInv(8, ifg, dic, force);
  }

  /** End to end: the frames queued are, in order, the first of those sent; and they are all of
      them as soon as the source has nothing left to send. */
  lemma {:induction false} EndToEnd(ifg: int, dic: bool, force: bool, mode: Mode, events: seq<Event>)
    requires Possible(events, 8)
    ensures Matches(Boot(ifg, dic, force, mode), Xgmii.Boot(8, ifg, dic, force))
    ensures var l := After(Boot(ifg, dic, force, mode), Xgmii.Boot(8, ifg, dic, force), events);
            && l.sink.queue <= l.sent
            && (l.serdes.ccl == [] && l.serdes.queue == [] ==> l.sink.queue == l.sent)
  {
    BootMatches(ifg, dic, force, mode);
    var x := Xgmii.Boot(8, ifg, dic, force);
    RunMatches(Boot(ifg, dic, force, mode), x, events);
    Delivery(x, events);
    BlocksSome(Xgmii.After(x, events).source.lanes);
  }

  // ----- liveness -----

  function Ticks(n: nat): seq<Event> {
    if n == 0 then [] else [Clock] + Ticks(n - 1)
  }

  lemma {:induction false} TicksPossible(n: nat)
    ensures Possible(Ticks(n), 8)
  {
    if n > 0 {
      TicksPossible(n - 1);
    }
  }

  lemma {:induction false} TicksAre(x: Link, n: nat)
    requires Inv(x) && x.source.bw == 8
    ensures Possible(Ticks(n), 8) && Xgmii.After(x, Ticks(n)) == Clocks(x, n)
    decreases n
  {
    TicksPossible(n);
    if n > 0 {
      StepKeeps(x, Clock);
      TicksAre(Xgmii.Step(x, Clock), n - 1);
      assert Ticks(n)[1..] == Ticks(n - 1);
    }
  }

  /** Clocked on, all frames sent arrive. */
  lemma {:induction false} AllArrive(l: SerdesLink, x: Link) returns (n: nat)
    requires Matches(l, x)
    ensures Possible(Ticks(n), 8) && After(l, x, Ticks(n)).sink.queue == l.sent
  {
    n := Xgmii.AllArrive(x);
    TicksAre(x, n);
    RunMatches(l, x, Ticks(n));
  }
}
