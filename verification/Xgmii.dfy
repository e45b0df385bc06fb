/** XGMII endpoints: frames as lanes of data and control characters, the source with its gap and
    deficit counters, and the sink.

    A clock moves `bw` lanes, 4 or 8; the bus is shown lane by lane. */
module Xgmii {
  import opened Wrappers

  type byte = bv8

  const PRE: byte := 0x55
  const IDLE: byte := 0x07
  const START: byte := 0xfb
  const TERM: byte := 0xfd
  const ERROR: byte := 0xfe

  datatype Lane = Lane(d: byte, c: bool)

  const IdleLane := Lane(IDLE, true)
  const StartLane := Lane(START, true)
  const TermLane := Lane(TERM, true)

  // ----- frames -----

  /** A frame with its error and control flags, one for each byte. */
  datatype Frame = Frame(data: seq<byte>, error: seq<bool>, ctrl: seq<bool>)
  {
    predicate Valid() { |error| == |data| == |ctrl| }
  }

  function Flags(n: nat): seq<bool> { seq(n, _ => false) }

  /** A frame without errors. */
  function Clean(data: seq<byte>): Frame { Frame(data, Flags(|data|), Flags(|data|)) }

  /** XGMIIFrame.build: an error takes the place of its byte. */
  function Build(f: Frame): (lanes: seq<Lane>)
    requires f.Valid()
    ensures |lanes| == |f.data|
  {
    seq(|f.data|, i requires 0 <= i < |f.data| =>
      if f.error[i] then Lane(ERROR, true) else Lane(f.data[i], f.ctrl[i]))
  }

  /** XGMIIFrame.parse */
  function Parse(lanes: seq<Lane>): (f: Frame)
    ensures f.Valid() && |f.data| == |lanes|
  {
    Frame(seq(|lanes|, i requires 0 <= i < |lanes| => lanes[i].d),
          seq(|lanes|, i requires 0 <= i < |lanes| => lanes[i].c && lanes[i].d == ERROR),
          seq(|lanes|, i requires 0 <= i < |lanes| => lanes[i].c))
  }

  /** Parsing what was built gives the errors back, or rather all error characters, and the data
      elsewhere. */
  lemma {:induction false} ParseOfBuild(f: Frame)
    requires f.Valid()
    ensures var g := Parse(Build(f));
            forall i | 0 <= i < |f.data| ::
              && g.error[i] == (f.error[i] || (f.ctrl[i] && f.data[i] == ERROR))
              && g.ctrl[i] == (f.ctrl[i] || f.error[i])
              && g.data[i] == if f.error[i] then ERROR else f.data[i]
  {
  }

  lemma {:induction false} CleanRoundTrip(data: seq<byte>)
    ensures Parse(Build(Clean(data))) == Clean(data)
  {
    var g := Parse(Build(Clean(data)));
    assert g.data == data && g.error == Flags(|data|) && g.ctrl == Flags(|data|);
  }

  // ----- the source -----

  function Idles(n: nat): (lanes: seq<Lane>)
    ensures |lanes| == n
  {
    if n == 0 then [] else Idles(n - 1) + [IdleLane]
  }

  /** What a clock puts on the bus from the lanes to be sent. */
  function Padded(lanes: seq<Lane>, bw: nat): (word: seq<Lane>)
    ensures |word| == bw
  {
    if |lanes| >= bw then lanes[..bw] else lanes + Idles(bw - |lanes|)
  }

  function Max(a: int, b: int): int { if a < b then b else a }

  /** The frame on the wire: start in place of the first byte, and a terminator. */
  function Framed(f: Frame): seq<Lane>
    requires f.Valid() && |f.data| > 0
  {
    [StartLane] + Build(f)[1..] + [TermLane]
  }

  /** The source asserts that a frame starts with the preamble. */
  predicate Sendable(f: Frame) {
    f.Valid() && |f.data| > 0 && f.data[0] == PRE && !f.error[0]
  }

  datatype Source = Source(bw: nat, ifg: int, dic: bool, force: bool, queue: seq<Frame>,
                           lanes: seq<Lane>, ifgCnt: int, deficit: nat)
  {
    predicate Valid() {
      (bw == 4 || bw == 8) && forall f | f in queue :: Sendable(f)
    }
  }

  /** After sending a word of lanes: the gap still due is counted from the terminator on. */
  function Emit(s: Source): Source
    requires s.lanes != []
  {
    if |s.lanes| > s.bw then s.(lanes := s.lanes[s.bw..])
    else s.(lanes := [], ifgCnt := s.ifg - (s.bw - (|s.lanes| - 1)) + s.deficit)
  }

  /** Whether a new frame is moved to lane 4. */
  predicate Offset(s: Source) { (s.bw == 8 && s.ifgCnt >= 4) || s.force }

  /** Take the next frame; what is left of the gap becomes the deficit. */
  function Load(s: Source): Source
    requires s.queue != [] && Sendable(s.queue[0])
  {
    var cnt := if Offset(s) then Max(s.ifgCnt - 4, 0) else s.ifgCnt;
    var dl := Framed(s.queue[0]);
    s.(queue := s.queue[1..], lanes := if Offset(s) then Idles(4) + dl else dl,
       deficit := Max(cnt, 0), ifgCnt := 0)
  }

  predicate GapDue(s: Source) { s.ifgCnt > s.bw - 1 || (!s.dic && s.ifgCnt > 0) }

  datatype Clocked = Clocked(source: Source, word: seq<Lane>)

  function SourceClock(s: Source): Clocked
    requires s.Valid()
  {
    if GapDue(s) then Clocked(s.(ifgCnt := Max(s.ifgCnt - s.bw, 0)), Idles(s.bw))
    else if s.lanes != [] then Clocked(Emit(s), Padded(s.lanes, s.bw))
    else if s.queue != [] then Clocked(Emit(Load(s)), Padded(Load(s).lanes, s.bw))
    else Clocked(s.(ifgCnt := 0, deficit := 0), Idles(s.bw))
  }

  // ----- the sink -----

  datatype Sink = Sink(frame: Option<seq<Lane>>, queue: seq<Frame>)

  /** Scan a word within a frame: a control character ends the frame, and belongs to it unless it is
      the terminator. */
  function Scan(k: Sink, got: seq<Lane>, word: seq<Lane>, i: nat): Sink
    requires i <= |word|
    decreases |word| - i
  {
    if i == |word| then k.(frame := Some(got))
    else if word[i].c then
      Sink(None, k.queue + [Parse(if word[i].d != TERM then got + [word[i]] else got)])
    else Scan(k, got + [word[i]], word, i + 1)
  }

  function SinkClock(k: Sink, word: seq<Lane>): Sink
    requires |word| == 4 || |word| == 8
  {
    if k.frame.Some? then Scan(k, k.frame.value, word, 0)
    else if word[0] == StartLane then k.(frame := Some([Lane(PRE, false)] + word[1..]))
    else if |word| == 8 && word[4] == StartLane then
      k.(frame := Some([Lane(PRE, false)] + word[5..]))
    else k
  }

  // ----- delivery -----

  /** Frames without errors and flags. */
  predicate Plain(f: Frame) { f == Clean(f.data) && Sendable(f) }

  predicate AllPlain(frames: seq<Frame>) {
    forall i | 0 <= i < |frames| :: Plain(frames[i])
  }

  /** Those long enough for every start: the terminator does not share a word with the start, where the
      sink does not look for it. */
  predicate Good(f: Frame, bw: nat) { Plain(f) && |f.data| >= bw }

  predicate AllGood(frames: seq<Frame>, bw: nat) {
    forall i | 0 <= i < |frames| :: Good(frames[i], bw)
  }

  /** The lanes from a start to the end of its word. */
  function Room(s: Source): nat { if Offset(s) && s.bw == 8 then 4 else s.bw }

  /** If the next clock starts a frame, its terminator comes in a later word. */
  predicate FitsNext(s: Source) {
    !GapDue(s) && s.lanes == [] && s.queue != [] ==> |s.queue[0].data| >= Room(s)
  }

  /** The lanes of a good frame as the sink collects them, and the terminator. */
  function Wire(f: Frame): seq<Lane>
    requires f.Valid()
  {
    Build(f) + [TermLane]
  }

  /** Source and sink of a link after the same words; `sent` is all that was ever queued. */
  ghost predicate Linked(s: Source, k: Sink, sent: seq<Frame>) {
    && s.Valid() && AllPlain(sent)
    && (s.lanes != [] ==> s.ifgCnt == 0)
    && if s.lanes == [] then k.frame.None? && sent == k.queue + s.queue
       else
         && |k.queue| < |sent| && sent == k.queue + [sent[|k.queue|]] + s.queue
         && var f := sent[|k.queue|];
            assert Plain(f);
            if k.frame.None? then s.lanes == Framed(f) && |f.data| >= s.bw else k.frame.value + s.lanes == Wire(f)
  }

  /** Data lanes of a word go into the frame. */
  lemma {:induction false} ScanData(k: Sink, got: seq<Lane>, word: seq<Lane>, i: nat, j: nat)
    requires i <= j <= |word| && forall n | i <= n < j :: !word[n].c
    ensures Scan(k, got, word, i) == Scan(k, got + word[i..j], word, j)
    decreases j - i
  {
    if i < j {
      ScanData(k, got + [word[i]], word, i + 1, j);
      assert got + [word[i]] + word[i + 1..j] == got + word[i..j];
    } else {
      assert got + word[i..j] == got;
    }
  }

  lemma {:induction false} WireLanes(f: Frame)
    requires f == Clean(f.data)
    ensures forall i | 0 <= i < |f.data| :: !Wire(f)[i].c
    ensures |Wire(f)| == |f.data| + 1 && Wire(f)[|f.data|] == TermLane
  {
  }

  /** A word from the middle of a frame. */
  lemma {:induction false} MiddleKeeps(s: Source, k: Sink, sent: seq<Frame>)
    requires Linked(s, k, sent) && k.frame.Some? && |s.lanes| > s.bw > 0
    ensures Linked(Emit(s), SinkClock(k, Padded(s.lanes, s.bw)), sent)
  {
    var f, got, word := sent[|k.queue|], k.frame.value, Padded(s.lanes, s.bw);
    WireLanes(f);
    assert forall n | 0 <= n < s.bw :: word[n] == Wire(f)[|got| + n];
    ScanData(k, got, word, 0, s.bw);
    assert word[0..s.bw] == word;
    assert got + word + s.lanes[s.bw..] == got + s.lanes;
  }

  /** What is left of a frame when the sink has `got` the first lanes. */
  lemma {:induction false} LanesLeft(got: seq<Lane>, lanes: seq<Lane>, f: Frame, last: nat)
    requires f.Valid() && got + lanes == Wire(f) && |lanes| == last + 1
    ensures got + lanes[..last] == Build(f) && lanes[last] == TermLane
  {
    assert lanes[last] == (got + lanes)[|got| + last] == Wire(f)[|f.data|];
    assert got + lanes[..last] == (got + lanes)[..|got| + last] == Wire(f)[..|f.data|];
  }

  lemma {:induction false} EndScan(k: Sink, got: seq<Lane>, lanes: seq<Lane>, f: Frame, word: seq<Lane>,
                                   last: nat)
    requires f == Clean(f.data) && got + lanes == Wire(f) && |lanes| == last + 1 <= |word|
    requires word[..last + 1] == lanes
    ensures Scan(k, got, word, 0) == Sink(None, k.queue + [f])
  {
    LanesLeft(got, lanes, f, last);
    assert forall n | 0 <= n <= last :: word[n] == word[..last + 1][n] == lanes[n];
    forall n | 0 <= n < last
      ensures !word[n].c
    {
      assert word[n] == (got + lanes[..last])[|got| + n] == Build(f)[|got| + n];
    }
    ScanData(k, got, word, 0, last);
    assert word[0..last] == lanes[..last];
    CleanRoundTrip(f.data);
  }

  /** The word with the terminator. */
  lemma {:induction false} EndKeeps(s: Source, k: Sink, sent: seq<Frame>)
    requires Linked(s, k, sent) && k.frame.Some? && 0 < |s.lanes| <= s.bw
    ensures Linked(Emit(s), SinkClock(k, Padded(s.lanes, s.bw)), sent)
  {
    var word, last := Padded(s.lanes, s.bw), |s.lanes| - 1;
    assert word[..last + 1] == s.lanes;
    EndScan(k, k.frame.value, s.lanes, sent[|k.queue|], word, last);
  }

  lemma {:induction false} FramedLanes(f: Frame)
    requires f == Clean(f.data) && Sendable(f)
    ensures |Framed(f)| == |f.data| + 1 && Framed(f)[0] == StartLane
    ensures [Lane(PRE, false)] + Framed(f)[1..] == Wire(f)
  {
  }

  /** A word that starts a frame in lane 0 or 4. */
  lemma {:induction false} StartSinks(k: Sink, word: seq<Lane>, o: nat)
    requires k.frame.None? && (|word| == 4 || |word| == 8) && (o == 0 || (o == 4 && |word| == 8))
    requires word[o] == StartLane && (o == 4 ==> word[0] == IdleLane)
    ensures SinkClock(k, word) == k.(frame := Some([Lane(PRE, false)] + word[o + 1..]))
  {
  }

  /** The lanes of a frame that starts after `o` idles and does not end in the word of its start. */
  lemma {:induction false} StartLanes(lanes: seq<Lane>, bw: nat, o: nat, f: Frame)
    requires Plain(f) && o < bw <= |f.data| + o && lanes == Idles(o) + Framed(f)
    ensures |lanes| > bw && lanes[o] == StartLane && (o > 0 ==> lanes[0] == IdleLane)
    ensures [Lane(PRE, false)] + lanes[..bw][o + 1..] + lanes[bw..] == Wire(f)
  {
    FramedLanes(f);
    if o > 0 {
      IdlesAre(o, 0);
    }
    assert lanes[..bw][o + 1..] + lanes[bw..] == Framed(f)[1..];
    assert [Lane(PRE, false)] + lanes[..bw][o + 1..] + lanes[bw..]
        == [Lane(PRE, false)] + (lanes[..bw][o + 1..] + lanes[bw..]);
  }

  /** The word with the start in lane 0 or 4. */
  lemma {:induction false} StartKeeps(s: Source, k: Sink, sent: seq<Frame>, f: Frame, offset: nat)
    requires s.Valid() && AllPlain(sent) && Plain(f) && |f.data| + offset >= s.bw
    requires k.frame.None? && sent == k.queue + [f] + s.queue && s.ifgCnt == 0
    requires offset == 0 || (offset == 4 && s.bw == 8)
    requires s.lanes == Idles(offset) + Framed(f)
    ensures Linked(Emit(s), SinkClock(k, Padded(s.lanes, s.bw)), sent)
  {
    StartLanes(s.lanes, s.bw, offset, f);
    assert sent[|k.queue|] == f;
    StartSinks(k, s.lanes[..s.bw], offset);
  }

  /** Only idles: on a narrow bus a forced offset is a word of its own. */
  lemma {:induction false} OffsetWordKeeps(s: Source, k: Sink, sent: seq<Frame>, f: Frame)
    requires s.Valid() && AllPlain(sent) && Good(f, s.bw)
    requires k.frame.None? && sent == k.queue + [f] + s.queue && s.ifgCnt == 0
    requires s.bw == 4 && s.lanes == Idles(4) + Framed(f)
    ensures Linked(Emit(s), SinkClock(k, Padded(s.lanes, s.bw)), sent)
  {
    FramedLanes(f);
    assert sent[|k.queue|] == f;
    assert Padded(s.lanes, 4) == Idles(4) && s.lanes[4..] == Framed(f);
    IdlesAre(4, 0);
  }

  lemma {:induction false} IdleWord(k: Sink, bw: nat)
    requires (bw == 4 || bw == 8) && k.frame.None?
    ensures SinkClock(k, Idles(bw)) == k
  {
    IdlesAre(bw, 0);
    if bw == 8 {
      IdlesAre(bw, 4);
    }
  }

  lemma {:induction false} IdlesAre(n: nat, i: nat)
    requires i < n
    ensures Idles(n)[i] == IdleLane
  {
    if i < n - 1 {
      IdlesAre(n - 1, i);
    }
  }

  /** Every clock keeps source and sink together, unless it starts a frame that is too short. */
  lemma {:induction false} ClockKeeps(s: Source, k: Sink, sent: seq<Frame>)
    requires Linked(s, k, sent) && FitsNext(s)
    ensures var t := SourceClock(s); Linked(t.source, SinkClock(k, t.word), sent)
  {
    if GapDue(s) {
      IdleWord(k, s.bw);
    } else if s.lanes != [] {
      if k.frame.None? {
        assert s.lanes == Idles(0) + Framed(sent[|k.queue|]);
        StartKeeps(s, k, sent, sent[|k.queue|], 0);
      } else if |s.lanes| > s.bw {
        MiddleKeeps(s, k, sent);
      } else {
        EndKeeps(s, k, sent);
      }
    } else if s.queue != [] {
      LoadKeeps(s, k, sent);
    } else {
      IdleWord(k, s.bw);
    }
  }

  lemma {:induction false} LoadKeeps(s: Source, k: Sink, sent: seq<Frame>)
    requires Linked(s, k, sent) && s.lanes == [] && s.queue != [] && |s.queue[0].data| >= Room(s)
    ensures Linked(Emit(Load(s)), SinkClock(k, Padded(Load(s).lanes, s.bw)), sent)
  {
    var f, t := s.queue[0], Load(s);
    assert sent[|k.queue|] == f && sent == k.queue + [f] + t.queue;
    if !Offset(s) {
      assert t.lanes == Idles(0) + Framed(f);
      StartKeeps(t, k, sent, f, 0);
    } else if s.bw == 8 {
      StartKeeps(t, k, sent, f, 4);
    } else {
      OffsetWordKeeps(t, k, sent, f);
    }
  }

  // ----- whole runs -----

  datatype Event = Send(frame: Frame) | Clock

  datatype Link = Link(source: Source, sink: Sink, sent: seq<Frame>)

  predicate Possible(events: seq<Event>, bw: nat) {
    forall i | 0 <= i < |events| :: events[i].Send? ==> Good(events[i].frame, bw)
  }

  function Step(l: Link, e: Event): Link
    requires l.source.Valid() && (e.Send? ==> Sendable(e.frame))
  {
    match e
    case Send(f) => l.(source := l.source.(queue := l.source.queue + [f]), sent := l.sent + [f])
    case Clock => var t := SourceClock(l.source); l.(source := t.source, sink := SinkClock(l.sink, t.word))
  }

  ghost predicate Inv(l: Link) {
    Linked(l.source, l.sink, l.sent) && AllGood(l.sent, l.source.bw)
  }

  /** The next frame is one of those sent. */
  lemma {:induction false} GoodFits(l: Link)
    requires Inv(l)
    ensures FitsNext(l.source) && AllGood(l.source.queue, l.source.bw)
  {
    var n := |l.sent| - |l.source.queue|;
    forall i | 0 <= i < |l.source.queue|
      ensures Good(l.source.queue[i], l.source.bw)
    {
      assert l.source.queue[i] == l.sent[n + i];
    }
  }

  lemma {:induction false} StepKeeps(l: Link, e: Event)
    requires Inv(l) && (e.Send? ==> Good(e.frame, l.source.bw))
    ensures Inv(Step(l, e)) && Step(l, e).source.bw == l.source.bw
  {
    match e {
      case Clock =>
        GoodFits(l);
        ClockKeeps(l.source, l.sink, l.sent);
      case Send(f) =>
        if l.source.lanes != [] {
          assert (l.sent + [f])[|l.sink.queue|] == l.sent[|l.sink.queue|];
        }
    }
  }

  ghost function After(l: Link, events: seq<Event>): Link
    requires Inv(l) && Possible(events, l.source.bw)
    decreases |events|
  {
    if events == [] then l
    else
      StepKeeps(l, events[0]);
      After(Step(l, events[0]), events[1..])
  }

  function Boot(bw: nat, ifg: int, dic: bool, force: bool): Link {
    Link(Source(bw, ifg, dic, force, [], [], 0, 0), Sink(None, []), [])
  }

  /** Every run delivers the frames sent, in order: what the sink has queued is a first part of them,
      the rest is still in the source or on the wire. */
  lemma {:induction false} Delivery(l: Link, events: seq<Event>)
    requires Inv(l) && Possible(events, l.source.bw)
    ensures Inv(After(l, events)) && After(l, events).sink.queue <= After(l, events).sent
    ensures After(l, events).source.lanes == [] && After(l, events).source.queue == [] ==>
              After(l, events).sink.queue == After(l, events).sent
    decreases |events|
  {
    if events != [] {
      StepKeeps(l, events[0]);
      Delivery(Step(l, events[0]), events[1..]);
    }
  }

  lemma {:induction false} BootInv(bw: nat, ifg: int, dic: bool, force: bool)
    requires bw == 4 || bw == 8
    ensures Inv(Boot(bw, ifg, dic, force))
  {
  }

  // ----- liveness -----

  function Clocks(l: Link, n: nat): Link
    requires l.source.Valid()
    decreases n
  {
    if n == 0 then l
    else
      StaysValid(l.source);
      Clocks(Step(l, Clock), n - 1)
  }

  lemma {:induction false} StaysValid(s: Source)
    requires s.Valid()
    ensures SourceClock(s).source.Valid()
  {
  }

  /** A clock takes a frame, or sends lanes of it, or some of the gap after it. */
  lemma {:induction false} Shrinks(s: Source)
    requires s.Valid() && (s.lanes != [] || s.queue != [])
    ensures var t := SourceClock(s).source;
            |t.queue| < |s.queue|
            || (t.queue == s.queue && (|t.lanes| < |s.lanes|
                || (t.lanes == s.lanes && Max(t.ifgCnt, 0) < Max(s.ifgCnt, 0))))
  {
  }

  /** Clocked often enough, the source sends all it has. */
  lemma {:induction false} Drains(l: Link) returns (n: nat)
    requires l.source.Valid()
    ensures Clocks(l, n).source.lanes == [] && Clocks(l, n).source.queue == []
    decreases |l.source.queue|, |l.source.lanes|, Max(l.source.ifgCnt, 0)
  {
    n := 0;
    if l.source.lanes != [] || l.source.queue != [] {
      StaysValid(l.source);
      Shrinks(l.source);
      n := Drains(Step(l, Clock));
      n := n + 1;
    }
  }

  lemma {:induction false} ClocksKeep(l: Link, n: nat)
    requires Inv(l)
    ensures Inv(Clocks(l, n)) && Clocks(l, n).sent == l.sent
    decreases n
  {
    if n > 0 {
      StepKeeps(l, Clock);
      ClocksKeep(Step(l, Clock), n - 1);
    }
  }

  /** So all frames sent arrive in the end. */
  lemma {:induction false} AllArrive(l: Link) returns (n: nat)
    requires Inv(l)
    ensures Clocks(l, n).sink.queue == l.sent
  {
    n := Drains(l);
    ClocksKeep(l, n);
  }
}
