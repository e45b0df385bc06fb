/** What arrives of frames with error and control flags, over every run of an XGMII link: the sink ends a
    frame with the first control character after the word of its start. */
module XgmiiErrors {
  import opened Wrappers
  import opened Xgmii
  import opened XgmiiRuns

  // ----- a frame as the sink hears it -----

  /** The lanes of a frame, with the preamble that the sink puts for the start. */
  function OnWire(f: Frame): (w: seq<Lane>)
    requires Sendable(f)
    ensures |w| == |f.data| + 1
  {
    [Lane(PRE, false)] + Build(f)[1..] + [TermLane]
  }

  predicate FlagAt(f: Frame, i: nat)
    requires f.Valid() && i < |f.data|
  {
    f.error[i] || f.ctrl[i]
  }

  /** The first flag; the source ignores that of the start. */
  predicate FirstFlag(f: Frame, k: nat)
    requires f.Valid()
  {
    0 < k < |f.data| && FlagAt(f, k) && forall i | 0 < i < k :: !FlagAt(f, i)
  }

  lemma {:induction false} WireLane(f: Frame, i: nat)
    requires Sendable(f) && 0 < i < |f.data|
    ensures OnWire(f)[i] == if f.error[i] then Lane(ERROR, true) else Lane(f.data[i], f.ctrl[i])
  {
  }

  /** The first control lane from `i` on. */
  function Stop(lanes: seq<Lane>, i: nat): (k: nat)
    requires i <= |lanes|
    ensures i <= k <= |lanes| && (forall j | i <= j < k :: !lanes[j].c)
    ensures k < |lanes| ==> lanes[k].c
    decreases |lanes| - i
  {
    if i == |lanes| || lanes[i].c then i else Stop(lanes, i + 1)
  }

  lemma {:induction false} StopIs(lanes: seq<Lane>, i: nat, k: nat)
    requires i <= k < |lanes| && lanes[k].c && forall j | i <= j < k :: !lanes[j].c
    ensures Stop(lanes, i) == k
  {
  }

  /** The frame that ends with the control lane `k`, which belongs to it unless it is the terminator. */
  function EndedAt(lanes: seq<Lane>, k: nat): Frame
    requires k < |lanes|
  {
    Parse(if lanes[k].d != TERM then lanes[..k + 1] else lanes[..k])
  }

  /** What the sink queues of a frame when it takes the first `r` lanes with the word of the start. */
  function Received(f: Frame, r: nat): Frame
    requires Sendable(f) && r <= |f.data|
  {
    assert OnWire(f)[|f.data|] == TermLane;
    EndedAt(OnWire(f), Stop(OnWire(f), r))
  }

  // ----- words -----

  type Lanes = w: seq<Lane> | |w| == 4 || |w| == 8 witness Idles(4)

  function Words(lanes: seq<Lane>, bw: nat): seq<Lanes>
    requires bw == 4 || bw == 8
    decreases |lanes|
  {
    if lanes == [] then []
    else [Padded(lanes, bw)] + if |lanes| > bw then Words(lanes[bw..], bw) else []
  }

  /** The sink after some words. */
  function Feed(k: Sink, words: seq<Lanes>): Sink
    decreases |words|
  {
    if words == [] then k else Feed(SinkClock(k, words[0]), words[1..])
  }

  lemma {:induction false} FeedFirst(k: Sink, word: Lanes, words: seq<Lanes>)
    ensures Feed(k, [word] + words) == Feed(SinkClock(k, word), words)
  {
    assert ([word] + words)[1..] == words;
  }

  predicate NoStart(lanes: seq<Lane>) {
    forall i | 0 <= i < |lanes| :: lanes[i] != StartLane
  }

  lemma {:induction false} PaddedLane(lanes: seq<Lane>, bw: nat, i: nat)
    requires i < bw
    ensures Padded(lanes, bw)[i] == if i < |lanes| then lanes[i] else IdleLane
  {
    if i >= |lanes| {
      IdlesAre(bw - |lanes|, i - |lanes|);
    }
  }

  /** A word of the lanes has a start where the sink looks for one. */
  predicate StartIn(lanes: seq<Lane>, bw: nat)
    requires bw == 4 || bw == 8
    decreases |lanes|
  {
    lanes != []
    && (lanes[0] == StartLane || (bw == 8 && |lanes| > 4 && lanes[4] == StartLane)
        || (|lanes| > bw && StartIn(lanes[bw..], bw)))
  }

  /** Between frames, lanes without a start change nothing. */
  lemma {:induction false} FeedQuiet(k: Sink, lanes: seq<Lane>, bw: nat)
    requires k.frame.None? && (bw == 4 || bw == 8) && !StartIn(lanes, bw)
    ensures Feed(k, Words(lanes, bw)) == k
    decreases |lanes|
  {
    if lanes != [] {
      var word, rest := Padded(lanes, bw), if |lanes| > bw then lanes[bw..] else [];
      PaddedLane(lanes, bw, 0);
      if bw == 8 {
        PaddedLane(lanes, bw, 4);
      }
      assert SinkClock(k, word) == k;
      FeedFirst(k, word, Words(rest, bw));
      FeedQuiet(k, rest, bw);
    }
  }

  lemma {:induction false} ScanLonger(k: Sink, got: seq<Lane>, word: seq<Lane>, i: nat)
    requires i <= |word|
    ensures var k' := Scan(k, got, word, i); k'.frame.Some? || |k'.queue| > |k.queue|
    decreases |word| - i
  {
    if i < |word| && !word[i].c {
      ScanLonger(k, got + [word[i]], word, i + 1);
    }
  }

  /** A frame that is open stays so, or is queued. */
  lemma {:induction false} FeedOpen(k: Sink, words: seq<Lanes>)
    requires k.frame.Some?
    ensures Feed(k, words).frame.Some? || |Feed(k, words).queue| > |k.queue|
    decreases |words|
  {
    if words != [] {
      var k' := SinkClock(k, words[0]);
      ScanLonger(k, k.frame.value, words[0], 0);
      FeedGrows(k', words[1..]);
      if k'.frame.Some? {
        ScanAppends(k, k.frame.value, words[0], 0);
        FeedOpen(k', words[1..]);
      }
    }
  }

  lemma {:induction false} FeedGrows(k: Sink, words: seq<Lanes>)
    ensures k.queue <= Feed(k, words).queue
    decreases |words|
  {
    if words != [] {
      if k.frame.Some? {
        ScanAppends(k, k.frame.value, words[0], 0);
      }
      FeedGrows(SinkClock(k, words[0]), words[1..]);
    }
  }

  /** Lanes with a start leave a frame open or queue one. */
  lemma {:induction false} FeedStarted(k: Sink, lanes: seq<Lane>, bw: nat)
    requires k.frame.None? && (bw == 4 || bw == 8) && StartIn(lanes, bw)
    ensures Feed(k, Words(lanes, bw)) != k
    decreases |lanes|
  {
    var word, rest := Padded(lanes, bw), if |lanes| > bw then lanes[bw..] else [];
    PaddedLane(lanes, bw, 0);
    if bw == 8 {
      PaddedLane(lanes, bw, 4);
    }
    FeedFirst(k, word, Words(rest, bw));
    var k' := SinkClock(k, word);
    if k'.frame.Some? {
      FeedOpen(k', Words(rest, bw));
    } else {
      FeedStarted(k, rest, bw);
    }
  }

  /** A word with a control lane `m` that is the first one. */
  lemma {:induction false} ScanStops(k: Sink, got: seq<Lane>, word: seq<Lane>, m: nat)
    requires m < |word| && word[m].c && forall n | 0 <= n < m :: !word[n].c
    ensures Scan(k, got, word, 0)
         == Sink(None, k.queue + [Parse(if word[m].d != TERM then got + word[..m] + [word[m]] else got + word[..m])])
  {
    ScanData(k, got, word, 0, m);
    assert word[0..m] == word[..m];
  }

  lemma {:induction false} ScanGoesOn(k: Sink, got: seq<Lane>, word: seq<Lane>)
    requires forall n | 0 <= n < |word| :: !word[n].c
    ensures Scan(k, got, word, 0) == k.(frame := Some(got + word))
  {
    ScanData(k, got, word, 0, |word|);
    assert word[0..|word|] == word;
  }

  /** The lanes left of a frame of which the sink has some: they end with the terminator. */
  predicate Ending(lanes: seq<Lane>) { lanes != [] && lanes[|lanes| - 1] == TermLane }

  /** The lanes after the word with the first control character. */
  function AfterStop(lanes: seq<Lane>, bw: nat): seq<Lane>
    requires bw == 4 || bw == 8
    decreases |lanes|
  {
    if |lanes| <= bw then [] else if Stop(lanes, 0) < bw then lanes[bw..] else AfterStop(lanes[bw..], bw)
  }

  lemma {:induction false} EndedIs(got: seq<Lane>, lanes: seq<Lane>, word: seq<Lane>, m: nat, r: nat)
    requires r <= |got| && (forall j | r <= j < |got| :: !got[j].c)
    requires m < |lanes| && m < |word| && lanes[m].c && (forall j | 0 <= j < m :: !lanes[j].c)
    requires word[..m + 1] == lanes[..m + 1]
    ensures Stop(got + lanes, r) == |got| + m
    ensures EndedAt(got + lanes, |got| + m)
         == Parse(if word[m].d != TERM then got + word[..m] + [word[m]] else got + word[..m])
  {
    assert word[m] == word[..m + 1][m] == lanes[m];
    StopIs(got + lanes, r, |got| + m);
    assert word[..m] == word[..m + 1][..m] == lanes[..m];
    assert (got + lanes)[..|got| + m] == got + word[..m];
    assert (got + lanes)[..|got| + m + 1] == got + word[..m] + [word[m]];
  }

  /** The next word has the control lane `m` that ends the frame. */
  lemma {:induction false} FeedLast(k: Sink, got: seq<Lane>, lanes: seq<Lane>, rest: seq<Lane>, bw: nat, r: nat,
                                    m: nat)
    requires k.frame == Some(got) && r <= |got| && (forall j | r <= j < |got| :: !got[j].c)
    requires Ending(lanes) && (bw == 4 || bw == 8) && m == Stop(lanes, 0) < bw && m < |lanes|
    requires rest == AfterStop(lanes, bw)
    ensures Stop(got + lanes, r) == |got| + m
    ensures var k' := Feed(SinkClock(k, Padded(lanes, bw)), Words(rest, bw));
            k' == Sink(None, k.queue + [EndedAt(got + lanes, |got| + m)]) <==> !StartIn(rest, bw)
  {
    var word := Padded(lanes, bw);
    FirstIn(lanes, bw, m);
    PaddedLane(lanes, bw, m);
    ScanStops(k, got, word, m);
    EndedIs(got, lanes, word, m, r);
    if StartIn(rest, bw) {
      FeedStarted(SinkClock(k, word), rest, bw);
    } else {
      FeedQuiet(SinkClock(k, word), rest, bw);
    }
  }

  /** The frame is queued up to its first control character, and nothing else is, iff the sink does not meet
      a start after that. */
  lemma {:induction false} FeedRest(k: Sink, got: seq<Lane>, lanes: seq<Lane>, bw: nat, r: nat)
    requires k.frame == Some(got) && r <= |got| && (forall j | r <= j < |got| :: !got[j].c)
    requires Ending(lanes) && (bw == 4 || bw == 8)
    ensures Stop(got + lanes, r) < |got + lanes|
    ensures var k' := Feed(k, Words(lanes, bw));
            k' == Sink(None, k.queue + [EndedAt(got + lanes, Stop(got + lanes, r))])
            <==> !StartIn(AfterStop(lanes, bw), bw)
    decreases |lanes|
  {
    var word, rest := Padded(lanes, bw), if |lanes| > bw then lanes[bw..] else [];
    var got', m := got + word, Stop(lanes, 0);
    FeedFirst(k, word, Words(rest, bw));
    if m < bw {
      FeedLast(k, got, lanes, rest, bw, r, m);
    } else {
      FullWord(k, got, lanes, word, got', rest, bw, r);
      FeedRest(k.(frame := Some(got')), got', rest, bw, r);
    }
  }

  /** Or it is all data. */
  lemma {:induction false} FullWord(k: Sink, got: seq<Lane>, lanes: seq<Lane>, word: seq<Lane>, got': seq<Lane>,
                                    rest: seq<Lane>, bw: nat, r: nat)
    requires k.frame == Some(got) && r <= |got| && (forall j | r <= j < |got| :: !got[j].c)
    requires Ending(lanes) && (bw == 4 || bw == 8) && bw <= Stop(lanes, 0) && word == Padded(lanes, bw)
    requires got' == got + word && rest == if |lanes| > bw then lanes[bw..] else []
    ensures |rest| < |lanes| && Ending(rest) && AfterStop(lanes, bw) == AfterStop(rest, bw)
    ensures SinkClock(k, word) == k.(frame := Some(got')) && got' + rest == got + lanes
    ensures forall j | r <= j < |got'| :: !got'[j].c
  {
    var m := Stop(lanes, 0);
    assert m <= |lanes| - 1;
    ScanGoesOn(k, got, lanes[..bw]);
  }

  lemma {:induction false} FirstIn(lanes: seq<Lane>, bw: nat, m: nat)
    requires m < bw && m < |lanes| && (forall j | 0 <= j < m :: !lanes[j].c)
    ensures Padded(lanes, bw)[..m + 1] == lanes[..m + 1] && forall j | 0 <= j < m :: !Padded(lanes, bw)[j].c
  {
    forall j | 0 <= j <= m
      ensures Padded(lanes, bw)[j] == lanes[j]
    {
      PaddedLane(lanes, bw, j);
    }
  }

  // ----- a whole frame -----

  lemma {:induction false} FramedIs(f: Frame)
    requires Sendable(f)
    ensures |Framed(f)| == |f.data| + 1 && Framed(f)[0] == StartLane && Framed(f)[|f.data|] == TermLane
    ensures OnWire(f) == [Lane(PRE, false)] + Framed(f)[1..]
  {
  }

  /** The lanes after the word of the start. */
  lemma {:induction false} AfterStart(lanes: seq<Lane>, bw: nat, o: nat, f: Frame)
    requires Sendable(f) && o < bw <= |f.data| + o && lanes == Idles(o) + Framed(f)
    ensures |lanes| > bw && lanes[o] == StartLane && (o > 0 ==> lanes[0] == IdleLane)
    ensures [Lane(PRE, false)] + lanes[..bw][o + 1..] + lanes[bw..] == OnWire(f)
    ensures lanes[bw..] == OnWire(f)[bw - o..] && Ending(lanes[bw..])
  {
    FramedIs(f);
    if o > 0 {
      IdlesAre(o, 0);
    }
    var rest := lanes[bw..];
    assert lanes[..bw][o + 1..] + rest == Framed(f)[1..];
    assert [Lane(PRE, false)] + lanes[..bw][o + 1..] + rest == [Lane(PRE, false)] + (lanes[..bw][o + 1..] + rest);
    assert rest == OnWire(f)[bw - o..];
  }

  /** After the first flag beyond the word of the start, of which `r` lanes are those of the frame, no byte in
      a lane where the sink looks for a start is flagged so that the source sends one. */
  predicate Calm(f: Frame, r: nat, bw: nat)
    requires Sendable(f) && (bw == 4 || bw == 8) && r <= |f.data|
  {
    !StartIn(AfterStop(OnWire(f)[r..], bw), bw)
  }

  /** From a start in lane 0 or 4 of its word to the last word. */
  lemma {:induction false} FeedFrame(k: Sink, f: Frame, bw: nat, o: nat)
    requires k.frame.None? && Sendable(f) && (bw == 4 || bw == 8) && (o == 0 || (o == 4 && bw == 8))
    requires bw <= |f.data| + o
    ensures var k' := Feed(k, Words(Idles(o) + Framed(f), bw));
            k' == Sink(None, k.queue + [Received(f, bw - o)]) <==> Calm(f, bw - o, bw)
  {
    var lanes := Idles(o) + Framed(f);
    AfterStart(lanes, bw, o, f);
    var word, rest := lanes[..bw], lanes[bw..];
    StartSinks(k, word, o);
    FeedFirst(k, word, Words(rest, bw));
    FeedRest(SinkClock(k, word), [Lane(PRE, false)] + word[o + 1..], rest, bw, bw - o);
  }

  /** What a frame with any flags makes a sink queue that is between frames, when source and sink count from
      the word of the start: one frame, cut at its first control character beyond that word, and nothing
      else, iff it is calm. */
  lemma {:induction false} FeedAny(k: Sink, f: Frame, bw: nat, offset: bool)
    requires k.frame.None? && Sendable(f) && (bw == 4 || bw == 8)
    requires |f.data| >= if offset && bw == 8 then 4 else bw
    ensures var r := if offset && bw == 8 then 4 else bw;
            var k' := Feed(k, Words(if offset then Idles(4) + Framed(f) else Framed(f), bw));
            k' == Sink(None, k.queue + [Received(f, r)]) <==> Calm(f, r, bw)
  {
    if !offset {
      assert Framed(f) == Idles(0) + Framed(f);
      FeedFrame(k, f, bw, 0);
    } else if bw == 8 {
      FeedFrame(k, f, bw, 4);
    } else {
      // on a narrow bus a word of idles comes first
      var lanes := Idles(4) + Framed(f);
      assert lanes[..4] == Idles(4) && lanes[4..] == Framed(f) == Idles(0) + Framed(f);
      IdleWord(k, 4);
      FeedFirst(k, Idles(4), Words(Framed(f), bw));
      FeedFrame(k, f, bw, 0);
    }
  }

  /** Not calm: an error in byte 8, and a start in byte 16. */
  lemma {:induction false} NotCalmAt(f: Frame)
    requires Sendable(f) && |f.data| == 17 && FirstFlag(f, 8)
    requires f.ctrl[16] && !f.error[16] && f.data[16] == START
    ensures !Calm(f, 8, 8)
  {
    var rest := OnWire(f)[8..];
    WireLane(f, 8);
    WireLane(f, 16);
    assert FlagAt(f, 8) && rest[0] == OnWire(f)[8] && rest[8..][0] == OnWire(f)[16];
  }

  // ----- every run -----

  /** `g` is what the sink queues of `f`, with four or all lanes of the word of the start. */
  ghost predicate Heard(f: Frame, g: Frame, bw: nat) {
    && Sendable(f)
    && ((bw <= |f.data| && g == Received(f, bw)) || (bw == 8 && 4 <= |f.data| && g == Received(f, 4)))
  }

  ghost predicate AllHeard(sent: seq<Frame>, queue: seq<Frame>, bw: nat) {
    |queue| <= |sent| && forall i | 0 <= i < |queue| :: Heard(sent[i], queue[i], bw)
  }

  /** Once the lanes on their way are through, the sink has queued what it hears of all frames taken. */
  ghost predicate Follows(s: Source, k: Sink, sent: seq<Frame>) {
    && s.Valid() && (s.lanes != [] ==> s.ifgCnt == 0)
    && var done := Feed(k, Words(s.lanes, s.bw));
       && done.frame.None? && AllHeard(sent, done.queue, s.bw) && sent[|done.queue|..] == s.queue
  }

  lemma {:induction false} WordSent(s: Source, k: Sink)
    requires s.lanes != [] && (s.bw == 4 || s.bw == 8)
    ensures Feed(SinkClock(k, Padded(s.lanes, s.bw)), Words(Emit(s).lanes, s.bw)) == Feed(k, Words(s.lanes, s.bw))
  {
    FeedFirst(k, Padded(s.lanes, s.bw), Words(Emit(s).lanes, s.bw));
  }

  /** One frame more, with all `r` lanes of the word of the start. */
  lemma {:induction false} HeardMore(sent: seq<Frame>, queue: seq<Frame>, f: Frame, r: nat, bw: nat)
    requires AllHeard(sent, queue, bw) && |queue| < |sent| && sent[|queue|] == f && Sendable(f)
    requires r <= |f.data| && (r == bw || (bw == 8 && r == 4))
    ensures AllHeard(sent, queue + [Received(f, r)], bw)
  {
  }

  lemma {:induction false} LoadHeard(s: Source, k: Sink, sent: seq<Frame>)
    requires Follows(s, k, sent) && s.lanes == [] && s.queue != []
    requires |s.queue[0].data| >= Room(s) && Calm(s.queue[0], Room(s), s.bw)
    ensures Follows(Load(s), k, sent)
  {
    var f, n, t := s.queue[0], |k.queue|, Load(s);
    assert sent[n] == sent[n..][0] == f;
    assert sent[n + 1..] == sent[n..][1..];
    FeedAny(k, f, s.bw, Offset(s));
    HeardMore(sent, k.queue, f, Room(s), s.bw);
    LoadFollows(s, t, k, sent, Room(s));
  }

  lemma {:induction false} LoadFollows(s: Source, t: Source, k: Sink, sent: seq<Frame>, r: nat)
    requires s.Valid() && s.queue != [] && t == Load(s) && r <= |s.queue[0].data|
    requires |k.queue| < |sent| && t.queue == sent[|k.queue| + 1..]
    requires Feed(k, Words(t.lanes, s.bw)) == Sink(None, k.queue + [Received(s.queue[0], r)])
    requires AllHeard(sent, k.queue + [Received(s.queue[0], r)], s.bw)
    ensures Follows(t, k, sent)
  {
  }

  /** If the next clock starts a frame, it is calm. */
  predicate CalmNext(s: Source)
    requires s.Valid() && FitsNext(s)
  {
    !GapDue(s) && s.lanes == [] && s.queue != [] ==> Calm(s.queue[0], Room(s), s.bw)
  }

  lemma {:induction false} ClockFollows(s: Source, k: Sink, sent: seq<Frame>)
    requires Follows(s, k, sent) && FitsNext(s) && CalmNext(s)
    ensures Follows(SourceClock(s).source, SinkClock(k, SourceClock(s).word), sent)
  {
    if GapDue(s) {
      IdleWord(k, s.bw);
    } else if s.lanes != [] {
      WordSent(s, k);
    } else if s.queue != [] {
      LoadHeard(s, k, sent);
      WordSent(Load(s), k);
    } else {
      IdleWord(k, s.bw);
    }
  }

  /** Every frame started in the run is calm. */
  ghost predicate AllCalm(l: Link, events: seq<Event>)
    requires l.source.Valid() && SendableEvents(events) && AllFit(l, events)
    decreases |events|
  {
    events == [] || (
      StepValid(l, events[0]);
      (events[0].Clock? ==> CalmNext(l.source)) && AllCalm(Step(l, events[0]), events[1..]))
  }

  lemma {:induction false} SendFollows(l: Link, f: Frame)
    requires Follows(l.source, l.sink, l.sent) && Sendable(f)
    ensures Follows(Step(l, Send(f)).source, l.sink, l.sent + [f])
  {
    var done := Feed(l.sink, Words(l.source.lanes, l.source.bw));
    assert (l.sent + [f])[|done.queue|..] == l.sent[|done.queue|..] + [f];
    forall i | 0 <= i < |done.queue|
      ensures Heard((l.sent + [f])[i], done.queue[i], l.source.bw)
    {
      assert Heard(l.sent[i], done.queue[i], l.source.bw);
    }
  }

  lemma {:induction false} RunFollows(l: Link, events: seq<Event>)
    requires Follows(l.source, l.sink, l.sent) && SendableEvents(events)
    requires AllFit(l, events) && AllCalm(l, events)
    ensures var l' := Run(l, events); Follows(l'.source, l'.sink, l'.sent) && l'.source.bw == l.source.bw
    decreases |events|
  {
    if events != [] {
      match events[0] {
        case Clock => ClockFollows(l.source, l.sink, l.sent);
        case Send(f) => SendFollows(l, f);
      }
      StepValid(l, events[0]);
      RunFollows(Step(l, events[0]), events[1..]);
    }
  }

  // ----- what is heard -----

  /** The bytes before byte `k` as they were sent, and then the character sent in its place, which is an
      error iff it is ERROR; or without it, if it is the terminator. */
  ghost predicate CutAt(f: Frame, k: nat, g: Frame)
    requires f.Valid() && k < |f.data|
  {
    var c := if f.error[k] then ERROR else f.data[k];
    if c == TERM then g == Clean(f.data[..k])
    else g == Frame(f.data[..k] + [c], Flags(k) + [c == ERROR], Flags(k) + [true])
  }

  lemma {:induction false} ParsedPrefix(f: Frame, k: nat)
    requires Sendable(f) && 0 < k <= |f.data| && forall i | 0 < i < k :: !FlagAt(f, i)
    ensures Parse(OnWire(f)[..k]) == Clean(f.data[..k])
  {
    forall i | 0 <= i < k
      ensures OnWire(f)[..k][i] == Lane(f.data[i], false)
    {
      if i > 0 {
        WireLane(f, i);
        assert !FlagAt(f, i);
      }
    }
    var g := Parse(OnWire(f)[..k]);
    assert g.data == f.data[..k] && g.error == Flags(k) && g.ctrl == Flags(k);
  }

  lemma {:induction false} ParsedMore(lanes: seq<Lane>, l: Lane)
    ensures var g, h := Parse(lanes), Parse(lanes + [l]);
            h == Frame(g.data + [l.d], g.error + [l.c && l.d == ERROR], g.ctrl + [l.c])
  {
    var g, h := Parse(lanes), Parse(lanes + [l]);
    assert h.data == g.data + [l.d] && h.error == g.error + [l.c && l.d == ERROR] && h.ctrl == g.ctrl + [l.c];
  }

  lemma {:induction false} FlagCuts(f: Frame, k: nat, r: nat)
    requires Sendable(f) && FirstFlag(f, k) && 0 < r <= k
    ensures CutAt(f, k, Received(f, r))
  {
    var w := OnWire(f);
    WireLane(f, k);
    forall j | r <= j < k
      ensures !w[j].c
    {
      WireLane(f, j);
      assert !FlagAt(f, j);
    }
    assert FlagAt(f, k);
    StopIs(w, r, k);
    ParsedPrefix(f, k);
    assert w[..k + 1] == w[..k] + [w[k]];
    ParsedMore(w[..k], w[k]);
  }

  lemma {:induction false} CleanComes(f: Frame, r: nat)
    requires Sendable(f) && 0 < r <= |f.data| && forall i | 0 < i < |f.data| :: !FlagAt(f, i)
    ensures Received(f, r) == Clean(f.data)
  {
    var w, n := OnWire(f), |f.data|;
    forall j | r <= j < n
      ensures !w[j].c
    {
      WireLane(f, j);
      assert !FlagAt(f, j);
    }
    StopIs(w, r, n);
    ParsedPrefix(f, n);
    assert f.data[..n] == f.data;
  }

  /** What the flags say of `g`: a frame whose first flag comes after the word of the start, at byte `k`, is
      queued up to there; one without flags as it was. */
  ghost predicate Outcome(f: Frame, g: Frame, bw: nat) {
    && f.Valid()
    && (forall k: nat | bw <= k && FirstFlag(f, k) :: CutAt(f, k, g))
    && (bw <= |f.data| && (forall i | 0 < i < |f.data| :: !FlagAt(f, i)) ==> g == Clean(f.data))
  }

  lemma {:induction false} HeardOutcome(f: Frame, g: Frame, bw: nat)
    requires Heard(f, g, bw) && (bw == 4 || bw == 8)
    ensures Outcome(f, g, bw)
  {
    var r: nat :| 0 < r <= bw && r <= |f.data| && g == Received(f, r);
    forall k: nat | bw <= k && FirstFlag(f, k)
      ensures CutAt(f, k, g)
    {
      FlagCuts(f, k, r);
    }
    if forall i | 0 < i < |f.data| :: !FlagAt(f, i) {
      CleanComes(f, r);
    }
  }

  lemma {:induction false} FollowsHeard(s: Source, k: Sink, sent: seq<Frame>)
    requires Follows(s, k, sent)
    ensures AllHeard(sent, k.queue, s.bw)
    ensures forall i | 0 <= i < |k.queue| :: Outcome(sent[i], k.queue[i], s.bw)
    ensures s.lanes == [] && s.queue == [] ==> |k.queue| == |sent|
  {
    var words := Words(s.lanes, s.bw);
    FeedGrows(k, words);
    var done := Feed(k, words);
    forall i | 0 <= i < |k.queue|
      ensures Heard(sent[i], k.queue[i], s.bw) && Outcome(sent[i], k.queue[i], s.bw)
    {
      assert Heard(sent[i], done.queue[i], s.bw) && k.queue[i] == done.queue[i];
      HeardOutcome(sent[i], k.queue[i], s.bw);
    }
  }

  /** In every run in which no frame ends in the word of its start, and all are calm: of each frame
      sent the sink queues, in order, one frame, cut at the first control character after that word;
      and all of them once the source is empty. */
  lemma {:induction false} FlagsDelivered(bw: nat, ifg: int, dic: bool, force: bool, events: seq<Event>)
    requires (bw == 4 || bw == 8) && SendableEvents(events) && AllFit(Boot(bw, ifg, dic, force), events)
    requires AllCalm(Boot(bw, ifg, dic, force), events)
    ensures var l := Run(Boot(bw, ifg, dic, force), events);
            && AllHeard(l.sent, l.sink.queue, bw)
            && (forall i | 0 <= i < |l.sink.queue| :: Outcome(l.sent[i], l.sink.queue[i], bw))
            && (l.source.lanes == [] && l.source.queue == [] ==> |l.sink.queue| == |l.sent|)
  {
    var l := Boot(bw, ifg, dic, force);
    assert Follows(l.source, l.sink, l.sent);
    RunFollows(l, events);
    FollowsHeard(Run(l, events).source, Run(l, events).sink, Run(l, events).sent);
  }
}
