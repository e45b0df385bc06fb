/** 10GBASE-R from any scrambler registers: two idle words bring the ends together. */
module BaseRResync {
  import opened Wrappers
  import opened Xgmii
  import opened BaseRCodec
  import opened BaseRSerdes
  import Scrambler

  // ----- one word makes the registers equal -----

  lemma {:induction false} AfterSplit(s: Scrambler.State, a: seq<bool>, b: seq<bool>)
    ensures Scrambler.After(s, a + b) == Scrambler.After(Scrambler.After(s, a), b)
    decreases |a|
  {
    if a == [] {
      assert a + b == b;
    } else {
      assert (a + b)[1..] == a[1..] + b;
      AfterSplit(Scrambler.Shifted(s, a[0]), a[1..], b);
    }
  }

  lemma {:induction false} WordConverges(s: Scrambler.State, t: Scrambler.State, l: Line, m: Mode)
    requires m.scramble && |l.data| == 64
    ensures NextState(l, s, m) == NextState(l, t, m)
  {
    var line := Flip(l.data, m.reverse);
    assert line == line[..58] + line[58..];
    Scrambler.Converge(s, t, line[..58], 0);
    AfterSplit(s, line[..58], line[58..]);
    AfterSplit(t, line[..58], line[58..]);
  }

  // ----- what the sink makes of a word it did not understand -----

  /** Any word and then an idle one leave no frame open, and at most one frame more. */
  lemma {:induction false} IdleSettles(k: Sink, garbage: Word) returns (junk: seq<Frame>)
    ensures |junk| <= 1
    ensures SinkClock(SinkClock(k, garbage), Idles(8)) == Sink(None, k.queue + junk)
  {
    var k1 := SinkClock(k, garbage);
    var first: seq<Frame> := [];
    if k.frame.Some? {
      first := ScanOnce(k, k.frame.value, garbage, 0);
    }
    junk := first;
    IdlesAre(8, 0);
    if k1.frame.Some? {
      assert first == [];
      junk := [Parse(k1.frame.value + [Idles(8)[0]])];
    } else {
      IdleWord(k1, 8);
    }
    assert k.queue + [] == k.queue;
  }

  lemma {:induction false} ScanOnce(k: Sink, got: seq<Lane>, word: seq<Lane>, i: nat) returns (junk: seq<Frame>)
    requires i <= |word|
    ensures |junk| <= 1 && Scan(k, got, word, i).queue == k.queue + junk
    ensures Scan(k, got, word, i).frame.Some? <==> junk == []
    decreases |word| - i
  {
    if i == |word| {
      junk := [];
    } else if word[i].c {
      junk := [Parse(if word[i].d != TERM then got + [word[i]] else got)];
    } else {
      junk := ScanOnce(k, got + [word[i]], word, i + 1);
    }
  }

  // ----- frames queued before make no difference -----

  function Behind(q: seq<Frame>, k: Sink): Sink { k.(queue := q + k.queue) }

  lemma {:induction false} ScanBehind(q: seq<Frame>, k: Sink, got: seq<Lane>, word: seq<Lane>, i: nat)
    requires i <= |word|
    ensures Scan(Behind(q, k), got, word, i) == Behind(q, Scan(k, got, word, i))
    decreases |word| - i
  {
    if i < |word| {
      if word[i].c {
        var f := Parse(if word[i].d != TERM then got + [word[i]] else got);
        assert q + k.queue + [f] == q + (k.queue + [f]);
      } else {
        ScanBehind(q, k, got + [word[i]], word, i + 1);
      }
    }
  }

  lemma {:induction false} ClockBehind(q: seq<Frame>, k: Sink, word: Word)
    ensures SinkClock(Behind(q, k), word) == Behind(q, SinkClock(k, word))
  {
    if k.frame.Some? {
      ScanBehind(q, k, k.frame.value, word, 0);
    }
  }

  function LinkBehind(q: seq<Frame>, l: SerdesLink): SerdesLink { l.(sink := Behind(q, l.sink)) }

  /** A run, up to a clock that raises an exception. */
  ghost function Run(l: SerdesLink, events: seq<Event>): SerdesLink
    decreases |events|
  {
    if events == [] || (events[0].Clock? && !CanClock(l)) then l else Run(BaseRSerdes.Step(l, events[0]), events[1..])
  }

  /** What the sink gets in a clock. */
  function Got(l: SerdesLink): Word
    requires CanClock(l)
  {
    Decode(FromLine(ToLine(SerdesClock(l.serdes).block, l.tx, l.mode), l.rx, l.mode))
  }

  lemma {:induction false} StepBehind(q: seq<Frame>, l: SerdesLink, e: Event)
    requires e.Clock? ==> CanClock(l)
    ensures BaseRSerdes.Step(LinkBehind(q, l), e) == LinkBehind(q, BaseRSerdes.Step(l, e))
  {
    if e.Clock? {
      ClockBehind(q, l.sink, Got(l));
    }
  }

  lemma {:induction false} RunBehind(q: seq<Frame>, l: SerdesLink, events: seq<Event>)
    ensures Run(LinkBehind(q, l), events) == LinkBehind(q, Run(l, events))
    decreases |events|
  {
    if events != [] && (events[0].Clock? ==> CanClock(l)) {
      StepBehind(q, l, events[0]);
      RunBehind(q, BaseRSerdes.Step(l, events[0]), events[1..]);
    }
  }

  lemma {:induction false} RunIs(l: SerdesLink, x: Link, events: seq<Event>)
    requires Matches(l, x) && Possible(events, 8)
    ensures Run(l, events) == BaseRSerdes.After(l, x, events)
    decreases |events|
  {
    if events != [] {
      var e, rest := events[0], events[1..];
      RestPossible(events);
      StepMatches(l, x, e);
      RunIs(BaseRSerdes.Step(l, e), Xgmii.Step(x, e), rest);
    }
  }

  // ----- two idle words -----

  /** The source is idle, with no gap left to fill. */
  ghost predicate Idle(l: SerdesLink) {
    l.serdes.queue == [] && l.serdes.ccl == [] && l.serdes.ifgCnt == 0 && l.serdes.deficit == 0
  }

  lemma {:induction false} IdleBlockNext(l: SerdesLink)
    requires Idle(l)
    ensures CanClock(l) && SerdesClock(l.serdes) == Sent(l.serdes, IdleBlock)
  {
  }

  /** A clock, by the word that the sink gets. */
  lemma {:induction false} ClockIs(l: SerdesLink)
    requires Idle(l)
    ensures CanClock(l)
    ensures var l' := BaseRSerdes.Step(l, Clock);
            l'.sink == SinkClock(l.sink, Got(l)) && l' == l.(tx := l'.tx, rx := l'.rx, sink := l'.sink)
  {
    IdleBlockNext(l);
  }

  lemma {:induction false} ClockConverges(l: SerdesLink)
    requires Idle(l) && (l.mode.scramble || l.tx == l.rx)
    ensures CanClock(l) && BaseRSerdes.Step(l, Clock).tx == BaseRSerdes.Step(l, Clock).rx
  {
    IdleBlockNext(l);
    if l.mode.scramble {
      WordConverges(l.tx, l.rx, ToLine(SerdesClock(l.serdes).block, l.tx, l.mode), l.mode);
    }
  }

  lemma {:induction false} GotIdle(l: SerdesLink)
    requires Idle(l) && l.tx == l.rx
    ensures CanClock(l) && Got(l) == Idles(8)
  {
    IdleBlockNext(l);
    var b := SerdesClock(l.serdes).block;
    IdleWordIs();
    LineTrip(b, l.tx, l.mode);
    SameDecoding(b);
    BaseRCodec.RoundTrip(Idles(8));
  }

  /** Two clocks of an idle source with scrambling: the registers are equal, and the sink is between
      frames with at most one more queued. */
  lemma {:induction false} TwoClocks(l: SerdesLink) returns (l1: SerdesLink, l2: SerdesLink, junk: seq<Frame>)
    requires Idle(l) && l.mode.scramble
    ensures CanClock(l) && l1 == BaseRSerdes.Step(l, Clock) && CanClock(l1)
    ensures l2 == BaseRSerdes.Step(l1, Clock) && |junk| <= 1
    ensures l2 == l.(tx := l2.tx, rx := l2.tx, sink := Sink(None, l.sink.queue + junk))
  {
    ClockIs(l);
    ClockConverges(l);
    l1 := BaseRSerdes.Step(l, Clock);
    ClockIs(l1);
    ClockConverges(l1);
    GotIdle(l1);
    l2 := BaseRSerdes.Step(l1, Clock);
    junk := IdleSettles(l.sink, Got(l));
  }

  /** Idle ends with equal registers, from which nothing was sent, are where an XGMII link is at reset. */
  lemma {:induction false} CleanMatches(l: SerdesLink)
    requires Idle(l) && l.tx == l.rx && l.sink == Sink(None, []) && l.sent == []
    ensures Matches(l, Xgmii.Boot(8, l.serdes.ifg, l.serdes.dic, l.serdes.force))
  {
    BootInv(8, l.serdes.ifg, l.serdes.dic, l.serdes.force);
  }

  /** With scrambling, from any registers of both ends and whatever the sink is in the middle of: after two
      clocks without a frame at most one frame of junk is queued, and then, in every run, the first of
      the frames sent, all of them once the source is empty. */
  lemma {:induction false} AnyRegisters(l: SerdesLink, events: seq<Event>)
    returns (l1: SerdesLink, l2: SerdesLink, junk: seq<Frame>, got: seq<Frame>)
    requires Idle(l) && l.mode.scramble && l.sent == [] && Possible(events, 8)
    ensures CanClock(l) && l1 == BaseRSerdes.Step(l, Clock)
    ensures CanClock(l1) && l2 == BaseRSerdes.Step(l1, Clock)
    ensures var l' := Run(l2, events);
            && |junk| <= 1 && l'.sink.queue == l.sink.queue + junk + got && got <= l'.sent
            && (l'.serdes.ccl == [] && l'.serdes.queue == [] ==> got == l'.sent)
  {
    l1, l2, junk := TwoClocks(l);
    got := AfterTwo(l, l2, junk, events);
  }

  lemma {:induction false} AfterTwo(l: SerdesLink, l2: SerdesLink, junk: seq<Frame>, events: seq<Event>)
    returns (got: seq<Frame>)
    requires Idle(l) && l.sent == [] && Possible(events, 8)
    requires l2 == l.(tx := l2.tx, rx := l2.tx, sink := Sink(None, l.sink.queue + junk))
    ensures var l' := Run(l2, events);
            && l'.sink.queue == l.sink.queue + junk + got && got <= l'.sent
            && (l'.serdes.ccl == [] && l'.serdes.queue == [] ==> got == l'.sent)
  {
    var clean := l2.(sink := Sink(None, []));
    CleanMatches(clean);
    assert l.sink.queue + junk + [] == l.sink.queue + junk;
    assert l2 == LinkBehind(l.sink.queue + junk, clean);
    got := CleanRun(l.sink.queue + junk, clean,
                    Xgmii.Boot(8, l.serdes.ifg, l.serdes.dic, l.serdes.force), events);
  }

  lemma {:induction false} CleanRun(q: seq<Frame>, l: SerdesLink, x: Link, events: seq<Event>)
    returns (got: seq<Frame>)
    requires Matches(l, x) && Possible(events, 8)
    ensures var l' := Run(LinkBehind(q, l), events);
            && l'.sink.queue == q + got && got <= l'.sent
            && (l'.serdes.ccl == [] && l'.serdes.queue == [] ==> got == l'.sent)
  {
    RunBehind(q, l, events);
    RunIs(l, x, events);
    RunMatches(l, x, events);
    Delivery(x, events);
    BlocksSome(Xgmii.After(x, events).source.lanes);
    got := BaseRSerdes.After(l, x, events).sink.queue;
  }
}
