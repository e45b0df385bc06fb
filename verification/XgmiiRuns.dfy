/** Which runs of an XGMII link deliver: exactly those in which every frame is at least as long as the
    lanes from its start to the end of the word, four for a start in lane 4 of eight and else the width
    of the bus.  The sink does not look for a terminator in the word of the start. */
module XgmiiRuns {
  import opened Wrappers
  import opened Xgmii

  predicate PlainEvents(events: seq<Event>) {
    forall i | 0 <= i < |events| :: events[i].Send? ==> Plain(events[i].frame)
  }

  predicate SendableEvents(events: seq<Event>) {
    forall i | 0 <= i < |events| :: events[i].Send? ==> Sendable(events[i].frame)
  }

  lemma {:induction false} StepValid(l: Link, e: Event)
    requires l.source.Valid() && (e.Send? ==> Sendable(e.frame))
    ensures Step(l, e).source.Valid()
  {
    if e.Clock? {
      StaysValid(l.source);
    }
  }

  ghost function Run(l: Link, events: seq<Event>): (l': Link)
    requires l.source.Valid() && SendableEvents(events)
    ensures l'.source.Valid()
    decreases |events|
  {
    if events == [] then l
    else
      StepValid(l, events[0]);
      Run(Step(l, events[0]), events[1..])
  }

  /** Every frame started in the run reaches beyond the word of its start. */
  ghost predicate AllFit(l: Link, events: seq<Event>)
    requires l.source.Valid() && SendableEvents(events)
    decreases |events|
  {
    events == [] || (
      StepValid(l, events[0]);
      (events[0].Clock? ==> FitsNext(l.source)) && AllFit(Step(l, events[0]), events[1..]))
  }

  ghost predicate LinkedNow(l: Link) { Linked(l.source, l.sink, l.sent) }

  lemma {:induction false} StepLinked(l: Link, e: Event)
    requires LinkedNow(l) && (e.Send? ==> Plain(e.frame)) && (e.Clock? ==> FitsNext(l.source))
    ensures LinkedNow(Step(l, e))
  {
    match e {
      case Clock => ClockKeeps(l.source, l.sink, l.sent);
      case Send(f) =>
        if l.source.lanes != [] {
          assert (l.sent + [f])[|l.sink.queue|] == l.sent[|l.sink.queue|];
        }
    }
  }

  lemma {:induction false} RunLinked(l: Link, events: seq<Event>)
    requires LinkedNow(l) && PlainEvents(events) && AllFit(l, events)
    ensures LinkedNow(Run(l, events))
    decreases |events|
  {
    if events != [] {
      StepLinked(l, events[0]);
      RunLinked(Step(l, events[0]), events[1..]);
    }
  }

  // ----- a frame that is too short -----

  /** The sink took a control character for part of frame `i`. */
  ghost predicate Confused(k: Sink, i: nat) {
    if |k.queue| <= i then
      |k.queue| == i && k.frame.Some? && exists j | 0 <= j < |k.frame.value| :: k.frame.value[j].c
    else exists j | 0 <= j < |k.queue[i].ctrl| :: k.queue[i].ctrl[j]
  }

  lemma {:induction false} ScanConfused(k: Sink, i: nat, got: seq<Lane>, word: seq<Lane>, n: nat, j: nat)
    requires n <= |word| && |k.queue| == i && j < |got| && got[j].c
    ensures Confused(Scan(k, got, word, n), i)
    decreases |word| - n
  {
    if n < |word| {
      if word[n].c {
        var lanes := if word[n].d != TERM then got + [word[n]] else got;
        assert Scan(k, got, word, n).queue[i] == Parse(lanes) && Parse(lanes).ctrl[j];
      } else {
        ScanConfused(k, i, got + [word[n]], word, n + 1, j);
      }
    } else {
      assert k.(frame := Some(got)).frame.value[j].c;
    }
  }

  lemma {:induction false} ScanAppends(k: Sink, got: seq<Lane>, word: seq<Lane>, n: nat)
    requires n <= |word|
    ensures k.queue <= Scan(k, got, word, n).queue
    decreases |word| - n
  {
    if n < |word| && !word[n].c {
      ScanAppends(k, got + [word[n]], word, n + 1);
    }
  }

  lemma {:induction false} StaysConfused(k: Sink, i: nat, word: seq<Lane>)
    requires Confused(k, i) && (|word| == 4 || |word| == 8)
    ensures Confused(SinkClock(k, word), i)
  {
    if |k.queue| <= i {
      var j :| 0 <= j < |k.frame.value| && k.frame.value[j].c;
      ScanConfused(k, i, k.frame.value, word, 0, j);
    } else {
      if k.frame.Some? {
        ScanAppends(k, k.frame.value, word, 0);
      }
      assert SinkClock(k, word).queue[i] == k.queue[i];
    }
  }

  /** Frame `i` has confused the sink, or will with the next word: on a narrow bus a forced offset comes
      before the word of the start. */
  ghost predicate Doomed(l: Link, i: nat) {
    && l.source.Valid() && AllPlain(l.sent) && i < |l.sent|
    && (Confused(l.sink, i) || (l.sink.frame.None? && |l.sink.queue| == i && Starting(l.source, l.sent[i])))
  }

  /** The next word starts with a frame that ends in it. */
  ghost predicate Starting(s: Source, f: Frame) {
    Plain(f) && s.lanes == Framed(f) && |f.data| < s.bw && s.ifgCnt == 0
  }

  /** The word of the start, in lane `o`, holds the terminator. */
  lemma {:induction false} StartConfuses(k: Sink, word: seq<Lane>, f: Frame, o: nat)
    requires Plain(f) && k.frame.None? && (o == 0 || o == 4) && (|word| == 4 || |word| == 8)
    requires o + |f.data| < |word| && word[o..o + |f.data| + 1] == Framed(f)
    requires o == 4 ==> word[0] == IdleLane
    ensures Confused(SinkClock(k, word), |k.queue|)
  {
    FramedLanes(f);
    var n := |f.data|;
    assert word[o] == word[o..o + n + 1][0] == StartLane;
    assert word[o + n] == word[o..o + n + 1][n] == Framed(f)[n] == TermLane by {
      WireLanes(f);
      assert ([Lane(PRE, false)] + Framed(f)[1..])[n] == Framed(f)[n];
    }
    var got := [Lane(PRE, false)] + word[o + 1..];
    assert got[n] == word[o + n];
    assert SinkClock(k, word).frame == Some(got);
  }

  lemma {:induction false} StartingConfuses(l: Link, i: nat)
    requires Doomed(l, i) && !Confused(l.sink, i)
    ensures Confused(Step(l, Clock).sink, i)
  {
    var f, word := l.sent[i], Padded(l.source.lanes, l.source.bw);
    FramedLanes(f);
    assert word[0..|f.data| + 1] == Framed(f);
    StartConfuses(l.sink, word, f, 0);
  }

  lemma {:induction false} StaysDoomed(l: Link, i: nat, e: Event)
    requires Doomed(l, i) && (e.Send? ==> Plain(e.frame))
    ensures Doomed(Step(l, e), i)
  {
    StepValid(l, e);
    if e.Clock? {
      if Confused(l.sink, i) {
        StaysConfused(l.sink, i, SourceClock(l.source).word);
      } else {
        StartingConfuses(l, i);
      }
    } else {
      assert (l.sent + [e.frame])[i] == l.sent[i];
    }
  }

  /** The start of a short frame is in the next word. */
  lemma {:induction false} ShortWord(s: Source, k: Sink, f: Frame)
    requires s.Valid() && s.lanes == [] && s.queue != [] && f == s.queue[0] && Plain(f) && k.frame.None?
    requires |f.data| < Room(s) && (Offset(s) ==> s.bw == 8)
    ensures Confused(SinkClock(k, Padded(Load(s).lanes, s.bw)), |k.queue|)
  {
    FramedLanes(f);
    var word := Padded(Load(s).lanes, s.bw);
    if !Offset(s) {
      assert word[0..|f.data| + 1] == Framed(f);
      StartConfuses(k, word, f, 0);
    } else {
      assert word[4..4 + |f.data| + 1] == Framed(f);
      IdlesAre(4, 0);
      StartConfuses(k, word, f, 4);
    }
  }

  /** A clock that starts a frame too short. */
  lemma {:induction false} ShortDooms(l: Link, i: nat)
    requires LinkedNow(l) && !FitsNext(l.source) && i == |l.sink.queue|
    ensures Doomed(Step(l, Clock), i)
  {
    var s := l.source;
    var f, t := s.queue[0], Load(s);
    assert l.sent[i] == f;
    StepValid(l, Clock);
    if Offset(s) && s.bw == 4 {
      FramedLanes(f);
      assert Padded(t.lanes, 4) == Idles(4) && t.lanes[4..] == Framed(f);
      IdleWord(l.sink, 4);
    } else {
      ShortWord(s, l.sink, f);
    }
  }

  lemma {:induction false} DoomLasts(l: Link, i: nat, events: seq<Event>)
    requires Doomed(l, i) && PlainEvents(events)
    ensures Doomed(Run(l, events), i)
    decreases |events|
  {
    if events != [] {
      StaysDoomed(l, i, events[0]);
      DoomLasts(Step(l, events[0]), i, events[1..]);
    }
  }

  /** A doomed frame is not delivered. */
  lemma {:induction false} DoomedLost(l: Link, i: nat)
    requires Doomed(l, i)
    ensures |l.sink.queue| > i ==> l.sink.queue[i] != l.sent[i]
    ensures l.sink.queue != l.sent
  {
    assert Plain(l.sent[i]);
  }

  /** Once the source has sent everything, the sink has queued what was sent iff every frame of the run
      fits; and in such a run it has at any time queued the first of the frames sent. */
  lemma {:induction false} RunExact(l: Link, events: seq<Event>)
    requires LinkedNow(l) && PlainEvents(events)
    ensures var l' := Run(l, events);
            && (AllFit(l, events) ==> l'.sink.queue <= l'.sent)
            && (l'.source.lanes == [] && l'.source.queue == [] ==>
                  (l'.sink.queue == l'.sent <==> AllFit(l, events)))
    decreases |events|
  {
    if AllFit(l, events) {
      RunLinked(l, events);
    } else {
      var e := events[0];
      if e.Clock? && !FitsNext(l.source) {
        ShortDooms(l, |l.sink.queue|);
        DoomLasts(Step(l, e), |l.sink.queue|, events[1..]);
        DoomedLost(Run(l, events), |l.sink.queue|);
      } else {
        StepLinked(l, e);
        RunExact(Step(l, e), events[1..]);
      }
    }
  }

  // ----- a single frame -----

  /** The least length of a frame sent right after reset. */
  function Least(bw: nat, force: bool): nat { if bw == 8 && force then 4 else bw }

  lemma {:induction false} ClocksLinked(l: Link, n: nat)
    requires LinkedNow(l) && l.source.queue == []
    ensures LinkedNow(Clocks(l, n)) && Clocks(l, n).sent == l.sent
    decreases n
  {
    if n > 0 {
      StepLinked(l, Clock);
      ClocksLinked(Step(l, Clock), n - 1);
    }
  }

  lemma {:induction false} ClocksDoomed(l: Link, i: nat, n: nat)
    requires Doomed(l, i)
    ensures Doomed(Clocks(l, n), i) && Clocks(l, n).sent == l.sent
    decreases n
  {
    if n > 0 {
      StaysDoomed(l, i, Clock);
      ClocksDoomed(Step(l, Clock), i, n - 1);
    }
  }

  lemma {:induction false} Started(l: Link, f: Frame)
    requires LinkedNow(l) && FitsNext(l.source) && l.source.queue == [f] == l.sent
    requires l.source.lanes == [] && !GapDue(l.source)
    ensures LinkedNow(Step(l, Clock)) && Step(l, Clock).source.queue == [] && Step(l, Clock).sent == [f]
  {
    StepLinked(l, Clock);
  }

  lemma {:induction false} Emptied(l: Link)
    requires LinkedNow(l) && l.source.lanes == [] && l.source.queue == []
    ensures l.sink.queue == l.sent
  {
  }

  lemma {:induction false} ClocksNext(l: Link, l1: Link, n: nat)
    requires l.source.Valid() && l1 == Step(l, Clock) && l1.source.Valid()
    ensures Clocks(l, n + 1) == Clocks(l1, n)
  {
  }

  lemma {:induction false} LastArrives(l: Link) returns (n: nat)
    requires LinkedNow(l) && l.source.queue == []
    ensures Clocks(l, n).sink.queue == l.sent
  {
    n := Drains(l);
    ClocksLinked(l, n);
    Emptied(Clocks(l, n));
  }

  lemma {:induction false} FitArrives(l: Link, f: Frame) returns (n: nat)
    requires LinkedNow(l) && FitsNext(l.source) && l.source.queue == [f] == l.sent
    requires l.source.lanes == [] && !GapDue(l.source)
    ensures [f] <= Clocks(l, n).sink.queue
  {
    Started(l, f);
    n := LastArrives(Step(l, Clock));
    ClocksNext(l, Step(l, Clock), n);
    n := n + 1;
  }

  lemma {:induction false} DoomedNever(l: Link, f: Frame, n: nat)
    requires Doomed(l, 0) && l.sent == [f]
    ensures !([f] <= Clocks(l, n).sink.queue)
  {
    ClocksDoomed(l, 0, n);
    DoomedLost(Clocks(l, n), 0);
  }

  lemma {:induction false} ShortNever(l: Link, f: Frame, n: nat)
    requires LinkedNow(l) && !FitsNext(l.source) && l.sink.queue == [] && l.sent == [f]
    ensures !([f] <= Clocks(l, n).sink.queue)
  {
    if n > 0 {
      ShortDooms(l, 0);
      ClocksNext(l, Step(l, Clock), n - 1);
      DoomedNever(Step(l, Clock), f, n - 1);
    }
  }

  /** From reset a single frame arrives, as the first in the sink's queue, iff it is at least as long as
      the lanes from its start to the end of the word. */
  lemma {:induction false} AloneArrives(bw: nat, ifg: int, dic: bool, force: bool, f: Frame)
    requires (bw == 4 || bw == 8) && Plain(f)
    ensures Step(Boot(bw, ifg, dic, force), Send(f)).source.Valid()
    ensures (exists n: nat :: [f] <= Clocks(Step(Boot(bw, ifg, dic, force), Send(f)), n).sink.queue)
        <==> |f.data| >= Least(bw, force)
  {
    var l := Step(Boot(bw, ifg, dic, force), Send(f));
    if |f.data| >= Least(bw, force) {
      var n := FitArrives(l, f);
    } else {
      forall n: nat
        ensures !([f] <= Clocks(l, n).sink.queue)
      {
        ShortNever(l, f, n);
      }
    }
  }
}
