/** The clocked handshake of the AXI-Stream source and sink, and what it delivers. */
module AxisHandshake {
  import opened AxiStream

  // ----- what the sink asserts of a beat -----

  predicate Contiguous(keep: seq<bool>) {
    forall i, j, k | 0 <= i < j < k < |keep| && keep[i] && keep[k] :: keep[j]
  }

  /** No empty beat, no holes, and no gaps between the beats of a frame. */
  predicate KeepOk(b: Beat, first: bool) {
    && (exists j | 0 <= j < |b.keep| :: b.keep[j]) && Contiguous(b.keep)
    && (!first ==> b.keep[0])
    && (!b.last ==> b.keep[|b.keep| - 1])
  }

  lemma {:induction false} KeepLowest(k: nat, m: nat, b: Beat, first: bool)
    requires 0 < k <= m && b.keep == Keep(k, m) && (!b.last ==> k == m)
    ensures KeepOk(b, first)
  {
    forall j | 0 <= j < m
      ensures b.keep[j] <==> j < k
    {
      KeepAt(k, m, j);
    }
    assert b.keep[0];
  }

  /** Every beat that build makes on a single data signal, with the keep values it computes, passes. */
  lemma {:induction false} BuiltOk(f: Frame, o: nat, i: nat, j: nat, first: bool, bus: Bus)
    requires bus.Valid() && o <= |f.data| && j < |BeatsFrom(f, o, i, bus)|
    ensures KeepOk(BeatsFrom(f, o, i, bus)[j], first)
    decreases |f.data| - o
  {
    var k, i' := Min(|f.data| - o, bus.m), i + 1;
    var o' := o + k;
    BeatsUnfold(f, o, i, k, o', i', bus);
    if j == 0 {
      KeepLowest(k, bus.m, FirstBeat(f, o, i, k, bus), first);
    } else {
      BuiltOk(f, o', i', j - 1, first, bus);
    }
  }

  // ----- source -----

  /** `beat` is what the bus shows while the source is active; `rest` follows it. */
  datatype Source = Source(queue: seq<Frame>, active: bool, valid: bool, beat: Beat, rest: seq<Beat>)

  predicate SendsOnly(frames: seq<Frame>, bus: Bus)
    requires bus.Valid()
  {
    forall i | 0 <= i < |frames| :: Sendable(frames[i], bus)
  }

  /** What a taken beat leaves. */
  function Taken(s: Source, pause: bool): Source {
    if s.rest != [] then s.(beat := s.rest[0], rest := s.rest[1..], valid := !pause)
    else s.(valid := false, active := false)
  }

  function Load(s: Source, pause: bool, bus: Bus): Source
    requires bus.Valid() && s.queue != [] && Beats(s.queue[0], bus) != []
  {
    var beats := Beats(s.queue[0], bus);
    Source(s.queue[1..], true, !pause, beats[0], beats[1..])
  }

  /** One clock of the source without reset. */
  function SourceClock(s: Source, ready: bool, pause: bool, bus: Bus): Source
    requires bus.Valid() && SendsOnly(s.queue, bus)
  {
    var held := s.(valid := s.active && (s.valid || !pause));
    var s' := if ready && s.valid then Taken(held, pause) else held;
    if !s'.active && s'.queue != [] then
      assert Sendable(s'.queue[0], bus);
      ParseOfBuild(s'.queue[0], bus);
      Load(s', pause, bus)
    else s'
  }

  /** The handshake as the source sees it: a valid beat stays, and stays valid, until it is taken, pause
      or no pause; valid goes up only without pause; and with frames to send the source is active. */
  lemma {:induction false} SourceExact(s: Source, ready: bool, pause: bool, bus: Bus)
    requires bus.Valid() && SendsOnly(s.queue, bus) && (s.valid ==> s.active)
    ensures var s' := SourceClock(s, ready, pause, bus);
            && (s'.valid <==> s'.active && ((s.valid && !ready) || !pause))
            && (s.active && !(s.valid && ready) ==> s' == s.(valid := s'.valid))
            && (s'.active <==> (s.active && !(s.valid && ready && s.rest == [])) || s.queue != [])
            && (s.active && s.valid && ready && s.rest != [] ==>
                  s'.beat == s.rest[0] && s'.rest == s.rest[1..] && s'.queue == s.queue)
  {
  }

  // ----- sink -----

  /** `ready` is the sink's own flag, which the pause signal masks on the bus. */
  datatype Sink = Sink(queue: seq<Frame>, got: seq<Beat>, ready: bool) | Failed

  /** A beat is taken when it is valid and the sink does not pause, whatever its own ready flag. */
  function TakeBeat(k: Sink, b: Beat, bus: Bus): Sink
    requires bus.Valid()
  {
    if k.Failed? || !KeepOk(b, k.got == []) then Failed
    else
      var got := k.got + [b];
      if b.last then Sink(k.queue + [Parse(got, bus)], [], true) else Sink(k.queue, got, true)
  }

  function SinkClock(k: Sink, valid: bool, b: Beat, pause: bool, bus: Bus): Sink
    requires bus.Valid()
  {
    if k.Failed? then Failed
    else if valid && !pause then TakeBeat(k, b, bus)
    else k.(ready := true)
  }

  // ----- delivery -----

  function Echo(f: Frame, bus: Bus): Frame
    requires bus.Valid() && Beats(f, bus) != []
  {
    Parse(Beats(f, bus), bus)
  }

  /** The frames as they arrive. */
  function Echoes(frames: seq<Frame>, bus: Bus): seq<Frame>
    requires bus.Valid() && SendsOnly(frames, bus)
  {
    if frames == [] then []
    else
      var n := |frames| - 1;
      ParseOfBuild(frames[n], bus);
      Echoes(frames[..n], bus) + [Echo(frames[n], bus)]
  }

  /** After those of `before`, `done` frames are delivered; of the next the sink has the first beats; the
      others are queued.  A valid beat meets a ready sink. */
  ghost predicate Linked(before: seq<Frame>, s: Source, k: Sink, sent: seq<Frame>, done: nat, bus: Bus)
    requires bus.Valid() && SendsOnly(sent, bus)
  {
    && k.Sink? && done <= |sent| && k.queue == before + Echoes(sent[..done], bus)
    && (s.valid ==> s.active && k.ready)
    && if s.active then
         && done < |sent| && k.got + [s.beat] + s.rest == Beats(sent[done], bus)
         && s.queue == sent[done + 1..]
       else k.got == [] && s.queue == sent[done..]
  }

  lemma {:induction false} EchoesNext(sent: seq<Frame>, done: nat, bus: Bus)
    requires bus.Valid() && SendsOnly(sent, bus) && done < |sent|
    ensures Beats(sent[done], bus) != []
    ensures Echoes(sent[..done + 1], bus) == Echoes(sent[..done], bus) + [Echo(sent[done], bus)]
  {
    ParseOfBuild(sent[done], bus);
    assert sent[..done + 1][..done] == sent[..done];
  }

  /** Both sides agree on a beat that is taken. */
  lemma {:induction false} TakeKeeps(before: seq<Frame>, s: Source, k: Sink, sent: seq<Frame>, done: nat, pause: bool,
                                     bus: Bus, held: Source)
    requires bus.Valid() && SendsOnly(sent, bus) && Linked(before, s, k, sent, done, bus) && s.valid
    requires held == s.(valid := held.valid)
    ensures Linked(before, Taken(held, pause), TakeBeat(k, s.beat, bus), sent,
                   if s.rest == [] then done + 1 else done, bus)
  {
    var beats, j := Beats(sent[done], bus), |k.got|;
    assert beats[j] == (k.got + [s.beat] + s.rest)[j] == s.beat;
    BuiltOk(sent[done], 0, 0, j, k.got == [], bus);
    BeatAt(sent[done], 0, 0, j, bus);
    if s.rest == [] {
      assert k.got + [s.beat] == beats;
      EchoesNext(sent, done, bus);
    } else {
      assert k.got + [s.beat] + [s.rest[0]] + s.rest[1..] == k.got + [s.beat] + s.rest;
    }
  }

  lemma {:induction false} LoadKeeps(before: seq<Frame>, s: Source, k: Sink, sent: seq<Frame>, done: nat, pause: bool,
                                     bus: Bus)
    requires bus.Valid() && SendsOnly(sent, bus) && Linked(before, s, k, sent, done, bus)
    requires !s.active && s.queue != [] && k.ready
    ensures Beats(s.queue[0], bus) != []
    ensures Linked(before, Load(s, pause, bus), k, sent, done, bus)
  {
    assert s.queue[0] == sent[done];
    ParseOfBuild(sent[done], bus);
    var beats := Beats(sent[done], bus);
    assert [] + [beats[0]] + beats[1..] == beats;
  }

  /** Any clock, with any pauses. */
  lemma {:induction false} ClockKeeps(before: seq<Frame>, s: Source, k: Sink, sent: seq<Frame>, done: nat,
                                      srcPause: bool, snkPause: bool, bus: Bus) returns (done': nat)
    requires bus.Valid() && SendsOnly(sent, bus) && Linked(before, s, k, sent, done, bus)
    ensures SendsOnly(s.queue, bus) && done <= done' <= |sent|
    ensures Linked(before, SourceClock(s, k.ready && !snkPause, srcPause, bus),
                   SinkClock(k, s.valid, s.beat, snkPause, bus), sent, done', bus)
  {
    var held := s.(valid := s.active && (s.valid || !srcPause));
    var k' := SinkClock(k, s.valid, s.beat, snkPause, bus);
    var s' := held;
    done' := done;
    if s.valid && !snkPause {
      TakeKeeps(before, s, k, sent, done, srcPause, bus, held);
      s', done' := Taken(held, srcPause), if s.rest == [] then done + 1 else done;
    }
    if !s'.active && s'.queue != [] {
      LoadKeeps(before, s', k', sent, done', srcPause, bus);
    }
  }

  // ----- whole runs -----

  datatype Event = Send(frame: Frame) | Clock(srcPause: bool, snkPause: bool) | Reset

  datatype Link = Link(source: Source, sink: Sink, bus: Bus)

  /** A reset of both ends; frames still queued stay queued. */
  function ResetSource(s: Source): Source { s.(active := false, valid := false, rest := []) }

  function ResetSink(k: Sink): Sink {
    if k.Failed? then Failed else Sink(k.queue, [], false)
  }

  function Step(l: Link, e: Event): Link
    requires l.bus.Valid() && SendsOnly(l.source.queue, l.bus)
  {
    match e
    case Send(f) => l.(source := l.source.(queue := l.source.queue + [f]))
    case Clock(p, q) =>
      var ready := l.sink.Sink? && l.sink.ready && !q;
      l.(source := SourceClock(l.source, ready, p, l.bus),
         sink := SinkClock(l.sink, l.source.valid, l.source.beat, q, l.bus))
    case Reset => l.(source := ResetSource(l.source), sink := ResetSink(l.sink))
  }

  /** Sending more frames. */
  lemma {:induction false} SendKeeps(before: seq<Frame>, s: Source, k: Sink, sent: seq<Frame>, done: nat,
                                     f: Frame, bus: Bus)
    requires bus.Valid() && SendsOnly(sent, bus) && Linked(before, s, k, sent, done, bus) && Sendable(f, bus)
    ensures SendsOnly(sent + [f], bus)
    ensures Linked(before, s.(queue := s.queue + [f]), k, sent + [f], done, bus)
  {
    var sent' := sent + [f];
    assert SendsOnly(sent', bus) && sent'[..done] == sent[..done];
    if s.active {
      assert sent'[done] == sent[done] && sent'[done + 1..] == sent[done + 1..] + [f];
    } else {
      assert sent'[done..] == sent[done..] + [f];
    }
  }

  predicate NoReset(events: seq<Event>, bus: Bus)
    requires bus.Valid()
  {
    forall i | 0 <= i < |events| ::
      !events[i].Reset? && (events[i].Send? ==> Sendable(events[i].frame, bus))
  }

  function Given(e: Event): seq<Frame> { if e.Send? then [e.frame] else [] }

  /** The frames given to the source by a run. */
  function SentBy(events: seq<Event>): seq<Frame> {
    if events == [] then [] else Given(events[0]) + SentBy(events[1..])
  }

  ghost predicate Delivers(l: Link, before: seq<Frame>, sent: seq<Frame>) {
    && l.bus.Valid() && SendsOnly(sent, l.bus)
    && exists done :: Linked(before, l.source, l.sink, sent, done, l.bus)
  }

  lemma {:induction false} SendDelivers(l: Link, f: Frame, before: seq<Frame>, sent: seq<Frame>)
    requires Delivers(l, before, sent) && Sendable(f, l.bus)
    ensures Delivers(l.(source := l.source.(queue := l.source.queue + [f])), before, sent + [f])
  {
    var done :| Linked(before, l.source, l.sink, sent, done, l.bus);
    SendKeeps(before, l.source, l.sink, sent, done, f, l.bus);
  }

  lemma {:induction false} ClockDelivers(l: Link, p: bool, q: bool, before: seq<Frame>, sent: seq<Frame>)
    requires Delivers(l, before, sent)
    ensures SendsOnly(l.source.queue, l.bus) && l.sink.Sink?
    ensures Delivers(Link(SourceClock(l.source, l.sink.ready && !q, p, l.bus),
                          SinkClock(l.sink, l.source.valid, l.source.beat, q, l.bus), l.bus), before, sent)
  {
    var done :| Linked(before, l.source, l.sink, sent, done, l.bus);
    var done' := ClockKeeps(before, l.source, l.sink, sent, done, p, q, l.bus);
  }

  lemma {:induction false} StepDelivers(l: Link, e: Event, before: seq<Frame>, sent: seq<Frame>)
    requires Delivers(l, before, sent) && !e.Reset? && (e.Send? ==> Sendable(e.frame, l.bus))
    ensures SendsOnly(l.source.queue, l.bus)
    ensures Delivers(Step(l, e), before, sent + Given(e)) && Step(l, e).bus == l.bus
  {
    ClockDelivers(l, false, false, before, sent);
    match e {
      case Send(f) => SendDelivers(l, f, before, sent);
      case Clock(p, q) =>
        ClockDelivers(l, p, q, before, sent);
        assert sent + [] == sent;
    }
  }

  ghost function Steps(l: Link, events: seq<Event>, before: seq<Frame>, sent: seq<Frame>): Link
    requires Delivers(l, before, sent) && NoReset(events, l.bus)
    decreases |events|
  {
    if events == [] then l
    else
      StepDelivers(l, events[0], before, sent);
      Steps(Step(l, events[0]), events[1..], before, sent + Given(events[0]))
  }

  ghost function After(l: Link, events: seq<Event>, before: seq<Frame>, sent: seq<Frame>): Link
    requires Delivers(l, before, sent) && NoReset(events, l.bus)
  {
    Steps(l, events, before, sent)
  }

  lemma {:induction false} AfterFirst(l: Link, e: Event, events: seq<Event>, before: seq<Frame>, sent: seq<Frame>,
                                      l': Link, sent1: seq<Frame>)
    requires Delivers(l, before, sent) && NoReset(events, l.bus) && events != [] && e == events[0]
    requires l' == Step(l, e) && sent1 == sent + Given(e) && Delivers(l', before, sent1) && l'.bus == l.bus
    ensures NoReset(events[1..], l'.bus) && After(l, events, before, sent) == After(l', events[1..], before, sent1)
  {
  }

  lemma {:induction false} GivenFirst(events: seq<Event>, sent: seq<Frame>, e: Event)
    requires events != [] && e == events[0]
    ensures (sent + Given(e)) + SentBy(events[1..]) == sent + SentBy(events)
  {
    assert (sent + Given(e)) + SentBy(events[1..]) == sent + (Given(e) + SentBy(events[1..]));
  }

  /** Between resets, for all pauses of both ends: the sink fails no assertion and has queued, in
      order, the first of the frames sent; the next ones are in flight or queued. */
  lemma {:induction false} RunDelivers(l: Link, events: seq<Event>, before: seq<Frame>, sent: seq<Frame>)
    requires Delivers(l, before, sent) && NoReset(events, l.bus)
    ensures Delivers(After(l, events, before, sent), before, sent + SentBy(events))
    decreases |events|
  {
    if events == [] {
      assert sent + SentBy([]) == sent;
    } else {
      var e, sent1 := events[0], sent + Given(events[0]);
      StepDelivers(l, e, before, sent);
      var l' := Step(l, e);
      AfterFirst(l, e, events, before, sent, l', sent1);
      GivenFirst(events, sent, e);
      RunDelivers(l', events[1..], before, sent1);
    }
  }

  /** So the frames received are the first of those sent, and all of them once the source is idle. */
  lemma {:induction false} Received(l: Link, before: seq<Frame>, sent: seq<Frame>) returns (done: nat)
    requires Delivers(l, before, sent)
    ensures done <= |sent| && l.sink.Sink? && l.sink.queue == before + Echoes(sent[..done], l.bus)
    ensures !l.source.active && l.source.queue == [] ==> done == |sent| && sent[..done] == sent
  {
    done :| Linked(before, l.source, l.sink, sent, done, l.bus);
    if !l.source.active && l.source.queue == [] {
      assert |sent[done..]| == 0;
    }
  }

  function Clocks(l: Link, n: nat): Link
    requires l.bus.Valid() && SendsOnly(l.source.queue, l.bus)
    decreases n
  {
    if n == 0 then l
    else
      QueueShrinks(l.source, l.sink.Sink? && l.sink.ready, l.bus);
      Clocks(Step(l, Clock(false, false)), n - 1)
  }

  lemma {:induction false} QueueShrinks(s: Source, ready: bool, bus: Bus)
    requires bus.Valid() && SendsOnly(s.queue, bus)
    ensures SendsOnly(SourceClock(s, ready, false, bus).queue, bus)
  {
  }

  /** When neither end pauses the source gets idle, so everything arrives. */
  lemma {:induction false} Drains(l: Link, before: seq<Frame>, sent: seq<Frame>) returns (n: nat)
    requires Delivers(l, before, sent)
    ensures SendsOnly(l.source.queue, l.bus)
    ensures !Clocks(l, n).source.active && Clocks(l, n).source.queue == []
    decreases |l.source.queue|, if l.source.active then |l.source.rest| + 1 else 0,
              if l.source.valid then 0 else 1
  {
    n := 0;
    StepDelivers(l, Clock(false, false), before, sent);
    if l.source.active || l.source.queue != [] {
      assert sent + [] == sent;
      n := Drains(Step(l, Clock(false, false)), before, sent);
      n := n + 1;
    }
  }

  /** All frames sent arrive when neither end pauses. */
  lemma {:induction false} AllArrive(l: Link, before: seq<Frame>, sent: seq<Frame>) returns (n: nat)
    requires Delivers(l, before, sent)
    ensures SendsOnly(l.source.queue, l.bus)
    ensures Clocks(l, n).sink.Sink? && Clocks(l, n).sink.queue == before + Echoes(sent, l.bus)
  {
    n := Drains(l, before, sent);
    ClocksDeliver(l, n, before, sent);
    var done := Received(Clocks(l, n), before, sent);
  }

  lemma {:induction false} ClocksDeliver(l: Link, n: nat, before: seq<Frame>, sent: seq<Frame>)
    requires Delivers(l, before, sent)
    ensures SendsOnly(l.source.queue, l.bus)
    ensures Delivers(Clocks(l, n), before, sent) && Clocks(l, n).bus == l.bus
    decreases n
  {
    ClockDelivers(l, false, false, before, sent);
    if n > 0 {
      var l' := Link(SourceClock(l.source, l.sink.ready, false, l.bus),
                     SinkClock(l.sink, l.source.valid, l.source.beat, false, l.bus), l.bus);
      ClocksDeliver(l', n - 1, before, sent);
      assert l' == Step(l, Clock(false, false));
    }
  }

  /** A common reset starts over: the frames received stay, those still queued will follow. */
  lemma {:induction false} ResetDelivers(l: Link)
    requires l.bus.Valid() && SendsOnly(l.source.queue, l.bus) && l.sink.Sink?
    ensures Delivers(Step(l, Reset), l.sink.queue, l.source.queue)
  {
    var l' := Step(l, Reset);
    assert l.sink.queue + Echoes(l.source.queue[..0], l.bus) == l.sink.queue;
    assert Linked(l.sink.queue, l'.source, l'.sink, l.source.queue, 0, l.bus);
  }
}
