/** A reset of the AXI-Stream sink alone: when it does no harm, and what it does otherwise.

    The sink takes a valid beat whatever its own ready flag, which a reset clears, while the other end
    goes by that flag. */
module AxisReset {
  import opened AxiStream
  import opened AxisHandshake

  function ResetOfSink(l: Link): Link { l.(sink := ResetSink(l.sink)) }

  /** No beat is on the bus, and the sink has no part of a frame. */
  predicate SinkMayReset(l: Link) { !l.source.valid && l.sink.Sink? && l.sink.got == [] }

  lemma {:induction false} EchoesAt(frames: seq<Frame>, bus: Bus)
    requires bus.Valid() && SendsOnly(frames, bus)
    ensures |Echoes(frames, bus)| == |frames|
    ensures forall i | 0 <= i < |frames| ::
              Beats(frames[i], bus) != [] && Echoes(frames, bus)[i] == Echo(frames[i], bus)
  {
    if frames != [] {
      var n := |frames| - 1;
      ParseOfBuild(frames[n], bus);
      EchoesAt(frames[..n], bus);
      forall i | 0 <= i < |frames|
        ensures Beats(frames[i], bus) != [] && Echoes(frames, bus)[i] == Echo(frames[i], bus)
      {
        if i < n {
          assert frames[..n][i] == frames[i];
        }
      }
    }
  }

  /** Where the link is after a reset of the sink is unique. */
  lemma {:induction false} LinkedAfter(l: Link, before: seq<Frame>, sent: seq<Frame>, done: nat, done': nat)
    requires l.bus.Valid() && SendsOnly(sent, l.bus) && Linked(before, l.source, l.sink, sent, done, l.bus)
    requires Linked(before, l.source, ResetSink(l.sink), sent, done', l.bus)
    ensures SinkMayReset(l)
  {
    EchoesAt(sent[..done], l.bus);
    EchoesAt(sent[..done'], l.bus);
    assert done' == done;
    assert |l.sink.got + [l.source.beat] + l.source.rest| == |l.sink.got| + 1 + |l.source.rest|;
    assert |[] + [l.source.beat] + l.source.rest| == 1 + |l.source.rest|;
  }

  /** The harmless resets: the link goes on as if nothing had happened. */
  lemma {:induction false} SinkResetExact(l: Link, before: seq<Frame>, sent: seq<Frame>)
    requires Delivers(l, before, sent)
    ensures Delivers(ResetOfSink(l), before, sent) <==> SinkMayReset(l)
  {
    var done: nat :| Linked(before, l.source, l.sink, sent, done, l.bus);
    if SinkMayReset(l) {
      assert Linked(before, l.source, ResetSink(l.sink), sent, done, l.bus);
    } else if Delivers(ResetOfSink(l), before, sent) {
      var done': nat :| Linked(before, l.source, ResetSink(l.sink), sent, done', l.bus);
      LinkedAfter(l, before, sent, done, done');
    }
  }

  /** Beats that pass the sink's assertions as the end of a frame. */
  ghost predicate Passes(bs: seq<Beat>) {
    && bs != []
    && forall j | 0 <= j < |bs| ::
         KeepOk(bs[j], true) && KeepOk(bs[j], false) && bs[j].last == (j == |bs| - 1)
  }

  lemma {:induction false} FrameEndPasses(f: Frame, got: seq<Beat>, bs: seq<Beat>, bus: Bus)
    requires bus.Valid() && got + bs == Beats(f, bus) && bs != []
    ensures Passes(bs)
  {
    forall j | 0 <= j < |bs|
      ensures KeepOk(bs[j], true) && KeepOk(bs[j], false) && bs[j].last == (j == |bs| - 1)
    {
      assert bs[j] == Beats(f, bus)[|got| + j];
      BuiltOk(f, 0, 0, |got| + j, true, bus);
      BuiltOk(f, 0, 0, |got| + j, false, bus);
      BeatAt(f, 0, 0, |got| + j, bus);
    }
  }

  lemma {:induction false} PassesNext(beat: Beat, rest: seq<Beat>)
    requires Passes([beat] + rest)
    ensures KeepOk(beat, true) && KeepOk(beat, false) && beat.last == (rest == [])
    ensures rest != [] ==> rest == [rest[0]] + rest[1..] && Passes([rest[0]] + rest[1..])
  {
    var bs := [beat] + rest;
    assert bs[0] == beat;
    if rest != [] {
      assert rest == [rest[0]] + rest[1..];
      forall j | 0 <= j < |rest|
        ensures KeepOk(rest[j], true) && KeepOk(rest[j], false) && rest[j].last == (j == |rest| - 1)
      {
        assert rest[j] == bs[j + 1];
      }
    }
  }

  /** The beats left of a frame complete whatever the sink has. */
  lemma {:induction false} RestArrives(l: Link, got: seq<Beat>, beat: Beat, rest: seq<Beat>) returns (n: nat)
    requires l.bus.Valid() && SendsOnly(l.source.queue, l.bus)
    requires l.source.active && l.source.valid && l.source.beat == beat && l.source.rest == rest
    requires l.sink.Sink? && l.sink.ready && l.sink.got == got && Passes([beat] + rest)
    ensures Clocks(l, n).sink.Sink?
    ensures Clocks(l, n).sink.queue == l.sink.queue + [Parse(got + ([beat] + rest), l.bus)]
    decreases |rest|
  {
    PassesNext(beat, rest);
    QueueShrinks(l.source, true, l.bus);
    var l1 := Step(l, Clock(false, false));
    if rest == [] {
      assert got + ([beat] + rest) == got + [beat];
      assert Clocks(l1, 0) == l1;
      n := 1;
    } else {
      n := RestArrives(l1, got + [beat], rest[0], rest[1..]);
      assert got + [beat] + ([rest[0]] + rest[1..]) == got + ([beat] + rest);
      n := n + 1;
    }
  }

  /** What the sink has queued is not a first part of what it should. */
  ghost predicate Wrong(l: Link, before: seq<Frame>, sent: seq<Frame>)
    requires l.bus.Valid() && SendsOnly(sent, l.bus)
  {
    !(l.sink.Sink? && l.sink.queue <= before + Echoes(sent, l.bus))
  }

  /** The link after a reset of the sink, one clock in which it pauses or not, and `n` clocks. */
  function Aftermath(l: Link, pause: bool, n: nat): Link
    requires l.bus.Valid() && SendsOnly(l.source.queue, l.bus)
  {
    var l1 := Step(ResetOfSink(l), Clock(false, pause));
    QueueShrinks(l.source, false, l.bus);
    Clocks(l1, n)
  }

  lemma {:induction false} OtherLength(before: seq<Frame>, sent: seq<Frame>, done: nat, w: seq<Beat>, l: Link)
    requires l.bus.Valid() && SendsOnly(sent, l.bus) && done < |sent| && w != [] && l.sink.Sink?
    requires |w| != |Beats(sent[done], l.bus)|
    requires l.sink.queue == before + Echoes(sent[..done], l.bus) + [Parse(w, l.bus)]
    ensures Wrong(l, before, sent)
  {
    EchoesAt(sent, l.bus);
    EchoesAt(sent[..done], l.bus);
    var i := |before| + done;
    assert l.sink.queue[i] == Parse(w, l.bus) && |Parse(w, l.bus).id.values| == |w|;
    assert (before + Echoes(sent, l.bus))[i] == Echo(sent[done], l.bus);
    assert |Echo(sent[done], l.bus).id.values| == |Beats(sent[done], l.bus)|;
  }

  lemma {:induction false} ClocksBus(l: Link, n: nat)
    requires l.bus.Valid() && SendsOnly(l.source.queue, l.bus)
    ensures Clocks(l, n).bus == l.bus
    decreases n
  {
    if n > 0 {
      QueueShrinks(l.source, l.sink.Sink? && l.sink.ready, l.bus);
      ClocksBus(Step(l, Clock(false, false)), n - 1);
    }
  }

  /** A frame of one beat arrives twice. */
  lemma {:induction false} TwiceArrives(l: Link, before: seq<Frame>, sent: seq<Frame>, done: nat, l1: Link)
    returns (n: nat)
    requires Delivers(l, before, sent) && Linked(before, l.source, l.sink, sent, done, l.bus)
    requires l.source.valid && l.sink.got == [] && l.source.rest == [] && SendsOnly(l.source.queue, l.bus)
    requires l1 == Step(ResetOfSink(l), Clock(false, false)) && SendsOnly(l1.source.queue, l.bus)
    ensures Clocks(l1, n).bus == l.bus && Wrong(Clocks(l1, n), before, sent)
  {
    var s, f := l.source, sent[done];
    assert [] + [s.beat] + [] == [s.beat] == Beats(f, l.bus);
    FrameEndPasses(f, [], [s.beat], l.bus);
    assert [s.beat][0] == s.beat;
    var before' := before + Echoes(sent[..done], l.bus) + [Echo(f, l.bus)];
    var sent' := sent[done..];
    assert [] + [s.beat] == [s.beat];
    assert sent'[0] == f && sent'[1..] == sent[done + 1..];
    assert before' + Echoes(sent'[..0], l.bus) == before';
    assert Linked(before', l1.source, l1.sink, sent', 0, l.bus);
    n := AllArrive(l1, before', sent');
    ClocksBus(l1, n);
    EchoesAt(sent, l.bus);
    EchoesAt(sent[..done], l.bus);
    EchoesAt(sent', l.bus);
  }

  /** The first beats of a frame are lost. */
  lemma {:induction false} StartLost(l: Link, before: seq<Frame>, sent: seq<Frame>, done: nat, l1: Link)
    returns (n: nat)
    requires l.bus.Valid() && SendsOnly(sent, l.bus) && SendsOnly(l.source.queue, l.bus)
    requires Linked(before, l.source, l.sink, sent, done, l.bus) && l.sink.got != []
    requires l1 == Step(ResetOfSink(l), Clock(false, true)) && SendsOnly(l1.source.queue, l.bus)
    ensures Clocks(l1, n).bus == l.bus && Wrong(Clocks(l1, n), before, sent)
  {
    var s := l.source;
    var bs := [s.beat] + s.rest;
    assert l.sink.got + bs == Beats(sent[done], l.bus);
    FrameEndPasses(sent[done], l.sink.got, bs, l.bus);
    n := RestArrives(l1, [], s.beat, s.rest);
    ClocksBus(l1, n);
    assert [] + bs == bs;
    OtherLength(before, sent, done, bs, Clocks(l1, n));
  }

  /** The beat on the bus is taken twice. */
  lemma {:induction false} BeatTwice(l: Link, before: seq<Frame>, sent: seq<Frame>, done: nat, l1: Link)
    returns (n: nat)
    requires l.bus.Valid() && SendsOnly(sent, l.bus) && SendsOnly(l.source.queue, l.bus)
    requires Linked(before, l.source, l.sink, sent, done, l.bus)
    requires l.source.valid && l.sink.got == [] && l.source.rest != []
    requires l1 == Step(ResetOfSink(l), Clock(false, false)) && SendsOnly(l1.source.queue, l.bus)
    ensures Clocks(l1, n).bus == l.bus && Wrong(Clocks(l1, n), before, sent)
  {
    var s := l.source;
    var bs := [s.beat] + s.rest;
    assert l.sink.got + bs == Beats(sent[done], l.bus) && bs == [] + bs;
    FrameEndPasses(sent[done], [], bs, l.bus);
    assert bs[0] == s.beat && !s.beat.last;
    n := RestArrives(l1, [s.beat], s.beat, s.rest);
    ClocksBus(l1, n);
    OtherLength(before, sent, done, [s.beat] + bs, Clocks(l1, n));
  }

  /** Any other reset loses the beats the sink has, or takes the beat on the bus twice: for one choice of
      the sink's pause a frame arrives with a wrong number of beats, or one too many arrives. */
  lemma {:induction false} SinkResetBreaks(l: Link, before: seq<Frame>, sent: seq<Frame>)
    returns (pause: bool, n: nat)
    requires Delivers(l, before, sent) && !SinkMayReset(l)
    ensures SendsOnly(l.source.queue, l.bus)
    ensures Aftermath(l, pause, n).bus == l.bus && Wrong(Aftermath(l, pause, n), before, sent)
  {
    StepDelivers(l, Clock(false, false), before, sent);
    var done: nat :| Linked(before, l.source, l.sink, sent, done, l.bus);
    pause := l.sink.got != [];
    QueueShrinks(l.source, false, l.bus);
    var l1 := Step(ResetOfSink(l), Clock(false, pause));
    if pause {
      n := StartLost(l, before, sent, done, l1);
    } else if l.source.rest != [] {
      n := BeatTwice(l, before, sent, done, l1);
    } else {
      n := TwiceArrives(l, before, sent, done, l1);
    }
  }

  function Boot(bus: Bus): Link {
    Link(Source([], false, false, Beat(0, [], 0, 0, 0, false), []), Sink([], [], false), bus)
  }

  /** One clock after a frame is sent the sink may not be reset. */
  lemma {:induction false} HarmReachable(f: Frame, bus: Bus)
    requires bus.Valid() && Sendable(f, bus)
    ensures SendsOnly([f], bus)
    ensures var l := Step(Step(Boot(bus), Send(f)), Clock(false, false));
            Delivers(l, [], [f]) && !SinkMayReset(l)
  {
    assert Linked([], Boot(bus).source, Boot(bus).sink, [], 0, bus);
    StepDelivers(Boot(bus), Send(f), [], []);
    var l := Step(Boot(bus), Send(f));
    assert [] + [f] == [f];
    StepDelivers(l, Clock(false, false), [], [f]);
    assert [f] + [] == [f];
  }
}
