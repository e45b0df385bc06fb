/** The gaps between frames, as an observer of the lanes measures them, and the deficit idle count
    that bounds them (clause 46.3.1.4 of IEEE Std 802.3). */
module XgmiiGaps {
  import opened Wrappers
  import opened Xgmii

  /** What an observer of the lanes has seen: the gaps between frames so far, each from a terminator,
      included, to the next start; and the length of the gap it is in. */
  datatype Watch = Watch(gaps: seq<nat>, open: Option<nat>)

  function See(w: Watch, lane: Lane): Watch {
    if lane == TermLane then w.(open := Some(1))
    else if lane == StartLane then
      if w.open.Some? then Watch(w.gaps + [w.open.value], None) else w
    else if w.open.Some? then w.(open := Some(w.open.value + 1))
    else w
  }

  function SeeAll(w: Watch, lanes: seq<Lane>): Watch
    decreases |lanes|
  {
    if lanes == [] then w else SeeAll(See(w, lanes[0]), lanes[1..])
  }

  /** The sum of the gaps less `ifg` for each. */
  function Balance(gaps: seq<nat>, ifg: int): int {
    if gaps == [] then 0 else Balance(gaps[..|gaps| - 1], ifg) + (gaps[|gaps| - 1] - ifg)
  }

  function Sum(gaps: seq<nat>): nat {
    if gaps == [] then 0 else Sum(gaps[..|gaps| - 1]) + gaps[|gaps| - 1]
  }

  lemma {:induction false} BalanceIs(gaps: seq<nat>, ifg: int)
    ensures Balance(gaps, ifg) == Sum(gaps) - |gaps| * ifg
  {
    if gaps != [] {
      BalanceIs(gaps[..|gaps| - 1], ifg);
    }
  }

  lemma {:induction false} BalanceAdds(gaps: seq<nat>, g: nat, ifg: int)
    ensures Balance(gaps + [g], ifg) == Balance(gaps, ifg) + (g - ifg)
  {
    assert (gaps + [g])[..|gaps|] == gaps;
  }

  // ----- observing pieces -----

  lemma {:induction false} SeeAppend(w: Watch, a: seq<Lane>, b: seq<Lane>)
    ensures SeeAll(w, a + b) == SeeAll(SeeAll(w, a), b)
    decreases |a|
  {
    if a == [] {
      assert a + b == b;
    } else {
      assert (a + b)[1..] == a[1..] + b;
      SeeAppend(See(w, a[0]), a[1..], b);
    }
  }

  lemma {:induction false} SeenGrows(w: Watch, lanes: seq<Lane>)
    ensures w.gaps <= SeeAll(w, lanes).gaps
    decreases |lanes|
  {
    if lanes != [] {
      SeenGrows(See(w, lanes[0]), lanes[1..]);
    }
  }

  lemma {:induction false} SeeOne(w: Watch, lane: Lane)
    ensures SeeAll(w, [lane]) == See(w, lane)
  {
    assert SeeAll(See(w, lane), []) == See(w, lane);
  }

  function Widened(w: Watch, n: nat): Watch {
    if w.open.Some? then w.(open := Some(w.open.value + n)) else w
  }

  lemma {:induction false} SeeIdles(w: Watch, n: nat)
    ensures SeeAll(w, Idles(n)) == Widened(w, n)
  {
    if n > 0 {
      SeeIdles(w, n - 1);
      SeeAppend(w, Idles(n - 1), [IdleLane]);
      SeeOne(Widened(w, n - 1), IdleLane);
    }
  }

  lemma {:induction false} SeeData(w: Watch, lanes: seq<Lane>)
    requires w.open.None? && forall i | 0 <= i < |lanes| :: !lanes[i].c
    ensures SeeAll(w, lanes) == w
    decreases |lanes|
  {
    if lanes != [] {
      SeeData(w, lanes[1..]);
    }
  }

  /** The watch after a frame that ends the current gap. */
  function Closed(w: Watch): Watch {
    if w.open.Some? then Watch(w.gaps + [w.open.value], Some(1)) else w.(open := Some(1))
  }

  lemma {:induction false} SeeFramed(w: Watch, f: Frame)
    requires f == Clean(f.data) && Sendable(f)
    ensures SeeAll(w, Framed(f)) == Closed(w)
  {
    var body := Build(f)[1..];
    SeeAppend(w, [StartLane], body + [TermLane]);
    assert [StartLane] + (body + [TermLane]) == Framed(f);
    SeeOne(w, StartLane);
    SeeAppend(See(w, StartLane), body, [TermLane]);
    SeeData(See(w, StartLane), body);
    SeeOne(See(w, StartLane), TermLane);
  }

  // ----- the invariant -----

  predicate Pure(frames: seq<Frame>) {
    forall i | 0 <= i < |frames| :: frames[i] == Clean(frames[i].data) && Sendable(frames[i])
  }

  /** The least a gap may be. */
  function Least(s: Source): int { if s.dic then s.ifg - 3 else s.ifg }

  ghost predicate Wide(gaps: seq<nat>, least: int) {
    forall i | 0 <= i < |gaps| :: gaps[i] >= least
  }

  /** What holds of the observer `w` of a source: within a frame, of what it will have seen when the
      frame is over; between frames, together with the part of the gap still due. */
  ghost predicate Owes(s: Source, w: Watch) {
    && s.Valid() && Pure(s.queue)
    && Wide(w.gaps, Least(s)) && Balance(w.gaps, s.ifg) >= -3
    && if s.lanes != [] then
         var end := SeeAll(w, s.lanes);
         && s.ifgCnt == 0 && s.deficit <= 3 && end.open == Some(1) && Wide(end.gaps, Least(s))
         && Balance(end.gaps, s.ifg) + s.deficit >= 0 && |end.gaps| <= |w.gaps| + 1
       else if w.open.None? then s.ifgCnt == 0 && w.gaps == []
       else
         && w.open.value + s.ifgCnt >= s.ifg
         && Balance(w.gaps, s.ifg) + (w.open.value - s.ifg) + s.ifgCnt >= 0
  }

  /** The same without slack. */
  ghost predicate OwesExactly(s: Source, w: Watch) {
    && Owes(s, w) && s.dic && !s.force && s.ifg >= s.bw
    && if s.lanes != [] then Balance(SeeAll(w, s.lanes).gaps, s.ifg) + s.deficit == 0
       else w.open.Some? ==>
              s.ifgCnt >= 0 && Balance(w.gaps, s.ifg) + (w.open.value - s.ifg) + s.ifgCnt == 0
  }

  /** A word of a frame that is not its last. */
  lemma {:induction false} WordSeen(s: Source, w: Watch)
    requires s.lanes != [] && |s.lanes| > s.bw
    ensures SeeAll(SeeAll(w, Padded(s.lanes, s.bw)), Emit(s).lanes) == SeeAll(w, s.lanes)
  {
    SeeAppend(w, s.lanes[..s.bw], s.lanes[s.bw..]);
    assert s.lanes[..s.bw] + s.lanes[s.bw..] == s.lanes;
  }

  /** The last word of a frame: with the idles behind the terminator it begins the gap. */
  lemma {:induction false} LastWordSeen(s: Source, w: Watch)
    requires 0 < |s.lanes| <= s.bw && SeeAll(w, s.lanes).open == Some(1)
    ensures SeeAll(w, Padded(s.lanes, s.bw))
         == SeeAll(w, s.lanes).(open := Some(1 + (s.bw - |s.lanes|)))
  {
    SeeAppend(w, s.lanes, Idles(s.bw - |s.lanes|));
    SeeIdles(SeeAll(w, s.lanes), s.bw - |s.lanes|);
    assert |s.lanes| == s.bw ==> s.lanes[..s.bw] == s.lanes + Idles(0);
  }

  lemma {:induction false} GapsBetween(a: seq<nat>, b: seq<nat>, c: seq<nat>)
    requires a <= b <= c && |c| <= |a| + 1
    ensures b == a || b == c
  {
  }

  lemma {:induction false} EmitOwes(s: Source, w: Watch)
    requires Owes(s, w) && s.lanes != []
    ensures Owes(Emit(s), SeeAll(w, Padded(s.lanes, s.bw)))
    ensures OwesExactly(s, w) ==> OwesExactly(Emit(s), SeeAll(w, Padded(s.lanes, s.bw)))
  {
    if |s.lanes| > s.bw {
      WordSeen(s, w);
      var w' := SeeAll(w, Padded(s.lanes, s.bw));
      SeenGrows(w, Padded(s.lanes, s.bw));
      SeenGrows(w', Emit(s).lanes);
      GapsBetween(w.gaps, w'.gaps, SeeAll(w, s.lanes).gaps);
    } else {
      LastWordSeen(s, w);
    }
  }

  lemma {:induction false} LoadSeen(s: Source, w: Watch, o: nat)
    requires s.queue != [] && Pure(s.queue) && o == if Offset(s) then 4 else 0
    ensures SeeAll(w, Load(s).lanes) == Closed(Widened(w, o))
  {
    var f := s.queue[0];
    SeeFramed(Widened(w, o), f);
    if Offset(s) {
      SeeAppend(w, Idles(4), Framed(f));
      SeeIdles(w, 4);
    }
  }

  lemma {:induction false} LoadOwes(s: Source, w: Watch)
    requires Owes(s, w) && s.lanes == [] && s.queue != [] && !GapDue(s)
    ensures Owes(Load(s), w)
  {
    var o := if Offset(s) then 4 else 0;
    LoadSeen(s, w, o);
    assert Pure(s.queue[1..]);
    if w.open.Some? {
      BalanceAdds(w.gaps, w.open.value + o, s.ifg);
    }
  }

  lemma {:induction false} LoadOwesExactly(s: Source, w: Watch)
    requires OwesExactly(s, w) && s.lanes == [] && s.queue != [] && !GapDue(s)
    ensures OwesExactly(Load(s), w)
  {
    var o := if Offset(s) then 4 else 0;
    LoadOwes(s, w);
    LoadSeen(s, w, o);
    if w.open.Some? {
      BalanceAdds(w.gaps, w.open.value + o, s.ifg);
    }
  }

  /** Any clock; without slack as long as the source does not run out of frames within a gap. */
  lemma {:induction false} ClockOwes(s: Source, w: Watch)
    requires Owes(s, w)
    ensures var t := SourceClock(s);
            && Owes(t.source, SeeAll(w, t.word))
            && (OwesExactly(s, w) && (GapDue(s) || s.lanes != [] || s.queue != [] || w.open.None?) ==>
                  OwesExactly(t.source, SeeAll(w, t.word)))
  {
    if GapDue(s) {
      SeeIdles(w, s.bw);
    } else if s.lanes != [] {
      EmitOwes(s, w);
    } else if s.queue != [] {
      LoadOwes(s, w);
      if OwesExactly(s, w) {
        LoadOwesExactly(s, w);
      }
      EmitOwes(Load(s), w);
    } else {
      SeeIdles(w, s.bw);
    }
  }

  // ----- whole runs -----

  datatype Watched = Watched(source: Source, watch: Watch)

  predicate PureEvents(events: seq<Event>) {
    forall i | 0 <= i < |events| && events[i].Send? ::
      events[i].frame == Clean(events[i].frame.data) && Sendable(events[i].frame)
  }

  function Step(x: Watched, e: Event): Watched
    requires x.source.Valid()
  {
    match e
    case Send(f) => x.(source := x.source.(queue := x.source.queue + [f]))
    case Clock => var t := SourceClock(x.source); Watched(t.source, SeeAll(x.watch, t.word))
  }

  lemma {:induction false} StepOwes(x: Watched, e: Event)
    requires Owes(x.source, x.watch)
    requires e.Send? ==> e.frame == Clean(e.frame.data) && Sendable(e.frame)
    ensures Owes(Step(x, e).source, Step(x, e).watch)
    ensures Step(x, e).source.ifg == x.source.ifg && Step(x, e).source.dic == x.source.dic
  {
    if e.Clock? {
      ClockOwes(x.source, x.watch);
    }
  }

  ghost function After(x: Watched, events: seq<Event>): Watched
    requires Owes(x.source, x.watch) && PureEvents(events)
    decreases |events|
  {
    if events == [] then x
    else
      StepOwes(x, events[0]);
      After(Step(x, events[0]), events[1..])
  }

  function Boot(bw: nat, ifg: int, dic: bool, force: bool): Watched {
    Watched(Source(bw, ifg, dic, force, [], [], 0, 0), Watch([], None))
  }

  lemma {:induction false} BootOwes(bw: nat, ifg: int, dic: bool, force: bool)
    requires bw == 4 || bw == 8
    ensures Owes(Boot(bw, ifg, dic, force).source, Boot(bw, ifg, dic, force).watch)
  {
  }

  lemma {:induction false} RunOwes(x: Watched, events: seq<Event>)
    requires Owes(x.source, x.watch) && PureEvents(events)
    ensures var x' := After(x, events);
            && Owes(x'.source, x'.watch) && x'.source.ifg == x.source.ifg && x'.source.dic == x.source.dic
    decreases |events|
  {
    if events != [] {
      StepOwes(x, events[0]);
      RunOwes(Step(x, events[0]), events[1..]);
    }
  }

  /** In every run from reset, whatever is sent when: every complete gap is at least ifg - 3, and all
      together they are at least ifg for each less 3; without the deficit count none is below ifg. */
  lemma {:induction false} GapsBounded(bw: nat, ifg: int, dic: bool, force: bool, events: seq<Event>)
    requires (bw == 4 || bw == 8) && PureEvents(events)
    ensures Owes(Boot(bw, ifg, dic, force).source, Boot(bw, ifg, dic, force).watch)
    ensures var gaps := After(Boot(bw, ifg, dic, force), events).watch.gaps;
            && Wide(gaps, if dic then ifg - 3 else ifg)
            && Sum(gaps) >= |gaps| * ifg - 3
  {
    BootOwes(bw, ifg, dic, force);
    RunOwes(Boot(bw, ifg, dic, force), events);
    BalanceIs(After(Boot(bw, ifg, dic, force), events).watch.gaps, ifg);
  }

  // ----- back-to-back frames -----

  /** At every clock at which a gap is over the source has a frame to send. */
  predicate HasFrame(x: Watched) {
    GapDue(x.source) || x.source.lanes != [] || x.source.queue != [] || x.watch.open.None?
  }

  /** So it is throughout a run, whenever the frames are sent. */
  ghost predicate Busy(x: Watched, events: seq<Event>)
    requires Owes(x.source, x.watch) && PureEvents(events)
    decreases |events|
  {
    events == [] || (
      StepOwes(x, events[0]);
      (events[0].Clock? ==> HasFrame(x)) && Busy(Step(x, events[0]), events[1..]))
  }

  lemma {:induction false} StepOwesExactly(x: Watched, e: Event)
    requires OwesExactly(x.source, x.watch) && (e.Clock? ==> HasFrame(x))
    requires e.Send? ==> e.frame == Clean(e.frame.data) && Sendable(e.frame)
    ensures OwesExactly(Step(x, e).source, Step(x, e).watch)
  {
    StepOwes(x, e);
    if e.Clock? {
      ClockOwes(x.source, x.watch);
    }
  }

  lemma {:induction false} RunOwesExactly(x: Watched, events: seq<Event>)
    requires OwesExactly(x.source, x.watch) && PureEvents(events) && Busy(x, events)
    ensures OwesExactly(After(x, events).source, After(x, events).watch)
    decreases |events|
  {
    if events != [] {
      StepOwes(x, events[0]);
      StepOwesExactly(x, events[0]);
      RunOwesExactly(Step(x, events[0]), events[1..]);
    }
  }

  /** With the deficit count on and a gap at least as wide as the bus, frames back to back, from reset,
      leave gaps that sum up to ifg for each, less the deficit carried into the frame now being sent;
      the gap before that one is counted. */
  lemma {:induction false} GapsExact(bw: nat, ifg: int, events: seq<Event>)
    requires (bw == 4 || bw == 8) && ifg >= bw && PureEvents(events)
    requires Owes(Boot(bw, ifg, true, false).source, Boot(bw, ifg, true, false).watch)
    requires Busy(Boot(bw, ifg, true, false), events)
    ensures var x := After(Boot(bw, ifg, true, false), events);
            x.source.lanes != [] ==>
              var gaps := SeeAll(x.watch, x.source.lanes).gaps;
              Sum(gaps) == |gaps| * ifg - x.source.deficit && x.source.deficit <= 3
  {
    RunOwes(Boot(bw, ifg, true, false), events);
    RunOwesExactly(Boot(bw, ifg, true, false), events);
    BalanceIs(SeeAll(After(Boot(bw, ifg, true, false), events).watch,
                     After(Boot(bw, ifg, true, false), events).source.lanes).gaps, ifg);
  }
}
