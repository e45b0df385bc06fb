/** Completer requests on their way from the PCIe link to the user logic.  Non-posted requests need a
    credit; those without one wait in a queue of their own. */
module CompleterQueue {

  const MAX_CREDITS := 32

  /** A request, stamped with its place in the order of arrival. */
  datatype Tlp = Tlp(nonPosted: bool, stamp: nat)

  /** The requests that arrived are the `taken` ones, which with `sent` are the history, and those in
      `cq`; the other fields are those of the code. */
  datatype State = State(credits: nat, cq: seq<Tlp>, np: seq<Tlp>, sent: seq<Tlp>, taken: seq<Tlp>)
  {
    function Arrivals(): seq<Tlp> { taken + cq }
  }

  const Initial := State(0, [], [], [], [])

  datatype Event = Arrive(nonPosted: bool) | Clock(reset: bool, npReq: bool)

  function Arrived(s: State, nonPosted: bool): State {
    s.(cq := s.cq + [Tlp(nonPosted, |s.taken| + |s.cq|)])
  }

  function Credited(s: State, reset: bool, npReq: bool): State {
    if reset then s.(credits := 0)
    else if npReq && s.credits < MAX_CREDITS then s.(credits := s.credits + 1)
    else s
  }

  function SendQueued(s: State): State
    requires s.np != [] && s.credits > 0
  {
    s.(np := s.np[1..], credits := s.credits - 1, sent := s.sent + [s.np[0]])
  }

  function TakeNew(s: State): State
    requires s.cq != []
  {
    var tlp, s' := s.cq[0], s.(cq := s.cq[1..], taken := s.taken + [s.cq[0]]);
    if tlp.nonPosted then
      if s.credits > 0 then s'.(credits := s.credits - 1, sent := s.sent + [tlp])
      else s'.(np := s.np + [tlp])
    else s'.(sent := s.sent + [tlp])
  }

  /** The first loop of a clock, and then the second. */
  function Forwarded(s: State): State
    decreases |s.np| + 2 * |s.cq|, if s.np != [] && s.credits > 0 then 0 else 1
  {
    if s.np != [] && s.credits > 0 then Forwarded(SendQueued(s))
    else Absorbed(s)
  }

  function Absorbed(s: State): State
    decreases |s.np| + 2 * |s.cq|, 0
  {
    if s.cq == [] then s else Absorbed(TakeNew(s))
  }

  function Step(s: State, e: Event): State {
    match e
    case Arrive(nonPosted) => Arrived(s, nonPosted)
    case Clock(reset, npReq) => Forwarded(Credited(s, reset, npReq))
  }

  function After(s: State, events: seq<Event>): State
    decreases |events|
  {
    if events == [] then s else After(Step(s, events[0]), events[1..])
  }

  // ----- the invariant -----

  /** The requests of one kind, in order. */
  function Kind(tlps: seq<Tlp>, nonPosted: bool): seq<Tlp> {
    if tlps == [] then []
    else Kind(tlps[..|tlps| - 1], nonPosted)
         + if tlps[|tlps| - 1].nonPosted == nonPosted then [tlps[|tlps| - 1]] else []
  }

  predicate Stamped(tlps: seq<Tlp>) {
    forall i | 0 <= i < |tlps| :: tlps[i].stamp == i
  }

  /** Nothing is sent before a posted request that arrived earlier. */
  predicate NothingPasses(sent: seq<Tlp>) {
    forall i, j | 0 <= i < j < |sent| && !sent[j].nonPosted :: sent[i].stamp < sent[j].stamp
  }

  /** Each kind of request taken is sent, or waits, in order. */
  ghost predicate KindsKept(s: State) {
    && Kind(s.sent, false) == Kind(s.taken, false)
    && Kind(s.sent, true) + s.np == Kind(s.taken, true)
  }

  ghost predicate InOrder(s: State) {
    && Stamped(s.Arrivals())
    && (forall t | t in s.sent :: t.stamp < |s.taken|)
    && NothingPasses(s.sent)
  }

  ghost predicate Inv(s: State) {
    s.credits <= MAX_CREDITS && KindsKept(s) && InOrder(s)
  }

  lemma {:induction false} KindAdds(tlps: seq<Tlp>, tlp: Tlp, nonPosted: bool)
    ensures Kind(tlps + [tlp], nonPosted)
         == Kind(tlps, nonPosted) + if tlp.nonPosted == nonPosted then [tlp] else []
  {
    assert (tlps + [tlp])[..|tlps|] == tlps;
  }

  lemma {:induction false} InKind(tlps: seq<Tlp>, nonPosted: bool)
    ensures forall t | t in Kind(tlps, nonPosted) :: t.nonPosted == nonPosted && t in tlps
  {
    if tlps != [] {
      InKind(tlps[..|tlps| - 1], nonPosted);
    }
  }

  lemma {:induction false} ArriveKeeps(s: State, nonPosted: bool)
    requires Inv(s)
    ensures Inv(Arrived(s, nonPosted))
  {
    var s' := Arrived(s, nonPosted);
    assert s'.Arrivals() == s.Arrivals() + [Tlp(nonPosted, |s.Arrivals()|)];
  }

  lemma {:induction false} CreditKeeps(s: State, reset: bool, npReq: bool)
    requires Inv(s)
    ensures Inv(Credited(s, reset, npReq))
  {
  }

  /** A request that waits was taken, and is non-posted. */
  lemma {:induction false} Waiting(s: State, tlp: Tlp)
    requires KindsKept(s) && Stamped(s.Arrivals()) && tlp in s.np
    ensures tlp.nonPosted && tlp.stamp < |s.taken|
  {
    InKind(s.taken, true);
    assert tlp in Kind(s.sent, true) + s.np;
    var i :| 0 <= i < |s.taken| && s.taken[i] == tlp;
    assert s.Arrivals()[i] == tlp;
  }

  /** What the credits counted so far are worth: those used up and those left. */
  function Worth(s: State): nat { |Kind(s.sent, true)| + s.credits }

  /** Forwarding uses credits up and lets no request vanish. */
  ghost predicate Forwards(s: State, s': State) {
    Worth(s') == Worth(s) && s'.Arrivals() == s.Arrivals() && s.sent <= s'.sent
  }

  lemma {:induction false} SendQueuedKeeps(s: State)
    requires Inv(s) && s.np != [] && s.credits > 0
    ensures Inv(SendQueued(s)) && Forwards(s, SendQueued(s))
  {
    SendQueuedInv(s);
    KindAdds(s.sent, s.np[0], true);
    assert s.np[0].nonPosted by {
      Waiting(s, s.np[0]);
    }
  }

  lemma {:induction false} SendQueuedInv(s: State)
    requires Inv(s) && s.np != [] && s.credits > 0
    ensures Inv(SendQueued(s))
  {
    var s' := SendQueued(s);
    Waiting(s, s.np[0]);
    KindAdds(s.sent, s.np[0], true);
    KindAdds(s.sent, s.np[0], false);
    assert Kind(s.sent, true) + s.np == Kind(s'.sent, true) + s'.np;
  }

  lemma {:induction false} TakeNewKinds(s: State)
    requires KindsKept(s) && s.cq != [] && (s.credits > 0 ==> s.np == [])
    ensures KindsKept(TakeNew(s))
  {
    var tlp := s.cq[0];
    KindAdds(s.taken, tlp, true);
    KindAdds(s.taken, tlp, false);
    KindAdds(s.sent, tlp, true);
    KindAdds(s.sent, tlp, false);
    Grouped(Kind(s.sent, true), s.np, tlp);
    Grouped(Kind(s.taken, false), [], tlp);
  }

  lemma {:induction false} Grouped(a: seq<Tlp>, b: seq<Tlp>, t: Tlp)
    ensures a + b + [t] == a + (b + [t]) && (b == [] ==> a + [t] + b == a + [t]) && a + b + [] == a + b
    ensures a + [] == a
  {
  }

  lemma {:induction false} TakeNewOrder(s: State)
    requires InOrder(s) && s.cq != []
    ensures InOrder(TakeNew(s))
  {
    var tlp, s' := s.cq[0], TakeNew(s);
    assert s.Arrivals()[|s.taken|] == tlp;
    assert s'.Arrivals() == s.Arrivals();
  }

  lemma {:induction false} TakeNewKeeps(s: State)
    requires Inv(s) && s.cq != [] && (s.credits > 0 ==> s.np == [])
    ensures Inv(TakeNew(s)) && (TakeNew(s).credits > 0 ==> TakeNew(s).np == []) && Forwards(s, TakeNew(s))
  {
    TakeNewKinds(s);
    TakeNewOrder(s);
    TakeNewForwards(s);
  }

  lemma {:induction false} TakeNewForwards(s: State)
    requires s.cq != []
    ensures Forwards(s, TakeNew(s))
  {
    KindAdds(s.sent, s.cq[0], true);
    assert TakeNew(s).Arrivals() == s.Arrivals();
  }

  lemma {:induction false} ForwardKeeps(s: State)
    requires Inv(s)
    ensures Inv(Forwarded(s)) && Forwarded(s).cq == [] && Forwards(s, Forwarded(s))
    ensures Forwarded(s).credits > 0 ==> Forwarded(s).np == []
    decreases |s.np|
  {
    if s.np != [] && s.credits > 0 {
      SendQueuedKeeps(s);
      ForwardKeeps(SendQueued(s));
    } else {
      AbsorbKeeps(s);
    }
  }

  lemma {:induction false} AbsorbKeeps(s: State)
    requires Inv(s) && (s.credits > 0 ==> s.np == [])
    ensures Inv(Absorbed(s)) && Absorbed(s).cq == [] && Forwards(s, Absorbed(s))
    ensures Absorbed(s).credits > 0 ==> Absorbed(s).np == []
    decreases |s.cq|
  {
    if s.cq != [] {
      TakeNewKeeps(s);
      AbsorbKeeps(TakeNew(s));
    }
  }

  lemma {:induction false} StepKeeps(s: State, e: Event)
    requires Inv(s)
    ensures Inv(Step(s, e))
  {
    match e
    case Arrive(nonPosted) => ArriveKeeps(s, nonPosted);
    case Clock(reset, npReq) =>
      CreditKeeps(s, reset, npReq);
      ForwardKeeps(Credited(s, reset, npReq));
  }

  lemma {:induction false} RunKeeps(s: State, events: seq<Event>)
    requires Inv(s)
    ensures Inv(After(s, events))
    decreases |events|
  {
    if events != [] {
      StepKeeps(s, events[0]);
      RunKeeps(Step(s, events[0]), events[1..]);
    }
  }

  /** In every run: the credits stay within 0..32; of each kind the requests sent are, in order and each
      once, a first part of those that arrived; the rest still waits; and none was sent before a posted
      request that arrived earlier. */
  lemma {:induction false} Ordered(events: seq<Event>)
    ensures var s := After(Initial, events);
            && s.credits <= MAX_CREDITS
            && Kind(s.sent, false) + Kind(s.cq, false) == Kind(s.Arrivals(), false)
            && Kind(s.sent, true) + s.np + Kind(s.cq, true) == Kind(s.Arrivals(), true)
            && Stamped(s.Arrivals()) && NothingPasses(s.sent)
  {
    RunKeeps(Initial, events);
    Split(After(Initial, events));
  }

  lemma {:induction false} Split(s: State)
    requires Inv(s)
    ensures Kind(s.sent, false) + Kind(s.cq, false) == Kind(s.Arrivals(), false)
    ensures Kind(s.sent, true) + s.np + Kind(s.cq, true) == Kind(s.Arrivals(), true)
  {
    KindSplits(s.taken, s.cq, false);
    KindSplits(s.taken, s.cq, true);
  }

  // ----- what a clock sends -----

  function Min(a: int, b: int): int { if a < b then a else b }

  /** The non-posted requests that have arrived and are not sent, oldest first. */
  function Waiters(s: State): seq<Tlp> { s.np + Kind(s.cq, true) }

  /** The credits there are in a clock: 32 at most, and none in reset. */
  function Budget(credits: nat, reset: bool, npReq: bool): int {
    if reset then 0 else Min(32, credits + if npReq then 1 else 0)
  }

  lemma {:induction false} PrefixIs<T>(a: seq<T>, b: seq<T>, a': seq<T>, rest: seq<T>, n: nat)
    requires a + b == a' + rest && n <= |b| && |a'| == |a| + n
    ensures a' == a + b[..n] && rest == b[n..]
  {
    assert a' == (a' + rest)[..|a'|] && rest == (a' + rest)[|a'|..];
    assert a + b[..n] == (a + b)[..|a| + n] && b[n..] == (a + b)[|a| + n..];
  }

  lemma {:induction false} SplitWaiters(s: State)
    requires Inv(s)
    ensures Kind(s.sent, true) + Waiters(s) == Kind(s.Arrivals(), true)
  {
    Split(s);
    assert Kind(s.sent, true) + s.np + Kind(s.cq, true) == Kind(s.sent, true) + Waiters(s);
  }

  lemma {:induction false} SplitEmpty(s: State)
    requires Inv(s) && s.cq == []
    ensures Kind(s.sent, true) + s.np == Kind(s.Arrivals(), true)
    ensures Kind(s.sent, false) == Kind(s.Arrivals(), false)
  {
    SplitWaiters(s);
    Split(s);
    assert s.np + [] == s.np && Kind(s.sent, false) + [] == Kind(s.sent, false);
  }

  lemma {:induction false} ClockSplits(s: State, reset: bool, npReq: bool, s': State)
    requires Inv(s) && s' == Step(s, Clock(reset, npReq))
    ensures Inv(s') && s'.cq == [] && (s'.credits > 0 ==> s'.np == []) && s'.Arrivals() == s.Arrivals()
    ensures s.sent <= s'.sent
    ensures |Kind(s'.sent, true)| + s'.credits == |Kind(s.sent, true)| + Budget(s.credits, reset, npReq)
  {
    CreditKeeps(s, reset, npReq);
    CreditGives(s, Credited(s, reset, npReq), reset, npReq);
    ForwardSplits(Credited(s, reset, npReq), s');
  }

  lemma {:induction false} CreditGives(s: State, s1: State, reset: bool, npReq: bool)
    requires s.credits <= MAX_CREDITS && s1 == Credited(s, reset, npReq)
    ensures s1.sent == s.sent && s1.Arrivals() == s.Arrivals() && s1.credits == Budget(s.credits, reset, npReq)
  {
  }

  lemma {:induction false} ForwardSplits(s: State, s': State)
    requires Inv(s) && s' == Forwarded(s)
    ensures Inv(s') && s'.cq == [] && (s'.credits > 0 ==> s'.np == []) && s'.Arrivals() == s.Arrivals()
    ensures s.sent <= s'.sent
    ensures |Kind(s'.sent, true)| + s'.credits == |Kind(s.sent, true)| + s.credits
  {
    ForwardKeeps(s);
  }

  /** In every run a clock sends all posted requests and as many of the non-posted ones, oldest first, as
      there are credits: those left over, at most 32 with the one that npReq gives, and none in reset. */
  lemma {:induction false} ClockSends(events: seq<Event>, reset: bool, npReq: bool)
    ensures var s, s' := After(Initial, events), After(Initial, events + [Clock(reset, npReq)]);
            var n := Min(|Waiters(s)|, Budget(s.credits, reset, npReq));
            && s.sent <= s'.sent && Kind(s'.sent, false) == Kind(s.sent, false) + Kind(s.cq, false)
            && Kind(s'.sent, true) == Kind(s.sent, true) + Waiters(s)[..n]
            && s'.credits == Budget(s.credits, reset, npReq) - n && s'.cq == [] && s'.np == Waiters(s)[n..]
  {
    var s, s' := After(Initial, events), After(Initial, events + [Clock(reset, npReq)]);
    RunKeeps(Initial, events);
    AfterOne(Initial, events, Clock(reset, npReq));
    ClockSplits(s, reset, npReq, s');
    Split(s);
    SplitWaiters(s);
    SplitEmpty(s');
    var n := Min(|Waiters(s)|, Budget(s.credits, reset, npReq));
    PrefixIs(Kind(s.sent, true), Waiters(s), Kind(s'.sent, true), s'.np, n);
  }

  /** The credits a run was given: the clocks with npReq and without reset. */
  function Requests(events: seq<Event>): nat {
    if events == [] then 0
    else Requests(events[..|events| - 1])
         + if events[|events| - 1].Clock? && events[|events| - 1].npReq && !events[|events| - 1].reset then 1 else 0
  }

  /** No non-posted request is sent without a credit of its own. */
  lemma {:induction false} CreditsCover(events: seq<Event>)
    ensures var s := After(Initial, events); |Kind(s.sent, true)| + s.credits <= Requests(events)
  {
    if events != [] {
      var n := |events| - 1;
      CreditsCover(events[..n]);
      assert events == events[..n] + [events[n]];
      match events[n] {
        case Arrive(_) => AfterOne(Initial, events[..n], events[n]);
        case Clock(reset, npReq) => ClockSends(events[..n], reset, npReq);
      }
    }
  }

  lemma {:induction false} KindSplits(a: seq<Tlp>, b: seq<Tlp>, nonPosted: bool)
    ensures Kind(a + b, nonPosted) == Kind(a, nonPosted) + Kind(b, nonPosted)
    decreases |b|
  {
    if b == [] {
      assert a + b == a;
    } else {
      var b' := b[..|b| - 1];
      KindSplits(a, b', nonPosted);
      assert (a + b)[..|a + b| - 1] == a + b';
    }
  }

  lemma {:induction false} AfterOne(s: State, events: seq<Event>, e: Event)
    ensures After(s, events + [e]) == Step(After(s, events), e)
    decreases |events|
  {
    if events == [] {
      assert ([] + [e])[1..] == [];
      assert After(s, [] + [e]) == After(Step(s, e), []);
    } else {
      assert (events + [e])[1..] == events[1..] + [e];
      AfterOne(Step(s, events[0]), events[1..], e);
    }
  }

  // ----- the object -----

  class Completer {
    var cqNpReqCount: nat
    var cqQueue: seq<Tlp>
    var cqNpQueue: seq<Tlp>
    /** What cq_source was given to send. */
    var sent: seq<Tlp>
    ghost var taken: seq<Tlp>

    ghost function Abstract(): State
      reads this
    {
      State(cqNpReqCount, cqQueue, cqNpQueue, sent, taken)
    }

    constructor ()
      ensures Abstract() == Initial
    {
      cqNpReqCount, cqQueue, cqNpQueue, sent := 0, [], [], [];
      taken := [];
    }

    method Receive(tlp: Tlp)
      requires tlp.stamp == |taken| + |cqQueue|
      modifies this
      ensures Abstract() == Step(old(Abstract()), Arrive(tlp.nonPosted))
    {
      cqQueue := cqQueue + [tlp];
    }

    /** One clock of the completer-request logic. */
    method OnClock(reset: bool, npReq: bool)
      modifies this
      ensures Abstract() == Step(old(Abstract()), Clock(reset, npReq))
    {
      if reset {
        cqNpReqCount := 0;
      } else if npReq {
        if cqNpReqCount < MAX_CREDITS {
          cqNpReqCount := cqNpReqCount + 1;
        }
      }
      while cqNpQueue != [] && cqNpReqCount > 0
        invariant Forwarded(Abstract()) == Step(old(Abstract()), Clock(reset, npReq))
        decreases |cqNpQueue|
      {
        var tlp := cqNpQueue[0];
        cqNpQueue := cqNpQueue[1..];
        cqNpReqCount := cqNpReqCount - 1;
        sent := sent + [tlp];
      }
      while cqQueue != []
        invariant Absorbed(Abstract()) == Step(old(Abstract()), Clock(reset, npReq))
        decreases |cqQueue|
      {
        var tlp := cqQueue[0];
        cqQueue := cqQueue[1..];
        taken := taken + [tlp];
        if tlp.nonPosted {
          if cqNpReqCount > 0 {
            cqNpReqCount := cqNpReqCount - 1;
            sent := sent + [tlp];
          } else {
            cqNpQueue := cqNpQueue + [tlp];
          }
        } else {
          sent := sent + [tlp];
        }
      }
    }
  }
}
