/** A read port of the DMA RAM: a pipeline of `latency` stages before the response register, which
    stalls when the response is not taken. */
module ReadPipeline {
  import opened Wrappers

  /** Stage 0 takes new values; the last stage feeds the response register `out`. */
  datatype Pipe<T> = Pipe(stages: seq<Option<T>>, out: Option<T>)

  /** What a clock edge sees: whether the response is taken, a command is offered, and the port is
      paused; and the word the command would read. */
  datatype Edge<T> = Edge(respReady: bool, cmdValid: bool, pause: bool, word: T)

  predicate HasRoom<T>(p: Pipe<T>) {
    p.out.None? || exists i | 0 <= i < |p.stages| :: p.stages[i].None?
  }

  predicate CmdReady<T>(p: Pipe<T>, respReady: bool, pause: bool) {
    (respReady || HasRoom(p)) && !pause
  }

  predicate Accepts<T>(p: Pipe<T>, e: Edge<T>) { e.cmdValid && CmdReady(p, e.respReady, e.pause) }

  predicate Delivers<T>(p: Pipe<T>, e: Edge<T>) { e.respReady && p.out.Some? }

  /** The response register takes the last stage if it is free or read out. */
  function Emit<T>(p: Pipe<T>, respReady: bool): (p': Pipe<T>)
    requires p.stages != []
    ensures |p'.stages| == |p.stages|
  {
    var last := |p.stages| - 1;
    if respReady || p.out.None? then Pipe(p.stages[last := None], p.stages[last]) else p
  }

  /** Each free stage up to `i`, from `i` down, takes the one before it. */
  function Shift<T>(stages: seq<Option<T>>, i: nat): (stages': seq<Option<T>>)
    requires i < |stages|
    ensures |stages'| == |stages|
    decreases i
  {
    if i == 0 then stages
    else if stages[i].None? then Shift(stages[i := stages[i - 1]][i - 1 := None], i - 1)
    else Shift(stages, i - 1)
  }

  function OnEdge<T>(p: Pipe<T>, e: Edge<T>): (p': Pipe<T>)
    requires p.stages != []
    ensures |p'.stages| == |p.stages|
  {
    var emitted := Emit(p, e.respReady);
    var shifted := Shift(emitted.stages, |emitted.stages| - 1);
    Pipe(if Accepts(p, e) then shifted[0 := Some(e.word)] else shifted, emitted.out)
  }

  // ----- nothing is lost, doubled or reordered -----

  function Items<T>(o: Option<T>): seq<T> { if o.Some? then [o.value] else [] }

  /** The values in the first `n` stages, oldest first. */
  function Held<T>(stages: seq<Option<T>>, n: nat): seq<T>
    requires n <= |stages|
  {
    if n == 0 then [] else Items(stages[n - 1]) + Held(stages, n - 1)
  }

  function InFlight<T>(p: Pipe<T>): seq<T> { Items(p.out) + Held(p.stages, |p.stages|) }

  lemma {:induction false} HeldSame<T>(s: seq<Option<T>>, t: seq<Option<T>>, n: nat)
    requires n <= |s| && n <= |t| && s[..n] == t[..n]
    ensures Held(s, n) == Held(t, n)
  {
    if n > 0 {
      assert s[n - 1] == s[..n][n - 1] == t[..n][n - 1] == t[n - 1];
      assert s[..n - 1] == s[..n][..n - 1] == t[..n][..n - 1] == t[..n - 1];
      HeldSame(s, t, n - 1);
    }
  }

  /** A step into a free stage keeps what the stages hold. */
  lemma {:induction false} HeldMoves<T>(s: seq<Option<T>>, i: nat)
    requires 0 < i < |s| && s[i].None?
    ensures Held(s[i := s[i - 1]][i - 1 := None], i + 1) == Held(s, i + 1)
  {
    var t := s[i := s[i - 1]][i - 1 := None];
    HeldSame(t, s, i - 1);
    assert Held(t, i) == Held(t, i - 1);
    assert Held(s, i) == Items(s[i - 1]) + Held(s, i - 1);
  }

  lemma {:induction false} ShiftAbove<T>(s: seq<Option<T>>, i: nat, k: nat)
    requires i < k < |s|
    ensures Shift(s, i)[k] == s[k]
    decreases i
  {
    if i > 0 {
      ShiftAbove(if s[i].None? then s[i := s[i - 1]][i - 1 := None] else s, i - 1, k);
    }
  }

  lemma {:induction false} ShiftKeeps<T>(s: seq<Option<T>>, i: nat)
    requires i < |s|
    ensures Held(Shift(s, i), i + 1) == Held(s, i + 1)
    decreases i
  {
    if i > 0 {
      var t := if s[i].None? then s[i := s[i - 1]][i - 1 := None] else s;
      if s[i].None? {
        HeldMoves(s, i);
      }
      ShiftKeeps(t, i - 1);
      ShiftAbove(t, i - 1, i);
      assert Held(Shift(t, i - 1), i + 1) == Items(t[i]) + Held(t, i);
    }
  }

  /** A free stage anywhere frees stage 0. */
  lemma {:induction false} ShiftFrees<T>(s: seq<Option<T>>, i: nat, k: nat)
    requires k <= i < |s| && s[k].None?
    ensures Shift(s, i)[0].None?
    decreases i
  {
    if i > 0 {
      if s[i].None? {
        ShiftFrees(s[i := s[i - 1]][i - 1 := None], i - 1, i - 1);
      } else {
        ShiftFrees(s, i - 1, k);
      }
    }
  }

  lemma {:induction false} HeldRest<T>(s: seq<Option<T>>, n: nat)
    requires 0 < n <= |s|
    ensures Held(s[n - 1 := None], n) == Held(s, n - 1)
  {
    HeldSame(s[n - 1 := None], s, n - 1);
  }

  lemma {:induction false} HeldFirst<T>(s: seq<Option<T>>, n: nat, v: T)
    requires 0 < n <= |s| && s[0].None?
    ensures Held(s[0 := Some(v)], n) == Held(s, n) + [v]
  {
    if n > 1 {
      HeldFirst(s, n - 1, v);
    }
  }

  /** An accepted command never meets an occupied stage 0. */
  lemma {:induction false} NeverOverwrites<T>(p: Pipe<T>, e: Edge<T>)
    requires p.stages != [] && Accepts(p, e)
    ensures Shift(Emit(p, e.respReady).stages, |p.stages| - 1)[0].None?
  {
    var stages, last := Emit(p, e.respReady).stages, |p.stages| - 1;
    if e.respReady || p.out.None? {
      ShiftFrees(stages, last, last);
    } else {
      var k :| 0 <= k < |p.stages| && p.stages[k].None?;
      ShiftFrees(stages, last, k);
    }
  }

  lemma {:induction false} StagesKeep<T>(p: Pipe<T>, e: Edge<T>)
    requires p.stages != []
    ensures Held(OnEdge(p, e).stages, |p.stages|)
         == Held(Emit(p, e.respReady).stages, |p.stages|) + (if Accepts(p, e) then [e.word] else [])
  {
    var n, stages := |p.stages|, Emit(p, e.respReady).stages;
    ShiftKeeps(stages, n - 1);
    if Accepts(p, e) {
      NeverOverwrites(p, e);
      HeldFirst(Shift(stages, n - 1), n, e.word);
    }
  }

  /** One edge takes the delivered value from the front and puts the accepted one behind the rest. */
  lemma {:induction false} EdgeKeeps<T>(p: Pipe<T>, e: Edge<T>)
    requires p.stages != []
    ensures (if Delivers(p, e) then [p.out.value] else []) + InFlight(OnEdge(p, e))
         == InFlight(p) + (if Accepts(p, e) then [e.word] else [])
  {
    var emitted := Emit(p, e.respReady);
    EmitKeeps(p, e.respReady);
    StagesKeep(p, e);
    Appended(if e.respReady then Items(p.out) else [], Items(emitted.out), Held(emitted.stages, |p.stages|),
             if Accepts(p, e) then [e.word] else []);
  }

  lemma {:induction false} Appended<T>(a: seq<T>, b: seq<T>, c: seq<T>, d: seq<T>)
    ensures a + (b + (c + d)) == (a + (b + c)) + d
  {
  }

  lemma {:induction false} EmitKeeps<T>(p: Pipe<T>, respReady: bool)
    requires p.stages != []
    ensures (if respReady then Items(p.out) else []) + InFlight(Emit(p, respReady)) == InFlight(p)
  {
    if respReady || p.out.None? {
      HeldRest(p.stages, |p.stages|);
    }
  }

  // ----- whole runs -----

  function After<T>(p: Pipe<T>, edges: seq<Edge<T>>): (p': Pipe<T>)
    requires p.stages != []
    ensures |p'.stages| == |p.stages|
    decreases |edges|
  {
    if edges == [] then p else After(OnEdge(p, edges[0]), edges[1..])
  }

  function Accepted<T>(p: Pipe<T>, edges: seq<Edge<T>>): seq<T>
    requires p.stages != []
    decreases |edges|
  {
    if edges == [] then []
    else (if Accepts(p, edges[0]) then [edges[0].word] else [])
         + Accepted(OnEdge(p, edges[0]), edges[1..])
  }

  function Delivered<T>(p: Pipe<T>, edges: seq<Edge<T>>): seq<T>
    requires p.stages != []
    decreases |edges|
  {
    if edges == [] then []
    else (if Delivers(p, edges[0]) then [p.out.value] else [])
         + Delivered(OnEdge(p, edges[0]), edges[1..])
  }

  /** For every latency and every pattern of stalls and pauses: the delivered values, then those in
      flight, are those in flight before and then those read for accepted commands. */
  lemma {:induction false} RunKeeps<T>(p: Pipe<T>, edges: seq<Edge<T>>)
    requires p.stages != []
    ensures Delivered(p, edges) + InFlight(After(p, edges)) == InFlight(p) + Accepted(p, edges)
    decreases |edges|
  {
    if edges != [] {
      var e, p' := edges[0], OnEdge(p, edges[0]);
      var out := if Delivers(p, e) then [p.out.value] else [];
      var word := if Accepts(p, e) then [e.word] else [];
      EdgeKeeps(p, e);
      RunKeeps(p', edges[1..]);
      Regroup(out, Delivered(p', edges[1..]), InFlight(After(p, edges)), InFlight(p'), InFlight(p),
              word, Accepted(p', edges[1..]));
    }
  }

  lemma {:induction false} Regroup<T>(a: seq<T>, b: seq<T>, c: seq<T>, d: seq<T>, e: seq<T>, f: seq<T>,
                                      g: seq<T>)
    requires a + d == e + f && b + c == d + g
    ensures a + b + c == e + (f + g)
  {
    assert a + b + c == a + (b + c) == a + d + g;
  }

  function Empty<T>(latency: nat): (p: Pipe<T>)
    ensures |p.stages| == latency && HasRoom(p)
  {
    Pipe(seq(latency, _ => None), None)
  }

  lemma {:induction false} EmptyHolds<T>(stages: seq<Option<T>>, n: nat)
    requires n <= |stages| && forall i | 0 <= i < n :: stages[i].None?
    ensures Held(stages, n) == []
  {
    if n > 0 {
      EmptyHolds(stages, n - 1);
    }
  }

  /** From the empty pipeline. */
  lemma {:induction false} InOrder<T>(latency: nat, edges: seq<Edge<T>>)
    requires latency >= 1
    ensures var p := Empty<T>(latency);
            Delivered(p, edges) + InFlight(After(p, edges)) == Accepted(p, edges)
  {
    var p := Empty<T>(latency);
    EmptyHolds(p.stages, latency);
    RunKeeps(p, edges);
  }

  // ----- commands are accepted and words delivered -----

  lemma {:induction false} HeldCount<T>(stages: seq<Option<T>>, n: nat)
    requires n <= |stages|
    ensures |Held(stages, n)| <= n
    ensures |Held(stages, n)| == n <==> forall i | 0 <= i < n :: stages[i].Some?
  {
    if n > 0 {
      HeldCount(stages, n - 1);
    }
  }

  /** A command offered is accepted unless the port is paused, or as many words are in flight as it has
      stages and one more, and the response is not taken. */
  lemma {:induction false} AcceptsExact<T>(p: Pipe<T>, e: Edge<T>)
    ensures |InFlight(p)| <= |p.stages| + 1
    ensures Accepts(p, e) <==> e.cmdValid && !e.pause && (e.respReady || |InFlight(p)| < |p.stages| + 1)
  {
    HeldCount(p.stages, |p.stages|);
  }

  /** A free last stage lets all others move up. */
  lemma {:induction false} ShiftAll<T>(stages: seq<Option<T>>, i: nat)
    requires i < |stages| && stages[i].None?
    ensures Shift(stages, i) == [None] + stages[..i] + stages[i + 1..]
    decreases i
  {
    if i > 0 {
      var t := stages[i := stages[i - 1]][i - 1 := None];
      ShiftAll(t, i - 1);
      assert t[..i - 1] == stages[..i - 1] && t[i..] == [stages[i - 1]] + stages[i + 1..];
      assert stages[..i] == stages[..i - 1] + [stages[i - 1]];
    }
  }

  /** The stages and the response register, in the order in which a word passes them. */
  function Path<T>(p: Pipe<T>): seq<Option<T>> { p.stages + [p.out] }

  lemma {:induction false} HeldPath<T>(p: Pipe<T>)
    ensures Held(Path(p), |p.stages| + 1) == InFlight(p)
  {
    HeldSame(Path(p), p.stages, |p.stages|);
  }

  /** While the response is taken every word moves on. */
  lemma {:induction false} PathMoves<T>(p: Pipe<T>, e: Edge<T>)
    requires p.stages != [] && e.respReady
    ensures Path(OnEdge(p, e)) == [if Accepts(p, e) then Some(e.word) else None] + Path(p)[..|p.stages|]
  {
    var last := |p.stages| - 1;
    var stages := p.stages[last := None];
    ShiftAll(stages, last);
    assert stages[..last] == p.stages[..last] && p.stages == p.stages[..last] + [p.stages[last]];
  }

  /** The last `k` places, oldest first. */
  function LastOf<T>(path: seq<Option<T>>, k: nat): seq<T>
    requires k <= |path|
  {
    if k == 0 then [] else Items(path[|path| - 1]) + LastOf(path[..|path| - 1], k - 1)
  }

  lemma {:induction false} LastOfMore<T>(x: Option<T>, path: seq<Option<T>>, k: nat)
    requires k <= |path|
    ensures LastOf([x] + path, k) == LastOf(path, k)
  {
    if k > 0 {
      var n := |path| - 1;
      assert ([x] + path)[..n + 1] == [x] + path[..n];
      LastOfMore(x, path[..n], k - 1);
    }
  }

  lemma {:induction false} LastOfAll<T>(path: seq<Option<T>>)
    ensures LastOf(path, |path|) == Held(path, |path|)
  {
    if path != [] {
      var n := |path| - 1;
      LastOfAll(path[..n]);
      HeldSame(path, path[..n], n);
    }
  }

  predicate AllTaken<T>(edges: seq<Edge<T>>) {
    forall i | 0 <= i < |edges| :: edges[i].respReady
  }

  lemma {:induction false} DeliversLast<T>(p: Pipe<T>, edges: seq<Edge<T>>)
    requires p.stages != [] && AllTaken(edges) && |edges| <= |p.stages| + 1
    ensures Delivered(p, edges) == LastOf(Path(p), |edges|)
    decreases |edges|
  {
    if edges != [] {
      var e, k := edges[0], |edges| - 1;
      var p' := OnEdge(p, e);
      assert e.respReady;
      PathMoves(p, e);
      DeliversLast(p', edges[1..]);
      LastOfMore(if Accepts(p, e) then Some(e.word) else None, Path(p)[..|p.stages|], k);
      assert Path(p)[..|p.stages|] == p.stages;
    }
  }

  /** The latency: at just as many edges as there are stages and one more, with the response taken at each,
      exactly the words that were in flight are delivered. */
  lemma {:induction false} Flushes<T>(p: Pipe<T>, edges: seq<Edge<T>>)
    requires p.stages != [] && AllTaken(edges) && |edges| == |p.stages| + 1
    ensures Delivered(p, edges) == InFlight(p) && InFlight(After(p, edges)) == Accepted(p, edges)
  {
    DeliversLast(p, edges);
    LastOfAll(Path(p));
    HeldPath(p);
    RunKeeps(p, edges);
    Cancel(InFlight(p), InFlight(After(p, edges)), Accepted(p, edges));
  }

  lemma {:induction false} Cancel<T>(a: seq<T>, b: seq<T>, c: seq<T>)
    requires a + b == a + c
    ensures b == c
  {
    assert b == (a + b)[|a|..] && c == (a + c)[|a|..];
  }

  // ----- the object -----

  class ReadPort<T(0)> {
    const pipeline: array<Option<T>>
    var respValid: bool
    var respData: T

    predicate Valid() { pipeline.Length >= 1 }

    function Abstract(): (p: Pipe<T>)
      reads this, pipeline
      ensures |p.stages| == pipeline.Length
    {
      Pipe(pipeline[..], if respValid then Some(respData) else None)
    }

    constructor (latency: nat)
      requires latency >= 1
      ensures Valid() && fresh(pipeline) && Abstract() == Empty(latency)
    {
      pipeline := new Option<T>[latency](_ => None);
      respValid, respData := false, *;
      new;
      assert pipeline[..] == Empty<T>(latency).stages;
    }

    method FindRoom() returns (room: bool)
      requires Valid()
      ensures room == HasRoom(Abstract())
    {
      room := !respValid;
      for i := 0 to pipeline.Length
        invariant room == (!respValid || exists k | 0 <= k < i :: pipeline[k].None?)
      {
        room := room || pipeline[i].None?;
      }
      assert forall k | 0 <= k < pipeline.Length :: pipeline[k] == Abstract().stages[k];
    }

    /** The response register, if it is free or read out. */
    method TakeLast(respReady: bool)
      requires Valid()
      modifies this, pipeline
      ensures Abstract() == Emit(old(Abstract()), respReady)
    {
      if respReady || !respValid {
        var last := pipeline.Length - 1;
        if pipeline[last].Some? {
          respData, respValid := pipeline[last].value, true;
          pipeline[last] := None;
        } else {
          respValid := false;
        }
        assert pipeline[..] == old(pipeline[..])[last := None];
      }
    }

    method Advance()
      requires Valid()
      modifies pipeline
      ensures pipeline[..] == Shift(old(pipeline[..]), pipeline.Length - 1)
    {
      var i := pipeline.Length - 1;
      while i > 0
        invariant 0 <= i < pipeline.Length
        invariant Shift(pipeline[..], i) == Shift(old(pipeline[..]), pipeline.Length - 1)
        decreases i
      {
        if pipeline[i].None? {
          ghost var before := pipeline[..];
          pipeline[i] := pipeline[i - 1];
          pipeline[i - 1] := None;
          assert pipeline[..] == before[i := before[i - 1]][i - 1 := None];
        }
        i := i - 1;
      }
    }

    /** One clock edge of read_logic; `accepted` is the handshake on the command. */
    method OnClock(e: Edge<T>) returns (accepted: bool)
      requires Valid()
      modifies this, pipeline
      ensures Abstract() == OnEdge(old(Abstract()), e) && accepted == Accepts(old(Abstract()), e)
    {
      var readyInt := FindRoom();
      var cmdReady := (e.respReady || readyInt) && !e.pause;
      TakeLast(e.respReady);
      Advance();
      accepted := cmdReady && e.cmdValid;
      if accepted {
        ghost var before := pipeline[..];
        pipeline[0] := Some(e.word);
        assert pipeline[..] == before[0 := Some(e.word)];
      }
    }
  }
}
