/** The AXI-Stream source and sink as objects, whose loops do what the functions of AxiStream and
    AxisHandshake say. */
module AxisBus {
  import opened Lanes
  import opened AxiStream
  import opened AxisHandshake

  // ----- building -----

  /** Pop values into the lanes of one beat. */
  method PackBeat(f: seq<nat>, bus: Bus) returns (data: nat, keep: seq<bool>, rest: seq<nat>)
    requires bus.Valid() && f != []
    ensures var k := Min(|f|, bus.m);
            && data == Pack(f[..k], bus.base) && keep == Keep(k, bus.m) && rest == f[k..]
  {
    data, rest := 0, f;
    var j := 0;
    while j < bus.m && rest != []
      invariant j <= Min(|f|, bus.m) && data == Pack(f[..j], bus.base) && rest == f[j..]
      decreases bus.m - j
    {
      assert f[..j + 1] == f[..j] + [f[j]];
      PackAppend(f[..j], f[j], bus.base);
      data := data + rest[0] * Pow(bus.base, j);
      rest := rest[1..];
      j := j + 1;
    }
    keep := MakeKeep(j, bus.m);
  }

  /** `keep | (1 << j)` for the lanes in use. */
  method MakeKeep(k: nat, m: nat) returns (keep: seq<bool>)
    requires k <= m
    ensures keep == Keep(k, m)
  {
    keep := [];
    for j := 0 to m
      invariant keep == Keep(k, m)[..j]
    {
      KeepAt(k, m, j);
      keep := keep + [j < k];
    }
  }

  lemma {:induction false} SliceSlice(f: seq<nat>, o: nat, k: nat)
    requires o + k <= |f|
    ensures f[o..][..k] == f[o..o + k] && f[o..][k..] == f[o + k..]
  {
  }

  /** Beat `i`, from the values that are left. */
  method NextBeat(frame: Frame, f: seq<nat>, i: nat, ghost o: nat, bus: Bus)
    returns (beat: Beat, rest: seq<nat>, ghost o': nat)
    requires bus.Valid() && o < |frame.data| && f == frame.data[o..]
    ensures o < o' <= |frame.data| && rest == frame.data[o'..]
    ensures BeatsFrom(frame, o, i, bus) == [beat] + BeatsFrom(frame, o', i + 1, bus)
  {
    ghost var k := Min(|f|, bus.m);
    o' := o + k;
    BeatsUnfold(frame, o, i, k, o', i + 1, bus);
    SliceSlice(frame.data, o, k);
    var data, keep;
    data, keep, rest := PackBeat(f, bus);
    var user := TagAt(frame.user, i);
    if rest == [] && frame.lastUser != 0 {
      user := frame.lastUser;
    }
    beat := Beat(data, keep, TagAt(frame.id, i), TagAt(frame.dest, i), user, rest == []);
    assert beat == FirstBeat(frame, o, i, k, bus);
  }

  /** AXIStreamFrame.build, with the last flag that the source computes when it sends. */
  method BuildFrame(frame: Frame, bus: Bus) returns (beats: seq<Beat>)
    requires bus.Valid()
    ensures beats == Beats(frame, bus)
  {
    beats := [];
    var f: seq<nat>, i: nat := frame.data, 0;
    ghost var o: nat := 0;
    while f != []
      invariant o <= |frame.data| && f == frame.data[o..]
      invariant beats + BeatsFrom(frame, o, i, bus) == Beats(frame, bus)
      decreases |frame.data| - o
    {
      var beat;
      beat, f, o := NextBeat(frame, f, i, o, bus);
      beats := beats + [beat];
      i := i + 1;
    }
    assert o == |frame.data|;
  }

  // ----- parsing -----

  method KeptLanes(b: Beat, bus: Bus) returns (data: seq<nat>)
    requires bus.Valid()
    ensures data == Kept(b, 0, bus)
  {
    data := [];
    for j := 0 to |b.keep|
      invariant data + Kept(b, j, bus) == Kept(b, 0, bus)
    {
      if b.keep[j] {
        data := data + [Lane(b.data, j, bus.base)];
      }
    }
  }

  /** Beats up to `i` are parsed into the lists. */
  ghost predicate Parsed(beats: seq<Beat>, i: nat, data: seq<nat>, id: seq<nat>, dest: seq<nat>,
                         user: seq<nat>, bus: Bus)
    requires bus.Valid() && i <= |beats|
  {
    && data + DataOf(beats[i..], bus) == DataOf(beats, bus)
    && id + Ids(beats[i..]) == Ids(beats) && dest + Dests(beats[i..]) == Dests(beats)
    && user + Users(beats[i..]) == Users(beats)
  }

  lemma {:induction false} ParsedNext(beats: seq<Beat>, i: nat, data: seq<nat>, id: seq<nat>,
                                      dest: seq<nat>, user: seq<nat>, lanes: seq<nat>, bus: Bus)
    requires bus.Valid() && i < |beats| && Parsed(beats, i, data, id, dest, user, bus)
    requires lanes == Kept(beats[i], 0, bus)
    ensures Parsed(beats, i + 1, data + lanes, id + [beats[i].id], dest + [beats[i].dest],
                   user + [beats[i].user], bus)
  {
    assert beats[i..][1..] == beats[i + 1..];
  }

  lemma {:induction false} ParsedAll(beats: seq<Beat>, data: seq<nat>, id: seq<nat>, dest: seq<nat>,
                                     user: seq<nat>, bus: Bus)
    requires bus.Valid() && Parsed(beats, |beats|, data, id, dest, user, bus)
    ensures data == DataOf(beats, bus) && id == Ids(beats) && dest == Dests(beats)
    ensures user == Users(beats)
  {
    assert beats[|beats|..] == [];
  }

  /** AXIStreamFrame.parse */
  method ParseFrame(beats: seq<Beat>, bus: Bus) returns (frame: Frame)
    requires bus.Valid() && beats != []
    ensures frame == Parse(beats, bus)
  {
    var data: seq<nat>, id: seq<nat>, dest: seq<nat>, user: seq<nat> := [], [], [], [];
    assert beats[0..] == beats;
    for i := 0 to |beats|
      invariant Parsed(beats, i, data, id, dest, user, bus)
    {
      var lanes := KeptLanes(beats[i], bus);
      ParsedNext(beats, i, data, id, dest, user, lanes, bus);
      data := data + lanes;
      id, dest, user := id + [beats[i].id], dest + [beats[i].dest], user + [beats[i].user];
    }
    ParsedAll(beats, data, id, dest, user, bus);
    TagsAt(beats, |beats| - 1);
    frame := Frame(data, PerBeat(id), PerBeat(dest), PerBeat(user), user[|user| - 1]);
  }

  // ----- the assertions of the sink -----

  /** Shift the empty lanes out, then the full ones: nothing may be left. */
  method CheckKeep(b: Beat, first: bool) returns (ok: bool)
    ensures ok == KeepOk(b, first)
  {
    var j := 0;
    while j < |b.keep| && !b.keep[j]
      invariant j <= |b.keep| && forall i | 0 <= i < j :: !b.keep[i]
    {
      j := j + 1;
    }
    if j == |b.keep| {
      return false;
    }
    var k := j;
    while k < |b.keep| && b.keep[k]
      invariant j <= k <= |b.keep| && forall i | j <= i < k :: b.keep[i]
    {
      k := k + 1;
    }
    var n := k;
    while n < |b.keep| && !b.keep[n]
      invariant k <= n <= |b.keep| && forall i | k <= i < n :: !b.keep[i]
    {
      n := n + 1;
    }
    ok := n == |b.keep|;
    assert ok ==> Contiguous(b.keep);
    assert !ok ==> b.keep[j] && !b.keep[k] && b.keep[n];
    if ok && !first {
      ok := b.keep[0];
    }
    if ok && !b.last {
      ok := b.keep[|b.keep| - 1];
    }
  }

  // ----- source and sink -----

  class AxisSource {
    const bus: Bus
    var active: bool
    var queue: seq<Frame>
    /** The lists of data and side-band values still to be sent, beat by beat. */
    var rest: seq<Beat>
    var tvalid: bool
    var tbeat: Beat

    ghost function Abstract(): Source
      reads this
    {
      Source(queue, active, tvalid, tbeat, rest)
    }

    constructor (bus: Bus)
      ensures this.bus == bus && queue == [] && !active && !tvalid && rest == []
    {
      this.bus, active, queue, rest, tvalid := bus, false, [], [], false;
      tbeat := Beat(0, [], 0, 0, 0, false);
    }

    method Send(frame: Frame)
      modifies this`queue
      ensures queue == old(queue) + [frame]
    {
      queue := queue + [frame];
    }

    /** Start the next frame. */
    method LoadFrame(pause: bool)
      requires bus.Valid() && queue != [] && Beats(queue[0], bus) != []
      modifies this
      ensures Abstract() == Load(old(Abstract()), pause, bus)
    {
      var frame := queue[0];
      queue := queue[1..];
      var beats := BuildFrame(frame, bus);
      tbeat, rest := beats[0], beats[1..];
      tvalid := !pause;
      active := true;
    }

    method OnClock(rst: bool, tready: bool, pause: bool)
      requires bus.Valid() && SendsOnly(queue, bus)
      modifies this
      ensures rst ==> Abstract() == ResetSource(old(Abstract()))
      ensures !rst ==> Abstract() == SourceClock(old(Abstract()), tready, pause, bus)
    {
      if rst {
        active, tvalid, rest := false, false, [];
      } else {
        var taken := tready && tvalid;
        tvalid := active && (tvalid || !pause);
        if taken {
          if rest != [] {
            tbeat, rest, tvalid := rest[0], rest[1..], !pause;
          } else {
            tvalid, active := false, false;
          }
        }
        if !active && queue != [] {
          assert Sendable(queue[0], bus);
          ParseOfBuild(queue[0], bus);
          LoadFrame(pause);
        }
      }
    }
  }

  class AxisSink {
    const bus: Bus
    var queue: seq<Frame>
    var got: seq<Beat>
    var treadyInt: bool

    ghost function Abstract(): Sink
      reads this
    {
      Sink(queue, got, treadyInt)
    }

    constructor (bus: Bus)
      ensures this.bus == bus && Abstract() == Sink([], [], false)
    {
      this.bus, queue, got, treadyInt := bus, [], [], false;
    }

    /** One clock; `ok` is false where an assertion of the sink fails. */
    method OnClock(rst: bool, tvalid: bool, tbeat: Beat, pause: bool) returns (ok: bool)
      requires bus.Valid()
      modifies this
      ensures rst ==> ok && Abstract() == ResetSink(old(Abstract()))
      ensures !rst ==>
                SinkClock(old(Abstract()), tvalid, tbeat, pause, bus) == if ok then Abstract() else Failed
    {
      ok := true;
      if rst {
        treadyInt, got := false, [];
      } else {
        treadyInt := true;
        if tvalid && !pause {
          ok := CheckKeep(tbeat, got == []);
          if ok {
            got := got + [tbeat];
            if tbeat.last {
              var frame := ParseFrame(got, bus);
              queue := queue + [frame];
              got := [];
            }
          }
        }
      }
    }
  }
}
