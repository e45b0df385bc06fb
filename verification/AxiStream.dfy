/** AXI-Stream endpoints: frames as beats of lanes, and the clocked handshake between a source and a
    sink that both pause at will. */
module AxiStream {
  import opened Arith
  import opened Lanes

  // ----- frames -----

  /** A side-band value of a frame: one for all beats, or one for each. */
  datatype Tag = Const(value: nat) | PerBeat(values: seq<nat>)

  function TagAt(t: Tag, i: nat): nat {
    match t
    case Const(v) => v
    case PerBeat(vs) => if i < |vs| then vs[i] else 0
  }

  /** `lastUser` takes the place of the user value of the last beat if it is not 0. */
  datatype Frame = Frame(data: seq<nat>, id: Tag, dest: Tag, user: Tag, lastUser: nat)

  datatype Beat = Beat(data: nat, keep: seq<bool>, id: nat, dest: nat, user: nat, last: bool)

  /** A bus of `m` lanes that hold values below `base`. */
  datatype Bus = Bus(m: nat, base: nat)
  {
    predicate Valid() { m > 0 && base > 1 }
  }

  function Min(a: nat, b: nat): nat { if a < b then a else b }

  /** The number of beats of `n` values. */
  function BeatCount(n: nat, m: nat): nat
    requires m > 0
  {
    if n == 0 then 0 else 1 + BeatCount(n - Min(n, m), m)
  }

  /** What the code asks of a frame: it has data, and a value for each beat where it gives one for
      each; and its values fit the lanes. */
  predicate Sendable(f: Frame, bus: Bus)
    requires bus.Valid()
  {
    && f.data != [] && Fits(f.data, bus.base)
    && (f.id.PerBeat? ==> |f.id.values| >= BeatCount(|f.data|, bus.m))
    && (f.dest.PerBeat? ==> |f.dest.values| >= BeatCount(|f.data|, bus.m))
    && (f.user.PerBeat? ==> |f.user.values| >= BeatCount(|f.data|, bus.m))
  }

  /** `k` of `m` keep bits from the lowest on. */
  function Keep(k: nat, m: nat): (keep: seq<bool>)
    ensures |keep| == m
    decreases m
  {
    if m == 0 then [] else [k > 0] + Keep(if k > 0 then k - 1 else 0, m - 1)
  }

  /** Beat `i`, with `k` values from data[o..]. */
  function FirstBeat(f: Frame, o: nat, i: nat, k: nat, bus: Bus): Beat
    requires bus.Valid() && o + k <= |f.data|
  {
    var last := o + k == |f.data|;
    Beat(Pack(f.data[o..o + k], bus.base), Keep(k, bus.m), TagAt(f.id, i), TagAt(f.dest, i),
         if last && f.lastUser != 0 then f.lastUser else TagAt(f.user, i), last)
  }

  /** The beats of data[o..], of which the first is beat `i`. */
  function BeatsFrom(f: Frame, o: nat, i: nat, bus: Bus): seq<Beat>
    requires bus.Valid() && o <= |f.data|
    decreases |f.data| - o
  {
    if o == |f.data| then []
    else
      var k := Min(|f.data| - o, bus.m);
      [FirstBeat(f, o, i, k, bus)] + BeatsFrom(f, o + k, i + 1, bus)
  }

  function Beats(f: Frame, bus: Bus): seq<Beat>
    requires bus.Valid()
  {
    BeatsFrom(f, 0, 0, bus)
  }

  /** The kept lanes of a beat, from lane `j` on. */
  function Kept(b: Beat, j: nat, bus: Bus): seq<nat>
    requires bus.Valid() && j <= |b.keep|
    decreases |b.keep| - j
  {
    if j == |b.keep| then []
    else (if b.keep[j] then [Lane(b.data, j, bus.base)] else []) + Kept(b, j + 1, bus)
  }

  function DataOf(beats: seq<Beat>, bus: Bus): seq<nat>
    requires bus.Valid()
  {
    if beats == [] then [] else Kept(beats[0], 0, bus) + DataOf(beats[1..], bus)
  }

  function Ids(beats: seq<Beat>): (r: seq<nat>)
    ensures |r| == |beats|
  {
    if beats == [] then [] else [beats[0].id] + Ids(beats[1..])
  }

  function Dests(beats: seq<Beat>): (r: seq<nat>)
    ensures |r| == |beats|
  {
    if beats == [] then [] else [beats[0].dest] + Dests(beats[1..])
  }

  function Users(beats: seq<Beat>): (r: seq<nat>)
    ensures |r| == |beats|
  {
    if beats == [] then [] else [beats[0].user] + Users(beats[1..])
  }

  /** AXIStreamFrame.parse of the beats of one frame. */
  function Parse(beats: seq<Beat>, bus: Bus): Frame
    requires bus.Valid() && beats != []
  {
    Frame(DataOf(beats, bus), PerBeat(Ids(beats)), PerBeat(Dests(beats)), PerBeat(Users(beats)),
          beats[|beats| - 1].user)
  }

  // ----- parse undoes build -----

  lemma {:induction false} KeepAt(k: nat, m: nat, j: nat)
    requires j < m
    ensures Keep(k, m)[j] <==> j < k
    decreases m
  {
    if j > 0 {
      KeepAt(if k > 0 then k - 1 else 0, m - 1, j - 1);
    }
  }

  /** The beat carries the values `xs` in its lowest lanes. */
  ghost predicate Carries(b: Beat, xs: seq<nat>, bus: Bus)
    requires bus.Valid()
  {
    && |b.keep| == bus.m && |xs| <= bus.m
    && (forall j | 0 <= j < bus.m :: b.keep[j] <==> j < |xs|)
    && (forall j | 0 <= j < |xs| :: Lane(b.data, j, bus.base) == xs[j])
  }

  lemma {:induction false} PackedCarries(b: Beat, xs: seq<nat>, bus: Bus)
    requires bus.Valid() && |xs| <= bus.m && Fits(xs, bus.base)
    requires b.data == Pack(xs, bus.base) && b.keep == Keep(|xs|, bus.m)
    ensures Carries(b, xs, bus)
  {
    forall j | 0 <= j < bus.m
      ensures b.keep[j] <==> j < |xs|
    {
      KeepAt(|xs|, bus.m, j);
    }
    forall j | 0 <= j < |xs|
      ensures Lane(b.data, j, bus.base) == xs[j]
    {
      LaneOfPack(xs, j, bus.base);
    }
  }

  lemma {:induction false} KeptIs(b: Beat, xs: seq<nat>, j: nat, bus: Bus)
    requires bus.Valid() && Carries(b, xs, bus) && j <= bus.m
    ensures Kept(b, j, bus) == if j <= |xs| then xs[j..] else []
    decreases bus.m - j
  {
    if j < bus.m {
      KeptIs(b, xs, j + 1, bus);
      if j < |xs| {
        assert xs[j..] == [xs[j]] + xs[j + 1..];
      }
    }
  }

  lemma {:induction false} BeatsUnfold(f: Frame, o: nat, i: nat, k: nat, o': nat, i': nat, bus: Bus)
    requires bus.Valid() && o < |f.data| && k == Min(|f.data| - o, bus.m) && o' == o + k && i' == i + 1
    ensures 0 < k <= bus.m && o' <= |f.data|
    ensures BeatsFrom(f, o, i, bus) == [FirstBeat(f, o, i, k, bus)] + BeatsFrom(f, o', i', bus)
  {
  }

  lemma {:induction false} FirstCarries(f: Frame, o: nat, i: nat, k: nat, o': nat, bus: Bus)
    requires bus.Valid() && Fits(f.data, bus.base) && k <= bus.m && o' == o + k <= |f.data|
    ensures Carries(FirstBeat(f, o, i, k, bus), f.data[o..o'], bus)
  {
    PackedCarries(FirstBeat(f, o, i, k, bus), f.data[o..o'], bus);
  }

  lemma {:induction false} DataStep(b: Beat, rest: seq<Beat>, xs: seq<nat>, bus: Bus)
    requires bus.Valid() && Carries(b, xs, bus)
    ensures DataOf([b] + rest, bus) == xs + DataOf(rest, bus)
  {
    KeptIs(b, xs, 0, bus);
    assert ([b] + rest)[1..] == rest && xs[0..] == xs;
  }

  lemma {:induction false} DataJoin(b: Beat, rest: seq<Beat>, data: seq<nat>, o: nat, o': nat, bus: Bus)
    requires bus.Valid() && o <= o' <= |data| && Carries(b, data[o..o'], bus) && DataOf(rest, bus) == data[o'..]
    ensures DataOf([b] + rest, bus) == data[o..]
  {
    DataStep(b, rest, data[o..o'], bus);
    assert data[o..] == data[o..o'] + data[o'..];
  }

  lemma {:induction false} DataBack(f: Frame, o: nat, i: nat, bus: Bus)
    requires bus.Valid() && o <= |f.data| && Fits(f.data, bus.base)
    ensures DataOf(BeatsFrom(f, o, i, bus), bus) == f.data[o..]
    decreases |f.data| - o
  {
    if o < |f.data| {
      var k, i' := Min(|f.data| - o, bus.m), i + 1;
      var o' := o + k;
      BeatsUnfold(f, o, i, k, o', i', bus);
      FirstCarries(f, o, i, k, o', bus);
      DataBack(f, o', i', bus);
      DataJoin(FirstBeat(f, o, i, k, bus), BeatsFrom(f, o', i', bus), f.data, o, o', bus);
    }
  }

  lemma {:induction false} CountStep(f: Frame, o: nat, i: nat, bus: Bus)
    requires bus.Valid() && o <= |f.data|
    ensures |BeatsFrom(f, o, i, bus)| == BeatCount(|f.data| - o, bus.m)
    decreases |f.data| - o
  {
    if o < |f.data| {
      CountStep(f, o + Min(|f.data| - o, bus.m), i + 1, bus);
    }
  }

  /** The side-band values of beat `i`. */
  ghost predicate Tagged(f: Frame, b: Beat, i: nat, last: bool) {
    && b.id == TagAt(f.id, i) && b.dest == TagAt(f.dest, i) && b.last == last
    && b.user == if last && f.lastUser != 0 then f.lastUser else TagAt(f.user, i)
  }

  lemma {:induction false} BeatAt(f: Frame, o: nat, i: nat, j: nat, bus: Bus)
    requires bus.Valid() && o <= |f.data| && j < |BeatsFrom(f, o, i, bus)|
    ensures Tagged(f, BeatsFrom(f, o, i, bus)[j], i + j, j == |BeatsFrom(f, o, i, bus)| - 1)
    decreases |f.data| - o
  {
    var k, i' := Min(|f.data| - o, bus.m), i + 1;
    var o' := o + k;
    BeatsUnfold(f, o, i, k, o', i', bus);
    if j > 0 {
      BeatAt(f, o', i', j - 1, bus);
    } else {
      assert Tagged(f, FirstBeat(f, o, i, k, bus), i, o' == |f.data|);
    }
  }

  lemma {:induction false} TagsAt(beats: seq<Beat>, j: nat)
    requires j < |beats|
    ensures Ids(beats)[j] == beats[j].id && Dests(beats)[j] == beats[j].dest
    ensures Users(beats)[j] == beats[j].user
  {
    if j > 0 {
      TagsAt(beats[1..], j - 1);
    }
  }

  /** The received form of a frame: the same values, with the side-band values beat by beat. */
  ghost predicate SameFrame(f: Frame, g: Frame, bus: Bus)
    requires bus.Valid()
  {
    var n := BeatCount(|f.data|, bus.m);
    && g.data == f.data && g.id.PerBeat? && g.dest.PerBeat? && g.user.PerBeat?
    && |g.id.values| == n && |g.dest.values| == n && |g.user.values| == n && n > 0
    && (forall j | 0 <= j < n ::
          && g.id.values[j] == TagAt(f.id, j) && g.dest.values[j] == TagAt(f.dest, j)
          && g.user.values[j] == if j == n - 1 && f.lastUser != 0 then f.lastUser else TagAt(f.user, j))
    && g.lastUser == g.user.values[n - 1]
  }

  /** For every number of lanes and lane width. */
  lemma {:induction false} ParseOfBuild(f: Frame, bus: Bus)
    requires bus.Valid() && f.data != [] && Fits(f.data, bus.base)
    ensures Beats(f, bus) != [] && SameFrame(f, Parse(Beats(f, bus), bus), bus)
  {
    var beats := Beats(f, bus);
    var n := BeatCount(|f.data|, bus.m);
    CountStep(f, 0, 0, bus);
    DataBack(f, 0, 0, bus);
    assert f.data[0..] == f.data;
    forall j | 0 <= j < n
      ensures Ids(beats)[j] == TagAt(f.id, j) && Dests(beats)[j] == TagAt(f.dest, j)
      ensures Users(beats)[j] == if j == n - 1 && f.lastUser != 0 then f.lastUser else TagAt(f.user, j)
    {
      TagsAt(beats, j);
      BeatAt(f, 0, 0, j, bus);
    }
    TagsAt(beats, n - 1);
  }

  // ----- what the bus shows -----

  /** Lane `l` of the beat holds value `p` of the frame, or is empty if there is none. */
  ghost predicate Shows(f: Frame, b: Beat, p: nat, l: nat, bus: Bus)
    requires bus.Valid()
  {
    && l < |b.keep| == bus.m
    && (b.keep[l] <==> p < |f.data|)
    && Lane(b.data, l, bus.base) == if p < |f.data| then f.data[p] else 0
  }

  lemma {:induction false} FirstShows(f: Frame, o: nat, i: nat, k: nat, l: nat, bus: Bus)
    requires bus.Valid() && Fits(f.data, bus.base) && o <= |f.data| && l < bus.m
    requires k == Min(|f.data| - o, bus.m)
    ensures Shows(f, FirstBeat(f, o, i, k, bus), o + l, l, bus)
  {
    var xs := f.data[o..o + k];
    KeepAt(k, bus.m, l);
    LaneOfPack(xs, l, bus.base);
  }

  /** Beat `j` takes the values from place o + j * m on. */
  lemma {:induction false} BeatTakes(f: Frame, o: nat, i: nat, j: nat, p: nat, bus: Bus)
    requires bus.Valid() && o <= |f.data| && j < |BeatsFrom(f, o, i, bus)| && p == o + Times(j, bus.m)
    ensures p < |f.data|
    ensures BeatsFrom(f, o, i, bus)[j] == FirstBeat(f, p, i + j, Min(|f.data| - p, bus.m), bus)
    decreases j
  {
    var k, i' := Min(|f.data| - o, bus.m), i + 1;
    var o' := o + k;
    BeatsUnfold(f, o, i, k, o', i', bus);
    if j > 0 {
      assert BeatsFrom(f, o', i', bus) != [];
      BeatTakes(f, o', i', j - 1, p, bus);
    }
  }

  /** Value `j * m + l` of a frame stands in lane `l` of beat `j`, which is kept; lanes behind the last value
      are empty and not kept; and last comes with the beat that holds that value. */
  lemma {:induction false} BuildExact(f: Frame, j: nat, l: nat, bus: Bus)
    requires bus.Valid() && Fits(f.data, bus.base) && j < |Beats(f, bus)| && l < bus.m
    ensures var p, b := Times(j, bus.m), Beats(f, bus)[j];
            && p < |f.data| && Shows(f, b, p + l, l, bus)
            && (b.last <==> |f.data| <= p + bus.m) && Tagged(f, b, j, b.last)
  {
    var p := Times(j, bus.m);
    BeatTakes(f, 0, 0, j, p, bus);
    FirstShows(f, p, j, Min(|f.data| - p, bus.m), l, bus);
    BeatAt(f, 0, 0, j, bus);
  }
}
