/** What arrives of frames with error and control flags over 10GBASE-R.  A block has no place for a control
    character among data, so that it takes with it the data of its word. */
module BaseRErrors {
  import opened Wrappers
  import opened Xgmii
  import opened XgmiiErrors
  import opened BaseRCodec
  import opened BaseRFormats
  import opened BaseRSerdes
  import BaseRResync
  import Scrambler

  // ----- words with control characters among data -----

  /** Neither a start nor an ordered set. */
  predicate QuietLane(l: Lane) { l.c ==> l.d != START && l.d != SEQ_OS && l.d != SIG_OS }

  predicate Quiet(lanes: seq<Lane>) {
    forall i | 0 <= i < |lanes| :: QuietLane(lanes[i])
  }

  function Trip(w: Word): Word { Decode(Encode(w)) }

  lemma {:induction false} DataTrips(w: Word)
    requires Stop(w, 0) == 8
    ensures Trip(w) == w && Encode(w).over == 0
  {
    assert NoCtrl(w, 0, 8);
    BaseRCodec.RoundTrip(w);
  }

  /** A word whose first control character, in lane `m`, is the terminator. */
  lemma {:induction false} TermEncodes(w: Word, m: nat)
    requires Quiet(w) && m == Stop(w, 0) < 8 && w[m] == TermLane
    ensures Encode(w) == Block(SYNC_CTRL, EncodeTerm(w, m))
  {
    assert EndsAt(w, m);
    assert forall i | 0 <= i < 8 && i != m :: !EndsAt(w, i);
    NotStarted(w);
  }

  lemma {:induction false} NotStarted(w: Word)
    requires Quiet(w)
    ensures !StartsAt(w, 0) && !StartsAt(w, 4) && !OrderedAt(w, 0) && !OrderedAt(w, 4)
  {
    assert QuietLane(w[0]) && QuietLane(w[4]);
  }

  /** Lanes from `i` on hold control characters that have a code. */
  predicate CodedFrom(w: Word, i: nat) {
    forall j | i <= j < 8 :: w[j].c && Coded(w[j].d)
  }

  lemma {:induction false} DecodedLane(k: nat, x: bv64, i: nat)
    requires k < 8 && i < 8
    ensures DecodeTerm(x, k)[i] == if i < k then DataLane(x, i + 1) else if i == k then TermLane else CtrlLane(x, i)
  {
    if k < 4 {
      LowDecodedLane(k, x, i);
    } else {
      HighDecodedLane(k, x, i);
    }
  }

  lemma {:induction false} LowDecodedLane(k: nat, x: bv64, i: nat)
    requires k < 4 && i < 8
    ensures DecodeTerm(x, k)[i] == if i < k then DataLane(x, i + 1) else if i == k then TermLane else CtrlLane(x, i)
  {
    match k {
      case 0 =>
      case 1 =>
      case 2 =>
      case 3 =>
    }
  }

  lemma {:induction false} HighDecodedLane(k: nat, x: bv64, i: nat)
    requires 4 <= k < 8 && i < 8
    ensures DecodeTerm(x, k)[i] == if i < k then DataLane(x, i + 1) else if i == k then TermLane else CtrlLane(x, i)
  {
    match k {
      case 4 =>
      case 5 =>
      case 6 =>
      case 7 =>
    }
  }

  lemma {:induction false} TermKept(w: Word, k: nat, d: Word, x: bv64)
    requires k < 8 && EndsAt(w, k) && DataBefore(w, k, x) && d == DecodeTerm(x, k)
    ensures d[..k + 1] == w[..k + 1] && CodedFrom(d, k + 1)
  {
    forall i | 0 <= i < 8
      ensures if i <= k then d[i] == w[i] else d[i].c && Coded(d[i].d)
    {
      DecodedLane(k, x, i);
    }
  }

  lemma {:induction false} TermTrips(w: Word, m: nat)
    requires Quiet(w) && m == Stop(w, 0) < 8 && w[m] == TermLane
    ensures Trip(w)[..m + 1] == w[..m + 1] && CodedFrom(Trip(w), m + 1) && Encode(w).over == 0
  {
    var x := EncodeTerm(w, m);
    TermEncodes(w, m);
    assert EndsAt(w, m);
    TermTypes(w, m, x);
    TermDecodes(x, m);
    TermData(w, m, x);
    TermKept(w, m, Trip(w), x);
  }

  /** A word whose first control character is another one. */
  lemma {:induction false} CtrlEncodes(w: Word, m: nat)
    requires Quiet(w) && m == Stop(w, 0) < 8 && w[m] != TermLane
    ensures Encode(w) == Block(SYNC_CTRL, EncodeCtrl(w))
  {
    NotStarted(w);
    assert forall i | 0 <= i < 8 :: !EndsAt(w, i);
  }

  lemma {:induction false} CtrlDecodes(x: bv64)
    requires TypeOf(x) == 0x1e
    ensures Decode(Block(SYNC_CTRL, x)) == LowCtrl(x) + HighCtrl(x)
    ensures CodedFrom(Decode(Block(SYNC_CTRL, x)), 0) && Decode(Block(SYNC_CTRL, x))[0] == CtrlLane(x, 0)
  {
  }

  lemma {:induction false} CtrlTrips(w: Word, m: nat)
    requires Quiet(w) && m == Stop(w, 0) < 8 && w[m] != TermLane
    ensures CodedFrom(Trip(w), 0) && Encode(w).over == 0
    ensures Trip(w)[0] == if m == 0 && Coded(w[0].d) then w[0] else ErrorLane
  {
    var x := EncodeCtrl(w);
    CtrlEncodes(w, m);
    CtrlLow(w, x);
    CtrlDecodes(x);
    CodeOfFirst(w[0]);
  }

  lemma {:induction false} CodeOfFirst(l: Lane)
    ensures Lane(Char(Code(l)), true) == if l.c && Coded(l.d) then l else ErrorLane
  {
  }

  lemma {:induction false} NoStartTrips(w: Word)
    requires Quiet(w)
    ensures NoStart(Trip(w)) && Encode(w).over == 0
  {
    var m := Stop(w, 0);
    if m == 8 {
      DataTrips(w);
    } else if w[m] == TermLane {
      TermTrips(w, m);
      forall i | 0 <= i < 8
        ensures Trip(w)[i] != StartLane
      {
        if i <= m {
          assert Trip(w)[i] == Trip(w)[..m + 1][i] == w[..m + 1][i];
          assert QuietLane(w[i]);
        }
      }
    } else {
      CtrlTrips(w, m);
    }
  }

  // ----- the blocks of a frame at the sink -----

  function Decoded(blocks: seq<Block>): (words: seq<Lanes>)
    ensures |words| == |blocks|
  {
    seq(|blocks|, i requires 0 <= i < |blocks| => Decode(blocks[i]))
  }

  lemma {:induction false} DecodedFirst(k: Sink, b: Block, blocks: seq<Block>)
    ensures Feed(k, Decoded([b] + blocks)) == Feed(SinkClock(k, Decode(b)), Decoded(blocks))
  {
    assert Decoded([b] + blocks) == [Decode(b)] + Decoded(blocks);
    FeedFirst(k, Decode(b), Decoded(blocks));
  }

  lemma {:induction false} QuietPadded(lanes: seq<Lane>)
    requires Quiet(lanes)
    ensures Quiet(Padded(lanes, 8))
  {
    forall i | 0 <= i < 8
      ensures QuietLane(Padded(lanes, 8)[i])
    {
      PaddedLane(lanes, 8, i);
    }
  }

  predicate NoneOver(blocks: seq<Block>) {
    forall i | 0 <= i < |blocks| :: blocks[i].over == 0
  }

  function Rest(lanes: seq<Lane>): seq<Lane> { if |lanes| > 8 then lanes[8..] else [] }

  lemma {:induction false} QuietBlocks(k: Sink, lanes: seq<Lane>)
    requires k.frame.None? && Quiet(lanes)
    ensures Feed(k, Decoded(Blocks(lanes))) == k && NoneOver(Blocks(lanes))
    decreases |lanes|
  {
    if lanes != [] {
      var w: Word := Padded(lanes, 8);
      QuietPadded(lanes);
      NoStartTrips(w);
      assert SinkClock(k, Trip(w)) == k;
      DecodedFirst(k, Encode(w), Blocks(Rest(lanes)));
      QuietBlocks(k, Rest(lanes));
    }
  }

  /** What is queued of a frame when `lanes`, in words of eight, follow the lanes `got`: the terminator ends it
      where it is; any other control character becomes an error in place of its whole word, unless it stands
      in lane 0 and has a code. */
  function Broken(got: seq<Lane>, lanes: seq<Lane>): Frame
    requires Stop(lanes, 0) < |lanes|
  {
    var k := Stop(lanes, 0);
    var j := k - k % 8;
    Parse(if lanes[k].d == TERM then got + lanes[..k]
          else got + lanes[..j] + [if k == j && Coded(lanes[k].d) then lanes[k] else ErrorLane])
  }

  predicate QuietEnding(lanes: seq<Lane>) {
    lanes != [] && lanes[|lanes| - 1] == TermLane && Quiet(lanes)
  }

  lemma {:induction false} BrokenLater(got: seq<Lane>, lanes: seq<Lane>)
    requires 8 <= Stop(lanes, 0) < |lanes|
    ensures Stop(lanes[8..], 0) == Stop(lanes, 0) - 8
    ensures Broken(got + lanes[..8], lanes[8..]) == Broken(got, lanes)
  {
    var k := Stop(lanes, 0);
    StopIs(lanes[8..], 0, k - 8);
    WordBefore(k);
    LaterPrefix(got, lanes, k);
    LaterPrefix(got, lanes, k - k % 8);
  }

  lemma {:induction false} WordBefore(k: nat)
    requires k >= 8
    ensures (k - 8) - (k - 8) % 8 == k - k % 8 - 8 && k - k % 8 >= 8
  {
  }

  lemma {:induction false} LaterPrefix(got: seq<Lane>, lanes: seq<Lane>, n: nat)
    requires 8 <= n <= |lanes|
    ensures got + lanes[..8] + lanes[8..][..n - 8] == got + lanes[..n]
  {
  }

  lemma {:induction false} ScanTerm(k: Sink, got: seq<Lane>, w: Word, d: Word, m: nat)
    requires m < 8 && w[m] == TermLane && (forall n | 0 <= n < m :: !w[n].c) && d[..m + 1] == w[..m + 1]
    ensures Scan(k, got, d, 0) == Sink(None, k.queue + [Parse(got + w[..m])])
  {
    assert forall n | 0 <= n <= m :: d[n] == d[..m + 1][n] == w[..m + 1][n] == w[n];
    ScanStops(k, got, d, m);
    assert d[..m] == d[..m + 1][..m] == w[..m];
  }

  lemma {:induction false} ScanError(k: Sink, got: seq<Lane>, d: Word)
    requires d[0].c && d[0].d != TERM
    ensures Scan(k, got, d, 0) == Sink(None, k.queue + [Parse(got + [d[0]])])
  {
    ScanStops(k, got, d, 0);
    assert got + d[..0] + [d[0]] == got + [d[0]];
  }

  lemma {:induction false} LastTerm(k: Sink, got: seq<Lane>, lanes: seq<Lane>, w: Word, d: Word, m: nat)
    requires m == Stop(w, 0) == Stop(lanes, 0) < 8 && m < |lanes| && w[..m + 1] == lanes[..m + 1]
    requires w[m] == TermLane && lanes[m] == TermLane && d[..m + 1] == w[..m + 1]
    ensures Scan(k, got, d, 0) == Sink(None, k.queue + [Broken(got, lanes)])
  {
    ScanTerm(k, got, w, d, m);
    assert w[..m] == w[..m + 1][..m] == lanes[..m + 1][..m] == lanes[..m];
  }

  lemma {:induction false} LastError(k: Sink, got: seq<Lane>, lanes: seq<Lane>, d: Word, m: nat)
    requires m == Stop(lanes, 0) < 8 && m < |lanes| && lanes[m].d != TERM
    requires d[0] == if m == 0 && Coded(lanes[0].d) then lanes[0] else ErrorLane
    ensures Scan(k, got, d, 0) == Sink(None, k.queue + [Broken(got, lanes)])
  {
    ScanError(k, got, d);
    assert got + lanes[..0] == got;
  }

  /** The word with the first control character. */
  lemma {:induction false} LastBlock(k: Sink, got: seq<Lane>, lanes: seq<Lane>)
    requires k.frame == Some(got) && QuietEnding(lanes) && Stop(lanes, 0) < 8 && Stop(lanes, 0) < |lanes|
    ensures SinkClock(k, Trip(Padded(lanes, 8))) == Sink(None, k.queue + [Broken(got, lanes)])
    ensures Encode(Padded(lanes, 8)).over == 0
  {
    var w: Word, m := Padded(lanes, 8), Stop(lanes, 0);
    FirstIn(lanes, 8, m);
    PaddedLane(lanes, 8, m);
    PaddedLane(lanes, 8, 0);
    StopIs(w, 0, m);
    QuietPadded(lanes);
    if lanes[m].d == TERM {
      TermTrips(w, m);
      LastTerm(k, got, lanes, w, Trip(w), m);
    } else {
      CtrlTrips(w, m);
      LastError(k, got, lanes, Trip(w), m);
    }
  }

  lemma {:induction false} FeedBlocks(k: Sink, got: seq<Lane>, lanes: seq<Lane>)
    requires k.frame == Some(got) && QuietEnding(lanes)
    ensures Stop(lanes, 0) < |lanes| && NoneOver(Blocks(lanes))
    ensures Feed(k, Decoded(Blocks(lanes))) == Sink(None, k.queue + [Broken(got, lanes)])
    decreases |lanes|
  {
    var w: Word, m, rest := Padded(lanes, 8), Stop(lanes, 0), Rest(lanes);
    assert m <= |lanes| - 1;
    DecodedFirst(k, Encode(w), Blocks(rest));
    if m < 8 {
      LastBlock(k, got, lanes);
      QuietBlocks(SinkClock(k, Trip(w)), rest);
    } else {
      StopIs(w + [TermLane], 0, 8);
      FullBlock(k, got, lanes, m);
      FeedBlocks(k.(frame := Some(got + lanes[..8])), got + lanes[..8], rest);
      BrokenLater(got, lanes);
    }
  }

  lemma {:induction false} FullBlock(k: Sink, got: seq<Lane>, lanes: seq<Lane>, m: nat)
    requires k.frame == Some(got) && QuietEnding(lanes) && 8 <= m == Stop(lanes, 0) < |lanes|
    ensures |lanes| > 8 && QuietEnding(lanes[8..])
    ensures Encode(Padded(lanes, 8)).over == 0
    ensures SinkClock(k, Trip(Padded(lanes, 8))) == k.(frame := Some(got + lanes[..8]))
  {
    var w: Word := lanes[..8];
    assert Padded(lanes, 8) == w && forall j | 0 <= j < 8 :: !w[j].c;
    StopAll(w);
    DataTrips(w);
    ScanGoesOn(k, got, w);
  }

  lemma {:induction false} StopAll(w: Word)
    requires forall j | 0 <= j < 8 :: !w[j].c
    ensures Stop(w, 0) == 8
  {
  }

  // ----- a whole frame -----

  /** No byte is flagged as a start or an ordered set. */
  predicate Mild(f: Frame) { Sendable(f) && Quiet(Build(f)) }

  predicate AllMild(frames: seq<Frame>) {
    forall i | 0 <= i < |frames| :: Mild(frames[i])
  }

  /** The first `r` bytes are there, and none of them is flagged. */
  predicate ClearUpTo(f: Frame, r: nat)
    requires f.Valid()
  {
    r <= |f.data| && forall i | 0 < i < r && i < |f.data| :: !FlagAt(f, i)
  }

  function ReceivedR(f: Frame, r: nat): Frame
    requires Sendable(f) && r <= |f.data|
  {
    assert OnWire(f)[r..][|f.data| - r] == TermLane;
    Broken(OnWire(f)[..r], OnWire(f)[r..])
  }

  lemma {:induction false} QuietWire(f: Frame, r: nat)
    requires Mild(f) && 0 < r <= |f.data|
    ensures QuietEnding(OnWire(f)[r..])
  {
    forall i | r <= i < |OnWire(f)|
      ensures QuietLane(OnWire(f)[i])
    {
      if i < |f.data| {
        assert OnWire(f)[i] == Build(f)[i] && QuietLane(Build(f)[i]);
      }
    }
  }

  lemma {:induction false} StartWord(f: Frame, o: nat, lanes: seq<Lane>)
    requires Mild(f) && (o == 0 || o == 4) && ClearUpTo(f, 8 - o) && lanes == Idles(o) + Framed(f)
    ensures |lanes| > 8 && Padded(lanes, 8) == lanes[..8] && Codable(lanes[..8])
    ensures lanes[o] == StartLane && (o > 0 ==> lanes[0] == IdleLane)
    ensures [Lane(PRE, false)] + lanes[..8][o + 1..] == OnWire(f)[..8 - o] && lanes[8..] == OnWire(f)[8 - o..]
  {
    FramedIs(f);
    var w: Word := lanes[..8];
    forall i | 0 <= i < o
      ensures w[i] == IdleLane
    {
      IdlesAre(o, i);
    }
    forall i | o < i < 8
      ensures w[i] == OnWire(f)[i - o] && !w[i].c
    {
      WireLane(f, i - o);
      assert !FlagAt(f, i - o);
    }
    assert StartsAt(w, o) && AllMapped(w, 0, o);
    assert [Lane(PRE, false)] + w[o + 1..] == OnWire(f)[..8 - o];
    assert lanes[8..] == Framed(f)[8 - o..] == OnWire(f)[8 - o..];
  }

  lemma {:induction false} StartBlock(k: Sink, w: Word, o: nat, b: Block, blocks: seq<Block>)
    requires k.frame.None? && (o == 0 || o == 4) && w[o] == StartLane && (o > 0 ==> w[0] == IdleLane)
    requires Decode(b) == w
    ensures Feed(k, Decoded([b] + blocks))
         == Feed(k.(frame := Some([Lane(PRE, false)] + w[o + 1..])), Decoded(blocks))
  {
    StartSinks(k, w, o);
    DecodedFirst(k, b, blocks);
  }

  /** The block of the start, and those after it. */
  lemma {:induction false} FirstBlock(k: Sink, o: nat, lanes: seq<Lane>, got: seq<Lane>)
    requires k.frame.None? && |lanes| > 8 && Codable(lanes[..8]) && (o == 0 || o == 4)
    requires lanes[o] == StartLane && (o > 0 ==> lanes[0] == IdleLane)
    requires got == [Lane(PRE, false)] + lanes[..8][o + 1..]
    ensures Feed(k, Decoded(Blocks(lanes))) == Feed(k.(frame := Some(got)), Decoded(Blocks(lanes[8..])))
    ensures NoneOver(Blocks(lanes[8..])) ==> NoneOver(Blocks(lanes))
  {
    var w: Word := lanes[..8];
    assert Padded(lanes, 8) == w;
    BaseRCodec.RoundTrip(w);
    StartBlock(k, w, o, Encode(w), Blocks(lanes[8..]));
  }

  lemma {:induction false} FeedFrameBlocks(k: Sink, f: Frame, o: nat, lanes: seq<Lane>)
    requires k.frame.None? && Mild(f) && (o == 0 || o == 4) && ClearUpTo(f, 8 - o)
    requires lanes == Idles(o) + Framed(f)
    ensures Feed(k, Decoded(Blocks(lanes))) == Sink(None, k.queue + [ReceivedR(f, 8 - o)])
    ensures NoneOver(Blocks(lanes))
  {
    StartWord(f, o, lanes);
    FirstBlock(k, o, lanes, OnWire(f)[..8 - o]);
    FeedAfterStart(k.(frame := Some(OnWire(f)[..8 - o])), f, 8 - o);
  }

  lemma {:induction false} FeedAfterStart(k: Sink, f: Frame, r: nat)
    requires Mild(f) && 0 < r <= |f.data| && k.frame == Some(OnWire(f)[..r])
    ensures var blocks := Blocks(OnWire(f)[r..]);
            Feed(k, Decoded(blocks)) == Sink(None, k.queue + [ReceivedR(f, r)]) && NoneOver(blocks)
  {
    QuietWire(f, r);
    FeedBlocks(k, OnWire(f)[..r], OnWire(f)[r..]);
  }

  /** The word of a start with a flag, or with the terminator, has no place for the start. */
  lemma {:induction false} StartEncodes(w: Word, o: nat, m: nat)
    requires (o == 0 || o == 4) && w[o] == StartLane && (forall i | 0 <= i < o :: w[i] == IdleLane)
    requires o < m < 8 && w[m].c && (forall i | o < i < 8 :: QuietLane(w[i]))
    ensures Encode(w) == Block(SYNC_CTRL, EncodeCtrl(w))
  {
    assert w[0].c && QuietLane(w[m]);
    if o == 0 {
      assert QuietLane(w[4]);
    }
    assert forall i | 0 <= i < 8 :: !EndsAt(w, i);
  }

  lemma {:induction false} StartLost(w: Word, o: nat, m: nat)
    requires (o == 0 || o == 4) && w[o] == StartLane && (forall i | 0 <= i < o :: w[i] == IdleLane)
    requires o < m < 8 && w[m].c && (forall i | o < i < 8 :: QuietLane(w[i]))
    ensures NoStart(Trip(w)) && Encode(w).over == 0
  {
    StartEncodes(w, o, m);
    CtrlLow(w, EncodeCtrl(w));
    CtrlDecodes(EncodeCtrl(w));
  }

  /** The first word of a frame, with a flag or the terminator in lane `m`. */
  lemma {:induction false} SpoiltWord(f: Frame, o: nat, lanes: seq<Lane>) returns (m: nat)
    requires Mild(f) && (o == 0 || o == 4) && !ClearUpTo(f, 8 - o) && lanes == Idles(o) + Framed(f)
    ensures var w := Padded(lanes, 8);
            && w[o] == StartLane && (forall i | 0 <= i < o :: w[i] == IdleLane)
            && o < m < 8 && w[m].c && forall i | o < i < 8 :: QuietLane(w[i])
    ensures Quiet(Rest(lanes))
  {
    FramedIs(f);
    QuietFrom(f);
    var w := Padded(lanes, 8);
    forall i | 0 <= i < 8
      ensures w[i] == if i < o then IdleLane else if i - o < |Framed(f)| then Framed(f)[i - o] else IdleLane
    {
      PaddedLane(lanes, 8, i);
      if i < o {
        IdlesAre(o, i);
      }
    }
    if |f.data| < 8 - o {
      m := o + |f.data|;
    } else {
      var i :| 0 < i < 8 - o && i < |f.data| && FlagAt(f, i);
      WireLane(f, i);
      m := o + i;
    }
    forall i | 0 <= i < |Rest(lanes)|
      ensures QuietLane(Rest(lanes)[i])
    {
      assert Rest(lanes)[i] == Framed(f)[8 - o + i];
    }
  }

  lemma {:induction false} QuietFrom(f: Frame)
    requires Mild(f)
    ensures forall i | 0 < i < |Framed(f)| :: QuietLane(Framed(f)[i])
  {
    forall i | 0 < i < |Framed(f)|
      ensures QuietLane(Framed(f)[i])
    {
      if i < |f.data| {
        assert Framed(f)[i] == Build(f)[i] && QuietLane(Build(f)[i]);
      }
    }
  }

  /** Such a frame is lost: the sink does not notice it. */
  lemma {:induction false} FrameLost(k: Sink, f: Frame, o: nat, lanes: seq<Lane>)
    requires k.frame.None? && Mild(f) && (o == 0 || o == 4) && !ClearUpTo(f, 8 - o)
    requires lanes == Idles(o) + Framed(f)
    ensures Feed(k, Decoded(Blocks(lanes))) == k && NoneOver(Blocks(lanes))
  {
    var w: Word := Padded(lanes, 8);
    var m := SpoiltWord(f, o, lanes);
    StartLost(w, o, m);
    assert SinkClock(k, Trip(w)) == k;
    DecodedFirst(k, Encode(w), Blocks(Rest(lanes)));
    QuietBlocks(k, Rest(lanes));
  }

  // ----- every run -----

  /** What is queued of a frame with `r` lanes in the word of the start: nothing, if one of them is flagged or
      the frame ends there. */
  function HeardOf(f: Frame, r: nat): seq<Frame>
    requires Sendable(f)
  {
    if ClearUpTo(f, r) then [ReceivedR(f, r)] else []
  }

  predicate Rooms(rooms: seq<nat>) {
    forall i | 0 <= i < |rooms| :: rooms[i] == 4 || rooms[i] == 8
  }

  /** What is queued of frames that have so many lanes in the word of the start. */
  function AllHeardOf(frames: seq<Frame>, rooms: seq<nat>): seq<Frame>
    requires AllMild(frames) && |rooms| == |frames|
  {
    if frames == [] then []
    else
      var n := |frames| - 1;
      AllHeardOf(frames[..n], rooms[..n]) + HeardOf(frames[n], rooms[n])
  }

  /** Once the blocks on their way are through, the sink has queued what it hears of all frames taken. */
  ghost predicate FollowsR(l: SerdesLink, rooms: seq<nat>) {
    && AllMild(l.sent) && l.tx == l.rx && (l.serdes.ccl != [] ==> l.serdes.ifgCnt == 0)
    && NoneOver(l.serdes.ccl) && Rooms(rooms) && |rooms| <= |l.sent| && l.sent[|rooms|..] == l.serdes.queue
    && Feed(l.sink, Decoded(l.serdes.ccl)) == Sink(None, AllHeardOf(l.sent[..|rooms|], rooms))
  }

  /** The lanes of the word of the next start that the frame takes. */
  function RoomR(s: Serdes): nat { if s.ifgCnt >= 4 || s.force then 4 else 8 }

  lemma {:induction false} FollowsReady(l: SerdesLink, rooms: seq<nat>)
    requires FollowsR(l, rooms)
    ensures Ready(l.serdes) && (l.serdes.queue != [] ==> |rooms| < |l.sent| && l.serdes.queue[0] == l.sent[|rooms|])
  {
    if l.serdes.queue != [] {
      assert l.sent[|rooms|..][0] == l.sent[|rooms|] && Mild(l.sent[|rooms|]);
    }
  }

  /** A block crosses the line. */
  lemma {:induction false} BlockCrosses(l: SerdesLink)
    requires l.tx == l.rx && Ready(l.serdes) && SerdesClock(l.serdes).block.over == 0
    ensures CanClock(l)
    ensures var l', u := BaseRSerdes.Step(l, Clock), SerdesClock(l.serdes);
            l'.serdes == u.serdes && l'.sink == SinkClock(l.sink, Decode(u.block)) && l'.tx == l'.rx
            && l'.sent == l.sent
  {
    LineKeeps(SerdesClock(l.serdes).block, l.tx, l.mode);
  }

  lemma {:induction false} LineKeeps(b: Block, state: Scrambler.State, m: Mode)
    requires b.over == 0
    ensures FromLine(ToLine(b, state, m), state, m) == b
  {
    LineTrip(b, state, m);
  }

  lemma {:induction false} IdleCrosses(k: Sink)
    requires k.frame.None?
    ensures SinkClock(k, Decode(IdleBlock)) == k
  {
    IdleWordIs();
    BaseRCodec.RoundTrip(Idles(8));
    IdleWord(k, 8);
  }

  lemma {:induction false} LanesOf(s: Serdes, o: nat)
    requires s.queue != [] && Sendable(s.queue[0]) && o == 8 - RoomR(s)
    ensures NextLanes(s) == Idles(o) + Framed(s.queue[0])
  {
    assert Framed(s.queue[0]) == Idles(0) + Framed(s.queue[0]);
  }

  /** The blocks of a frame, whether it is heard or lost. */
  lemma {:induction false} FeedHeard(k: Sink, f: Frame, o: nat, lanes: seq<Lane>)
    requires k.frame.None? && Mild(f) && (o == 0 || o == 4) && lanes == Idles(o) + Framed(f)
    ensures Feed(k, Decoded(Blocks(lanes))) == Sink(None, k.queue + HeardOf(f, 8 - o)) && NoneOver(Blocks(lanes))
  {
    if ClearUpTo(f, 8 - o) {
      FeedFrameBlocks(k, f, o, lanes);
    } else {
      FrameLost(k, f, o, lanes);
      assert k.queue + [] == k.queue;
    }
  }

  lemma {:induction false} AllHeardMore(frames: seq<Frame>, rooms: seq<nat>, n: nat, r: nat)
    requires AllMild(frames) && |rooms| == n < |frames|
    ensures AllHeardOf(frames[..n + 1], rooms + [r]) == AllHeardOf(frames[..n], rooms) + HeardOf(frames[n], r)
  {
    assert frames[..n + 1][..n] == frames[..n] && (rooms + [r])[..n] == rooms;
  }

  /** The blocks of the next frame. */
  lemma {:induction false} LoadFollowsR(l: SerdesLink, rooms: seq<nat>)
    requires FollowsR(l, rooms) && Ready(l.serdes) && l.serdes.ccl == [] && l.serdes.queue != []
    ensures FollowsR(l.(serdes := LoadBlocks(l.serdes)), rooms + [RoomR(l.serdes)])
  {
    var s, n := l.serdes, |rooms|;
    FollowsReady(l, rooms);
    assert l.sent[n + 1..] == l.sent[n..][1..] && Mild(l.sent[n]);
    LanesOf(s, 8 - RoomR(s));
    FeedHeard(l.sink, s.queue[0], 8 - RoomR(s), NextLanes(s));
    AllHeardMore(l.sent, rooms, n, RoomR(s));
    LoadedFollowsR(l, LoadBlocks(s), rooms, RoomR(s));
  }

  lemma {:induction false} LoadedFollowsR(l: SerdesLink, t: Serdes, rooms: seq<nat>, r: nat)
    requires AllMild(l.sent) && l.tx == l.rx && t.ifgCnt == 0 && NoneOver(t.ccl) && Rooms(rooms) && (r == 4 || r == 8)
    requires |rooms| < |l.sent| && t.queue == l.sent[|rooms| + 1..]
    requires l.sink == Sink(None, AllHeardOf(l.sent[..|rooms|], rooms))
    requires Feed(l.sink, Decoded(t.ccl)) == Sink(None, l.sink.queue + HeardOf(l.sent[|rooms|], r))
    requires AllHeardOf(l.sent[..|rooms| + 1], rooms + [r])
          == AllHeardOf(l.sent[..|rooms|], rooms) + HeardOf(l.sent[|rooms|], r)
    ensures FollowsR(l.(serdes := t), rooms + [r])
  {
  }

  /** The next block. */
  lemma {:induction false} PopFollowsR(l: SerdesLink, l': SerdesLink, rooms: seq<nat>)
    requires FollowsR(l, rooms) && l.serdes.ccl != [] && l'.tx == l'.rx && l'.sent == l.sent
    requires l'.serdes == PopBlock(l.serdes) && l'.sink == SinkClock(l.sink, Decode(l.serdes.ccl[0]))
    ensures FollowsR(l', rooms)
  {
    var ccl := l.serdes.ccl;
    assert ccl == [ccl[0]] + ccl[1..];
    DecodedFirst(l.sink, ccl[0], ccl[1..]);
  }

  lemma {:induction false} GapFollowsR(l: SerdesLink, l': SerdesLink, rooms: seq<nat>)
    requires FollowsR(l, rooms) && l.serdes.ccl == [] && l'.tx == l'.rx && l'.sent == l.sent
    requires l'.serdes.ccl == [] && l'.serdes.queue == l.serdes.queue && l'.sink == SinkClock(l.sink, Decode(IdleBlock))
    ensures FollowsR(l', rooms)
  {
    IdleCrosses(l.sink);
  }

  lemma {:induction false} ClockFollowsR(l: SerdesLink, rooms: seq<nat>) returns (rooms': seq<nat>)
    requires FollowsR(l, rooms)
    ensures CanClock(l) && FollowsR(BaseRSerdes.Step(l, Clock), rooms')
  {
    var s := l.serdes;
    rooms' := rooms;
    FollowsReady(l, rooms);
    if GapLeft(s) || (s.ccl == [] && s.queue == []) {
      BlockCrosses(l);
      GapFollowsR(l, BaseRSerdes.Step(l, Clock), rooms);
    } else if s.ccl != [] {
      BlockCrosses(l);
      PopFollowsR(l, BaseRSerdes.Step(l, Clock), rooms);
    } else {
      rooms' := rooms + [RoomR(s)];
      BlocksSome(NextLanes(s));
      LoadFollowsR(l, rooms);
      BlockCrosses(l);
      PopFollowsR(l.(serdes := LoadBlocks(s)), BaseRSerdes.Step(l, Clock), rooms');
    }
  }

  predicate MildEvents(events: seq<Event>) {
    forall i | 0 <= i < |events| :: events[i].Send? ==> Mild(events[i].frame)
  }

  /** No clock of the run raises an exception. */
  ghost predicate Completes(l: SerdesLink, events: seq<Event>)
    decreases |events|
  {
    events == [] || ((events[0].Clock? ==> CanClock(l)) && Completes(BaseRSerdes.Step(l, events[0]), events[1..]))
  }

  lemma {:induction false} SendFollowsR(l: SerdesLink, f: Frame, rooms: seq<nat>)
    requires FollowsR(l, rooms) && Mild(f)
    ensures FollowsR(BaseRSerdes.Step(l, Send(f)), rooms)
  {
    var n := |rooms|;
    assert (l.sent + [f])[n..] == l.sent[n..] + [f] && (l.sent + [f])[..n] == l.sent[..n];
  }

  lemma {:induction false} RunFollowsR(l: SerdesLink, events: seq<Event>, rooms: seq<nat>) returns (rooms': seq<nat>)
    requires FollowsR(l, rooms) && MildEvents(events)
    ensures Completes(l, events) && FollowsR(BaseRResync.Run(l, events), rooms')
    decreases |events|
  {
    rooms' := rooms;
    if events != [] {
      match events[0] {
        case Clock => rooms' := ClockFollowsR(l, rooms);
        case Send(f) => SendFollowsR(l, f, rooms);
      }
      rooms' := RunFollowsR(BaseRSerdes.Step(l, events[0]), events[1..], rooms');
    }
  }

  // ----- what is heard -----

  /** The bytes before byte `j` as they were sent, and then an error, which has taken the place of its whole
      word from `j` to beyond `k`: or, at `j` itself, the character sent there, if it has a code; or without
      a character up to `k`, if that is the terminator. */
  ghost predicate CutAtWord(f: Frame, k: nat, j: nat, g: Frame)
    requires f.Valid() && j <= k < |f.data|
  {
    var c := if f.error[k] then ERROR else f.data[k];
    var d := if k == j && Coded(c) then c else ERROR;
    if c == TERM then g == Clean(f.data[..k])
    else g == Frame(f.data[..j] + [d], Flags(j) + [d == ERROR], Flags(j) + [true])
  }

  /** With `r` lanes in the word of the start, the word of byte `k` begins at byte k - (k - r) % 8. */
  ghost predicate CutInWord(f: Frame, k: nat, r: nat, g: Frame)
    requires f.Valid() && r <= k < |f.data|
  {
    CutAtWord(f, k, k - (k - r) % 8, g)
  }

  lemma {:induction false} StopOfRest(f: Frame, r: nat, k: nat)
    requires Sendable(f) && FirstFlag(f, k) && 0 < r <= k
    ensures Stop(OnWire(f)[r..], 0) == k - r
    ensures OnWire(f)[k] == Lane(if f.error[k] then ERROR else f.data[k], true)
  {
    var w := OnWire(f);
    WireLane(f, k);
    forall j | 0 <= j < k - r
      ensures !w[r..][j].c
    {
      WireLane(f, r + j);
      assert !FlagAt(f, r + j);
    }
    assert FlagAt(f, k);
    StopIs(w[r..], 0, k - r);
  }

  lemma {:induction false} WordStart(k: nat, r: nat)
    requires r <= k
    ensures r <= k - (k - r) % 8 <= k && (k - r) - (k - r) % 8 == k - (k - r) % 8 - r
  {
  }

  lemma {:induction false} FlagCutsWord(f: Frame, k: nat, r: nat)
    requires Sendable(f) && FirstFlag(f, k) && 0 < r <= k
    ensures CutInWord(f, k, r, ReceivedR(f, r))
  {
    StopOfRest(f, r, k);
    WordStart(k, r);
    if OnWire(f)[k].d == TERM {
      BrokenAtTerm(f, k, r);
    } else {
      BrokenAtWord(f, k, r, k - (k - r) % 8);
    }
  }

  lemma {:induction false} BrokenAtTerm(f: Frame, k: nat, r: nat)
    requires Sendable(f) && FirstFlag(f, k) && 0 < r <= k && Stop(OnWire(f)[r..], 0) == k - r
    requires OnWire(f)[k].d == TERM
    ensures ReceivedR(f, r) == Clean(f.data[..k])
  {
    var w := OnWire(f);
    BrokenIsTerm(w[..r], w[r..], k - r);
    Joined(w, r, k);
    ParsedPrefix(f, k);
  }

  lemma {:induction false} BrokenIsTerm(got: seq<Lane>, lanes: seq<Lane>, k: nat)
    requires k == Stop(lanes, 0) < |lanes| && lanes[k].d == TERM
    ensures Broken(got, lanes) == Parse(got + lanes[..k])
  {
  }

  lemma {:induction false} BrokenIs(got: seq<Lane>, lanes: seq<Lane>, k: nat, j: nat)
    requires k == Stop(lanes, 0) < |lanes| && j == k - k % 8 && lanes[k].d != TERM
    ensures Broken(got, lanes)
         == Parse(got + lanes[..j] + [if k == j && Coded(lanes[k].d) then lanes[k] else ErrorLane])
  {
  }

  lemma {:induction false} BrokenAtWord(f: Frame, k: nat, r: nat, j: nat)
    requires Sendable(f) && FirstFlag(f, k) && 0 < r <= j <= k && (k - r) - (k - r) % 8 == j - r
    requires Stop(OnWire(f)[r..], 0) == k - r && OnWire(f)[k].c && OnWire(f)[k].d != TERM
    ensures var d := if k == j && Coded(OnWire(f)[k].d) then OnWire(f)[k].d else ERROR;
            ReceivedR(f, r) == Frame(f.data[..j] + [d], Flags(j) + [d == ERROR], Flags(j) + [true])
  {
    var w := OnWire(f);
    var l := if k == j && Coded(w[k].d) then w[k] else ErrorLane;
    BrokenIs(w[..r], w[r..], k - r, j - r);
    assert w[r..][k - r] == w[k];
    Joined(w, r, j);
    PrefixAnd(f, j, l);
  }

  lemma {:induction false} Joined(w: seq<Lane>, r: nat, j: nat)
    requires r <= j <= |w|
    ensures w[..r] + w[r..][..j - r] == w[..j]
  {
  }

  lemma {:induction false} PrefixAnd(f: Frame, j: nat, l: Lane)
    requires Sendable(f) && 0 < j < |f.data| && (forall i | 0 < i < j :: !FlagAt(f, i)) && l.c
    ensures Parse(OnWire(f)[..j] + [l])
         == Frame(f.data[..j] + [l.d], Flags(j) + [l.d == ERROR], Flags(j) + [true])
  {
    ParsedPrefix(f, j);
    ParsedMore(OnWire(f)[..j], l);
  }

  lemma {:induction false} CleanComesR(f: Frame, r: nat)
    requires Sendable(f) && 0 < r <= |f.data| && forall i | 0 < i < |f.data| :: !FlagAt(f, i)
    ensures ReceivedR(f, r) == Clean(f.data)
  {
    var w, n := OnWire(f), |f.data|;
    forall j | 0 <= j < n - r
      ensures !w[r..][j].c
    {
      WireLane(f, r + j);
      assert !FlagAt(f, r + j);
    }
    StopIs(w[r..], 0, n - r);
    assert w[..r] + w[r..][..n - r] == w[..n];
    ParsedPrefix(f, n);
    assert f.data[..n] == f.data;
  }

  /** What is queued of a frame: up to the word of its first flag, or all of it, if it has none. */
  lemma {:induction false} ReceivedIs(f: Frame, r: nat)
    requires Sendable(f) && 0 < r && ClearUpTo(f, r)
    ensures forall k: nat | FirstFlag(f, k) :: r <= k && CutInWord(f, k, r, ReceivedR(f, r))
    ensures (forall i | 0 < i < |f.data| :: !FlagAt(f, i)) ==> ReceivedR(f, r) == Clean(f.data)
  {
    forall k: nat | FirstFlag(f, k)
      ensures r <= k && CutInWord(f, k, r, ReceivedR(f, r))
    {
      assert FlagAt(f, k);
      FlagCutsWord(f, k, r);
    }
    if forall i | 0 < i < |f.data| :: !FlagAt(f, i) {
      CleanComesR(f, r);
    }
  }

  lemma {:induction false} IdleFollowsR(l: SerdesLink)
    requires l.serdes.queue == [] && l.serdes.ccl == [] && l.sink == Sink(None, []) && l.sent == []
    requires l.tx == l.rx
    ensures FollowsR(l, [])
  {
  }

  lemma {:induction false} FollowsHeardR(l: SerdesLink, rooms: seq<nat>)
    requires FollowsR(l, rooms)
    ensures l.sink.queue <= AllHeardOf(l.sent[..|rooms|], rooms)
    ensures l.serdes.ccl == [] && l.serdes.queue == [] ==>
              |rooms| == |l.sent| && l.sink.queue == AllHeardOf(l.sent, rooms)
  {
    FeedGrows(l.sink, Decoded(l.serdes.ccl));
    if l.serdes.queue == [] {
      assert |l.sent[|rooms|..]| == 0;
      assert l.sent[..|rooms|] == l.sent;
    }
  }

  /** In every run, with any setting shared by both ends and frames with any flags but starts and ordered sets:
      nothing raises an exception, and the sink queues, in order, what is heard of the frames sent (ReceivedIs),
      with four or eight lanes of each in the word of its start; of a frame that has a flag there, or ends
      there, it hears nothing. */
  lemma {:induction false} FlagsDeliveredR(ifg: int, dic: bool, force: bool, mode: Mode, events: seq<Event>)
    returns (rooms: seq<nat>)
    requires MildEvents(events)
    ensures Completes(BaseRSerdes.Boot(ifg, dic, force, mode), events)
    ensures var l := BaseRResync.Run(BaseRSerdes.Boot(ifg, dic, force, mode), events);
            && AllMild(l.sent) && Rooms(rooms) && |rooms| <= |l.sent|
            && l.sink.queue <= AllHeardOf(l.sent[..|rooms|], rooms)
            && (l.serdes.ccl == [] && l.serdes.queue == [] ==>
                  |rooms| == |l.sent| && l.sink.queue == AllHeardOf(l.sent, rooms))
  {
    var l := BaseRSerdes.Boot(ifg, dic, force, mode);
    IdleFollowsR(l);
    rooms := RunFollowsR(l, events, []);
    FollowsHeardR(BaseRResync.Run(l, events), rooms);
  }
}
