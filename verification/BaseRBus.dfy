/** The 10GBASE-R source and sink as objects, whose loops do what the functions of BaseRSerdes say. */
module BaseRBus {
  import opened Wrappers
  import opened Xgmii
  import opened XgmiiBus
  import opened BaseRCodec
  import opened BitVectors
  import opened BaseRSerdes

  // ----- encoding a frame -----

  /** The lanes from `k` on. */
  function Rest(lanes: seq<Lane>, k: nat): seq<Lane> {
    if k < |lanes| then lanes[k..] else []
  }

  lemma {:induction false} BlocksStep(lanes: seq<Lane>, k: nat, padded: seq<Lane>, done: seq<Block>)
    requires k < |lanes|
    requires k + 8 <= |padded| && padded[k..k + 8] == Padded(lanes[k..], 8)
    ensures done + Blocks(Rest(lanes, k))
         == done + [Encode(padded[k..k + 8])] + Blocks(Rest(lanes, k + 8))
  {
    if k + 8 < |lanes| {
      assert lanes[k..][8..] == lanes[k + 8..];
    }
  }

  lemma {:induction false} PaddedAt(lanes: seq<Lane>, pad: nat, k: nat)
    requires k < |lanes| && k + 8 <= |lanes| + pad && (k + 8 > |lanes| ==> k + 8 == |lanes| + pad)
    ensures (lanes + Idles(pad))[k..k + 8] == Padded(lanes[k..], 8)
  {
  }

  ghost predicate IsPadded(dl: seq<Lane>, padded: seq<Lane>, pad: nat) {
    padded == dl + Idles(pad) && pad < 8
  }

  /** Pad with idles to a multiple of eight lanes. */
  method PadFrame(dl: seq<Lane>) returns (padded: seq<Lane>, ghost pad: nat, ghost words: nat)
    ensures IsPadded(dl, padded, pad) && |padded| == 8 * words
  {
    padded, pad, words := dl, 0, |dl| / 8;
    if |dl| % 8 != 0 {
      for k := 0 to 8 - |dl| % 8
        invariant padded == dl + Idles(k)
      {
        padded := padded + [IdleLane];
      }
      pad, words := 8 - |dl| % 8, |dl| / 8 + 1;
    }
    assert padded == dl + Idles(pad);
  }

  /** What is encoded, and what is left from lane `k` on. */
  ghost predicate Encoding(dl: seq<Lane>, ccl: seq<Block>, k: nat)
  {
    ccl + Blocks(Rest(dl, k)) == Blocks(dl)
  }

  lemma {:induction false} EncodingStep(dl: seq<Lane>, pad: nat, padded: seq<Lane>, ccl: seq<Block>,
                                        k: nat, k': nat)
    requires Encoding(dl, ccl, k) && IsPadded(dl, padded, pad)
    requires k' == k + 8 && k' <= |padded| && k < |dl| && (k' > |dl| ==> k' == |padded|)
    ensures Encoding(dl, ccl + [Encode(padded[k..k'])], k')
  {
    PaddedAt(dl, pad, k);
    BlocksStep(dl, k, padded, ccl);
  }

  lemma {:induction false} RoundLeft(dl: seq<Lane>, pad: nat, padded: seq<Lane>, k: nat, k': nat,
                                     j: nat, words: nat)
    requires IsPadded(dl, padded, pad) && |padded| == 8 * words && k == 8 * j && k < |padded|
    requires k' == k + 8
    ensures j < words && k' <= |padded| && k < |dl| && (k' > |dl| ==> k' == |padded|)
  {
  }

  /** Pad a frame and encode word after word. */
  method EncodeFrame(dl: seq<Lane>) returns (ccl: seq<Block>)
    ensures ccl == Blocks(dl)
  {
    var padded;
    ghost var pad, words;
    padded, pad, words := PadFrame(dl);
    ccl := [];
    EncodingStarts(dl);
    var k: nat := 0;
    ghost var j: nat := 0;
    while k < |padded|
      invariant k == 8 * j && j <= words && Encoding(dl, ccl, k)
      decreases words - j
    {
      var next := k + 8;
      RoundLeft(dl, pad, padded, k, next, j, words);
      EncodingStep(dl, pad, padded, ccl, k, next);
      ccl := ccl + [Encode(padded[k..next])];
      k, j := next, j + 1;
    }
    EncodingEnds(dl, ccl, k);
  }

  lemma {:induction false} EncodingStarts(dl: seq<Lane>)
    ensures Encoding(dl, [], 0)
  {
    assert Rest(dl, 0) == dl;
  }

  lemma {:induction false} EncodingEnds(dl: seq<Lane>, ccl: seq<Block>, k: nat)
    requires Encoding(dl, ccl, k) && k >= |dl|
    ensures ccl == Blocks(dl)
  {
    assert Blocks(Rest(dl, k)) == [];
  }

  class BaseRSource {
    var ifg: int
    var enableDic: bool
    var forceOffsetStart: bool
    const mode: Mode
    var queue: seq<Frame>
    var ccl: seq<Block>
    var ifgCnt: int
    var deficitIdleCnt: nat
    var scramblerState: Scrambler.State
    /** What is driven onto tx_header and tx_data. */
    var tx: Line

    ghost function Abstract(): Serdes
      reads this
    {
      Serdes(ifg, enableDic, forceOffsetStart, queue, ccl, ifgCnt, deficitIdleCnt)
    }

    constructor (ifg: int, enableDic: bool, mode: Mode)
      ensures Abstract() == Serdes(ifg, enableDic, false, [], [], 0, 0)
      ensures this.mode == mode && scramblerState == Scrambler.Zero()
    {
      this.ifg, this.enableDic, forceOffsetStart, this.mode := ifg, enableDic, false, mode;
      queue, ccl, ifgCnt, deficitIdleCnt := [], [], 0, 0;
      scramblerState, tx := Scrambler.Zero(), Line([false, false], seq(64, _ => false));
    }

    method Send(frame: Frame)
      modifies this`queue
      ensures queue == old(queue) + [frame]
    {
      queue := queue + [frame];
    }

    method TakeBlock() returns (block: Block)
      requires ccl != []
      modifies this`ccl, this`ifgCnt
      ensures block == old(ccl)[0] && Abstract() == PopBlock(old(Abstract()))
    {
      block := ccl[0];
      ccl := ccl[1..];
      if ccl == [] {
        var l := TermLaneOf(TypeOf(block.data));
        if l.Some? {
          ifgCnt := ifg - (8 - l.value) + deficitIdleCnt;
        } else {
          ifgCnt := ifg + deficitIdleCnt;
        }
      }
    }

    method LoadFrame()
      requires queue != [] && Sendable(queue[0])
      modifies this`queue, this`ccl, this`ifgCnt, this`deficitIdleCnt
      ensures Abstract() == LoadBlocks(old(Abstract()))
    {
      var frame := queue[0];
      queue := queue[1..];
      var dl := BuildFrame(frame.data, frame.error, frame.ctrl);
      dl := dl[0 := StartLane];
      dl := dl + [TermLane];
      assert dl == Framed(frame);
      if ifgCnt >= 4 || forceOffsetStart {
        ifgCnt := Max(ifgCnt - 4, 0);
        dl := Idles(4) + dl;
      }
      deficitIdleCnt := Max(ifgCnt, 0);
      ifgCnt := 0;
      ccl := EncodeFrame(dl);
    }

    /** The block of this clock. */
    method NextBlock() returns (block: Block)
      requires Ready(Abstract())
      modifies this`queue, this`ccl, this`ifgCnt, this`deficitIdleCnt
      ensures Abstract() == SerdesClock(old(Abstract())).serdes
      ensures block == SerdesClock(old(Abstract())).block
    {
      block := IdleBlock;
      if ifgCnt > 7 || (!enableDic && ifgCnt > 0) {
        ifgCnt := Max(ifgCnt - 8, 0);
      } else if ccl != [] {
        block := TakeBlock();
      } else if queue != [] {
        BlocksSome(NextLanes(Abstract()));
        LoadFrame();
        block := TakeBlock();
      } else {
        ifgCnt, deficitIdleCnt := 0, 0;
      }
    }

    /** Scramble and reverse the block. */
    method Drive(block: Block)
      modifies this`scramblerState, this`tx
      ensures tx == ToLine(block, old(scramblerState), mode)
      ensures scramblerState == NextState(tx, old(scramblerState), mode)
    {
      var header, data := HeaderBits(block.header), Bits(block.data);
      if mode.scramble {
        ghost var scrambled := Scrambler.Scramble(scramblerState, data);
        ReversedTwice(scrambled);
        data, scramblerState := Scrambler.ScrambleWord(scramblerState, data);
      }
      if mode.reverse {
        data := ReverseBits(data);
        header := ReverseBits(header);
      }
      tx := Line(header, data);
    }

    /** One clock; `ok` is false where a block does not fit the bus. */
    method OnClock(enable: bool) returns (ok: bool)
      requires Ready(Abstract())
      modifies this
      ensures !enable ==> ok && Abstract() == old(Abstract()) && tx == old(tx)
                          && scramblerState == old(scramblerState)
      ensures enable ==>
                var u := SerdesClock(old(Abstract()));
                && ok == Fits(u.block, mode) && Abstract() == u.serdes
                && (ok ==> tx == ToLine(u.block, old(scramblerState), mode)
                           && scramblerState == NextState(tx, old(scramblerState), mode))
    {
      ok := true;
      if enable {
        var block := NextBlock();
        ok := Fits(block, mode);
        if ok {
          Drive(block);
        }
      }
    }
  }

  class BaseRSink {
    const mode: Mode
    const inner: XgmiiSink
    var scramblerState: Scrambler.State

    ghost predicate Valid()
      reads this, inner
    {
      inner.bw == 8
    }

    constructor (mode: Mode)
      ensures Valid() && fresh(inner) && inner.Abstract() == Sink(None, [])
      ensures this.mode == mode && scramblerState == Scrambler.Zero()
    {
      this.mode, scramblerState := mode, Scrambler.Zero();
      inner := new XgmiiSink(8);
    }

    /** Undo reversal and scrambling. */
    method Receive(l: Line) returns (block: Block)
      requires |l.header| == 2 && |l.data| == 64
      modifies this`scramblerState
      ensures block == FromLine(l, old(scramblerState), mode)
      ensures scramblerState == NextState(l, old(scramblerState), mode)
    {
      var header, data := l.header, l.data;
      if mode.reverse {
        data := ReverseBits(data);
        header := ReverseBits(header);
      }
      if mode.scramble {
        data, scramblerState := Scrambler.DescrambleWord(scramblerState, data);
      }
      block := Block(Header(header), WordOf(data));
    }

    /** Decode a block and go on as an XGMII sink does. */
    method OnClock(enable: bool, l: Line)
      requires Valid() && |l.header| == 2 && |l.data| == 64
      modifies this`scramblerState, inner
      ensures Valid()
      ensures !enable ==> inner.Abstract() == old(inner.Abstract())
                          && scramblerState == old(scramblerState)
      ensures enable ==>
                && inner.Abstract() == SinkClock(old(inner.Abstract()),
                                                 Decode(FromLine(l, old(scramblerState), mode)))
                && scramblerState == NextState(l, old(scramblerState), mode)
    {
      if enable {
        var block := Receive(l);
        inner.OnClock(false, true, Decode(block));
      }
    }
  }
}
