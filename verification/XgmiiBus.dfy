/** The XGMII source and sink as objects, whose loops do what the functions of Xgmii say. */
module XgmiiBus {
  import opened Wrappers
  import opened Xgmii

  /** XGMIIFrame.build: put the error character in place of bytes flagged as errors, and flag it. */
  method BuildFrame(data: seq<byte>, error: seq<bool>, ctrl: seq<bool>) returns (lanes: seq<Lane>)
    requires |error| == |data| == |ctrl|
    ensures lanes == Build(Frame(data, error, ctrl))
  {
    var f, c := data, ctrl;
    for i := 0 to |data|
      invariant |f| == |c| == |data|
      invariant forall j | 0 <= j < |data| ::
                  f[j] == (if j < i && error[j] then ERROR else data[j])
                  && c[j] == (if j < i && error[j] then true else ctrl[j])
    {
      if error[i] {
        f := f[i := ERROR];
        c := c[i := true];
      }
    }
    lanes := [];
    for i := 0 to |data|
      invariant lanes == Build(Frame(data, error, ctrl))[..i]
    {
      lanes := lanes + [Lane(f[i], c[i])];
    }
  }

  /** XGMIIFrame.parse: flag the error characters. */
  method ParseLanes(lanes: seq<Lane>) returns (f: Frame)
    ensures f == Parse(lanes)
  {
    var data: seq<byte>, ctrl: seq<bool>, error: seq<bool> := [], [], [];
    for i := 0 to |lanes|
      invariant data == Parse(lanes).data[..i] && ctrl == Parse(lanes).ctrl[..i]
      invariant error == Parse(lanes).error[..i]
    {
      data := data + [lanes[i].d];
      ctrl := ctrl + [lanes[i].c];
      error := error + [lanes[i].c && lanes[i].d == ERROR];
    }
    f := Frame(data, error, ctrl);
  }

  class XgmiiSource {
    const bw: nat
    var ifg: int
    var enableDic: bool
    var forceOffsetStart: bool
    var queue: seq<Frame>
    var dl: seq<Lane>
    var ifgCnt: int
    var deficitIdleCnt: nat
    /** The lanes driven onto the bus. */
    var tx: seq<Lane>

    ghost function Abstract(): Source
      reads this
    {
      Source(bw, ifg, enableDic, forceOffsetStart, queue, dl, ifgCnt, deficitIdleCnt)
    }

    constructor (bw: nat, ifg: int, enableDic: bool)
      requires bw == 4 || bw == 8
      ensures Abstract() == Source(bw, ifg, enableDic, false, [], [], 0, 0) && tx == Idles(bw)
    {
      this.bw, this.ifg, this.enableDic, forceOffsetStart := bw, ifg, enableDic, false;
      queue, dl, ifgCnt, deficitIdleCnt := [], [], 0, 0;
      tx := Idles(bw);
    }

    method Send(frame: Frame)
      modifies this`queue
      ensures queue == old(queue) + [frame]
    {
      queue := queue + [frame];
    }

    /** Pop a lane for each lane of the bus, and idles when there is none; with the last lane the gap
        begins. */
    method FillWord()
      requires dl != []
      modifies this`dl, this`ifgCnt, this`tx
      ensures Abstract() == Emit(old(Abstract())) && tx == Padded(old(dl), bw)
    {
      ghost var n := |dl|;
      tx := [];
      AllIdle(bw - n);
      for i := 0 to bw
        invariant tx == Padded(old(dl), bw)[..i]
        invariant dl == if i < n then old(dl)[i..] else []
        invariant ifgCnt == if i < n then old(ifgCnt) else ifg - (bw - (n - 1)) + deficitIdleCnt
      {
        if dl != [] {
          tx := tx + [dl[0]];
          dl := dl[1..];
          if dl == [] {
            ifgCnt := ifg - (bw - i) + deficitIdleCnt;
          }
        } else {
          tx := tx + [IdleLane];
        }
      }
    }

    /** Frame the next packet: start and terminator, perhaps four idles in front; the gap left over
        becomes the deficit. */
    method LoadFrame()
      requires queue != [] && Sendable(queue[0])
      modifies this`queue, this`dl, this`ifgCnt, this`deficitIdleCnt
      ensures Abstract() == Load(old(Abstract()))
    {
      var frame := queue[0];
      queue := queue[1..];
      dl := BuildFrame(frame.data, frame.error, frame.ctrl);
      dl := dl[0 := StartLane];
      dl := dl + [TermLane];
      assert dl == Framed(frame);
      if (bw == 8 && ifgCnt >= 4) || forceOffsetStart {
        ifgCnt := Max(ifgCnt - 4, 0);
        dl := Idles(4) + dl;
      }
      deficitIdleCnt := Max(ifgCnt, 0);
      ifgCnt := 0;
    }

    method OnClock(rst: bool, enable: bool)
      requires Abstract().Valid()
      modifies this
      ensures Abstract().Valid()
      ensures rst ==> Abstract() == old(Abstract()).(lanes := [], ifgCnt := 0, deficit := 0)
                      && tx == Idles(bw)
      ensures !rst && enable ==>
                Abstract() == SourceClock(old(Abstract())).source && tx == SourceClock(old(Abstract())).word
      ensures !rst && !enable ==> Abstract() == old(Abstract()) && tx == old(tx)
    {
      if rst {
        tx, dl, ifgCnt, deficitIdleCnt := Idles(bw), [], 0, 0;
      } else if enable {
        if ifgCnt > bw - 1 || (!enableDic && ifgCnt > 0) {
          ifgCnt := Max(ifgCnt - bw, 0);
          tx := Idles(bw);
        } else if dl != [] {
          FillWord();
        } else if queue != [] {
          LoadFrame();
          FillWord();
        } else {
          ifgCnt, deficitIdleCnt := 0, 0;
          tx := Idles(bw);
        }
      }
    }
  }

  lemma {:induction false} AllIdle(n: int)
    ensures n >= 0 ==> forall i | 0 <= i < n :: Idles(n)[i] == IdleLane
  {
    if n > 0 {
      AllIdle(n - 1);
    }
  }

  class XgmiiSink {
    const bw: nat
    var frame: Option<seq<Lane>>
    var queue: seq<Frame>

    ghost function Abstract(): Sink
      reads this
    {
      Sink(frame, queue)
    }

    constructor (bw: nat)
      requires bw == 4 || bw == 8
      ensures this.bw == bw && Abstract() == Sink(None, [])
    {
      this.bw, frame, queue := bw, None, [];
    }

    /** Go through the lanes of a word within a frame, up to the first control character. */
    method ScanWord(word: seq<Lane>)
      requires frame.Some?
      modifies this
      ensures Abstract() == Scan(old(Abstract()), old(frame).value, word, 0)
    {
      var d := frame.value;
      for i := 0 to |word|
        invariant Abstract() == old(Abstract())
        invariant Scan(old(Abstract()), old(frame).value, word, 0) == Scan(old(Abstract()), d, word, i)
      {
        if word[i].c {
          if word[i].d != TERM {
            d := d + [word[i]];
          }
          var got := ParseLanes(d);
          queue := queue + [got];
          frame := None;
          return;
        }
        d := d + [word[i]];
      }
      frame := Some(d);
    }

    method OnClock(rst: bool, enable: bool, word: seq<Lane>)
      requires |word| == bw && (bw == 4 || bw == 8)
      modifies this
      ensures rst ==> Abstract() == old(Abstract()).(frame := None)
      ensures !rst && enable ==> Abstract() == SinkClock(old(Abstract()), word)
      ensures !rst && !enable ==> Abstract() == old(Abstract())
    {
      if rst {
        frame := None;
      } else if enable {
        if frame.None? {
          if word[0].c && word[0].d == START {
            frame := Some([Lane(PRE, false)] + word[1..]);
          } else if bw == 8 && word[4].c && word[4].d == START {
            frame := Some([Lane(PRE, false)] + word[5..]);
          }
        } else {
          ScanWord(word);
        }
      }
    }
  }
}
