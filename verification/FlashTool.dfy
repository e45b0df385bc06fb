/** The firmware tool on top of the flash driver: requests are cut at multiples of 64 KiB, an image
    is erased, programmed and verified, and a dual-QSPI image is spread over two chips. */
module FlashTool {
  import opened NorFlash

  const STEP := 0x10000

  // ----- cutting a range into segments -----

  /** The length of the next segment: to the next multiple of the step if more than a step is
      left, else all that is left. */
  function SegmentLen(addr: nat, remain: nat): (seg: nat)
    requires remain > 0
    ensures 0 < seg <= remain
  {
    if remain > STEP then
      if (addr + STEP) % STEP != 0 then STEP - (addr + STEP) % STEP else STEP
    else remain
  }

  datatype Segment = Segment(addr: nat, len: nat)

  function Segments(addr: nat, remain: nat): seq<Segment>
    decreases remain
  {
    if remain == 0 then []
    else
      var seg := SegmentLen(addr, remain);
      [Segment(addr, seg)] + Segments(addr + seg, remain - seg)
  }

  /** Each segment starts where the one before ends, and the last ends with the range. */
  ghost predicate Tiles(segments: seq<Segment>, addr: nat, len: nat)
    decreases |segments|
  {
    if segments == [] then len == 0
    else
      var s := segments[0];
      s.addr == addr && 0 < s.len <= len && Tiles(segments[1..], addr + s.len, len - s.len)
  }

  predicate InStep(s: Segment) {
    s.addr % STEP + s.len <= STEP
  }

  lemma {:induction false} SegmentsTile(addr: nat, len: nat)
    ensures Tiles(Segments(addr, len), addr, len)
    decreases len
  {
    if len > 0 {
      var seg := SegmentLen(addr, len);
      SegmentsTile(addr + seg, len - seg);
      assert Segments(addr, len)[1..] == Segments(addr + seg, len - seg);
    }
  }

  lemma {:induction false} AlignedInStep(addr: nat, len: nat)
    requires addr % STEP == 0
    ensures forall s | s in Segments(addr, len) :: InStep(s)
    decreases len
  {
    if len > 0 {
      var seg := SegmentLen(addr, len);
      if len > STEP {
        assert seg == STEP && (addr + seg) % STEP == 0;
        AlignedInStep(addr + seg, len - seg);
      } else {
        assert Segments(addr + seg, len - seg) == [];
      }
    }
  }

  /** No segment straddles a multiple of 64 KiB, except when the whole range is at most 64 KiB long
      and does. */
  lemma {:induction false} SegmentsInStep(addr: nat, len: nat)
    ensures (forall s | s in Segments(addr, len) :: InStep(s))
        <==> (len == 0 || len > STEP || addr % STEP + len <= STEP)
  {
    if len > STEP {
      var seg := SegmentLen(addr, len);
      assert (addr + seg) % STEP == 0 && addr % STEP + seg == STEP;
      AlignedInStep(addr + seg, len - seg);
    } else if len > 0 {
      assert Segments(addr, len) == [Segment(addr, len)] + Segments(addr + len, 0);
      assert Segment(addr, len) in Segments(addr, len);
    }
  }

  /** The condition under which every segment is read without crossing 16 MiB in three-byte mode. */
  predicate ReadsInPlace(addr: nat, len: nat) {
    len > STEP || Reaches(addr, len)
  }

  lemma {:induction false} SegmentReaches(addr: nat, remain: nat)
    requires remain > 0 && ReadsInPlace(addr, remain)
    ensures Reaches(addr, SegmentLen(addr, remain))
    ensures var seg := SegmentLen(addr, remain); ReadsInPlace(addr + seg, remain - seg)
  {
    var seg := SegmentLen(addr, remain);
    if remain > STEP {
      assert (addr + seg) % STEP == 0;
    }
  }

  lemma {:induction false} SegmentsReach(addr: nat, len: nat)
    ensures (forall s | s in Segments(addr, len) :: Reaches(s.addr, s.len)) <==> ReadsInPlace(addr, len)
    decreases len
  {
    if len > 0 {
      var seg := SegmentLen(addr, len);
      var rest := Segments(addr + seg, len - seg);
      assert Segments(addr, len) == [Segment(addr, seg)] + rest;
      SegmentsReach(addr + seg, len - seg);
      if ReadsInPlace(addr, len) {
        SegmentReaches(addr, len);
      } else {
        assert Segment(addr, seg) in Segments(addr, len);
      }
    } else {
      assert Segments(addr, 0) == [];
    }
  }

  // ----- the progress loops -----

  /** flash_read_progress */
  method ReadProgress(chip: Chip, addr: nat, len: nat) returns (data: seq<byte>)
    requires chip.Ready() && addr + len <= chip.mem.Length
    modifies chip`readAddr, chip`readFour
    ensures chip.Ready() && |data| == len
    ensures ReadsInPlace(addr, len) ==> data == chip.mem[addr..addr + len]
  {
    data := [];
    var at: nat, remain: nat := addr, len;
    while remain > 0
      invariant chip.Ready() && at + remain == addr + len && |data| == at - addr
      invariant ReadsInPlace(addr, len) ==> ReadsInPlace(at, remain) && data == chip.mem[addr..at]
      decreases remain
    {
      var seg := SegmentLen(at, remain);
      if ReadsInPlace(at, remain) {
        SegmentReaches(at, remain);
      }
      var piece := Read(chip, at, seg);
      assert chip.mem[addr..at] + chip.mem[at..at + seg] == chip.mem[addr..at + seg];
      data := data + piece;
      at, remain := at + seg, remain - seg;
    }
  }

  lemma {:induction false} ProgrammedMore(m0: seq<byte>, m1: seq<byte>, m2: seq<byte>, addr: nat,
                                          data: seq<byte>, o: nat, at: nat, piece: seq<byte>, n: nat)
    requires o + |piece| <= |data| && piece == data[o..o + |piece|] && n <= |piece| && at == addr + o
    requires Programmed(m0, m1, addr, data, o) && Programmed(m1, m2, at, piece, n)
    ensures Programmed(m0, m2, addr, data, o + n)
  {
    forall i | 0 <= i < |m0|
      ensures m2[i] == ProgrammedByte(m0[i], i, addr, data, o + n)
    {
      assert m1[i] == ProgrammedByte(m0[i], i, addr, data, o);
      assert m2[i] == ProgrammedByte(m1[i], i, at, piece, n);
    }
  }

  /** flash_write_progress */
  method WriteProgress(chip: Chip, addr: nat, src: seq<byte>) returns (ok: bool, ghost sent: nat)
    requires chip.Ready() && chip.load.Idle? && addr + |src| <= chip.mem.Length
    modifies chip`load, chip`latch, chip`tries, chip.mem
    ensures chip.Ready() && chip.load.Idle? && sent <= |src| && (ok <==> sent == |src|)
    ensures Tried(chip.sets, old(chip.tries), chip.tries, ok) && (chip.Works() ==> ok)
    ensures Programmed(old(chip.mem[..]), chip.mem[..], addr, src, sent)
  {
    var s: nat, remain: nat := 0, |src|;
    while remain > 0
      invariant chip.Ready() && chip.load.Idle? && s + remain == |src|
      invariant Programmed(old(chip.mem[..]), chip.mem[..], addr, src, s)
      invariant Tried(chip.sets, old(chip.tries), chip.tries, true)
      decreases remain
    {
      var seg := SegmentLen(addr + s, remain);
      ghost var m1 := chip.mem[..];
      ghost var n;
      ok, n := Write(chip, addr + s, src[s..s + seg]);
      ProgrammedMore(old(chip.mem[..]), m1, chip.mem[..], addr, src, s, addr + s, src[s..s + seg], n);
      if !ok {
        sent := s + n;
        return;
      }
      s, remain := s + seg, remain - seg;
    }
    ok, sent := true, s;
  }

  lemma {:induction false} PartOfSegment(addr: nat, remain: nat, seg: nat)
    requires remain > 0 && seg == SegmentLen(addr, remain)
    ensures if ErasablePart(addr, seg) == seg
            then ErasablePart(addr, remain) == seg + ErasablePart(addr + seg, remain - seg)
            else ErasablePart(addr, remain) == ErasablePart(addr, seg)
  {
    if remain > STEP {
      assert (addr + seg) % STEP == 0;
      SectorAligned(addr + seg);
    }
  }

  /** flash_erase_progress: with the same result as one request for the whole range. */
  method EraseProgress(chip: Chip, addr: nat, len: nat)
    returns (ok: bool, ghost done: nat)
    requires chip.Ready() && chip.load.Idle? && addr + len <= chip.mem.Length
    modifies chip`latch, chip`tries, chip.mem
    ensures chip.Ready() && done <= len && Erased(old(chip.mem[..]), chip.mem[..], addr, done)
    ensures ok <==> done == len
    ensures done <= ErasablePart(addr, len)
    ensures Tried(chip.sets, old(chip.tries), chip.tries, done == ErasablePart(addr, len))
    ensures chip.Works() ==> done == ErasablePart(addr, len)
  {
    var at: nat, remain: nat := addr, len;
    done := 0;
    while remain > 0
      invariant chip.Ready() && at == addr + done && remain == len - done
      invariant Erased(old(chip.mem[..]), chip.mem[..], addr, done)
      invariant ErasablePart(addr, len) == done + ErasablePart(at, remain)
      invariant Tried(chip.sets, old(chip.tries), chip.tries, true)
      decreases remain
    {
      var seg := SegmentLen(at, remain);
      PartOfSegment(at, remain, seg);
      ghost var m1 := chip.mem[..];
      ghost var n;
      ok, n := Erase(chip, at, seg);
      ErasedMore(old(chip.mem[..]), m1, chip.mem[..], addr, done, at, n);
      done := done + n;
      if !ok {
        return;
      }
      at, remain := at + seg, remain - seg;
    }
    ok := true;
  }

  // ----- programming an image -----

  /** The length rounded up so that the end of the range is a multiple of the erase block size. */
  function RoundedUp(offset: nat, len: nat): (r: nat)
    ensures len <= r < len + SUBSECTOR_SIZE && (offset + r) % SUBSECTOR_SIZE == 0
  {
    var rest := (offset + len) % SUBSECTOR_SIZE;
    if rest != 0 then len + (SUBSECTOR_SIZE - rest) else len
  }

  /** Erase, write, read back and compare.  Of a range of whole blocks that is read in place it succeeds
      iff no write enable fails. */
  method ProgramRange(chip: Chip, offset: nat, image: seq<byte>) returns (ok: bool)
    requires chip.Ready() && chip.load.Idle? && offset + |image| <= chip.mem.Length
    modifies chip`load, chip`latch, chip`tries, chip`readAddr, chip`readFour, chip.mem
    ensures chip.Ready() && chip.load.Idle?
    ensures ok ==> Replaced(old(chip.mem[..]), chip.mem[..], offset, image)
    ensures ErasablePart(offset, |image|) == |image| && ReadsInPlace(offset, |image|) ==>
              Tried(chip.sets, old(chip.tries), chip.tries, ok) && (chip.Works() ==> ok)
  {
    ghost var done, sent;
    ok, done := EraseProgress(chip, offset, |image|);
    if ok {
      ghost var m1 := chip.mem[..];
      ok, sent := WriteProgress(chip, offset, image);
      if ok {
        EraseThenProgram(old(chip.mem[..]), m1, chip.mem[..], offset, image);
        ok := Verify(chip, offset, image);
      }
    }
  }

  /** Read back and compare. */
  method Verify(chip: Chip, offset: nat, image: seq<byte>) returns (same: bool)
    requires chip.Ready() && offset + |image| <= chip.mem.Length
    modifies chip`readAddr, chip`readFour
    ensures chip.Ready()
    ensures ReadsInPlace(offset, |image|) ==> (same <==> chip.mem[offset..offset + |image|] == image)
  {
    var check := ReadProgress(chip, offset, |image|);
    same := check == image;
  }

  /** Programming an image of `len` bytes: when it reports success the range, rounded up, holds the
      segment and the rest of the chip is as before; and an aligned segment, unless its range is short and
      crosses 16 MiB, is programmed with success iff no write enable fails. */
  method Program(chip: Chip, offset: nat, len: nat, segment: seq<byte>) returns (ok: bool)
    requires chip.Ready() && chip.load.Idle? && len <= |segment|
    requires RoundedUp(offset, len) <= |segment| && offset + |segment| <= chip.mem.Length
    modifies chip`load, chip`latch, chip`tries, chip`readAddr, chip`readFour, chip.mem
    ensures chip.Ready() && chip.load.Idle?
    ensures ok ==>
              Replaced(old(chip.mem[..]), chip.mem[..], offset, segment[..RoundedUp(offset, len)])
    ensures offset % SUBSECTOR_SIZE == 0 && ReadsInPlace(offset, RoundedUp(offset, len)) ==>
              Tried(chip.sets, old(chip.tries), chip.tries, ok) && (chip.Works() ==> ok)
  {
    var n := RoundedUp(offset, len);
    RoundedWhole(offset, len);
    ok := ProgramRange(chip, offset, segment[..n]);
  }

  lemma {:induction false} RoundedWhole(offset: nat, len: nat)
    ensures offset % SUBSECTOR_SIZE == 0
            ==> ErasablePart(offset, RoundedUp(offset, len)) == RoundedUp(offset, len)
  {
  }

  // ----- dual QSPI: low nibbles on the primary chip, high nibbles on the secondary -----

  function LowNibbles(a: byte, b: byte): byte { (b & 0x0f) | ((a << 4) & 0xf0) }

  function HighNibbles(a: byte, b: byte): byte { ((b >> 4) & 0x0f) | (a & 0xf0) }

  function FirstOf(low: byte, high: byte): byte { ((low >> 4) & 0x0f) | (high & 0xf0) }

  function SecondOf(low: byte, high: byte): byte { (low & 0x0f) | ((high << 4) & 0xf0) }

  lemma {:induction false} NibblesMeet(a: byte, b: byte)
    ensures FirstOf(LowNibbles(a, b), HighNibbles(a, b)) == a
    ensures SecondOf(LowNibbles(a, b), HighNibbles(a, b)) == b
  {
  }

  /** The primary chip gets the low halves of a pair, the secondary one the high halves; of each chip's
      byte the first of the pair has the upper half. */
  lemma {:induction false} NibblesWhere(a: byte, b: byte)
    ensures LowNibbles(a, b) >> 4 == a & 0x0f && LowNibbles(a, b) & 0x0f == b & 0x0f
    ensures HighNibbles(a, b) >> 4 == a >> 4 && HighNibbles(a, b) & 0x0f == b >> 4
  {
  }

  const HEADER := 0x68

  /** The two halves of an image: the header on the primary chip only, then one byte on each chip for
      each pair. */
  ghost predicate SplitInto(segment: seq<byte>, pri: seq<byte>, sec: seq<byte>) {
    && |pri| == |sec| && |segment| == 2 * |pri| && |pri| >= HEADER && pri[..HEADER] == segment[..HEADER]
    && (forall i | 0 <= i < HEADER :: sec[i] == 0xff)
    && (forall i | HEADER <= i < |pri| ::
          pri[i] == LowNibbles(segment[2 * i - HEADER], segment[2 * i - HEADER + 1]))
    && (forall i | HEADER <= i < |pri| ::
          sec[i] == HighNibbles(segment[2 * i - HEADER], segment[2 * i - HEADER + 1]))
  }

  /** The image put together from two halves; as many bytes as the header has stay erased at the end. */
  ghost predicate MergedFrom(segment: seq<byte>, pri: seq<byte>, sec: seq<byte>) {
    && |pri| == |sec| && |segment| == 2 * |pri| && |pri| >= HEADER && segment[..HEADER] == pri[..HEADER]
    && (forall i | HEADER <= i < |pri| ::
          && segment[2 * i - HEADER] == FirstOf(pri[i], sec[i])
          && segment[2 * i - HEADER + 1] == SecondOf(pri[i], sec[i]))
    && (forall j | 2 * |pri| - HEADER <= j < 2 * |pri| :: segment[j] == 0xff)
  }

  /** Spread an image; the pairs go up to a header's length before the end. */
  method SplitImage(segment: seq<byte>) returns (pri: array<byte>, sec: array<byte>)
    requires |segment| % 2 == 0 && |segment| >= 2 * HEADER
    ensures fresh(pri) && fresh(sec) && SplitInto(segment, pri[..], sec[..])
  {
    var half := |segment| / 2;
    pri := new byte[half](_ => 0xff);
    sec := new byte[half](_ => 0xff);
    for i := 0 to HEADER
      invariant pri[..i] == segment[..i] && forall j | 0 <= j < half :: sec[j] == 0xff
    {
      pri[i] := segment[i];
    }
    var k, c := HEADER, HEADER;
    while k < |segment| - HEADER
      invariant k == 2 * c - HEADER && HEADER <= c <= half && pri[..HEADER] == segment[..HEADER]
      invariant forall i | 0 <= i < HEADER :: sec[i] == 0xff
      invariant forall i | HEADER <= i < c ::
                  pri[i] == LowNibbles(segment[2 * i - HEADER], segment[2 * i - HEADER + 1])
      invariant forall i | HEADER <= i < c ::
                  sec[i] == HighNibbles(segment[2 * i - HEADER], segment[2 * i - HEADER + 1])
      decreases |segment| - k
    {
      pri[c] := LowNibbles(segment[k], segment[k + 1]);
      sec[c] := HighNibbles(segment[k], segment[k + 1]);
      k, c := k + 2, c + 1;
    }
  }

  /** Put an image together again. */
  method MergeImage(pri: seq<byte>, sec: seq<byte>) returns (segment: array<byte>)
    requires |pri| == |sec| >= HEADER
    ensures fresh(segment) && MergedFrom(segment[..], pri, sec)
  {
    var size := 2 * |pri|;
    segment := new byte[size](_ => 0xff);
    for i := 0 to HEADER
      invariant segment[..i] == pri[..i] && forall j | i <= j < size :: segment[j] == 0xff
    {
      segment[i] := pri[i];
    }
    var k, c := HEADER, HEADER;
    while k < size - HEADER
      invariant k == 2 * c - HEADER && HEADER <= c <= |pri| && segment[..HEADER] == pri[..HEADER]
      invariant forall i | HEADER <= i < c ::
                  && segment[2 * i - HEADER] == FirstOf(pri[i], sec[i])
                  && segment[2 * i - HEADER + 1] == SecondOf(pri[i], sec[i])
      invariant forall j | k <= j < size :: segment[j] == 0xff
      decreases size - k
    {
      segment[k] := FirstOf(pri[c], sec[c]);
      segment[k + 1] := SecondOf(pri[c], sec[c]);
      k, c := k + 2, c + 1;
    }
  }

  lemma {:induction false} PairSurvives(segment: seq<byte>, pri: seq<byte>, sec: seq<byte>,
                                        back: seq<byte>, i: nat)
    requires SplitInto(segment, pri, sec) && MergedFrom(back, pri, sec) && HEADER <= i < |pri|
    ensures back[2 * i - HEADER] == segment[2 * i - HEADER]
    ensures back[2 * i - HEADER + 1] == segment[2 * i - HEADER + 1]
  {
    var a, b := segment[2 * i - HEADER], segment[2 * i - HEADER + 1];
    assert pri[i] == LowNibbles(a, b) && sec[i] == HighNibbles(a, b);
    NibblesMeet(a, b);
  }

  /** All but the last bytes survive, so an image survives iff these are erased in it. */
  lemma {:induction false} DualImageRoundTrip(segment: seq<byte>, pri: seq<byte>, sec: seq<byte>,
                                              back: seq<byte>)
    requires SplitInto(segment, pri, sec) && MergedFrom(back, pri, sec)
    ensures back[..|segment| - HEADER] == segment[..|segment| - HEADER]
    ensures back == segment <==> forall j | |segment| - HEADER <= j < |segment| :: segment[j] == 0xff
  {
    forall j | 0 <= j < |segment| - HEADER
      ensures back[j] == segment[j]
    {
      if j < HEADER {
        assert back[..HEADER][j] == segment[..HEADER][j];
      } else {
        PairSurvives(segment, pri, sec, back, (j + HEADER) / 2);
      }
    }
    if forall j | |segment| - HEADER <= j < |segment| :: segment[j] == 0xff {
      assert back == segment;
    }
  }
}
