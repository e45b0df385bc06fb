/** The dual-QSPI path of the firmware tool: an image spread over two chips, programmed and read back. */
module DualFlash {
  import opened NorFlash
  import opened FlashTool

  /** `len_int`: the bytes programmed on each chip for an image of `len` bytes in a segment of `size`. */
  function HalfLen(len: nat, size: nat): (n: nat)
    requires len >= HEADER
  {
    var n := (len - HEADER) / 2 + HEADER;
    if n > size / 2 then size / 2 else n
  }

  function DualLen(offset: nat, len: nat, size: nat): nat
    requires len >= HEADER
  {
    RoundedUp(offset / 2, HalfLen(len, size))
  }

  /** Two chips, with nothing loaded, and room up to `end` on both. */
  predicate Pair(pri: Chip, sec: Chip, end: nat)
    reads pri, sec
  {
    && pri != sec && pri.mem != sec.mem && pri.Ready() && sec.Ready() && pri.load.Idle? && sec.load.Idle?
    && end <= pri.mem.Length && end <= sec.mem.Length
  }

  /** What an image takes: room for its segment. */
  predicate Usable(pri: Chip, sec: Chip, offset: nat, size: nat)
    reads pri, sec
  {
    Pair(pri, sec, offset / 2 + size / 2)
  }

  /** No write enable of either chip failed since then. */
  ghost predicate PairTried(pri: Chip, sec: Chip, p: nat, s: nat)
    reads pri, sec
  {
    Tried(pri.sets, p, pri.tries, true) && Tried(sec.sets, s, sec.tries, true)
  }

  /** Erase both chips, write both, then read both back and compare.  `priHalf` and `secHalf` are the
      halves of the segment. */
  method ProgramDual(pri: Chip, sec: Chip, offset: nat, len: nat, segment: seq<byte>)
    returns (ok: bool, ghost priHalf: seq<byte>, ghost secHalf: seq<byte>)
    requires Usable(pri, sec, offset, |segment|) && |segment| % 2 == 0 && |segment| >= 2 * HEADER
    requires HEADER <= len <= |segment| && DualLen(offset, len, |segment|) <= |segment| / 2
    modifies pri`load, pri`latch, pri`tries, pri`readAddr, pri`readFour, pri.mem
    modifies sec`load, sec`latch, sec`tries, sec`readAddr, sec`readFour, sec.mem
    ensures pri.Ready() && sec.Ready() && pri.load.Idle? && sec.load.Idle?
    ensures SplitInto(segment, priHalf, secHalf)
    ensures var n := DualLen(offset, len, |segment|);
            && (ok ==>
                  && Replaced(old(pri.mem[..]), pri.mem[..], offset / 2, priHalf[..n])
                  && Replaced(old(sec.mem[..]), sec.mem[..], offset / 2, secHalf[..n]))
            && ((offset / 2) % SUBSECTOR_SIZE == 0 && ReadsInPlace(offset / 2, n) ==>
                  (ok <==> PairTried(pri, sec, old(pri.tries), old(sec.tries))))
    ensures pri.Works() && sec.Works() ==> PairTried(pri, sec, old(pri.tries), old(sec.tries))
  {
    var n, at := DualLen(offset, len, |segment|), offset / 2;
    RoundedWhole(at, HalfLen(len, |segment|));
    var priBuf, secBuf := SplitImage(segment);
    var a, b := priBuf[..n], secBuf[..n];
    priHalf, secHalf := priBuf[..], secBuf[..];
    assert a == priHalf[..n] && b == secHalf[..n];
    ok := ReplaceBoth(pri, sec, at, a, b);
    if ok {
      ok := VerifyBoth(pri, sec, at, a, b);
    }
  }

  /** Erase both chips, then write both. */
  method ReplaceBoth(pri: Chip, sec: Chip, at: nat, a: seq<byte>, b: seq<byte>) returns (ok: bool)
    requires |a| == |b| && Pair(pri, sec, at + |a|)
    modifies pri`load, pri`latch, pri`tries, pri.mem, sec`load, sec`latch, sec`tries, sec.mem
    ensures pri.Ready() && sec.Ready() && pri.load.Idle? && sec.load.Idle?
    ensures ok ==> Replaced(old(pri.mem[..]), pri.mem[..], at, a) && Replaced(old(sec.mem[..]), sec.mem[..], at, b)
    ensures pri.tries >= old(pri.tries) && sec.tries >= old(sec.tries)
    ensures ErasablePart(at, |a|) == |a| ==> (ok <==> PairTried(pri, sec, old(pri.tries), old(sec.tries)))
  {
    ok := EraseBoth(pri, sec, at, |a|);
    if ok {
      ghost var pri1, sec1 := pri.mem[..], sec.mem[..];
      ok := WriteBoth(pri, sec, at, a, b);
      if ok {
        EraseThenProgram(old(pri.mem[..]), pri1, pri.mem[..], at, a);
        EraseThenProgram(old(sec.mem[..]), sec1, sec.mem[..], at, b);
      }
    }
  }

  method EraseBoth(pri: Chip, sec: Chip, at: nat, n: nat) returns (ok: bool)
    requires Pair(pri, sec, at + n)
    modifies pri`latch, pri`tries, pri.mem, sec`latch, sec`tries, sec.mem
    ensures pri.Ready() && sec.Ready()
    ensures ok ==> Erased(old(pri.mem[..]), pri.mem[..], at, n) && Erased(old(sec.mem[..]), sec.mem[..], at, n)
    ensures pri.tries >= old(pri.tries) && sec.tries >= old(sec.tries)
    ensures ErasablePart(at, n) == n ==> (ok <==> PairTried(pri, sec, old(pri.tries), old(sec.tries)))
  {
    ghost var done;
    ok, done := EraseProgress(pri, at, n);
    if ok {
      ok, done := EraseProgress(sec, at, n);
    }
  }

  method WriteBoth(pri: Chip, sec: Chip, at: nat, a: seq<byte>, b: seq<byte>) returns (ok: bool)
    requires |a| == |b| && Pair(pri, sec, at + |a|)
    modifies pri`load, pri`latch, pri`tries, pri.mem, sec`load, sec`latch, sec`tries, sec.mem
    ensures pri.Ready() && sec.Ready() && pri.load.Idle? && sec.load.Idle?
    ensures ok ==> Programmed(old(pri.mem[..]), pri.mem[..], at, a, |a|)
                   && Programmed(old(sec.mem[..]), sec.mem[..], at, b, |b|)
    ensures pri.tries >= old(pri.tries) && sec.tries >= old(sec.tries)
    ensures ok <==> PairTried(pri, sec, old(pri.tries), old(sec.tries))
  {
    ghost var sent;
    ok, sent := WriteProgress(pri, at, a);
    if ok {
      ok, sent := WriteProgress(sec, at, b);
    }
  }

  method VerifyBoth(pri: Chip, sec: Chip, at: nat, a: seq<byte>, b: seq<byte>) returns (same: bool)
    requires pri != sec && pri.Ready() && sec.Ready() && |a| == |b|
    requires at + |a| <= pri.mem.Length && at + |b| <= sec.mem.Length
    modifies pri`readAddr, pri`readFour, sec`readAddr, sec`readFour
    ensures pri.Ready() && sec.Ready()
    ensures ReadsInPlace(at, |a|) ==>
              (same <==> pri.mem[at..at + |a|] == a && sec.mem[at..at + |b|] == b)
  {
    var first := Verify(pri, at, a);
    var second := Verify(sec, at, b);
    same := first && second;
  }

  /** Read both halves of a segment and put it together. */
  method ReadDual(pri: Chip, sec: Chip, offset: nat, size: nat) returns (segment: array<byte>)
    requires Usable(pri, sec, offset, size) && size / 2 >= HEADER
    modifies pri`readAddr, pri`readFour, sec`readAddr, sec`readFour
    ensures fresh(segment) && pri.Ready() && sec.Ready()
    ensures ReadsInPlace(offset / 2, size / 2) ==>
              MergedFrom(segment[..], pri.mem[offset / 2..offset / 2 + size / 2],
                         sec.mem[offset / 2..offset / 2 + size / 2])
  {
    var a := ReadProgress(pri, offset / 2, size / 2);
    var b := ReadProgress(sec, offset / 2, size / 2);
    segment := MergeImage(a, b);
  }

  /** `n` bytes of `half` replaced the first ones of a range. */
  ghost predicate Prefixed(before: seq<byte>, after: seq<byte>, half: seq<byte>, n: nat) {
    && |before| == |after| == |half| && n <= |half|
    && (forall i | 0 <= i < n :: after[i] == half[i])
    && (forall i | n <= i < |half| :: after[i] == before[i])
  }

  lemma {:induction false} ReplacedPrefix(before: seq<byte>, after: seq<byte>, at: nat, half: seq<byte>,
                                          n: nat)
    requires n <= |half| && at + |half| <= |before| && Replaced(before, after, at, half[..n])
    ensures Prefixed(before[at..at + |half|], after[at..at + |half|], half, n)
  {
  }

  /** Programmed and read back: the image comes back up to where the pairs programmed end, and from there
      on what was in the chips before.  So it survives iff that is the same. */
  lemma {:induction false} DualProgramRead(segment: seq<byte>, len: nat, n: nat, pri: seq<byte>,
                                           sec: seq<byte>, pri0: seq<byte>, sec0: seq<byte>,
                                           pri1: seq<byte>, sec1: seq<byte>, was: seq<byte>,
                                           back: seq<byte>)
    requires SplitInto(segment, pri, sec) && HEADER <= n <= |pri| && len <= |segment|
    requires Prefixed(pri0, pri1, pri, n) && Prefixed(sec0, sec1, sec, n)
    requires MergedFrom(was, pri0, sec0) && MergedFrom(back, pri1, sec1)
    ensures forall j | 0 <= j < 2 * n - HEADER :: back[j] == segment[j]
    ensures back[..len] == segment[..len] <==> forall j | 2 * n - HEADER <= j < len :: was[j] == segment[j]
  {
    forall j | 0 <= j < |segment|
      ensures back[j] == if j < 2 * n - HEADER then segment[j] else was[j]
    {
      if j < HEADER {
        assert back[..HEADER][j] == pri1[..HEADER][j] && pri[..HEADER][j] == segment[..HEADER][j];
      } else if j < |segment| - HEADER {
        var i := (j + HEADER) / 2;
        var a, b := segment[2 * i - HEADER], segment[2 * i - HEADER + 1];
        NibblesMeet(a, b);
        assert i < n ==> pri1[i] == LowNibbles(a, b) && sec1[i] == HighNibbles(a, b);
        assert j == 2 * i - HEADER || j == 2 * i - HEADER + 1;
      }
    }
    if back[..len] == segment[..len] {
      forall j | 2 * n - HEADER <= j < len
        ensures was[j] == segment[j]
      {
        assert back[..len][j] == segment[..len][j];
      }
    }
  }

  /** The bytes programmed on each chip that belong to the segment. */
  function HalfProgrammed(offset: nat, len: nat, size: nat): nat
    requires len >= HEADER
  {
    var n := DualLen(offset, len, size);
    if n > size / 2 then size / 2 else n
  }

  /** What ProgramDual leaves on the chips and ReadDual gets back: the image survives iff what lies beyond
      the pairs programmed reads the same as before. */
  lemma {:induction false} ProgramThenRead(segment: seq<byte>, len: nat, n: nat, at: nat, pri: seq<byte>,
                                           sec: seq<byte>, pri0: seq<byte>, sec0: seq<byte>,
                                           pri1: seq<byte>, sec1: seq<byte>, was: seq<byte>,
                                           back: seq<byte>)
    requires SplitInto(segment, pri, sec) && HEADER <= n <= |pri| && len <= |segment|
    requires at + |pri| <= |pri0| && at + |sec| <= |sec0|
    requires Replaced(pri0, pri1, at, pri[..n]) && Replaced(sec0, sec1, at, sec[..n])
    requires MergedFrom(was, pri0[at..at + |pri|], sec0[at..at + |sec|])
    requires MergedFrom(back, pri1[at..at + |pri|], sec1[at..at + |sec|])
    ensures back[..len] == segment[..len] <==> forall j | 2 * n - HEADER <= j < len :: was[j] == segment[j]
  {
    ReplacedPrefix(pri0, pri1, at, pri, n);
    ReplacedPrefix(sec0, sec1, at, sec, n);
    DualProgramRead(segment, len, n, pri, sec, pri0[at..at + |pri|], sec0[at..at + |sec|],
                    pri1[at..at + |pri|], sec1[at..at + |sec|], was, back);
  }

  /** The whole image is programmed iff it leaves a header's length at the end of the segment, and an odd
      byte at its end falls into what rounding up adds. */
  lemma {:induction false} DualLenExact(offset: nat, len: nat, size: nat)
    requires HEADER <= len <= size && size % 2 == 0
    ensures len <= 2 * HalfProgrammed(offset, len, size) - HEADER
        <==> len <= size - HEADER &&
             (len % 2 == 0 || (offset / 2 + HalfLen(len, size)) % SUBSECTOR_SIZE != 0)
  {
  }
}
