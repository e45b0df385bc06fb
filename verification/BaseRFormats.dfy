/** The blocks bit by bit, as clause 49.2.4 of IEEE Std 802.3 draws them: where in a block each lane is. */
module BaseRFormats {
  import opened Wrappers
  import opened Xgmii
  import opened BaseRCodec

  // ----- places in a block -----

  /** Bits 8 k to 8 k + 7. */
  predicate ByteIs(x: bv64, k: nat, d: byte)
    requires k < 8
  {
    match k
    case 0 => x & 0xff == d as bv64
    case 1 => (x >> 8) & 0xff == d as bv64
    case 2 => (x >> 16) & 0xff == d as bv64
    case 3 => (x >> 24) & 0xff == d as bv64
    case 4 => (x >> 32) & 0xff == d as bv64
    case 5 => (x >> 40) & 0xff == d as bv64
    case 6 => (x >> 48) & 0xff == d as bv64
    case 7 => (x >> 56) & 0xff == d as bv64
  }

  lemma {:induction false} ByteIsAt(x: bv64, k: nat, d: byte)
    requires k < 8 && ByteAt(x, k) == d
    ensures ByteIs(x, k, d)
  {
  }

  /** Bits 8 + 7 i to 8 + 7 i + 6. */
  predicate CodeIs(x: bv64, i: nat, c: bv64)
    requires i < 8
  {
    match i
    case 0 => (x >> 8) & 0x7f == c
    case 1 => (x >> 15) & 0x7f == c
    case 2 => (x >> 22) & 0x7f == c
    case 3 => (x >> 29) & 0x7f == c
    case 4 => (x >> 36) & 0x7f == c
    case 5 => (x >> 43) & 0x7f == c
    case 6 => (x >> 50) & 0x7f == c
    case 7 => (x >> 57) & 0x7f == c
  }

  lemma {:induction false} CodeIsAt(x: bv64, i: nat, c: bv64)
    requires i < 8 && CodeAt(x, i) == c
    ensures CodeIs(x, i, c)
  {
  }

  /** Lanes i to j - 1 are at the bytes of their numbers. */
  predicate BytesIn(w: Word, x: bv64, i: nat, j: nat)
    requires j <= 8
  {
    forall k | i <= k < j :: ByteIs(x, k, w[k].d)
  }

  /** The codes of lanes i to j - 1 are in their places. */
  predicate CodesIn(w: Word, x: bv64, i: nat, j: nat)
    requires j <= 8
  {
    forall k | i <= k < j :: CodeIs(x, k, CodeOf(w[k].d))
  }

  /** The data of a frame that ends in lane `k` is one byte further up. */
  predicate BytesUp(w: Word, x: bv64, k: nat)
    requires k < 8
  {
    forall i | 0 <= i < k :: ByteIs(x, i + 1, w[i].d)
  }

  /** The code of a control character. */
  function CodeOf(d: byte): bv64 {
    match d
    case 0x07 => 0x00
    case 0x06 => 0x06
    case 0xfe => 0x1e
    case 0x1c => 0x2d
    case 0x3c => 0x33
    case 0x7c => 0x4b
    case 0xbc => 0x55
    case 0xdc => 0x66
    case 0xf7 => 0x78
    case _ => 0x1e
  }

  lemma {:induction false} CodeOfMapped(l: Lane)
    requires Mapped(l)
    ensures CodeOf(l.d) == Code(l)
  {
  }

  /** The type of a block by the lane of the terminator. */
  function TermNumber(k: nat): byte
    requires k < 8
  {
    match k
    case 0 => 0x87
    case 1 => 0x99
    case 2 => 0xaa
    case 3 => 0xb4
    case 4 => 0xcc
    case 5 => 0xd2
    case 6 => 0xe1
    case 7 => 0xff
  }

  // ----- the formats -----

  lemma {:induction false} BytesAre(w: Word, x: bv64, i: nat, j: nat)
    requires j <= 8 && forall k | i <= k < j :: ByteAt(x, k) == w[k].d
    ensures BytesIn(w, x, i, j)
  {
    forall k | i <= k < j
      ensures ByteIs(x, k, w[k].d)
    {
      ByteIsAt(x, k, w[k].d);
    }
  }

  lemma {:induction false} CodesAre(w: Word, x: bv64, i: nat, j: nat)
    requires i <= j <= 8 && AllMapped(w, i, j) && forall k | i <= k < j :: CodeAt(x, k) == Code(w[k])
    ensures CodesIn(w, x, i, j)
  {
    forall k | i <= k < j
      ensures CodeIs(x, k, CodeOf(w[k].d))
    {
      CodeOfMapped(w[k]);
      CodeIsAt(x, k, Code(w[k]));
    }
  }

  lemma {:induction false} LowBytes(w: Word, x: bv64)
    requires ByteAt(x, 1) == w[1].d && ByteAt(x, 2) == w[2].d && ByteAt(x, 3) == w[3].d
    ensures BytesIn(w, x, 1, 4)
  {
    BytesAre(w, x, 1, 4);
  }

  lemma {:induction false} HighBytes(w: Word, x: bv64)
    requires ByteAt(x, 5) == w[5].d && ByteAt(x, 6) == w[6].d && ByteAt(x, 7) == w[7].d
    ensures BytesIn(w, x, 5, 8)
  {
    BytesAre(w, x, 5, 8);
  }

  lemma {:induction false} LowCodes4(w: Word, x: bv64)
    requires AllMapped(w, 0, 4) && CodeAt(x, 0) == Code(w[0]) && CodeAt(x, 1) == Code(w[1])
    requires CodeAt(x, 2) == Code(w[2]) && CodeAt(x, 3) == Code(w[3])
    ensures CodesIn(w, x, 0, 4)
  {
    CodesAre(w, x, 0, 4);
  }

  lemma {:induction false} DataFormat(w: Word)
    requires NoCtrl(w, 0, 8)
    ensures Encode(w).header == 2 && BytesIn(w, Encode(w).data, 0, 8)
  {
    var x := EncodeData(w);
    DataBits(w[0].d, w[1].d, w[2].d, w[3].d, w[4].d, w[5].d, w[6].d, w[7].d, x);
    BytesAre(w, x, 0, 8);
  }

  lemma {:induction false} Start0Format(w: Word, x: bv64)
    requires StartsAt(w, 0) && x == EncodeStart0(w)
    ensures x & 0xff == 0x78 && BytesIn(w, x, 1, 8)
  {
    Start0Bits(w[1].d, w[2].d, w[3].d, w[4].d, w[5].d, w[6].d, w[7].d, x);
    ByteIsAt(x, 0, 0x78);
    BytesAre(w, x, 1, 8);
  }

  lemma {:induction false} Start4Format(w: Word, x: bv64)
    requires StartsAt(w, 4) && AllMapped(w, 0, 4) && x == EncodeStart4(w)
    ensures x & 0xff == 0x33 && CodesIn(w, x, 0, 4) && BytesIn(w, x, 5, 8)
  {
    Start4Fields(w, x);
    ByteIsAt(x, 0, 0x33);
    LowCodes4(w, x);
    HighBytes(w, x);
  }

  /** 0x0 for a sequence set and 0xf for a signal set. */
  predicate SetCode(l: Lane, c: bv64) {
    (l.d == 0x9c ==> c == 0x0) && (l.d == 0x5c ==> c == 0xf)
  }

  lemma {:induction false} SetCodeIs(l: Lane, c: bv64)
    requires c == OCode(l)
    ensures SetCode(l, c) && c <= 0xf
  {
  }

  lemma {:induction false} OsStartPlaces(d1: byte, d2: byte, d3: byte, o: bv64, d5: byte, d6: byte, d7: byte,
                                         x: bv64)
    requires x == 0x66 | (Put(d1, 1) | Put(d2, 2) | Put(d3, 3)) | (o << 32)
                  | (Put(d5, 5) | Put(d6, 6) | Put(d7, 7))
    requires o <= 0xf
    ensures x & 0xff == 0x66 && (x >> 32) & 0xf == o && ByteAt(x, 1) == d1 && ByteAt(x, 2) == d2
    ensures ByteAt(x, 3) == d3 && ByteAt(x, 5) == d5 && ByteAt(x, 6) == d6 && ByteAt(x, 7) == d7
  {
  }

  lemma {:induction false} OsStartFormat(w: Word, o: bv64, x: bv64)
    requires StartsAt(w, 4) && OrderedAt(w, 0) && x == EncodeOsStart(w) && o == OCode(w[0])
    ensures x & 0xff == 0x66 && BytesIn(w, x, 1, 4) && BytesIn(w, x, 5, 8)
    ensures (x >> 32) & 0xf == o && SetCode(w[0], o)
  {
    SetCodeIs(w[0], o);
    OsStartPlaces(w[1].d, w[2].d, w[3].d, o, w[5].d, w[6].d, w[7].d, x);
    LowBytes(w, x);
    HighBytes(w, x);
  }

  lemma {:induction false} Os04Places(d1: byte, d2: byte, d3: byte, o: bv64, p: bv64, d5: byte, d6: byte, d7: byte,
                                      x: bv64)
    requires x == 0x55 | (Put(d5, 5) | Put(d6, 6) | Put(d7, 7)) | (p << 36)
                  | (Put(d1, 1) | Put(d2, 2) | Put(d3, 3)) | (o << 32)
    requires o <= 0xf && p <= 0xf
    ensures x & 0xff == 0x55 && (x >> 32) & 0xf == o && (x >> 36) & 0xf == p
    ensures ByteAt(x, 1) == d1 && ByteAt(x, 2) == d2 && ByteAt(x, 3) == d3
    ensures ByteAt(x, 5) == d5 && ByteAt(x, 6) == d6 && ByteAt(x, 7) == d7
  {
  }

  lemma {:induction false} Os04Bytes(w: Word, o: bv64, p: bv64, x: bv64)
    requires x == EncodeOs04(w) && o == OCode(w[0]) && p == OCode(w[4])
    ensures BytesIn(w, x, 1, 4) && BytesIn(w, x, 5, 8)
  {
    SetCodeIs(w[0], o);
    SetCodeIs(w[4], p);
    Os04Places(w[1].d, w[2].d, w[3].d, o, p, w[5].d, w[6].d, w[7].d, x);
    LowBytes(w, x);
    HighBytes(w, x);
  }

  lemma {:induction false} Os04Sets(w: Word, o: bv64, p: bv64, x: bv64)
    requires x == EncodeOs04(w) && o == OCode(w[0]) && p == OCode(w[4])
    ensures x & 0xff == 0x55 && (x >> 32) & 0xf == o && (x >> 36) & 0xf == p
  {
    SetCodeIs(w[0], o);
    SetCodeIs(w[4], p);
    Os04Places(w[1].d, w[2].d, w[3].d, o, p, w[5].d, w[6].d, w[7].d, x);
  }

  lemma {:induction false} Os04Format(w: Word, o: bv64, p: bv64, x: bv64)
    requires OrderedAt(w, 0) && OrderedAt(w, 4) && x == EncodeOs04(w) && o == OCode(w[0]) && p == OCode(w[4])
    ensures x & 0xff == 0x55 && BytesIn(w, x, 1, 4) && BytesIn(w, x, 5, 8)
    ensures (x >> 32) & 0xf == o && (x >> 36) & 0xf == p && SetCode(w[0], o) && SetCode(w[4], p)
  {
    SetCodeIs(w[0], o);
    SetCodeIs(w[4], p);
    Os04Bytes(w, o, p, x);
    Os04Sets(w, o, p, x);
  }

  lemma {:induction false} Os4Format(w: Word, x: bv64)
    requires OrderedAt(w, 4) && AllMapped(w, 0, 4) && x == EncodeOs4(w)
    ensures x & 0xff == 0x2d && CodesIn(w, x, 0, 4) && BytesIn(w, x, 5, 8) && SetCode(w[4], (x >> 36) & 0xf)
  {
    Os4Type(w, x);
    Os4Codes(w, x);
    Os4Data(w, x);
    ByteIsAt(x, 0, 0x2d);
    LowCodes4(w, x);
    HighBytes(w, x);
  }

  lemma {:induction false} CtrlFormat(w: Word, x: bv64)
    requires AllMapped(w, 0, 8) && x == EncodeCtrl(w)
    ensures x & 0xff == 0x1e && CodesIn(w, x, 0, 8)
  {
    CtrlLow(w, x);
    CtrlHigh(w, x);
    ByteIsAt(x, 0, 0x1e);
    CodesAre(w, x, 0, 8);
  }

  // ----- the terminators -----

  predicate DataBefore(w: Word, k: nat, x: bv64)
    requires k < 8
  {
    forall i | 0 <= i < k :: DataLane(x, i + 1) == w[i]
  }

  lemma {:induction false} TermData(w: Word, k: nat, x: bv64)
    requires k < 8 && EndsAt(w, k) && x == EncodeTerm(w, k)
    ensures DataBefore(w, k, x)
  {
    match k {
      case 0 => Term0Fields(w, x);
      case 1 => Term1Fields(w, x);
      case 2 => Term2Fields(w, x);
      case 3 => Term3Fields(w, x);
      case 4 => Term4Fields(w, x);
      case 5 => Term5Fields(w, x);
      case 6 => Term6Fields(w, x);
      case 7 => Term7Fields(w, x);
    }
  }

  predicate CodesAfter(w: Word, k: nat, x: bv64) {
    && (k < 1 ==> CodeAt(x, 1) == Code(w[1])) && (k < 2 ==> CodeAt(x, 2) == Code(w[2]))
    && (k < 3 ==> CodeAt(x, 3) == Code(w[3])) && (k < 4 ==> CodeAt(x, 4) == Code(w[4]))
    && (k < 5 ==> CodeAt(x, 5) == Code(w[5])) && (k < 6 ==> CodeAt(x, 6) == Code(w[6]))
    && (k < 7 ==> CodeAt(x, 7) == Code(w[7]))
  }

  lemma {:induction false} CodesUp(w: Word, k: nat, x: bv64)
    requires k < 8 && AllMapped(w, k + 1, 8) && CodesAfter(w, k, x)
    ensures CodesIn(w, x, k + 1, 8)
  {
    CodesAre(w, x, k + 1, 8);
  }

  lemma {:induction false} Term0Codes(w: Word, x: bv64)
    requires EndsAt(w, 0) && x == EncodeTerm(w, 0)
    ensures CodesAfter(w, 0, x)
  {
    CodesFields(w);
    Term0Bits(Codes(w), x);
  }

  lemma {:induction false} Term1Codes(w: Word, x: bv64)
    requires EndsAt(w, 1) && x == EncodeTerm(w, 1)
    ensures CodesAfter(w, 1, x)
  {
    CodesFields(w);
    Term1Bits(Codes(w), w[0].d, x);
  }

  lemma {:induction false} Term2Codes(w: Word, x: bv64)
    requires EndsAt(w, 2) && x == EncodeTerm(w, 2)
    ensures CodesAfter(w, 2, x)
  {
    CodesFields(w);
    Term2Bits(Codes(w), w[0].d, w[1].d, x);
  }

  lemma {:induction false} Term3Codes(w: Word, x: bv64)
    requires EndsAt(w, 3) && x == EncodeTerm(w, 3)
    ensures CodesAfter(w, 3, x)
  {
    CodesFields(w);
    Term3Bits(Codes(w), w[0].d, w[1].d, w[2].d, x);
  }

  lemma {:induction false} Term4Codes(w: Word, x: bv64)
    requires EndsAt(w, 4) && x == EncodeTerm(w, 4)
    ensures CodesAfter(w, 4, x)
  {
    CodesFields(w);
    Term4Bits(Codes(w), w[0].d, w[1].d, w[2].d, w[3].d, x);
  }

  lemma {:induction false} Term5Codes(w: Word, x: bv64)
    requires EndsAt(w, 5) && x == EncodeTerm(w, 5)
    ensures CodesAfter(w, 5, x)
  {
    CodesFields(w);
    Term5Bits(Codes(w), w[0].d, w[1].d, w[2].d, w[3].d, w[4].d, x);
  }

  lemma {:induction false} Term6Codes(w: Word, x: bv64)
    requires EndsAt(w, 6) && x == EncodeTerm(w, 6)
    ensures CodesAfter(w, 6, x)
  {
    CodesFields(w);
    Term6Bits(Codes(w), w[0].d, w[1].d, w[2].d, w[3].d, w[4].d, w[5].d, x);
  }

  lemma {:induction false} TermCodes(w: Word, k: nat, x: bv64)
    requires k < 8 && EndsAt(w, k) && x == EncodeTerm(w, k)
    ensures CodesAfter(w, k, x)
  {
    match k {
      case 0 => Term0Codes(w, x);
      case 1 => Term1Codes(w, x);
      case 2 => Term2Codes(w, x);
      case 3 => Term3Codes(w, x);
      case 4 => Term4Codes(w, x);
      case 5 => Term5Codes(w, x);
      case 6 => Term6Codes(w, x);
      case 7 =>
    }
  }

  lemma {:induction false} TermFormat(w: Word, k: nat, x: bv64)
    requires k < 8 && EndsAt(w, k) && AllMapped(w, k + 1, 8) && x == EncodeTerm(w, k)
    ensures x & 0xff == TermNumber(k) as bv64 && BytesUp(w, x, k) && CodesIn(w, x, k + 1, 8)
  {
    TermTypes(w, k, x);
    ByteIsAt(x, 0, TermNumber(k));
    TermData(w, k, x);
    forall i | 0 <= i < k
      ensures ByteIs(x, i + 1, w[i].d)
    {
      ByteIsAt(x, i + 1, w[i].d);
    }
    TermCodes(w, k, x);
    CodesUp(w, k, x);
  }

  // ----- all formats -----

  /** The block `x` of a word with control characters: its type, and where the lanes are. */
  ghost predicate Format(w: Word, x: bv64) {
    if StartsAt(w, 0) then x & 0xff == 0x78 && BytesIn(w, x, 1, 8)
    else if StartsAt(w, 4) then
      BytesIn(w, x, 5, 8)
      && if OrderedAt(w, 0) then x & 0xff == 0x66 && BytesIn(w, x, 1, 4) && SetCode(w[0], (x >> 32) & 0xf)
         else x & 0xff == 0x33 && CodesIn(w, x, 0, 4)
    else if OrderedAt(w, 4) then
      BytesIn(w, x, 5, 8) && SetCode(w[4], (x >> 36) & 0xf)
      && if OrderedAt(w, 0) then x & 0xff == 0x55 && BytesIn(w, x, 1, 4) && SetCode(w[0], (x >> 32) & 0xf)
         else x & 0xff == 0x2d && CodesIn(w, x, 0, 4)
    else if exists k | 0 <= k < 8 :: EndsAt(w, k) then
      forall k | 0 <= k < 8 && EndsAt(w, k) ::
        x & 0xff == TermNumber(k) as bv64 && BytesUp(w, x, k) && CodesIn(w, x, k + 1, 8)
    else x & 0xff == 0x1e && CodesIn(w, x, 0, 8)
  }

  lemma {:induction false} StartFormat(w: Word, x: bv64)
    requires Codable(w) && StartsAt(w, 4) && !StartsAt(w, 0)
    requires x == if OrderedAt(w, 0) then EncodeOsStart(w) else EncodeStart4(w)
    ensures Format(w, x)
  {
    if OrderedAt(w, 0) {
      OsStartFormat(w, OCode(w[0]), x);
    } else {
      Start4Format(w, x);
    }
  }

  lemma {:induction false} OrderedFormat(w: Word, x: bv64)
    requires Codable(w) && OrderedAt(w, 4) && !StartsAt(w, 4) && !StartsAt(w, 0)
    requires x == if OrderedAt(w, 0) then EncodeOs04(w) else EncodeOs4(w)
    ensures Format(w, x)
  {
    if OrderedAt(w, 0) {
      Os04Format(w, OCode(w[0]), OCode(w[4]), x);
    } else {
      Os4Format(w, x);
    }
  }

  predicate NoStartOrSet(w: Word) {
    !StartsAt(w, 0) && !StartsAt(w, 4) && !OrderedAt(w, 0) && !OrderedAt(w, 4)
  }

  lemma {:induction false} TermWordFormat(w: Word, k: nat, x: bv64)
    requires Codable(w) && NoStartOrSet(w) && k < 8 && EndsAt(w, k) && x == EncodeTerm(w, k)
    ensures Format(w, x)
  {
    EndFormat(w, k, x);
  }

  lemma {:induction false} OtherFormat(w: Word, x: bv64)
    requires Codable(w) && !NoCtrl(w, 0, 8) && NoStartOrSet(w) && EndLane(w).None? && x == EncodeCtrl(w)
    ensures Format(w, x)
  {
    assert AllMapped(w, 0, 8);
    CtrlFormat(w, x);
  }

  /** The block of a word by what is in it. */
  predicate EncodedBy(w: Word, x: bv64) {
    if StartsAt(w, 0) then x == EncodeStart0(w)
    else if StartsAt(w, 4) then x == if OrderedAt(w, 0) then EncodeOsStart(w) else EncodeStart4(w)
    else if OrderedAt(w, 4) then x == if OrderedAt(w, 0) then EncodeOs04(w) else EncodeOs4(w)
    else
      !OrderedAt(w, 0)
      && match EndLane(w) case Some(k) => x == EncodeTerm(w, k) case None => x == EncodeCtrl(w)
  }

  lemma {:induction false} EncodeIs(w: Word)
    requires Codable(w) && !NoCtrl(w, 0, 8)
    ensures Encode(w).header == 1 && EncodedBy(w, Encode(w).data)
  {
  }

  /** Every word that the code can carry has the block that the standard gives it. */
  lemma {:induction false} EncodeFormat(w: Word)
    requires Codable(w)
    ensures NoCtrl(w, 0, 8) ==> Encode(w).header == 2 && BytesIn(w, Encode(w).data, 0, 8)
    ensures !NoCtrl(w, 0, 8) ==> Encode(w).header == 1 && Format(w, Encode(w).data)
  {
    if NoCtrl(w, 0, 8) {
      DataFormat(w);
    } else {
      EncodeIs(w);
      FormatOf(w, Encode(w).data);
    }
  }

  lemma {:induction false} FormatOf(w: Word, x: bv64)
    requires Codable(w) && !NoCtrl(w, 0, 8) && EncodedBy(w, x)
    ensures Format(w, x)
  {
    if StartsAt(w, 0) {
      Start0Format(w, x);
    } else if StartsAt(w, 4) {
      StartFormat(w, x);
    } else if OrderedAt(w, 4) {
      OrderedFormat(w, x);
    } else if EndLane(w).Some? {
      TermWordFormat(w, EndLane(w).value, x);
    } else {
      OtherFormat(w, x);
    }
  }

  lemma {:induction false} EndFormat(w: Word, k: nat, x: bv64)
    requires Codable(w) && k < 8 && EndsAt(w, k) && x == EncodeTerm(w, k)
    ensures forall i | 0 <= i < 8 && EndsAt(w, i) :: i == k
    ensures x & 0xff == TermNumber(k) as bv64 && BytesUp(w, x, k) && CodesIn(w, x, k + 1, 8)
  {
    assert w[k].c;
    TermFormat(w, k, x);
  }
}
