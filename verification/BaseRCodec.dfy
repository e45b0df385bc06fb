/** The 64b/66b block code of 10GBASE-R (clause 49.2.4 of IEEE Std 802.3): eight XGMII lanes as a sync
    header and 64 bits, and back. */
module BaseRCodec {
  import opened Wrappers
  import opened Xgmii

  const LPI: byte := 0x06
  const SEQ_OS: byte := 0x9c
  const SIG_OS: byte := 0x5c
  const RES_0: byte := 0x1c
  const RES_1: byte := 0x3c
  const RES_2: byte := 0x7c
  const RES_3: byte := 0xbc
  const RES_4: byte := 0xdc
  const RES_5: byte := 0xf7

  const SYNC_DATA: bv2 := 2
  const SYNC_CTRL: bv2 := 1

  /** `over` is what encoding leaves above the 64 bits of a block. */
  datatype Block = Block(header: bv2, data: bv64, over: bv4 := 0)

  type Word = w: seq<Lane> | |w| == 8 witness Idles(8)

  // ----- fields of a block -----

  /** Byte `k` of a block. */
  function ByteAt(x: bv64, k: nat): byte
    requires k < 8
  {
    match k
    case 0 => ((x >> 0) & 0xff) as bv8
    case 1 => ((x >> 8) & 0xff) as bv8
    case 2 => ((x >> 16) & 0xff) as bv8
    case 3 => ((x >> 24) & 0xff) as bv8
    case 4 => ((x >> 32) & 0xff) as bv8
    case 5 => ((x >> 40) & 0xff) as bv8
    case 6 => ((x >> 48) & 0xff) as bv8
    case 7 => ((x >> 56) & 0xff) as bv8
  }

  /** Field `i` of eight seven-bit control codes. */
  function FieldAt(x: bv64, i: nat): bv64
    requires i < 8
  {
    match i
    case 0 => (x >> 0) & 0x7f
    case 1 => (x >> 7) & 0x7f
    case 2 => (x >> 14) & 0x7f
    case 3 => (x >> 21) & 0x7f
    case 4 => (x >> 28) & 0x7f
    case 5 => (x >> 35) & 0x7f
    case 6 => (x >> 42) & 0x7f
    case 7 => (x >> 49) & 0x7f
  }

  /** The control code of lane `i` in a block. */
  function CodeAt(x: bv64, i: nat): bv64
    requires i < 8
  {
    FieldAt(x >> 8, i)
  }

  function TypeOf(x: bv64): byte { ByteAt(x, 0) }

  /** Byte `d` at bit 8 * k. */
  function Put(d: byte, k: nat): bv64
    requires k < 8
  {
    match k
    case 0 => d as bv64 << 0
    case 1 => d as bv64 << 8
    case 2 => d as bv64 << 16
    case 3 => d as bv64 << 24
    case 4 => d as bv64 << 32
    case 5 => d as bv64 << 40
    case 6 => d as bv64 << 48
    case 7 => d as bv64 << 56
  }

  // ----- control codes -----

  /** The characters that have a control code. */
  predicate Coded(d: byte) {
    d == IDLE || d == LPI || d == ERROR || d == RES_0 || d == RES_1 || d == RES_2 || d == RES_3
    || d == RES_4 || d == RES_5
  }

  predicate Mapped(l: Lane) { l.c && Coded(l.d) }

  function Code(l: Lane): (c: bv64)
    ensures c <= 0x7f
  {
    if !l.c then 0x1e
    else if l.d == IDLE then 0x00
    else if l.d == LPI then 0x06
    else if l.d == ERROR then 0x1e
    else if l.d == RES_0 then 0x2d
    else if l.d == RES_1 then 0x33
    else if l.d == RES_2 then 0x4b
    else if l.d == RES_3 then 0x55
    else if l.d == RES_4 then 0x66
    else if l.d == RES_5 then 0x78
    else 0x1e
  }

  function Char(code: bv64): (d: byte)
    ensures Coded(d)
  {
    if code == 0x00 then IDLE
    else if code == 0x06 then LPI
    else if code == 0x1e then ERROR
    else if code == 0x2d then RES_0
    else if code == 0x33 then RES_1
    else if code == 0x4b then RES_2
    else if code == 0x55 then RES_3
    else if code == 0x66 then RES_4
    else if code == 0x78 then RES_5
    else ERROR
  }

  lemma {:induction false} CharOfCode(l: Lane)
    ensures Mapped(l) <==> Lane(Char(Code(l)), true) == l
  {
  }

  /** All eight codes; lanes of data count as errors. */
  function Codes(w: Word): bv64 {
    Code(w[0]) | (Code(w[1]) << 7) | (Code(w[2]) << 14) | (Code(w[3]) << 21) | (Code(w[4]) << 28)
    | (Code(w[5]) << 35) | (Code(w[6]) << 42) | (Code(w[7]) << 49)
  }

  lemma {:induction false} FieldsOf(c0: bv64, c1: bv64, c2: bv64, c3: bv64, c4: bv64, c5: bv64,
                                    c6: bv64, c7: bv64, x: bv64)
    requires c0 <= 0x7f && c1 <= 0x7f && c2 <= 0x7f && c3 <= 0x7f
    requires c4 <= 0x7f && c5 <= 0x7f && c6 <= 0x7f && c7 <= 0x7f
    requires x == c0 | (c1 << 7) | (c2 << 14) | (c3 << 21) | (c4 << 28) | (c5 << 35) | (c6 << 42)
                  | (c7 << 49)
    ensures FieldAt(x, 0) == c0 && FieldAt(x, 1) == c1 && FieldAt(x, 2) == c2 && FieldAt(x, 3) == c3
    ensures FieldAt(x, 4) == c4 && FieldAt(x, 5) == c5 && FieldAt(x, 6) == c6 && FieldAt(x, 7) == c7
    ensures x <= 0xff_ffff_ffff_ffff
  {
  }

  lemma {:induction false} CodesFields(w: Word)
    ensures FieldAt(Codes(w), 0) == Code(w[0]) && FieldAt(Codes(w), 1) == Code(w[1])
    ensures FieldAt(Codes(w), 2) == Code(w[2]) && FieldAt(Codes(w), 3) == Code(w[3])
    ensures FieldAt(Codes(w), 4) == Code(w[4]) && FieldAt(Codes(w), 5) == Code(w[5])
    ensures FieldAt(Codes(w), 6) == Code(w[6]) && FieldAt(Codes(w), 7) == Code(w[7])
    ensures Codes(w) <= 0xff_ffff_ffff_ffff
  {
    FieldsOf(Code(w[0]), Code(w[1]), Code(w[2]), Code(w[3]), Code(w[4]), Code(w[5]), Code(w[6]),
             Code(w[7]), Codes(w));
  }

  // ----- encoding -----

  predicate NoCtrl(w: Word, i: nat, j: nat)
    requires i <= j <= 8
  {
    forall k | i <= k < j :: !w[k].c
  }

  predicate StartsAt(w: Word, i: nat)
    requires i == 0 || i == 4
  {
    w[i] == StartLane && NoCtrl(w, i + 1, 8)
  }

  predicate IsOrdered(l: Lane) { l.c && (l.d == SEQ_OS || l.d == SIG_OS) }

  predicate OrderedAt(w: Word, i: nat)
    requires i == 0 || i == 4
  {
    IsOrdered(w[i]) && NoCtrl(w, i + 1, i + 4)
  }

  predicate EndsAt(w: Word, i: nat)
    requires i < 8
  {
    w[i] == TermLane && NoCtrl(w, 0, i)
  }

  /** The O code of an ordered set, at bit 32 or 36. */
  function OCode(l: Lane): bv64 { if l.d == SIG_OS then 0xf else 0x0 }

  function LowData(w: Word): bv64 { Put(w[1].d, 1) | Put(w[2].d, 2) | Put(w[3].d, 3) }

  function HighData(w: Word): bv64 { Put(w[5].d, 5) | Put(w[6].d, 6) | Put(w[7].d, 7) }

  function LowCodes(w: Word): bv64 { (Codes(w) & 0xfffffff) << 8 }

  function EncodeData(w: Word): bv64 { Put(w[0].d, 0) | LowData(w) | Put(w[4].d, 4) | HighData(w) }

  function EncodeStart0(w: Word): bv64 { 0x78 | LowData(w) | Put(w[4].d, 4) | HighData(w) }

  function EncodeStart4(w: Word): bv64 { 0x33 | LowCodes(w) | HighData(w) }

  function EncodeOsStart(w: Word): bv64 { 0x66 | LowData(w) | (OCode(w[0]) << 32) | HighData(w) }

  function EncodeOs04(w: Word): bv64 {
    0x55 | HighData(w) | (OCode(w[4]) << 36) | LowData(w) | (OCode(w[0]) << 32)
  }

  function EncodeOs4(w: Word): bv64 { 0x2d | LowCodes(w) | HighData(w) | (OCode(w[4]) << 36) }

  function TermType(k: nat): byte
    requires k < 8
  {
    match k
    case 0 => 0x87
    case 1 => 0x99
    case 2 => 0xaa
    case 3 => 0xb4
    case 4 => 0xcc
    case 5 => 0xd2
    case 6 => 0xe1
    case 7 => 0xff
  }

  function EncodeTerm(w: Word, k: nat): bv64
    requires k < 8
  {
    var c := Codes(w);
    match k
    case 0 => 0x87 | ((c & 0xffffffffffff80) << 8)
    case 1 => 0x99 | ((c & 0xffffffffffc000) << 8) | Put(w[0].d, 1)
    case 2 => 0xaa | ((c & 0xffffffffe00000) << 8) | Put(w[0].d, 1) | Put(w[1].d, 2)
    case 3 => 0xb4 | ((c & 0xfffffff0000000) << 8) | Put(w[0].d, 1) | Put(w[1].d, 2)
              | Put(w[2].d, 3)
    case 4 => 0xcc | ((c & 0xfffff800000000) << 8) | Put(w[0].d, 1) | Put(w[1].d, 2)
              | Put(w[2].d, 3) | Put(w[3].d, 4)
    case 5 => 0xd2 | ((c & 0xfffc0000000000) << 8) | Put(w[0].d, 1) | Put(w[1].d, 2)
              | Put(w[2].d, 3) | Put(w[3].d, 4) | Put(w[4].d, 5)
    case 6 => 0xe1 | ((c & 0xfe000000000000) << 8) | Put(w[0].d, 1) | Put(w[1].d, 2)
              | Put(w[2].d, 3) | Put(w[3].d, 4) | Put(w[4].d, 5) | Put(w[5].d, 6)
    case 7 => 0xff | Put(w[0].d, 1) | Put(w[1].d, 2) | Put(w[2].d, 3) | Put(w[3].d, 4)
              | Put(w[4].d, 5) | Put(w[5].d, 6) | Put(w[6].d, 7)
  }

  function EncodeCtrl(w: Word): bv64 { 0x1e | (Codes(w) << 8) }

  /** The lane the frame ends in: the first control lane, if it is the terminator. */
  function EndLane(w: Word): (k: Option<nat>)
    ensures k.Some? ==> k.value < 8 && EndsAt(w, k.value)
    ensures k.None? ==> forall i | 0 <= i < 8 :: !EndsAt(w, i)
  {
    if EndsAt(w, 0) then Some(0)
    else if EndsAt(w, 1) then Some(1)
    else if EndsAt(w, 2) then Some(2)
    else if EndsAt(w, 3) then Some(3)
    else if EndsAt(w, 4) then Some(4)
    else if EndsAt(w, 5) then Some(5)
    else if EndsAt(w, 6) then Some(6)
    else if EndsAt(w, 7) then Some(7)
    else None
  }

  /** An ordered set in lane 0 alone: the codes of lanes 0 to 3, where those of lanes 4 to 7 belong, and
      shifted by four bits too many. */
  function EncodeOs0(w: Word): bv64 {
    0x4b | ((Codes(w) & 0xfffffff) << 40) | LowData(w) | (OCode(w[0]) << 32)
  }

  function EncodeOs0Over(w: Word): bv4 { ((Codes(w) >> 24) & 0xf) as bv4 }

  /** The block for eight lanes. */
  function Encode(w: Word): Block {
    if NoCtrl(w, 0, 8) then Block(SYNC_DATA, EncodeData(w))
    else if StartsAt(w, 0) then Block(SYNC_CTRL, EncodeStart0(w))
    else if StartsAt(w, 4) then
      Block(SYNC_CTRL, if OrderedAt(w, 0) then EncodeOsStart(w) else EncodeStart4(w))
    else if OrderedAt(w, 0) then
      if OrderedAt(w, 4) then Block(SYNC_CTRL, EncodeOs04(w))
      else Block(SYNC_CTRL, EncodeOs0(w), EncodeOs0Over(w))
    else if OrderedAt(w, 4) then Block(SYNC_CTRL, EncodeOs4(w))
    else
      match EndLane(w)
      case Some(k) => Block(SYNC_CTRL, EncodeTerm(w, k))
      case None => Block(SYNC_CTRL, EncodeCtrl(w))
  }

  // ----- decoding -----

  function DataLane(x: bv64, k: nat): Lane
    requires k < 8
  {
    Lane(ByteAt(x, k), false)
  }

  function CtrlLane(x: bv64, i: nat): Lane
    requires i < 8
  {
    Lane(Char(CodeAt(x, i)), true)
  }

  function OLane(o: bv64): Lane {
    Lane(if o == 0x0 then SEQ_OS else if o == 0xf then SIG_OS else ERROR, true)
  }

  function LowLanes(x: bv64): seq<Lane> { [DataLane(x, 1), DataLane(x, 2), DataLane(x, 3)] }

  function HighLanes(x: bv64): seq<Lane> { [DataLane(x, 5), DataLane(x, 6), DataLane(x, 7)] }

  function LowCtrl(x: bv64): seq<Lane> {
    [CtrlLane(x, 0), CtrlLane(x, 1), CtrlLane(x, 2), CtrlLane(x, 3)]
  }

  function HighCtrl(x: bv64): seq<Lane> {
    [CtrlLane(x, 4), CtrlLane(x, 5), CtrlLane(x, 6), CtrlLane(x, 7)]
  }

  function O0(x: bv64): Lane { OLane((x >> 32) & 0xf) }

  function O4(x: bv64): Lane { OLane((x >> 36) & 0xf) }

  /** The ordered set of a type-0x4b block: the signal code decodes as a sequence set, too. */
  function O0Alone(x: bv64): Lane {
    Lane(if (x >> 32) & 0xf == 0x0 || (x >> 32) & 0xf == 0xf then SEQ_OS else ERROR, true)
  }

  function DecodeTerm(x: bv64, k: nat): (w: seq<Lane>)
    requires k < 8
    ensures |w| == 8
  {
    match k
    case 0 => [TermLane, CtrlLane(x, 1), CtrlLane(x, 2), CtrlLane(x, 3), CtrlLane(x, 4),
               CtrlLane(x, 5), CtrlLane(x, 6), CtrlLane(x, 7)]
    case 1 => [DataLane(x, 1), TermLane, CtrlLane(x, 2), CtrlLane(x, 3), CtrlLane(x, 4),
               CtrlLane(x, 5), CtrlLane(x, 6), CtrlLane(x, 7)]
    case 2 => [DataLane(x, 1), DataLane(x, 2), TermLane, CtrlLane(x, 3), CtrlLane(x, 4),
               CtrlLane(x, 5), CtrlLane(x, 6), CtrlLane(x, 7)]
    case 3 => [DataLane(x, 1), DataLane(x, 2), DataLane(x, 3), TermLane, CtrlLane(x, 4),
               CtrlLane(x, 5), CtrlLane(x, 6), CtrlLane(x, 7)]
    case 4 => [DataLane(x, 1), DataLane(x, 2), DataLane(x, 3), DataLane(x, 4), TermLane,
               CtrlLane(x, 5), CtrlLane(x, 6), CtrlLane(x, 7)]
    case 5 => [DataLane(x, 1), DataLane(x, 2), DataLane(x, 3), DataLane(x, 4), DataLane(x, 5),
               TermLane, CtrlLane(x, 6), CtrlLane(x, 7)]
    case 6 => [DataLane(x, 1), DataLane(x, 2), DataLane(x, 3), DataLane(x, 4), DataLane(x, 5),
               DataLane(x, 6), TermLane, CtrlLane(x, 7)]
    case 7 => [DataLane(x, 1), DataLane(x, 2), DataLane(x, 3), DataLane(x, 4), DataLane(x, 5),
               DataLane(x, 6), DataLane(x, 7), TermLane]
  }

  const ErrorLane := Lane(ERROR, true)

  const Errors: Word := [ErrorLane, ErrorLane, ErrorLane, ErrorLane, ErrorLane, ErrorLane, ErrorLane, ErrorLane]

  function Decode(b: Block): Word {
    var x := b.data;
    if b.header == SYNC_DATA then [DataLane(x, 0)] + LowLanes(x) + [DataLane(x, 4)] + HighLanes(x)
    else if b.header == SYNC_CTRL then
      var t := TypeOf(x);
      if t == 0x1e then LowCtrl(x) + HighCtrl(x)
      else if t == 0x2d then LowCtrl(x) + [O4(x)] + HighLanes(x)
      else if t == 0x33 then LowCtrl(x) + [StartLane] + HighLanes(x)
      else if t == 0x66 then [O0(x)] + LowLanes(x) + [StartLane] + HighLanes(x)
      else if t == 0x55 then [O0(x)] + LowLanes(x) + [O4(x)] + HighLanes(x)
      else if t == 0x78 then [StartLane] + LowLanes(x) + [DataLane(x, 4)] + HighLanes(x)
      else if t == 0x4b then [O0Alone(x)] + LowLanes(x) + HighCtrl(x)
      else if t == 0x87 then DecodeTerm(x, 0)
      else if t == 0x99 then DecodeTerm(x, 1)
      else if t == 0xaa then DecodeTerm(x, 2)
      else if t == 0xb4 then DecodeTerm(x, 3)
      else if t == 0xcc then DecodeTerm(x, 4)
      else if t == 0xd2 then DecodeTerm(x, 5)
      else if t == 0xe1 then DecodeTerm(x, 6)
      else if t == 0xff then DecodeTerm(x, 7)
      else Errors
    else Errors
  }

  // ----- the bits of the block types -----

  lemma {:induction false} DataBits(d0: byte, d1: byte, d2: byte, d3: byte, d4: byte, d5: byte,
                                    d6: byte, d7: byte, x: bv64)
    requires x == Put(d0, 0) | (Put(d1, 1) | Put(d2, 2) | Put(d3, 3)) | Put(d4, 4)
                  | (Put(d5, 5) | Put(d6, 6) | Put(d7, 7))
    ensures ByteAt(x, 0) == d0 && ByteAt(x, 1) == d1 && ByteAt(x, 2) == d2 && ByteAt(x, 3) == d3
    ensures ByteAt(x, 4) == d4 && ByteAt(x, 5) == d5 && ByteAt(x, 6) == d6 && ByteAt(x, 7) == d7
  {
  }

  lemma {:induction false} Start0Bits(d1: byte, d2: byte, d3: byte, d4: byte, d5: byte, d6: byte,
                                      d7: byte, x: bv64)
    requires x == 0x78 | (Put(d1, 1) | Put(d2, 2) | Put(d3, 3)) | Put(d4, 4)
                  | (Put(d5, 5) | Put(d6, 6) | Put(d7, 7))
    ensures TypeOf(x) == 0x78 && ByteAt(x, 1) == d1 && ByteAt(x, 2) == d2 && ByteAt(x, 3) == d3
    ensures ByteAt(x, 4) == d4 && ByteAt(x, 5) == d5 && ByteAt(x, 6) == d6 && ByteAt(x, 7) == d7
  {
  }

  lemma {:induction false} Start4Bits(c: bv64, d5: byte, d6: byte, d7: byte, x: bv64)
    requires x == 0x33 | ((c & 0xfffffff) << 8) | (Put(d5, 5) | Put(d6, 6) | Put(d7, 7))
    ensures TypeOf(x) == 0x33 && CodeAt(x, 0) == FieldAt(c, 0) && CodeAt(x, 1) == FieldAt(c, 1)
    ensures CodeAt(x, 2) == FieldAt(c, 2) && CodeAt(x, 3) == FieldAt(c, 3) && ByteAt(x, 5) == d5
    ensures ByteAt(x, 6) == d6 && ByteAt(x, 7) == d7
  {
  }

  lemma {:induction false} OsStartBits(d1: byte, d2: byte, d3: byte, o: bv64, d5: byte, d6: byte,
                                       d7: byte, x: bv64)
    requires x == 0x66 | (Put(d1, 1) | Put(d2, 2) | Put(d3, 3)) | (o << 32)
                  | (Put(d5, 5) | Put(d6, 6) | Put(d7, 7))
    requires o <= 0xf
    ensures TypeOf(x) == 0x66 && O0(x) == OLane(o) && ByteAt(x, 1) == d1 && ByteAt(x, 2) == d2
    ensures ByteAt(x, 3) == d3 && ByteAt(x, 5) == d5 && ByteAt(x, 6) == d6 && ByteAt(x, 7) == d7
  {
  }

  lemma {:induction false} Os04Bits(d1: byte, d2: byte, d3: byte, o: bv64, p: bv64, d5: byte,
                                    d6: byte, d7: byte, x: bv64)
    requires x == 0x55 | (Put(d5, 5) | Put(d6, 6) | Put(d7, 7)) | (p << 36)
                  | (Put(d1, 1) | Put(d2, 2) | Put(d3, 3)) | (o << 32)
    requires o <= 0xf && p <= 0xf
    ensures TypeOf(x) == 0x55 && O0(x) == OLane(o) && O4(x) == OLane(p) && ByteAt(x, 1) == d1
    ensures ByteAt(x, 2) == d2 && ByteAt(x, 3) == d3 && ByteAt(x, 5) == d5 && ByteAt(x, 6) == d6
    ensures ByteAt(x, 7) == d7
  {
  }

  lemma {:induction false} Os4CodeBits(c: bv64, p: bv64, d5: byte, d6: byte, d7: byte, x: bv64)
    requires x == 0x2d | ((c & 0xfffffff) << 8) | (Put(d5, 5) | Put(d6, 6) | Put(d7, 7))
                  | (p << 36)
    ensures CodeAt(x, 0) == FieldAt(c, 0) && CodeAt(x, 1) == FieldAt(c, 1)
    ensures CodeAt(x, 2) == FieldAt(c, 2) && CodeAt(x, 3) == FieldAt(c, 3)
  {
  }

  lemma {:induction false} Os4DataBits(c: bv64, p: bv64, d5: byte, d6: byte, d7: byte, x: bv64)
    requires x == 0x2d | ((c & 0xfffffff) << 8) | (Put(d5, 5) | Put(d6, 6) | Put(d7, 7))
                  | (p << 36)
    requires p <= 0xf
    ensures (x >> 36) & 0xf == p && ByteAt(x, 5) == d5 && ByteAt(x, 6) == d6 && ByteAt(x, 7) == d7
  {
  }

  lemma {:induction false} Os4TypeBits(c: bv64, p: bv64, d5: byte, d6: byte, d7: byte, x: bv64)
    requires x == 0x2d | ((c & 0xfffffff) << 8) | (Put(d5, 5) | Put(d6, 6) | Put(d7, 7))
                  | (p << 36)
    ensures TypeOf(x) == 0x2d
  {
  }

  lemma {:induction false} CtrlBits(c: bv64, x: bv64)
    requires x == 0x1e | (c << 8) && c <= 0xff_ffff_ffff_ffff
    ensures TypeOf(x) == 0x1e && x >> 8 == c
  {
  }

  lemma {:induction false} Term0Bits(c: bv64, x: bv64)
    requires x == 0x87 | ((c & 0xffffffffffff80) << 8)
    ensures TypeOf(x) == 0x87 && CodeAt(x, 1) == FieldAt(c, 1) && CodeAt(x, 2) == FieldAt(c, 2)
    ensures CodeAt(x, 3) == FieldAt(c, 3) && CodeAt(x, 4) == FieldAt(c, 4)
    ensures CodeAt(x, 5) == FieldAt(c, 5) && CodeAt(x, 6) == FieldAt(c, 6)
    ensures CodeAt(x, 7) == FieldAt(c, 7)
  {
  }

  lemma {:induction false} Term1Bits(c: bv64, d0: byte, x: bv64)
    requires x == 0x99 | ((c & 0xffffffffffc000) << 8) | Put(d0, 1)
    ensures TypeOf(x) == 0x99 && ByteAt(x, 1) == d0 && CodeAt(x, 2) == FieldAt(c, 2)
    ensures CodeAt(x, 3) == FieldAt(c, 3) && CodeAt(x, 4) == FieldAt(c, 4)
    ensures CodeAt(x, 5) == FieldAt(c, 5) && CodeAt(x, 6) == FieldAt(c, 6)
    ensures CodeAt(x, 7) == FieldAt(c, 7)
  {
  }

  lemma {:induction false} Term2Bits(c: bv64, d0: byte, d1: byte, x: bv64)
    requires x == 0xaa | ((c & 0xffffffffe00000) << 8) | Put(d0, 1) | Put(d1, 2)
    ensures TypeOf(x) == 0xaa && ByteAt(x, 1) == d0 && ByteAt(x, 2) == d1
    ensures CodeAt(x, 3) == FieldAt(c, 3) && CodeAt(x, 4) == FieldAt(c, 4)
    ensures CodeAt(x, 5) == FieldAt(c, 5) && CodeAt(x, 6) == FieldAt(c, 6)
    ensures CodeAt(x, 7) == FieldAt(c, 7)
  {
  }

  lemma {:induction false} Term3Bits(c: bv64, d0: byte, d1: byte, d2: byte, x: bv64)
    requires x == 0xb4 | ((c & 0xfffffff0000000) << 8) | Put(d0, 1) | Put(d1, 2) | Put(d2, 3)
    ensures TypeOf(x) == 0xb4 && ByteAt(x, 1) == d0 && ByteAt(x, 2) == d1 && ByteAt(x, 3) == d2
    ensures CodeAt(x, 4) == FieldAt(c, 4) && CodeAt(x, 5) == FieldAt(c, 5)
    ensures CodeAt(x, 6) == FieldAt(c, 6) && CodeAt(x, 7) == FieldAt(c, 7)
  {
  }

  lemma {:induction false} Term4Bits(c: bv64, d0: byte, d1: byte, d2: byte, d3: byte, x: bv64)
    requires x == 0xcc | ((c & 0xfffff800000000) << 8) | Put(d0, 1) | Put(d1, 2) | Put(d2, 3)
                  | Put(d3, 4)
    ensures TypeOf(x) == 0xcc && ByteAt(x, 1) == d0 && ByteAt(x, 2) == d1 && ByteAt(x, 3) == d2
    ensures ByteAt(x, 4) == d3 && CodeAt(x, 5) == FieldAt(c, 5) && CodeAt(x, 6) == FieldAt(c, 6)
    ensures CodeAt(x, 7) == FieldAt(c, 7)
  {
  }

  lemma {:induction false} Term5Bits(c: bv64, d0: byte, d1: byte, d2: byte, d3: byte, d4: byte,
                                     x: bv64)
    requires x == 0xd2 | ((c & 0xfffc0000000000) << 8) | Put(d0, 1) | Put(d1, 2) | Put(d2, 3)
                  | Put(d3, 4) | Put(d4, 5)
    ensures TypeOf(x) == 0xd2 && ByteAt(x, 1) == d0 && ByteAt(x, 2) == d1 && ByteAt(x, 3) == d2
    ensures ByteAt(x, 4) == d3 && ByteAt(x, 5) == d4 && CodeAt(x, 6) == FieldAt(c, 6)
    ensures CodeAt(x, 7) == FieldAt(c, 7)
  {
  }

  lemma {:induction false} Term6Bits(c: bv64, d0: byte, d1: byte, d2: byte, d3: byte, d4: byte,
                                     d5: byte, x: bv64)
    requires x == 0xe1 | ((c & 0xfe000000000000) << 8) | Put(d0, 1) | Put(d1, 2) | Put(d2, 3)
                  | Put(d3, 4) | Put(d4, 5) | Put(d5, 6)
    ensures TypeOf(x) == 0xe1 && ByteAt(x, 1) == d0 && ByteAt(x, 2) == d1 && ByteAt(x, 3) == d2
    ensures ByteAt(x, 4) == d3 && ByteAt(x, 5) == d4 && ByteAt(x, 6) == d5
    ensures CodeAt(x, 7) == FieldAt(c, 7)
  {
  }

  lemma {:induction false} Term7Bits(c: bv64, d0: byte, d1: byte, d2: byte, d3: byte, d4: byte,
                                     d5: byte, d6: byte, x: bv64)
    requires x == 0xff | Put(d0, 1) | Put(d1, 2) | Put(d2, 3) | Put(d3, 4) | Put(d4, 5) | Put(d5, 6)
                  | Put(d6, 7)
    ensures TypeOf(x) == 0xff && ByteAt(x, 1) == d0 && ByteAt(x, 2) == d1 && ByteAt(x, 3) == d2
    ensures ByteAt(x, 4) == d3 && ByteAt(x, 5) == d4 && ByteAt(x, 6) == d5 && ByteAt(x, 7) == d6
  {
  }

  // ----- the round trip -----

  predicate AllMapped(w: Word, i: nat, j: nat)
    requires i <= j <= 8
  {
    forall k | i <= k < j :: Mapped(w[k])
  }

  /** The words that the code can carry: data, and control words in which every control character
      stands where the format of its block type has a place for it. */
  predicate Codable(w: Word) {
    || NoCtrl(w, 0, 8)
    || StartsAt(w, 0)
    || (StartsAt(w, 4) && (OrderedAt(w, 0) || AllMapped(w, 0, 4)))
    || (OrderedAt(w, 0) && OrderedAt(w, 4))
    || (AllMapped(w, 0, 4) && OrderedAt(w, 4))
    || (exists k | 0 <= k < 8 :: EndsAt(w, k) && AllMapped(w, k + 1, 8))
    || AllMapped(w, 0, 8)
  }

  lemma {:induction false} DataTrip(w: Word)
    requires NoCtrl(w, 0, 8)
    ensures Decode(Block(SYNC_DATA, EncodeData(w))) == w
  {
    DataBits(w[0].d, w[1].d, w[2].d, w[3].d, w[4].d, w[5].d, w[6].d, w[7].d, EncodeData(w));
  }

  lemma {:induction false} Start0Trip(w: Word)
    requires StartsAt(w, 0)
    ensures Decode(Block(SYNC_CTRL, EncodeStart0(w))) == w
  {
    Start0Bits(w[1].d, w[2].d, w[3].d, w[4].d, w[5].d, w[6].d, w[7].d, EncodeStart0(w));
  }

  lemma {:induction false} LowCtrlTrip(w: Word, x: bv64)
    requires AllMapped(w, 0, 4)
    requires CodeAt(x, 0) == Code(w[0]) && CodeAt(x, 1) == Code(w[1])
    requires CodeAt(x, 2) == Code(w[2]) && CodeAt(x, 3) == Code(w[3])
    ensures LowCtrl(x) == w[..4]
  {
    CharOfCode(w[0]);
    CharOfCode(w[1]);
    CharOfCode(w[2]);
    CharOfCode(w[3]);
  }

  lemma {:induction false} Start4Fields(w: Word, x: bv64)
    requires StartsAt(w, 4) && x == EncodeStart4(w)
    ensures TypeOf(x) == 0x33
    ensures CodeAt(x, 0) == Code(w[0]) && CodeAt(x, 1) == Code(w[1])
    ensures CodeAt(x, 2) == Code(w[2]) && CodeAt(x, 3) == Code(w[3])
    ensures DataLane(x, 5) == w[5] && DataLane(x, 6) == w[6] && DataLane(x, 7) == w[7]
  {
    CodesFields(w);
    Start4Bits(Codes(w), w[5].d, w[6].d, w[7].d, x);
  }

  lemma {:induction false} Start4Trip(w: Word, x: bv64)
    requires StartsAt(w, 4) && AllMapped(w, 0, 4) && x == EncodeStart4(w)
    ensures Decode(Block(SYNC_CTRL, x)) == w
  {
    Start4Fields(w, x);
    LowCtrlTrip(w, x);
    assert w == w[..4] + [StartLane] + HighLanes(x);
  }

  lemma {:induction false} OrderedTrip(l: Lane)
    requires IsOrdered(l)
    ensures OLane(OCode(l)) == l && OCode(l) <= 0xf
  {
  }

  lemma {:induction false} OsStartTrip(w: Word)
    requires StartsAt(w, 4) && OrderedAt(w, 0)
    ensures Decode(Block(SYNC_CTRL, EncodeOsStart(w))) == w
  {
    OrderedTrip(w[0]);
    OsStartBits(w[1].d, w[2].d, w[3].d, OCode(w[0]), w[5].d, w[6].d, w[7].d, EncodeOsStart(w));
  }

  lemma {:induction false} Os04Trip(w: Word)
    requires OrderedAt(w, 0) && OrderedAt(w, 4)
    ensures Decode(Block(SYNC_CTRL, EncodeOs04(w))) == w
  {
    OrderedTrip(w[0]);
    OrderedTrip(w[4]);
    Os04Bits(w[1].d, w[2].d, w[3].d, OCode(w[0]), OCode(w[4]), w[5].d, w[6].d, w[7].d, EncodeOs04(w));
  }

  lemma {:induction false} Os4Codes(w: Word, x: bv64)
    requires x == EncodeOs4(w)
    ensures CodeAt(x, 0) == Code(w[0]) && CodeAt(x, 1) == Code(w[1])
    ensures CodeAt(x, 2) == Code(w[2]) && CodeAt(x, 3) == Code(w[3])
  {
    CodesFields(w);
    Os4CodeBits(Codes(w), OCode(w[4]), w[5].d, w[6].d, w[7].d, x);
  }

  lemma {:induction false} Os4Data(w: Word, x: bv64)
    requires OrderedAt(w, 4) && x == EncodeOs4(w)
    ensures (x >> 36) & 0xf == OCode(w[4])
    ensures ByteAt(x, 5) == w[5].d && ByteAt(x, 6) == w[6].d && ByteAt(x, 7) == w[7].d
  {
    OrderedTrip(w[4]);
    Os4DataBits(Codes(w), OCode(w[4]), w[5].d, w[6].d, w[7].d, x);
  }

  lemma {:induction false} Os4Lanes(w: Word, x: bv64)
    requires OrderedAt(w, 4) && (x >> 36) & 0xf == OCode(w[4])
    requires ByteAt(x, 5) == w[5].d && ByteAt(x, 6) == w[6].d && ByteAt(x, 7) == w[7].d
    ensures [O4(x)] + HighLanes(x) == w[4..]
  {
    OrderedTrip(w[4]);
    assert !w[5].c && !w[6].c && !w[7].c;
  }

  lemma {:induction false} Os4Type(w: Word, x: bv64)
    requires x == EncodeOs4(w)
    ensures TypeOf(x) == 0x2d
  {
    Os4TypeBits(Codes(w), OCode(w[4]), w[5].d, w[6].d, w[7].d, x);
  }

  lemma {:induction false} Os4Decodes(x: bv64)
    requires TypeOf(x) == 0x2d
    ensures Decode(Block(SYNC_CTRL, x)) == LowCtrl(x) + ([O4(x)] + HighLanes(x))
  {
  }

  lemma {:induction false} Os4Trip(w: Word, x: bv64)
    requires OrderedAt(w, 4) && AllMapped(w, 0, 4) && x == EncodeOs4(w)
    ensures Decode(Block(SYNC_CTRL, x)) == w
  {
    Os4Type(w, x);
    Os4Decodes(x);
    Os4Codes(w, x);
    LowCtrlTrip(w, x);
    Os4Data(w, x);
    Os4Lanes(w, x);
    assert w == w[..4] + w[4..];
  }

  lemma {:induction false} HighCtrlTrip(w: Word, x: bv64)
    requires AllMapped(w, 4, 8)
    requires CodeAt(x, 4) == Code(w[4]) && CodeAt(x, 5) == Code(w[5])
    requires CodeAt(x, 6) == Code(w[6]) && CodeAt(x, 7) == Code(w[7])
    ensures HighCtrl(x) == w[4..]
  {
    CharOfCode(w[4]);
    CharOfCode(w[5]);
    CharOfCode(w[6]);
    CharOfCode(w[7]);
  }

  lemma {:induction false} CtrlLow(w: Word, x: bv64)
    requires x == EncodeCtrl(w)
    ensures TypeOf(x) == 0x1e
    ensures CodeAt(x, 0) == Code(w[0]) && CodeAt(x, 1) == Code(w[1])
    ensures CodeAt(x, 2) == Code(w[2]) && CodeAt(x, 3) == Code(w[3])
  {
    CodesFields(w);
    CtrlBits(Codes(w), x);
  }

  lemma {:induction false} CtrlHigh(w: Word, x: bv64)
    requires x == EncodeCtrl(w)
    ensures CodeAt(x, 4) == Code(w[4]) && CodeAt(x, 5) == Code(w[5])
    ensures CodeAt(x, 6) == Code(w[6]) && CodeAt(x, 7) == Code(w[7])
  {
    CodesFields(w);
    CtrlBits(Codes(w), x);
  }

  lemma {:induction false} CtrlTrip(w: Word)
    requires AllMapped(w, 0, 8)
    ensures Decode(Block(SYNC_CTRL, EncodeCtrl(w))) == w
  {
    CtrlLow(w, EncodeCtrl(w));
    CtrlHigh(w, EncodeCtrl(w));
    LowCtrlTrip(w, EncodeCtrl(w));
    HighCtrlTrip(w, EncodeCtrl(w));
  }

  lemma {:induction false} Term0Fields(w: Word, x: bv64)
    requires EndsAt(w, 0) && x == EncodeTerm(w, 0)
    ensures TypeOf(x) == 0x87 && (CtrlLane(x, 1) == w[1] <==> Mapped(w[1]))
    ensures (CtrlLane(x, 2) == w[2] <==> Mapped(w[2])) && (CtrlLane(x, 3) == w[3] <==> Mapped(w[3]))
    ensures (CtrlLane(x, 4) == w[4] <==> Mapped(w[4])) && (CtrlLane(x, 5) == w[5] <==> Mapped(w[5]))
    ensures (CtrlLane(x, 6) == w[6] <==> Mapped(w[6])) && (CtrlLane(x, 7) == w[7] <==> Mapped(w[7]))
  {
    var c := Codes(w);
    CodesFields(w);
    Term0Bits(c, x);
    CharOfCode(w[1]);
    CharOfCode(w[2]);
    CharOfCode(w[3]);
    CharOfCode(w[4]);
    CharOfCode(w[5]);
    CharOfCode(w[6]);
    CharOfCode(w[7]);
  }

  lemma {:induction false} Term1Fields(w: Word, x: bv64)
    requires EndsAt(w, 1) && x == EncodeTerm(w, 1)
    ensures TypeOf(x) == 0x99 && DataLane(x, 1) == w[0] && (CtrlLane(x, 2) == w[2] <==> Mapped(w[2]))
    ensures (CtrlLane(x, 3) == w[3] <==> Mapped(w[3])) && (CtrlLane(x, 4) == w[4] <==> Mapped(w[4]))
    ensures (CtrlLane(x, 5) == w[5] <==> Mapped(w[5])) && (CtrlLane(x, 6) == w[6] <==> Mapped(w[6]))
    ensures (CtrlLane(x, 7) == w[7] <==> Mapped(w[7]))
  {
    var c := Codes(w);
    CodesFields(w);
    Term1Bits(c, w[0].d, x);
    CharOfCode(w[2]);
    CharOfCode(w[3]);
    CharOfCode(w[4]);
    CharOfCode(w[5]);
    CharOfCode(w[6]);
    CharOfCode(w[7]);
  }

  lemma {:induction false} Term2Fields(w: Word, x: bv64)
    requires EndsAt(w, 2) && x == EncodeTerm(w, 2)
    ensures TypeOf(x) == 0xaa && DataLane(x, 1) == w[0] && DataLane(x, 2) == w[1]
    ensures (CtrlLane(x, 3) == w[3] <==> Mapped(w[3])) && (CtrlLane(x, 4) == w[4] <==> Mapped(w[4]))
    ensures (CtrlLane(x, 5) == w[5] <==> Mapped(w[5])) && (CtrlLane(x, 6) == w[6] <==> Mapped(w[6]))
    ensures (CtrlLane(x, 7) == w[7] <==> Mapped(w[7]))
  {
    var c := Codes(w);
    CodesFields(w);
    Term2Bits(c, w[0].d, w[1].d, x);
    CharOfCode(w[3]);
    CharOfCode(w[4]);
    CharOfCode(w[5]);
    CharOfCode(w[6]);
    CharOfCode(w[7]);
  }

  lemma {:induction false} Term3Fields(w: Word, x: bv64)
    requires EndsAt(w, 3) && x == EncodeTerm(w, 3)
    ensures TypeOf(x) == 0xb4 && DataLane(x, 1) == w[0] && DataLane(x, 2) == w[1]
    ensures DataLane(x, 3) == w[2] && (CtrlLane(x, 4) == w[4] <==> Mapped(w[4]))
    ensures (CtrlLane(x, 5) == w[5] <==> Mapped(w[5])) && (CtrlLane(x, 6) == w[6] <==> Mapped(w[6]))
    ensures (CtrlLane(x, 7) == w[7] <==> Mapped(w[7]))
  {
    var c := Codes(w);
    CodesFields(w);
    Term3Bits(c, w[0].d, w[1].d, w[2].d, x);
    CharOfCode(w[4]);
    CharOfCode(w[5]);
    CharOfCode(w[6]);
    CharOfCode(w[7]);
  }

  lemma {:induction false} Term4Fields(w: Word, x: bv64)
    requires EndsAt(w, 4) && x == EncodeTerm(w, 4)
    ensures TypeOf(x) == 0xcc && DataLane(x, 1) == w[0] && DataLane(x, 2) == w[1]
    ensures DataLane(x, 3) == w[2] && DataLane(x, 4) == w[3]
    ensures (CtrlLane(x, 5) == w[5] <==> Mapped(w[5])) && (CtrlLane(x, 6) == w[6] <==> Mapped(w[6]))
    ensures (CtrlLane(x, 7) == w[7] <==> Mapped(w[7]))
  {
    var c := Codes(w);
    CodesFields(w);
    Term4Bits(c, w[0].d, w[1].d, w[2].d, w[3].d, x);
    CharOfCode(w[5]);
    CharOfCode(w[6]);
    CharOfCode(w[7]);
  }

  lemma {:induction false} Term5Fields(w: Word, x: bv64)
    requires EndsAt(w, 5) && x == EncodeTerm(w, 5)
    ensures TypeOf(x) == 0xd2 && DataLane(x, 1) == w[0] && DataLane(x, 2) == w[1]
    ensures DataLane(x, 3) == w[2] && DataLane(x, 4) == w[3] && DataLane(x, 5) == w[4]
    ensures (CtrlLane(x, 6) == w[6] <==> Mapped(w[6])) && (CtrlLane(x, 7) == w[7] <==> Mapped(w[7]))
  {
    var c := Codes(w);
    CodesFields(w);
    Term5Bits(c, w[0].d, w[1].d, w[2].d, w[3].d, w[4].d, x);
    CharOfCode(w[6]);
    CharOfCode(w[7]);
  }

  lemma {:induction false} Term6Fields(w: Word, x: bv64)
    requires EndsAt(w, 6) && x == EncodeTerm(w, 6)
    ensures TypeOf(x) == 0xe1 && DataLane(x, 1) == w[0] && DataLane(x, 2) == w[1]
    ensures DataLane(x, 3) == w[2] && DataLane(x, 4) == w[3] && DataLane(x, 5) == w[4]
    ensures DataLane(x, 6) == w[5] && (CtrlLane(x, 7) == w[7] <==> Mapped(w[7]))
  {
    var c := Codes(w);
    CodesFields(w);
    Term6Bits(c, w[0].d, w[1].d, w[2].d, w[3].d, w[4].d, w[5].d, x);
    CharOfCode(w[7]);
  }

  lemma {:induction false} Term7Fields(w: Word, x: bv64)
    requires EndsAt(w, 7) && x == EncodeTerm(w, 7)
    ensures TypeOf(x) == 0xff && DataLane(x, 1) == w[0] && DataLane(x, 2) == w[1]
    ensures DataLane(x, 3) == w[2] && DataLane(x, 4) == w[3] && DataLane(x, 5) == w[4]
    ensures DataLane(x, 6) == w[5] && DataLane(x, 7) == w[6]
  {
    var c := Codes(w);
    CodesFields(w);
    Term7Bits(c, w[0].d, w[1].d, w[2].d, w[3].d, w[4].d, w[5].d, w[6].d, x);
  }

  lemma {:induction false} TermTypes(w: Word, k: nat, x: bv64)
    requires k < 8 && EndsAt(w, k) && x == EncodeTerm(w, k)
    ensures TypeOf(x) == TermType(k)
  {
    match k {
      case 0 => Term0Fields(w, x);
      case 1 => Term1Fields(w, x);
      case 2 => Term2Fields(w, x);
      case 3 => Term3Fields(w, x);
      case 4 => Term4Fields(w, x);
      case 5 => Term5Fields(w, x);
      case 6 => Term6Fields(w, x);
      case 7 => Term7Fields(w, x);
    }
  }

  lemma {:induction false} TermDecodes(x: bv64, k: nat)
    requires k < 8 && TypeOf(x) == TermType(k)
    ensures Decode(Block(SYNC_CTRL, x)) == DecodeTerm(x, k)
  {
  }

  /** The lanes after a terminator in lane 0. */
  lemma {:induction false} Term0Lanes(w: Word, v: Word)
    requires EndsAt(w, 0) && v[0] == TermLane
    requires (v[1] == w[1] <==> Mapped(w[1])) && (v[2] == w[2] <==> Mapped(w[2]))
    requires (v[3] == w[3] <==> Mapped(w[3])) && (v[4] == w[4] <==> Mapped(w[4]))
    requires (v[5] == w[5] <==> Mapped(w[5])) && (v[6] == w[6] <==> Mapped(w[6]))
    requires v[7] == w[7] <==> Mapped(w[7])
    ensures v == w <==> AllMapped(w, 1, 8)
  {
    if AllMapped(w, 1, 8) {
      assert v == [v[0], v[1], v[2], v[3], v[4], v[5], v[6], v[7]];
      assert w == [w[0], w[1], w[2], w[3], w[4], w[5], w[6], w[7]];
    }
  }

  lemma {:induction false} Term0Trip(w: Word, x: bv64)
    requires EndsAt(w, 0) && x == EncodeTerm(w, 0)
    ensures DecodeTerm(x, 0) == w <==> AllMapped(w, 1, 8)
  {
    Term0Fields(w, x);
    Term0Lanes(w, DecodeTerm(x, 0));
  }

  lemma {:induction false} LowTermTrip(w: Word, k: nat, x: bv64)
    requires k < 4 && EndsAt(w, k) && x == EncodeTerm(w, k)
    ensures DecodeTerm(x, k) == w <==> AllMapped(w, k + 1, 8)
  {
    if k == 0 {
      Term0Trip(w, x);
    } else {
      match k {
        case 1 => Term1Fields(w, x);
        case 2 => Term2Fields(w, x);
        case 3 => Term3Fields(w, x);
      }
    }
  }

  lemma {:induction false} HighTermTrip(w: Word, k: nat, x: bv64)
    requires 4 <= k < 8 && EndsAt(w, k) && x == EncodeTerm(w, k)
    ensures DecodeTerm(x, k) == w <==> AllMapped(w, k + 1, 8)
  {
    match k {
      case 4 => Term4Fields(w, x);
      case 5 => Term5Fields(w, x);
      case 6 => Term6Fields(w, x);
      case 7 => Term7Fields(w, x);
    }
  }

  lemma {:induction false} TermTrip(w: Word, k: nat)
    requires k < 8 && EndsAt(w, k)
    ensures Decode(Block(SYNC_CTRL, EncodeTerm(w, k))) == w <==> AllMapped(w, k + 1, 8)
  {
    var x := EncodeTerm(w, k);
    TermTypes(w, k, x);
    TermDecodes(x, k);
    if k < 4 {
      LowTermTrip(w, k, x);
    } else {
      HighTermTrip(w, k, x);
    }
  }

  /** What the code can carry arrives as it was sent. */
  lemma {:induction false} RoundTrip(w: Word)
    requires Codable(w)
    ensures Encode(w).over == 0 && Decode(Encode(w)) == w
  {
    if NoCtrl(w, 0, 8) {
      DataTrip(w);
    } else if StartsAt(w, 0) {
      Start0Trip(w);
    } else if StartsAt(w, 4) {
      if OrderedAt(w, 0) {
        OsStartTrip(w);
      } else {
        Start4Trip(w, EncodeStart4(w));
      }
    } else if OrderedAt(w, 0) {
      Os04Trip(w);
    } else if OrderedAt(w, 4) {
      Os4Trip(w, EncodeOs4(w));
    } else if EndLane(w).Some? {
      TermTrip(w, EndLane(w).value);
    } else {
      CtrlTrip(w);
    }
  }

  lemma {:induction false} LowCtrlOnly(w: Word, x: bv64)
    requires w[..4] == LowCtrl(x)
    ensures AllMapped(w, 0, 4)
  {
    assert w[0] == CtrlLane(x, 0) && w[1] == CtrlLane(x, 1) && w[2] == CtrlLane(x, 2)
        && w[3] == CtrlLane(x, 3) by {
      assert w[..4][0] == w[0] && w[..4][1] == w[1] && w[..4][2] == w[2] && w[..4][3] == w[3];
    }
  }

  lemma {:induction false} Start4Only(w: Word)
    requires Decode(Block(SYNC_CTRL, EncodeStart4(w))) == w
    ensures AllMapped(w, 0, 4)
  {
    var x := EncodeStart4(w);
    Start4Bits(Codes(w), w[5].d, w[6].d, w[7].d, x);
    LowCtrlOnly(w, x);
  }

  lemma {:induction false} LowCtrlIs(w: Word, x: bv64, rest: seq<Lane>)
    requires w == LowCtrl(x) + rest
    ensures AllMapped(w, 0, 4)
  {
    LowCtrlOnly(w, x);
  }

  lemma {:induction false} Os4Only(w: Word)
    requires Decode(Block(SYNC_CTRL, EncodeOs4(w))) == w
    ensures AllMapped(w, 0, 4)
  {
    var x := EncodeOs4(w);
    Os4Type(w, x);
    Os4Decodes(x);
    LowCtrlIs(w, x, [O4(x)] + HighLanes(x));
  }

  lemma {:induction false} CtrlOnly(w: Word)
    requires Decode(Block(SYNC_CTRL, EncodeCtrl(w))) == w
    ensures AllMapped(w, 0, 8)
  {
    var x := EncodeCtrl(w);
    CtrlLow(w, x);
    CtrlHigh(w, x);
    assert w[..4] == LowCtrl(x) && w[4..] == HighCtrl(x);
    LowCtrlOnly(w, x);
    assert w[4] == w[4..][0] && w[5] == w[4..][1] && w[6] == w[4..][2] && w[7] == w[4..][3];
  }

  // ----- an ordered set in lane 0 alone -----

  predicate Os0Alone(w: Word) { OrderedAt(w, 0) && !OrderedAt(w, 4) && !StartsAt(w, 4) }

  lemma {:induction false} Os0Codes(w: Word)
    requires OrderedAt(w, 0)
    ensures Codes(w) & 0xfffffff == 0x3c78f1e && (Codes(w) >> 24) & 0xf == 0x3
  {
    assert Code(w[0]) == 0x1e && Code(w[1]) == 0x1e && Code(w[2]) == 0x1e && Code(w[3]) == 0x1e;
    Os0Sum(Code(w[4]), Code(w[5]), Code(w[6]), Code(w[7]), Codes(w));
  }

  lemma {:induction false} Os0Sum(c4: bv64, c5: bv64, c6: bv64, c7: bv64, x: bv64)
    requires c4 <= 0x7f && c5 <= 0x7f && c6 <= 0x7f && c7 <= 0x7f
    requires x == 0x1e | (0x1e << 7) | (0x1e << 14) | (0x1e << 21) | (c4 << 28) | (c5 << 35) | (c6 << 42)
                  | (c7 << 49)
    ensures x & 0xfffffff == 0x3c78f1e && (x >> 24) & 0xf == 0x3
  {
  }

  lemma {:induction false} Os0Bits(c: bv64, o: bv64, d1: byte, d2: byte, d3: byte, x: bv64)
    requires (o == 0x0 || o == 0xf) && c & 0xfffffff == 0x3c78f1e
    requires x == 0x4b | ((c & 0xfffffff) << 40) | (Put(d1, 1) | Put(d2, 2) | Put(d3, 3)) | (o << 32)
    ensures TypeOf(x) == 0x4b && ByteAt(x, 1) == d1 && ByteAt(x, 2) == d2 && ByteAt(x, 3) == d3
    ensures (x >> 32) & 0xf == o
    ensures CodeAt(x, 4) == 0x60 && CodeAt(x, 5) == 0x63 && CodeAt(x, 6) == 0x63 && CodeAt(x, 7) == 0x63
  {
  }

  /** The sequence set whose other lanes are errors: what every such block decodes as. */
  predicate SequenceOfErrors(w: Word) {
    w[0] == Lane(SEQ_OS, true) && NoCtrl(w, 1, 4) && forall k | 4 <= k < 8 :: w[k] == ErrorLane
  }

  lemma {:induction false} Os0Fields(w: Word, x: bv64)
    requires OrderedAt(w, 0) && x == EncodeOs0(w)
    ensures TypeOf(x) == 0x4b && (x >> 32) & 0xf == OCode(w[0])
    ensures ByteAt(x, 1) == w[1].d && ByteAt(x, 2) == w[2].d && ByteAt(x, 3) == w[3].d
    ensures CodeAt(x, 4) == 0x60 && CodeAt(x, 5) == 0x63 && CodeAt(x, 6) == 0x63 && CodeAt(x, 7) == 0x63
  {
    Os0Codes(w);
    Os0Bits(Codes(w), OCode(w[0]), w[1].d, w[2].d, w[3].d, x);
  }

  lemma {:induction false} Os0Low(w: Word, x: bv64)
    requires OrderedAt(w, 0) && (x >> 32) & 0xf == OCode(w[0])
    requires ByteAt(x, 1) == w[1].d && ByteAt(x, 2) == w[2].d && ByteAt(x, 3) == w[3].d
    ensures O0Alone(x) == Lane(SEQ_OS, true) && LowLanes(x) == [w[1], w[2], w[3]]
  {
    assert !w[1].c && !w[2].c && !w[3].c;
  }

  lemma {:induction false} NoSuchCodes(x: bv64)
    requires CodeAt(x, 4) == 0x60 && CodeAt(x, 5) == 0x63 && CodeAt(x, 6) == 0x63 && CodeAt(x, 7) == 0x63
    ensures HighCtrl(x) == [ErrorLane, ErrorLane, ErrorLane, ErrorLane]
  {
  }

  lemma {:induction false} Os0Decodes(x: bv64, over: bv4)
    requires TypeOf(x) == 0x4b
    ensures Decode(Block(SYNC_CTRL, x, over)) == [O0Alone(x)] + LowLanes(x) + HighCtrl(x)
  {
  }

  lemma {:induction false} Os0Lanes(w: Word, v: Word)
    requires OrderedAt(w, 0)
    requires v == [Lane(SEQ_OS, true)] + [w[1], w[2], w[3]] + [ErrorLane, ErrorLane, ErrorLane, ErrorLane]
    ensures SequenceOfErrors(v) && v[1..4] == w[1..4] && (v == w <==> SequenceOfErrors(w))
  {
    if SequenceOfErrors(w) {
      assert w == [w[0]] + [w[1], w[2], w[3]] + [w[4], w[5], w[6], w[7]];
    }
  }

  lemma {:induction false} Os0Block(w: Word)
    requires Os0Alone(w)
    ensures Encode(w) == Block(SYNC_CTRL, EncodeOs0(w), EncodeOs0Over(w)) && Encode(w).over != 0
  {
    assert w[0].c;
    Os0Codes(w);
  }

  /** Its block has bits beyond the 64; cut off, it decodes as a sequence set with the same data and
      errors in the other lanes, whatever was there. */
  lemma {:induction false} Os0Trip(w: Word)
    requires Os0Alone(w)
    ensures Encode(w).over != 0
    ensures var v := Decode(Encode(w));
            SequenceOfErrors(v) && v[1..4] == w[1..4] && (v == w <==> SequenceOfErrors(w))
  {
    var x := EncodeOs0(w);
    Os0Block(w);
    Os0Fields(w, x);
    Os0Low(w, x);
    NoSuchCodes(x);
    Os0Decodes(x, EncodeOs0Over(w));
    Os0Lanes(w, Decode(Encode(w)));
  }

  /** What comes back unchanged: the words the code can carry, and, from a block cut to 64 bits, a
      sequence set whose other lanes are errors. */
  lemma {:induction false} ComesBack(w: Word)
    ensures Decode(Encode(w)) == w <==> Codable(w) || SequenceOfErrors(w)
    ensures Encode(w).over != 0 <==> Os0Alone(w)
  {
    if Codable(w) {
      RoundTrip(w);
    }
    if Os0Alone(w) {
      Os0Trip(w);
    } else if Decode(Encode(w)) == w {
      OnlyCodable(w);
    }
  }

  /** Of the words whose block has 64 bits nothing else comes back. */
  lemma {:induction false} OnlyCodable(w: Word)
    requires Decode(Encode(w)) == w && !Os0Alone(w)
    ensures Codable(w)
  {
    if !NoCtrl(w, 0, 8) && !StartsAt(w, 0) {
      if StartsAt(w, 4) {
        if !OrderedAt(w, 0) {
          Start4Only(w);
        }
      } else if !OrderedAt(w, 0) {
        if OrderedAt(w, 4) {
          Os4Only(w);
        } else if EndLane(w).Some? {
          TermTrip(w, EndLane(w).value);
        } else {
          CtrlOnly(w);
        }
      }
    }
  }
}
