/** 64-bit words as vectors of bits, bit 0 first, and the reversal of such vectors. */
module BitVectors {
  import opened BaseRCodec

  type byte = bv8

  function Bit8(b: byte): (bits: seq<bool>)
    ensures |bits| == 8
  {
    [b & 0x01 != 0, b & 0x02 != 0, b & 0x04 != 0, b & 0x08 != 0,
     b & 0x10 != 0, b & 0x20 != 0, b & 0x40 != 0, b & 0x80 != 0]
  }

  function Sum8(b0: bool, b1: bool, b2: bool, b3: bool, b4: bool, b5: bool, b6: bool, b7: bool)
    : byte
  {
    (if b0 then 0x01 else 0) | (if b1 then 0x02 else 0) | (if b2 then 0x04 else 0)
    | (if b3 then 0x08 else 0) | (if b4 then 0x10 else 0) | (if b5 then 0x20 else 0)
    | (if b6 then 0x40 else 0) | (if b7 then 0x80 else 0)
  }

  function Byte8(bits: seq<bool>): byte
    requires |bits| == 8
  {
    Sum8(bits[0], bits[1], bits[2], bits[3], bits[4], bits[5], bits[6], bits[7])
  }

  lemma {:induction false} Sum8Bits(b: byte)
    ensures Sum8(b & 0x01 != 0, b & 0x02 != 0, b & 0x04 != 0, b & 0x08 != 0,
                 b & 0x10 != 0, b & 0x20 != 0, b & 0x40 != 0, b & 0x80 != 0) == b
  {
  }

  lemma {:induction false} ByteTrip(b: byte)
    ensures Byte8(Bit8(b)) == b
  {
    Sum8Bits(b);
  }

  function Bits(x: bv64): (bits: seq<bool>)
    ensures |bits| == 64
  {
    Bit8(ByteAt(x, 0)) + Bit8(ByteAt(x, 1)) + Bit8(ByteAt(x, 2)) + Bit8(ByteAt(x, 3))
    + Bit8(ByteAt(x, 4)) + Bit8(ByteAt(x, 5)) + Bit8(ByteAt(x, 6)) + Bit8(ByteAt(x, 7))
  }

  function Join8(d0: byte, d1: byte, d2: byte, d3: byte, d4: byte, d5: byte, d6: byte, d7: byte)
    : bv64
  {
    Put(d0, 0) | Put(d1, 1) | Put(d2, 2) | Put(d3, 3) | Put(d4, 4) | Put(d5, 5) | Put(d6, 6)
    | Put(d7, 7)
  }

  /** The word with the given bits. */
  function WordOf(bits: seq<bool>): bv64
    requires |bits| == 64
  {
    Join8(Byte8(bits[0..8]), Byte8(bits[8..16]), Byte8(bits[16..24]), Byte8(bits[24..32]),
          Byte8(bits[32..40]), Byte8(bits[40..48]), Byte8(bits[48..56]), Byte8(bits[56..64]))
  }

  lemma {:induction false} JoinBytes(x: bv64)
    ensures Join8(ByteAt(x, 0), ByteAt(x, 1), ByteAt(x, 2), ByteAt(x, 3), ByteAt(x, 4), ByteAt(x, 5),
                  ByteAt(x, 6), ByteAt(x, 7)) == x
  {
  }

  lemma {:induction false} Slices(s0: seq<bool>, s1: seq<bool>, s2: seq<bool>, s3: seq<bool>,
                                  s4: seq<bool>, s5: seq<bool>, s6: seq<bool>, s7: seq<bool>,
                                  bits: seq<bool>)
    requires |s0| == |s1| == |s2| == |s3| == |s4| == |s5| == |s6| == |s7| == 8
    requires bits == s0 + s1 + s2 + s3 + s4 + s5 + s6 + s7
    ensures bits[0..8] == s0 && bits[8..16] == s1 && bits[16..24] == s2 && bits[24..32] == s3
    ensures bits[32..40] == s4 && bits[40..48] == s5 && bits[48..56] == s6 && bits[56..64] == s7
  {
  }

  /** The bytes of a word follow each other, the lowest first. */
  lemma {:induction false} BytesInOrder(x: bv64)
    ensures Bits(x)[0..8] == Bit8(ByteAt(x, 0)) && Bits(x)[8..16] == Bit8(ByteAt(x, 1))
    ensures Bits(x)[16..24] == Bit8(ByteAt(x, 2)) && Bits(x)[24..32] == Bit8(ByteAt(x, 3))
    ensures Bits(x)[32..40] == Bit8(ByteAt(x, 4)) && Bits(x)[40..48] == Bit8(ByteAt(x, 5))
    ensures Bits(x)[48..56] == Bit8(ByteAt(x, 6)) && Bits(x)[56..64] == Bit8(ByteAt(x, 7))
  {
    Slices(Bit8(ByteAt(x, 0)), Bit8(ByteAt(x, 1)), Bit8(ByteAt(x, 2)), Bit8(ByteAt(x, 3)),
           Bit8(ByteAt(x, 4)), Bit8(ByteAt(x, 5)), Bit8(ByteAt(x, 6)), Bit8(ByteAt(x, 7)), Bits(x));
  }

  /** The bits of a word make the word again. */
  lemma {:induction false} WordOfBits(x: bv64)
    ensures WordOf(Bits(x)) == x
  {
    BytesInOrder(x);
    ByteTrip(ByteAt(x, 0));
    ByteTrip(ByteAt(x, 1));
    ByteTrip(ByteAt(x, 2));
    ByteTrip(ByteAt(x, 3));
    ByteTrip(ByteAt(x, 4));
    ByteTrip(ByteAt(x, 5));
    ByteTrip(ByteAt(x, 6));
    ByteTrip(ByteAt(x, 7));
    JoinBytes(x);
  }

  // ----- reversal -----

  function Reversed(bits: seq<bool>): (r: seq<bool>)
    ensures |r| == |bits|
  {
    if bits == [] then [] else Reversed(bits[1..]) + [bits[0]]
  }

  lemma {:induction false} ReversedAppend(bits: seq<bool>, b: bool)
    ensures Reversed(bits + [b]) == [b] + Reversed(bits)
  {
    if bits != [] {
      assert (bits + [b])[1..] == bits[1..] + [b];
      ReversedAppend(bits[1..], b);
    }
  }

  /** Reversing twice changes nothing. */
  lemma {:induction false} ReversedTwice(bits: seq<bool>)
    ensures Reversed(Reversed(bits)) == bits
  {
    if bits != [] {
      ReversedAppend(Reversed(bits[1..]), bits[0]);
      ReversedTwice(bits[1..]);
    }
  }

  lemma {:induction false} ReversedAt(bits: seq<bool>)
    ensures forall i | 0 <= i < |bits| :: Reversed(bits)[i] == bits[|bits| - 1 - i]
  {
    if bits != [] {
      ReversedAt(bits[1..]);
    }
  }

  /** Bit `i` goes to the place of bit `|bits| - 1 - i`. */
  method ReverseBits(bits: seq<bool>) returns (r: seq<bool>)
    ensures r == Reversed(bits)
    ensures |r| == |bits| && forall i | 0 <= i < |bits| :: r[i] == bits[|bits| - 1 - i]
  {
    r := [];
    for i := 0 to |bits|
      invariant r == Reversed(bits[..i])
    {
      assert bits[..i + 1] == bits[..i] + [bits[i]];
      ReversedAppend(bits[..i], bits[i]);
      r := [bits[i]] + r;
    }
    assert bits[..|bits|] == bits;
    ReversedAt(bits);
  }
}
