/** Bus words as integers made of equal lanes, lane 0 in the lowest bits.

    A lane holds a value below `base` (2^8 for bytes).  Shifting right by one lane divides by the
    base, masking takes the rest, and or-ing a value into an empty lane adds it at the lane's
    weight. */
module Lanes {
  import opened Arith

  function Pow(base: nat, e: nat): nat {
    if e == 0 then 1 else base * Pow(base, e - 1)
  }

  /** `(word >> (j * WL)) & mask` */
  function Lane(word: nat, j: nat, base: nat): nat
    requires base > 0
    decreases j
  {
    if j == 0 then word % base else Lane(word / base, j - 1, base)
  }

  function Pack(xs: seq<nat>, base: nat): nat {
    if xs == [] then 0 else xs[0] + base * Pack(xs[1..], base)
  }

  predicate Fits(xs: seq<nat>, base: nat) {
    forall i | 0 <= i < |xs| :: xs[i] < base
  }

  function Zeros(n: nat): seq<nat> { seq(n, _ => 0) }

  /** Unpacking undoes packing, and lanes beyond the packed ones are empty. */
  lemma {:induction false} LaneOfPack(xs: seq<nat>, j: nat, base: nat)
    requires base > 0 && Fits(xs, base)
    ensures Lane(Pack(xs, base), j, base) == if j < |xs| then xs[j] else 0
    decreases j
  {
    if xs == [] {
      LaneOfZero(j, base);
    } else {
      ModUnique(Pack(xs, base), base, Pack(xs[1..], base), xs[0]);
      if j > 0 {
        LaneOfPack(xs[1..], j - 1, base);
      }
    }
  }

  lemma {:induction false} LaneOfZero(j: nat, base: nat)
    requires base > 0
    ensures Lane(0, j, base) == 0
    decreases j
  {
    ModUnique(0, base, 0, 0);
    if j > 0 {
      LaneOfZero(j - 1, base);
    }
  }

  /** Or-ing a value into the first empty lane appends it. */
  lemma {:induction false} PackAppend(xs: seq<nat>, x: nat, base: nat)
    ensures Pack(xs + [x], base) == Pack(xs, base) + x * Pow(base, |xs|)
  {
    if xs == [] {
      assert (xs + [x])[1..] == [];
    } else {
      var p := Pow(base, |xs| - 1);
      assert (xs + [x])[1..] == xs[1..] + [x];
      PackAppend(xs[1..], x, base);
      assert base * (Pack(xs[1..], base) + x * p) == base * Pack(xs[1..], base) + x * (base * p);
    }
  }

  lemma {:induction false} PackZeros(n: nat, base: nat)
    ensures Pack(Zeros(n), base) == 0
  {
    if n > 0 {
      assert Zeros(n)[1..] == Zeros(n - 1);
      PackZeros(n - 1, base);
    }
  }
}
