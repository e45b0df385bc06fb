/** The self-synchronising scrambler of 10GBASE-R (clauses 49.2.6 and 49.2.10 of IEEE Std 802.3).

    A state is the last 58 bits of the line, the newest first, as in the shift register of the code,
    whose bit i is element i. */
module Scrambler {

  type State = s: seq<bool> | |s| == 58 witness seq(58, _ => false)

  /** The register at power-up. */
  function Zero(): State { seq(58, _ => false) }

  predicate Tap(s: State) { s[38] != s[57] }

  /** Shift one bit of the line in. */
  function Shifted(s: State, b: bool): State { [b] + s[..57] }

  function Scramble(s: State, bits: seq<bool>): (line: seq<bool>)
    ensures |line| == |bits|
    decreases |bits|
  {
    if bits == [] then []
    else
      var b := Tap(s) != bits[0];
      [b] + Scramble(Shifted(s, b), bits[1..])
  }

  function Descramble(s: State, line: seq<bool>): (bits: seq<bool>)
    ensures |bits| == |line|
    decreases |line|
  {
    if line == [] then [] else [Tap(s) != line[0]] + Descramble(Shifted(s, line[0]), line[1..])
  }

  /** The state after some bits of the line: that of the scrambler that sent them and that of the
      descrambler that received them. */
  function After(s: State, line: seq<bool>): State
    decreases |line|
  {
    if line == [] then s else After(Shifted(s, line[0]), line[1..])
  }

  /** From equal states the descrambler undoes the scrambler. */
  lemma {:induction false} Inverse(s: State, bits: seq<bool>)
    ensures Descramble(s, Scramble(s, bits)) == bits
    decreases |bits|
  {
    if bits != [] {
      var b := Tap(s) != bits[0];
      Inverse(Shifted(s, b), bits[1..]);
      assert Scramble(s, bits)[1..] == Scramble(Shifted(s, b), bits[1..]);
    }
  }

  lemma {:induction false} ScrambleHead(s: State, bits: seq<bool>, b: bool, s': State)
    requires bits != [] && b == (Tap(s) != bits[0]) && s' == Shifted(s, b)
    ensures Scramble(s, bits) == [b] + Scramble(s', bits[1..])
  {
  }

  lemma {:induction false} AfterHead(s: State, b: bool, line: seq<bool>, s': State)
    requires s' == Shifted(s, b)
    ensures After(s, [b] + line) == After(s', line)
  {
    assert ([b] + line)[1..] == line;
  }

  lemma {:induction false} ScrambleAppend(s: State, a: seq<bool>, b: seq<bool>)
    ensures Scramble(s, a + b) == Scramble(s, a) + Scramble(After(s, Scramble(s, a)), b)
    decreases |a|
  {
    if a == [] {
      assert a + b == b;
    } else {
      var x := Tap(s) != a[0];
      var s' := Shifted(s, x);
      var line := Scramble(s', a[1..]);
      ScrambleAppend(s', a[1..], b);
      ScrambleHead(s, a, x, s');
      ScrambleHead(s, a + b, x, s');
      assert (a + b)[1..] == a[1..] + b;
      AfterHead(s, x, line, s');
      var rest := Scramble(After(s', line), b);
      assert [x] + (line + rest) == ([x] + line) + rest;
    }
  }

  lemma {:induction false} DescrambleAppend(s: State, a: seq<bool>, b: seq<bool>)
    ensures Descramble(s, a + b) == Descramble(s, a) + Descramble(After(s, a), b)
    decreases |a|
  {
    if a == [] {
      assert a + b == b;
    } else {
      assert (a + b)[1..] == a[1..] + b;
      DescrambleAppend(Shifted(s, a[0]), a[1..], b);
    }
  }

  /** Equal ends of two registers. */
  predicate Agree(s: State, t: State, n: nat) { n <= 58 && s[..n] == t[..n] }

  lemma {:induction false} ShiftAgrees(s: State, t: State, b: bool, n: nat)
    requires Agree(s, t, n) && n < 58
    ensures Agree(Shifted(s, b), Shifted(t, b), n + 1)
  {
    assert Shifted(s, b)[..n + 1] == [b] + s[..n] && Shifted(t, b)[..n + 1] == [b] + t[..n];
  }

  /** After 58 bits of the line any two registers are equal. */
  lemma {:induction false} Converge(s: State, t: State, line: seq<bool>, n: nat)
    requires Agree(s, t, n) && n + |line| == 58
    ensures After(s, line) == After(t, line)
    decreases |line|
  {
    if line != [] {
      ShiftAgrees(s, t, line[0], n);
      Converge(Shifted(s, line[0]), Shifted(t, line[0]), line[1..], n + 1);
    } else {
      assert s == s[..58] == t[..58] == t;
    }
  }

  /** Self-synchronisation: whatever the two states, all bits after the first 58 come back. */
  lemma {:induction false} Synchronises(s: State, t: State, bits: seq<bool>)
    requires |bits| >= 58
    ensures Descramble(t, Scramble(s, bits))[58..] == bits[58..]
  {
    var first, rest := bits[..58], bits[58..];
    var line := Scramble(s, first);
    assert bits == first + rest;
    ScrambleAppend(s, first, rest);
    DescrambleAppend(t, line, Scramble(After(s, line), rest));
    Converge(s, t, line, 0);
    Inverse(After(s, line), rest);
  }

  predicate DifferAt(s: State, t: State, k: nat) {
    k < 58 && s[k] != t[k] && forall i | 0 <= i < 58 && i != k :: s[i] == t[i]
  }

  lemma {:induction false} DifferenceShows(s: State, t: State, bits: seq<bool>, k: nat)
    requires DifferAt(s, t, k) && |bits| > 57 - k
    ensures Descramble(t, Scramble(s, bits))[57 - k] != bits[57 - k]
    decreases 57 - k
  {
    var b := Tap(s) != bits[0];
    assert Scramble(s, bits)[1..] == Scramble(Shifted(s, b), bits[1..]);
    if k < 57 {
      DifferenceShows(Shifted(s, b), Shifted(t, b), bits[1..], k + 1);
    }
  }

  /** No fewer bits would do: registers that differ in the newest bit get the 58th wrong. */
  lemma {:induction false} NotSooner(s: State, t: State, bits: seq<bool>)
    requires |bits| >= 58 && DifferAt(s, t, 0)
    ensures Descramble(t, Scramble(s, bits))[57] != bits[57]
  {
    DifferenceShows(s, t, bits, 0);
  }

  // ----- the polynomial -----

  /** Bit `k` of the line; those before the first one are in the register, the newest first. */
  function LineBit(s: State, line: seq<bool>, k: int): bool
    requires -58 <= k < |line|
  {
    if k >= 0 then line[k] else s[-1 - k]
  }

  lemma {:induction false} LineBitShifts(s: State, line: seq<bool>, k: int)
    requires line != [] && -57 <= k < |line|
    ensures LineBit(Shifted(s, line[0]), line[1..], k - 1) == LineBit(s, line, k)
  {
  }

  /** Each bit of the line is its bit of data and those of the line 39 and 58 places earlier: the
      polynomial is 1 + x^39 + x^58 (clause 49.2.6 of IEEE Std 802.3). */
  lemma {:induction false} Polynomial(s: State, bits: seq<bool>, i: nat)
    requires i < |bits|
    ensures var line := Scramble(s, bits);
            line[i] == (bits[i] != (LineBit(s, line, i - 39) != LineBit(s, line, i - 58)))
    decreases i
  {
    if i > 0 {
      var b := Tap(s) != bits[0];
      var rest := Scramble(Shifted(s, b), bits[1..]);
      var line := Scramble(s, bits);
      assert line[0] == b && line[1..] == rest;
      Polynomial(Shifted(s, b), bits[1..], i - 1);
      LineBitShifts(s, line, i - 39);
      LineBitShifts(s, line, i - 58);
    }
  }

  lemma {:induction false} DescramblePolynomial(s: State, line: seq<bool>, i: nat)
    requires i < |line|
    ensures Descramble(s, line)[i] == (line[i] != (LineBit(s, line, i - 39) != LineBit(s, line, i - 58)))
    decreases i
  {
    if i > 0 {
      DescramblePolynomial(Shifted(s, line[0]), line[1..], i - 1);
      LineBitShifts(s, line, i - 39);
      LineBitShifts(s, line, i - 58);
    }
  }

  /** The register after some bits of the line holds its last 58. */
  lemma {:induction false} RegisterHolds(s: State, line: seq<bool>, j: nat)
    requires j < 58
    ensures After(s, line)[j] == LineBit(s, line, |line| - 1 - j)
    decreases |line|
  {
    if line != [] {
      RegisterHolds(Shifted(s, line[0]), line[1..], j);
      LineBitShifts(s, line, |line| - 1 - j);
    }
  }

  // ----- the loops -----

  lemma {:induction false} AfterAppend(s: State, line: seq<bool>, b: bool)
    ensures After(s, line + [b]) == Shifted(After(s, line), b)
    decreases |line|
  {
    if line == [] {
      assert (line + [b])[1..] == [];
    } else {
      assert (line + [b])[1..] == line[1..] + [b];
      AfterAppend(Shifted(s, line[0]), line[1..], b);
    }
  }

  /** The scrambler of one word. */
  method ScrambleWord(state: State, data: seq<bool>) returns (b: seq<bool>, state': State)
    ensures b == Scramble(state, data) && state' == After(state, b)
  {
    b, state' := [], state;
    for i := 0 to |data|
      invariant b == Scramble(state, data[..i]) && state' == After(state, b)
    {
      var bit := (state'[38] != state'[57]) != data[i];
      assert data[..i + 1] == data[..i] + [data[i]];
      ScrambleAppend(state, data[..i], [data[i]]);
      assert Scramble(state', [data[i]]) == [bit];
      AfterAppend(state, b, bit);
      state' := Shifted(state', bit);
      b := b + [bit];
    }
    assert data[..|data|] == data;
  }

  /** The descrambler of one word. */
  method DescrambleWord(state: State, line: seq<bool>) returns (b: seq<bool>, state': State)
    ensures b == Descramble(state, line) && state' == After(state, line)
  {
    b, state' := [], state;
    for i := 0 to |line|
      invariant b == Descramble(state, line[..i]) && state' == After(state, line[..i])
    {
      var bit := (state'[38] != state'[57]) != line[i];
      assert line[..i + 1] == line[..i] + [line[i]];
      DescrambleAppend(state, line[..i], [line[i]]);
      assert Descramble(state', [line[i]]) == [bit];
      AfterAppend(state, line[..i], line[i]);
      state' := Shifted(state', line[i]);
      b := b + [bit];
    }
    assert line[..|line|] == line;
  }
}
