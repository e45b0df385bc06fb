/** Time as (seconds, nanoseconds) pairs with machine-integer fields.

    `long` is the 64-bit signed integer of the C code.  An operation that would overflow one, which C
    leaves undefined, gives None; anything else assigned to one is proved to fit.  Shifts of
    non-negative values by one are doubling and halving. */
module Timespec {
  import opened Wrappers
  import opened Arith

  const LONG_MAX := 0x7fff_ffff_ffff_ffff
  const LONG_MIN := -0x8000_0000_0000_0000
  const NSEC_PER_SEC := 1_000_000_000

  type long = x: int | LONG_MIN <= x <= LONG_MAX

  datatype Time = Time(sec: long, nsec: long)

  /** The meaning of a pair: its total in nanoseconds. */
  function Total(t: Time): int { t.sec * NSEC_PER_SEC + t.nsec }

  /** The greatest total in normal form, also in magnitude for pairs that can be negated. */
  const MAX_TOTAL := LONG_MAX * NSEC_PER_SEC + (NSEC_PER_SEC - 1)

  predicate InRange(total: int) {
    -MAX_TOTAL - NSEC_PER_SEC <= total <= MAX_TOTAL
  }

  /** The pairs timespec_normalise returns: less than a second of nanoseconds, of the same sign. */
  predicate Normal(t: Time) {
    && -NSEC_PER_SEC < t.nsec < NSEC_PER_SEC
    && !(t.sec > 0 && t.nsec < 0) && !(t.sec < 0 && t.nsec > 0)
  }

  /** Every total has one normal form. */
  lemma {:induction false} NormalUnique(s: Time, t: Time)
    requires Normal(s) && Normal(t)
    ensures Total(s) == Total(t) ==> s == t
  {
    if s.sec != t.sec {
      Multiple(NSEC_PER_SEC, s.sec - t.sec);
    }
  }

  /** timespec_normalise: overflows iff the total has no normal form. */
  method Normalise(t: Time) returns (r: Option<Time>)
    ensures r.Some? <==> InRange(Total(t))
    ensures r.Some? ==> Normal(r.value) && Total(r.value) == Total(t)
  {
    var sec: long, nsec: long := t.sec, t.nsec;
    while nsec >= NSEC_PER_SEC
      invariant sec * NSEC_PER_SEC + nsec == Total(t)
      invariant nsec >= 0 || nsec == t.nsec
      decreases nsec
    {
      if sec == LONG_MAX {
        return None;
      }
      sec := sec + 1;
      nsec := nsec - NSEC_PER_SEC;
    }
    while nsec <= -NSEC_PER_SEC
      invariant sec * NSEC_PER_SEC + nsec == Total(t) && nsec < NSEC_PER_SEC
      decreases 0 - nsec
    {
      if sec == LONG_MIN {
        return None;
      }
      sec := sec - 1;
      nsec := nsec + NSEC_PER_SEC;
    }
    if nsec < 0 && sec > 0 {
      sec := sec - 1;
      nsec := NSEC_PER_SEC - (-1 * nsec);
    } else if nsec > 0 && sec < 0 {
      sec := sec + 1;
      nsec := -NSEC_PER_SEC - (-1 * nsec);
    }
    r := Some(Time(sec, nsec));
  }

  predicate Fits(n: int) { LONG_MIN <= n <= LONG_MAX }

  /** timespec_add: overflows iff an operand or the sum has no normal form. */
  method Add(s: Time, t: Time) returns (r: Option<Time>)
    ensures r.Some? <==> InRange(Total(s)) && InRange(Total(t)) && InRange(Total(s) + Total(t))
    ensures r.Some? ==> Normal(r.value) && Total(r.value) == Total(s) + Total(t)
  {
    var ts1 := Normalise(s);
    var ts2 := Normalise(t);
    if ts1.None? || ts2.None? || !Fits(ts1.value.sec + ts2.value.sec) {
      return None;
    }
    r := Normalise(Time(ts1.value.sec + ts2.value.sec, ts1.value.nsec + ts2.value.nsec));
  }

  /** A minuend that is negative by less than a second has zero seconds, so subtracting LONG_MIN seconds
      from it overflows although the difference has a normal form. */
  predicate SubFails(a: int, b: int) {
    -NSEC_PER_SEC < a < 0 && b <= LONG_MIN * NSEC_PER_SEC
  }

  /** timespec_sub: overflows iff an operand or the difference has no normal form, or SubFails. */
  method Sub(s: Time, t: Time) returns (r: Option<Time>)
    ensures r.Some? <==> InRange(Total(s)) && InRange(Total(t)) && InRange(Total(s) - Total(t))
                         && !SubFails(Total(s), Total(t))
    ensures r.Some? ==> Normal(r.value) && Total(r.value) == Total(s) - Total(t)
  {
    var ts1 := Normalise(s);
    var ts2 := Normalise(t);
    if ts1.None? || ts2.None? || !Fits(ts1.value.sec - ts2.value.sec) {
      return None;
    }
    r := Normalise(Time(ts1.value.sec - ts2.value.sec, ts1.value.nsec - ts2.value.nsec));
  }

  /** An instance: minus one nanosecond less LONG_MIN seconds. */
  lemma {:induction false} SubFailsAt(s: Time, t: Time)
    requires s == Time(0, -1) && t == Time(LONG_MIN, 0)
    ensures InRange(Total(s)) && InRange(Total(t)) && InRange(Total(s) - Total(t))
    ensures SubFails(Total(s), Total(t))
  {
  }

  // ----- comparisons -----

  predicate Ge(s: Time, t: Time) { s.sec > t.sec || (s.sec == t.sec && s.nsec >= t.nsec) }

  predicate Lt(s: Time, t: Time) { s.sec < t.sec || (s.sec == t.sec && s.nsec < t.nsec) }

  /** On normal forms of any sign the lexicographic order is the order of the totals. */
  lemma {:induction false} LtExact(s: Time, t: Time)
    requires Normal(s) && Normal(t)
    ensures Lt(s, t) <==> Total(s) < Total(t)
    ensures Ge(s, t) <==> Total(s) >= Total(t)
  {
  }

  /** A carried divisor: non-negative, up to and including a full second of nanoseconds. */
  predicate Carried(t: Time) {
    t.sec >= 0 && 0 <= t.nsec <= NSEC_PER_SEC
  }

  /** Ge stays exact when the right side holds a full second of nanoseconds after a carry, but only
      because the left side does not. */
  lemma {:induction false} GeExact(s: Time, t: Time)
    requires Carried(s) && Carried(t)
    ensures (Ge(s, t) <==> Total(s) >= Total(t))
        <==> !(s.nsec == NSEC_PER_SEC && t.nsec == 0 && t.sec == s.sec + 1)
  {
  }

  // ----- doubling and halving -----

  function Double(t: Time): (r: Time)
    requires Carried(t) && t.sec < LONG_MAX / 2
  {
    var nsec, sec := 2 * t.nsec, 2 * t.sec;
    if nsec > NSEC_PER_SEC then Time(sec + 1, nsec - NSEC_PER_SEC) else Time(sec, nsec)
  }

  function Halve(t: Time): Time
    requires Carried(t)
  {
    Time(t.sec / 2, (if t.sec % 2 == 1 then t.nsec + NSEC_PER_SEC else t.nsec) / 2)
  }

  /** One step of the halving loop exactly undoes one step of the doubling loop. */
  lemma {:induction false} HalveUndoesDouble(t: Time)
    requires Carried(t) && t.sec < LONG_MAX / 2
    ensures Carried(Double(t)) && Halve(Double(t)) == t && Total(Double(t)) == 2 * Total(t)
    ensures Double(t).nsec == 0 <==> t.nsec == 0
  {
  }

  lemma {:induction false} HalveExact(t: Time, m: nat)
    requires Carried(t) && Total(t) == 2 * m
    ensures Carried(Halve(t)) && Total(Halve(t)) == m
  {
    var k := t.sec / 2;
    if t.sec % 2 == 1 {
      assert t.sec == 2 * k + 1;
      var h := m - k * NSEC_PER_SEC;
      assert t.nsec + NSEC_PER_SEC == 2 * h;
    } else {
      assert t.sec == 2 * k;
      var h := m - k * NSEC_PER_SEC;
      assert t.nsec == 2 * h;
    }
  }

  /** n doubled i times */
  function Shifted(n: nat, i: nat): nat {
    if i == 0 then n else 2 * Shifted(n, i - 1)
  }

  lemma {:induction false} ShiftedGrows(n: nat, i: nat, j: nat)
    requires i <= j
    ensures Shifted(n, i) <= Shifted(n, j)
    ensures n > 0 && i < j ==> 2 * Shifted(n, i) <= Shifted(n, j)
    ensures n > 0 ==> Shifted(n, j) > 0
    decreases j
  {
    if i < j {
      ShiftedGrows(n, i, j - 1);
    } else if j > 0 {
      ShiftedGrows(n, i - 1, j - 1);
    }
  }

  lemma {:induction false} ShiftedMod(a: nat, n: nat, i: nat)
    requires n > 0
    ensures Mod(a + Shifted(n, i), n) == Mod(a, n)
    decreases i
  {
    if i > 0 {
      ShiftedMod(a + Shifted(n, i - 1), n, i - 1);
      ShiftedMod(a, n, i - 1);
    }
  }

  // ----- the modulo -----

  /** What repeated subtraction of n shifted by i, i - 1, ..., 0 leaves of a. */
  function Reduce(a: nat, n: nat, i: nat): nat
    decreases i
  {
    var m := Shifted(n, i);
    var a' := if a >= m then a - m else a;
    if i == 0 then a' else Reduce(a', n, i - 1)
  }

  lemma {:induction false} ReduceExact(a: nat, n: nat, i: nat)
    requires n > 0 && a < 2 * Shifted(n, i)
    ensures Reduce(a, n, i) == Mod(a, n)
    decreases i
  {
    var m := Shifted(n, i);
    var a' := if a >= m then a - m else a;
    if a >= m {
      ShiftedMod(a', n, i);
    }
    if i > 0 {
      ReduceExact(a', n, i - 1);
    }
  }

  lemma {:induction false} ReduceFalls(a: nat, n: nat, i: nat)
    requires a >= 2 * Shifted(n, i)
    ensures Reduce(a, n, i) == a - 2 * Shifted(n, i) + n
    decreases i
  {
    if i > 0 {
      ReduceFalls(a - Shifted(n, i), n, i - 1);
    }
  }

  /** The remainder with the sign of the divisor, as Python's % has it. */
  function FloorMod(a: int, b: int): int
    requires b != 0
  {
    if b > 0 then a % b else -((-a) % (-b))
  }

  /** It is the only number between zero and the divisor that differs from `a` by a multiple. */
  lemma {:induction false} FloorModUnique(a: int, b: int, q: int, r: int)
    requires b != 0 && a == b * q + r && (0 <= r < b || b < r <= 0)
    ensures FloorMod(a, b) == r
  {
    if b > 0 {
      ModUnique(a, b, q, r);
    } else {
      assert -a == (-b) * q + (-r);
      ModUnique(-a, -b, q, -r);
    }
  }

  function Abs(a: int): nat { if a < 0 then -a else a }

  lemma {:induction false} FloorModBySign(a: int, b: int)
    requires b != 0
    ensures var m: int := Mod(Abs(a), Abs(b));
            FloorMod(a, b) == if (a < 0) == (b < 0) || m == 0 then (if b < 0 then -m else m)
                              else if b > 0 then Abs(b) - m else m - Abs(b)
  {
    var n: int, d: int := Abs(a), Abs(b);
    ModIs(n, d);
    DivMod(n, d);
    var m, q := n % d, n / d;
    if (a < 0) != (b < 0) {
      if m == 0 {
        assert -n == d * (-q);
        ModUnique(-n, d, -q, 0);
      } else {
        assert -n == d * (-q - 1) + (d - m);
        ModUnique(-n, d, -q - 1, d - m);
      }
    }
  }

  /** The smallest power-of-two multiple of the divisor that the doubling loop does not reach when
      the dividend would still cover it. */
  function Limit(d: nat): nat {
    (LONG_MAX - 1) * NSEC_PER_SEC + if d % NSEC_PER_SEC == 0 then 0 else 1
  }

  /** Where the doubling loop stops: at the first doubling above the dividend, or at `LONG_MAX / 2`
      seconds. */
  ghost predicate DoublingStops(n: nat, d: nat, i: nat, t: Time) {
    && Carried(t) && Total(t) == Shifted(d, i) && (t.nsec == 0 <==> d % NSEC_PER_SEC == 0)
    && (n < Shifted(d, i) || t.sec >= LONG_MAX / 2)
  }

  lemma {:induction false} StopsInReach(n: nat, d: nat, i: nat, t: Time)
    requires DoublingStops(n, d, i, t) && n >= 2 * Shifted(d, i)
    ensures d > 0 ==> Limit(d) <= Shifted(d, i + 1) <= n
  {
  }

  /** The doublings up to `i` were all made because the dividend covers them. */
  ghost predicate DoublingRuns(n: nat, d: nat, i: nat, t: Time) {
    && Carried(t) && Total(t) == Shifted(d, i) && (t.nsec == 0 <==> d % NSEC_PER_SEC == 0)
    && (i > 0 ==> Shifted(d, i) <= (LONG_MAX - 1) * NSEC_PER_SEC + if d % NSEC_PER_SEC == 0 then -1 else 0)
  }

  lemma {:induction false} StopsShort(n: nat, d: nat, i: nat, t: Time, j: nat)
    requires 0 < d && n <= MAX_TOTAL && DoublingStops(n, d, i, t) && DoublingRuns(n, d, i, t)
    requires j > 0 && Limit(d) <= Shifted(d, j) <= n
    ensures j == i + 1 && n >= 2 * Shifted(d, i)
  {
    if i >= j {
      ShiftedGrows(d, j, i);
      assert false;
    }
    ShiftedGrows(d, i, j - 1);
    if j > i + 1 {
      TwiceTwice(d, i, j);
      assert false;
    }
  }

  lemma {:induction false} TwiceTwice(d: nat, i: nat, j: nat)
    requires d > 0 && j > i + 1
    ensures 4 * Shifted(d, i) <= Shifted(d, j)
  {
    ShiftedGrows(d, i, i + 1);
    ShiftedGrows(d, i + 1, j);
  }

  /** timespec_mod's doubling loop. */
  method DoubleUp(ts1: Time, divisor: Time, ghost d: nat) returns (i: nat, ts2: Time)
    requires Carried(ts1) && ts1.nsec < NSEC_PER_SEC && Normal(divisor) && Carried(divisor)
    requires Total(divisor) == d > 0
    ensures DoublingStops(Total(ts1), d, i, ts2) && DoublingRuns(Total(ts1), d, i, ts2)
  {
    i, ts2 := 0, divisor;
    while ts2.sec < LONG_MAX / 2 && Ge(ts1, ts2)
      invariant DoublingRuns(Total(ts1), d, i, ts2) && Total(ts2) > 0
      decreases Total(ts1) - Total(ts2)
    {
      GeExact(ts1, ts2);
      HalveUndoesDouble(ts2);
      i := i + 1;
      var nsec: long := 2 * ts2.nsec;
      var sec: long := 2 * ts2.sec;
      if nsec > NSEC_PER_SEC {
        nsec := nsec - NSEC_PER_SEC;
        sec := sec + 1;
      }
      ts2 := Time(sec, nsec);
    }
    GeExact(ts1, ts2);
  }

  lemma {:induction false} ReduceStep(a: nat, n: nat, i: nat, m: nat, a': nat)
    requires m == Shifted(n, i) && a' == if a >= m then a - m else a
    ensures Reduce(a, n, i) == if i == 0 then a' else Reduce(a', n, i - 1)
  {
  }

  lemma {:induction false} ShiftedHalf(t: Time, d: nat, i: nat)
    requires Carried(t) && i > 0 && Total(t) == Shifted(d, i)
    ensures Carried(Halve(t)) && Total(Halve(t)) == Shifted(d, i - 1)
  {
    HalveExact(t, Shifted(d, i - 1));
  }

  /** timespec_mod's division by repeated subtraction. */
  method SubtractDown(dividend: Time, top: Time, shifts: nat, ghost d: nat)
    returns (ts1: Time, ts2: Time)
    requires Normal(dividend) && Carried(dividend) && Carried(top)
    requires Total(top) == Shifted(d, shifts) && d > 0 && InRange(Total(top))
    ensures Normal(ts1) && Carried(ts1) && Total(ts1) == Reduce(Total(dividend), d, shifts)
    ensures Carried(ts2) && Total(ts2) == d
  {
    var i := shifts;
    ts1, ts2 := dividend, top;
    while true
      invariant Normal(ts1) && Carried(ts1) && Carried(ts2) && InRange(Total(ts2))
      invariant Total(ts2) == Shifted(d, i)
      invariant Reduce(Total(ts1), d, i) == Reduce(Total(dividend), d, shifts)
      decreases i
    {
      GeExact(ts1, ts2);
      ReduceStep(Total(ts1), d, i, Total(ts2), if Ge(ts1, ts2) then Total(ts1) - Total(ts2) else Total(ts1));
      if Ge(ts1, ts2) {
        var less := Sub(ts1, ts2);
        ts1 := less.value;
      }
      if i == 0 {
        break;
      }
      ShiftedHalf(ts2, d, i);
      i := i - 1;
      var nsec: long := ts2.nsec;
      if ts2.sec % 2 == 1 {
        nsec := nsec + NSEC_PER_SEC;
      }
      ts2 := Time(ts2.sec / 2, nsec / 2);
    }
  }

  /** Flip a normal form. */
  function Negated(t: Time): (r: Time)
    requires Normal(t) && t.sec > LONG_MIN
    ensures Normal(r) && Total(r) == -Total(t)
  {
    Time(-t.sec, -t.nsec)
  }

  predicate Negative(t: Time) { t.sec < 0 || t.nsec < 0 }

  /** The magnitude that timespec_mod computes with, and the sign it records. */
  method Magnitude(t: Time) returns (neg: bool, r: Time)
    requires Normal(t) && t.sec > LONG_MIN
    ensures neg == (Total(t) < 0)
    ensures Normal(r) && Carried(r) && Total(r) == Abs(Total(t))
  {
    neg, r := false, t;
    if Negative(t) {
      neg, r := true, Negated(t);
    }
  }

  /** What timespec_mod returns for non-zero divisors, from the remainder `r` of the magnitudes. */
  function Signed(r: nat, neg1: bool, neg2: bool, d: nat): int {
    var r' := if neg1 != neg2 && r != 0 then r - d else r;
    if neg1 then -r' else r'
  }

  /** The result differs from the floored modulo exactly when the dividend covers a doubling of the
      divisor that the loop does not reach, unless it hits that doubling and the signs differ. */
  ghost predicate ModFails(a: int, b: int) {
    exists j: nat :: j > 0 && Limit(Abs(b)) <= Shifted(Abs(b), j) <= Abs(a)
                     && ((a < 0) == (b < 0) || Shifted(Abs(b), j) < Abs(a))
  }

  lemma {:induction false} SignedExact(a: int, b: int)
    requires b != 0
    ensures Signed(Mod(Abs(a), Abs(b)), a < 0, b < 0, Abs(b)) == FloorMod(a, b)
  {
    FloorModBySign(a, b);
  }

  lemma {:induction false} ModInReach(a: int, b: int, i: nat, t: Time)
    requires b != 0 && Abs(a) <= MAX_TOTAL && Abs(a) < 2 * Shifted(Abs(b), i)
    requires DoublingStops(Abs(a), Abs(b), i, t) && DoublingRuns(Abs(a), Abs(b), i, t)
    ensures Signed(Reduce(Abs(a), Abs(b), i), a < 0, b < 0, Abs(b)) == FloorMod(a, b)
    ensures !ModFails(a, b)
  {
    var n, d := Abs(a), Abs(b);
    ReduceExact(n, d, i);
    SignedExact(a, b);
    forall j: nat
      ensures j > 0 && Limit(d) <= Shifted(d, j) ==> Shifted(d, j) > n
    {
      if j > 0 && Limit(d) <= Shifted(d, j) <= n {
        StopsShort(n, d, i, t, j);
        assert false;
      }
    }
  }

  /** What falls short of the doublings is too large by a divisor, or, when the signs differ, has the
      wrong sign unless it is zero. */
  lemma {:induction false} ModOutOfReach(a: int, b: int, i: nat, t: Time)
    requires b != 0 && Abs(a) <= MAX_TOTAL && Abs(a) >= 2 * Shifted(Abs(b), i)
    requires DoublingStops(Abs(a), Abs(b), i, t) && DoublingRuns(Abs(a), Abs(b), i, t)
    ensures Signed(Reduce(Abs(a), Abs(b), i), a < 0, b < 0, Abs(b)) == FloorMod(a, b)
        <==> (a < 0) != (b < 0) && Abs(a) == Shifted(Abs(b), i + 1)
  {
    var n, d := Abs(a), Abs(b);
    ReduceFalls(n, d, i);
    FloorModBySign(a, b);
    ShiftedMod(0, d, i + 1);
  }

  lemma {:induction false} FailsOutOfReach(a: int, b: int, i: nat, t: Time)
    requires b != 0 && Abs(a) <= MAX_TOTAL && Abs(a) >= 2 * Shifted(Abs(b), i)
    requires DoublingStops(Abs(a), Abs(b), i, t) && DoublingRuns(Abs(a), Abs(b), i, t)
    ensures ModFails(a, b) <==> !((a < 0) != (b < 0) && Abs(a) == Shifted(Abs(b), i + 1))
  {
    var n, d, j := Abs(a), Abs(b), i + 1;
    StopsInReach(n, d, i, t);
    forall k: nat
      ensures k > 0 && Limit(d) <= Shifted(d, k) <= n ==> k == j
    {
      if k > 0 && Limit(d) <= Shifted(d, k) <= n {
        StopsShort(n, d, i, t, k);
      }
    }
    if (a < 0) == (b < 0) || Shifted(d, j) < n {
      assert Limit(Abs(b)) <= Shifted(Abs(b), j) <= Abs(a);
    }
  }

  /** The remainder that the loops leave is right iff the doubling loop got far enough. */
  lemma {:induction false} ModResult(a: int, b: int, i: nat, t: Time)
    requires b != 0 && Abs(a) <= MAX_TOTAL
    requires DoublingStops(Abs(a), Abs(b), i, t) && DoublingRuns(Abs(a), Abs(b), i, t)
    ensures Signed(Reduce(Abs(a), Abs(b), i), a < 0, b < 0, Abs(b)) == FloorMod(a, b)
        <==> !ModFails(a, b)
  {
    if Abs(a) < 2 * Shifted(Abs(b), i) {
      ModInReach(a, b, i, t);
    } else {
      ModOutOfReach(a, b, i, t);
      FailsOutOfReach(a, b, i, t);
    }
  }

  lemma {:induction false} CrossingFits(a: int, d: int)
    requires 0 <= a <= MAX_TOTAL && 0 <= d <= MAX_TOTAL
    ensures InRange(a) && InRange(d) && InRange(a - d) && !SubFails(a, d)
  {
  }

  /** timespec_mod's last step: cross zero if the signs differ, and restore the sign. */
  method Restore(t: Time, divisor: Time, neg1: bool, neg2: bool, ghost d: nat)
    returns (r: Time)
    requires Normal(t) && Carried(t) && Carried(divisor) && Total(divisor) == d <= MAX_TOTAL
    ensures Normal(r) && Total(r) == Signed(Total(t), neg1, neg2, d)
  {
    r := Cross(t, divisor, neg1 != neg2);
    if neg1 {
      r := Negated(r);
    }
  }

  method Cross(t: Time, divisor: Time, differ: bool) returns (r: Time)
    requires Normal(t) && Carried(t) && Carried(divisor) && Total(divisor) <= MAX_TOTAL
    ensures Normal(r) && r.sec > LONG_MIN
    ensures Total(r) == if differ && Total(t) != 0 then Total(t) - Total(divisor) else Total(t)
  {
    r := t;
    if differ && (r.sec != 0 || r.nsec != 0) {
      CrossingFits(Total(t), Total(divisor));
      var crossed := Sub(t, divisor);
      r := crossed.value;
    }
  }

  /** The loops of timespec_mod on magnitudes. */
  method Remainder(ts1: Time, ts2: Time, ghost n: nat, ghost d: nat)
    returns (r: Time, divisor: Time, ghost i: nat, ghost top: Time)
    requires Normal(ts1) && Carried(ts1) && Normal(ts2) && Carried(ts2)
    requires Total(ts1) == n && Total(ts2) == d > 0
    ensures DoublingStops(n, d, i, top) && DoublingRuns(n, d, i, top)
    ensures Normal(r) && Carried(r) && Total(r) == Reduce(n, d, i)
    ensures Carried(divisor) && Total(divisor) == d
  {
    var shifts;
    var shifted;
    shifts, shifted := DoubleUp(ts1, ts2, d);
    i, top := shifts, shifted;
    r, divisor := SubtractDown(ts1, shifted, shifts, d);
  }

  /** Pairs of LONG_MIN seconds cannot be negated. */
  predicate Negatable(total: int) { LONG_MIN * NSEC_PER_SEC < total <= MAX_TOTAL }

  /** timespec_mod: the dividend for a zero divisor; else it overflows iff an operand has no normal form
      or is at LONG_MIN seconds or below, and is the floored modulo on totals outside ModFails. */
  method Modulo(s: Time, t: Time) returns (r: Option<Time>)
    ensures r.Some? <==> InRange(Total(s)) && InRange(Total(t))
                         && (Total(t) == 0 || (Negatable(Total(s)) && Negatable(Total(t))))
    ensures r.Some? ==> Normal(r.value)
    ensures r.Some? && Total(t) == 0 ==> Total(r.value) == Total(s)
    ensures r.Some? && Total(t) != 0 ==>
              (Total(r.value) == FloorMod(Total(s), Total(t)) <==> !ModFails(Total(s), Total(t)))
  {
    var n1 := Normalise(s);
    var n2 := Normalise(t);
    if n1.None? || n2.None? {
      return None;
    }
    var ts1, ts2 := n1.value, n2.value;
    if ts2.sec == 0 && ts2.nsec == 0 {
      return Some(ts1);
    }
    if ts1.sec == LONG_MIN || ts2.sec == LONG_MIN {
      return None;
    }
    var m := ModuloOf(ts1, ts2);
    r := Some(m);
  }

  method ModuloOf(s: Time, t: Time) returns (r: Time)
    requires Normal(s) && Normal(t) && Negatable(Total(s)) && Negatable(Total(t)) && Total(t) != 0
    ensures Normal(r)
    ensures Total(r) == FloorMod(Total(s), Total(t)) <==> !ModFails(Total(s), Total(t))
  {
    ghost var a, b := Total(s), Total(t);
    var neg1, neg2, ts1, ts2;
    ghost var i, top;
    neg1, ts1 := Magnitude(s);
    neg2, ts2 := Magnitude(t);
    r, ts2, i, top := Remainder(ts1, ts2, Abs(a), Abs(b));
    r := Restore(r, ts2, neg1, neg2, Abs(b));
    ModResult(a, b, i, top);
  }

  /** What cannot be negated: a dividend of LONG_MIN seconds, for any divisor but zero. */
  lemma {:induction false} NegationFailsAt(s: Time)
    requires s == Time(LONG_MIN, 0)
    ensures InRange(Total(s)) && !Negatable(Total(s))
  {
  }

  /** Up to LONG_MAX - 2 seconds nothing fails. */
  lemma {:induction false} ModHolds(a: int, b: int)
    requires Abs(a) < (LONG_MAX - 1) * NSEC_PER_SEC
    ensures !ModFails(a, b)
  {
  }

  /** At LONG_MAX - 1 seconds it does: half of that as the divisor comes back as the remainder. */
  lemma {:induction false} ModFailsAt(a: int, b: int)
    requires a == (LONG_MAX - 1) * NSEC_PER_SEC && b == (LONG_MAX / 2) * NSEC_PER_SEC
    ensures ModFails(a, b) && FloorMod(a, b) == 0 && Reduce(a, b, 0) == b
  {
    var d: nat, j := b, 1;
    assert Shifted(d, j) == 2 * Shifted(d, 0) == a;
    ModUnique(d, NSEC_PER_SEC, LONG_MAX / 2, 0);
    assert Limit(Abs(b)) <= Shifted(Abs(b), j) <= Abs(a);
    FloorModUnique(a, b, 2, 0);
  }

  // ----- milliseconds -----

  /** C's division, towards zero. */
  function Quotient(a: int, n: int): int
    requires n > 0
  {
    if a < 0 then -((-a) / n) else a / n
  }

  method FromMs(ms: long) returns (t: Time)
    ensures Normal(t) && Total(t) == ms * 1_000_000
  {
    var sec := Quotient(ms, 1000);
    var n := Normalise(Time(sec, (ms - sec * 1000) * 1_000_000));
    t := n.value;
  }

  function ToMs(t: Time): int { t.sec * 1000 + Quotient(t.nsec, 1_000_000) }

  /** Whole milliseconds survive the way to a pair and back. */
  lemma {:induction false} MsRoundTrip(t: Time, ms: long)
    requires Normal(t) && Total(t) == ms * 1_000_000
    ensures ToMs(t) == ms
  {
    var rest := ms - t.sec * 1000;
    assert t.nsec == 1_000_000 * rest;
    if rest < 0 {
      ModUnique(-t.nsec, 1_000_000, -rest, 0);
    } else {
      ModUnique(t.nsec, 1_000_000, rest, 0);
    }
  }

  // ----- the schedule of a port or of a periodic output -----

  /** Nanoseconds as a pair, by truncating division. */
  function Split(ns: long): (t: Time)
    ensures Normal(t) && Total(t) == ns
  {
    var sec := Quotient(ns, NSEC_PER_SEC);
    Time(sec, ns - sec * NSEC_PER_SEC)
  }

  /** Adding a whole number of periods to the phase of `start`. */
  lemma {:induction false} PhaseKept(start: int, now: int, period: int)
    requires period > 0
    ensures (start % period + (now - now % period)) % period == start % period
  {
    DivMod(now, period);
    DivMod(start, period);
    ModUnique(start % period + (now - now % period), period, now / period, start % period);
  }

  /** A start in the past is moved by whole periods to less than a period around now; any other is
      kept.  It can still lie in the past, namely if its phase is behind that of now. */
  method AlignStart(startNsec: long, periodNsec: long, now: Time) returns (start: Time, period: Time)
    requires periodNsec > 0 && Normal(now) && now.sec >= 0 && now.nsec >= 0
    requires Total(now) + periodNsec < (LONG_MAX - 1) * NSEC_PER_SEC
    ensures Normal(start) && Normal(period) && Total(period) == periodNsec
    ensures startNsec >= Total(now) ==> Total(start) == startNsec
    ensures startNsec < Total(now) ==>
              && Total(start) % periodNsec == startNsec % periodNsec
              && Total(now) - periodNsec < Total(start) < Total(now) + periodNsec
              && (Total(start) < Total(now) <==> startNsec % periodNsec < Total(now) % periodNsec)
  {
    start := Split(startNsec);
    period := Split(periodNsec);
    LtExact(start, now);
    if Lt(start, now) {
      ModHolds(startNsec, periodNsec);
      ModHolds(Total(now), periodNsec);
      PhaseKept(startNsec, Total(now), periodNsec);
      var phase := Modulo(now, period);
      var rest := Modulo(start, period);
      var aligned := Sub(now, phase.value);
      var sum := Add(rest.value, aligned.value);
      start := sum.value;
    }
  }
}
