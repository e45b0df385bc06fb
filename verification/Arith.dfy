/** Natural-number division, remainder and product by repeated subtraction and addition.

    They agree with `/`, `%` and `*` (ModIs, TimesIs); spelled out this way they keep the
    proofs of the other modules within linear arithmetic. */
module Arith {

  function Mod(a: nat, n: nat): (r: nat)
    requires n > 0
    ensures r < n && r <= a
  {
    if a < n then a else Mod(a - n, n)
  }

  function Div(a: nat, n: nat): nat
    requires n > 0
  {
    if a < n then 0 else 1 + Div(a - n, n)
  }

  function Times(k: nat, n: nat): nat {
    if k == 0 then 0 else Times(k - 1, n) + n
  }

  /** `int(a / n) * n` */
  function Down(a: nat, n: nat): nat
    requires n > 0
  {
    a - Mod(a, n)
  }

  predicate PowerOfTwo(n: nat) {
    n == 1 || (n > 0 && n % 2 == 0 && PowerOfTwo(n / 2))
  }

  lemma {:induction false} DivMod(a: int, n: int)
    requires n > 0
    ensures a == n * (a / n) + a % n && 0 <= a % n < n
  {
  }

  lemma {:induction false} Multiple(n: int, k: int)
    requires n > 0
    ensures k >= 1 ==> n * k >= n
    ensures k <= -1 ==> n * k <= -n
  {
  }

  lemma {:induction false} ModUnique(a: int, n: int, q: int, r: int)
    requires n > 0 && 0 <= r < n && a == n * q + r
    ensures a % n == r && a / n == q
  {
    DivMod(a, n);
    Multiple(n, q - a / n);
    assert n * (q - a / n) == a % n - r;
  }

  lemma {:induction false} RestOfRest(a: int, m: int, n: int)
    requires n > 0 && m > 0 && m % n == 0
    ensures (a % m) % n == a % n
  {
    DivMod(a, m);
    DivMod(m, n);
    DivMod(a % m, n);
    var q, p := a / m, m / n;
    assert m * q == n * (p * q);
    assert a == n * (p * q + (a % m) / n) + (a % m) % n by {
      assert n * (p * q + (a % m) / n) == n * (p * q) + n * ((a % m) / n);
    }
    ModUnique(a, n, p * q + (a % m) / n, (a % m) % n);
  }

  lemma {:induction false} ModIs(a: nat, n: nat)
    requires n > 0
    ensures Mod(a, n) == a % n && Div(a, n) == a / n
  {
    if a < n {
      ModUnique(a, n, 0, a);
    } else {
      ModIs(a - n, n);
      DivMod(a - n, n);
      ModUnique(a, n, (a - n) / n + 1, (a - n) % n);
    }
  }

  lemma {:induction false} TimesIs(k: nat, n: nat)
    ensures Times(k, n) == k * n
  {
    if k > 0 {
      TimesIs(k - 1, n);
    }
  }

  lemma {:induction false} TimesMod(k: nat, n: nat, r: nat)
    requires r < n
    ensures Mod(Times(k, n) + r, n) == r && Div(Times(k, n) + r, n) == k
  {
    if k > 0 {
      TimesMod(k - 1, n, r);
    }
  }

  lemma {:induction false} TimesAdd(j: nat, k: nat, n: nat)
    ensures Times(j + k, n) == Times(j, n) + Times(k, n)
  {
    if k > 0 {
      TimesAdd(j, k - 1, n);
    }
  }

  lemma {:induction false} DivModTimes(a: nat, n: nat)
    requires n > 0
    ensures a == Times(Div(a, n), n) + Mod(a, n)
  {
    if a >= n {
      DivModTimes(a - n, n);
    }
  }

  /** Adding less than is missing to the next multiple changes the remainder only. */
  lemma {:induction false} ModAdd(a: nat, n: nat, t: nat)
    requires n > 0 && Mod(a, n) + t < n
    ensures Mod(a + t, n) == Mod(a, n) + t
  {
    if a >= n {
      ModAdd(a - n, n, t);
    }
  }

  lemma {:induction false} ModPlus(a: nat, n: nat, t: nat)
    requires n > 0
    ensures Mod(Mod(a, n) + t, n) == Mod(a + t, n)
  {
    if a >= n {
      ModPlus(a - n, n, t);
    }
  }

  lemma {:induction false} ModMod(a: nat, m: nat, n: nat)
    requires n > 0 && m > 0 && Mod(m, n) == 0
    ensures Mod(Mod(a, m), n) == Mod(a, n)
  {
    ModIs(a, m);
    ModIs(m, n);
    ModIs(a, n);
    ModIs(Mod(a, m), n);
    RestOfRest(a, m, n);
  }

  /** Numbers less than `n` apart with equal remainders are equal. */
  lemma {:induction false} ModDistinct(a: nat, b: nat, n: nat)
    requires n > 0 && a < b + n && b < a + n && Mod(a, n) == Mod(b, n)
    ensures a == b
    decreases a + b
  {
    if a >= n && b >= n {
      ModDistinct(a - n, b - n, n);
    }
  }

  lemma {:induction false} MultiplesApart(a: nat, b: nat, n: nat)
    requires n > 0 && Mod(a, n) == 0 && Mod(b, n) == 0 && a < b
    ensures a + n <= b
  {
    if b < a + n {
      ModDistinct(a, b, n);
    }
  }

  lemma {:induction false} PowersDivide(n: nat, m: nat)
    requires PowerOfTwo(n) && PowerOfTwo(m) && n <= m
    ensures Mod(m, n) == 0
  {
    if n > 1 {
      PowersDivide(n / 2, m / 2);
      ModIs(m / 2, n / 2);
      DivMod(m / 2, n / 2);
      assert m == n * ((m / 2) / (n / 2));
      ModUnique(m, n, (m / 2) / (n / 2), 0);
    }
    ModIs(m, n);
  }
}
