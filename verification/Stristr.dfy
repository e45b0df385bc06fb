/** The case-insensitive substring search of the firmware tool, whose scan pointer moves backwards. */
module Stristr {
  import opened Wrappers

  /** The characters of a C string before its terminating zero. */
  type cchar = x: nat | 0 < x < 256 witness 1

  function Lower(c: nat): nat { if 65 <= c <= 90 then c + 32 else c }

  predicate Letter(c: nat) { 65 <= c <= 90 || 97 <= c <= 122 }

  /** The same character, or a letter in upper and in lower case. */
  lemma {:induction false} SameLetter(c: nat, d: nat)
    ensures Lower(c) == Lower(d) <==> c == d || (Letter(c) && Letter(d) && (c == d + 32 || d == c + 32))
  {
  }

  /** The character at a pointer into the string, the terminator included. */
  function At(s: seq<cchar>, i: nat): nat
    requires i <= |s|
  {
    if i < |s| then s[i] else 0
  }

  /** The `n` characters from `i` on are those of `t`, in either case. */
  predicate Agree(s: seq<cchar>, i: nat, t: seq<cchar>, n: nat)
    requires i + n <= |s| && n <= |t|
  {
    forall k | 0 <= k < n :: Lower(s[i + k]) == Lower(t[k])
  }

  predicate OccursAt(s: seq<cchar>, t: seq<cchar>, i: nat) {
    i + |t| <= |s| && Agree(s, i, t, |t|)
  }

  /** The candidate position: where the current partial match starts, else the scan pointer. */
  function Candidate(r: Option<nat>, p1: nat): nat {
    if r.Some? then r.value else p1
  }

  lemma {:induction false} Disagrees(s: seq<cchar>, t: seq<cchar>, i: nat, k: nat)
    requires k < |t| && i + k < |s| && Lower(s[i + k]) != Lower(t[k])
    ensures !OccursAt(s, t, i)
  {
  }

  /** The leftmost occurrence, and none exactly when there is none. */
  method Search(s: seq<cchar>, t: seq<cchar>) returns (found: Option<nat>)
    ensures found.Some? ==> OccursAt(s, t, found.value)
                            && forall i | 0 <= i < found.value :: !OccursAt(s, t, i)
    ensures found.None? ==> forall i: nat :: !OccursAt(s, t, i)
  {
    var p1: nat, p2: nat := 0, 0;
    var r: Option<nat> := if |t| == 0 then Some(0) else None;
    while p1 < |s| && p2 < |t|
      invariant p1 <= |s| && p2 <= |t| && (r.None? ==> p2 == 0 && |t| > 0)
      invariant r.Some? ==> r.value + p2 == p1 && Agree(s, r.value, t, p2)
      invariant r.Some? && p2 == 0 ==> |t| == 0
      invariant forall i | 0 <= i < Candidate(r, p1) :: !OccursAt(s, t, i)
      decreases |s| - Candidate(r, p1), |s| - p1
    {
      if Lower(At(s, p1)) == Lower(At(t, p2)) {
        if r.None? {
          r := Some(p1);
        }
        p2 := p2 + 1;
      } else {
        Disagrees(s, t, Candidate(r, p1), p2);
        p2 := 0;
        if r.Some? {
          p1 := r.value + 1;
        }
        if Lower(At(s, p1)) == Lower(At(t, p2)) {
          r := Some(p1);
          p2 := p2 + 1;
        } else {
          Disagrees(s, t, p1, 0);
          r := None;
        }
      }
      p1 := p1 + 1;
    }
    found := if p2 == |t| then r else None;
  }
}
