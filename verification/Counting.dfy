/** Counting occurrences in a sequence of numbers. */
module Counting {

  function Occ(s: seq<nat>, x: nat): nat {
    if s == [] then 0 else (if s[0] == x then 1 else 0) + Occ(s[1..], x)
  }

  /** Different numbers below `n`. */
  ghost predicate Different(s: seq<nat>, n: nat) {
    forall x: nat :: Occ(s, x) <= if x < n then 1 else 0
  }

  lemma {:induction false} OccConcat(s: seq<nat>, t: seq<nat>, x: nat)
    ensures Occ(s + t, x) == Occ(s, x) + Occ(t, x)
  {
    if s == [] {
      assert s + t == t;
    } else {
      assert (s + t)[1..] == s[1..] + t;
      OccConcat(s[1..], t, x);
    }
  }

  lemma {:induction false} OccIn(s: seq<nat>, x: nat)
    ensures x in s <==> Occ(s, x) > 0
  {
    if s != [] { OccIn(s[1..], x); }
  }

  function Without(s: seq<nat>, m: nat): seq<nat> {
    if s == [] then [] else (if s[0] == m then [] else [s[0]]) + Without(s[1..], m)
  }

  lemma {:induction false} WithoutOcc(s: seq<nat>, m: nat, x: nat)
    ensures Occ(Without(s, m), x) == if x == m then 0 else Occ(s, x)
    ensures |s| == |Without(s, m)| + Occ(s, m)
  {
    if s != [] {
      WithoutOcc(s[1..], m, x);
      OccConcat(if s[0] == m then [] else [s[0]], Without(s[1..], m), x);
    }
  }

  /** Different numbers below `n` are at most `n` many. */
  lemma {:induction false} Pigeonhole(s: seq<nat>, n: nat)
    requires Different(s, n)
    ensures |s| <= n
    decreases n
  {
    if n == 0 {
      if s != [] { assert Occ(s, s[0]) > 0; }
    } else {
      var m := n - 1;
      var t := Without(s, m);
      forall x: nat
        ensures Occ(t, x) <= if x < m then 1 else 0
      {
        WithoutOcc(s, m, x);
        assert Occ(s, x) <= if x < n then 1 else 0;
      }
      Pigeonhole(t, m);
      WithoutOcc(s, m, 0);
      assert Occ(s, m) <= 1;
    }
  }

  /** Position by position: no number occurs twice. */
  lemma DifferentAt(s: seq<nat>, n: nat, i: nat, j: nat)
    requires Different(s, n) && i < j < |s|
    ensures s[i] != s[j] && s[i] < n
  {
    var x := s[i];
    assert s == s[..i] + [x] + s[i + 1..j] + [s[j]] + s[j + 1..];
    OccConcat(s[..i] + [x] + s[i + 1..j] + [s[j]], s[j + 1..], x);
    OccConcat(s[..i] + [x] + s[i + 1..j], [s[j]], x);
    OccConcat(s[..i] + [x], s[i + 1..j], x);
    OccConcat(s[..i], [x], x);
    assert Occ(s, x) <= if x < n then 1 else 0;
  }
}
