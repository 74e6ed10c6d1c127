/** strncpy and strncmp of src/cstdlib/string.c on character arrays that may or may not
    hold a terminating NUL. */
module CStrings {

  type Char = c: int | 0 <= c < 256

  /** The string in the first `n` characters: up to the first NUL, or all of them. */
  function CStr(s: seq<Char>, n: nat): (r: seq<Char>)
    ensures |r| <= n && |r| <= |s| && r == s[..|r|] && 0 !in r
    ensures |r| < n && |r| < |s| ==> s[|r|] == 0
  {
    if n == 0 || s == [] || s[0] == 0 then [] else [s[0]] + CStr(s[1..], n - 1)
  }

  /** The first `n` characters can be read: they are there, or a NUL comes before the end. */
  predicate Readable(s: seq<Char>, n: nat) {
    n <= |s| || 0 in s
  }

  function Zeros(n: nat): (r: seq<Char>)
    ensures |r| == n && forall i: nat :: i < n ==> r[i] == 0
  {
    seq(n, i => 0)
  }

  /** String `c` in a field of `n` characters. */
  function Padded(c: seq<Char>, n: nat): (r: seq<Char>)
    requires |c| <= n
    ensures |r| == n
  {
    c + Zeros(n - |c|)
  }

  /** Where the string ends is unique. */
  lemma {:induction false} CStrIs(s: seq<Char>, n: nat, k: nat)
    requires k <= n && k <= |s| && 0 !in s[..k] && (k < n ==> k == |s| || s[k] == 0)
    ensures CStr(s, n) == s[..k]
  {
    if k > 0 {
      assert s[0] in s[..k];
      assert s[1..][..k - 1] == s[..k][1..];
      CStrIs(s[1..], n - 1, k - 1);
      assert s[..k] == [s[0]] + s[..k][1..];
    }
  }

  /** A field holds the string that was put into it, with or without a NUL. */
  lemma PaddedRoundTrip(c: seq<Char>, n: nat)
    requires |c| <= n && 0 !in c
    ensures CStr(Padded(c, n), n) == c
  {
    assert Padded(c, n)[..|c|] == c;
    CStrIs(Padded(c, n), n, |c|);
  }

  /** Copies up to `count` characters and fills the rest of the field with NUL. */
  method Strncpy(dest: array<Char>, src: seq<Char>, count: nat)
    requires count <= dest.Length && Readable(src, count)
    modifies dest
    ensures dest[..count] == Padded(CStr(src, count), count)
    ensures forall i: nat :: i < count ==> dest[i] == if i < |CStr(src, count)| then src[i] else 0
    ensures dest[count..] == old(dest[count..])
  {
    var i := 0;
    while i < count && src[i] != 0
      invariant i <= count && i <= |src| && 0 !in src[..i]
      invariant i == |src| ==> count <= i
      invariant dest[..i] == src[..i] && dest[count..] == old(dest[count..])
    {
      dest[i] := src[i];
      assert src[..i + 1] == src[..i] + [src[i]];
      assert dest[..i + 1] == dest[..i] + [dest[i]];
      i := i + 1;
      assert i == |src| ==> src[..i] == src;
    }
    ghost var k := i;
    CStrIs(src, count, k);
    while i < count
      invariant k <= i <= count && dest[..k] == src[..k]
      invariant forall j: nat :: k <= j < i ==> dest[j] == 0
      invariant dest[count..] == old(dest[count..])
    {
      dest[i] := 0;
      i := i + 1;
    }
    assert dest[..count] == src[..k] + Zeros(count - k);
  }

  /** Position `k` is the first where the strings differ, and neither ended before. */
  ghost predicate FirstDifference(lhs: seq<Char>, rhs: seq<Char>, count: nat, k: nat) {
    && k < count && k < |lhs| && k < |rhs|
    && lhs[..k] == rhs[..k] && 0 !in lhs[..k] && lhs[k] != rhs[k]
  }

  /** 0 exactly for equal strings; otherwise the difference of the first characters that
      differ. */
  method Strncmp(lhs: seq<Char>, rhs: seq<Char>, count: nat) returns (ret: int)
    requires Readable(lhs, count) && Readable(rhs, count)
    ensures ret == 0 <==> CStr(lhs, count) == CStr(rhs, count)
    ensures ret != 0 ==> exists k: nat :: FirstDifference(lhs, rhs, count, k) && ret == lhs[k] as int - rhs[k] as int
  {
    ret := 0;
    for i := 0 to count
      invariant i <= |lhs| && i <= |rhs| && lhs[..i] == rhs[..i] && 0 !in lhs[..i] && ret == 0
    {
      StillReadable(lhs, count, i);
      StillReadable(rhs, count, i);
      ret := lhs[i] as int - rhs[i] as int;
      if ret != 0 {
        DifferentStrings(lhs, rhs, count, i);
        return;
      }
      if lhs[i] == 0 {
        CStrIs(lhs, count, i);
        CStrIs(rhs, count, i);
        return;
      }
      assert lhs[..i + 1] == lhs[..i] + [lhs[i]] && rhs[..i + 1] == rhs[..i] + [rhs[i]];
    }
    CStrIs(lhs, count, count);
    CStrIs(rhs, count, count);
  }

  lemma StillReadable(s: seq<Char>, n: nat, i: nat)
    requires Readable(s, n) && i < n && i <= |s| && 0 !in s[..i]
    ensures i < |s|
  {
    assert s[..|s|] == s;
  }

  lemma DifferentStrings(lhs: seq<Char>, rhs: seq<Char>, count: nat, k: nat)
    requires FirstDifference(lhs, rhs, count, k)
    ensures CStr(lhs, count) != CStr(rhs, count)
  {
    CStrLongerThan(lhs, count, k);
    CStrLongerThan(rhs, count, k);
    var l, r := CStr(lhs, count), CStr(rhs, count);
    assert (lhs[k] == 0 ==> |l| == k) && (lhs[k] != 0 ==> |l| > k && l[k] == lhs[k]);
    assert (rhs[k] == 0 ==> |r| == k) && (rhs[k] != 0 ==> |r| > k && r[k] == rhs[k]);
  }

  /** The string goes on at least to the first NUL. */
  lemma CStrLongerThan(s: seq<Char>, n: nat, k: nat)
    requires k < n && k < |s| && 0 !in s[..k]
    ensures |CStr(s, n)| >= k && (s[k] != 0 ==> |CStr(s, n)| > k) && (s[k] == 0 ==> |CStr(s, n)| == k)
  {
    var m := |CStr(s, n)|;
    assert forall j: nat :: j < k ==> s[j] == s[..k][j];
    assert m > k ==> CStr(s, n)[k] == s[k];
  }
}
