/** The integer printer and reader of src/bwio/bwio.c on 32-bit numbers. */
module Bwio {

  import opened CStrings

  const TWO31: nat := 0x8000_0000
  const TWO32: nat := 0x1_0000_0000

  const DIGITS: string := "0123456789abcdef"
  const CAPITALS: string := "ABCDEF"

  /** The character of digit `d`, from the table. */
  function Numeral(d: nat): (ch: Char)
    requires d < 16
    ensures ch != 0
  {
    DIGITS[d] as int
  }

  /** Character `ch` stands for digit `d`: it is the `d`-th of the table, or the capital
      letter in its place. */
  predicate StandsFor(ch: Char, d: int) {
    0 <= d < 16 && (ch == DIGITS[d] as int || (d >= 10 && ch == CAPITALS[d - 10] as int))
  }

  /** bwa2d: the value of a hexadecimal digit, or -1. */
  function A2d(ch: Char): (d: int)
    ensures -1 <= d < 16
  {
    if 48 <= ch <= 57 then ch - 48
    else if 97 <= ch <= 102 then ch - 97 + 10
    else if 65 <= ch <= 70 then ch - 65 + 10
    else -1
  }

  /** bwa2d is the table read backwards: `d` for exactly the characters that stand for `d`,
      and -1 for exactly those that stand for no digit. */
  lemma A2dReadsTable(ch: Char, d: int)
    ensures A2d(ch) == d >= 0 <==> StandsFor(ch, d)
    ensures A2d(ch) == -1 <==> forall k: int :: !StandsFor(ch, k)
  {
    if A2d(ch) >= 0 { assert StandsFor(ch, A2d(ch)); }
  }

  /** The character printed for a digit. */
  function DigitChar(d: nat): (ch: Char)
    requires d < 16
    ensures ch == Numeral(d) && A2d(ch) == d
  {
    if d < 10 then d + 48 else d + 87
  }

  function Pow(b: nat, n: nat): nat {
    if n == 0 then 1 else b * Pow(b, n - 1)
  }

  /** The number a string of digits stands for, read from the left. */
  function Value(t: seq<Char>, base: nat): int {
    if t == [] then 0 else Value(t[..|t| - 1], base) * base + A2d(t[|t| - 1])
  }

  /** `t` is how `num` is written in `base`: digits of the base from the table, most
      significant first, no leading zero. */
  ghost predicate Canonical(t: seq<Char>, num: nat, base: nat) {
    && |t| >= 1 && Value(t, base) == num
    && (forall i: nat :: i < |t| ==> 0 <= A2d(t[i]) < base && t[i] == Numeral(A2d(t[i])))
    && (|t| > 1 ==> A2d(t[0]) > 0)
  }

  // ----- Arithmetic -----

  lemma DivModUnique(a: int, d: int, b: int, e: int, base: nat)
    requires base > 0 && 0 <= d < base && 0 <= e < base && a * base + d == b * base + e
    ensures a == b && d == e
  {
    if a > b { AtLeastOnce(a - b, base); Spread(a, b, base); }
    if b > a { AtLeastOnce(b - a, base); Spread(b, a, base); }
  }

  lemma AtLeastOnce(k: int, base: nat)
    requires k >= 1
    ensures k * base >= base
  {
    assert k * base == (k - 1) * base + base;
  }

  lemma Spread(a: int, b: int, base: nat)
    ensures (a - b) * base == a * base - b * base
  {
  }

  lemma PowPositive(b: nat, n: nat)
    requires b >= 1
    ensures Pow(b, n) >= 1
  {
    if n > 0 { PowPositive(b, n - 1); }
  }

  lemma {:induction false} PowMonotone(b: nat, m: nat, n: nat)
    requires b >= 1 && m <= n
    ensures Pow(b, m) <= Pow(b, n)
  {
    if m < n {
      PowMonotone(b, m, n - 1);
      PowPositive(b, n - 1);
      GrowOnce(Pow(b, n - 1), b);
    }
  }

  lemma DivideMultiple(x: nat, b: nat)
    requires b > 0
    ensures b * x / b == x
  {
    var q, r := b * x / b, b * x % b;
    assert q * b + r == x * b + 0;
    DivModUnique(q, r, x, 0, b);
  }

  // ----- The canonical string is unique -----

  lemma {:induction false} ValueNonNegative(t: seq<Char>, base: nat)
    requires base >= 2 && forall i: nat :: i < |t| ==> 0 <= A2d(t[i]) < base
    ensures Value(t, base) >= 0
    ensures t != [] && A2d(t[0]) > 0 ==> Value(t, base) >= 1
  {
    if t != [] {
      var p := t[..|t| - 1];
      ValueNonNegative(p, base);
      GrowOnce(Value(p, base), base);
      if p != [] { assert p[0] == t[0]; }
    }
  }

  lemma {:induction false} CanonicalUnique(t: seq<Char>, u: seq<Char>, num: nat, base: nat)
    requires 2 <= base <= 16 && Canonical(t, num, base) && Canonical(u, num, base)
    ensures t == u
  {
    var m, n := |t| - 1, |u| - 1;
    var p, q := t[..m], u[..n];
    assert t[m] == u[n] && Value(p, base) == Value(q, base) by { SameLastDigit(t, u, base); }
    assert m > 0 ==> Value(p, base) > 0 && Canonical(p, Value(p, base), base) by { PrefixCanonical(t, base); }
    assert n > 0 ==> Value(q, base) > 0 && Canonical(q, Value(q, base), base) by { PrefixCanonical(u, base); }
    assert p == q by {
      if m > 0 && n > 0 { CanonicalUnique(p, q, Value(p, base), base); }
    }
    assert t == p + [t[m]] && u == q + [u[n]];
  }

  lemma SameLastDigit(t: seq<Char>, u: seq<Char>, base: nat)
    requires 2 <= base <= 16 && |t| >= 1 && |u| >= 1 && Value(t, base) == Value(u, base)
    requires 0 <= A2d(t[|t| - 1]) < base && 0 <= A2d(u[|u| - 1]) < base
    requires t[|t| - 1] == Numeral(A2d(t[|t| - 1])) && u[|u| - 1] == Numeral(A2d(u[|u| - 1]))
    ensures t[|t| - 1] == u[|u| - 1] && Value(t[..|t| - 1], base) == Value(u[..|u| - 1], base)
  {
    DivModUnique(Value(t[..|t| - 1], base), A2d(t[|t| - 1]), Value(u[..|u| - 1], base), A2d(u[|u| - 1]), base);
  }

  /** Without its last digit a canonical string is empty or canonical for a positive number. */
  lemma PrefixCanonical(t: seq<Char>, base: nat)
    requires 2 <= base <= 16 && Value(t, base) >= 0 && Canonical(t, Value(t, base), base)
    ensures var p := t[..|t| - 1];
      if p == [] then Value(p, base) == 0 else Value(p, base) > 0 && Canonical(p, Value(p, base), base)
  {
    var p := t[..|t| - 1];
    ValueNonNegative(p, base);
    if p != [] { assert p[0] == t[0]; }
  }

  // ----- Printing -----

  lemma ValueAppend(t: seq<Char>, ch: Char, base: nat)
    ensures Value(t + [ch], base) == Value(t, base) * base + A2d(ch)
  {
    assert (t + [ch])[..|t|] == t;
  }

  lemma Regroup(a: int, b: int, c: int)
    ensures a * (b * c) == a * b * c
  {
  }

  lemma Distribute(a: int, b: int, c: int)
    ensures (a + b) * c == a * c + b * c
  {
  }

  lemma ProductBound(num: nat, d: nat, base: nat)
    requires d > 0
    ensures num / d >= base <==> base * d <= num
    ensures base * d == d * base
  {
    var q := num / d;
    assert q * d <= num < q * d + d;
    if q >= base {
      Distribute(q - base, base, d);
    } else {
      Distribute(base - q - 1, q, d);
      Distribute(base - 1, 1, d);
    }
  }

  lemma NoWrap(num: nat, d: nat, base: nat)
    requires d > 0 && base >= 2 && base * d <= num < TWO32
    ensures d * base % TWO32 == base * d && base * d > d
  {
    AtLeastOnce(base - 1, d);
    Distribute(base - 1, 1, d);
    assert d * base == base * d;
    SmallRemainder(d * base);
  }

  lemma SmallRemainder(x: nat)
    requires x < TWO32
    ensures x % TWO32 == x
  {
  }

  /** The first loop of bwui2a: the highest power of the base that is not above `num`. The
      product is taken modulo 2^32 as in the source, and never wraps. */
  method HighestPower(num: nat, base: nat) returns (d: nat, ghost k: nat)
    requires num < TWO32 && 2 <= base <= 16
    ensures d == Pow(base, k) && d > 0 && num < base * d && (k > 0 ==> d <= num)
  {
    d, k := 1, 0;
    ProductBound(num, d, base);
    while num / d >= base
      invariant d == Pow(base, k) && d > 0 && (k > 0 ==> d <= num)
      invariant num / d >= base <==> base * d <= num
      decreases num - d
    {
      NoWrap(num, d, base);
      d := d * base % TWO32;
      k := k + 1;
      ProductBound(num, d, base);
    }
  }

  /** bwui2a: prints `num` into the buffer from position `off` on, with a NUL behind. */
  method Ui2a(num: nat, base: nat, bf: array<Char>, off: nat)
    requires num < TWO32 && 2 <= base <= 16
    requires off + 2 <= bf.Length && num < Pow(base, bf.Length - off - 1)
    modifies bf
    ensures Canonical(CStr(bf[off..], bf.Length - off), num, base)
    ensures |CStr(bf[off..], bf.Length - off)| < bf.Length - off
    ensures bf[..off] == old(bf[..off])
  {
    var n: nat := 0;
    var d, k := HighestPower(num, base);
    PowerRoom(num, base, k, bf.Length - off - 1);
    var rest: nat := num;
    ghost var t: seq<Char> := [];
    while d != 0
      invariant n == |t| <= k + 1 && InLoop(t, rest, d, k, num, base)
      invariant bf[off..off + n] == t && bf[..off] == old(bf[..off])
      decreases d
    {
      n, rest, d, t := PrintDigit(bf, off, n, rest, d, base, t, k, num);
    }
    Printed(t, rest, k, num, base);
    Terminate(bf, off, n);
  }

  /** The body of the second loop: the digit is computed, and printed unless it is a leading
      zero. */
  method PrintDigit(bf: array<Char>, off: nat, n: nat, rest: nat, d: nat, base: nat,
                    ghost t: seq<Char>, ghost k: nat, ghost num: nat)
    returns (n': nat, left: nat, weight: nat, ghost t': seq<Char>)
    requires 2 <= base <= 16 && d > 0 && InLoop(t, rest, d, k, num, base)
    requires n == |t| && off + k + 1 < bf.Length && bf[off..off + n] == t
    modifies bf
    ensures weight < d && n' == |t'| <= k + 1 && InLoop(t', left, weight, k, num, base)
    ensures bf[off..off + n'] == t' && bf[..off] == old(bf[..off])
  {
    var digit: nat;
    digit, left, weight := NextDigit(rest, d, base, t, k, num);
    n', t' := n, t + [DigitChar(digit)];
    if n != 0 || digit > 0 || weight == 0 {
      PutChar(bf, off, n, DigitChar(digit));
      n' := n + 1;
    }
  }

  /** One character more behind the `n` that are printed. */
  method PutChar(bf: array<Char>, off: nat, n: nat, ch: Char)
    requires off + n < bf.Length
    modifies bf
    ensures bf[off..off + n + 1] == old(bf[off..off + n]) + [ch] && bf[..off] == old(bf[..off])
  {
    bf[off + n] := ch;
  }

  /** Writes the NUL: the buffer then holds the string of the `n` characters before it. */
  method Terminate(bf: array<Char>, off: nat, n: nat)
    requires off + n < bf.Length && 0 !in bf[off..off + n]
    modifies bf
    ensures CStr(bf[off..], bf.Length - off) == old(bf[off..off + n]) && bf[..off] == old(bf[..off])
  {
    bf[off + n] := 0;
    assert bf[off..][..n] == old(bf[off..off + n]);
    CStrIs(bf[off..], bf.Length - off, n);
  }

  /** The three divisions in the body of the second loop. */
  method NextDigit(rest: nat, d: nat, base: nat, ghost t: seq<Char>, ghost k: nat, ghost num: nat)
    returns (digit: nat, left: nat, weight: nat)
    requires 2 <= base <= 16 && d > 0 && InLoop(t, rest, d, k, num, base)
    ensures digit < base && weight < d && InLoop(t + [DigitChar(digit)], left, weight, k, num, base)
    ensures t != [] || digit > 0 || weight == 0
  {
    digit, left, weight := Divide(rest, d, base);
    PrintStep(t, rest, d, digit, left, weight, k, num, base);
  }

  ghost predicate InLoop(t: seq<Char>, rest: nat, d: nat, k: nat, num: nat, base: nat) {
    && Printing(t, d, k, base) && Adds(Value(t, base), rest, d, num, base)
    && (t == [] ==> rest == num && (d == 1 || 0 < d <= num))
  }

  lemma Printed(t: seq<Char>, rest: nat, k: nat, num: nat, base: nat)
    requires base >= 2 && InLoop(t, rest, 0, k, num, base)
    ensures |t| == k + 1 && Canonical(t, num, base) && 0 !in t
  {
    if |t| <= k { PowPositive(base, k - |t|); }
  }

  method Divide(rest: nat, d: nat, base: nat) returns (q: nat, r: nat, e: nat)
    requires d > 0 && base > 0
    ensures rest == q * d + r && r < d && e == d / base
  {
    q, r, e := rest / d, rest % d, d / base;
  }

  /** The state of the second loop of bwui2a: `t` is printed, and `d` is the weight of the
      next digit, of k + 1 in all. */
  ghost predicate Printing(t: seq<Char>, d: nat, k: nat, base: nat) {
    && |t| <= k + 1 && d == (if |t| == k + 1 then 0 else Pow(base, k - |t|)) && Digits(t, base, d > 0)
  }

  /** One turn of the loop: digit `q` is printed, `r` is left, and `e` is the next weight. The
      digit is never a leading zero that has to be left out. */
  lemma PrintStep(t: seq<Char>, rest: nat, d: nat, q: nat, r: nat, e: nat, k: nat, num: nat, base: nat)
    requires 2 <= base <= 16 && d > 0 && Printing(t, d, k, base) && Adds(Value(t, base), rest, d, num, base)
    requires rest == q * d + r && r < d && e == d / base
    requires t == [] ==> rest == num && (d == 1 || d <= num)
    ensures q < base && e < d
    ensures Printing(t + [DigitChar(q)], e, k, base)
    ensures Adds(Value(t + [DigitChar(q)], base), r, e, num, base)
    ensures t != [] || q > 0 || e == 0
  {
    NextWeight(base, k - |t|, d, e);
    assert t == [] && e > 0 ==> q > 0 by { FirstDigit(rest, d, q, r); }
    assert q < base && Adds(Value(t + [DigitChar(q)], base), r, e, num, base) by {
      AddsDigit(Value(t, base), rest, d, q, r, e, num, base);
      ValueAppend(t, DigitChar(q), base);
    }
    StepDigits(t, q, e, k, base);
  }

  lemma FirstDigit(rest: nat, d: nat, q: nat, r: nat)
    requires rest == q * d + r && r < d
    ensures d <= rest ==> q > 0
  {
  }

  lemma StepDigits(t: seq<Char>, q: nat, e: nat, k: nat, base: nat)
    requires 2 <= base <= 16 && |t| <= k && Digits(t, base, true) && q < base && (t == [] && e > 0 ==> q > 0)
    requires e == if |t| == k then 0 else Pow(base, k - |t| - 1)
    ensures Printing(t + [DigitChar(q)], e, k, base)
  {
    DigitsAppend(t, q, base, e > 0);
  }

  lemma NextWeight(base: nat, j: nat, d: nat, e: nat)
    requires base >= 2 && d == Pow(base, j) && e == d / base
    ensures e < d && if j == 0 then d == 1 && e == 0 else e == Pow(base, j - 1) > 0 && d == base * e
  {
    PowPositive(base, j);
    if j > 0 {
      DivideMultiple(Pow(base, j - 1), base);
      PowPositive(base, j - 1);
      AtLeastOnce(base - 1, e);
      Distribute(base - 1, 1, e);
    }
  }

  /** A number below base^room has at most `room` digits. */
  lemma PowerRoom(num: nat, base: nat, k: nat, room: nat)
    requires base >= 2 && room >= 1 && num < Pow(base, room) && (k > 0 ==> Pow(base, k) <= num)
    ensures k < room
  {
    if k >= room { PowMonotone(base, room, k); }
  }

  /** The digits so far with value `v`, the rest and the weight `d` of the next digit add up
      to the number. */
  ghost predicate Adds(v: int, rest: nat, d: nat, num: nat, base: nat) {
    if d == 0 then v == num else v * (base * d) + rest == num && rest < base * d
  }

  /** One more digit, with `e` the weight of the digit after it. */
  lemma AddsDigit(v: int, rest: nat, d: nat, q: nat, r: nat, e: nat, num: nat, base: nat)
    requires d > 0 && Adds(v, rest, d, num, base) && rest == q * d + r && r < d
    requires (d == 1 && e == 0) || (e > 0 && d == base * e)
    ensures q < base
    ensures Adds(v * base + q, r, e, num, base)
  {
    if q >= base {
      Distribute(q - base, base, d);
    }
    Regroup(v, base, d);
    Distribute(v * base, q, d);
  }

  /** Digits of the base without a leading zero; `more` says that others follow. */
  ghost predicate Digits(t: seq<Char>, base: nat, more: bool) {
    && (forall i: nat :: i < |t| ==> 0 <= A2d(t[i]) < base && t[i] == Numeral(A2d(t[i])))
    && (|t| > 1 || (|t| == 1 && more) ==> A2d(t[0]) > 0)
    && 0 !in t
  }

  lemma DigitsAppend(t: seq<Char>, q: nat, base: nat, more: bool)
    requires Digits(t, base, true) && q < base <= 16 && (t == [] ==> q > 0 || !more)
    ensures Digits(t + [DigitChar(q)], base, more)
  {
    var u := t + [DigitChar(q)];
    forall i: nat | i < |u|
      ensures 0 <= A2d(u[i]) < base && u[i] == Numeral(A2d(u[i]))
    {
      if i < |t| { assert u[i] == t[i]; }
    }
  }

  // ----- Signed numbers -----

  /** -num in 32 bits, as an unsigned number. */
  function Negated(num: int): (u: nat)
    requires -0x8000_0000 <= num < 0
    ensures u == -num
  {
    -num % TWO32
  }

  lemma TenDigits()
    ensures Pow(10, 10) == 10_000_000_000
  {
    assert Pow(10, 5) == 100_000;
  }

  /** bwi2a: sign, digits and NUL of every int fit into 12 characters. */
  method I2a(num: int, bf: array<Char>)
    requires -0x8000_0000 <= num < TWO31 && bf.Length >= 12
    modifies bf
    ensures num >= 0 ==> Canonical(CStr(bf[..], bf.Length), num, 10) && |CStr(bf[..], bf.Length)| < bf.Length
    ensures num < 0 ==> bf[0] == '-' as int && Canonical(CStr(bf[1..], bf.Length - 1), -num, 10)
                        && |CStr(bf[1..], bf.Length - 1)| < bf.Length - 1
  {
    TenDigits();
    PowMonotone(10, 10, bf.Length - 2);
    PowMonotone(10, 10, bf.Length - 1);
    if num < 0 {
      bf[0] := 45;
      Ui2a(Negated(num), 10, bf, 1);
      assert bf[..1][0] == 45;
    } else {
      Ui2a(num, 10, bf, 0);
      assert bf[0..] == bf[..];
    }
  }

  // ----- Reading -----

  /** What bwa2i takes for a digit; the source compares with `>` where `>=` would be right,
      so the base itself is accepted. */
  predicate Accepted(ch: Char, base: nat) {
    0 <= A2d(ch) <= base
  }

  /** The number of accepted characters at the front. */
  function Span(s: seq<Char>, base: nat): (k: nat)
    ensures k <= |s| && (forall i: nat :: i < k ==> Accepted(s[i], base))
    ensures k < |s| ==> !Accepted(s[k], base)
  {
    if s == [] || !Accepted(s[0], base) then 0 else 1 + Span(s[1..], base)
  }

  lemma {:induction false} ValueGrows(t: seq<Char>, base: nat, k: nat)
    requires base >= 1 && k <= |t| && forall i: nat :: i < |t| ==> A2d(t[i]) >= 0
    ensures 0 <= Value(t[..k], base) <= Value(t, base)
  {
    if k == |t| {
      assert t[..k] == t;
      if t != [] {
        ValueGrows(t[..k - 1], base, k - 1);
        assert Value(t[..k - 1], base) * base >= 0;
      }
    } else {
      var p := t[..|t| - 1];
      ValueGrows(p, base, k);
      assert p[..k] == t[..k];
      GrowOnce(Value(p, base), base);
    }
  }

  lemma GrowOnce(v: int, base: nat)
    requires v >= 0 && base >= 1
    ensures v * base >= v && base * v == v * base
  {
    assert v * base == v * (base - 1) + v;
  }

  /** bwa2i on a text, given as its first character and what the source pointer points to:
      the value of the accepted characters, the character after them, and how many
      characters were read. The value must fit in an int, as signed overflow is undefined;
      then no intermediate value overflows either. */
  method A2i(text: seq<Char>, base: nat) returns (next: Char, p: nat, num: int)
    requires base >= 1 && Span(text, base) < |text|
    requires Value(text[..Span(text, base)], base) < TWO31
    ensures var k := Span(text, base);
      num == Value(text[..k], base) && next == text[k] && p == k + 1
  {
    ghost var k := Span(text, base);
    ghost var j: nat := 0;
    next, p, num := text[0], 1, 0;
    while A2d(next) >= 0
      invariant j <= k && p == j + 1 && next == text[j] && num == Value(text[..j], base)
      decreases k - j
    {
      var digit := A2d(next);
      if digit > base {
        break;
      }
      ReadStep(text, j, base);
      num := num * base + digit;
      next := text[p];
      p := p + 1;
      j := j + 1;
    }
  }

  /** One turn of the reader's loop: the number stays an int. */
  lemma ReadStep(text: seq<Char>, j: nat, base: nat)
    requires base >= 1 && j < Span(text, base) && Value(text[..Span(text, base)], base) < TWO31
    ensures Value(text[..j + 1], base) == Value(text[..j], base) * base + A2d(text[j]) < TWO31
  {
    var digits := text[..Span(text, base)];
    assert text[..j + 1] == text[..j] + [text[j]];
    ValueAppend(text[..j], text[j], base);
    assert digits[..j + 1] == text[..j + 1];
    ValueGrows(digits, base, j + 1);
  }

  // ----- Reading back what was printed -----

  lemma {:induction false} ValueConcat(t: seq<Char>, u: seq<Char>, base: nat)
    ensures Value(t + u, base) == Value(t, base) * Pow(base, |u|) + Value(u, base)
  {
    if u == [] {
      assert t + u == t;
    } else {
      var v, d := u[..|u| - 1], u[|u| - 1];
      assert t + u == t + v + [d] && u == v + [d];
      ValueConcat(t, v, base);
      ValueAppend(t + v, d, base);
      ShiftDigits(Value(t, base), Pow(base, |v|), Value(v, base), base);
    }
  }

  lemma ShiftDigits(a: int, p: nat, b: int, base: nat)
    ensures (a * p + b) * base == a * (base * p) + b * base
  {
  }

  /** Accepted characters stand for zero exactly when they are all '0'. */
  lemma {:induction false} ZeroIff(u: seq<Char>, base: nat)
    requires base >= 2 && forall i: nat :: i < |u| ==> Accepted(u[i], base)
    ensures Value(u, base) >= 0
    ensures Value(u, base) == 0 <==> forall i: nat :: i < |u| ==> u[i] == 48
  {
    if u != [] {
      var v := u[..|u| - 1];
      ZeroIff(v, base);
      GrowOnce(Value(v, base), base);
      assert (forall i: nat :: i < |u| ==> u[i] == 48) <==> (forall i: nat :: i < |v| ==> v[i] == 48) && u[|v|] == 48;
    }
  }

  lemma Enlarged(num: nat, p: nat, v: nat)
    requires p >= 2
    ensures num * p + v == num <==> num == 0 && v == 0
  {
    assert num * p == num * (p - 1) + num;
    if num > 0 { AtLeastOnce(num, p - 1); }
  }

  /** The printed digits `t` of `num` at the front of any text: bwa2i reads on exactly while
      characters are accepted, and gets `num` exactly when it stops right behind `t`, or
      when `num` is 0 and only zeros follow. */
  lemma ReadBackIff(t: seq<Char>, num: nat, base: nat, text: seq<Char>)
    requires 2 <= base <= 16 && Canonical(t, num, base) && t <= text
    ensures var k := Span(text, base);
      && |t| <= k
      && (k == |t| <==> |text| == |t| || !Accepted(text[|t|], base))
      && (Value(text[..k], base) == num <==>
            k == |t| || (num == 0 && forall i: nat :: |t| <= i < k ==> text[i] == 48))
  {
    var k := Span(text, base);
    forall i: nat | i < |t|
      ensures Accepted(text[i], base)
    {
      assert text[i] == t[i];
    }
    var u := text[|t|..k];
    assert text[..k] == t + u;
    assert forall i: nat :: i < |u| ==> u[i] == text[|t| + i];
    assert (forall i: nat :: |t| <= i < k ==> text[i] == 48) <==> (forall i: nat :: i < |u| ==> u[i] == 48) by {
      assert forall i: nat :: |t| <= i < k ==> text[i] == u[i - |t|];
    }
    MoreDigits(t, u, num, base);
  }

  /** Reading further digits behind those of a number. */
  lemma MoreDigits(t: seq<Char>, u: seq<Char>, num: nat, base: nat)
    requires base >= 2 && Value(t, base) == num && forall i: nat :: i < |u| ==> Accepted(u[i], base)
    ensures Value(t + u, base) == num <==> u == [] || (num == 0 && forall i: nat :: i < |u| ==> u[i] == 48)
  {
    ValueConcat(t, u, base);
    ZeroIff(u, base);
    if u == [] {
      assert t + u == t;
    } else {
      PowPositive(base, |u| - 1);
      GrowOnce(Pow(base, |u| - 1), base - 1);
      assert Pow(base, |u|) >= 2;
      Enlarged(num, Pow(base, |u|), Value(u, base));
    }
  }

  /** bwui2a followed by bwa2i gives the number back, for every number that fits an int and
      every base, and leaves the reader at the terminating NUL. */
  method PrintThenRead(num: nat, base: nat, bf: array<Char>) returns (next: Char, got: int)
    requires num < TWO31 && 2 <= base <= 16 && bf.Length >= 2 && num < Pow(base, bf.Length - 1)
    modifies bf
    ensures got == num && next == 0 && Canonical(CStr(bf[..], bf.Length), num, base)
  {
    Ui2a(num, base, bf, 0);
    var text := bf[..];
    assert bf[0..] == text;
    ghost var t := CStr(text, |text|);
    assert t <= text && text[|t|] == 0;
    ReadBackIff(t, num, base, text);
    var p;
    next, p, got := A2i(text, base);
  }

  /** The character 'a' behind a decimal number is read as one more digit of value 10. */
  lemma ReadBackFails()
    ensures Span([49, 50, 97, 0], 10) == 3 && Value([49, 50, 97], 10) == 130
  {
    assert [49, 50, 97, 0][1..] == [50, 97, 0] && [50, 97, 0][1..] == [97, 0] && [97, 0][1..] == [0];
    ValueAppend([49, 50], 97, 10);
    ValueAppend([49], 50, 10);
    ValueAppend([], 49, 10);
    assert [49, 50] + [97] == [49, 50, 97] && [49] + [50] == [49, 50] && [] + [49] == [49];
  }
}
