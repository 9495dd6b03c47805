/** The parts of Python's built-in semantics that the library leans on:
    list indexing with negative indices, slicing, `rindex`/`index`,
    `str.isdigit`, `int(...)` and `str(...)` on natural numbers. */
module Py {
  import opened Wrappers

  /** A Python argument that the library checks with `isinstance(x, str)`. */
  datatype Object = Str(s: string) | NotStr

  /** `-n <= k < n`: the indices Python accepts on a list of length `n`. */
  predicate IndexOk(k: int, n: nat)
  {
    -(n as int) <= k < n
  }

  /** The position that a (possibly negative) index denotes. */
  function Position(k: int, n: nat): (p: nat)
    requires IndexOk(k, n)
    ensures p < n
    ensures k >= 0 ==> p == k
    ensures k < 0 ==> p + (-k) == n
  {
    if k < 0 then k + n else k
  }

  /** Clamps a slice bound the way Python does: negative bounds count from
      the end, and every bound is cut to `0..n`. */
  function SliceBound(k: int, n: nat): (p: nat)
    ensures p <= n
    ensures 0 <= k <= n ==> p == k
    ensures -(n as int) <= k < 0 ==> p == n + k
  {
    if k < 0 then (if k + n < 0 then 0 else k + n)
    else if k > n then n
    else k
  }

  /** `s[i:j]`: empty when the clamped start is not before the clamped end. */
  function Slice<T>(s: seq<T>, i: int, j: int): (r: seq<T>)
    ensures |r| <= |s|
    ensures SliceBound(i, |s|) <= SliceBound(j, |s|) ==> r == s[SliceBound(i, |s|)..SliceBound(j, |s|)]
    ensures SliceBound(j, |s|) <= SliceBound(i, |s|) ==> r == []
  {
    var a, b := SliceBound(i, |s|), SliceBound(j, |s|);
    if a <= b then s[a..b] else []
  }

  /** `s.index(x)`: the first position of `x`, `None` where Python raises
      `ValueError`. */
  function Index<T(==)>(s: seq<T>, x: T): (r: Option<nat>)
    ensures r.None? <==> x !in s
    ensures r.Some? ==> r.value < |s| && s[r.value] == x && x !in s[..r.value]
  {
    if s == [] then None
    else if s[0] == x then Some(0)
    else match Index(s[1..], x)
      case None => None
      case Some(k) =>
        assert s[..k + 1] == [s[0]] + s[1..][..k];
        Some(k + 1)
  }

  /** `x` sits at `i` and nowhere before it. */
  predicate FirstAt<T(==)>(s: seq<T>, x: T, i: nat)
  {
    i < |s| && s[i] == x && x !in s[..i]
  }

  /** There is only one first position. */
  lemma FirstAtUnique<T>(s: seq<T>, x: T, i: nat, j: nat)
    requires FirstAt(s, x, i) && FirstAt(s, x, j)
    ensures i == j
  {
  }

  /** Searching past a prefix that lacks `x` finds `x` where the search of
      the rest finds it, shifted by the prefix's length. */
  lemma {:induction false} IndexAfterPrefix<T>(a: seq<T>, b: seq<T>, x: T)
    requires x !in a && x in b
    ensures Index(a + b, x) == Some(|a| + Index(b, x).value)
  {
    if a == [] {
      assert a + b == b;
    } else {
      assert (a + b)[1..] == a[1..] + b;
      IndexAfterPrefix(a[1..], b, x);
    }
  }

  /** `s.rindex(x)`: the last position of `x`, `None` where Python raises
      `ValueError`. */
  function RIndex<T(==)>(s: seq<T>, x: T): (r: Option<nat>)
    ensures r.None? <==> x !in s
    ensures r.Some? ==> r.value < |s| && s[r.value] == x && x !in s[r.value + 1..]
  {
    if s == [] then None
    else if s[|s| - 1] == x then Some(|s| - 1)
    else match RIndex(s[..|s| - 1], x)
      case None => None
      case Some(k) =>
        assert s[k + 1..] == s[..|s| - 1][k + 1..] + [s[|s| - 1]];
        Some(k)
  }

  /** Appending elements other than `x` does not move the last `x`. */
  lemma {:induction false} RIndexPastSuffix<T>(a: seq<T>, b: seq<T>, x: T)
    requires x !in b
    ensures RIndex(a + b, x) == RIndex(a, x)
  {
    if b == [] {
      assert a + b == a;
    } else {
      assert (a + b)[..|a + b| - 1] == a + b[..|b| - 1];
      RIndexPastSuffix(a, b[..|b| - 1], x);
    }
  }

  /** The last `x` of `a + [x] + b` is the one between `a` and `b` when `b`
      has none. */
  lemma RIndexOfSeparator<T>(a: seq<T>, b: seq<T>, x: T)
    requires x !in b
    ensures RIndex(a + [x] + b, x) == Some(|a|)
  {
    RIndexPastSuffix(a + [x], b, x);
  }

  /** A position holding `x` with no `x` after it is the last `x`. */
  lemma RIndexAt<T>(s: seq<T>, k: nat, x: T)
    requires k < |s| && s[k] == x && x !in s[k + 1..]
    ensures RIndex(s, x) == Some(k)
  {
    var a, b := s[..k + 1], s[k + 1..];
    assert a[|a| - 1] == x;
    assert RIndex(a, x) == Some(k);
    assert s == a + b;
    RIndexPastSuffix(a, b, x);
  }

  /** Dropping a prefix that ends at or before the last `x` shifts it. */
  lemma RIndexInSuffix<T>(s: seq<T>, start: nat, d: nat, x: T)
    requires RIndex(s, x) == Some(d) && start <= d
    ensures RIndex(s[start..], x) == Some(d - start)
  {
    var t := s[start..];
    assert t[d - start] == x;
    assert t[d - start + 1..] == s[d + 1..];
    RIndexAt(t, d - start, x);
  }

  predicate IsDigit(c: char)
  {
    '0' <= c <= '9'
  }

  /** `s.isdigit()` restricted to ASCII digits: non-empty and all digits. */
  predicate IsDigits(s: string)
  {
    |s| > 0 && forall i :: 0 <= i < |s| ==> IsDigit(s[i])
  }

  function DigitValue(c: char): (d: nat)
    requires IsDigit(c)
    ensures d < 10
  {
    c as int - '0' as int
  }

  function DigitChar(d: nat): (c: char)
    requires d < 10
    ensures IsDigit(c) && DigitValue(c) == d
  {
    ('0' as int + d) as char
  }

  /** `int(s)` on a string of ASCII digits (leading zeros allowed); it is 0
      exactly when every digit is '0'. */
  function ParseDigits(s: string): (r: nat)
    requires forall i :: 0 <= i < |s| ==> IsDigit(s[i])
    ensures r == 0 <==> forall i :: 0 <= i < |s| ==> s[i] == '0'
  {
    if s == [] then 0
    else 10 * ParseDigits(s[..|s| - 1]) + DigitValue(s[|s| - 1])
  }

  /** `str(n)` for a natural number: decimal without leading zeros. */
  function Digits(n: nat): (s: string)
    ensures IsDigits(s)
    ensures |s| > 1 ==> s[0] != '0'
  {
    if n < 10 then [DigitChar(n)]
    else Digits(n / 10) + [DigitChar(n % 10)]
  }

  /** `str(int(s)) == s` for a digit string without a leading zero. */
  lemma {:induction false} DigitsOfParseDigits(s: string)
    requires |s| > 0 && forall i :: 0 <= i < |s| ==> IsDigit(s[i])
    ensures |s| == 1 || s[0] != '0' ==> Digits(ParseDigits(s)) == s
  {
    var last := s[|s| - 1];
    assert DigitChar(DigitValue(last)) == last;
    if |s| > 1 && s[0] != '0' {
      var init := s[..|s| - 1];
      DigitsOfParseDigits(init);
      assert init[0] != '0';
      assert Digits(ParseDigits(s)) == init + [last];
      assert init + [last] == s;
    }
  }

  /** Two-digit, zero-padded rendering of a number below 100. */
  function Pad2(n: nat): (s: string)
    requires n < 100
    ensures |s| == 2 && IsDigits(s)
  {
    [DigitChar(n / 10), DigitChar(n % 10)]
  }

  /** `int(str(n)) == n`. */
  lemma {:induction false} ParseDigitsOfDigits(n: nat)
    ensures ParseDigits(Digits(n)) == n
  {
    if n >= 10 {
      var s := Digits(n);
      assert s[..|s| - 1] == Digits(n / 10);
      ParseDigitsOfDigits(n / 10);
    }
  }

  /** `int` of a zero-padded two-digit rendering is the number itself. */
  lemma ParseDigitsOfPad2(n: nat)
    requires n < 100
    ensures ParseDigits(Pad2(n)) == n
  {
    var s := Pad2(n);
    assert s[..1] == [DigitChar(n / 10)];
    assert ParseDigits(s[..1]) == n / 10 by {
      assert s[..1][..0] == [];
    }
  }
}
