/**
 * The string operations the deploy handler relies on: `str::ends_with`,
 * `str::replace(pattern, "")` and the decimal rendering of a `u64`.
 */
module Strings {
  import opened Wrappers

  /** Rust's `s.ends_with(suffix)`. */
  predicate EndsWith(s: string, suffix: string) {
    |suffix| <= |s| && s[|s| - |suffix|..] == suffix
  }

  /** `pat` occurs in `s` starting at index `i`. */
  predicate OccursAt(s: string, pat: string, i: int) {
    0 <= i && i + |pat| <= |s| && s[i..i + |pat|] == pat
  }

  predicate Occurs(s: string, pat: string) {
    exists i :: 0 <= i <= |s| - |pat| && OccursAt(s, pat, i)
  }

  /**
   * Rust's `s.replace(pat, "")`: scan left to right, drop every
   * non-overlapping occurrence of `pat`, keep every other character.
   */
  function DeleteAll(s: string, pat: string): (r: string)
    requires pat != []
    ensures |r| <= |s|
    decreases |s|
  {
    if |s| < |pat| then s
    else if s[..|pat|] == pat then DeleteAll(s[|pat|..], pat)
    else [s[0]] + DeleteAll(s[1..], pat)
  }

  lemma OccursShift(s: string, pat: string, i: int)
    requires |s| > 0 && OccursAt(s[1..], pat, i)
    ensures OccursAt(s, pat, i + 1)
  {
    assert s[i + 1..i + 1 + |pat|] == s[1..][i..i + |pat|];
  }

  /** Text without the pattern comes back unchanged. */
  lemma {:induction false} DeleteAllNoOccurrence(s: string, pat: string)
    requires pat != []
    requires !Occurs(s, pat)
    ensures DeleteAll(s, pat) == s
    decreases |s|
  {
    if |s| < |pat| {
    } else {
      assert !OccursAt(s, pat, 0);
      assert s[..|pat|] != pat;
      if OccursAt(s[1..], pat, 0) || Occurs(s[1..], pat) {
        var i :| OccursAt(s[1..], pat, i);
        OccursShift(s, pat, i);
        assert false;
      }
      DeleteAllNoOccurrence(s[1..], pat);
      assert s == [s[0]] + s[1..];
    }
  }

  /**
   * A character the pattern does not contain splits the scan in two:
   * no occurrence can straddle it.
   */
  lemma {:induction false} DeleteAllSeparator(a: string, c: char, b: string, pat: string)
    requires pat != [] && c !in pat
    ensures DeleteAll(a + [c] + b, pat) == DeleteAll(a, pat) + [c] + DeleteAll(b, pat)
    decreases |a|
  {
    var s := a + [c] + b;
    if |s| < |pat| {
      assert DeleteAll(a, pat) == a;
      assert DeleteAll(b, pat) == b;
    } else if |a| < |pat| {
      SeparatorShort(a, c, b, pat);
    } else {
      assert s[..|pat|] == a[..|pat|];
      if a[..|pat|] == pat {
        assert s[|pat|..] == a[|pat|..] + [c] + b;
        DeleteAllSeparator(a[|pat|..], c, b, pat);
      } else {
        assert s[1..] == a[1..] + [c] + b;
        DeleteAllSeparator(a[1..], c, b, pat);
      }
    }
  }

  /** The case of `DeleteAllSeparator` where the first window already reaches `c`. */
  lemma {:induction false} SeparatorShort(a: string, c: char, b: string, pat: string)
    requires pat != [] && c !in pat
    requires |a| < |pat| <= |a| + 1 + |b|
    ensures DeleteAll(a + [c] + b, pat) == DeleteAll(a, pat) + [c] + DeleteAll(b, pat)
    decreases |a|
  {
    var s := a + [c] + b;
    assert s[..|pat|][|a|] == c;
    assert s[..|pat|] != pat;
    assert DeleteAll(s, pat) == [s[0]] + DeleteAll(s[1..], pat);
    assert DeleteAll(a, pat) == a;
    if |a| == 0 {
      assert s[1..] == b;
    } else {
      assert s[1..] == a[1..] + [c] + b;
      if |pat| <= |a| + |b| {
        SeparatorShort(a[1..], c, b, pat);
      } else {
        assert DeleteAll(b, pat) == b;
      }
      assert DeleteAll(a[1..], pat) == a[1..];
      assert a == [a[0]] + a[1..];
    }
  }

  /**
   * When the pattern's first character occurs nowhere else in it, an
   * occurrence at the very end is removed on its own, whatever precedes it.
   */
  lemma {:induction false} DeleteAllSuffix(x: string, pat: string)
    requires pat != [] && pat[0] !in pat[1..]
    ensures DeleteAll(x + pat, pat) == DeleteAll(x, pat)
    decreases |x|
  {
    var s := x + pat;
    if |x| == 0 {
      assert s == pat;
      assert s[|pat|..] == [];
    } else if |x| < |pat| {
      assert s[|x|] == pat[0];
      assert pat[|x|] == pat[1..][|x| - 1];
      assert s[..|pat|] != pat;
      assert s[1..] == x[1..] + pat;
      DeleteAllSuffix(x[1..], pat);
      assert DeleteAll(x, pat) == x;
      assert DeleteAll(x[1..], pat) == x[1..];
      assert x == [x[0]] + x[1..];
    } else {
      assert s[..|pat|] == x[..|pat|];
      if x[..|pat|] == pat {
        assert s[|pat|..] == x[|pat|..] + pat;
        DeleteAllSuffix(x[|pat|..], pat);
      } else {
        assert s[1..] == x[1..] + pat;
        DeleteAllSuffix(x[1..], pat);
      }
    }
  }

  /** No occurrence can start inside a prefix that lacks the pattern's first character. */
  lemma {:induction false} DeleteAllKeepsPrefix(w: string, s: string, pat: string)
    requires pat != [] && pat[0] !in w
    ensures DeleteAll(w + s, pat) == w + DeleteAll(s, pat)
    decreases |w|
  {
    if w == [] {
      assert w + s == s;
    } else {
      var x := w + s;
      if |x| < |pat| {
        assert DeleteAll(s, pat) == s;
      } else {
        assert x[..|pat|][0] == w[0];
        assert x[1..] == w[1..] + s;
        DeleteAllKeepsPrefix(w[1..], s, pat);
        assert w == [w[0]] + w[1..];
      }
    }
  }

  lemma DeleteAllDropsPrefix(s: string, pat: string)
    requires pat != []
    ensures DeleteAll(pat + s, pat) == DeleteAll(s, pat)
  {
    assert (pat + s)[..|pat|] == pat && (pat + s)[|pat|..] == s;
  }

  // ---------------------------------------------------------------- decimal

  predicate IsDigit(c: char) {
    '0' <= c <= '9'
  }

  predicate AllDigits(s: string) {
    forall i :: 0 <= i < |s| ==> IsDigit(s[i])
  }

  function DigitChar(d: nat): (c: char)
    requires d < 10
    ensures IsDigit(c) && c as int - '0' as int == d
  {
    ('0' as int + d) as char
  }

  /** How `format!("{}", n)` renders an unsigned integer: no sign, no leading zero. */
  function Decimal(n: nat): (r: string)
    ensures |r| >= 1 && AllDigits(r)
    ensures r[0] == '0' ==> n == 0
  {
    if n < 10 then [DigitChar(n)] else Decimal(n / 10) + [DigitChar(n % 10)]
  }

  /** The reading of a digit string, the inverse of `Decimal`. */
  function ParseDecimal(s: string): nat
    requires AllDigits(s)
  {
    if s == [] then 0
    else ParseDecimal(s[..|s| - 1]) * 10 + (s[|s| - 1] as int - '0' as int)
  }

  lemma {:induction false} DecimalRoundTrip(n: nat)
    ensures ParseDecimal(Decimal(n)) == n
  {
    if n >= 10 {
      var d := Decimal(n / 10) + [DigitChar(n % 10)];
      assert d[..|d| - 1] == Decimal(n / 10);
      DecimalRoundTrip(n / 10);
    }
  }

  // ------------------------------------------------------ last separator

  /** Index of the last `c` in `s`. */
  function LastIndexOf(s: string, c: char): (r: Option<nat>)
    ensures r.Some? ==> r.value < |s| && s[r.value] == c && c !in s[r.value + 1..]
    ensures r.None? ==> c !in s
  {
    if s == [] then None
    else if s[|s| - 1] == c then Some(|s| - 1)
    else
      var r := LastIndexOf(s[..|s| - 1], c);
      assert s == s[..|s| - 1] + [s[|s| - 1]];
      if r.Some? then
        assert s[r.value + 1..] == s[..|s| - 1][r.value + 1..] + [s[|s| - 1]];
        r
      else r
  }
}
