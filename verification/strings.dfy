/**
 String utilities the hub code relies on, with the meaning Python gives them:
 `str.startswith`, `str.join`, `str.split` on one character, `os.path.basename`,
 cutting at the first occurrence of a character, and decimal formatting of a
 non-negative integer.
 */
module Strings {

  /** Python's `s.startswith(p)`. */
  predicate StartsWith(s: string, p: string) {
    |p| <= |s| && s[..|p|] == p
  }

  /** Number of occurrences of `c` in `s`. */
  function CountChar(s: string, c: char): (n: nat)
    ensures n <= |s|
    ensures n == 0 <==> c !in s
  {
    if |s| == 0 then 0
    else (if s[0] == c then 1 else 0) + CountChar(s[1..], c)
  }

  lemma {:induction false} CountCharAppend(a: string, b: string, c: char)
    ensures CountChar(a + b, c) == CountChar(a, c) + CountChar(b, c)
  {
    if |a| == 0 {
      assert a + b == b;
    } else {
      assert (a + b)[1..] == a[1..] + b;
      CountCharAppend(a[1..], b, c);
    }
  }

  /* ---------------------------------------------------------------------- */
  /* Joining and splitting                                                  */
  /* ---------------------------------------------------------------------- */

  /** Python's `sep.join(parts)`: the parts in order, `sep` between neighbours. */
  function Join(parts: seq<string>, sep: string): string
  {
    if |parts| == 0 then ""
    else if |parts| == 1 then parts[0]
    else parts[0] + sep + Join(parts[1..], sep)
  }

  /** Total occurrences of `c` over all parts. */
  function CountInParts(parts: seq<string>, c: char): nat
  {
    if |parts| == 0 then 0 else CountChar(parts[0], c) + CountInParts(parts[1..], c)
  }

  /** Joining `n` parts with a one-character separator inserts exactly `n - 1`
      separators and nothing else. */
  lemma {:induction false} JoinCountsSeparators(parts: seq<string>, c: char)
    requires |parts| > 0
    ensures CountChar(Join(parts, [c]), c) == |parts| - 1 + CountInParts(parts, c)
  {
    if |parts| == 1 {
      assert parts[1..] == [];
    } else {
      JoinCountsSeparators(parts[1..], c);
      CountCharAppend(parts[0], [c], c);
      CountCharAppend(parts[0] + [c], Join(parts[1..], [c]), c);
    }
  }

  /** The text of `s` before the first `c`, or all of `s` when `c` does not
      occur (Python's `s.split(c)[0]`, equally `s.rsplit(c)[0]`). */
  function BeforeFirst(s: string, c: char): (r: string)
    ensures StartsWith(s, r)
    ensures c !in r
    ensures |r| < |s| ==> s[|r|] == c
    ensures |r| == |s| <==> c !in s
  {
    if |s| == 0 then ""
    else if s[0] == c then ""
    else [s[0]] + BeforeFirst(s[1..], c)
  }

  /** The three facts of `BeforeFirst`'s contract determine its result. */
  lemma {:induction false} BeforeFirstUnique(s: string, c: char, r: string)
    requires StartsWith(s, r) && c !in r && (|r| < |s| ==> s[|r|] == c)
    ensures r == BeforeFirst(s, c)
  {
    var b := BeforeFirst(s, c);
    assert |r| == |b|;
    assert r == s[..|r|] == b;
  }

  /** Python's `s.split(c)` for a one-character separator: always one more
      piece than there are occurrences of `c`. */
  function Split(s: string, c: char): (parts: seq<string>)
    ensures |parts| == CountChar(s, c) + 1
    ensures forall i :: 0 <= i < |parts| ==> c !in parts[i]
  {
    if |s| == 0 then [""]
    else
      var tail := Split(s[1..], c);
      if s[0] == c then [""] + tail
      else [[s[0]] + tail[0]] + tail[1..]
  }

  /** Splitting then joining on the same character gives back the text. */
  lemma {:induction false} JoinSplit(s: string, c: char)
    ensures Join(Split(s, c), [c]) == s
  {
    if |s| > 0 {
      var tail := Split(s[1..], c);
      JoinSplit(s[1..], c);
      if s[0] == c {
        assert ([""] + tail)[1..] == tail;
      } else {
        var parts := [[s[0]] + tail[0]] + tail[1..];
        if |tail| > 1 {
          assert parts[1..] == tail[1..];
        }
      }
    }
  }

  /** Text free of `c` at the front of `s` joins the first piece of the rest. */
  lemma {:induction false} SplitPrefix(a: string, rest: string, c: char)
    requires c !in a
    ensures Split(a + rest, c) == [a + Split(rest, c)[0]] + Split(rest, c)[1..]
  {
    if |a| > 0 {
      SplitPrefix(a[1..], rest, c);
      assert (a + rest)[1..] == a[1..] + rest;
      assert [a[0]] + (a[1..] + Split(rest, c)[0]) == a + Split(rest, c)[0];
    } else {
      assert a + rest == rest;
      var p := Split(rest, c);
      assert a + p[0] == p[0];
      assert p == [p[0]] + p[1..];
    }
  }

  /** A piece free of `c` followed by `c` splits off as one part. */
  lemma SplitAtSeparator(a: string, b: string, c: char)
    requires c !in a
    ensures Split(a + [c] + b, c) == [a] + Split(b, c)
  {
    SplitPrefix(a, [c] + b, c);
    assert ([c] + b)[1..] == b;
    var q := Split([c] + b, c);
    assert q == [""] + Split(b, c);
    assert a + q[0] == a;
    assert a + [c] + b == a + ([c] + b);
  }

  /** Joining parts free of `c` with `c`, then splitting on `c`, gives the
      parts back: the join is a faithful record of its pieces. */
  lemma {:induction false} SplitJoin(parts: seq<string>, c: char)
    requires |parts| > 0
    requires forall i :: 0 <= i < |parts| ==> c !in parts[i]
    ensures Split(Join(parts, [c]), c) == parts
  {
    if |parts| == 1 {
      SplitPrefix(parts[0], "", c);
      assert parts[0] + "" == parts[0];
    } else {
      SplitJoin(parts[1..], c);
      SplitAtSeparator(parts[0], Join(parts[1..], [c]), c);
      assert parts == [parts[0]] + parts[1..];
    }
  }

  /* ---------------------------------------------------------------------- */
  /* Path components                                                        */
  /* ---------------------------------------------------------------------- */

  predicate EndsWith(s: string, p: string) {
    |p| <= |s| && s[|s| - |p|..] == p
  }

  /** POSIX `os.path.basename`: the text after the last `/`, or all of `s`
      when it has no `/`. */
  function Basename(s: string): (r: string)
    ensures EndsWith(s, r)
    ensures '/' !in r
    ensures |r| < |s| ==> s[|s| - |r| - 1] == '/'
    ensures |r| == |s| <==> '/' !in s
  {
    if |s| == 0 then ""
    else if s[|s| - 1] == '/' then ""
    else Basename(s[..|s| - 1]) + [s[|s| - 1]]
  }

  /** The facts of `Basename`'s contract determine its result. */
  lemma {:induction false} BasenameUnique(s: string, r: string)
    requires EndsWith(s, r) && '/' !in r && (|r| < |s| ==> s[|s| - |r| - 1] == '/')
    ensures r == Basename(s)
  {
    var b := Basename(s);
    assert |r| == |b|;
    assert r == s[|s| - |r|..] == b;
  }

  /* ---------------------------------------------------------------------- */
  /* Decimal numerals                                                       */
  /* ---------------------------------------------------------------------- */

  const Digits: string := "0123456789"

  predicate IsDigit(ch: char) {
    '0' <= ch <= '9'
  }

  function DigitValue(ch: char): (d: nat)
    requires IsDigit(ch)
    ensures d < 10
  {
    (ch - '0') as nat
  }

  /** Python's `str(n)` / `'{0}'.format(n)` for `n >= 0`. */
  function Decimal(n: nat): (r: string)
    ensures |r| > 0
    ensures forall i :: 0 <= i < |r| ==> IsDigit(r[i])
    ensures r[0] == '0' ==> n == 0 && r == "0"
  {
    if n < 10 then [Digits[n]]
    else Decimal(n / 10) + [Digits[n % 10]]
  }

  /** Reads a string of digits as a base-10 number. */
  function ParseDecimal(s: string): nat
    requires forall i :: 0 <= i < |s| ==> IsDigit(s[i])
  {
    if |s| == 0 then 0
    else 10 * ParseDecimal(s[..|s| - 1]) + DigitValue(s[|s| - 1])
  }

  /** Reading back a formatted number gives the number. */
  lemma {:induction false} ParseDecimalOfDecimal(n: nat)
    ensures ParseDecimal(Decimal(n)) == n
  {
    var r := Decimal(n);
    if n >= 10 {
      ParseDecimalOfDecimal(n / 10);
      assert r[..|r| - 1] == Decimal(n / 10);
    }
  }

  /** Different numbers are formatted differently. */
  lemma DecimalInjective(m: nat, n: nat)
    requires m != n
    ensures Decimal(m) != Decimal(n)
  {
    ParseDecimalOfDecimal(m);
    ParseDecimalOfDecimal(n);
  }
}
