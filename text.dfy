/** The string operations the key-file parser and the time formatter use:
    `str.split`, `str.rstrip("\n")`, `startswith`/`endswith` and decimal rendering of integers. */
module Text {
  import opened Wrappers

  predicate StartsWith(s: string, prefix: string)
  {
    |prefix| <= |s| && s[..|prefix|] == prefix
  }

  predicate EndsWith(s: string, suffix: string)
  {
    |suffix| <= |s| && s[|s| - |suffix|..] == suffix
  }

  /** `sep` occurs in `s` starting at index `k`. */
  predicate OccursAt(s: string, sep: string, k: nat)
  {
    k + |sep| <= |s| && s[k..k + |sep|] == sep
  }

  lemma OccursShift(s: string, sep: string)
    requires |s| > 0
    ensures forall k: nat :: 1 <= k ==> (OccursAt(s, sep, k) <==> OccursAt(s[1..], sep, k - 1))
  {
    forall k: nat | 1 <= k
      ensures OccursAt(s, sep, k) <==> OccursAt(s[1..], sep, k - 1)
    {
      if k + |sep| <= |s| {
        assert s[1..][k - 1..k - 1 + |sep|] == s[k..k + |sep|];
      }
    }
  }

  /** `s.find(sep)`: the first index at which `sep` occurs in `s`, if any. */
  function Find(s: string, sep: string): (r: Option<nat>)
    requires |sep| > 0
    ensures r.Some? ==> OccursAt(s, sep, r.value)
    ensures r.Some? ==> forall k: nat :: k < r.value ==> !OccursAt(s, sep, k)
    ensures r.None? ==> forall k: nat :: !OccursAt(s, sep, k)
    decreases |s|
  {
    if |s| < |sep| then None
    else if s[..|sep|] == sep then Some(0)
    else
      assert !OccursAt(s, sep, 0);
      OccursShift(s, sep);
      match Find(s[1..], sep)
      case None => None
      case Some(k) => Some(k + 1)
  }

  /** `s.split(sep)` for a non-empty separator: the pieces between the occurrences of `sep`,
      scanning left to right. */
  function Split(s: string, sep: string): (r: seq<string>)
    requires |sep| > 0
    ensures |r| >= 1
    decreases |s|
  {
    match Find(s, sep)
    case None => [s]
    case Some(k) => [s[..k]] + Split(s[k + |sep|..], sep)
  }

  /** `sep.join(parts)`. */
  function Join(parts: seq<string>, sep: string): string
    requires |parts| >= 1
  {
    if |parts| == 1 then parts[0] else parts[0] + sep + Join(parts[1..], sep)
  }

  /** Splitting loses nothing: joining the pieces with the separator gives back the string. */
  lemma {:induction false} JoinSplit(s: string, sep: string)
    requires |sep| > 0
    ensures Join(Split(s, sep), sep) == s
    decreases |s|
  {
    var f := Find(s, sep);
    if f.Some? {
      var k := f.value;
      var rest := s[k + |sep|..];
      var tail := Split(rest, sep);
      var r := Split(s, sep);
      assert r == [s[..k]] + tail;
      JoinSplit(rest, sep);
      assert Join(r, sep) == s[..k] + sep + Join(tail, sep) by {
        assert r[1..] == tail;
      }
      assert s == s[..k] + sep + rest by {
        assert s[k..k + |sep|] == sep;
      }
    }
  }

  /** No piece of a split contains the separator. */
  lemma {:induction false} SplitPiecesFree(s: string, sep: string)
    requires |sep| > 0
    ensures forall i, k :: 0 <= i < |Split(s, sep)| && 0 <= k ==> !OccursAt(Split(s, sep)[i], sep, k)
    decreases |s|
  {
    var r := Split(s, sep);
    match Find(s, sep)
    case None =>
    case Some(k) =>
      var rest := s[k + |sep|..];
      SplitPiecesFree(rest, sep);
      assert r[1..] == Split(rest, sep);
      forall j | 0 <= j
        ensures !OccursAt(r[0], sep, j)
      {
        if OccursAt(r[0], sep, j) {
          assert s[..k][j..j + |sep|] == s[j..j + |sep|];
          assert OccursAt(s, sep, j);
        }
      }
      forall i, j | 0 <= i < |r| && 0 <= j
        ensures !OccursAt(r[i], sep, j)
      {
        if i > 0 {
          assert r[i] == Split(rest, sep)[i - 1];
        }
      }
  }

  /** Splitting on a one-character separator that does not occur in `a` cuts exactly after `a`. */
  lemma {:induction false} SplitAfterWord(a: string, c: char, b: string)
    requires c !in a
    ensures Split(a + [c] + b, [c]) == [a] + Split(b, [c])
  {
    var s := a + [c] + b;
    FindAfterWord(a, c, b);
    assert s[|a| + 1..] == b;
    assert s[..|a|] == a;
  }

  /** A string without the one-character separator splits into itself. */
  lemma SplitWithoutSeparator(a: string, c: char)
    requires c !in a
    ensures Split(a, [c]) == [a]
  {
    forall k: nat | k < |a|
      ensures !OccursAt(a, [c], k)
    {
      assert a[k..k + 1] == [a[k]];
      assert a[k] in a;
    }
  }

  lemma {:induction false} FindAfterWord(a: string, c: char, b: string)
    requires c !in a
    ensures Find(a + [c] + b, [c]) == Some(|a|)
    decreases |a|
  {
    var s := a + [c] + b;
    if a != [] {
      assert s[..1] != [c] by {
        assert s[..1][0] == a[0];
      }
      assert s[1..] == a[1..] + [c] + b;
      FindAfterWord(a[1..], c, b);
    } else {
      assert s[..1] == [c];
    }
  }

  /** `s.rstrip("\n")`. */
  function RStripNewlines(s: string): (r: string)
    ensures |r| <= |s| && s[..|r|] == r
    ensures forall i :: |r| <= i < |s| ==> s[i] == '\n'
    ensures r == [] || r[|r| - 1] != '\n'
  {
    if s != [] && s[|s| - 1] == '\n' then RStripNewlines(s[..|s| - 1]) else s
  }

  function DigitChar(d: nat): (c: char)
    requires d < 10
    ensures '0' <= c <= '9'
  {
    (('0' as int) + d) as char
  }

  predicate AllDigits(s: string)
  {
    forall i :: 0 <= i < |s| ==> '0' <= s[i] <= '9'
  }

  /** `str(n)` for a natural number. */
  function NatToDecimal(n: nat): (r: string)
    ensures |r| >= 1
    ensures AllDigits(r)
    decreases n
  {
    if n < 10 then [DigitChar(n)] else NatToDecimal(n / 10) + [DigitChar(n % 10)]
  }

  /** `str(i)` for any integer: a minus sign before the digits of a negative value. */
  function IntToDecimal(i: int): (r: string)
    ensures |r| >= 1
    ensures ' ' !in r
  {
    if i < 0 then "-" + NatToDecimal(-i) else NatToDecimal(i)
  }

  function DigitValue(c: char): (d: nat)
    requires '0' <= c <= '9'
    ensures d < 10
  {
    (c as int) - ('0' as int)
  }

  /** `int(s)` for a string of decimal digits. */
  function DecimalValue(s: string): (n: nat)
    requires AllDigits(s)
  {
    if s == [] then 0 else 10 * DecimalValue(s[..|s| - 1]) + DigitValue(s[|s| - 1])
  }

  /** `int(str(n)) == n`. */
  lemma {:induction false} DecimalRoundTrip(n: nat)
    ensures DecimalValue(NatToDecimal(n)) == n
    decreases n
  {
    var s := NatToDecimal(n);
    if n >= 10 {
      var q, d := n / 10, n % 10;
      DecimalRoundTrip(q);
      assert s == NatToDecimal(q) + [DigitChar(d)];
      assert s[..|s| - 1] == NatToDecimal(q);
      assert DigitValue(s[|s| - 1]) == d;
      assert DecimalValue(s) == 10 * q + d;
    } else {
      assert s[..|s| - 1] == [];
    }
  }

  /** `int(s)` for the output of IntToDecimal: an optional minus sign and digits. */
  function SignedDecimalValue(s: string): Option<int>
  {
    if |s| > 1 && s[0] == '-' && AllDigits(s[1..]) then
      var v: int := 0 - DecimalValue(s[1..]) as int;
      Some(v)
    else if s != [] && AllDigits(s) then
      Some(DecimalValue(s))
    else None
  }

  lemma SignedDecimalRoundTrip(i: int)
    ensures SignedDecimalValue(IntToDecimal(i)) == Some(i)
  {
    if i < 0 {
      NegativeDecimalRoundTrip(i);
    } else {
      var s := NatToDecimal(i);
      assert s[0] != '-';
      DecimalRoundTrip(i);
    }
  }

  lemma NegativeDecimalRoundTrip(i: int)
    requires i < 0
    ensures SignedDecimalValue(IntToDecimal(i)) == Some(i)
  {
    var n: nat := -i;
    var d := NatToDecimal(n);
    var s := "-" + d;
    assert IntToDecimal(i) == s;
    assert s[1..] == d;
    DecimalRoundTrip(n);
    assert |s| > 1 && s[0] == '-' && AllDigits(s[1..]);
    assert DecimalValue(s[1..]) == n;
  }
}
