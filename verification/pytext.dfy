/** The pieces of Python's string behaviour the interpreter relies on:
    `str()` of an integer and of a tuple of integers, `str.replace(old, new, 1)`,
    and counting a character. */
module PyText {
  import opened Wrappers

  predicate IsDigit(c: char) {
    '0' <= c <= '9'
  }

  function DigitChar(d: nat): (c: char)
    requires d < 10
    ensures IsDigit(c) && c as int - '0' as int == d
  {
    (d + '0' as int) as char
  }

  /** `str(n)` for a non-negative integer: its decimal digits, no leading zero. */
  function NatToString(n: nat): (s: string)
    ensures |s| > 0
    ensures forall t :: 0 <= t < |s| ==> IsDigit(s[t])
    ensures |s| > 1 ==> s[0] != '0'
    ensures n < 10 <==> |s| == 1
  {
    if n < 10 then [DigitChar(n)] else NatToString(n / 10) + [DigitChar(n % 10)]
  }

  /** The number a string of decimal digits denotes. */
  function DecimalValue(s: string): nat
    requires forall t :: 0 <= t < |s| ==> IsDigit(s[t])
  {
    if s == [] then 0
    else
      assert IsDigit(s[|s| - 1]);
      DecimalValue(s[..|s| - 1]) * 10 + (s[|s| - 1] as int - '0' as int)
  }

  /** Reading back the digits `str(n)` writes gives `n`. */
  lemma {:induction false} DecimalRoundTrip(n: nat)
    ensures DecimalValue(NatToString(n)) == n
  {
    if n >= 10 {
      DecimalRoundTrip(n / 10);
      var s := NatToString(n);
      assert s[..|s| - 1] == NatToString(n / 10);
    }
  }

  /** `str(n)` for any integer: a '-' before the digits of a negative one. */
  function IntToString(n: int): (s: string)
    ensures n < 0 ==> s == "-" + NatToString(-n)
    ensures 0 <= n ==> s == NatToString(n)
    ensures '$' !in s
  {
    assert forall c :: c in NatToString(if n < 0 then -n else n) ==> IsDigit(c);
    if n < 0 then "-" + NatToString(-n) else NatToString(n)
  }

  /** The comma-and-space separated items of a tuple's text. */
  function ItemsToString(xs: seq<int>): (s: string)
    requires |xs| > 0
    ensures '$' !in s
  {
    if |xs| == 1 then IntToString(xs[0]) else IntToString(xs[0]) + ", " + ItemsToString(xs[1..])
  }

  /** `str(t)` for a tuple of integers: "()", "(a,)" or "(a, b, ...)". */
  function TupleToString(xs: seq<int>): (s: string)
    ensures |s| >= 2 && s[0] == '(' && s[|s| - 1] == ')'
    ensures |xs| == 1 ==> s == "(" + IntToString(xs[0]) + ",)"
    ensures '$' !in s
  {
    if |xs| == 0 then "()"
    else if |xs| == 1 then "(" + IntToString(xs[0]) + ",)"
    else "(" + ItemsToString(xs) + ")"
  }

  /** Number of occurrences of `c` in `s`. */
  function Count(c: char, s: string): nat
  {
    if s == [] then 0 else Count(c, s[..|s| - 1]) + (if s[|s| - 1] == c then 1 else 0)
  }

  lemma {:induction false} CountAppend(c: char, a: string, b: string)
    ensures Count(c, a + b) == Count(c, a) + Count(c, b)
  {
    if b == [] {
      assert a + b == a;
    } else {
      CountAppend(c, a, b[..|b| - 1]);
      assert (a + b)[..|a + b| - 1] == a + b[..|b| - 1];
      assert (a + b)[|a + b| - 1] == b[|b| - 1];
    }
  }

  lemma {:induction false} CountAbsent(c: char, s: string)
    ensures Count(c, s) == 0 <==> c !in s
  {
    if s != [] {
      CountAbsent(c, s[..|s| - 1]);
      assert s == s[..|s| - 1] + [s[|s| - 1]];
    }
  }

  /** `pat` occurs in `s` starting at index `j`. */
  predicate OccursAt(s: string, pat: string, j: nat) {
    j + |pat| <= |s| && s[j..j + |pat|] == pat
  }

  /** `s.find(pat, i)`: the first index at or after `i` where `pat` occurs. */
  function IndexOfFrom(s: string, pat: string, i: nat): (r: Option<nat>)
    ensures r.Some? ==> i <= r.value && OccursAt(s, pat, r.value)
    ensures forall j :: i <= j && OccursAt(s, pat, j) ==> r.Some? && r.value <= j
    decreases |s| - i
  {
    if i + |pat| > |s| then None
    else if s[i..i + |pat|] == pat then Some(i)
    else IndexOfFrom(s, pat, i + 1)
  }

  /** `s.replace(pat, rep, 1)`: the first occurrence of `pat`, if any, becomes `rep`. */
  function ReplaceFirst(s: string, pat: string, rep: string): (r: string)
    ensures (forall j: nat :: !OccursAt(s, pat, j)) ==> r == s
    ensures forall j: nat :: OccursAt(s, pat, j) && (forall j': nat :: j' < j ==> !OccursAt(s, pat, j')) ==>
      r == s[..j] + rep + s[j + |pat|..]
  {
    match IndexOfFrom(s, pat, 0)
    case None => s
    case Some(j) => s[..j] + rep + s[j + |pat|..]
  }
}
