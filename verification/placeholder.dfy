/** The placeholder syntax of output-definition templates: the regular
    expression `\$\{(.*?)\}` (croo/croo.py:27), a '$', a '{', the shortest run of
    characters other than a line break, and a '}'. `Search` is `re.search` with
    that pattern: the leftmost match. */
module Placeholder {
  import opened Wrappers
  import opened PyText

  /** A `${...}` occurrence: `start` indexes its '$', `close` its '}'. */
  datatype Match = Match(start: nat, close: nat)

  /** `q` holds the first '}' at or after `i`, with no line break before it:
      where the lazy `(.*?)\}` started at `i` stops. */
  predicate ClosesAt(s: string, i: nat, q: nat) {
    i <= q < |s| && s[q] == '}' && forall t :: i <= t < q ==> s[t] != '}' && s[t] != '\n'
  }

  /** The pattern matches `s` at `p`, the match ending with the '}' at `q`. */
  predicate IsMatch(s: string, p: nat, q: nat) {
    p + 1 < |s| && s[p] == '$' && s[p + 1] == '{' && ClosesAt(s, p + 2, q)
  }

  /** The '}' that ends a lazy match begun at `i`, if the line has one. */
  function CloseFrom(s: string, i: nat): (r: Option<nat>)
    ensures r.Some? ==> ClosesAt(s, i, r.value)
    decreases |s| - i
  {
    if i >= |s| then None
    else if s[i] == '}' then Some(i)
    else if s[i] == '\n' then None
    else CloseFrom(s, i + 1)
  }

  /** A lazy match begun at `i` has only one possible end, and CloseFrom finds it. */
  lemma {:induction false} CloseFromComplete(s: string, i: nat, q: nat)
    requires ClosesAt(s, i, q)
    ensures CloseFrom(s, i) == Some(q)
    decreases |s| - i
  {
    if i < q {
      CloseFromComplete(s, i + 1, q);
    }
  }

  /** The leftmost match at or after `p`. */
  function SearchFrom(s: string, p: nat): (r: Option<Match>)
    ensures r.Some? ==> p <= r.value.start && IsMatch(s, r.value.start, r.value.close)
    decreases |s| - p
  {
    if p + 1 >= |s| then None
    else if s[p] == '$' && s[p + 1] == '{' then
      match CloseFrom(s, p + 2)
      case Some(q) => Some(Match(p, q))
      case None => SearchFrom(s, p + 1)
    else SearchFrom(s, p + 1)
  }

  /** SearchFrom misses no match: it stops at or before any match it passes. */
  lemma {:induction false} SearchFromComplete(s: string, p: nat, p': nat, q: nat)
    requires p <= p' && IsMatch(s, p', q)
    ensures SearchFrom(s, p).Some? && SearchFrom(s, p).value.start <= p'
    decreases |s| - p
  {
    if p == p' {
      CloseFromComplete(s, p + 2, q);
    } else if !(s[p] == '$' && s[p + 1] == '{' && CloseFrom(s, p + 2).Some?) {
      SearchFromComplete(s, p + 1, p', q);
    }
  }

  /** `re.search(RE_PATTERN_INLINE_EXP, s)`: the leftmost match, or none at all
      (the leftmost and none-at-all halves are `SearchLeftmost` and `SearchNone`). */
  function Search(s: string): (r: Option<Match>)
    ensures r.Some? ==> IsMatch(s, r.value.start, r.value.close)
  {
    SearchFrom(s, 0)
  }

  /** Every match of the pattern lies at or after the one Search returns. */
  lemma SearchLeftmost(s: string, p: nat, q: nat)
    requires IsMatch(s, p, q)
    ensures Search(s).Some? && Search(s).value.start <= p
  {
    SearchFromComplete(s, 0, p, q);
  }

  /** Search finds nothing exactly when the pattern matches nowhere. */
  lemma SearchNone(s: string)
    ensures Search(s).None? <==> forall p: nat, q: nat :: !IsMatch(s, p, q)
  {
    forall p: nat, q: nat | IsMatch(s, p, q) ensures Search(s).Some? {
      SearchLeftmost(s, p, q);
    }
  }

  /** `m.group(0)`: the whole `${...}` text. */
  function Whole(s: string, m: Match): string
    requires IsMatch(s, m.start, m.close)
  {
    s[m.start..m.close + 1]
  }

  /** `m.group(1)`: the expression between the braces. */
  function Expr(s: string, m: Match): string
    requires IsMatch(s, m.start, m.close)
  {
    s[m.start + 2..m.close]
  }

  /** A match that nothing to its left precedes is the one `Search` returns. */
  lemma SearchFindsLeftmost(s: string, p: nat, q: nat)
    requires IsMatch(s, p, q)
    requires forall p': nat, q': nat :: p' < p ==> !IsMatch(s, p', q')
    ensures Search(s) == Some(Match(p, q))
  {
    SearchLeftmost(s, p, q);
    var m := Search(s).value;
    assert m.start == p;
    assert ClosesAt(s, p + 2, m.close);
  }

  /** Text without a '$' holds no placeholder. */
  lemma NoDollarNoMatch(s: string)
    requires '$' !in s
    ensures Search(s) == None
  {
    forall p: nat, q: nat ensures !IsMatch(s, p, q) {
      if p < |s| {
        assert s[p] in s;
      }
    }
    SearchNone(s);
  }

  /** A template that starts with a placeholder naming `x` (no '}' or line break
      in `x`) matches there, whatever follows. */
  lemma PlaceholderAtFront(x: string, rest: string)
    requires '}' !in x && '\n' !in x
    ensures Search("${" + x + "}" + rest) == Some(Match(0, |x| + 2))
  {
    var s := "${" + x + "}" + rest;
    forall t | 2 <= t < |x| + 2 ensures s[t] != '}' && s[t] != '\n' {
      assert s[t] == x[t - 2];
      assert x[t - 2] in x;
    }
    assert IsMatch(s, 0, |x| + 2);
    SearchFindsLeftmost(s, 0, |x| + 2);
  }

  /** A '$'-free prefix shifts every match of the rest and adds none of its own. */
  lemma SearchShift(a: string, r: string)
    requires '$' !in a
    ensures Search(a + r) == match Search(r)
      case None => None
      case Some(m) => Some(Match(m.start + |a|, m.close + |a|))
  {
    var s := a + r;
    forall p: nat, q: nat | p < |a| ensures !IsMatch(s, p, q) {
      assert s[p] == a[p];
      assert a[p] in a;
    }
    forall p: nat, q: nat ensures IsMatch(s, p + |a|, q + |a|) <==> IsMatch(r, p, q) {
      if IsMatch(r, p, q) {
        forall t | p + 2 + |a| <= t < q + |a| ensures s[t] != '}' && s[t] != '\n' {
          assert s[t] == r[t - |a|];
        }
      }
      if IsMatch(s, p + |a|, q + |a|) {
        forall t | p + 2 <= t < q ensures r[t] != '}' && r[t] != '\n' {
          assert s[t + |a|] == r[t];
        }
      }
    }
    SearchNone(r);
    SearchNone(s);
    match Search(r)
    case None =>
      forall p: nat, q: nat ensures !IsMatch(s, p, q) {
        if |a| <= p && |a| <= q {
          assert !IsMatch(r, p - |a|, q - |a|);
        }
      }
    case Some(m) =>
      assert IsMatch(s, m.start + |a|, m.close + |a|);
      forall p': nat, q': nat | p' < m.start + |a| ensures !IsMatch(s, p', q') {
        if |a| <= p' && |a| <= q' && IsMatch(r, p' - |a|, q' - |a|) {
          SearchLeftmost(r, p' - |a|, q' - |a|);
        }
      }
      SearchFindsLeftmost(s, m.start + |a|, m.close + |a|);
  }

  /** `str.replace(m.group(0), v, 1)` rewrites exactly the leftmost match: an
      earlier copy of the same text would itself have been an earlier match. */
  lemma {:induction false} ReplaceFirstIsLeftmost(s: string, m: Match, v: string)
    requires Search(s) == Some(m)
    ensures ReplaceFirst(s, Whole(s, m), v) == s[..m.start] + v + s[m.close + 1..]
  {
    var w := Whole(s, m);
    var n := |w|;
    assert OccursAt(s, w, m.start);
    forall j: nat | j < m.start ensures !OccursAt(s, w, j) {
      if OccursAt(s, w, j) {
        assert s[j..j + n] == w;
        assert s[j] == w[0] == s[m.start];
        assert s[j + 1] == w[1] == s[m.start + 1];
        assert s[j + n - 1] == w[n - 1] == s[m.close];
        forall t | j + 2 <= t < j + n - 1 ensures s[t] != '}' && s[t] != '\n' {
          assert s[t] == w[t - j] == s[m.start + (t - j)];
        }
        assert IsMatch(s, j, j + n - 1);
        SearchLeftmost(s, j, j + n - 1);
        assert false;
      }
    }
  }
}
