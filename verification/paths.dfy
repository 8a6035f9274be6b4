/** POSIX path helpers with the semantics of Python's `posixpath`:
    `os.path.basename`, `os.path.dirname` and the two-argument `os.path.join`
    used by croo/croo.py. */
module Paths {

  predicate AllSlashes(s: string) {
    forall t :: 0 <= t < |s| ==> s[t] == '/'
  }

  predicate IsAbsolute(p: string) {
    |p| > 0 && p[0] == '/'
  }

  /** The index just past the last '/' of `p`, or 0 when `p` has none: where
      posixpath splits a path into its head and its tail. */
  function SplitPoint(p: string): (i: nat)
    ensures i <= |p|
    ensures 0 < i ==> p[i - 1] == '/'
    ensures forall t :: i <= t < |p| ==> p[t] != '/'
  {
    if |p| == 0 then 0
    else if p[|p| - 1] == '/' then |p|
    else SplitPoint(p[..|p| - 1])
  }

  /** The two facts SplitPoint ensures determine it: any index with them is it. */
  lemma SplitPointUnique(p: string, i: nat)
    requires i <= |p|
    requires 0 < i ==> p[i - 1] == '/'
    requires forall t :: i <= t < |p| ==> p[t] != '/'
    ensures SplitPoint(p) == i
  {
  }

  /** Drops every trailing '/' (Python's `rstrip('/')`). */
  function StripTrailingSlashes(s: string): (r: string)
    ensures r <= s
    ensures AllSlashes(s[|r|..])
    ensures r == [] || r[|r| - 1] != '/'
  {
    if |s| > 0 && s[|s| - 1] == '/' then StripTrailingSlashes(s[..|s| - 1]) else s
  }

  /** `os.path.basename`: the final segment of `p`, after its last '/'. */
  function Basename(p: string): (b: string)
    ensures |b| <= |p| && p[|p| - |b|..] == b
    ensures '/' !in b
    ensures '/' in p ==> p[|p| - |b| - 1] == '/'
    ensures '/' !in p ==> b == p
  {
    var i := SplitPoint(p);
    assert forall c :: c in p[i..] ==> c != '/';
    assert 0 < i ==> p[i - 1] in p;
    p[i..]
  }

  /** `os.path.dirname`: everything before the final segment, with the
      separating slashes dropped unless the head is nothing but slashes. */
  function Dirname(p: string): (d: string)
    ensures d <= p
    ensures |d| + |Basename(p)| <= |p|
    ensures AllSlashes(p[|d|..|p| - |Basename(p)|])
    ensures '/' !in p <==> d == []
    ensures d == [] || AllSlashes(d) || d[|d| - 1] != '/'
    ensures AllSlashes(p[..|p| - |Basename(p)|]) ==> d == p[..|p| - |Basename(p)|]
  {
    var i := SplitPoint(p);
    var head := p[..i];
    if head != [] && !AllSlashes(head) then
      var d := StripTrailingSlashes(head);
      assert p[|d|..i] == head[|d|..];
      d
    else
      assert head != [] ==> head[i - 1] in p;
      head
  }

  /** `os.path.join(a, b)` for two components: an absolute `b` discards `a`;
      otherwise one '/' is inserted unless `a` is empty or already ends with one. */
  function Join(a: string, b: string): (r: string)
    ensures |b| <= |r| && r[|r| - |b|..] == b
    ensures IsAbsolute(b) ==> r == b
    ensures !IsAbsolute(b) ==> a <= r && |a| + |b| <= |r| <= |a| + 1 + |b| && AllSlashes(r[|a|..|r| - |b|])
    ensures !IsAbsolute(b) && a != [] ==> |b| < |r| && r[|r| - |b| - 1] == '/'
    // a '/' is inserted exactly when `a` is non-empty and does not already end in one
    ensures !IsAbsolute(b) ==> (|r| == |a| + |b| <==> a == [] || a[|a| - 1] == '/')
  {
    if IsAbsolute(b) then b
    else if a == [] || a[|a| - 1] == '/' then a + b
    else a + "/" + b
  }

  /** Joining never changes the final segment: the file keeps its base name. */
  lemma {:induction false} BasenameOfJoin(a: string, b: string)
    ensures Basename(Join(a, b)) == Basename(b)
  {
    var r := Join(a, b);
    var i := SplitPoint(b);
    var k := |r| - |b|;
    assert r[k..] == b;
    if 0 < i {
      assert r[k + i - 1] == b[i - 1];
      forall t | k + i <= t < |r| ensures r[t] != '/' {
        assert r[t] == b[t - k];
      }
      SplitPointUnique(r, k + i);
      assert r[k + i..] == b[i..];
    } else if k == 0 {
      assert r == b;
    } else {
      assert r[k - 1] == '/';
      forall t | k <= t < |r| ensures r[t] != '/' {
        assert r[t] == b[t - k];
      }
      SplitPointUnique(r, k);
    }
  }

  /** A path built as `head + "/" + name` with a slash-free name has that name as its base name. */
  lemma BasenameOfSplit(head: string, name: string)
    requires '/' !in name
    ensures Basename(head + "/" + name) == name
  {
    var p := head + "/" + name;
    forall t | |head| + 1 <= t < |p| ensures p[t] != '/' {
      assert p[t] == name[t - |head| - 1];
    }
    SplitPointUnique(p, |head| + 1);
    assert p[|head| + 1..] == name;
  }
}
