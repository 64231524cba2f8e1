/** Sequence helpers: distinctness and the stable split of a sequence by a
    per-entry flag, which is what a remove-while-iterating scan computes. */
module Seqs {

  /** No entry occurs twice: the last entry is not among the earlier ones,
      and the earlier ones have no repetitions either. */
  predicate Distinct<T(==)>(s: seq<T>)
    decreases |s|
  {
    |s| == 0 || (s[|s| - 1] !in s[..|s| - 1] && Distinct(s[..|s| - 1]))
  }

  /** Two positions of a sequence without repetitions hold different entries. */
  lemma {:induction false} DistinctAt<T>(s: seq<T>, a: nat, b: nat)
    requires Distinct(s) && a < b < |s|
    ensures s[a] != s[b]
    decreases |s|
  {
    var p := s[..|s| - 1];
    if b == |s| - 1 {
      assert p[a] == s[a];
    } else {
      DistinctAt(p, a, b);
    }
  }

  /** The entries among the first `n` of `s` whose flag equals `b`, in their
      original order. */
  function Select<T>(s: seq<T>, flags: seq<bool>, n: nat, b: bool): (r: seq<T>)
    requires n <= |s| == |flags|
    ensures |r| <= n
    decreases n
  {
    if n == 0 then []
    else Select(s, flags, n - 1, b) + (if flags[n - 1] == b then [s[n - 1]] else [])
  }

  /** One step of a scan over `s` that keeps the entries flagged `false`
      in `rest` and splices the others out: `rest` holds the kept ones among
      the first `j` entries, then the unvisited suffix. */
  lemma ScanStep<T>(rest: seq<T>, i: nat, s: seq<T>, flags: seq<bool>, j: nat)
    requires |flags| == |s| && j < |s| && i < |rest|
    requires rest[..i] == Select(s, flags, j, false)
    requires rest[i..] == s[j..]
    ensures rest[i] == s[j]
    ensures flags[j] ==> var r := rest[..i] + rest[i + 1..];
              r[..i] == Select(s, flags, j + 1, false) && r[i..] == s[j + 1..]
    ensures !flags[j] ==> rest[..i + 1] == Select(s, flags, j + 1, false) && rest[i + 1..] == s[j + 1..]
  {
    assert rest[i] == rest[i..][0] == s[j..][0];
    if flags[j] {
      var r := rest[..i] + rest[i + 1..];
      assert r[..i] == rest[..i];
      assert r[i..] == rest[i + 1..] == rest[i..][1..] == s[j..][1..];
    } else {
      assert rest[..i + 1] == rest[..i] + [rest[i]];
      assert rest[i + 1..] == rest[i..][1..] == s[j..][1..];
    }
  }

  /** An entry is selected iff it sits at one of the first `n` positions and
      its flag there is `b`. */
  lemma {:induction false} SelectMembers<T>(s: seq<T>, flags: seq<bool>, n: nat, b: bool, x: T)
    requires n <= |s| == |flags|
    ensures x in Select(s, flags, n, b) <==> exists k :: 0 <= k < n && s[k] == x && flags[k] == b
    decreases n
  {
    if n > 0 {
      SelectMembers(s, flags, n - 1, b, x);
    }
  }

  /** The two selections together are exactly as long as the prefix they
      split: with `SelectMembers` and `SelectDistinct`, every entry of a
      sequence without repetitions lands in exactly one of them. */
  lemma {:induction false} SelectSizes<T>(s: seq<T>, flags: seq<bool>, n: nat)
    requires n <= |s| == |flags|
    ensures |Select(s, flags, n, true)| + |Select(s, flags, n, false)| == n
    decreases n
  {
    if n > 0 {
      SelectSizes(s, flags, n - 1);
    }
  }

  /** Selecting from a sequence without repetitions gives one without repetitions. */
  lemma {:induction false} SelectDistinct<T>(s: seq<T>, flags: seq<bool>, n: nat, b: bool)
    requires n <= |s| == |flags| && Distinct(s)
    ensures Distinct(Select(s, flags, n, b))
    decreases n
  {
    if n > 0 {
      SelectDistinct(s, flags, n - 1, b);
      var r := Select(s, flags, n - 1, b);
      if flags[n - 1] == b {
        NotYetSelected(s, flags, n - 1, b);
        assert (r + [s[n - 1]])[..|r|] == r;
      } else {
        assert Select(s, flags, n, b) == r;
      }
    }
  }

  /** In a sequence without repetitions, the entry at `j` is not among those selected before it. */
  lemma NotYetSelected<T>(s: seq<T>, flags: seq<bool>, j: nat, b: bool)
    requires j < |s| == |flags| && Distinct(s)
    ensures s[j] !in Select(s, flags, j, b)
  {
    SelectMembers(s, flags, j, b, s[j]);
    if s[j] in Select(s, flags, j, b) {
      var k :| 0 <= k < j && s[k] == s[j] && flags[k] == b;
      DistinctAt(s, k, j);
    }
  }

  /** Selection only keeps entries of the sequence it selects from. */
  lemma SelectSubset<T>(s: seq<T>, flags: seq<bool>, n: nat, b: bool)
    requires n <= |s| == |flags|
    ensures forall x :: x in Select(s, flags, n, b) ==> x in s
  {
    forall x | x in Select(s, flags, n, b) ensures x in s {
      SelectMembers(s, flags, n, b, x);
    }
  }
}
