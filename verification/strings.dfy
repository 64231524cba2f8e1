/** The string operations the loader relies on, with JavaScript's meaning:
    `indexOf`, `split` with a non-empty string separator, and the ASCII part of
    `toLowerCase`. Strings are sequences of Unicode scalar values, not of JavaScript's UTF-16 code units. */
module Strings {

  /** `t` occurs in `s` starting at index `k`. */
  predicate OccursAt(s: string, t: string, k: int) {
    0 <= k && k + |t| <= |s| && s[k..k + |t|] == t
  }

  predicate Contains(s: string, t: string) {
    exists k :: 0 <= k <= |s| && OccursAt(s, t, k)
  }

  /** `s.indexOf(t, from)`, for the non-negative starting positions used here:
      the first occurrence at or after `from`, or -1. */
  function IndexFrom(s: string, t: string, from: nat): (r: int)
    ensures r == -1 || (from <= r && OccursAt(s, t, r))
    ensures r == -1 ==> forall k :: from <= k ==> !OccursAt(s, t, k)
    ensures r != -1 ==> forall k :: from <= k < r ==> !OccursAt(s, t, k)
    decreases |s| - from
  {
    if from + |t| > |s| then -1
    else if s[from..from + |t|] == t then from
    else IndexFrom(s, t, from + 1)
  }

  /** `s.indexOf(t)`: the leftmost occurrence of `t` in `s`, or -1 when there is none. */
  function IndexOf(s: string, t: string): (r: int)
    ensures r == -1 <==> !Contains(s, t)
    ensures r != -1 ==> OccursAt(s, t, r) && forall k :: 0 <= k < r ==> !OccursAt(s, t, k)
  {
    IndexFrom(s, t, 0)
  }

  /** Pieces glued back together with the separator between consecutive ones. */
  function Join(parts: seq<string>, sep: string): string {
    if |parts| == 0 then ""
    else if |parts| == 1 then parts[0]
    else parts[0] + sep + Join(parts[1..], sep)
  }

  /** `s.split(sep)` for a non-empty string separator: cut at every leftmost
      non-overlapping occurrence, keeping empty pieces. */
  function Split(s: string, sep: string): (parts: seq<string>)
    requires sep != ""
    ensures |parts| >= 1
    decreases |s|
  {
    var i := IndexOf(s, sep);
    if i == -1 then [s]
    else [s[..i]] + Split(s[i + |sep|..], sep)
  }

  /** Splitting loses nothing: joining the pieces gives back the input. */
  lemma {:induction false} SplitJoin(s: string, sep: string)
    requires sep != ""
    ensures Join(Split(s, sep), sep) == s
    decreases |s|
  {
    var i := IndexOf(s, sep);
    if i != -1 {
      var rest := s[i + |sep|..];
      SplitJoin(rest, sep);
      SplitAt(s, sep, i);
      JoinCons(s[..i], Split(rest, sep), sep);
    }
  }

  /** Where the leftmost separator is at `i`, the split is the piece before it
      followed by the split of what comes after it. */
  lemma SplitAt(s: string, sep: string, i: int)
    requires sep != "" && i == IndexOf(s, sep) != -1
    ensures Split(s, sep) == [s[..i]] + Split(s[i + |sep|..], sep)
    ensures s == s[..i] + sep + s[i + |sep|..]
  {
    Around(s, sep, i);
  }

  /** An occurrence of `t` at `i` splits `s` into what precedes it, `t` and what follows. */
  lemma Around(s: string, t: string, i: int)
    requires OccursAt(s, t, i)
    ensures s == s[..i] + t + s[i + |t|..]
  {
    assert s == s[..i] + s[i..i + |t|] + s[i + |t|..];
  }

  lemma JoinCons(head: string, tail: seq<string>, sep: string)
    requires |tail| >= 1
    ensures Join([head] + tail, sep) == head + sep + Join(tail, sep)
  {
    assert ([head] + tail)[1..] == tail;
  }

  /** No piece of a split contains the separator. */
  lemma {:induction false} SplitPiecesFree(s: string, sep: string)
    requires sep != ""
    ensures forall p :: p in Split(s, sep) ==> !Contains(p, sep)
    decreases |s|
  {
    var i := IndexOf(s, sep);
    if i != -1 {
      SplitPiecesFree(s[i + |sep|..], sep);
      SplitAt(s, sep, i);
      BeforeFirst(s, sep, i);
    }
  }

  /** What precedes the leftmost occurrence does not contain it. */
  lemma BeforeFirst(s: string, sep: string, i: int)
    requires sep != "" && i == IndexOf(s, sep) != -1
    ensures !Contains(s[..i], sep)
  {
    var head := s[..i];
    if Contains(head, sep) {
      var k :| 0 <= k <= |head| && OccursAt(head, sep, k);
      assert head[k..k + |sep|] == s[k..k + |sep|];
      assert OccursAt(s, sep, k) && k < i;
      assert false;
    }
  }

  /** An occurrence with none before it is the one `indexOf` finds. */
  lemma FirstOccurrence(s: string, t: string, i: int)
    requires OccursAt(s, t, i)
    requires forall k :: 0 <= k < i ==> !OccursAt(s, t, k)
    ensures IndexOf(s, t) == i
  {
    assert Contains(s, t);
  }

  /** When the first separator in `a + sep` is the appended one and `b` has
      none, `a + sep + b` splits into exactly `a` and `b`. */
  lemma SplitTwo(a: string, b: string, sep: string)
    requires sep != "" && IndexOf(a + sep, sep) == |a| && !Contains(b, sep)
    ensures Split(a + sep + b, sep) == [a, b]
  {
    var s := a + sep + b;
    assert s[|a|..|a| + |sep|] == sep;
    forall k | 0 <= k < |a| ensures !OccursAt(s, sep, k) {
      if OccursAt(s, sep, k) {
        assert s[k..k + |sep|] == (a + sep)[k..k + |sep|];
        assert OccursAt(a + sep, sep, k);
      }
    }
    FirstOccurrence(s, sep, |a|);
    SplitAt(s, sep, |a|);
    assert s[..|a|] == a;
    assert s[|a| + |sep|..] == b;
    SplitOne(b, sep);
  }

  /** A string without the separator is a single piece. */
  lemma SplitOne(s: string, sep: string)
    requires sep != "" && !Contains(s, sep)
    ensures Split(s, sep) == [s]
  {
  }

  /** If the first separator in `a + sep` is the appended one, `a` has none. */
  lemma FreeBeforeAppended(a: string, sep: string)
    requires sep != "" && IndexOf(a + sep, sep) == |a|
    ensures !Contains(a, sep)
  {
    if Contains(a, sep) {
      var k :| 0 <= k <= |a| && OccursAt(a, sep, k);
      assert (a + sep)[k..k + |sep|] == a[k..k + |sep|];
      assert OccursAt(a + sep, sep, k) && k < |a|;
      assert false;
    }
  }

  /** A one-character separator absent from `a` first occurs where it is
      appended, and `a` does not contain it. */
  lemma SingleCharFree(a: string, c: char)
    requires c !in a
    ensures IndexOf(a + [c], [c]) == |a| && !Contains(a, [c])
  {
    var s := a + [c];
    assert s[|a|..|a| + 1] == [c];
    forall k | 0 <= k < |a| ensures !OccursAt(s, [c], k) {
      assert s[k..k + 1] == [a[k]];
    }
    FirstOccurrence(s, [c], |a|);
    forall k | 0 <= k < |a| ensures !OccursAt(a, [c], k) {
      assert a[k..k + 1] == [a[k]];
    }
  }

  /** ASCII upper-case letters to lower case; every other character unchanged. */
  function LowerChar(ch: char): char {
    if 'A' <= ch <= 'Z' then (ch as int + 32) as char else ch
  }

  /** `toLowerCase` on ASCII: each upper-case ASCII letter becomes the
      lower-case letter at the same place in the alphabet, no upper-case ASCII
      letter is left, and a character changes exactly when it was one. */
  function ToLowerAscii(s: string): (r: string)
    ensures |r| == |s|
    ensures forall i :: 0 <= i < |s| && 'A' <= s[i] <= 'Z' ==>
              'a' <= r[i] <= 'z' && r[i] as int - 'a' as int == s[i] as int - 'A' as int
    ensures forall i :: 0 <= i < |r| ==> !('A' <= r[i] <= 'Z')
    ensures forall i :: 0 <= i < |r| ==> (r[i] == s[i] <==> !('A' <= s[i] <= 'Z'))
  {
    seq(|s|, i requires 0 <= i < |s| => LowerChar(s[i]))
  }
}
