/**
 Joining strings with a separator, as `Array.prototype.join` does, and its
 inverse, splitting at every occurrence of the separator from left to right,
 as `String.prototype.split` does.
 */
module Strings {
  import opened Wrappers

  /** `parts` joined with `sep` between neighbours: `[]` gives "", `[a]` gives `a`. */
  function Join(parts: seq<string>, sep: string): string
    decreases |parts|
  {
    if |parts| == 0 then ""
    else if |parts| == 1 then parts[0]
    else parts[0] + sep + Join(parts[1..], sep)
  }

  /** `sep` occurs in `s` starting at index `i`. */
  predicate OccursAt(s: string, sep: string, i: nat) {
    i + |sep| <= |s| && s[i..i + |sep|] == sep
  }

  /** The first index at or after `from` where `sep` occurs in `s`. */
  function IndexFrom(s: string, sep: string, from: nat): (r: Option<nat>)
    requires from <= |s|
    ensures r.Some? ==> from <= r.value && OccursAt(s, sep, r.value)
    ensures r.Some? ==> forall j :: from <= j < r.value ==> !OccursAt(s, sep, j)
    ensures r.None? ==> forall j :: from <= j <= |s| ==> !OccursAt(s, sep, j)
    decreases |s| - from
  {
    if from + |sep| > |s| then None
    else if s[from..from + |sep|] == sep then Some(from)
    else if from == |s| then None
    else IndexFrom(s, sep, from + 1)
  }

  /** The first index where `sep` occurs in `s`, if any. */
  function IndexOf(s: string, sep: string): (r: Option<nat>)
    ensures r.Some? ==> OccursAt(s, sep, r.value)
    ensures r.Some? ==> forall j :: 0 <= j < r.value ==> !OccursAt(s, sep, j)
    ensures r.None? ==> forall j :: 0 <= j <= |s| ==> !OccursAt(s, sep, j)
  {
    IndexFrom(s, sep, 0)
  }

  /** `s` cut at every occurrence of `sep`, scanning from the left. */
  function Split(s: string, sep: string): (parts: seq<string>)
    requires |sep| > 0
    ensures |parts| >= 1
    decreases |s|
  {
    match IndexOf(s, sep)
    case None => [s]
    case Some(i) => [s[..i]] + Split(s[i + |sep|..], sep)
  }

  /** No occurrence of `sep` starts inside `x`, even one that runs on into a
      following `sep`: then `x` ends exactly where the next separator begins. */
  predicate SepFree(x: string, sep: string) {
    forall i :: 0 <= i < |x| ==> !OccursAt(x + sep, sep, i)
  }

  /** No `parts` element has a separator starting inside it. */
  predicate AllSepFree(parts: seq<string>, sep: string) {
    forall k :: 0 <= k < |parts| ==> SepFree(parts[k], sep)
  }

  // ---------------------------------------------------------------------
  // Round trips.

  /** Splitting and joining back gives the original string, for any string. */
  lemma {:induction false} JoinSplit(s: string, sep: string)
    requires |sep| > 0
    ensures Join(Split(s, sep), sep) == s
    decreases |s|
  {
    var found := IndexOf(s, sep);
    if found.Some? {
      var i := found.value;
      var head, rest := s[..i], s[i + |sep|..];
      var tail := Split(rest, sep);
      assert Split(s, sep) == [head] + tail;
      JoinSplit(rest, sep);
      assert s == head + sep + rest by {
        assert s[i..i + |sep|] == sep;
        assert s == s[..i] + s[i..i + |sep|] + s[i + |sep|..];
      }
      JoinCons(head, tail, sep);
    }
  }

  /** Joining a part in front of a non-empty sequence adds one separator. */
  lemma JoinCons(head: string, tail: seq<string>, sep: string)
    requires |tail| >= 1
    ensures Join([head] + tail, sep) == head + sep + Join(tail, sep)
  {
    var parts := [head] + tail;
    assert parts[0] == head && parts[1..] == tail;
  }

  /** A joined string opens with its first part. */
  lemma JoinStartsWithFirst(parts: seq<string>, sep: string)
    requires |parts| >= 1
    ensures |parts[0]| <= |Join(parts, sep)|
    ensures Join(parts, sep)[..|parts[0]|] == parts[0]
  {
    if |parts| > 1 {
      var s := Join(parts, sep);
      assert s == parts[0] + (sep + Join(parts[1..], sep));
    }
  }

  /** A separator-free part followed by a separator: the first occurrence of
      the separator is the one right after the part. */
  lemma IndexOfAfterPart(x: string, sep: string, rest: string)
    requires |sep| > 0 && SepFree(x, sep)
    ensures IndexOf(x + sep + rest, sep) == Some(|x|)
  {
    var s := x + sep + rest;
    assert s[|x|..|x| + |sep|] == sep;
    assert OccursAt(s, sep, |x|);
    forall j | 0 <= j < |x|
      ensures !OccursAt(s, sep, j)
    {
      assert !OccursAt(x + sep, sep, j);
      assert s[j..j + |sep|] == (x + sep)[j..j + |sep|];
    }
  }

  /** A separator-free part on its own contains no separator at all. */
  lemma IndexOfLonePart(x: string, sep: string)
    requires |sep| > 0 && SepFree(x, sep)
    ensures IndexOf(x, sep) == None
  {
    forall j | 0 <= j <= |x|
      ensures !OccursAt(x, sep, j)
    {
      if j < |x| {
        assert !OccursAt(x + sep, sep, j);
      }
    }
  }

  /** Joining separator-free parts and splitting again gives the parts back. */
  lemma {:induction false} SplitJoin(parts: seq<string>, sep: string)
    requires |sep| > 0 && |parts| >= 1
    requires AllSepFree(parts, sep)
    ensures Split(Join(parts, sep), sep) == parts
    decreases |parts|
  {
    if |parts| == 1 {
      IndexOfLonePart(parts[0], sep);
    } else {
      var rest := Join(parts[1..], sep);
      IndexOfAfterPart(parts[0], sep, rest);
      var s := parts[0] + sep + rest;
      assert s[..|parts[0]|] == parts[0];
      assert s[|parts[0]| + |sep|..] == rest;
      assert AllSepFree(parts[1..], sep) by {
        forall k | 0 <= k < |parts[1..]|
          ensures SepFree(parts[1..][k], sep)
        {
          assert parts[1..][k] == parts[k + 1];
        }
      }
      SplitJoin(parts[1..], sep);
      assert parts == [parts[0]] + parts[1..];
    }
  }

  // ---------------------------------------------------------------------
  // Counting characters.

  /** How often `c` occurs in `s`. */
  function Count(s: string, c: char): nat {
    multiset(s)[c]
  }

  /** How often `c` occurs across all of `parts`. */
  function CountAll(parts: seq<string>, c: char): nat
    decreases |parts|
  {
    if |parts| == 0 then 0 else Count(parts[0], c) + CountAll(parts[1..], c)
  }

  /** Every occurrence of `c` in a joined string comes from a part or from
      one of the `|parts| - 1` separators. */
  lemma {:induction false} JoinCount(parts: seq<string>, sep: string, c: char)
    requires |parts| >= 1
    ensures Count(Join(parts, sep), c) == CountAll(parts, c) + (|parts| - 1) * Count(sep, c)
    decreases |parts|
  {
    if |parts| > 1 {
      JoinCount(parts[1..], sep, c);
      var rest := Join(parts[1..], sep);
      assert Count(Join(parts, sep), c) == Count(parts[0], c) + Count(sep, c) + Count(rest, c) by {
        assert Join(parts, sep) == parts[0] + sep + rest;
        assert multiset(parts[0] + sep + rest) == multiset(parts[0]) + multiset(sep) + multiset(rest);
      }
      var m, k := |parts|, Count(sep, c);
      assert (m - 1) * k == (m - 2) * k + k by {
        MulStep(m - 1, k);
      }
    }
  }

  /** One more factor of `k`: distributivity, stated for the solver. */
  lemma MulStep(a: int, k: int)
    ensures a * k == (a - 1) * k + k
  {
  }

  /** With a one-character separator that no part contains, a joined string
      of `k` parts holds exactly `k - 1` copies of it. */
  lemma {:induction false} JoinSeparatorCount(parts: seq<string>, c: char)
    requires |parts| >= 1
    requires forall k :: 0 <= k < |parts| ==> c !in parts[k]
    ensures Count(Join(parts, [c]), c) == |parts| - 1
  {
    JoinCount(parts, [c], c);
    CountAllAbsent(parts, c);
    assert multiset([c])[c] == 1;
  }

  /** A character that no part contains is counted zero times. */
  lemma {:induction false} CountAllAbsent(parts: seq<string>, c: char)
    requires forall k :: 0 <= k < |parts| ==> c !in parts[k]
    ensures CountAll(parts, c) == 0
    decreases |parts|
  {
    if |parts| > 0 {
      assert c !in multiset(parts[0]);
      CountAllAbsent(parts[1..], c);
    }
  }
}
