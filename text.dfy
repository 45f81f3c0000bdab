/** The string operations of the Kotlin standard library that the core relies on. */
module Text {
  import opened Sequences

  /** Kotlin's `Char.isWhitespace()`: Java's `Character.isWhitespace` or `Character.isSpaceChar`. */
  predicate IsWhitespace(c: char) {
    || ('\U{9}' <= c <= '\U{D}')
    || ('\U{1C}' <= c <= '\U{20}')
    || c == '\U{A0}' || c == '\U{1680}'
    || ('\U{2000}' <= c <= '\U{200A}')
    || c == '\U{2028}' || c == '\U{2029}' || c == '\U{202F}' || c == '\U{205F}' || c == '\U{3000}'
  }

  /** Kotlin's `isBlank()`: empty or whitespace only. */
  predicate IsBlank(s: string)
    ensures IsBlank(s) <==> LeadingWhitespace(s) == |s|
  {
    forall i :: 0 <= i < |s| ==> IsWhitespace(s[i])
  }

  /** Number of leading whitespace characters. */
  function LeadingWhitespace(s: string): (n: nat)
    ensures n <= |s|
    ensures forall k :: 0 <= k < n ==> IsWhitespace(s[k])
    ensures n < |s| ==> !IsWhitespace(s[n])
  {
    if s == [] || !IsWhitespace(s[0]) then 0 else 1 + LeadingWhitespace(s[1..])
  }

  /** Number of trailing whitespace characters. */
  function TrailingWhitespace(s: string): (n: nat)
    ensures n <= |s|
    ensures forall k :: |s| - n <= k < |s| ==> IsWhitespace(s[k])
    ensures n < |s| ==> !IsWhitespace(s[|s| - 1 - n])
  {
    if s == [] || !IsWhitespace(s[|s| - 1]) then 0 else 1 + TrailingWhitespace(s[..|s| - 1])
  }

  /** Kotlin's `trim()`: drops leading and trailing whitespace. */
  function Trim(s: string): (r: string)
    ensures |r| <= |s|
    ensures r == [] <==> IsBlank(s)
    ensures r != [] ==> !IsWhitespace(r[0]) && !IsWhitespace(r[|r| - 1])
  {
    var i := LeadingWhitespace(s);
    var j := |s| - TrailingWhitespace(s[i..]);
    assert i < |s| ==> !IsWhitespace(s[i]);
    s[i..j]
  }

  /** Trimming keeps a contiguous run of the input and only cuts whitespace around it. */
  lemma TrimIsSlice(s: string)
    ensures exists i: nat, j: nat ::
              && i <= j <= |s| && Trim(s) == s[i..j]
              && (forall k :: 0 <= k < i ==> IsWhitespace(s[k]))
              && (forall k :: j <= k < |s| ==> IsWhitespace(s[k]))
  {
    var i := LeadingWhitespace(s);
    var j := |s| - TrailingWhitespace(s[i..]);
    assert Trim(s) == s[i..j];
    forall k | j <= k < |s| ensures IsWhitespace(s[k]) {
      assert s[k] == s[i..][k - i];
    }
  }

  /** Trimming twice is trimming once. */
  lemma TrimIdempotent(s: string)
    ensures Trim(Trim(s)) == Trim(s)
  {
    var t := Trim(s);
    if t != [] {
      assert LeadingWhitespace(t) == 0;
      assert TrailingWhitespace(t) == 0;
    }
  }

  /** Lexicographic order on strings by character code, as Kotlin's `String.compareTo`. */
  predicate LexLeq(a: string, b: string) {
    if a == [] then true
    else if b == [] then false
    else if a[0] != b[0] then a[0] < b[0]
    else LexLeq(a[1..], b[1..])
  }

  /** The lexicographic order is total. */
  lemma {:induction false} LexLeqTotal(a: string, b: string)
    ensures LexLeq(a, b) || LexLeq(b, a)
  {
    if a != [] && b != [] && a[0] == b[0] {
      LexLeqTotal(a[1..], b[1..]);
    }
  }

  /** The lexicographic order is antisymmetric. */
  lemma {:induction false} LexLeqAntisymmetric(a: string, b: string)
    requires LexLeq(a, b) && LexLeq(b, a)
    ensures a == b
  {
    if a != [] && b != [] {
      LexLeqAntisymmetric(a[1..], b[1..]);
      assert a == [a[0]] + a[1..];
      assert b == [b[0]] + b[1..];
    }
  }

  /** `pat` occurs in `s` at position `i`. */
  predicate OccursAt(pat: string, s: string, i: int) {
    0 <= i && i + |pat| <= |s| && s[i..i + |pat|] == pat
  }

  /** `pat` occurs somewhere in `s`. */
  predicate Occurs(pat: string, s: string) {
    exists i :: 0 <= i <= |s| && OccursAt(pat, s, i)
  }

  /**
   * Kotlin's `String.replace(pat, "")`: scans left to right and drops every
   * non-overlapping occurrence of `pat`, in one pass.
   */
  function RemoveAll(s: string, pat: string): (r: string)
    requires pat != []
    ensures |r| <= |s|
    decreases |s|
  {
    if |s| < |pat| then s
    else if s[..|pat|] == pat then RemoveAll(s[|pat|..], pat)
    else [s[0]] + RemoveAll(s[1..], pat)
  }

  /** The pass only deletes characters: its result is a subsequence of its input. */
  lemma {:induction false} RemoveAllDeletes(s: string, pat: string)
    requires pat != []
    ensures IsSubsequence(RemoveAll(s, pat), s)
    decreases |s|
  {
    if |s| < |pat| {
      SubsequenceRefl(s);
    } else if s[..|pat|] == pat {
      RemoveAllDeletes(s[|pat|..], pat);
      SubsequenceOfSuffix(RemoveAll(s[|pat|..], pat), s, |pat|);
    } else {
      var r := RemoveAll(s[1..], pat);
      RemoveAllDeletes(s[1..], pat);
      assert ([s[0]] + r)[1..] == r;
    }
  }

  /** An occurrence past the first character is an occurrence in the tail. */
  lemma OccursAtTail(pat: string, s: string, k: int)
    requires 0 < k && s != []
    ensures OccursAt(pat, s, k) <==> OccursAt(pat, s[1..], k - 1)
  {
    if k + |pat| <= |s| {
      assert s[1..][k - 1..k - 1 + |pat|] == s[k..k + |pat|];
    }
  }

  /** Without an occurrence at the front, the pass keeps the first character. */
  lemma RemoveAllNoMatch(s: string, pat: string)
    requires pat != [] && |pat| <= |s| && !OccursAt(pat, s, 0)
    ensures RemoveAll(s, pat) == [s[0]] + RemoveAll(s[1..], pat)
  {
    assert s[0..|pat|] == s[..|pat|];
  }

  /** No earlier occurrence in `s` means no earlier occurrence in its tail, and the one at `i` moves to `i - 1`. */
  lemma FirstOccurrenceTail(s: string, pat: string, i: nat)
    requires 0 < i && OccursAt(pat, s, i)
    requires forall k :: 0 <= k < i ==> !OccursAt(pat, s, k)
    ensures OccursAt(pat, s[1..], i - 1)
    ensures forall k :: 0 <= k < i - 1 ==> !OccursAt(pat, s[1..], k)
  {
    OccursAtTail(pat, s, i);
    forall k | 0 <= k < i - 1
      ensures !OccursAt(pat, s[1..], k)
    {
      OccursAtTail(pat, s, k + 1);
    }
  }

  /**
   * The pass removes the leftmost occurrence and goes on after it: everything
   * before the first occurrence at `i` is kept, the occurrence is dropped, and
   * the pass resumes right behind it.
   */
  lemma {:induction false} RemoveAllFirst(s: string, pat: string, i: nat)
    requires pat != [] && OccursAt(pat, s, i)
    requires forall k :: 0 <= k < i ==> !OccursAt(pat, s, k)
    ensures RemoveAll(s, pat) == s[..i] + RemoveAll(s[i + |pat|..], pat)
    decreases i
  {
    if i == 0 {
      assert s[..|pat|] == s[0..|pat|];
      assert s[..0] == [];
    } else {
      var t, j := s[1..], i + |pat|;
      FirstOccurrenceTail(s, pat, i);
      RemoveAllFirst(t, pat, i - 1);
      RemoveAllNoMatch(s, pat);
      TailSlices(s, i, j);
      ConsAppend(s[0], t[..i - 1], RemoveAll(s[j..], pat));
    }
  }

  /** A string without the pattern is left as it is. */
  lemma {:induction false} RemoveAllAbsent(s: string, pat: string)
    requires pat != [] && !Occurs(pat, s)
    ensures RemoveAll(s, pat) == s
    decreases |s|
  {
    if |s| >= |pat| {
      assert !OccursAt(pat, s, 0);
      assert s[..|pat|] != pat;
      forall i | OccursAt(pat, s[1..], i) ensures false {
        assert s[1..][i..i + |pat|] == s[i + 1..i + 1 + |pat|];
        assert OccursAt(pat, s, i + 1);
      }
      RemoveAllAbsent(s[1..], pat);
      assert s == [s[0]] + s[1..];
    }
  }

  /** No proper suffix of `pat` starts the way `pat` does: its first character does not recur. */
  predicate UnbordedHead(pat: string) {
    pat != [] && forall k :: 1 <= k < |pat| ==> pat[k] != pat[0]
  }

  /** A window that differs from the pattern at position `d` is not removed: its first character is kept. */
  lemma RemoveAllSkip(s: string, pat: string, d: nat)
    requires pat != [] && |s| >= |pat| && d < |pat| && s[d] != pat[d]
    ensures RemoveAll(s, pat) == [s[0]] + RemoveAll(s[1..], pat)
  {
    assert s[..|pat|][d] != pat[d];
  }

  /**
   * When the head character of an unbordered pattern first appears at position
   * `n`, the pass keeps the first `n` characters.
   */
  lemma {:induction false} RemoveAllKeepsHead(s: string, pat: string, n: nat)
    requires UnbordedHead(pat) && n < |pat| && n + |pat| <= |s| && s[n] == pat[0]
    ensures RemoveAll(s, pat) == s[..n] + RemoveAll(s[n..], pat)
    decreases n
  {
    if n == 0 {
      assert s[..0] + RemoveAll(s[0..], pat) == RemoveAll(s, pat) by {
        assert s[0..] == s;
      }
    } else {
      RemoveAllSkip(s, pat, n);
      assert s[1..][n - 1] == s[n];
      RemoveAllKeepsHead(s[1..], pat, n - 1);
      assert s[1..][n - 1..] == s[n..];
      assert s[..n] == [s[0]] + s[1..][..n - 1];
    }
  }

  /**
   * Removing a pattern whose head does not recur from `t + pat`, where `t` does
   * not contain the pattern, gives back `t`.
   */
  lemma {:induction false} RemoveAllAppended(t: string, pat: string)
    requires UnbordedHead(pat) && !Occurs(pat, t)
    ensures RemoveAll(t + pat, pat) == t
    decreases |t|
  {
    var s := t + pat;
    if t == [] {
      assert s == pat;
      assert s[|pat|..] == [];
    } else {
      if |t| >= |pat| {
        assert t[0..|pat|] == s[..|pat|];
        assert !OccursAt(pat, t, 0);
      } else {
        assert s[..|pat|][|t|] == pat[0];
      }
      assert s[..|pat|] != pat;
      forall i | OccursAt(pat, t[1..], i) ensures false {
        assert t[1..][i..i + |pat|] == t[i + 1..i + 1 + |pat|];
        assert OccursAt(pat, t, i + 1);
      }
      RemoveAllAppended(t[1..], pat);
      assert s[1..] == t[1..] + pat;
      assert t == [t[0]] + t[1..];
    }
  }
}
