/**
 * The few `java.lang.String` operations the modelled code relies on, over `string` (`seq<char>`):
 * `indexOf`, `lastIndexOf`, `startsWith`, `trim`, `toLowerCase` and `equalsIgnoreCase`.
 * Case conversion is modelled for the ASCII letters only.
 */
module Text {

  /** `p` occurs in `s` starting at index `i`. */
  predicate OccursAt(s: string, p: string, i: nat) {
    i + |p| <= |s| && s[i..i + |p|] == p
  }

  /** `s.indexOf(p, from)`: the first index at or after `from` where `p` occurs, or -1. */
  function IndexFrom(s: string, p: string, from: nat): (r: int)
    decreases |s| - from
    ensures r == -1 || from <= r
  {
    if from + |p| > |s| then -1
    else if s[from..from + |p|] == p then from
    else IndexFrom(s, p, from + 1)
  }

  /** `indexOf` finds an occurrence, none before it, and fails only when there is none. */
  lemma {:induction false} IndexFromMeaning(s: string, p: string, from: nat)
    ensures IndexFrom(s, p, from) >= 0 ==> OccursAt(s, p, IndexFrom(s, p, from))
    ensures forall j :: from <= j < IndexFrom(s, p, from) ==> !OccursAt(s, p, j)
    ensures IndexFrom(s, p, from) == -1 <==> forall j :: from <= j ==> !OccursAt(s, p, j)
    decreases |s| - from
  {
    if from + |p| <= |s| {
      if s[from..from + |p|] != p {
        IndexFromMeaning(s, p, from + 1);
      } else {
        assert OccursAt(s, p, from);
      }
    }
  }

  /** `p` occurs somewhere in `s`. */
  predicate Contains(s: string, p: string) {
    exists i :: 0 <= i <= |s| && OccursAt(s, p, i)
  }

  /** `s.indexOf(p) != -1` exactly when `p` occurs in `s`. */
  lemma IndexOfContains(s: string, p: string)
    ensures IndexFrom(s, p, 0) >= 0 <==> Contains(s, p)
  {
    IndexFromMeaning(s, p, 0);
    if IndexFrom(s, p, 0) >= 0 {
      assert OccursAt(s, p, IndexFrom(s, p, 0));
    }
  }

  /** A pattern that starts with `c` cannot occur in a string without `c`. */
  lemma NotContainsWithoutFirstChar(s: string, p: string)
    requires |p| > 0 && p[0] !in s
    ensures !Contains(s, p)
  {
  }

  /** A prefix occurs at index 0. */
  lemma ContainsPrefix(s: string, p: string)
    requires p <= s
    ensures Contains(s, p)
  {
    assert OccursAt(s, p, 0);
  }

  /** A string holding a pattern holds every prefix of it. */
  lemma ContainsShorter(s: string, p: string, q: string)
    requires q <= p && Contains(s, p)
    ensures Contains(s, q)
  {
    var i :| 0 <= i <= |s| && OccursAt(s, p, i);
    assert s[i..i + |q|] == p[..|q|];
    assert OccursAt(s, q, i);
  }

  /** Sequences that differ at a position shared by both are not prefixes of each other. */
  lemma DifferAt(a: string, b: string, i: nat)
    requires i < |a| && i < |b| && a[i] != b[i]
    ensures !(a <= b)
  {
  }

  /** `s.startsWith(p)`. */
  predicate StartsWith(s: string, p: string) {
    |p| <= |s| && s[..|p|] == p
  }

  /**
   * `s.substring(lo, hi).lastIndexOf(p)`, counted from the start of `s`: the last index `k` from
   * `lo` on where `p` occurs ending by `hi`, or -1.
   */
  function LastIndexIn(s: string, p: string, lo: nat, hi: nat): (r: int)
    requires lo <= hi <= |s|
    ensures r == -1 || (lo <= r && r + |p| <= hi)
    decreases hi
  {
    if hi < lo + |p| then -1
    else if OccursAt(s, p, hi - |p|) then hi - |p|
    else if hi == lo then -1
    else LastIndexIn(s, p, lo, hi - 1)
  }

  /** `LastIndexIn` finds an occurrence, none after it, and fails only when there is none. */
  lemma {:induction false} LastIndexInMeaning(s: string, p: string, lo: nat, hi: nat)
    requires lo <= hi <= |s|
    ensures var r := LastIndexIn(s, p, lo, hi);
      (r >= 0 ==> OccursAt(s, p, r) && forall j: nat :: r < j && j + |p| <= hi ==> !OccursAt(s, p, j)) &&
      (r == -1 <==> forall j: nat :: lo <= j && j + |p| <= hi ==> !OccursAt(s, p, j))
    decreases hi
  {
    if hi >= lo + |p| && !OccursAt(s, p, hi - |p|) && hi > lo {
      LastIndexInMeaning(s, p, lo, hi - 1);
    }
  }

  /** The characters `String.trim` removes: every code point up to U+0020. */
  predicate IsTrimmable(c: char) {
    c <= ' '
  }

  /** Drops the leading trimmable characters. */
  function TrimStart(s: string): string {
    if |s| > 0 && IsTrimmable(s[0]) then TrimStart(s[1..]) else s
  }

  /** What `TrimStart` keeps is a suffix that does not start with a trimmable character. */
  lemma {:induction false} TrimStartFacts(s: string)
    ensures |TrimStart(s)| <= |s| && TrimStart(s) == s[|s| - |TrimStart(s)|..]
    ensures |TrimStart(s)| > 0 ==> !IsTrimmable(TrimStart(s)[0])
    decreases |s|
  {
    if |s| > 0 && IsTrimmable(s[0]) {
      TrimStartFacts(s[1..]);
    }
  }

  /** Drops the trailing trimmable characters. */
  function TrimEnd(s: string): string {
    if |s| > 0 && IsTrimmable(s[|s| - 1]) then TrimEnd(s[..|s| - 1]) else s
  }

  /** What `TrimEnd` keeps is a prefix that does not end with a trimmable character. */
  lemma {:induction false} TrimEndFacts(s: string)
    ensures |TrimEnd(s)| <= |s| && TrimEnd(s) == s[..|TrimEnd(s)|]
    ensures |TrimEnd(s)| > 0 ==> !IsTrimmable(TrimEnd(s)[|TrimEnd(s)| - 1])
    decreases |s|
  {
    if |s| > 0 && IsTrimmable(s[|s| - 1]) {
      TrimEndFacts(s[..|s| - 1]);
      assert s[..|s| - 1][..|TrimEnd(s)|] == s[..|TrimEnd(s)|];
    }
  }

  /** `s.trim()`. */
  function Trim(s: string): string {
    TrimEnd(TrimStart(s))
  }

  /** Trimming a string without trimmable characters leaves it as it is. */
  lemma TrimNoSpace(s: string)
    requires forall i :: 0 <= i < |s| ==> !IsTrimmable(s[i])
    ensures Trim(s) == s
  {
    assert TrimStart(s) == s;
  }

  /** Trimming twice is trimming once. */
  lemma TrimIdempotent(s: string)
    ensures Trim(Trim(s)) == Trim(s)
  {
    var u := TrimStart(s);
    var t := TrimEnd(u);
    TrimStartFacts(s);
    TrimEndFacts(u);
    if |t| > 0 {
      assert t[0] == u[0];
      assert TrimStart(t) == t;
    }
  }

  /** `Character.toLowerCase` on the ASCII letters. */
  function LowerChar(c: char): char {
    if 'A' <= c <= 'Z' then (c as int - 'A' as int + 'a' as int) as char else c
  }

  /** `s.toLowerCase()`. */
  function Lower(s: string): (r: string)
    ensures |r| == |s| && forall i :: 0 <= i < |s| ==> r[i] == LowerChar(s[i])
  {
    if s == [] then [] else [LowerChar(s[0])] + Lower(s[1..])
  }

  /** `a.equalsIgnoreCase(b)`. */
  predicate EqualsIgnoreCase(a: string, b: string) {
    |a| == |b| && forall i :: 0 <= i < |a| ==> LowerChar(a[i]) == LowerChar(b[i])
  }

  /** `equalsIgnoreCase` compares the lower-case forms. */
  lemma EqualsIgnoreCaseIff(a: string, b: string)
    ensures EqualsIgnoreCase(a, b) <==> Lower(a) == Lower(b)
  {
    if Lower(a) == Lower(b) {
      assert |a| == |b|;
      forall i | 0 <= i < |a| ensures LowerChar(a[i]) == LowerChar(b[i]) {
        assert Lower(a)[i] == Lower(b)[i];
      }
    }
  }

  /** `equalsIgnoreCase` is an equivalence relation. */
  lemma EqualsIgnoreCaseEquivalence(a: string, b: string, c: string)
    ensures EqualsIgnoreCase(a, a)
    ensures EqualsIgnoreCase(a, b) ==> EqualsIgnoreCase(b, a)
    ensures EqualsIgnoreCase(a, b) && EqualsIgnoreCase(b, c) ==> EqualsIgnoreCase(a, c)
  {
  }
}
