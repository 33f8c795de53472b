/** String helpers mirroring the few Python string operations the core uses. */
module Text {

  /** `s[0:|p|] == p` in Python: a slice past the end is merely shorter, so this
      is exactly "s starts with p". */
  predicate StartsWith(s: string, p: string) {
    |p| <= |s| && s[..|p|] == p
  }

  predicate EndsWith(s: string, p: string) {
    |p| <= |s| && s[|s| - |p|..] == p
  }

  lemma StartsWithAppend(a: string, b: string)
    ensures StartsWith(a + b, a)
  {
    assert (a + b)[..|a|] == a;
  }

  /** A string built on a literal whose first characters already differ from
      `p` does not start with `p`, whatever follows. */
  lemma NotStartsWithAppend(lit: string, x: string, p: string)
    requires |p| <= |lit| && lit[..|p|] != p
    ensures !StartsWith(lit + x, p)
  {
    assert (lit + x)[..|p|] == lit[..|p|];
  }

  /** Concatenation of a list of strings, as repeated `cmd += piece`. */
  function Concat(pieces: seq<string>): string {
    if |pieces| == 0 then "" else pieces[0] + Concat(pieces[1..])
  }

  lemma {:induction false} ConcatAppend(a: seq<string>, b: seq<string>)
    ensures Concat(a + b) == Concat(a) + Concat(b)
    decreases |a|
  {
    if |a| == 0 {
      assert a + b == b;
    } else {
      assert (a + b)[1..] == a[1..] + b;
      ConcatAppend(a[1..], b);
    }
  }

  /** Whether `pat` occurs in `s` starting at position `j`. */
  predicate MatchAt(s: string, pat: string, j: int) {
    0 <= j && j + |pat| <= |s| && s[j..j + |pat|] == pat
  }

  predicate Occurs(s: string, pat: string) {
    exists j :: 0 <= j <= |s| && MatchAt(s, pat, j)
  }

  /** An occurrence stays an occurrence when text is added on either side. */
  lemma OccursAppend(a: string, b: string, pat: string)
    ensures Occurs(a, pat) ==> Occurs(a + b, pat)
    ensures Occurs(b, pat) ==> Occurs(a + b, pat)
  {
    if Occurs(a, pat) {
      var j :| 0 <= j <= |a| && MatchAt(a, pat, j);
      assert (a + b)[j..j + |pat|] == a[j..j + |pat|];
      assert MatchAt(a + b, pat, j);
    }
    if Occurs(b, pat) {
      var j :| 0 <= j <= |b| && MatchAt(b, pat, j);
      assert (a + b)[|a| + j..|a| + j + |pat|] == b[j..j + |pat|];
      assert MatchAt(a + b, pat, |a| + j);
    }
  }

  /** Python's `s.replace(pat, rep)` for a non-empty pattern: occurrences are
      found left to right and replaced without overlapping. */
  function Replace(s: string, pat: string, rep: string): string
    requires |pat| > 0
    decreases |s|
  {
    if |s| < |pat| then s
    else if s[..|pat|] == pat then rep + Replace(s[|pat|..], pat, rep)
    else [s[0]] + Replace(s[1..], pat, rep)
  }

  /** A string in which the pattern does not occur is left unchanged. */
  lemma {:induction false} ReplaceAbsent(s: string, pat: string, rep: string)
    requires |pat| > 0
    requires !Occurs(s, pat)
    ensures Replace(s, pat, rep) == s
    decreases |s|
  {
    if |s| < |pat| {
    } else {
      assert !MatchAt(s, pat, 0);
      assert s[..|pat|] != pat;
      forall j | MatchAt(s[1..], pat, j)
        ensures false
      {
        assert s[1..][j..j + |pat|] == s[j + 1..j + 1 + |pat|];
        assert MatchAt(s, pat, j + 1);
      }
      ReplaceAbsent(s[1..], pat, rep);
    }
  }

  lemma ReplaceUnchanged(s: string, pat: string, rep: string)
    requires |pat| > 0
    ensures !Occurs(s, pat) ==> Replace(s, pat, rep) == s
  {
    if !Occurs(s, pat) {
      ReplaceAbsent(s, pat, rep);
    }
  }

  lemma MatchShift(s: string, pat: string, j: nat)
    requires |s| > 0
    ensures MatchAt(s[1..], pat, j) <==> MatchAt(s, pat, j + 1)
  {
    if j + 1 + |pat| <= |s| {
      assert s[1..][j..j + |pat|] == s[j + 1..j + 1 + |pat|];
    }
  }

  /** The leftmost occurrence is replaced and scanning resumes after it. */
  lemma {:induction false} ReplaceFirst(a: string, pat: string, b: string, rep: string)
    requires |pat| > 0
    requires forall j :: 0 <= j < |a| ==> !MatchAt(a + pat + b, pat, j)
    ensures Replace(a + pat + b, pat, rep) == a + rep + Replace(b, pat, rep)
    decreases |a|
  {
    var s := a + pat + b;
    if |a| == 0 {
      assert s == pat + b;
      assert s[..|pat|] == pat;
      assert s[|pat|..] == b;
    } else {
      assert !MatchAt(s, pat, 0);
      assert s[1..] == a[1..] + pat + b;
      forall j | 0 <= j < |a[1..]|
        ensures !MatchAt(a[1..] + pat + b, pat, j)
      {
        MatchShift(s, pat, j);
      }
      ReplaceFirst(a[1..], pat, b, rep);
      assert Replace(s, pat, rep) == [s[0]] + Replace(s[1..], pat, rep);
      assert [s[0]] + a[1..] == a;
    }
  }

  /** ASCII upper-casing (Python's `str.upper` restricted to ASCII letters). */
  function UpperChar(c: char): char {
    if 'a' <= c <= 'z' then (c as int - 32) as char else c
  }

  function Upper(s: string): (r: string)
    ensures |r| == |s|
    ensures forall i :: 0 <= i < |s| ==> r[i] == UpperChar(s[i])
  {
    seq(|s|, i requires 0 <= i < |s| => UpperChar(s[i]))
  }

  lemma UpperAppend(a: string, b: string)
    ensures Upper(a + b) == Upper(a) + Upper(b)
  {
    assert forall i :: 0 <= i < |a + b| ==> Upper(a + b)[i] == (Upper(a) + Upper(b))[i];
  }
}
