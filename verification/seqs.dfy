/** Order-preserving filtering and first-occurrence deduplication of lists. */
module Seqs {

  /** The elements of `s` satisfying `p`, in their original order. */
  function Filter<T>(s: seq<T>, p: T -> bool): (r: seq<T>)
    ensures |r| <= |s|
    ensures forall i :: 0 <= i < |r| ==> r[i] in s && p(r[i])
    ensures forall i :: 0 <= i < |s| && p(s[i]) ==> s[i] in r
    decreases |s|
  {
    if |s| == 0 then []
    else (if p(s[0]) then [s[0]] else []) + Filter(s[1..], p)
  }

  lemma {:induction false} FilterAppend<T>(a: seq<T>, b: seq<T>, p: T -> bool)
    ensures Filter(a + b, p) == Filter(a, p) + Filter(b, p)
    decreases |a|
  {
    if |a| == 0 {
      assert a + b == b;
    } else {
      assert (a + b)[1..] == a[1..] + b;
      FilterAppend(a[1..], b, p);
    }
  }

  /** Filtering by `p` and then by `q` is filtering once by both. */
  lemma {:induction false} FilterCompose<T>(s: seq<T>, p: T -> bool, q: T -> bool, both: T -> bool)
    requires forall x :: both(x) == (p(x) && q(x))
    ensures Filter(Filter(s, p), q) == Filter(s, both)
    decreases |s|
  {
    if |s| > 0 {
      FilterCompose(s[1..], p, q, both);
      var head := if p(s[0]) then [s[0]] else [];
      FilterAppend(head, Filter(s[1..], p), q);
      if p(s[0]) {
        assert Filter(head, q) == (if q(s[0]) then [s[0]] else []) by {
          assert head[1..] == [];
        }
      }
    }
  }

  /** Filtering by a test every element passes keeps the whole list. */
  lemma {:induction false} FilterAll<T>(s: seq<T>, p: T -> bool)
    requires forall i :: 0 <= i < |s| ==> p(s[i])
    ensures Filter(s, p) == s
    decreases |s|
  {
    if |s| > 0 {
      assert forall i :: 1 <= i < |s| ==> s[1..][i - 1] == s[i];
      FilterAll(s[1..], p);
    }
  }

  /** Filtering leaves nothing exactly when no element passes. */
  lemma FilterEmpty<T>(s: seq<T>, p: T -> bool)
    ensures |Filter(s, p)| == 0 <==> forall i :: 0 <= i < |s| ==> !p(s[i])
  {
    if |Filter(s, p)| > 0 {
      assert Filter(s, p)[0] in s;
    }
  }

  /** Dropping what fails `p`, then dropping from the rest what fails `q`,
      drops in all, counted with multiplicity, exactly what fails `p && q`. */
  lemma {:induction false} FilterDropTwice<T>(s: seq<T>, p: T -> bool, notP: T -> bool,
                                              q: T -> bool, notQ: T -> bool, notBoth: T -> bool)
    requires forall x :: notP(x) == !p(x)
    requires forall x :: notQ(x) == !q(x)
    requires forall x :: notBoth(x) == !(p(x) && q(x))
    ensures multiset(Filter(s, notP)) + multiset(Filter(Filter(s, p), notQ)) == multiset(Filter(s, notBoth))
    decreases |s|
  {
    if |s| > 0 {
      FilterDropTwice(s[1..], p, notP, q, notQ, notBoth);
      var head := if p(s[0]) then [s[0]] else [];
      assert Filter(s, p) == head + Filter(s[1..], p);
      FilterAppend(head, Filter(s[1..], p), notQ);
      if p(s[0]) {
        assert Filter(head, notQ) == (if notQ(s[0]) then [s[0]] else []) by {
          assert head[1..] == [];
        }
      }
    }
  }

  /** Every element is kept or dropped, never both. */
  lemma {:induction false} FilterPartition<T>(s: seq<T>, p: T -> bool, notP: T -> bool)
    requires forall x :: notP(x) == !p(x)
    ensures |Filter(s, p)| + |Filter(s, notP)| == |s|
    decreases |s|
  {
    if |s| > 0 {
      FilterPartition(s[1..], p, notP);
    }
  }

  predicate NoDuplicates<T(==)>(s: seq<T>) {
    forall i, j :: 0 <= i < j < |s| ==> s[i] != s[j]
  }

  /** The position of the first occurrence of `x` in `s`. */
  function FirstIndex<T(==)>(s: seq<T>, x: T): (k: nat)
    requires x in s
    ensures k < |s| && s[k] == x && x !in s[..k]
    decreases |s|
  {
    if s[0] == x then 0
    else
      assert x in s[1..];
      var k := 1 + FirstIndex(s[1..], x);
      assert s[..k] == [s[0]] + s[1..][..k - 1];
      k
  }

  /** `drop_duplicates(keep='first')`: the first occurrence of each element,
      in the order those occurrences appear. */
  function Dedup<T(==)>(s: seq<T>): seq<T>
    decreases |s|
  {
    if |s| == 0 then []
    else
      var d := Dedup(s[..|s| - 1]);
      if s[|s| - 1] in d then d else d + [s[|s| - 1]]
  }

  /** Deduplication keeps exactly the elements of the input, once each, in
      the order of their first occurrences. */
  lemma {:induction false} DedupSpec<T>(s: seq<T>)
    ensures NoDuplicates(Dedup(s))
    ensures forall x :: x in Dedup(s) <==> x in s
    ensures forall a, b :: 0 <= a < b < |Dedup(s)| ==>
      FirstIndex(s, Dedup(s)[a]) < FirstIndex(s, Dedup(s)[b])
    decreases |s|
  {
    if |s| > 0 {
      var init := s[..|s| - 1];
      var x := s[|s| - 1];
      DedupSpec(init);
      var d := Dedup(init);
      assert s == init + [x];
      forall y | y in init
        ensures FirstIndex(s, y) == FirstIndex(init, y)
      {
        FirstIndexPrefix(init, [x], y);
      }
      if x !in d {
        assert x !in init;
        assert FirstIndex(s, x) == |init| by {
          assert s[|init|] == x;
          assert x !in s[..|init|];
          FirstIndexUnique(s, x, |init|);
        }
      }
    }
  }

  /** The part of `DedupSpec` about contents only. */
  lemma DedupElements<T>(s: seq<T>)
    ensures NoDuplicates(Dedup(s))
    ensures forall x :: x in Dedup(s) <==> x in s
  {
    DedupSpec(s);
  }

  /** A subset has as many elements as its superset only when they are equal. */
  lemma SubsetCardinality<T>(a: set<T>, b: set<T>)
    requires a <= b
    ensures |a| == |b| <==> a == b
  {
    assert b == a + (b - a);
    assert a * (b - a) == {};
    if a != b {
      var x :| x in b && x !in a;
      assert x in b - a;
    }
  }

  lemma FirstIndexPrefix<T>(a: seq<T>, b: seq<T>, y: T)
    requires y in a
    ensures FirstIndex(a + b, y) == FirstIndex(a, y)
  {
    var k := FirstIndex(a, y);
    assert (a + b)[..k] == a[..k];
    FirstIndexUnique(a + b, y, k);
  }

  lemma FirstIndexUnique<T>(s: seq<T>, y: T, k: nat)
    requires k < |s| && s[k] == y && y !in s[..k]
    ensures FirstIndex(s, y) == k
  {
  }

  /** Deduplication drops something exactly when there is a duplicate. */
  lemma {:induction false} DedupLength<T>(s: seq<T>)
    ensures |Dedup(s)| <= |s|
    ensures |Dedup(s)| == |s| <==> NoDuplicates(s)
    decreases |s|
  {
    if |s| > 0 {
      var init := s[..|s| - 1];
      var x := s[|s| - 1];
      DedupLength(init);
      DedupSpec(init);
      assert s == init + [x];
      if x in init {
        var j :| 0 <= j < |init| && init[j] == x;
        assert s[j] == s[|s| - 1];
      } else if NoDuplicates(init) {
        assert NoDuplicates(s);
      } else {
        var i, j :| 0 <= i < j < |init| && init[i] == init[j];
        assert s[i] == s[j];
      }
    }
  }

  /** A list without duplicates is its own deduplication. */
  lemma {:induction false} DedupOfDistinct<T>(s: seq<T>)
    requires NoDuplicates(s)
    ensures Dedup(s) == s
    decreases |s|
  {
    if |s| > 0 {
      var init := s[..|s| - 1];
      DedupOfDistinct(init);
      DedupSpec(init);
      assert s[|s| - 1] !in init;
      assert init + [s[|s| - 1]] == s;
    }
  }

  /** Deduplicating twice is deduplicating once. */
  lemma DedupIdempotent<T>(s: seq<T>)
    ensures Dedup(Dedup(s)) == Dedup(s)
  {
    DedupSpec(s);
    DedupOfDistinct(Dedup(s));
  }

  /** A list without duplicates has as many distinct elements as entries. */
  lemma {:induction false} DistinctCardinality<T>(s: seq<T>)
    requires NoDuplicates(s)
    ensures |set x | x in s| == |s|
    decreases |s|
  {
    if |s| > 0 {
      var init := s[..|s| - 1];
      DistinctCardinality(init);
      assert (set x | x in s) == (set x | x in init) + {s[|s| - 1]};
      assert s[|s| - 1] !in (set x | x in init);
    }
  }
}
