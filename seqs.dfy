/** Sequence helpers shared by the pages: order-keeping filter and substring search. */
module Seqs {

  /** The elements of `s` that satisfy `p`, in their original order. */
  function Filter<T(!new)>(s: seq<T>, p: T -> bool): (r: seq<T>)
    ensures |r| <= |s|
    ensures forall x :: x in r <==> x in s && p(x)
    ensures forall i :: 0 <= i < |r| ==> p(r[i])
  {
    if |s| == 0 then []
    else if p(s[0]) then [s[0]] + Filter(s[1..], p)
    else Filter(s[1..], p)
  }

  /** Filtering distributes over concatenation. */
  lemma {:induction false} FilterAppend<T(!new)>(a: seq<T>, b: seq<T>, p: T -> bool)
    ensures Filter(a + b, p) == Filter(a, p) + Filter(b, p)
  {
    if |a| == 0 {
      assert a + b == b;
    } else {
      assert (a + b)[1..] == a[1..] + b;
      FilterAppend(a[1..], b, p);
    }
  }

  /** A filter whose predicate holds everywhere keeps the whole sequence. */
  lemma {:induction false} FilterAll<T(!new)>(s: seq<T>, p: T -> bool)
    requires forall x :: x in s ==> p(x)
    ensures Filter(s, p) == s
  {
    if |s| > 0 {
      assert forall x :: x in s[1..] ==> x in s;
      FilterAll(s[1..], p);
    }
  }

  /** Filtering twice is filtering once by the conjunction. */
  lemma {:induction false} FilterFilter<T(!new)>(s: seq<T>, p: T -> bool, q: T -> bool, both: T -> bool)
    requires forall x :: both(x) == (p(x) && q(x))
    ensures Filter(Filter(s, p), q) == Filter(s, both)
  {
    if |s| > 0 {
      FilterFilter(s[1..], p, q, both);
      if p(s[0]) {
        assert Filter(s, p) == [s[0]] + Filter(s[1..], p);
        assert Filter(s, p)[1..] == Filter(s[1..], p);
      }
    }
  }

  /** No two positions of `s` share a key. */
  predicate DistinctKeys<T, K(==)>(s: seq<T>, key: T -> K)
  {
    forall i, j :: 0 <= i < |s| && 0 <= j < |s| && key(s[i]) == key(s[j]) ==> i == j
  }

  /** Filtering keeps keys distinct. */
  lemma {:induction false} FilterKeepsDistinct<T(!new), K>(s: seq<T>, p: T -> bool, key: T -> K)
    requires DistinctKeys(s, key)
    ensures DistinctKeys(Filter(s, p), key)
  {
    if |s| > 0 {
      var rest := s[1..];
      assert DistinctKeys(rest, key) by {
        forall i, j | 0 <= i < |rest| && 0 <= j < |rest| && key(rest[i]) == key(rest[j]) ensures i == j {
          assert rest[i] == s[i + 1] && rest[j] == s[j + 1];
        }
      }
      FilterKeepsDistinct(rest, p, key);
      if p(s[0]) {
        var r := Filter(s, p);
        assert r == [s[0]] + Filter(rest, p);
        forall x | x in Filter(rest, p) ensures key(x) != key(s[0]) {
          var k :| 0 <= k < |rest| && rest[k] == x;
          assert s[k + 1] == x;
        }
        forall m | 0 < m < |r| ensures key(r[m]) != key(r[0]) {
          assert r[m] in Filter(rest, p);
        }
        forall i, j | 0 <= i < |r| && 0 <= j < |r| && key(r[i]) == key(r[j]) ensures i == j {
          if i > 0 && j > 0 {
            assert r[i] == Filter(rest, p)[i - 1] && r[j] == Filter(rest, p)[j - 1];
          }
        }
      }
    }
  }

  /** `sub` occurs in `s` as a contiguous run (JavaScript's `String.prototype.includes`). */
  predicate Contains(s: string, sub: string)
  {
    exists i :: 0 <= i <= |s| - |sub| && OccursAt(s, sub, i)
  }

  predicate OccursAt(s: string, sub: string, i: int)
    requires 0 <= i <= |s| - |sub|
  {
    s[i..i + |sub|] == sub
  }

  /** Every string contains the empty string, so an empty search term matches everything. */
  lemma ContainsEmpty(s: string)
    ensures Contains(s, "")
  {
    assert OccursAt(s, "", 0);
  }
}
