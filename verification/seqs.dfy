/** Sequence helpers standing in for the repository's `findAll` queries and
    the `Array.prototype.filter` calls of the services. */
module Seqs {
  import opened Wrappers

  /** `a` can be obtained from `b` by deleting elements, keeping the order. */
  predicate Subseq<T(==)>(a: seq<T>, b: seq<T>)
    decreases |b|
  {
    if |a| == 0 then true
    else if |b| == 0 then false
    else (a[0] == b[0] && Subseq(a[1..], b[1..])) || Subseq(a, b[1..])
  }

  /** The elements of `s` satisfying `f`, in their original order. */
  function Filter<T(==,!new)>(s: seq<T>, f: T -> bool): (r: seq<T>)
    ensures forall x :: x in r <==> x in s && f(x)
    ensures forall i :: 0 <= i < |r| ==> f(r[i])
    ensures |r| <= |s|
    decreases |s|
  {
    if |s| == 0 then []
    else if f(s[0]) then [s[0]] + Filter(s[1..], f)
    else Filter(s[1..], f)
  }

  /** Filtering keeps the relative order of the kept elements. */
  lemma {:induction false} FilterIsSubseq<T(!new)>(s: seq<T>, f: T -> bool)
    ensures Subseq(Filter(s, f), s)
    decreases |s|
  {
    if |s| == 0 {
    } else if f(s[0]) {
      FilterIsSubseq(s[1..], f);
      assert Filter(s, f) == [s[0]] + Filter(s[1..], f);
      assert (Filter(s, f))[1..] == Filter(s[1..], f);
    } else {
      FilterIsSubseq(s[1..], f);
    }
  }

  /** A filter that keeps everything is the identity. */
  lemma {:induction false} FilterAll<T(!new)>(s: seq<T>, f: T -> bool)
    requires forall x :: x in s ==> f(x)
    ensures Filter(s, f) == s
    decreases |s|
  {
    if |s| > 0 {
      assert forall x :: x in s[1..] ==> x in s;
      FilterAll(s[1..], f);
      assert [s[0]] + s[1..] == s;
    }
  }

  /** Subsequence is transitive. */
  lemma {:induction false} SubseqTrans<T>(a: seq<T>, b: seq<T>, c: seq<T>)
    requires Subseq(a, b) && Subseq(b, c)
    ensures Subseq(a, c)
    decreases |c|
  {
    if |a| == 0 {
    } else if |c| == 0 {
    } else if |b| > 0 && b[0] == c[0] && Subseq(b[1..], c[1..]) {
      if a[0] == b[0] && Subseq(a[1..], b[1..]) {
        SubseqTrans(a[1..], b[1..], c[1..]);
      } else {
        SubseqTrans(a, b[1..], c[1..]);
      }
    } else {
      SubseqTrans(a, b, c[1..]);
    }
  }

  lemma {:induction false} FilterConcat<T(!new)>(a: seq<T>, b: seq<T>, f: T -> bool)
    ensures Filter(a + b, f) == Filter(a, f) + Filter(b, f)
    decreases |a|
  {
    if |a| > 0 {
      assert (a + b)[1..] == a[1..] + b;
      FilterConcat(a[1..], b, f);
    } else {
      assert a + b == b;
    }
  }

  /** A filter that rejects exactly one position removes that position. */
  lemma FilterRemovesOne<T(!new)>(s: seq<T>, i: nat, f: T -> bool)
    requires i < |s| && !f(s[i])
    requires forall k :: 0 <= k < |s| && k != i ==> f(s[k])
    ensures Filter(s, f) == s[..i] + s[i + 1..]
  {
    var pre, post := s[..i], s[i + 1..];
    assert s == (pre + [s[i]]) + post;
    assert forall x :: x in pre ==> f(x) by {
      forall x | x in pre
        ensures f(x)
      {
        var k :| 0 <= k < |pre| && pre[k] == x;
        assert s[k] == x;
      }
    }
    assert forall x :: x in post ==> f(x) by {
      forall x | x in post
        ensures f(x)
      {
        var k :| 0 <= k < |post| && post[k] == x;
        assert s[i + 1 + k] == x;
      }
    }
    FilterAll(pre, f);
    FilterAll(post, f);
    assert Filter([s[i]], f) == [];
    FilterConcat(pre, [s[i]], f);
    assert Filter(pre + [s[i]], f) == pre;
    FilterConcat(pre + [s[i]], post, f);
  }

  /** Each element occurs in the filtered sequence as often as in the input
      when it passes the test, and not at all otherwise. */
  lemma {:induction false} FilterMultiplicity<T(!new)>(s: seq<T>, f: T -> bool, x: T)
    ensures multiset(Filter(s, f))[x] == if f(x) then multiset(s)[x] else 0
    decreases |s|
  {
    if |s| > 0 {
      FilterMultiplicity(s[1..], f, x);
      assert s == [s[0]] + s[1..];
      assert multiset(s) == multiset{s[0]} + multiset(s[1..]);
      if f(s[0]) {
        assert multiset(Filter(s, f)) == multiset{s[0]} + multiset(Filter(s[1..], f));
      }
    }
  }

  /** `findByPk`: the position of the first element whose key is `id`. */
  function FindIndex<T>(s: seq<T>, key: T -> int, id: int): (r: Option<nat>)
    ensures r.Some? ==> r.value < |s| && key(s[r.value]) == id
    ensures r.Some? ==> forall k :: 0 <= k < r.value ==> key(s[k]) != id
    ensures r.None? <==> forall k :: 0 <= k < |s| ==> key(s[k]) != id
    decreases |s|
  {
    if |s| == 0 then None
    else if key(s[0]) == id then Some(0)
    else match FindIndex(s[1..], key, id)
      case None => None
      case Some(k) => Some(k + 1)
  }

  /** No two positions of `s` carry the same key. */
  predicate DistinctKeys<T>(s: seq<T>, key: T -> int) {
    forall i, j :: 0 <= i < |s| && 0 <= j < |s| && i != j ==> key(s[i]) != key(s[j])
  }

  /** Filtering a sequence whose keys are pairwise distinct keeps them distinct. */
  lemma {:induction false} FilterKeepsDistinctKeys<T(!new)>(s: seq<T>, f: T -> bool, key: T -> int)
    requires DistinctKeys(s, key)
    ensures DistinctKeys(Filter(s, f), key)
    decreases |s|
  {
    if |s| > 0 {
      var tail := s[1..];
      assert DistinctKeys(tail, key) by {
        forall i, j | 0 <= i < |tail| && 0 <= j < |tail| && i != j
          ensures key(tail[i]) != key(tail[j])
        {
          assert tail[i] == s[i + 1] && tail[j] == s[j + 1];
        }
      }
      FilterKeepsDistinctKeys(tail, f, key);
      var t := Filter(tail, f);
      if f(s[0]) {
        var r := Filter(s, f);
        assert r == [s[0]] + t;
        forall x | x in t
          ensures key(x) != key(s[0])
        {
          var k :| 0 <= k < |tail| && tail[k] == x;
          assert s[k + 1] == x;
        }
        forall i, j | 0 <= i < |r| && 0 <= j < |r| && i != j
          ensures key(r[i]) != key(r[j])
        {
          if i > 0 && j > 0 {
            assert r[i] == t[i - 1] && r[j] == t[j - 1];
          } else if i == 0 {
            assert r[0] == s[0] && r[j] == t[j - 1] && r[j] in t;
          } else {
            assert r[0] == s[0] && r[i] == t[i - 1] && r[i] in t;
          }
        }
      }
    }
  }
}
