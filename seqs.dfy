/**
 * Generic sequence helpers shared by the list comprehensions and counting
 * loops of the model: order-preserving filters, subsequences and tallies.
 */
module Seqs {

  /** The elements of `s` that satisfy `p`, in their original order. */
  function Filter<T>(s: seq<T>, p: T -> bool): (r: seq<T>)
    ensures |r| <= |s|
    ensures forall x :: x in r ==> x in s && p(x)
    ensures forall x :: x in s && p(x) ==> x in r
  {
    if s == [] then []
    else if p(s[0]) then [s[0]] + Filter(s[1..], p)
    else Filter(s[1..], p)
  }

  lemma {:induction false} FilterAppend<T>(a: seq<T>, b: seq<T>, p: T -> bool)
    ensures Filter(a + b, p) == Filter(a, p) + Filter(b, p)
  {
    if a == [] {
      assert a + b == b;
    } else {
      assert (a + b)[1..] == a[1..] + b;
      FilterAppend(a[1..], b, p);
    }
  }

  /** Filtering the prefix one element longer appends at most that element. */
  lemma FilterSnoc<T>(s: seq<T>, i: nat, p: T -> bool)
    requires i < |s|
    ensures Filter(s[..i + 1], p) == Filter(s[..i], p) + (if p(s[i]) then [s[i]] else [])
  {
    assert s[..i + 1] == s[..i] + [s[i]];
    FilterAppend(s[..i], [s[i]], p);
  }

  /** Two predicates that agree on every element of `s` filter it alike. */
  lemma {:induction false} FilterCongruent<T>(s: seq<T>, p: T -> bool, q: T -> bool)
    requires forall k :: 0 <= k < |s| ==> p(s[k]) == q(s[k])
    ensures Filter(s, p) == Filter(s, q)
  {
    if s != [] {
      FilterCongruent(s[1..], p, q);
    }
  }

  /** A filter keeping everything is the identity. */
  lemma {:induction false} FilterAll<T>(s: seq<T>, p: T -> bool)
    requires forall k :: 0 <= k < |s| ==> p(s[k])
    ensures Filter(s, p) == s
  {
    if s != [] {
      FilterAll(s[1..], p);
    }
  }

  /** Two filters in a row keep what both predicates accept. */
  lemma {:induction false} FilterFilter<T>(s: seq<T>, p: T -> bool, q: T -> bool, pq: T -> bool)
    requires forall x :: pq(x) == (p(x) && q(x))
    ensures Filter(Filter(s, p), q) == Filter(s, pq)
  {
    if s != [] {
      FilterFilter(s[1..], p, q, pq);
      if p(s[0]) {
        assert Filter(s, p) == [s[0]] + Filter(s[1..], p);
        assert Filter(s, p)[1..] == Filter(s[1..], p);
      }
    }
  }

  /** A predicate and its negation split a sequence between them. */
  lemma {:induction false} FilterPartition<T>(s: seq<T>, p: T -> bool, notP: T -> bool)
    requires forall x :: notP(x) == !p(x)
    ensures |Filter(s, p)| + |Filter(s, notP)| == |s|
  {
    if s != [] {
      FilterPartition(s[1..], p, notP);
    }
  }

  /** `a` occurs in `b` in order, possibly with gaps (greedy matching). */
  predicate IsSubsequence<T(==)>(a: seq<T>, b: seq<T>)
    decreases |b|
  {
    if a == [] then true
    else if b == [] then false
    else if a[0] == b[0] then IsSubsequence(a[1..], b[1..])
    else IsSubsequence(a, b[1..])
  }

  lemma {:induction false} FilterIsSubsequence<T>(s: seq<T>, p: T -> bool)
    ensures IsSubsequence(Filter(s, p), s)
  {
    if s != [] {
      FilterIsSubsequence(s[1..], p);
      var f := Filter(s[1..], p);
      if !p(s[0]) && f != [] {
        assert f[0] in f;
        assert p(f[0]);
      }
    }
  }

  lemma {:induction false} SubsequenceRefl<T>(s: seq<T>)
    ensures IsSubsequence(s, s)
  {
    if s != [] {
      SubsequenceRefl(s[1..]);
    }
  }

  /** Dropping the first element of `a` keeps it a subsequence. */
  lemma {:induction false} SubsequenceTail<T>(a: seq<T>, s: seq<T>)
    requires a != [] && IsSubsequence(a, s)
    ensures IsSubsequence(a[1..], s)
    decreases |s|, 1
  {
    if a[0] == s[0] {
      SubsequenceSkip(a[1..], s);
    } else {
      SubsequenceTail(a, s[1..]);
      SubsequenceSkip(a[1..], s);
    }
  }

  /** A subsequence of the tail of `s` is a subsequence of `s`. */
  lemma {:induction false} SubsequenceSkip<T>(x: seq<T>, s: seq<T>)
    requires s != [] && IsSubsequence(x, s[1..])
    ensures IsSubsequence(x, s)
    decreases |s|, 0
  {
    if x != [] && x[0] == s[0] {
      SubsequenceTail(x, s[1..]);
    }
  }

  /** A subsequence of a subsequence is a subsequence. */
  lemma {:induction false} SubsequenceTrans<T>(a: seq<T>, b: seq<T>, c: seq<T>)
    requires IsSubsequence(a, b) && IsSubsequence(b, c)
    ensures IsSubsequence(a, c)
    decreases |c|
  {
    if a != [] && c != [] {
      if b[0] == c[0] {
        if a[0] == b[0] {
          SubsequenceTrans(a[1..], b[1..], c[1..]);
        } else {
          SubsequenceTrans(a, b[1..], c[1..]);
          SubsequenceSkip(a, c);
        }
      } else {
        SubsequenceTrans(a, b, c[1..]);
        SubsequenceSkip(a, c);
      }
    }
  }

  /**
   * Tally of a sequence of keys, built the way a counting loop does it:
   * each key in turn raises its entry by one, starting at zero.
   */
  function Tally<K(!new)>(keys: seq<K>): (m: map<K, nat>)
    ensures forall k :: k in m <==> k in keys
  {
    if keys == [] then map[]
    else
      var m0 := Tally(keys[..|keys| - 1]);
      var k := keys[|keys| - 1];
      assert keys == keys[..|keys| - 1] + [k];
      m0[k := (if k in m0 then m0[k] else 0) + 1]
  }

  /** The number of occurrences of `x` in `s`. */
  function Occurrences<T(==)>(s: seq<T>, x: T): nat
  {
    multiset(s)[x]
  }

  lemma {:induction false} TallyCounts<K(!new)>(keys: seq<K>, k: K)
    requires k in keys
    ensures k in Tally(keys) && Tally(keys)[k] == Occurrences(keys, k)
  {
    var n := |keys|;
    var init := keys[..n - 1];
    assert keys == init + [keys[n - 1]];
    if k in init {
      TallyCounts(init, k);
    } else {
      assert multiset(init)[k] == 0;
    }
  }

  /** The distinct elements of `s` in first-occurrence order (a dict's key order). */
  function Distinct<T(==)>(s: seq<T>): (d: seq<T>)
    ensures forall i :: 0 <= i < |d| ==> d[i] in s
    ensures forall i :: 0 <= i < |s| ==> s[i] in d
    ensures forall i, j :: 0 <= i < j < |d| ==> d[i] != d[j]
  {
    if s == [] then []
    else
      var init, x := s[..|s| - 1], s[|s| - 1];
      assert s == init + [x];
      var d := Distinct(init);
      if x in init then d else d + [x]
  }

  /** The sum of the entries of `m` at the keys `ks` (absent keys add nothing). */
  function SumOver<K>(m: map<K, nat>, ks: seq<K>): nat
  {
    if ks == [] then 0
    else
      var k := ks[|ks| - 1];
      SumOver(m, ks[..|ks| - 1]) + (if k in m then m[k] else 0)
  }

  lemma {:induction false} SumOverUnaffected<K>(m: map<K, nat>, ks: seq<K>, k: K, v: nat)
    requires k !in ks
    ensures SumOver(m[k := v], ks) == SumOver(m, ks)
  {
    if ks != [] {
      SumOverUnaffected(m, ks[..|ks| - 1], k, v);
    }
  }

  lemma {:induction false} SumOverBump<K>(m: map<K, nat>, ks: seq<K>, k: K)
    requires k in ks
    requires forall i, j :: 0 <= i < j < |ks| ==> ks[i] != ks[j]
    ensures SumOver(m[k := (if k in m then m[k] else 0) + 1], ks) == SumOver(m, ks) + 1
  {
    var init := ks[..|ks| - 1];
    assert ks == init + [ks[|ks| - 1]];
    if ks[|ks| - 1] == k {
      assert k !in init;
      SumOverUnaffected(m, init, k, (if k in m then m[k] else 0) + 1);
    } else {
      SumOverBump(m, init, k);
    }
  }

  lemma TallySnoc<K(!new)>(keys: seq<K>)
    requires keys != []
    ensures var init, k := keys[..|keys| - 1], keys[|keys| - 1];
            var m := Tally(init);
            Tally(keys) == m[k := (if k in m then m[k] else 0) + 1]
  {
  }

  lemma DistinctSnoc<T>(s: seq<T>)
    requires s != []
    ensures var init, x := s[..|s| - 1], s[|s| - 1];
            Distinct(s) == if x in init then Distinct(init) else Distinct(init) + [x]
  {
  }

  /** One more element adds itself to the distinct elements exactly when it is new. */
  lemma DistinctAppend<T>(s: seq<T>, x: T)
    ensures Distinct(s + [x]) == if x in s then Distinct(s) else Distinct(s) + [x]
  {
    assert (s + [x])[..|s|] == s;
    DistinctSnoc(s + [x]);
  }

  /** The distinct elements are the elements. */
  lemma DistinctMember<T>(s: seq<T>, x: T)
    ensures x in Distinct(s) <==> x in s
  {
    if x in s {
      var i :| 0 <= i < |s| && s[i] == x;
      assert s[i] in Distinct(s);
    }
  }

  /** Each distinct element occurs in `s`, at some position. */
  lemma DistinctIndex<T>(s: seq<T>, i: nat) returns (p: nat)
    requires i < |Distinct(s)|
    ensures p < |s| && s[p] == Distinct(s)[i]
  {
    assert Distinct(s)[i] in s;
    p :| 0 <= p < |s| && s[p] == Distinct(s)[i];
  }

  /**
   * The distinct elements are in first-occurrence order: wherever the later
   * of two of them occurs in `s`, the earlier has already occurred.
   */
  lemma {:induction false} DistinctFirstOrder<T>(s: seq<T>, i: nat, j: nat, q: nat) returns (p: nat)
    requires i < j < |Distinct(s)| && q < |s| && s[q] == Distinct(s)[j]
    ensures p < q && s[p] == Distinct(s)[i]
  {
    var n := |s| - 1;
    var init, x := s[..n], s[n];
    var d := Distinct(init);
    DistinctSnoc(s);
    if x in init {
      assert Distinct(s) == d;
      var q' := q;
      if q == n {
        q' :| 0 <= q' < n && init[q'] == x;
      }
      p := DistinctFirstOrder(init, i, j, q');
    } else if j < |d| {
      assert Distinct(s) == d + [x];
      assert q < n by {
        var r := DistinctIndex(init, j);
        assert s[q] == init[r];
      }
      p := DistinctFirstOrder(init, i, j, q);
    } else {
      assert Distinct(s) == d + [x];
      p := DistinctIndex(init, i);
    }
    assert s[p] == init[p];
  }

  lemma TallyStepSeen<K(!new)>(keys: seq<K>)
    requires keys != [] && keys[|keys| - 1] in keys[..|keys| - 1]
    requires SumOver(Tally(keys[..|keys| - 1]), Distinct(keys[..|keys| - 1])) == |keys| - 1
    ensures SumOver(Tally(keys), Distinct(keys)) == |keys|
  {
    var init, k := keys[..|keys| - 1], keys[|keys| - 1];
    TallySnoc(keys);
    DistinctSnoc(keys);
    assert k in Distinct(init);
    SumOverBump(Tally(init), Distinct(init), k);
  }

  lemma TallyStepNew<K(!new)>(keys: seq<K>)
    requires keys != [] && keys[|keys| - 1] !in keys[..|keys| - 1]
    requires SumOver(Tally(keys[..|keys| - 1]), Distinct(keys[..|keys| - 1])) == |keys| - 1
    ensures SumOver(Tally(keys), Distinct(keys)) == |keys|
  {
    var init, k := keys[..|keys| - 1], keys[|keys| - 1];
    TallySnoc(keys);
    DistinctSnoc(keys);
    var m, d := Tally(init), Distinct(init);
    SumOverUnaffected(m, d, k, 1);
    assert (d + [k])[..|d|] == d;
  }

  /**
   * The counts of a tally, summed over its keys in insertion order, add up
   * to the number of keys counted.
   */
  lemma {:induction false} TallySum<K(!new)>(keys: seq<K>)
    ensures SumOver(Tally(keys), Distinct(keys)) == |keys|
  {
    if keys != [] {
      TallySum(keys[..|keys| - 1]);
      if keys[|keys| - 1] in keys[..|keys| - 1] {
        TallyStepSeen(keys);
      } else {
        TallyStepNew(keys);
      }
    }
  }

  /** `d[k] = d.get(k, 0) + 1`. */
  function Bump<K>(m: map<K, nat>, k: K): map<K, nat>
  {
    m[k := (if k in m then m[k] else 0) + 1]
  }

  /** Counting one more key bumps its count. */
  lemma TallyAppend<K(!new)>(keys: seq<K>, k: K)
    ensures Tally(keys + [k]) == Bump(Tally(keys), k)
  {
    TallySnoc(keys + [k]);
    assert (keys + [k])[..|keys|] == keys;
  }

  // ------------------------------------------------------------ sums

  /** The sum of a sequence of counts. */
  function Sum(xs: seq<nat>): nat
  {
    if xs == [] then 0 else Sum(xs[..|xs| - 1]) + xs[|xs| - 1]
  }

  lemma SumSnoc(xs: seq<nat>, i: nat)
    requires i < |xs|
    ensures Sum(xs[..i + 1]) == Sum(xs[..i]) + xs[i]
  {
    assert xs[..i + 1][..i] == xs[..i];
  }

  /** A prefix and the element after it never sum to more than the whole. */
  lemma {:induction false} SumPrefix(xs: seq<nat>, i: nat)
    requires i < |xs|
    ensures Sum(xs[..i]) + xs[i] <= Sum(xs)
    decreases |xs|
  {
    var n := |xs|;
    if i < n - 1 {
      assert xs[..n - 1][..i] == xs[..i];
      SumPrefix(xs[..n - 1], i);
    } else {
      assert xs[..n - 1] == xs[..i];
    }
  }

  /** A sum is zero exactly when every element is. */
  lemma {:induction false} SumZero(xs: seq<nat>)
    ensures Sum(xs) == 0 <==> forall i :: 0 <= i < |xs| ==> xs[i] == 0
  {
    if xs != [] {
      SumZero(xs[..|xs| - 1]);
      assert forall i :: 0 <= i < |xs| - 1 ==> xs[..|xs| - 1][i] == xs[i];
    }
  }

  /** Overwriting the first element after a prefix moves the boundary past it. */
  lemma UpdateAfterPrefix<T>(a: seq<T>, b: seq<T>, x: T)
    requires |b| > 0
    ensures (a + b)[|a| := x] == (a + [x]) + b[1..]
  {
    assert forall k :: 0 <= k < |a| + |b| ==> (a + b)[|a| := x][k] == ((a + [x]) + b[1..])[k];
  }
}
