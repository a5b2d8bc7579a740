/** Generic sequence vocabulary shared by the query, page and ETL models:
    optional values, sums and counts over a sequence, the subsequence
    relation, first-match lookup and duplicate removal. */
module Seqs {

  datatype Option<+T> = None | Some(value: T)

  function Min(a: int, b: int): int { if a <= b then a else b }

  /** The sum of `g` over the elements of `s`. */
  function SumOf<T>(s: seq<T>, g: T -> int): int
  {
    if s == [] then 0 else g(s[0]) + SumOf(s[1..], g)
  }

  lemma {:induction false} SumOfAppend<T>(a: seq<T>, b: seq<T>, g: T -> int)
    ensures SumOf(a + b, g) == SumOf(a, g) + SumOf(b, g)
  {
    if a == [] {
      assert a + b == b;
    } else {
      assert (a + b)[1..] == a[1..] + b;
      SumOfAppend(a[1..], b, g);
    }
  }

  /** Removing the element at `k` removes one occurrence of it. */
  lemma MultisetRemoveAt<T>(b: seq<T>, k: nat)
    requires k < |b|
    ensures multiset(b[..k] + b[k + 1..]) == multiset(b) - multiset{b[k]}
  {
    assert b == b[..k] + [b[k]] + b[k + 1..];
  }

  /** Two permutations with the same head have tails that are permutations. */
  lemma TailsPermutation<T>(a: seq<T>, b: seq<T>)
    requires a != [] && b != [] && a[0] == b[0] && multiset(a) == multiset(b)
    ensures multiset(a[1..]) == multiset(b[1..])
  {
    assert a == [a[0]] + a[1..];
    assert b == [b[0]] + b[1..];
    assert multiset(a) == multiset{a[0]} + multiset(a[1..]);
    assert multiset(b) == multiset{a[0]} + multiset(b[1..]);
    forall x ensures multiset(a[1..])[x] == multiset(b[1..])[x] {
      assert multiset(a)[x] == multiset(b)[x];
    }
  }

  /** The sum over `b` is the element at `k` plus the sum over the rest. */
  lemma SumOfRemoveAt<T>(b: seq<T>, k: nat, g: T -> int)
    requires k < |b|
    ensures SumOf(b, g) == g(b[k]) + SumOf(b[..k] + b[k + 1..], g)
  {
    assert b == b[..k] + ([b[k]] + b[k + 1..]);
    SumOfAppend(b[..k], [b[k]] + b[k + 1..], g);
    SumOfAppend(b[..k], b[k + 1..], g);
    assert ([b[k]] + b[k + 1..])[1..] == b[k + 1..];
  }

  /** A sum does not depend on the order of the summands. */
  lemma {:induction false} SumOfPermutation<T>(a: seq<T>, b: seq<T>, g: T -> int)
    requires multiset(a) == multiset(b)
    ensures SumOf(a, g) == SumOf(b, g)
  {
    if a == [] {
      assert |b| == |multiset(b)| == 0;
    } else {
      assert a[0] in multiset(b);
      var k :| 0 <= k < |b| && b[k] == a[0];
      var rest := b[..k] + b[k + 1..];
      MultisetRemoveAt(b, k);
      assert a == [a[0]] + a[1..];
      assert multiset(a[1..]) == multiset(a) - multiset{a[0]};
      SumOfPermutation(a[1..], rest, g);
      SumOfRemoveAt(b, k, g);
    }
  }

  /** The number of elements of `s` that satisfy `p`. */
  function Count<T>(s: seq<T>, p: T -> bool): nat
  {
    if s == [] then 0 else (if p(s[0]) then 1 else 0) + Count(s[1..], p)
  }

  lemma {:induction false} CountAppend<T>(a: seq<T>, b: seq<T>, p: T -> bool)
    ensures Count(a + b, p) == Count(a, p) + Count(b, p)
  {
    if a == [] {
      assert a + b == b;
    } else {
      assert (a + b)[1..] == a[1..] + b;
      CountAppend(a[1..], b, p);
    }
  }

  function Indicator<T>(p: T -> bool): T -> int
  {
    (x: T) => if p(x) then 1 else 0
  }

  /** A count is the sum of the indicator of `p`. */
  lemma {:induction false} CountIsSum<T>(s: seq<T>, p: T -> bool)
    ensures Count(s, p) == SumOf(s, Indicator(p))
  {
    if s != [] {
      CountIsSum(s[1..], p);
    }
  }

  /** A count does not depend on the order of the elements. */
  lemma CountPermutation<T>(a: seq<T>, b: seq<T>, p: T -> bool)
    requires multiset(a) == multiset(b)
    ensures Count(a, p) == Count(b, p)
  {
    CountIsSum(a, p);
    CountIsSum(b, p);
    SumOfPermutation(a, b, Indicator(p));
  }

  /** Every element of a prefix of length `k` satisfies `p`, so the prefix
      is counted in full. */
  lemma {:induction false} CountPrefixAll<T>(s: seq<T>, k: nat, p: T -> bool)
    requires k <= |s|
    requires forall i :: 0 <= i < k ==> p(s[i])
    ensures Count(s[..k], p) == k
  {
    if k > 0 {
      assert s[..k][1..] == s[1..][..k - 1];
      CountPrefixAll(s[1..], k - 1, p);
    }
  }

  /** No element of the suffix starting at `k` satisfies `p`. */
  lemma {:induction false} CountSuffixNone<T>(s: seq<T>, k: nat, p: T -> bool)
    requires k <= |s|
    requires forall i :: k <= i < |s| ==> !p(s[i])
    ensures Count(s[k..], p) == 0
    decreases |s| - k
  {
    if k < |s| {
      assert s[k..][1..] == s[k + 1..];
      CountSuffixNone(s, k + 1, p);
    }
  }

  lemma {:induction false} CountBounded<T>(s: seq<T>, p: T -> bool)
    ensures Count(s, p) <= |s|
  {
    if s != [] {
      CountBounded(s[1..], p);
    }
  }

  /** `a` can be obtained from `b` by deleting elements (order is kept). */
  predicate IsSubsequence<T(==)>(a: seq<T>, b: seq<T>)
    decreases |b|
  {
    a == [] ||
    (b != [] &&
     if a[0] == b[0] then IsSubsequence(a[1..], b[1..]) else IsSubsequence(a, b[1..]))
  }

  lemma {:induction false} SubsequenceMembers<T>(a: seq<T>, b: seq<T>)
    requires IsSubsequence(a, b)
    ensures forall x :: x in a ==> x in b
    ensures |a| <= |b|
    decreases |b|
  {
    if a != [] {
      if a[0] == b[0] {
        SubsequenceMembers(a[1..], b[1..]);
        assert a == [a[0]] + a[1..];
        assert b == [b[0]] + b[1..];
      } else {
        SubsequenceMembers(a, b[1..]);
        assert b == [b[0]] + b[1..];
      }
    }
  }

  /** A prefix of a subsequence is still a subsequence. */
  lemma {:induction false} SubsequencePrefix<T>(a: seq<T>, b: seq<T>, k: nat)
    requires IsSubsequence(a, b) && k <= |a|
    ensures IsSubsequence(a[..k], b)
    decreases |b|
  {
    if k > 0 {
      if a[0] == b[0] {
        assert a[..k][1..] == a[1..][..k - 1];
        SubsequencePrefix(a[1..], b[1..], k - 1);
      } else {
        SubsequencePrefix(a, b[1..], k);
      }
    }
  }

  predicate NoDuplicates<T(==)>(s: seq<T>)
  {
    forall i, j :: 0 <= i < j < |s| ==> s[i] != s[j]
  }

  /** The index of the first element of `s` that satisfies `p`, if any: the
      `filter(...).first()` of a query over a table held in `s`. */
  function FindFirst<T>(s: seq<T>, p: T -> bool): (r: Option<nat>)
    ensures r.Some? ==> r.value < |s| && p(s[r.value])
    ensures r.Some? ==> forall j :: 0 <= j < r.value ==> !p(s[j])
    ensures r.None? ==> forall j :: 0 <= j < |s| ==> !p(s[j])
  {
    if s == [] then None
    else if p(s[0]) then Some(0)
    else match FindFirst(s[1..], p)
      case None => None
      case Some(k) => Some(k + 1)
  }

  /** The index of the first occurrence of `x` in `s`. */
  function FirstIndex<T(==)>(s: seq<T>, x: T): (k: nat)
    requires x in s
    ensures k < |s| && s[k] == x && x !in s[..k]
  {
    if s[0] == x then 0
    else
      var k := FirstIndex(s[1..], x);
      assert s[..k + 1] == [s[0]] + s[1..][..k];
      k + 1
  }

  /** The elements of `s` that are not in `seen`, each once, in the order of
      their first occurrence. */
  function DistinctFrom<T(==,!new)>(s: seq<T>, seen: set<T>): (r: seq<T>)
    ensures forall x :: x in r <==> x in s && x !in seen
    ensures NoDuplicates(r)
    ensures IsSubsequence(r, s)
    ensures forall i, j :: 0 <= i < j < |r| ==> FirstIndex(s, r[i]) < FirstIndex(s, r[j])
  {
    if s == [] then []
    else if s[0] in seen then
      var r := DistinctFrom(s[1..], seen);
      assert IsSubsequence(r, s) by { SkipHead(r, s); }
      ShiftFirstIndex(s, r);
      r
    else
      var tail := DistinctFrom(s[1..], seen + {s[0]});
      assert ([s[0]] + tail)[1..] == tail;
      ShiftFirstIndex(s, tail);
      [s[0]] + tail
  }

  /** Past a head that `t` does not contain, first indices in `s` are one
      more than in `s[1..]`. */
  lemma ShiftFirstIndex<T>(s: seq<T>, t: seq<T>)
    requires s != [] && forall i :: 0 <= i < |t| ==> t[i] in s[1..] && t[i] != s[0]
    ensures forall i :: 0 <= i < |t| ==> FirstIndex(s, t[i]) == FirstIndex(s[1..], t[i]) + 1
  {
    forall i | 0 <= i < |t| ensures FirstIndex(s, t[i]) == FirstIndex(s[1..], t[i]) + 1 {
    }
  }

  /** A subsequence of the tail is a subsequence of the whole. */
  lemma {:induction false} SkipHead<T>(a: seq<T>, b: seq<T>)
    requires b != [] && IsSubsequence(a, b[1..])
    ensures IsSubsequence(a, b)
    decreases |b|, 0
  {
    if a != [] && a[0] == b[0] {
      SubsequenceTail(a, b[1..]);
    }
  }

  /** Dropping the head of a non-empty subsequence keeps it a subsequence. */
  lemma {:induction false} SubsequenceTail<T>(a: seq<T>, b: seq<T>)
    requires a != [] && IsSubsequence(a, b)
    ensures IsSubsequence(a[1..], b)
    decreases |b|, 1
  {
    if a[0] == b[0] {
      if a[1..] != [] {
        SubsequenceTail(a[1..], b[1..]);
        SkipHead(a[1..], b);
      }
    } else {
      SubsequenceTail(a, b[1..]);
      SkipHead(a[1..], b);
    }
  }

  /** pandas `drop_duplicates()`: each distinct element once, first
      occurrences kept, original order preserved. */
  function Distinct<T(==,!new)>(s: seq<T>): (r: seq<T>)
    ensures forall x :: x in r <==> x in s
    ensures NoDuplicates(r)
    ensures IsSubsequence(r, s)
    ensures forall i, j :: 0 <= i < j < |r| ==> FirstIndex(s, r[i]) < FirstIndex(s, r[j])
  {
    DistinctFrom(s, {})
  }

  /** `drop_duplicates()` keeps the first of equal rows: of `[a, b, a]`
      it keeps `[a, b]`. */
  lemma DistinctKeepsFirst<T(!new)>(a: T, b: T)
    requires a != b
    ensures Distinct([a, b, a]) == [a, b]
  {
    var s := [a, b, a];
    var r := Distinct(s);
    assert a in r && b in r;
    assert FirstIndex(s, a) == 0 && FirstIndex(s, b) == 1;
    var i :| 0 <= i < |r| && r[i] == a;
    var j :| 0 <= j < |r| && r[j] == b;
    forall k | 0 <= k < |r| ensures r[k] == r[i] || r[k] == r[j] {
      assert r[k] in s;
    }
    assert i < j;
    assert 0 == i || 0 == j;
    assert |r| - 1 == i || |r| - 1 == j;
    assert 1 == i || 1 == j;
    assert r == [r[0], r[1]];
  }
}
