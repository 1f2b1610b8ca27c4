/**
 * The list operations the generator borrows from .NET (Sum, Min, Max, Sort, Reverse,
 * Enumerable.Range, Enumerable.Repeat), stated once for every module that uses them.
 */
module Seqs {

  /** An error path: the source's exceptions become Fail values. */
  datatype Result<T> = Ok(value: T) | Fail(reason: string)

  /** Enumerable.Sum, folded left to right. */
  function Sum(s: seq<real>): real
  {
    if |s| == 0 then 0.0 else s[0] + Sum(s[1..])
  }

  lemma {:induction false} SumSnoc(s: seq<real>, x: real)
    ensures Sum(s + [x]) == Sum(s) + x
  {
    if |s| > 0 {
      assert (s + [x])[1..] == s[1..] + [x];
      SumSnoc(s[1..], x);
    }
  }

  lemma {:induction false} SumConcat(a: seq<real>, b: seq<real>)
    ensures Sum(a + b) == Sum(a) + Sum(b)
  {
    if |a| > 0 {
      assert (a + b)[1..] == a[1..] + b;
      SumConcat(a[1..], b);
    } else {
      assert a + b == b;
    }
  }

  /** Every element multiplied by k (a LINQ Select(x => x * k)). */
  function Scale(s: seq<real>, k: real): (r: seq<real>)
    ensures |r| == |s|
    ensures forall i :: 0 <= i < |s| ==> r[i] == s[i] * k
  {
    seq(|s|, i requires 0 <= i < |s| => s[i] * k)
  }

  /** Scaling every element scales the sum. */
  lemma {:induction false} SumScale(s: seq<real>, k: real)
    ensures Sum(Scale(s, k)) == Sum(s) * k
  {
    if |s| > 0 {
      var t := Scale(s, k)[1..];
      assert |t| == |s| - 1;
      assert forall i :: 0 <= i < |t| ==> t[i] == s[1..][i] * k;
      assert t == Scale(s[1..], k);
      SumScale(s[1..], k);
    }
  }

  /** Every element plus d (a LINQ Select(x => x + d)). */
  function Shift(s: seq<real>, d: real): (r: seq<real>)
    ensures |r| == |s|
    ensures forall i :: 0 <= i < |s| ==> r[i] == s[i] + d
  {
    seq(|s|, i requires 0 <= i < |s| => s[i] + d)
  }

  /** Shifting keeps the order of a list. */
  lemma ShiftSorted(s: seq<real>, d: real)
    requires SortedAsc(s)
    ensures SortedAsc(Shift(s, d))
  {
  }

  /** Shifting moves the maximum by the same amount. */
  lemma MaxOfShift(s: seq<real>, d: real)
    requires |s| > 0
    ensures MaxOf(Shift(s, d)) == MaxOf(s) + d
  {
    var m, ms := MaxOf(s), MaxOf(Shift(s, d));
    var j :| 0 <= j < |s| && Shift(s, d)[j] == ms;
    var k :| 0 <= k < |s| && s[k] == m;
    assert Shift(s, d)[k] == m + d;
  }

  /** List.Reverse. */
  function Reverse<T>(s: seq<T>): (r: seq<T>)
    ensures |r| == |s|
    ensures forall i :: 0 <= i < |s| ==> r[i] == s[|s| - 1 - i]
  {
    seq(|s|, i requires 0 <= i < |s| => s[|s| - 1 - i])
  }

  lemma {:induction false} ReverseMultiset<T>(s: seq<T>)
    ensures multiset(Reverse(s)) == multiset(s)
  {
    if |s| > 0 {
      assert Reverse(s) == Reverse(s[1..]) + [s[0]];
      ReverseMultiset(s[1..]);
      assert s == [s[0]] + s[1..];
    }
  }

  lemma {:induction false} SumReverse(s: seq<real>)
    ensures Sum(Reverse(s)) == Sum(s)
  {
    if |s| > 0 {
      assert Reverse(s) == Reverse(s[1..]) + [s[0]];
      SumReverse(s[1..]);
      SumSnoc(Reverse(s[1..]), s[0]);
    }
  }

  /** Reversing an ascending list gives a descending one. */
  lemma ReverseSortedAsc(s: seq<real>)
    requires SortedAsc(s)
    ensures SortedDesc(Reverse(s))
  {
  }

  /** Reversing a strictly ascending list gives a strictly descending one. */
  lemma ReverseStrictlyAscending(s: seq<int>)
    requires StrictlyAscending(s)
    ensures StrictlyDescending(Reverse(s))
  {
  }

  /** Enumerable.Repeat. */
  function Repeat<T>(x: T, n: nat): (r: seq<T>)
    ensures |r| == n && forall i :: 0 <= i < n ==> r[i] == x
  {
    seq(n, _ => x)
  }

  /** Enumerable.Range(start, count). */
  function Range(start: int, count: nat): (r: seq<int>)
    ensures |r| == count && forall i :: 0 <= i < count ==> r[i] == start + i
  {
    seq(count, i => start + i)
  }

  predicate SortedAsc(s: seq<real>)
  {
    forall i, j :: 0 <= i < j < |s| ==> s[i] <= s[j]
  }

  predicate SortedDesc(s: seq<real>)
  {
    forall i, j :: 0 <= i < j < |s| ==> s[i] >= s[j]
  }

  predicate StrictlyAscending(s: seq<int>)
  {
    forall i, j :: 0 <= i < j < |s| ==> s[i] < s[j]
  }

  predicate StrictlyDescending(s: seq<int>)
  {
    forall i, j :: 0 <= i < j < |s| ==> s[i] > s[j]
  }

  /** Enumerable.Min of a non-empty list. */
  function MinOf(s: seq<real>): (m: real)
    requires |s| > 0
    ensures m in s && forall i :: 0 <= i < |s| ==> m <= s[i]
  {
    if |s| == 1 then s[0]
    else
      var rest := MinOf(s[1..]);
      if s[0] <= rest then s[0] else rest
  }

  /** The first position holding the least element of a non-empty list: where an
      ascending sort by value puts its first entry when ties keep their order. */
  function FirstLeast(s: seq<real>): (r: nat)
    requires |s| > 0
    ensures r < |s| && forall k :: 0 <= k < |s| ==> s[r] <= s[k]
    ensures forall k :: 0 <= k < r ==> s[r] < s[k]
  {
    var least := MinOf(s);
    var r := FindIndex(s, (x: real) => x == least);
    assert r >= 0 by {
      var k :| 0 <= k < |s| && s[k] == least;
    }
    assert s[r] == least;
    r
  }

  /** Enumerable.Max of a non-empty list. */
  function MaxOf(s: seq<real>): (m: real)
    requires |s| > 0
    ensures m in s && forall i :: 0 <= i < |s| ==> s[i] <= m
  {
    if |s| == 1 then s[0]
    else
      var rest := MaxOf(s[1..]);
      if s[0] >= rest then s[0] else rest
  }

  /** A list of integers as reals, position for position. */
  function AsReals(s: seq<int>): (r: seq<real>)
    ensures |r| == |s| && forall i :: 0 <= i < |s| ==> r[i] == s[i] as real
  {
    seq(|s|, i requires 0 <= i < |s| => s[i] as real)
  }

  /** Enumerable.Max of a non-empty list of integers: MaxOf of the list as reals. */
  function MaxInt(s: seq<int>): (m: int)
    requires |s| > 0
    ensures m in s && forall i :: 0 <= i < |s| ==> s[i] <= m
  {
    var top := MaxOf(AsReals(s));
    assert top.Floor in s && top.Floor as real == top by {
      var k :| 0 <= k < |s| && AsReals(s)[k] == top;
    }
    top.Floor
  }

  /** Enumerable.Min of a non-empty list of integers: MinOf of the list as reals. */
  function MinInt(s: seq<int>): (m: int)
    requires |s| > 0
    ensures m in s && forall i :: 0 <= i < |s| ==> m <= s[i]
  {
    var least := MinOf(AsReals(s));
    assert least.Floor in s && least.Floor as real == least by {
      var k :| 0 <= k < |s| && AsReals(s)[k] == least;
    }
    least.Floor
  }

  /** Places x in front of the first element not smaller than it. */
  function Insert(x: real, s: seq<real>): (r: seq<real>)
    requires SortedAsc(s)
    ensures |r| == |s| + 1
    ensures r[0] == (if |s| == 0 || x <= s[0] then x else s[0])
    ensures SortedAsc(r)
    ensures multiset(r) == multiset(s) + multiset{x}
  {
    if |s| == 0 then [x]
    else if x <= s[0] then [x] + s
    else
      var tail := Insert(x, s[1..]);
      assert s == [s[0]] + s[1..];
      [s[0]] + tail
  }

  /** List<float>.Sort: ascending order. Float sorting is unstable in .NET, but equal
      floats cannot be told apart, so the sorted list is unique (see SortedUnique). */
  function SortAsc(s: seq<real>): (r: seq<real>)
    ensures SortedAsc(r)
    ensures multiset(r) == multiset(s)
    ensures |r| == |s|
  {
    if |s| == 0 then []
    else
      assert s == [s[0]] + s[1..];
      Insert(s[0], SortAsc(s[1..]))
  }

  /** Entries ranked by their second component, largest first. */
  predicate RankedDesc(s: seq<(int, real)>)
  {
    forall i, j :: 0 <= i < j < |s| ==> s[i].1 >= s[j].1
  }

  /** Places x in front of the first entry ranked no higher. */
  function InsertRanked(x: (int, real), s: seq<(int, real)>): (r: seq<(int, real)>)
    requires RankedDesc(s)
    ensures |r| == |s| + 1
    ensures r[0] == (if |s| == 0 || x.1 >= s[0].1 then x else s[0])
    ensures RankedDesc(r)
    ensures multiset(r) == multiset(s) + multiset{x}
  {
    if |s| == 0 then [x]
    else if x.1 >= s[0].1 then [x] + s
    else
      var tail := InsertRanked(x, s[1..]);
      assert s == [s[0]] + s[1..];
      [s[0]] + tail
  }

  /** List.Sort with a descending comparison on the second component. The .NET sort is
      unstable; this one puts later entries first among equals. */
  function SortRankedDesc(s: seq<(int, real)>): (r: seq<(int, real)>)
    ensures RankedDesc(r)
    ensures multiset(r) == multiset(s)
    ensures |r| == |s|
  {
    if |s| == 0 then []
    else
      assert s == [s[0]] + s[1..];
      InsertRanked(s[0], SortRankedDesc(s[1..]))
  }

  /** Two ascending lists with the same elements are the same list. */
  lemma {:induction false} SortedUnique(a: seq<real>, b: seq<real>)
    requires SortedAsc(a) && SortedAsc(b) && multiset(a) == multiset(b)
    ensures a == b
  {
    assert |a| == |multiset(a)| && |b| == |multiset(b)|;
    if |a| > 0 {
      SortedHeadIsLeast(a, b[0]);
      SortedHeadIsLeast(b, a[0]);
      SortedTails(a, b);
      SortedUnique(a[1..], b[1..]);
      SameHeadSameTail(a, b);
    }
  }

  /** The head of an ascending list is at most any element of it. */
  lemma SortedHeadIsLeast(s: seq<real>, x: real)
    requires SortedAsc(s) && x in multiset(s)
    ensures s[0] <= x
  {
    var j :| 0 <= j < |s| && s[j] == x;
  }

  /** Dropping the same head from two ascending lists with the same elements leaves two
      ascending lists with the same elements. */
  lemma SortedTails(a: seq<real>, b: seq<real>)
    requires SortedAsc(a) && SortedAsc(b) && multiset(a) == multiset(b)
    requires |a| > 0 && |b| > 0 && a[0] == b[0]
    ensures SortedAsc(a[1..]) && SortedAsc(b[1..]) && multiset(a[1..]) == multiset(b[1..])
  {
    MultisetTail(a);
    MultisetTail(b);
  }

  lemma MultisetTail(s: seq<real>)
    requires |s| > 0
    ensures multiset(s[1..]) == multiset(s) - multiset{s[0]}
  {
    assert s == [s[0]] + s[1..];
  }

  lemma SameHeadSameTail(a: seq<real>, b: seq<real>)
    requires |a| > 0 && |b| > 0 && a[0] == b[0] && a[1..] == b[1..]
    ensures a == b
  {
    assert a == [a[0]] + a[1..] && b == [b[0]] + b[1..];
  }

  /** Sorting a list that is already ascending leaves it unchanged. */
  lemma SortOfSorted(s: seq<real>)
    requires SortedAsc(s)
    ensures SortAsc(s) == s
  {
    SortedUnique(SortAsc(s), s);
  }

  /** Sorting keeps the sum. */
  lemma {:induction false} SumSortAsc(s: seq<real>)
    ensures Sum(SortAsc(s)) == Sum(s)
  {
    if |s| > 0 {
      SumSortAsc(s[1..]);
      SumInsert(s[0], SortAsc(s[1..]));
    }
  }

  lemma {:induction false} SumInsert(x: real, s: seq<real>)
    requires SortedAsc(s)
    ensures Sum(Insert(x, s)) == x + Sum(s)
  {
    if |s| > 0 && x > s[0] {
      SumInsert(x, s[1..]);
      assert Insert(x, s)[1..] == Insert(x, s[1..]);
    }
  }

  /** List.FindIndex: the first position whose element satisfies p, or -1. */
  function FindIndex<T>(s: seq<T>, p: T -> bool): (r: int)
    ensures -1 <= r < |s|
    ensures r == -1 <==> forall k :: 0 <= k < |s| ==> !p(s[k])
    ensures r >= 0 ==> p(s[r]) && forall k :: 0 <= k < r ==> !p(s[k])
  {
    if |s| == 0 then -1
    else if p(s[0]) then 0
    else
      var rest := FindIndex(s[1..], p);
      assert forall k :: 1 <= k < |s| ==> s[k] == s[1..][k - 1];
      if rest == -1 then -1 else rest + 1
  }

  /** A prefix one element longer is the shorter prefix followed by that element. */
  lemma TakeSnoc<T>(s: seq<T>, i: nat)
    requires i < |s|
    ensures s[..i + 1] == s[..i] + [s[i]]
  {
  }

  /** The running totals of s on top of acc: element i is acc plus the sum of s[0..i],
      as the loop that keeps adding the next element to a total and records it. */
  function RunningSums(s: seq<real>, acc: real): (r: seq<real>)
    ensures |r| == |s|
    ensures forall i :: 0 <= i < |s| ==> r[i] == acc + Sum(s[..i + 1])
  {
    if |s| == 0 then []
    else
      var rest := RunningSums(s[1..], acc + s[0]);
      PrefixSumStep(s);
      [acc + s[0]] + rest
  }

  lemma PrefixSumStep(s: seq<real>)
    requires |s| > 0
    ensures forall i :: 0 <= i < |s| ==> Sum(s[..i + 1]) == s[0] + Sum(s[1..][..i])
  {
    forall i | 0 <= i < |s|
      ensures Sum(s[..i + 1]) == s[0] + Sum(s[1..][..i])
    {
      assert s[..i + 1][1..] == s[1..][..i];
    }
  }
  /** The positions below n where flags holds, in order. */
  function Where(flags: seq<bool>, n: nat): seq<int>
    requires n <= |flags|
  {
    if n == 0 then [] else Where(flags, n - 1) + (if flags[n - 1] then [n - 1] else [])
  }

  /** The values at the positions below n where flags holds, in order. */
  function PickWhere<T>(flags: seq<bool>, vals: seq<T>, n: nat): seq<T>
    requires n <= |flags| == |vals|
  {
    if n == 0 then [] else PickWhere(flags, vals, n - 1) + (if flags[n - 1] then [vals[n - 1]] else [])
  }

  /** Where lists exactly the flagged positions, each once, in increasing order. */
  lemma {:induction false} WhereExact(flags: seq<bool>, n: nat)
    requires n <= |flags|
    ensures forall i :: i in Where(flags, n) <==> 0 <= i < n && flags[i]
    ensures StrictlyAscending(Where(flags, n))
  {
    if n > 0 {
      WhereExact(flags, n - 1);
      var w := Where(flags, n - 1);
      forall k | 0 <= k < |w|
        ensures w[k] < n - 1
      {
        assert w[k] in w;
      }
    }
  }

  /** PickWhere picks one value for each flagged position, the value at it. */
  lemma {:induction false} PickWhereAligned<T>(flags: seq<bool>, vals: seq<T>, n: nat)
    requires n <= |flags| == |vals|
    ensures |PickWhere(flags, vals, n)| == |Where(flags, n)|
    ensures forall k :: 0 <= k < |Where(flags, n)| ==> 0 <= Where(flags, n)[k] < n && PickWhere(flags, vals, n)[k] == vals[Where(flags, n)[k]]
  {
    if n > 0 {
      PickWhereAligned(flags, vals, n - 1);
    }
  }
}
