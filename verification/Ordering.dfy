/**
  The order in which rows are ranked: by a timestamp and then by a string key.
  Both the eviction planner and the download queue sort by such a pair, so the sort
  and the facts about it are stated once here, for any element type.
*/
module Ordering {

  /** `a` sorts strictly before `b` in code-point order. */
  predicate StringLess(a: string, b: string)
  {
    if b == [] then false
    else if a == [] then true
    else a[0] < b[0] || (a[0] == b[0] && StringLess(a[1..], b[1..]))
  }

  /** Position `k` is where `a` ends or first has the smaller character. */
  ghost predicate LessAt(a: string, b: string, k: nat)
  {
    && k <= |a| && k < |b| && (forall i :: 0 <= i < k ==> a[i] == b[i])
    && (k == |a| || a[k] < b[k])
  }

  lemma {:induction false} StringLessIff(a: string, b: string)
    ensures StringLess(a, b) <==> exists k: nat :: LessAt(a, b, k)
  {
    if a == [] && b != [] {
      assert LessAt(a, b, 0);
    } else if a != [] && b != [] && a[0] < b[0] {
      assert LessAt(a, b, 0);
    } else if a != [] && b != [] && a[0] == b[0] {
      StringLessIff(a[1..], b[1..]);
      if k: nat :| LessAt(a[1..], b[1..], k) {
        LessFurther(a, b, k);
      }
      if k: nat :| LessAt(a, b, k) {
        LessNearer(a, b, k);
      }
    }
  }

  lemma LessFurther(a: string, b: string, k: nat)
    requires a != [] && b != [] && a[0] == b[0] && LessAt(a[1..], b[1..], k)
    ensures LessAt(a, b, k + 1)
  {
    assert forall i :: 1 <= i < k + 1 ==> a[i] == a[1..][i - 1] && b[i] == b[1..][i - 1];
  }

  lemma LessNearer(a: string, b: string, k: nat)
    requires a != [] && b != [] && a[0] == b[0] && LessAt(a, b, k)
    ensures k > 0 && LessAt(a[1..], b[1..], k - 1)
  {
  }

  lemma {:induction false} StringLessAsymmetric(a: string, b: string)
    ensures !(StringLess(a, b) && StringLess(b, a))
  {
    if a != [] && b != [] && a[0] == b[0] {
      StringLessAsymmetric(a[1..], b[1..]);
    }
  }

  lemma {:induction false} StringLessTransitive(a: string, b: string, c: string)
    requires StringLess(a, b) && StringLess(b, c)
    ensures StringLess(a, c)
  {
    if a != [] && a[0] == b[0] && b[0] == c[0] {
      StringLessTransitive(a[1..], b[1..], c[1..]);
    }
  }

  lemma {:induction false} StringLessTotal(a: string, b: string)
    ensures a == b || StringLess(a, b) || StringLess(b, a)
  {
    if a != [] && b != [] && a[0] == b[0] {
      StringLessTotal(a[1..], b[1..]);
      assert a == [a[0]] + a[1..] && b == [b[0]] + b[1..];
    }
  }

  datatype Rank = Rank(at: int, key: string)

  predicate Before(a: Rank, b: Rank)
  {
    a.at < b.at || (a.at == b.at && StringLess(a.key, b.key))
  }

  lemma BeforeTransitive(a: Rank, b: Rank, c: Rank)
    requires !Before(b, a) && !Before(c, b)
    ensures !Before(c, a)
  {
    if Before(c, a) && c.at == a.at {
      StringLessTotal(a.key, b.key);
      StringLessTotal(b.key, c.key);
      if StringLess(a.key, b.key) {
        if StringLess(b.key, c.key) {
          StringLessTransitive(a.key, b.key, c.key);
        }
        StringLessAsymmetric(a.key, c.key);
      }
    }
  }

  lemma BeforeTotal(a: Rank, b: Rank)
    ensures a == b || Before(a, b) || Before(b, a)
    ensures !(Before(a, b) && Before(b, a))
  {
    StringLessTotal(a.key, b.key);
    StringLessAsymmetric(a.key, b.key);
  }

  ghost predicate Ordered<T>(xs: seq<T>, rank: T -> Rank)
  {
    forall i, j :: 0 <= i < j < |xs| ==> !Before(rank(xs[j]), rank(xs[i]))
  }

  function Insert<T>(x: T, xs: seq<T>, rank: T -> Rank): seq<T>
  {
    if xs == [] || !Before(rank(xs[0]), rank(x)) then [x] + xs
    else [xs[0]] + Insert(x, xs[1..], rank)
  }

  /** The stable sort of `xs` by rank. */
  function SortByRank<T>(xs: seq<T>, rank: T -> Rank): seq<T>
  {
    if xs == [] then [] else Insert(xs[0], SortByRank(xs[1..], rank), rank)
  }

  lemma {:induction false} InsertPermutes<T>(x: T, xs: seq<T>, rank: T -> Rank)
    ensures multiset(Insert(x, xs, rank)) == multiset{x} + multiset(xs)
  {
    if xs != [] && Before(rank(xs[0]), rank(x)) {
      InsertPermutes(x, xs[1..], rank);
      assert xs == [xs[0]] + xs[1..];
    }
  }

  lemma {:induction false} InsertOrdered<T>(x: T, xs: seq<T>, rank: T -> Rank)
    requires Ordered(xs, rank)
    ensures Ordered(Insert(x, xs, rank), rank)
  {
    var ys := Insert(x, xs, rank);
    if xs == [] {
    } else if !Before(rank(xs[0]), rank(x)) {
      forall j | 0 < j < |ys| ensures !Before(rank(ys[j]), rank(x)) {
        if j > 1 { BeforeTransitive(rank(x), rank(xs[0]), rank(ys[j])); }
      }
    } else {
      var tail := Insert(x, xs[1..], rank);
      InsertOrdered(x, xs[1..], rank);
      InsertPermutes(x, xs[1..], rank);
      BeforeTotal(rank(xs[0]), rank(x));
      forall j | 0 < j < |ys| ensures !Before(rank(ys[j]), rank(xs[0])) {
        assert ys[j] == tail[j - 1] && tail[j - 1] in multiset(tail);
        if ys[j] != x {
          assert ys[j] in multiset(xs[1..]);
          assert ys[j] in xs[1..];
        }
      }
    }
  }

  /** The sort returns the same elements, in order. */
  lemma {:induction false} SortSorts<T>(xs: seq<T>, rank: T -> Rank)
    ensures multiset(SortByRank(xs, rank)) == multiset(xs)
    ensures Ordered(SortByRank(xs, rank), rank)
    ensures |SortByRank(xs, rank)| == |xs|
    ensures forall x :: x in SortByRank(xs, rank) <==> x in xs
  {
    if xs != [] {
      SortSorts(xs[1..], rank);
      InsertOrdered(xs[0], SortByRank(xs[1..], rank), rank);
      InsertPermutes(xs[0], SortByRank(xs[1..], rank), rank);
      assert xs == [xs[0]] + xs[1..];
    }
    SameElements(SortByRank(xs, rank), xs);
  }

  lemma SameElements<T>(a: seq<T>, b: seq<T>)
    requires multiset(a) == multiset(b)
    ensures |a| == |b|
    ensures forall x :: x in a <==> x in b
  {
    assert |multiset(a)| == |a| && |multiset(b)| == |b|;
    assert forall x :: x in a <==> x in multiset(a);
    assert forall x :: x in b <==> x in multiset(b);
  }

  /** Distinct elements have distinct ranks. */
  ghost predicate RankIdentifies<T>(xs: seq<T>, rank: T -> Rank)
  {
    forall i, j :: 0 <= i < |xs| && 0 <= j < |xs| && rank(xs[i]) == rank(xs[j]) ==> xs[i] == xs[j]
  }

  lemma FirstIsLeast<T>(xs: seq<T>, x: T, rank: T -> Rank)
    requires Ordered(xs, rank) && x in xs
    ensures !Before(rank(x), rank(xs[0]))
  {
    var i :| 0 <= i < |xs| && xs[i] == x;
    BeforeTotal(rank(x), rank(x));
  }

  /** Two ordered arrangements of the same elements agree once the rank tells them apart. */
  lemma {:induction false} OrderedUnique<T>(a: seq<T>, b: seq<T>, rank: T -> Rank)
    requires multiset(a) == multiset(b)
    requires Ordered(a, rank) && Ordered(b, rank) && RankIdentifies(a, rank)
    ensures a == b
  {
    SameElements(a, b);
    if a != [] {
      FirstIsLeast(a, b[0], rank);
      FirstIsLeast(b, a[0], rank);
      BeforeTotal(rank(a[0]), rank(b[0]));
      assert a[0] == b[0] by {
        var j :| 0 <= j < |a| && a[j] == b[0];
      }
      TailMultiset(a);
      TailMultiset(b);
      TailOrdered(a, rank);
      TailOrdered(b, rank);
      OrderedUnique(a[1..], b[1..], rank);
      assert a == [a[0]] + a[1..] && b == [b[0]] + b[1..];
    }
  }

  lemma TailMultiset<T>(a: seq<T>)
    requires a != []
    ensures multiset(a[1..]) == multiset(a) - multiset{a[0]}
  {
    assert a == [a[0]] + a[1..];
  }

  lemma TailOrdered<T>(a: seq<T>, rank: T -> Rank)
    requires a != [] && Ordered(a, rank)
    ensures Ordered(a[1..], rank)
    ensures RankIdentifies(a, rank) ==> RankIdentifies(a[1..], rank)
  {
    var t := a[1..];
    assert forall i :: 0 <= i < |t| ==> t[i] == a[i + 1];
  }

  /** When the rank tells the elements apart, the sort does not depend on the input order. */
  lemma SortOrderIndependent<T>(a: seq<T>, b: seq<T>, rank: T -> Rank)
    requires multiset(a) == multiset(b) && RankIdentifies(a, rank)
    ensures SortByRank(a, rank) == SortByRank(b, rank)
  {
    SortSorts(a, rank);
    SortSorts(b, rank);
    RankIdentifiesSorted(a, rank);
    OrderedUnique(SortByRank(a, rank), SortByRank(b, rank), rank);
  }

  lemma RankIdentifiesSorted<T>(a: seq<T>, rank: T -> Rank)
    requires RankIdentifies(a, rank)
    ensures RankIdentifies(SortByRank(a, rank), rank)
  {
    SortSorts(a, rank);
    var s := SortByRank(a, rank);
    forall i, j | 0 <= i < |s| && 0 <= j < |s| && rank(s[i]) == rank(s[j]) ensures s[i] == s[j] {
      assert s[i] in multiset(s) && s[j] in multiset(s);
      assert s[i] in multiset(a) && s[j] in multiset(a);
      var p :| 0 <= p < |a| && a[p] == s[i];
      var q :| 0 <= q < |a| && a[q] == s[j];
    }
  }
}
