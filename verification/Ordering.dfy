/** Sorting and order statistics. `Sort` stands for the library sorts the
    sources call; rank facts are stated by counting, so that they can be added
    up over the parts of a split sample. */
module Ordering {
  import opened Reals

  ghost predicate TotalOrder<T(!new)>(le: (T, T) -> bool) {
    && (forall x, y :: le(x, y) || le(y, x))
    && (forall x, y, z :: le(x, y) && le(y, z) ==> le(x, z))
  }

  predicate IntLe(a: int, b: int) { a <= b }
  predicate RealLe(a: real, b: real) { a <= b }

  lemma IntOrder()
    ensures TotalOrder(IntLe)
  {}

  lemma RealOrder()
    ensures TotalOrder(RealLe)
  {}

  ghost predicate Ascending<T>(s: seq<T>, le: (T, T) -> bool) {
    forall i, j :: 0 <= i < j < |s| ==> le(s[i], s[j])
  }

  function Insert<T>(x: T, s: seq<T>, le: (T, T) -> bool): (r: seq<T>)
    ensures |r| == |s| + 1
  {
    if s == [] || le(x, s[0]) then [x] + s else [s[0]] + Insert(x, s[1..], le)
  }

  function Sort<T>(xs: seq<T>, le: (T, T) -> bool): (r: seq<T>)
    ensures |r| == |xs|
  {
    if xs == [] then [] else Insert(xs[0], Sort(xs[1..], le), le)
  }

  lemma {:induction false} InsertPermutes<T>(x: T, s: seq<T>, le: (T, T) -> bool)
    ensures multiset(Insert(x, s, le)) == multiset(s) + multiset{x}
  {
    if s != [] && !le(x, s[0]) {
      InsertPermutes(x, s[1..], le);
      assert s == [s[0]] + s[1..];
    }
  }

  lemma {:induction false} SortPermutes<T>(xs: seq<T>, le: (T, T) -> bool)
    ensures multiset(Sort(xs, le)) == multiset(xs)
  {
    if xs == [] {
    } else {
      SortPermutes(xs[1..], le);
      InsertPermutes(xs[0], Sort(xs[1..], le), le);
      assert xs == [xs[0]] + xs[1..];
    }
  }

  lemma {:induction false} InsertAscends<T(!new)>(x: T, s: seq<T>, le: (T, T) -> bool)
    requires TotalOrder(le) && Ascending(s, le)
    ensures Ascending(Insert(x, s, le), le)
  {
    if s == [] {
    } else {
      if le(x, s[0]) {
        var r := [x] + s;
        forall i, j | 0 <= i < j < |r| ensures le(r[i], r[j]) {
          if i == 0 { assert j == 1 || le(s[0], s[j - 1]); }
        }
      } else {
        InsertAscends(x, s[1..], le);
        var t := Insert(x, s[1..], le);
        InsertPermutes(x, s[1..], le);
        forall y | y in t ensures le(s[0], y) {
          assert y in multiset(t);
          if y != x { assert y in s[1..]; }
        }
      }
    }
  }

  lemma {:induction false} SortAscends<T(!new)>(xs: seq<T>, le: (T, T) -> bool)
    requires TotalOrder(le)
    ensures Ascending(Sort(xs, le), le)
  {
    if xs == [] {
    } else {
      SortAscends(xs[1..], le);
      InsertAscends(xs[0], Sort(xs[1..], le), le);
    }
  }

  // ------------------------------------------------------------------ counting

  // How many elements are at most v, and how many are strictly below it.
  function CountLe<T>(xs: seq<T>, v: T, le: (T, T) -> bool): (n: nat)
    ensures n <= |xs|
  {
    if xs == [] then 0 else (if le(xs[0], v) then 1 else 0) + CountLe(xs[1..], v, le)
  }

  function CountLess<T>(xs: seq<T>, v: T, le: (T, T) -> bool): (n: nat)
    ensures n <= |xs|
  {
    if xs == [] then 0 else (if le(v, xs[0]) then 0 else 1) + CountLess(xs[1..], v, le)
  }

  lemma {:induction false} CountConcat<T>(xs: seq<T>, ys: seq<T>, v: T, le: (T, T) -> bool)
    ensures CountLe(xs + ys, v, le) == CountLe(xs, v, le) + CountLe(ys, v, le)
    ensures CountLess(xs + ys, v, le) == CountLess(xs, v, le) + CountLess(ys, v, le)
  {
    if xs == [] {
      assert xs + ys == ys;
    } else {
      assert (xs + ys)[1..] == xs[1..] + ys;
      CountConcat(xs[1..], ys, v, le);
    }
  }

  lemma {:induction false} CountInsert<T>(x: T, s: seq<T>, v: T, le: (T, T) -> bool)
    ensures CountLe(Insert(x, s, le), v, le) == CountLe([x] + s, v, le)
    ensures CountLess(Insert(x, s, le), v, le) == CountLess([x] + s, v, le)
  {
    if s != [] && !le(x, s[0]) {
      CountInsert(x, s[1..], v, le);
      assert ([x] + s)[1..] == s;
      assert ([x] + s[1..])[1..] == s[1..];
      assert Insert(x, s, le)[1..] == Insert(x, s[1..], le);
    }
  }

  lemma {:induction false} CountSort<T>(xs: seq<T>, v: T, le: (T, T) -> bool)
    ensures CountLe(Sort(xs, le), v, le) == CountLe(xs, v, le)
    ensures CountLess(Sort(xs, le), v, le) == CountLess(xs, v, le)
  {
    if xs == [] {
    } else {
      CountSort(xs[1..], v, le);
      CountInsert(xs[0], Sort(xs[1..], le), v, le);
      assert ([xs[0]] + Sort(xs[1..], le))[1..] == Sort(xs[1..], le);
    }
  }

  // Counts across two thresholds: everything at most a is strictly below v.
  lemma {:induction false} CountLeBelowLess<T(!new)>(xs: seq<T>, a: T, v: T, le: (T, T) -> bool)
    requires TotalOrder(le) && !le(v, a)
    ensures CountLe(xs, a, le) <= CountLess(xs, v, le)
  {
    if xs == [] {
    } else {
      CountLeBelowLess(xs[1..], a, v, le);
    }
  }

  lemma {:induction false} CountMonotone<T(!new)>(xs: seq<T>, a: T, b: T, le: (T, T) -> bool)
    requires TotalOrder(le) && le(a, b)
    ensures CountLe(xs, a, le) <= CountLe(xs, b, le)
    ensures CountLess(xs, a, le) <= CountLess(xs, b, le)
  {
    if xs == [] {
    } else {
      CountMonotone(xs[1..], a, b, le);
    }
  }

  lemma {:induction false} PrefixCounts<T>(s: seq<T>, v: T, n: nat, le: (T, T) -> bool)
    requires n <= |s| && forall i :: 0 <= i < n ==> le(s[i], v)
    ensures CountLe(s, v, le) >= n
  {
    if n == 0 {
    } else {
      PrefixCounts(s[1..], v, n - 1, le);
    }
  }

  lemma {:induction false} SuffixCounts<T>(s: seq<T>, v: T, n: nat, le: (T, T) -> bool)
    requires n <= |s| && forall i :: n <= i < |s| ==> le(v, s[i])
    ensures CountLess(s, v, le) <= n
  {
    if s == [] {
    } else {
      SuffixCounts(s[1..], v, if n == 0 then 0 else n - 1, le);
    }
  }

  // --------------------------------------------------------------------- ranks

  /** The element at zero-based rank k of the sorted list. */
  function AtRank<T>(xs: seq<T>, k: nat, le: (T, T) -> bool): T
    requires k < |xs|
  {
    Sort(xs, le)[k]
  }

  lemma {:induction false} AtRankCounts<T(!new)>(xs: seq<T>, k: nat, le: (T, T) -> bool)
    requires TotalOrder(le) && k < |xs|
    ensures CountLess(xs, AtRank(xs, k, le), le) <= k < CountLe(xs, AtRank(xs, k, le), le)
    ensures AtRank(xs, k, le) in xs
  {
    hide Sort, CountLe, CountLess;
    var s := Sort(xs, le);
    SortAscends(xs, le);
    AscendingCounts(s, k, le);
    CountSort(xs, s[k], le);
    assert s[k] in xs by {
      SortPermutes(xs, le);
      assert s[k] in multiset(s);
    }
  }

  lemma {:induction false} AscendingCounts<T(!new)>(s: seq<T>, k: nat, le: (T, T) -> bool)
    requires TotalOrder(le) && Ascending(s, le) && k < |s|
    ensures CountLess(s, s[k], le) <= k < CountLe(s, s[k], le)
  {
    hide CountLe, CountLess;
    assert le(s[k], s[k]);
    PrefixCounts(s, s[k], k + 1, le);
    SuffixCounts(s, s[k], k, le);
  }

  /** v is at or below the element of rank k exactly when at most k elements
      are strictly below v. */
  lemma {:induction false} RankAtLeast<T(!new)>(xs: seq<T>, k: nat, v: T, le: (T, T) -> bool)
    requires TotalOrder(le) && k < |xs|
    ensures le(v, AtRank(xs, k, le)) <==> CountLess(xs, v, le) <= k
  {
    var a := AtRank(xs, k, le);
    AtRankCounts(xs, k, le);
    if le(v, a) { CountMonotone(xs, v, a, le); } else { CountLeBelowLess(xs, a, v, le); }
  }

  /** v is at or above the element of rank k exactly when more than k elements
      are at most v. */
  lemma {:induction false} RankAtMost<T(!new)>(xs: seq<T>, k: nat, v: T, le: (T, T) -> bool)
    requires TotalOrder(le) && k < |xs|
    ensures le(AtRank(xs, k, le), v) <==> CountLe(xs, v, le) > k
  {
    var a := AtRank(xs, k, le);
    AtRankCounts(xs, k, le);
    if le(a, v) { CountMonotone(xs, a, v, le); } else { CountLeBelowLess(xs, v, a, le); }
  }

  // ------------------------------------------------------------- nearest rank

  function Ceil(x: real): int { -((-x).Floor) }

  /** Nearest rank, one-based: ceil(p / 100 * n) clamped to [1, n]. */
  function NearestRank(p: real, n: nat): (r: nat)
    requires n > 0
    ensures 1 <= r <= n
  {
    var rank := Ceil(p / 100.0 * n as real);
    if rank < 1 then 1 else if rank > n then n else rank
  }

  /** The nearest rank is the least one that covers p percent of n, kept within
      the first and the last. */
  lemma NearestRankExact(p: real, n: nat)
    requires n > 0
    ensures var r := NearestRank(p, n) as real;
            && (0.0 < p <= 100.0 ==> (r - 1.0) * 100.0 < p * n as real <= r * 100.0)
            && (p <= 0.0 ==> r == 1.0) && (p >= 100.0 ==> r == n as real)
  {
    var x := n as real;
    var u := p / 100.0 * x;
    assert u * 100.0 == p * x;
    if p <= 0.0 {
      ProductLe(p / 100.0, 0.0, x);
    } else if p <= 100.0 {
      ProductLt(0.0, p / 100.0, x);
      ProductLe(p / 100.0, 1.0, x);
    } else {
      ProductLe(1.0, p / 100.0, x);
    }
  }
}
