/** Interpolated quantiles of a list of samples, with exact reals for `double`. */
module Quantiles {

  // ----- sorting -----

  predicate Sorted(s: seq<int>) { forall i, j :: 0 <= i < j < |s| ==> s[i] <= s[j] }

  function Insert(x: int, s: seq<int>): (r: seq<int>)
    ensures |r| == |s| + 1
  {
    if s == [] || x <= s[0] then [x] + s else [s[0]] + Insert(x, s[1..])
  }

  function Sort(s: seq<int>): (r: seq<int>)
    ensures |r| == |s|
  {
    if s == [] then [] else Insert(s[0], Sort(s[1..]))
  }

  lemma {:induction false} InsertMultiset(x: int, s: seq<int>)
    ensures multiset(Insert(x, s)) == multiset(s) + multiset{x}
  {
    if s != [] && s[0] < x {
      InsertMultiset(x, s[1..]);
      assert s == [s[0]] + s[1..];
    }
  }

  predicate AllAtLeast(s: seq<int>, b: int) { forall i :: 0 <= i < |s| ==> b <= s[i] }

  lemma {:induction false} InsertAtLeast(x: int, s: seq<int>, b: int)
    requires AllAtLeast(s, b) && b <= x
    ensures AllAtLeast(Insert(x, s), b)
  {
    if s != [] && s[0] < x {
      InsertAtLeast(x, s[1..], b);
    }
  }

  lemma {:induction false} InsertSorted(x: int, s: seq<int>)
    requires Sorted(s)
    ensures Sorted(Insert(x, s))
  {
    if s != [] && s[0] < x {
      InsertSorted(x, s[1..]);
      InsertAtLeast(x, s[1..], s[0]);
    }
  }

  lemma {:induction false} SortSorts(s: seq<int>)
    ensures Sorted(Sort(s)) && multiset(Sort(s)) == multiset(s)
  {
    hide Insert;
    if s != [] {
      SortSorts(s[1..]);
      InsertSorted(s[0], Sort(s[1..]));
      InsertMultiset(s[0], Sort(s[1..]));
      assert s == [s[0]] + s[1..];
    }
  }

  /** A sorted list is determined by its elements, so the result of any sorting algorithm
      is `Sort`. */
  lemma {:induction false} SortedUnique(a: seq<int>, b: seq<int>)
    requires Sorted(a) && Sorted(b) && multiset(a) == multiset(b)
    ensures a == b
  {
    hide Sorted;
    assert |a| == |multiset(a)| == |multiset(b)| == |b|;
    if a != [] {
      FirstIsLeast(a, b);
      FirstIsLeast(b, a);
      SortedTail(a);
      SortedTail(b);
      SortedUnique(a[1..], b[1..]);
      assert a == [a[0]] + a[1..] && b == [b[0]] + b[1..];
    }
  }

  lemma SortedTail(s: seq<int>)
    requires Sorted(s) && s != []
    ensures Sorted(s[1..]) && multiset(s[1..]) == multiset(s) - multiset{s[0]}
  {
    assert s == [s[0]] + s[1..];
  }

  lemma FirstIsLeast(a: seq<int>, b: seq<int>)
    requires Sorted(a) && a != [] && b != [] && multiset(a) == multiset(b)
    ensures a[0] <= b[0]
  {
    assert b[0] in multiset(b);
    assert b[0] in a;
  }

  // ----- counting -----

  /** How many samples are at most `x`. */
  function CountAtMost(s: seq<int>, x: int): (n: nat)
    ensures n <= |s|
  {
    if s == [] then 0 else (if s[0] <= x then 1 else 0) + CountAtMost(s[1..], x)
  }

  lemma {:induction false} CountInsert(y: int, s: seq<int>, x: int)
    ensures CountAtMost(Insert(y, s), x) == CountAtMost([y], x) + CountAtMost(s, x)
  {
    if s == [] || y <= s[0] {
      assert ([y] + s)[1..] == s && [y][1..] == [];
    } else {
      CountInsert(y, s[1..], x);
      assert ([s[0]] + Insert(y, s[1..]))[1..] == Insert(y, s[1..]);
    }
  }

  lemma {:induction false} CountSort(s: seq<int>, x: int)
    ensures CountAtMost(Sort(s), x) == CountAtMost(s, x)
  {
    if s != [] {
      CountSort(s[1..], x);
      CountInsert(s[0], Sort(s[1..]), x);
      assert [s[0]][1..] == [];
    }
  }

  /** In a sorted list, element `k` is at most `x` exactly when more than `k` elements are. */
  lemma {:induction false} CountSorted(s: seq<int>, x: int, k: nat)
    requires Sorted(s) && k < |s|
    ensures s[k] <= x <==> k < CountAtMost(s, x)
  {
    if x < s[0] {
      NoneAtMost(s, x);
    } else if k > 0 {
      CountSorted(s[1..], x, k - 1);
    }
  }

  lemma {:induction false} NoneAtMost(s: seq<int>, x: int)
    requires forall i :: 0 <= i < |s| ==> x < s[i]
    ensures CountAtMost(s, x) == 0
  {
    if s != [] {
      NoneAtMost(s[1..], x);
    }
  }

  lemma {:induction false} CountMonotone(a: seq<int>, b: seq<int>, x: int)
    requires |a| == |b| && forall i :: 0 <= i < |a| ==> a[i] <= b[i]
    ensures CountAtMost(b, x) <= CountAtMost(a, x)
  {
    if a != [] {
      CountMonotone(a[1..], b[1..], x);
    }
  }

  /** Sorting preserves pointwise order. */
  lemma SortDominates(a: seq<int>, b: seq<int>, k: nat)
    requires |a| == |b| && k < |a| && forall i :: 0 <= i < |a| ==> a[i] <= b[i]
    ensures Sort(a)[k] <= Sort(b)[k]
  {
    var x := Sort(b)[k];
    SortSorts(a);
    SortSorts(b);
    CountSorted(Sort(b), x, k);
    CountSort(b, x);
    CountMonotone(a, b, x);
    CountSort(a, x);
    CountSorted(Sort(a), x, k);
  }

  function Shifted(s: seq<int>, c: int): (r: seq<int>)
    ensures |r| == |s| && forall i :: 0 <= i < |s| ==> r[i] == s[i] + c
  {
    if s == [] then [] else [s[0] + c] + Shifted(s[1..], c)
  }

  lemma {:induction false} InsertShifted(x: int, s: seq<int>, c: int)
    ensures Insert(x + c, Shifted(s, c)) == Shifted(Insert(x, s), c)
  {
    if s == [] || x <= s[0] {
      assert ([x] + s)[1..] == s;
    } else {
      InsertShifted(x, s[1..], c);
      assert Shifted(s, c)[1..] == Shifted(s[1..], c);
      assert ([s[0]] + Insert(x, s[1..]))[1..] == Insert(x, s[1..]);
    }
  }

  lemma {:induction false} SortShifted(s: seq<int>, c: int)
    ensures Sort(Shifted(s, c)) == Shifted(Sort(s), c)
  {
    if s != [] {
      SortShifted(s[1..], c);
      assert Shifted(s, c)[1..] == Shifted(s[1..], c);
      InsertShifted(s[0], Sort(s[1..]), c);
    }
  }

  // ----- the interpolating getter -----

  /** Conversion of a real to an integer type: truncation toward zero. */
  function Truncate(x: real): int { if x >= 0.0 then x.Floor else -((-x).Floor) }

  predicate InUnit(alpha: real) { 0.0 <= alpha <= 1.0 }

  function Position(n: nat, alpha: real): (pos: real)
    requires 0 < n && InUnit(alpha)
    ensures 0.0 <= pos <= (n - 1) as real
  {
    ScaleBounds(alpha, (n - 1) as real);
    alpha * (n - 1) as real
  }

  lemma ScaleBounds(alpha: real, m: real)
    requires InUnit(alpha) && 0.0 <= m
    ensures 0.0 <= alpha * m <= m
  {
    assert 0.0 <= (1.0 - alpha) * m == m - alpha * m;
  }

  function Upper(n: nat, idx: nat): nat
    requires 0 < n
  {
    if idx + 1 < n - 1 then idx + 1 else n - 1
  }

  function Interpolate(lo: int, hi: int, frac: real): int {
    lo + Truncate((hi - lo) as real * frac)
  }

  /** `Get` on the sorted samples. */
  function GetSorted(s: seq<int>, alpha: real): int
    requires 0 < |s| && InUnit(alpha)
  {
    var pos := Position(|s|, alpha);
    var idx := pos.Floor;
    Interpolate(s[idx], s[Upper(|s|, idx)], pos - idx as real)
  }

  /** The exact convex combination of two neighbours. */
  function Blend(lo: int, hi: int, frac: real): real {
    (1.0 - frac) * lo as real + frac * hi as real
  }

  lemma BlendBounds(lo: int, hi: int, frac: real)
    requires lo <= hi && 0.0 <= frac <= 1.0
    ensures lo as real <= Blend(lo, hi, frac) <= hi as real
    ensures Blend(lo, hi, frac) == lo as real + (hi - lo) as real * frac
    ensures 0.0 <= (hi - lo) as real * frac
  {
    ScaleBounds(frac, (hi - lo) as real);
  }

  lemma BlendMonotone(lo: int, hi: int, lo': int, hi': int, frac: real)
    requires lo <= lo' && hi <= hi' && 0.0 <= frac <= 1.0
    ensures Blend(lo, hi, frac) <= Blend(lo', hi', frac)
  {
    ScaleBounds(frac, (hi' - hi) as real);
    ScaleBounds(1.0 - frac, (lo' - lo) as real);
  }

  lemma BlendRises(lo: int, hi: int, f: real, g: real)
    requires lo <= hi && 0.0 <= f <= g <= 1.0
    ensures Blend(lo, hi, f) <= Blend(lo, hi, g)
  {
    ScaleBounds(g - f, (hi - lo) as real);
    assert (hi - lo) as real * g == (hi - lo) as real * f + (g - f) * (hi - lo) as real;
    BlendBounds(lo, hi, f);
    BlendBounds(lo, hi, g);
  }

  /** The blend that `Get` floors. */
  function Exact(s: seq<int>, pos: real): real
    requires 0 < |s| && 0.0 <= pos <= (|s| - 1) as real
  {
    Blend(s[pos.Floor], s[Upper(|s|, pos.Floor)], pos - pos.Floor as real)
  }

  lemma FloorShift(n: int, x: real)
    ensures (n as real + x).Floor == n + x.Floor
  {
  }

  /** On sorted samples `Get` is the floor of the exact blend of two neighbours. */
  lemma GetIsFloor(s: seq<int>, alpha: real)
    requires Sorted(s) && 0 < |s| && InUnit(alpha)
    ensures GetSorted(s, alpha) == Exact(s, Position(|s|, alpha)).Floor
  {
    var pos := Position(|s|, alpha);
    var lo, hi, frac := s[pos.Floor], s[Upper(|s|, pos.Floor)], pos - pos.Floor as real;
    BlendBounds(lo, hi, frac);
    FloorShift(lo, (hi - lo) as real * frac);
  }

  /** The rank of `alpha` among `n` sorted samples, as the code computes it. */
  lemma PositionIs(n: nat, alpha: real, k: nat, f: real)
    requires 0 < n && InUnit(alpha) && 0.0 <= f < 1.0
    requires alpha * (n - 1) as real == k as real + f
    ensures Position(n, alpha) == k as real + f && Position(n, alpha).Floor == k
  {
  }

  /** `Get` lies between its two neighbours. */
  lemma GetBounds(s: seq<int>, alpha: real)
    requires Sorted(s) && 0 < |s| && InUnit(alpha)
    ensures var idx := Position(|s|, alpha).Floor;
            s[idx] <= GetSorted(s, alpha) <= s[Upper(|s|, idx)]
  {
    var pos := Position(|s|, alpha);
    GetIsFloor(s, alpha);
    BlendBounds(s[pos.Floor], s[Upper(|s|, pos.Floor)], pos - pos.Floor as real);
  }

  lemma ExactMonotone(s: seq<int>, p: real, q: real)
    requires Sorted(s) && 0 < |s| && 0.0 <= p <= q <= (|s| - 1) as real
    ensures Exact(s, p) <= Exact(s, q)
  {
    var i, j := p.Floor, q.Floor;
    var f, g := p - i as real, q - j as real;
    if i == j {
      BlendRises(s[i], s[Upper(|s|, i)], f, g);
    } else {
      BlendBounds(s[i], s[Upper(|s|, i)], f);
      BlendBounds(s[j], s[Upper(|s|, j)], g);
      assert Upper(|s|, i) == i + 1 && s[i + 1] <= s[j];
    }
  }

  /** `Get` of an object constructed from these samples. */
  function Quantile(samples: seq<int>, alpha: real): int
    requires 0 < |samples| && InUnit(alpha)
  {
    GetSorted(Sort(samples), alpha)
  }

  /** At rank `k` plus a fraction `f`, `Get` is the floor of the point that far on the way
      from sorted sample `k` to the next, whatever way its auxiliary functions take. */
  lemma GetAtRank(s: seq<int>, alpha: real, k: nat, f: real)
    requires Sorted(s) && InUnit(alpha) && k + 1 < |s| && 0.0 <= f < 1.0
    requires alpha * (|s| - 1) as real == k as real + f
    ensures GetSorted(s, alpha) == (s[k] as real + f * (s[k + 1] - s[k]) as real).Floor
  {
    hide GetSorted, Position, Blend;
    PositionIs(|s|, alpha, k, f);
    GetIsFloor(s, alpha);
    BlendBounds(s[k], s[k + 1], f);
  }

  /** At a whole rank `Get` is the sample of that rank, the last one included. */
  lemma GetAtWholeRank(s: seq<int>, alpha: real, k: nat)
    requires Sorted(s) && InUnit(alpha) && k < |s| && alpha * (|s| - 1) as real == k as real
    ensures GetSorted(s, alpha) == s[k]
  {
    hide Position, Interpolate;
    PositionIs(|s|, alpha, k, 0.0);
    InterpolateAtZero(s[k], s[Upper(|s|, k)]);
  }

  /** Hence the quantile of samples in any order. */
  lemma QuantileAtRank(samples: seq<int>, alpha: real, k: nat, f: real)
    requires 0.0 <= alpha <= 1.0 && k < |samples| && 0.0 <= f < 1.0
    requires alpha * (|samples| - 1) as real == k as real + f
    ensures var s := Sort(samples);
            && Sorted(s) && multiset(s) == multiset(samples)
            && (k + 1 < |s| ==> Quantile(samples, alpha) == (s[k] as real + f * (s[k + 1] - s[k]) as real).Floor)
            && (f == 0.0 ==> Quantile(samples, alpha) == s[k])
  {
    hide Sort, GetSorted, Sorted;
    SortSorts(samples);
    if k + 1 < |samples| {
      GetAtRank(Sort(samples), alpha, k, f);
    }
    if f == 0.0 {
      GetAtWholeRank(Sort(samples), alpha, k);
    }
  }

  /** `Get` never falls when alpha rises, also across index boundaries. */
  lemma GetMonotone(samples: seq<int>, alpha: real, beta: real)
    requires 0 < |samples| && InUnit(alpha) && InUnit(beta) && alpha <= beta
    ensures Quantile(samples, alpha) <= Quantile(samples, beta)
  {
    var s, m := Sort(samples), (|samples| - 1) as real;
    SortSorts(samples);
    ScaleBounds(beta - alpha, m);
    assert beta * m == alpha * m + (beta - alpha) * m;
    ExactMonotone(s, Position(|s|, alpha), Position(|s|, beta));
    GetIsFloor(s, alpha);
    GetIsFloor(s, beta);
  }

  /** Pointwise larger samples have larger quantiles, for every alpha. */
  lemma GetDominance(a: seq<int>, b: seq<int>, alpha: real)
    requires 0 < |a| == |b| && InUnit(alpha) && forall i :: 0 <= i < |a| ==> a[i] <= b[i]
    ensures Quantile(a, alpha) <= Quantile(b, alpha)
  {
    var s, t, pos := Sort(a), Sort(b), Position(|a|, alpha);
    var i := pos.Floor;
    SortDominates(a, b, i);
    SortDominates(a, b, Upper(|a|, i));
    BlendMonotone(s[i], s[Upper(|a|, i)], t[i], t[Upper(|a|, i)], pos - i as real);
    SortSorts(a);
    SortSorts(b);
    GetIsFloor(s, alpha);
    GetIsFloor(t, alpha);
  }

  lemma EndPositions(s: seq<int>)
    requires 0 < |s|
    ensures GetSorted(s, 0.0) == s[0] && GetSorted(s, 1.0) == s[|s| - 1]
  {
    var top := (|s| - 1) as real;
    assert top.Floor == |s| - 1;
    InterpolateAtZero(s[0], s[Upper(|s|, 0)]);
    InterpolateAtZero(s[|s| - 1], s[|s| - 1]);
  }

  lemma InterpolateAtZero(lo: int, hi: int)
    ensures Interpolate(lo, hi, 0.0) == lo
  {
    assert (hi - lo) as real * 0.0 == 0.0;
  }

  /** 0 gives the least sample and 1 the greatest. */
  lemma GetEnds(samples: seq<int>)
    requires 0 < |samples|
    ensures Quantile(samples, 0.0) in samples && Quantile(samples, 1.0) in samples
    ensures forall x :: x in samples ==> Quantile(samples, 0.0) <= x <= Quantile(samples, 1.0)
  {
    hide Sort, GetSorted, Position;
    var s := Sort(samples);
    SortSorts(samples);
    EndPositions(s);
    assert s[0] in multiset(s) && s[|s| - 1] in multiset(s);
    forall x | x in samples ensures s[0] <= x <= s[|s| - 1] {
      assert x in multiset(samples);
      assert x in s;
    }
  }

  /** The order of the samples does not matter. */
  lemma GetIgnoresOrder(a: seq<int>, b: seq<int>, alpha: real)
    requires 0 < |a| && multiset(a) == multiset(b) && InUnit(alpha)
    ensures 0 < |b| && Quantile(a, alpha) == Quantile(b, alpha)
  {
    assert a[0] in multiset(b);
    SortSorts(a);
    SortSorts(b);
    SortedUnique(Sort(a), Sort(b));
  }

  /** Shifting every sample by `c` shifts every quantile by exactly `c`. */
  lemma GetShifts(samples: seq<int>, c: int, alpha: real)
    requires 0 < |samples| && InUnit(alpha)
    ensures Quantile(Shifted(samples, c), alpha) == Quantile(samples, alpha) + c
  {
    SortShifted(samples, c);
    GetSortedShifts(Sort(samples), c, alpha);
  }

  lemma GetSortedShifts(s: seq<int>, c: int, alpha: real)
    requires 0 < |s| && InUnit(alpha)
    ensures GetSorted(Shifted(s, c), alpha) == GetSorted(s, alpha) + c
  {
    hide Position, Shifted, Interpolate;
    var idx := Position(|s|, alpha).Floor;
    var hi, frac := Upper(|s|, idx), Position(|s|, alpha) - idx as real;
    assert Shifted(s, c)[idx] == s[idx] + c && Shifted(s, c)[hi] == s[hi] + c;
    InterpolateShifts(s[idx], s[hi], frac, c);
  }

  lemma InterpolateShifts(lo: int, hi: int, frac: real, c: int)
    ensures Interpolate(lo + c, hi + c, frac) == Interpolate(lo, hi, frac) + c
  {
    assert hi + c - (lo + c) == hi - lo;
  }

  /** At least `floor(alpha * (N - 1)) + 1` samples are at most the quantile. */
  lemma GetCovers(samples: seq<int>, alpha: real)
    requires 0 < |samples| && InUnit(alpha)
    ensures (alpha * (|samples| - 1) as real).Floor + 1 <= CountAtMost(samples, Quantile(samples, alpha))
  {
    var s, idx := Sort(samples), Position(|samples|, alpha).Floor;
    SortSorts(samples);
    GetBounds(s, alpha);
    CountSorted(s, Quantile(samples, alpha), idx);
    CountSort(samples, Quantile(samples, alpha));
  }

  class Quantiles {
    var shippings: seq<int>

    /** Takes the samples over and sorts them; any sorting algorithm has this result. */
    constructor (samples: seq<int>)
      requires 0 < |samples|
      ensures shippings == Sort(samples) && Sorted(shippings) && multiset(shippings) == multiset(samples)
    {
      shippings := Sort(samples);
      SortSorts(samples);
    }

    method Get(alpha: real) returns (r: int)
      requires 0 < |shippings| && InUnit(alpha)
      ensures r == GetSorted(shippings, alpha)
    {
      var pos := Position(|shippings|, alpha);
      var idx := pos.Floor;
      var frac := pos - idx as real;
      var lo := shippings[idx];
      var hi := shippings[Upper(|shippings|, idx)];
      var delta := hi - lo;
      r := lo + Truncate(delta as real * frac);
    }
  }
}
