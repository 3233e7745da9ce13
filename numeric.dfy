/** Vector arithmetic used throughout InterVA5: numpy's nansum, nanmax,
    first-index argmax, delete, block division, and Python's round(). */
module Numeric {

  predicate NonNegative(s: seq<real>) {
    forall i :: 0 <= i < |s| ==> 0.0 <= s[i]
  }

  /** nansum over a vector with no missing entries, accumulated left to right. */
  function Sum(s: seq<real>): real
    decreases |s|
  {
    if |s| == 0 then 0.0 else Sum(s[..|s| - 1]) + s[|s| - 1]
  }

  function Abs(x: real): (r: real)
    ensures 0.0 <= r && (r == x || r == -x)
  {
    if x < 0.0 then -x else x
  }

  /** nanmax: the largest entry. */
  function Max(s: seq<real>): real
    requires |s| > 0
  {
    if |s| == 1 then s[0]
    else
      var front := Max(s[..|s| - 1]);
      if front >= s[|s| - 1] then front else s[|s| - 1]
  }

  /** `where(s == nanmax(s))[0][0]`: the lowest index holding the maximum. */
  function FirstArgmax(s: seq<real>): (k: nat)
    requires |s| > 0
    ensures k < |s| && s[k] == Max(s)
  {
    if |s| == 1 then 0
    else
      var k := FirstArgmax(s[..|s| - 1]);
      if s[k] >= s[|s| - 1] then k else |s| - 1
  }

  /** The maximum is at least every entry. */
  lemma {:induction false} MaxIsUpperBound(s: seq<real>)
    requires |s| > 0
    ensures forall i :: 0 <= i < |s| ==> s[i] <= Max(s)
    decreases |s|
  {
    if |s| > 1 {
      var n := |s| - 1;
      MaxIsUpperBound(s[..n]);
      assert forall i :: 0 <= i < n ==> s[..n][i] == s[i];
    }
  }

  /** Every entry before the first maximum is strictly below it. */
  lemma {:induction false} FirstArgmaxIsFirst(s: seq<real>)
    requires |s| > 0
    ensures forall i :: 0 <= i < FirstArgmax(s) ==> s[i] < Max(s)
    decreases |s|
  {
    if |s| > 1 {
      var n := |s| - 1;
      FirstArgmaxIsFirst(s[..n]);
      MaxIsUpperBound(s[..n]);
      assert forall i :: 0 <= i < n ==> s[..n][i] == s[i];
    }
  }

  /** numpy's delete(s, k). */
  function Remove<T>(s: seq<T>, k: nat): (r: seq<T>)
    requires k < |s|
    ensures |r| == |s| - 1
    decreases |s|
  {
    if k == |s| - 1 then s[..k] else Remove(s[..|s| - 1], k) + [s[|s| - 1]]
  }

  /** Deleting entry k keeps the entries before k and shifts the later ones down. */
  lemma {:induction false} RemoveIndex<T>(s: seq<T>, k: nat)
    requires k < |s|
    ensures forall i :: 0 <= i < |s| - 1 ==> Remove(s, k)[i] == s[if i < k then i else i + 1]
    decreases |s|
  {
    if k < |s| - 1 {
      RemoveIndex(s[..|s| - 1], k);
    }
  }

  /** Element-wise `s / d`. */
  function Divide(s: seq<real>, d: real): (r: seq<real>)
    requires d != 0.0
    ensures |r| == |s|
  {
    seq(|s|, i requires 0 <= i < |s| => s[i] / d)
  }

  /** Element-wise sum of two vectors of one length. */
  function Add(a: seq<real>, b: seq<real>): (r: seq<real>)
    requires |a| == |b|
    ensures |r| == |a|
  {
    seq(|a|, i requires 0 <= i < |a| => a[i] + b[i])
  }

  function Zeros(n: nat): (r: seq<real>)
    ensures |r| == n && forall i :: 0 <= i < n ==> r[i] == 0.0
  {
    seq(n, i => 0.0)
  }

  /** `if nansum(s) > 0: s = s / nansum(s)`: a block with positive mass is
      rescaled to sum 1, a block without mass is left as it is. */
  function NormaliseIfPositive(s: seq<real>): (r: seq<real>)
    ensures |r| == |s|
    ensures NonNegative(s) ==> NonNegative(r)
    ensures NonNegative(s) ==> Sum(r) == (if Sum(s) > 0.0 then 1.0 else 0.0)
    ensures NonNegative(s) ==> forall i :: 0 <= i < |r| ==> r[i] <= 1.0
  {
    var total := Sum(s);
    NormaliseFacts(s);
    if total > 0.0 then Divide(s, total) else s
  }

  /** A block with mass keeps its proportions: every entry is scaled by one
      factor, the block's total. A block without mass is all zeros. */
  lemma NormaliseRescales(s: seq<real>)
    requires NonNegative(s)
    ensures Sum(s) > 0.0 ==> ScaledCopy(NormaliseIfPositive(s), s, Sum(s))
    ensures Sum(s) == 0.0 ==> NormaliseIfPositive(s) == Zeros(|s|)
  {
    var t := Sum(s);
    var r := NormaliseIfPositive(s);
    if t > 0.0 {
      assert r == Divide(s, t);
      DivideScales(s, t);
    } else if t == 0.0 {
      NormaliseFacts(s);
      assert r == s;
    }
  }

  /** `r` times the factor `t` is `s`, entry by entry. */
  predicate ScaledCopy(r: seq<real>, s: seq<real>, t: real) {
    |r| == |s| && forall i :: 0 <= i < |s| ==> r[i] * t == s[i]
  }

  lemma DivideScales(s: seq<real>, t: real)
    requires t != 0.0
    ensures ScaledCopy(Divide(s, t), s, t)
  {
    forall i | 0 <= i < |s| ensures Divide(s, t)[i] * t == s[i] {
      QuotientTimesDivisor(s[i], t);
    }
  }

  lemma QuotientTimesDivisor(x: real, t: real)
    requires t != 0.0
    ensures x / t * t == x
  {
  }

  lemma NormaliseFacts(s: seq<real>)
    ensures Sum(s) > 0.0 ==> Sum(Divide(s, Sum(s))) == 1.0
    ensures Sum(s) > 0.0 && NonNegative(s) ==> forall i :: 0 <= i < |s| ==> 0.0 <= Divide(s, Sum(s))[i] <= 1.0
    ensures Sum(s) <= 0.0 && NonNegative(s) ==> Sum(s) == 0.0
    ensures Sum(s) <= 0.0 && NonNegative(s) ==> forall i :: 0 <= i < |s| ==> s[i] == 0.0
  {
    var total := Sum(s);
    if total > 0.0 {
      SumDivide(s, total);
      assert total / total == 1.0;
      if NonNegative(s) {
        DividedBySumBounded(s);
      }
    } else if NonNegative(s) {
      SumNonNegative(s);
      ZeroSumZeroEntries(s);
    }
  }

  lemma DividedBySumBounded(s: seq<real>)
    requires NonNegative(s) && Sum(s) > 0.0
    ensures forall i :: 0 <= i < |s| ==> 0.0 <= Divide(s, Sum(s))[i] <= 1.0
  {
    var total := Sum(s);
    var d := Divide(s, total);
    forall i | 0 <= i < |s| ensures 0.0 <= d[i] <= 1.0 {
      EntryAtMostSum(s, i);
      QuotientAtMostOne(s[i], total);
      assert d[i] == s[i] / total;
    }
  }

  lemma QuotientAtMostOne(a: real, b: real)
    requires 0.0 <= a <= b && b > 0.0
    ensures 0.0 <= a / b <= 1.0
  {
    assert a / b * b == a;
  }

  /** The three largest entries of a non-negative vector add up to at most its sum. */
  lemma LargestThreeAtMostSum(s: seq<real>)
    requires |s| >= 3 && NonNegative(s)
    ensures KthLargest(s, 0) + KthLargest(s, 1) + KthLargest(s, 2) <= Sum(s)
  {
    var t1 := DropMax(s);
    var t2 := DropMax(t1);
    assert KthLargest(s, 1) == KthLargest(t1, 0) == Max(t1);
    assert KthLargest(s, 2) == KthLargest(t1, 1) == KthLargest(t2, 0) == Max(t2);
    SumRemove(s, FirstArgmax(s));
    SumRemove(t1, FirstArgmax(t1));
    RemoveNonNegative(s, FirstArgmax(s));
    RemoveNonNegative(t1, FirstArgmax(t1));
    EntryAtMostSum(t2, FirstArgmax(t2));
  }

  /** Rounding three values adds at most one and a half to their sum. */
  lemma RoundSumBound(x: real, y: real, z: real)
    ensures RoundHalfEven(x) + RoundHalfEven(y) + RoundHalfEven(z) <= (x + y + z + 1.5).Floor
  {
  }

  lemma QuotientAtLeast(a: real, b: real, c: real)
    requires b > 0.0 && a >= c * b
    ensures a / b >= c
  {
    var q := a / b;
    assert q * b == a;
    if q < c {
      assert (c - q) * b > 0.0;
    }
  }

  lemma ZeroSumZeroEntries(s: seq<real>)
    requires NonNegative(s) && Sum(s) <= 0.0
    ensures forall i :: 0 <= i < |s| ==> s[i] == 0.0
  {
    forall i | 0 <= i < |s| ensures s[i] == 0.0 {
      EntryAtMostSum(s, i);
    }
  }

  /** Python 3's round(): the nearest integer, ties to the even one. */
  function RoundHalfEven(x: real): (n: int)
    ensures x - 0.5 <= n as real <= x + 0.5
    ensures (n as real == x + 0.5 || n as real == x - 0.5) ==> n % 2 == 0
  {
    var f := x.Floor;
    var frac := x - f as real;
    if frac < 0.5 then f
    else if frac > 0.5 then f + 1
    else if f % 2 == 0 then f
    else f + 1
  }

  /** The vector with its first maximum deleted. */
  function DropMax(s: seq<real>): (r: seq<real>)
    requires |s| > 0
    ensures |r| == |s| - 1
  {
    Remove(s, FirstArgmax(s))
  }

  /** The k-th largest entry (from 0), found as numpy code does: delete the
      first maximum k times and take the maximum of what is left. */
  function KthLargest(s: seq<real>, k: nat): (m: real)
    requires k < |s|
    decreases k
  {
    if k == 0 then Max(s) else KthLargest(DropMax(s), k - 1)
  }

  /** Deleting an entry takes exactly that entry out of the sum. */
  lemma {:induction false} SumRemove(s: seq<real>, k: nat)
    requires k < |s|
    ensures Sum(s) == s[k] + Sum(Remove(s, k))
    decreases |s|
  {
    var n := |s| - 1;
    if k < n {
      var r := Remove(s[..n], k);
      SumRemove(s[..n], k);
      assert (r + [s[n]])[..|r|] == r;
    }
  }

  /** After deleting the first maximum, the new maximum is at most the old one
      and at least every entry that is left. */
  lemma RemoveMaxBounds(s: seq<real>)
    requires |s| > 1
    ensures Max(DropMax(s)) <= Max(s)
  {
    var k := FirstArgmax(s);
    var j := FirstArgmax(Remove(s, k));
    var i := if j < k then j else j + 1;
    RemoveAt(s, k, j);
    EntryAtMostMax(s, i);
  }

  /** One entry of a vector after a deletion. */
  lemma RemoveAt<T>(s: seq<T>, k: nat, i: nat)
    requires k < |s| && i < |s| - 1
    ensures Remove(s, k)[i] == s[if i < k then i else i + 1]
  {
    RemoveIndex(s, k);
  }

  /** One entry is at most the maximum. */
  lemma EntryAtMostMax(s: seq<real>, i: nat)
    requires i < |s|
    ensures s[i] <= Max(s)
  {
    MaxIsUpperBound(s);
  }

  /** Deleting an entry of a non-negative vector leaves a non-negative vector. */
  lemma RemoveNonNegative(s: seq<real>, k: nat)
    requires NonNegative(s) && k < |s|
    ensures NonNegative(Remove(s, k))
  {
    RemoveIndex(s, k);
  }

  /** The order statistics never increase. */
  lemma {:induction false} KthLargestDecreasing(s: seq<real>, k: nat)
    requires k + 1 < |s|
    ensures KthLargest(s, k + 1) <= KthLargest(s, k)
    decreases k
  {
    var r := DropMax(s);
    if k == 0 {
      assert KthLargest(s, 1) == KthLargest(r, 0) == Max(r);
      RemoveMaxBounds(s);
    } else {
      var j := k - 1;
      var a, b := KthLargest(r, j + 1), KthLargest(r, j);
      assert KthLargest(s, k + 1) == a;
      assert KthLargest(s, k) == b;
      KthLargestDecreasing(r, j);
      assert a <= b;
    }
  }

  /** The vector with its first maximum deleted k times. */
  function DropMaxes(s: seq<real>, k: nat): (r: seq<real>)
    requires k <= |s|
    ensures |r| == |s| - k
    decreases k
  {
    if k == 0 then s else DropMax(DropMaxes(s, k - 1))
  }

  /** Deleting the maximum first, then j more times, is deleting it j + 1 times. */
  lemma {:induction false} DropMaxesShift(s: seq<real>, j: nat)
    requires j < |s|
    ensures DropMaxes(DropMax(s), j) == DropMaxes(s, j + 1)
    decreases j
  {
    if j > 0 {
      DropMaxesShift(s, j - 1);
    }
  }

  /** The order statistics of a non-negative vector are non-negative. */
  lemma {:induction false} KthLargestNonNegative(s: seq<real>, k: nat)
    requires NonNegative(s) && k < |s|
    ensures KthLargest(s, k) >= 0.0
    decreases k
  {
    if k == 0 {
      MaxIsUpperBound(s);
      assert s[0] <= Max(s);
    } else {
      RemoveNonNegative(s, FirstArgmax(s));
      KthLargestNonNegative(DropMax(s), k - 1);
    }
  }

  /** The k-th largest entry is the maximum left after k deletions. */
  lemma {:induction false} KthLargestOfDropMaxes(s: seq<real>, k: nat)
    requires k < |s|
    ensures KthLargest(s, k) == Max(DropMaxes(s, k))
    decreases k
  {
    if k > 0 {
      KthLargestOfDropMaxes(DropMax(s), k - 1);
      DropMaxesShift(s, k - 1);
    }
  }

  lemma ZerosMax(n: nat)
    requires n > 0
    ensures Max(Zeros(n)) == 0.0
  {
    var k := FirstArgmax(Zeros(n));
  }

  /** The three largest entries, in order. */
  lemma TopThreeOrder(s: seq<real>)
    requires |s| >= 3
    ensures KthLargest(s, 2) <= KthLargest(s, 1) <= KthLargest(s, 0) == Max(s)
  {
    KthLargestDecreasing(s, 0);
    KthLargestDecreasing(s, 1);
  }

  /** Two different entries of a non-negative vector add up to at most its sum. */
  lemma TwoEntriesAtMostSum(s: seq<real>, i: nat, j: nat)
    requires NonNegative(s) && i < |s| && j < |s| && i != j
    ensures s[i] + s[j] <= Sum(s)
  {
    SumRemove(s, i);
    RemoveIndex(s, i);
    var r := Remove(s, i);
    var j' := if j < i then j else j - 1;
    assert r[j'] == s[j];
    EntryAtMostSum(r, j');
  }

  predicate Distinct<T(==)>(s: seq<T>) {
    forall i, j :: 0 <= i < j < |s| ==> s[i] != s[j]
  }

  /** Deleting an entry of a list without repeats leaves a list without
      repeats that no longer holds the deleted entry. */
  lemma RemoveDistinct<T>(s: seq<T>, k: nat)
    requires Distinct(s) && k < |s|
    ensures Distinct(Remove(s, k))
    ensures forall i :: 0 <= i < |s| - 1 ==> Remove(s, k)[i] != s[k]
  {
    RemoveIndex(s, k);
  }

  // ---------------------------------------------------------------- lemmas

  lemma {:induction false} SumNonNegative(s: seq<real>)
    requires NonNegative(s)
    ensures Sum(s) >= 0.0
    decreases |s|
  {
    if |s| > 0 {
      SumNonNegative(s[..|s| - 1]);
    }
  }

  lemma {:induction false} SumAppend(a: seq<real>, b: seq<real>)
    ensures Sum(a + b) == Sum(a) + Sum(b)
    decreases |b|
  {
    if |b| > 0 {
      assert (a + b)[..|a + b| - 1] == a + b[..|b| - 1];
      SumAppend(a, b[..|b| - 1]);
    } else {
      assert a + b == a;
    }
  }

  /** Every entry of a non-negative vector is at most its sum. */
  lemma {:induction false} EntryAtMostSum(s: seq<real>, i: nat)
    requires NonNegative(s) && i < |s|
    ensures s[i] <= Sum(s)
    decreases |s|
  {
    var init := s[..|s| - 1];
    if i < |s| - 1 {
      EntryAtMostSum(init, i);
    } else {
      SumNonNegative(init);
    }
  }

  lemma {:induction false} SumDivide(s: seq<real>, d: real)
    requires d != 0.0
    ensures Sum(Divide(s, d)) == Sum(s) / d
    decreases |s|
  {
    if |s| > 0 {
      var n := |s| - 1;
      assert Divide(s, d)[..n] == Divide(s[..n], d);
      SumDivide(s[..n], d);
      assert Sum(s[..n]) / d + s[n] / d == (Sum(s[..n]) + s[n]) / d;
    }
  }

  lemma {:induction false} SumAdd(a: seq<real>, b: seq<real>)
    requires |a| == |b|
    ensures Sum(Add(a, b)) == Sum(a) + Sum(b)
    decreases |a|
  {
    if |a| > 0 {
      var n := |a| - 1;
      assert Add(a, b)[..n] == Add(a[..n], b[..n]);
      SumAdd(a[..n], b[..n]);
    }
  }

  lemma {:induction false} SumZeros(n: nat)
    ensures Sum(Zeros(n)) == 0.0
    decreases n
  {
    if n > 0 {
      assert Zeros(n)[..n - 1] == Zeros(n - 1);
      SumZeros(n - 1);
    }
  }

  /** The result of round() is the only integer within one half of x that is
      even whenever x lies exactly between two integers. */
  lemma RoundUnique(x: real, n: int)
    requires x - 0.5 <= n as real <= x + 0.5
    requires (n as real == x + 0.5 || n as real == x - 0.5) ==> n % 2 == 0
    ensures n == RoundHalfEven(x)
  {
    var r := RoundHalfEven(x);
  }

  /** round() never reverses an order. */
  lemma RoundMonotone(x: real, y: real)
    requires x <= y
    ensures RoundHalfEven(x) <= RoundHalfEven(y)
  {
    var rx, ry := RoundHalfEven(x), RoundHalfEven(y);
  }

  // ---------------------------------------------------------------- positions of repeated maxima

  /** Where entry i of a vector sat before entry k was deleted in front of it. */
  function Unshift(k: nat, i: nat): nat {
    if i < k then i else i + 1
  }

  /** The original positions of the entries that `count` successive steps
      "take the first maximum, delete it" take, in the order they are taken. */
  function Picks(s: seq<real>, count: nat): (p: seq<nat>)
    requires count <= |s|
    ensures |p| == count
    decreases count
  {
    if count == 0 then []
    else
      var k := FirstArgmax(s);
      var q := Picks(DropMax(s), count - 1);
      [k] + seq(count - 1, j requires 0 <= j < count - 1 => Unshift(k, q[j]))
  }

  /** Position x is not in `taken` and holds the first maximum of s among the
      positions not in `taken`. */
  predicate FirstMaxAmong(s: seq<real>, taken: seq<nat>, x: nat)
    requires x < |s|
  {
    x !in taken &&
    forall i :: 0 <= i < |s| && i !in taken ==> s[i] <= s[x] && (i < x ==> s[i] < s[x])
  }

  /** Pick j is the first maximum among the positions not picked before it,
      and its value is the j-th largest. */
  predicate PickFacts(s: seq<real>, p: seq<nat>, j: nat)
    requires j < |p| <= |s|
  {
    p[j] < |s| && FirstMaxAmong(s, p[..j], p[j]) && s[p[j]] == KthLargest(s, j)
  }

  /** Every pick is the first maximum of the positions left, never a position
      taken before, and carries the next order statistic. */
  lemma {:induction false} PicksFacts(s: seq<real>, count: nat)
    requires count <= |s|
    ensures forall j :: 0 <= j < count ==> PickFacts(s, Picks(s, count), j)
    decreases count
  {
    if count > 0 {
      var t := DropMax(s);
      var q := Picks(t, count - 1);
      PicksFacts(t, count - 1);
      var p := Picks(s, count);
      forall j | 0 <= j < count ensures PickFacts(s, p, j) {
        if j == 0 {
          FirstPick(s, count);
        } else {
          assert PickFacts(t, q, j - 1);
          LaterPick(s, count, j, t, q);
        }
      }
    }
  }

  /** The first pick is the first maximum. */
  lemma FirstPick(s: seq<real>, count: nat)
    requires 0 < count <= |s|
    ensures PickFacts(s, Picks(s, count), 0)
  {
    MaxIsUpperBound(s);
    FirstArgmaxIsFirst(s);
    assert Picks(s, count)[..0] == [];
  }

  /** A later pick is a pick of the shortened vector, moved back past the
      deleted maximum. */
  lemma LaterPick(s: seq<real>, count: nat, j: nat, t: seq<real>, q: seq<nat>)
    requires 0 < j < count <= |s| && t == DropMax(s) && q == Picks(t, count - 1)
    requires PickFacts(t, q, j - 1)
    ensures PickFacts(s, Picks(s, count), j)
  {
    var k := FirstArgmax(s);
    var p := Picks(s, count);
    var x := q[j - 1];
    PicksShape(s, count, t, q);
    RemoveAt(s, k, x);
    assert s[p[j]] == KthLargest(s, j) by {
      assert s[p[j]] == t[x];
    }
    LaterPickNotTaken(k, p[..j], q[..j - 1], x);
    forall i | 0 <= i < |s| && i !in p[..j]
      ensures s[i] <= s[p[j]] && (i < p[j] ==> s[i] < s[p[j]])
    {
      LaterPickEntry(s, k, p[..j], q[..j - 1], x, i);
    }
  }

  /** A pick of the shortened vector, moved back past the deleted maximum,
      is neither the maximum nor any earlier pick. */
  lemma LaterPickNotTaken(k: nat, taken: seq<nat>, shifted: seq<nat>, x: nat)
    requires |taken| == |shifted| + 1 && taken[0] == k && x !in shifted
    requires forall m :: 0 <= m < |shifted| ==> taken[m + 1] == Unshift(k, shifted[m])
    ensures Unshift(k, x) !in taken
  {
    forall m | 0 <= m < |taken| ensures taken[m] != Unshift(k, x) {
      if m > 0 {
        assert taken[m] == Unshift(k, shifted[m - 1]);
      }
    }
  }

  /** Entry i of the vector without entry k, as a position of the vector. */
  lemma RemoveUnshift<T>(s: seq<T>, k: nat, i: nat)
    requires k < |s| && i < |s| - 1
    ensures Unshift(k, i) < |s| && Remove(s, k)[i] == s[Unshift(k, i)]
  {
    RemoveAt(s, k, i);
  }

  /** The first three picks: the first maximum, then the first maximum of
      the vector without it, then that of the vector without both. */
  lemma FirstThreePicks(s: seq<real>)
    requires |s| >= 3
    ensures var k := FirstArgmax(s);
            var k2 := FirstArgmax(DropMax(s));
            var k3 := FirstArgmax(DropMax(DropMax(s)));
            Picks(s, 3) == [k, Unshift(k, k2), Unshift(k, Unshift(k2, k3))]
  {
    var t := DropMax(s);
    assert Picks(DropMax(t), 1)[0] == FirstArgmax(DropMax(t));
    assert Picks(t, 2)[1] == Unshift(FirstArgmax(t), FirstArgmax(DropMax(t)));
  }

  /** The picks are the first maximum followed by the picks of the shortened
      vector, moved back past it. */
  lemma PicksShape(s: seq<real>, count: nat, t: seq<real>, q: seq<nat>)
    requires 0 < count <= |s| && t == DropMax(s) && q == Picks(t, count - 1)
    ensures Picks(s, count)[0] == FirstArgmax(s)
    ensures forall m :: 0 < m < count ==> Picks(s, count)[m] == Unshift(FirstArgmax(s), q[m - 1])
  {
  }

  /** A position not yet picked, seen in the shortened vector. */
  lemma LaterPickEntry(s: seq<real>, k: nat, taken: seq<nat>, shifted: seq<nat>, x: nat, i: nat)
    requires k < |s| && x < |s| - 1 && i < |s| && i !in taken
    requires |taken| == |shifted| + 1 && taken[0] == k
    requires forall m :: 0 <= m < |shifted| ==> taken[m + 1] == Unshift(k, shifted[m])
    requires FirstMaxAmong(Remove(s, k), shifted, x)
    ensures s[i] <= s[Unshift(k, x)] && (i < Unshift(k, x) ==> s[i] < s[Unshift(k, x)])
  {
    assert i != k by { assert taken[0] == k; }
    var i' := if i < k then i else i - 1;
    assert Unshift(k, i') == i;
    RemoveAt(s, k, i');
    RemoveAt(s, k, x);
    forall m | 0 <= m < |shifted| ensures shifted[m] != i' {
      assert taken[m + 1] in taken;
    }
  }
}
