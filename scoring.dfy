/** The scoring loop of `run()`: starting from the system prior, every
    triggered symptom multiplies the 70-entry cause vector by its row of
    weights, and after each multiplication the three blocks (pregnancy
    status 0-2, medical causes 3-63, circumstances 64-69) are each rescaled to
    sum 1 when their sum is positive. */
module Scoring {

  import opened Numeric
  import opened CauseText

  /** Element-wise product of a cause vector and a row of weights. */
  function Multiply(p: seq<real>, w: seq<real>): (r: seq<real>)
    requires |p| == |w|
    ensures |r| == |p|
  {
    seq(|p|, i requires 0 <= i < |p| => p[i] * w[i])
  }

  /** `p[lo:hi]` rescaled to sum 1 when its sum is positive, the rest untouched. */
  function RenormaliseRange(p: seq<real>, lo: nat, hi: nat): (r: seq<real>)
    requires lo <= hi <= |p|
    ensures |r| == |p|
  {
    p[..lo] + NormaliseIfPositive(p[lo..hi]) + p[hi..]
  }

  /** The three block renormalisations, in the order the loop runs them. */
  function RenormaliseBlocks(p: seq<real>): (r: seq<real>)
    requires |p| == NumCauses
    ensures |r| == NumCauses
  {
    var a := RenormaliseRange(p, 0, PregnancyEnd);
    var b := RenormaliseRange(a, PregnancyEnd, MedicalEnd);
    RenormaliseRange(b, MedicalEnd, NumCauses)
  }

  /** One pass of the loop body for one triggered symptom. */
  function Step(p: seq<real>, w: seq<real>): (r: seq<real>)
    requires |p| == NumCauses && |w| == NumCauses
    ensures |r| == NumCauses
  {
    RenormaliseBlocks(Multiply(p, w))
  }

  predicate WeightRows(weights: seq<seq<real>>) {
    forall r :: 0 <= r < |weights| ==> |weights[r]| == NumCauses
  }

  predicate NonNegativeRows(weights: seq<seq<real>>) {
    forall r :: 0 <= r < |weights| ==> NonNegative(weights[r])
  }

  predicate RowsIn(ys: seq<nat>, n: nat) {
    forall k :: 0 <= k < |ys| ==> ys[k] < n
  }

  /** The cause vector after the triggered symptoms `ys`, taken in order. */
  function Propagate(p: seq<real>, weights: seq<seq<real>>, ys: seq<nat>): (r: seq<real>)
    requires |p| == NumCauses && WeightRows(weights) && RowsIn(ys, |weights|)
    ensures |r| == NumCauses
    decreases |ys|
  {
    if |ys| == 0 then p else Propagate(Step(p, weights[ys[0]]), weights, ys[1..])
  }

  // ---------------------------------------------------------------- the loop, in place

  method MultiplyRow(a: array<real>, w: seq<real>)
    requires a.Length == |w|
    modifies a
    ensures a[..] == Multiply(old(a[..]), w)
  {
    var i := 0;
    while i < a.Length
      invariant 0 <= i <= a.Length
      invariant forall k :: 0 <= k < i ==> a[k] == old(a[k]) * w[k]
      invariant forall k :: i <= k < a.Length ==> a[k] == old(a[k])
    {
      a[i] := a[i] * w[i];
      i := i + 1;
    }
    assert forall k :: 0 <= k < a.Length ==> a[..][k] == Multiply(old(a[..]), w)[k];
  }

  /** `nansum(a[lo:hi])`. */
  method BlockSum(a: array<real>, lo: nat, hi: nat) returns (total: real)
    requires lo <= hi <= a.Length
    ensures total == Sum(a[lo..hi])
  {
    total := 0.0;
    var j := lo;
    while j < hi
      invariant lo <= j <= hi
      invariant total == Sum(a[lo..j])
    {
      assert a[lo..j + 1][..j - lo] == a[lo..j];
      total := total + a[j];
      j := j + 1;
    }
  }

  /** `if nansum(a[lo:hi]) > 0: a[lo:hi] = a[lo:hi] / nansum(a[lo:hi])`. */
  method RenormaliseBlock(a: array<real>, lo: nat, hi: nat)
    requires lo <= hi <= a.Length
    modifies a
    ensures a[..] == RenormaliseRange(old(a[..]), lo, hi)
  {
    var total := BlockSum(a, lo, hi);
    if total > 0.0 {
      var j := lo;
      while j < hi
        invariant lo <= j <= hi
        invariant forall k :: 0 <= k < a.Length ==> a[k] == (if lo <= k < j then old(a[k]) / total else old(a[k]))
      {
        a[j] := a[j] / total;
        j := j + 1;
      }
    }
    forall k | 0 <= k < a.Length ensures a[k] == RenormaliseRange(old(a[..]), lo, hi)[k] {
      RenormaliseRangeAt(old(a[..]), lo, hi, k);
    }
  }

  /** The per-record loop: copy the prior, then multiply and renormalise once
      per triggered symptom. */
  method ScoreRecord(prior: seq<real>, weights: seq<seq<real>>, ys: seq<nat>) returns (prob: seq<real>)
    requires |prior| == NumCauses && WeightRows(weights) && RowsIn(ys, |weights|)
    ensures prob == Propagate(prior, weights, ys)
  {
    var a := new real[NumCauses](i requires 0 <= i < NumCauses => prior[i]);
    assert a[..] == prior;
    var t := 0;
    while t < |ys|
      invariant 0 <= t <= |ys|
      invariant a.Length == NumCauses
      invariant Propagate(a[..], weights, ys[t..]) == Propagate(prior, weights, ys)
    {
      ghost var before := a[..];
      var w := weights[ys[t]];
      MultiplyRow(a, w);
      RenormaliseBlock(a, 0, PregnancyEnd);
      RenormaliseBlock(a, PregnancyEnd, MedicalEnd);
      RenormaliseBlock(a, MedicalEnd, NumCauses);
      assert a[..] == Step(before, w);
      assert ys[t..][1..] == ys[t + 1..];
      t := t + 1;
    }
    prob := a[..];
  }

  // ---------------------------------------------------------------- properties

  /** Entries of the cause vector lie in [0, 1]. */
  predicate Probabilities(p: seq<real>) {
    NonNegative(p) && forall i :: 0 <= i < |p| ==> p[i] <= 1.0
  }

  /** A block holds all the mass or none. */
  predicate BlockMass(p: seq<real>, lo: nat, hi: nat)
    requires lo <= hi <= |p|
  {
    Sum(p[lo..hi]) == 1.0 || Sum(p[lo..hi]) == 0.0
  }

  predicate Normalised(p: seq<real>)
    requires |p| == NumCauses
  {
    Probabilities(p) && BlockMass(p, 0, PregnancyEnd) && BlockMass(p, PregnancyEnd, MedicalEnd) &&
    BlockMass(p, MedicalEnd, NumCauses)
  }

  lemma RenormaliseRangeAt(p: seq<real>, lo: nat, hi: nat, k: nat)
    requires lo <= hi <= |p| && k < |p|
    ensures RenormaliseRange(p, lo, hi)[k] ==
            if lo <= k < hi && Sum(p[lo..hi]) > 0.0 then p[k] / Sum(p[lo..hi]) else p[k]
  {
    if lo <= k < hi {
      var q := p[lo..hi];
      assert RenormaliseRange(p, lo, hi)[k] == NormaliseIfPositive(q)[k - lo];
      NormaliseAt(q, k - lo);
      assert q[k - lo] == p[k];
    } else if k < lo {
      assert RenormaliseRange(p, lo, hi)[k] == p[..lo][k];
    } else {
      assert RenormaliseRange(p, lo, hi)[k] == p[hi..][k - hi];
    }
  }

  lemma NormaliseAt(s: seq<real>, i: nat)
    requires i < |s|
    ensures NormaliseIfPositive(s)[i] == if Sum(s) > 0.0 then s[i] / Sum(s) else s[i]
  {
  }

  /** Renormalising the three blocks is normalising each block on its own. */
  lemma BlocksSeparate(p: seq<real>)
    requires |p| == NumCauses
    ensures RenormaliseBlocks(p) ==
            NormaliseIfPositive(p[..PregnancyEnd]) + NormaliseIfPositive(p[PregnancyEnd..MedicalEnd]) +
            NormaliseIfPositive(p[MedicalEnd..])
  {
    var x, y, z := p[..PregnancyEnd], p[PregnancyEnd..MedicalEnd], p[MedicalEnd..];
    var a := RenormaliseRange(p, 0, PregnancyEnd);
    assert a == NormaliseIfPositive(x) + p[PregnancyEnd..];
    assert a[..PregnancyEnd] == NormaliseIfPositive(x);
    assert a[PregnancyEnd..MedicalEnd] == y;
    assert a[MedicalEnd..] == z;
    var b := RenormaliseRange(a, PregnancyEnd, MedicalEnd);
    assert b == NormaliseIfPositive(x) + NormaliseIfPositive(y) + z;
    assert b[..MedicalEnd] == NormaliseIfPositive(x) + NormaliseIfPositive(y);
    assert b[MedicalEnd..NumCauses] == z;
  }

  /** Block sums and bounds of a concatenation of three normalised blocks. */
  lemma ThreeBlocks(x: seq<real>, y: seq<real>, z: seq<real>)
    requires |x| == PregnancyEnd && |y| == MedicalEnd - PregnancyEnd && |z| == NumCauses - MedicalEnd
    requires NonNegative(x) && NonNegative(y) && NonNegative(z)
    ensures Normalised(NormaliseIfPositive(x) + NormaliseIfPositive(y) + NormaliseIfPositive(z))
  {
    var nx, ny, nz := NormaliseIfPositive(x), NormaliseIfPositive(y), NormaliseIfPositive(z);
    var r := nx + ny + nz;
    assert r[..PregnancyEnd] == nx;
    assert r[PregnancyEnd..MedicalEnd] == ny;
    assert r[MedicalEnd..NumCauses] == nz;
    forall i | 0 <= i < |r| ensures 0.0 <= r[i] <= 1.0 {
      if i < PregnancyEnd {
        assert r[i] == nx[i];
      } else if i < MedicalEnd {
        assert r[i] == ny[i - PregnancyEnd];
      } else {
        assert r[i] == nz[i - MedicalEnd];
      }
    }
  }

  /** After one symptom every block holds mass 1 or 0, and every entry is in [0, 1]. */
  lemma StepNormalised(p: seq<real>, w: seq<real>)
    requires |p| == NumCauses && |w| == NumCauses && NonNegative(p) && NonNegative(w)
    ensures Normalised(Step(p, w))
  {
    var q := Multiply(p, w);
    assert NonNegative(q);
    BlocksSeparate(q);
    ThreeBlocks(q[..PregnancyEnd], q[PregnancyEnd..MedicalEnd], q[MedicalEnd..]);
  }

  /** Once at least one symptom has been applied, the cause vector is
      normalised block by block. */
  lemma {:induction false} PropagateNormalised(p: seq<real>, weights: seq<seq<real>>, ys: seq<nat>)
    requires |p| == NumCauses && WeightRows(weights) && RowsIn(ys, |weights|)
    requires NonNegative(p) && NonNegativeRows(weights) && |ys| >= 1
    ensures Normalised(Propagate(p, weights, ys))
    decreases |ys|
  {
    var q := Step(p, weights[ys[0]]);
    StepNormalised(p, weights[ys[0]]);
    if |ys| > 1 {
      PropagateNormalised(q, weights, ys[1..]);
    }
  }

  /** With no triggered symptom the prior is returned unchanged. */
  lemma PropagateNothing(p: seq<real>, weights: seq<seq<real>>)
    requires |p| == NumCauses && WeightRows(weights)
    ensures Propagate(p, weights, []) == p
  {
  }

  /** Entries stay in [0, 1] whether or not a symptom was applied. */
  lemma PropagateProbabilities(p: seq<real>, weights: seq<seq<real>>, ys: seq<nat>)
    requires |p| == NumCauses && WeightRows(weights) && RowsIn(ys, |weights|)
    requires Probabilities(p) && NonNegativeRows(weights)
    ensures Probabilities(Propagate(p, weights, ys))
  {
    if |ys| >= 1 {
      PropagateNormalised(p, weights, ys);
    }
  }

  // ---------------------------------------------------------------- closed form

  function Ones(n: nat): (r: seq<real>)
    ensures |r| == n
  {
    seq(n, _ => 1.0)
  }

  /** The element-wise product of the weight rows of `ys`. */
  function Product(weights: seq<seq<real>>, ys: seq<nat>): (r: seq<real>)
    requires WeightRows(weights) && RowsIn(ys, |weights|)
    ensures |r| == NumCauses
    ensures NonNegativeRows(weights) ==> NonNegative(r)
    decreases |ys|
  {
    if |ys| == 0 then Ones(NumCauses)
    else Multiply(weights[ys[0]], Product(weights, ys[1..]))
  }

  /** Rescaling a non-negative block by a positive factor does not change its normalised form. */
  lemma NormaliseScaled(x: seq<real>, t: real)
    requires NonNegative(x) && t > 0.0
    ensures NormaliseIfPositive(Divide(x, t)) == NormaliseIfPositive(x)
  {
    var y := Divide(x, t);
    SumDivide(x, t);
    if Sum(x) > 0.0 {
      var s := Sum(x);
      assert Sum(y) == s / t;
      forall i | 0 <= i < |x| ensures y[i] / (s / t) == x[i] / s {
        assert y[i] == x[i] / t;
      }
    } else {
      NormaliseFacts(x);
      forall i | 0 <= i < |x| ensures y[i] == x[i] {
        assert x[i] == 0.0;
      }
    }
  }

  /** Normalising a block before a multiplication changes nothing after the
      next normalisation. */
  lemma NormaliseBeforeMultiply(x: seq<real>, v: seq<real>)
    requires |x| == |v| && NonNegative(x) && NonNegative(v)
    ensures NormaliseIfPositive(Multiply(NormaliseIfPositive(x), v)) == NormaliseIfPositive(Multiply(x, v))
  {
    if Sum(x) > 0.0 {
      var t := Sum(x);
      forall i | 0 <= i < |x| ensures Multiply(Divide(x, t), v)[i] == Divide(Multiply(x, v), t)[i] {
        assert (x[i] / t) * v[i] * t == x[i] * v[i];
      }
      assert Multiply(Divide(x, t), v) == Divide(Multiply(x, v), t);
      assert NonNegative(Multiply(x, v));
      NormaliseScaled(Multiply(x, v), t);
    }
  }

  /** Multiplying a vector cut in three is multiplying the three parts. */
  lemma MultiplyParts(x: seq<real>, y: seq<real>, z: seq<real>, v: seq<real>)
    requires |x| + |y| + |z| == |v|
    ensures Multiply(x + y + z, v) ==
            Multiply(x, v[..|x|]) + Multiply(y, v[|x|..|x| + |y|]) + Multiply(z, v[|x| + |y|..])
  {
    var parts := Multiply(x, v[..|x|]) + Multiply(y, v[|x|..|x| + |y|]) + Multiply(z, v[|x| + |y|..]);
    forall i | 0 <= i < |v| ensures Multiply(x + y + z, v)[i] == parts[i] {
      if i < |x| {
        assert parts[i] == Multiply(x, v[..|x|])[i];
      } else if i < |x| + |y| {
        assert parts[i] == Multiply(y, v[|x|..|x| + |y|])[i - |x|];
      } else {
        assert parts[i] == Multiply(z, v[|x| + |y|..])[i - |x| - |y|];
      }
    }
  }

  /** Vectors whose three blocks normalise alike renormalise alike. */
  lemma SameBlocks(a: seq<real>, b: seq<real>)
    requires |a| == NumCauses && |b| == NumCauses
    requires NormaliseIfPositive(a[..PregnancyEnd]) == NormaliseIfPositive(b[..PregnancyEnd])
    requires NormaliseIfPositive(a[PregnancyEnd..MedicalEnd]) == NormaliseIfPositive(b[PregnancyEnd..MedicalEnd])
    requires NormaliseIfPositive(a[MedicalEnd..]) == NormaliseIfPositive(b[MedicalEnd..])
    ensures RenormaliseBlocks(a) == RenormaliseBlocks(b)
  {
    BlocksSeparate(a);
    BlocksSeparate(b);
  }

  /** Renormalising the blocks before a multiplication changes nothing after
      the next renormalisation. */
  lemma RenormaliseBeforeMultiply(q: seq<real>, v: seq<real>)
    requires |q| == NumCauses && |v| == NumCauses && NonNegative(q) && NonNegative(v)
    ensures RenormaliseBlocks(Multiply(RenormaliseBlocks(q), v)) == RenormaliseBlocks(Multiply(q, v))
  {
    var x, y, z := q[..PregnancyEnd], q[PregnancyEnd..MedicalEnd], q[MedicalEnd..];
    var vx, vy, vz := v[..PregnancyEnd], v[PregnancyEnd..MedicalEnd], v[MedicalEnd..];
    var nx, ny, nz := NormaliseIfPositive(x), NormaliseIfPositive(y), NormaliseIfPositive(z);
    BlocksSeparate(q);
    assert q == x + y + z;
    MultiplyParts(nx, ny, nz, v);
    MultiplyParts(x, y, z, v);
    var left := Multiply(nx, vx) + Multiply(ny, vy) + Multiply(nz, vz);
    var right := Multiply(x, vx) + Multiply(y, vy) + Multiply(z, vz);
    assert left[..PregnancyEnd] == Multiply(nx, vx) && right[..PregnancyEnd] == Multiply(x, vx);
    assert left[PregnancyEnd..MedicalEnd] == Multiply(ny, vy) && right[PregnancyEnd..MedicalEnd] == Multiply(y, vy);
    assert left[MedicalEnd..] == Multiply(nz, vz) && right[MedicalEnd..] == Multiply(z, vz);
    NormaliseBeforeMultiply(x, vx);
    NormaliseBeforeMultiply(y, vy);
    NormaliseBeforeMultiply(z, vz);
    SameBlocks(left, right);
  }

  lemma MultiplyAssociative(p: seq<real>, w: seq<real>, u: seq<real>)
    requires |p| == |w| == |u|
    ensures Multiply(Multiply(p, w), u) == Multiply(p, Multiply(w, u))
  {
    forall i | 0 <= i < |p| ensures Multiply(Multiply(p, w), u)[i] == Multiply(p, Multiply(w, u))[i] {
      assert (p[i] * w[i]) * u[i] == p[i] * (w[i] * u[i]);
    }
  }

  /** The scoring loop computes the prior times the product of the weights of
      all triggered symptoms, each block normalised once at the end. */
  lemma {:induction false} PropagateClosedForm(p: seq<real>, weights: seq<seq<real>>, ys: seq<nat>)
    requires |p| == NumCauses && WeightRows(weights) && RowsIn(ys, |weights|)
    requires NonNegative(p) && NonNegativeRows(weights) && |ys| >= 1
    ensures Propagate(p, weights, ys) == RenormaliseBlocks(Multiply(p, Product(weights, ys)))
    decreases |ys|
  {
    var w := weights[ys[0]];
    var rest := ys[1..];
    if |rest| == 0 {
      assert Product(weights, ys) == Multiply(w, Ones(NumCauses));
      assert Multiply(w, Ones(NumCauses)) == w;
    } else {
      var q := Multiply(p, w);
      assert NonNegative(q);
      StepNormalised(p, w);
      PropagateClosedForm(Step(p, w), weights, rest);
      RenormaliseBeforeMultiply(q, Product(weights, rest));
      MultiplyAssociative(p, w, Product(weights, rest));
    }
  }

  /** The weight product does not depend on the order of its first two rows. */
  lemma ProductSwap(weights: seq<seq<real>>, a: nat, b: nat, rest: seq<nat>)
    requires WeightRows(weights) && a < |weights| && b < |weights| && RowsIn(rest, |weights|)
    ensures RowsIn([a, b] + rest, |weights|) && RowsIn([b, a] + rest, |weights|)
    ensures Product(weights, [a, b] + rest) == Product(weights, [b, a] + rest)
  {
    ProductCons(weights, b, rest);
    ProductCons(weights, a, rest);
    ProductCons(weights, a, [b] + rest);
    ProductCons(weights, b, [a] + rest);
    assert [a, b] + rest == [a] + ([b] + rest) && [b, a] + rest == [b] + ([a] + rest);
    MultiplySwap(weights[a], weights[b], Product(weights, rest));
  }

  /** The product over one more symptom multiplies in its row. */
  lemma ProductCons(weights: seq<seq<real>>, y: nat, rest: seq<nat>)
    requires WeightRows(weights) && y < |weights| && RowsIn(rest, |weights|)
    ensures RowsIn([y] + rest, |weights|)
    ensures Product(weights, [y] + rest) == Multiply(weights[y], Product(weights, rest))
  {
    assert ([y] + rest)[1..] == rest;
  }

  /** Multiplying by two weight vectors in either order gives the same vector. */
  lemma MultiplySwap(x: seq<real>, y: seq<real>, t: seq<real>)
    requires |x| == |y| == |t|
    ensures Multiply(x, Multiply(y, t)) == Multiply(y, Multiply(x, t))
  {
    forall i | 0 <= i < |t|
      ensures Multiply(x, Multiply(y, t))[i] == Multiply(y, Multiply(x, t))[i]
    {
      assert x[i] * (y[i] * t[i]) == y[i] * (x[i] * t[i]);
    }
  }

  /** Swapping two triggered symptoms does not change the result. */
  lemma TriggerOrderIrrelevant(p: seq<real>, weights: seq<seq<real>>, a: nat, b: nat, rest: seq<nat>)
    requires |p| == NumCauses && WeightRows(weights) && NonNegative(p) && NonNegativeRows(weights)
    requires a < |weights| && b < |weights| && RowsIn(rest, |weights|)
    ensures RowsIn([a, b] + rest, |weights|) && RowsIn([b, a] + rest, |weights|)
    ensures Propagate(p, weights, [a, b] + rest) == Propagate(p, weights, [b, a] + rest)
  {
    ProductSwap(weights, a, b, rest);
    PropagateClosedForm(p, weights, [a, b] + rest);
    PropagateClosedForm(p, weights, [b, a] + rest);
  }
}
