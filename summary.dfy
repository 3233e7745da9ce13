/** The per-record summary `run()` derives from the scored cause vector: the
    pregnancy status from block A, the top three causes with their
    likelihoods and the indeterminate remainder from block B, and the
    circumstance of mortality from block C. */
module Summary {

  import opened Numeric
  import opened CauseText
  import opened Scoring

  /** The pregnancy states `run()` writes, by position in block A. */
  const PregnancyStateNames: seq<string> :=
    ["Not pregnant or recently delivered", "Pregnancy ended within 6 weeks of death", "Pregnant at death"]

  /** PREGSTAT with PREGLIK: the initial " ", "n/a", "indeterminate", or a
      state with its likelihood in percent. */
  datatype Pregnancy = Unassigned | NotApplicable | Indeterminate | State(name: string, likelihood: int)

  /** `round(p[i] / nansum(p) * 100)`. */
  function Share(p: seq<real>, i: nat): int
    requires i < |p| && NonNegative(p) && p[i] > 0.0
  {
    EntryAtMostSum(p, i);
    RoundHalfEven(p[i] / Sum(p) * 100.0)
  }

  /** The pregnancy decision, as the five conditional assignments run in turn. */
  function PregnancyStatus(probA: seq<real>, reproductiveAge: bool): (s: Pregnancy)
    requires |probA| == PregnancyEnd && NonNegative(probA)
    ensures !reproductiveAge ==> s == NotApplicable
    ensures reproductiveAge && Max(probA) < 0.1 ==> s == Indeterminate
    ensures reproductiveAge && Max(probA) >= 0.1 ==>
              s == State(PregnancyStateNames[FirstArgmax(probA)], Share(probA, FirstArgmax(probA)))
    ensures s.State? ==> 33 <= s.likelihood <= 100
  {
    var k := FirstArgmax(probA);
    var s1 := if Sum(probA) == 0.0 || !reproductiveAge then NotApplicable else Unassigned;
    var s2 := if Max(probA) < 0.1 && reproductiveAge then Indeterminate else s1;
    var s3 := if k == 0 && probA[0] >= 0.1 && reproductiveAge then State(PregnancyStateNames[0], Share(probA, 0)) else s2;
    var s4 := if k == 1 && probA[1] >= 0.1 && reproductiveAge then State(PregnancyStateNames[1], Share(probA, 1)) else s3;
    var s5 := if k == 2 && probA[2] >= 0.1 && reproductiveAge then State(PregnancyStateNames[2], Share(probA, 2)) else s4;
    if s5.State? then MajorityShare(probA); s5 else s5
  }

  /** The largest of three non-negative entries holds at least a third of their sum. */
  lemma MajorityShare(p: seq<real>)
    requires |p| == 3 && NonNegative(p) && Max(p) > 0.0
    ensures 33 <= Share(p, FirstArgmax(p)) <= 100
  {
    var k := FirstArgmax(p);
    var m, t := Max(p), Sum(p);
    assert t == p[0] + p[1] + p[2] by {
      assert p[..2][..1] == p[..1];
      assert Sum(p[..1]) == Sum(p[..1][..0]) + p[0];
      assert Sum(p[..2]) == Sum(p[..1]) + p[1];
    }
    assert 3.0 * m >= t;
    EntryAtMostSum(p, k);
    QuotientAtLeast(m, t, 1.0 / 3.0);
    QuotientAtMostOne(m, t);
    RoundMonotone(100.0 / 3.0, m / t * 100.0);
    RoundMonotone(m / t * 100.0, 100.0);
    assert RoundHalfEven(100.0 / 3.0) == 33;
    assert RoundHalfEven(100.0) == 100;
  }

  /** The pregnancy states written by `run()` are the cause texts of block A. */
  lemma PregnancyNamesAreBlockA()
    ensures PregnancyStateNames == CauseTexts[..PregnancyEnd]
  {
  }

  // ---------------------------------------------------------------- top three causes

  /** A position of the ranking: no cause, or a cause with its propensity. */
  datatype Choice = NoCause | Chosen(cause: string, propensity: real)

  datatype Ranking = Ranking(first: Choice, second: Choice, third: Choice)

  /** The top-three decision over block B: below 0.4 nothing is chosen;
      otherwise the first maximum is taken and deleted, then the next two
      likewise, each left out below half the maximum. */
  function RankTopThree(probB: seq<real>, names: seq<string>): (r: Ranking)
    requires |probB| == |names| >= 3
  {
    var m := Max(probB);
    if m < 0.4 then Ranking(NoCause, NoCause, NoCause)
    else
      var k := FirstArgmax(probB);
      var c2 := NextChoice(DropMax(probB), Remove(names, k), m);
      var c3 := NextChoice(DropMax(DropMax(probB)), Remove(Remove(names, k), FirstArgmax(DropMax(probB))), m);
      Ranking(Chosen(names[k], m), c2, c3)
  }

  /** The cause with the largest entry left: none below half the overall maximum. */
  function NextChoice(values: seq<real>, names: seq<string>, overallMax: real): (c: Choice)
    requires |values| == |names| > 0
  {
    if Max(values) < 0.5 * overallMax then NoCause
    else Chosen(names[FirstArgmax(values)], Max(values))
  }

  /** The second and third choices follow the ranking of block B: each is left
      out exactly when the second (third) largest value falls below half the
      maximum and otherwise carries that value; the third is never chosen
      when the second is not, and the propensities never increase. */
  lemma RankingFollowsOrder(probB: seq<real>, names: seq<string>)
    requires |probB| == |names| >= 3 && Max(probB) >= 0.4
    ensures var r := RankTopThree(probB, names);
            (r.second.NoCause? <==> KthLargest(probB, 1) < 0.5 * Max(probB)) &&
            (r.third.NoCause? <==> KthLargest(probB, 2) < 0.5 * Max(probB)) &&
            (r.second.Chosen? ==> r.second.propensity == KthLargest(probB, 1)) &&
            (r.third.Chosen? ==> r.third.propensity == KthLargest(probB, 2)) &&
            (r.third.Chosen? ==> r.second.Chosen?) &&
            (r.second.Chosen? ==> r.second.propensity <= r.first.propensity) &&
            (r.third.Chosen? ==> r.third.propensity <= r.second.propensity)
  {
    var t1 := DropMax(probB);
    assert KthLargest(probB, 0) == Max(probB);
    assert KthLargest(probB, 1) == Max(t1);
    assert KthLargest(probB, 2) == Max(DropMax(t1)) by {
      assert KthLargest(probB, 2) == KthLargest(t1, 1);
    }
    KthLargestDecreasing(probB, 0);
    KthLargestDecreasing(probB, 1);
  }

  /** Each choice names the cause at the matching pick of block B: the first
      choice the first maximum, the second the first maximum of the positions
      left after it, the third likewise, each with the value there. Nothing is
      chosen exactly when the maximum is below 0.4. */
  lemma RankingNames(probB: seq<real>, names: seq<string>)
    requires |probB| == |names| >= 3
    ensures var r := RankTopThree(probB, names);
            var p := Picks(probB, 3);
            (r.first.NoCause? <==> Max(probB) < 0.4) &&
            PickFacts(probB, p, 0) && PickFacts(probB, p, 1) && PickFacts(probB, p, 2) &&
            (r.first.Chosen? ==> r.first == Chosen(names[p[0]], probB[p[0]])) &&
            (r.second.Chosen? ==> r.second == Chosen(names[p[1]], probB[p[1]])) &&
            (r.third.Chosen? ==> r.third == Chosen(names[p[2]], probB[p[2]]))
  {
    PicksFacts(probB, 3);
    FirstThreePicks(probB);
    var r := RankTopThree(probB, names);
    var k := FirstArgmax(probB);
    var t, n1 := DropMax(probB), Remove(names, k);
    var k2 := FirstArgmax(t);
    var t2, n2 := DropMax(t), Remove(n1, k2);
    var k3 := FirstArgmax(t2);
    if r.second.Chosen? {
      assert r.second == Chosen(n1[k2], t[k2]);
      RemoveUnshift(probB, k, k2);
      RemoveUnshift(names, k, k2);
    }
    if r.third.Chosen? {
      assert r.third == Chosen(n2[k3], t2[k3]);
      RemoveUnshift(t, k2, k3);
      RemoveUnshift(n1, k2, k3);
      RemoveUnshift(probB, k, Unshift(k2, k3));
      RemoveUnshift(names, k, Unshift(k2, k3));
    }
  }

  /** A cause slot as written: " " or a cause with its likelihood in percent. */
  datatype Slot = Blank | Named(cause: string, likelihood: int)

  datatype TopCauses = TopCauses(first: Slot, second: Slot, third: Slot, indeterminate: int)

  /** The likelihood a slot contributes to the indeterminate remainder. */
  function Likelihood(s: Slot): int {
    if s.Named? then s.likelihood else 0
  }

  /** `round(propensity * 100)` for a chosen cause. */
  function Written(c: Choice): (s: Slot)
  {
    if c.NoCause? then Blank else Named(c.cause, RoundHalfEven(c.propensity * 100.0))
  }

  /** The three slots as written, with the indeterminate remainder. */
  function TopThree(probB: seq<real>, names: seq<string>): (t: TopCauses)
    requires |probB| == |names| >= 3
    ensures t.indeterminate + Likelihood(t.first) + Likelihood(t.second) + Likelihood(t.third) == 100
    ensures Max(probB) < 0.4 ==> t == TopCauses(Blank, Blank, Blank, 100)
  {
    var r := RankTopThree(probB, names);
    var s1, s2, s3 := Written(r.first), Written(r.second), Written(r.third);
    TopCauses(s1, s2, s3, 100 - (Likelihood(s1) + Likelihood(s2) + Likelihood(s3)))
  }

  /** The likelihoods never increase from one slot to the next, and the first
      is at least 40. */
  lemma TopThreeOrdered(probB: seq<real>, names: seq<string>)
    requires |probB| == |names| >= 3
    ensures var t := TopThree(probB, names);
            (t.first.Named? ==> t.first.likelihood >= 40) &&
            (t.second.Named? ==> t.second.likelihood <= t.first.likelihood) &&
            (t.third.Named? ==> t.second.Named? && t.third.likelihood <= t.second.likelihood)
  {
    var r := RankTopThree(probB, names);
    if r.first.Chosen? {
      RankingFollowsOrder(probB, names);
      WrittenAtLeast40(r.first);
      if r.second.Chosen? {
        WrittenOrdered(r.first, r.second);
      }
      if r.third.Chosen? {
        WrittenOrdered(r.second, r.third);
      }
    }
  }

  lemma WrittenAtLeast40(c: Choice)
    requires c.Chosen? && c.propensity >= 0.4
    ensures Written(c).likelihood >= 40
  {
    RoundMonotone(40.0, c.propensity * 100.0);
    assert RoundHalfEven(40.0) == 40;
  }

  lemma WrittenOrdered(c1: Choice, c2: Choice)
    requires c1.Chosen? && c2.Chosen? && c2.propensity <= c1.propensity
    ensures Written(c2).likelihood <= Written(c1).likelihood
  {
    RoundMonotone(c2.propensity * 100.0, c1.propensity * 100.0);
  }

  /** With a cause list without repeats, no cause is chosen twice. */
  lemma RankingDistinct(probB: seq<real>, names: seq<string>)
    requires |probB| == |names| >= 3 && Distinct(names)
    ensures var r := RankTopThree(probB, names);
            (r.second.Chosen? ==> r.second.cause != r.first.cause) &&
            (r.third.Chosen? ==> r.third.cause != r.first.cause && r.second.Chosen? && r.third.cause != r.second.cause)
  {
    if Max(probB) >= 0.4 {
      RankingFollowsOrder(probB, names);
      var k1 := FirstArgmax(probB);
      var t1, n1 := DropMax(probB), Remove(names, k1);
      RemoveDistinct(names, k1);
      var k2 := FirstArgmax(t1);
      RemoveDistinct(n1, k2);
      RemoveIndex(n1, k2);
      var n2 := Remove(n1, k2);
      var k3 := FirstArgmax(DropMax(t1));
      assert n2[k3] == n1[if k3 < k2 then k3 else k3 + 1];
    }
  }

  /** Hence no cause is named twice among the written slots. */
  lemma TopThreeDistinct(probB: seq<real>, names: seq<string>)
    requires |probB| == |names| >= 3 && Distinct(names)
    ensures var t := TopThree(probB, names);
            (t.second.Named? ==> t.second.cause != t.first.cause) &&
            (t.third.Named? ==> t.third.cause != t.first.cause && t.second.Named? && t.third.cause != t.second.cause)
  {
    RankingDistinct(probB, names);
  }

  /** Over a block B of total mass at most 1 the indeterminate remainder lies
      in [-1, 100], and in [-1, 60] once a cause is named: the three rounded
      likelihoods can add up to 101. */
  lemma IndeterminateRange(probB: seq<real>, names: seq<string>)
    requires |probB| == |names| >= 3 && NonNegative(probB) && Sum(probB) <= 1.0
    ensures var t := TopThree(probB, names);
            -1 <= t.indeterminate <= 100 && (t.first.Named? ==> t.indeterminate <= 60)
  {
    var r := RankTopThree(probB, names);
    if r.first.Chosen? {
      TopThreeOrdered(probB, names);
      RankingFollowsOrder(probB, names);
      LargestThreeAtMostSum(probB);
      var m0, m1, m2 := KthLargest(probB, 0), KthLargest(probB, 1), KthLargest(probB, 2);
      assert m0 == r.first.propensity;
      var p1 := if r.second.Chosen? then m1 else 0.0;
      var p2 := if r.third.Chosen? then m2 else 0.0;
      assert 0.0 <= p2 <= m2 && 0.0 <= p1 <= m1 by {
        KthLargestNonNegative(probB, 2);
        KthLargestDecreasing(probB, 1);
      }
      RoundSumBound(m0 * 100.0, p1 * 100.0, p2 * 100.0);
      assert RoundHalfEven(0.0) == 0;
      RoundMonotone(0.0, p1 * 100.0);
      RoundMonotone(0.0, p2 * 100.0);
    }
  }

  /** A block B on which the three likelihoods add up to 101. */
  lemma IndeterminateCanBeNegative()
    ensures TopThree([0.406, 0.297, 0.297], ["x", "y", "z"]).indeterminate == -1
  {
    var p := [0.406, 0.297, 0.297];
    assert Max(p[1..]) == 0.297 by { assert p[1..][1..] == [0.297]; }
    assert FirstArgmax(p) == 0;
    var t1 := Remove(p, 0);
    assert t1 == [0.297, 0.297];
    assert Max(t1) == 0.297 by { assert t1[1..] == [0.297]; }
    assert FirstArgmax(t1) == 0;
    var t2 := Remove(t1, 0);
    assert t2 == [0.297];
    assert RoundHalfEven(0.406 * 100.0) == 41;
    assert RoundHalfEven(0.297 * 100.0) == 30;
  }

  // ---------------------------------------------------------------- circumstance

  /** COMCAT with COMNUM: "Multiple", or the category with its likelihood. */
  datatype Circumstance = Multiple | Category(name: string, likelihood: int)

  /** The circumstance decision over the renormalised block C. */
  function CircumstanceOf(probC: seq<real>, names: seq<string>): (c: Circumstance)
    requires |probC| == |names| > 0 && NonNegative(probC)
    ensures c.Multiple? <==> Max(NormaliseIfPositive(probC)) < 0.5
    ensures Sum(probC) == 0.0 ==> c == Multiple
    ensures c.Category? ==> c.name == names[FirstArgmax(NormaliseIfPositive(probC))]
    ensures c.Category? ==> 50 <= c.likelihood <= 100
    ensures c.Category? ==> forall i :: 0 <= i < |probC| && i != FirstArgmax(NormaliseIfPositive(probC)) ==>
              NormaliseIfPositive(probC)[i] <= 0.5
  {
    var pc := NormaliseIfPositive(probC);
    if Max(pc) < 0.5 then Multiple
    else
      var k := FirstArgmax(pc);
      CategoryFacts(probC);
      PercentOfMajority(Max(pc));
      Category(names[k], RoundHalfEven(Max(pc) * 100.0))
  }

  lemma CategoryFacts(probC: seq<real>)
    requires |probC| > 0 && NonNegative(probC) && Max(NormaliseIfPositive(probC)) >= 0.5
    ensures Sum(probC) > 0.0 && Max(NormaliseIfPositive(probC)) <= 1.0
    ensures forall i :: 0 <= i < |probC| && i != FirstArgmax(NormaliseIfPositive(probC)) ==>
              NormaliseIfPositive(probC)[i] <= 0.5
  {
    var pc := NormaliseIfPositive(probC);
    var k := FirstArgmax(pc);
    EntryAtMostSum(pc, k);
    assert Sum(pc) >= 0.5;
    assert Sum(probC) > 0.0;
    forall i | 0 <= i < |probC| && i != k ensures pc[i] <= 0.5 {
      TwoEntriesAtMostSum(pc, k, i);
    }
  }

  lemma PercentOfMajority(x: real)
    requires 0.5 <= x <= 1.0
    ensures 50 <= RoundHalfEven(x * 100.0) <= 100
  {
    RoundMonotone(50.0, x * 100.0);
    RoundMonotone(x * 100.0, 100.0);
    assert RoundHalfEven(50.0) == 50 && RoundHalfEven(100.0) == 100;
  }

  // ---------------------------------------------------------------- one record

  /** The result row of one scored record (its WHOLEPROB is the posterior with
      the renormalised block C). */
  datatype Assessment = Assessment(
    id: string, pregnancy: Pregnancy, top: TopCauses, circumstance: Circumstance, wholeProb: seq<real>)

  /** The summary of one scored cause vector, with the cause names of the table. */
  function Summarise(id: string, prob: seq<real>, reproductiveAge: bool, names: seq<string>): (a: Assessment)
    requires |prob| == NumCauses && |names| == NumCauses && NonNegative(prob)
  {
    Assessment(id, PregnancyStatus(prob[..PregnancyEnd], reproductiveAge),
               TopThree(prob[PregnancyEnd..MedicalEnd], names[PregnancyEnd..MedicalEnd]),
               CircumstanceOf(prob[MedicalEnd..], names[MedicalEnd..]),
               prob[..MedicalEnd] + NormaliseIfPositive(prob[MedicalEnd..]))
  }

  /** WHOLEPROB keeps blocks A and B as scored and rescales block C by one
      factor so that it sums to 1; a block C without mass stays all zeros. */
  lemma WholeProbRenormalised(id: string, prob: seq<real>, reproductiveAge: bool, names: seq<string>)
    requires |prob| == NumCauses && |names| == NumCauses && NonNegative(prob)
    ensures var w := Summarise(id, prob, reproductiveAge, names).wholeProb;
      && |w| == NumCauses && NonNegative(w) && w[..MedicalEnd] == prob[..MedicalEnd]
      && Sum(w[MedicalEnd..]) == (if Sum(prob[MedicalEnd..]) > 0.0 then 1.0 else 0.0)
      && (Sum(prob[MedicalEnd..]) > 0.0 ==> ScaledCopy(w[MedicalEnd..], prob[MedicalEnd..], Sum(prob[MedicalEnd..])))
      && (Sum(prob[MedicalEnd..]) == 0.0 ==> w[MedicalEnd..] == Zeros(NumCauses - MedicalEnd))
  {
    TailRenormalised(prob, Summarise(id, prob, reproductiveAge, names).wholeProb);
  }

  lemma TailRenormalised(prob: seq<real>, w: seq<real>)
    requires |prob| == NumCauses && NonNegative(prob)
    requires w == prob[..MedicalEnd] + NormaliseIfPositive(prob[MedicalEnd..])
    ensures |w| == NumCauses && NonNegative(w) && w[..MedicalEnd] == prob[..MedicalEnd]
    ensures Sum(w[MedicalEnd..]) == (if Sum(prob[MedicalEnd..]) > 0.0 then 1.0 else 0.0)
    ensures Sum(prob[MedicalEnd..]) > 0.0 ==> ScaledCopy(w[MedicalEnd..], prob[MedicalEnd..], Sum(prob[MedicalEnd..]))
    ensures Sum(prob[MedicalEnd..]) == 0.0 ==> w[MedicalEnd..] == Zeros(NumCauses - MedicalEnd)
  {
    var c := prob[MedicalEnd..];
    assert NonNegative(c) by {
      forall i | 0 <= i < |c| ensures 0.0 <= c[i] {
        assert c[i] == prob[MedicalEnd + i];
      }
    }
    var n := NormaliseIfPositive(c);
    assert w[MedicalEnd..] == n && w[..MedicalEnd] == prob[..MedicalEnd];
    assert NonNegative(w) by {
      forall i | 0 <= i < NumCauses ensures 0.0 <= w[i] {
        if i >= MedicalEnd {
          assert w[i] == n[i - MedicalEnd];
        } else {
          assert w[i] == prob[..MedicalEnd][i];
        }
      }
    }
    NormaliseRescales(c);
  }

  /** Block C of a normalised vector is already normalised, so WHOLEPROB is the
      posterior itself. */
  lemma WholeProbIsPosterior(id: string, prob: seq<real>, reproductiveAge: bool, names: seq<string>)
    requires |prob| == NumCauses && |names| == NumCauses && Normalised(prob)
    ensures Summarise(id, prob, reproductiveAge, names).wholeProb == prob
  {
    var c := prob[MedicalEnd..];
    assert c == prob[MedicalEnd..NumCauses];
    if Sum(c) > 0.0 {
      assert Sum(c) == 1.0;
      assert Divide(c, 1.0) == c;
    }
  }
}
