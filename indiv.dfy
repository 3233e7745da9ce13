/** `get_indiv_prob`: per record, either block B of WHOLEPROB, or the top
    causes found by taking and deleting the largest remaining entry, each
    after the first left blank below half the record's maximum. */
module Individual {

  import opened Errors
  import opened Numeric
  import opened CauseText
  import opened Summary

  /** Number of causes in block B. */
  const BlockSize: nat := MedicalEnd - PregnancyEnd

  /** One output row: the propensities of block B (top 0) or the top causes. */
  datatype IndivRow = Propensities(values: seq<real>) | Causes(slots: seq<Choice>)

  /** The slots written by `count` passes over the values and names left,
      the first of them pass number `pass`: each pass writes a slot for the
      first maximum of the values left, then deletes that entry from the
      values and from the names. Pass 0 always names a cause; a later pass
      leaves its slot blank below half the record's maximum. */
  function Passes(values: seq<real>, left: seq<string>, overallMax: real, pass: nat, count: nat): (r: seq<Choice>)
    requires |values| == |left| && count <= |values|
    ensures |r| == count
    decreases count
  {
    if count == 0 then []
    else
      var k := FirstArgmax(values);
      [PassChoice(values, left, overallMax, pass)] + Passes(Remove(values, k), Remove(left, k), overallMax, pass + 1, count - 1)
  }

  /** The slot one pass writes. */
  function PassChoice(values: seq<real>, left: seq<string>, overallMax: real, pass: nat): Choice
    requires |values| == |left| > 0
  {
    if pass == 0 then Chosen(left[FirstArgmax(values)], Max(values)) else NextChoice(values, left, overallMax)
  }

  /** The row of one record for a requested number of top causes. Asking
      for more causes than block B holds empties the vector, and `nanmax`
      of an empty vector fails. */
  function IndivProbRow(probB: seq<real>, names: seq<string>, top: nat): (r: Result<IndivRow>)
    requires |probB| == |names| == BlockSize
  {
    if top == 0 then Ok(Propensities(probB))
    else if top > |probB| then Err(EmptyMaximum)
    else Ok(Causes(Passes(probB, names, Max(probB), 0, top)))
  }

  /** One pass moves its slot from the passes still to run to the slots written. */
  lemma PassesUnfold(picks: seq<Choice>, values: seq<real>, left: seq<string>, overallMax: real, pass: nat, count: nat)
    requires |values| == |left| && 0 < count <= |values|
    ensures var k := FirstArgmax(values);
            picks + Passes(values, left, overallMax, pass, count) ==
            (picks + [PassChoice(values, left, overallMax, pass)]) + Passes(Remove(values, k), Remove(left, k), overallMax, pass + 1, count - 1)
  {
  }

  /** The top-cause loop of `get_indiv_prob` for one record. */
  method IndividualRow(probB: seq<real>, names: seq<string>, top: nat) returns (r: Result<IndivRow>)
    requires |probB| == |names| == BlockSize
    ensures r == IndivProbRow(probB, names, top)
  {
    if top == 0 {
      return Ok(Propensities(probB));
    }
    var probTemp, tempNames := probB, names;
    var overallMax := Max(probB);
    var picks: seq<Choice> := [];
    var causeNum := 0;
    while causeNum < top
      invariant causeNum <= top && causeNum <= |probB|
      invariant |probTemp| == |tempNames| == |probB| - causeNum
      invariant top <= |probB| ==>
        picks + Passes(probTemp, tempNames, overallMax, causeNum, top - causeNum) == Passes(probB, names, overallMax, 0, top)
    {
      if |probTemp| == 0 {
        return Err(EmptyMaximum);
      }
      var maxLoc, cause := PassSlot(probTemp, tempNames, overallMax, causeNum);
      if top <= |probB| {
        PassesUnfold(picks, probTemp, tempNames, overallMax, causeNum, top - causeNum);
      }
      picks := picks + [cause];
      probTemp, tempNames := Remove(probTemp, maxLoc), Remove(tempNames, maxLoc);
      causeNum := causeNum + 1;
    }
    assert picks + [] == picks;
    r := Ok(Causes(picks));
  }

  /** The body of one pass: where the maximum left sits, and what slot it
      fills. */
  method PassSlot(probTemp: seq<real>, tempNames: seq<string>, overallMax: real, causeNum: nat)
    returns (maxLoc: nat, cause: Choice)
    requires |probTemp| == |tempNames| > 0
    ensures maxLoc == FirstArgmax(probTemp) && cause == PassChoice(probTemp, tempNames, overallMax, causeNum)
  {
    maxLoc := FirstArgmax(probTemp);
    if causeNum == 0 {
      cause := Chosen(tempNames[maxLoc], Max(probTemp));
    } else if Max(probTemp) < 0.5 * overallMax {
      cause := NoCause;
    } else {
      cause := Chosen(tempNames[maxLoc], Max(probTemp));
    }
  }

  // ---------------------------------------------------------------- the slots

  /** The first slot always names the first maximum of block B. */
  lemma FirstSlot(probB: seq<real>, names: seq<string>, top: nat)
    requires |probB| == |names| == BlockSize && 0 < top <= BlockSize
    ensures IndivProbRow(probB, names, top).value.slots[0] == Chosen(names[FirstArgmax(probB)], Max(probB))
  {
  }

  /** Slot j of passes that are not the first follows the ranking of the
      values: it is blank exactly when the j-th largest value is below half
      the maximum, and otherwise carries that value. */
  lemma {:induction false} PassesFollowOrder(values: seq<real>, left: seq<string>, overallMax: real, pass: nat, count: nat, j: nat)
    requires |values| == |left| && count <= |values| && j < count && 0 < pass + j
    ensures var s := Passes(values, left, overallMax, pass, count)[j];
            (s.NoCause? <==> KthLargest(values, j) < 0.5 * overallMax) &&
            (s.Chosen? ==> s.propensity == KthLargest(values, j))
    decreases j
  {
    var k := FirstArgmax(values);
    var rest := Passes(Remove(values, k), Remove(left, k), overallMax, pass + 1, count - 1);
    assert Passes(values, left, overallMax, pass, count)[j] == ([Passes(values, left, overallMax, pass, count)[0]] + rest)[j];
    if j > 0 {
      PassesFollowOrder(Remove(values, k), Remove(left, k), overallMax, pass + 1, count - 1, j - 1);
      assert KthLargest(values, j) == KthLargest(DropMax(values), j - 1);
    }
  }

  /** Each later slot follows the ranking of block B. */
  lemma LaterSlot(probB: seq<real>, names: seq<string>, top: nat, j: nat)
    requires |probB| == |names| == BlockSize && 0 < j < top <= BlockSize
    ensures var s := IndivProbRow(probB, names, top).value.slots[j];
            (s.NoCause? <==> KthLargest(probB, j) < 0.5 * Max(probB)) &&
            (s.Chosen? ==> s.propensity == KthLargest(probB, j))
  {
    PassesFollowOrder(probB, names, Max(probB), 0, top, j);
  }

  /** Every slot a pass fills names the cause at the position the pass
      picks in the values it started from, and carries the value there. */
  lemma {:induction false} PassesPicks(values: seq<real>, left: seq<string>, overallMax: real, pass: nat, count: nat)
    requires |values| == |left| && count <= |values|
    ensures forall j :: 0 <= j < count && Passes(values, left, overallMax, pass, count)[j].Chosen? ==>
              Picks(values, count)[j] < |values| &&
              Passes(values, left, overallMax, pass, count)[j] ==
                Chosen(left[Picks(values, count)[j]], values[Picks(values, count)[j]])
    decreases count
  {
    if count > 0 {
      var k := FirstArgmax(values);
      var s := Passes(values, left, overallMax, pass, count);
      var t, l := Remove(values, k), Remove(left, k);
      var rest := Passes(t, l, overallMax, pass + 1, count - 1);
      var p, q := Picks(values, count), Picks(t, count - 1);
      assert s == [s[0]] + rest;
      assert p[0] == k;
      PassesPicks(t, l, overallMax, pass + 1, count - 1);
      forall j | 0 <= j < count && s[j].Chosen? ensures p[j] < |values| && s[j] == Chosen(left[p[j]], values[p[j]]) {
        if j > 0 {
          assert s[j] == rest[j - 1];
          assert p[j] == Unshift(k, q[j - 1]);
          RemoveAt(values, k, q[j - 1]);
          RemoveAt(left, k, q[j - 1]);
        }
      }
    }
  }

  /** Slot j of a row names the cause at the j-th pick of block B: the first
      maximum among the positions the earlier slots did not take, whose
      value is the j-th largest. */
  lemma SlotNames(probB: seq<real>, names: seq<string>, top: nat)
    requires |probB| == |names| == BlockSize && 0 < top <= BlockSize
    ensures var s := IndivProbRow(probB, names, top).value.slots;
            var p := Picks(probB, top);
            forall j :: 0 <= j < top ==>
              PickFacts(probB, p, j) && (s[j].Chosen? ==> s[j] == Chosen(names[p[j]], probB[p[j]]))
  {
    PicksFacts(probB, top);
    PassesPicks(probB, names, Max(probB), 0, top);
  }

  // ---------------------------------------------------------------- no repeats

  /** No slot names `x`. */
  predicate Avoids(s: seq<Choice>, x: string) {
    forall j :: 0 <= j < |s| && s[j].Chosen? ==> s[j].cause != x
  }

  /** No cause is named in two slots. */
  predicate NoRepeats(s: seq<Choice>) {
    forall a, b :: 0 <= a < b < |s| && s[a].Chosen? && s[b].Chosen? ==> s[a].cause != s[b].cause
  }

  /** The passes only name causes from the names they start from: a name
      absent from those is never written. */
  lemma {:induction false} PassesAvoid(values: seq<real>, left: seq<string>, overallMax: real, pass: nat, count: nat, x: string)
    requires |values| == |left| && count <= |values|
    requires forall i :: 0 <= i < |left| ==> left[i] != x
    ensures Avoids(Passes(values, left, overallMax, pass, count), x)
    decreases count
  {
    if count > 0 {
      var k := FirstArgmax(values);
      var s := Passes(values, left, overallMax, pass, count);
      var rest := Passes(Remove(values, k), Remove(left, k), overallMax, pass + 1, count - 1);
      assert s == [s[0]] + rest;
      assert s[0].Chosen? ==> s[0].cause == left[k];
      RemoveIndex(left, k);
      PassesAvoid(Remove(values, k), Remove(left, k), overallMax, pass + 1, count - 1, x);
    }
  }

  /** With names without repeats, no cause is named twice. */
  lemma {:induction false} PassesNamesDistinct(values: seq<real>, left: seq<string>, overallMax: real, pass: nat, count: nat)
    requires |values| == |left| && count <= |values| && Distinct(left)
    ensures NoRepeats(Passes(values, left, overallMax, pass, count))
    decreases count
  {
    if count > 0 {
      var k := FirstArgmax(values);
      var s := Passes(values, left, overallMax, pass, count);
      var rest := Passes(Remove(values, k), Remove(left, k), overallMax, pass + 1, count - 1);
      assert s == [s[0]] + rest;
      assert s[0].Chosen? ==> s[0].cause == left[k];
      RemoveDistinct(left, k);
      PassesNamesDistinct(Remove(values, k), Remove(left, k), overallMax, pass + 1, count - 1);
      PassesAvoid(Remove(values, k), Remove(left, k), overallMax, pass + 1, count - 1, left[k]);
    }
  }

  /** With a cause list without repeats, no cause is named twice in a row. */
  lemma NoRepeatedCause(probB: seq<real>, names: seq<string>, top: nat)
    requires |probB| == |names| == BlockSize && 0 < top <= BlockSize && Distinct(names)
    ensures NoRepeats(IndivProbRow(probB, names, top).value.slots)
  {
    assert IndivProbRow(probB, names, top).value.slots == Passes(probB, names, Max(probB), 0, top);
    PassesNamesDistinct(probB, names, Max(probB), 0, top);
  }

  // ---------------------------------------------------------------- agreement with run()

  /** For a record `run()` names a cause for, the first three slots are the
      three causes of its summary row, with their unrounded propensities. */
  lemma AgreesWithTopThree(probB: seq<real>, names: seq<string>, top: nat)
    requires |probB| == |names| == BlockSize && 3 <= top <= BlockSize && Max(probB) >= 0.4
    ensures var s := IndivProbRow(probB, names, top).value.slots;
            var r := RankTopThree(probB, names);
            s[0] == r.first && s[1] == r.second && s[2] == r.third
  {
    var m := Max(probB);
    var k1 := FirstArgmax(probB);
    var v1, l1 := Remove(probB, k1), Remove(names, k1);
    var k2 := FirstArgmax(v1);
    var v2, l2 := Remove(v1, k2), Remove(l1, k2);
    var p2 := Passes(v2, l2, m, 2, top - 2);
    var p1 := Passes(v1, l1, m, 1, top - 1);
    assert p1 == [NextChoice(v1, l1, m)] + p2;
    assert Passes(probB, names, m, 0, top) == [Chosen(names[k1], m)] + p1;
  }

  // ---------------------------------------------------------------- as written

  /** The passes as written: the values are deleted pass by pass, but the
      cause name is read from the full list of block-B names at the position
      the maximum has in the shortened values. */
  function PassesAsWritten(values: seq<real>, names: seq<string>, overallMax: real, pass: nat, count: nat): (r: seq<Choice>)
    requires count <= |values| <= |names|
    ensures |r| == count
    decreases count
  {
    if count == 0 then []
    else
      var k := FirstArgmax(values);
      var c := if pass == 0 || Max(values) >= 0.5 * overallMax then Chosen(names[k], Max(values)) else NoCause;
      [c] + PassesAsWritten(Remove(values, k), names, overallMax, pass + 1, count - 1)
  }

  function IndivProbRowAsWritten(probB: seq<real>, names: seq<string>, top: nat): (r: Result<IndivRow>)
    requires |probB| == |names| == BlockSize
    ensures r.Err? <==> top > BlockSize
  {
    if top == 0 then Ok(Propensities(probB))
    else if top > |probB| then Err(EmptyMaximum)
    else Ok(Causes(PassesAsWritten(probB, names, Max(probB), 0, top)))
  }

  /** Two rows of slots blank in the same places and with the same
      propensities: they differ at most in the names. */
  predicate SameShape(s: seq<Choice>, w: seq<Choice>) {
    |s| == |w| &&
    forall j :: 0 <= j < |s| ==> (s[j].NoCause? <==> w[j].NoCause?) && (s[j].Chosen? ==> s[j].propensity == w[j].propensity)
  }

  /** The passes as written and the corrected ones differ at most in the names. */
  lemma {:induction false} PassesDifferOnlyInNames(values: seq<real>, left: seq<string>, names: seq<string>, overallMax: real, pass: nat, count: nat)
    requires |values| == |left| <= |names| && count <= |values|
    ensures SameShape(Passes(values, left, overallMax, pass, count), PassesAsWritten(values, names, overallMax, pass, count))
    decreases count
  {
    if count > 0 {
      var k := FirstArgmax(values);
      var s := Passes(values, left, overallMax, pass, count);
      var w := PassesAsWritten(values, names, overallMax, pass, count);
      var rest := Passes(Remove(values, k), Remove(left, k), overallMax, pass + 1, count - 1);
      var restAsWritten := PassesAsWritten(Remove(values, k), names, overallMax, pass + 1, count - 1);
      assert s == [s[0]] + rest && w == [w[0]] + restAsWritten;
      PassesDifferOnlyInNames(Remove(values, k), Remove(left, k), names, overallMax, pass + 1, count - 1);
    }
  }

  /** The code as written and the corrected one agree on which slots are
      blank and on every propensity: only the names can differ. */
  lemma AsWrittenDiffersOnlyInNames(probB: seq<real>, names: seq<string>, top: nat)
    requires |probB| == |names| == BlockSize && 0 < top <= BlockSize
    ensures SameShape(IndivProbRow(probB, names, top).value.slots, IndivProbRowAsWritten(probB, names, top).value.slots)
  {
    PassesDifferOnlyInNames(probB, names, names, Max(probB), 0, top);
  }

  /** Block B with 0.6 on its first cause and 0.4 on its second. */
  function TwoCauseRecord(): (s: seq<real>)
    ensures |s| == BlockSize && s[0] == 0.6 && s[1] == 0.4
  {
    [0.6, 0.4] + Zeros(BlockSize - 2)
  }

  /** For that record and any list of block-B names, the code as written
      names the first cause twice, while deleting the names in parallel
      names the second cause second. */
  lemma SecondCauseRepeatsFirst(names: seq<string>)
    requires |names| == BlockSize
    ensures IndivProbRowAsWritten(TwoCauseRecord(), names, 2).value.slots == [Chosen(names[0], 0.6), Chosen(names[0], 0.4)]
    ensures IndivProbRow(TwoCauseRecord(), names, 2).value.slots == [Chosen(names[0], 0.6), Chosen(names[1], 0.4)]
  {
    var v := TwoCauseRecord();
    var rest := [0.4] + Zeros(BlockSize - 2);
    LeadingMax(v);
    RemoveIndex(v, 0);
    assert Remove(v, 0) == rest;
    LeadingMax(rest);
    RemoveIndex(names, 0);
    var l1 := Remove(names, 0);
    var tailAsWritten := PassesAsWritten(Remove(rest, 0), names, 0.6, 2, 0);
    assert PassesAsWritten(rest, names, 0.6, 1, 1) == [Chosen(names[0], 0.4)] + tailAsWritten;
    assert PassesAsWritten(v, names, 0.6, 0, 2) == [Chosen(names[0], 0.6)] + PassesAsWritten(rest, names, 0.6, 1, 1);
    var tail := Passes(Remove(rest, 0), Remove(l1, 0), 0.6, 2, 0);
    assert Passes(rest, l1, 0.6, 1, 1) == [Chosen(names[1], 0.4)] + tail;
    assert Passes(v, names, 0.6, 0, 2) == [Chosen(names[0], 0.6)] + Passes(rest, l1, 0.6, 1, 1);
  }

  /** A vector whose first entry is at least every other entry has that
      entry as its first maximum. */
  lemma LeadingMax(s: seq<real>)
    requires |s| >= 2 && forall i :: 0 < i < |s| ==> s[i] <= s[0]
    ensures FirstArgmax(s) == 0 && Max(s) == s[0]
  {
  }
}
