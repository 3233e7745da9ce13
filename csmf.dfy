/** `get_csmf`: the population cause-specific mortality fractions. Every
    record's WHOLEPROB is cut at an adaptive threshold; what falls below it
    is moved to an "Undetermined" bucket, the kept mass is summed over the
    records, normalised, sorted, and the top causes are returned, extended
    past the requested number while the next value is a near tie. */
module Csmf {

  import opened Errors
  import opened Numeric
  import opened CauseText

  /** One line of the CSMF: a cause (or "Undetermined") with its fraction. */
  datatype Entry = Entry(cause: string, fraction: real)

  const UndeterminedName: string := "Undetermined"

  // ---------------------------------------------------------------- cause names

  /** The check that the names are the standard InterVA5 list: substrings of
      the pregnancy states in positions 0-2 and of the six circumstance
      categories in positions 64-69. */
  predicate StandardNames(names: seq<string>)
    requires |names| == NumCauses
  {
    Contains(names[0], "Not pregnant or recently delivered") &&
    Contains(names[1], "Pregnancy ended within 6 weeks of death") &&
    Contains(names[2], "Pregnant at death") &&
    Contains(names[64], "Culture") && Contains(names[65], "Emergency") &&
    Contains(names[66], "Health") && Contains(names[67], "Inevitable") &&
    Contains(names[68], "Knowledge") && Contains(names[69], "Resources")
  }

  lemma ContainsPrefix(hay: string, needle: string)
    requires needle <= hay
    ensures Contains(hay, needle)
  {
  }

  /** The names `run()` attaches to WHOLEPROB pass the check, so blocks A and
      C are always dropped from the CSMF of a run. */
  lemma CauseTextsAreStandard()
    ensures |CauseTexts| == NumCauses && StandardNames(CauseTexts)
  {
    OuterBlockTexts();
    assert CauseTexts[66] == "Health systems";
    ContainsPrefix(CauseTexts[66], "Health");
  }

  // ---------------------------------------------------------------- one record

  /** `this_dist` after blocks A and C are zeroed for the standard names. */
  function Masked(v: seq<real>, includeAC: bool): (m: seq<real>)
    requires |v| == NumCauses
    ensures |m| == NumCauses
    ensures forall i :: 0 <= i < NumCauses ==>
              m[i] == (if includeAC && !(PregnancyEnd <= i < MedicalEnd) then 0.0 else v[i])
  {
    if includeAC then Zeros(PregnancyEnd) + v[PregnancyEnd..MedicalEnd] + Zeros(NumCauses - MedicalEnd)
    else v
  }

  function MaxOf(a: real, b: real): real { if a >= b then a else b }
  function MinOf(a: real, b: real): real { if a <= b then a else b }

  /** The adaptive cutoff from the three largest entries c1 >= c2 >= c3: the
      smaller of max(c1/2, c3) and max(c1/2, c2). */
  function Cutoff(c1: real, c2: real, c3: real): real {
    MinOf(MaxOf(c1 * 0.5, c3), MaxOf(c1 * 0.5, c2))
  }

  /** Since c2 >= c3 the cutoff is max(c1/2, c3): never below half the
      maximum, and never above it. */
  lemma CutoffIsHalfMaxOrThird(c1: real, c2: real, c3: real)
    requires c3 <= c2 <= c1
    ensures Cutoff(c1, c2, c3) == MaxOf(c1 * 0.5, c3)
    ensures c1 * 0.5 <= Cutoff(c1, c2, c3)
    ensures c1 >= 0.0 ==> Cutoff(c1, c2, c3) <= c1
  {
  }

  /** The cutoff of a record, from its three largest entries. */
  function RecordCutoff(v: seq<real>): (cut: real)
    requires |v| >= 3
  {
    Cutoff(KthLargest(v, 0), KthLargest(v, 1), KthLargest(v, 2))
  }

  /** The record's cutoff lies between half its maximum and its maximum. */
  lemma RecordCutoffBounds(v: seq<real>)
    requires |v| >= 3 && NonNegative(v)
    ensures Max(v) * 0.5 <= RecordCutoff(v) <= Max(v)
  {
    var c1, c2, c3 := KthLargest(v, 0), KthLargest(v, 1), KthLargest(v, 2);
    TopThreeOrder(v);
    MaxIsUpperBound(v);
    assert 0.0 <= v[0] <= c1;
    CutoffIsHalfMaxOrThird(c1, c2, c3);
  }

  /** What one record adds: the entries kept for `dist`, and the mass moved
      to `undeter`. */
  datatype Contribution = Contribution(kept: seq<real>, undetermined: real)

  /** The entries at or above the cutoff. */
  function Kept(v: seq<real>, cut: real): (k: seq<real>)
    ensures |k| == |v|
  {
    seq(|v|, i requires 0 <= i < |v| => if v[i] < cut then 0.0 else v[i])
  }

  /** The entries below the cutoff. */
  function Dropped(v: seq<real>, cut: real): (d: seq<real>)
    ensures |d| == |v|
  {
    seq(|v|, i requires 0 <= i < |v| => if v[i] < cut then v[i] else 0.0)
  }

  /** The cutoff splits a record in two: every entry lands on exactly one
      side, the kept side holds only entries at or above the cutoff, the
      dropped side only entries below it, and the two sides carry the
      record's whole mass. */
  lemma CutoffSplits(v: seq<real>, cut: real)
    ensures Add(Kept(v, cut), Dropped(v, cut)) == v
    ensures forall i :: 0 <= i < |v| ==> Kept(v, cut)[i] == 0.0 || Dropped(v, cut)[i] == 0.0
    ensures forall i :: 0 <= i < |v| && Kept(v, cut)[i] != 0.0 ==> Kept(v, cut)[i] >= cut
    ensures forall i :: 0 <= i < |v| && Dropped(v, cut)[i] != 0.0 ==> Dropped(v, cut)[i] < cut
    ensures Sum(Kept(v, cut)) + Sum(Dropped(v, cut)) == Sum(v)
  {
    var k, d := Kept(v, cut), Dropped(v, cut);
    forall i | 0 <= i < |v| ensures Add(k, d)[i] == v[i] {
    }
    assert Add(k, d) == v;
    SumAdd(k, d);
  }

  /** A record whose largest entry is below 0.4 adds its whole mass (or 1
      when it has none) to `undeter` and nothing to `dist`; any other record
      keeps the entries at or above the cutoff and moves the rest. */
  function Contribute(v: seq<real>): (c: Contribution)
    requires |v| >= 3
    ensures |c.kept| == |v|
  {
    if Max(v) < 0.4 then Contribution(Zeros(|v|), if Sum(v) == 0.0 then 1.0 else Sum(v))
    else
      var cut := RecordCutoff(v);
      Contribution(Kept(v, cut), Sum(Dropped(v, cut)))
  }

  /** The mass a record brings: its sum, or 1 for an all-zero record. */
  function Mass(v: seq<real>): real
    requires |v| > 0
  {
    if Max(v) < 0.4 && Sum(v) == 0.0 then 1.0 else Sum(v)
  }

  /** Nothing is lost or created: kept plus moved mass is the record's mass. */
  lemma ContributionConservesMass(v: seq<real>)
    requires |v| >= 3
    ensures Sum(Contribute(v).kept) + Contribute(v).undetermined == Mass(v)
  {
    if Max(v) < 0.4 {
      SumZeros(|v|);
    } else {
      CutoffSplits(v, RecordCutoff(v));
    }
  }

  /** The first maximum of a decided record is kept, and every kept entry is
      at least half the maximum. */
  lemma ContributionKeepsMaximum(v: seq<real>)
    requires |v| >= 3 && NonNegative(v) && Max(v) >= 0.4
    ensures Contribute(v).kept[FirstArgmax(v)] == Max(v)
    ensures forall i :: 0 <= i < |v| && Contribute(v).kept[i] != 0.0 ==> Contribute(v).kept[i] >= Max(v) * 0.5
  {
    RecordCutoffBounds(v);
  }

  lemma ContributionNonNegative(v: seq<real>)
    requires |v| >= 3 && NonNegative(v)
    ensures NonNegative(Contribute(v).kept) && Contribute(v).undetermined >= 0.0
  {
    if Max(v) >= 0.4 {
      SumNonNegative(Dropped(v, RecordCutoff(v)));
    } else {
      SumNonNegative(v);
    }
  }

  // ---------------------------------------------------------------- all records

  predicate Records(records: seq<seq<real>>) {
    forall r :: 0 <= r < |records| ==> |records[r]| == NumCauses
  }

  /** `dist` and `undeter` after the loop over the records. */
  datatype Totals = Totals(dist: seq<real>, undetermined: real)

  /** The totals as a zero-initialised element-wise sum over the records. */
  function Accumulated(records: seq<seq<real>>, includeAC: bool): (t: Totals)
    requires Records(records)
    ensures |t.dist| == NumCauses
    decreases |records|
  {
    if |records| == 0 then Totals(Zeros(NumCauses), 0.0)
    else
      var n := |records| - 1;
      var t := Accumulated(records[..n], includeAC);
      var c := Contribute(Masked(records[n], includeAC));
      Totals(Add(t.dist, c.kept), t.undetermined + c.undetermined)
  }

  /** The accumulation loop of `get_csmf`. */
  method Accumulate(records: seq<seq<real>>, includeAC: bool) returns (dist: seq<real>, undeter: real)
    requires Records(records)
    ensures Totals(dist, undeter) == Accumulated(records, includeAC)
  {
    dist := Zeros(NumCauses);
    undeter := 0.0;
    var i := 0;
    while i < |records|
      invariant 0 <= i <= |records|
      invariant Totals(dist, undeter) == Accumulated(records[..i], includeAC)
    {
      var c := Contribute(Masked(records[i], includeAC));
      AccumulatedStep(records, i);
      dist := Add(dist, c.kept);
      undeter := undeter + c.undetermined;
      i := i + 1;
    }
    assert records[..i] == records;
  }

  lemma AccumulatedStep(records: seq<seq<real>>, i: nat)
    requires Records(records) && i < |records|
    ensures forall includeAC: bool :: Accumulated(records[..i + 1], includeAC) ==
              var t := Accumulated(records[..i], includeAC);
              var c := Contribute(Masked(records[i], includeAC));
              Totals(Add(t.dist, c.kept), t.undetermined + c.undetermined)
  {
    assert records[..i + 1][..i] == records[..i];
    assert records[..i + 1][i] == records[i];
  }

  /** Total mass of the records after masking. */
  function TotalMass(records: seq<seq<real>>, includeAC: bool): real
    requires Records(records)
    decreases |records|
  {
    if |records| == 0 then 0.0
    else
      var n := |records| - 1;
      TotalMass(records[..n], includeAC) + Mass(Masked(records[n], includeAC))
  }

  /** Mass is conserved between the kept causes and Undetermined over the
      whole population. */
  lemma {:induction false} AccumulatedConservesMass(records: seq<seq<real>>, includeAC: bool)
    requires Records(records)
    ensures Sum(Accumulated(records, includeAC).dist) + Accumulated(records, includeAC).undetermined ==
            TotalMass(records, includeAC)
    decreases |records|
  {
    if |records| == 0 {
      SumZeros(NumCauses);
    } else {
      var n := |records| - 1;
      var t := Accumulated(records[..n], includeAC);
      var v := Masked(records[n], includeAC);
      AccumulatedConservesMass(records[..n], includeAC);
      ContributionConservesMass(v);
      SumAdd(t.dist, Contribute(v).kept);
    }
  }

  /** With blocks A and C dropped, a record whose block B sums to 1 or 0
      brings exactly one unit of mass. */
  lemma MaskedMassIsOne(v: seq<real>)
    requires |v| == NumCauses && NonNegative(v)
    requires Sum(v[PregnancyEnd..MedicalEnd]) == 1.0 || Sum(v[PregnancyEnd..MedicalEnd]) == 0.0
    ensures Mass(Masked(v, true)) == 1.0
  {
    var m := Masked(v, true);
    var b := v[PregnancyEnd..MedicalEnd];
    assert m == Zeros(PregnancyEnd) + b + Zeros(NumCauses - MedicalEnd);
    SumAppend(Zeros(PregnancyEnd) + b, Zeros(NumCauses - MedicalEnd));
    SumAppend(Zeros(PregnancyEnd), b);
    SumZeros(PregnancyEnd);
    SumZeros(NumCauses - MedicalEnd);
    if Sum(b) == 0.0 {
      ZeroSumZeroEntries(b);
      assert forall i :: 0 <= i < |m| ==> m[i] == 0.0;
      assert m[FirstArgmax(m)] == Max(m);
    }
  }

  /** Hence, for the standard names, every record counts once: the kept
      mass plus Undetermined equals the number of records. */
  lemma {:induction false} OneUnitPerRecord(records: seq<seq<real>>)
    requires Records(records)
    requires forall r :: 0 <= r < |records| ==> NonNegative(records[r])
    requires forall r :: 0 <= r < |records| ==>
               Sum(records[r][PregnancyEnd..MedicalEnd]) == 1.0 || Sum(records[r][PregnancyEnd..MedicalEnd]) == 0.0
    ensures TotalMass(records, true) == |records| as real
    decreases |records|
  {
    if |records| > 0 {
      var n := |records| - 1;
      OneUnitPerRecord(records[..n]);
      MaskedMassIsOne(records[n]);
    }
  }

  // ---------------------------------------------------------------- normalised CSMF

  function Fractions(e: seq<Entry>): (f: seq<real>)
    ensures |f| == |e| && forall i :: 0 <= i < |e| ==> f[i] == e[i].fraction
  {
    seq(|e|, i requires 0 <= i < |e| => e[i].fraction)
  }

  function Pair(names: seq<string>, values: seq<real>): (e: seq<Entry>)
    requires |names| == |values|
    ensures |e| == |names| && forall i :: 0 <= i < |e| ==> e[i] == Entry(names[i], values[i])
  {
    seq(|names|, i requires 0 <= i < |names| => Entry(names[i], values[i]))
  }

  /** `dist.iloc[causeindex]`: block B only for the standard names. */
  function Selected<T>(s: seq<T>, includeAC: bool): (r: seq<T>)
    requires |s| == NumCauses
    ensures |r| == (if includeAC then MedicalEnd - PregnancyEnd else NumCauses)
  {
    if includeAC then s[PregnancyEnd..MedicalEnd] else s
  }

  /** The CSMF before sorting: the selected causes, plus "Undetermined" when
      some mass was moved, divided by their total (all zeros when the total
      is zero, where the source replaces the all-NaN quotient by 0). */
  function CsmfEntries(t: Totals, names: seq<string>, includeAC: bool): (e: seq<Entry>)
    requires |t.dist| == NumCauses && |names| == NumCauses
    ensures |e| == |Selected(names, includeAC)| + (if t.undetermined > 0.0 then 1 else 0)
    ensures forall i :: 0 <= i < |Selected(names, includeAC)| ==> e[i].cause == Selected(names, includeAC)[i]
    ensures t.undetermined > 0.0 ==> e[|e| - 1].cause == UndeterminedName
  {
    var extra := if t.undetermined > 0.0 then [t.undetermined] else [];
    var extraNames := if t.undetermined > 0.0 then [UndeterminedName] else [];
    var values := NormaliseIfPositive(Selected(t.dist, includeAC) + extra);
    Pair(Selected(names, includeAC) + extraNames, values)
  }

  /** The fractions are the normalised masses: non-negative, summing to one
      or, when nothing was kept, all zero. */
  lemma CsmfEntriesNormalised(t: Totals, names: seq<string>, includeAC: bool)
    requires |t.dist| == NumCauses && |names| == NumCauses && NonNegative(t.dist) && t.undetermined >= 0.0
    ensures var f := Fractions(CsmfEntries(t, names, includeAC));
            NonNegative(f) && Sum(f) == (if Sum(f) > 0.0 then 1.0 else 0.0)
  {
    var s := Selected(t.dist, includeAC);
    var extra := if t.undetermined > 0.0 then [t.undetermined] else [];
    var v := s + extra;
    assert NonNegative(v) by {
      forall i | 0 <= i < |v| ensures v[i] >= 0.0 {
        if i < |s| { assert v[i] == s[i]; }
      }
    }
    assert Fractions(CsmfEntries(t, names, includeAC)) == NormaliseIfPositive(v);
  }

  /** With some mass undetermined the fractions always add up to one. */
  lemma CsmfSumsToOne(t: Totals, names: seq<string>, includeAC: bool)
    requires |t.dist| == NumCauses && |names| == NumCauses && NonNegative(t.dist) && t.undetermined > 0.0
    ensures Sum(Fractions(CsmfEntries(t, names, includeAC))) == 1.0
  {
    var s := Selected(t.dist, includeAC);
    assert NonNegative(s);
    SumNonNegative(s);
    SumAppend(s, [t.undetermined]);
    assert Sum([t.undetermined]) == Sum([t.undetermined][..0]) + t.undetermined;
    assert Fractions(CsmfEntries(t, names, includeAC)) == NormaliseIfPositive(s + [t.undetermined]);
  }

  // ---------------------------------------------------------------- sorting

  predicate SortedDescending(f: seq<real>) {
    forall i, j :: 0 <= i < j < |f| ==> f[i] >= f[j]
  }

  /** Insert x before the first entry it is not smaller than. */
  function Insert(x: Entry, s: seq<Entry>): (r: seq<Entry>)
    ensures |r| == |s| + 1
    ensures multiset(r) == multiset(s) + multiset{x}
    ensures |s| > 0 ==> r[0] == x || r[0] == s[0]
    decreases |s|
  {
    if |s| == 0 || x.fraction >= s[0].fraction then [x] + s
    else
      assert s == [s[0]] + s[1..];
      [s[0]] + Insert(x, s[1..])
  }

  /** Inserting into a descending list keeps it descending. */
  lemma {:induction false} InsertSorted(x: Entry, s: seq<Entry>)
    requires SortedDescending(Fractions(s))
    ensures SortedDescending(Fractions(Insert(x, s)))
    decreases |s|
  {
    var r := Insert(x, s);
    if |s| == 0 || x.fraction >= s[0].fraction {
      assert Fractions(r) == [x.fraction] + Fractions(s);
    } else {
      var rest := Insert(x, s[1..]);
      assert Fractions(s[1..]) == Fractions(s)[1..];
      InsertSorted(x, s[1..]);
      assert Fractions(r) == [s[0].fraction] + Fractions(rest);
      forall j | 0 < j < |r| ensures Fractions(r)[0] >= Fractions(r)[j] {
        assert rest[0] == x || rest[0] == s[1];
        assert Fractions(rest)[0] >= Fractions(rest)[j - 1];
      }
    }
  }

  /** `sort_values(ascending=False)`: a descending insertion sort. */
  function SortDescending(e: seq<Entry>): (s: seq<Entry>)
    ensures |s| == |e| && multiset(s) == multiset(e)
    ensures SortedDescending(Fractions(s))
    decreases |e|
  {
    if |e| == 0 then []
    else
      assert e == [e[0]] + e[1..];
      var rest := SortDescending(e[1..]);
      InsertSorted(e[0], rest);
      Insert(e[0], rest)
  }

  // ---------------------------------------------------------------- top-n selection

  /** Relative near-tie with tolerance 1e-7. */
  predicate NearTie(a: real, b: real) {
    Abs(a - b) < (a + b) * 0.0000001
  }

  /** The number of leading positive values, capped at top. */
  function PositivePrefix(f: seq<real>, top: nat): (k: nat)
    ensures k <= top && k <= |f|
    ensures forall i :: 0 <= i < k ==> f[i] > 0.0
    ensures k < top && k < |f| ==> f[k] <= 0.0
    decreases top
  {
    if top == 0 || |f| == 0 || f[0] <= 0.0 then 0
    else
      var k := PositivePrefix(f[1..], top - 1);
      assert forall i :: 1 <= i < k + 1 ==> f[i] == f[1..][i - 1];
      1 + k
  }

  /** The three properties pin the prefix down. */
  lemma {:induction false} PositivePrefixUnique(f: seq<real>, top: nat, k: nat)
    requires k <= top && k <= |f|
    requires forall i :: 0 <= i < k ==> f[i] > 0.0
    requires k < top && k < |f| ==> f[k] <= 0.0
    ensures k == PositivePrefix(f, top)
    decreases top
  {
    if top > 0 && |f| > 0 && f[0] > 0.0 {
      PositivePrefixUnique(f[1..], top - 1, k - 1);
    }
  }

  /** From a count reached by a tie, keep going while the value at the count
      nearly ties the one before it; reading past the end fails. */
  function TieExtension(f: seq<real>, k: nat): (r: Result<nat>)
    requires 1 <= k < |f|
    ensures r.Ok? ==> k <= r.value < |f|
    decreases |f| - k
  {
    if !NearTie(f[k], f[k - 1]) then Ok(k)
    else if k + 1 == |f| then Err(IndexOutOfRange)
    else TieExtension(f, k + 1)
  }

  /** The extension stops at the first value that does not nearly tie its
      predecessor, and fails exactly when every value from k on is a tie. */
  lemma {:induction false} TieExtensionStops(f: seq<real>, k: nat)
    requires 1 <= k < |f|
    ensures var r := TieExtension(f, k);
            r.Ok? ==> !NearTie(f[r.value], f[r.value - 1])
    ensures var r := TieExtension(f, k);
            r.Ok? ==> forall i :: k <= i < r.value ==> NearTie(f[i], f[i - 1])
    ensures var r := TieExtension(f, k);
            r.Err? ==> r.error == IndexOutOfRange && forall i :: k <= i < |f| ==> NearTie(f[i], f[i - 1])
    decreases |f| - k
  {
    if NearTie(f[k], f[k - 1]) && k + 1 < |f| {
      TieExtensionStops(f, k + 1);
    }
  }

  /** `show_top`: the leading positive values, at most top; when exactly top
      were taken, extended over near ties. Either loop fails when it reads
      past the end. */
  function ShownCount(f: seq<real>, top: nat): (r: Result<nat>)
    requires top >= 1
  {
    var k := PositivePrefix(f, top);
    if k == |f| then Err(IndexOutOfRange)
    else if k < top then Ok(k)
    else TieExtension(f, k)
  }

  /** Over non-negative values the selection never reaches a zero: every
      shown value is positive; it stops short of top only at a zero, and
      goes past top only over near ties, stopping before the first non-tie. */
  lemma ShownCountFacts(f: seq<real>, top: nat)
    requires top >= 1 && NonNegative(f)
    ensures var r := ShownCount(f, top);
            r.Ok? ==> (r.value < |f| && forall i :: 0 <= i < r.value ==> f[i] > 0.0)
    ensures var r := ShownCount(f, top);
            r.Ok? && r.value < top ==> f[r.value] == 0.0
    ensures var r := ShownCount(f, top);
            r.Ok? && r.value >= top ==>
              (forall i :: top <= i < r.value ==> NearTie(f[i], f[i - 1])) && !NearTie(f[r.value], f[r.value - 1])
    ensures var r := ShownCount(f, top);
            r.Err? <==> (PositivePrefix(f, top) == |f| || (PositivePrefix(f, top) == top && top < |f| && TieExtension(f, top).Err?))
  {
    var k := PositivePrefix(f, top);
    var r := ShownCount(f, top);
    if k == top && top < |f| {
      TieExtensionStops(f, top);
    }
    if r.Ok? && r.value >= top {
      forall i | 0 <= i < r.value ensures f[i] > 0.0 {
        if i >= top {
          TiedWithPositive(f[i], f[i - 1]);
        }
      }
    }
  }

  /** A value nearly tied with a non-negative one is positive. */
  lemma TiedWithPositive(a: real, b: real)
    requires NearTie(a, b) && 0.0 <= a && 0.0 <= b
    ensures a > 0.0
  {
  }

  /** One step of the tie loop: a non-tie stops it, a tie moves on or, at
      the end, fails. */
  lemma TieStep(f: seq<real>, k: nat)
    requires 1 <= k < |f|
    ensures !NearTie(f[k], f[k - 1]) ==> TieExtension(f, k) == Ok(k)
    ensures NearTie(f[k], f[k - 1]) && k + 1 == |f| ==> TieExtension(f, k) == Err(IndexOutOfRange)
    ensures NearTie(f[k], f[k - 1]) && k + 1 < |f| ==> TieExtension(f, k) == TieExtension(f, k + 1)
  {
  }

  /** The `show_top` loops. */
  method SelectTop(f: seq<real>, top: nat) returns (r: Result<nat>)
    requires top >= 1
    ensures r == ShownCount(f, top)
  {
    var showTop := 0;
    while showTop < |f| && f[showTop] > 0.0 && showTop < top
      invariant showTop <= top && showTop <= |f|
      invariant forall i :: 0 <= i < showTop ==> f[i] > 0.0
    {
      showTop := showTop + 1;
    }
    PositivePrefixUnique(f, top, showTop);
    if showTop == |f| {
      r := Err(IndexOutOfRange);
    } else if showTop < top {
      r := Ok(showTop);
    } else {
      r := ExtendTies(f, showTop);
    }
  }

  /** The second `show_top` loop: move on while the value at the count nearly
      ties the one before it. */
  method ExtendTies(f: seq<real>, start: nat) returns (r: Result<nat>)
    requires 1 <= start < |f|
    ensures r == TieExtension(f, start)
  {
    ghost var target := TieExtension(f, start);
    var showTop := start;
    var failed := false;
    while !failed && NearTie(f[showTop], f[showTop - 1])
      invariant start <= showTop < |f|
      invariant !failed ==> target == TieExtension(f, showTop)
      invariant failed ==> target == Err(IndexOutOfRange)
      decreases |f| - showTop, !failed
    {
      TieStep(f, showTop);
      if showTop + 1 == |f| {
        failed := true;
      } else {
        showTop := showTop + 1;
      }
    }
    if failed {
      r := Err(IndexOutOfRange);
    } else {
      TieStep(f, showTop);
      r := Ok(showTop);
    }
  }

  // ---------------------------------------------------------------- get_csmf

  /** The whole computation over the WHOLEPROB vectors of the records. */
  function CsmfOf(records: seq<seq<real>>, names: seq<string>, top: nat): (r: Result<seq<Entry>>)
    requires Records(records) && |names| == NumCauses && top >= 1
  {
    var includeAC := StandardNames(names);
    Ranked(Accumulated(records, includeAC), names, includeAC, top)
  }

  /** Normalise, sort and cut the totals. */
  function Ranked(t: Totals, names: seq<string>, includeAC: bool, top: nat): (r: Result<seq<Entry>>)
    requires |t.dist| == NumCauses && |names| == NumCauses && top >= 1
  {
    var sorted := SortDescending(CsmfEntries(t, names, includeAC));
    var shown := ShownCount(Fractions(sorted), top);
    if shown.Err? then Err(shown.error) else Ok(sorted[..shown.value])
  }

  /** A permutation keeps every fraction between zero and the total. */
  lemma PermutedFractionsBounded(e: seq<Entry>, p: seq<Entry>)
    requires multiset(p) == multiset(e) && NonNegative(Fractions(e))
    ensures forall i :: 0 <= i < |p| ==> 0.0 <= p[i].fraction <= Sum(Fractions(e))
  {
    forall i | 0 <= i < |p| ensures 0.0 <= p[i].fraction <= Sum(Fractions(e)) {
      assert p[i] in multiset(p);
      assert p[i] in e;
      var j :| 0 <= j < |e| && e[j] == p[i];
      EntryAtMostSum(Fractions(e), j);
    }
  }

  /** The shown entries are a descending prefix of positive fractions, none
      above one. */
  lemma RankedIsPrefix(t: Totals, names: seq<string>, includeAC: bool, top: nat)
    requires |t.dist| == NumCauses && |names| == NumCauses && top >= 1
    requires NonNegative(t.dist) && t.undetermined >= 0.0
    ensures var r := Ranked(t, names, includeAC, top);
            r.Ok? ==> SortedDescending(Fractions(r.value)) &&
                      forall i :: 0 <= i < |r.value| ==> 0.0 < r.value[i].fraction <= 1.0
  {
    var e := CsmfEntries(t, names, includeAC);
    CsmfEntriesNormalised(t, names, includeAC);
    var sorted := SortDescending(e);
    var f := Fractions(sorted);
    SortedWithinOne(e);
    ShownCountFacts(f, top);
    var shown := ShownCount(f, top);
    if shown.Ok? {
      var p := sorted[..shown.value];
      PrefixSorted(sorted, shown.value);
      forall i | 0 <= i < |p| ensures 0.0 < p[i].fraction <= 1.0 {
        assert p[i] == sorted[i] && f[i] == sorted[i].fraction;
      }
    }
  }

  /** Sorting entries whose fractions sum to at most one keeps each fraction
      within [0, 1]. */
  lemma SortedWithinOne(e: seq<Entry>)
    requires NonNegative(Fractions(e)) && Sum(Fractions(e)) <= 1.0
    ensures forall i :: 0 <= i < |SortDescending(e)| ==> 0.0 <= SortDescending(e)[i].fraction <= 1.0
  {
    PermutedFractionsBounded(e, SortDescending(e));
  }

  /** A prefix of a descending ranking is descending. */
  lemma PrefixSorted(s: seq<Entry>, k: nat)
    requires SortedDescending(Fractions(s)) && k <= |s|
    ensures SortedDescending(Fractions(s[..k]))
  {
    var f, g := Fractions(s), Fractions(s[..k]);
    forall i, j | 0 <= i < j < |g| ensures g[i] >= g[j] {
      assert g[i] == f[i] && g[j] == f[j];
    }
  }

  /** The CSMF is a prefix of the descending ranking of all causes; every
      shown fraction is positive, and none exceeds one. */
  lemma CsmfIsRankedPrefix(records: seq<seq<real>>, names: seq<string>, top: nat)
    requires Records(records) && |names| == NumCauses && top >= 1
    requires forall r :: 0 <= r < |records| ==> NonNegative(records[r])
    ensures var r := CsmfOf(records, names, top);
            r.Ok? ==> SortedDescending(Fractions(r.value)) &&
                      forall i :: 0 <= i < |r.value| ==> 0.0 < r.value[i].fraction <= 1.0
  {
    var includeAC := StandardNames(names);
    AccumulatedNonNegative(records, includeAC);
    RankedIsPrefix(Accumulated(records, includeAC), names, includeAC, top);
  }

  lemma {:induction false} AccumulatedNonNegative(records: seq<seq<real>>, includeAC: bool)
    requires Records(records) && forall r :: 0 <= r < |records| ==> NonNegative(records[r])
    ensures NonNegative(Accumulated(records, includeAC).dist) && Accumulated(records, includeAC).undetermined >= 0.0
    decreases |records|
  {
    if |records| > 0 {
      var n := |records| - 1;
      AccumulatedNonNegative(records[..n], includeAC);
      ContributionNonNegative(Masked(records[n], includeAC));
    }
  }

  // ---------------------------------------------------------------- as written

  /** The source's `dist` as it evolves: it starts as the nested list `[[0…]]`,
      becomes a flat vector when positional record 0 is decided, and turns
      into a 1 x n matrix when a later decided record is added to the still
      nested list. */
  datatype Accumulator = Nested(row: seq<real>) | Flat(v: seq<real>) | Matrix(row: seq<real>)

  function StepAsWritten(acc: Accumulator, i: nat, c: Contribution, decided: bool): Accumulator
    requires acc.Flat? || |acc.row| == |c.kept|
    requires acc.Flat? ==> |acc.v| == |c.kept|
  {
    if !decided then acc
    else if i == 0 then Flat(c.kept)
    else match acc
      case Nested(z) => Matrix(Add(z, c.kept))
      case Flat(d) => Flat(Add(d, c.kept))
      case Matrix(z) => Matrix(Add(z, c.kept))
  }

  /** `dist` after the loop as written, for the first n records. */
  function AccumulatedAsWritten(records: seq<seq<real>>, includeAC: bool, n: nat): (acc: Accumulator)
    requires Records(records) && n <= |records|
    ensures acc.Flat? ==> |acc.v| == NumCauses
    ensures !acc.Flat? ==> |acc.row| == NumCauses
    decreases n
  {
    if n == 0 then Nested(Zeros(NumCauses))
    else
      var v := Masked(records[n - 1], includeAC);
      StepAsWritten(AccumulatedAsWritten(records, includeAC, n - 1), n - 1, Contribute(v), Max(v) >= 0.4)
  }

  /** `Series(dist).iloc[causeindex]`: a flat vector is fine; a matrix is
      rejected as not one-dimensional; a nested list becomes a one-element
      series that the positional selection reads past. */
  function SeriesAsWritten(acc: Accumulator): (r: Result<seq<real>>)
    ensures r.Ok? <==> acc.Flat?
  {
    match acc
      case Flat(v) => Ok(v)
      case Matrix(_) => Err(NotOneDimensional)
      case Nested(_) => Err(IndexOutOfRange)
  }

  /** When positional record 0 is decided the source computes the
      zero-initialised sum. */
  lemma {:induction false} AsWrittenAgreesWhenFirstDecided(records: seq<seq<real>>, includeAC: bool, n: nat)
    requires Records(records) && 1 <= n <= |records|
    requires Max(Masked(records[0], includeAC)) >= 0.4
    ensures AccumulatedAsWritten(records, includeAC, n) == Flat(Accumulated(records[..n], includeAC).dist)
    decreases n
  {
    var v := Masked(records[n - 1], includeAC);
    var c := Contribute(v);
    assert records[..n][..n - 1] == records[..n - 1];
    assert records[..n][n - 1] == records[n - 1];
    var before := Accumulated(records[..n - 1], includeAC).dist;
    assert Accumulated(records[..n], includeAC).dist == Add(before, c.kept);
    if n == 1 {
      assert before == Zeros(NumCauses);
      SumZerosAdd(c.kept);
    } else {
      AsWrittenAgreesWhenFirstDecided(records, includeAC, n - 1);
      StepAgrees(before, n - 1, c, Max(v) >= 0.4);
    }
  }

  /** A later step on a flat vector adds the kept entries, which are all
      zero for an undecided record. */
  lemma StepAgrees(d: seq<real>, i: nat, c: Contribution, decided: bool)
    requires |d| == |c.kept| && i > 0
    requires !decided ==> c.kept == Zeros(|d|)
    ensures StepAsWritten(Flat(d), i, c, decided) == Flat(Add(d, c.kept))
  {
    if !decided {
      AddZeros(d);
    }
  }

  lemma SumZerosAdd(k: seq<real>)
    requires |k| == NumCauses
    ensures Add(Zeros(NumCauses), k) == k
  {
  }

  lemma AddZeros(d: seq<real>)
    ensures Add(d, Zeros(|d|)) == d
  {
  }

  /** When positional record 0 is undecided the source fails: a decided
      record after it turns `dist` into a matrix, and with none `dist`
      stays a nested list. */
  lemma AsWrittenFailsWhenFirstUndecided(records: seq<seq<real>>, includeAC: bool)
    requires Records(records) && |records| >= 1
    requires Max(Masked(records[0], includeAC)) < 0.4
    ensures SeriesAsWritten(AccumulatedAsWritten(records, includeAC, |records|)).Err?
  {
    NeverFlat(records, includeAC, |records|);
  }

  lemma {:induction false} NeverFlat(records: seq<seq<real>>, includeAC: bool, n: nat)
    requires Records(records) && 1 <= n <= |records|
    requires Max(Masked(records[0], includeAC)) < 0.4
    ensures !AccumulatedAsWritten(records, includeAC, n).Flat?
    decreases n
  {
    if n > 1 {
      NeverFlat(records, includeAC, n - 1);
    }
  }

  /** A concrete population: an undecided record followed by a decided one. */
  lemma UndecidedFirstRecordExample()
    ensures var records := [Zeros(NumCauses), [1.0] + Zeros(NumCauses - 1)];
            AccumulatedAsWritten(records, false, 2).Matrix?
  {
    var z := Zeros(NumCauses);
    var d := [1.0] + Zeros(NumCauses - 1);
    var records := [z, d];
    ZerosMax(NumCauses);
    assert Masked(z, false) == z;
    MaxIsUpperBound(d);
    assert Max(d) >= d[0];
    assert AccumulatedAsWritten(records, false, 1) == Nested(Zeros(NumCauses));
  }
}
