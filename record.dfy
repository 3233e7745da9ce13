/** One verbal-autopsy record on its way through `run()`: the raw answers are
    recoded to yes / no / missing, incomplete records are excluded, and the
    answers that match the symptom-cause table's substantive value become the
    triggered symptoms. */
module Record {

  import opened Errors

  /** A cleaned answer: the 1, 0 and NaN of `input_current`. */
  datatype Answer = No | Yes | Missing

  /** Width of a record: one column per row of the symptom-cause table. */
  const Width: nat := 354

  /** Recoding of one raw cell: "n"/"N" become "0", "y"/"Y" become "1", and
      every cell that is then neither "0" nor "1" becomes missing. */
  function Recode(cell: string): (a: Answer)
    ensures a == Yes <==> cell == "y" || cell == "Y" || cell == "1"
    ensures a == No <==> cell == "n" || cell == "N" || cell == "0"
  {
    var c := if cell == "n" || cell == "N" then "0"
             else if cell == "y" || cell == "Y" then "1"
             else cell;
    if c == "0" then No else if c == "1" then Yes else Missing
  }

  /** A record after recoding, with the identifier column forced to 0. */
  function Recoded(raw: seq<string>): (a: seq<Answer>)
    ensures |a| == |raw|
  {
    seq(|raw|, j requires 0 <= j < |raw| => if j == 0 then No else Recode(raw[j]))
  }

  /** The recoding loop over one record. */
  method RecodeRecord(raw: seq<string>) returns (a: seq<Answer>)
    ensures |a| == |raw|
    ensures |raw| > 0 ==> a[0] == No
    ensures forall j :: 1 <= j < |raw| ==> a[j] == Recode(raw[j])
    ensures a == Recoded(raw)
  {
    a := [];
    var j := 0;
    while j < |raw|
      invariant 0 <= j <= |raw| && |a| == j
      invariant forall k :: 0 <= k < j ==> a[k] == Recode(raw[k])
    {
      a := a + [Recode(raw[j])];
      j := j + 1;
    }
    if |raw| > 0 {
      a := a[0 := No];
    }
  }

  /** `nansum(a[lo:hi])`: the number of "yes" answers in a range. */
  function CountYes(a: seq<Answer>): nat
    decreases |a|
  {
    if |a| == 0 then 0 else CountYes(a[..|a| - 1]) + (if a[|a| - 1] == Yes then 1 else 0)
  }

  predicate AnyYes(a: seq<Answer>, lo: nat, hi: nat)
    requires lo <= hi <= |a|
  {
    exists j :: lo <= j < hi && a[j] == Yes
  }

  lemma {:induction false} CountYesPositive(a: seq<Answer>)
    ensures CountYes(a) >= 1 <==> exists j :: 0 <= j < |a| && a[j] == Yes
    decreases |a|
  {
    if |a| > 0 {
      var init := a[..|a| - 1];
      CountYesPositive(init);
      if exists j :: 0 <= j < |init| && init[j] == Yes {
        var j :| 0 <= j < |init| && init[j] == Yes;
        assert a[j] == Yes;
      }
      if exists j :: 0 <= j < |a| && a[j] == Yes {
        var j :| 0 <= j < |a| && a[j] == Yes;
        if j < |init| {
          assert init[j] == Yes;
        }
      }
    }
  }

  lemma RangeHasYes(a: seq<Answer>, lo: nat, hi: nat)
    requires lo <= hi <= |a|
    ensures CountYes(a[lo..hi]) >= 1 <==> AnyYes(a, lo, hi)
  {
    CountYesPositive(a[lo..hi]);
    if AnyYes(a, lo, hi) {
      var j :| lo <= j < hi && a[j] == Yes;
      assert a[lo..hi][j - lo] == Yes;
    }
  }

  /** Why a record is left out, in the order the checks run. */
  datatype Exclusion = AgeMissing | SexMissing | NoSymptoms

  /** The exclusion checks: no "yes" among the age indicators 5..11, else
      none among the sex indicators 3..4, else none among the symptoms
      20..327. */
  function Excluded(a: seq<Answer>): (e: Option<Exclusion>)
    requires |a| == Width
    ensures e == Some(AgeMissing) <==> !AnyYes(a, 5, 12)
    ensures e == Some(SexMissing) <==> AnyYes(a, 5, 12) && !AnyYes(a, 3, 5)
    ensures e == Some(NoSymptoms) <==> AnyYes(a, 5, 12) && AnyYes(a, 3, 5) && !AnyYes(a, 20, 328)
    ensures e == None <==> AnyYes(a, 5, 12) && AnyYes(a, 3, 5) && AnyYes(a, 20, 328)
  {
    RangeHasYes(a, 5, 12);
    RangeHasYes(a, 3, 5);
    RangeHasYes(a, 20, 328);
    if CountYes(a[5..12]) < 1 then Some(AgeMissing)
    else if CountYes(a[3..5]) < 1 then Some(SexMissing)
    else if CountYes(a[20..328]) < 1 then Some(NoSymptoms)
    else None
  }

  /** `datacheck5`, the consistency check of the external vacheck package: an
      opaque cleaning of one record that keeps its width. */
  type Checker = f: seq<Answer> -> seq<Answer> | forall a :: |f(a)| == |a|
    witness (a: seq<Answer>) => a

  /** The probbase column-5 code: "N" is a "no", "Y" a "yes", anything else
      leaves the symptom without a substantive value. */
  function Substantive(cell: string): (a: Answer)
  {
    if cell == "N" then No else if cell == "Y" then Yes else Missing
  }

  /** An answer triggers its symptom when it is given and equals the
      symptom's substantive value. */
  predicate Triggers(answer: Answer, substantive: Answer) {
    answer != Missing && answer == substantive
  }

  /** The `new_input` vector: a flag per position from 1 on whose answer
      triggers; position 0, the identifier, is never flagged. */
  function TriggerFlags(checked: seq<Answer>, substantive: seq<Answer>): (flags: seq<bool>)
    requires |checked| == |substantive|
  {
    seq(|checked|, y requires 0 <= y < |checked| => 1 <= y && Triggers(checked[y], substantive[y]))
  }

  /** The `new_input` loop. */
  method MarkTriggers(checked: seq<Answer>, substantive: seq<Answer>) returns (flags: seq<bool>)
    requires |checked| == |substantive|
    ensures |flags| == |checked|
    ensures forall y :: 0 <= y < |flags| ==> (flags[y] <==> 1 <= y && Triggers(checked[y], substantive[y]))
    ensures flags == TriggerFlags(checked, substantive)
  {
    flags := seq(|checked|, _ => false);
    var y := 1;
    while y < |checked|
      invariant |flags| == |checked|
      invariant 1 <= y || |checked| == 0
      invariant |checked| == 0 || y <= |checked|
      invariant forall k :: 0 <= k < |flags| ==> (flags[k] <==> 1 <= k < y && Triggers(checked[k], substantive[k]))
    {
      if checked[y] != Missing {
        if checked[y] == substantive[y] {
          flags := flags[y := true];
        }
      }
      y := y + 1;
    }
  }

  /** `where(flags == 1)`: the flagged positions, in ascending order. Every
      position it lists is flagged; `PositionsComplete` shows it lists them
      all, once each, ascending. */
  function Positions(flags: seq<bool>): (ps: seq<nat>)
    ensures forall k :: 0 <= k < |ps| ==> ps[k] < |flags| && flags[ps[k]]
    decreases |flags|
  {
    if |flags| == 0 then []
    else
      var n := |flags| - 1;
      var rest := Positions(flags[..n]);
      if flags[n] then rest + [n] else rest
  }

  /** Every flagged position is listed, and the list is strictly ascending. */
  lemma {:induction false} PositionsComplete(flags: seq<bool>)
    ensures forall y :: 0 <= y < |flags| && flags[y] ==> y in Positions(flags)
    ensures forall k, l :: 0 <= k < l < |Positions(flags)| ==> Positions(flags)[k] < Positions(flags)[l]
    decreases |flags|
  {
    if |flags| > 0 {
      var n := |flags| - 1;
      PositionsComplete(flags[..n]);
      assert forall y :: 0 <= y < n && flags[y] ==> flags[..n][y];
    }
  }

  /** Reproductive age: once every given answer is recoded to 1, position 4
      must be 1 and so must one of positions 16..18. */
  function ReproductiveAge(checked: seq<Answer>): (b: bool)
    requires |checked| == Width
    ensures b <==> checked[4] != Missing && (checked[16] != Missing || checked[17] != Missing || checked[18] != Missing)
  {
    var answered := seq(|checked|, j requires 0 <= j < |checked| => if j == 0 || checked[j] == Missing then 0 else 1);
    var anyBirthAnswer := answered[16] != 0 || answered[17] != 0 || answered[18] != 0;
    answered[4] == 1 && anyBirthAnswer
  }
}
