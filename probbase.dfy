/** Preparation of the symptom-cause table (probbase) at the start of
    `run()`: letter grades become numeric weights, the column-5 codes become
    substantive values, and row 0 becomes the prior, adjusted for the HIV and
    malaria prevalence levels. */
module Probbase {

  import opened Errors
  import opened Numeric
  import opened Record

  const Rows: nat := 354             // one row per input column
  const Columns: nat := 87
  const FirstCauseColumn: nat := 17  // columns 17..86 hold one grade per cause
  const SubstantiveColumn: nat := 5

  const HivColumn: nat := 22
  const MalariaColumn: nat := 24
  const SickleCellColumn: nat := 44

  /** The prevalence levels: high, low, very low. */
  const Levels: set<string> := {"h", "l", "v"}

  /** The grade codes, strongest first; "B -" and "" are spellings of "B-" and "N". */
  const GradeScale: seq<string> :=
    ["I", "A+", "A", "A-", "B+", "B", "B-", "C+", "C", "C-", "D+", "D", "D-", "E", "N"]

  /** The numeric weight of a grade code; None for a cell that is not one. */
  function GradeWeight(cell: string): (w: Option<real>)
    ensures w.Some? ==> 0.0 <= w.value <= 1.0
  {
    if cell == "I" then Some(1.0)
    else if cell == "A+" then Some(0.8)
    else if cell == "A" then Some(0.5)
    else if cell == "A-" then Some(0.2)
    else if cell == "B+" then Some(0.1)
    else if cell == "B" then Some(0.05)
    else if cell == "B-" || cell == "B -" then Some(0.02)
    else if cell == "C+" then Some(0.01)
    else if cell == "C" then Some(0.005)
    else if cell == "C-" then Some(0.002)
    else if cell == "D+" then Some(0.001)
    else if cell == "D" then Some(0.0005)
    else if cell == "D-" then Some(0.0001)
    else if cell == "E" then Some(0.00001)
    else if cell == "N" || cell == "" then Some(0.0)
    else None
  }

  /** Exactly the grade codes have a weight; only "I" weighs 1 and only "N"
      (or an empty cell) weighs 0. */
  lemma GradeWeightCodes(cell: string)
    ensures GradeWeight(cell).Some? <==> cell in GradeScale || cell == "B -" || cell == ""
    ensures GradeWeight(cell) == Some(1.0) <==> cell == "I"
    ensures GradeWeight(cell) == Some(0.0) <==> cell == "N" || cell == ""
  {
  }

  /** The weights of the grade scale, in the order of `GradeScale`. */
  const ScaleWeights: seq<real> :=
    [1.0, 0.8, 0.5, 0.2, 0.1, 0.05, 0.02, 0.01, 0.005, 0.002, 0.001, 0.0005, 0.0001, 0.00001, 0.0]

  /** The grade codes weigh what the scale lists, in three stretches. */
  lemma ScaleWeightsFrom(lo: nat)
    requires lo == 0 || lo == 5 || lo == 10
    ensures |GradeScale| == |ScaleWeights| == 15
    ensures forall i :: lo <= i < lo + 5 ==> GradeWeight(GradeScale[i]) == Some(ScaleWeights[i])
  {
    forall i | lo <= i < lo + 5
      ensures GradeWeight(GradeScale[i]) == Some(ScaleWeights[i])
    {
      assert i == lo || i == lo + 1 || i == lo + 2 || i == lo + 3 || i == lo + 4;
    }
  }

  /** Each listed weight is strictly below the one before it. */
  lemma {:induction false} ScaleWeightsDecreasing(i: nat, j: nat)
    requires i < j < |ScaleWeights|
    ensures ScaleWeights[j] < ScaleWeights[i]
    decreases j - i
  {
    if j > i + 1 {
      ScaleWeightsDecreasing(i, j - 1);
    } else {
      assert i == 0 || i == 1 || i == 2 || i == 3 || i == 4 || i == 5 || i == 6 ||
             i == 7 || i == 8 || i == 9 || i == 10 || i == 11 || i == 12 || i == 13;
    }
  }

  /** Every step down the grade scale gives a strictly smaller weight. */
  lemma GradeScaleDecreasing()
    ensures forall i :: 0 <= i < |GradeScale| ==> GradeWeight(GradeScale[i]).Some?
    ensures forall i, j :: 0 <= i < j < |GradeScale| ==>
              GradeWeight(GradeScale[j]).value < GradeWeight(GradeScale[i]).value
  {
    ScaleWeightsFrom(0);
    ScaleWeightsFrom(5);
    ScaleWeightsFrom(10);
    forall i, j | 0 <= i < j < |GradeScale|
      ensures GradeWeight(GradeScale[j]).value < GradeWeight(GradeScale[i]).value
    {
      ScaleWeightsDecreasing(i, j);
    }
  }

  /** "B -" and an empty cell are other spellings of "B-" and "N". */
  lemma GradeSpellings()
    ensures GradeWeight("B -") == GradeWeight("B-") && GradeWeight("") == GradeWeight("N")
  {
  }

  /** The weights of the cause columns of one row; None when a cell is not a grade. */
  function ConvertRow(cells: seq<string>): (r: Option<seq<real>>)
    ensures r.Some? ==> |r.value| == |cells|
    decreases |cells|
  {
    if |cells| == 0 then Some([])
    else
      var n := |cells| - 1;
      var init := ConvertRow(cells[..n]);
      var last := GradeWeight(cells[n]);
      if init.None? || last.None? then None else Some(init.value + [last.value])
  }

  /** Each converted weight is the weight of the cell in the same column. */
  lemma {:induction false} ConvertRowValues(cells: seq<string>)
    ensures ConvertRow(cells).Some? ==>
              forall j :: 0 <= j < |cells| ==> Some(ConvertRow(cells).value[j]) == GradeWeight(cells[j])
    decreases |cells|
  {
    if |cells| > 0 {
      var n := |cells| - 1;
      ConvertRowValues(cells[..n]);
      assert forall j :: 0 <= j < n ==> cells[..n][j] == cells[j];
    }
  }

  /** A row converts exactly when every one of its cells is a grade code. */
  lemma {:induction false} ConvertRowAccepts(cells: seq<string>)
    ensures ConvertRow(cells).Some? <==> forall j :: 0 <= j < |cells| ==> GradeWeight(cells[j]).Some?
    decreases |cells|
  {
    if |cells| > 0 {
      var n := |cells| - 1;
      ConvertRowAccepts(cells[..n]);
      assert forall j :: 0 <= j < n ==> cells[..n][j] == cells[j];
    }
  }

  /** A table whose rows all have the right width. */
  predicate WellShaped(sci: seq<seq<string>>) {
    |sci| == Rows && forall r :: 0 <= r < |sci| ==> |sci[r]| == Columns
  }

  /** A matrix of weights of the right shape, each in [0, 1]. */
  predicate WeightTable(w: seq<seq<real>>) {
    |w| == Rows &&
    forall r :: 0 <= r < |w| ==>
      (|w[r]| == Columns - FirstCauseColumn && NonNegative(w[r]) && forall c :: 0 <= c < |w[r]| ==> w[r][c] <= 1.0)
  }

  /** Grade conversion of rows `from..` of the table. */
  function ConvertRowsFrom(sci: seq<seq<string>>, from: nat): (r: Result<seq<seq<real>>>)
    requires WellShaped(sci) && from <= |sci|
    ensures r.Ok? <==> forall k :: from <= k < |sci| ==> ConvertRow(sci[k][FirstCauseColumn..]).Some?
    ensures r.Ok? ==> |r.value| == |sci| - from
    ensures r.Ok? ==> forall k :: from <= k < |sci| ==> Some(r.value[k - from]) == ConvertRow(sci[k][FirstCauseColumn..])
    ensures r.Err? ==> r.error.UnknownGrade? && from <= r.error.row < |sci|
    ensures r.Err? ==> ConvertRow(sci[r.error.row][FirstCauseColumn..]).None?
    ensures r.Err? ==> forall k :: from <= k < r.error.row ==> ConvertRow(sci[k][FirstCauseColumn..]).Some?
    decreases |sci| - from
  {
    if from == |sci| then Ok([])
    else
      var row := ConvertRow(sci[from][FirstCauseColumn..]);
      if row.None? then Err(UnknownGrade(from))
      else
        var rest := ConvertRowsFrom(sci, from + 1);
        if rest.Err? then rest else Ok([row.value] + rest.value)
  }

  /** The table once prepared: the substantive value and the 70 cause weights
      of every row. */
  datatype Prepared = Prepared(substantive: seq<Answer>, weights: seq<seq<real>>)

  predicate ValidPrepared(p: Prepared) {
    |p.substantive| == Rows && WeightTable(p.weights)
  }

  /** The shape check and the grade conversion. A cell of a cause column that
      is not a grade code rejects the table. */
  function Prepare(sci: seq<seq<string>>): (r: Result<Prepared>)
    ensures !WellShaped(sci) ==> r == Err(InvalidSci)
    ensures r.Ok? ==> ValidPrepared(r.value)
    ensures r.Ok? ==> forall k, c :: 0 <= k < Rows && 0 <= c < Columns - FirstCauseColumn ==>
              Some(r.value.weights[k][c]) == GradeWeight(sci[k][FirstCauseColumn + c])
    ensures r.Ok? ==> forall k :: 0 <= k < Rows ==> r.value.substantive[k] == Substantive(sci[k][SubstantiveColumn])
    ensures WellShaped(sci) && r.Err? ==> r.error.UnknownGrade?
  {
    if !WellShaped(sci) then Err(InvalidSci)
    else
      var converted := ConvertRowsFrom(sci, 0);
      if converted.Err? then Err(converted.error)
      else
        var w := converted.value;
        ConvertedTable(sci, w);
        Ok(Prepared(seq(Rows, k requires 0 <= k < Rows => Substantive(sci[k][SubstantiveColumn])), w))
  }

  /** The converted rows form a weight table holding the weight of every cell. */
  lemma ConvertedTable(sci: seq<seq<string>>, w: seq<seq<real>>)
    requires WellShaped(sci) && ConvertRowsFrom(sci, 0) == Ok(w)
    ensures WeightTable(w)
    ensures forall k, c :: 0 <= k < Rows && 0 <= c < Columns - FirstCauseColumn ==>
              Some(w[k][c]) == GradeWeight(sci[k][FirstCauseColumn + c])
  {
    forall k | 0 <= k < Rows
      ensures |w[k]| == Columns - FirstCauseColumn && NonNegative(w[k])
      ensures forall c :: 0 <= c < |w[k]| ==> w[k][c] <= 1.0
      ensures forall c :: 0 <= c < Columns - FirstCauseColumn ==>
                Some(w[k][c]) == GradeWeight(sci[k][FirstCauseColumn + c])
    {
      var cells := sci[k][FirstCauseColumn..];
      assert Some(w[k - 0]) == ConvertRow(cells);
      ConvertRowValues(cells);
      forall c | 0 <= c < |cells|
        ensures 0.0 <= w[k][c] <= 1.0 && Some(w[k][c]) == GradeWeight(sci[k][FirstCauseColumn + c])
      {
        assert cells[c] == sci[k][FirstCauseColumn + c];
      }
    }
  }

  /** Python's `str.lower()` restricted to ASCII letters. */
  function Lower(s: string): (t: string)
    ensures |t| == |s|
  {
    seq(|s|, i requires 0 <= i < |s| => if 'A' <= s[i] <= 'Z' then (s[i] as int + 32) as char else s[i])
  }

  /** Lower-casing accepts a level exactly when it is one of h, l, v in either case. */
  lemma LowerLevel(s: string)
    ensures Lower(s) in Levels <==> s in {"h", "H", "l", "L", "v", "V"}
  {
    if |s| == 1 {
      var c := s[0];
      var d := if 'A' <= c <= 'Z' then (c as int + 32) as char else c;
      assert Lower(s) == [d];
      assert d == 'h' <==> c == 'h' || c == 'H';
      assert d == 'l' <==> c == 'l' || c == 'L';
      assert d == 'v' <==> c == 'v' || c == 'V';
      assert s == [c];
    }
  }

  /** Lower-casing twice changes nothing more. */
  lemma LowerIdempotent(s: string)
    ensures Lower(Lower(s)) == Lower(s)
  {
  }

  /** The HIV prior for a level. */
  function HivPrior(level: string): real
    requires level in Levels
  {
    if level == "h" then 0.05 else if level == "l" then 0.005 else 0.00001
  }

  /** The malaria prior and the sickle-cell prior for a level. */
  function MalariaPriors(level: string): (real, real)
    requires level in Levels
  {
    if level == "h" then (0.05, 0.05) else if level == "l" then (0.005, 0.00001) else (0.00001, 0.00001)
  }

  /** The system prior: row 0 of the table with its first 17 columns zeroed
      and the HIV, malaria and sickle-cell columns set by level. The levels
      are the lower-cased ones; a level outside {h, l, v} is an error. */
  function SystemPrior(row0: seq<real>, hiv: string, malaria: string): (r: Result<seq<real>>)
    requires |row0| == Columns - FirstCauseColumn
    ensures r.Err? <==> hiv !in Levels || malaria !in Levels
    ensures r.Err? ==> r.error == InvalidLevel
    ensures r.Ok? ==> |r.value| == Columns
    ensures r.Ok? ==> forall c :: 0 <= c < FirstCauseColumn ==> r.value[c] == 0.0
    ensures r.Ok? ==> r.value[HivColumn] == HivPrior(hiv)
    ensures r.Ok? ==> (r.value[MalariaColumn], r.value[SickleCellColumn]) == MalariaPriors(malaria)
    ensures r.Ok? ==> forall c :: (FirstCauseColumn <= c < Columns && c != HivColumn &&
              c != MalariaColumn && c != SickleCellColumn) ==> r.value[c] == row0[c - FirstCauseColumn]
  {
    if hiv !in Levels || malaria !in Levels then Err(InvalidLevel)
    else
      var p0 := Zeros(FirstCauseColumn) + row0;
      var p1 := if hiv == "h" then p0[HivColumn := 0.05] else p0;
      var p2 := if hiv == "l" then p1[HivColumn := 0.005] else p1;
      var p3 := if hiv == "v" then p2[HivColumn := 0.00001] else p2;
      var p4 := if malaria == "h" then p3[MalariaColumn := 0.05][SickleCellColumn := 0.05] else p3;
      var p5 := if malaria == "l" then p4[MalariaColumn := 0.005][SickleCellColumn := 0.00001] else p4;
      var p6 := if malaria == "v" then p5[MalariaColumn := 0.00001][SickleCellColumn := 0.00001] else p5;
      Ok(p6)
  }

  /** A higher prevalence level never gives a lower prior, and the levels
      differ at the HIV column. */
  lemma PriorsFollowPrevalence()
    ensures HivPrior("v") < HivPrior("l") < HivPrior("h")
    ensures MalariaPriors("v").0 < MalariaPriors("l").0 < MalariaPriors("h").0
    ensures MalariaPriors("v").1 <= MalariaPriors("l").1 < MalariaPriors("h").1
  {
  }

  /** With weights in [0, 1], every entry of the system prior is in [0, 1]. */
  lemma SystemPriorBounded(row0: seq<real>, hiv: string, malaria: string)
    requires |row0| == Columns - FirstCauseColumn && NonNegative(row0)
    requires forall c :: 0 <= c < |row0| ==> row0[c] <= 1.0
    requires hiv in Levels && malaria in Levels
    ensures SystemPrior(row0, hiv, malaria).Ok?
    ensures NonNegative(SystemPrior(row0, hiv, malaria).value)
    ensures forall c :: 0 <= c < Columns ==> SystemPrior(row0, hiv, malaria).value[c] <= 1.0
  {
    var p := SystemPrior(row0, hiv, malaria).value;
    forall c | 0 <= c < Columns ensures 0.0 <= p[c] <= 1.0 {
      if c != HivColumn && c != MalariaColumn && c != SickleCellColumn && c >= FirstCauseColumn {
        assert p[c] == row0[c - FirstCauseColumn];
      }
    }
  }
}
