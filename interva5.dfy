/** The `InterVA5` object: the HIV and malaria levels it is configured with,
    `run()`, which prepares the symptom-cause table and scores every record,
    and the two reports built from the stored results, `get_csmf` and
    `get_indiv_prob`. */
module InterVA {

  import opened Errors
  import opened Numeric
  import opened CauseText
  import opened Record
  import opened Probbase
  import opened Scoring
  import opened Summary
  import opened Csmf
  import opened Individual

  /** The name the input's last column must have, in any case. */
  const LastColumn: string := "i459o"

  /** `self.out` after a successful `run()`: for each record that was not
      excluded, its ID, its result row and its row label (the record's
      position in the input), the cause names WHOLEPROB is indexed by, and
      the levels the run used. */
  datatype RunOutput = RunOutput(ids: seq<string>, results: seq<Assessment>, labels: seq<nat>,
                                 names: seq<string>, malaria: string, hiv: string)

  /** The output of `get_indiv_prob`: the ID column and one row per record. */
  datatype IndivTable = IndivTable(ids: seq<string>, rows: seq<IndivRow>)

  /** The input is a table: every record has one cell per column name. */
  predicate Rectangular(columns: seq<string>, rows: seq<seq<string>>) {
    forall i :: 0 <= i < |rows| ==> |rows[i]| == |columns|
  }

  predicate Increasing(labels: seq<nat>) {
    forall i, j :: 0 <= i < j < |labels| ==> labels[i] < labels[j]
  }

  // ---------------------------------------------------------------- one record

  /** What the record loop works with: the prepared table, the prior of the
      70 causes, the cause names WHOLEPROB is indexed by, and the
      consistency check. */
  datatype Scorer = Scorer(p: Prepared, prior: seq<real>, names: seq<string>, check: Checker)

  predicate Ready(sc: Scorer) {
    ValidPrepared(sc.p) && |sc.prior| == NumCauses && Probabilities(sc.prior) && |sc.names| == NumCauses
  }

  /** The scoring of a record that passed the exclusion checks: the
      consistency check, the triggered symptoms, the propagated
      probabilities and the result row. Its WHOLEPROB lies in [0, 1]. */
  function Score(sc: Scorer, raw: seq<string>, a: seq<Answer>): (s: Assessment)
    requires Ready(sc) && |raw| == Width && |a| == Width
    ensures WholeProbValid(s)
  {
    var checked := sc.check(a);
    var ys := Positions(TriggerFlags(checked, sc.p.substantive));
    PropagateProbabilities(sc.prior, sc.p.weights, ys);
    var prob := Propagate(sc.prior, sc.p.weights, ys);
    var s := Summarise(raw[0], prob, ReproductiveAge(checked), sc.names);
    WholeProbBounds(prob, s.wholeProb);
    s
  }

  /** The body of `run()`'s loop for one record: nothing when it is
      excluded, otherwise its result row. */
  function Assess(sc: Scorer, raw: seq<string>): (r: Option<Assessment>)
    requires Ready(sc) && |raw| == Width
    ensures r.Some? <==> Excluded(Recoded(raw)).None?
    ensures r.Some? ==> WholeProbValid(r.value)
  {
    var a := Recoded(raw);
    if Excluded(a).Some? then None else Some(Score(sc, raw, a))
  }

  /** WHOLEPROB keeps blocks A and B and renormalises block C, so it stays in [0, 1]. */
  lemma WholeProbBounds(prob: seq<real>, w: seq<real>)
    requires |prob| == NumCauses && Probabilities(prob)
    requires |w| == NumCauses && w[..MedicalEnd] == prob[..MedicalEnd]
    requires w[MedicalEnd..] == NormaliseIfPositive(prob[MedicalEnd..])
    ensures Probabilities(w)
  {
    var c := prob[MedicalEnd..];
    assert NonNegative(c) by {
      forall i | 0 <= i < |c| ensures 0.0 <= c[i] {
        assert c[i] == prob[MedicalEnd + i];
      }
    }
    forall i | 0 <= i < NumCauses ensures 0.0 <= w[i] <= 1.0 {
      if i < MedicalEnd {
        assert w[i] == w[..MedicalEnd][i] == prob[i];
      } else {
        assert w[i] == w[MedicalEnd..][i - MedicalEnd];
      }
    }
  }

  predicate WholeProbValid(a: Assessment) {
    |a.wholeProb| == NumCauses && Probabilities(a.wholeProb)
  }

  /** The loop body, as the source runs it. */
  method AssessRecord(sc: Scorer, raw: seq<string>) returns (r: Option<Assessment>)
    requires Ready(sc) && |raw| == Width
    ensures r == Assess(sc, raw)
  {
    var a := RecodeRecord(raw);
    if Excluded(a).Some? {
      return None;
    }
    var checked := sc.check(a);
    var flags := MarkTriggers(checked, sc.p.substantive);
    var ys := Positions(flags);
    var prob := ScoreRecord(sc.prior, sc.p.weights, ys);
    PropagateProbabilities(sc.prior, sc.p.weights, ys);
    r := Some(Summarise(raw[0], prob, ReproductiveAge(checked), sc.names));
  }

  // ---------------------------------------------------------------- all records

  /** What the loop keeps of the records so far. */
  datatype Kept = Kept(ids: seq<string>, results: seq<Assessment>, labels: seq<nat>)

  predicate RecordsOfWidth(rows: seq<seq<string>>) {
    forall i :: 0 <= i < |rows| ==> |rows[i]| == Width
  }

  /** The loop body's outcome for every record. */
  function Outcomes(sc: Scorer, rows: seq<seq<string>>): (os: seq<Option<Assessment>>)
    requires Ready(sc) && RecordsOfWidth(rows)
  {
    seq(|rows|, i requires 0 <= i < |rows| => Assess(sc, rows[i]))
  }

  /** What the loop keeps of the first n records given their outcomes: the
      ID, result row and position of each record scored, in input order. */
  function KeepFirst(rows: seq<seq<string>>, os: seq<Option<Assessment>>, n: nat): (k: Kept)
    requires RecordsOfWidth(rows) && |os| == |rows| && n <= |rows|
    ensures |k.ids| == |k.results| == |k.labels|
    decreases n
  {
    if n == 0 then Kept([], [], [])
    else
      var k := KeepFirst(rows, os, n - 1);
      match os[n - 1]
      case None => k
      case Some(a) => Kept(k.ids + [rows[n - 1][0]], k.results + [a], k.labels + [n - 1])
  }

  /** The labels are the positions of the records scored, ascending. */
  predicate LabelsFaithful(os: seq<Option<Assessment>>, n: nat, labels: seq<nat>)
    requires n <= |os|
  {
    Increasing(labels) &&
    (forall j :: 0 <= j < |labels| ==> labels[j] < n) &&
    (forall i :: 0 <= i < n ==> (i in labels <==> os[i].Some?))
  }

  /** Each kept ID and result row is that of the record at its label. */
  predicate EntriesFaithful(rows: seq<seq<string>>, os: seq<Option<Assessment>>, k: Kept)
    requires RecordsOfWidth(rows) && |os| == |rows|
  {
    |k.ids| == |k.results| == |k.labels| &&
    forall j :: 0 <= j < |k.labels| ==>
      k.labels[j] < |rows| && k.ids[j] == rows[k.labels[j]][0] && os[k.labels[j]] == Some(k.results[j])
  }

  lemma {:induction false} KeepFirstLabels(rows: seq<seq<string>>, os: seq<Option<Assessment>>, n: nat)
    requires RecordsOfWidth(rows) && |os| == |rows| && n <= |rows|
    ensures LabelsFaithful(os, n, KeepFirst(rows, os, n).labels)
    decreases n
  {
    if n > 0 {
      var before := KeepFirst(rows, os, n - 1).labels;
      KeepFirstLabels(rows, os, n - 1);
      var labels := KeepFirst(rows, os, n).labels;
      if os[n - 1].Some? {
        assert labels == before + [n - 1];
        forall i, j | 0 <= i < j < |labels| ensures labels[i] < labels[j] {
          if j < |before| {
            assert labels[i] == before[i] && labels[j] == before[j];
          } else {
            assert labels[i] == before[i] < n - 1;
          }
        }
        forall i | 0 <= i < n ensures i in labels <==> os[i].Some? {
          if i < n - 1 {
            assert i in labels <==> i in before;
          } else {
            assert labels[|before|] == i;
          }
        }
      } else {
        assert labels == before;
        assert n - 1 !in before;
      }
    }
  }

  lemma {:induction false} KeepFirstEntries(rows: seq<seq<string>>, os: seq<Option<Assessment>>, n: nat)
    requires RecordsOfWidth(rows) && |os| == |rows| && n <= |rows|
    ensures EntriesFaithful(rows, os, KeepFirst(rows, os, n))
    decreases n
  {
    if n > 0 {
      KeepFirstEntries(rows, os, n - 1);
    }
  }

  /** `run()`'s loop over the records, keeping the ID, result row and
      label of every record that is not excluded. */
  method AssessAll(sc: Scorer, rows: seq<seq<string>>) returns (kept: Kept)
    requires Ready(sc) && RecordsOfWidth(rows)
    ensures kept == KeepFirst(rows, Outcomes(sc, rows), |rows|)
  {
    ghost var os := Outcomes(sc, rows);
    kept := Kept([], [], []);
    var i := 0;
    while i < |rows|
      invariant i <= |rows|
      invariant kept == KeepFirst(rows, os, i)
    {
      var a := AssessRecord(sc, rows[i]);
      kept := KeepRecord(rows, os, i, kept, a);
      i := i + 1;
    }
  }

  /** One pass of that loop: append the record's ID, result row and label
      when it was scored. */
  method KeepRecord(rows: seq<seq<string>>, ghost os: seq<Option<Assessment>>, i: nat, kept: Kept,
                    a: Option<Assessment>) returns (next: Kept)
    requires RecordsOfWidth(rows) && |os| == |rows| && i < |rows|
    requires kept == KeepFirst(rows, os, i) && a == os[i]
    ensures next == KeepFirst(rows, os, i + 1)
  {
    next := kept;
    if a.Some? {
      next := Kept(kept.ids + [rows[i][0]], kept.results + [a.value], kept.labels + [i]);
    }
  }

  // ---------------------------------------------------------------- run()

  /** `run()` on a symptom-cause table, the cause names, the input's column
      names and records, the consistency check and the two levels it is
      configured with. The errors come in the order the source raises them. */
  function RunSpec(sci: seq<seq<string>>, names: seq<string>, columns: seq<string>, rows: seq<seq<string>>,
                   check: Checker, hiv: string, malaria: string): (r: Result<RunOutput>)
    requires |names| == NumCauses && Rectangular(columns, rows)
  {
    if !WellShaped(sci) then Err(InvalidSci)
    else if |rows| < 1 then Err(NoData)
    else if |columns| != Rows then Err(WrongRecordWidth)
    else if Lower(columns[|columns| - 1]) != LastColumn then Err(WrongLastColumn)
    else match Prepare(sci)
      case Err(e) => Err(e)
      case Ok(p) =>
        match SystemPrior(p.weights[0], Lower(hiv), Lower(malaria))
        case Err(e) => Err(e)
        case Ok(_) =>
          var sc := RunScorer(sci, names, check, hiv, malaria);
          var k := KeepFirst(rows, Outcomes(sc, rows), |rows|);
          if |k.results| == 0 then Err(AllExcluded)
          else Ok(RunOutput(k.ids, k.results, k.labels, names, Lower(malaria), Lower(hiv)))
  }

  /** The body of `run()` with the object's levels as inputs: the checks
      in source order, the prior, and the loop over the records. */
  method Evaluate(sci: seq<seq<string>>, names: seq<string>, columns: seq<string>, rows: seq<seq<string>>,
                  check: Checker, hiv: string, malaria: string) returns (r: Result<RunOutput>)
    requires |names| == NumCauses && Rectangular(columns, rows)
    ensures r == RunSpec(sci, names, columns, rows, check, hiv, malaria)
  {
    if !WellShaped(sci) {
      return Err(InvalidSci);
    }
    if |rows| < 1 {
      return Err(NoData);
    }
    if |columns| != Rows {
      return Err(WrongRecordWidth);
    }
    if Lower(columns[|columns| - 1]) != LastColumn {
      return Err(WrongLastColumn);
    }
    var prepared := Prepare(sci);
    if prepared.Err? {
      return Err(prepared.error);
    }
    var p := prepared.value;
    var sys := SystemPrior(p.weights[0], Lower(hiv), Lower(malaria));
    if sys.Err? {
      return Err(sys.error);
    }
    var sc := RunScorer(sci, names, check, hiv, malaria);
    var kept := AssessAll(sc, rows);
    if |kept.results| == 0 {
      return Err(AllExcluded);
    }
    r := Ok(RunOutput(kept.ids, kept.results, kept.labels, names, Lower(malaria), Lower(hiv)));
  }

  /** The checks before the levels are lower-cased all pass. */
  predicate ReachesLevels(sci: seq<seq<string>>, columns: seq<string>, rows: seq<seq<string>>) {
    WellShaped(sci) && |rows| >= 1 && |columns| == Rows &&
    Lower(columns[|columns| - 1]) == LastColumn && Prepare(sci).Ok?
  }

  /** The prior the record loop copies lies in [0, 1]. */
  lemma PriorInRange(p: Prepared, hiv: string, malaria: string)
    requires ValidPrepared(p) && SystemPrior(p.weights[0], Lower(hiv), Lower(malaria)).Ok?
    ensures var prior := SystemPrior(p.weights[0], Lower(hiv), Lower(malaria)).value[FirstCauseColumn..];
            |prior| == NumCauses && Probabilities(prior)
  {
    var row0 := p.weights[0];
    SystemPriorBounded(row0, Lower(hiv), Lower(malaria));
    var sys := SystemPrior(row0, Lower(hiv), Lower(malaria)).value;
    var prior := sys[FirstCauseColumn..];
    forall i | 0 <= i < |prior| ensures 0.0 <= prior[i] <= 1.0 {
      assert prior[i] == sys[FirstCauseColumn + i];
    }
  }

  /** The scorer a run that passed every check builds. */
  function RunScorer(sci: seq<seq<string>>, names: seq<string>, check: Checker, hiv: string, malaria: string): (sc: Scorer)
    requires |names| == NumCauses && Prepare(sci).Ok?
    requires SystemPrior(Prepare(sci).value.weights[0], Lower(hiv), Lower(malaria)).Ok?
    ensures Ready(sc)
  {
    var p := Prepare(sci).value;
    PriorInRange(p, hiv, malaria);
    Scorer(p, SystemPrior(p.weights[0], Lower(hiv), Lower(malaria)).value[FirstCauseColumn..], names, check)
  }

  /** A run fails on the levels exactly when one of them is not h, l or v
      in either case. */
  lemma RunLevels(sci: seq<seq<string>>, names: seq<string>, columns: seq<string>, rows: seq<seq<string>>,
                  check: Checker, hiv: string, malaria: string)
    requires |names| == NumCauses && Rectangular(columns, rows) && ReachesLevels(sci, columns, rows)
    ensures RunSpec(sci, names, columns, rows, check, hiv, malaria) == Err(InvalidLevel) <==>
            hiv !in {"h", "H", "l", "L", "v", "V"} || malaria !in {"h", "H", "l", "L", "v", "V"}
  {
    LowerLevel(hiv);
    LowerLevel(malaria);
    if Lower(hiv) in Levels && Lower(malaria) in Levels {
      var sc := RunScorer(sci, names, check, hiv, malaria);
    }
  }

  /** Past the checks and the levels, a run fails exactly when every record
      is excluded. */
  lemma RunAllExcluded(sci: seq<seq<string>>, names: seq<string>, columns: seq<string>, rows: seq<seq<string>>,
                       check: Checker, hiv: string, malaria: string)
    requires |names| == NumCauses && Rectangular(columns, rows) && ReachesLevels(sci, columns, rows)
    requires Lower(hiv) in Levels && Lower(malaria) in Levels
    ensures RunSpec(sci, names, columns, rows, check, hiv, malaria).Ok? <==>
            exists i :: 0 <= i < |rows| && Excluded(Recoded(rows[i])).None?
    ensures RunSpec(sci, names, columns, rows, check, hiv, malaria).Err? ==>
            RunSpec(sci, names, columns, rows, check, hiv, malaria) == Err(AllExcluded)
  {
    var sc := RunScorer(sci, names, check, hiv, malaria);
    var os := Outcomes(sc, rows);
    KeepFirstLabels(rows, os, |rows|);
    var k := KeepFirst(rows, os, |rows|);
    if exists i :: 0 <= i < |rows| && Excluded(Recoded(rows[i])).None? {
      var i :| 0 <= i < |rows| && Excluded(Recoded(rows[i])).None?;
      assert os[i] == Assess(sc, rows[i]);
      assert i in k.labels;
    }
    if |k.labels| > 0 {
      assert k.labels[0] in k.labels;
      assert os[k.labels[0]] == Assess(sc, rows[k.labels[0]]);
    }
  }

  /** A successful run keeps exactly the records that pass the exclusion
      checks, in input order, each with its ID and its result row, every
      WHOLEPROB in [0, 1], and the levels lower-cased. */
  lemma RunKeepsIncluded(sci: seq<seq<string>>, names: seq<string>, columns: seq<string>, rows: seq<seq<string>>,
                         check: Checker, hiv: string, malaria: string)
    requires |names| == NumCauses && Rectangular(columns, rows)
    requires RunSpec(sci, names, columns, rows, check, hiv, malaria).Ok?
    ensures var o := RunSpec(sci, names, columns, rows, check, hiv, malaria).value;
            OutputValid(o) && o.names == names && o.hiv == Lower(hiv) && o.malaria == Lower(malaria) &&
            (forall i :: 0 <= i < |rows| ==> (i in o.labels <==> Excluded(Recoded(rows[i])).None?)) &&
            (forall j :: 0 <= j < |o.labels| ==> o.labels[j] < |rows| && o.ids[j] == rows[o.labels[j]][0])
  {
    var sc := RunScorer(sci, names, check, hiv, malaria);
    var os := Outcomes(sc, rows);
    KeepFirstLabels(rows, os, |rows|);
    KeepFirstEntries(rows, os, |rows|);
    var k := KeepFirst(rows, os, |rows|);
    forall j | 0 <= j < |k.results| ensures WholeProbValid(k.results[j]) {
      assert os[k.labels[j]] == Some(k.results[j]);
    }
    forall i | 0 <= i < |rows| ensures (i in k.labels <==> Excluded(Recoded(rows[i])).None?) {
      assert os[i] == Assess(sc, rows[i]);
    }
  }

  /** What a successful run stores satisfies the object's invariant. */
  lemma RunOutputValid(sci: seq<seq<string>>, names: seq<string>, columns: seq<string>, rows: seq<seq<string>>,
                       check: Checker, hiv: string, malaria: string)
    requires |names| == NumCauses && Rectangular(columns, rows)
    requires RunSpec(sci, names, columns, rows, check, hiv, malaria).Ok?
    ensures OutputValid(RunSpec(sci, names, columns, rows, check, hiv, malaria).value)
  {
    RunKeepsIncluded(sci, names, columns, rows, check, hiv, malaria);
  }

  /** What the object holds after a successful run. */
  predicate OutputValid(o: RunOutput) {
    |o.results| >= 1 && |o.ids| == |o.results| == |o.labels| && Increasing(o.labels) &&
    |o.names| == NumCauses &&
    (forall j :: 0 <= j < |o.results| ==> WholeProbValid(o.results[j])) &&
    o.hiv in Levels && o.malaria in Levels
  }

  /** The level stored by `set_hiv` / `set_malaria`: the lower-cased request
      when it is h, l or v, otherwise the current level. */
  function StoredLevel(current: string, requested: string): (s: string)
  {
    if Lower(requested) in Levels then Lower(requested) else current
  }

  /** A request is taken exactly when it is one of h, l, v in either case;
      any other request leaves the level as it was, and repeating a request
      changes nothing more. */
  lemma StoredLevelCases(current: string, requested: string)
    ensures requested in {"h", "H", "l", "L", "v", "V"} ==>
              Lower(requested) in Levels && StoredLevel(current, requested) == Lower(requested)
    ensures requested !in {"h", "H", "l", "L", "v", "V"} ==> StoredLevel(current, requested) == current
    ensures StoredLevel(StoredLevel(current, requested), requested) == StoredLevel(current, requested)
    ensures current in Levels ==> StoredLevel(current, requested) in Levels
  {
    LowerLevel(requested);
  }

  /** The rows `get_csmf` accumulates: the WHOLEPROB of every kept record. */
  function WholeProbs(results: seq<Assessment>): (records: seq<seq<real>>)
  {
    seq(|results|, k requires 0 <= k < |results| => results[k].wholeProb)
  }

  /** `get_csmf(top)` on the stored results, every record read by position. */
  function CsmfResult(out: Option<RunOutput>, top: nat): (r: Result<seq<Entry>>)
    requires top >= 1 && (out.Some? ==> OutputValid(out.value))
  {
    if out.None? then Err(NotRun)
    else
      var records := WholeProbs(out.value.results);
      assert Records(records) by {
        forall k | 0 <= k < |records| ensures |records[k]| == NumCauses {
          assert WholeProbValid(out.value.results[k]);
        }
      }
      CsmfOf(records, out.value.names, top)
  }

  // ---------------------------------------------------------------- the object

  class InterVA5 {
    var hiv: string
    var malaria: string
    var out: Option<RunOutput>

    predicate Valid()
      reads this
    {
      out.Some? ==> OutputValid(out.value)
    }

    /** The object as constructed: the levels as given, no results yet. */
    constructor (hiv: string, malaria: string)
      ensures this.hiv == hiv && this.malaria == malaria && out == None && Valid()
    {
      this.hiv := hiv;
      this.malaria := malaria;
      out := None;
    }

    /** `get_hiv`: the level currently configured. */
    method GetHiv() returns (level: string)
      ensures level == hiv
    {
      level := hiv;
    }

    /** `get_malaria`: the level currently configured. */
    method GetMalaria() returns (level: string)
      ensures level == malaria
    {
      level := malaria;
    }

    /** `set_hiv`: store the lower-cased level when it is h, l or v, and
        return the level held afterwards. */
    method SetHiv(level: string) returns (current: string)
      modifies this
      ensures hiv == StoredLevel(old(hiv), level) && current == hiv
      ensures malaria == old(malaria) && out == old(out)
    {
      var lvl := Lower(level);
      if lvl in Levels {
        hiv := lvl;
      }
      current := hiv;
    }

    /** `set_malaria`: store the lower-cased level when it is h, l or v,
        and return the level held afterwards. */
    method SetMalaria(level: string) returns (current: string)
      modifies this
      ensures malaria == StoredLevel(old(malaria), level) && current == malaria
      ensures hiv == old(hiv) && out == old(out)
    {
      var lvl := Lower(level);
      if lvl in Levels {
        malaria := lvl;
      }
      current := malaria;
    }

    /** `run()`. The levels are lower-cased in place once the checks on the
        table and the input pass, even when they then turn out invalid; the
        results are stored only on success. */
    method Run(sci: seq<seq<string>>, names: seq<string>, columns: seq<string>, rows: seq<seq<string>>,
               check: Checker) returns (r: Result<RunOutput>)
      requires |names| == NumCauses && Rectangular(columns, rows) && Valid()
      modifies this
      ensures r == RunSpec(sci, names, columns, rows, check, old(hiv), old(malaria))
      ensures hiv == (if ReachesLevels(sci, columns, rows) then Lower(old(hiv)) else old(hiv))
      ensures malaria == (if ReachesLevels(sci, columns, rows) then Lower(old(malaria)) else old(malaria))
      ensures out == (if r.Ok? then Some(r.value) else old(out))
      ensures Valid()
    {
      r := Evaluate(sci, names, columns, rows, check, hiv, malaria);
      if ReachesLevels(sci, columns, rows) {
        hiv := Lower(hiv);
        malaria := Lower(malaria);
      }
      if r.Ok? {
        RunOutputValid(sci, names, columns, rows, check, old(hiv), old(malaria));
        out := Some(r.value);
      }
    }

    /** `get_csmf(top)`: the accumulation loop over the stored WHOLEPROB
        vectors, the normalisation and sort, and the `show_top` loops. */
    method GetCsmf(top: nat) returns (r: Result<seq<Entry>>)
      requires Valid() && top >= 1
      ensures r == CsmfResult(out, top)
      ensures r.Ok? ==> SortedDescending(Fractions(r.value)) &&
                        forall i :: 0 <= i < |r.value| ==> 0.0 < r.value[i].fraction <= 1.0
    {
      if out.None? {
        return Err(NotRun);
      }
      var records := WholeProbs(out.value.results);
      var names := out.value.names;
      var includeAC := StandardNames(names);
      var dist, undeter := Accumulate(records, includeAC);
      var sorted := SortDescending(CsmfEntries(Totals(dist, undeter), names, includeAC));
      var shown := SelectTop(Fractions(sorted), top);
      if shown.Err? {
        r := Err(shown.error);
      } else {
        r := Ok(sorted[..shown.value]);
      }
      assert forall k :: 0 <= k < |records| ==> NonNegative(records[k]) by {
        forall k | 0 <= k < |records| ensures NonNegative(records[k]) {
          assert WholeProbValid(out.value.results[k]);
        }
      }
      CsmfIsRankedPrefix(records, names, top);
    }

    /** `get_indiv_prob(top)`: one row per stored record, built by the
        top-cause loop, every record read by position. */
    method GetIndivProb(top: nat) returns (r: Result<IndivTable>)
      requires Valid()
      ensures out.None? ==> r == Err(NotRun)
      ensures out.Some? ==> (r.Err? <==> top > BlockSize) && (r.Err? ==> r.error == EmptyMaximum)
      ensures out.Some? && r.Ok? ==>
                r.value.ids == out.value.ids && |r.value.rows| == |out.value.results| &&
                forall k :: 0 <= k < |r.value.rows| ==>
                  Ok(r.value.rows[k]) == IndivProbRow(MedicalBlock(out.value.results[k]), MedicalNames(out.value), top)
    {
      if out.None? {
        return Err(NotRun);
      }
      var results := out.value.results;
      var names := MedicalNames(out.value);
      var table: seq<IndivRow> := [];
      var k := 0;
      while k < |results|
        invariant k <= |results| && |table| == k
        invariant forall j :: 0 <= j < k ==> Ok(table[j]) == IndivProbRow(MedicalBlock(results[j]), names, top)
        invariant k > 0 ==> top <= BlockSize
      {
        assert WholeProbValid(results[k]);
        var row := IndividualRow(MedicalBlock(results[k]), names, top);
        if row.Err? {
          return Err(row.error);
        }
        table := table + [row.value];
        k := k + 1;
      }
      r := Ok(IndivTable(out.value.ids, table));
    }
  }

  /** `wholeprob.iloc[3:64]`: block B of a result row. */
  function MedicalBlock(a: Assessment): (b: seq<real>)
    requires WholeProbValid(a)
    ensures |b| == BlockSize
  {
    a.wholeProb[PregnancyEnd..MedicalEnd]
  }

  /** The index of `wholeprob.iloc[3:64]`: the names of block B. */
  function MedicalNames(o: RunOutput): (names: seq<string>)
    requires |o.names| == NumCauses
    ensures |names| == BlockSize
  {
    o.names[PregnancyEnd..MedicalEnd]
  }

  // ---------------------------------------------------------------- as written

  /** `.loc[label]` on the result table: the first row carrying the label,
      or a KeyError. */
  function LocAsWritten(labels: seq<nat>, key: nat): (r: Result<nat>)
    ensures r.Ok? <==> key in labels
    ensures r.Ok? ==> r.value < |labels| && labels[r.value] == key && key !in labels[..r.value]
    ensures r.Err? ==> r.error == KeyError(key)
    decreases |labels|
  {
    if |labels| == 0 then Err(KeyError(key))
    else if labels[0] == key then Ok(0)
    else
      var rest := LocAsWritten(labels[1..], key);
      assert key in labels <==> key in labels[1..] by {
        assert labels == [labels[0]] + labels[1..];
      }
      if rest.Err? then rest else Ok(rest.value + 1)
  }

  /** The rows `get_indiv_prob` reads as written: `.loc[indiv]` for indiv
      in 0 .. n - 1, failing at the first missing label. */
  function LookupsAsWritten(labels: seq<nat>, n: nat): (r: Result<seq<nat>>)
    decreases n
  {
    if n == 0 then Ok([])
    else
      var before := LookupsAsWritten(labels, n - 1);
      if before.Err? then before
      else
        var here := LocAsWritten(labels, n - 1);
        if here.Err? then Err(here.error) else Ok(before.value + [here.value])
  }

  /** Positions 0 .. n - 1. */
  function Range(n: nat): (r: seq<nat>)
  {
    seq(n, i requires 0 <= i < n => i)
  }

  /** While the labels are still the positions, the lookups read the same
      rows as positional access. */
  lemma {:induction false} LookupsAgreeWhileDense(labels: seq<nat>, n: nat)
    requires n <= |labels| && forall k :: 0 <= k < n ==> labels[k] == k
    ensures LookupsAsWritten(labels, n) == Ok(Range(n))
    decreases n
  {
    if n > 0 {
      LookupsAgreeWhileDense(labels, n - 1);
      var here := LocAsWritten(labels, n - 1);
      assert labels[n - 1] in labels;
      assert Range(n - 1) + [n - 1] == Range(n);
    }
  }

  /** Once a label is missing, every later lookup fails with its KeyError. */
  lemma {:induction false} LookupsStayFailed(labels: seq<nat>, j: nat, n: nat)
    requires j < n && LookupsAsWritten(labels, j + 1) == Err(KeyError(j))
    ensures LookupsAsWritten(labels, n) == Err(KeyError(j))
    decreases n
  {
    if n > j + 1 {
      LookupsStayFailed(labels, j, n - 1);
    }
  }

  /** With ascending labels, the first position whose label differs from it
      is a label that does not exist: the lookups fail there. */
  lemma LookupsFailAtFirstGap(labels: seq<nat>, j: nat)
    requires Increasing(labels) && j < |labels| && labels[j] != j
    requires forall k :: 0 <= k < j ==> labels[k] == k
    ensures LookupsAsWritten(labels, |labels|) == Err(KeyError(j))
  {
    LookupsAgreeWhileDense(labels, j);
    assert labels[j] > j by {
      if j > 0 {
        assert labels[j - 1] == j - 1 && labels[j - 1] < labels[j];
      }
    }
    assert j !in labels by {
      forall k | 0 <= k < |labels| ensures labels[k] != j {
        if k > j {
          assert labels[j] < labels[k];
        }
      }
    }
    LookupsStayFailed(labels, j, |labels|);
  }

  /** `get_csmf` as written looks up label 0 first: it fails exactly when
      the first record of the input was excluded. */
  lemma CsmfLookupAsWritten(labels: seq<nat>)
    requires Increasing(labels) && |labels| > 0
    ensures LocAsWritten(labels, 0).Err? <==> labels[0] != 0
  {
    if labels[0] != 0 {
      forall k | 0 <= k < |labels| ensures labels[k] != 0 {
        if k > 0 {
          assert labels[0] < labels[k];
        }
      }
    } else {
      assert labels[0] in labels;
    }
  }

  /** Two kept records whose first input record was excluded: the labels
      are 1 and 2, and both reports fail on label 0. */
  lemma FirstRecordExcludedExample()
    ensures LocAsWritten([1, 2], 0) == Err(KeyError(0))
    ensures LookupsAsWritten([1, 2], 2) == Err(KeyError(0))
  {
    LookupsFailAtFirstGap([1, 2], 0);
  }
}
