# InterVA5 cause-of-death assignment, modelled in Dafny

InterVA5 assigns causes of death to verbal-autopsy records. Each record is a
row of 354 yes/no/missing answers. A probability base ("sci", 354 × 87 cells)
gives, for each answer, one grade per cause for 70 causes, plus a row of prior
prevalences.

This project models the core of the `InterVA5` class in
`interva/interva5.py` and the cause table in
`src/interva/data/causetext.py`:

- **`run()`** checks its inputs in the source's order and converts the grades
  to weights. It sets the HIV and malaria priors from the prevalence levels and
  recodes every record. It excludes records with no age, no sex or no
  symptom. For each record it propagates the prior through the weights of every
  symptom whose answer matches the substantive value, renormalising the three
  cause blocks after each symptom. From the result it derives:
  - the pregnancy status;
  - the top three medical causes with their likelihoods and the indeterminate
    share;
  - the circumstance of mortality;
  - the whole posterior (WHOLEPROB).

  Finally it keeps the records that were not excluded, with their positions in
  the input.
- **`get_csmf(top)`** accumulates the population cause-specific mortality
  fractions. The largest values of each record are kept, and what falls below
  the record's cutoff goes to "Undetermined". The fractions are then
  normalised, sorted in descending order and cut after the leading positive
  entries, extended over near ties.
- **`get_indiv_prob(top)`** gives, for every kept record, either its
  61 medical-cause propensities or its `top` causes, taken by repeated maxima.
- **`get_hiv`, `get_malaria`, `set_hiv`, `set_malaria`** read and update the
  two prevalence levels. A setter accepts only h, l or v in either case.
- **`CAUSETEXTV5`** holds the 70 causes in three blocks: pregnancy status
  (0–2), medical causes (3–63, with numeric group codes) and circumstances
  (64–69).

Layout, one module per file:

| file | module | contents |
|---|---|---|
| `errors.dfy` | `Errors` | `Option`, `Result`, and the error cases the source raises |
| `causes.dfy` | `CauseText` | the cause table and its block structure |
| `numeric.dfy` | `Numeric` | sums, first maxima, deletion by position, Python's `round` |
| `probbase.dfy` | `Probbase` | grade conversion, level handling, the system prior |
| `record.dfy` | `Record` | recoding, exclusion, substantive triggers, reproductive age |
| `scoring.dfy` | `Scoring` | the propagation loop, in place on an array, and its algebra |
| `summary.dfy` | `Summary` | pregnancy status, top three causes, circumstance, WHOLEPROB |
| `csmf.dfy` | `Csmf` | the body of `get_csmf` |
| `indiv.dfy` | `Individual` | the top-cause loop of `get_indiv_prob` |
| `interva5.dfy` | `InterVA` | `run()` end to end and the `InterVA5` object |

The object is a class:
- `hiv` and `malaria` are fields. The setters update them, and `Run` lowercases
  them.
- `out` holds the last successful run.
- `Run` is proved against the function `InterVA.RunSpec`, and
  `InterVA.RunKeepsIncluded` states what a successful run produces.

`Scoring.ScoreRecord` keeps the source's in-place multiply-and-renormalise on
an array. Propensities are exact reals.

### Behaviour worth noting

- **Indeterminate share:** the share written after the top three causes is
  100 minus their rounded likelihoods. With Python's rounding it can be −1,
  for example for the block-B values 0.406, 0.297 and 0.297
  (`Summary.IndeterminateCanBeNegative`).
- **Circumstance block of WHOLEPROB:** the circumstance block is stored
  *after* it is renormalised (`prob_C` is reassigned at interva/interva5.py:425
  before line 434 builds WHOLEPROB). The model stores it the same way
  (`Summary.WholeProbRenormalised`).
- **Pregnancy status:** the reproductive-age test checks only that answer 4 is
  present and that one of answers 16–18 is present, after recoding "no" to 1
  (interva/interva5.py:340–347); it does not look at sex or age. The model does
  the same (`Record.ReproductiveAge`).

## Model

| member | source | states |
|---|---|---|
| `CauseText.TableSize` | src/interva/data/causetext.py:9-150 | the table holds exactly 70 causes |
| `CauseText.OuterBlockTexts` | src/interva/data/causetext.py:10-15 | positions 0–2 are the three pregnancy states and 64–69 the six circumstances, in table order |
| `CauseText.MedicalCausesFacts` | src/interva/data/causetext.py:16-137 | block B has 61 entries, every key starts with `b_`, every code is numeric, and the codes strictly ascend (proved group by group, ten entries at a time, by `CauseText.Group0WellFormed` … `CauseText.Group6WellFormed`) |
| `CauseText.BlockKeys` | src/interva/data/causetext.py:9-150 | blocks have sizes 3, 61 and 6, with keys prefixed `a_`, `b_` and `c_` respectively |
| `CauseText.GroupCodesOnlyInBlockB` | src/interva/data/causetext.py:9-150 | only medical causes carry numeric group codes; a pregnancy state's code is its own name |
| `CauseText.GroupCodesAscending` | src/interva/data/causetext.py:16-137 | consecutive medical causes have strictly increasing group codes |
| `CauseText.OverriddenCauses` | interva/interva5.py:243-257 | probbase columns 22, 24 and 44, whose priors `run()` overrides, are the causes HIV/AIDS, malaria and sickle cell |
| `Numeric.FirstArgmax` | interva/interva5.py:393 | `where(v == nanmax(v))[0][0]` is an index holding the maximum |
| `Numeric.FirstArgmaxIsFirst` | interva/interva5.py:393 | every earlier entry is strictly below the maximum (first occurrence on ties) |
| `Numeric.MaxIsUpperBound` | interva/interva5.py:389 | `nanmax` bounds every entry |
| `Numeric.RemoveIndex` | interva/interva5.py:396 | `delete(v, k)` shifts every later entry down by one and keeps the earlier ones |
| `Numeric.SumRemove` | interva/interva5.py:396 | deleting an entry removes exactly its value from the sum |
| `Numeric.NormaliseIfPositive` | interva/interva5.py:354-359 | dividing a non-negative block by its positive sum gives sum 1 and entries in [0, 1]; a zero block stays zero |
| `Numeric.NormaliseFacts` | interva/interva5.py:354-359 | a block with positive sum normalises to sum 1; a non-negative block with no mass is all zeros |
| `Numeric.RoundHalfEven` | interva/interva5.py:375 | Python's `round`: the integer within one half, an even one on a tie |
| `Numeric.RoundUnique` | interva/interva5.py:375 | exactly one integer meets that description |
| `Numeric.RoundMonotone` | interva/interva5.py:394-417 | rounding preserves order, so rounded likelihoods keep the order of the propensities |
| `Numeric.KthLargestDecreasing` | interva/interva5.py:393-411 | the k-th largest value taken by repeated deletion of maxima never increases with k |
| `Numeric.LargestThreeAtMostSum` | interva/interva5.py:393-417 | the three largest entries of a non-negative vector sum to at most its total |
| `Numeric.TopThreeOrder` | interva/interva5.py:393-411 | the third largest ≤ the second ≤ the first, and the first is the maximum |
| `Numeric.RemoveDistinct` | interva/interva5.py:396-398 | deleting one name from distinct names leaves distinct names without it |
| `Numeric.SumAppend` | interva/interva5.py:434 | the sum of a concatenation is the sum of its parts |
| `Numeric.SumDivide` | interva/interva5.py:626 | dividing every entry divides the sum |
| `Numeric.SumAdd` | interva/interva5.py:618 | adding two vectors adds their sums |
| `Record.Recode` | interva/interva5.py:292-302 | a cell is yes exactly for y/Y/1 and no exactly for n/N/0; anything else is missing |
| `Record.RecodeRecord` | interva/interva5.py:292-304 | the ID column is set to no and every other cell is recoded in place |
| `Record.CountYesPositive` | interva/interva5.py:305 | `nansum(...) < 1` fails exactly when no answer in the range is yes |
| `Record.Excluded` | interva/interva5.py:305-319 | a record is excluded for missing age (5–11), else missing sex (3–4), else no symptom (20–327), in that order; otherwise it is kept |
| `Record.MarkTriggers` | interva/interva5.py:334-338 | position y ≥ 1 triggers exactly when its checked answer is present and equals the substantive value |
| `Record.Positions` | interva/interva5.py:349 | `where(new_input[1:] == 1)`: every listed position is a triggered one |
| `Record.PositionsComplete` | interva/interva5.py:349 | every triggered position is listed, in strictly ascending order |
| `Record.ReproductiveAge` | interva/interva5.py:340-347 | reproductive age holds exactly when answer 4 is present and one of answers 16–18 is present |
| `Probbase.GradeWeight` | interva/interva5.py:218-234 | every converted grade is a weight in [0, 1] |
| `Probbase.GradeWeightCodes` | interva/interva5.py:218-234 | exactly the 15 grade codes plus `B -` and the empty cell convert; I is 1, and N and the empty cell are 0 |
| `Probbase.ScaleWeightsFrom` | interva/interva5.py:218-233 | each grade of the scale converts to its listed weight |
| `Probbase.GradeScaleDecreasing` | interva/interva5.py:218-233 | the scale I, A+, …, E, N is strictly decreasing in weight |
| `Probbase.GradeSpellings` | interva/interva5.py:224-234 | `B -` means `B-`, and the empty cell means N |
| `Probbase.ConvertRowAccepts` | interva/interva5.py:218-234 | a row converts exactly when every cell is a grade |
| `Probbase.ConvertRowValues` | interva/interva5.py:218-234 | a converted row holds each cell's weight |
| `Probbase.ConvertRowsFrom` | interva/interva5.py:217-234 | the table converts exactly when every row does; otherwise it fails at the first bad row, naming it |
| `Probbase.Prepare` | interva/interva5.py:156-157 | a table not of 354 × 87 is rejected; a converted one holds each cell's grade weight and each row's substantive value |
| `Probbase.ConvertedTable` | interva/interva5.py:217-235 | every converted weight is in [0, 1] and is the grade of its cell |
| `Probbase.LowerLevel` | interva/interva5.py:238-242 | a lowercased level is valid exactly when it was h, l or v in either case |
| `Probbase.LowerIdempotent` | interva/interva5.py:238-239 | lowercasing twice is lowercasing once |
| `Probbase.SystemPrior` | interva/interva5.py:235-257 | invalid levels fail; otherwise the first 17 entries are 0, columns 22, 24 and 44 get the level's prior, and every other column keeps row 0's weight |
| `Probbase.PriorsFollowPrevalence` | interva/interva5.py:243-257 | higher prevalence gives a higher HIV prior and a higher malaria prior; sickle cell's prior is non-decreasing with prevalence |
| `Probbase.SystemPriorBounded` | interva/interva5.py:235-257 | with valid levels the prior exists and every entry is in [0, 1] |
| `Scoring.MultiplyRow` | interva/interva5.py:352-353 | each entry of the array is multiplied in place by the symptom's weight |
| `Scoring.BlockSum` | interva/interva5.py:354 | the loop computes the block's sum |
| `Scoring.RenormaliseBlock` | interva/interva5.py:354-359 | the block is divided in place by its sum when that is positive, and the rest is unchanged |
| `Scoring.ScoreRecord` | interva/interva5.py:348-359 | the in-place loop over the triggered symptoms yields the propagated posterior |
| `Scoring.BlocksSeparate` | interva/interva5.py:354-359 | renormalising acts on blocks A, B and C independently |
| `Scoring.StepNormalised` | interva/interva5.py:352-359 | after one symptom each block sums to 1 or is all zero |
| `Scoring.PropagateNormalised` | interva/interva5.py:350-359 | after at least one symptom each block of the posterior sums to 1 or is all zero |
| `Scoring.PropagateNothing` | interva/interva5.py:348-350 | with no triggered symptom the posterior is the prior |
| `Scoring.PropagateProbabilities` | interva/interva5.py:348-359 | starting from a prior in [0, 1], every posterior entry stays in [0, 1] |
| `Scoring.Product` | interva/interva5.py:352-353 | the product of the triggered rows is non-negative when the weights are |
| `Scoring.NormaliseScaled` | interva/interva5.py:354-359 | normalising is unaffected by a positive scaling |
| `Scoring.NormaliseBeforeMultiply` | interva/interva5.py:352-359 | normalising before a multiplication changes nothing after the final normalisation |
| `Scoring.RenormaliseBeforeMultiply` | interva/interva5.py:352-359 | the same holds block by block |
| `Scoring.MultiplyAssociative` | interva/interva5.py:352-353 | successive multiplications may be regrouped |
| `Scoring.PropagateClosedForm` | interva/interva5.py:348-359 | the loop `Scoring.Propagate` (lines 348-359) equals one multiplication by the product of all triggered rows, then one block renormalisation |
| `Scoring.ProductSwap` | interva/interva5.py:349-353 | the product does not depend on the order of two symptoms |
| `Scoring.TriggerOrderIrrelevant` | interva/interva5.py:349-359 | the posterior does not depend on the order in which two symptoms are applied |
| `Summary.PregnancyStatus` | interva/interva5.py:366-381 | not applicable outside reproductive age; indeterminate below 0.1; otherwise the first maximal state with its rounded share, always 33–100 |
| `Summary.MajorityShare` | interva/interva5.py:375-381 | the largest of three shares is between 33 % and 100 % |
| `Summary.PregnancyNamesAreBlockA` | interva/interva5.py:374-380 | the three pregnancy state names are the first three cause texts |
| `Summary.RankingNames` | interva/interva5.py:389-414 | no cause is chosen exactly when the maximum is below 0.4; the first, second and third choices name the causes at the first three picks of block B — each the first maximum among the positions not taken before it, holding the next largest value — with the values there |
| `Summary.RankingFollowsOrder` | interva/interva5.py:392-414 | the second and third causes are the second and third largest values, blank exactly below half the maximum, and never increasing |
| `Summary.TopThree` | interva/interva5.py:386-417 | the indeterminate share and the three likelihoods add up to 100; below 0.4 everything is blank with indeterminate 100 |
| `Summary.TopThreeOrdered` | interva/interva5.py:392-415 | the first likelihood is at least 40, the others do not increase, and a third implies a second |
| `Summary.RankingDistinct` | interva/interva5.py:395-412 | with distinct names the three chosen causes are distinct |
| `Summary.TopThreeDistinct` | interva/interva5.py:395-412 | with distinct names the three written causes are distinct |
| `Summary.IndeterminateRange` | interva/interva5.py:416-417 | over a distribution the indeterminate share is between −1 and 100, and at most 60 once a cause is named |
| `Summary.IndeterminateCanBeNegative` | interva/interva5.py:416-417 | 0.406, 0.297 and 0.297 give an indeterminate share of −1 |
| `Summary.CircumstanceOf` | interva/interva5.py:421-431 | "Multiple" exactly when the renormalised maximum is below 0.5 (always for a zero block); otherwise the first maximal category, 50–100, with every other category at most one half (a tie at one half keeps the first) |
| `Summary.CategoryFacts` | interva/interva5.py:424-431 | a category of at least one half exists only for a positive block, and every other category is then at most one half |
| `Summary.PercentOfMajority` | interva/interva5.py:431 | a share in [0.5, 1] rounds to 50–100 |
| `Summary.WholeProbRenormalised` | interva/interva5.py:421-434 | the WHOLEPROB of `Summary.Summarise` (lines 366-437, the summary of one record) has 70 non-negative entries; blocks A and B are the posterior's; block C is the posterior's block C scaled by one factor (its total) so that it sums to 1, or all zeros when it has no mass |
| `Summary.WholeProbIsPosterior` | interva/interva5.py:424-434 | for a normalised posterior, WHOLEPROB is the posterior itself |
| `Csmf.CauseTextsAreStandard` | interva/interva5.py:553-566 | the standard cause list passes the check that drops blocks A and C |
| `Csmf.Masked` | interva/interva5.py:600-602 | for standard names, blocks A and C are zeroed and block B is kept |
| `Csmf.CutoffIsHalfMaxOrThird` | interva/interva5.py:607-610 | for ordered c1 ≥ c2 ≥ c3 the cutoff is max(c1/2, c3), never above c1 |
| `Csmf.RecordCutoffBounds` | interva/interva5.py:607-610 | a record's cutoff lies between half its maximum and its maximum |
| `Csmf.CutoffSplits` | interva/interva5.py:610-613 | the cutoff puts each entry on exactly one side, entries kept are at or above it, entries moved are below it, and the two sides carry the record's whole mass |
| `Csmf.ContributionConservesMass` | interva/interva5.py:603-613 | what `Csmf.Contribute` (lines 603-613) adds for one record: kept plus undetermined is the record's mass (1 for an all-zero record) |
| `Csmf.ContributionKeepsMaximum` | interva/interva5.py:607-613 | a decided record keeps its maximum and nothing below half of it |
| `Csmf.ContributionNonNegative` | interva/interva5.py:603-613 | contributions of a non-negative record are non-negative |
| `Csmf.Accumulate` | interva/interva5.py:586-618 | the loop computes the sum of the records' contributions and the undetermined total |
| `Csmf.AccumulatedStep` | interva/interva5.py:595-618 | one more record adds its kept values and its undetermined share |
| `Csmf.AccumulatedConservesMass` | interva/interva5.py:595-618 | causes plus undetermined equal the total mass of the records |
| `Csmf.MaskedMassIsOne` | interva/interva5.py:600-613 | a record whose block B sums to 1 or 0 contributes exactly one unit |
| `Csmf.OneUnitPerRecord` | interva/interva5.py:595-618 | for standard names and records whose medical block sums to 1 or 0, each record contributes one unit, so the totals add up to the record count |
| `Csmf.CsmfEntries` | interva/interva5.py:620-631 | the entries are the selected causes in order, then "Undetermined" exactly when undetermined is positive |
| `Csmf.CsmfEntriesNormalised` | interva/interva5.py:623-633 | the fractions are non-negative and sum to 1, or are all 0 |
| `Csmf.CsmfSumsToOne` | interva/interva5.py:623-627 | with undetermined mass the fractions sum to exactly 1 |
| `Csmf.Insert` | interva/interva5.py:635-636 | insertion is a permutation that adds one entry |
| `Csmf.InsertSorted` | interva/interva5.py:635-636 | inserting into a descending list keeps it descending |
| `Csmf.SortDescending` | interva/interva5.py:635-636 | the sort is a descending permutation of the entries |
| `Csmf.PositivePrefix` | interva/interva5.py:638-640 | `show_top` counts the leading positive values, up to top, and stops at the first non-positive one |
| `Csmf.PositivePrefixUnique` | interva/interva5.py:638-640 | that count is the only one meeting the description |
| `Csmf.TieExtension` | interva/interva5.py:641-647 | the extension over near ties stays in range |
| `Csmf.TieExtensionStops` | interva/interva5.py:641-647 | it stops at the first value not near-tied with its predecessor, and fails only when every remaining value is tied |
| `Csmf.TieStep` | interva/interva5.py:644-647 | one step of the tie loop either stops, fails at the end, or moves on |
| `Csmf.ShownCountFacts` | interva/interva5.py:638-648 | every shown value is positive; fewer than top are shown only at a zero; more are shown only over near ties |
| `Csmf.SelectTop` | interva/interva5.py:638-648 | the two while loops compute the shown count or fail past the end |
| `Csmf.ExtendTies` | interva/interva5.py:641-647 | the tie loop computes the tie extension |
| `Csmf.PermutedFractionsBounded` | interva/interva5.py:635-636 | sorting keeps every fraction between 0 and the total |
| `Csmf.RankedIsPrefix` | interva/interva5.py:620-648 | the result is a descending list of fractions in (0, 1] |
| `Csmf.SortedWithinOne` | interva/interva5.py:635-636 | sorted fractions of a distribution lie in [0, 1] |
| `Csmf.PrefixSorted` | interva/interva5.py:648 | the head of a descending list is descending |
| `Csmf.CsmfIsRankedPrefix` | interva/interva5.py:518-649 | `Csmf.CsmfOf` (lines 518-649), the CSMF of non-negative records, is a descending list of fractions in (0, 1] |
| `Csmf.AccumulatedNonNegative` | interva/interva5.py:595-618 | totals of non-negative records are non-negative |
| `Csmf.AccumulatedAsWritten` | interva/interva5.py:586-618 | the accumulator as written: a nested list until record 0 is decided |
| `Csmf.SeriesAsWritten` | interva/interva5.py:620 | `Series(dist)` succeeds only on a flat vector |
| `Csmf.AsWrittenAgreesWhenFirstDecided` | interva/interva5.py:586-618 | when record 0 is decided, the code as written computes the corrected totals |
| `Csmf.StepAgrees` | interva/interva5.py:614-618 | once flat, one step of the code as written is one step of the corrected sum |
| `Csmf.AsWrittenFailsWhenFirstUndecided` | interva/interva5.py:586-620 | when record 0 is undecided, the code as written never reaches a flat vector and `Series` fails |
| `Csmf.NeverFlat` | interva/interva5.py:586-618 | when record 0 is undecided, the accumulator is never a flat vector |
| `Csmf.UndecidedFirstRecordExample` | interva/interva5.py:586-618 | an all-zero record followed by a decided one leaves a 1 × 70 matrix |
| `Individual.Passes` | interva/interva5.py:704-727 | one slot is written per pass |
| `Individual.IndividualRow` | interva/interva5.py:696-727 | the loop with its deletions computes `Individual.IndivProbRow` (lines 685-727), the row of one record |
| `Individual.PassSlot` | interva/interva5.py:705-726 | one pass finds the first maximum and writes its slot |
| `Individual.FirstSlot` | interva/interva5.py:705-712 | the first slot is always the first maximal cause with the record's maximum |
| `Individual.PassesFollowOrder` | interva/interva5.py:714-727 | slot j holds the j-th largest value, and is blank exactly below half the maximum |
| `Individual.PassesPicks` | interva/interva5.py:703-727 | every slot a pass fills names the cause at the position the pass picks in the starting values, with the value there |
| `Individual.SlotNames` | interva/interva5.py:696-727 | slot j of a row names the cause at the j-th pick of block B: the first maximum among the positions earlier slots did not take, holding the j-th largest value |
| `Individual.LaterSlot` | interva/interva5.py:714-727 | the same for a record's row |
| `Individual.PassesAvoid` | interva/interva5.py:703-727 | a name already deleted never reappears |
| `Individual.PassesNamesDistinct` | interva/interva5.py:703-727 | with the names deleted alongside the values, no cause is named twice |
| `Individual.NoRepeatedCause` | interva/interva5.py:703-727 | a record's causes are distinct when the cause names are |
| `Individual.AgreesWithTopThree` | interva/interva5.py:704-727 | for top ≥ 3 and a decided record, the first three slots are run()'s top three causes |
| `Individual.PassesAsWritten` | interva/interva5.py:703-727 | the loop as written: values are deleted, names are not |
| `Individual.IndivProbRowAsWritten` | interva/interva5.py:685-727 | the row as written fails exactly when top exceeds 61 |
| `Individual.PassesDifferOnlyInNames` | interva/interva5.py:703-727 | the loop as written and the corrected loop agree on blanks and propensities |
| `Individual.AsWrittenDiffersOnlyInNames` | interva/interva5.py:703-727 | the same for a record's row |
| `Individual.SecondCauseRepeatsFirst` | interva/interva5.py:703-720 | with propensities 0.6 and 0.4 in the first two places, the code as written names cause 1 twice; the corrected loop names causes 1 and 2 |
| `Individual.LeadingMax` | interva/interva5.py:706 | a leading value that is at least every other is the first maximum |
| `InterVA.Score` | interva/interva5.py:321-437 | scoring a kept record gives a WHOLEPROB of 70 entries in [0, 1] |
| `InterVA.Assess` | interva/interva5.py:291-437 | a record yields a result exactly when it is not excluded |
| `InterVA.WholeProbBounds` | interva/interva5.py:424-434 | WHOLEPROB built from a posterior in [0, 1] stays in [0, 1] |
| `InterVA.AssessRecord` | interva/interva5.py:291-359 | recoding, trigger marking and the in-place propagation compute the record's result |
| `InterVA.KeepFirst` | interva/interva5.py:455-463 | the kept IDs, results and positions line up |
| `InterVA.KeepFirstLabels` | interva/interva5.py:455-463 | the positions kept are exactly those of the assessed records, strictly increasing |
| `InterVA.KeepFirstEntries` | interva/interva5.py:433-463 | each kept ID and result belongs to the record at its position |
| `InterVA.AssessAll` | interva/interva5.py:283-463 | the record loop keeps, in order, the results of the records not excluded |
| `InterVA.KeepRecord` | interva/interva5.py:305-437 | one iteration appends the record exactly when it is not excluded |
| `InterVA.Evaluate` | interva/interva5.py:151-470 | the checks, the prior and the record loop compute the run's outcome |
| `InterVA.PriorInRange` | interva/interva5.py:236-257 | the cause part of the system prior is 70 entries in [0, 1] |
| `InterVA.RunScorer` | interva/interva5.py:217-257 | a table and levels that pass the checks give a usable scorer |
| `InterVA.RunLevels` | interva/interva5.py:238-242 | past the shape checks, a run fails on its levels exactly when one of them is not h, l or v in either case |
| `InterVA.RunAllExcluded` | interva/interva5.py:455-465 | with valid levels, a run succeeds exactly when some record is not excluded; otherwise it fails building the result table |
| `InterVA.RunKeepsIncluded` | interva/interva5.py:283-470 | a successful `InterVA.RunSpec` (lines 283-470, the value of `run()`) keeps exactly the records not excluded, in input order, each with its own ID, every WHOLEPROB in [0, 1], and the levels lowercased |
| `InterVA.RunOutputValid` | interva/interva5.py:455-470 | a successful run's output is well formed |
| `InterVA.StoredLevelCases` | interva/interva5.py:484-504 | a setter stores the lower-cased request exactly when it is h, l or v in either case, keeps the old one otherwise, keeps a valid level valid, and is idempotent |
| `InterVA.InterVA5.constructor` | interva/interva5.py:70-86 | a new object holds the given levels and no results |
| `InterVA.InterVA5.GetHiv` | interva/interva5.py:472-476 | returns the stored HIV level |
| `InterVA.InterVA5.GetMalaria` | interva/interva5.py:478-482 | returns the stored malaria level |
| `InterVA.InterVA5.SetHiv` | interva/interva5.py:484-493 | stores the lowercased level when it is valid, otherwise keeps the old one; returns the stored level and changes nothing else |
| `InterVA.InterVA5.SetMalaria` | interva/interva5.py:495-504 | the same for the malaria level |
| `InterVA.InterVA5.Run` | interva/interva5.py:95-470 | returns the outcome of `run()`; lowercases the levels once the input checks pass; stores the output only on success |
| `InterVA.InterVA5.GetCsmf` | interva/interva5.py:518-649 | fails before a run; otherwise it is the CSMF of the stored results, a descending list of fractions in (0, 1] |
| `InterVA.InterVA5.GetIndivProb` | interva/interva5.py:668-730 | fails before a run or for top above 61; otherwise one row per kept record, with its own ID, built by the top-cause loop on that record's block B |
| `InterVA.MedicalBlock` | interva/interva5.py:697 | block B of WHOLEPROB has 61 entries |
| `InterVA.LocAsWritten` | interva/interva5.py:537 | `.loc[key]` finds the first position holding the label and fails with a KeyError when the label is absent |
| `InterVA.LookupsAgreeWhileDense` | interva/interva5.py:695-696 | while the labels are 0, 1, …, the label lookups of `get_indiv_prob` are the positions |
| `InterVA.LookupsStayFailed` | interva/interva5.py:695-696 | once one lookup fails, the whole loop fails with that KeyError |
| `InterVA.LookupsFailAtFirstGap` | interva/interva5.py:695-696 | the loop fails with a KeyError at the first position whose label differs from it, i.e. after the first excluded record |
| `InterVA.CsmfLookupAsWritten` | interva/interva5.py:536-538 | `get_csmf` fails on its first lookup exactly when record 0 was excluded |
| `InterVA.FirstRecordExcludedExample` | interva/interva5.py:536-538 | labels [1, 2] (record 0 excluded) fail both lookups with KeyError(0) |

## Left out

- **File and console I/O.** Reading CSV and Excel files, writing result files and logs, the progress dots, changing directories, and the `write`, `append`, `output` and `filename` options are left out.
- InterVA.InterVA5.Run: assumes `write=False` or a given, usable `directory`. With the default `write=True` and no `directory`, the source raises IOError at interva/interva5.py:136-137 before any other check, so the default configuration always fails there; creating or entering the directory (lines 138-143) can also fail. These outcomes are not modelled.
- **Default data files.** The packaged probability base and the `randomva5.csv` column template are left out. The probability base is the `sci` parameter, and the cause names are the `names` parameter of `Run`, which is given the `CAUSETEXTV5` names.
- **Column names.** The warnings about non-standard names and the renaming of `i183o` are left out. Only the last column's name (`i459o`) is checked.
- **`datacheck5`.** It is not part of this model. It enters as the `check` parameter, a function that keeps the record's length.
- **The `groupcode` option.** Prefixing the medical causes with their group code is left out; the names are used without it.
- **`sci` type check.** The DataFrame/ndarray type check is modelled only as the 354 × 87 shape.
- **`return_checked_data` and `checked_data`** are left out.
- **`include_propensities`** in `get_indiv_prob` is left out. Each slot carries both the cause and its propensity.
- **`get_ids`, `plot_csmf` and the `write_*` methods** are left out; they are file helpers or empty.
- **The getters' and setters' printing** is left out.
- **Floating point.** Propensities are exact reals. Rounding is modelled by `Numeric.RoundHalfEven`; representation errors are not.
- **The sort in `get_csmf`.** `sort_values` is an unstable sort. The model uses one particular stable descending sort, so among equal fractions it fixes one order of many.
- Probbase.Prepare: rejects a table with any cell in columns 17–86 that is not a grade code, before the levels are checked. In the source, row 0 (the prior) goes through `to_numeric` at interva/interva5.py:236, so numeric text such as "0.3" is accepted there and other text fails there, before the level check. In rows 1–353 such a cell stays text and fails only when a record's answer brings it into the arithmetic.
- InterVA.InterVA5.Run: lowercases the levels for ASCII letters only (`Probbase.Lower`). Python's `str.lower` (interva/interva5.py:238-239) also folds other letters, so after a failed level check the source stores "é" for a level "É" where the model stores "É". Acceptance of a level is the same, since only h, l and v pass.
- InterVA.InterVA5.Run: takes the record table (column names and rows) and the probability base as arguments. In the source the constructor takes `va_input` and `sci` (interva/interva5.py:70-86) and `run()` takes none; the constructor here takes only the levels.
- InterVA.InterVA5.GetCsmf: requires top ≥ 1. With top 0 the source reads position −1, which pandas resolves by position fallback, and this is not modelled.
- **The `len(va) < 1` branch of `get_csmf`** cannot be reached after a successful `run()`, because a run that keeps no record fails. It is not modelled.
- **Python runtime failures.** Calling `get_csmf` or `get_indiv_prob` before `run()` raises an AttributeError in the source. The model returns `NotRun`.
- **Label lookups in the corrected model.** `InterVA.InterVA5.GetCsmf` and `InterVA.InterVA5.GetIndivProb` read records by position, as intended. The source's label lookups are modelled separately; see Findings.

## Findings

| source | as written | input that shows it | evidently intended | confidence | as-written member | corrected member |
|---|---|---|---|---|---|---|
| interva/interva5.py:703-720 | `get_indiv_prob` deletes each chosen value from `prob_temp` but never deletes its name from `prob_temp_names`, so later names are read at shifted positions | top = 2 and a block B starting 0.6, 0.4 (rest 0): cause 2 repeats cause 1 | delete the name together with the value, as `run()` does at lines 397-398 | high (not executed) | `Individual.PassesAsWritten`, `Individual.SecondCauseRepeatsFirst` | `Individual.SlotNames`, `Individual.NoRepeatedCause` |
| interva/interva5.py:455-463, 537, 686, 696, 729 | `run()` drops excluded rows but keeps their index labels; `get_csmf` and `get_indiv_prob` then look records up with `.loc` by consecutive integers | three records, the first excluded (labels [1, 2]): `.loc[0]` raises KeyError | read the kept records by position (or reset the index) | high (not executed) | `InterVA.LocAsWritten`, `InterVA.LookupsFailAtFirstGap`, `InterVA.CsmfLookupAsWritten`, `InterVA.FirstRecordExcludedExample` | `InterVA.InterVA5.GetIndivProb`, `InterVA.InterVA5.GetCsmf` |
| interva/interva5.py:586-620 | the accumulator starts as a nested list `[[0, …]]` and is replaced by a flat vector only when the record at position 0 is decided (`i == 0`); otherwise it stays nested and then becomes a 1 × 70 matrix | record 0 all zero (undecided), record 1 with 1.0 in one cause: `Series(dist)` is given a 2-D array | start from a flat zero vector and add every decided record | medium (not executed) | `Csmf.AccumulatedAsWritten`, `Csmf.AsWrittenFailsWhenFirstUndecided`, `Csmf.UndecidedFirstRecordExample` | `Csmf.Accumulate`, `Csmf.Accumulated`, `Csmf.OneUnitPerRecord` |
