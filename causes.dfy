/** The InterVA5 cause list of src/interva/data/causetext.py: 70 causes in a
    fixed order, split into three blocks that every index in the scoring code
    relies on: A (pregnancy status, 0-2), B (medical causes, 3-63) and
    C (circumstances of mortality, 64-69). */
module CauseText {

  /** A cause's group code: a number for the medical causes, a label otherwise. */
  datatype Code = Text(text: string) | Group(value: real)

  datatype CauseEntry = CauseEntry(key: string, cause: string, code: Code)

  const NumCauses: nat := 70
  const PregnancyEnd: nat := 3    // block A is [0, PregnancyEnd)
  const MedicalEnd: nat := 64     // block B is [PregnancyEnd, MedicalEnd), block C the rest

  /** Block A, the `a_*` entries. */
  const PregnancyStates: seq<CauseEntry> := [
      CauseEntry("a_nrp", "Not pregnant or recently delivered", Text("Not pregnant or recently delivered")),
      CauseEntry("a_pend_6w", "Pregnancy ended within 6 weeks of death", Text("Pregnancy ended within 6 weeks of death")),
      CauseEntry("a_preg", "Pregnant at death", Text("Pregnant at death"))
    ]

  /** Block B, the `b_*` entries, in groups of ten. */
  const MedicalCauses0: seq<CauseEntry> := [
      CauseEntry("b_0101", "Sepsis (non-obstetric)", Group(1.01)),
      CauseEntry("b_0102", "Acute resp infect incl pneumonia", Group(1.02)),
      CauseEntry("b_0103", "HIV/AIDS related death", Group(1.03)),
      CauseEntry("b_0104", "Diarrhoeal diseases", Group(1.04)),
      CauseEntry("b_0105", "Malaria", Group(1.05)),
      CauseEntry("b_0106", "Measles", Group(1.06)),
      CauseEntry("b_0107", "Meningitis and encephalitis", Group(1.07)),
      CauseEntry("b_0108", "Tetanus", Group(1.08)),
      CauseEntry("b_0109", "Pulmonary tuberculosis", Group(1.09)),
      CauseEntry("b_0110", "Pertussis", Group(1.1))
    ]

  const MedicalCauses1: seq<CauseEntry> := [
      CauseEntry("b_0111", "Haemorrhagic fever (non-dengue)", Group(1.11)),
      CauseEntry("b_0112", "Dengue fever", Group(1.12)),
      CauseEntry("b_0199", "Other and unspecified infect dis", Group(1.99)),
      CauseEntry("b_0201", "Oral neoplasms", Group(2.01)),
      CauseEntry("b_0202", "Digestive neoplasms", Group(2.02)),
      CauseEntry("b_0203", "Respiratory neoplasms", Group(2.03)),
      CauseEntry("b_0204", "Breast neoplasms", Group(2.04)),
      CauseEntry("b_0205", "Reproductive neoplasms MF", Group(2.05)),
      CauseEntry("b_0299", "Other and unspecified neoplasms", Group(2.99)),
      CauseEntry("b_0301", "Severe anaemia", Group(3.01))
    ]

  const MedicalCauses2: seq<CauseEntry> := [
      CauseEntry("b_0302", "Severe malnutrition", Group(3.02)),
      CauseEntry("b_0303", "Diabetes mellitus", Group(3.03)),
      CauseEntry("b_0401", "Acute cardiac disease", Group(4.01)),
      CauseEntry("b_0402", "Stroke", Group(4.02)),
      CauseEntry("b_0403", "Sickle cell with crisis", Group(4.03)),
      CauseEntry("b_0499", "Other and unspecified cardiac dis", Group(4.99)),
      CauseEntry("b_0501", "Chronic obstructive pulmonary dis", Group(5.01)),
      CauseEntry("b_0502", "Asthma", Group(5.02)),
      CauseEntry("b_0601", "Acute abdomen", Group(6.01)),
      CauseEntry("b_0602", "Liver cirrhosis", Group(6.02))
    ]

  const MedicalCauses3: seq<CauseEntry> := [
      CauseEntry("b_0701", "Renal failure", Group(7.01)),
      CauseEntry("b_0801", "Epilepsy", Group(8.01)),
      CauseEntry("b_0901", "Ectopic pregnancy", Group(9.01)),
      CauseEntry("b_0902", "Abortion-related death", Group(9.02)),
      CauseEntry("b_0903", "Pregnancy-induced hypertension", Group(9.03)),
      CauseEntry("b_0904", "Obstetric haemorrhage", Group(9.04)),
      CauseEntry("b_0905", "Obstructed labour", Group(9.05)),
      CauseEntry("b_0906", "Pregnancy-related sepsis", Group(9.06)),
      CauseEntry("b_0907", "Anaemia of pregnancy", Group(9.07)),
      CauseEntry("b_0908", "Ruptured uterus", Group(9.08))
    ]

  const MedicalCauses4: seq<CauseEntry> := [
      CauseEntry("b_0999", "Other and unspecified maternal CoD", Group(9.99)),
      CauseEntry("b_1001", "Prematurity", Group(10.01)),
      CauseEntry("b_1002", "Birth asphyxia", Group(10.02)),
      CauseEntry("b_1003", "Neonatal pneumonia", Group(10.03)),
      CauseEntry("b_1004", "Neonatal sepsis", Group(10.04)),
      CauseEntry("b_1006", "Congenital malformation", Group(10.06)),
      CauseEntry("b_1099", "Other and unspecified neonatal CoD", Group(10.99)),
      CauseEntry("b_1101", "Fresh stillbirth", Group(11.01)),
      CauseEntry("b_1102", "Macerated stillbirth", Group(11.02)),
      CauseEntry("b_1201", "Road traffic accident", Group(12.01))
    ]

  const MedicalCauses5: seq<CauseEntry> := [
      CauseEntry("b_1202", "Other transport accident", Group(12.02)),
      CauseEntry("b_1203", "Accid fall", Group(12.03)),
      CauseEntry("b_1204", "Accid drowning and submersion", Group(12.04)),
      CauseEntry("b_1205", "Accid expos to smoke fire & flame", Group(12.05)),
      CauseEntry("b_1206", "Contact with venomous plant/animal", Group(12.06)),
      CauseEntry("b_1207", "Accid poisoning & noxious subs", Group(12.07)),
      CauseEntry("b_1208", "Intentional self-harm", Group(12.08)),
      CauseEntry("b_1209", "Assault", Group(12.09)),
      CauseEntry("b_1210", "Exposure to force of nature", Group(12.1)),
      CauseEntry("b_1299", "Other and unspecified external CoD", Group(12.99))
    ]

  const MedicalCauses6: seq<CauseEntry> := [
      CauseEntry("b_9800", "Other and unspecified NCD", Group(98.0))
    ]

  /** Block C, the `c_*` entries. */
  const Circumstances: seq<CauseEntry> := [
      CauseEntry("c_cult", "Culture", Text("Culture")),
      CauseEntry("c_emer", "Emergency", Text("Emergency")),
      CauseEntry("c_hsys", "Health systems", Text("Health")),
      CauseEntry("c_inev", "Inevitable", Text("Inevitable")),
      CauseEntry("c_know", "Knowledge", Text("Knowledge")),
      CauseEntry("c_resr", "Resources", Text("Resources"))
    ]

  /** Block B, all groups in order. */
  const MedicalCauses: seq<CauseEntry> :=
    MedicalCauses0 + MedicalCauses1 + MedicalCauses2 + MedicalCauses3 + MedicalCauses4 + MedicalCauses5 + MedicalCauses6

  /** The whole table, in insertion order. */
  const Table: seq<CauseEntry> := PregnancyStates + MedicalCauses + Circumstances

  /** The cause names, in table order (the names `run()` labels every vector with). */
  const CauseTexts: seq<string> := seq(|Table|, i requires 0 <= i < |Table| => Table[i].cause)

  /** Python's `needle in hay` for strings: needle occurs at some offset of hay. */
  predicate Contains(hay: string, needle: string)
    decreases |hay|
  {
    needle <= hay || (|hay| > 0 && Contains(hay[1..], needle))
  }

  predicate HasKeyPrefix(e: CauseEntry, prefix: string) {
    |prefix| <= |e.key| && e.key[..|prefix|] == prefix
  }

  /** The group code of x is below that of y. */
  predicate CodeBelow(x: CauseEntry, y: CauseEntry) {
    x.code.Group? && y.code.Group? && x.code.value < y.code.value
  }

  predicate NoneGrouped(c: seq<CauseEntry>) {
    forall j :: 0 <= j < |c| ==> c[j].code.Text?
  }

  // ---------------------------------------------------------------- lemmas

  /** The table holds exactly NumCauses entries, and so does the name list. */
  lemma TableSize()
    ensures |Table| == NumCauses && |CauseTexts| == NumCauses
  {
    MedicalCausesFacts();
  }

  /** The first and last names of the list are the texts of blocks A and C. */
  lemma OuterBlockTexts()
    ensures |CauseTexts| == NumCauses
    ensures forall j :: 0 <= j < PregnancyEnd ==> CauseTexts[j] == PregnancyStates[j].cause
    ensures forall j :: 0 <= j < NumCauses - MedicalEnd ==> CauseTexts[MedicalEnd + j] == Circumstances[j].cause
  {
    TableSize();
  }

  /** Block B holds 61 entries, every key `b_*`, every code a group number,
      the numbers strictly ascending. */
  lemma MedicalCausesFacts()
    ensures |MedicalCauses| == MedicalEnd - PregnancyEnd && GroupWellFormed(MedicalCauses)
  {
    Group0WellFormed();
    Group1WellFormed();
    Group2WellFormed();
    Group3WellFormed();
    Group4WellFormed();
    Group5WellFormed();
    Group6WellFormed();
    var acc := MedicalCauses0;
    GroupFacts(acc, MedicalCauses1);
    acc := acc + MedicalCauses1;
    GroupFacts(acc, MedicalCauses2);
    acc := acc + MedicalCauses2;
    GroupFacts(acc, MedicalCauses3);
    acc := acc + MedicalCauses3;
    GroupFacts(acc, MedicalCauses4);
    acc := acc + MedicalCauses4;
    GroupFacts(acc, MedicalCauses5);
    acc := acc + MedicalCauses5;
    GroupFacts(acc, MedicalCauses6);
  }

  /** Appending a group of medical causes keeps the facts of block B, when
      its first code follows the last code so far. */
  lemma GroupFacts(acc: seq<CauseEntry>, group: seq<CauseEntry>)
    requires GroupWellFormed(acc) && GroupWellFormed(group) && |acc| > 0 && |group| > 0
    requires CodeBelow(acc[|acc| - 1], group[0])
    ensures GroupWellFormed(acc + group)
  {
    var c := acc + group;
    forall j | 0 <= j < |c| ensures EntryWellFormed(c, j) {
      if j < |acc| - 1 {
        assert EntryWellFormed(acc, j);
        assert c[j] == acc[j] && c[j + 1] == acc[j + 1];
      } else if j == |acc| - 1 {
        assert EntryWellFormed(acc, j);
        assert c[j] == acc[j] && c[j + 1] == group[0];
      } else {
        var g := j - |acc|;
        assert EntryWellFormed(group, g);
        assert c[j] == group[g];
        assert j + 1 < |c| ==> c[j + 1] == group[g + 1];
      }
    }
  }

  /** Entry j of a group of block B has a `b_*` key and a group code
      below that of the next entry. */
  predicate EntryWellFormed(c: seq<CauseEntry>, j: nat)
    requires j < |c|
  {
    HasKeyPrefix(c[j], "b_") && c[j].code.Group? && (j + 1 < |c| ==> CodeBelow(c[j], c[j + 1]))
  }

  predicate GroupWellFormed(c: seq<CauseEntry>) {
    forall j :: 0 <= j < |c| ==> EntryWellFormed(c, j)
  }

  lemma Group0WellFormed()
    ensures GroupWellFormed(MedicalCauses0)
  {
    forall j | 0 <= j < |MedicalCauses0| ensures EntryWellFormed(MedicalCauses0, j) {
      assert j == 0 || j == 1 || j == 2 || j == 3 || j == 4 || j == 5 || j == 6 || j == 7 || j == 8 || j == 9;
    }
  }

  lemma Group1WellFormed()
    ensures GroupWellFormed(MedicalCauses1)
  {
    forall j | 0 <= j < |MedicalCauses1| ensures EntryWellFormed(MedicalCauses1, j) {
      assert j == 0 || j == 1 || j == 2 || j == 3 || j == 4 || j == 5 || j == 6 || j == 7 || j == 8 || j == 9;
    }
  }

  lemma Group2WellFormed()
    ensures GroupWellFormed(MedicalCauses2)
  {
    forall j | 0 <= j < |MedicalCauses2| ensures EntryWellFormed(MedicalCauses2, j) {
      assert j == 0 || j == 1 || j == 2 || j == 3 || j == 4 || j == 5 || j == 6 || j == 7 || j == 8 || j == 9;
    }
  }

  lemma Group3WellFormed()
    ensures GroupWellFormed(MedicalCauses3)
  {
    forall j | 0 <= j < |MedicalCauses3| ensures EntryWellFormed(MedicalCauses3, j) {
      assert j == 0 || j == 1 || j == 2 || j == 3 || j == 4 || j == 5 || j == 6 || j == 7 || j == 8 || j == 9;
    }
  }

  lemma Group4WellFormed()
    ensures GroupWellFormed(MedicalCauses4)
  {
    forall j | 0 <= j < |MedicalCauses4| ensures EntryWellFormed(MedicalCauses4, j) {
      assert j == 0 || j == 1 || j == 2 || j == 3 || j == 4 || j == 5 || j == 6 || j == 7 || j == 8 || j == 9;
    }
  }

  lemma Group5WellFormed()
    ensures GroupWellFormed(MedicalCauses5)
  {
    forall j | 0 <= j < |MedicalCauses5| ensures EntryWellFormed(MedicalCauses5, j) {
      assert j == 0 || j == 1 || j == 2 || j == 3 || j == 4 || j == 5 || j == 6 || j == 7 || j == 8 || j == 9;
    }
  }

  lemma Group6WellFormed()
    ensures GroupWellFormed(MedicalCauses6)
  {
    forall j | 0 <= j < |MedicalCauses6| ensures EntryWellFormed(MedicalCauses6, j) {
      assert j == 0;
    }
  }

  /** The table is three blocks of 3, 61 and 6 entries whose keys are
      `a_*`, `b_*` and `c_*` respectively. */
  lemma BlockKeys()
    ensures |PregnancyStates| == PregnancyEnd && |MedicalCauses| == MedicalEnd - PregnancyEnd
    ensures |Circumstances| == NumCauses - MedicalEnd
    ensures forall j :: 0 <= j < |PregnancyStates| ==> HasKeyPrefix(PregnancyStates[j], "a_")
    ensures forall j :: 0 <= j < |MedicalCauses| ==> HasKeyPrefix(MedicalCauses[j], "b_")
    ensures forall j :: 0 <= j < |Circumstances| ==> HasKeyPrefix(Circumstances[j], "c_")
  {
    MedicalCausesFacts();
    WellFormedFacts(MedicalCauses);
  }

  /** Only the medical causes carry a numeric group code; a pregnancy state's
      code is its own cause text, so group-code prefixing only changes block B. */
  lemma GroupCodesOnlyInBlockB()
    ensures forall j :: 0 <= j < |MedicalCauses| ==> MedicalCauses[j].code.Group?
    ensures NoneGrouped(PregnancyStates) && NoneGrouped(Circumstances)
    ensures forall j :: 0 <= j < |PregnancyStates| ==> PregnancyStates[j].code == Text(PregnancyStates[j].cause)
  {
    MedicalCausesFacts();
    WellFormedFacts(MedicalCauses);
  }

  /** The medical causes are listed in strictly ascending group-code order. */
  lemma GroupCodesAscending()
    ensures forall j :: 0 <= j < |MedicalCauses| - 1 ==> CodeBelow(MedicalCauses[j], MedicalCauses[j + 1])
  {
    MedicalCausesFacts();
    WellFormedFacts(MedicalCauses);
  }

  /** What a well-formed group of block B promises entry by entry. */
  lemma WellFormedFacts(c: seq<CauseEntry>)
    requires GroupWellFormed(c)
    ensures forall j :: 0 <= j < |c| ==> HasKeyPrefix(c[j], "b_") && c[j].code.Group?
    ensures forall j :: 0 <= j < |c| - 1 ==> CodeBelow(c[j], c[j + 1])
  {
    forall j | 0 <= j < |c|
      ensures HasKeyPrefix(c[j], "b_") && c[j].code.Group?
      ensures j < |c| - 1 ==> CodeBelow(c[j], c[j + 1])
    {
      assert EntryWellFormed(c, j);
    }
  }

  /** The prior overrides of `run()` address columns 22, 24 and 44 of the
      symptom-cause table, that is causes 5, 7 and 27 once the 17 leading
      columns are dropped. */
  lemma OverriddenCauses()
    ensures CauseTexts[22 - 17] == "HIV/AIDS related death"
    ensures CauseTexts[24 - 17] == "Malaria"
    ensures CauseTexts[44 - 17] == "Sickle cell with crisis"
  {
  }
}
