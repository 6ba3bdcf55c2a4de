/**
 * The patients page: case-insensitive search over a patient's name and
 * conditions, the selected patient, and that patient's medical records.
 */
module PatientsPage {
  import opened Wrappers
  import opened Seqs
  import opened HealthcareTypes

  /** `toLowerCase` on one character (ASCII letters only). */
  function LowerChar(c: char): char
  {
    if 'A' <= c <= 'Z' then (c as int + 32) as char else c
  }

  function Lower(s: string): (r: string)
    ensures |r| == |s|
    ensures forall i :: 0 <= i < |s| ==> r[i] == LowerChar(s[i])
  {
    seq(|s|, i requires 0 <= i < |s| => LowerChar(s[i]))
  }

  /** `needle` occurs in `hay` starting at index `i`. */
  predicate OccursAt(hay: string, needle: string, i: int)
  {
    0 <= i <= |hay| - |needle| && hay[i..i + |needle|] == needle
  }

  /** `hay.includes(needle)`: `needle` occurs in `hay` at some position. */
  function Includes(hay: string, needle: string): (b: bool)
    ensures b <==> exists i :: OccursAt(hay, needle, i)
    decreases |hay|
  {
    if |needle| > |hay| then false
    else if hay[..|needle|] == needle then
      assert OccursAt(hay, needle, 0);
      true
    else
      var b := Includes(hay[1..], needle);
      forall j | OccursAt(hay[1..], needle, j)
        ensures OccursAt(hay, needle, j + 1)
      {
        assert hay[1..][j..j + |needle|] == hay[j + 1..j + 1 + |needle|];
      }
      forall i | OccursAt(hay, needle, i)
        ensures i >= 1 && OccursAt(hay[1..], needle, i - 1)
      {
        assert hay[1..][i - 1..i - 1 + |needle|] == hay[i..i + |needle|];
      }
      b
  }

  /** The empty string occurs in every string. */
  lemma IncludesEmpty(hay: string)
    ensures Includes(hay, "")
  {
    assert OccursAt(hay, "", 0);
  }

  /** The search text, lower-cased, occurs in the lower-cased name or in some lower-cased condition. */
  function MatchesSearch(p: PatientRecord, search: string): (b: bool)
    ensures b <==> ((exists i :: OccursAt(Lower(p.name), Lower(search), i)) ||
      (exists c, i :: c in p.conditions && OccursAt(Lower(c), Lower(search), i)))
    ensures search == "" ==> b
  {
    var q := Lower(search);
    IncludesEmpty(Lower(p.name));
    Includes(Lower(p.name), q) || exists c :: c in p.conditions && Includes(Lower(c), q)
  }

  /** The patient list after searching. */
  function FilteredPatients(patients: seq<PatientRecord>, search: string): (r: seq<PatientRecord>)
    ensures forall p :: p in r <==> p in patients && MatchesSearch(p, search)
  {
    Filter(patients, p => MatchesSearch(p, search))
  }

  /** Search results keep the list's order and keep every matching patient. */
  lemma FilteredPatientsInOrder(patients: seq<PatientRecord>, search: string)
    ensures SubsequenceOf(FilteredPatients(patients, search), patients)
    ensures forall p ::
      multiset(FilteredPatients(patients, search))[p] == (if MatchesSearch(p, search) then multiset(patients)[p] else 0)
  {
    FilterIsSubsequence(patients, p => MatchesSearch(p, search));
    FilterCounts(patients, p => MatchesSearch(p, search));
  }

  /** An empty search keeps every patient. */
  lemma EmptySearchKeepsAll(patients: seq<PatientRecord>)
    ensures FilteredPatients(patients, "") == patients
  {
    forall i | 0 <= i < |patients|
      ensures MatchesSearch(patients[i], "")
    {
      assert Lower("") == "";
      IncludesEmpty(Lower(patients[i].name));
    }
    FilterKeepsAll(patients, p => MatchesSearch(p, ""));
  }

  /** `patients[j]` is the first patient whose id is `selected`. */
  predicate FirstWithId(patients: seq<PatientRecord>, selected: Option<string>, j: int)
  {
    0 <= j < |patients| && Some(patients[j].id) == selected &&
    forall i :: 0 <= i < j ==> Some(patients[i].id) != selected
  }

  /** A first match past a non-matching head is a first match of the whole list, one place later. */
  lemma FirstWithIdShift(patients: seq<PatientRecord>, selected: Option<string>, j: int)
    requires patients != [] && Some(patients[0].id) != selected
    requires FirstWithId(patients[1..], selected, j)
    ensures FirstWithId(patients, selected, j + 1) && patients[j + 1] == patients[1..][j]
  {
  }

  /** `mockPatients.find(p => p.id === selectedPatientId)`. */
  function SelectedPatient(patients: seq<PatientRecord>, selected: Option<string>): (r: Option<PatientRecord>)
    ensures selected.None? ==> r.None?
    ensures r.None? <==> forall p :: p in patients ==> Some(p.id) != selected
    ensures r.Some? ==> exists j :: FirstWithId(patients, selected, j) && patients[j] == r.value
  {
    if patients == [] then None
    else if Some(patients[0].id) == selected then Some(patients[0])
    else
      var r := SelectedPatient(patients[1..], selected);
      assert patients == [patients[0]] + patients[1..];
      assert r.Some? ==> exists j :: FirstWithId(patients, selected, j) && patients[j] == r.value by {
        if r.Some? {
          var j :| FirstWithId(patients[1..], selected, j) && patients[1..][j] == r.value;
          FirstWithIdShift(patients, selected, j);
        }
      }
      r
  }

  /** The selected patient's records, in list order; none when nobody is selected. */
  function PatientRecords(records: seq<MedicalRecord>, selected: Option<string>): (r: seq<MedicalRecord>)
    ensures selected.None? ==> r == []
    ensures forall x :: x in r <==> x in records && Some(x.patientId) == selected
    ensures SubsequenceOf(r, records)
    ensures forall x :: multiset(r)[x] == (if Some(x.patientId) == selected then multiset(records)[x] else 0)
  {
    FilterIsSubsequence(records, (x: MedicalRecord) => Some(x.patientId) == selected);
    FilterCounts(records, (x: MedicalRecord) => Some(x.patientId) == selected);
    var r := Filter(records, (x: MedicalRecord) => Some(x.patientId) == selected);
    assert selected.None? ==> r == [] by {
      if selected.None? {
        FilterNone(records, (x: MedicalRecord) => Some(x.patientId) == selected);
      }
    }
    r
  }

  /** Whether the detail pane shows "No records found for this patient." */
  predicate ShowsNoRecords(patients: seq<PatientRecord>, records: seq<MedicalRecord>, selected: Option<string>)
  {
    SelectedPatient(patients, selected).Some? && |PatientRecords(records, selected)| == 0
  }

  /** The message shows exactly when a listed patient is selected and no record belongs to it. */
  lemma NoRecordsMessage(patients: seq<PatientRecord>, records: seq<MedicalRecord>, selected: Option<string>)
    ensures ShowsNoRecords(patients, records, selected) <==>
      (exists p :: p in patients && Some(p.id) == selected) &&
      (forall x :: x in records ==> Some(x.patientId) != selected)
  {
    var r := PatientRecords(records, selected);
    if forall x :: x in records ==> Some(x.patientId) != selected {
      FilterNone(records, (x: MedicalRecord) => Some(x.patientId) == selected);
    } else {
      var x :| x in records && Some(x.patientId) == selected;
      assert x in r;
    }
  }
}
