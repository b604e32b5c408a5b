/**
 * The patients table: `deletePatient` (existence check, delete, then the identity
 * provider account) and the gender counts of `getPatientStats`.
 */
module Patients {
  import opened Values
  import opened Tables
  import opened Strings
  import opened Firebase

  /** A row of patients; `rest` holds the columns these handlers do not read. */
  datatype Patient = Patient(id: string, gender: Option<string>, rest: map<string, FieldValue>)

  datatype PatientStats = PatientStats(totalPatients: nat, maleCount: nat, femaleCount: nat)

  const PatientNotFoundMessage := "Patient not found"
  const DeletePatientErrorMessage := "Error deleting patient"

  function PatientId(p: Patient): string {
    p.id
  }

  /**
   * `.select('id').eq('id', id).single()` yields a row: exactly one row has the id. Zero
   * rows, or several, make `.single()` report an error, which the handler answers as 404.
   */
  predicate PatientFound(patients: seq<Patient>, id: string) {
    Count(patients, KeyIs(PatientId, id)) == 1
  }

  /** The patients table after `.delete().eq('id', id)`. */
  function WithoutPatient(patients: seq<Patient>, id: string): (r: seq<Patient>)
    ensures forall i :: 0 <= i < |r| ==> r[i].id != id
    ensures forall i :: 0 <= i < |patients| && patients[i].id != id ==> patients[i] in r
    ensures PatientFound(patients, id) ==> |r| == |patients| - 1
  {
    Reject(patients, KeyIs(PatientId, id))
  }

  /** The delete removes the rows with the id and nothing else. */
  lemma DeleteRemovesOnlyThatPatient(patients: seq<Patient>, id: string)
    ensures multiset(WithoutPatient(patients, id)) + multiset(Filter(patients, KeyIs(PatientId, id)))
         == multiset(patients)
  {
    RejectAndFilterSplit(patients, KeyIs(PatientId, id));
  }

  /** `p.gender?.toLowerCase() === word`: a missing gender matches nothing. */
  function GenderIs(word: string): Patient -> bool {
    (p: Patient) => p.gender.Some? && ToLower(p.gender.value) == word
  }

  /** 'male' matches any capitalisation of the word and only that. */
  lemma GenderIgnoresCase(p: Patient, word: string)
    requires word == "male" || word == "female"
    ensures GenderIs(word)(p) <==>
              p.gender.Some? && |p.gender.value| == |word| &&
              forall i :: 0 <= i < |word| ==> SameLetterIgnoringCase(p.gender.value[i], word[i])
  {
    if p.gender.Some? {
      LowerEqualsWord(p.gender.value, word);
    }
  }

  /** The two gender buckets never count one patient twice. */
  lemma GenderBuckets(rows: seq<Patient>)
    ensures Count(rows, GenderIs("male")) + Count(rows, GenderIs("female")) <= |rows|
  {
    var ps := [GenderIs("male"), GenderIs("female")];
    Buckets(rows, ps);
    assert ps[..1] == [GenderIs("male")];
  }

  function GetPatientStats(data: Option<seq<Patient>>): (r: PatientStats)
    ensures r.totalPatients == |OrEmpty(data)|
    ensures r.maleCount == Count(OrEmpty(data), GenderIs("male"))
    ensures r.femaleCount == Count(OrEmpty(data), GenderIs("female"))
    ensures r.maleCount + r.femaleCount <= r.totalPatients
    ensures data.None? ==> r == PatientStats(0, 0, 0)
  {
    var rows := OrEmpty(data);
    GenderBuckets(rows);
    PatientStats(|rows|, Count(rows, GenderIs("male")), Count(rows, GenderIs("female")))
  }

  /** Patients without a recorded gender are in neither bucket. */
  lemma MissingGenderCountsNowhere(rows: seq<Patient>)
    requires forall i :: 0 <= i < |rows| ==> rows[i].gender.None?
    ensures GetPatientStats(Some(rows)) == PatientStats(|rows|, 0, 0)
  {
    CountIsZero(rows, GenderIs("male"));
    CountIsZero(rows, GenderIs("female"));
  }

  /** The patients table with the delete handler over it. */
  class PatientStore {
    var patients: seq<Patient>

    constructor (patients: seq<Patient>)
      ensures this.patients == patients
    {
      this.patients := patients;
    }

    /**
     * `deletePatient(id)`: 404 when the patient is not found; a failing delete (`deleteOk`
     * false) is answered 500 with the table unchanged; otherwise the rows with the id are
     * removed and the answer is a success carrying the identity provider's outcome, whatever
     * that outcome is.
     */
    method DeletePatient(id: string, deleteOk: bool, firebase: FirebaseAdmin, thrown: Option<AuthError>)
      returns (r: Result<DeleteOutcome>)
      modifies this
      ensures !PatientFound(old(patients), id) ==>
                r == Err(NotFound(PatientNotFoundMessage)) && patients == old(patients)
      ensures PatientFound(old(patients), id) && !deleteOk ==>
                r == Err(ServerError(DeletePatientErrorMessage)) && patients == old(patients)
      ensures PatientFound(old(patients), id) && deleteOk ==>
                r == Ok(DeleteUserOutcome(firebase.app, thrown)) && patients == WithoutPatient(old(patients), id)
    {
      if !PatientFound(patients, id) {
        return Err(NotFound(PatientNotFoundMessage));
      }
      if !deleteOk {
        return Err(ServerError(DeletePatientErrorMessage));
      }
      patients := WithoutPatient(patients, id);
      var outcome := firebase.DeleteUser(id, thrown);
      r := Ok(outcome);
    }
  }
}
