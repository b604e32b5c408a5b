/**
 * The doctors table: the cascading `deleteDoctor` (withdraws rows first, then the doctor
 * row, then the identity provider account) and the sums of `getDoctorStats`.
 */
module Doctors {
  import opened Values
  import opened Tables
  import opened Firebase
  import opened Withdrawals

  /** A row of doctors; `rest` holds the columns these handlers do not read. */
  datatype Doctor = Doctor(
    doctor_id: string,
    avg_rating: Option<real>,
    numb_session: Option<int>,
    numb_patients: Option<int>,
    rest: map<string, FieldValue>)

  datatype DoctorStats = DoctorStats(
    totalDoctors: nat,
    averageRating: real,
    totalSessions: int,
    totalPatients: int)

  const DoctorNotFoundMessage := "Doctor not found"
  const DeleteDoctorErrorMessage := "Error deleting doctor"

  function DoctorId(d: Doctor): string {
    d.doctor_id
  }

  /** `.single()` on `.eq('doctor_id', id)` yields a row: exactly one row has the id. */
  predicate DoctorFound(doctors: seq<Doctor>, id: string) {
    Count(doctors, KeyIs(DoctorId, id)) == 1
  }

  /** The withdraws rows that belong to the doctor `id` (`.eq('doctor_id', id)`). */
  function WithdrawOf(id: string): Withdrawal -> bool {
    (w: Withdrawal) => w.doctor_id == Some(id)
  }

  /** The withdraws table after `.delete().eq('doctor_id', id)`. */
  function WithoutWithdrawsOf(withdraws: seq<Withdrawal>, id: string): (r: seq<Withdrawal>)
    ensures forall i :: 0 <= i < |r| ==> r[i].doctor_id != Some(id)
    ensures forall i :: 0 <= i < |withdraws| && withdraws[i].doctor_id != Some(id) ==> withdraws[i] in r
  {
    Reject(withdraws, WithdrawOf(id))
  }

  /** The doctors table after `.delete().eq('doctor_id', id)`. */
  function WithoutDoctor(doctors: seq<Doctor>, id: string): (r: seq<Doctor>)
    ensures forall i :: 0 <= i < |r| ==> r[i].doctor_id != id
    ensures forall i :: 0 <= i < |doctors| && doctors[i].doctor_id != id ==> doctors[i] in r
    ensures DoctorFound(doctors, id) ==> |r| == |doctors| - 1
  {
    Reject(doctors, KeyIs(DoctorId, id))
  }

  /** Both deletes remove exactly the rows of that doctor; every other row remains. */
  lemma CascadeRemovesOnlyThatDoctor(doctors: seq<Doctor>, withdraws: seq<Withdrawal>, id: string)
    ensures multiset(WithoutDoctor(doctors, id)) + multiset(Filter(doctors, KeyIs(DoctorId, id)))
         == multiset(doctors)
    ensures multiset(WithoutWithdrawsOf(withdraws, id)) + multiset(Filter(withdraws, WithdrawOf(id)))
         == multiset(withdraws)
  {
    RejectAndFilterSplit(doctors, KeyIs(DoctorId, id));
    RejectAndFilterSplit(withdraws, WithdrawOf(id));
  }

  /** A doctor without withdraws leaves the withdraws table as it was. */
  lemma NoWithdrawsNothingCascades(withdraws: seq<Withdrawal>, id: string)
    requires forall i :: 0 <= i < |withdraws| ==> withdraws[i].doctor_id != Some(id)
    ensures WithoutWithdrawsOf(withdraws, id) == withdraws
  {
    CountIsZero(withdraws, WithdrawOf(id));
  }

  function RatingOrZero(d: Doctor): real {
    d.avg_rating.GetOr(0.0)
  }

  function SessionsOrZero(d: Doctor): int {
    OrZero(d.numb_session)
  }

  function PatientsOrZero(d: Doctor): int {
    OrZero(d.numb_patients)
  }

  /**
   * `getDoctorStats`: the number of rows, the sum of the ratings divided by
   * `data.length || 1`, and the sums of sessions and patients, a missing value as 0.
   */
  function GetDoctorStats(rows: seq<Doctor>): (r: DoctorStats)
    ensures r.totalDoctors == |rows|
    ensures |rows| == 0 ==> r == DoctorStats(0, 0.0, 0, 0)
    ensures |rows| > 0 ==> r.averageRating * (|rows| as real) == RealSum(rows, RatingOrZero)
    ensures r.totalSessions == Sum(rows, SessionsOrZero) && r.totalPatients == Sum(rows, PatientsOrZero)
  {
    var divisor := if |rows| == 0 then 1 else |rows|;
    DoctorStats(|rows|, RealSum(rows, RatingOrZero) / (divisor as real),
                Sum(rows, SessionsOrZero), Sum(rows, PatientsOrZero))
  }

  /** With every rating on the scale [0, 5] (or missing), the average is on that scale. */
  lemma AverageRatingOnScale(rows: seq<Doctor>)
    requires forall i :: 0 <= i < |rows| ==> rows[i].avg_rating.None? || 0.0 <= rows[i].avg_rating.value <= 5.0
    ensures 0.0 <= GetDoctorStats(rows).averageRating <= 5.0
  {
    if |rows| > 0 {
      var n := |rows| as real;
      RealSumBounds(rows, RatingOrZero, 0.0, 5.0);
      MeanWithin(RealSum(rows, RatingOrZero), n, 0.0, 5.0);
    }
  }

  /** The doctors and withdraws tables with the delete handler over them. */
  class DoctorStore {
    var doctors: seq<Doctor>
    var withdraws: seq<Withdrawal>

    constructor (doctors: seq<Doctor>, withdraws: seq<Withdrawal>)
      ensures this.doctors == doctors && this.withdraws == withdraws
    {
      this.doctors := doctors;
      this.withdraws := withdraws;
    }

    /**
     * `deleteDoctor(id)`: 404 when the doctor is not found, with nothing changed. Then the
     * doctor's withdraws are deleted; if that fails the answer is 500 and the doctor row
     * stays. Then the doctor row is deleted; if that fails the answer is 500, and the
     * withdraws already deleted stay deleted. On success the answer carries the identity
     * provider's outcome, which does not change the success.
     */
    method DeleteDoctor(id: string, withdrawsDeleteOk: bool, doctorsDeleteOk: bool,
                        firebase: FirebaseAdmin, thrown: Option<AuthError>)
      returns (r: Result<DeleteOutcome>)
      modifies this
      ensures !DoctorFound(old(doctors), id) ==>
                r == Err(NotFound(DoctorNotFoundMessage)) && doctors == old(doctors) && withdraws == old(withdraws)
      ensures DoctorFound(old(doctors), id) && !withdrawsDeleteOk ==>
                r == Err(ServerError(DeleteDoctorErrorMessage)) && doctors == old(doctors) && withdraws == old(withdraws)
      ensures DoctorFound(old(doctors), id) && withdrawsDeleteOk ==>
                withdraws == WithoutWithdrawsOf(old(withdraws), id)
      ensures DoctorFound(old(doctors), id) && withdrawsDeleteOk && !doctorsDeleteOk ==>
                r == Err(ServerError(DeleteDoctorErrorMessage)) && doctors == old(doctors)
      ensures DoctorFound(old(doctors), id) && withdrawsDeleteOk && doctorsDeleteOk ==>
                r == Ok(DeleteUserOutcome(firebase.app, thrown)) && doctors == WithoutDoctor(old(doctors), id)
    {
      if !DoctorFound(doctors, id) {
        return Err(NotFound(DoctorNotFoundMessage));
      }
      if !withdrawsDeleteOk {
        return Err(ServerError(DeleteDoctorErrorMessage));
      }
      withdraws := WithoutWithdrawsOf(withdraws, id);
      if !doctorsDeleteOk {
        return Err(ServerError(DeleteDoctorErrorMessage));
      }
      doctors := WithoutDoctor(doctors, id);
      var outcome := firebase.DeleteUser(id, thrown);
      r := Ok(outcome);
    }
  }
}
