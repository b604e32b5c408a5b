/**
 * The bookings table: the doctor / patient join of `enrichBookings` (used by the list
 * handlers and by `getBookingById`), the status whitelist of `updateBookingStatus` and
 * the counts and sums of `getBookingStats`.
 */
module Bookings {
  import opened Values
  import opened Tables
  import opened Doctors
  import opened Patients

  /** A row of bookings; `rest` holds the columns these handlers only pass through. */
  datatype Booking = Booking(
    id: string,
    doctor_id: Option<string>,
    patient_id: Option<string>,
    status: Option<string>,
    booking_date: Option<string>,
    total_amount: Option<int>,
    rest: map<string, FieldValue>)

  /** `doctor_id, full_name, email, specialization, profile_img_url` of a doctors row. */
  datatype DoctorCard = DoctorCard(
    doctor_id: string,
    full_name: FieldValue,
    email: FieldValue,
    specialization: FieldValue,
    profile_img_url: FieldValue)

  /** `id, name, email, phone, profile_img_url` of a patients row. */
  datatype PatientCard = PatientCard(
    id: string,
    name: FieldValue,
    email: FieldValue,
    phone: FieldValue,
    profile_img_url: FieldValue)

  /** `{ ...booking, doctor, patient }`: the booking with its two looked-up records (None for null). */
  datatype EnrichedBooking = EnrichedBooking(booking: Booking, doctor: Option<DoctorCard>, patient: Option<PatientCard>)

  datatype BookingStats = BookingStats(
    totalBookings: nat,
    pendingBookings: nat,
    confirmedBookings: nat,
    cancelledBookings: nat,
    completedBookings: nat,
    todayBookings: nat,
    totalRevenue: int)

  const BookingNotFoundMessage := "Booking not found"
  const FetchBookingErrorMessage := "Error fetching booking"
  const InvalidStatusMessage := "Invalid status. Must be: pending, confirmed, cancelled, or completed"

  /** A selected column of a row; a column the row does not hold reads as null. */
  function Column(rest: map<string, FieldValue>, name: string): FieldValue {
    if name in rest then rest[name] else Null
  }

  function ToDoctorCard(d: Doctor): DoctorCard {
    DoctorCard(d.doctor_id, Column(d.rest, "full_name"), Column(d.rest, "email"),
               Column(d.rest, "specialization"), Column(d.rest, "profile_img_url"))
  }

  function ToPatientCard(p: Patient): PatientCard {
    PatientCard(p.id, Column(p.rest, "name"), Column(p.rest, "email"),
                Column(p.rest, "phone"), Column(p.rest, "profile_img_url"))
  }

  function CardDoctorId(c: DoctorCard): string {
    c.doctor_id
  }

  function CardPatientId(c: PatientCard): string {
    c.id
  }

  function BookingId(b: Booking): string {
    b.id
  }

  function BookingDoctor(b: Booking): Option<string> {
    b.doctor_id
  }

  function BookingPatient(b: Booking): Option<string> {
    b.patient_id
  }

  // ---------------------------------------------------------------------------
  // The join
  // ---------------------------------------------------------------------------

  /**
   * The rows one lookup query returns: none when there is no id to ask for (no query is
   * issued) or when the query failed (`res.data || []`); otherwise the rows whose key is
   * among the ids, projected to the selected columns.
   */
  function Fetch<R, C>(table: seq<R>, key: R -> string, ids: seq<string>, proj: R -> C, readOk: bool): (rows: seq<C>)
    ensures |ids| == 0 || !readOk ==> rows == []
  {
    if |ids| == 0 || !readOk then [] else SelectIn(table, key, ids, proj)
  }

  /** `map.get(id)` for an id that may be null or undefined. */
  function Lookup<C>(m: map<string, C>, id: Option<string>): Option<C> {
    match id
    case None => None
    case Some(k) => Get(m, k)
  }

  /** The lookup of one record in the join, by `id`, in terms of the whole table. */
  function Joined<R, C>(table: seq<R>, key: R -> string, proj: R -> C, readOk: bool, id: Option<string>): Option<C> {
    if !readOk || !Truthy(id) then None
    else
      match LastMatch(table, key, id.value)
      case None => None
      case Some(row) => Some(proj(row))
  }

  /**
   * Looking an id of the bookings up in the map built from the fetched rows finds the
   * (last) table row with that key, projected; a falsy id, or a failed query, finds null.
   */
  lemma {:induction false} LookupThroughJoin<R, C>(table: seq<R>, key: R -> string, proj: R -> C, ckey: C -> string,
                                                   ids: seq<Option<string>>, readOk: bool, id: Option<string>)
    requires forall r :: ckey(proj(r)) == key(r)
    requires id in ids
    ensures Lookup(IndexBy(Fetch(table, key, DistinctTruthy(ids), proj, readOk), ckey), id)
         == Joined(table, key, proj, readOk, id)
  {
    var wanted := DistinctTruthy(ids);
    var fetched := Fetch(table, key, wanted, proj, readOk);
    var m := IndexBy(fetched, ckey);
    if id.Some? {
      var k := id.value;
      if !readOk {
        assert m == map[];
      } else if k == "" {
        assert k !in wanted;
        if |wanted| > 0 {
          SelectInKeys(table, key, wanted, proj, ckey);
        }
        assert LastMatch(fetched, ckey, k).None?;
      } else {
        assert k in wanted;
        SelectInMatch(table, key, wanted, proj, ckey, k);
      }
    }
  }

  /** One booking with the records found in the two maps. */
  function EnrichWith(doctors: map<string, DoctorCard>, patients: map<string, PatientCard>): Booking -> EnrichedBooking {
    (b: Booking) => EnrichedBooking(b, Lookup(doctors, b.doctor_id), Lookup(patients, b.patient_id))
  }

  /** The distinct truthy ids of one column of the bookings. */
  function DoctorIds(bookings: seq<Booking>): seq<string> {
    DistinctTruthy(MapRows(bookings, BookingDoctor))
  }

  function PatientIds(bookings: seq<Booking>): seq<string> {
    DistinctTruthy(MapRows(bookings, BookingPatient))
  }

  /**
   * `enrichBookings(bookings)` over the doctors and patients tables; `doctorsReadOk` and
   * `patientsReadOk` say whether each lookup query succeeded.
   */
  function EnrichBookings(bookings: seq<Booking>, doctors: seq<Doctor>, patients: seq<Patient>,
                          doctorsReadOk: bool, patientsReadOk: bool): (r: seq<EnrichedBooking>)
    ensures |r| == |bookings|
    ensures forall i :: 0 <= i < |r| ==> r[i].booking == bookings[i]
  {
    if |bookings| == 0 then []
    else
      var doctorMap := IndexBy(Fetch(doctors, DoctorId, DoctorIds(bookings), ToDoctorCard, doctorsReadOk), CardDoctorId);
      var patientMap := IndexBy(Fetch(patients, PatientId, PatientIds(bookings), ToPatientCard, patientsReadOk), CardPatientId);
      MapRows(bookings, EnrichWith(doctorMap, patientMap))
  }

  /**
   * Output `i` is booking `i` with the doctor whose `doctor_id` is the booking's and the
   * patient whose `id` is the booking's `patient_id`, or null where there is none.
   */
  lemma EnrichedRecords(bookings: seq<Booking>, doctors: seq<Doctor>, patients: seq<Patient>,
                        doctorsReadOk: bool, patientsReadOk: bool, i: int)
    requires 0 <= i < |bookings|
    ensures var e := EnrichBookings(bookings, doctors, patients, doctorsReadOk, patientsReadOk)[i];
            e.doctor == Joined(doctors, DoctorId, ToDoctorCard, doctorsReadOk, bookings[i].doctor_id) &&
            e.patient == Joined(patients, PatientId, ToPatientCard, patientsReadOk, bookings[i].patient_id)
  {
    var doctorIds := MapRows(bookings, BookingDoctor);
    var patientIds := MapRows(bookings, BookingPatient);
    assert doctorIds[i] == bookings[i].doctor_id;
    assert patientIds[i] == bookings[i].patient_id;
    LookupThroughJoin(doctors, DoctorId, ToDoctorCard, CardDoctorId, doctorIds, doctorsReadOk, bookings[i].doctor_id);
    LookupThroughJoin(patients, PatientId, ToPatientCard, CardPatientId, patientIds, patientsReadOk, bookings[i].patient_id);
  }

  /** With unique doctor ids, the doctor attached is the one row with the booking's id. */
  lemma EnrichedDoctorIsThatDoctor(bookings: seq<Booking>, doctors: seq<Doctor>, patients: seq<Patient>,
                                   patientsReadOk: bool, i: int, j: int)
    requires 0 <= i < |bookings| && 0 <= j < |doctors|
    requires forall a, b :: 0 <= a < b < |doctors| ==> doctors[a].doctor_id != doctors[b].doctor_id
    requires bookings[i].doctor_id == Some(doctors[j].doctor_id) && doctors[j].doctor_id != ""
    ensures EnrichBookings(bookings, doctors, patients, true, patientsReadOk)[i].doctor == Some(ToDoctorCard(doctors[j]))
  {
    EnrichedRecords(bookings, doctors, patients, true, patientsReadOk, i);
    UniqueKeyMatch(doctors, DoctorId, j);
  }

  /** When one booking has the id, `.eq('id', id).single()` yields that booking. */
  lemma OnlyBookingWithId(bookings: seq<Booking>, id: string)
    requires Count(bookings, KeyIs(BookingId, id)) == 1
    ensures forall i :: 0 <= i < |bookings| && bookings[i].id == id ==> Filter(bookings, KeyIs(BookingId, id)) == [bookings[i]]
  {
    forall i | 0 <= i < |bookings| && bookings[i].id == id ensures Filter(bookings, KeyIs(BookingId, id)) == [bookings[i]] {
      assert BookingId(bookings[i]) == id;
      FilterOne(bookings, KeyIs(BookingId, id), i);
    }
  }

  /** `getBookingById(id)`: 404 with no row, an error (500) with several, else the enriched row. */
  function GetBookingById(bookings: seq<Booking>, id: string, doctors: seq<Doctor>, patients: seq<Patient>,
                          doctorsReadOk: bool, patientsReadOk: bool): (r: Result<EnrichedBooking>)
    ensures Count(bookings, KeyIs(BookingId, id)) == 0 <==> r == Err(NotFound(BookingNotFoundMessage))
    ensures Count(bookings, KeyIs(BookingId, id)) > 1 <==> r == Err(ServerError(FetchBookingErrorMessage))
    ensures r.Ok? ==> r.value.booking in bookings && r.value.booking.id == id
    ensures forall i :: 0 <= i < |bookings| && bookings[i].id == id && Count(bookings, KeyIs(BookingId, id)) == 1 ==>
              r == Ok(EnrichBookings([bookings[i]], doctors, patients, doctorsReadOk, patientsReadOk)[0])
  {
    var found := Filter(bookings, KeyIs(BookingId, id));
    if |found| == 0 then Err(NotFound(BookingNotFoundMessage))
    else if |found| > 1 then Err(ServerError(FetchBookingErrorMessage))
    else
      var b := found[0];
      assert KeyIs(BookingId, id)(b);
      OnlyBookingWithId(bookings, id);
      assert BookingId(b) == id;
      var e := EnrichBookings([b], doctors, patients, doctorsReadOk, patientsReadOk);
      assert e[0].booking == [b][0];
      Ok(e[0])
  }

  /** A booking fetched alone is enriched exactly as it is inside any list that holds it. */
  lemma ByIdAgreesWithList(bookings: seq<Booking>, id: string, doctors: seq<Doctor>, patients: seq<Patient>,
                           doctorsReadOk: bool, patientsReadOk: bool, list: seq<Booking>, i: int)
    requires GetBookingById(bookings, id, doctors, patients, doctorsReadOk, patientsReadOk).Ok?
    requires 0 <= i < |list| && list[i] == GetBookingById(bookings, id, doctors, patients, doctorsReadOk, patientsReadOk).value.booking
    ensures GetBookingById(bookings, id, doctors, patients, doctorsReadOk, patientsReadOk)
         == Ok(EnrichBookings(list, doctors, patients, doctorsReadOk, patientsReadOk)[i])
  {
    var found := Filter(bookings, KeyIs(BookingId, id));
    EnrichedRecords([found[0]], doctors, patients, doctorsReadOk, patientsReadOk, 0);
    EnrichedRecords(list, doctors, patients, doctorsReadOk, patientsReadOk, i);
  }

  // ---------------------------------------------------------------------------
  // Status update
  // ---------------------------------------------------------------------------

  /** The four statuses `updateBookingStatus` accepts. */
  predicate ValidStatus(status: Option<string>) {
    status == Some("pending") || status == Some("confirmed") ||
    status == Some("cancelled") || status == Some("completed")
  }

  /** `.update({ status })` applied to one row filtered by `.eq('id', id)`. */
  function StatusUpdate(id: string, status: string): Booking -> Booking {
    (b: Booking) => if b.id == id then b.(status := Some(status)) else b
  }

  /** The bookings table after `.update({ status }).eq('id', id)`. */
  function SetStatus(bookings: seq<Booking>, id: string, status: string): (r: seq<Booking>)
    ensures |r| == |bookings|
    ensures forall i :: 0 <= i < |bookings| ==>
              r[i] == if bookings[i].id == id then bookings[i].(status := Some(status)) else bookings[i]
  {
    MapRows(bookings, StatusUpdate(id, status))
  }

  /** Setting the same status twice is setting it once. */
  lemma SetStatusIsIdempotent(bookings: seq<Booking>, id: string, status: string)
    ensures SetStatus(SetStatus(bookings, id, status), id, status) == SetStatus(bookings, id, status)
  {
  }

  lemma StatusUpdateKeepsId(b: Booking, id: string, status: string)
    ensures KeyIs(BookingId, id)(StatusUpdate(id, status)(b)) == KeyIs(BookingId, id)(b)
  {
    assert BookingId(StatusUpdate(id, status)(b)) == BookingId(b);
  }

  /** After the update every booking with that id has the new status; no other row changed. */
  lemma SetStatusReachesEveryMatch(bookings: seq<Booking>, id: string, status: string)
    ensures Count(SetStatus(bookings, id, status), KeyIs(BookingId, id)) == Count(bookings, KeyIs(BookingId, id))
    ensures forall i :: 0 <= i < |bookings| && bookings[i].id == id ==> SetStatus(bookings, id, status)[i].status == Some(status)
  {
    var f, p := StatusUpdate(id, status), KeyIs(BookingId, id);
    forall i | 0 <= i < |bookings| ensures p(f(bookings[i])) == p(bookings[i]) {
      StatusUpdateKeepsId(bookings[i], id, status);
    }
    CountMapRows(bookings, f, p, p);
  }

  /** The bookings table with the handlers that change it. */
  class BookingStore {
    var bookings: seq<Booking>

    constructor (bookings: seq<Booking>)
      ensures this.bookings == bookings
    {
      this.bookings := bookings;
    }

    /**
     * `updateBookingStatus(id, status)`: 400 for a status outside the whitelist, before any
     * table access; 404 when no row has the id; otherwise every row with the id gets the
     * status and the first updated row is returned.
     */
    method UpdateStatus(id: string, status: Option<string>) returns (r: Result<Booking>)
      modifies this
      ensures !ValidStatus(status) ==> r == Err(BadRequest(InvalidStatusMessage)) && bookings == old(bookings)
      ensures ValidStatus(status) && Count(old(bookings), KeyIs(BookingId, id)) == 0 ==>
                r == Err(NotFound(BookingNotFoundMessage)) && bookings == old(bookings)
      ensures ValidStatus(status) && Count(old(bookings), KeyIs(BookingId, id)) > 0 ==>
                bookings == SetStatus(old(bookings), id, status.value) &&
                r.Ok? && r.value in bookings && r.value.id == id && r.value.status == status
    {
      if !ValidStatus(status) {
        return Err(BadRequest(InvalidStatusMessage));
      }
      var updated := Filter(bookings, KeyIs(BookingId, id));
      if |updated| == 0 {
        return Err(NotFound(BookingNotFoundMessage));
      }
      var old_bookings := bookings;
      bookings := SetStatus(bookings, id, status.value);
      var first := updated[0];
      assert first in old_bookings;
      var k :| 0 <= k < |old_bookings| && old_bookings[k] == first;
      assert bookings[k] == first.(status := status);
      r := Ok(first.(status := status));
    }
  }

  // ---------------------------------------------------------------------------
  // Statistics
  // ---------------------------------------------------------------------------

  function StatusIs(status: string): Booking -> bool {
    (b: Booking) => b.status == Some(status)
  }

  /** `b.booking_date === today`. */
  function BookedOn(today: string): Booking -> bool {
    (b: Booking) => b.booking_date == Some(today)
  }

  function AmountOrZero(b: Booking): int {
    OrZero(b.total_amount)
  }

  /** With every status one of the four, each booking falls in some status bucket. */
  lemma StatusFiltersCover(rows: seq<Booking>, ps: seq<Booking -> bool>)
    requires ps == [StatusIs("pending"), StatusIs("confirmed"), StatusIs("cancelled"), StatusIs("completed")]
    requires forall i :: 0 <= i < |rows| ==> ValidStatus(rows[i].status)
    ensures Covered(rows, ps)
  {
    forall i | 0 <= i < |rows| ensures InSomeBucket(rows[i], ps) {
      if rows[i].status == Some("pending") { assert ps[0](rows[i]); }
      else if rows[i].status == Some("confirmed") { assert ps[1](rows[i]); }
      else if rows[i].status == Some("cancelled") { assert ps[2](rows[i]); }
      else { assert ps[3](rows[i]); }
    }
  }

  /** The four status buckets never count a booking twice; with every status one of the four, they count each once. */
  lemma StatusBuckets(rows: seq<Booking>)
    ensures var n := Count(rows, StatusIs("pending")) + Count(rows, StatusIs("confirmed")) +
                     Count(rows, StatusIs("cancelled")) + Count(rows, StatusIs("completed"));
            n <= |rows| && ((forall i :: 0 <= i < |rows| ==> ValidStatus(rows[i].status)) ==> n == |rows|)
  {
    var ps := [StatusIs("pending"), StatusIs("confirmed"), StatusIs("cancelled"), StatusIs("completed")];
    Buckets(rows, ps);
    CountEachOfFour(rows, StatusIs("pending"), StatusIs("confirmed"), StatusIs("cancelled"), StatusIs("completed"));
    if forall i :: 0 <= i < |rows| ==> ValidStatus(rows[i].status) {
      StatusFiltersCover(rows, ps);
    }
  }

  /** `getBookingStats`, with `today` the date part of the current time. */
  function GetBookingStats(data: Option<seq<Booking>>, today: string): (r: BookingStats)
    ensures r.totalBookings == |OrEmpty(data)|
    ensures r.pendingBookings == Count(OrEmpty(data), StatusIs("pending"))
    ensures r.confirmedBookings == Count(OrEmpty(data), StatusIs("confirmed"))
    ensures r.cancelledBookings == Count(OrEmpty(data), StatusIs("cancelled"))
    ensures r.completedBookings == Count(OrEmpty(data), StatusIs("completed"))
    ensures r.totalRevenue == Sum(OrEmpty(data), AmountOrZero)
    ensures r.pendingBookings + r.confirmedBookings + r.cancelledBookings + r.completedBookings <= r.totalBookings
    ensures (forall i :: 0 <= i < |OrEmpty(data)| ==> ValidStatus(OrEmpty(data)[i].status)) ==>
              r.pendingBookings + r.confirmedBookings + r.cancelledBookings + r.completedBookings == r.totalBookings
    ensures r.todayBookings == Count(OrEmpty(data), BookedOn(today)) <= r.totalBookings
    ensures r.todayBookings == 0 <==> forall i :: 0 <= i < |OrEmpty(data)| ==> OrEmpty(data)[i].booking_date != Some(today)
    ensures r.todayBookings == r.totalBookings <==> forall i :: 0 <= i < |OrEmpty(data)| ==> OrEmpty(data)[i].booking_date == Some(today)
    ensures data.None? ==> r == BookingStats(0, 0, 0, 0, 0, 0, 0)
  {
    var rows := OrEmpty(data);
    StatusBuckets(rows);
    CountIsZero(rows, BookedOn(today));
    CountIsTotal(rows, BookedOn(today));
    BookingStats(|rows|, Count(rows, StatusIs("pending")), Count(rows, StatusIs("confirmed")),
                 Count(rows, StatusIs("cancelled")), Count(rows, StatusIs("completed")),
                 Count(rows, BookedOn(today)), Sum(rows, AmountOrZero))
  }

  /** Bookings without an amount add nothing to the revenue. */
  lemma MissingAmountAddsNothing(rows: seq<Booking>, b: Booking, today: string)
    requires b.total_amount.None?
    ensures GetBookingStats(Some(rows + [b]), today).totalRevenue == GetBookingStats(Some(rows), today).totalRevenue
  {
    assert (rows + [b])[..|rows|] == rows;
  }
}
