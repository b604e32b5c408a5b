# estaraht_backend core, modelled in Dafny

This project models the decision rules and aggregations inside the request handlers of
the estaraht admin backend, a Node/Express service over a Supabase (PostgreSQL) database
and Firebase Authentication. Every database table is an in-memory sequence of rows, and a
handler is a function or method over those sequences. It answers with `Ok(payload)` or one
failure kind: 400 `BadRequest`, 401 `Unauthorized`, 403 `Forbidden`, 404 `NotFound` or
500 `ServerError`. Each failure carries the handler's message.

What is modelled:

- **Admin login** (`Auth`). The ordered check chain, the `last_login` stamp on success, and
  the account returned without its password.
- **Coupons** (`Coupons`).
  - The ordered checks of coupon validation: used, then expired, then wrong user.
  - The 0–100 percentage check on create and update.
  - The duplicate-code check on create.
  - The one-way `is_used` flip, plus the coupon_usage record, on use.
  - The statistics, which partition coupons into active, used and expired.
- **Bookings** (`Bookings`). The join that attaches each booking's doctor and patient, the
  single-booking lookup, the status whitelist and the statistics.
- **Deletes** (`Doctors`, `Patients`). The existence check, the cascade from a doctor to its
  withdraws rows, and the identity-provider outcome reported next to the success.
- **Per-table statistics**: users, reviews, withdrawals, transactions, subscriptions and
  payment plans, plus the record `createWithdrawal` writes and the transaction view of
  payment_history rows.
- **Firebase helper** (`Firebase`). The app is set at most once. The outcome of
  `deleteFirebaseUser` is classified from the error's code and message.
- **Supabase configuration** (`Supabase`). The missing-credential check, and the rewrite of
  a `postgresql://…db.<ref>.supabase.co…` URL to `https://<ref>.supabase.co`.

Shared pieces:

- `Values`: optional values, JavaScript truthiness, dynamically typed field values and a
  `parseFloat` stand-in.
- `Tables`: the generic `filter`/`reduce`/`Map`/`Set` machinery the handlers use, with
  lemmas about it.
- `Strings`: `startsWith`, `includes` and ASCII `toLowerCase`.

Where a handler changes a table in place, the table is a field of a class and the handler
is a method. Its contract states the whole new state as a function of the old one:
`AdminStore`, `CouponStore`, `BookingStore`, `DoctorStore`, `PatientStore` and
`FirebaseAdmin`.

How the model reads the source:

- **`.single()`.** Exactly one matching row gives that row. No matching row takes the
  handler's explicit not-found branch. Several rows are an error, which each handler
  answers its own way:
  - login answers 401, because of `error || !user`;
  - `getBookingById`, `validateCoupon` and `useCoupon` answer 500;
  - the delete handlers answer 404, because of `fetchError || !row`;
  - `createCoupon` does not look at the error, so its duplicate check rejects only when
    exactly one coupon already has the code. `Coupons.DuplicatesDoNotBlock` states this.
- **Database failures.** The handlers branch on some database failures. These are boolean
  parameters: the withdraws and doctors deletes, the patients delete, the two lookup
  queries of the booking join, and the coupon_usage insert, whose error is ignored.
- **The identity provider.** What `deleteUser` threw is a parameter. What
  `initializeApp` built is a parameter too.
- **Time.** Times are integers (`valid_until` and the current time). "Today" and the
  current ISO timestamp are supplied strings.

## Model

| member | source | states |
|---|---|---|
| Values.OrNull | src/controllers/transactionsController.js:23-25 | `s or null` keeps a truthy string and gives null for null, undefined and '' |
| Values.ParseFloat | src/controllers/withdrawalsController.js:231 | a number parses to itself; null, undefined, booleans and '' are NaN; a run of digits parses to its decimal value and a '-' before it negates it; any other string is NaN |
| Strings.Includes | src/config/firebase.js:62-64 | `includes` holds exactly when the substring occurs at some index |
| Strings.ToLower | src/controllers/patientsController.js:183 | lower-casing keeps the length and maps each character, changing only A–Z |
| Strings.LowerChar | src/controllers/patientsController.js:183 | A–Z maps to the matching lower-case letter (code point + 32); every other character is kept |
| Strings.LowerEqualsWord | src/controllers/patientsController.js:183-184 | a string lower-cases to a lower-case word exactly when it spells that word in any mix of cases |
| Firebase.Initialized | src/config/firebase.js:11-36 | a set app is kept; with no app, a configured path yields exactly the app initialisation built (null when it threw); no path gives null |
| Firebase.InitializeIsIdempotent | src/config/firebase.js:13-15 | once the app is set, every later initialisation returns that same app |
| Firebase.ClassifyDeleteError | src/config/firebase.js:55-73 | success exactly for code auth/user-not-found; credential wording gives the gcloud hint; otherwise the original message |
| Firebase.IsCredentialMessage | src/config/firebase.js:61-64 | a credential failure is a message that includes "default credentials", "OAuth2" or "Could not load" |
| Firebase.DeleteUserOutcome | src/config/firebase.js:42-75 | no app gives 'Firebase not configured'; with an app, a completed delete is the success record and a thrown error is exactly its classification; success exactly when the app is set and the delete succeeded or the user was already gone; never a throw |
| Firebase.UserNotFoundBeforeMessage | src/config/firebase.js:56-58 | the user-not-found code is success whatever the message says, credential wording included |
| Firebase.FirebaseAdmin.constructor | src/config/firebase.js:38-39 | loading the module initialises the unset app once |
| Firebase.FirebaseAdmin.Initialize | src/config/firebase.js:11-36 | the app afterwards is the initialised value of the app before, and that is what is returned |
| Firebase.FirebaseAdmin.DeleteUser | src/config/firebase.js:42-75 | the outcome is the classification for the current app; without an app it is never a success |
| Supabase.RefMatchAtMeaning | src/config/supabase.js:21 | the matcher at one index succeeds with group `ref` exactly when `db.<ref>.supabase.co` with a non-empty, dot-free `ref` sits there |
| Supabase.FindRef | src/config/supabase.js:21 | the pattern is tried from left to right, and a group it returns is non-empty and holds no dot |
| Supabase.FindRefIsLeftmost | src/config/supabase.js:21 | the result is the match at the leftmost index where the pattern matches, and None when it matches nowhere |
| Supabase.ApiUrl | src/config/supabase.js:17-26 | a URL not starting with postgresql:// is used unchanged |
| Supabase.RewritesToProjectUrl | src/config/supabase.js:19-24 | a postgresql:// URL whose leftmost match has group `ref` becomes `https://<ref>.supabase.co` |
| Supabase.KeepsUrlWithoutPattern | src/config/supabase.js:21-26 | a URL in which the pattern matches nowhere is used unchanged |
| Supabase.Configure | src/config/supabase.js:7-28 | missing (falsy) URL or key is the load-time error; otherwise the client gets the rewritten URL and the key |
| Auth.WithoutPassword | src/controllers/authController.js:54 | dropping the password loses nothing else: putting it back gives the stored row |
| Auth.WithoutPasswordDropsOnlyPassword | src/controllers/authController.js:54 | two accounts have the same public record exactly when they differ at most in the password |
| Auth.Authenticate | src/controllers/authController.js:8-45 | 400 when email or password is falsy; success exactly when one admin row has the email and it has the password and is active; a truthy email and password are never 400; 403 only for a matching password on an inactive account; every other failure is the 401 |
| Auth.UnknownEmailIsUnauthorized | src/controllers/authController.js:16-28 | without an admin row for the email (none, or only non-admin roles) the answer is the 401 |
| Auth.WrongPasswordLikeUnknownEmail | src/controllers/authController.js:23-37 | a wrong password gives the same 401 as the table without that account |
| Auth.WrongPasswordIsNeverForbidden | src/controllers/authController.js:32-45 | the password check precedes the status check: a wrong password never yields 403 |
| Auth.InactiveIsForbidden | src/controllers/authController.js:40-45 | the one admin row for the email, with the right password and a status other than active, is answered 403 |
| Auth.StampLastLogin | src/controllers/authController.js:47-51 | only rows with the user's user_id get the new last_login; all other rows are unchanged |
| Auth.AdminStore.Login | src/controllers/authController.js:4-60 | a failure leaves the table unchanged; success stamps last_login for that user only and returns the stored account without its password |
| Users.ActiveInactivePartition | src/controllers/usersController.js:161-163 | every user is in exactly one of active and inactive |
| Users.GetUserStats | src/controllers/usersController.js:160-164 | total is the row count; active is the number of rows with status 'active' and inactive the number of the rest, so they sum to the total; active is the total exactly when every row is active and 0 exactly when none is |
| Reviews.StarBuckets | src/controllers/reviewsController.js:250-256 | the five star buckets never overlap; with every rating in 1..5 they sum to the total |
| Reviews.Average | src/controllers/reviewsController.js:247-249 | 0 for no reviews; otherwise the average times the count is the sum |
| Reviews.AverageWithinScale | src/controllers/reviewsController.js:248 | with ratings on 1..5 the average is on 1..5 |
| Reviews.GetReviewStats | src/controllers/reviewsController.js:244-257 | total is the row count; bucket k is the number of ratings equal to k; the buckets sum to at most the total, and to the total when all ratings are 1..5; the average is 0 for none, sum/count otherwise |
| Reviews.OffScaleRatingInNoBucket | src/controllers/reviewsController.js:244-256 | a rating outside 1..5 adds to the total and to no bucket |
| Withdrawals.NewWithdrawal | src/controllers/withdrawalsController.js:95-117 | the row copies all eight named fields; a falsy payment_date becomes the current time |
| Withdrawals.OtherKeysAreDropped | src/controllers/withdrawalsController.js:95-117 | body keys other than the eight named fields never reach the table |
| Withdrawals.AmountOrZero | src/controllers/withdrawalsController.js:231 | a NaN parse counts as 0, a number as itself |
| Withdrawals.StatusBuckets | src/controllers/withdrawalsController.js:244-246 | success, waiting-or-pending and failed never overlap, so they sum to at most the total |
| Withdrawals.UnparsedAmountAddsNothing | src/controllers/withdrawalsController.js:230-233 | a row whose amount is not a number leaves the total unchanged |
| Withdrawals.GetWithdrawalStats | src/controllers/withdrawalsController.js:228-247 | total is the row count (null data as none); totalAmount and totalActualAmount are the sums of the parsed amounts with NaN as 0; successful, pending (waiting or pending) and failed are the numbers of rows with those statuses, summing to at most the total |
| Withdrawals.TotalAmountNonNegative | src/controllers/withdrawalsController.js:230-233 | with no negative amount the total withdrawn is not negative |
| Transactions.ToTransaction | src/controllers/transactionsController.js:13-26 | type 'payment'; amount, status and created_at renamed from the row; ids and action_type copied; gateway, currency and operation id null exactly when falsy and otherwise copied |
| Transactions.AllTransactions | src/controllers/transactionsController.js:13-26 | one transaction per payment row, same length and order |
| Transactions.StatusBuckets | src/controllers/transactionsController.js:144-146 | success, waiting and failed never overlap, so they sum to at most the total |
| Transactions.GetTransactionStats | src/controllers/transactionsController.js:136-147 | total is the row count; totalAmount is the sum of the amounts with a missing one as 0; successful, pending (only 'waiting') and failed are the numbers of rows with those statuses, summing to at most the total |
| Transactions.PendingWordIsNotCounted | src/controllers/transactionsController.js:145 | a payment row with status 'pending' adds one to the total and leaves every status bucket as it was: only 'waiting' is pending here |
| Transactions.ListAndStatsAgree | src/controllers/transactionsController.js:136-144 | the listed transactions with status success are as many as the statistics report |
| Subscriptions.ActiveExpiredDisjoint | src/controllers/patientPlanSubscriptionsController.js:234-237 | active-or-trialing and expired never overlap |
| Subscriptions.GetSubscriptionStats | src/controllers/patientPlanSubscriptionsController.js:232-237 | total is the row count; active is the number of active-or-trialing rows and expired the number of expired rows, together at most the total; active is 0 exactly when no row is active or trialing |
| PaymentPlans.GetPaymentPlanStats | src/controllers/paymentPlansController.js:160-162 | total is the row count (null data as none); active is the number of rows whose is_active is the boolean true, at most the total, and equal exactly when every row's is; empty gives 0 and 0 |
| PaymentPlans.TruthyNonBooleanIsNotActive | src/controllers/paymentPlansController.js:162 | an is_active that is not a boolean never counts, however truthy |
| Patients.WithoutPatient | src/controllers/patientsController.js:146-149 | no row with the id remains; every row with another id remains; a found patient loses exactly one row |
| Patients.DeleteRemovesOnlyThatPatient | src/controllers/patientsController.js:146-151 | the remaining rows and the rows with the id together are the old table |
| Patients.GenderIgnoresCase | src/controllers/patientsController.js:183-184 | a patient counts as male (female) exactly when the gender spells the word in any case |
| Patients.GenderBuckets | src/controllers/patientsController.js:182-184 | male + female is at most the total |
| Patients.GetPatientStats | src/controllers/patientsController.js:181-185 | total is the row count; male and female are the numbers of rows whose gender spells that word in any case; male + female is at most the total |
| Patients.MissingGenderCountsNowhere | src/controllers/patientsController.js:183-184 | patients without a gender are in neither bucket |
| Patients.PatientStore.DeletePatient | src/controllers/patientsController.js:127-170 | 404 with nothing changed when not found; a failing delete is 500 with nothing changed; otherwise exactly the rows with the id go and the success carries the identity-provider outcome |
| Doctors.WithoutWithdrawsOf | src/controllers/doctorsController.js:146-149 | no withdraws row of the doctor remains; every other row remains |
| Doctors.WithoutDoctor | src/controllers/doctorsController.js:154-157 | no row with the doctor_id remains; every other row remains; a found doctor loses exactly one row |
| Doctors.CascadeRemovesOnlyThatDoctor | src/controllers/doctorsController.js:145-159 | in both tables the remaining rows and the removed rows together are the old table |
| Doctors.NoWithdrawsNothingCascades | src/controllers/doctorsController.js:146-149 | a doctor without withdraws leaves that table as it was |
| Doctors.GetDoctorStats | src/controllers/doctorsController.js:189-194 | total is the row count; 0 average for none; otherwise average times count is the rating sum; sessions and patients are sums with missing as 0 |
| Doctors.AverageRatingOnScale | src/controllers/doctorsController.js:191 | with ratings on [0, 5] the average rating is on [0, 5] |
| Doctors.DoctorStore.DeleteDoctor | src/controllers/doctorsController.js:127-178 | 404 with nothing changed when not found; withdraws go before the doctor; a failing withdraws delete keeps the doctor; a failing doctors delete keeps the withdraws already deleted; success carries the identity-provider outcome |
| Bookings.Fetch | src/controllers/bookingsController.js:14-21 | no ids means no query and no rows; a failed query is no rows |
| Bookings.LookupThroughJoin | src/controllers/bookingsController.js:10-31 | looking an id up in the map of fetched rows finds the last table row with that key, projected; a falsy id or a failed query finds null |
| Bookings.EnrichBookings | src/controllers/bookingsController.js:4-33 | same length and order as the bookings; output i carries booking i; an empty list gives an empty list |
| Bookings.EnrichedRecords | src/controllers/bookingsController.js:24-31 | output i's doctor is the doctors row whose doctor_id is booking i's, and its patient the patients row whose id is booking i's patient_id, else null |
| Bookings.EnrichedDoctorIsThatDoctor | src/controllers/bookingsController.js:24-30 | with unique doctor ids, the doctor attached is the one row with the booking's doctor_id |
| Bookings.GetBookingById | src/controllers/bookingsController.js:64-97 | 404 exactly when no row has the id; 500 exactly when several do; when exactly one row has it, the answer is that row enriched as a one-row list |
| Bookings.ByIdAgreesWithList | src/controllers/bookingsController.js:83-87 | a booking fetched alone is enriched exactly as it is inside any list that holds it |
| Bookings.SetStatus | src/controllers/bookingsController.js:235-239 | only the status of rows with the id changes |
| Bookings.SetStatusIsIdempotent | src/controllers/bookingsController.js:235-239 | setting the same status twice is setting it once |
| Bookings.SetStatusReachesEveryMatch | src/controllers/bookingsController.js:235-239 | every row with the id gets the status, and the set of rows with the id is unchanged |
| Bookings.BookingStore.UpdateStatus | src/controllers/bookingsController.js:223-263 | a status outside pending/confirmed/cancelled/completed is 400 with no write; an unknown id is 404 with no write; otherwise the status update and an updated row with the id |
| Bookings.ValidStatus | src/controllers/bookingsController.js:228 | the status whitelist: pending, confirmed, cancelled and completed |
| Bookings.StatusBuckets | src/controllers/bookingsController.js:304-308 | the four status counts never overlap; with every status one of the four they sum to the total |
| Bookings.GetBookingStats | src/controllers/bookingsController.js:303-311 | total is the row count; each status count is the number of rows with that status; totalRevenue is the sum of total_amount with a missing one as 0; the status counts sum to at most the total, and to the total when all statuses are valid; today's bookings are the rows dated today: 0 exactly when none is, the total exactly when all are |
| Bookings.MissingAmountAddsNothing | src/controllers/bookingsController.js:310 | a booking without total_amount adds nothing to the revenue |
| Coupons.CheckCoupon | src/controllers/couponsController.js:117-145 | valid exactly when unused, valid_until after now and for no user or for this user; used is reported first, then expired, then wrong user |
| Coupons.Redeemable | src/controllers/couponsController.js:118-137 | the validity test: unused, valid_until after now, and no target user or the requesting one |
| Coupons.UsedIsCheckedFirst | src/controllers/couponsController.js:118-123 | a used coupon is rejected as used whatever the time and the user |
| Coupons.ExpiresAtValidUntil | src/controllers/couponsController.js:126-131 | valid_until equal to now counts as expired |
| Coupons.TargetUser | src/controllers/couponsController.js:134-139 | a coupon with no for_user accepts every user; a targeted one accepts exactly its user |
| Coupons.ValidateCoupon | src/controllers/couponsController.js:97-154 | 404 exactly when no coupon has the code; 500 exactly when several do; a valid answer is a coupon of the table with the code that is redeemable |
| Coupons.ValidIffRedeemable | src/controllers/couponsController.js:117-145 | with one coupon holding the code, valid exactly when that coupon is redeemable by the user now |
| Coupons.PercentageCases | src/controllers/couponsController.js:162-170 | a number passes exactly on [0, 100]; booleans and non-numeric text fail; digit text passes exactly up to 100 |
| Coupons.ValidPercentage | src/controllers/couponsController.js:162-170 | null, undefined and '' skip the check; any other value must parse to a number in [0, 100] |
| Coupons.TakenIffPresent | src/controllers/couponsController.js:173-184 | while codes are unique the duplicate check fires exactly when some coupon has the code |
| Coupons.DuplicatesDoNotBlock | src/controllers/couponsController.js:173-184 | a code already held by two coupons does not block a create |
| Coupons.AppendKeepsCodesUnique | src/controllers/couponsController.js:186-189 | appending a coupon whose code is free keeps codes unique |
| Coupons.CreateRejection | src/controllers/couponsController.js:161-184 | the percentage message exactly for an invalid value; no rejection exactly for a valid value and a code not taken; nothing else |
| Coupons.CreateKeepsCodesUnique | src/controllers/couponsController.js:173-196 | an accepted create keeps codes unique |
| Coupons.Patched | src/controllers/couponsController.js:225-229 | an absent coupon_value keeps the column; a present one replaces it; id, code, is_used, valid_until and for_user are untouched |
| Coupons.ApplyPatch | src/controllers/couponsController.js:225-229 | only rows with the id are patched |
| Coupons.PatchKeepsPercentagesValid | src/controllers/couponsController.js:215-223 | a patch that passes the check keeps every coupon_value of the table valid |
| Coupons.CheckUse | src/controllers/couponsController.js:288-308 | 404 exactly when no coupon has the id; 500 exactly when several do; with exactly one, it is success with that coupon when unused and the 'already used' 400 when used |
| Coupons.MarkUsed | src/controllers/couponsController.js:311-315 | only rows with the id change, and only is_used, to true |
| Coupons.MarkUsedIsOneWay | src/controllers/couponsController.js:311-315 | a used coupon stays used, and unique codes stay unique |
| Coupons.SecondUseRejected | src/controllers/couponsController.js:303-315 | after a successful use, using the coupon again is rejected as already used |
| Coupons.CouponPartition | src/controllers/couponsController.js:352-358 | every coupon is in exactly one of active, used and expired |
| Coupons.GetCouponStats | src/controllers/couponsController.js:351-365 | total is the row count; active, used and expired are the numbers of coupons unused and unexpired, used, and unused but expired; together they make the total |
| Coupons.LaterExpiresMore | src/controllers/couponsController.js:352-358 | later times keep the used count and never raise the active count |
| Coupons.CouponStore.Create | src/controllers/couponsController.js:157-206 | a rejected create changes nothing; an accepted one appends exactly the one row; unique codes stay unique; usage untouched |
| Coupons.CouponStore.Update | src/controllers/couponsController.js:209-253 | invalid value is 400 with no write; unknown id is 404 with no write; otherwise the rows with the id are patched |
| Coupons.CouponStore.Use | src/controllers/couponsController.js:282-340 | a rejected use changes nothing; otherwise is_used becomes true on that id only and exactly one usage record {id, userId} is appended when its insert succeeds; the one unused coupon with the id is always accepted and a used one always rejected with the table unchanged |

## Left out

- Database and identity-provider clients. The Supabase query builders and the Firebase
  Admin SDK are not modelled: tables are sequences, and the outcome of a call is a
  parameter.
- `.single()` applied to a missing row. The explicit not-found branches are modelled as
  written. Whether the library reports a missing row as an error (and so a 500) is library
  behaviour not visible in the source.
- Database failures the handlers do not branch on, such as a failing insert or update
  answered 500 by the `catch` block. These are not modelled. A failing existence read in
  the delete handlers is answered 404 like a missing row, and that case is not a separate
  parameter either.
- Auth.AdminStore.Login: the `last_login` update's own error is ignored by the handler, and
  the model always applies the write.
- The CRUD pass-through handlers (get all, get by id, create and update) of doctors,
  patients, reviews, withdrawals, transactions, subscriptions and payment plans. They hold
  no decision logic.
- src/controllers/availabilitiesController.js: pass-through CRUD with no logic of its own.
- HTTP plumbing. The Express routes, `server.js`, the JSON envelope and the status-code
  plumbing are not modelled. Only the result kind and the payload are.
- Concurrency. The two lookups that `enrichBookings` runs with `Promise.all` are modelled
  in sequence. The check-then-update race in `useCoupon` is not modelled.
- Dates. `new Date` parsing (including `new Date(null)`) and ISO formatting are not
  modelled. `valid_until` and now are integers, and "today" and the current timestamp are
  supplied strings.
- Values.ParseFloat: reads only an optionally negated run of decimal digits. JavaScript
  reads other strings as numbers too ("12.5", " 7", "1e2", "5%"); here they are NaN. This
  affects the coupon percentage check and the withdrawal totals.
- Reviews.GetReviewStats: ratings are the integers `parseInt` produced. A NaN rating is
  not modelled, the average is an exact real, and the `toFixed(2)` string formatting is
  not modelled.
- Floating-point accumulation in every sum is not modelled. Sums are exact integers or
  reals.
- Doctors.GetDoctorStats: takes the fetched rows. A null `data`, which the source would
  turn into NaN or undefined fields, is not modelled.
- Strings.ToLower: ASCII case mapping only. Unicode case mapping is not modelled.
- Strings.LowerChar: the same restriction. Only A–Z are mapped; no other letter changes.
- Coupons.Patched: `updateCoupon` writes its body as it is. Only `coupon_value` is a typed
  column here; other keys go to the untyped columns. An update of coupon_code, is_used,
  valid_until or for_user is not modelled.
- Environment and logging. Loading `.env`, the service-account file, console output and
  storing passwords in plaintext are not modelled (only the password equality is).
- Password reset: `requestPasswordReset` and `resetPassword` are imported by the auth
  routes, but src/controllers/authController.js does not define them. That code is not part
  of this model.
