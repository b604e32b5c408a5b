/**
 * The coupon and coupon_usage tables: the ordered checks of `validateCoupon`, the
 * percentage check of `createCoupon` and `updateCoupon`, the duplicate-code check of
 * `createCoupon`, the one-way `is_used` flip of `useCoupon` and the partition of
 * `getCouponStats`. Times are integers (`valid_until` and the current time).
 */
module Coupons {
  import opened Values
  import opened Tables

  /** A row of coupon; `rest` holds the columns these handlers do not read. */
  datatype Coupon = Coupon(
    id: string,
    coupon_code: Option<string>,
    coupon_value: FieldValue,
    is_used: bool,
    valid_until: int,
    for_user: Option<string>,
    rest: map<string, FieldValue>)

  /** A row of coupon_usage. */
  datatype CouponUsage = CouponUsage(coupon_id: string, user_id: Option<string>)

  /**
   * An `updateCoupon` body: `coupon_value` (Undefined when the key is absent) and the
   * other keys, which are written to the columns this model keeps in `rest`.
   */
  datatype CouponPatch = CouponPatch(coupon_value: FieldValue, other: map<string, FieldValue>)

  datatype CouponStats = CouponStats(totalCoupons: nat, activeCoupons: nat, usedCoupons: nat, expiredCoupons: nat)

  const CouponNotFoundMessage := "Coupon not found"
  const AlreadyUsedMessage := "Coupon has already been used"
  const ExpiredMessage := "Coupon has expired"
  const WrongUserMessage := "This coupon is not valid for this user"
  const PercentageMessage := "Coupon value must be a percentage between 0 and 100"
  const DuplicateCodeMessage := "Coupon code already exists"
  const ValidateErrorMessage := "Error validating coupon"
  const UseErrorMessage := "Error using coupon"

  function CouponId(c: Coupon): string {
    c.id
  }

  /** `.eq('coupon_code', code)`: a missing code matches no row (SQL `= NULL` is never true). */
  function HasCode(code: Option<string>): Coupon -> bool {
    (c: Coupon) => code.Some? && c.coupon_code == code
  }

  // ---------------------------------------------------------------------------
  // validateCoupon
  // ---------------------------------------------------------------------------

  /** The coupon is redeemable by `userId` at time `now`. */
  predicate Redeemable(c: Coupon, userId: Option<string>, now: int) {
    !c.is_used && c.valid_until > now && (!Truthy(c.for_user) || c.for_user == userId)
  }

  /** The checks `validateCoupon` makes on the fetched coupon, in order: used, expired, wrong user. */
  function CheckCoupon(c: Coupon, userId: Option<string>, now: int): (r: Result<Coupon>)
    ensures r.Ok? <==> Redeemable(c, userId, now)
    ensures r.Ok? ==> r.value == c
    ensures c.is_used ==> r == Err(BadRequest(AlreadyUsedMessage))
    ensures !c.is_used && c.valid_until <= now ==> r == Err(BadRequest(ExpiredMessage))
    ensures !c.is_used && c.valid_until > now && !Redeemable(c, userId, now) ==> r == Err(BadRequest(WrongUserMessage))
  {
    if c.is_used then Err(BadRequest(AlreadyUsedMessage))
    else if c.valid_until <= now then Err(BadRequest(ExpiredMessage))
    else if Truthy(c.for_user) && c.for_user != userId then Err(BadRequest(WrongUserMessage))
    else Ok(c)
  }

  /** A used coupon is rejected as used whatever its expiry and target user. */
  lemma UsedIsCheckedFirst(c: Coupon, userId: Option<string>, now: int, userId': Option<string>, now': int)
    requires c.is_used
    ensures CheckCoupon(c, userId, now) == CheckCoupon(c, userId', now') == Err(BadRequest(AlreadyUsedMessage))
  {
  }

  /** A coupon whose `valid_until` is now has expired. */
  lemma ExpiresAtValidUntil(c: Coupon, userId: Option<string>)
    requires !c.is_used
    ensures CheckCoupon(c, userId, c.valid_until) == Err(BadRequest(ExpiredMessage))
  {
  }

  /** A coupon for no user in particular answers every user alike; a targeted one accepts only its user. */
  lemma TargetUser(c: Coupon, userId: Option<string>, other: Option<string>, now: int)
    requires !c.is_used && c.valid_until > now
    ensures !Truthy(c.for_user) ==> CheckCoupon(c, userId, now) == CheckCoupon(c, other, now) == Ok(c)
    ensures Truthy(c.for_user) ==> (CheckCoupon(c, userId, now).Ok? <==> userId == c.for_user)
  {
  }

  /**
   * `validateCoupon(code, userId)` at time `now`: the one coupon with the code, checked.
   * No coupon with the code is the 404 branch; several make `.single()` fail, answered 500.
   */
  function ValidateCoupon(coupons: seq<Coupon>, code: string, userId: Option<string>, now: int): (r: Result<Coupon>)
    ensures Count(coupons, HasCode(Some(code))) == 0 <==> r == Err(NotFound(CouponNotFoundMessage))
    ensures Count(coupons, HasCode(Some(code))) > 1 <==> r == Err(ServerError(ValidateErrorMessage))
    ensures r.Ok? ==> r.value in coupons && r.value.coupon_code == Some(code) && Redeemable(r.value, userId, now)
  {
    var found := Filter(coupons, HasCode(Some(code)));
    if |found| == 0 then Err(NotFound(CouponNotFoundMessage))
    else if |found| > 1 then Err(ServerError(ValidateErrorMessage))
    else
      assert HasCode(Some(code))(found[0]);
      CheckCoupon(found[0], userId, now)
  }

  /** With one coupon holding the code, the answer is valid exactly when that coupon is redeemable, and the table is not involved further. */
  lemma ValidIffRedeemable(coupons: seq<Coupon>, code: string, userId: Option<string>, now: int, i: int)
    requires 0 <= i < |coupons| && coupons[i].coupon_code == Some(code)
    requires Count(coupons, HasCode(Some(code))) == 1
    ensures ValidateCoupon(coupons, code, userId, now) == CheckCoupon(coupons[i], userId, now)
    ensures ValidateCoupon(coupons, code, userId, now).Ok? <==> Redeemable(coupons[i], userId, now)
  {
    FilterOne(coupons, HasCode(Some(code)), i);
  }

  // ---------------------------------------------------------------------------
  // The percentage check of createCoupon and updateCoupon
  // ---------------------------------------------------------------------------

  /**
   * A `coupon_value` passes when it is null, absent or '', or when `parseFloat` reads a
   * number in [0, 100].
   */
  predicate ValidPercentage(v: FieldValue) {
    v.Null? || v.Undefined? || v == Text("") ||
    (ParseFloat(v).Some? && 0.0 <= ParseFloat(v).value <= 100.0)
  }

  /** The check on the values a client sends: numbers by range, booleans never. */
  lemma PercentageCases(v: FieldValue)
    ensures v.Number? ==> (ValidPercentage(v) <==> 0.0 <= v.num <= 100.0)
    ensures v.Flag? ==> !ValidPercentage(v)
    ensures v.Text? && v.text != "" && DigitsValue(v.text).None? && !(|v.text| > 0 && v.text[0] == '-') ==> !ValidPercentage(v)
    ensures v.Text? && DigitsValue(v.text).Some? ==> (ValidPercentage(v) <==> DigitsValue(v.text).value <= 100)
  {
  }

  // ---------------------------------------------------------------------------
  // The duplicate-code check of createCoupon
  // ---------------------------------------------------------------------------

  /**
   * The lookup `.eq('coupon_code', code).single()` returns a row: exactly one coupon has
   * the code. Its error is not inspected, so several coupons with the code do not block.
   */
  predicate CodeTaken(coupons: seq<Coupon>, code: Option<string>) {
    Count(coupons, HasCode(code)) == 1
  }

  /** No two coupons share a code. */
  predicate UniqueCodes(coupons: seq<Coupon>) {
    forall i, j :: 0 <= i < j < |coupons| && coupons[i].coupon_code.Some? ==>
      coupons[i].coupon_code != coupons[j].coupon_code
  }

  /** While codes are unique, the duplicate check finds a code exactly when some coupon has it. */
  lemma {:induction false} TakenIffPresent(coupons: seq<Coupon>, code: string)
    requires UniqueCodes(coupons)
    ensures CodeTaken(coupons, Some(code)) <==> exists i :: 0 <= i < |coupons| && coupons[i].coupon_code == Some(code)
  {
    var p := HasCode(Some(code));
    if exists i :: 0 <= i < |coupons| && coupons[i].coupon_code == Some(code) {
      var i :| 0 <= i < |coupons| && coupons[i].coupon_code == Some(code);
      forall j | 0 <= j < |coupons| && j != i ensures !p(coupons[j]) {
        var c := coupons[j];
        if j < i {
          assert c.coupon_code.Some? ==> c.coupon_code != coupons[i].coupon_code;
        }
      }
      CountOne(coupons, p, i);
    } else {
      CountIsZero(coupons, p);
    }
  }

  /** Appending a coupon whose code is free keeps codes unique. */
  lemma AppendKeepsCodesUnique(coupons: seq<Coupon>, c: Coupon)
    requires UniqueCodes(coupons)
    requires c.coupon_code.None? || !CodeTaken(coupons, c.coupon_code)
    ensures UniqueCodes(coupons + [c])
  {
    if c.coupon_code.Some? {
      TakenIffPresent(coupons, c.coupon_code.value);
    }
    var s := coupons + [c];
    forall i, j | 0 <= i < j < |s| && s[i].coupon_code.Some? ensures s[i].coupon_code != s[j].coupon_code {
      if j < |coupons| {
        assert s[i] == coupons[i] && s[j] == coupons[j];
      } else {
        assert s[i] == coupons[i] && s[j] == c;
      }
    }
  }

  /**
   * `createCoupon(body)` as a decision: the percentage check first, then the duplicate
   * check; None when the row is inserted.
   */
  function CreateRejection(coupons: seq<Coupon>, c: Coupon): (r: Option<Failure>)
    ensures r == Some(BadRequest(PercentageMessage)) <==> !ValidPercentage(c.coupon_value)
    ensures r.None? <==> ValidPercentage(c.coupon_value) && !CodeTaken(coupons, c.coupon_code)
    ensures r.Some? ==> r == Some(BadRequest(PercentageMessage)) || r == Some(BadRequest(DuplicateCodeMessage))
  {
    if !ValidPercentage(c.coupon_value) then Some(BadRequest(PercentageMessage))
    else if CodeTaken(coupons, c.coupon_code) then Some(BadRequest(DuplicateCodeMessage))
    else None
  }

  /**
   * As written, a code held by two or more coupons no longer blocks: `.single()` fails,
   * `existing` is null and the row is inserted.
   */
  lemma DuplicatesDoNotBlock(coupons: seq<Coupon>, c: Coupon, i: int, j: int)
    requires ValidPercentage(c.coupon_value) && c.coupon_code.Some?
    requires 0 <= i < j < |coupons| && coupons[i].coupon_code == c.coupon_code == coupons[j].coupon_code
    ensures CreateRejection(coupons, c).None?
  {
    var p := HasCode(c.coupon_code);
    var a, b := coupons[..j], coupons[j..];
    assert coupons == a + b;
    CountAppend(a, b, p);
    assert a[i] == coupons[i] && b[0] == coupons[j];
    CountIsZero(a, p);
    CountIsZero(b, p);
  }

  /** An accepted coupon keeps codes unique. */
  lemma CreateKeepsCodesUnique(coupons: seq<Coupon>, c: Coupon)
    requires UniqueCodes(coupons) && CreateRejection(coupons, c).None?
    ensures UniqueCodes(coupons + [c])
  {
    AppendKeepsCodesUnique(coupons, c);
  }

  // ---------------------------------------------------------------------------
  // updateCoupon
  // ---------------------------------------------------------------------------

  /** A row after `.update(updates)`: an absent `coupon_value` leaves the column as it was. */
  function Patched(c: Coupon, patch: CouponPatch): (r: Coupon)
    ensures r.id == c.id && r.coupon_code == c.coupon_code && r.is_used == c.is_used
    ensures r.valid_until == c.valid_until && r.for_user == c.for_user
    ensures patch.coupon_value.Undefined? ==> r.coupon_value == c.coupon_value
    ensures !patch.coupon_value.Undefined? ==> r.coupon_value == patch.coupon_value
  {
    c.(coupon_value := if patch.coupon_value.Undefined? then c.coupon_value else patch.coupon_value,
       rest := c.rest + patch.other)
  }

  function ApplyPatch(coupons: seq<Coupon>, id: string, patch: CouponPatch): (r: seq<Coupon>)
    ensures |r| == |coupons|
    ensures forall i :: 0 <= i < |coupons| ==> r[i] == if coupons[i].id == id then Patched(coupons[i], patch) else coupons[i]
  {
    seq(|coupons|, i requires 0 <= i < |coupons| =>
      if coupons[i].id == id then Patched(coupons[i], patch) else coupons[i])
  }

  /** A patch that passes the check leaves every coupon_value of the table valid when it was. */
  lemma PatchKeepsPercentagesValid(coupons: seq<Coupon>, id: string, patch: CouponPatch)
    requires ValidPercentage(patch.coupon_value)
    requires forall i :: 0 <= i < |coupons| ==> ValidPercentage(coupons[i].coupon_value)
    ensures forall i :: 0 <= i < |coupons| ==> ValidPercentage(ApplyPatch(coupons, id, patch)[i].coupon_value)
  {
  }

  // ---------------------------------------------------------------------------
  // useCoupon
  // ---------------------------------------------------------------------------

  /** When one coupon has the id, `.eq('id', id).single()` yields that coupon. */
  lemma OnlyCouponWithId(coupons: seq<Coupon>, id: string)
    requires Count(coupons, KeyIs(CouponId, id)) == 1
    ensures forall i :: 0 <= i < |coupons| && coupons[i].id == id ==> Filter(coupons, KeyIs(CouponId, id)) == [coupons[i]]
  {
    forall i | 0 <= i < |coupons| && coupons[i].id == id ensures Filter(coupons, KeyIs(CouponId, id)) == [coupons[i]] {
      assert CouponId(coupons[i]) == id;
      FilterOne(coupons, KeyIs(CouponId, id), i);
    }
  }

  /** `useCoupon(id)` before it writes: the one coupon with the id, which must be unused. */
  function CheckUse(coupons: seq<Coupon>, id: string): (r: Result<Coupon>)
    ensures Count(coupons, KeyIs(CouponId, id)) == 0 <==> r == Err(NotFound(CouponNotFoundMessage))
    ensures Count(coupons, KeyIs(CouponId, id)) > 1 <==> r == Err(ServerError(UseErrorMessage))
    ensures r.Ok? ==> r.value in coupons && r.value.id == id && !r.value.is_used
    ensures r.Err? && r.failure.BadRequest? ==> r.failure.message == AlreadyUsedMessage
    ensures forall i :: 0 <= i < |coupons| && coupons[i].id == id && Count(coupons, KeyIs(CouponId, id)) == 1 ==>
              r == if coupons[i].is_used then Err(BadRequest(AlreadyUsedMessage)) else Ok(coupons[i])
  {
    var found := Filter(coupons, KeyIs(CouponId, id));
    if |found| == 0 then Err(NotFound(CouponNotFoundMessage))
    else if |found| > 1 then Err(ServerError(UseErrorMessage))
    else
      assert KeyIs(CouponId, id)(found[0]);
      assert CouponId(found[0]) == id;
      OnlyCouponWithId(coupons, id);
      if found[0].is_used then Err(BadRequest(AlreadyUsedMessage)) else Ok(found[0])
  }

  /** `.update({ is_used: true })` applied to one row filtered by `.eq('id', id)`. */
  function UseMark(id: string): Coupon -> Coupon {
    (c: Coupon) => if c.id == id then c.(is_used := true) else c
  }

  /** The coupon table after `.update({ is_used: true }).eq('id', id)`. */
  function MarkUsed(coupons: seq<Coupon>, id: string): (r: seq<Coupon>)
    ensures |r| == |coupons|
    ensures forall i :: 0 <= i < |coupons| ==> r[i] == if coupons[i].id == id then coupons[i].(is_used := true) else coupons[i]
  {
    MapRows(coupons, UseMark(id))
  }

  /** Marking is one-way: a used coupon stays used, and codes and ids are untouched. */
  lemma MarkUsedIsOneWay(coupons: seq<Coupon>, id: string)
    ensures forall i :: 0 <= i < |coupons| && coupons[i].is_used ==> MarkUsed(coupons, id)[i].is_used
    ensures UniqueCodes(coupons) ==> UniqueCodes(MarkUsed(coupons, id))
  {
  }

  /** Once a coupon has been used, using it again is rejected. */
  lemma {:induction false} SecondUseRejected(coupons: seq<Coupon>, id: string)
    requires CheckUse(coupons, id).Ok?
    ensures CheckUse(MarkUsed(coupons, id), id) == Err(BadRequest(AlreadyUsedMessage))
  {
    var p, f := KeyIs(CouponId, id), UseMark(id);
    var after := MarkUsed(coupons, id);
    var i :| 0 <= i < |coupons| && coupons[i] == CheckUse(coupons, id).value;
    assert Count(coupons, p) == 1;
    forall j | 0 <= j < |coupons| ensures p(f(coupons[j])) == p(coupons[j]) {
      assert CouponId(f(coupons[j])) == CouponId(coupons[j]);
    }
    CountMapRows(coupons, f, p, p);
    assert after[i].is_used && p(after[i]);
    FilterOne(after, p, i);
  }

  // ---------------------------------------------------------------------------
  // getCouponStats
  // ---------------------------------------------------------------------------

  function IsActiveAt(now: int): Coupon -> bool {
    (c: Coupon) => !c.is_used && c.valid_until > now
  }

  predicate IsUsed(c: Coupon) {
    c.is_used
  }

  function IsExpiredAt(now: int): Coupon -> bool {
    (c: Coupon) => !c.is_used && c.valid_until <= now
  }

  /** Every coupon is in exactly one of active, used and expired. */
  lemma CouponPartition(rows: seq<Coupon>, now: int)
    ensures Count(rows, IsActiveAt(now)) + Count(rows, IsUsed) + Count(rows, IsExpiredAt(now)) == |rows|
  {
    var ps := [IsActiveAt(now), IsUsed, IsExpiredAt(now)];
    assert Covered(rows, ps) by {
      forall i | 0 <= i < |rows| ensures InSomeBucket(rows[i], ps) {
        if rows[i].is_used { assert ps[1](rows[i]); }
        else if rows[i].valid_until > now { assert ps[0](rows[i]); }
        else { assert ps[2](rows[i]); }
      }
    }
    Buckets(rows, ps);
    CountEachOfThree(rows, IsActiveAt(now), IsUsed, IsExpiredAt(now));
  }

  function GetCouponStats(data: Option<seq<Coupon>>, now: int): (r: CouponStats)
    ensures r.totalCoupons == |OrEmpty(data)|
    ensures r.activeCoupons == Count(OrEmpty(data), IsActiveAt(now))
    ensures r.usedCoupons == Count(OrEmpty(data), IsUsed)
    ensures r.expiredCoupons == Count(OrEmpty(data), IsExpiredAt(now))
    ensures r.activeCoupons + r.usedCoupons + r.expiredCoupons == r.totalCoupons
    ensures data.None? ==> r == CouponStats(0, 0, 0, 0)
  {
    var rows := OrEmpty(data);
    CouponPartition(rows, now);
    CouponStats(|rows|, Count(rows, IsActiveAt(now)), Count(rows, IsUsed), Count(rows, IsExpiredAt(now)))
  }

  /** Time only moves coupons from active to expired: the used count does not depend on it. */
  lemma LaterExpiresMore(rows: seq<Coupon>, now: int, later: int)
    requires now <= later
    ensures GetCouponStats(Some(rows), later).usedCoupons == GetCouponStats(Some(rows), now).usedCoupons
    ensures GetCouponStats(Some(rows), later).activeCoupons <= GetCouponStats(Some(rows), now).activeCoupons
  {
    CountMonotone(rows, IsActiveAt(later), IsActiveAt(now));
  }

  /** The coupon and coupon_usage tables with the handlers that change them. */
  class CouponStore {
    var coupons: seq<Coupon>
    var usage: seq<CouponUsage>

    constructor (coupons: seq<Coupon>, usage: seq<CouponUsage>)
      ensures this.coupons == coupons && this.usage == usage
    {
      this.coupons := coupons;
      this.usage := usage;
    }

    /**
     * `createCoupon(body)`, with `c` the row as the database stores it: rejected without
     * a write by the percentage check or the duplicate check; otherwise appended.
     */
    method Create(c: Coupon) returns (r: Result<Coupon>)
      modifies this
      ensures CreateRejection(old(coupons), c).Some? ==>
                r == Err(CreateRejection(old(coupons), c).value) && coupons == old(coupons)
      ensures CreateRejection(old(coupons), c).None? ==> r == Ok(c) && coupons == old(coupons) + [c]
      ensures UniqueCodes(old(coupons)) ==> UniqueCodes(coupons)
      ensures usage == old(usage)
    {
      var rejection := CreateRejection(coupons, c);
      if rejection.Some? {
        return Err(rejection.value);
      }
      if UniqueCodes(coupons) {
        CreateKeepsCodesUnique(coupons, c);
      }
      coupons := coupons + [c];
      r := Ok(c);
    }

    /**
     * `updateCoupon(id, updates)`: 400 on an invalid `coupon_value` before any write; 404
     * when no row has the id; otherwise every row with the id is patched and the first
     * is returned.
     */
    method Update(id: string, patch: CouponPatch) returns (r: Result<Coupon>)
      modifies this
      ensures !ValidPercentage(patch.coupon_value) ==> r == Err(BadRequest(PercentageMessage)) && coupons == old(coupons)
      ensures ValidPercentage(patch.coupon_value) && Count(old(coupons), KeyIs(CouponId, id)) == 0 ==>
                r == Err(NotFound(CouponNotFoundMessage)) && coupons == old(coupons)
      ensures ValidPercentage(patch.coupon_value) && Count(old(coupons), KeyIs(CouponId, id)) > 0 ==>
                coupons == ApplyPatch(old(coupons), id, patch) && r.Ok? && r.value in coupons && r.value.id == id
      ensures usage == old(usage)
    {
      if !ValidPercentage(patch.coupon_value) {
        return Err(BadRequest(PercentageMessage));
      }
      var matched := Filter(coupons, KeyIs(CouponId, id));
      if |matched| == 0 {
        return Err(NotFound(CouponNotFoundMessage));
      }
      var first := matched[0];
      assert KeyIs(CouponId, id)(first);
      var k :| 0 <= k < |coupons| && coupons[k] == first;
      coupons := ApplyPatch(coupons, id, patch);
      r := Ok(coupons[k]);
    }

    /**
     * `useCoupon(id, userId)`: rejected with nothing changed unless the coupon exists once
     * and is unused; then every row with the id is marked used and, when the usage insert
     * succeeds (its error is not inspected), one usage record is appended.
     */
    method Use(id: string, userId: Option<string>, usageInsertOk: bool) returns (r: Result<Coupon>)
      modifies this
      ensures CheckUse(old(coupons), id).Err? ==>
                r == CheckUse(old(coupons), id) && coupons == old(coupons) && usage == old(usage)
      ensures CheckUse(old(coupons), id).Ok? ==>
                coupons == MarkUsed(old(coupons), id) &&
                r == Ok(CheckUse(old(coupons), id).value.(is_used := true)) &&
                usage == old(usage) + (if usageInsertOk then [CouponUsage(id, userId)] else [])
      ensures forall i :: 0 <= i < |old(coupons)| && old(coupons)[i].id == id &&
                          Count(old(coupons), KeyIs(CouponId, id)) == 1 ==>
                if old(coupons)[i].is_used then
                  r == Err(BadRequest(AlreadyUsedMessage)) && coupons == old(coupons) && usage == old(usage)
                else
                  r == Ok(old(coupons)[i].(is_used := true)) && coupons == MarkUsed(old(coupons), id)
    {
      var check := CheckUse(coupons, id);
      if check.Err? {
        return check;
      }
      coupons := MarkUsed(coupons, id);
      if usageInsertOk {
        usage := usage + [CouponUsage(id, userId)];
      }
      r := Ok(check.value.(is_used := true));
    }
  }
}
