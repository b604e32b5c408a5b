/**
 * The withdraws table: the record `createWithdrawal` inserts and the statistics of
 * `getWithdrawalStats`.
 */
module Withdrawals {
  import opened Values
  import opened Tables

  /** A row of withdraws, as the handlers write it. */
  datatype Withdrawal = Withdrawal(
    doctor_id: Option<string>,
    total_amount: FieldValue,
    total_actual_amount: FieldValue,
    withrowl_history: FieldValue,
    income_history: FieldValue,
    action_type: Option<string>,
    operation_status: Option<string>,
    payment_date: FieldValue)

  /** A request body for `createWithdrawal`: the eight named fields and whatever else it holds. */
  datatype WithdrawalBody = WithdrawalBody(
    doctor_id: Option<string>,
    total_amount: FieldValue,
    total_actual_amount: FieldValue,
    withrowl_history: FieldValue,
    income_history: FieldValue,
    action_type: Option<string>,
    operation_status: Option<string>,
    payment_date: FieldValue,
    otherKeys: map<string, FieldValue>)

  datatype WithdrawalStats = WithdrawalStats(
    totalWithdrawals: nat,
    totalAmount: real,
    totalActualAmount: real,
    successfulWithdrawals: nat,
    pendingWithdrawals: nat,
    failedWithdrawals: nat)

  /**
   * The record `createWithdrawal` inserts: the eight named fields, copied; a falsy
   * `payment_date` replaced by the current time. Other body keys are not written.
   */
  function NewWithdrawal(body: WithdrawalBody, now: string): (w: Withdrawal)
    ensures TruthyValue(body.payment_date) ==> w.payment_date == body.payment_date
    ensures !TruthyValue(body.payment_date) ==> w.payment_date == Text(now)
    ensures w.doctor_id == body.doctor_id && w.operation_status == body.operation_status
    ensures w.total_amount == body.total_amount && w.total_actual_amount == body.total_actual_amount
    ensures w.withrowl_history == body.withrowl_history && w.income_history == body.income_history
    ensures w.action_type == body.action_type
  {
    Withdrawal(body.doctor_id, body.total_amount, body.total_actual_amount, body.withrowl_history,
               body.income_history, body.action_type, body.operation_status,
               if TruthyValue(body.payment_date) then body.payment_date else Text(now))
  }

  /** Extra keys in the body never reach the table. */
  lemma OtherKeysAreDropped(body: WithdrawalBody, otherKeys: map<string, FieldValue>, now: string)
    ensures NewWithdrawal(body.(otherKeys := otherKeys), now) == NewWithdrawal(body, now)
  {
  }

  /** `parseFloat(x) || 0`: a missing or non-numeric amount counts as 0. */
  function AmountOrZero(v: FieldValue): (a: real)
    ensures ParseFloat(v).None? ==> a == 0.0
    ensures ParseFloat(v).Some? ==> a == ParseFloat(v).value
  {
    match ParseFloat(v)
    case None => 0.0
    case Some(x) => x
  }

  function TotalAmount(w: Withdrawal): real {
    AmountOrZero(w.total_amount)
  }

  function ActualAmount(w: Withdrawal): real {
    AmountOrZero(w.total_actual_amount)
  }

  predicate IsSuccessful(w: Withdrawal) {
    w.operation_status == Some("success")
  }

  /** Both 'waiting' and 'pending' count as pending. */
  predicate IsPending(w: Withdrawal) {
    w.operation_status == Some("waiting") || w.operation_status == Some("pending")
  }

  predicate IsFailed(w: Withdrawal) {
    w.operation_status == Some("failed")
  }

  /** The three status buckets never count a row twice. */
  lemma StatusBuckets(rows: seq<Withdrawal>)
    ensures Count(rows, IsSuccessful) + Count(rows, IsPending) + Count(rows, IsFailed) <= |rows|
  {
    var ps := [IsSuccessful, IsPending, IsFailed];
    Buckets(rows, ps);
    CountEachOfThree(rows, IsSuccessful, IsPending, IsFailed);
  }

  /** Amounts of rows that carry no number add nothing to the totals. */
  lemma UnparsedAmountAddsNothing(rows: seq<Withdrawal>, w: Withdrawal)
    requires ParseFloat(w.total_amount).None?
    ensures RealSum(rows + [w], TotalAmount) == RealSum(rows, TotalAmount)
  {
    assert (rows + [w])[..|rows|] == rows;
  }

  function GetWithdrawalStats(data: Option<seq<Withdrawal>>): (r: WithdrawalStats)
    ensures r.totalWithdrawals == |OrEmpty(data)|
    ensures data.None? ==> r == WithdrawalStats(0, 0.0, 0.0, 0, 0, 0)
    ensures r.totalAmount == RealSum(OrEmpty(data), TotalAmount)
    ensures r.totalActualAmount == RealSum(OrEmpty(data), ActualAmount)
    ensures r.successfulWithdrawals == Count(OrEmpty(data), IsSuccessful)
    ensures r.pendingWithdrawals == Count(OrEmpty(data), IsPending)
    ensures r.failedWithdrawals == Count(OrEmpty(data), IsFailed)
    ensures r.successfulWithdrawals + r.pendingWithdrawals + r.failedWithdrawals <= r.totalWithdrawals
  {
    var rows := OrEmpty(data);
    StatusBuckets(rows);
    WithdrawalStats(|rows|, RealSum(rows, TotalAmount), RealSum(rows, ActualAmount),
                    Count(rows, IsSuccessful), Count(rows, IsPending), Count(rows, IsFailed))
  }

  /** With no negative amounts recorded, the total withdrawn is not negative. */
  lemma TotalAmountNonNegative(data: Option<seq<Withdrawal>>)
    requires forall i :: 0 <= i < |OrEmpty(data)| ==> TotalAmount(OrEmpty(data)[i]) >= 0.0
    ensures GetWithdrawalStats(data).totalAmount >= 0.0
  {
    RealSumNonNegative(OrEmpty(data), TotalAmount);
  }
}
