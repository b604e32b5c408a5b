/**
 * The payment_history table seen as transactions: the row-to-transaction mapping of
 * `getAllTransactions` and the statistics of `getTransactionStats`.
 */
module Transactions {
  import opened Values
  import opened Tables

  /** A row of payment_history. */
  datatype PaymentRow = PaymentRow(
    id: string,
    doctor_id: Option<string>,
    patient_id: Option<string>,
    total_amount: Option<int>,
    operation_status: Option<string>,
    payment_date: Option<string>,
    booking_id: Option<string>,
    action_type: Option<string>,
    payment_gateway: Option<string>,
    payment_currency: Option<string>,
    operation_id: Option<string>)

  /** A transaction as the list endpoint returns it (`kind` is the JSON key `type`). */
  datatype Transaction = Transaction(
    id: string,
    kind: string,
    doctor_id: Option<string>,
    patient_id: Option<string>,
    amount: Option<int>,
    status: Option<string>,
    created_at: Option<string>,
    booking_id: Option<string>,
    action_type: Option<string>,
    payment_gateway: Option<string>,
    payment_currency: Option<string>,
    operation_id: Option<string>)

  /** The `{ amount, status }` pair the statistics map each row to. */
  datatype Summary = Summary(amount: Option<int>, status: Option<string>)

  datatype TransactionStats = TransactionStats(
    totalTransactions: nat,
    totalAmount: int,
    successfulTransactions: nat,
    pendingTransactions: nat,
    failedTransactions: nat)

  /**
   * One payment row as a transaction: type 'payment', the ids copied, the amount, status
   * and date renamed, and a falsy gateway, currency or operation id sent as null.
   */
  function ToTransaction(p: PaymentRow): (t: Transaction)
    ensures t.kind == "payment"
    ensures t.id == p.id && t.doctor_id == p.doctor_id && t.patient_id == p.patient_id && t.booking_id == p.booking_id
    ensures t.amount == p.total_amount && t.status == p.operation_status && t.created_at == p.payment_date
    ensures t.action_type == p.action_type
    ensures t.payment_gateway.Some? <==> Truthy(p.payment_gateway)
    ensures t.payment_currency.Some? <==> Truthy(p.payment_currency)
    ensures t.operation_id.Some? <==> Truthy(p.operation_id)
    ensures t.payment_gateway.Some? ==> t.payment_gateway == p.payment_gateway
    ensures t.payment_currency.Some? ==> t.payment_currency == p.payment_currency
    ensures t.operation_id.Some? ==> t.operation_id == p.operation_id
  {
    Transaction(p.id, "payment", p.doctor_id, p.patient_id, p.total_amount, p.operation_status,
                p.payment_date, p.booking_id, p.action_type, OrNull(p.payment_gateway),
                OrNull(p.payment_currency), OrNull(p.operation_id))
  }

  /** `getAllTransactions`: one transaction per row, in the order of the rows. */
  function AllTransactions(data: Option<seq<PaymentRow>>): (ts: seq<Transaction>)
    ensures |ts| == |OrEmpty(data)|
    ensures forall i :: 0 <= i < |ts| ==> ts[i] == ToTransaction(OrEmpty(data)[i])
  {
    MapRows(OrEmpty(data), ToTransaction)
  }

  function ToSummary(p: PaymentRow): Summary {
    Summary(p.total_amount, p.operation_status)
  }

  function AmountOrZero(t: Summary): int {
    OrZero(t.amount)
  }

  predicate IsSuccessful(t: Summary) {
    t.status == Some("success")
  }

  /** Only 'waiting' counts as pending here ('pending' itself does not). */
  predicate IsPending(t: Summary) {
    t.status == Some("waiting")
  }

  predicate IsFailed(t: Summary) {
    t.status == Some("failed")
  }

  lemma StatusBuckets(ts: seq<Summary>)
    ensures Count(ts, IsSuccessful) + Count(ts, IsPending) + Count(ts, IsFailed) <= |ts|
  {
    var ps := [IsSuccessful, IsPending, IsFailed];
    Buckets(ts, ps);
    CountEachOfThree(ts, IsSuccessful, IsPending, IsFailed);
  }

  function GetTransactionStats(data: Option<seq<PaymentRow>>): (r: TransactionStats)
    ensures r.totalTransactions == |OrEmpty(data)|
    ensures var ts := MapRows(OrEmpty(data), ToSummary);
            r.totalAmount == Sum(ts, AmountOrZero) &&
            r.successfulTransactions == Count(ts, IsSuccessful) &&
            r.pendingTransactions == Count(ts, IsPending) &&
            r.failedTransactions == Count(ts, IsFailed)
    ensures r.successfulTransactions + r.pendingTransactions + r.failedTransactions <= r.totalTransactions
    ensures data.None? ==> r == TransactionStats(0, 0, 0, 0, 0)
  {
    var ts := MapRows(OrEmpty(data), ToSummary);
    StatusBuckets(ts);
    TransactionStats(|ts|, Sum(ts, AmountOrZero),
                     Count(ts, IsSuccessful), Count(ts, IsPending), Count(ts, IsFailed))
  }

  predicate TransactionSucceeded(t: Transaction) {
    t.status == Some("success")
  }

  /** A payment row whose status is literally 'pending' adds to the total and to no status bucket. */
  lemma {:induction false} PendingWordIsNotCounted(rows: seq<PaymentRow>, p: PaymentRow)
    requires p.operation_status == Some("pending")
    ensures var before, after := GetTransactionStats(Some(rows)), GetTransactionStats(Some(rows + [p]));
            after.totalTransactions == before.totalTransactions + 1 &&
            after.successfulTransactions == before.successfulTransactions &&
            after.pendingTransactions == before.pendingTransactions &&
            after.failedTransactions == before.failedTransactions
  {
    var ts, ts' := MapRows(rows, ToSummary), MapRows(rows + [p], ToSummary);
    assert ts'[..|ts'| - 1] == ts;
    assert !IsSuccessful(ts'[|ts'| - 1]) && !IsPending(ts'[|ts'| - 1]) && !IsFailed(ts'[|ts'| - 1]);
  }

  /** The list endpoint and the statistics agree on how many payments succeeded. */
  lemma ListAndStatsAgree(data: Option<seq<PaymentRow>>)
    ensures Count(AllTransactions(data), TransactionSucceeded) == GetTransactionStats(data).successfulTransactions
  {
    var rows := OrEmpty(data);
    var p := (row: PaymentRow) => row.operation_status == Some("success");
    CountMapRows(rows, ToTransaction, TransactionSucceeded, p);
    CountMapRows(rows, ToSummary, IsSuccessful, p);
  }
}
