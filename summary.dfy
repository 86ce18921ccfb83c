/** The three figures of the index page (app.py lines 39-45), over the whole
    Installments table: Collected sums what was paid, Pending sums what is still owed
    (amount less paid amount), and Late sums what is still owed on unpaid rows due
    before the current instant `now`. Each figure falls back to 0 on an empty table. */
module Summary {
  import opened Wrappers
  import opened Dates
  import opened Amounts
  import opened Schedule
  import opened Tables

  datatype Summary = Summary(collected: real, pending: real, late: real)

  /** SQL's SUM: NULL over no rows. */
  function SqlSum(xs: seq<real>): Option<real>
  {
    if xs == [] then None else Some(Sum(xs))
  }

  /** A NULL replaced by a default value. */
  function IsNull(v: Option<real>, replacement: real): real
  {
    match v
    case Some(x) => x
    case None => replacement
  }

  predicate IsLate(r: Installment, now: Instant)
  {
    DueBefore(r.dueDate, now) && !r.isPaid
  }

  function PaidColumn(rows: seq<Installment>): seq<real>
  {
    seq(|rows|, i requires 0 <= i < |rows| => rows[i].paidAmount)
  }

  function OutstandingColumn(rows: seq<Installment>): seq<real>
  {
    seq(|rows|, i requires 0 <= i < |rows| => rows[i].amount - rows[i].paidAmount)
  }

  function LateColumn(rows: seq<Installment>, now: Instant): seq<real>
  {
    seq(|rows|, i requires 0 <= i < |rows| =>
      if IsLate(rows[i], now) then rows[i].amount - rows[i].paidAmount else 0.0)
  }

  function AmountColumn(rows: seq<Installment>): seq<real>
  {
    seq(|rows|, i requires 0 <= i < |rows| => rows[i].amount)
  }

  /** The three figures over the rows of the Installments table. Each is the plain
      sum of its column (an empty table gives three zeros, never NULL), and Collected
      and Pending together split the total amount owed. */
  function Summarize(rows: seq<Installment>, now: Instant): (s: Summary)
    ensures s == Summary(Sum(PaidColumn(rows)), Sum(OutstandingColumn(rows)), Sum(LateColumn(rows, now)))
    ensures rows == [] ==> s == Summary(0.0, 0.0, 0.0)
    ensures s.collected + s.pending == Sum(AmountColumn(rows))
  {
    SumPointwise(PaidColumn(rows), OutstandingColumn(rows), AmountColumn(rows));
    Summary(
      IsNull(SqlSum(PaidColumn(rows)), 0.0),
      IsNull(SqlSum(OutstandingColumn(rows)), 0.0),
      IsNull(SqlSum(LateColumn(rows, now)), 0.0))
  }

  /** In well-formed tables with non-negative amounts, Late is the part of Pending that
      is past due: 0 <= Late <= Pending. */
  lemma LateWithinPending(rows: seq<Installment>, now: Instant)
    requires forall i :: 0 <= i < |rows| ==> RowStateOk(rows[i]) && rows[i].amount >= 0.0
    ensures 0.0 <= Summarize(rows, now).late <= Summarize(rows, now).pending
  {
    var zeros := seq(|rows|, i requires 0 <= i < |rows| => 0.0);
    SumConstant(zeros, 0.0);
    SumMonotone(zeros, LateColumn(rows, now));
    SumMonotone(LateColumn(rows, now), OutstandingColumn(rows));
  }

  /** Paying the row at position j (ids unique) moves what it still owed from Pending
      to Collected and, if it was late, removes it from Late; for an unpaid row of a
      well-formed table that is its whole Amount. */
  lemma PaySummary(rows: seq<Installment>, next: nat, j: nat, now: Instant, stamp: Instant)
    requires InstallmentIdsIncreasing(rows, next)
    requires j < |rows|
    ensures var before, after := Summarize(rows, now), Summarize(PayRows(rows, rows[j].id, stamp), now);
      var owed := rows[j].amount - rows[j].paidAmount;
      && after.collected == before.collected + owed
      && after.pending == before.pending - owed
      && after.late == before.late - (if IsLate(rows[j], now) then owed else 0.0)
  {
    var paid := PayRows(rows, rows[j].id, stamp);
    PayIsSingleRowUpdate(rows, next, j, stamp);
    assert PaidColumn(paid) == PaidColumn(rows)[j := rows[j].amount];
    assert OutstandingColumn(paid) == OutstandingColumn(rows)[j := 0.0];
    assert LateColumn(paid, now) == LateColumn(rows, now)[j := 0.0];
    SumUpdate(PaidColumn(rows), j, rows[j].amount);
    SumUpdate(OutstandingColumn(rows), j, 0.0);
    SumUpdate(LateColumn(rows, now), j, 0.0);
  }

  /** Every figure is additive over a split of the table. */
  lemma {:induction false} SummaryOfAppend(rows: seq<Installment>, added: seq<Installment>, now: Instant)
    ensures var all, a, b := Summarize(rows + added, now), Summarize(rows, now), Summarize(added, now);
      && all.collected == a.collected + b.collected
      && all.pending == a.pending + b.pending
      && all.late == a.late + b.late
  {
    assert PaidColumn(rows + added) == PaidColumn(rows) + PaidColumn(added);
    assert OutstandingColumn(rows + added) == OutstandingColumn(rows) + OutstandingColumn(added);
    assert LateColumn(rows + added, now) == LateColumn(rows, now) + LateColumn(added, now);
    SumAppend(PaidColumn(rows), PaidColumn(added));
    SumAppend(OutstandingColumn(rows), OutstandingColumn(added));
    SumAppend(LateColumn(rows, now), LateColumn(added, now));
  }

  /** Freshly inserted rows have collected nothing and still owe their amounts. */
  lemma NewRowsSummary(firstId: nat, contractId: nat, es: seq<Entry>, now: Instant)
    ensures var s := Summarize(ScheduleRows(firstId, contractId, es), now);
      s.collected == 0.0 && s.pending == Sum(EntryAmounts(es))
  {
    var added := ScheduleRows(firstId, contractId, es);
    SumConstant(PaidColumn(added), 0.0);
    assert OutstandingColumn(added) == EntryAmounts(es);
  }

  /** A contract of `months >= 1` adds its whole total to Pending and nothing to
      Collected; its rows count as late only once their due date has passed. */
  lemma NewContractSummary(rows: seq<Installment>, firstId: nat, contractId: nat,
                           total: real, months: int, start: Date, now: Instant)
    requires months >= 1 && Generate(total, months, start).Ok?
    ensures var added := ScheduleRows(firstId, contractId, Generate(total, months, start).value);
      var before, after := Summarize(rows, now), Summarize(rows + added, now);
      && after.collected == before.collected
      && after.pending == before.pending + total
      && after.late == before.late + Sum(LateColumn(added, now))
  {
    var es := Generate(total, months, start).value;
    var added := ScheduleRows(firstId, contractId, es);
    SummaryOfAppend(rows, added, now);
    NewRowsSummary(firstId, contractId, es, now);
    AmountsSumToTotal(total, months, start);
  }
}
