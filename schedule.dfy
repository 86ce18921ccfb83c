/** The installment schedule that `add_new` computes for a new contract
    (app.py lines 79 and 97-98): one row per month, row i due i + 1 calendar months
    after the start date, each for the total divided by the number of months. */
module Schedule {
  import opened Wrappers
  import opened Dates
  import opened Amounts

  datatype Entry = Entry(due: Date, amount: real)

  datatype ScheduleError =
    | DivisionByZero                 // dividing the total by a month count of 0
    | DueDateOutOfRange(index: nat)  // the due date of row `index` lies beyond year 9999

  /** Number of iterations of the month loop: none for a negative count. */
  function Count(months: int): nat
  {
    if months > 0 then months else 0
  }

  /** `due` lies exactly n calendar months after `start`, on the same day of month, or
      on the last day of its month when that day does not exist there. */
  predicate IsMonthsAfter(due: Date, start: Date, n: nat)
  {
    && MonthIndex(due) == MonthIndex(start) + n
    && (start.day <= DaysInMonth(due.year, due.month) ==> due.day == start.day)
    && (start.day > DaysInMonth(due.year, due.month) ==> due.day == DaysInMonth(due.year, due.month))
  }

  /** Due date of row i: the start date moved on by i + 1 calendar months. */
  function DueDate(start: Date, i: nat): (due: Date)
    requires i < MonthsLeft(start)
    ensures IsMonthsAfter(due, start, i + 1)
    ensures Before(start, due) && !Before(due, start)
  {
    var due := AddMonths(start, i + 1).value;
    IndexOrderIsDateOrder(start, due);
    due
  }

  /** The first n rows of a schedule whose rows are each for `amount`. */
  function Entries(amount: real, n: nat, start: Date): (es: seq<Entry>)
    requires n <= MonthsLeft(start)
    ensures |es| == n
    ensures forall i :: 0 <= i < n ==> es[i].amount == amount && IsMonthsAfter(es[i].due, start, i + 1)
  {
    seq(n, i requires 0 <= i < n => Entry(DueDate(start, i), amount))
  }

  /** Each installment's amount, the total divided by the month count: with exact arithmetic,
      `months` such shares make up the total again. */
  function Share(total: real, months: int): (share: real)
    requires months != 0
    ensures share * months as real == total
  {
    total / months as real
  }

  /** The schedule for a contract, or the exception its computation raises. */
  function Generate(total: real, months: int, start: Date): (r: Result<seq<Entry>, ScheduleError>)
    ensures r == Err(DivisionByZero) <==> months == 0
    ensures r.Ok? <==> months != 0 && Count(months) <= MonthsLeft(start)
    ensures r.Ok? ==> |r.value| == Count(months)
    ensures r.Ok? ==> forall i :: 0 <= i < |r.value| ==>
              r.value[i].amount == Share(total, months) && IsMonthsAfter(r.value[i].due, start, i + 1)
  {
    if months == 0 then Err(DivisionByZero)
    else if Count(months) > MonthsLeft(start) then Err(DueDateOutOfRange(MonthsLeft(start)))
    else
      Ok(Entries(Share(total, months), Count(months), start))
  }

  /** The amounts of a schedule's rows, in order. */
  function EntryAmounts(es: seq<Entry>): seq<real>
  {
    seq(|es|, i requires 0 <= i < |es| => es[i].amount)
  }

  /** Due dates strictly increase along the schedule, and consecutive rows fall in
      consecutive calendar months. */
  lemma DueDatesIncrease(total: real, months: int, start: Date)
    requires Generate(total, months, start).Ok?
    ensures var es := Generate(total, months, start).value;
      && (forall i, j :: 0 <= i < j < |es| ==> Before(es[i].due, es[j].due))
      && (forall i :: 0 <= i < |es| - 1 ==> MonthIndex(es[i + 1].due) == MonthIndex(es[i].due) + 1)
  {
    var es := Generate(total, months, start).value;
    forall i, j | 0 <= i < j < |es|
      ensures Before(es[i].due, es[j].due)
    {
      IndexOrderIsDateOrder(es[i].due, es[j].due);
    }
  }

  /** The first installment falls due one calendar month after the contract starts. */
  lemma FirstDueOneMonthAfterStart(total: real, months: int, start: Date)
    requires months >= 1 && Generate(total, months, start).Ok?
    ensures Generate(total, months, start).value[0].due == AddMonths(start, 1).value
    ensures Before(start, Generate(total, months, start).value[0].due)
  {

  }

  /** With exact arithmetic the equal shares add back up to the contract's total. */
  lemma AmountsSumToTotal(total: real, months: int, start: Date)
    requires months >= 1 && Generate(total, months, start).Ok?
    ensures Sum(EntryAmounts(Generate(total, months, start).value)) == total
  {
    var es := Generate(total, months, start).value;
    SumConstant(EntryAmounts(es), Share(total, months));
    assert |EntryAmounts(es)| == months;
  }

  /** A negative month count yields no installments (no error is raised for it). */
  lemma NegativeMonthsGiveEmptySchedule(total: real, months: int, start: Date)
    requires months < 0
    ensures Generate(total, months, start) == Ok([])
  {
  }

  /** 1200 over 12 months from 2024-01-15: twelve rows of 100, due on the 15th of
      February 2024 through January 2025. */
  lemma TwelveMonthExample()
    ensures var r := Generate(1200.0, 12, Ymd(2024, 1, 15));
      && r.Ok? && |r.value| == 12
      && (forall i :: 0 <= i < 11 ==> r.value[i] == Entry(Ymd(2024, i + 2, 15), 100.0))
      && r.value[11] == Entry(Ymd(2025, 1, 15), 100.0)
  {
  }

  /** Each due date is computed from the start date, not from the previous due date:
      from 2024-01-31 the second row is due 2024-03-31, whereas one month after the first
      row (2024-02-29) is 2024-03-29. */
  lemma DueDatesAnchoredToStart()
    ensures var r := Generate(300.0, 3, Ymd(2024, 1, 31));
      && r.Ok?
      && r.value[0].due == Ymd(2024, 2, 29)
      && r.value[1].due == Ymd(2024, 3, 31)
      && AddMonths(r.value[0].due, 1) == Some(Ymd(2024, 3, 29))
  {
  }
}
