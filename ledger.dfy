/** The installment database as the two writing handlers of app.py change it:
    `add_new` (lines 69-110) creates a customer, a contract and its installments in one
    transaction, and `pay_installment` (lines 112-127) marks an installment paid. */
module Ledger {
  import opened Wrappers
  import opened Dates
  import opened Schedule
  import opened Tables

  /** Why `add_new` did not create the contract. */
  datatype CreateError =
    | BadSchedule(cause: ScheduleError) // division by zero (before any connection) or a due date past 9999
    | StatementFailed(statement: nat)   // the database refused the statement-th statement (0-based)

  /** The transaction's statements are numbered in the order `add_new` issues them:
      the customer INSERT is 0, the contract INSERT 1, the INSERT of installment i is
      2 + i, and the COMMIT comes last, at 2 + Count(months). */
  function CommitStatement(months: int): nat
  {
    2 + Count(months)
  }

  /** The index of the first installment the loop cannot insert when statement
      `failing` is refused: the due-date error of row MonthsLeft(start) comes first
      when the two coincide, because the due date is computed before its INSERT. */
  function FirstFailingRow(start: Date, failing: Option<nat>): nat
  {
    if failing.Some? && 2 <= failing.value && failing.value - 2 < MonthsLeft(start)
    then failing.value - 2
    else MonthsLeft(start)
  }

  /** Row i, reached by the loop, is the first failing row exactly when its due date is
      out of range or its INSERT is the refused statement. */
  lemma FirstFailingRowAt(start: Date, failing: Option<nat>, i: nat)
    requires failing.None? || failing.value >= 2
    requires i <= FirstFailingRow(start, failing)
    ensures i == FirstFailingRow(start, failing) <==> i == MonthsLeft(start) || failing == Some(2 + i)
  {
  }

  /** Once the customer and contract INSERTs went through, the failure is the loop's or
      the COMMIT's. */
  lemma FailureAfterFirstInserts(months: int, start: Date, failing: Option<nat>)
    requires months != 0 && failing != Some(0) && failing != Some(1)
    ensures failing.None? || failing.value >= 2
    ensures var k := FirstFailingRow(start, failing);
      TransactionFailure(months, start, failing) ==
        if k < Count(months) then
          Some(if k == MonthsLeft(start) then BadSchedule(DueDateOutOfRange(k)) else StatementFailed(2 + k))
        else if failing == Some(CommitStatement(months)) then Some(StatementFailed(CommitStatement(months)))
        else None
  {
  }

  /** The exception `add_new` meets first, if any, for a database that refuses
      statement `failing`. */
  function TransactionFailure(months: int, start: Date, failing: Option<nat>): Option<CreateError>
  {
    if months == 0 then Some(BadSchedule(DivisionByZero))
    else if failing == Some(0) || failing == Some(1) then Some(StatementFailed(failing.value))
    else if FirstFailingRow(start, failing) < Count(months) then
      var k := FirstFailingRow(start, failing);
      Some(if k == MonthsLeft(start) then BadSchedule(DueDateOutOfRange(k)) else StatementFailed(2 + k))
    else if failing == Some(CommitStatement(months)) then Some(StatementFailed(CommitStatement(months)))
    else None
  }

  /** The tables when the transaction stops: after every statement that ran before the
      refused one, or after all of them. Statements 0 and 1 are the customer and contract
      INSERTs; the loop then inserts the rows before the first failing row. */
  function Executed(t: Tables, name: string, phone: string, item: string, total: real, months: int,
                    start: Date, failing: Option<nat>): Tables
    requires months != 0
  {
    if failing == Some(0) then t
    else if failing == Some(1) then InsertCustomer(t, name, phone)
    else
      var k := FirstFailingRow(start, failing);
      InsertSchedule(InsertContract(InsertCustomer(t, name, phone), t.nextCustomerId, item, total, start),
                     t.nextContractId, Share(total, months), if k < Count(months) then k else Count(months), start)
  }

  /** Past the first two statements, the loop has inserted the rows before the first
      failing row, or all of them. */
  lemma ExecutedAfterFirstInserts(t: Tables, name: string, phone: string, item: string, total: real,
                                  months: int, start: Date, failing: Option<nat>)
    requires months != 0 && failing != Some(0) && failing != Some(1)
    ensures var k := FirstFailingRow(start, failing);
      var n := if k < Count(months) then k else Count(months);
      n <= MonthsLeft(start) &&
      Executed(t, name, phone, item, total, months, start, failing) ==
        InsertSchedule(InsertContract(InsertCustomer(t, name, phone), t.nextCustomerId, item, total, start),
                       t.nextContractId, Share(total, months), n, start)
  {
  }

  /** The transaction commits exactly when the schedule can be computed and no statement
      up to the COMMIT is refused; a schedule error it reports is Generate's own. */
  lemma TransactionFailureMatchesSchedule(total: real, months: int, start: Date, failing: Option<nat>)
    ensures TransactionFailure(months, start, failing).None? <==>
              Generate(total, months, start).Ok? && (failing.None? || failing.value > CommitStatement(months))
    ensures var f := TransactionFailure(months, start, failing);
              f.Some? && f.value.BadSchedule? ==> Generate(total, months, start) == Err(f.value.cause)
  {
  }

  class Ledger {
    var customers: seq<Customer>
    var contracts: seq<Contract>
    var installments: seq<Installment>
    var nextCustomerId: nat
    var nextContractId: nat
    var nextInstallmentId: nat

    function State(): Tables
      reads this
    {
      Tables(customers, contracts, installments, nextCustomerId, nextContractId, nextInstallmentId)
    }

    ghost predicate Valid()
      reads this
    {
      WellFormed(State())
    }

    /** Empty tables; identity columns start at 1. */
    constructor ()
      ensures Valid()
      ensures State() == Tables([], [], [], 1, 1, 1)
    {
      customers, contracts, installments := [], [], [];
      nextCustomerId, nextContractId, nextInstallmentId := 1, 1, 1;
    }

    /** The transaction's rollback after inserts that only appended rows and advanced
        the counters since `saved`: every table returns to `saved`, while the identity
        counters keep the values already handed out, as SQL Server's IDENTITY does. */
    method Rollback(saved: Tables)
      requires WellFormed(saved)
      requires nextCustomerId >= saved.nextCustomerId && nextContractId >= saved.nextContractId
      requires nextInstallmentId >= saved.nextInstallmentId
      modifies this
      ensures State() == RolledBack(saved, old(State()))
      ensures WellFormed(State())
    {
      RolledBackIsWellFormed(saved, State());
      customers, contracts, installments := saved.customers, saved.contracts, saved.installments;
    }

    /** The customer INSERT, which returns the new customer's identity value. */
    method InsertCustomerRow(name: string, phone: string) returns (customerId: nat)
      requires WellFormed(State())
      modifies this
      ensures State() == InsertCustomer(old(State()), name, phone)
      ensures customerId == old(nextCustomerId) && customerId in CustomerIds(customers)
      ensures WellFormed(State())
    {
      InsertCustomerKeepsWellFormed(State(), name, phone);
      customerId := nextCustomerId;
      customers := customers + [Customer(customerId, name, phone)];
      nextCustomerId := nextCustomerId + 1;
    }

    /** The contract INSERT for an existing customer, which returns the new contract's
        identity value. */
    method InsertContractRow(customerId: nat, item: string, total: real, start: Date) returns (contractId: nat)
      requires WellFormed(State()) && customerId in CustomerIds(customers)
      modifies this
      ensures State() == InsertContract(old(State()), customerId, item, total, start)
      ensures contractId == old(nextContractId) && contractId in ContractIds(contracts)
      ensures WellFormed(State())
    {
      InsertContractKeepsWellFormed(State(), customerId, item, total, start);
      contractId := nextContractId;
      contracts := contracts + [Contract(contractId, customerId, item, total, start)];
      nextContractId := nextContractId + 1;
    }

    /** The installment INSERT for an existing contract; the row starts unpaid. */
    method InsertInstallmentRow(contractId: nat, e: Entry)
      requires WellFormed(State()) && contractId in ContractIds(contracts)
      modifies this
      ensures State() == InsertInstallment(old(State()), contractId, e)
      ensures WellFormed(State())
    {
      InsertInstallmentKeepsWellFormed(State(), contractId, e);
      installments := installments + [NewRow(nextInstallmentId, contractId, e)];
      nextInstallmentId := nextInstallmentId + 1;
    }

    /** Creates a customer, a contract for it and the contract's installment schedule,
        all or nothing. `failing` is the number of the statement the database refuses,
        if any (see CommitStatement). Returns the new ContractID. */
    method AddContract(name: string, phone: string, item: string, total: real, months: int,
                       start: Date, failing: Option<nat>)
      returns (r: Result<nat, CreateError>)
      requires Valid()
      modifies this
      ensures Valid()
      ensures r.Err? <==> TransactionFailure(months, start, failing).Some?
      ensures r.Err? ==> r.error == TransactionFailure(months, start, failing).value
      ensures r.Ok? <==>
                Generate(total, months, start).Ok? &&
                (failing.None? || failing.value > CommitStatement(months))
      ensures r.Err? && r.error.BadSchedule? ==> Generate(total, months, start) == Err(r.error.cause)
      ensures months == 0 ==> State() == old(State())
      ensures r.Err? && months != 0 ==>
                State() == RolledBack(old(State()), Executed(old(State()), name, phone, item, total, months, start, failing))
      ensures r.Err? ==>
                && customers == old(customers) && contracts == old(contracts) && installments == old(installments)
                && nextCustomerId >= old(nextCustomerId) && nextContractId >= old(nextContractId)
                && nextInstallmentId >= old(nextInstallmentId)
      ensures r.Ok? ==>
                && r.value == old(nextContractId)
                && customers == old(customers) + [Customer(old(nextCustomerId), name, phone)]
                && contracts == old(contracts) + [Contract(old(nextContractId), old(nextCustomerId), item, total, start)]
                && installments == old(installments) +
                     ScheduleRows(old(nextInstallmentId), old(nextContractId), Generate(total, months, start).value)
                && nextCustomerId == old(nextCustomerId) + 1
                && nextContractId == old(nextContractId) + 1
                && nextInstallmentId == old(nextInstallmentId) + Count(months)
    {
      TransactionFailureMatchesSchedule(total, months, start, failing);
      if months == 0 {
        return Err(BadSchedule(DivisionByZero));
      }
      var saved := State();
      var contractId, failure := Transact(name, phone, item, total, months, start, failing);
      if failure.Some? {
        Rollback(saved);
        return Err(failure.value);
      }
      return Ok(contractId);
    }

    /** The statements of the transaction, from the customer INSERT to the COMMIT, up to
        the first one that fails; the caller rolls back on failure. */
    method Transact(name: string, phone: string, item: string, total: real, months: int,
                    start: Date, failing: Option<nat>)
      returns (contractId: nat, failure: Option<CreateError>)
      requires WellFormed(State()) && months != 0
      modifies this
      ensures WellFormed(State())
      ensures failure == TransactionFailure(months, start, failing)
      ensures State() == Executed(old(State()), name, phone, item, total, months, start, failing)
      ensures nextCustomerId >= old(nextCustomerId) && nextContractId >= old(nextContractId)
      ensures nextInstallmentId >= old(nextInstallmentId)
      ensures failure.None? ==>
                && Count(months) <= MonthsLeft(start)
                && contractId == old(nextContractId)
                && State() == InsertSchedule(
                     InsertContract(InsertCustomer(old(State()), name, phone), old(nextCustomerId), item, total, start),
                     contractId, Share(total, months), Count(months), start)
    {
      if failing == Some(0) {
        return 0, Some(StatementFailed(0));
      }
      ghost var before := State();
      var customerId := InsertCustomerRow(name, phone);

      if failing == Some(1) {
        return 0, Some(StatementFailed(1));
      }
      contractId := InsertContractRow(customerId, item, total, start);

      FailureAfterFirstInserts(months, start, failing);
      ExecutedAfterFirstInserts(before, name, phone, item, total, months, start, failing);
      failure := InsertInstallments(contractId, Share(total, months), months, start, failing);
      if failure.Some? {
        return;
      }
      // The COMMIT, the transaction's last statement
      if failing == Some(CommitStatement(months)) {
        failure := Some(StatementFailed(CommitStatement(months)));
      }
    }

    /** The month loop of `add_new`: computes each due date and
        inserts one installment row per month for contract `contractId`. Stops at the
        first exception, which it returns without undoing the rows already inserted
        (the caller rolls the whole transaction back). */
    method InsertInstallments(contractId: nat, monthly: real, months: int, start: Date,
                              failingStatement: Option<nat>)
      returns (failure: Option<CreateError>)
      requires WellFormed(State()) && contractId in ContractIds(contracts)
      requires failingStatement.None? || failingStatement.value >= 2
      modifies this
      ensures WellFormed(State())
      ensures failure.Some? <==> FirstFailingRow(start, failingStatement) < Count(months)
      ensures failure.None? ==>
                Count(months) <= MonthsLeft(start) &&
                State() == InsertSchedule(old(State()), contractId, monthly, Count(months), start)
      ensures failure.Some? ==>
                var k := FirstFailingRow(start, failingStatement);
                && State() == InsertSchedule(old(State()), contractId, monthly, k, start)
                && failure.value == if k == MonthsLeft(start) then BadSchedule(DueDateOutOfRange(k)) else StatementFailed(2 + k)
    {
      ghost var first := State();
      var i := 0;
      while i < months
        invariant i <= Count(months) && i <= FirstFailingRow(start, failingStatement) <= MonthsLeft(start)
        invariant State() == InsertSchedule(first, contractId, monthly, i, start)
        invariant WellFormed(State())
      {
        FirstFailingRowAt(start, failingStatement, i);
        var due := AddMonths(start, i + 1);
        if due.None? {
          return Some(BadSchedule(DueDateOutOfRange(i)));
        }
        // This row's INSERT
        if failingStatement == Some(2 + i) {
          return Some(StatementFailed(2 + i));
        }
        InsertScheduleRow(first, contractId, monthly, i, start, due.value);
        i := i + 1;
      }
      return None;
    }

    /** One iteration's INSERT, seen as the next row of the schedule. */
    method InsertScheduleRow(ghost first: Tables, contractId: nat, monthly: real, i: nat, start: Date, due: Date)
      requires i < MonthsLeft(start) && Some(due) == AddMonths(start, i + 1)
      requires State() == InsertSchedule(first, contractId, monthly, i, start)
      requires WellFormed(State()) && contractId in ContractIds(contracts)
      modifies this
      ensures State() == InsertSchedule(first, contractId, monthly, i + 1, start)
      ensures WellFormed(State())
    {
      InsertScheduleStep(first, contractId, monthly, i, start);
      InsertInstallmentRow(contractId, Entry(due, monthly));
    }

    /** Marks installment `id` paid. When the database fails (`unavailable`) the error is
        swallowed: nothing changes and the caller is told nothing either way. */
    method Pay(id: nat, now: Instant, unavailable: bool)
      requires Valid()
      modifies this
      ensures Valid()
      ensures State() == if unavailable then old(State())
                         else old(State()).(installments := PayRows(old(installments), id, now))
    {
      if unavailable {
        return;
      }
      PayPreservesWellFormed(State(), id, now);
      UpdateInstallments(id, now);
    }

    /** The UPDATE's scan over the Installments table, changing matching rows in place. */
    method UpdateInstallments(id: nat, now: Instant)
      modifies this`installments
      ensures installments == PayRows(old(installments), id, now)
    {
      ghost var rows := installments;
      var i := 0;
      while i < |installments|
        invariant i <= |installments| == |rows|
        invariant installments == PayPrefix(rows, id, now, i)
      {
        PayPrefixStep(rows, id, now, i);
        if installments[i].id == id {
          var row := installments[i];
          installments := installments[i := row.(isPaid := true, paidAmount := row.amount, paymentDate := Some(now))];
        }
        i := i + 1;
      }
      PayPrefixDone(rows, id, now);
    }
  }
}
