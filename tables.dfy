/** The three tables the application writes (Customers, Contracts, Installments), the
    row-level effect of the pay UPDATE and the rows the contract loop inserts.

    Column defaults are not shown in the repository: a freshly inserted installment is
    assumed to start with IsPaid = 0, PaidAmount = 0 and PaymentDate NULL, and identity
    columns hand out increasing ids. */
module Tables {
  import opened Wrappers
  import opened Dates
  import opened Schedule

  datatype Customer = Customer(id: nat, fullName: string, phoneNumber: string)

  datatype Contract = Contract(id: nat, customerId: nat, itemDescription: string, totalAmount: real, startDate: Date)

  datatype Installment = Installment(
    id: nat,
    contractId: nat,
    dueDate: Date,
    amount: real,
    isPaid: bool,
    paidAmount: real,
    paymentDate: Option<Instant>)

  /** The database contents plus the next value of each identity column. */
  datatype Tables = Tables(
    customers: seq<Customer>,
    contracts: seq<Contract>,
    installments: seq<Installment>,
    nextCustomerId: nat,
    nextContractId: nat,
    nextInstallmentId: nat)

  function CustomerIds(customers: seq<Customer>): set<nat>
  {
    set c | c in customers :: c.id
  }

  function ContractIds(contracts: seq<Contract>): set<nat>
  {
    set c | c in contracts :: c.id
  }

  /** The two states an installment can be in: unpaid with nothing paid, or paid in
      full with a payment stamp. */
  predicate RowStateOk(r: Installment)
  {
    || (!r.isPaid && r.paidAmount == 0.0 && r.paymentDate.None?)
    || (r.isPaid && r.paidAmount == r.amount && r.paymentDate.Some?)
  }

  /** Customer ids are unique (increasing in insertion order) and below the counter. */
  predicate CustomersOk(customers: seq<Customer>, next: nat)
  {
    && (forall i, j :: 0 <= i < j < |customers| ==> customers[i].id < customers[j].id)
    && (forall i :: 0 <= i < |customers| ==> customers[i].id < next)
  }

  /** Contract ids are unique and below the counter; every contract's customer exists. */
  predicate ContractsOk(contracts: seq<Contract>, next: nat, customerIds: set<nat>)
  {
    && (forall i, j :: 0 <= i < j < |contracts| ==> contracts[i].id < contracts[j].id)
    && (forall i :: 0 <= i < |contracts| ==> contracts[i].id < next)
    && (forall i :: 0 <= i < |contracts| ==> contracts[i].customerId in customerIds)
  }

  predicate InstallmentIdsIncreasing(rows: seq<Installment>, next: nat)
  {
    && (forall i, j :: 0 <= i < j < |rows| ==> rows[i].id < rows[j].id)
    && (forall i :: 0 <= i < |rows| ==> rows[i].id < next)
  }

  /** Installment ids are unique and below the counter; every installment's contract
      exists; every installment is in one of its two states. */
  predicate InstallmentsOk(rows: seq<Installment>, next: nat, contractIds: set<nat>)
  {
    && InstallmentIdsIncreasing(rows, next)
    && (forall i :: 0 <= i < |rows| ==> rows[i].contractId in contractIds)
    && (forall i :: 0 <= i < |rows| ==> RowStateOk(rows[i]))
  }

  /** Identity columns are unique and below their counters, foreign keys resolve, and
      every installment is in one of its two states. */
  predicate WellFormed(t: Tables)
  {
    && CustomersOk(t.customers, t.nextCustomerId)
    && ContractsOk(t.contracts, t.nextContractId, CustomerIds(t.customers))
    && InstallmentsOk(t.installments, t.nextInstallmentId, ContractIds(t.contracts))
  }

  // ---------------------------------------------------------------------------
  // The three INSERT statements of a new contract, each taking the next identity value
  // ---------------------------------------------------------------------------

  /** The customer INSERT: one row more, carrying the next identity value; the other
      tables and counters are untouched. */
  function InsertCustomer(t: Tables, name: string, phone: string): (t': Tables)
    ensures |t'.customers| == |t.customers| + 1 && t'.customers[..|t.customers|] == t.customers
    ensures t'.customers[|t.customers|] == Customer(t.nextCustomerId, name, phone)
    ensures t'.nextCustomerId == t.nextCustomerId + 1
    ensures t' == t.(customers := t'.customers, nextCustomerId := t'.nextCustomerId)
  {
    t.(customers := t.customers + [Customer(t.nextCustomerId, name, phone)],
       nextCustomerId := t.nextCustomerId + 1)
  }

  /** The contract INSERT: one row more, carrying the next identity value; the other
      tables and counters are untouched. */
  function InsertContract(t: Tables, customerId: nat, item: string, total: real, start: Date): (t': Tables)
    ensures |t'.contracts| == |t.contracts| + 1 && t'.contracts[..|t.contracts|] == t.contracts
    ensures t'.contracts[|t.contracts|] == Contract(t.nextContractId, customerId, item, total, start)
    ensures t'.nextContractId == t.nextContractId + 1
    ensures t' == t.(contracts := t'.contracts, nextContractId := t'.nextContractId)
  {
    t.(contracts := t.contracts + [Contract(t.nextContractId, customerId, item, total, start)],
       nextContractId := t.nextContractId + 1)
  }

  /** The installment INSERT: one unpaid row more, carrying the next identity value and
      the entry's due date and amount; the other tables and counters are untouched. */
  function InsertInstallment(t: Tables, contractId: nat, e: Entry): (t': Tables)
    ensures |t'.installments| == |t.installments| + 1 && t'.installments[..|t.installments|] == t.installments
    ensures var r := t'.installments[|t.installments|];
      && r.id == t.nextInstallmentId && r.contractId == contractId && r.dueDate == e.due && r.amount == e.amount
      && !r.isPaid && r.paidAmount == 0.0 && r.paymentDate.None?
    ensures t'.nextInstallmentId == t.nextInstallmentId + 1
    ensures t' == t.(installments := t'.installments, nextInstallmentId := t'.nextInstallmentId)
  {
    t.(installments := t.installments + [NewRow(t.nextInstallmentId, contractId, e)],
       nextInstallmentId := t.nextInstallmentId + 1)
  }

  /** A new customer gets a fresh id and keeps the tables well formed. */
  lemma InsertCustomerKeepsWellFormed(t: Tables, name: string, phone: string)
    requires WellFormed(t)
    ensures WellFormed(InsertCustomer(t, name, phone))
    ensures t.nextCustomerId !in CustomerIds(t.customers)
    ensures CustomerIds(InsertCustomer(t, name, phone).customers) == CustomerIds(t.customers) + {t.nextCustomerId}
  {
    var customers' := InsertCustomer(t, name, phone).customers;
    assert CustomerIds(customers') == CustomerIds(t.customers) + {t.nextCustomerId} by {
      assert customers'[|t.customers|].id == t.nextCustomerId;
    }
    assert t.nextCustomerId !in CustomerIds(t.customers) by {
      forall c | c in t.customers ensures c.id != t.nextCustomerId {
        var k :| 0 <= k < |t.customers| && t.customers[k] == c;
      }
    }
  }

  /** A new contract that references an existing customer gets a fresh id and keeps
      the tables well formed. */
  lemma InsertContractKeepsWellFormed(t: Tables, customerId: nat, item: string, total: real, start: Date)
    requires WellFormed(t) && customerId in CustomerIds(t.customers)
    ensures WellFormed(InsertContract(t, customerId, item, total, start))
    ensures t.nextContractId !in ContractIds(t.contracts)
    ensures ContractIds(InsertContract(t, customerId, item, total, start).contracts) == ContractIds(t.contracts) + {t.nextContractId}
  {
    var contracts' := InsertContract(t, customerId, item, total, start).contracts;
    assert ContractIds(contracts') == ContractIds(t.contracts) + {t.nextContractId} by {
      assert contracts'[|t.contracts|].id == t.nextContractId;
    }
    assert t.nextContractId !in ContractIds(t.contracts) by {
      forall c | c in t.contracts ensures c.id != t.nextContractId {
        var k :| 0 <= k < |t.contracts| && t.contracts[k] == c;
      }
    }
  }

  /** A new unpaid installment of an existing contract keeps the tables well formed. */
  lemma InsertInstallmentKeepsWellFormed(t: Tables, contractId: nat, e: Entry)
    requires WellFormed(t) && contractId in ContractIds(t.contracts)
    ensures WellFormed(InsertInstallment(t, contractId, e))
  {
  }

  // ---------------------------------------------------------------------------
  // The pay UPDATE: the row with the given id becomes paid in full, stamped with the
  // current instant
  // ---------------------------------------------------------------------------

  /** The UPDATE's effect on one row: a matching row becomes paid in full with the
      given stamp; id, contract, due date and amount never change. */
  function PayRow(r: Installment, id: nat, now: Instant): (r': Installment)
    ensures r'.id == r.id && r'.contractId == r.contractId && r'.dueDate == r.dueDate && r'.amount == r.amount
    ensures r.id == id ==> r'.isPaid && r'.paidAmount == r.amount && r'.paymentDate == Some(now)
    ensures r.id != id ==> r' == r
    ensures RowStateOk(r) ==> RowStateOk(r')
  {
    if r.id == id then r.(isPaid := true, paidAmount := r.amount, paymentDate := Some(now)) else r
  }

  /** The UPDATE over the whole table: same rows in the same order, where only the rows
      whose id matches change, each becoming paid in full with the given stamp. */
  function PayRows(rows: seq<Installment>, id: nat, now: Instant): (rows': seq<Installment>)
    ensures |rows'| == |rows|
    ensures forall i :: 0 <= i < |rows| && rows[i].id != id ==> rows'[i] == rows[i]
    ensures forall i :: 0 <= i < |rows| && rows[i].id == id ==>
              && rows'[i].isPaid && rows'[i].paidAmount == rows[i].amount && rows'[i].paymentDate == Some(now)
              && rows'[i].id == rows[i].id && rows'[i].contractId == rows[i].contractId
              && rows'[i].dueDate == rows[i].dueDate && rows'[i].amount == rows[i].amount
  {
    seq(|rows|, i requires 0 <= i < |rows| => PayRow(rows[i], id, now))
  }

  /** The table while the UPDATE is part-way through: the first i rows done. */
  function PayPrefix(rows: seq<Installment>, id: nat, now: Instant, i: nat): seq<Installment>
    requires i <= |rows|
  {
    PayRows(rows[..i], id, now) + rows[i..]
  }

  /** The UPDATE's scan, one row further on. */
  lemma PayPrefixStep(rows: seq<Installment>, id: nat, now: Instant, i: nat)
    requires i < |rows|
    ensures PayPrefix(rows, id, now, i)[i] == rows[i]
    ensures PayPrefix(rows, id, now, i + 1) == PayPrefix(rows, id, now, i)[i := PayRow(rows[i], id, now)]
    ensures rows[i].id != id ==> PayPrefix(rows, id, now, i + 1) == PayPrefix(rows, id, now, i)
  {
  }

  /** The scan over the whole table is the UPDATE. */
  lemma PayPrefixDone(rows: seq<Installment>, id: nat, now: Instant)
    ensures PayPrefix(rows, id, now, |rows|) == PayRows(rows, id, now)
  {
    assert rows[..|rows|] == rows;
  }

  /** Paying an id that no row carries changes nothing (and raises nothing). */
  lemma PayMissingIdIsNoOp(rows: seq<Installment>, id: nat, now: Instant)
    requires forall i :: 0 <= i < |rows| ==> rows[i].id != id
    ensures PayRows(rows, id, now) == rows
  {
  }

  /** With unique ids the UPDATE is a single-row update. */
  lemma PayIsSingleRowUpdate(rows: seq<Installment>, next: nat, j: nat, now: Instant)
    requires InstallmentIdsIncreasing(rows, next)
    requires j < |rows|
    ensures PayRows(rows, rows[j].id, now) == rows[j := PayRow(rows[j], rows[j].id, now)]
  {
  }

  /** Paying again leaves IsPaid and PaidAmount as they were; only the payment
      stamp is replaced by the later one. */
  lemma PayAgainOnlyRestamps(rows: seq<Installment>, id: nat, first: Instant, second: Instant)
    ensures PayRows(PayRows(rows, id, first), id, second) == PayRows(rows, id, second)
    ensures forall i :: 0 <= i < |rows| ==>
              var once, twice := PayRows(rows, id, first)[i], PayRows(PayRows(rows, id, first), id, second)[i];
              twice == once.(paymentDate := twice.paymentDate)
  {
  }

  /** Paying keeps every table well formed: the paid row moves to the paid state and
      no id or foreign key changes. */
  lemma PayPreservesWellFormed(t: Tables, id: nat, now: Instant)
    requires WellFormed(t)
    ensures WellFormed(t.(installments := PayRows(t.installments, id, now)))
  {
  }

  // ---------------------------------------------------------------------------
  // Transaction rollback
  // ---------------------------------------------------------------------------

  /** The tables after rolling back to `saved` from `current`: every row as in `saved`,
      the identity counters as in `current` (an identity value once handed out is not
      reused). */
  function RolledBack(saved: Tables, current: Tables): Tables
  {
    saved.(nextCustomerId := current.nextCustomerId,
           nextContractId := current.nextContractId,
           nextInstallmentId := current.nextInstallmentId)
  }

  /** Rolling back to well-formed tables keeps them well formed, provided the counters
      only advanced in between. */
  lemma RolledBackIsWellFormed(saved: Tables, current: Tables)
    requires WellFormed(saved)
    requires current.nextCustomerId >= saved.nextCustomerId && current.nextContractId >= saved.nextContractId
    requires current.nextInstallmentId >= saved.nextInstallmentId
    ensures WellFormed(RolledBack(saved, current))
  {
  }

  // ---------------------------------------------------------------------------
  // The installment rows the month loop inserts, one per schedule entry
  // ---------------------------------------------------------------------------

  /** A new, unpaid installment row for one schedule entry. */
  function NewRow(id: nat, contractId: nat, e: Entry): Installment
  {
    Installment(id, contractId, e.due, e.amount, false, 0.0, None)
  }

  /** The rows inserted for a schedule, numbered from `firstId`. */
  function ScheduleRows(firstId: nat, contractId: nat, es: seq<Entry>): seq<Installment>
  {
    seq(|es|, i requires 0 <= i < |es| => NewRow(firstId + i, contractId, es[i]))
  }

  /** The tables after the first n rows of a schedule have been inserted for a contract. */
  function InsertSchedule(t: Tables, contractId: nat, amount: real, n: nat, start: Date): Tables
    requires n <= MonthsLeft(start)
  {
    t.(installments := t.installments + ScheduleRows(t.nextInstallmentId, contractId, Entries(amount, n, start)),
       nextInstallmentId := t.nextInstallmentId + n)
  }

  /** One more INSERT of the loop extends the inserted schedule by the next month's row. */
  lemma InsertScheduleStep(t: Tables, contractId: nat, amount: real, i: nat, start: Date)
    requires i < MonthsLeft(start)
    ensures InsertInstallment(InsertSchedule(t, contractId, amount, i, start), contractId, Entry(DueDate(start, i), amount))
              == InsertSchedule(t, contractId, amount, i + 1, start)
  {
    var rows := ScheduleRows(t.nextInstallmentId, contractId, Entries(amount, i, start));
    var row := NewRow(t.nextInstallmentId + i, contractId, Entry(DueDate(start, i), amount));
    assert ScheduleRows(t.nextInstallmentId, contractId, Entries(amount, i + 1, start)) == rows + [row];
    assert t.installments + rows + [row] == t.installments + (rows + [row]);
  }
}
