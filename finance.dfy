/** The tuition ledger of src/services/firebase/finance.service.ts: financial accounts keyed by id, each
    with an append-only list of payments, the status rule, creation defaults, partial updates and the
    payment transaction. The document store is an in-memory pair of maps; "now" is a parameter. */
module Finance {
  import opened Wrappers
  import opened Calendar
  import Text

  datatype Status = OnTrack | Overdue | Settled

  datatype PaymentMethod = Cash | BankTransfer | CreditCard

  /** The lastPaymentAmount / lastPaymentDate pair a payment writes onto its account. */
  datatype LastPayment = LastPayment(amount: real, date: Moment)

  datatype Account = Account(
    id: string,
    studentId: string,
    studentName: string,
    grade: string,
    currency: string,
    totalTuition: real,
    totalPaid: real,
    monthlyInstallment: real,
    installmentCount: int,
    planStartDate: Moment,
    nextDueDate: Moment,
    status: Status,
    notes: string,
    lastPayment: Option<LastPayment>)

  datatype Payment = Payment(
    id: string,
    accountId: string,
    amount: real,
    paymentMethod: PaymentMethod,
    paymentDate: Moment,
    note: string,
    createdBy: Option<string>)

  predicate ValidAccount(a: Account) {
    ValidMoment(a.planStartDate) && ValidMoment(a.nextDueDate)
    && (a.lastPayment.Some? ==> ValidMoment(a.lastPayment.value.date))
  }

  // ----- the status rule -----

  /** determineStatus: settled once the tuition is paid, otherwise overdue exactly when the due date
      is strictly in the past. */
  function DetermineStatus(totalTuition: real, totalPaid: real, nextDueDate: Moment, now: Moment): (s: Status)
    ensures s == Settled <==> totalPaid >= totalTuition
    ensures s == Overdue <==> totalPaid < totalTuition && Before(nextDueDate, now)
    ensures s == OnTrack <==> totalPaid < totalTuition && !Before(nextDueDate, now)
  {
    if totalPaid >= totalTuition then Settled
    else if Before(nextDueDate, now) then Overdue
    else OnTrack
  }

  /** The stored status is the one the rule gives for the account's own figures at time `now`. */
  predicate StatusCurrent(a: Account, now: Moment) {
    a.status == DetermineStatus(a.totalTuition, a.totalPaid, a.nextDueDate, now)
  }

  /** Paying more never makes the status worse, and a due date that is not past never makes it overdue. */
  lemma StatusMonotone(tuition: real, paid: real, morePaid: real, due: Moment, now: Moment)
    requires paid <= morePaid
    ensures DetermineStatus(tuition, paid, due, now) == Settled ==> DetermineStatus(tuition, morePaid, due, now) == Settled
    ensures DetermineStatus(tuition, morePaid, due, now) == Overdue ==> DetermineStatus(tuition, paid, due, now) == Overdue
  {
  }

  // ----- reading a stored document -----

  /** A stored account document, with every field possibly missing. */
  datatype AccountDoc = AccountDoc(
    studentId: Option<string>,
    studentName: Option<string>,
    grade: Option<string>,
    currency: Option<string>,
    totalTuition: Option<real>,
    totalPaid: Option<real>,
    monthlyInstallment: Option<real>,
    installmentCount: Option<int>,
    planStartDate: Option<Moment>,
    nextDueDate: Option<Moment>,
    status: Option<Status>,
    notes: Option<string>)

  /** A stored field reads as its value when present and as the default when missing. */
  predicate ReadsAs<T(==)>(field: Option<T>, fallback: T, v: T) {
    (field.Some? ==> v == field.value) && (field.None? ==> v == fallback)
  }

  /** convertAccount: missing strings read as "", a missing currency as "SAR", missing numbers as 0,
      missing dates as now and a missing status as onTrack. The last-payment fields are not read. */
  function ConvertAccount(id: string, doc: AccountDoc, now: Moment): (a: Account)
    ensures a.id == id && a.lastPayment.None?
    ensures a.currency != "" && (a.currency == "SAR" || Some(a.currency) == doc.currency)
    ensures doc.currency.Some? && doc.currency.value != "" ==> a.currency == doc.currency.value
    ensures ReadsAs(doc.studentId, "", a.studentId) && ReadsAs(doc.studentName, "", a.studentName)
    ensures ReadsAs(doc.grade, "", a.grade) && ReadsAs(doc.notes, "", a.notes)
    ensures ReadsAs(doc.totalTuition, 0.0, a.totalTuition) && ReadsAs(doc.totalPaid, 0.0, a.totalPaid)
    ensures ReadsAs(doc.monthlyInstallment, 0.0, a.monthlyInstallment)
    ensures ReadsAs(doc.installmentCount, 0, a.installmentCount)
    ensures ReadsAs(doc.planStartDate, now, a.planStartDate) && ReadsAs(doc.nextDueDate, now, a.nextDueDate)
    ensures ReadsAs(doc.status, OnTrack, a.status)
  {
    Account(
      id,
      doc.studentId.GetOr(""),
      doc.studentName.GetOr(""),
      doc.grade.GetOr(""),
      Text.OrElse(doc.currency, "SAR"),
      doc.totalTuition.GetOr(0.0),
      doc.totalPaid.GetOr(0.0),
      doc.monthlyInstallment.GetOr(0.0),
      doc.installmentCount.GetOr(0),
      doc.planStartDate.GetOr(now),
      doc.nextDueDate.GetOr(now),
      doc.status.GetOr(OnTrack),
      doc.notes.GetOr(""),
      None)
  }

  /** The document the writers of this module store for an account: every field present. */
  function ToDoc(a: Account): AccountDoc {
    AccountDoc(Some(a.studentId), Some(a.studentName), Some(a.grade), Some(a.currency),
      Some(a.totalTuition), Some(a.totalPaid), Some(a.monthlyInstallment), Some(a.installmentCount),
      Some(a.planStartDate), Some(a.nextDueDate), Some(a.status), Some(a.notes))
  }

  /** Reading back a written account gives the account, apart from the last-payment fields, which are
      not read, and an empty currency, which reads as "SAR". */
  lemma ConvertWrittenAccount(a: Account, now: Moment)
    ensures a.currency != "" ==> ConvertAccount(a.id, ToDoc(a), now) == a.(lastPayment := None)
    ensures a.currency == "" ==> ConvertAccount(a.id, ToDoc(a), now) == a.(lastPayment := None, currency := "SAR")
  {
  }

  // ----- creation -----

  datatype CreateInput = CreateInput(
    id: Option<string>,
    studentId: string,
    studentName: string,
    grade: string,
    currency: Option<string>,
    totalTuition: real,
    monthlyInstallment: real,
    installmentCount: int,
    planStartDate: Moment,
    nextDueDate: Option<Moment>,
    notes: Option<string>,
    totalPaid: Option<real>)

  predicate ValidCreateInput(input: CreateInput) {
    ValidMoment(input.planStartDate) && (input.nextDueDate.Some? ==> ValidMoment(input.nextDueDate.value))
  }

  /** The record createFinancialAccount writes under `id`: currency defaults to "SAR", totalPaid to 0,
      nextDueDate to planStartDate, notes to "", and the status is the rule applied to exactly those values.
      `last` is what a merge onto an existing document leaves of its last-payment fields. */
  function NewAccount(id: string, input: CreateInput, now: Moment, last: Option<LastPayment>): (a: Account)
    requires ValidCreateInput(input)
    ensures a.id == id && a.studentId == input.studentId && a.lastPayment == last
    ensures a.currency == Text.OrElse(input.currency, "SAR") && a.currency != ""
    ensures a.totalTuition == input.totalTuition && a.installmentCount == input.installmentCount
    ensures a.studentName == input.studentName && a.grade == input.grade && a.notes == Text.OrElse(input.notes, "")
    ensures a.monthlyInstallment == input.monthlyInstallment && a.planStartDate == input.planStartDate
    ensures input.totalPaid.None? ==> a.totalPaid == 0.0
    ensures input.totalPaid.Some? ==> a.totalPaid == input.totalPaid.value
    ensures input.nextDueDate.None? ==> a.nextDueDate == input.planStartDate
    ensures input.nextDueDate.Some? ==> a.nextDueDate == input.nextDueDate.value
    ensures StatusCurrent(a, now)
    ensures (last.Some? ==> ValidMoment(last.value.date)) ==> ValidAccount(a)
  {
    var due := input.nextDueDate.GetOr(input.planStartDate);
    var paid := input.totalPaid.GetOr(0.0);
    Account(
      id,
      input.studentId,
      input.studentName,
      input.grade,
      Text.OrElse(input.currency, "SAR"),
      input.totalTuition,
      paid,
      input.monthlyInstallment,
      input.installmentCount,
      input.planStartDate,
      due,
      DetermineStatus(input.totalTuition, paid, due, now),
      Text.OrElse(input.notes, ""),
      last)
  }

  /** A new account with positive tuition and nothing paid yet is never settled; it is on track unless
      its first due date is already past. */
  lemma NewAccountNotSettled(id: string, input: CreateInput, now: Moment)
    requires ValidCreateInput(input) && input.totalTuition > 0.0 && input.totalPaid.None?
    ensures NewAccount(id, input, now, None).status != Settled
    ensures NewAccount(id, input, now, None).status == OnTrack
            <==> !Before(input.nextDueDate.GetOr(input.planStartDate), now)
  {
  }

  // ----- partial update -----

  datatype UpdateInput = UpdateInput(
    studentName: Option<string>,
    grade: Option<string>,
    currency: Option<string>,
    totalTuition: Option<real>,
    totalPaid: Option<real>,
    monthlyInstallment: Option<real>,
    installmentCount: Option<int>,
    planStartDate: Option<Moment>,
    nextDueDate: Option<Moment>,
    status: Option<Status>,
    notes: Option<string>)

  predicate ValidUpdateInput(u: UpdateInput) {
    (u.planStartDate.Some? ==> ValidMoment(u.planStartDate.value))
    && (u.nextDueDate.Some? ==> ValidMoment(u.nextDueDate.value))
  }

  /** An update that touches a figure the status depends on. */
  predicate TouchesStatusInputs(u: UpdateInput) {
    u.totalTuition.Some? || u.totalPaid.Some? || u.nextDueDate.Some?
  }

  /** updateFinancialAccount on a stored account: supplied fields replace stored ones, unsupplied ones
      keep their value; when tuition, paid amount or due date is supplied the status is re-derived from
      the merged figures (overriding a supplied status), otherwise a supplied status is kept verbatim. */
  function ApplyUpdate(a: Account, u: UpdateInput, now: Moment): (r: Account)
    ensures r.id == a.id && r.studentId == a.studentId && r.lastPayment == a.lastPayment
    ensures r.studentName == u.studentName.GetOr(a.studentName) && r.grade == u.grade.GetOr(a.grade)
    ensures r.currency == u.currency.GetOr(a.currency) && r.notes == u.notes.GetOr(a.notes)
    ensures r.totalTuition == u.totalTuition.GetOr(a.totalTuition) && r.totalPaid == u.totalPaid.GetOr(a.totalPaid)
    ensures r.monthlyInstallment == u.monthlyInstallment.GetOr(a.monthlyInstallment)
    ensures r.installmentCount == u.installmentCount.GetOr(a.installmentCount)
    ensures r.planStartDate == u.planStartDate.GetOr(a.planStartDate)
    ensures r.nextDueDate == u.nextDueDate.GetOr(a.nextDueDate)
    ensures TouchesStatusInputs(u) ==> StatusCurrent(r, now)
    ensures !TouchesStatusInputs(u) ==> r.status == u.status.GetOr(a.status)
    ensures ValidAccount(a) && ValidUpdateInput(u) ==> ValidAccount(r)
  {
    var merged := a.(
      studentName := u.studentName.GetOr(a.studentName),
      grade := u.grade.GetOr(a.grade),
      currency := u.currency.GetOr(a.currency),
      totalTuition := u.totalTuition.GetOr(a.totalTuition),
      totalPaid := u.totalPaid.GetOr(a.totalPaid),
      monthlyInstallment := u.monthlyInstallment.GetOr(a.monthlyInstallment),
      installmentCount := u.installmentCount.GetOr(a.installmentCount),
      planStartDate := u.planStartDate.GetOr(a.planStartDate),
      nextDueDate := u.nextDueDate.GetOr(a.nextDueDate),
      notes := u.notes.GetOr(a.notes),
      status := u.status.GetOr(a.status));
    if TouchesStatusInputs(u) then
      merged.(status := DetermineStatus(merged.totalTuition, merged.totalPaid, merged.nextDueDate, now))
    else
      merged
  }

  const NoChange := UpdateInput(None, None, None, None, None, None, None, None, None, None, None)

  /** An empty update leaves the account as it is; applying the same update twice is applying it once. */
  lemma UpdateIdempotent(a: Account, u: UpdateInput, now: Moment)
    ensures ApplyUpdate(a, NoChange, now) == a
    ensures ApplyUpdate(ApplyUpdate(a, u, now), u, now) == ApplyUpdate(a, u, now)
  {
  }

  // ----- recording a payment -----

  datatype PaymentInput = PaymentInput(
    amount: real,
    paymentMethod: PaymentMethod,
    paymentDate: Moment,
    note: Option<string>,
    createdBy: Option<string>)

  /** The payment row the transaction appends: note defaults to "", an empty creator is stored as null. */
  function PaymentRow(id: string, accountId: string, p: PaymentInput): (row: Payment)
    ensures row.id == id && row.accountId == accountId && row.amount == p.amount
    ensures row.paymentMethod == p.paymentMethod && row.paymentDate == p.paymentDate
    ensures row.note == Text.OrElse(p.note, "") && row.createdBy == Text.NonEmpty(p.createdBy)
  {
    Payment(id, accountId, p.amount, p.paymentMethod, p.paymentDate, Text.OrElse(p.note, ""), Text.NonEmpty(p.createdBy))
  }

  /** The due date after a payment: unchanged once the new total covers the tuition, otherwise one
      month later by `new Date(y, m + 1, d)`, which rolls over and drops the time of day. */
  function AdvanceDueDate(due: Moment, newTotalPaid: real, totalTuition: real): (r: Moment)
    requires ValidMoment(due)
    ensures ValidMoment(r)
    ensures newTotalPaid >= totalTuition ==> r == due
    ensures newTotalPaid < totalTuition ==> r == Midnight(AddOneMonth(due.date)) && Before(due, r)
  {
    if newTotalPaid >= totalTuition then due else Midnight(AddOneMonth(due.date))
  }

  /** The account the payment transaction writes back. */
  function ApplyPayment(a: Account, p: PaymentInput, now: Moment): (r: Account)
    requires ValidAccount(a) && ValidMoment(p.paymentDate)
    ensures ValidAccount(r)
    ensures r.totalPaid == a.totalPaid + p.amount
    ensures r.nextDueDate == AdvanceDueDate(a.nextDueDate, r.totalPaid, a.totalTuition)
    ensures StatusCurrent(r, now)
    ensures r.lastPayment == Some(LastPayment(p.amount, p.paymentDate))
    ensures r.monthlyInstallment == if a.monthlyInstallment != 0.0 then a.monthlyInstallment else p.amount
    ensures r == a.(totalPaid := r.totalPaid, nextDueDate := r.nextDueDate, status := r.status,
                    lastPayment := r.lastPayment, monthlyInstallment := r.monthlyInstallment)
  {
    var newTotalPaid := a.totalPaid + p.amount;
    var due := AdvanceDueDate(a.nextDueDate, newTotalPaid, a.totalTuition);
    a.(
      totalPaid := newTotalPaid,
      nextDueDate := due,
      status := DetermineStatus(a.totalTuition, newTotalPaid, due, now),
      lastPayment := Some(LastPayment(p.amount, p.paymentDate)),
      monthlyInstallment := if a.monthlyInstallment != 0.0 then a.monthlyInstallment else p.amount)
  }

  /** A payment that leaves a balance pushes the due date strictly later, so the account is on track
      whenever the new due date is not before now. A settled account stays settled under non-negative
      payments and keeps its due date. */
  lemma PaymentEffectOnStatus(a: Account, p: PaymentInput, now: Moment)
    requires ValidAccount(a) && ValidMoment(p.paymentDate)
    ensures var r := ApplyPayment(a, p, now);
      (r.status == Settled <==> a.totalPaid + p.amount >= a.totalTuition)
      && (r.status != Settled ==> Before(a.nextDueDate, r.nextDueDate))
      && (a.totalPaid >= a.totalTuition && p.amount >= 0.0 ==> r.status == Settled && r.nextDueDate == a.nextDueDate)
  {
  }

  function Sum(amounts: seq<real>): real {
    if amounts == [] then 0.0 else Sum(amounts[..|amounts| - 1]) + amounts[|amounts| - 1]
  }

  function Amounts(ps: seq<PaymentInput>): (r: seq<real>)
    ensures |r| == |ps| && forall i :: 0 <= i < |ps| ==> r[i] == ps[i].amount
  {
    seq(|ps|, i requires 0 <= i < |ps| => ps[i].amount)
  }

  predicate ValidPayments(ps: seq<PaymentInput>) {
    forall i :: 0 <= i < |ps| ==> ValidMoment(ps[i].paymentDate)
  }

  /** Recording payments one after another, in order. */
  function ApplyPayments(a: Account, ps: seq<PaymentInput>, now: Moment): (r: Account)
    requires ValidAccount(a) && ValidPayments(ps)
    ensures ValidAccount(r)
    ensures r.id == a.id && r.totalTuition == a.totalTuition && r.studentId == a.studentId
  {
    if ps == [] then a
    else ApplyPayment(ApplyPayments(a, ps[..|ps| - 1], now), ps[|ps| - 1], now)
  }

  /** The paid total grows by exactly the sum of the recorded amounts, and every non-empty run of payments
      leaves the account with the status the rule gives at `now`. */
  lemma {:induction false} ApplyPaymentsTotal(a: Account, ps: seq<PaymentInput>, now: Moment)
    requires ValidAccount(a) && ValidPayments(ps)
    ensures ApplyPayments(a, ps, now).totalPaid == a.totalPaid + Sum(Amounts(ps))
    ensures ps != [] ==> StatusCurrent(ApplyPayments(a, ps, now), now)
  {
    if ps != [] {
      var init := ps[..|ps| - 1];
      ApplyPaymentsTotal(a, init, now);
      assert Amounts(ps)[..|ps| - 1] == Amounts(init);
    }
  }

  /** No run of payments, whatever their amounts, moves the due date backwards. */
  lemma {:induction false} DueDateNeverMovesBack(a: Account, ps: seq<PaymentInput>, now: Moment)
    requires ValidAccount(a) && ValidPayments(ps)
    ensures var r := ApplyPayments(a, ps, now); r.nextDueDate == a.nextDueDate || Before(a.nextDueDate, r.nextDueDate)
  {
    if ps != [] {
      var init := ps[..|ps| - 1];
      DueDateNeverMovesBack(a, init, now);
      var mid := ApplyPayments(a, init, now);
      var r := ApplyPayment(mid, ps[|ps| - 1], now);
      BeforeIsStrictOrder(a.nextDueDate, mid.nextDueDate, r.nextDueDate);
    }
  }

  // ----- the store -----

  /** The financialAccounts collection and the payments sub-collection of each account. */
  class Ledger {
    var accounts: map<string, Account>
    var payments: map<string, seq<Payment>>

    ghost predicate Valid()
      reads this
    {
      (forall id :: id in accounts ==> accounts[id].id == id && ValidAccount(accounts[id]))
      && (forall id :: id in payments ==> id in accounts)
      && (forall id, i :: id in payments && 0 <= i < |payments[id]| ==> payments[id][i].accountId == id)
    }

    constructor ()
      ensures Valid() && accounts == map[] && payments == map[]
    {
      accounts := map[];
      payments := map[];
    }

    /** The payments recorded for an account, oldest first. */
    function PaymentsOf(id: string): (ps: seq<Payment>)
      reads this
      ensures id !in payments ==> ps == []
    {
      if id in payments then payments[id] else []
    }

    /** createFinancialAccount: with a non-empty `input.id` the record is merged under that id (keeping the
        last-payment fields of an existing document), otherwise it is added under the id the store
        generates, `generatedId`. Returns the id used. */
    method CreateAccount(input: CreateInput, now: Moment, generatedId: string) returns (id: string)
      requires Valid() && ValidCreateInput(input)
      requires generatedId !in accounts
      modifies this
      ensures Valid()
      ensures id == if input.id.Some? && input.id.value != "" then input.id.value else generatedId
      ensures var last := if id in old(accounts) then old(accounts)[id].lastPayment else None;
        accounts == old(accounts)[id := NewAccount(id, input, now, last)]
      ensures payments == old(payments)
    {
      if input.id.Some? && input.id.value != "" {
        id := input.id.value;
      } else {
        id := generatedId;
      }
      var last := if id in accounts then accounts[id].lastPayment else None;
      accounts := accounts[id := NewAccount(id, input, now, last)];
    }

    /** updateFinancialAccount: fails, changing nothing, when no account has that id. */
    method UpdateAccount(id: string, u: UpdateInput, now: Moment) returns (ok: bool)
      requires Valid() && ValidUpdateInput(u)
      modifies this
      ensures Valid()
      ensures ok <==> id in old(accounts)
      ensures ok ==> accounts == old(accounts)[id := ApplyUpdate(old(accounts)[id], u, now)]
      ensures !ok ==> accounts == old(accounts)
      ensures payments == old(payments)
    {
      if id !in accounts {
        return false;
      }
      accounts := accounts[id := ApplyUpdate(accounts[id], u, now)];
      ok := true;
    }

    /** addPaymentToAccount, the body of its transaction as one atomic step: fails, changing nothing,
        when the account does not exist; otherwise appends exactly one payment row, with the id the
        store generates, and writes the account back as ApplyPayment gives it. */
    method AddPayment(accountId: string, p: PaymentInput, now: Moment, paymentId: string) returns (ok: bool)
      requires Valid() && ValidMoment(p.paymentDate)
      requires forall i :: 0 <= i < |PaymentsOf(accountId)| ==> PaymentsOf(accountId)[i].id != paymentId
      modifies this
      ensures Valid()
      ensures ok <==> accountId in old(accounts)
      ensures ok ==> accounts == old(accounts)[accountId := ApplyPayment(old(accounts)[accountId], p, now)]
      ensures ok ==> payments == old(payments)[accountId := old(PaymentsOf(accountId)) + [PaymentRow(paymentId, accountId, p)]]
      ensures !ok ==> accounts == old(accounts) && payments == old(payments)
    {
      if accountId !in accounts {
        return false;
      }
      var account := accounts[accountId];
      var updated := ApplyPayment(account, p, now);
      var row := PaymentRow(paymentId, accountId, p);
      payments := payments[accountId := PaymentsOf(accountId) + [row]];
      accounts := accounts[accountId := updated];
      ok := true;
    }
  }
}
