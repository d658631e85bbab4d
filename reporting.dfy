/** The accountant dashboard of src/pages/accountant/AccountantDashboard.tsx: grouping payments by
    account, the summary roll-up, the students still without an account, the account search, the
    report months and the per-month due/paid/outstanding rows, the new-account form checks, the
    tuition and payment dialogs, and the payment statement. */
module Reporting {
  import opened Wrappers
  import opened Calendar
  import opened Finance
  import opened Entities
  import Text
  import Sorting
  import Grouping

  // ----- payments grouped by account -----

  function AccountIdOf(p: Payment): string {
    p.accountId
  }

  function AccountIds(payments: seq<Payment>): set<string> {
    set p | p in payments :: p.accountId
  }

  /** paymentsByAccount: one bucket per account id that has payments, each holding that account's
      payments in list order. */
  method PaymentsByAccount(payments: seq<Payment>) returns (groups: map<string, seq<Payment>>)
    ensures Grouped(groups, payments)
  {
    groups := map[];
    var i := 0;
    while i < |payments|
      invariant 0 <= i <= |payments|
      invariant Grouped(groups, payments[..i])
    {
      var p := payments[i];
      assert payments[..i + 1] == payments[..i] + [p];
      BucketStep(groups, payments[..i], p);
      groups := AddToBucket(groups, p);
      i := i + 1;
    }
    assert payments[..|payments|] == payments;
  }

  /** The buckets are keyed by exactly the account ids that occur, and each holds that account's
      payments in list order. */
  predicate Grouped(groups: map<string, seq<Payment>>, payments: seq<Payment>) {
    groups.Keys == AccountIds(payments)
    && forall id :: id in groups ==> groups[id] == Grouping.Select(payments, AccountIdOf, id)
  }

  /** `(acc[p.accountId] ||= []).push(p)`: the payment goes to the end of its account's bucket, which is
      started when the id is new. */
  function AddToBucket(groups: map<string, seq<Payment>>, p: Payment): map<string, seq<Payment>> {
    groups[p.accountId := (if p.accountId in groups then groups[p.accountId] else []) + [p]]
  }

  /** One step of the grouping loop keeps the buckets grouped. */
  lemma BucketStep(groups: map<string, seq<Payment>>, prefix: seq<Payment>, p: Payment)
    requires Grouped(groups, prefix)
    ensures Grouped(AddToBucket(groups, p), prefix + [p])
  {
    var after := AddToBucket(groups, p);
    assert AccountIds(prefix + [p]) == AccountIds(prefix) + {p.accountId};
    forall id | id in after ensures after[id] == Grouping.Select(prefix + [p], AccountIdOf, id) {
      Grouping.SelectSnoc(prefix, p, AccountIdOf, id);
      if id == p.accountId && p.accountId !in groups {
        assert forall i :: 0 <= i < |prefix| ==> prefix[i] in prefix;
        Grouping.SelectAbsent(prefix, AccountIdOf, id);
      }
    }
  }

  /** Every payment lands in exactly one bucket: the bucket sizes add up to the number of payments. */
  lemma BucketSizesAddUp(payments: seq<Payment>)
    ensures Grouping.TotalSize(payments, AccountIdOf, Grouping.KeysInOrder(payments, AccountIdOf)) == |payments|
  {
    var keys := Grouping.KeysInOrder(payments, AccountIdOf);
    forall i | 0 <= i < |payments| ensures AccountIdOf(payments[i]) in keys {
    }
    Grouping.GroupSizesSum(payments, AccountIdOf, keys);
  }

  // ----- summary -----

  datatype Summary = Summary(
    totalTuition: real,
    totalPaid: real,
    totalRemaining: real,
    overdueCount: nat,
    collectionRate: real)

  function TuitionOf(a: Account): real { a.totalTuition }

  function PaidOf(a: Account): real { a.totalPaid }

  /** Math.max(totalTuition - totalPaid, 0). */
  function RemainingOf(a: Account): (r: real)
    ensures r >= 0.0 && r >= a.totalTuition - a.totalPaid
    ensures r == a.totalTuition - a.totalPaid || (r == 0.0 && a.totalPaid >= a.totalTuition)
  {
    if a.totalTuition - a.totalPaid > 0.0 then a.totalTuition - a.totalPaid else 0.0
  }

  function OverdueOf(a: Account): real {
    if a.status == Overdue then 1.0 else 0.0
  }

  /** totals.totalPaid / totals.totalTuition * 100, or 0 when there is no tuition. */
  function CollectionRate(totalTuition: real, totalPaid: real): (rate: real)
    ensures totalTuition <= 0.0 ==> rate == 0.0
    ensures totalTuition > 0.0 ==> rate * totalTuition == totalPaid * 100.0
  {
    if totalTuition > 0.0 then totalPaid / totalTuition * 100.0 else 0.0
  }

  function CountOverdue(accounts: seq<Account>): (n: nat)
    ensures n <= |accounts|
    ensures n as real == Grouping.SumOf(accounts, OverdueOf)
  {
    if accounts == [] then 0
    else CountOverdue(accounts[..|accounts| - 1]) + (if accounts[|accounts| - 1].status == Overdue then 1 else 0)
  }

  /** summary: the reduce over the account list into running totals. */
  method ComputeSummary(accounts: seq<Account>) returns (s: Summary)
    ensures s.totalTuition == Grouping.SumOf(accounts, TuitionOf)
    ensures s.totalPaid == Grouping.SumOf(accounts, PaidOf)
    ensures s.totalRemaining == Grouping.SumOf(accounts, RemainingOf)
    ensures s.overdueCount == CountOverdue(accounts)
    ensures s.collectionRate == CollectionRate(s.totalTuition, s.totalPaid)
  {
    var tuition, paid, remaining, overdue := 0.0, 0.0, 0.0, 0;
    var i := 0;
    while i < |accounts|
      invariant 0 <= i <= |accounts|
      invariant tuition == Grouping.SumOf(accounts[..i], TuitionOf)
      invariant paid == Grouping.SumOf(accounts[..i], PaidOf)
      invariant remaining == Grouping.SumOf(accounts[..i], RemainingOf)
      invariant overdue == CountOverdue(accounts[..i])
    {
      var a := accounts[i];
      assert accounts[..i + 1][..i] == accounts[..i];
      tuition := tuition + a.totalTuition;
      paid := paid + a.totalPaid;
      remaining := remaining + RemainingOf(a);
      if a.status == Overdue {
        overdue := overdue + 1;
      }
      i := i + 1;
    }
    assert accounts[..|accounts|] == accounts;
    s := Summary(tuition, paid, remaining, overdue, CollectionRate(tuition, paid));
  }

  predicate NonNegativeFigures(accounts: seq<Account>) {
    forall i :: 0 <= i < |accounts| ==> accounts[i].totalTuition >= 0.0 && accounts[i].totalPaid >= 0.0
  }

  predicate NoOverpayment(accounts: seq<Account>) {
    forall i :: 0 <= i < |accounts| ==> accounts[i].totalPaid <= accounts[i].totalTuition
  }

  /** The outstanding total lies between the plain difference of the totals and the total tuition, and is
      exactly that difference when no account is overpaid. */
  lemma {:induction false} RemainingBounds(accounts: seq<Account>)
    requires NonNegativeFigures(accounts)
    ensures var t := Grouping.SumOf(accounts, TuitionOf);
      var p := Grouping.SumOf(accounts, PaidOf);
      var r := Grouping.SumOf(accounts, RemainingOf);
      0.0 <= r <= t && t - p <= r && (NoOverpayment(accounts) ==> r == t - p)
  {
    if accounts != [] {
      var init := accounts[..|accounts| - 1];
      assert NonNegativeFigures(init) by {
        forall i | 0 <= i < |init| ensures init[i] == accounts[i] { }
      }
      assert NoOverpayment(accounts) ==> NoOverpayment(init) by {
        forall i | 0 <= i < |init| ensures init[i] == accounts[i] { }
      }
      RemainingBounds(init);
    }
  }

  /** The collection rate is at most 100 exactly when no more than the total tuition has been collected. */
  lemma CollectionRateBounds(totalTuition: real, totalPaid: real)
    requires totalTuition > 0.0 && totalPaid >= 0.0
    ensures 0.0 <= CollectionRate(totalTuition, totalPaid)
    ensures CollectionRate(totalTuition, totalPaid) <= 100.0 <==> totalPaid <= totalTuition
  {
    var rate := CollectionRate(totalTuition, totalPaid);
    assert rate == totalPaid / totalTuition * 100.0;
    assert totalPaid <= totalTuition <==> totalPaid / totalTuition <= 1.0;
  }

  // ----- students without an account -----

  /** accountsByStudent: the account of each student id; when two accounts name the same student the
      later one wins. */
  function AccountsByStudent(accounts: seq<Account>): (m: map<string, Account>)
    ensures forall id :: id in m <==> exists i :: 0 <= i < |accounts| && accounts[i].studentId == id
    ensures forall id :: id in m ==> m[id] in accounts && m[id].studentId == id
  {
    if accounts == [] then map[]
    else
      var init := accounts[..|accounts| - 1];
      var last := accounts[|accounts| - 1];
      assert forall i :: 0 <= i < |init| ==> init[i] == accounts[i];
      AccountsByStudent(init)[last.studentId := last]
  }

  /** availableStudents: the students no account belongs to (none when the list is empty). */
  function AvailableStudents(students: seq<Student>, accounts: seq<Account>): (r: seq<Student>)
    ensures forall s :: s in r <==> s in students && forall i :: 0 <= i < |accounts| ==> accounts[i].studentId != s.id
  {
    if |students| == 0 then []
    else
      var byStudent := AccountsByStudent(accounts);
      Grouping.Filter(students, (s: Student) => s.id !in byStudent)
  }

  // ----- account search -----

  /** filteredAccounts: the search text matches the student name or grade, ignoring case, and the status
      filter is either "all" (None) or the account's stored status. */
  function FilteredAccounts(accounts: seq<Account>, search: string, statusFilter: Option<Status>): (r: seq<Account>)
    ensures forall a :: a in r <==> (a in accounts
      && (Text.ContainsIgnoreCase(a.studentName, search) || Text.ContainsIgnoreCase(a.grade, search))
      && (statusFilter.None? || a.status == statusFilter.value))
  {
    Grouping.Filter(accounts, (a: Account) =>
      (Text.ContainsIgnoreCase(a.studentName, search) || Text.ContainsIgnoreCase(a.grade, search))
      && (statusFilter.None? || a.status == statusFilter.value))
  }

  /** With an empty search and the "all" filter every account is listed, in order. */
  lemma EmptySearchListsAll(accounts: seq<Account>)
    ensures FilteredAccounts(accounts, "", None) == accounts
  {
    forall i | 0 <= i < |accounts| ensures Text.ContainsIgnoreCase(accounts[i].studentName, "") {
      Text.EmptyQueryMatches(accounts[i].studentName);
    }
  }

  // ----- the "yyyy-MM" month key -----

  /** format(date, "yyyy-MM") for a month of a year in 0..9999: at least four year digits, a dash, and
      two month digits. Read back the way the report does, it names its month, except that a year
      below 100 comes back as that year of the 1900s. */
  function MonthKey(k: YearMonth): (key: string)
    requires ValidYearMonth(k) && 0 <= k.year <= 9999
    ensures |key| >= 7 && key[|key| - 3] == '-'
    ensures ParseMonthKey(key) == Some(YearMonth(if k.year <= 99 then 1900 + k.year else k.year, k.month))
  {
    var a := Text.PadStart(Text.NatToString(k.year), 4);
    var b := Text.PadStart(Text.NatToString(k.month), 2);
    Text.NatToStringShort(k.month);
    JoinedSlices(a, b);
    DigitsPart(k.year, 4);
    DigitsPart(k.month, 2);
    ParseDigitPair(a, b);
    a + "-" + b
  }

  lemma JoinedSlices(a: string, b: string)
    requires |a| >= 4 && |b| == 2
    ensures var key := a + "-" + b;
      |key| >= 7 && key[|key| - 3] == '-' && key[..|key| - 3] == a && key[|key| - 2..] == b
  {
    var key := a + "-" + b;
    assert key[..|key| - 3] == a;
    assert key[|key| - 2..] == b;
  }

  /** `new Date(Number(key.split("-")[0]), Number(key.split("-")[1]) - 1, 1)` read back as a month:
      None when a part is missing or not a number, and a two-digit year means 19xx, as it does for Date. */
  function ParseMonthKey(s: string): (r: Option<YearMonth>)
    ensures r.Some? ==> ValidYearMonth(r.value) && r.value.year >= 100
    ensures r.Some? ==> |Text.Split(s, "-")| >= 2
  {
    var parts := Text.Split(s, "-");
    if |parts| < 2 || parts[0] == [] || parts[1] == [] || !Text.AllDigits(parts[0]) || !Text.AllDigits(parts[1]) then None
    else
      var y := Text.DigitsValue(parts[0]);
      var m := Text.DigitsValue(parts[1]);
      if m < 1 || m > 12 then None
      else Some(YearMonth(if y <= 99 then 1900 + y else y, m))
  }

  /** The key names its month: parsing it gives the month back for the four-digit years. */
  lemma MonthKeyRoundTrip(k: YearMonth)
    requires ValidYearMonth(k) && 100 <= k.year <= 9999
    ensures ParseMonthKey(MonthKey(k)) == Some(k)
  {
    var a := Text.PadStart(Text.NatToString(k.year), 4);
    var b := Text.PadStart(Text.NatToString(k.month), 2);
    DigitsPart(k.year, 4);
    DigitsPart(k.month, 2);
    ParseDigitPair(a, b);
  }

  /** Two runs of digits joined by a dash split back into the two runs. */
  lemma ParseDigitPair(a: string, b: string)
    requires a != [] && b != [] && Text.AllDigits(a) && Text.AllDigits(b)
    ensures var y := Text.DigitsValue(a);
      var m := Text.DigitsValue(b);
      ParseMonthKey(a + "-" + b) == if m < 1 || m > 12 then None else Some(YearMonth(if y <= 99 then 1900 + y else y, m))
  {
    Text.DigitsAvoidDash(a);
    Text.DigitsAvoidDash(b);
    assert Text.Join([a, b], "-") == a + "-" + b by {
      assert [a, b][1..] == [b];
    }
    Text.SplitJoin([a, b], "-");
  }

  /** A zero-padded decimal numeral: non-empty digits whose value is the number. */
  lemma DigitsPart(n: nat, width: nat)
    ensures var s := Text.PadStart(Text.NatToString(n), width);
      s != [] && Text.AllDigits(s) && Text.DigitsValue(s) == n
  {
    Text.PadStartValue(Text.NatToString(n), width);
    Text.NatToStringValue(n);
  }

  /** Two months share a key only when they are the same month, so comparing keys compares months. */
  lemma MonthKeyInjective(k1: YearMonth, k2: YearMonth)
    requires ValidYearMonth(k1) && 100 <= k1.year <= 9999
    requires ValidYearMonth(k2) && 100 <= k2.year <= 9999
    ensures MonthKey(k1) == MonthKey(k2) <==> k1 == k2
  {
    MonthKeyRoundTrip(k1);
    MonthKeyRoundTrip(k2);
  }

  // ----- report months -----

  function PaymentMonth(p: Payment): YearMonth {
    MonthOf(p.paymentDate.date)
  }

  /** The months the report covers: the current month, every account's due-date and plan-start month,
      and every payment month. */
  function ReportMonths(today: Date, accounts: seq<Account>, payments: seq<Payment>): set<YearMonth> {
    {MonthOf(today)}
    + (set a | a in accounts :: MonthOf(a.nextDueDate.date))
    + (set a | a in accounts :: MonthOf(a.planStartDate.date))
    + (set p | p in payments :: PaymentMonth(p))
  }

  function MonthLe(a: YearMonth, b: YearMonth): bool {
    MonthIndex(a) <= MonthIndex(b)
  }

  predicate StrictlyIncreasing(months: seq<YearMonth>) {
    forall i, j :: 0 <= i < j < |months| ==> MonthIndex(months[i]) < MonthIndex(months[j])
  }

  /** Set.prototype.add on the insertion-ordered list of distinct months. */
  function AddMonth(months: seq<YearMonth>, k: YearMonth): (r: seq<YearMonth>)
    requires Grouping.Distinct(months)
    ensures Grouping.Distinct(r)
    ensures forall x :: x in r <==> x in months || x == k
  {
    if k in months then months else months + [k]
  }

  predicate AllValidMonths(months: seq<YearMonth>) {
    forall i :: 0 <= i < |months| ==> ValidYearMonth(months[i])
  }

  predicate ValidAccounts(accounts: seq<Account>) {
    forall i :: 0 <= i < |accounts| ==> ValidAccount(accounts[i])
  }

  predicate ValidPaymentDates(payments: seq<Payment>) {
    forall i :: 0 <= i < |payments| ==> ValidMoment(payments[i].paymentDate)
  }

  /** monthsForReport: the report months, each once, in chronological order. */
  method MonthsForReport(today: Date, accounts: seq<Account>, payments: seq<Payment>) returns (months: seq<YearMonth>)
    requires ValidDate(today) && ValidAccounts(accounts) && ValidPaymentDates(payments)
    ensures forall k :: k in months <==> k in ReportMonths(today, accounts, payments)
    ensures StrictlyIncreasing(months)
  {
    var seen := AccountMonths(today, accounts);
    seen := AddPaymentMonths(seen, payments);
    months := Sorting.SortBy(seen, MonthLe);
    SortedMonthsIncrease(seen);
  }

  /** The first loop of monthsForReport: the current month, then each account's due-date and plan-start
      month. */
  method AccountMonths(today: Date, accounts: seq<Account>) returns (seen: seq<YearMonth>)
    requires ValidDate(today) && ValidAccounts(accounts)
    ensures Grouping.Distinct(seen) && AllValidMonths(seen)
    ensures forall k :: k in seen <==> (k == MonthOf(today)
      || (exists a :: a in accounts && (k == MonthOf(a.nextDueDate.date) || k == MonthOf(a.planStartDate.date))))
  {
    seen := AddMonth([], MonthOf(today));
    var i := 0;
    while i < |accounts|
      invariant 0 <= i <= |accounts|
      invariant Grouping.Distinct(seen) && AllValidMonths(seen)
      invariant forall k :: k in seen <==> (k == MonthOf(today)
        || (exists j :: 0 <= j < i && (k == MonthOf(accounts[j].nextDueDate.date) || k == MonthOf(accounts[j].planStartDate.date))))
    {
      seen := AddMonth(seen, MonthOf(accounts[i].nextDueDate.date));
      seen := AddMonth(seen, MonthOf(accounts[i].planStartDate.date));
      i := i + 1;
    }
  }

  /** The second loop of monthsForReport: each payment's month. */
  method AddPaymentMonths(start: seq<YearMonth>, payments: seq<Payment>) returns (seen: seq<YearMonth>)
    requires Grouping.Distinct(start) && AllValidMonths(start) && ValidPaymentDates(payments)
    ensures Grouping.Distinct(seen) && AllValidMonths(seen)
    ensures forall k :: k in seen <==> k in start || exists p :: p in payments && k == PaymentMonth(p)
  {
    seen := start;
    var j := 0;
    while j < |payments|
      invariant 0 <= j <= |payments|
      invariant Grouping.Distinct(seen) && AllValidMonths(seen)
      invariant forall k :: k in seen <==> k in start || exists q :: 0 <= q < j && k == PaymentMonth(payments[q])
    {
      seen := AddMonth(seen, PaymentMonth(payments[j]));
      j := j + 1;
    }
  }

  lemma MonthLeIsTotalPreorder()
    ensures Sorting.TotalPreorder(MonthLe)
  {
  }

  /** Sorting distinct valid months by date leaves them strictly increasing, with the same members. */
  lemma SortedMonthsIncrease(seen: seq<YearMonth>)
    requires Grouping.Distinct(seen) && AllValidMonths(seen)
    ensures StrictlyIncreasing(Sorting.SortBy(seen, MonthLe))
    ensures forall k :: k in Sorting.SortBy(seen, MonthLe) <==> k in seen
  {
    var months := Sorting.SortBy(seen, MonthLe);
    MonthLeIsTotalPreorder();
    Sorting.SortBySorted(seen, MonthLe);
    Grouping.SameMembers(seen, months);
    Grouping.DistinctPermutation(seen, months);
    forall i, j | 0 <= i < j < |months| ensures MonthIndex(months[i]) < MonthIndex(months[j]) {
      assert MonthLe(months[i], months[j]);
      assert months[i] in seen && months[j] in seen;
      MonthIndexInjective(months[i], months[j]);
    }
  }

  // ----- the monthly report -----

  datatype MonthRow = MonthRow(month: YearMonth, totalDue: real, totalPaid: real, outstanding: real)

  /** startOfMonth(planStartDate) <= month <= addMonths(start, installmentCount - 1). */
  predicate InPlanWindow(month: YearMonth, a: Account) {
    var start := MonthOf(a.planStartDate.date);
    MonthIndex(start) <= MonthIndex(month) <= MonthIndex(AddMonths(start, a.installmentCount - 1))
  }

  /** An account is due in exactly the installmentCount consecutive months from its plan-start month, and
      in none when the count is not positive. */
  lemma PlanWindowMonths(a: Account, j: int)
    ensures InPlanWindow(AddMonths(MonthOf(a.planStartDate.date), j), a) <==> 0 <= j < a.installmentCount
  {
  }

  function DueIn(month: YearMonth, accounts: seq<Account>): real {
    if accounts == [] then 0.0
    else
      var a := accounts[|accounts| - 1];
      DueIn(month, accounts[..|accounts| - 1]) + (if InPlanWindow(month, a) then a.monthlyInstallment else 0.0)
  }

  function AmountOf(p: Payment): real {
    p.amount
  }

  /** The payments whose "yyyy-MM" key is the month's key, summed. */
  function PaidIn(month: YearMonth, payments: seq<Payment>): real {
    Grouping.SumOf(Grouping.Select(payments, PaymentMonth, month), AmountOf)
  }

  /** monthlyReport: one row per report month, in the same order. */
  function MonthlyReport(months: seq<YearMonth>, accounts: seq<Account>, payments: seq<Payment>): (rows: seq<MonthRow>)
    ensures |rows| == |months|
    ensures forall i :: 0 <= i < |rows| ==> (rows[i].month == months[i]
      && rows[i].totalDue == DueIn(months[i], accounts) && rows[i].totalPaid == PaidIn(months[i], payments)
      && rows[i].outstanding >= 0.0 && rows[i].outstanding >= rows[i].totalDue - rows[i].totalPaid
      && (rows[i].outstanding == 0.0 || rows[i].outstanding == rows[i].totalDue - rows[i].totalPaid))
  {
    if months == [] then []
    else
      var m := months[0];
      var due := DueIn(m, accounts);
      var paid := PaidIn(m, payments);
      [MonthRow(m, due, paid, if due - paid > 0.0 then due - paid else 0.0)] + MonthlyReport(months[1..], accounts, payments)
  }

  function PaidTotal(rows: seq<MonthRow>): real {
    if rows == [] then 0.0 else rows[0].totalPaid + PaidTotal(rows[1..])
  }

  /** Over the report months every payment is counted in exactly one row: the rows' paid amounts add up
      to the sum of all payments. */
  lemma ReportPaidAddsUp(months: seq<YearMonth>, accounts: seq<Account>, payments: seq<Payment>)
    requires Grouping.Distinct(months)
    requires forall i :: 0 <= i < |payments| ==> PaymentMonth(payments[i]) in months
    ensures PaidTotal(MonthlyReport(months, accounts, payments)) == Grouping.SumOf(payments, AmountOf)
  {
    ReportPaidIsTotalSum(months, accounts, payments);
    Grouping.GroupSumsAdd(payments, PaymentMonth, AmountOf, months);
  }

  lemma {:induction false} ReportPaidIsTotalSum(months: seq<YearMonth>, accounts: seq<Account>, payments: seq<Payment>)
    ensures PaidTotal(MonthlyReport(months, accounts, payments)) == Grouping.TotalSum(payments, PaymentMonth, AmountOf, months)
  {
    if months != [] {
      ReportPaidIsTotalSum(months[1..], accounts, payments);
    }
  }

  // ----- new account form -----

  /** A date input: left empty, filled with something `new Date` cannot parse, or a parsed date. */
  datatype DateField = EmptyDate | InvalidDate | ParsedDate(at: Moment)

  /** The new-account form; numbers are `Number(field)`, None where that is NaN (an empty field is 0). */
  datatype NewAccountForm = NewAccountForm(
    studentId: string,
    totalTuition: Option<real>,
    monthlyInstallment: Option<real>,
    installmentCount: Option<int>,
    planStartDate: DateField,
    nextDueDate: DateField,
    currency: string,
    notes: string)

  datatype CreateError = NoStudentSelected | StudentNotFound | AccountExists | BadTuition | BadInstallment | BadCount | BadDates

  /** `!x || x <= 0` rejects NaN, zero and negatives. */
  predicate PositiveReal(x: Option<real>) {
    x.Some? && x.value > 0.0
  }

  predicate PositiveInt(x: Option<int>) {
    x.Some? && x.value > 0
  }

  /** `new Date(form.nextDueDate || form.planStartDate)`. */
  function DueField(form: NewAccountForm): DateField {
    if form.nextDueDate.EmptyDate? then form.planStartDate else form.nextDueDate
  }

  predicate DatesValid(form: NewAccountForm) {
    form.planStartDate.ParsedDate? && DueField(form).ParsedDate?
    && ValidMoment(form.planStartDate.at) && ValidMoment(DueField(form).at)
  }

  /** handleCreateFinancialAccount: the checks run in order and the first failure is reported; when all
      pass, the account to create starts with nothing paid. */
  function ValidateNewAccount(form: NewAccountForm, students: seq<Student>, accounts: seq<Account>): (r: Result<CreateInput, CreateError>)
    ensures r == Failure(NoStudentSelected) <==> form.studentId == ""
    ensures r == Failure(StudentNotFound) <==> form.studentId != "" && FindStudent(students, form.studentId).None?
    ensures r == Failure(AccountExists) <==> (form.studentId != "" && FindStudent(students, form.studentId).Some?
      && form.studentId in AccountsByStudent(accounts))
    ensures r == Failure(BadTuition) <==> (form.studentId != "" && FindStudent(students, form.studentId).Some?
      && form.studentId !in AccountsByStudent(accounts) && !PositiveReal(form.totalTuition))
    ensures r == Failure(BadInstallment) <==> (form.studentId != "" && FindStudent(students, form.studentId).Some?
      && form.studentId !in AccountsByStudent(accounts) && PositiveReal(form.totalTuition) && !PositiveReal(form.monthlyInstallment))
    ensures r == Failure(BadCount) <==> (form.studentId != "" && FindStudent(students, form.studentId).Some?
      && form.studentId !in AccountsByStudent(accounts) && PositiveReal(form.totalTuition) && PositiveReal(form.monthlyInstallment)
      && !PositiveInt(form.installmentCount))
    ensures r.Success? <==> (form.studentId != "" && FindStudent(students, form.studentId).Some?
      && form.studentId !in AccountsByStudent(accounts) && PositiveReal(form.totalTuition) && PositiveReal(form.monthlyInstallment)
      && PositiveInt(form.installmentCount) && DatesValid(form))
    ensures r.Success? ==> (ValidCreateInput(r.value) && r.value.id.None? && r.value.totalPaid == Some(0.0)
      && r.value.studentId == form.studentId && r.value.totalTuition > 0.0
      && r.value.planStartDate == form.planStartDate.at
      && (form.nextDueDate.EmptyDate? ==> r.value.nextDueDate == Some(r.value.planStartDate)))
    ensures r.Success? ==>
      var student := FindStudent(students, form.studentId).value;
      r.value.studentName == student.name && r.value.grade == student.grade
      && r.value.totalTuition == form.totalTuition.value
      && r.value.monthlyInstallment == form.monthlyInstallment.value
      && r.value.installmentCount == form.installmentCount.value
      && r.value.nextDueDate == Some(DueField(form).at)
      && r.value.currency == Some(if form.currency == "" then "SAR" else form.currency)
      && r.value.notes == Some(form.notes)
  {
    if form.studentId == "" then Failure(NoStudentSelected)
    else match FindStudent(students, form.studentId)
      case None => Failure(StudentNotFound)
      case Some(student) =>
        if student.id in AccountsByStudent(accounts) then Failure(AccountExists)
        else if !PositiveReal(form.totalTuition) then Failure(BadTuition)
        else if !PositiveReal(form.monthlyInstallment) then Failure(BadInstallment)
        else if !PositiveInt(form.installmentCount) then Failure(BadCount)
        else if !DatesValid(form) then Failure(BadDates)
        else
          Success(CreateInput(
            None, student.id, student.name, student.grade,
            Some(Text.OrElse(Some(form.currency), "SAR")),
            form.totalTuition.value, form.monthlyInstallment.value, form.installmentCount.value,
            form.planStartDate.at, Some(DueField(form).at),
            Some(Text.OrElse(Some(form.notes), "")), Some(0.0)))
  }

  /** An account the form lets through belongs to a student listed as available, and is created
      unsettled. */
  lemma CreatedForAvailableStudent(form: NewAccountForm, students: seq<Student>, accounts: seq<Account>, now: Moment, id: string)
    requires ValidateNewAccount(form, students, accounts).Success?
    ensures var student := FindStudent(students, form.studentId).value;
      student in AvailableStudents(students, accounts)
    ensures NewAccount(id, ValidateNewAccount(form, students, accounts).value, now, None).status != Settled
  {
    var student := FindStudent(students, form.studentId).value;
    assert forall i :: 0 <= i < |accounts| ==> accounts[i].studentId != student.id;
  }

  // ----- dialogs on an existing account -----

  function TuitionUpdate(amount: real): UpdateInput {
    NoChange.(totalTuition := Some(amount))
  }

  /** handleSaveTuition: an amount that is NaN or not positive, or no selected account, changes nothing;
      otherwise only the tuition is updated and the status re-derived. */
  method SaveTuition(ledger: Ledger, selected: Option<string>, amount: Option<real>, now: Moment) returns (saved: bool)
    requires ledger.Valid()
    modifies ledger
    ensures ledger.Valid()
    ensures saved <==> selected.Some? && PositiveReal(amount) && selected.value in old(ledger.accounts)
    ensures saved ==> ledger.accounts == old(ledger.accounts)[selected.value := ApplyUpdate(old(ledger.accounts)[selected.value], TuitionUpdate(amount.value), now)]
    ensures !saved ==> ledger.accounts == old(ledger.accounts)
    ensures ledger.payments == old(ledger.payments)
  {
    if selected.None? || !PositiveReal(amount) {
      return false;
    }
    saved := ledger.UpdateAccount(selected.value, TuitionUpdate(amount.value), now);
  }

  /** handleAddPayment: an amount that is NaN or not positive, or no selected account, changes nothing;
      otherwise the payment is recorded with its note, or none when the note is empty. `paymentDate` is
      `new Date(text)` of the date box, None when the box does not read as a date: the transaction then
      throws converting it and nothing is written. */
  method AddPaymentFromDialog(ledger: Ledger, selected: Option<string>, amount: Option<real>, via: PaymentMethod,
                              paymentDate: Option<Moment>, note: string, now: Moment, paymentId: string) returns (recorded: bool)
    requires ledger.Valid() && (paymentDate.Some? ==> ValidMoment(paymentDate.value))
    requires selected.Some? ==> forall i :: 0 <= i < |ledger.PaymentsOf(selected.value)| ==> ledger.PaymentsOf(selected.value)[i].id != paymentId
    modifies ledger
    ensures ledger.Valid()
    ensures recorded <==> selected.Some? && PositiveReal(amount) && paymentDate.Some? && selected.value in old(ledger.accounts)
    ensures paymentDate.None? ==> !recorded
    ensures recorded ==> var p := PaymentInput(amount.value, via, paymentDate.value, Text.NonEmpty(Some(note)), None);
      ledger.accounts == old(ledger.accounts)[selected.value := ApplyPayment(old(ledger.accounts)[selected.value], p, now)]
      && ledger.payments == old(ledger.payments)[selected.value := old(ledger.PaymentsOf(selected.value)) + [PaymentRow(paymentId, selected.value, p)]]
    ensures !recorded ==> ledger.accounts == old(ledger.accounts) && ledger.payments == old(ledger.payments)
  {
    if selected.None? || !PositiveReal(amount) || paymentDate.None? {
      return false;
    }
    var p := PaymentInput(amount.value, via, paymentDate.value, Text.NonEmpty(Some(note)), None);
    recorded := ledger.AddPayment(selected.value, p, now, paymentId);
  }

  // ----- statement -----

  /** Ascending payment date, the order `a.paymentDate.getTime() - b.paymentDate.getTime()` sorts by. */
  function PaidNoLater(a: Payment, b: Payment): bool {
    !Before(b.paymentDate, a.paymentDate)
  }

  lemma PaidNoLaterIsTotalPreorder()
    ensures Sorting.TotalPreorder(PaidNoLater)
  {
    forall a, b ensures PaidNoLater(a, b) || PaidNoLater(b, a) {
      BeforeIsStrictOrder(a.paymentDate, b.paymentDate, a.paymentDate);
    }
    forall a, b, c | PaidNoLater(a, b) && PaidNoLater(b, c) ensures PaidNoLater(a, c) {
      BeforeIsStrictOrder(a.paymentDate, b.paymentDate, c.paymentDate);
      BeforeIsStrictOrder(c.paymentDate, a.paymentDate, b.paymentDate);
      BeforeIsStrictOrder(b.paymentDate, c.paymentDate, a.paymentDate);
    }
  }

  /** handleOpenStatement: the account's bucket when it has one, otherwise the fetched history, or
      nothing when fetching fails; oldest payment first. */
  function Statement(groups: map<string, seq<Payment>>, accountId: string, fetched: Result<seq<Payment>, string>): (r: seq<Payment>)
    ensures accountId in groups ==> multiset(r) == multiset(groups[accountId])
    ensures accountId !in groups && fetched.Success? ==> multiset(r) == multiset(fetched.value)
    ensures accountId !in groups && fetched.Failure? ==> r == []
  {
    if accountId in groups then Sorting.SortBy(groups[accountId], PaidNoLater)
    else if fetched.Success? then Sorting.SortBy(fetched.value, PaidNoLater)
    else []
  }

  lemma StatementOldestFirst(groups: map<string, seq<Payment>>, accountId: string, fetched: Result<seq<Payment>, string>)
    ensures Sorting.SortedBy(Statement(groups, accountId, fetched), PaidNoLater)
  {
    PaidNoLaterIsTotalPreorder();
    if accountId in groups {
      Sorting.SortBySorted(groups[accountId], PaidNoLater);
    } else if fetched.Success? {
      Sorting.SortBySorted(fetched.value, PaidNoLater);
    }
  }
}
