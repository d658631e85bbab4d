# School management core, modelled in Dafny

This project models the logic inside a school-management web application (TypeScript, React and
Firestore). Administrators, teachers, students, parents and accountants use it. The model lifts out the
sequential computations the pages and services perform, and replaces the document store, the clock and
the signed-in user with parameters. It covers:

- the tuition ledger: the status rule, account creation, partial updates and the payment transaction;
- the accountant dashboard: payments grouped by account, the summary, report months and per-month rows,
  the new-account checks, the tuition and payment dialogs and the statement;
- weekly schedules: the "Mon, Wed - 9:00 AM" string the class editor writes and reads back, its
  expansion into one entry per day and student, regeneration of every class, and the day-grouped views;
- grade rules: Midterm/Final averages, standings, trends, summary cards and report lists;
- parent/child link synchronisation and the parent financial plan;
- the admin form checks, the route guard, the file-name sanitiser and storage path, and the `.env`
  reader of the administrator seeding script.

Each module follows one source file. Shared modules hold what several files use:

- `Wrappers`: Option and Result.
- `Text`: trim, split, join, indexOf, lower case, digit strings.
- `Calendar`: dates, months and the month rollover of `new Date(y, m + 1, d)`.
- `Clock`: 12- and 24-hour hours.
- `Days`: weekday numbers and names.
- `Sorting`: a stable sort by comparator.
- `Grouping`: buckets of a list by key.
- `Entities`: the records of `src/types/index.ts`.
- `Forms`: the checks the admin dialogs share.
- `GradeRules`: standings and percentages.
- `DayGroups`: day-grouped schedules.

Where the source updates records in place, the model does the same with a class:

- `Finance.Ledger`: accounts and their payments.
- `Schedules.ScheduleStore`: the stored schedule entries.
- `ParentAdmin.ParentLinks`: students and the parents' children lists.
- `SeedAdmin.Env`: the process environment.

Each class method is proved against a specification function. The properties are proved about those
functions.

After a payment that leaves the account short, the next due date is `new Date(y, m + 1, d)` at
`src/services/firebase/finance.service.ts:240`. It rolls over into the month after when the day does not
exist: 31 January 2024 becomes 2 March 2024 (`Calendar.AddOneMonth`, `Calendar.AddOneMonthRollsOver`).

## Model

| member | source | states |
|---|---|---|
| Finance.DetermineStatus | src/services/firebase/finance.service.ts:71-88 | settled iff paid >= tuition; otherwise overdue iff the due date is strictly before now, else on track |
| Finance.StatusMonotone | src/services/firebase/finance.service.ts:71-88 | paying more never leaves the settled state and never makes an account overdue |
| Finance.ConvertAccount | src/services/firebase/finance.service.ts:41-57 | every present field is carried over; a missing one reads as "" for strings, "SAR" for the currency (also when empty), 0 for amounts and the count, now for the plan start and due date, and on track for the status; the id is the document's |
| Finance.ConvertWrittenAccount | src/services/firebase/finance.service.ts:41-57 | an account written and read back is the same account, apart from an empty currency becoming "SAR" |
| Finance.NewAccount | src/services/firebase/finance.service.ts:130-160 | stores the student's id, name and grade, tuition, installment, count, plan start and notes (or "") as given; currency defaults to "SAR", paid to 0 and the due date to the plan start, and a supplied paid amount or due date is stored as given; the stored status is the status rule of those values |
| Finance.NewAccountNotSettled | src/services/firebase/finance.service.ts:130-160 | a new account with positive tuition and nothing paid is never settled; it is on track iff its due date is not already past |
| Finance.ApplyUpdate | src/services/firebase/finance.service.ts:176-214 | every unsupplied field keeps its stored value; supplying tuition, paid or due date recomputes the status from the merged values; otherwise a supplied status is stored verbatim |
| Finance.UpdateIdempotent | src/services/firebase/finance.service.ts:176-214 | an empty update changes nothing, and applying the same update twice is applying it once |
| Finance.PaymentRow | src/services/firebase/finance.service.ts:249-257 | the payment row carries the account id, amount, method, date, note ("" when absent) and creator |
| Finance.AdvanceDueDate | src/services/firebase/finance.service.ts:237-240 | the due date stays when the new total covers the tuition; otherwise it moves to midnight of the same day next month, with rollover, and strictly later |
| Finance.ApplyPayment | src/services/firebase/finance.service.ts:225-267 | paid grows by exactly the amount; the due date advances as above; the status is re-derived; the last payment is recorded; the installment is seeded only when it was 0; nothing else changes |
| Finance.PaymentEffectOnStatus | src/services/firebase/finance.service.ts:236-246 | after a payment: settled iff the new total covers the tuition; an unsettled account's due date has moved later; a settled account stays settled with its due date unchanged |
| Finance.ApplyPaymentsTotal | src/services/firebase/finance.service.ts:236-246 | after a run of payments the total paid is the old total plus the sum of the amounts, and the status is current |
| Finance.DueDateNeverMovesBack | src/services/firebase/finance.service.ts:237-240 | no run of payments moves the due date earlier |
| Finance.Ledger.CreateAccount | src/services/firebase/finance.service.ts:130-160 | the account is stored under the supplied id, or the generated one, as NewAccount builds it; payments are untouched |
| Finance.Ledger.UpdateAccount | src/services/firebase/finance.service.ts:176-214 | fails without change for a missing account; otherwise stores ApplyUpdate of the stored account |
| Finance.Ledger.AddPayment | src/services/firebase/finance.service.ts:216-269 | fails with no change when the account does not exist; otherwise stores ApplyPayment and appends exactly one payment row |
| Calendar.AddOneMonth | src/services/firebase/finance.service.ts:237-240 | `new Date(y, m + 1, d)`: the same day next month when it exists, otherwise rolled over into the month after, and always later |
| Calendar.AddOneMonthRollsOver | src/services/firebase/finance.service.ts:240 | 31 Jan 2024 becomes 2 Mar 2024, 31 Jan 2023 becomes 3 Mar 2023, 31 Mar 2024 becomes 1 May 2024 |
| Calendar.MonthWindow | src/services/firebase/finance.service.ts:319-326 | the monthly query window runs from midnight on the first of the month to midnight on the first of the next |
| Calendar.MonthWindowIsMonth | src/services/firebase/finance.service.ts:319-326 | a moment lies in [start, end) of the window iff it falls in that month |
| Reporting.PaymentsByAccount | src/pages/accountant/AccountantDashboard.tsx:195-203 | each account's bucket holds exactly that account's payments in list order, and only accounts with payments have a bucket |
| Reporting.BucketStep | src/pages/accountant/AccountantDashboard.tsx:195-203 | adding one payment to its account's bucket keeps the grouping exact for the longer list |
| Reporting.BucketSizesAddUp | src/pages/accountant/AccountantDashboard.tsx:195-203 | the bucket sizes sum to the number of payments |
| Reporting.RemainingOf | src/pages/accountant/AccountantDashboard.tsx:232 | an account's remaining amount is max(tuition - paid, 0) |
| Reporting.CollectionRate | src/pages/accountant/AccountantDashboard.tsx:241 | paid / tuition * 100, or exactly 0 when the summed tuition is not positive |
| Reporting.CountOverdue | src/pages/accountant/AccountantDashboard.tsx:233-235 | the number of accounts whose stored status is overdue |
| Reporting.ComputeSummary | src/pages/accountant/AccountantDashboard.tsx:227-247 | the summary's totals are the sums over the accounts, with the overdue count and collection rate as above |
| Reporting.RemainingBounds | src/pages/accountant/AccountantDashboard.tsx:227-239 | with non-negative figures, 0 <= total remaining <= total tuition, and it equals tuition - paid when nobody has overpaid |
| Reporting.CollectionRateBounds | src/pages/accountant/AccountantDashboard.tsx:241 | the rate is non-negative, and at most 100 iff paid <= tuition |
| Reporting.AccountsByStudent | src/pages/accountant/AccountantDashboard.tsx:249-255 | the map has a key for exactly the students that have an account, and maps each to one of theirs |
| Reporting.AvailableStudents | src/pages/accountant/AccountantDashboard.tsx:257-260 | exactly the students with no account keyed by their id |
| Reporting.FilteredAccounts | src/pages/accountant/AccountantDashboard.tsx:262-270 | exactly the accounts whose name or grade contains the search text, ignoring case, and whose status matches the filter |
| Reporting.EmptySearchListsAll | src/pages/accountant/AccountantDashboard.tsx:262-270 | an empty search with no status filter lists every account |
| Reporting.MonthKey | src/pages/accountant/AccountantDashboard.tsx:272-290 | `format(date, "yyyy-MM")`, with "-" before the two month digits; read back as the report does, it gives its month, except that a year below 100 comes back as that year of the 1900s |
| Reporting.ParseMonthKey | src/pages/accountant/AccountantDashboard.tsx:290 | a key that parses gives a month in 1..12 of a year of at least 100 |
| Reporting.MonthKeyRoundTrip | src/pages/accountant/AccountantDashboard.tsx:274-293 | a "yyyy-mm" key parses back to its month |
| Reporting.MonthKeyInjective | src/pages/accountant/AccountantDashboard.tsx:274-293 | two months share a key iff they are the same month |
| Reporting.AccountMonths | src/pages/accountant/AccountantDashboard.tsx:276-283 | distinct months: the current one and every account's plan start and due month, and nothing else |
| Reporting.AddPaymentMonths | src/pages/accountant/AccountantDashboard.tsx:285 | adds every payment's month to a distinct list and keeps it distinct |
| Reporting.MonthsForReport | src/pages/accountant/AccountantDashboard.tsx:274-293 | the report months are exactly the expected set, distinct and strictly increasing |
| Reporting.SortedMonthsIncrease | src/pages/accountant/AccountantDashboard.tsx:287-292 | sorting distinct months by month order gives a strictly increasing list with the same members |
| Reporting.PlanWindowMonths | src/pages/accountant/AccountantDashboard.tsx:297-304 | an account with installment count k is due in exactly the k consecutive months from its plan start, and in none when k = 0 |
| Reporting.MonthlyReport | src/pages/accountant/AccountantDashboard.tsx:295-320 | one row per month, with due and paid summed over that month, and outstanding = max(due - paid, 0) |
| Reporting.ReportPaidAddsUp | src/pages/accountant/AccountantDashboard.tsx:306-310 | when every payment's month is listed once, the rows' paid figures sum to the total of all payments |
| Reporting.ReportPaidIsTotalSum | src/pages/accountant/AccountantDashboard.tsx:306-310 | the rows' paid figures are the month buckets' sums |
| Reporting.ValidateNewAccount | src/pages/accountant/AccountantDashboard.tsx:460-517 | the checks run in order: student selected, found, without an account, tuition > 0, installment > 0, count > 0, valid dates; a pass creates the account with the student's id, name and grade, the form's tuition, installment, count and plan start, the due date the form gives or else the plan start, the currency or "SAR", the notes, and paid 0 |
| Reporting.CreatedForAvailableStudent | src/pages/accountant/AccountantDashboard.tsx:460-517 | an accepted form names an available student, and the account it creates is not settled |
| Reporting.SaveTuition | src/pages/accountant/AccountantDashboard.tsx:328-355 | saves only for a selected account and a positive amount, as a tuition update; otherwise nothing changes |
| Reporting.AddPaymentFromDialog | src/pages/accountant/AccountantDashboard.tsx:366-397 | records only for a selected existing account, a positive amount and a date box that reads as a date, through the ledger's payment transaction; otherwise nothing changes |
| Reporting.Statement | src/pages/accountant/AccountantDashboard.tsx:399-426 | the statement holds the account's grouped payments, or the fetched ones when it has none cached, or nothing when the fetch fails |
| Reporting.StatementOldestFirst | src/pages/accountant/AccountantDashboard.tsx:404-408 | the statement is sorted by payment date, oldest first |
| Days.FromAbbr | src/services/firebase/schedules.service.ts:32-40 | an abbreviation names a day iff it is that day's three-letter name |
| Days.MondayFirst | src/services/firebase/schedules.service.ts:203-208 | Monday..Sunday numbering: Sunday is last, and every other day keeps its place |
| Schedules.RoomOf | src/services/firebase/schedules.service.ts:97 | the room, or "TBD" when it is missing or empty |
| Schedules.ParseClassSchedule | src/services/firebase/schedules.service.ts:50-66 | no parse iff the string is empty or has no " - "; otherwise the days are the trimmed ", " pieces of the text before the first " - ", and the time is the piece after it, up to the next " - " |
| Schedules.PerStudent | src/services/firebase/schedules.service.ts:86-101 | one entry per enrolled student, in order |
| Schedules.ExpansionSize | src/services/firebase/schedules.service.ts:83-117 | (#known days) * k entries for k > 0 students, one per known day with no students |
| Schedules.ExpansionMembers | src/services/firebase/schedules.service.ts:83-117 | an entry is produced iff it is the entry of a known listed day and an enrolled student, or of the day alone when nobody is enrolled |
| Schedules.BuildSchedules | src/services/firebase/schedules.service.ts:83-117 | the loops produce exactly the expansion |
| Schedules.Stored | src/services/firebase/schedules.service.ts:120-139 | the written document keeps every field, and a student id only when it is non-empty |
| Schedules.WithoutClass | src/services/firebase/schedules.service.ts:151-169 | exactly the entries of other classes remain |
| Schedules.ScheduleStore.DeleteByClass | src/services/firebase/schedules.service.ts:151-169 | removes exactly the class's entries |
| Schedules.ScheduleStore.CreateFromClass | src/services/firebase/schedules.service.ts:43-148 | replaces the class's entries with its expansion and returns how many were written; an empty or separator-less string writes none |
| Schedules.ScheduleStore.WriteAll | src/services/firebase/schedules.service.ts:120-139 | appends the stored form of each entry, in order |
| Schedules.ScheduleStore.CreateFromAllClasses | src/services/firebase/schedules.service.ts:346-368 | regenerates every class that does not fail, skipping failing ones, and the count of successes is at most the number of classes |
| Schedules.Succeeding | src/services/firebase/schedules.service.ts:353-363 | exactly the classes that do not fail, in order |
| Schedules.RegeneratedKeepsOthers | src/services/firebase/schedules.service.ts:346-368 | entries of classes not regenerated survive |
| Schedules.RegeneratedComesFrom | src/services/firebase/schedules.service.ts:346-368 | every entry afterwards was there before or belongs to a regenerated class |
| Schedules.SchedulesForClass | src/services/firebase/schedules.service.ts:89-112 | every generated entry carries the class's id, teacher and room |
| Schedules.SortForTeacher | src/services/firebase/schedules.service.ts:203-208 | sorted by Monday-first day and then time, with the same entries |
| Clock.Hour12 | src/pages/admin/AdminClasses.tsx:546-552 | the dial hour is in 1..12 and agrees with the 24-hour hour modulo 12 |
| Clock.Hour24 | src/pages/admin/AdminClasses.tsx:217-224 | PM adds 12 unless the hour is 12; 12 AM is 0; a dial hour gives an hour below 24 that is PM iff asked |
| Clock.HourRoundTrip | src/pages/admin/AdminClasses.tsx:212-226 | a 24-hour hour shown on the dial and read back is itself |
| Clock.DialRoundTrip | src/pages/parent/ParentChildren.tsx:81-90 | a dial reading turned into 24 hours and back is itself |
| ClassForm.FormatSchedule | src/pages/admin/AdminClasses.tsx:534-557 | "" for no days, the days alone without a time, otherwise "days - h:mm AM/PM" |
| ClassForm.Abbrs | src/pages/admin/AdminClasses.tsx:537-541 | one three-letter name per selected day |
| ClassForm.ConvertTo12Hour | src/pages/admin/AdminClasses.tsx:546-552 | the 12-hour text holds no "-" or ",", so it cannot break the saved schedule string |
| ClassForm.TwelveHourText | src/pages/admin/AdminClasses.tsx:546-552 | the text is the digits of `hour24 % 12 || 12`, ":", the typed minutes, " " and PM iff the hour is 12 or more |
| ClassForm.ConvertTo24Hour | src/pages/admin/AdminClasses.tsx:217-224 | the reloaded time ends in ":" and the saved minutes |
| ClassForm.ConvertTo24HourIsTime | src/pages/admin/AdminClasses.tsx:217-224 | a dial hour reloads as a zero-padded "HH:MM" whose period agrees with AM/PM |
| ClassForm.PaddedHour | src/pages/admin/AdminClasses.tsx:223 | an hour below 24 is written with exactly two digits |
| ClassForm.FirstMatchFrom | src/pages/admin/AdminClasses.tsx:212 | the leftmost match of the time pattern, or none iff no position matches |
| ClassForm.ParseForEdit | src/pages/admin/AdminClasses.tsx:188-230 | a saved string reloads iff it contains " - " |
| ClassForm.EditReloadsSaved | src/pages/admin/AdminClasses.tsx:188-230 | a saved schedule reloads into the dialog as its days in Sunday..Saturday order and the same start time |
| ClassForm.DaysOnlyNotReloaded | src/pages/admin/AdminClasses.tsx:191-192 | a schedule saved without a time does not reload |
| ClassForm.LabelNames | src/pages/admin/AdminClasses.tsx:197-201 | the day names written into a schedule read back as the same days |
| ClassForm.KnownAbbrs | src/pages/admin/AdminClasses.tsx:197-201 | reading day names drops none of the seven known ones |
| ClassForm.TimeRoundTrip | src/pages/admin/AdminClasses.tsx:212-226 | for any "HH:MM" with HH <= 23, reading back the 12-hour text gives the same "HH:MM" |
| ClassForm.TwelveHourMatch | src/pages/admin/AdminClasses.tsx:212 | the pattern finds exactly the hours, minutes and period in "h:mm AM" text |
| ClassForm.SavedScheduleExpands | src/services/firebase/schedules.service.ts:83-117 | a saved class schedule expands to (#days) * max(k, 1) entries |
| ClassForm.SavedScheduleParses | src/services/firebase/schedules.service.ts:56-66 | a schedule the class editor saved is read back by the service as the selected days' abbreviations in Sunday..Saturday order and the 12-hour start time |
| ClassForm.UniqueSubjects | src/pages/admin/AdminClasses.tsx:136-141 | the subjects are distinct, sorted, non-blank, and exactly the teachers' subjects |
| ClassForm.NonBlankSubjects | src/pages/admin/AdminClasses.tsx:137-140 | the non-blank subjects of the teachers, each once |
| ClassForm.TeachersBySubject | src/pages/admin/AdminClasses.tsx:144-146 | exactly the Active teachers with that exact subject |
| ClassForm.RequiredFieldsPresent | src/pages/admin/AdminClasses.tsx:236 | true iff name, grade, teacher id and teacher name are non-empty |
| ClassForm.CheckEnrollment | src/pages/admin/AdminClasses.tsx:367-388 | rejects a missing selection first, then a student who already has an Active enrollment |
| ClassForm.EnrolledIds | src/pages/admin/AdminClasses.tsx:483 | exactly the ids of the enrolled students |
| ClassForm.AvailableStudents | src/pages/admin/AdminClasses.tsx:483-486 | exactly the students with no enrollment in the page's list |
| ClassForm.ClassEnrollments | src/services/firebase/enrollments.service.ts:77-89 | exactly the store's enrollments of the class whose status is Active |
| ClassForm.DroppedOfferedAgain | src/pages/admin/AdminClasses.tsx:483-486 | since the page's list holds Active enrollments only, a student whose enrollments in the class were all dropped or completed is offered again and passes the duplicate check |
| ClassForm.CheckAgreesWithOffer | src/pages/admin/AdminClasses.tsx:378-388 | on the page's list, the duplicate check refuses exactly the students that are not offered |
| ParentAdmin.FilteredParents | src/pages/admin/AdminParents.tsx:125-129 | exactly the parents matching the query; every parent for an empty query |
| ParentAdmin.LinkedStudentIds | src/pages/admin/AdminParents.tsx:131-141 | the ids of exactly the students linked to the parent |
| ParentAdmin.Details | src/pages/admin/AdminParents.tsx:185-190 | the plan carries the total, the installment and the derived installment count |
| ParentAdmin.ValidateParentForm | src/pages/admin/AdminParents.tsx:151-225 | the trimmed phone first, then the tuition pair, then, for a new parent only, the password checks |
| ParentAdmin.ValidatedPlan | src/pages/admin/AdminParents.tsx:185-203 | an accepted form carries a plan iff tuition was given, and the plan covers the total in whole installments |
| ParentAdmin.EditingIgnoresPasswords | src/pages/admin/AdminParents.tsx:203-219 | when editing, the password boxes do not affect the outcome |
| ParentAdmin.Relink | src/pages/admin/AdminParents.tsx:320-332 | selected students get this parent, previously linked unselected ones get none, all others are untouched |
| ParentAdmin.UpdatedIffChanged | src/pages/admin/AdminParents.tsx:320-332 | a student is written iff its link changes |
| ParentAdmin.RelinkAll | src/pages/admin/AdminParents.tsx:320-332 | every student is relinked in place |
| ParentAdmin.FormerParents | src/pages/admin/AdminParents.tsx:324-328 | the former parents of newly linked students |
| ParentAdmin.CountUpdates | src/pages/admin/AdminParents.tsx:320-332 | the number of writes is at most the number of students |
| ParentAdmin.RelinkStep | src/pages/admin/AdminParents.tsx:320-332 | relinking, former parents and write count each extend by one student at a time |
| ParentAdmin.ChildrenOf | src/pages/admin/AdminParents.tsx:339-347 | exactly the ids of the students linked to the parent |
| ParentAdmin.SyncedChildren | src/pages/admin/AdminParents.tsx:314-361 | after sync, the parent's children are exactly the selected ids that name students |
| ParentAdmin.ParentLinks.SyncParentChildren | src/pages/admin/AdminParents.tsx:314-361 | students are relinked; the affected parents are this one plus the former ones; each affected parent that has a document gets its list rebuilt from the links; no parent is created; the sync succeeds iff every affected parent has a document; other parents are untouched |
| ParentAdmin.ParentLinks.RelinkStudents | src/pages/admin/AdminParents.tsx:320-332 | the loop computes the relinked list, the former parents and the write count |
| ParentAdmin.ParentLinks.StoreChildren | src/pages/admin/AdminParents.tsx:349-356 | only the affected parents' lists are rewritten, a parent without a document is not created, and the result is true iff every affected parent has one |
| ParentAdmin.ChildrenMap | src/pages/admin/AdminParents.tsx:338-347 | the map gives every parent its linked students |
| ParentAdmin.PlanUpdate | src/pages/admin/AdminParents.tsx:380-390 | an existing account keeps its currency ("SAR" when empty) and gets the new plan with the due date reset to now |
| ParentAdmin.PlanCreate | src/pages/admin/AdminParents.tsx:391-405 | a new account has id = student id, paid 0, plan start and due date now, currency "SAR" |
| ParentAdmin.PlanStepCarries | src/pages/admin/AdminParents.tsx:380-405 | after one child's step its account carries the plan and keeps its paid amount |
| ParentAdmin.ApplyPlanKeepsOthers | src/pages/admin/AdminParents.tsx:363-409 | accounts of children not selected are untouched |
| ParentAdmin.ApplyPlanCovers | src/pages/admin/AdminParents.tsx:368-378 | every selected child found in the student list ends up with the plan; unknown ones are skipped |
| ParentAdmin.ApplyFinancialDetails | src/pages/admin/AdminParents.tsx:363-409 | the ledger's accounts become the plan applied to the selected children; payments are untouched |
| ParentAdmin.SyncThenApplyPlan | src/pages/admin/AdminParents.tsx:200-202 | the children are synced; the plan is applied only when the sync succeeded, a plan was entered and a child is selected, otherwise the accounts are unchanged |
| ParentAdmin.ToggleChild | src/pages/admin/AdminParents.tsx:411-419 | checking adds the id, unchecking removes it, and nothing else changes |
| ParentAdmin.ToggleKeepsDistinct | src/pages/admin/AdminParents.tsx:411-419 | toggling never introduces a duplicate |
| Forms.CheckTuition | src/pages/admin/AdminParents.tsx:159-183 | both boxes given or both blank; then each finite and > 0; a pass carries both values |
| Forms.InstallmentCount | src/pages/admin/AdminParents.tsx:185-190 | max(1, ceil(total / monthly)): at least 1, and the fewest installments that cover the total |
| Forms.TwelveInstallments | src/pages/admin/AdminParents.tsx:185-190 | 18000 at 1500 a month is 12 installments |
| Forms.CheckNewPassword | src/pages/admin/AdminParents.tsx:203-219 | present, then matching, then at least 6 characters |
| Forms.FriendlyMessage | src/pages/admin/AdminStudents.tsx:255-261 | the e-mail-exists code becomes the friendly text; any other message passes through |
| Accounts.CreateTeacherAccount | src/services/admin/accounts.service.ts:39-67 | profile with role teacher and the e-mail trimmed and lower-cased; the teacher record keyed by the new uid with the form's name, subject and status and that e-mail |
| Accounts.StudentInstallments | src/services/admin/accounts.service.ts:101-104 | the supplied count when > 0, else the covering count |
| Accounts.StudentPlan | src/services/admin/accounts.service.ts:97-100 | a plan exists iff tuition and installment are both given and > 0 |
| Accounts.CreateStudentAccount | src/services/admin/accounts.service.ts:69-126 | profile with role student and the e-mail trimmed and lower-cased; the record keyed by the uid with that e-mail and the parent link only when non-empty; an account iff both amounts are positive |
| Accounts.StudentAccountShape | src/services/admin/accounts.service.ts:97-123 | the account has id = student id = uid, paid 0, due date = plan start = now, currency "SAR" by default, and is on track |
| Accounts.CreateParentAccount | src/services/admin/accounts.service.ts:128-156 | profile with role parent and the e-mail trimmed and lower-cased; the record keyed by the uid with that e-mail, the phone or "" when missing, and no children |
| Accounts.CreateAccountantAccount | src/services/admin/accounts.service.ts:158-188 | profile with role accountant and the e-mail trimmed and lower-cased; the record keyed by the uid with that e-mail and the form's other fields |
| AdminStudents.ParentOf | src/pages/admin/AdminStudents.tsx:127-137 | the linked parent when the link names a known parent |
| AdminStudents.FilteredStudents | src/pages/admin/AdminStudents.tsx:127-137 | exactly the students matching the query, also through the parent's name and phone; all for an empty query |
| AdminStudents.ParentPhoneFindsChild | src/pages/admin/AdminStudents.tsx:127-137 | searching a parent's phone finds their child |
| AdminStudents.SaveStudent | src/pages/admin/AdminStudents.tsx:150-228 | editing skips every check; a new student passes the password checks, then the tuition checks |
| AdminStudents.NewStudentAccountFollowsForm | src/pages/admin/AdminStudents.tsx:190-228 | the created student gets an account iff tuition was given, with the entered amounts |
| AdminStudents.StudentErrorText | src/pages/admin/AdminStudents.tsx:255-261 | the friendly text, the raw message, or the permission text, never empty |
| AdminTeachers.FilteredTeachers | src/pages/admin/AdminTeachers.tsx:87-91 | exactly the teachers matching the query; all for an empty query |
| AdminTeachers.SaveTeacher | src/pages/admin/AdminTeachers.tsx:101-146 | editing skips the password checks; a new teacher needs matching passwords of at least 6 characters |
| AdminTeachers.NewTeacherWired | src/pages/admin/AdminTeachers.tsx:140-146 | the created teacher is the draft keyed by the uid with its e-mail trimmed and lower-cased, with role teacher |
| AdminTeachers.TeacherErrorText | src/pages/admin/AdminTeachers.tsx:159-160 | the friendly text of the message, or the generic failure |
| AdminAccountants.FilteredAccountants | src/pages/admin/AdminAccountants.tsx:99-108 | all for an empty query, otherwise exactly the matching accountants |
| AdminAccountants.ProfileError | src/pages/admin/AdminAccountants.tsx:153-175 | the first missing field of name, national id, qualification, start date |
| AdminAccountants.CredentialsError | src/pages/admin/AdminAccountants.tsx:190-212 | e-mail, password, matching, at least 6 characters, in that order |
| AdminAccountants.SubmitAccountant | src/pages/admin/AdminAccountants.tsx:148-242 | profile checks always, credential checks only for a new accountant; an edit updates the selected one with the form's trimmed name, national id and qualification; a new account gets those, the trimmed and lower-cased e-mail and the form's password |
| AdminAccountants.SubmittedFieldsNormalised | src/pages/admin/AdminAccountants.tsx:177-221 | the saved fields are the form's, trimmed, so they carry no surrounding white space; a new e-mail is the form's, trimmed and lower-cased, and stays lower-case |
| GradeRules.StandingOf | src/pages/teacher/TeacherGrades.tsx:171-174 | Excellent at >= 90, Good at >= 80, Average at >= 70, else Needs Improvement |
| GradeRules.StandingMonotone | src/pages/teacher/TeacherGrades.tsx:171-174 | a higher average never has a lower standing |
| GradeRules.PercentageOf | src/pages/parent/ParentChildren.tsx:191-193 | the stored percentage, else score / maxScore * 100 when maxScore is non-zero |
| GradeRules.AveragePercentage | src/pages/parent/ParentChildren.tsx:191-197 | none iff no grade yields a percentage |
| GradeRules.AveragePercentageBounds | src/pages/parent/ParentChildren.tsx:195-197 | an average of percentages in 0..100 is in 0..100 |
| ParentChildren.GradeStatus | src/pages/parent/ParentChildren.tsx:63-69 | "No Data" iff there is no average, otherwise the standing of the average |
| ParentChildren.ParseTime | src/pages/parent/ParentChildren.tsx:81-90 | 0:00 on a mismatch; otherwise the matched minutes' value and the matched hour moved to the 24-hour clock (PM adds 12 except to 12, 12 AM is 0), which for a dial hour is below 24 and PM iff the text says PM |
| ParentChildren.ParseTimeReadsSavedTime | src/pages/parent/ParentChildren.tsx:81-90 | the 12-hour text the class editor saves reads back as the time it came from |
| ParentChildren.ShownTimeMatches | src/pages/parent/ParentChildren.tsx:82 | "h:mm AM" text matches the anchored pattern with those parts |
| ParentChildren.DayOffset | src/pages/parent/ParentChildren.tsx:100-101 | (day - today + 7) mod 7 is in 0..6 and lands on the day |
| ParentChildren.NextOccurrence | src/pages/parent/ParentChildren.tsx:100-106 | the occurrence is strictly after now, on the right weekday, at most 7 days ahead |
| ParentChildren.NextOccurrenceIsNext | src/pages/parent/ParentChildren.tsx:100-106 | no later occurrence of that day and time comes first |
| ParentChildren.Occurrences | src/pages/parent/ParentChildren.tsx:95-109 | one next occurrence per entry |
| ParentChildren.NextClass | src/pages/parent/ParentChildren.tsx:92-116 | none iff there are no entries |
| ParentChildren.NextClassEarliest | src/pages/parent/ParentChildren.tsx:92-116 | the label names an entry whose next occurrence is after now and no later than any other's |
| ParentChildren.FinancialCard | src/pages/parent/ParentChildren.tsx:209 | a card iff the child has an account, carrying the account's tuition, paid amount, installment and count, with remaining = max(tuition - paid, 0) |
| ParentChildren.ScheduleGrouped | src/pages/parent/ParentChildren.tsx:286-302 | the day groups in day order, each sorted by time |
| ParentChildren.ScheduleGroupedShape | src/pages/parent/ParentChildren.tsx:286-302 | one group per distinct day, Sunday..Saturday, each holding that day's entries sorted by time, none lost |
| DayGroups.BucketByDay | src/pages/student/StudentSchedule.tsx:76-82 | the map filled in list order holds every day's entries in order, with days in first-seen order |
| DayGroups.BucketsAreGroups | src/pages/student/StudentSchedule.tsx:83-85 | the map's entries, in insertion order, are the groups |
| DayGroups.GroupSizes | src/pages/student/StudentSchedule.tsx:76-86 | the group sizes sum to the entry count |
| DayGroups.SortedGroupsShape | src/pages/student/StudentSchedule.tsx:76-86 | the sorted groups are in strictly increasing day order, hold each day's entries, cover every day and lose nothing |
| StudentSchedule.WeekOf | src/pages/student/StudentSchedule.tsx:45-58 | no student record means an empty schedule; otherwise the fetched entries, reordered |
| StudentSchedule.WeekOrdered | src/pages/student/StudentSchedule.tsx:54-58 | the entries are sorted by Sunday..Saturday and then time |
| StudentSchedule.WeekViewShape | src/pages/student/StudentSchedule.tsx:76-86 | one card per distinct day in day order, each holding that day's entries in time order, sizes adding up |
| TeacherGrades.FirstIndexOf | src/pages/teacher/TeacherGrades.tsx:159-160 | the first index holding the grade type, or none iff none does |
| TeacherGrades.FirstOfType | src/pages/teacher/TeacherGrades.tsx:159-160 | the first grade of the type, or none iff there is none |
| TeacherGrades.ExamAverage | src/pages/teacher/TeacherGrades.tsx:163-168 | (midterm% + final%) / 2, so one grade alone is halved, and within 0..100 |
| TeacherGrades.ForStudent | src/pages/teacher/TeacherGrades.tsx:157 | exactly the student's grades |
| TeacherGrades.RowOfShape | src/pages/teacher/TeacherGrades.tsx:156-183 | the row holds the student's first Midterm and Final, the average and its standing, and 0 / Needs Improvement with no grades |
| TeacherGrades.BoxFor | src/pages/teacher/TeacherGrades.tsx:185-188 | the score box is blank without a grade and shows its score otherwise |
| TeacherGrades.RowsMapShape | src/pages/teacher/TeacherGrades.tsx:156-189 | one row per enrolled student id, the last student with that id winning |
| TeacherGrades.OrganizeGrades | src/pages/teacher/TeacherGrades.tsx:153-192 | the loop builds exactly the rows map and the matching score boxes |
| TeacherGrades.RowsMapStep | src/pages/teacher/TeacherGrades.tsx:176-183 | each student adds or replaces their own row |
| TeacherGrades.EnrolledStudents | src/pages/teacher/TeacherGrades.tsx:140-145 | exactly the students with an enrollment in the class |
| TeacherGrades.ChangeGrade | src/pages/teacher/TeacherGrades.tsx:209-216 | only the given student's given box changes |
| TeacherGrades.SaveGrade | src/pages/teacher/TeacherGrades.tsx:218-275 | ignored without class, user, student or boxes; NaN or negative rejected; otherwise score out of 100 with percentage = score, updating the existing grade of that type or adding one |
| TeacherGrades.ApplyWrite | src/pages/teacher/TeacherGrades.tsx:246-275 | an update rewrites the score, maximum, percentage and date of the grades with that id and leaves every other grade and field as it was; an add keeps the list and appends exactly the described grade under the new id |
| TeacherGrades.Updated | src/pages/teacher/TeacherGrades.tsx:248-253 | updating a grade by id rewrites only its score, maximum, percentage and date; grades with other ids are unchanged |
| TeacherGrades.UpdatedForStudent | src/pages/teacher/TeacherGrades.tsx:278-284 | updating a grade commutes with selecting a student's grades |
| TeacherGrades.UpdateShows | src/pages/teacher/TeacherGrades.tsx:246-253 | after an update the recomputed row shows the new percentage |
| TeacherGrades.AddShows | src/pages/teacher/TeacherGrades.tsx:258-270 | after an add the recomputed row shows the new grade |
| TeacherGrades.SavedGradeShows | src/pages/teacher/TeacherGrades.tsx:246-305 | after saving, the reloaded row shows the saved score in the right column |
| StudentGrades.GradeColor | src/pages/student/StudentGrades.tsx:22-28 | outline with no grade, otherwise the badge of the standing (default, secondary, outline, destructive) |
| StudentGrades.LoadGrades | src/pages/student/StudentGrades.tsx:58-70 | no student record or a failed fetch gives no grades; otherwise the fetched ones, reordered |
| StudentGrades.LoadedNewestFirst | src/pages/student/StudentGrades.tsx:69 | the grades are sorted newest first |
| StudentGrades.LatestTwoAreLatest | src/pages/student/StudentGrades.tsx:32-34 | the pair compared are the latest and the one before it by date |
| StudentGrades.CalculateTrend | src/pages/student/StudentGrades.tsx:30-39 | none for fewer than 2 grades or a missing percentage; "up" iff recent >= previous |
| StudentGrades.SummariesAsWritten | src/pages/student/StudentGrades.tsx:87-100 | one card per distinct `${subject}_${teacherId}` key |
| StudentGrades.SubjectKeyMergesCourses | src/pages/student/StudentGrades.tsx:90 | "Math_Advanced"/"T" and "Math"/"Advanced_T" share one card under the key, though they are two courses |
| StudentGrades.WrittenKeysMerge | src/pages/student/StudentGrades.tsx:90-99 | two grades with the same key land on one card named after the first |
| StudentGrades.Summaries | src/pages/student/StudentGrades.tsx:87-119 | one card per distinct (subject, teacher) |
| StudentGrades.SummariesPartition | src/pages/student/StudentGrades.tsx:87-119 | every grade is on exactly its own course's card, the cards are distinct, and their sizes sum to the grade count |
| StudentGrades.OverallAverage | src/pages/student/StudentGrades.tsx:121-127 | none iff no grade yields a percentage |
| StudentGrades.OverallMissingIffCardsMissing | src/pages/student/StudentGrades.tsx:102-127 | the overall average is missing iff every card's average is missing |
| TeacherClasses.DayAtNumber | src/pages/teacher/TeacherClasses.tsx:267-280 | the day i days after today is day (today + i) mod 7 |
| TeacherClasses.ScheduleParts | src/pages/teacher/TeacherClasses.tsx:256-257 | no parts iff the string has no " - " |
| TeacherClasses.NextClass | src/pages/teacher/TeacherClasses.tsx:251-289 | "No schedule" for "", the string itself without a separator, the first listed day from today on, or the first listed name when none is a weekday |
| TeacherClasses.FirstListedOffset | src/pages/teacher/TeacherClasses.tsx:267-280 | the first offset 0..6 whose day is listed, or none iff no day is |
| TeacherClasses.NoneListedIffNoWeekday | src/pages/teacher/TeacherClasses.tsx:282 | the fallback is taken iff no listed name is a weekday |
| TeacherClasses.PhraseNamesListedDay | src/pages/teacher/TeacherClasses.tsx:271-278 | from offset 2 on the label names the listed day reached |
| TeacherClasses.JoinEnrolled | src/pages/teacher/TeacherClasses.tsx:215-224 | exactly the enrollments whose student exists, joined with that student |
| TeacherClasses.StudentList | src/pages/teacher/TeacherClasses.tsx:215-231 | a failed load gives the error message; otherwise the joined rows |
| TeacherClasses.StudentListShape | src/pages/teacher/TeacherClasses.tsx:226-231 | the list is sorted by enrollment date, newest first, with missing dates as 0 |
| TeacherClasses.UploadCurriculum | src/pages/teacher/TeacherClasses.tsx:149-200 | needs a class, a PDF file and a known class; stores first; deletes the old file only after the class record is updated |
| TeacherClasses.UploadReplacesFile | src/pages/teacher/TeacherClasses.tsx:166-183 | a full upload records the new file and deletes the old one iff there was one |
| ParentReports.FormatReportType | src/pages/parent/ParentReports.tsx:26-41 | the five type names read as themselves, anything else as "Assessment" |
| ParentReports.ReportTitle | src/pages/parent/ParentReports.tsx:43-46 | subject, " • ", type name |
| ParentReports.ReportOf | src/pages/parent/ParentReports.tsx:80-90 | the report's id is child id + "-" + grade id, available, dated by the grade, titled "subject • type", with the type label, subject and teacher id of the grade |
| ParentReports.ChildReports | src/pages/parent/ParentReports.tsx:80-90 | one report per grade of the child |
| ParentReports.FlattenMembers | src/pages/parent/ParentReports.tsx:94 | a report is in the flat list iff it is the report of some child's grade |
| ParentReports.LoadReports | src/pages/parent/ParentReports.tsx:69-95 | nothing without a parent or when loading fails; otherwise the flat list, reordered |
| ParentReports.LoadedReports | src/pages/parent/ParentReports.tsx:77-95 | one report per grade, newest first |
| Storage.Sanitize | src/services/firebase/storage.service.ts:13 | same length; safe characters kept, every other one replaced by "_" |
| Storage.SanitizeIdempotent | src/services/firebase/storage.service.ts:13 | sanitizing twice is sanitizing once |
| Storage.StoragePath | src/services/firebase/storage.service.ts:15 | the path starts with the class folder; after it, the first "-" ends the timestamp's digits, which read back as the clock reading, and the rest is the sanitized name |
| Storage.FileNameReadsBack | src/services/firebase/storage.service.ts:15 | the first "-" of the file part ends the timestamp digits |
| Storage.UploadRequestFor | src/services/firebase/storage.service.ts:13-20 | the path as above and content type "application/pdf" when the file has none |
| Storage.DeleteFileByPath | src/services/firebase/storage.service.ts:30-42 | empty path does nothing; "object-not-found" is swallowed; any other failure is rethrown |
| SeedAdmin.Lines | scripts/seed-admin.mjs:14 | `split(/\r?\n/)`: one line per line-feed-separated piece, each piece before a line feed without its trailing carriage return and the last piece as it is; no line holds a line feed |
| SeedAdmin.StripQuotes | scripts/seed-admin.mjs:21 | a leading quote and a trailing quote are each removed on their own, and nothing else: both, only the front, only the back, or none |
| SeedAdmin.StripQuotesUnquotes | scripts/seed-admin.mjs:21 | a quoted value loses its quotes |
| SeedAdmin.ParseLine | scripts/seed-admin.mjs:15-21 | blank lines, comments and lines without "=" are skipped |
| SeedAdmin.ParseLineAt | scripts/seed-admin.mjs:17-21 | a line reads as its trimmed key and trimmed, unquoted value at the first "=" |
| SeedAdmin.ApplyLinesKeepsSet | scripts/seed-admin.mjs:23-25 | a key already set is never overwritten |
| SeedAdmin.LoadAllAppend | scripts/seed-admin.mjs:9-27 | loading files one after another is loading them all |
| SeedAdmin.EarlierFileWins | scripts/seed-admin.mjs:7-27 | a key set by .env.local is not replaced by .env |
| SeedAdmin.Env.LoadEnv | scripts/seed-admin.mjs:6-28 | the environment becomes the files' lines applied in order, missing files skipped |
| SeedAdmin.Env.LoadFile | scripts/seed-admin.mjs:13-26 | one file's lines applied in order |
| SeedAdmin.Env.SetFromLine | scripts/seed-admin.mjs:15-25 | one line sets its key only when the key is unset |
| SeedAdmin.Missing | scripts/seed-admin.mjs:43 | exactly the required keys that are unset, in order |
| SeedAdmin.EnsureEnv | scripts/seed-admin.mjs:42-47 | fails iff a required key is unset, naming the missing keys joined by ", " |
| SeedAdmin.EnsureAdminAccount | scripts/seed-admin.mjs:68-139 | sign up iff sign-in says INVALID_PASSWORD or EMAIL_NOT_FOUND; other failures stop; the profile has the trimmed lower-case e-mail, role admin, and createdAt only for a new account |
| RouteGuard.DashboardFor | src/components/ProtectedRoute.tsx:50 | "/dashboard/" + the role in lower case, or "/login" for an empty role |
| RouteGuard.Guard | src/components/ProtectedRoute.tsx:17-55 | spinner while loading; login with the origin when signed out; a second spinner until the profile is read; the own dashboard on a role mismatch; otherwise the page |
| RouteGuard.MismatchLandsOnOwnDashboard | src/components/ProtectedRoute.tsx:48-52 | a user with the wrong role lands on their own dashboard, which then renders |

## Left out

- The document store's transport, its subscriptions, transaction retry, and createdAt/updatedAt
  timestamps: the store is an in-memory map or a list passed in and returned.
- IEEE floating point: money and percentages are exact reals.
- NaN and Infinity, and the parsing of number boxes: a box is given as its text together with the
  number the page reads from it, or none when that is not finite. The admin and accountant dialogs read
  `Number(text)`; the grade boxes read `parseFloat(text)`, which takes the leading number ("85abc" reads
  as 85) and gives none for an empty box.
- Unicode case folding and white space beyond ASCII and the characters `trim` removes; UTF-16 code
  units; time zones: all dates are local calendar dates.
- `localeCompare`: replaced by plain code-unit order.
- Date and number formatting for display (`toLocaleDateString` and the currency formatter): labels keep
  the parts they are built from.
- Schedules.ScheduleStore.CreateFromAllClasses: a failing class is modelled as failing before it writes
  anything. A failure part-way through a class's writes is not modelled.
- ClassForm.ConvertTo12Hour: the time box's text is assumed to be in "HH:MM" form, as the browser's
  time input gives it.
- ParentChildren.NextClass: a schedule entry's day is typed as one of the seven day names
  (`src/types/index.ts`), so the model cannot express the unknown-day branch of
  `src/pages/parent/ParentChildren.tsx:98`, and "no label" arises only for an empty list.
- Reporting.ValidateNewAccount: the installment count is a whole number. `Number("2.5")` passes the
  page's check and is stored, and the report then uses `installmentCount - 1` months
  (`src/pages/accountant/AccountantDashboard.tsx:299`); fractional counts are not modelled.
- Reporting.MonthsForReport: the months are compared as months. The page rebuilds each key with
  `new Date(Number(yyyy), …)`, which takes years 0 to 99 as 1900 to 1999 for the sort and for the plan
  window test (`src/pages/accountant/AccountantDashboard.tsx:290-300`); Reporting.MonthKey states
  that reading, but the report does not use it.
- Calendar.AddOneMonth: the year is kept as it is. `new Date(y, m + 1, d)`
  (`src/services/firebase/finance.service.ts:240`) reads a year from 0 to 99 as 1900 to 1999, so a due
  date in such a year would jump to the twentieth century; Finance.AdvanceDueDate and
  Finance.ApplyPayment inherit this.
- Calendar.MonthWindow: the year is kept as it is. `new Date(year, month, 1)`
  (`src/services/firebase/finance.service.ts:319-320`) reads a year from 0 to 99 as 1900 to 1999, so
  the window for such a year covers that month of the twentieth century instead.
- Days.FromAbbr: the service looks the name up in a plain object (`dayAbbrToFull[dayAbbr]`,
  `src/services/firebase/schedules.service.ts:84-85`), where an inherited name such as "toString" is
  also truthy and then makes the write fail. The model skips every name that is not one of the seven.
- ClassForm.ClassEnrollments: the query's order (newest `enrolledAt` first) is not modelled; the class
  page uses the list only for membership.
- Toasts, dialogs, loading flags and console output.
- The second write of a new student's parent link (`src/pages/admin/AdminStudents.tsx:230-238`): it
  stores the same parent id the account creation was already given, and its failure is only logged.
- The display-name update of the seeding script (`accounts:update`): its failure is only logged, and it
  changes no state the model keeps.

## Findings

| source | as written | input that shows it | evidently intended | confidence | as-written member | corrected member |
|---|---|---|---|---|---|---|
| src/pages/student/StudentGrades.tsx:90 | grades are grouped under the key `${subject}_${teacherId}`, which joins two strings that may themselves contain "_" | subject "Math_Advanced" with teacher "T", and subject "Math" with teacher "Advanced_T": both give "Math_Advanced_T" and land on one card | one summary card per (subject, teacher) pair | low; not executed | StudentGrades.SubjectKeyMergesCourses | StudentGrades.SummariesPartition |
