/** Account creation of src/services/admin/accounts.service.ts: each of the four create calls makes a
    sign-in identity (its uid is a parameter here), writes a profile with a fixed role, writes the domain
    record keyed by that uid, and returns the uid; a student may also get a financial account. The
    records are what the store layer writes: it trims and lower-cases every e-mail, stores a parent's
    missing phone as "" and leaves out a student's empty parent link. */
module Accounts {
  import opened Wrappers
  import opened Calendar
  import opened Entities
  import Text
  import Forms
  import Finance

  /** The user profile that decides which dashboard a user sees. */
  datatype Profile = Profile(uid: string, email: string, displayName: string, role: Role)

  datatype TeacherAccountInput = TeacherAccountInput(
    name: string, email: string, password: string, subject: string, status: TeacherStatus)

  /** The optional numbers are None when absent or not a number. */
  datatype StudentAccountInput = StudentAccountInput(
    name: string, email: string, password: string, grade: string, status: StudentStatus,
    parentId: Option<string>,
    tuitionTotal: Option<real>,
    monthlyInstallment: Option<real>,
    installmentCount: Option<int>,
    currency: Option<string>,
    notes: Option<string>)

  datatype ParentAccountInput = ParentAccountInput(name: string, email: string, password: string, phone: Option<string>)

  datatype AccountantAccountInput = AccountantAccountInput(
    name: string, email: string, password: string, nationalId: string, qualification: string, startDate: Moment)

  /** What a create call writes and returns. */
  datatype TeacherCreated = TeacherCreated(uid: string, profile: Profile, teacher: Teacher)
  datatype StudentCreated = StudentCreated(uid: string, profile: Profile, student: Student, account: Option<Finance.Account>)
  datatype ParentCreated = ParentCreated(uid: string, profile: Profile, parent: Parent)
  datatype AccountantCreated = AccountantCreated(uid: string, profile: Profile, accountant: Accountant)

  /** The profile every create call writes: the identity's uid, the e-mail trimmed and lower-cased, the
      name as given, and the role. */
  predicate ProfileOf(p: Profile, uid: string, email: string, name: string, role: Role) {
    p.uid == uid && p.email == Text.ToLower(Text.Trim(email)) && p.displayName == name && p.role == role
  }

  function CreateTeacherAccount(input: TeacherAccountInput, uid: string): (c: TeacherCreated)
    ensures c.uid == uid && ProfileOf(c.profile, uid, input.email, input.name, TeacherRole)
    ensures c.teacher.id == uid && c.teacher.authId == Some(uid)
    ensures c.teacher.name == input.name && c.teacher.email == Text.ToLower(Text.Trim(input.email))
    ensures c.teacher.subject == input.subject && c.teacher.status == input.status && c.teacher.phone.None?
  {
    var email := Text.ToLower(Text.Trim(input.email));
    var profile := Profile(uid, email, input.name, TeacherRole);
    TeacherCreated(uid, profile, Teacher(uid, input.name, email, input.subject, input.status, Some(uid), None))
  }

  /** A number that is present, not NaN and above zero (`x && Number(x) > 0`). */
  predicate PositiveAmount(x: Option<real>) {
    x.Some? && x.value > 0.0
  }

  /** The student's installment count: the supplied one when it is positive, otherwise enough
      installments to cover the tuition. */
  function StudentInstallments(supplied: Option<int>, total: real, monthly: real): (n: int)
    requires monthly > 0.0
    ensures n >= 1
    ensures supplied.Some? && supplied.value > 0 ==> n == supplied.value
    ensures !(supplied.Some? && supplied.value > 0) && total > 0.0 ==>
      (n - 1) as real * monthly < total <= n as real * monthly
  {
    if supplied.Some? && supplied.value > 0 then supplied.value
    else Forms.InstallmentCount(total, monthly)
  }

  /** The financial account input for a student, when both amounts are positive: keyed by the uid, nothing
      paid, starting and due now, currency "SAR" and empty notes unless given. */
  function StudentPlan(input: StudentAccountInput, uid: string, now: Moment): (r: Option<Finance.CreateInput>)
    ensures r.Some? <==> PositiveAmount(input.tuitionTotal) && PositiveAmount(input.monthlyInstallment)
  {
    if PositiveAmount(input.tuitionTotal) && PositiveAmount(input.monthlyInstallment) then
      var total := input.tuitionTotal.value;
      var monthly := input.monthlyInstallment.value;
      Some(Finance.CreateInput(
        Some(uid), uid, input.name, input.grade, Some(Text.OrElse(input.currency, "SAR")),
        total, monthly, StudentInstallments(input.installmentCount, total, monthly),
        now, Some(now), Some(Text.OrElse(input.notes, "")), Some(0.0)))
    else None
  }

  function CreateStudentAccount(input: StudentAccountInput, uid: string, now: Moment): (c: StudentCreated)
    requires ValidMoment(now)
    ensures c.uid == uid && ProfileOf(c.profile, uid, input.email, input.name, StudentRole)
    ensures c.student.id == uid && c.student.authId == Some(uid)
    ensures c.student.parentId.Some? <==> input.parentId.Some? && input.parentId.value != ""
    ensures c.student.parentId.Some? ==> c.student.parentId == input.parentId
    ensures c.student.name == input.name && c.student.email == Text.ToLower(Text.Trim(input.email))
    ensures c.student.grade == input.grade && c.student.status == input.status
    ensures c.account.Some? <==> PositiveAmount(input.tuitionTotal) && PositiveAmount(input.monthlyInstallment)
  {
    var email := Text.ToLower(Text.Trim(input.email));
    var profile := Profile(uid, email, input.name, StudentRole);
    var student := Student(uid, input.name, email, input.grade, input.status, Some(uid), Text.NonEmpty(input.parentId), None);
    var account := match StudentPlan(input, uid, now)
      case None => None
      case Some(plan) => Some(Finance.NewAccount(uid, plan, now, None));
    StudentCreated(uid, profile, student, account)
  }

  /** The student's financial account: keyed by and belonging to the new uid, carrying the typed amounts,
      nothing paid, due at the plan start, in "SAR" unless a currency was given, with at least one
      installment, and on track. */
  lemma StudentAccountShape(input: StudentAccountInput, uid: string, now: Moment)
    requires ValidMoment(now)
    requires CreateStudentAccount(input, uid, now).account.Some?
    ensures var a := CreateStudentAccount(input, uid, now).account.value;
      a.id == uid && a.studentId == uid && a.studentName == input.name && a.grade == input.grade
      && Some(a.totalTuition) == input.tuitionTotal && Some(a.monthlyInstallment) == input.monthlyInstallment
      && a.totalPaid == 0.0 && a.planStartDate == now && a.nextDueDate == a.planStartDate
      && a.currency == Text.OrElse(input.currency, "SAR") && a.installmentCount >= 1
      && a.status == Finance.OnTrack && a.lastPayment.None?
  {
    var plan := StudentPlan(input, uid, now).value;
    var a := Finance.NewAccount(uid, plan, now, None);
    assert a.totalPaid == 0.0 && a.monthlyInstallment == plan.monthlyInstallment;
    assert !Before(now, now);
  }

  function CreateParentAccount(input: ParentAccountInput, uid: string): (c: ParentCreated)
    ensures c.uid == uid && ProfileOf(c.profile, uid, input.email, input.name, ParentRole)
    ensures c.parent.id == uid && c.parent.authId == Some(uid)
    ensures c.parent.name == input.name && c.parent.email == Text.ToLower(Text.Trim(input.email))
    ensures c.parent.phone.Some? && (input.phone.Some? && input.phone.value != "" ==> c.parent.phone == input.phone)
    ensures input.phone.None? || input.phone == Some("") ==> c.parent.phone == Some("")
    ensures c.parent.childrenIds == []
  {
    var email := Text.ToLower(Text.Trim(input.email));
    var profile := Profile(uid, email, input.name, ParentRole);
    ParentCreated(uid, profile, Parent(uid, input.name, email, Some(uid), Some(Text.OrElse(input.phone, "")), []))
  }

  function CreateAccountantAccount(input: AccountantAccountInput, uid: string): (c: AccountantCreated)
    ensures c.uid == uid && ProfileOf(c.profile, uid, input.email, input.name, AccountantRole)
    ensures c.accountant.id == uid && c.accountant.authId == Some(uid)
    ensures c.accountant.name == input.name && c.accountant.email == Text.ToLower(Text.Trim(input.email))
    ensures c.accountant.nationalId == input.nationalId && c.accountant.qualification == input.qualification
    ensures c.accountant.startDate == input.startDate
  {
    var email := Text.ToLower(Text.Trim(input.email));
    var profile := Profile(uid, email, input.name, AccountantRole);
    AccountantCreated(uid, profile, Accountant(uid, input.name, email, input.nationalId, input.qualification, input.startDate, Some(uid)))
  }
}
