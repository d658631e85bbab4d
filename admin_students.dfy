/** The student administration page of src/pages/admin/AdminStudents.tsx: the search box, which also
    looks at the linked parent's name and phone, and the save checks, which only a new student goes
    through. A save that passes yields the write the page makes. */
module AdminStudents {
  import opened Wrappers
  import opened Calendar
  import opened Entities
  import Text
  import Grouping
  import Forms
  import Accounts

  /** `student.parentId ? parentsById.get(student.parentId) : undefined`. */
  function ParentOf(s: Student, parentsById: map<string, Parent>): (r: Option<Parent>)
    ensures r.Some? <==> s.parentId.Some? && s.parentId.value != "" && s.parentId.value in parentsById
    ensures r.Some? ==> r.value == parentsById[s.parentId.value]
  {
    if s.parentId.Some? && s.parentId.value != "" && s.parentId.value in parentsById then Some(parentsById[s.parentId.value])
    else None
  }

  predicate StudentMatches(s: Student, parentsById: map<string, Parent>, query: string) {
    Text.ContainsIgnoreCase(s.name, query) || Text.ContainsIgnoreCase(s.email, query)
    || Text.ContainsIgnoreCase(s.grade, query)
    || (ParentOf(s, parentsById).Some? && Text.ContainsIgnoreCase(ParentOf(s, parentsById).value.name, query))
    || (ParentOf(s, parentsById).Some? && ParentOf(s, parentsById).value.phone.Some?
        && Text.ContainsIgnoreCase(ParentOf(s, parentsById).value.phone.value, query))
  }

  /** filteredStudents: the students whose name, e-mail or grade, or whose parent's name or phone, holds
      the query, ignoring case, in list order; an empty query keeps everybody. */
  function FilteredStudents(students: seq<Student>, parentsById: map<string, Parent>, query: string): (r: seq<Student>)
    ensures forall s :: s in r <==> s in students && StudentMatches(s, parentsById, query)
    ensures query == "" ==> r == students
  {
    if query == "" then
      forall i | 0 <= i < |students| ensures StudentMatches(students[i], parentsById, query) {
        Text.EmptyQueryMatches(students[i].name);
      }
      Grouping.Filter(students, (s: Student) => StudentMatches(s, parentsById, query))
    else
      Grouping.Filter(students, (s: Student) => StudentMatches(s, parentsById, query))
  }

  /** A student found through a parent: searching for the parent's phone finds every child linked to it. */
  lemma ParentPhoneFindsChild(students: seq<Student>, parentsById: map<string, Parent>, s: Student)
    requires s in students && ParentOf(s, parentsById).Some? && ParentOf(s, parentsById).value.phone.Some?
    ensures s in FilteredStudents(students, parentsById, ParentOf(s, parentsById).value.phone.value)
  {
    var phone := ParentOf(s, parentsById).value.phone.value;
    assert Text.OccursAt(Text.ToLower(phone), Text.ToLower(phone), 0);
    Text.ContainsMeansOccurs(Text.ToLower(phone), Text.ToLower(phone));
  }

  // ----- saving -----

  datatype StudentFormError = StudentPassword(p: Forms.PasswordError) | StudentTuition(t: Forms.TuitionError)

  /** The write a save makes: an update of the existing record, or a new account. */
  datatype StudentSave =
    | UpdateStudent(id: string, name: string, email: string, grade: string, status: StudentStatus, parentId: Option<string>)
    | CreateStudent(input: Accounts.StudentAccountInput)

  /** `editingStudent.id && students.find(...)`: the draft is a student already on the page. */
  predicate IsEditing(students: seq<Student>, id: string) {
    id != "" && FindStudent(students, id).Some?
  }

  /** handleSaveEdit: an existing student is updated without any check, its parent selection stored as
      absent when empty; a new student must pass the password checks and then the tuition checks, and
      is created with the typed amounts. */
  function SaveStudent(students: seq<Student>, draft: Student, selectedParentId: string, password: string, confirm: string,
                       tuition: Forms.NumberField, monthly: Forms.NumberField): (r: Result<StudentSave, StudentFormError>)
    ensures IsEditing(students, draft.id) ==>
      r == Success(UpdateStudent(draft.id, draft.name, draft.email, draft.grade, draft.status, Text.NonEmpty(Some(selectedParentId))))
    ensures !IsEditing(students, draft.id) ==>
      (r.Failure? && r.error.StudentPassword? <==> Forms.CheckNewPassword(password, confirm).Some?)
    ensures r.Failure? && r.error.StudentPassword? ==> Forms.CheckNewPassword(password, confirm) == Some(r.error.p)
    ensures r.Failure? && r.error.StudentTuition?
        <==> (!IsEditing(students, draft.id) && Forms.CheckNewPassword(password, confirm).None?
              && Forms.CheckTuition(tuition, monthly).Failure?)
    ensures r.Failure? && r.error.StudentTuition? ==> Forms.CheckTuition(tuition, monthly) == Failure(r.error.t)
    ensures r.Success? && r.value.CreateStudent? ==>
      var input := r.value.input;
      input.name == draft.name && input.email == draft.email && input.grade == draft.grade && input.status == draft.status
      && input.password == password && |password| >= 6 && input.parentId == Text.NonEmpty(Some(selectedParentId))
  {
    if IsEditing(students, draft.id) then
      Success(UpdateStudent(draft.id, draft.name, draft.email, draft.grade, draft.status, Text.NonEmpty(Some(selectedParentId))))
    else if Forms.CheckNewPassword(password, confirm).Some? then
      Failure(StudentPassword(Forms.CheckNewPassword(password, confirm).value))
    else
      match Forms.CheckTuition(tuition, monthly)
      case Failure(e) => Failure(StudentTuition(e))
      case Success(plan) =>
        var total := if plan.Some? then Some(plan.value.total) else None;
        var perMonth := if plan.Some? then Some(plan.value.monthly) else None;
        Success(CreateStudent(Accounts.StudentAccountInput(
          draft.name, draft.email, password, draft.grade, draft.status, Text.NonEmpty(Some(selectedParentId)),
          total, perMonth, None, None, None)))
  }

  /** A new student gets a financial account exactly when the tuition boxes were filled, and then it
      carries the typed amounts. */
  lemma NewStudentAccountFollowsForm(students: seq<Student>, draft: Student, selectedParentId: string,
                                     password: string, confirm: string, tuition: Forms.NumberField, monthly: Forms.NumberField,
                                     uid: string, now: Moment)
    requires ValidMoment(now)
    requires var r := SaveStudent(students, draft, selectedParentId, password, confirm, tuition, monthly);
      r.Success? && r.value.CreateStudent?
    ensures var input := SaveStudent(students, draft, selectedParentId, password, confirm, tuition, monthly).value.input;
      var created := Accounts.CreateStudentAccount(input, uid, now);
      (created.account.Some? <==> Forms.Filled(tuition))
      && (created.account.Some? ==> Some(created.account.value.totalTuition) == tuition.value
                                    && Some(created.account.value.monthlyInstallment) == monthly.value)
  {
    var input := SaveStudent(students, draft, selectedParentId, password, confirm, tuition, monthly).value.input;
    var plan := Forms.CheckTuition(tuition, monthly);
    assert plan.Success?;
    if Accounts.CreateStudentAccount(input, uid, now).account.Some? {
      Accounts.StudentAccountShape(input, uid, now);
    }
  }

  const PermissionDenied := "Permission denied. Please check Firestore Security Rules."
  const SaveFailed := "Failed to save student. Please try again."

  /** The error shown after a failed save: the error's message when it has one, else a permission or a
      generic sentence, with "EMAIL_EXISTS" made readable. Never empty. */
  function StudentErrorText(message: Option<string>, code: string): (msg: string)
    ensures msg != ""
    ensures message == Some("EMAIL_EXISTS") ==> msg == Forms.EmailInUse
    ensures message.Some? && message.value != "" && message.value != "EMAIL_EXISTS" ==> msg == message.value
    ensures (message.None? || message.value == "") && code == "permission-denied" ==> msg == PermissionDenied
  {
    Forms.FriendlyMessage(Text.OrElse(message, if code == "permission-denied" then PermissionDenied else SaveFailed))
  }
}
