/** The teacher administration page of src/pages/admin/AdminTeachers.tsx: the search box and the save,
    where only a new teacher goes through the password checks. */
module AdminTeachers {
  import opened Wrappers
  import opened Entities
  import Text
  import Grouping
  import Forms
  import Accounts

  predicate TeacherMatches(t: Teacher, query: string) {
    Text.ContainsIgnoreCase(t.name, query) || Text.ContainsIgnoreCase(t.email, query)
    || Text.ContainsIgnoreCase(t.subject, query)
  }

  /** filteredTeachers: the teachers whose name, e-mail or subject holds the query, ignoring case, in
      list order; an empty query keeps everybody. */
  function FilteredTeachers(teachers: seq<Teacher>, query: string): (r: seq<Teacher>)
    ensures forall t :: t in r <==> t in teachers && TeacherMatches(t, query)
    ensures query == "" ==> r == teachers
  {
    if query == "" then
      forall i | 0 <= i < |teachers| ensures TeacherMatches(teachers[i], query) {
        Text.EmptyQueryMatches(teachers[i].name);
      }
      Grouping.Filter(teachers, (t: Teacher) => TeacherMatches(t, query))
    else
      Grouping.Filter(teachers, (t: Teacher) => TeacherMatches(t, query))
  }

  /** The write a save makes. */
  datatype TeacherSave =
    | UpdateTeacher(id: string, name: string, email: string, subject: string, status: TeacherStatus)
    | CreateTeacher(input: Accounts.TeacherAccountInput)

  /** `editingTeacher.id && teachers.find(...)`. */
  predicate IsEditing(teachers: seq<Teacher>, id: string) {
    id != "" && exists i :: 0 <= i < |teachers| && teachers[i].id == id
  }

  /** handleSaveEdit: an existing teacher is updated without checks; a new one needs the password checks
      to pass and is then created with the draft's fields and that password. */
  function SaveTeacher(teachers: seq<Teacher>, draft: Teacher, password: string, confirm: string): (r: Result<TeacherSave, Forms.PasswordError>)
    ensures IsEditing(teachers, draft.id) ==> r == Success(UpdateTeacher(draft.id, draft.name, draft.email, draft.subject, draft.status))
    ensures r.Failure? <==> !IsEditing(teachers, draft.id) && Forms.CheckNewPassword(password, confirm).Some?
    ensures r.Failure? ==> Forms.CheckNewPassword(password, confirm) == Some(r.error)
    ensures r.Success? && r.value.CreateTeacher? ==>
      r.value.input == Accounts.TeacherAccountInput(draft.name, draft.email, password, draft.subject, draft.status)
      && password == confirm && |password| >= 6
  {
    if IsEditing(teachers, draft.id) then Success(UpdateTeacher(draft.id, draft.name, draft.email, draft.subject, draft.status))
    else if Forms.CheckNewPassword(password, confirm).Some? then Failure(Forms.CheckNewPassword(password, confirm).value)
    else Success(CreateTeacher(Accounts.TeacherAccountInput(draft.name, draft.email, password, draft.subject, draft.status)))
  }

  /** A new teacher who passes the checks is written under the identity's uid with the teacher role, with
      the draft's e-mail trimmed and lower-cased. */
  lemma NewTeacherWired(teachers: seq<Teacher>, draft: Teacher, password: string, confirm: string, uid: string)
    requires SaveTeacher(teachers, draft, password, confirm).Success?
    requires SaveTeacher(teachers, draft, password, confirm).value.CreateTeacher?
    ensures var c := Accounts.CreateTeacherAccount(SaveTeacher(teachers, draft, password, confirm).value.input, uid);
      c.teacher == draft.(id := uid, authId := Some(uid), phone := None, email := Text.ToLower(Text.Trim(draft.email)))
      && c.profile.role == TeacherRole
  {
  }

  const SaveFailed := "Failed to save teacher. Please try again."

  /** The error shown after a failed save: an Error's message, with "EMAIL_EXISTS" made readable, or a
      generic sentence for anything else thrown. */
  function TeacherErrorText(message: Option<string>): (msg: string)
    ensures message.None? ==> msg == SaveFailed
    ensures message.Some? ==> msg == Forms.FriendlyMessage(message.value)
  {
    Forms.FriendlyMessage(message.GetOr(SaveFailed))
  }
}
