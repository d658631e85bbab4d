/** The accountant administration page of src/pages/admin/AdminAccountants.tsx: the search box and the
    submit checks. The date box's text is checked for presence only; the date it denotes is a parameter. */
module AdminAccountants {
  import opened Wrappers
  import opened Calendar
  import opened Entities
  import Text
  import Grouping
  import Accounts

  predicate AccountantMatches(a: Accountant, query: string) {
    Text.ContainsIgnoreCase(a.name, query) || Text.ContainsIgnoreCase(a.email, query)
    || Text.ContainsIgnoreCase(a.nationalId, query)
  }

  /** filteredAccountants: everybody for an empty query, otherwise the accountants whose name, e-mail or
      national id holds the query, ignoring case, in list order. */
  function FilteredAccountants(accountants: seq<Accountant>, query: string): (r: seq<Accountant>)
    ensures query == "" ==> r == accountants
    ensures query != "" ==> forall a :: a in r <==> a in accountants && AccountantMatches(a, query)
  {
    if query == "" then accountants
    else Grouping.Filter(accountants, (a: Accountant) => AccountantMatches(a, query))
  }

  datatype AccountantForm = AccountantForm(
    name: string,
    nationalId: string,
    qualification: string,
    startDate: string,
    email: string,
    password: string,
    confirmPassword: string)

  datatype AccountantFormError =
    | NameMissing | NationalIdMissing | QualificationMissing | StartDateMissing
    | EmailMissing | PasswordMissing | PasswordMismatch | PasswordTooShort

  /** The checks every submit makes, in order; the first failure is reported. */
  function ProfileError(form: AccountantForm): (r: Option<AccountantFormError>)
    ensures r == Some(NameMissing) <==> Text.Trim(form.name) == ""
    ensures r == Some(NationalIdMissing) <==> Text.Trim(form.name) != "" && Text.Trim(form.nationalId) == ""
    ensures r == Some(QualificationMissing)
        <==> (Text.Trim(form.name) != "" && Text.Trim(form.nationalId) != "" && Text.Trim(form.qualification) == "")
    ensures r == Some(StartDateMissing)
        <==> (Text.Trim(form.name) != "" && Text.Trim(form.nationalId) != "" && Text.Trim(form.qualification) != ""
              && form.startDate == "")
    ensures r.None? || r.value in {NameMissing, NationalIdMissing, QualificationMissing, StartDateMissing}
  {
    if Text.Trim(form.name) == "" then Some(NameMissing)
    else if Text.Trim(form.nationalId) == "" then Some(NationalIdMissing)
    else if Text.Trim(form.qualification) == "" then Some(QualificationMissing)
    else if form.startDate == "" then Some(StartDateMissing)
    else None
  }

  /** The further checks for a new accountant, in order: an e-mail, a password that is not blank, the same
      password twice, and at least six characters. */
  function CredentialsError(form: AccountantForm): (r: Option<AccountantFormError>)
    ensures r == Some(EmailMissing) <==> Text.Trim(form.email) == ""
    ensures r == Some(PasswordMissing) <==> Text.Trim(form.email) != "" && Text.Trim(form.password) == ""
    ensures r == Some(PasswordMismatch)
        <==> (Text.Trim(form.email) != "" && Text.Trim(form.password) != "" && form.password != form.confirmPassword)
    ensures r == Some(PasswordTooShort)
        <==> (Text.Trim(form.email) != "" && Text.Trim(form.password) != "" && form.password == form.confirmPassword
              && |form.password| < 6)
    ensures r.None? || r.value in {EmailMissing, PasswordMissing, PasswordMismatch, PasswordTooShort}
  {
    if Text.Trim(form.email) == "" then Some(EmailMissing)
    else if Text.Trim(form.password) == "" then Some(PasswordMissing)
    else if form.password != form.confirmPassword then Some(PasswordMismatch)
    else if |form.password| < 6 then Some(PasswordTooShort)
    else None
  }

  /** The write a submit makes: an update of the selected accountant's profile fields, or a new account. */
  datatype AccountantSave =
    | UpdateAccountant(id: string, name: string, nationalId: string, qualification: string, startDate: Moment)
    | CreateAccountant(input: Accounts.AccountantAccountInput)

  /** handleSubmit: the profile checks, then for a new accountant the credential checks; the saved text
      fields are trimmed and the new account's e-mail is trimmed and lower-cased. */
  function SubmitAccountant(form: AccountantForm, selected: Option<Accountant>, startDate: Moment): (r: Result<AccountantSave, AccountantFormError>)
    ensures ProfileError(form).Some? ==> r == Failure(ProfileError(form).value)
    ensures ProfileError(form).None? && selected.None? && CredentialsError(form).Some? ==> r == Failure(CredentialsError(form).value)
    ensures r.Success? <==> ProfileError(form).None? && (selected.Some? || CredentialsError(form).None?)
    ensures r.Success? ==> (r.value.UpdateAccountant? <==> selected.Some?)
    ensures r.Success? && selected.Some? ==> r.value.id == selected.value.id
    ensures r.Success? && r.value.CreateAccountant? ==> |r.value.input.password| >= 6 && r.value.input.password == form.password
    ensures r.Success? && r.value.UpdateAccountant? ==>
      r.value.name == Text.Trim(form.name) && r.value.nationalId == Text.Trim(form.nationalId)
      && r.value.qualification == Text.Trim(form.qualification) && r.value.startDate == startDate
    ensures r.Success? && r.value.CreateAccountant? ==>
      r.value.input.name == Text.Trim(form.name) && r.value.input.email == Text.ToLower(Text.Trim(form.email))
      && r.value.input.nationalId == Text.Trim(form.nationalId)
      && r.value.input.qualification == Text.Trim(form.qualification) && r.value.input.startDate == startDate
  {
    if ProfileError(form).Some? then Failure(ProfileError(form).value)
    else if selected.Some? then
      Success(UpdateAccountant(selected.value.id, Text.Trim(form.name), Text.Trim(form.nationalId), Text.Trim(form.qualification), startDate))
    else if CredentialsError(form).Some? then Failure(CredentialsError(form).value)
    else
      Success(CreateAccountant(Accounts.AccountantAccountInput(
        Text.Trim(form.name), Text.ToLower(Text.Trim(form.email)), form.password,
        Text.Trim(form.nationalId), Text.Trim(form.qualification), startDate)))
  }

  /** The saved text fields are the form's, trimmed, so they carry no surrounding white space; the new
      e-mail is the form's, trimmed and lower-cased, and lower-casing it again changes nothing. */
  lemma SubmittedFieldsNormalised(form: AccountantForm, selected: Option<Accountant>, startDate: Moment)
    requires SubmitAccountant(form, selected, startDate).Success?
    ensures var save := SubmitAccountant(form, selected, startDate).value;
      match save
      case UpdateAccountant(_, name, nationalId, qualification, _) =>
        name == Text.Trim(form.name) && nationalId == Text.Trim(form.nationalId)
        && qualification == Text.Trim(form.qualification)
        && Text.Trim(name) == name && Text.Trim(nationalId) == nationalId && Text.Trim(qualification) == qualification
      case CreateAccountant(input) =>
        input.name == Text.Trim(form.name) && input.email == Text.ToLower(Text.Trim(form.email))
        && Text.Trim(input.name) == input.name && Text.ToLower(input.email) == input.email && input.email != ""
  {
    assert ProfileError(form).None?;
    var name := Text.Trim(form.name);
    Text.TrimIdempotent(form.name);
    if selected.Some? {
      Text.TrimIdempotent(form.nationalId);
      Text.TrimIdempotent(form.qualification);
      assert SubmitAccountant(form, selected, startDate).value
        == UpdateAccountant(selected.value.id, name, Text.Trim(form.nationalId), Text.Trim(form.qualification), startDate);
    } else {
      assert CredentialsError(form).None?;
      var email := Text.ToLower(Text.Trim(form.email));
      Text.ToLowerIdempotent(Text.Trim(form.email));
      assert |email| == |Text.Trim(form.email)| > 0;
      assert SubmitAccountant(form, selected, startDate).value
        == CreateAccountant(Accounts.AccountantAccountInput(name, email, form.password,
             Text.Trim(form.nationalId), Text.Trim(form.qualification), startDate));
    }
  }
}
