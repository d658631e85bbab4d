/** The checks the admin dialogs share: the optional tuition pair (src/pages/admin/AdminParents.tsx,
    AdminStudents.tsx), the installment count derived from it, the new-account password checks
    (AdminParents, AdminStudents, AdminTeachers) and the friendly message for an e-mail already in use. */
module Forms {
  import opened Wrappers
  import Text

  /** A number typed into a text box: the raw text and the number the page reads from it, None when
      that is NaN or infinite. The admin and accountant dialogs read `Number(text)` (0 for a blank box);
      the grade boxes read `parseFloat(text)`, the number the text starts with (none for a blank box,
      85 for "85abc"). */
  datatype NumberField = NumberField(text: string, value: Option<real>)

  /** The box holds something besides white space. */
  predicate Filled(f: NumberField) {
    Text.Trim(f.text) != ""
  }

  /** `Number.isFinite(n) && n > 0`. */
  predicate PositiveFinite(f: NumberField) {
    f.value.Some? && f.value.value > 0.0
  }

  datatype TuitionError = TuitionPairIncomplete | BadTotal | BadMonthly

  datatype Tuition = Tuition(total: real, monthly: real)

  /** Both boxes filled or both blank; when filled, the total and then the monthly amount must be
      positive finite numbers. Blank boxes mean no financial plan. */
  function CheckTuition(total: NumberField, monthly: NumberField): (r: Result<Option<Tuition>, TuitionError>)
    ensures r == Failure(TuitionPairIncomplete) <==> Filled(total) != Filled(monthly)
    ensures r == Failure(BadTotal) <==> Filled(total) && Filled(monthly) && !PositiveFinite(total)
    ensures r == Failure(BadMonthly)
        <==> (Filled(total) && Filled(monthly) && PositiveFinite(total) && !PositiveFinite(monthly))
    ensures r == Success(None) <==> !Filled(total) && !Filled(monthly)
    ensures r.Success? && r.value.Some? ==> r.value.value.total > 0.0 && r.value.value.monthly > 0.0
    ensures r.Success? && r.value.Some? ==> Some(r.value.value.total) == total.value && Some(r.value.value.monthly) == monthly.value
  {
    if Filled(total) != Filled(monthly) then Failure(TuitionPairIncomplete)
    else if !Filled(total) then Success(None)
    else if !PositiveFinite(total) then Failure(BadTotal)
    else if !PositiveFinite(monthly) then Failure(BadMonthly)
    else Success(Some(Tuition(total.value.value, monthly.value.value)))
  }

  /** Math.ceil. */
  function Ceil(x: real): (c: int)
    ensures c as real - 1.0 < x <= c as real
  {
    if x.Floor as real == x then x.Floor else x.Floor + 1
  }

  /** `Math.max(1, Math.ceil(total / monthly))`: at least one installment, and just enough of them to
      cover a positive total. */
  function InstallmentCount(total: real, monthly: real): (n: int)
    requires monthly > 0.0
    ensures n >= 1
    ensures total > 0.0 ==> (n - 1) as real * monthly < total <= n as real * monthly
    ensures total <= monthly ==> n == 1
  {
    var c := Ceil(total / monthly);
    var n := if c > 1 then c else 1;
    assert total > 0.0 ==> (n - 1) as real * monthly < total <= n as real * monthly by {
      if total > 0.0 {
        CoverBounds(total, monthly, c);
      }
    }
    n
  }

  /** The ceiling of total/monthly installments cover the total and one fewer does not. */
  lemma CoverBounds(total: real, monthly: real, c: int)
    requires total > 0.0 && monthly > 0.0
    requires c as real - 1.0 < total / monthly <= c as real
    ensures c >= 1
    ensures (c - 1) as real * monthly < total <= c as real * monthly
  {
    var q := total / monthly;
    assert q * monthly == total;
    assert q > 0.0;
    MultiplyBoth(c as real - 1.0, q, monthly);
    MultiplyBothLe(q, c as real, monthly);
  }

  lemma MultiplyBoth(a: real, b: real, m: real)
    requires a < b && m > 0.0
    ensures a * m < b * m
  {
  }

  lemma MultiplyBothLe(a: real, b: real, m: real)
    requires a <= b && m > 0.0
    ensures a * m <= b * m
  {
  }

  /** A year's tuition of 18000 paid 1500 a month is twelve installments. */
  lemma TwelveInstallments()
    ensures InstallmentCount(18000.0, 1500.0) == 12
  {
    assert 18000.0 / 1500.0 == 12.0;
  }

  datatype PasswordError = PasswordMissing | PasswordMismatch | PasswordTooShort

  /** The password checks for a new account, in order: both boxes filled, equal, and at least six
      characters long. */
  function CheckNewPassword(password: string, confirm: string): (r: Option<PasswordError>)
    ensures r == Some(PasswordMissing) <==> password == "" || confirm == ""
    ensures r == Some(PasswordMismatch) <==> password != "" && confirm != "" && password != confirm
    ensures r == Some(PasswordTooShort) <==> password != "" && password == confirm && |password| < 6
    ensures r.None? <==> password == confirm && |password| >= 6
  {
    if password == "" || confirm == "" then Some(PasswordMissing)
    else if password != confirm then Some(PasswordMismatch)
    else if |password| < 6 then Some(PasswordTooShort)
    else None
  }

  const EmailInUse := "Email is already in use."

  /** The error text shown after a failed save: the identity service's "EMAIL_EXISTS" becomes a
      readable sentence, any other message is shown as it is. */
  function FriendlyMessage(raw: string): (msg: string)
    ensures raw == "EMAIL_EXISTS" ==> msg == EmailInUse
    ensures raw != "EMAIL_EXISTS" ==> msg == raw
    ensures msg == EmailInUse <==> raw == "EMAIL_EXISTS" || raw == EmailInUse
  {
    if raw == "EMAIL_EXISTS" then EmailInUse else raw
  }
}
