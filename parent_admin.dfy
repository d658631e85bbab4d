/** The parent administration page of src/pages/admin/AdminParents.tsx: the search filter, the save
    checks and the installment count, re-linking students to a parent and rebuilding the affected
    parents' children lists, applying a financial plan to the selected children, and the child
    check boxes. The store is the page's student list and the parents' childrenIds fields; "now" is a
    parameter. */
module ParentAdmin {
  import opened Wrappers
  import opened Calendar
  import opened Entities
  import Text
  import Grouping
  import Forms
  import Finance

  // ----- search -----

  predicate ParentMatches(p: Parent, query: string) {
    Text.ContainsIgnoreCase(p.name, query) || Text.ContainsIgnoreCase(p.email, query)
    || Text.ContainsIgnoreCase(Text.OrElse(p.phone, ""), query)
  }

  /** filteredParents: the parents whose name, e-mail or phone holds the query, ignoring case, in
      list order; an empty query keeps everybody. */
  function FilteredParents(parents: seq<Parent>, query: string): (r: seq<Parent>)
    ensures forall p :: p in r <==> p in parents && ParentMatches(p, query)
    ensures query == "" ==> r == parents
  {
    if query == "" then
      forall i | 0 <= i < |parents| ensures ParentMatches(parents[i], query) {
        Text.EmptyQueryMatches(parents[i].name);
      }
      Grouping.Filter(parents, (p: Parent) => ParentMatches(p, query))
    else
      Grouping.Filter(parents, (p: Parent) => ParentMatches(p, query))
  }

  /** The children pre-selected when the dialog opens: the students whose parentId is this parent. */
  function LinkedStudentIds(students: seq<Student>, parentId: string): (ids: seq<string>)
    ensures |ids| <= |students|
    ensures forall id :: id in ids <==> exists s :: s in students && s.id == id && s.parentId == Some(parentId)
  {
    if students == [] then []
    else
      var init := students[..|students| - 1];
      var last := students[|students| - 1];
      assert students == init + [last];
      LinkedStudentIds(init, parentId) + (if last.parentId == Some(parentId) then [last.id] else [])
  }

  // ----- the save checks -----

  datatype ParentForm = ParentForm(
    phone: Option<string>,
    tuition: Forms.NumberField,
    monthly: Forms.NumberField,
    password: string,
    confirm: string)

  datatype ParentFormError = PhoneRequired | TuitionInvalid(reason: Forms.TuitionError) | PasswordInvalid(why: Forms.PasswordError)

  /** The plan applied to the selected children. */
  datatype FinancialDetails = FinancialDetails(total: real, monthly: real, installmentCount: int)

  /** What a successful check hands on: the trimmed phone and the plan, if one was entered. */
  datatype ParentSave = ParentSave(phone: string, details: Option<FinancialDetails>)

  function TrimmedPhone(form: ParentForm): string {
    Text.Trim(Text.OrElse(form.phone, ""))
  }

  function Details(t: Forms.Tuition): (d: FinancialDetails)
    requires t.monthly > 0.0
    ensures d.total == t.total && d.monthly == t.monthly && d.installmentCount == Forms.InstallmentCount(t.total, t.monthly)
  {
    FinancialDetails(t.total, t.monthly, Forms.InstallmentCount(t.total, t.monthly))
  }

  /** handleSaveEdit's checks, first failure wins: a non-blank phone, then the tuition pair, then, for a
      new parent only, the password checks. */
  function ValidateParentForm(form: ParentForm, isEditing: bool): (r: Result<ParentSave, ParentFormError>)
    ensures r == Failure(PhoneRequired) <==> TrimmedPhone(form) == ""
    ensures r.Failure? && r.error.TuitionInvalid?
        <==> (TrimmedPhone(form) != "" && Forms.CheckTuition(form.tuition, form.monthly).Failure?)
    ensures r.Failure? && r.error.TuitionInvalid? ==> Forms.CheckTuition(form.tuition, form.monthly) == Failure(r.error.reason)
    ensures r.Failure? && r.error.PasswordInvalid?
        <==> (TrimmedPhone(form) != "" && Forms.CheckTuition(form.tuition, form.monthly).Success?
              && !isEditing && Forms.CheckNewPassword(form.password, form.confirm).Some?)
    ensures r.Failure? && r.error.PasswordInvalid? ==> Forms.CheckNewPassword(form.password, form.confirm) == Some(r.error.why)
    ensures r.Success? ==> r.value.phone == TrimmedPhone(form) && r.value.phone != ""
  {
    var phone := TrimmedPhone(form);
    if phone == "" then Failure(PhoneRequired)
    else
      match Forms.CheckTuition(form.tuition, form.monthly)
      case Failure(e) => Failure(TuitionInvalid(e))
      case Success(plan) =>
        if !isEditing && Forms.CheckNewPassword(form.password, form.confirm).Some? then
          Failure(PasswordInvalid(Forms.CheckNewPassword(form.password, form.confirm).value))
        else
          Success(ParentSave(phone, if plan.Some? then Some(Details(plan.value)) else None))
  }

  /** A plan is handed on exactly when the tuition boxes were filled; it carries the typed amounts and
      just enough installments to cover the total. */
  lemma ValidatedPlan(form: ParentForm, isEditing: bool)
    requires ValidateParentForm(form, isEditing).Success?
    ensures var save := ValidateParentForm(form, isEditing).value;
      (save.details.Some? <==> Forms.Filled(form.tuition))
      && (save.details.Some? ==> PlanCovers(save.details.value, form))
  {
    var phone := TrimmedPhone(form);
    var plan := Forms.CheckTuition(form.tuition, form.monthly);
    assert phone != "" && plan.Success?;
    var details := if plan.value.Some? then Some(Details(plan.value.value)) else None;
    assert ValidateParentForm(form, isEditing) == Success(ParentSave(phone, details));
  }

  /** The plan holds the typed amounts and the installment count of Forms.InstallmentCount (the fewest,
      at least one, that pay the total). */
  predicate PlanCovers(d: FinancialDetails, form: ParentForm) {
    Some(d.total) == form.tuition.value && Some(d.monthly) == form.monthly.value
    && d.monthly > 0.0 && d.installmentCount == Forms.InstallmentCount(d.total, d.monthly)
  }

  /** Editing an existing parent never looks at the password boxes. */
  lemma EditingIgnoresPasswords(form: ParentForm, password: string, confirm: string)
    ensures ValidateParentForm(form, true) == ValidateParentForm(form.(password := password, confirm := confirm), true)
  {
  }

  // ----- re-linking children -----

  /** The link a student should have after the save: selected students belong to this parent, a
      student of this parent who was unselected belongs to nobody, everybody else keeps their link. */
  function Relink(s: Student, parentId: string, childIds: seq<string>): (r: Student)
    ensures r == s.(parentId := r.parentId)
    ensures s.id in childIds ==> r.parentId == Some(parentId)
    ensures s.id !in childIds && s.parentId == Some(parentId) ==> r.parentId.None?
    ensures s.id !in childIds && s.parentId != Some(parentId) ==> r == s
  {
    if s.id in childIds then s.(parentId := Some(parentId))
    else if s.parentId == Some(parentId) then s.(parentId := None)
    else s
  }

  /** The sync writes a student exactly when its link has to change. */
  predicate NeedsUpdate(s: Student, parentId: string, childIds: seq<string>) {
    (s.id in childIds && s.parentId != Some(parentId)) || (s.id !in childIds && s.parentId == Some(parentId))
  }

  lemma UpdatedIffChanged(s: Student, parentId: string, childIds: seq<string>)
    ensures NeedsUpdate(s, parentId, childIds) <==> Relink(s, parentId, childIds) != s
  {
  }

  function RelinkAll(students: seq<Student>, parentId: string, childIds: seq<string>): (r: seq<Student>)
    ensures |r| == |students|
    ensures forall i :: 0 <= i < |r| ==> r[i] == Relink(students[i], parentId, childIds)
  {
    seq(|students|, i requires 0 <= i < |students| => Relink(students[i], parentId, childIds))
  }

  /** A non-empty parent link, as `if (student.parentId)` reads it. */
  predicate LinkedTo(s: Student, p: string) {
    p != "" && s.parentId == Some(p)
  }

  /** The former parents of the students this save links to the parent. */
  function FormerParents(students: seq<Student>, parentId: string, childIds: seq<string>): (r: set<string>)
    ensures forall p :: p in r <==> exists s :: s in students && s.id in childIds && s.parentId != Some(parentId) && LinkedTo(s, p)
  {
    if students == [] then {}
    else
      var init := students[..|students| - 1];
      var last := students[|students| - 1];
      assert students == init + [last];
      FormerParents(init, parentId, childIds)
      + (if last.id in childIds && last.parentId != Some(parentId) && last.parentId.Some? && last.parentId.value != "" then {last.parentId.value} else {})
  }

  /** The number of students a save writes. */
  function CountUpdates(students: seq<Student>, parentId: string, childIds: seq<string>): (n: nat)
    ensures n <= |students|
  {
    if students == [] then 0
    else CountUpdates(students[..|students| - 1], parentId, childIds) + (if NeedsUpdate(students[|students| - 1], parentId, childIds) then 1 else 0)
  }

  /** One more student: its relinked record, its former parent when it is taken over, and one more write
      when its link changes. */
  lemma RelinkStep(students: seq<Student>, i: nat, parentId: string, childIds: seq<string>)
    requires i < |students|
    ensures RelinkAll(students[..i + 1], parentId, childIds)
            == RelinkAll(students[..i], parentId, childIds) + [Relink(students[i], parentId, childIds)]
    ensures var s := students[i];
      FormerParents(students[..i + 1], parentId, childIds)
      == FormerParents(students[..i], parentId, childIds)
         + (if s.id in childIds && s.parentId != Some(parentId) && s.parentId.Some? && s.parentId.value != "" then {s.parentId.value} else {})
    ensures CountUpdates(students[..i + 1], parentId, childIds)
            == CountUpdates(students[..i], parentId, childIds) + (if NeedsUpdate(students[i], parentId, childIds) then 1 else 0)
  {
    var prefix := students[..i + 1];
    assert prefix[..i] == students[..i] && prefix[i] == students[i];
  }

  /** The ids of the students linked to `p`, in list order: the children list the sync stores. */
  function ChildrenOf(students: seq<Student>, p: string): (ids: seq<string>)
    ensures forall id :: id in ids <==> exists s :: s in students && s.id == id && LinkedTo(s, p)
  {
    if students == [] then []
    else
      var init := students[..|students| - 1];
      var last := students[|students| - 1];
      assert students == init + [last];
      ChildrenOf(init, p) + (if LinkedTo(last, p) then [last.id] else [])
  }

  /** After a sync, this parent's children are exactly the selected ids that name a student. */
  lemma SyncedChildren(students: seq<Student>, parentId: string, childIds: seq<string>)
    requires parentId != ""
    ensures forall id :: id in ChildrenOf(RelinkAll(students, parentId, childIds), parentId)
                 <==> id in childIds && exists s :: s in students && s.id == id
  {
    var after := RelinkAll(students, parentId, childIds);
    forall id ensures id in ChildrenOf(after, parentId) <==> id in childIds && exists s :: s in students && s.id == id {
      if id in ChildrenOf(after, parentId) {
        var t :| t in after && t.id == id && LinkedTo(t, parentId);
        var i :| 0 <= i < |after| && after[i] == t;
        assert students[i].id == id;
      }
      if id in childIds && exists s :: s in students && s.id == id {
        var s :| s in students && s.id == id;
        var i :| 0 <= i < |students| && students[i] == s;
        assert after[i].id == id && LinkedTo(after[i], parentId);
      }
    }
  }

  /** The page's students and the childrenIds field of each parent document. */
  class ParentLinks {
    var students: seq<Student>
    var children: map<string, seq<string>>

    constructor (students: seq<Student>, children: map<string, seq<string>>)
      ensures this.students == students && this.children == children
    {
      this.students := students;
      this.children := children;
    }

    /** syncParentChildren: writes each student whose link must change, then stores, for this parent and
        every former parent of a newly linked student, the ids of the students now linked to it. Other
        parents' lists are left alone. Returns the number of student writes and the affected parents.
        Deleting a parent leaves its students linked to it, so an affected parent may have no document:
        its update is refused, the others still land, and the sync fails (`ok` is false). */
    method SyncParentChildren(parentId: string, childIds: seq<string>) returns (writes: nat, affected: set<string>, ok: bool)
      modifies this
      ensures students == RelinkAll(old(students), parentId, childIds)
      ensures writes == CountUpdates(old(students), parentId, childIds)
      ensures affected == {parentId} + FormerParents(old(students), parentId, childIds)
      ensures ok <==> affected <= old(children).Keys
      ensures children.Keys == old(children).Keys
      ensures forall p :: p in affected && p in old(children) ==> children[p] == ChildrenOf(students, p)
      ensures forall p :: p in old(children) && p !in affected ==> children[p] == old(children)[p]
    {
      var next, former;
      next, former, writes := RelinkStudents(students, parentId, childIds);
      students := next;
      affected := {parentId} + former;
      var byParent := ChildrenMap(next);
      ok := StoreChildren(affected, byParent);
    }

    /** The student loop of syncParentChildren: each student's new link, the former parents of the
        students taken over, and the number of students whose document changes. */
    method RelinkStudents(before: seq<Student>, parentId: string, childIds: seq<string>)
      returns (next: seq<Student>, former: set<string>, writes: nat)
      ensures next == RelinkAll(before, parentId, childIds)
      ensures former == FormerParents(before, parentId, childIds)
      ensures writes == CountUpdates(before, parentId, childIds)
    {
      next := [];
      former := {};
      writes := 0;
      for i := 0 to |before|
        invariant next == RelinkAll(before[..i], parentId, childIds)
        invariant former == FormerParents(before[..i], parentId, childIds)
        invariant writes == CountUpdates(before[..i], parentId, childIds)
      {
        var s := before[i];
        RelinkStep(before, i, parentId, childIds);
        if NeedsUpdate(s, parentId, childIds) {
          writes := writes + 1;
          if s.id in childIds && s.parentId.Some? && s.parentId.value != "" {
            former := former + {s.parentId.value};
          }
        }
        next := next + [Relink(s, parentId, childIds)];
      }
      assert before[..|before|] == before;
    }

    /** Writes the children list of every affected parent (`updateDoc`, which refuses a parent without a
        document). The writes are awaited together: every existing parent is written, and the result is
        false when some affected parent has no document. */
    method StoreChildren(affected: set<string>, byParent: map<string, seq<string>>) returns (ok: bool)
      requires forall p :: p in affected ==> Lookup(byParent, p) == ChildrenOf(students, p)
      modifies this
      ensures students == old(students)
      ensures ok <==> affected <= old(children).Keys
      ensures children.Keys == old(children).Keys
      ensures forall p :: p in affected && p in old(children) ==> children[p] == ChildrenOf(students, p)
      ensures forall p :: p in old(children) && p !in affected ==> children[p] == old(children)[p]
    {
      ok := true;
      var todo := affected;
      while todo != {}
        invariant todo <= affected
        invariant students == old(students)
        invariant ok <==> affected - todo <= old(children).Keys
        invariant children.Keys == old(children).Keys
        invariant forall p :: p in affected - todo && p in old(children) ==> children[p] == ChildrenOf(students, p)
        invariant forall p :: p in old(children) && p !in affected - todo ==> children[p] == old(children)[p]
        decreases todo
      {
        var p :| p in todo;
        assert affected - (todo - {p}) == (affected - todo) + {p};
        if p in children {
          children := children[p := Lookup(byParent, p)];
        } else {
          ok := false;
        }
        todo := todo - {p};
      }
    }
  }

  /** `childrenMap.get(id) || []`. */
  function Lookup(m: map<string, seq<string>>, p: string): seq<string> {
    if p in m then m[p] else []
  }

  /** The map the sync fills from the latest students: each non-empty parent id to its children. */
  method ChildrenMap(students: seq<Student>) returns (m: map<string, seq<string>>)
    ensures forall p :: Lookup(m, p) == ChildrenOf(students, p)
  {
    m := map[];
    for j := 0 to |students|
      invariant forall p :: Lookup(m, p) == ChildrenOf(students[..j], p)
    {
      var s := students[j];
      assert students[..j + 1] == students[..j] + [s];
      if s.parentId.Some? && s.parentId.value != "" {
        var p := s.parentId.value;
        m := m[p := Lookup(m, p) + [s.id]];
      }
    }
    assert students[..|students|] == students;
  }

  // ----- the financial plan -----

  /** The update an existing child account gets: the new plan, due now, currency kept (or "SAR"). */
  function PlanUpdate(existing: Finance.Account, d: FinancialDetails, parentName: string, now: Moment): (u: Finance.UpdateInput)
    ensures u.currency == Some(Text.OrElse(Some(existing.currency), "SAR"))
    ensures u.totalPaid.None? && u.planStartDate.None? && u.nextDueDate == Some(now)
    ensures u.totalTuition == Some(d.total) && u.monthlyInstallment == Some(d.monthly) && u.installmentCount == Some(d.installmentCount)
  {
    Finance.UpdateInput(
      None, None, Some(Text.OrElse(Some(existing.currency), "SAR")),
      Some(d.total), None, Some(d.monthly), Some(d.installmentCount),
      None, Some(now), None, Some("Updated via parent " + parentName))
  }

  /** The account created for a child without one: keyed by the child's id, nothing paid, starting and
      due now. */
  function PlanCreate(child: Student, d: FinancialDetails, parentName: string, now: Moment): (input: Finance.CreateInput)
    ensures input.id == Some(child.id) && input.studentId == child.id && input.totalPaid == Some(0.0)
    ensures input.planStartDate == now && input.nextDueDate == Some(now) && input.currency == Some("SAR")
  {
    Finance.CreateInput(
      Some(child.id), child.id, child.name, child.grade, Some("SAR"),
      d.total, d.monthly, d.installmentCount, now, Some(now),
      Some("Created via parent " + parentName), Some(0.0))
  }

  /** One child's step: its existing account takes the plan update, otherwise an account is created. */
  function PlanStep(before: map<string, Finance.Account>, id: string, child: Student,
                    d: FinancialDetails, parentName: string, now: Moment): map<string, Finance.Account>
    requires ValidMoment(now)
  {
    if id in before then before[id := Finance.ApplyUpdate(before[id], PlanUpdate(before[id], d, parentName, now), now)]
    else before[id := Finance.NewAccount(id, PlanCreate(child, d, parentName, now), now, None)]
  }

  /** The accounts after the plan has been applied to the children in order; ids that name no student
      are skipped. */
  function ApplyPlan(accounts: map<string, Finance.Account>, childIds: seq<string>, students: seq<Student>,
                     d: FinancialDetails, parentName: string, now: Moment): map<string, Finance.Account>
    requires ValidMoment(now)
  {
    if childIds == [] then accounts
    else
      var before := ApplyPlan(accounts, childIds[..|childIds| - 1], students, d, parentName, now);
      var id := childIds[|childIds| - 1];
      match FindStudent(students, id)
      case None => before
      case Some(child) => PlanStep(before, id, child, d, parentName, now)
  }

  /** An account that carries the plan: its amounts and count, due now, a currency, `paid` paid so far,
      and the status the rule gives. */
  predicate CarriesPlan(a: Finance.Account, d: FinancialDetails, now: Moment, paid: real) {
    a.totalTuition == d.total && a.monthlyInstallment == d.monthly && a.installmentCount == d.installmentCount
    && a.nextDueDate == now && a.currency != "" && a.totalPaid == paid && Finance.StatusCurrent(a, now)
  }

  lemma PlanStepCarries(before: map<string, Finance.Account>, id: string, child: Student,
                        d: FinancialDetails, parentName: string, now: Moment)
    requires ValidMoment(now)
    ensures var after := PlanStep(before, id, child, d, parentName, now);
      id in after && CarriesPlan(after[id], d, now, if id in before then before[id].totalPaid else 0.0)
  {
    if id in before {
      var u := PlanUpdate(before[id], d, parentName, now);
      assert Finance.TouchesStatusInputs(u);
    } else {
      var input := PlanCreate(child, d, parentName, now);
      var a := Finance.NewAccount(id, input, now, None);
      assert a.monthlyInstallment == d.monthly && a.nextDueDate == now && a.totalPaid == 0.0;
    }
  }

  /** Applying the plan touches only the accounts of selected children. */
  lemma {:induction false} ApplyPlanKeepsOthers(accounts: map<string, Finance.Account>, childIds: seq<string>, students: seq<Student>,
                                               d: FinancialDetails, parentName: string, now: Moment, other: string)
    requires ValidMoment(now) && other !in childIds
    ensures other in ApplyPlan(accounts, childIds, students, d, parentName, now) <==> other in accounts
    ensures other in accounts ==> ApplyPlan(accounts, childIds, students, d, parentName, now)[other] == accounts[other]
  {
    if childIds != [] {
      ApplyPlanKeepsOthers(accounts, childIds[..|childIds| - 1], students, d, parentName, now, other);
    }
  }

  /** Every selected child that is a student ends up with an account carrying the plan, due now; an
      account that was there keeps what was paid, a new one starts with nothing paid. */
  lemma {:induction false} ApplyPlanCovers(accounts: map<string, Finance.Account>, childIds: seq<string>, students: seq<Student>,
                                          d: FinancialDetails, parentName: string, now: Moment, id: string)
    requires ValidMoment(now) && id in childIds && FindStudent(students, id).Some?
    ensures var after := ApplyPlan(accounts, childIds, students, d, parentName, now);
      id in after && CarriesPlan(after[id], d, now, if id in accounts then accounts[id].totalPaid else 0.0)
  {
    var init := childIds[..|childIds| - 1];
    var last := childIds[|childIds| - 1];
    var before := ApplyPlan(accounts, init, students, d, parentName, now);
    if last == id {
      PlanStepCarries(before, id, FindStudent(students, id).value, d, parentName, now);
      if id in init {
        ApplyPlanCovers(accounts, init, students, d, parentName, now, id);
      } else {
        ApplyPlanKeepsOthers(accounts, init, students, d, parentName, now, id);
      }
    } else {
      assert id in init;
      ApplyPlanCovers(accounts, init, students, d, parentName, now, id);
    }
  }

  /** applyFinancialDetailsToChildren: for each selected child that is a student, the existing account
      is updated with the plan, or an account keyed by the child's id is created. */
  method ApplyFinancialDetails(ledger: Finance.Ledger, childIds: seq<string>, students: seq<Student>,
                               d: FinancialDetails, parentName: string, now: Moment)
    requires ledger.Valid() && ValidMoment(now)
    modifies ledger
    ensures ledger.Valid()
    ensures ledger.accounts == ApplyPlan(old(ledger.accounts), childIds, students, d, parentName, now)
    ensures ledger.payments == old(ledger.payments)
  {
    for i := 0 to |childIds|
      invariant ledger.Valid()
      invariant ledger.accounts == ApplyPlan(old(ledger.accounts), childIds[..i], students, d, parentName, now)
      invariant ledger.payments == old(ledger.payments)
    {
      var id := childIds[i];
      assert childIds[..i + 1][..i] == childIds[..i];
      match FindStudent(students, id) {
        case None =>
        case Some(child) =>
          if id in ledger.accounts {
            var ok := ledger.UpdateAccount(id, PlanUpdate(ledger.accounts[id], d, parentName, now), now);
          } else {
            var created := ledger.CreateAccount(PlanCreate(child, d, parentName, now), now, id);
          }
      }
    }
    assert childIds[..|childIds|] == childIds;
  }

  /** The linking part of a parent save (AdminParents.tsx, both the edit and the create branch): the
      children are synced, and the financial plan is applied to them only when the sync succeeded, a plan
      was entered and some child is selected. A failed sync throws before the plan is applied. */
  method SyncThenApplyPlan(links: ParentLinks, ledger: Finance.Ledger, parentId: string, childIds: seq<string>,
                           plan: Option<FinancialDetails>, parentName: string, now: Moment) returns (ok: bool)
    requires ledger.Valid() && ValidMoment(now)
    modifies links, ledger
    ensures ledger.Valid()
    ensures links.students == RelinkAll(old(links.students), parentId, childIds)
    ensures ok <==> {parentId} + FormerParents(old(links.students), parentId, childIds) <= old(links.children).Keys
    ensures ok && plan.Some? && |childIds| > 0 ==>
      ledger.accounts == ApplyPlan(old(ledger.accounts), childIds, old(links.students), plan.value, parentName, now)
    ensures !(ok && plan.Some? && |childIds| > 0) ==> ledger.accounts == old(ledger.accounts)
    ensures ledger.payments == old(ledger.payments)
  {
    var students := links.students;
    var writes, affected;
    writes, affected, ok := links.SyncParentChildren(parentId, childIds);
    if ok && plan.Some? && |childIds| > 0 {
      ApplyFinancialDetails(ledger, childIds, students, plan.value, parentName, now);
    }
  }

  // ----- the child check boxes -----

  /** handleToggleChild: checking adds the id at the end unless it is already there; unchecking removes
      every copy. */
  function ToggleChild(selected: seq<string>, studentId: string, checked: bool): (r: seq<string>)
    ensures checked ==> forall id :: id in r <==> id in selected || id == studentId
    ensures !checked ==> forall id :: id in r <==> id in selected && id != studentId
  {
    if checked then
      if studentId in selected then selected else selected + [studentId]
    else
      Grouping.Filter(selected, (id: string) => id != studentId)
  }

  /** Toggling never introduces a repeated id. */
  lemma ToggleKeepsDistinct(selected: seq<string>, studentId: string, checked: bool)
    requires Grouping.Distinct(selected)
    ensures Grouping.Distinct(ToggleChild(selected, studentId, checked))
  {
    if !checked {
      Grouping.FilterDistinct(selected, (id: string) => id != studentId);
    }
  }
}
