/** The expense form: its starting state and what it hands to the screen on save. */
module ExpenseForm {
  import opened Wrappers
  import opened Text
  import opened Records

  /** The expense being edited and the raw text of the installment-count field. */
  datatype FormState = FormState(expense: Expense, installmentsText: string)

  /** The record a new form starts from; `now` is `Date.now()`. */
  function BlankExpense(now: int): Expense {
    Expense(now, Others, "", 0.0, Variable, None)
  }

  /** The form's starting state: a copy of the record being edited, or a blank
      variable expense; the count field shows the record's installment total,
      or "1". */
  function InitialState(initial: Option<Expense>, now: int): (f: FormState)
    ensures initial.Some? ==> f.expense == initial.value
    ensures initial.None? ==>
      (f.expense.description == "" && f.expense.amount == 0.0 && f.expense.kind == Variable
       && f.expense.category == Others && f.expense.installments.None?)
  {
    match initial
    case Some(e) =>
      FormState(e, match e.installments case Some(inst) => IntToString(inst.total) case None => "1")
    case None => FormState(BlankExpense(now), "1")
  }

  /** The installment count the form starts with reads back as the record's
      total, or 1 for a record without installments and for a new expense. */
  lemma InitialInstallmentCount(initial: Option<Expense>, now: int)
    ensures ParseInt(InitialState(initial, now).installmentsText) ==
      if initial.Some? && initial.value.installments.Some? then Some(initial.value.installments.value.total)
      else Some(1)
  {
    if initial.Some? && initial.value.installments.Some? {
      ParseIntToString(initial.value.installments.value.total);
    } else {
      ParseIntToString(1);
    }
  }

  /** The per-installment preview under the count field: shown for a fixed
      expense whose count parses to more than one. */
  predicate ShowsPreview(f: FormState) {
    f.expense.kind == Fixed && ParseInt(f.installmentsText).Some? && ParseInt(f.installmentsText).value > 1
  }

  /** The per-installment amount the preview shows (before `toFixed(2)`
      rounds it for display): the amount divided by the parsed count. */
  function PreviewAmount(f: FormState): (r: Option<real>)
    ensures r.Some? <==> ShowsPreview(f)
  {
    if ShowsPreview(f) then Some(f.expense.amount / (ParseInt(f.installmentsText).value as real)) else None
  }

  /** A new form never shows the preview; editing a fixed expense split in more
      than one installment does. */
  lemma PreviewOnOpen(initial: Option<Expense>, now: int)
    ensures initial.None? ==> !ShowsPreview(InitialState(initial, now))
    ensures (initial.Some? && initial.value.kind == Fixed && initial.value.installments.Some?
             && initial.value.installments.value.total > 1) ==> ShowsPreview(InitialState(initial, now))
  {
    InitialInstallmentCount(initial, now);
  }

  /** `handleSave`: `None` when the description is blank (an alert is shown and
      `onSave` is not called). A fixed expense whose count parses to n > 1 gets a
      fresh installment record {total: n, current: 1, groupId: freshGroup}, even
      when editing; any other expense is passed on exactly as in the form. */
  function Submit(f: FormState, freshGroup: string): (r: Option<Expense>)
    ensures r.None? <==> IsBlank(f.expense.description)
    ensures (r.Some? && ShowsPreview(f)) ==>
      r.value == f.expense.(installments := Some(Installments(ParseInt(f.installmentsText).value, 1, freshGroup)))
    ensures r.Some? && !ShowsPreview(f) ==> r.value == f.expense
    ensures r.Some? ==> r.value.(installments := f.expense.installments) == f.expense
  {
    TrimEmptyIffBlank(f.expense.description);
    if Trim(f.expense.description) == [] then None
    else
      var n := ParseInt(f.installmentsText);
      if f.expense.kind == Fixed && n.Some? && n.value > 1 then
        Some(f.expense.(installments := Some(Installments(n.value, 1, freshGroup))))
      else Some(f.expense)
  }

  /** A variable expense keeps whatever installment record it had: the form
      never builds one for it. */
  lemma VariableKeepsInstallments(f: FormState, freshGroup: string)
    requires f.expense.kind == Variable
    requires Submit(f, freshGroup).Some?
    ensures Submit(f, freshGroup).value.installments == f.expense.installments
  {
  }
}
