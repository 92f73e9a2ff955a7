/** The edit round trip across the add screen and the expense form: the stored
    record is loaded into the form, submitted unchanged and saved again. */
module EditFlow {
  import opened Wrappers
  import opened Seqs
  import opened Text
  import opened Calendar
  import opened Records
  import opened Storage
  import opened ExpenseForm
  import opened AddExpense

  /** Re-saving a stored installment record without touching the form divides
      its amount by the total once more, resets its position to 1 and keeps its
      group: the viewed month's record with the edited id becomes that record.
      `formGroup` is the group id the form mints and `freshGroup` the screen's. */
  lemma ResaveDividesAgain(
    s: Store, p: Params, today: Date, clock: int, now: int,
    formGroup: string, freshGroup: string, x: Expense)
    requires Valid(today) && ExactMonths(p, today) && p.expenseId.Some?
    requires x.kind == Fixed && !IsBlank(x.description)
    requires x.installments.Some? && x.installments.value.total > 1 && x.installments.value.groupId != ""
    ensures var f := InitialState(Some(x), now);
      var n := x.installments.value.total;
      var resaved := x.(amount := x.amount / (n as real),
                        installments := Some(Installments(n, 1, x.installments.value.groupId)));
      && Submit(f, formGroup).Some?
      && Planned(Submit(f, formGroup).value, true, Some(x), freshGroup) == resaved
      && LoadMonth(HandleSave(s, p, today, clock, freshGroup, Some(x), Submit(f, formGroup).value),
                   MonthIndex(AnchorDate(p, today)))
         == Replace(LoadMonth(s, MonthIndex(AnchorDate(p, today))), (y: Expense) => y.id == p.expenseId.value, resaved)
  {
    var f := InitialState(Some(x), now);
    var n := x.installments.value.total;
    InitialInstallmentCount(Some(x), now);
    var e := Submit(f, formGroup).value;
    assert e == x.(installments := Some(Installments(n, 1, formGroup)));
    EditSplitWithGroup(s, p, today, clock, freshGroup, Some(x), e);
  }

  /** The preview under the count field shows the amount the add screen then
      stores for each installment, whether the form was opened for a new
      expense or for an existing one (`AddExpense.Planned` states that this
      share, times the count, gives back the amount). */
  lemma PreviewIsStoredAmount(f: FormState, freshGroup: string, editing: bool, initial: Option<Expense>, group: string)
    requires ShowsPreview(f) && !IsBlank(f.expense.description)
    ensures Submit(f, freshGroup).Some?
    ensures Planned(Submit(f, freshGroup).value, editing, initial, group).amount == PreviewAmount(f).value
  {
    var e := Submit(f, freshGroup).value;
    var n := ParseInt(f.installmentsText).value as real;
    assert IsSplit(e) && e.installments.value.total as real == n && e.amount == f.expense.amount;
    assert Planned(e, editing, initial, group).amount == e.amount / n;
  }
}
