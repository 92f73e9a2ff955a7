/** The month selector shown above the expense and income lists: a label for
    the current month and two buttons that step one month back or forward. */
module MonthSelector {
  import opened Calendar

  /** The month names the label is read from, as the component spells them
      (the third entry is a mis-encoded "Março"). */
  const Months: seq<string> := [
    "Janeiro", "Fevereiro", "MarÃ§o", "Abril", "Maio", "Junho",
    "Julho", "Agosto", "Setembro", "Outubro", "Novembro", "Dezembro"]

  /** The label under the buttons: the name of the date's month and its year.
      The month of a valid date always indexes the twelve names. */
  function MonthLabel(d: Date): (r: (string, int))
    requires Valid(d)
    ensures r.0 in Months && r.1 == d.year
  {
    (Months[d.month], d.year)
  }

  /** Two dates share a label exactly when they share year and month. */
  lemma MonthLabelInjective(a: Date, b: Date)
    requires Valid(a) && Valid(b)
    ensures MonthLabel(a) == MonthLabel(b) <==> a.year == b.year && a.month == b.month
  {
  }

  // ------------------------------------------------------------- as written

  /** `goToPreviousMonth`: `setMonth(getMonth() - 1)` on a copy of the date. */
  function PreviousMonth(d: Date): (r: Date)
    requires Valid(d)
    ensures Valid(r)
    ensures MonthIndex(r) == MonthIndex(d) - 1 || MonthIndex(r) == MonthIndex(d)
  {
    ShiftMonths(d, -1)
  }

  /** `goToNextMonth`: `setMonth(getMonth() + 1)` on a copy of the date. */
  function NextMonth(d: Date): (r: Date)
    requires Valid(d)
    ensures Valid(r)
    ensures MonthIndex(r) == MonthIndex(d) + 1 || MonthIndex(r) == MonthIndex(d) + 2
  {
    ShiftMonths(d, 1)
  }

  /** On a day every month has, the next month is the following calendar
      month with the same day, December wrapping to January of the next year. */
  lemma NextMonthStep(d: Date)
    requires Valid(d) && d.day <= 28
    ensures NextMonth(d) == if d.month == 11 then Date(d.year + 1, 0, d.day) else Date(d.year, d.month + 1, d.day)
  {
  }

  /** On a day every month has, the previous month is the preceding calendar
      month with the same day, January wrapping to December of the year before. */
  lemma PreviousMonthStep(d: Date)
    requires Valid(d) && d.day <= 28
    ensures PreviousMonth(d) == if d.month == 0 then Date(d.year - 1, 11, d.day) else Date(d.year, d.month - 1, d.day)
  {
  }

  /** On a day every month has, the two buttons undo each other. */
  lemma StepsUndoEachOther(d: Date)
    requires Valid(d) && d.day <= 28
    ensures NextMonth(PreviousMonth(d)) == d
    ensures PreviousMonth(NextMonth(d)) == d
  {
  }

  /** From a day the following month lacks, "next" runs over into the month
      after it; from a day the preceding month lacks, "previous" stays in the
      same month. */
  lemma StepsOvershootLongDays(d: Date)
    requires Valid(d)
    ensures var n := FirstOfMonth(d.year, d.month + 1);
      d.day > DaysInMonth(n.year, n.month) ==> MonthIndex(NextMonth(d)) == MonthIndex(d) + 2
    ensures var p := FirstOfMonth(d.year, d.month - 1);
      d.day > DaysInMonth(p.year, p.month) ==> MonthIndex(PreviousMonth(d)) == MonthIndex(d)
  {
  }

  /** On 31 January "next" shows March and skips February; on 31 March
      "previous" stays on March. */
  lemma ThirtyFirstSkipsFebruary()
    ensures NextMonth(Date(2025, 0, 31)) == Date(2025, 2, 3)
    ensures PreviousMonth(Date(2025, 2, 31)) == Date(2025, 2, 3)
  {
    assert DaysInMonth(2025, 1) == 28;
  }

  // -------------------------------------------------------------- corrected

  /** A "previous month" that always shows the preceding month. */
  function PreviousMonthClamped(d: Date): (r: Date)
    requires Valid(d)
    ensures Valid(r) && MonthIndex(r) == MonthIndex(d) - 1
  {
    ClampedShift(d, -1)
  }

  /** A "next month" that always shows the following month. */
  function NextMonthClamped(d: Date): (r: Date)
    requires Valid(d)
    ensures Valid(r) && MonthIndex(r) == MonthIndex(d) + 1
  {
    ClampedShift(d, 1)
  }

  /** The clamped steps agree with the buttons as written wherever those move
      by one month: on days every month has. */
  lemma ClampedAgreesOnShortDays(d: Date)
    requires Valid(d) && d.day <= 28
    ensures NextMonthClamped(d) == NextMonth(d)
    ensures PreviousMonthClamped(d) == PreviousMonth(d)
  {
  }

  /** Pressing the clamped "next" `k` times moves exactly `k` months, from any day. */
  lemma {:induction false} ClampedNextRepeated(d: Date, k: nat)
    requires Valid(d)
    ensures MonthIndex(NextRepeated(d, k)) == MonthIndex(d) + k
  {
    if k > 0 {
      ClampedNextRepeated(d, k - 1);
    }
  }

  /** The date after pressing the clamped "next" `k` times. */
  function NextRepeated(d: Date, k: nat): (r: Date)
    requires Valid(d)
    ensures Valid(r)
  {
    if k == 0 then d else NextMonthClamped(NextRepeated(d, k - 1))
  }
}
