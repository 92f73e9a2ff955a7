/** The add/edit expense screen's save handler: it stores the submitted
    expense in the viewed month and, for an expense split in installments,
    writes one sibling record into each following month of the plan. */
module AddExpense {
  import opened Wrappers
  import opened Seqs
  import opened Calendar
  import opened Records
  import opened Storage

  /** Route parameters: the id of the expense being edited (absent for a new
      expense) and the (year, month) being viewed, if given. */
  datatype Params = Params(expenseId: Option<int>, yearMonth: Option<(int, int)>)

  /** `currentDate`: day 1 of the requested month, or `today` (the clock's date)
      when the screen is opened without a month. */
  function AnchorDate(p: Params, today: Date): (d: Date)
    requires Valid(today)
    ensures Valid(d)
    ensures p.yearMonth.Some? ==>
      d.day == 1 && MonthIndex(d) == p.yearMonth.value.0 * 12 + p.yearMonth.value.1
    ensures p.yearMonth.None? ==> d == today
  {
    match p.yearMonth
    case Some((y, m)) => FirstOfMonth(y, m)
    case None => today
  }

  /** The anchor's day exists in every month, so `setMonth` never runs over:
      always the case when the month comes from the route. */
  predicate ExactMonths(p: Params, today: Date) {
    p.yearMonth.Some? || today.day <= 28
  }

  /** The expenses of `xs` outside installment group `g`, in order
      (`e.installments?.groupId !== g`). */
  function WithoutGroup(xs: seq<Expense>, g: string): (r: seq<Expense>)
    ensures forall i | 0 <= i < |r| :: GroupOf(r[i]) != Some(g)
    ensures forall i | 0 <= i < |xs| && GroupOf(xs[i]) != Some(g) :: xs[i] in r
    ensures forall i | 0 <= i < |r| :: r[i] in xs
  {
    Filter(xs, (e: Expense) => GroupOf(e) != Some(g))
  }

  /** The record written for installment `i` of the plan of `e`: a copy of `e`
      under id `clock + i` whose installment position is `i`. */
  function Sibling(e: Expense, clock: int, i: int): (r: Expense)
    requires e.installments.Some?
    ensures r.id == clock + i && r.amount == e.amount
    ensures r.installments.Some? && r.installments.value.current == i
    ensures GroupOf(r) == GroupOf(e) && r.installments.value.total == e.installments.value.total
    ensures r.category == e.category && r.description == e.description && r.kind == e.kind
  {
    e.(id := clock + i, installments := Some(e.installments.value.(current := i)))
  }

  /** The loop that creates the siblings `i..last`, installment `j` being
      appended to the month `j - base` months after the anchor. */
  function AppendSiblings(s: Store, anchor: Date, e: Expense, clock: int, i: int, last: int, base: int): (r: Store)
    requires Valid(anchor) && e.installments.Some?
    ensures forall k | !IsExpenseKey(k) :: Get(r, k) == Get(s, k)
    decreases last - i
  {
    if i > last then s
    else
      var s1 := SaveExpenses(s, [Sibling(e, clock, i)], ShiftMonths(anchor, i - base), true);
      AppendSiblings(s1, anchor, e, clock, i + 1, last, base)
  }

  /** The loop that removes group `g` from the months `i - base .. last - base`
      after the anchor, rewriting each month's whole list. */
  function PurgeGroup(s: Store, anchor: Date, g: string, i: int, last: int, base: int): (r: Store)
    requires Valid(anchor)
    ensures forall k | !IsExpenseKey(k) :: Get(r, k) == Get(s, k)
    decreases last - i
  {
    if i > last then s
    else
      var target := ShiftMonths(anchor, i - base);
      var s1 := SaveExpenses(s, WithoutGroup(LoadExpenses(s, target), g), target, false);
      PurgeGroup(s1, anchor, g, i + 1, last, base)
  }

  /** What the sibling loop `i..last` appends to month `idx` when the anchor is
      at `a`: sibling `idx - a + base` inside the loop's range, nothing outside. */
  function Appended(e: Expense, clock: int, a: int, i: int, last: int, base: int, idx: int): seq<Expense>
    requires e.installments.Some?
  {
    if a + (i - base) <= idx <= a + (last - base) then [Sibling(e, clock, idx - a + base)] else []
  }

  /** Each month of the sibling loop's range receives exactly one sibling, after
      everything it already held; every other month is untouched. */
  lemma {:induction false} AppendSiblingsEffect(
    s: Store, anchor: Date, e: Expense, clock: int, i: int, last: int, base: int, idx: int)
    requires Valid(anchor) && anchor.day <= 28 && e.installments.Some?
    ensures LoadMonth(AppendSiblings(s, anchor, e, clock, i, last, base), idx) ==
      LoadMonth(s, idx) + Appended(e, clock, MonthIndex(anchor), i, last, base, idx)
    decreases last - i
  {
    if i <= last {
      var target := ShiftMonths(anchor, i - base);
      ShiftMonthsExact(anchor, i - base);
      var s1 := SaveExpenses(s, [Sibling(e, clock, i)], target, true);
      SaveMonthEffect(s, [Sibling(e, clock, i)], target, true, idx);
      AppendSiblingsEffect(s1, anchor, e, clock, i + 1, last, base, idx);
    }
  }

  /** Each month of the purge loop's range loses the group's records and keeps
      all others in order; every other month is untouched. */
  lemma {:induction false} PurgeGroupEffect(
    s: Store, anchor: Date, g: string, i: int, last: int, base: int, idx: int)
    requires Valid(anchor) && anchor.day <= 28
    ensures LoadMonth(PurgeGroup(s, anchor, g, i, last, base), idx) ==
      if MonthIndex(anchor) + (i - base) <= idx <= MonthIndex(anchor) + (last - base)
      then WithoutGroup(LoadMonth(s, idx), g)
      else LoadMonth(s, idx)
    decreases last - i
  {
    if i <= last {
      var target := ShiftMonths(anchor, i - base);
      ShiftMonthsExact(anchor, i - base);
      LoadByIndex(s, target);
      var s1 := SaveExpenses(s, WithoutGroup(LoadExpenses(s, target), g), target, false);
      SaveMonthEffect(s, WithoutGroup(LoadExpenses(s, target), g), target, false, idx);
      PurgeGroupEffect(s1, anchor, g, i + 1, last, base, idx);
    }
  }

  // ------------------------------------------------- installments on day 29-31

  /** Saved on 31 January 2025 with no month in the route, a new expense in
      three installments puts installment 2 on 3 March (`setMonth(1)` runs
      over February's 28 days) and installment 3 on 31 March: February gets
      nothing and March gets two. */
  lemma ThirtyFirstInstallments(e: Expense, clock: int, freshGroup: string)
    requires e.installments == Some(Installments(3, 1, "g"))
    ensures var r := HandleSave(map[], Params(None, None), Date(2025, 0, 31), clock, freshGroup, None, e);
      && LoadMonth(r, 2025 * 12 + 1) == []
      && |LoadMonth(r, 2025 * 12 + 2)| == 2
  {
    var planned := Planned(e, false, None, freshGroup);
    assert IsSplit(planned) && planned.installments.value.total == 3;
    ThirtyFirstSaveNew(planned, clock);
    assert HandleSave(map[], Params(None, None), Date(2025, 0, 31), clock, freshGroup, None, e)
      == SaveNew(map[], Date(2025, 0, 31), clock, planned);
  }

  /** The new-expense branch of `ThirtyFirstInstallments`, for any record split
      in three. */
  lemma ThirtyFirstSaveNew(planned: Expense, clock: int)
    requires IsSplit(planned) && planned.installments.value.total == 3
    ensures LoadMonth(SaveNew(map[], Date(2025, 0, 31), clock, planned), 2025 * 12 + 1) == []
    ensures |LoadMonth(SaveNew(map[], Date(2025, 0, 31), clock, planned), 2025 * 12 + 2)| == 2
  {
    var anchor := Date(2025, 0, 31);
    var s2 := ThirtyFirstSiblings(planned, clock);
    var xs := LoadExpenses(map[], anchor) + [planned];
    assert SaveNew(map[], anchor, clock, planned) == SaveExpenses(s2, xs, anchor, false);
    SaveMonthEffect(s2, xs, anchor, false, 2025 * 12 + 1);
    SaveMonthEffect(s2, xs, anchor, false, 2025 * 12 + 2);
  }

  /** The sibling loop of `ThirtyFirstInstallments`: both later installments
      are appended to March. */
  lemma ThirtyFirstSiblings(planned: Expense, clock: int) returns (s2: Store)
    requires planned.installments.Some?
    ensures s2 == AppendSiblings(map[], Date(2025, 0, 31), planned, clock, 2, 3, 1)
    ensures LoadMonth(s2, 2025 * 12 + 1) == []
    ensures |LoadMonth(s2, 2025 * 12 + 2)| == 2
  {
    var anchor := Date(2025, 0, 31);
    ThirtyFirstShifts();
    var s1 := SaveExpenses(map[], [Sibling(planned, clock, 2)], Date(2025, 2, 3), true);
    s2 := SaveExpenses(s1, [Sibling(planned, clock, 3)], Date(2025, 2, 31), true);
    assert AppendSiblings(map[], anchor, planned, clock, 2, 3, 1) == s2;
    SaveMonthEffect(map[], [Sibling(planned, clock, 2)], Date(2025, 2, 3), true, 2025 * 12 + 1);
    SaveMonthEffect(map[], [Sibling(planned, clock, 2)], Date(2025, 2, 3), true, 2025 * 12 + 2);
    SaveMonthEffect(s1, [Sibling(planned, clock, 3)], Date(2025, 2, 31), true, 2025 * 12 + 1);
    SaveMonthEffect(s1, [Sibling(planned, clock, 3)], Date(2025, 2, 31), true, 2025 * 12 + 2);
  }

  /** `setMonth` from 31 January 2025: one month on is 3 March, two months on
      is 31 March. */
  lemma ThirtyFirstShifts()
    ensures ShiftMonths(Date(2025, 0, 31), 1) == Date(2025, 2, 3)
    ensures ShiftMonths(Date(2025, 0, 31), 2) == Date(2025, 2, 31)
  {
    assert NormalizeMonth(2025, 1) == (2025, 1);
    assert NormalizeMonth(2025, 2) == (2025, 2);
    assert DaysInMonth(2025, 1) == 28 && DaysInMonth(2025, 2) == 31;
  }

  /** The sibling loop with each target date clamped to its month's length, so
      that installment `j` always lands `j - base` months after the anchor. */
  function AppendSiblingsClamped(s: Store, anchor: Date, e: Expense, clock: int, i: int, last: int, base: int): (r: Store)
    requires Valid(anchor) && e.installments.Some?
    ensures forall k | !IsExpenseKey(k) :: Get(r, k) == Get(s, k)
    decreases last - i
  {
    if i > last then s
    else
      var s1 := SaveExpenses(s, [Sibling(e, clock, i)], ClampedShift(anchor, i - base), true);
      AppendSiblingsClamped(s1, anchor, e, clock, i + 1, last, base)
  }

  /** From any anchor day, each month of the clamped loop's range receives
      exactly one sibling after everything it already held, and every other
      month is untouched. */
  lemma {:induction false} AppendSiblingsClampedEffect(
    s: Store, anchor: Date, e: Expense, clock: int, i: int, last: int, base: int, idx: int)
    requires Valid(anchor) && e.installments.Some?
    ensures LoadMonth(AppendSiblingsClamped(s, anchor, e, clock, i, last, base), idx) ==
      LoadMonth(s, idx) + Appended(e, clock, MonthIndex(anchor), i, last, base, idx)
    decreases last - i
  {
    if i <= last {
      var target := ClampedShift(anchor, i - base);
      var s1 := SaveExpenses(s, [Sibling(e, clock, i)], target, true);
      SaveMonthEffect(s, [Sibling(e, clock, i)], target, true, idx);
      AppendSiblingsClampedEffect(s1, anchor, e, clock, i + 1, last, base, idx);
    }
  }

  /** On a day every month has, the clamped loop writes what the loop as
      written does. */
  lemma {:induction false} AppendSiblingsClampedAgrees(
    s: Store, anchor: Date, e: Expense, clock: int, i: int, last: int, base: int)
    requires Valid(anchor) && anchor.day <= 28 && e.installments.Some?
    ensures AppendSiblingsClamped(s, anchor, e, clock, i, last, base) == AppendSiblings(s, anchor, e, clock, i, last, base)
    decreases last - i
  {
    if i <= last {
      ClampedShiftAgrees(anchor, i - base);
      var s1 := SaveExpenses(s, [Sibling(e, clock, i)], ShiftMonths(anchor, i - base), true);
      AppendSiblingsClampedAgrees(s1, anchor, e, clock, i + 1, last, base);
    }
  }

  /** `initialData?.installments?.groupId`, when present and non-empty. */
  function OldGroup(initial: Option<Expense>): Option<string> {
    match initial
    case Some(x) =>
      (match x.installments
       case Some(inst) => if inst.groupId != "" then Some(inst.groupId) else None
       case None => None)
    case None => None
  }

  /** The old plan whose remaining months an edit purges: its group and its
      record's installment position. */
  function OldPlan(initial: Option<Expense>): (r: Option<(string, Installments)>)
    ensures r.Some? <==> OldGroup(initial).Some?
    ensures r.Some? ==> r.value.0 == OldGroup(initial).value
  {
    match OldGroup(initial)
    case Some(g) => Some((g, initial.value.installments.value))
    case None => None
  }

  /** The submitted expense is split when it carries installments with a total above one. */
  predicate IsSplit(e: Expense) {
    e.installments.Some? && e.installments.value.total > 1
  }

  /** The record stored for the viewed month: for a split expense the amount is
      divided by the total and, when editing, the old group is kept (else
      `freshGroup` is used). */
  function Planned(e: Expense, editing: bool, initial: Option<Expense>, freshGroup: string): (r: Expense)
    ensures !IsSplit(e) ==> r == e
    ensures IsSplit(e) ==> r.amount * (e.installments.value.total as real) == e.amount
    ensures IsSplit(e) && editing ==> GroupOf(r) == Some(OldGroup(initial).GetOr(freshGroup))
    ensures IsSplit(e) && !editing ==> GroupOf(r) == GroupOf(e)
    ensures r.id == e.id && r.category == e.category && r.description == e.description && r.kind == e.kind
    ensures IsSplit(r) == IsSplit(e)
    ensures IsSplit(e) ==>
      (r.installments.value.current == e.installments.value.current
       && r.installments.value.total == e.installments.value.total)
  {
    if !IsSplit(e) then e
    else
      var inst := e.installments.value;
      var per := e.amount / (inst.total as real);
      if editing then e.(amount := per, installments := Some(inst.(groupId := OldGroup(initial).GetOr(freshGroup))))
      else e.(amount := per)
  }

  /** The new-expense branch: siblings 2..total go to the following months,
      then the viewed month becomes the list loaded at the start plus the record. */
  function SaveNew(s: Store, anchor: Date, clock: int, planned: Expense): (r: Store)
    requires Valid(anchor)
    ensures forall k | !IsExpenseKey(k) :: Get(r, k) == Get(s, k)
  {
    var s2 :=
      if IsSplit(planned) then AppendSiblings(s, anchor, planned, clock, 2, planned.installments.value.total, 1)
      else s;
    SaveExpenses(s2, LoadExpenses(s, anchor) + [planned], anchor, false)
  }

  /** The purge of the edit branch: the old plan's remaining months lose its
      group when `purge` names one. */
  function PurgeStep(s: Store, anchor: Date, purge: Option<(string, Installments)>): (r: Store)
    requires Valid(anchor)
    ensures forall k | !IsExpenseKey(k) :: Get(r, k) == Get(s, k)
  {
    match purge
    case Some((g, prev)) => PurgeGroup(s, anchor, g, prev.current, prev.total, prev.current)
    case None => s
  }

  /** The installment loops of the edit branch for a split record: purge the
      old plan's remaining months (when `purge` names one), then append the
      siblings current+1..total. */
  function EditLoops(s: Store, anchor: Date, clock: int, planned: Expense, purge: Option<(string, Installments)>): (r: Store)
    requires Valid(anchor) && IsSplit(planned)
    ensures forall k | !IsExpenseKey(k) :: Get(r, k) == Get(s, k)
  {
    var cur := planned.installments.value.current;
    AppendSiblings(PurgeStep(s, anchor, purge), anchor, planned, clock, cur + 1, planned.installments.value.total, cur)
  }

  /** The edit branch: run the installment loops for a split record, then
      store the list loaded at the start with the edited record replaced. */
  function SaveEdit(
    s: Store, anchor: Date, clock: int, id: int, planned: Expense,
    purge: Option<(string, Installments)>): (r: Store)
    requires Valid(anchor)
    ensures forall k | !IsExpenseKey(k) :: Get(r, k) == Get(s, k)
  {
    var s2 := if IsSplit(planned) then EditLoops(s, anchor, clock, planned, purge) else s;
    SaveExpenses(s2, Replace(LoadExpenses(s, anchor), (x: Expense) => x.id == id, planned), anchor, false)
  }

  /** `handleSave(expense)`. `today` is the clock's date, `clock` the value of
      `Date.now()` the generated ids are offset from, `freshGroup` a newly
      minted group id and `initial` the record loaded for editing. Only
      expense keys are written. */
  function HandleSave(
    s: Store, p: Params, today: Date, clock: int, freshGroup: string,
    initial: Option<Expense>, e: Expense): (r: Store)
    requires Valid(today)
    ensures forall k | !IsExpenseKey(k) :: Get(r, k) == Get(s, k)
  {
    var anchor := AnchorDate(p, today);
    var planned := Planned(e, p.expenseId.Some?, initial, freshGroup);
    match p.expenseId
    case Some(id) => SaveEdit(s, anchor, clock, id, planned, if IsSplit(e) then OldPlan(initial) else None)
    case None => SaveNew(s, anchor, clock, planned)
  }

  /** Month by month effect of the new-expense branch. */
  lemma SaveNewEffect(s: Store, anchor: Date, clock: int, planned: Expense, idx: int)
    requires Valid(anchor) && anchor.day <= 28
    ensures var a := MonthIndex(anchor);
      var n := if IsSplit(planned) then planned.installments.value.total else 1;
      LoadMonth(SaveNew(s, anchor, clock, planned), idx) ==
        if idx == a then LoadMonth(s, a) + [planned]
        else if a + 1 <= idx <= a + n - 1 then LoadMonth(s, idx) + [Sibling(planned, clock, idx - a + 1)]
        else LoadMonth(s, idx)
  {
    var s2 :=
      if IsSplit(planned) then AppendSiblings(s, anchor, planned, clock, 2, planned.installments.value.total, 1)
      else s;
    LoadByIndex(s, anchor);
    SaveMonthEffect(s2, LoadExpenses(s, anchor) + [planned], anchor, false, idx);
    if IsSplit(planned) {
      AppendSiblingsEffect(s, anchor, planned, clock, 2, planned.installments.value.total, 1, idx);
    }
  }

  /** What the purge leaves of month `idx` (the anchor is at `a`). */
  function Purged(s: Store, a: int, purge: Option<(string, Installments)>, idx: int): seq<Expense> {
    match purge
    case Some((g, prev)) =>
      if a <= idx <= a + (prev.total - prev.current) then WithoutGroup(LoadMonth(s, idx), g)
      else LoadMonth(s, idx)
    case None => LoadMonth(s, idx)
  }

  /** The sibling the edit appends to month `idx`, if any: siblings
      current+1..total at offsets 1..total-current. */
  function NewSibling(planned: Expense, clock: int, a: int, idx: int): seq<Expense>
    requires planned.installments.Some?
  {
    var cur := planned.installments.value.current;
    Appended(planned, clock, a, cur + 1, planned.installments.value.total, cur, idx)
  }

  /** Month by month effect of the edit branch's purge. */
  lemma PurgeStepEffect(s: Store, anchor: Date, purge: Option<(string, Installments)>, idx: int)
    requires Valid(anchor) && anchor.day <= 28
    ensures LoadMonth(PurgeStep(s, anchor, purge), idx) == Purged(s, MonthIndex(anchor), purge, idx)
  {
    match purge
    case Some((g, prev)) => PurgeGroupEffect(s, anchor, g, prev.current, prev.total, prev.current, idx);
    case None =>
  }

  /** Month by month effect of the edit branch's loops. */
  lemma EditLoopsEffect(s: Store, anchor: Date, clock: int, planned: Expense, purge: Option<(string, Installments)>, idx: int)
    requires Valid(anchor) && anchor.day <= 28 && IsSplit(planned)
    ensures LoadMonth(EditLoops(s, anchor, clock, planned, purge), idx) ==
      Purged(s, MonthIndex(anchor), purge, idx) + NewSibling(planned, clock, MonthIndex(anchor), idx)
  {
    var cur := planned.installments.value.current;
    var n := planned.installments.value.total;
    var purged := PurgeStep(s, anchor, purge);
    EditLoopsUnfold(s, anchor, clock, planned, purge);
    PurgeStepEffect(s, anchor, purge, idx);
    AppendSiblingsEffect(purged, anchor, planned, clock, cur + 1, n, cur, idx);
    assert NewSibling(planned, clock, MonthIndex(anchor), idx) == Appended(planned, clock, MonthIndex(anchor), cur + 1, n, cur, idx);
  }

  /** The edit branch's loops are the purge followed by the sibling loop. */
  lemma EditLoopsUnfold(s: Store, anchor: Date, clock: int, planned: Expense, purge: Option<(string, Installments)>)
    requires Valid(anchor) && IsSplit(planned)
    ensures EditLoops(s, anchor, clock, planned, purge) == AppendSiblings(PurgeStep(s, anchor, purge), anchor, planned, clock, planned.installments.value.current + 1, planned.installments.value.total, planned.installments.value.current)
  {
  }

  /** Month by month effect of the edit branch. */
  lemma SaveEditEffect(
    s: Store, anchor: Date, clock: int, id: int, planned: Expense,
    purge: Option<(string, Installments)>, idx: int)
    requires Valid(anchor) && anchor.day <= 28
    ensures var a := MonthIndex(anchor);
      LoadMonth(SaveEdit(s, anchor, clock, id, planned, purge), idx) ==
        if idx == a then Replace(LoadMonth(s, a), (x: Expense) => x.id == id, planned)
        else if !IsSplit(planned) then LoadMonth(s, idx)
        else Purged(s, a, purge, idx) + NewSibling(planned, clock, a, idx)
  {
    var s2 := if IsSplit(planned) then EditLoops(s, anchor, clock, planned, purge) else s;
    var newList := Replace(LoadExpenses(s, anchor), (x: Expense) => x.id == id, planned);
    LoadByIndex(s, anchor);
    SaveMonthEffect(s2, newList, anchor, false, idx);
    if IsSplit(planned) {
      EditLoopsEffect(s, anchor, clock, planned, purge, idx);
    }
  }

  /** The new-expense branch of `handleSave` for a split expense, month by month. */
  lemma NewSplitMonth(
    s: Store, p: Params, today: Date, clock: int, freshGroup: string,
    initial: Option<Expense>, e: Expense, idx: int)
    requires Valid(today) && ExactMonths(p, today) && p.expenseId.None? && IsSplit(e)
    ensures var a := MonthIndex(AnchorDate(p, today));
      var n := e.installments.value.total;
      var first := e.(amount := e.amount / (n as real));
      LoadMonth(HandleSave(s, p, today, clock, freshGroup, initial, e), idx) ==
        if idx == a then LoadMonth(s, a) + [first]
        else if a + 1 <= idx < a + n then LoadMonth(s, idx) + [Sibling(first, clock, idx - a + 1)]
        else LoadMonth(s, idx)
  {
    var n := e.installments.value.total;
    var first := e.(amount := e.amount / (n as real));
    var anchor := AnchorDate(p, today);
    NewSplitIsSaveNew(s, p, today, clock, freshGroup, initial, e);
    SaveNewEffect(s, anchor, clock, first, idx);
  }

  /** The new-expense branch of `handleSave` saves the record with its amount
      divided by the number of installments. */
  lemma NewSplitIsSaveNew(
    s: Store, p: Params, today: Date, clock: int, freshGroup: string, initial: Option<Expense>, e: Expense)
    requires Valid(today) && p.expenseId.None? && IsSplit(e)
    ensures var first := e.(amount := e.amount / (e.installments.value.total as real));
      && IsSplit(first) && first.installments.value.total == e.installments.value.total
      && HandleSave(s, p, today, clock, freshGroup, initial, e) == SaveNew(s, AnchorDate(p, today), clock, first)
  {
    assert Planned(e, false, initial, freshGroup) == e.(amount := e.amount / (e.installments.value.total as real));
  }

  /** The edit branch of `handleSave`, month by month. */
  lemma HandleSaveEditMonth(
    s: Store, p: Params, today: Date, clock: int, freshGroup: string,
    initial: Option<Expense>, e: Expense, idx: int)
    requires Valid(today) && ExactMonths(p, today) && p.expenseId.Some?
    ensures var a := MonthIndex(AnchorDate(p, today));
      var planned := Planned(e, true, initial, freshGroup);
      LoadMonth(HandleSave(s, p, today, clock, freshGroup, initial, e), idx) ==
        if idx == a then Replace(LoadMonth(s, a), (x: Expense) => x.id == p.expenseId.value, planned)
        else if !IsSplit(e) then LoadMonth(s, idx)
        else Purged(s, a, OldPlan(initial), idx) + NewSibling(planned, clock, a, idx)
  {
    var planned := Planned(e, true, initial, freshGroup);
    SaveEditEffect(s, AnchorDate(p, today), clock, p.expenseId.value, planned,
      if IsSplit(e) then OldPlan(initial) else None, idx);
  }

  /** A new expense split in n > 1 installments: the viewed month gains the
      record with amount / n after its existing records; each of the next n - 1
      months gains exactly one sibling (installment k + 1 at k months on, id
      `clock + k + 1`, same group and amount) after its existing records; every
      other month is unchanged. (`Planned` states that the n shares add up to
      the original amount.) */
  lemma NewExpenseSplit(
    s: Store, p: Params, today: Date, clock: int, freshGroup: string,
    initial: Option<Expense>, e: Expense)
    requires Valid(today) && ExactMonths(p, today)
    requires p.expenseId.None? && IsSplit(e)
    ensures var r := HandleSave(s, p, today, clock, freshGroup, initial, e);
      var a := MonthIndex(AnchorDate(p, today));
      var n := e.installments.value.total;
      var first := e.(amount := e.amount / (n as real));
      && LoadMonth(r, a) == LoadMonth(s, a) + [first]
      && (forall idx | a + 1 <= idx < a + n ::
            LoadMonth(r, idx) == LoadMonth(s, idx) + [Sibling(first, clock, idx - a + 1)])
      && (forall idx | idx < a || a + n <= idx :: LoadMonth(r, idx) == LoadMonth(s, idx))
  {
    forall idx {
      NewSplitMonth(s, p, today, clock, freshGroup, initial, e, idx);
    }
  }

  /** A new expense that is not split: the viewed month gains it after its
      existing records and nothing else changes. */
  lemma NewExpenseSingle(
    s: Store, p: Params, today: Date, clock: int, freshGroup: string,
    initial: Option<Expense>, e: Expense)
    requires Valid(today)
    requires p.expenseId.None? && !IsSplit(e)
    ensures var r := HandleSave(s, p, today, clock, freshGroup, initial, e);
      var a := MonthIndex(AnchorDate(p, today));
      && LoadMonth(r, a) == LoadMonth(s, a) + [e]
      && forall idx | idx != a :: LoadMonth(r, idx) == LoadMonth(s, idx)
  {
    var anchor := AnchorDate(p, today);
    LoadByIndex(s, anchor);
    forall idx {
      SaveMonthEffect(s, LoadExpenses(s, anchor) + [e], anchor, false, idx);
    }
  }

  /** Editing an expense that is not split: in the viewed month the record with
      the edited id is replaced (the list keeps its length); nothing else changes. */
  lemma EditSingle(
    s: Store, p: Params, today: Date, clock: int, freshGroup: string,
    initial: Option<Expense>, e: Expense)
    requires Valid(today)
    requires p.expenseId.Some? && !IsSplit(e)
    ensures var r := HandleSave(s, p, today, clock, freshGroup, initial, e);
      var a := MonthIndex(AnchorDate(p, today));
      && LoadMonth(r, a) == Replace(LoadMonth(s, a), (x: Expense) => x.id == p.expenseId.value, e)
      && |LoadMonth(r, a)| == |LoadMonth(s, a)|
      && forall idx | idx != a :: LoadMonth(r, idx) == LoadMonth(s, idx)
  {
    var anchor := AnchorDate(p, today);
    var newList := Replace(LoadExpenses(s, anchor), (x: Expense) => x.id == p.expenseId.value, e);
    LoadByIndex(s, anchor);
    forall idx {
      SaveMonthEffect(s, newList, anchor, false, idx);
    }
  }

  /** Editing a split expense whose stored record had a group: the old group is
      removed from the old plan's remaining months (offsets 0 .. oldTotal -
      oldCurrent), keeping every other record; then the new siblings current+1
      .. total are appended at offsets 1 .. total - current, carrying the old
      group. The viewed month ends as the list loaded before the purge with the
      edited record replaced, so the purge's rewrite of it is lost. */
  lemma EditSplitWithGroup(
    s: Store, p: Params, today: Date, clock: int, freshGroup: string,
    initial: Option<Expense>, e: Expense)
    requires Valid(today) && ExactMonths(p, today)
    requires p.expenseId.Some? && IsSplit(e) && OldGroup(initial).Some?
    ensures var r := HandleSave(s, p, today, clock, freshGroup, initial, e);
      var a := MonthIndex(AnchorDate(p, today));
      var g := OldGroup(initial).value;
      var prev := initial.value.installments.value;
      var cur := e.installments.value.current;
      var n := e.installments.value.total;
      var planned := Planned(e, true, initial, freshGroup);
      && GroupOf(planned) == Some(g)
      && planned.amount * (n as real) == e.amount
      && LoadMonth(r, a) == Replace(LoadMonth(s, a), (x: Expense) => x.id == p.expenseId.value, planned)
      && forall idx | idx != a ::
           LoadMonth(r, idx) ==
             (if a <= idx <= a + (prev.total - prev.current) then WithoutGroup(LoadMonth(s, idx), g)
              else LoadMonth(s, idx))
             + (if a + 1 <= idx <= a + (n - cur) then [Sibling(planned, clock, idx - a + cur)] else [])
  {
    var r := HandleSave(s, p, today, clock, freshGroup, initial, e);
    var a := MonthIndex(AnchorDate(p, today));
    var planned := Planned(e, true, initial, freshGroup);
    HandleSaveEditMonth(s, p, today, clock, freshGroup, initial, e, a);
    forall idx | idx != a
      ensures LoadMonth(r, idx) == Purged(s, a, OldPlan(initial), idx) + NewSibling(planned, clock, a, idx)
    {
      HandleSaveEditMonth(s, p, today, clock, freshGroup, initial, e, idx);
    }
  }

  /** Editing a split expense whose stored record had no group: nothing is
      purged, `freshGroup` is used, and the new siblings are appended. */
  lemma EditSplitWithoutGroup(
    s: Store, p: Params, today: Date, clock: int, freshGroup: string,
    initial: Option<Expense>, e: Expense)
    requires Valid(today) && ExactMonths(p, today)
    requires p.expenseId.Some? && IsSplit(e) && OldGroup(initial).None?
    ensures var r := HandleSave(s, p, today, clock, freshGroup, initial, e);
      var a := MonthIndex(AnchorDate(p, today));
      var cur := e.installments.value.current;
      var n := e.installments.value.total;
      var planned := Planned(e, true, initial, freshGroup);
      && GroupOf(planned) == Some(freshGroup)
      && LoadMonth(r, a) == Replace(LoadMonth(s, a), (x: Expense) => x.id == p.expenseId.value, planned)
      && forall idx | idx != a ::
           LoadMonth(r, idx) == LoadMonth(s, idx)
             + (if a + 1 <= idx <= a + (n - cur) then [Sibling(planned, clock, idx - a + cur)] else [])
  {
    forall idx {
      HandleSaveEditMonth(s, p, today, clock, freshGroup, initial, e, idx);
    }
  }

}
