/** The income form: its income sources, the per-month extras editor and the
    step that writes an edited income back to the store. */
module IncomeForm {
  import opened Wrappers
  import opened Seqs
  import opened Calendar
  import opened Records
  import opened Storage

  /** The form's working copy of an income (its id lives with the edited record). */
  datatype FormData = FormData(person: string, sources: seq<IncomeSource>, monthlyExtras: seq<MonthExtras>)

  /** The source being typed in. An empty `icon` or `color` counts as absent. */
  datatype SourceDraft = SourceDraft(name: string, icon: string, amount: real, color: string)

  /** The extra being typed in. */
  datatype ExtraDraft = ExtraDraft(description: string, amount: real)

  const DefaultPerson: string := "Você"
  const DefaultIcon: string := "Briefcase"
  const DefaultColor: string := "#0ea5e9"

  /** The form's state once the edited income, if any, has been copied in. */
  function InitialForm(initial: Option<Income>): (f: FormData)
    ensures initial.None? ==> f == FormData(DefaultPerson, [], [])
    ensures initial.Some? ==>
      && f.person == initial.value.person
      && f.sources == initial.value.sources
      && f.monthlyExtras == initial.value.monthlyExtras
  {
    match initial
    case Some(inc) => FormData(inc.person, inc.sources, inc.monthlyExtras)
    case None => FormData(DefaultPerson, [], [])
  }

  // ----------------------------------------------------------------- sources

  /** `handleAddSource`: nothing happens unless the draft has a name and a
      non-zero amount (a negative amount is accepted); otherwise exactly one
      source, with id `now` and the default icon and color filled in, is
      appended after the existing ones. */
  function AddSource(f: FormData, draft: SourceDraft, now: int): (r: FormData)
    ensures draft.name == "" || draft.amount == 0.0 ==> r == f
    ensures draft.name != "" && draft.amount != 0.0 ==>
      && |r.sources| == |f.sources| + 1
      && r.sources[..|f.sources|] == f.sources
      && r.sources[|f.sources|].id == now
      && r.sources[|f.sources|].name == draft.name
      && r.sources[|f.sources|].amount == draft.amount
      && r.sources[|f.sources|].icon == (if draft.icon == "" then DefaultIcon else draft.icon)
      && r.sources[|f.sources|].color == (if draft.color == "" then DefaultColor else draft.color)
    ensures r.person == f.person && r.monthlyExtras == f.monthlyExtras
  {
    if draft.name == "" || draft.amount == 0.0 then f
    else
      var icon := if draft.icon == "" then DefaultIcon else draft.icon;
      var color := if draft.color == "" then DefaultColor else draft.color;
      f.(sources := f.sources + [IncomeSource(now, draft.name, icon, draft.amount, color)])
  }

  // ------------------------------------------------------------ month extras

  /** The entry belongs to (month, year). */
  predicate IsMonth(e: MonthExtras, month: int, year: int) {
    e.month == month && e.year == year
  }

  /** No two entries share a (month, year). */
  predicate UniqueMonths(xs: seq<MonthExtras>) {
    forall i, j | 0 <= i < j < |xs| :: !(xs[i].month == xs[j].month && xs[i].year == xs[j].year)
  }

  /** Every entry holds at least one extra. */
  predicate NoEmptyEntries(xs: seq<MonthExtras>) {
    forall i | 0 <= i < |xs| :: |xs[i].extras| > 0
  }

  /** `monthlyExtras.find(m => m.month === month && m.year === year)`, as the
      position of the first matching entry. */
  function FindMonth(xs: seq<MonthExtras>, month: int, year: int): (r: Option<nat>)
    ensures r.Some? ==> r.value < |xs| && IsMonth(xs[r.value], month, year)
    ensures r.Some? ==> forall j | 0 <= j < r.value :: !IsMonth(xs[j], month, year)
    ensures r.None? ==> forall j | 0 <= j < |xs| :: !IsMonth(xs[j], month, year)
  {
    if xs == [] then None
    else if IsMonth(xs[0], month, year) then Some(0)
    else match FindMonth(xs[1..], month, year)
      case Some(i) => Some(i + 1)
      case None => None
  }

  /** The extras of (month, year): the first matching entry's, or `[]`. */
  function ExtrasOf(xs: seq<MonthExtras>, month: int, year: int): seq<Extra> {
    match FindMonth(xs, month, year)
    case Some(i) => xs[i].extras
    case None => []
  }

  /** `getCurrentMonthExtras()`: the extras of the month the form is showing. */
  function CurrentMonthExtras(f: FormData, current: Date): (r: seq<Extra>)
    ensures (forall j | 0 <= j < |f.monthlyExtras| :: !IsMonth(f.monthlyExtras[j], current.month, current.year))
      ==> r == []
    ensures forall j | 0 <= j < |f.monthlyExtras| && IsMonth(f.monthlyExtras[j], current.month, current.year)
      && (forall k | 0 <= k < j :: !IsMonth(f.monthlyExtras[k], current.month, current.year)) ::
        r == f.monthlyExtras[j].extras
  {
    ExtrasOf(f.monthlyExtras, current.month, current.year)
  }

  /** Two lists whose entries match (month, year) at the same positions have
      their first match at the same position. */
  lemma SameMatches(a: seq<MonthExtras>, b: seq<MonthExtras>, month: int, year: int)
    requires |a| == |b|
    requires forall j | 0 <= j < |a| :: IsMonth(a[j], month, year) == IsMonth(b[j], month, year)
    ensures FindMonth(a, month, year) == FindMonth(b, month, year)
  {
  }

  /** The extra `handleAddExtra` records. */
  function NewExtra(draft: ExtraDraft, now: int): Extra {
    Extra(now, draft.description, draft.amount)
  }

  /** The extras list `xs` after adding `x` to (month, year): the first matching
      entry, grown by `x`, replaces every matching entry; without a match a new
      single-extra entry is appended. */
  function AddToMonth(xs: seq<MonthExtras>, month: int, year: int, x: Extra): (r: seq<MonthExtras>)
    ensures FindMonth(xs, month, year).Some? ==> |r| == |xs|
    ensures FindMonth(xs, month, year).None? ==> |r| == |xs| + 1 && r[..|xs|] == xs
    ensures forall j | 0 <= j < |xs| :: r[j].month == xs[j].month && r[j].year == xs[j].year
  {
    match FindMonth(xs, month, year)
    case Some(i) =>
      var grown := xs[i].(extras := xs[i].extras + [x]);
      Replace(xs, (e: MonthExtras) => IsMonth(e, month, year), grown)
    case None => xs + [MonthExtras(month, year, [x])]
  }

  /** `handleAddExtra` on the form: without a description or with a zero amount
      nothing changes (an alert is shown); otherwise the extra is added to the
      entry of the month the form is showing. */
  function AddExtra(f: FormData, current: Date, draft: ExtraDraft, now: int): (r: FormData)
    ensures draft.description == "" || draft.amount == 0.0 ==> r == f
    ensures draft.description != "" && draft.amount != 0.0 ==>
      forall m, y :: ExtrasOf(r.monthlyExtras, m, y) ==
        if m == current.month && y == current.year then ExtrasOf(f.monthlyExtras, m, y) + [NewExtra(draft, now)]
        else ExtrasOf(f.monthlyExtras, m, y)
    ensures r.person == f.person && r.sources == f.sources
  {
    if draft.description == "" || draft.amount == 0.0 then f
    else
      var x := NewExtra(draft, now);
      forall m, y ensures ExtrasOf(AddToMonth(f.monthlyExtras, current.month, current.year, x), m, y) ==
        if m == current.month && y == current.year then ExtrasOf(f.monthlyExtras, m, y) + [x]
        else ExtrasOf(f.monthlyExtras, m, y)
      {
        AddToMonthLookup(f.monthlyExtras, current.month, current.year, x, m, y);
      }
      f.(monthlyExtras := AddToMonth(f.monthlyExtras, current.month, current.year, x))
  }

  /** Adding an extra keeps (month, year) entries unique: it grows the existing
      entry (the entry count is unchanged) or appends a new one. */
  lemma AddKeepsMonthsUnique(xs: seq<MonthExtras>, month: int, year: int, x: Extra)
    requires UniqueMonths(xs)
    ensures UniqueMonths(AddToMonth(xs, month, year, x))
  {
  }

  /** After adding `x`, the month's extras are the old ones followed by `x`,
      and every other month's extras are unchanged. */
  lemma AddToMonthLookup(xs: seq<MonthExtras>, month: int, year: int, x: Extra, m: int, y: int)
    ensures ExtrasOf(AddToMonth(xs, month, year, x), m, y) ==
      if m == month && y == year then ExtrasOf(xs, month, year) + [x] else ExtrasOf(xs, m, y)
  {
    var r := AddToMonth(xs, month, year, x);
    match FindMonth(xs, month, year)
    case Some(i) =>
      var grown := xs[i].(extras := xs[i].extras + [x]);
      assert forall j | 0 <= j < |xs| :: r[j] == (if IsMonth(xs[j], month, year) then grown else xs[j]);
      SameMatches(r, xs, m, y);
      if m == month && y == year {
        assert r[i] == grown;
      } else {
        match FindMonth(xs, m, y)
        case Some(k) => assert !IsMonth(xs[k], month, year);
        case None =>
      }
    case None =>
      if m == month && y == year {
        assert IsMonth(r[|xs|], m, y);
        assert FindMonth(r, m, y) == Some(|xs|);
      } else {
        assert r[..|xs|] == xs;
        SameMatches(r[..|xs|], xs, m, y);
        match FindMonth(xs, m, y)
        case Some(k) =>
          assert FindMonth(r, m, y) == Some(k);
        case None =>
          assert FindMonth(r, m, y) == None;
      }
  }

  /** `handleDeleteExtra` on the list: when (month, year) has an entry, extra
      `extraId` leaves it and then every entry left without extras is dropped;
      otherwise nothing changes. */
  function DeleteFromMonth(xs: seq<MonthExtras>, month: int, year: int, extraId: int): (r: seq<MonthExtras>)
    ensures FindMonth(xs, month, year).None? ==> r == xs
    ensures FindMonth(xs, month, year).Some? ==> NoEmptyEntries(r)
  {
    match FindMonth(xs, month, year)
    case Some(i) =>
      var shrunk := xs[i].(extras := Filter(xs[i].extras, (e: Extra) => e.id != extraId));
      Filter(Replace(xs, (e: MonthExtras) => IsMonth(e, month, year), shrunk), (e: MonthExtras) => |e.extras| > 0)
    case None => xs
  }

  /** `handleDeleteExtra` on the form. */
  function DeleteExtra(f: FormData, current: Date, extraId: int): (r: FormData)
    ensures UniqueMonths(f.monthlyExtras) ==>
      forall m, y :: ExtrasOf(r.monthlyExtras, m, y) ==
        if m == current.month && y == current.year then Filter(ExtrasOf(f.monthlyExtras, m, y), (e: Extra) => e.id != extraId)
        else ExtrasOf(f.monthlyExtras, m, y)
    ensures r.person == f.person && r.sources == f.sources
  {
    if UniqueMonths(f.monthlyExtras) then
      forall m, y ensures ExtrasOf(DeleteFromMonth(f.monthlyExtras, current.month, current.year, extraId), m, y) ==
        if m == current.month && y == current.year then Filter(ExtrasOf(f.monthlyExtras, m, y), (e: Extra) => e.id != extraId)
        else ExtrasOf(f.monthlyExtras, m, y)
      {
        DeleteFromMonthLookup(f.monthlyExtras, current.month, current.year, extraId, m, y);
      }
      f.(monthlyExtras := DeleteFromMonth(f.monthlyExtras, current.month, current.year, extraId))
    else f.(monthlyExtras := DeleteFromMonth(f.monthlyExtras, current.month, current.year, extraId))
  }

  /** Dropping the empty entries of a list with unique months loses no extras. */
  lemma DropEmptyLookup(ys: seq<MonthExtras>, m: int, y: int)
    requires UniqueMonths(ys)
    ensures ExtrasOf(Filter(ys, (e: MonthExtras) => |e.extras| > 0), m, y) == ExtrasOf(ys, m, y)
  {
  }

  /** Deleting an extra keeps (month, year) entries unique. */
  lemma DeleteKeepsMonthsUnique(xs: seq<MonthExtras>, month: int, year: int, extraId: int)
    requires UniqueMonths(xs)
    ensures UniqueMonths(DeleteFromMonth(xs, month, year, extraId))
  {
    if FindMonth(xs, month, year).Some? {
      var i := FindMonth(xs, month, year).value;
      var shrunk := xs[i].(extras := Filter(xs[i].extras, (e: Extra) => e.id != extraId));
      var ys := Replace(xs, (e: MonthExtras) => IsMonth(e, month, year), shrunk);
      assert UniqueMonths(ys) by {
        forall i, j | 0 <= i < j < |ys|
          ensures !(ys[i].month == ys[j].month && ys[i].year == ys[j].year)
        {
          assert ys[i].month == xs[i].month && ys[i].year == xs[i].year;
          assert ys[j].month == xs[j].month && ys[j].year == xs[j].year;
        }
      }
      FilterKeepsUnique(ys, (e: MonthExtras) => |e.extras| > 0);
    }
  }

  /** Dropping the first entry keeps the months unique. */
  lemma TailUnique(ys: seq<MonthExtras>)
    requires ys != [] && UniqueMonths(ys)
    ensures UniqueMonths(ys[1..])
    ensures forall k | 0 <= k < |ys[1..]| :: !IsMonth(ys[1..][k], ys[0].month, ys[0].year)
  {
  }

  /** An entry whose month no later entry shares can head a list with unique months. */
  lemma ConsUnique(h: MonthExtras, t: seq<MonthExtras>)
    requires UniqueMonths(t)
    requires forall k | 0 <= k < |t| :: !IsMonth(t[k], h.month, h.year)
    ensures UniqueMonths([h] + t)
  {
  }

  /** Filtering a list with unique months keeps them unique. */
  lemma {:induction false} FilterKeepsUnique(ys: seq<MonthExtras>, keep: MonthExtras -> bool)
    requires UniqueMonths(ys)
    ensures UniqueMonths(Filter(ys, keep))
  {
    if ys != [] {
      var rest := ys[1..];
      TailUnique(ys);
      FilterKeepsUnique(rest, keep);
      if keep(ys[0]) {
        var fr := Filter(rest, keep);
        assert Filter(ys, keep) == [ys[0]] + fr;
        forall k | 0 <= k < |fr| ensures !IsMonth(fr[k], ys[0].month, ys[0].year) {
          assert fr[k] in rest;
        }
        ConsUnique(ys[0], fr);
      }
    }
  }

  /** With unique months, deleting extra `extraId` of (month, year) removes it
      from that month's extras only; every other month's extras are unchanged. */
  lemma DeleteFromMonthLookup(xs: seq<MonthExtras>, month: int, year: int, extraId: int, m: int, y: int)
    requires UniqueMonths(xs)
    ensures ExtrasOf(DeleteFromMonth(xs, month, year, extraId), m, y) ==
      if m == month && y == year then Filter(ExtrasOf(xs, month, year), (e: Extra) => e.id != extraId)
      else ExtrasOf(xs, m, y)
  {
    match FindMonth(xs, month, year)
    case Some(i) =>
      var shrunk := xs[i].(extras := Filter(xs[i].extras, (e: Extra) => e.id != extraId));
      var ys := Replace(xs, (e: MonthExtras) => IsMonth(e, month, year), shrunk);
      assert UniqueMonths(ys) by {
        forall i, j | 0 <= i < j < |ys|
          ensures !(ys[i].month == ys[j].month && ys[i].year == ys[j].year)
        {
          assert ys[i].month == xs[i].month && ys[i].year == xs[i].year;
          assert ys[j].month == xs[j].month && ys[j].year == xs[j].year;
        }
      }
      DropEmptyLookup(ys, m, y);
      SameMatches(ys, xs, m, y);
      if m == month && y == year {
        assert ys[i] == shrunk;
      } else {
        match FindMonth(xs, m, y)
        case Some(k) => assert !IsMonth(xs[k], month, year);
        case None =>
      }
    case None =>
      if m == month && y == year {
        assert ExtrasOf(xs, month, year) == [];
      }
  }

  /** Adding an extra under an id the month does not use yet and then deleting
      that id gives every month back its extras. */
  lemma AddThenDeleteRestores(xs: seq<MonthExtras>, month: int, year: int, x: Extra, m: int, y: int)
    requires UniqueMonths(xs)
    requires forall k | 0 <= k < |ExtrasOf(xs, month, year)| :: ExtrasOf(xs, month, year)[k].id != x.id
    ensures ExtrasOf(DeleteFromMonth(AddToMonth(xs, month, year, x), month, year, x.id), m, y) == ExtrasOf(xs, m, y)
  {
    var added := AddToMonth(xs, month, year, x);
    var keep := (e: Extra) => e.id != x.id;
    AddKeepsMonthsUnique(xs, month, year, x);
    DeleteFromMonthLookup(added, month, year, x.id, m, y);
    AddToMonthLookup(xs, month, year, x, m, y);
    AddToMonthLookup(xs, month, year, x, month, year);
    if m == month && y == year {
      FilterAppend(ExtrasOf(xs, month, year), [x], keep);
      FilterAllKept(ExtrasOf(xs, month, year), keep);
      assert Filter([x], keep) == [];
    }
  }

  /** On the form: adding a valid extra under an id the shown month does not
      use and then deleting that id gives every month back its extras. */
  lemma AddThenDeleteExtra(f: FormData, current: Date, draft: ExtraDraft, now: int, m: int, y: int)
    requires UniqueMonths(f.monthlyExtras)
    requires draft.description != "" && draft.amount != 0.0
    requires forall k | 0 <= k < |ExtrasOf(f.monthlyExtras, current.month, current.year)| ::
      ExtrasOf(f.monthlyExtras, current.month, current.year)[k].id != now
    ensures ExtrasOf(DeleteExtra(AddExtra(f, current, draft, now), current, now).monthlyExtras, m, y)
      == ExtrasOf(f.monthlyExtras, m, y)
  {
    AddThenDeleteRestores(f.monthlyExtras, current.month, current.year, NewExtra(draft, now), m, y);
  }

  // -------------------------------------------------------------------- save

  /** `initialData?.id` is truthy: the income being edited has a non-zero id. */
  predicate EditsStored(initialId: Option<int>) {
    initialId.Some? && initialId.value != 0
  }

  /** `handleSave`: `None` (nothing is saved) without a person or without a
      source; otherwise the income, keeping the edited income's id when it is
      non-zero and taking `now` otherwise. */
  function Save(f: FormData, initialId: Option<int>, now: int): (r: Option<Income>)
    ensures r.None? <==> f.person == "" || f.sources == []
    ensures r.Some? ==>
      && r.value.person == f.person && r.value.sources == f.sources
      && r.value.monthlyExtras == f.monthlyExtras
      && r.value.id == (if EditsStored(initialId) then initialId.value else now)
  {
    if f.person == "" || f.sources == [] then None
    else Some(Income(if EditsStored(initialId) then initialId.value else now, f.person, f.sources, f.monthlyExtras))
  }

  /** Saving the form opened on a stored income, untouched, gives that income
      back: its id, person, sources and extras. A blank form has no source and
      cannot be saved. */
  lemma SaveReopened(inc: Income, now: int)
    requires inc.id != 0 && inc.person != "" && inc.sources != []
    ensures Save(InitialForm(Some(inc)), Some(inc.id), now) == Some(inc)
    ensures Save(InitialForm(None), None, now) == None
  {
  }

  /** The write-back after an extra is added or deleted while editing: in the
      stored income list every income carrying the edited id becomes the form's
      income; every other income, the list's length and every other key are
      unchanged. */
  function Persist(s: Store, id: int, f: FormData): (r: Store)
    ensures |LoadIncome(r)| == |LoadIncome(s)|
    ensures forall j | 0 <= j < |LoadIncome(s)| ::
      LoadIncome(r)[j] ==
        (if LoadIncome(s)[j].id == id then Income(id, f.person, f.sources, f.monthlyExtras) else LoadIncome(s)[j])
    ensures forall k | k != IncomeKey :: Get(r, k) == Get(s, k)
  {
    var updated := Income(id, f.person, f.sources, f.monthlyExtras);
    SaveIncome(s, Replace(LoadIncome(s), (inc: Income) => inc.id == updated.id, updated))
  }

  /** `handleAddExtra` as a whole: the new form state and, when an income with
      a non-zero id is being edited and the draft is valid, the store with that
      income written back. */
  function HandleAddExtra(
    s: Store, f: FormData, initialId: Option<int>, current: Date, draft: ExtraDraft, now: int): (r: (FormData, Store))
    ensures r.0 == AddExtra(f, current, draft, now)
    ensures (draft.description == "" || draft.amount == 0.0 || !EditsStored(initialId)) ==> r.1 == s
    ensures draft.description != "" && draft.amount != 0.0 && EditsStored(initialId) ==>
      && |LoadIncome(r.1)| == |LoadIncome(s)|
      && forall j | 0 <= j < |LoadIncome(s)| ::
           LoadIncome(r.1)[j] ==
             (if LoadIncome(s)[j].id == initialId.value
              then Income(initialId.value, r.0.person, r.0.sources, r.0.monthlyExtras)
              else LoadIncome(s)[j])
    ensures forall k | k != IncomeKey :: Get(r.1, k) == Get(s, k)
  {
    var f2 := AddExtra(f, current, draft, now);
    if draft.description == "" || draft.amount == 0.0 || !EditsStored(initialId) then (f2, s)
    else (f2, Persist(s, initialId.value, f2))
  }

  /** `handleDeleteExtra` as a whole: when the month has no entry nothing
      changes; otherwise the form loses the extra and, when an income with a
      non-zero id is being edited, that income is written back. */
  function HandleDeleteExtra(
    s: Store, f: FormData, initialId: Option<int>, current: Date, extraId: int): (r: (FormData, Store))
    ensures FindMonth(f.monthlyExtras, current.month, current.year).None? ==> r == (f, s)
    ensures r.0 == DeleteExtra(f, current, extraId)
    ensures !EditsStored(initialId) ==> r.1 == s
    ensures FindMonth(f.monthlyExtras, current.month, current.year).Some? && EditsStored(initialId) ==>
      && |LoadIncome(r.1)| == |LoadIncome(s)|
      && forall j | 0 <= j < |LoadIncome(s)| ::
           LoadIncome(r.1)[j] ==
             (if LoadIncome(s)[j].id == initialId.value
              then Income(initialId.value, r.0.person, r.0.sources, r.0.monthlyExtras)
              else LoadIncome(s)[j])
    ensures forall k | k != IncomeKey :: Get(r.1, k) == Get(s, k)
  {
    if FindMonth(f.monthlyExtras, current.month, current.year).None? then (f, s)
    else
      var f2 := DeleteExtra(f, current, extraId);
      (f2, if EditsStored(initialId) then Persist(s, initialId.value, f2) else s)
  }

  /** After `handleAddExtra` with a valid draft, the form's shown month has
      gained the extra and no other month changed; while editing a stored
      income, the stored income with the edited id holds those same extras. */
  lemma HandleAddExtraLookup(
    s: Store, f: FormData, initialId: Option<int>, current: Date, draft: ExtraDraft, now: int, m: int, y: int)
    requires draft.description != "" && draft.amount != 0.0
    ensures ExtrasOf(HandleAddExtra(s, f, initialId, current, draft, now).0.monthlyExtras, m, y) ==
      if m == current.month && y == current.year then ExtrasOf(f.monthlyExtras, m, y) + [NewExtra(draft, now)]
      else ExtrasOf(f.monthlyExtras, m, y)
    ensures EditsStored(initialId) ==>
      forall j | 0 <= j < |LoadIncome(s)| && LoadIncome(s)[j].id == initialId.value ::
        LoadIncome(HandleAddExtra(s, f, initialId, current, draft, now).1)[j].monthlyExtras
          == HandleAddExtra(s, f, initialId, current, draft, now).0.monthlyExtras
  {
  }

  /** After `handleDeleteExtra` on a form with unique months, the shown month
      has lost extra `extraId` and no other month changed; while editing a
      stored income, the stored income with the edited id holds those same
      extras. */
  lemma HandleDeleteExtraLookup(
    s: Store, f: FormData, initialId: Option<int>, current: Date, extraId: int, m: int, y: int)
    requires UniqueMonths(f.monthlyExtras)
    ensures ExtrasOf(HandleDeleteExtra(s, f, initialId, current, extraId).0.monthlyExtras, m, y) ==
      if m == current.month && y == current.year then Filter(ExtrasOf(f.monthlyExtras, m, y), (e: Extra) => e.id != extraId)
      else ExtrasOf(f.monthlyExtras, m, y)
    ensures EditsStored(initialId) && FindMonth(f.monthlyExtras, current.month, current.year).Some? ==>
      forall j | 0 <= j < |LoadIncome(s)| && LoadIncome(s)[j].id == initialId.value ::
        LoadIncome(HandleDeleteExtra(s, f, initialId, current, extraId).1)[j].monthlyExtras
          == HandleDeleteExtra(s, f, initialId, current, extraId).0.monthlyExtras
  {
  }
}
