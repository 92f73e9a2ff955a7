# OrganizaAi core, modelled in Dafny

OrganizaAi is a personal-finance app written in React Native. It stores monthly expenses, incomes with per-month
extras, and trips with budgets and an itinerary in the device's key-value store (AsyncStorage). This project
models the app's core as pure Dafny functions over immutable values, and proves what its handlers promise:

- **Storage service** (`storage.dfy`). The store is a map from key to parsed value.
  - Expenses are partitioned by calendar month under `@expenses_<year>_<month>`.
  - Incomes and travels each sit under one global key.
  - It models save/load of expenses (replace or append), save/load of incomes and travels, `saveTravel`
    (update in place or append), `deleteTravel`, `clearAllData` and `importData`, including its three outcomes.
- **Add/edit expense screen** (`add_expense.dfy`). Its `handleSave` stores the submitted expense in the viewed
  month. For an expense split into installments it divides the amount and writes one sibling record into each
  following month. When editing a split expense, it first purges the old plan's remaining months.
- **Expense form** (`expense_form.dfy`). Its initial state, the installment preview, and `handleSave`: a blank
  description is refused, and a fixed expense gets a fresh installment record.
- **Edit round trip** (`edit_flow.dfy`). It connects the two screens above.
- **Income form** (`income_form.dfy`). Sources, the per-month extras editor (add, delete, the current month's
  list), saving, and the write-back of an edited income.
- **Trip itinerary** (`itinerary.dfy`). The trip's days, each day's activities in start order, add/edit,
  delete, toggle-completed, the write-back of the trip, and category labels.
- **Month selector** (`month_selector.dfy`). The month label and the previous/next buttons.
- **Event bus** (`events.dfy`). Subscribe, the unsubscribe closure, and trigger with throwing listeners.
- **March fixture** (`march_fixture.dfy`). `addMarchExpenses`: it writes 13 sample expenses for March 2025 and
  checks their total (7960) and per-category totals. The model proves the check succeeds.

Supporting modules:

- `calendar.dfy`: JavaScript `Date` arithmetic, including `setMonth`'s day overflow.
- `text.dfy`: `trim`, `parseInt` and integer `toString`.
- `seqs.dfy`: filter, replace and count on sequences.
- `records.dfy`: the stored record types.
- `wrappers.dfy`: the `Option` type.

Values the app draws from the clock or from `Math.random` are parameters: `now`, `clock`, `freshGroup`,
`freshId` and `today`. Each parameter is one reading per handler call; where the code reads the clock once per
loop iteration, the model uses that one reading for every iteration (see "Left out").

Re-planning an edited installment expense is not idempotent in the code, and the model follows the code. Every
save of an edit divides the stored amount by the installment count again, resets the record's position to 1
and keeps its group. `EditFlow.ResaveDividesAgain` states this.

## Model

| member | source | states |
|---|---|---|
| Calendar.SetMonth | app/components/MonthSelector.tsx:26 | `setMonth` on a valid date yields a valid date; the day overflows into the next month as JavaScript does |
| Calendar.ShiftMonths | app/expenses/add.tsx:66-67 | copying a date and moving it k months lands k months later, or k+1 when the day does not exist in the target month |
| Calendar.ShiftMonthsExact | app/expenses/add.tsx:107-108 | on a day every month has, moving k months lands exactly k months later on the same day |
| Calendar.MonthIndexInjective | app/utils/storage.ts:159 | two valid dates with the same month index share year and month, so they share the month's storage key |
| Text.Trim | app/components/ExpenseForm.tsx:65 | `trim()` never lengthens the text, and what it keeps neither starts nor ends with white space |
| Text.TrimIsInnerSlice | app/components/ExpenseForm.tsx:65 | what `trim()` keeps is a contiguous piece of the text with only white space before and after it |
| Text.ParseInt | app/components/ExpenseForm.tsx:71-73 | blank text does not parse, and a negative result comes only from text whose first non-blank character is '-' |
| Text.TrimEmptyIffBlank | app/components/ExpenseForm.tsx:65 | `trim()` gives the empty string exactly when the text is all white space |
| Text.ParseIntToString | app/components/ExpenseForm.tsx:48 | `parseInt` reads back the count the form wrote with `toString()` |
| Text.IntToStringInjective | app/utils/storage.ts:159 | different years or months render to different key texts |
| Storage.KeyTextInjective | app/utils/storage.ts:4-12 | well-formed keys with equal device texts are equal, so a structured key stands for its text |
| Storage.GlobalKeysAreNotExpenseKeys | app/utils/storage.ts:4-12 | the income and travel keys lie outside the monthly expense partition |
| Storage.LoadExpenses | app/utils/storage.ts:175-185 | a month without a stored list loads as empty |
| Storage.SaveExpenses | app/utils/storage.ts:157-173 | after a save the month loads as the given list, or as the old list followed by it when appending; every other key is unchanged |
| Storage.SaveMonthEffect | app/utils/storage.ts:157-173 | a save changes the month of its date and no other month |
| Storage.LoadByIndex | app/utils/storage.ts:175-185 | loading by date depends only on the date's month |
| Storage.SaveIncome | app/utils/storage.ts:187-195 | the incomes read back are those saved; nothing else changes |
| Storage.LoadIncome | app/utils/storage.ts:197-206 | no stored incomes load as empty |
| Storage.SaveTravels | app/utils/storage.ts:208-216 | the travels read back are those saved; nothing else changes |
| Storage.LoadTravels | app/utils/storage.ts:218-226 | no stored travels load as empty |
| Storage.FindIndex | app/utils/storage.ts:231 | `findIndex` returns the first position with the id, or reports that none has it |
| Storage.SaveTravel | app/utils/storage.ts:228-247 | a stored id is replaced at its first position with the length kept; an unknown id is appended; the trip is always stored afterwards; other keys are unchanged |
| Storage.DeleteTravel | app/utils/storage.ts:249-259 | no travel with the id remains, every other travel stays, nothing new appears; other keys are unchanged |
| Storage.DeleteTravelKeepsOrder | app/utils/storage.ts:249-259 | deleting distributes over concatenation, drops a one-trip list exactly when its id matches, and keeps an empty list empty, so the kept trips stay in their stored order |
| Storage.DeleteUndoesInsert | app/utils/storage.ts:228-259 | deleting a just-added new trip gives back the old list |
| Storage.ClearAllData | app/utils/storage.ts:262-275 | every key is removed |
| Storage.ClearedStoreIsEmpty | app/utils/storage.ts:262-275 | after clearing, expenses, incomes and travels all load as empty |
| Storage.Reidentify | app/utils/storage.ts:287-290 | each imported travel keeps its data under a fresh id, in order |
| Storage.ImportData | app/utils/storage.ts:277-307 | the import succeeds exactly when the text parses to an object whose `travels` is absent or a list; the store changes only when a list is imported, and only under the travels key |
| Storage.ImportFailureWritesNothing | app/utils/storage.ts:277-307 | a failed import leaves the store unchanged; unparseable text and a `travels` that is not a list (the `map` call throws into the catch) report the parse-error message, and only they do; a non-object reports the invalid-format message, and only then |
| Storage.ImportSuccess | app/utils/storage.ts:285-300 | an import with a travel list appends the re-identified travels after the stored ones and touches nothing else; an import without one succeeds without writing |
| Storage.ImportedIdsAreFresh | app/utils/storage.ts:287-290 | with fresh ids unused by the store, no imported travel shares an id with a stored one |
| ExpenseForm.InitialState | app/components/ExpenseForm.tsx:34-62 | the form starts from the edited expense, or from a blank variable expense in category others |
| ExpenseForm.InitialInstallmentCount | app/components/ExpenseForm.tsx:47-49 | the count field reads back as the edited plan's total, or 1 |
| ExpenseForm.PreviewAmount | app/components/ExpenseForm.tsx:181-196 | the per-installment amount is shown exactly for a fixed expense whose count parses above one |
| ExpenseForm.PreviewOnOpen | app/components/ExpenseForm.tsx:181-194 | a new form shows no per-installment preview; editing a fixed split expense shows it |
| ExpenseForm.Submit | app/components/ExpenseForm.tsx:64-80 | a blank description is refused; a fixed expense whose count parses above one gets a fresh plan {n, 1, group}; otherwise the expense is passed on unchanged; only the installments ever differ |
| ExpenseForm.VariableKeepsInstallments | app/components/ExpenseForm.tsx:71-77 | a variable expense never gets a new installment record |
| AddExpense.AnchorDate | app/expenses/add.tsx:17-19 | the viewed date is day 1 of the route's month, or today |
| AddExpense.WithoutGroup | app/expenses/add.tsx:70-72 | the filter drops exactly the expenses of the group and keeps the others |
| AddExpense.Sibling | app/expenses/add.tsx:82-90 | installment i is a copy under id clock+i with position i, the same group, total and per-installment amount |
| AddExpense.Planned | app/expenses/add.tsx:49-60 | a split expense's amount is divided so that amount times total gives back the submitted amount; an edit keeps the old group or takes a fresh one; a new expense keeps its own group; unsplit expenses are unchanged |
| AddExpense.OldPlan | app/expenses/add.tsx:63-65 | the purge runs exactly when the edited record had a non-empty group |
| AddExpense.AppendSiblings | app/expenses/add.tsx:106-121 | the sibling loop writes only monthly expense keys (month by month in AddExpense.AppendSiblingsEffect) |
| AddExpense.PurgeGroup | app/expenses/add.tsx:65-74 | the purge loop writes only monthly expense keys (month by month in AddExpense.PurgeGroupEffect) |
| AddExpense.SaveNew | app/expenses/add.tsx:100-126 | the new-expense branch writes only monthly expense keys (month by month in AddExpense.SaveNewEffect) |
| AddExpense.PurgeStep | app/expenses/add.tsx:63-75 | the guarded purge writes only monthly expense keys (month by month in AddExpense.PurgeStepEffect) |
| AddExpense.EditLoops | app/expenses/add.tsx:62-93 | purge and re-create write only monthly expense keys (month by month in AddExpense.EditLoopsEffect) |
| AddExpense.EditLoopsUnfold | app/expenses/add.tsx:62-93 | re-creating runs the sibling loop from position current+1 to total on the purged store |
| AddExpense.SaveEdit | app/expenses/add.tsx:47-97 | the edit branch writes only monthly expense keys (month by month in AddExpense.SaveEditEffect) |
| AddExpense.AppendSiblingsEffect | app/expenses/add.tsx:106-121 | the sibling loop appends installment j to the month j-base months after the anchor and leaves other months alone |
| AddExpense.PurgeGroupEffect | app/expenses/add.tsx:65-74 | the purge loop removes the group from exactly the months of the old plan's remaining range |
| AddExpense.SaveNewEffect | app/expenses/add.tsx:100-126 | a new split expense adds the record to the viewed month and sibling i to the month i-1 later |
| AddExpense.PurgeStepEffect | app/expenses/add.tsx:63-75 | the purge step changes only the old plan's months |
| AddExpense.EditLoopsEffect | app/expenses/add.tsx:62-93 | purge then re-create: each month is purged, then gets the new sibling of its offset |
| AddExpense.SaveEditEffect | app/expenses/add.tsx:47-97 | the final save overwrites the viewed month with the list loaded first, the edited record replaced, so any purge of the viewed month is lost |
| AddExpense.HandleSave | app/expenses/add.tsx:42-138 | the handler writes only monthly expense keys |
| AddExpense.NewSplitIsSaveNew | app/expenses/add.tsx:100-104 | a new split expense is divided and planned with its own group |
| AddExpense.NewSplitMonth | app/expenses/add.tsx:100-126 | month by month effect of saving a new split expense |
| AddExpense.HandleSaveEditMonth | app/expenses/add.tsx:47-97 | month by month effect of saving an edit |
| AddExpense.NewExpenseSplit | app/expenses/add.tsx:100-126 | a new n-way split puts the divided record in the viewed month and installments 2..n in the n-1 following months; no other month changes |
| AddExpense.NewExpenseSingle | app/expenses/add.tsx:123-126 | an unsplit new expense is appended to the viewed month only |
| AddExpense.EditSingle | app/expenses/add.tsx:97 | an unsplit edit replaces the record with that id in the viewed month, with the length kept; no other month changes |
| AddExpense.EditSplitWithGroup | app/expenses/add.tsx:49-97 | a split edit keeps the old group, removes it from the old plan's remaining months and writes the new plan's later installments |
| AddExpense.EditSplitWithoutGroup | app/expenses/add.tsx:49-97 | a split edit of an ungrouped record takes a fresh group, purges nothing and writes the later installments |
| AddExpense.ThirtyFirstInstallments | app/expenses/add.tsx:106-108 | a new three-installment expense saved on 31 January 2025 with no month in the route puts nothing in February and two installments in March |
| AddExpense.AppendSiblingsClamped | app/expenses/add.tsx:106-121 | the corrected sibling loop, which clamps the day, writes only monthly expense keys |
| AddExpense.AppendSiblingsClampedEffect | app/expenses/add.tsx:106-121 | from any day of the month, the corrected loop appends installment j to the month exactly j-base months after the anchor and leaves other months alone |
| AddExpense.AppendSiblingsClampedAgrees | app/expenses/add.tsx:106-121 | on days 1-28 the corrected loop writes the same store as the loop as written |
| EditFlow.ResaveDividesAgain | app/expenses/add.tsx:49-56 | re-saving a stored installment unchanged divides its amount again, resets its position to 1 and keeps its group |
| EditFlow.PreviewIsStoredAmount | app/components/ExpenseForm.tsx:192-196 | the per-installment amount the form previews is the amount the add screen stores for each installment |
| IncomeForm.InitialForm | app/components/IncomeForm.tsx:15-39 | the form holds the edited income, or person "Você" with no sources and no extras |
| IncomeForm.AddSource | app/components/IncomeForm.tsx:41-63 | without a name or with a zero amount nothing changes; otherwise exactly one source with id now and the default icon and color is appended |
| IncomeForm.FindMonth | app/components/IncomeForm.tsx:75-77 | the position of the first entry of the month, or none when the month has none |
| IncomeForm.CurrentMonthExtras | app/components/IncomeForm.tsx:207-213 | the extras of the first entry for the month, or none |
| IncomeForm.AddToMonth | app/components/IncomeForm.tsx:80-108 | an existing month entry keeps its place; a new month entry is appended; months are never renamed |
| IncomeForm.AddExtra | app/components/IncomeForm.tsx:65-112 | an empty description or a zero amount changes nothing; otherwise the shown month's extras gain the new extra at the end and every other month's extras are unchanged; person and sources are untouched |
| IncomeForm.AddKeepsMonthsUnique | app/components/IncomeForm.tsx:80-108 | adding an extra keeps one entry per month |
| IncomeForm.AddToMonthLookup | app/components/IncomeForm.tsx:80-108 | after adding, the month's extras are the old ones plus the new one; other months are unchanged |
| IncomeForm.DeleteFromMonth | app/components/IncomeForm.tsx:144-165 | a month without an entry is unchanged; otherwise no empty month entry remains |
| IncomeForm.DeleteExtra | app/components/IncomeForm.tsx:144-165 | with one entry per month, the shown month's extras lose exactly those with the id and every other month's extras are unchanged; person and sources are untouched |
| IncomeForm.DeleteKeepsMonthsUnique | app/components/IncomeForm.tsx:154-165 | deleting keeps one entry per month |
| IncomeForm.DropEmptyLookup | app/components/IncomeForm.tsx:154-157 | dropping empty month entries does not change any month's extras |
| IncomeForm.DeleteFromMonthLookup | app/components/IncomeForm.tsx:144-165 | after deleting, the month's extras are the old ones without that id; other months are unchanged |
| IncomeForm.AddThenDeleteExtra | app/components/IncomeForm.tsx:65-165 | on the form, adding a valid extra under an id the shown month does not use and deleting that id gives every month back its extras |
| IncomeForm.AddThenDeleteRestores | app/components/IncomeForm.tsx:65-192 | adding an extra with a new id and deleting it gives back every month's extras |
| IncomeForm.Save | app/components/IncomeForm.tsx:194-205 | nothing is saved without a person or a source; otherwise the income keeps the edited id when non-zero, else takes now |
| IncomeForm.SaveReopened | app/components/IncomeForm.tsx:15-39 | reopening a saved income and saving it untouched gives back the same income; an untouched new form saves nothing |
| IncomeForm.Persist | app/components/IncomeForm.tsx:113-136 | in the stored list, the income with the edited id becomes the form's income; the rest, the length and other keys are unchanged |
| IncomeForm.HandleAddExtra | app/components/IncomeForm.tsx:65-142 | the form is the one the add step gives; the store is written only for a valid draft while editing a stored income, and then the stored income with the edited id becomes the form's income, with the list's length and every other income and key unchanged |
| IncomeForm.HandleDeleteExtra | app/components/IncomeForm.tsx:144-192 | a month without an entry changes nothing; otherwise the form is the one the delete step gives and, while editing a stored income, the stored income with the edited id becomes the form's income, with the list's length and every other income and key unchanged |
| IncomeForm.HandleAddExtraLookup | app/components/IncomeForm.tsx:65-142 | after a valid add, the form's shown month has gained the extra and no other month changed, and while editing the stored income with the edited id holds the same extras |
| IncomeForm.HandleDeleteExtraLookup | app/components/IncomeForm.tsx:144-192 | after a delete on a form with one entry per month, the shown month has lost the extra and no other month changed, and while editing the stored income with the edited id holds the same extras |
| Itinerary.DaysArray | app/components/TravelItinerary.tsx:36-45 | every day from start to end, in order, and none when the trip ends before it starts |
| Itinerary.InsertByStart | app/components/TravelItinerary.tsx:55-59 | inserting keeps the list sorted by start and adds exactly the one activity |
| Itinerary.SortByStart | app/components/TravelItinerary.tsx:55-59 | the result is sorted by start time and is a permutation of the input |
| Itinerary.ActivitiesForDay | app/components/TravelItinerary.tsx:50-60 | the day's activities, sorted, are exactly the itinerary's activities starting that day |
| Itinerary.ActivitiesForDayMembers | app/components/TravelItinerary.tsx:50-60 | an activity is listed for a day exactly when it is in the itinerary and starts that day |
| Itinerary.BuildActivity | app/components/TravelItinerary.tsx:70-92 | the built activity keeps the edited id (unless 0) and its completed flag, starts at the chosen time (08:00 by default) of the selected day, and defaults category and cost |
| Itinerary.AddActivity | app/components/TravelItinerary.tsx:62-104 | nothing happens without a day, title or location; a new activity is appended; an edit replaces the activity with that id in place |
| Itinerary.EditKeepsIdAndCompleted | app/components/TravelItinerary.tsx:70-104 | editing an activity keeps its id and completed flag at its position |
| Itinerary.DeleteActivity | app/components/TravelItinerary.tsx:128-137 | no activity with the id remains; every other activity stays; nothing new appears |
| Itinerary.DeleteActivityKeepsOrder | app/components/TravelItinerary.tsx:128-130 | deleting distributes over concatenation, drops a one-activity list exactly when its id matches, and turns a missing itinerary into an empty one, so the kept activities stay in order |
| Itinerary.AddThenDeleteActivity | app/components/TravelItinerary.tsx:62-137 | adding a new activity under an unused id and deleting that id gives back the trip, with a missing itinerary now empty |
| Itinerary.ToggleComplete | app/components/TravelItinerary.tsx:144-160 | the activity with the id flips its completed flag; the others are unchanged |
| Itinerary.ToggleTwice | app/components/TravelItinerary.tsx:144-160 | toggling an activity twice gives back the itinerary |
| Itinerary.PersistTravel | app/components/TravelItinerary.tsx:190-196 | the stored trip with the id is replaced; the list keeps its length; other keys are unchanged |
| Itinerary.PersistAbsentTrip | app/components/TravelItinerary.tsx:190-196 | persisting a trip that is not stored adds nothing |
| Itinerary.HandleAddActivity | app/components/TravelItinerary.tsx:62-113 | an early return leaves the store alone; otherwise the stored list keeps its length, every trip with another id is unchanged, and so is every other key |
| Itinerary.HandleAddActivityStored | app/components/TravelItinerary.tsx:62-113 | after a valid add, the stored trip with the id differs from the trip only in its itinerary: a new activity is appended, an edited one is replaced in place by the rebuilt activity |
| Itinerary.CategoryLabel | app/components/TravelItinerary.tsx:233-241 | the label is one of the five, and it is "Outro" exactly when the category is none of the four known ids |
| Itinerary.CategoryLabels | app/components/TravelItinerary.tsx:233-241 | each known category has its label, and anything else reads "Outro" |
| MonthSelector.MonthLabel | app/components/MonthSelector.tsx:19-22 | the label is one of the twelve month names and the date's year |
| MonthSelector.MonthLabelInjective | app/components/MonthSelector.tsx:49-53 | two dates share a label exactly when they share year and month |
| MonthSelector.PreviousMonth | app/components/MonthSelector.tsx:24-28 | "previous" moves one month back, or stays in the month when the day does not exist in the preceding month |
| MonthSelector.NextMonth | app/components/MonthSelector.tsx:30-34 | "next" moves one month forward, or two when the day does not exist in the following month |
| MonthSelector.NextMonthStep | app/components/MonthSelector.tsx:30-34 | on days 1-28, "next" is the same day of the following calendar month, with December wrapping |
| MonthSelector.PreviousMonthStep | app/components/MonthSelector.tsx:24-28 | on days 1-28, "previous" is the same day of the preceding calendar month, with January wrapping |
| MonthSelector.StepsUndoEachOther | app/components/MonthSelector.tsx:24-34 | on days 1-28 the two buttons undo each other |
| MonthSelector.StepsOvershootLongDays | app/components/MonthSelector.tsx:24-34 | from a day the adjacent month lacks, "next" skips a month and "previous" stays put |
| MonthSelector.ThirtyFirstSkipsFebruary | app/components/MonthSelector.tsx:30-34 | from 31 January 2025, "next" shows 3 March; from 31 March, "previous" shows 3 March |
| Calendar.ClampedShift | app/components/MonthSelector.tsx:24-34 | a shift with the day clamped always lands exactly k months away, on a day no later than the original |
| Calendar.ClampedShiftAgrees | app/expenses/add.tsx:107-108 | on days 1-28 the clamped shift is `setMonth`'s shift |
| MonthSelector.NextMonthClamped | app/components/MonthSelector.tsx:30-34 | the corrected "next" always shows the following month |
| MonthSelector.PreviousMonthClamped | app/components/MonthSelector.tsx:24-28 | the corrected "previous" always shows the preceding month |
| MonthSelector.ClampedAgreesOnShortDays | app/components/MonthSelector.tsx:24-34 | on days 1-28, the corrected buttons agree with the ones as written |
| MonthSelector.ClampedNextRepeated | app/components/MonthSelector.tsx:30-34 | pressing the corrected "next" k times moves exactly k months, from any day |
| Events.Subscribe | app/utils/EventContext.tsx:30-39 | the callback is in the type's set afterwards; a callback already there changes nothing; a new one is appended; other types are untouched |
| Events.Unsubscribe | app/utils/EventContext.tsx:42-55 | the callback is gone; every other callback stays and none is added; other types are untouched; a type without an entry is unchanged |
| Events.SubscribeKeepsWellFormed | app/utils/EventContext.tsx:30-39 | subscribing keeps every set duplicate-free and non-empty |
| Events.UnsubscribeKeepsWellFormed | app/utils/EventContext.tsx:47-53 | unsubscribing keeps sets duplicate-free, and a set that becomes empty loses its entry |
| Events.SubscribeIdempotent | app/utils/EventContext.tsx:35-39 | subscribing the same callback twice is the same as once |
| Events.UnsubscribeAbsent | app/utils/EventContext.tsx:42-55 | removing a callback that is not subscribed changes nothing |
| Events.UnsubscribeUndoesSubscribe | app/utils/EventContext.tsx:30-55 | calling the closure a fresh subscription returns gives back the registry |
| Events.Trigger | app/utils/EventContext.tsx:16-28 | every listener of the type is called exactly once, in order; those that throw are logged and the rest still run; a type without listeners calls nothing |
| MarchFixture.Tally | app/utils/testExpenses.ts:130-133 | the fold never loses a category already in the accumulator |
| MarchFixture.TallyIsCategoryTotal | app/utils/testExpenses.ts:130-133 | the fold has a category exactly when some expense has it, and its value is that category's sum |
| MarchFixture.CategoryTotalsSumToTotal | app/utils/testExpenses.ts:129-133 | the six category totals add up to the total |
| MarchFixture.AddMarchExpenses | app/utils/testExpenses.ts:108-177 | the report lists March's stored expenses; only March's key is written; success holds exactly when count, total and every expected category total match |
| MarchFixture.FixtureReadsBack | app/utils/testExpenses.ts:112-137 | March reads back as the ten monthly expenses followed by the three additional ones, whatever it held before: 13 of 13 |
| MarchFixture.FixtureTotal | app/utils/testExpenses.ts:4-105 | the thirteen sample amounts add up to 7960 |
| MarchFixture.FixtureTally | app/utils/testExpenses.ts:130-149 | the per-category totals are others 4730, grocery 1200, personal 1250, gas 450, snack 150 and pet 180 |
| MarchFixture.FixtureSucceeds | app/utils/testExpenses.ts:108-177 | the run reports total 7960, the expected category totals and success |
| Seqs.FilterIdempotent | app/components/IncomeForm.tsx:154-157 | filtering twice with the same test is filtering once |
| Seqs.NoDupCount | app/utils/EventContext.tsx:14 | in a duplicate-free sequence, each element occurs once |

## Left out

- **Floating point.** Amounts are exact reals. The division into installments and the sums in the March check
  are exact. JavaScript doubles round; the March sample amounts are whole numbers, so the check's result is the
  same.
- **Asynchrony.** AsyncStorage calls, `setTimeout` around `triggerEvent`, and interleaving between screens are
  left out. Each handler is one atomic step on the store.
- **Storage failures.** Every write is modelled as succeeding. The `catch` branches that log, return `false` or
  show an alert are left out, except that `importData` reports failure when `JSON.parse` throws or
  `data.travels` cannot be mapped.
- **Logging.** `console.log` and `console.error` are left out.
- **Navigation and rendering.** `router.back()`, `Alert` dialogs and the rendering of screens are left out.
- **Serialisation.** JSON text is left out. The store holds parsed values, and `importData` receives
  `JSON.parse`'s outcome.
- **Key strings.** Storage keys are a structured `Key` rather than strings. `Storage.KeyTextInjective` shows
  that well-formed keys and their device strings determine each other.
- **Clock and randomness.** `Date.now()` and `Math.random()` are parameters, one value per handler call. The
  model assumes nothing about that value beyond what each lemma states.
- AddExpense.Sibling: installment i gets the id `clock + i` from one clock reading for the whole save. The code
  calls `Date.now()` again in every iteration (add.tsx:84 and add.tsx:112), so its ids may drift apart by the
  milliseconds the loop takes. The lemmas about the sibling loops (AddExpense.AppendSiblingsEffect and those
  built on it) therefore describe the ids only for a clock that does not advance during the save.
- **Time zones.** Activity times are UTC milliseconds, and a trip day is a day number since the epoch.
  Local-time `setHours` and the "HH:MM" text fields are left out; times of day are minutes after midnight.
  `handleEditActivity` turns an activity back into those text fields, and it is left out for the same reason.
- **The edit screen's initial load.** add.tsx:21-40 looks the edited expense up in the viewed month. The found
  expense (`initialData`) is a parameter.
- **Aliasing.** The add screen assigns `expense.installments.groupId` in place (add.tsx:56-59). The income
  form pushes into an array it shares with its state (IncomeForm.tsx:81), and it overwrites
  `currentMonthExtras.extras` with the filtered list, in the state's own month entry, before the state is
  replaced (IncomeForm.tsx:154). These in-place mutations are left out; records are values.
- **Travel ids.** A travel id is an integer. `importData` assigns `Date.now() + Math.random()` (storage.ts:290),
  a fractional number; the model takes the fresh ids as integer parameters.
- **Month range of the installment lemmas.** The month-by-month lemmas below assume the viewed date's day
  exists in every month. That always holds when the route gives the month (day 1). Opened without one on day
  29-31, the functions still model `setMonth`'s overflow, and the "Findings" section shows its effect; these
  lemmas do not describe it.
- AddExpense.NewExpenseSplit: requires the route month or a day 1-28.
- AddExpense.NewSplitMonth: requires the route month or a day 1-28.
- AddExpense.HandleSaveEditMonth: requires the route month or a day 1-28.
- AddExpense.EditSplitWithGroup: requires the route month or a day 1-28.
- AddExpense.EditSplitWithoutGroup: requires the route month or a day 1-28.
- EditFlow.ResaveDividesAgain: requires the route month or a day 1-28, because it rests on
  AddExpense.EditSplitWithGroup.
- AddExpense.SaveNewEffect: requires an anchor day 1-28.
- AddExpense.PurgeStepEffect: requires an anchor day 1-28.
- AddExpense.EditLoopsEffect: requires an anchor day 1-28.
- AddExpense.SaveEditEffect: requires an anchor day 1-28.
- AddExpense.PurgeGroupEffect: requires an anchor day 1-28.
- AddExpense.AppendSiblingsEffect: requires an anchor day 1-28.
- IncomeForm.DeleteExtra: the month-by-month clause assumes one entry per (month, year). Adding and deleting keep
  that invariant (IncomeForm.AddKeepsMonthsUnique, IncomeForm.DeleteKeepsMonthsUnique) and a new form starts with
  none. With duplicate entries, dropping an emptied entry can expose a later duplicate, and the clause does not
  describe that case. IncomeForm.HandleDeleteExtraLookup carries the same assumption.
- ExpenseForm.PreviewAmount: the preview's `toFixed(2)` rounding for display is left out.
- **Amount split.** AddExpense.NewExpenseSplit states the stored amount as the submitted amount divided by the
  total. That the split amounts add back up to the submitted amount is stated by AddExpense.Planned.
- **Sort stability.** Itinerary.SortByStart states sortedness and permutation. It does not state the order of
  activities with equal start times, which `Array.prototype.sort` keeps stable.
- **Callbacks.** A callback is an integer id, and the set of callbacks that throw is a parameter. What a callback
  does when called is left out; Events.Trigger reports which listeners were called and which threw.
- **Month names.** The third month name is kept as the component spells it, "MarÃ§o", a mis-encoded "Março".
- **Other storage functions.** Monthly data, investments and the other storage functions outside the core are
  not part of this model.

## Findings

| source | as written | input that shows it | evidently intended | confidence | as-written member | corrected member |
|---|---|---|---|---|---|---|
| app/components/MonthSelector.tsx:24-34 | `setMonth(getMonth() ± 1)` on a copy of the current date keeps the day, and JavaScript rolls a missing day over into the next month | current date 31 January 2025: "next" gives 3 March 2025 and February is never shown; from 31 March, "previous" gives 3 March and the month does not change | each press shows the adjacent month, so the day is clamped to that month's length | not executed | MonthSelector.ThirtyFirstSkipsFebruary | MonthSelector.NextMonthClamped |
| app/expenses/add.tsx:106-108 | each installment's month is `setMonth(getMonth() + (i - 1))` on a copy of the viewed date, which keeps the day; with no month in the route the viewed date is today | a new expense in 3 installments saved on 31 January 2025: installment 2 lands on 3 March, installment 3 on 31 March, so February gets none and March gets two | installment i lands i - 1 months after the viewed month, so the day is clamped to that month's length | not executed | AddExpense.ThirtyFirstInstallments | AddExpense.AppendSiblingsClamped |

The corrected steps are built on `Calendar.ClampedShift`. `MonthSelector.PreviousMonthClamped` is the
matching fix for "previous". `MonthSelector.ClampedAgreesOnShortDays` proves the fix changes nothing on days
1-28. `MonthSelector.ClampedNextRepeated` proves that k presses move exactly k months.

The corrected installment loop uses the same clamped shift. `AddExpense.AppendSiblingsClampedEffect` proves that,
from any day, installment j lands exactly j - base months after the viewed month.
`AddExpense.AppendSiblingsClampedAgrees` proves the fix writes the same store on days 1-28. The purge loop at
add.tsx:65-67 shifts the same way and has the same overflow.
