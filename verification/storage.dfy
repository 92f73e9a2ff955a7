/** The application's storage service over the device's key-value store.
    The store is a map from key to the (already parsed) value stored there;
    expenses are partitioned by calendar month, incomes and travels each sit
    under one global key. Every write is modelled as succeeding. */
module Storage {
  import opened Wrappers
  import opened Seqs
  import opened Text
  import opened Calendar
  import opened Records

  datatype Value =
    | ExpenseList(expenses: seq<Expense>)
    | IncomeList(incomes: seq<Income>)
    | TravelList(travels: seq<Travel>)
    | Other(text: string)

  /** A storage key: the key of one month's expenses, or any other key by its
      text. `KeyText` gives the string actually used on the device. */
  datatype Key = MonthKey(year: int, month: int) | NamedKey(name: string)

  type Store = map<Key, Value>

  const ExpensesPrefix: string := "@expenses_"
  const IncomeKey: Key := NamedKey("@income")
  const TravelsKey: Key := NamedKey("@travels")

  /** Texts in the monthly expense partition. */
  predicate IsExpenseText(t: string) {
    |t| >= |ExpensesPrefix| && t[..|ExpensesPrefix|] == ExpensesPrefix
  }

  /** The device key: `@expenses_<year>_<month>` for a month's expenses. */
  function KeyText(k: Key): string {
    match k
    case MonthKey(y, m) => ExpensesPrefix + IntToString(y) + "_" + IntToString(m)
    case NamedKey(n) => n
  }

  /** A key is well formed when a named key's text lies outside the expense
      partition; only such keys are used. */
  predicate WellFormedKey(k: Key) {
    k.NamedKey? ==> !IsExpenseText(k.name)
  }

  /** The value under `k`, if any. */
  function Get(s: Store, k: Key): Option<Value> {
    if k in s then Some(s[k]) else None
  }

  /** Keys of the monthly expense partition. */
  predicate IsExpenseKey(k: Key) {
    k.MonthKey?
  }

  /** The key of the expenses of `d`'s month; the day plays no part. */
  function DateKey(d: Date): (k: Key)
    ensures IsExpenseKey(k) && IsExpenseText(KeyText(k))
  {
    MonthKey(d.year, d.month)
  }

  /** Splitting at the only '_' is unambiguous. */
  lemma SplitAtSeparator(a: string, b: string, c: string, d: string)
    requires '_' !in a && '_' !in b && '_' !in c && '_' !in d
    requires a + "_" + b == c + "_" + d
    ensures a == c && b == d
  {
    var L := a + "_" + b;
    assert L[|a|] == '_';
    assert forall i | 0 <= i < |c| :: L[i] == c[i];
    assert forall i | |c| < i < |L| :: L[i] == d[i - |c| - 1];
    assert |a| == |c|;
    assert a == L[..|a|] && c == L[..|c|];
    assert b == L[|a| + 1..] && d == L[|c| + 1..];
  }

  /** Distinct (year, month) pairs get distinct texts, so months never share a list. */
  lemma MonthKeyTextInjective(y1: int, m1: int, y2: int, m2: int)
    requires KeyText(MonthKey(y1, m1)) == KeyText(MonthKey(y2, m2))
    ensures y1 == y2 && m1 == m2
  {
    var a, b, c, d := IntToString(y1), IntToString(m1), IntToString(y2), IntToString(m2);
    var n := |ExpensesPrefix|;
    assert KeyText(MonthKey(y1, m1)) == ExpensesPrefix + (a + "_" + b);
    assert KeyText(MonthKey(y2, m2)) == ExpensesPrefix + (c + "_" + d);
    assert (ExpensesPrefix + (a + "_" + b))[n..] == a + "_" + b;
    assert (ExpensesPrefix + (c + "_" + d))[n..] == c + "_" + d;
    SplitAtSeparator(a, b, c, d);
    IntToStringInjective(y1, y2);
    IntToStringInjective(m1, m2);
  }

  /** Well-formed keys with the same text are the same key, so a store keyed
      by `Key` is a faithful view of the device's string-keyed store. */
  lemma KeyTextInjective(k1: Key, k2: Key)
    requires WellFormedKey(k1) && WellFormedKey(k2)
    ensures KeyText(k1) == KeyText(k2) ==> k1 == k2
  {
    match (k1, k2)
    case (MonthKey(y1, m1), MonthKey(y2, m2)) =>
      if KeyText(k1) == KeyText(k2) {
        MonthKeyTextInjective(y1, m1, y2, m2);
      }
    case (MonthKey(y1, m1), NamedKey(_)) => assert IsExpenseText(KeyText(k1));
    case (NamedKey(_), MonthKey(y2, m2)) => assert IsExpenseText(KeyText(k2));
    case (NamedKey(_), NamedKey(_)) =>
  }

  /** The income and travel keys are well formed: they lie outside the expense partition. */
  lemma GlobalKeysAreNotExpenseKeys()
    ensures WellFormedKey(IncomeKey) && WellFormedKey(TravelsKey)
    ensures !IsExpenseText(KeyText(IncomeKey)) && !IsExpenseText(KeyText(TravelsKey))
  {
  }

  // ---------------------------------------------------------------- expenses

  /** `loadExpenses(date)`: the list stored for `d`'s month, `[]` if none was written. */
  function LoadExpenses(s: Store, d: Date): (r: seq<Expense>)
    ensures DateKey(d) !in s ==> r == []
  {
    var k := DateKey(d);
    if k in s && s[k].ExpenseList? then s[k].expenses else []
  }

  /** `saveExpenses(list, date, append)`: the month's list becomes `list`, or the
      stored list followed by `list` when appending; no other key changes. */
  function SaveExpenses(s: Store, xs: seq<Expense>, d: Date, append: bool): (r: Store)
    ensures LoadExpenses(r, d) == if append then LoadExpenses(s, d) + xs else xs
    ensures forall k | k != DateKey(d) :: Get(r, k) == Get(s, k)
    ensures DateKey(d) in r
  {
    var newList := if append then LoadExpenses(s, d) + xs else xs;
    s[DateKey(d) := ExpenseList(newList)]
  }

  /** The expenses of the month at position `idx` on the month axis. */
  function LoadMonth(s: Store, idx: int): seq<Expense> {
    LoadExpenses(s, MonthAt(idx))
  }

  /** Loading by date and loading by month position agree. */
  lemma LoadByIndex(s: Store, d: Date)
    requires Valid(d)
    ensures LoadExpenses(s, d) == LoadMonth(s, MonthIndex(d))
  {
    MonthIndexInjective(d, MonthAt(MonthIndex(d)));
  }

  /** A save touches exactly one month of the axis. */
  lemma SaveMonthEffect(s: Store, xs: seq<Expense>, d: Date, append: bool, idx: int)
    requires Valid(d)
    ensures LoadMonth(SaveExpenses(s, xs, d, append), idx) ==
      if idx == MonthIndex(d) then (if append then LoadMonth(s, idx) + xs else xs)
      else LoadMonth(s, idx)
  {
    var r := SaveExpenses(s, xs, d, append);
    var m := MonthAt(idx);
    LoadByIndex(s, d);
    LoadByIndex(r, d);
    if idx != MonthIndex(d) {
      assert Get(r, DateKey(m)) == Get(s, DateKey(m));
    }
  }

  // ------------------------------------------------------------------ income

  /** `loadIncome()`: the stored incomes, `[]` if none were written. */
  function LoadIncome(s: Store): (r: seq<Income>)
    ensures IncomeKey !in s ==> r == []
  {
    if IncomeKey in s && s[IncomeKey].IncomeList? then s[IncomeKey].incomes else []
  }

  /** `saveIncome(list)`: the stored incomes become `list`; no other key changes. */
  function SaveIncome(s: Store, xs: seq<Income>): (r: Store)
    ensures LoadIncome(r) == xs
    ensures forall k | k != IncomeKey :: Get(r, k) == Get(s, k)
  {
    s[IncomeKey := IncomeList(xs)]
  }

  // ----------------------------------------------------------------- travels

  /** `loadTravels()`: the stored travels, `[]` if none were written. */
  function LoadTravels(s: Store): (r: seq<Travel>)
    ensures TravelsKey !in s ==> r == []
  {
    if TravelsKey in s && s[TravelsKey].TravelList? then s[TravelsKey].travels else []
  }

  /** `saveTravels(list)`: the stored travels become `list`; no other key changes. */
  function SaveTravels(s: Store, xs: seq<Travel>): (r: Store)
    ensures LoadTravels(r) == xs
    ensures forall k | k != TravelsKey :: Get(r, k) == Get(s, k)
  {
    s[TravelsKey := TravelList(xs)]
  }

  /** `j` is the first position of `ts` holding a travel with this id. */
  predicate IsFirstWithId(ts: seq<Travel>, j: int, id: int) {
    0 <= j < |ts| && ts[j].id == id && forall k | 0 <= k < j :: ts[k].id != id
  }

  /** `findIndex(t => t.id === id)`, with `None` for -1. */
  function FindIndex(ts: seq<Travel>, id: int): (r: Option<nat>)
    ensures r.Some? ==> IsFirstWithId(ts, r.value, id)
    ensures r.None? ==> forall j | 0 <= j < |ts| :: ts[j].id != id
  {
    if ts == [] then None
    else if ts[0].id == id then Some(0)
    else match FindIndex(ts[1..], id)
      case Some(i) => Some(i + 1)
      case None => None
  }

  /** `saveTravel(travel)`: an upsert by id. When the id is stored, the first
      travel carrying it is replaced and the list keeps its length; otherwise
      the travel is appended. */
  function SaveTravel(s: Store, t: Travel): (r: Store)
    ensures (exists j | 0 <= j < |LoadTravels(s)| :: LoadTravels(s)[j].id == t.id) ==>
      && |LoadTravels(r)| == |LoadTravels(s)|
      && forall j | 0 <= j < |LoadTravels(s)| ::
           LoadTravels(r)[j] == if IsFirstWithId(LoadTravels(s), j, t.id) then t else LoadTravels(s)[j]
    ensures (forall j | 0 <= j < |LoadTravels(s)| :: LoadTravels(s)[j].id != t.id) ==>
      LoadTravels(r) == LoadTravels(s) + [t]
    ensures t in LoadTravels(r)
    ensures forall k | k != TravelsKey :: Get(r, k) == Get(s, k)
  {
    var ts := LoadTravels(s);
    match FindIndex(ts, t.id)
    case Some(i) => SaveTravels(s, ts[i := t])
    case None => SaveTravels(s, ts + [t])
  }

  /** `deleteTravel(id)`: every travel with that id goes, the others stay in order. */
  function DeleteTravel(s: Store, id: int): (r: Store)
    ensures forall j | 0 <= j < |LoadTravels(r)| :: LoadTravels(r)[j].id != id
    ensures forall t | t in LoadTravels(s) && t.id != id :: t in LoadTravels(r)
    ensures forall t | t in LoadTravels(r) :: t in LoadTravels(s)
    ensures forall k | k != TravelsKey :: Get(r, k) == Get(s, k)
  {
    SaveTravels(s, Filter(LoadTravels(s), (t: Travel) => t.id != id))
  }

  /** Deleting keeps the surviving travels in their stored order: deleting from
      a concatenation deletes from each part and concatenates the results, a
      single travel goes exactly when it carries the id, and an empty list
      stays empty. */
  lemma DeleteTravelKeepsOrder(s: Store, a: seq<Travel>, b: seq<Travel>, t: Travel, id: int)
    ensures LoadTravels(DeleteTravel(SaveTravels(s, a + b), id)) ==
      LoadTravels(DeleteTravel(SaveTravels(s, a), id)) + LoadTravels(DeleteTravel(SaveTravels(s, b), id))
    ensures LoadTravels(DeleteTravel(SaveTravels(s, [t]), id)) == if t.id == id then [] else [t]
    ensures LoadTravels(DeleteTravel(SaveTravels(s, []), id)) == []
  {
    FilterAppend(a, b, (x: Travel) => x.id != id);
  }

  /** Adding a travel under an unused id and then deleting that id restores the list. */
  lemma DeleteUndoesInsert(s: Store, t: Travel)
    requires forall j | 0 <= j < |LoadTravels(s)| :: LoadTravels(s)[j].id != t.id
    ensures LoadTravels(DeleteTravel(SaveTravel(s, t), t.id)) == LoadTravels(s)
  {
    var ts := LoadTravels(s);
    var keep := (x: Travel) => x.id != t.id;
    FilterAppend(ts, [t], keep);
    FilterAllKept(ts, keep);
  }

  /** `clearAllData()`: every key is removed. */
  function ClearAllData(s: Store): (r: Store)
    ensures forall k :: Get(r, k) == None
  {
    map[]
  }

  /** After clearing, every collection loads empty. */
  lemma ClearedStoreIsEmpty(s: Store, d: Date)
    ensures LoadExpenses(ClearAllData(s), d) == []
    ensures LoadIncome(ClearAllData(s)) == []
    ensures LoadTravels(ClearAllData(s)) == []
  {
  }

  // ------------------------------------------------------------------ import

  /** What `data.travels` holds in a parsed import document. */
  datatype TravelsField =
    | Missing              // undefined, or any other falsy value
    | Listed(items: seq<Travel>)
    | NotAList             // truthy but without `map`: reading it throws

  /** The result of `JSON.parse` on the imported text. Arrays count as objects
      without a `travels` field. */
  datatype JsonDoc = JsonNull | JsonScalar | JsonObject(travels: TravelsField)

  datatype ImportResult = ImportResult(success: bool, message: string)

  const InvalidFormatMessage: string := "Formato de dados inválido"
  const ImportedMessage: string := "Dados importados com sucesso!"
  const ParseErrorMessage: string := "Erro ao processar o JSON. Verifique o formato dos dados."

  /** The imported travels, each under a fresh id drawn from `freshId`. */
  function Reidentify(items: seq<Travel>, freshId: nat -> int, from: nat): (r: seq<Travel>)
    ensures |r| == |items|
    ensures forall i | 0 <= i < |items| :: r[i] == items[i].(id := freshId(from + i))
  {
    if items == [] then []
    else [items[0].(id := freshId(from))] + Reidentify(items[1..], freshId, from + 1)
  }

  /** `importData(json)`. `parsed` is `JSON.parse`'s outcome (`None` when it
      throws); `freshId(i)` is the id `Date.now() + Math.random()` gives the
      i-th imported travel. */
  function ImportData(s: Store, parsed: Option<JsonDoc>, freshId: nat -> int): (r: (Store, ImportResult))
    ensures r.1.success <==> parsed.Some? && parsed.value.JsonObject? && !parsed.value.travels.NotAList?
    ensures !(parsed.Some? && parsed.value.JsonObject? && parsed.value.travels.Listed?) ==> r.0 == s
    ensures forall k | k != TravelsKey :: Get(r.0, k) == Get(s, k)
  {
    match parsed
    case None => (s, ImportResult(false, ParseErrorMessage))
    case Some(doc) =>
      match doc
      case JsonNull => (s, ImportResult(false, InvalidFormatMessage))
      case JsonScalar => (s, ImportResult(false, InvalidFormatMessage))
      case JsonObject(Missing) => (s, ImportResult(true, ImportedMessage))
      case JsonObject(NotAList) => (s, ImportResult(false, ParseErrorMessage))
      case JsonObject(Listed(items)) =>
        (SaveTravels(s, LoadTravels(s) + Reidentify(items, freshId, 0)), ImportResult(true, ImportedMessage))
  }

  /** Every failed import leaves the store as it was. The message tells a
      failure to parse, or a `travels` field that cannot be mapped (both end in
      the `catch`), apart from a parse result that is not an object. */
  lemma ImportFailureWritesNothing(s: Store, parsed: Option<JsonDoc>, freshId: nat -> int)
    requires !ImportData(s, parsed, freshId).1.success
    ensures ImportData(s, parsed, freshId).0 == s
    ensures parsed.None? || parsed == Some(JsonObject(NotAList)) <==>
      ImportData(s, parsed, freshId).1.message == ParseErrorMessage
    ensures parsed == Some(JsonNull) || parsed == Some(JsonScalar) <==>
      ImportData(s, parsed, freshId).1.message == InvalidFormatMessage
  {
  }

  /** A successful import appends the imported travels, unchanged but for fresh
      ids, after the stored ones; without a travel list the store is unchanged. */
  lemma ImportSuccess(s: Store, items: seq<Travel>, freshId: nat -> int)
    ensures var (r, res) := ImportData(s, Some(JsonObject(Listed(items))), freshId);
      && res.success
      && |LoadTravels(r)| == |LoadTravels(s)| + |items|
      && LoadTravels(r)[..|LoadTravels(s)|] == LoadTravels(s)
      && (forall i | 0 <= i < |items| ::
            LoadTravels(r)[|LoadTravels(s)| + i] == items[i].(id := freshId(i)))
      && (forall k | k != TravelsKey :: Get(r, k) == Get(s, k))
    ensures ImportData(s, Some(JsonObject(Missing)), freshId) == (s, ImportResult(true, ImportedMessage))
  {
    var stored := LoadTravels(s);
    var rs := Reidentify(items, freshId, 0);
    var r := SaveTravels(s, stored + rs);
    assert ImportData(s, Some(JsonObject(Listed(items))), freshId) == (r, ImportResult(true, ImportedMessage));
    assert LoadTravels(r) == stored + rs;
    assert (stored + rs)[..|stored|] == stored;
  }

  /** When the id supply avoids the stored ids, no imported travel collides with
      a stored one. */
  lemma ImportedIdsAreFresh(s: Store, items: seq<Travel>, freshId: nat -> int)
    requires forall i: nat, t | t in LoadTravels(s) :: freshId(i) != t.id
    ensures var r := ImportData(s, Some(JsonObject(Listed(items))), freshId).0;
      forall i, j | |LoadTravels(s)| <= i < |LoadTravels(r)| && 0 <= j < |LoadTravels(s)| ::
        LoadTravels(r)[i].id != LoadTravels(s)[j].id
  {
    var r := ImportData(s, Some(JsonObject(Listed(items))), freshId).0;
    var n := |LoadTravels(s)|;
    forall i, j | n <= i < |LoadTravels(r)| && 0 <= j < n
      ensures LoadTravels(r)[i].id != LoadTravels(s)[j].id
    {
      assert LoadTravels(r)[i] == items[i - n].(id := freshId(i - n));
      assert LoadTravels(s)[j] in LoadTravels(s);
    }
  }
}
