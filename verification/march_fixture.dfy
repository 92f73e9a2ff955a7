/** The self-check that fills March 2025 with a fixed list of expenses, reads
    the month back and compares its total and per-category totals with the
    expected figures. */
module MarchFixture {
  import opened Wrappers
  import opened Calendar
  import opened Records
  import opened Storage

  /** The month the fixture writes to: `new Date(2025, 2, 1)`. */
  const MarchDate: Date := Date(2025, 2, 1)

  function Fx(id: int, description: string, amount: real, category: Category, kind: ExpenseType): Expense {
    Expense(id, category, description, amount, kind, None)
  }

  /** The ten monthly expenses; ids are `now + 1` to `now + 10`. */
  function MarchExpenses(now: int): (r: seq<Expense>)
    ensures |r| == 10
  {
    [ Fx(now + 1, "Aluguel", 2500.0, Others, Fixed),
      Fx(now + 2, "Energia Elétrica", 280.0, Others, Variable),
      Fx(now + 3, "Internet", 150.0, Others, Fixed),
      Fx(now + 4, "Supermercado", 1200.0, Grocery, Variable),
      Fx(now + 5, "Academia", 120.0, Personal, Fixed),
      Fx(now + 6, "Streaming", 80.0, Personal, Fixed),
      Fx(now + 7, "Combustível", 450.0, Gas, Variable),
      Fx(now + 8, "Plano de Saúde", 350.0, Personal, Fixed),
      Fx(now + 9, "Cartão de Crédito", 1800.0, Others, Variable),
      Expense(now + 10, Personal, "Parcela Notebook", 500.0, Fixed, Some(Installments(10, 3, "notebook-2025"))) ]
  }

  /** The three additional expenses; ids are `now + 11` to `now + 13`. */
  function AdditionalExpenses(now: int): (r: seq<Expense>)
    ensures |r| == 3
  {
    [ Fx(now + 11, "Presente Aniversário", 200.0, Personal, Variable),
      Fx(now + 12, "Jantar Especial", 150.0, Snack, Variable),
      Fx(now + 13, "Ração Pet", 180.0, Pet, Fixed) ]
  }

  // ------------------------------------------------------------- reductions

  /** `reduce((sum, exp) => sum + exp.amount, 0)`. */
  function Total(xs: seq<Expense>): real {
    if xs == [] then 0.0 else Total(xs[..|xs| - 1]) + xs[|xs| - 1].amount
  }

  /** The sum of the amounts of the expenses in category `c`. */
  function CategoryTotal(xs: seq<Expense>, c: Category): real {
    if xs == [] then 0.0
    else CategoryTotal(xs[..|xs| - 1], c) + (if xs[|xs| - 1].category == c then xs[|xs| - 1].amount else 0.0)
  }

  /** The second `reduce`: starting from `acc`, each expense adds its amount to
      its category's entry, an absent entry counting as 0. */
  function Tally(xs: seq<Expense>, acc: map<Category, real>): (r: map<Category, real>)
    ensures forall c | c in acc :: c in r
  {
    if xs == [] then acc
    else
      var prev := Tally(xs[..|xs| - 1], acc);
      var x := xs[|xs| - 1];
      prev[x.category := (if x.category in prev then prev[x.category] else 0.0) + x.amount]
  }

  /** The tally from the empty object has an entry exactly for the categories
      that occur, and that entry is the category's total (an absent category
      totals 0). */
  lemma {:induction false} TallyIsCategoryTotal(xs: seq<Expense>, c: Category)
    ensures c in Tally(xs, map[]) <==> exists i | 0 <= i < |xs| :: xs[i].category == c
    ensures CategoryTotal(xs, c) == if c in Tally(xs, map[]) then Tally(xs, map[])[c] else 0.0
  {
    if xs != [] {
      var n := |xs| - 1;
      var init := xs[..n];
      TallyIsCategoryTotal(init, c);
      var prev := Tally(init, map[]);
      var x := xs[n];
      assert Tally(xs, map[]) == prev[x.category := (if x.category in prev then prev[x.category] else 0.0) + x.amount];
      if exists i | 0 <= i < |init| :: init[i].category == c {
        var i :| 0 <= i < |init| && init[i].category == c;
        assert xs[i] == init[i];
      }
      if exists i | 0 <= i < |xs| :: xs[i].category == c {
        var i :| 0 <= i < |xs| && xs[i].category == c;
        if i < n {
          assert init[i] == xs[i];
        }
      }
    }
  }

  /** The categories partition the expenses: their totals add up to the total. */
  lemma {:induction false} CategoryTotalsSumToTotal(xs: seq<Expense>)
    ensures CategoryTotal(xs, Snack) + CategoryTotal(xs, Grocery) + CategoryTotal(xs, Gas)
          + CategoryTotal(xs, Pet) + CategoryTotal(xs, Personal) + CategoryTotal(xs, Others) == Total(xs)
  {
    if xs != [] {
      CategoryTotalsSumToTotal(xs[..|xs| - 1]);
    }
  }

  /** One more expense of the list adds its amount to the running total. */
  lemma TotalStep(xs: seq<Expense>, k: int)
    requires 0 <= k < |xs|
    ensures Total(xs[..k + 1]) == Total(xs[..k]) + xs[k].amount
  {
    assert xs[..k + 1][..k] == xs[..k];
  }

  /** One more expense of the list adds its amount to its category's entry. */
  lemma TallyStep(xs: seq<Expense>, k: int, prev: map<Category, real>, c: Category, v: real)
    requires 0 <= k < |xs| && Tally(xs[..k], map[]) == prev
    requires xs[k].category == c && xs[k].amount == v
    ensures Tally(xs[..k + 1], map[]) == prev[c := (if c in prev then prev[c] else 0.0) + v]
  {
    assert xs[..k + 1][..k] == xs[..k];
  }

  // ------------------------------------------------------------ the check

  /** The figures the self-check expects, in the order it lists them. */
  const ExpectedTotal: real := 7960.0
  const ExpectedCategoryTotals: seq<(Category, real)> :=
    [(Others, 4730.0), (Grocery, 1200.0), (Personal, 1250.0), (Gas, 450.0), (Snack, 150.0), (Pet, 180.0)]

  /** What `addMarchExpenses` reports. */
  datatype Report = Report(
    success: bool,
    savedCount: int,
    expectedCount: int,
    totalAmount: real,
    categoryTotals: map<Category, real>,
    expenses: seq<Expense>)

  /** Every expected category total is present in `totals` with that value. */
  predicate CategoriesMatch(totals: map<Category, real>) {
    forall i | 0 <= i < |ExpectedCategoryTotals| ::
      ExpectedCategoryTotals[i].0 in totals && totals[ExpectedCategoryTotals[i].0] == ExpectedCategoryTotals[i].1
  }

  /** `addMarchExpenses`: empty March, save the monthly list, append the
      additional list, read the month back and compare. The saves report
      success; the store after the run is returned with the report. */
  function AddMarchExpenses(s: Store, now: int): (r: (Store, Report))
    ensures LoadExpenses(r.0, MarchDate) == r.1.expenses
    ensures forall k | k != DateKey(MarchDate) :: Get(r.0, k) == Get(s, k)
    ensures r.1.success <==>
      r.1.savedCount == r.1.expectedCount && r.1.totalAmount == ExpectedTotal && CategoriesMatch(r.1.categoryTotals)
  {
    var s1 := SaveExpenses(s, [], MarchDate, false);
    var s2 := SaveExpenses(s1, MarchExpenses(now), MarchDate, false);
    var s3 := SaveExpenses(s2, AdditionalExpenses(now), MarchDate, true);
    var saved := LoadExpenses(s3, MarchDate);
    var total := Total(saved);
    var totals := Tally(saved, map[]);
    var expectedCount := |MarchExpenses(now)| + |AdditionalExpenses(now)|;
    var allSaved := |saved| == expectedCount;
    var success := allSaved && total == ExpectedTotal && CategoriesMatch(totals);
    (s3, Report(success, |saved|, expectedCount, total, totals, saved))
  }

  /** The month read back is the monthly list followed by the additional one,
      thirteen expenses in all, whatever March held before. */
  lemma FixtureReadsBack(s: Store, now: int)
    ensures AddMarchExpenses(s, now).1.expenses == MarchExpenses(now) + AdditionalExpenses(now)
    ensures AddMarchExpenses(s, now).1.savedCount == 13 == AddMarchExpenses(s, now).1.expectedCount
  {
  }

  /** Both lists of the fixture, in the order the month holds them. */
  function Fixture(now: int): (r: seq<Expense>)
    ensures |r| == 13
  {
    MarchExpenses(now) + AdditionalExpenses(now)
  }

  /** The fixture's amounts add up to 7960. */
  lemma FixtureTotal(now: int)
    ensures Total(Fixture(now)) == 7960.0
  {
    var xs := Fixture(now);
    assert xs[..0] == [];
    TotalStep(xs, 0); TotalStep(xs, 1); TotalStep(xs, 2); TotalStep(xs, 3); TotalStep(xs, 4);
    TotalStep(xs, 5); TotalStep(xs, 6); TotalStep(xs, 7); TotalStep(xs, 8); TotalStep(xs, 9);
    TotalStep(xs, 10); TotalStep(xs, 11); TotalStep(xs, 12);
    assert xs[..13] == xs;
  }

  /** The tally over the first three expenses of the fixture. */
  lemma FixtureTallyFirstThree(now: int)
    ensures Tally(Fixture(now)[..3], map[]) == map[Others := 2930.0]
  {
    var xs := Fixture(now);
    assert xs[..0] == [];
    TallyStep(xs, 0, map[], Others, 2500.0);
    assert Tally(xs[..1], map[]) == map[Others := 2500.0];
    TallyStep(xs, 1, map[Others := 2500.0], Others, 280.0);
    assert Tally(xs[..2], map[]) == map[Others := 2780.0];
    TallyStep(xs, 2, map[Others := 2780.0], Others, 150.0);
  }

  /** The tally over the first six expenses of the fixture. */
  lemma FixtureTallyFirstSix(now: int)
    ensures Tally(Fixture(now)[..6], map[]) == map[Others := 2930.0, Grocery := 1200.0, Personal := 200.0]
  {
    var xs := Fixture(now);
    FixtureTallyFirstThree(now);
    TallyStep(xs, 3, map[Others := 2930.0], Grocery, 1200.0);
    assert Tally(xs[..4], map[]) == map[Others := 2930.0, Grocery := 1200.0];
    TallyStep(xs, 4, map[Others := 2930.0, Grocery := 1200.0], Personal, 120.0);
    assert Tally(xs[..5], map[]) == map[Others := 2930.0, Grocery := 1200.0, Personal := 120.0];
    TallyStep(xs, 5, map[Others := 2930.0, Grocery := 1200.0, Personal := 120.0], Personal, 80.0);
  }

  /** The tally over the first eight expenses of the fixture. */
  lemma FixtureTallyFirstEight(now: int)
    ensures Tally(Fixture(now)[..8], map[]) == map[Others := 2930.0, Grocery := 1200.0, Personal := 550.0, Gas := 450.0]
  {
    var xs := Fixture(now);
    FixtureTallyFirstSix(now);
    TallyStep(xs, 6, map[Others := 2930.0, Grocery := 1200.0, Personal := 200.0], Gas, 450.0);
    assert Tally(xs[..7], map[]) == map[Others := 2930.0, Grocery := 1200.0, Personal := 200.0, Gas := 450.0];
    TallyStep(xs, 7, map[Others := 2930.0, Grocery := 1200.0, Personal := 200.0, Gas := 450.0], Personal, 350.0);
  }

  /** The tally over the first ten expenses of the fixture. */
  lemma FixtureTallyFirstTen(now: int)
    ensures Tally(Fixture(now)[..10], map[]) == map[Others := 4730.0, Grocery := 1200.0, Personal := 1050.0, Gas := 450.0]
  {
    var xs := Fixture(now);
    FixtureTallyFirstEight(now);
    TallyStep(xs, 8, map[Others := 2930.0, Grocery := 1200.0, Personal := 550.0, Gas := 450.0], Others, 1800.0);
    assert Tally(xs[..9], map[]) == map[Others := 4730.0, Grocery := 1200.0, Personal := 550.0, Gas := 450.0];
    TallyStep(xs, 9, map[Others := 4730.0, Grocery := 1200.0, Personal := 550.0, Gas := 450.0], Personal, 500.0);
  }

  /** The tally over the first twelve expenses of the fixture. */
  lemma FixtureTallyFirstTwelve(now: int)
    ensures Tally(Fixture(now)[..12], map[]) == map[Others := 4730.0, Grocery := 1200.0, Personal := 1250.0, Gas := 450.0, Snack := 150.0]
  {
    var xs := Fixture(now);
    FixtureTallyFirstTen(now);
    TallyStep(xs, 10, map[Others := 4730.0, Grocery := 1200.0, Personal := 1050.0, Gas := 450.0], Personal, 200.0);
    assert Tally(xs[..11], map[]) == map[Others := 4730.0, Grocery := 1200.0, Personal := 1250.0, Gas := 450.0];
    TallyStep(xs, 11, map[Others := 4730.0, Grocery := 1200.0, Personal := 1250.0, Gas := 450.0], Snack, 150.0);
  }

  /** The fixture's per-category totals. */
  lemma FixtureTally(now: int)
    ensures Tally(Fixture(now), map[]) ==
      map[Others := 4730.0, Grocery := 1200.0, Personal := 1250.0, Gas := 450.0, Snack := 150.0, Pet := 180.0]
  {
    var xs := Fixture(now);
    FixtureTallyFirstTwelve(now);
    TallyStep(xs, 12, map[Others := 4730.0, Grocery := 1200.0, Personal := 1250.0, Gas := 450.0, Snack := 150.0], Pet, 180.0);
    assert xs[..13] == xs;
  }

  /** The fixture adds up to 7960 with the expected per-category totals, so the
      self-check succeeds from any store. */
  lemma FixtureSucceeds(s: Store, now: int)
    ensures AddMarchExpenses(s, now).1.totalAmount == 7960.0
    ensures AddMarchExpenses(s, now).1.categoryTotals ==
      map[Others := 4730.0, Grocery := 1200.0, Personal := 1250.0, Gas := 450.0, Snack := 150.0, Pet := 180.0]
    ensures AddMarchExpenses(s, now).1.success
  {
    FixtureReadsBack(s, now);
    FixtureTotal(now);
    FixtureTally(now);
    var t := AddMarchExpenses(s, now).1.categoryTotals;
    forall i | 0 <= i < |ExpectedCategoryTotals|
      ensures ExpectedCategoryTotals[i].0 in t && t[ExpectedCategoryTotals[i].0] == ExpectedCategoryTotals[i].1
    {
    }
  }
}
