/** The records the application stores: expenses, incomes and travels. */
module Records {
  import opened Wrappers

  /** The expense categories, in the order the category picker lists them. */
  datatype Category = Snack | Grocery | Gas | Pet | Personal | Others {
    /** The identifier stored in an expense's `category` field. */
    function Id(): string {
      match this
      case Snack => "snack"
      case Grocery => "grocery"
      case Gas => "gas"
      case Pet => "pet"
      case Personal => "personal"
      case Others => "others"
    }
  }

  const AllCategories: seq<Category> := [Snack, Grocery, Gas, Pet, Personal, Others]

  /** `'fixed' | 'variable'` (the field is called `type` in the application). */
  datatype ExpenseType = Fixed | Variable

  /** Position of one record in an installment group. */
  datatype Installments = Installments(total: int, current: int, groupId: string)

  datatype Expense = Expense(
    id: int,
    category: Category,
    description: string,
    amount: real,
    kind: ExpenseType,
    installments: Option<Installments>)

  /** The installment group an expense belongs to, if any. */
  function GroupOf(e: Expense): Option<string> {
    match e.installments
    case Some(inst) => Some(inst.groupId)
    case None => None
  }

  datatype IncomeSource = IncomeSource(id: int, name: string, icon: string, amount: real, color: string)

  /** A one-off addition to one month's income. */
  datatype Extra = Extra(id: int, description: string, amount: real)

  /** The extras of one calendar month (`month` is 0-based). */
  datatype MonthExtras = MonthExtras(month: int, year: int, extras: seq<Extra>)

  datatype Income = Income(
    id: int,
    person: string,
    sources: seq<IncomeSource>,
    monthlyExtras: seq<MonthExtras>)

  datatype TravelExpense = TravelExpense(
    id: int,
    category: string,
    description: string,
    amount: real,
    date: string,
    isPaid: bool)

  datatype ActivityCategory = Passeio | Refeicao | Transporte | Hospedagem | Outro {
    /** The identifier stored in an activity's `category` field. */
    function Id(): string {
      match this
      case Passeio => "passeio"
      case Refeicao => "refeicao"
      case Transporte => "transporte"
      case Hospedagem => "hospedagem"
      case Outro => "outro"
    }
  }

  /** One itinerary entry. Times are milliseconds since the epoch (UTC). */
  datatype TravelActivity = TravelActivity(
    id: int,
    title: string,
    category: ActivityCategory,
    startDateTime: int,
    endDateTime: Option<int>,
    location: string,
    notes: Option<string>,
    estimatedCost: Option<real>,
    completed: bool)

  datatype Budget = Budget(total: real, planned: seq<TravelExpense>, discretionary: real)

  /** A trip. `startDate` and `endDate` are day numbers (days since the epoch). */
  datatype Travel = Travel(
    id: int,
    name: string,
    startDate: int,
    endDate: int,
    budget: Budget,
    expenses: seq<TravelExpense>,
    itinerary: Option<seq<TravelActivity>>)
}
