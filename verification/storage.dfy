/** The effect of each ledger operation on the in-memory expense list, with
    the console prompts taken away: every operation receives the values the
    user typed (or, for amounts, the number they parsed to). */
module Storage {
  import opened Results
  import opened Text
  import opened Dates
  import opened Expenses

  /** The expense list in insertion order, and the id counter. */
  datatype Ledger = Ledger(expenses: seq<Expense>, nextId: int)

  /** The state before anything is loaded: no expenses, counter at its start value. */
  function StartLedger(): Ledger {
    Ledger([], FirstId)
  }

  /** Every id in the list lies below the counter, so the next auto id is new. */
  predicate IdsBelowCounter(l: Ledger) {
    forall i :: 0 <= i < |l.expenses| ==> l.expenses[i].id < l.nextId
  }

  predicate DistinctIds(s: seq<Expense>) {
    forall i, j :: 0 <= i < j < |s| ==> s[i].id != s[j].id
  }

  /** Why an operation made no change. */
  datatype StoreError =
    | EmptyName          // the trimmed description is empty
    | NonPositiveAmount  // the amount is zero or negative
    | EmptyCategory      // the trimmed category is empty
    | NoExpenses         // update or delete on an empty list
    | Cancelled          // 0 entered as the position to update
    | InvalidSelection   // a position outside 1..size
    | InvalidMonth       // a month outside 1..12
    | NoMatches          // no expense has the category asked for

  // ---------------------------------------------------------------------
  // Add

  /** The date of a new expense: the typed date when it parses, otherwise
      (empty or malformed input) today's date. */
  function DateOrToday(input: string, today: Date): (d: Date)
    ensures ParseDate(Trim(input)).Some? ==> d == ParseDate(Trim(input)).value
    ensures ParseDate(Trim(input)).None? ==> d == today
    ensures IsFullDate(today) ==> IsFullDate(d)
  {
    match ParseDate(Trim(input))
    case Some(d) => d
    case None => today
  }

  /** addExpense: name and category are trimmed and must not be empty, the
      amount must be positive; the new expense takes the next auto id and
      goes to the end of the list. */
  function AddExpense(l: Ledger, name: string, amount: int, dateInput: string, category: string, today: Date)
    : (r: Result<Ledger, StoreError>)
    ensures r.Success? <==> Trim(name) != "" && amount > 0 && Trim(category) != ""
    ensures Trim(name) == "" ==> r == Failure(EmptyName)
    ensures Trim(name) != "" && amount <= 0 ==> r == Failure(NonPositiveAmount)
    ensures Trim(name) != "" && amount > 0 && Trim(category) == "" ==> r == Failure(EmptyCategory)
    ensures r.Success? ==>
      && |r.value.expenses| == |l.expenses| + 1
      && r.value.expenses[..|l.expenses|] == l.expenses
      && r.value.expenses[|l.expenses|] == Expense(l.nextId, Trim(name), amount, DateOrToday(dateInput, today), Trim(category))
      && r.value.nextId == l.nextId + 1
  {
    var trimmedName := Trim(name);
    var trimmedCategory := Trim(category);
    if trimmedName == "" then Failure(EmptyName)
    else if amount <= 0 then Failure(NonPositiveAmount)
    else if trimmedCategory == "" then Failure(EmptyCategory)
    else
      var made := NewExpense(l.nextId, trimmedName, amount, DateOrToday(dateInput, today), trimmedCategory);
      Success(Ledger(l.expenses + [made.expense], made.nextId))
  }

  /** Adding keeps every id below the counter, gives the new expense an id no
      earlier expense has, and so keeps distinct ids distinct. */
  lemma AddAssignsFreshId(l: Ledger, name: string, amount: int, dateInput: string, category: string, today: Date)
    requires IdsBelowCounter(l)
    requires AddExpense(l, name, amount, dateInput, category, today).Success?
    ensures var l' := AddExpense(l, name, amount, dateInput, category, today).value;
      && IdsBelowCounter(l')
      && (forall i :: 0 <= i < |l.expenses| ==> l.expenses[i].id != l'.expenses[|l.expenses|].id)
      && (DistinctIds(l.expenses) ==> DistinctIds(l'.expenses))
  {
    var l' := AddExpense(l, name, amount, dateInput, category, today).value;
    var n := |l.expenses|;
    assert l'.expenses == l.expenses + [l'.expenses[n]] by {
      assert l'.expenses == l'.expenses[..n] + [l'.expenses[n]];
    }
    AppendAtCounter(l, l'.expenses[n]);
  }

  /** Appending an expense whose id is the counter, and moving the counter
      on by one, keeps ids below the counter and distinct. */
  lemma AppendAtCounter(l: Ledger, e: Expense)
    requires IdsBelowCounter(l) && e.id == l.nextId
    ensures IdsBelowCounter(Ledger(l.expenses + [e], l.nextId + 1))
    ensures forall i :: 0 <= i < |l.expenses| ==> l.expenses[i].id != e.id
    ensures DistinctIds(l.expenses) ==> DistinctIds(l.expenses + [e])
  {
  }

  // ---------------------------------------------------------------------
  // Update

  /** updateExpenseData: a blank description, an empty amount or an empty or
      malformed date keeps the current value; otherwise the new value is
      stored. The id and the category are never touched, and a new amount is
      not checked for positivity. */
  function UpdateExpenseData(e: Expense, nameInput: string, amount: Option<int>, dateInput: string): (r: Expense)
    ensures r.id == e.id && r.category == e.category
    ensures IsBlank(Trim(nameInput)) ==> r.name == e.name
    ensures !IsBlank(Trim(nameInput)) ==> r.name == Trim(nameInput)
    ensures amount.None? ==> r.amount == e.amount
    ensures amount.Some? ==> r.amount == amount.value
    ensures ParseDate(Trim(dateInput)).None? ==> r.date == e.date
    ensures ParseDate(Trim(dateInput)).Some? ==> r.date == ParseDate(Trim(dateInput)).value
  {
    var newName := Trim(nameInput);
    var e1 := if IsBlank(newName) then e else SetName(e, newName);
    var e2 := match amount
      case None => e1
      case Some(a) => SetAmount(e1, a);
    match ParseDate(Trim(dateInput))
    case None => e2
    case Some(d) => SetDate(e2, d)
  }

  /** Pressing Enter at every prompt leaves the expense exactly as it was. */
  lemma UpdateWithNoInputKeepsExpense(e: Expense)
    ensures UpdateExpenseData(e, "", None, "") == e
  {
    assert |Trim("")| == 0;
    assert IsBlank(Trim(""));
    assert ParseDate(Trim("")).None?;
  }

  /** updateExpense: positions are 1-based; 0 cancels; the chosen expense is
      edited in place and every other one, the order and the counter stay. */
  function UpdateExpense(l: Ledger, choice: int, nameInput: string, amount: Option<int>, dateInput: string)
    : (r: Result<Ledger, StoreError>)
    ensures r.Success? <==> 1 <= choice <= |l.expenses|
    ensures |l.expenses| == 0 ==> r == Failure(NoExpenses)
    ensures |l.expenses| > 0 && choice == 0 ==> r == Failure(Cancelled)
    ensures |l.expenses| > 0 && choice != 0 && !(1 <= choice <= |l.expenses|) ==> r == Failure(InvalidSelection)
    ensures r.Success? ==>
      && |r.value.expenses| == |l.expenses|
      && r.value.nextId == l.nextId
      && r.value.expenses[choice - 1] == UpdateExpenseData(l.expenses[choice - 1], nameInput, amount, dateInput)
      && (forall i :: 0 <= i < |l.expenses| && i != choice - 1 ==> r.value.expenses[i] == l.expenses[i])
  {
    if |l.expenses| == 0 then Failure(NoExpenses)
    else if choice == 0 then Failure(Cancelled)
    else if !(1 <= choice <= |l.expenses|) then Failure(InvalidSelection)
    else
      var edited := UpdateExpenseData(l.expenses[choice - 1], nameInput, amount, dateInput);
      Success(l.(expenses := l.expenses[choice - 1 := edited]))
  }

  /** Updating keeps the ids of the list as they were, position by position. */
  lemma UpdateKeepsIds(l: Ledger, choice: int, nameInput: string, amount: Option<int>, dateInput: string)
    requires UpdateExpense(l, choice, nameInput, amount, dateInput).Success?
    ensures var l' := UpdateExpense(l, choice, nameInput, amount, dateInput).value;
      forall i :: 0 <= i < |l.expenses| ==> l'.expenses[i].id == l.expenses[i].id
  {
    var l' := UpdateExpense(l, choice, nameInput, amount, dateInput).value;
    var k := choice - 1;
    assert l'.expenses[k] == UpdateExpenseData(l.expenses[k], nameInput, amount, dateInput);
  }

  // ---------------------------------------------------------------------
  // Delete

  /** deleteExpense: removes the expense at 1-based position `choice`; the
      others keep their relative order and the counter is not rewound. */
  function DeleteExpense(l: Ledger, choice: int): (r: Result<Ledger, StoreError>)
    ensures r.Success? <==> 1 <= choice <= |l.expenses|
    ensures |l.expenses| == 0 ==> r == Failure(NoExpenses)
    ensures |l.expenses| > 0 && !(1 <= choice <= |l.expenses|) ==> r == Failure(InvalidSelection)
    ensures r.Success? ==>
      && |r.value.expenses| == |l.expenses| - 1
      && r.value.nextId == l.nextId
      && (forall i :: 0 <= i < choice - 1 ==> r.value.expenses[i] == l.expenses[i])
      && (forall i :: choice - 1 <= i < |r.value.expenses| ==> r.value.expenses[i] == l.expenses[i + 1])
  {
    if |l.expenses| == 0 then Failure(NoExpenses)
    else if !(1 <= choice <= |l.expenses|) then Failure(InvalidSelection)
    else Success(l.(expenses := l.expenses[..choice - 1] + l.expenses[choice..]))
  }

  /** Deleting takes away exactly the chosen expense, and keeps ids below the
      counter and distinct. */
  lemma DeleteRemovesExactlyOne(l: Ledger, choice: int)
    requires DeleteExpense(l, choice).Success?
    ensures var l' := DeleteExpense(l, choice).value;
      && multiset(l'.expenses) + multiset{l.expenses[choice - 1]} == multiset(l.expenses)
      && (IdsBelowCounter(l) ==> IdsBelowCounter(l'))
      && (DistinctIds(l.expenses) ==> DistinctIds(l'.expenses))
  {
    var s := l.expenses;
    var k := choice - 1;
    assert s == s[..k] + [s[k]] + s[k + 1..];
    assert DeleteExpense(l, choice).value.expenses == s[..k] + s[k + 1..];
  }

  // ---------------------------------------------------------------------
  // Queries

  /** A count of expenses and the sum of their amounts. */
  datatype Totals = Totals(count: nat, total: int)

  function SumAmounts(s: seq<Expense>): int
  {
    if |s| == 0 then 0 else SumAmounts(s[..|s| - 1]) + s[|s| - 1].amount
  }

  /** The totals of a list: its length and the sum of its amounts. */
  function TotalsOf(s: seq<Expense>): Totals {
    Totals(|s|, SumAmounts(s))
  }

  /** The expenses satisfying `p`, in list order. */
  function Filter(s: seq<Expense>, p: Expense -> bool): (r: seq<Expense>)
    ensures |r| <= |s|
    ensures forall e :: e in r <==> e in s && p(e)
  {
    if |s| == 0 then []
    else Filter(s[..|s| - 1], p) + (if p(s[|s| - 1]) then [s[|s| - 1]] else [])
  }

  /** The sum over two lists joined is the sum of the two sums. */
  lemma {:induction false} SumAmountsAppend(s: seq<Expense>, t: seq<Expense>)
    ensures SumAmounts(s + t) == SumAmounts(s) + SumAmounts(t)
    decreases |t|
  {
    if |t| == 0 {
      assert s + t == s;
    } else {
      var u := s + t;
      assert u[..|u| - 1] == s + t[..|t| - 1];
      assert u[|u| - 1] == t[|t| - 1];
      SumAmountsAppend(s, t[..|t| - 1]);
    }
  }

  /** Adding an expense raises the count by one and the total by its amount. */
  lemma AddRaisesTotals(l: Ledger, name: string, amount: int, dateInput: string, category: string, today: Date)
    requires AddExpense(l, name, amount, dateInput, category, today).Success?
    ensures var l' := AddExpense(l, name, amount, dateInput, category, today).value;
      TotalsOf(l'.expenses) == Totals(|l.expenses| + 1, SumAmounts(l.expenses) + amount)
  {
    var l' := AddExpense(l, name, amount, dateInput, category, today).value;
    assert l'.expenses[..|l'.expenses| - 1] == l.expenses;
  }

  /** Deleting an expense lowers the count by one and the total by its amount. */
  lemma DeleteLowersTotals(l: Ledger, choice: int)
    requires DeleteExpense(l, choice).Success?
    ensures var l' := DeleteExpense(l, choice).value;
      TotalsOf(l'.expenses) == Totals(|l.expenses| - 1, SumAmounts(l.expenses) - l.expenses[choice - 1].amount)
  {
    var s := l.expenses;
    var k := choice - 1;
    assert s == (s[..k] + [s[k]]) + s[k + 1..];
    assert DeleteExpense(l, choice).value.expenses == s[..k] + s[k + 1..];
    SumAmountsAppend(s[..k] + [s[k]], s[k + 1..]);
    SumAmountsAppend(s[..k], s[k + 1..]);
    assert (s[..k] + [s[k]])[..k] == s[..k];
  }

  /** viewExpenseSummary: nothing on an empty list, otherwise the number of
      expenses and the sum of all amounts, accumulated in list order. */
  method Summary(expenses: seq<Expense>) returns (r: Option<Totals>)
    ensures r.None? <==> |expenses| == 0
    ensures r.Some? ==> r.value == TotalsOf(expenses)
  {
    if |expenses| == 0 {
      return None;
    }
    var count: nat := 0;
    var total := 0;
    for i := 0 to |expenses|
      invariant count == i
      invariant total == SumAmounts(expenses[..i])
    {
      assert expenses[..i + 1][..i] == expenses[..i];
      total := total + expenses[i].amount;
      count := count + 1;
    }
    assert expenses[..|expenses|] == expenses;
    return Some(Totals(count, total));
  }

  /** One pass over the list collecting the expenses that satisfy `p`, their
      number and the sum of their amounts. */
  method Tally(expenses: seq<Expense>, p: Expense -> bool) returns (matches: seq<Expense>, totals: Totals)
    ensures matches == Filter(expenses, p)
    ensures totals == TotalsOf(matches)
  {
    matches := [];
    var count: nat := 0;
    var total := 0;
    for i := 0 to |expenses|
      invariant matches == Filter(expenses[..i], p)
      invariant count == |matches| && total == SumAmounts(matches)
    {
      assert expenses[..i + 1][..i] == expenses[..i];
      if p(expenses[i]) {
        assert (matches + [expenses[i]])[..|matches|] == matches;
        matches := matches + [expenses[i]];
        count := count + 1;
        total := total + expenses[i].amount;
      }
    }
    assert expenses[..|expenses|] == expenses;
    totals := Totals(count, total);
  }

  /** An expense dated in the given year and month. */
  function InMonth(year: int, month: int): Expense -> bool {
    (e: Expense) => e.date.year == year && e.date.month == month
  }

  /** viewExpenseSummaryForSpecificMonth: months outside 1..12 are refused;
      otherwise the count and total of exactly the expenses dated in that
      month of the current year (zero of each when there are none). */
  method MonthSummary(expenses: seq<Expense>, currentYear: int, month: int) returns (r: Result<Totals, StoreError>)
    ensures r.Failure? <==> !(1 <= month <= 12)
    ensures r.Failure? ==> r.error == InvalidMonth
    ensures r.Success? ==> r.value == TotalsOf(Filter(expenses, InMonth(currentYear, month)))
  {
    if !(1 <= month <= 12) {
      return Failure(InvalidMonth);
    }
    var _, totals := Tally(expenses, InMonth(currentYear, month));
    return Success(totals);
  }

  /** The month filter keeps an expense exactly when its year and month match. */
  lemma MonthFilterIsExact(expenses: seq<Expense>, year: int, month: int, e: Expense)
    ensures e in Filter(expenses, InMonth(year, month)) <==>
      e in expenses && e.date.year == year && e.date.month == month
  {
  }

  /** An expense whose category equals `query` ignoring case. */
  function HasCategory(query: string): Expense -> bool {
    (e: Expense) => EqualsIgnoreCase(e.category, query)
  }

  /** The expenses of one category and their totals. */
  datatype CategoryReport = CategoryReport(matches: seq<Expense>, totals: Totals)

  /** viewExpensesByCategory: the trimmed query is compared with each
      category ignoring case; no match is reported as such, otherwise the
      matching expenses in list order with their count and total. */
  method CategorySummary(expenses: seq<Expense>, query: string) returns (r: Result<CategoryReport, StoreError>)
    ensures r.Failure? <==> |Filter(expenses, HasCategory(Trim(query)))| == 0
    ensures r.Failure? ==> r.error == NoMatches
    ensures r.Success? ==> r.value.matches == Filter(expenses, HasCategory(Trim(query)))
    ensures r.Success? ==> r.value.totals == TotalsOf(r.value.matches)
  {
    var matches, totals := Tally(expenses, HasCategory(Trim(query)));
    if totals.count == 0 {
      return Failure(NoMatches);
    }
    return Success(CategoryReport(matches, totals));
  }

  /** The category filter keeps an expense exactly when its category and the
      trimmed query agree after lower-casing. */
  lemma CategoryFilterIgnoresCase(expenses: seq<Expense>, query: string, e: Expense)
    ensures e in Filter(expenses, HasCategory(Trim(query))) <==>
      e in expenses && LowerCase(e.category) == LowerCase(Trim(query))
  {
    EqualsIgnoreCaseIffSameLowerCase(e.category, Trim(query));
  }
}
