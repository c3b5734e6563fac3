/** One expense record, the id counter its two constructors share, and the
    record's comma-separated line. The counter is a process-wide static in
    the tracker; here it is passed in and handed back explicitly. */
module Expenses {
  import opened Text
  import opened Numbers
  import opened Dates

  /** The first id the counter hands out. */
  const FirstId: int := 1

  /** One expense; `amount` is a whole number of cents. */
  datatype Expense = Expense(id: int, name: string, amount: int, date: Date, category: string)

  /** A constructed expense together with the counter value after it. */
  datatype Created = Created(expense: Expense, nextId: int)

  /** The counter after an expense with `id` has been restored: past `id`,
      and never lower than before. */
  function AdvancePast(counter: int, id: int): (next: int)
    ensures next >= counter && next > id
    ensures next == counter || next == id + 1
  {
    if id >= counter then id + 1 else counter
  }

  /** The auto-id constructor: the expense takes the current counter value,
      and the counter moves on by one. */
  function NewExpense(nextId: int, name: string, amount: int, date: Date, category: string): (r: Created)
    ensures r.expense.id == nextId && r.nextId == nextId + 1
    ensures r.expense.name == name && r.expense.amount == amount
    ensures r.expense.date == date && r.expense.category == category
  {
    Created(Expense(nextId, name, amount, date, category), nextId + 1)
  }

  /** The restoring constructor: the expense keeps the id it was stored with,
      and the counter is moved past that id. */
  function RestoreExpense(nextId: int, id: int, name: string, amount: int, date: Date, category: string): (r: Created)
    ensures r.expense.id == id
    ensures r.expense.name == name && r.expense.amount == amount
    ensures r.expense.date == date && r.expense.category == category
    ensures r.nextId >= nextId && r.nextId > id
    ensures r.nextId == nextId || r.nextId == id + 1
  {
    Created(Expense(id, name, amount, date, category), AdvancePast(nextId, id))
  }

  // ---------------------------------------------------------------------
  // Setters: each replaces its own field; the id has none

  function SetName(e: Expense, name: string): (r: Expense)
    ensures r.name == name
    ensures r.id == e.id && r.amount == e.amount && r.date == e.date && r.category == e.category
  {
    e.(name := name)
  }

  function SetAmount(e: Expense, amount: int): (r: Expense)
    ensures r.amount == amount
    ensures r.id == e.id && r.name == e.name && r.date == e.date && r.category == e.category
  {
    e.(amount := amount)
  }

  function SetDate(e: Expense, date: Date): (r: Expense)
    ensures r.date == date
    ensures r.id == e.id && r.name == e.name && r.amount == e.amount && r.category == e.category
  {
    e.(date := date)
  }

  function SetCategory(e: Expense, category: string): (r: Expense)
    ensures r.category == category
    ensures r.id == e.id && r.name == e.name && r.amount == e.amount && r.date == e.date
  {
    e.(category := category)
  }

  // ---------------------------------------------------------------------
  // The stored line

  /** The five fields of a stored expense, in file order. */
  function CsvFields(e: Expense): seq<string> {
    [IntToString(e.id), e.name, FormatAmount(e.amount), FormatDate(e.date), e.category]
  }

  lemma NumbersHaveNoComma(e: Expense)
    ensures ',' !in IntToString(e.id)
    ensures ',' !in FormatAmount(e.amount)
  {
    var a := FormatAmount(e.amount);
    assert forall k :: 0 <= k < |a| ==> IsNumeral(a[k]);
  }

  /** LocalDate.toString writes digits, '-' and '+' only, for every year. */
  lemma DateHasNoComma(d: Date)
    ensures ',' !in FormatDate(d)
  {
    var y := FormatYear(d.year);
    var m := FormatTwoDigits(d.month);
    var dd := FormatTwoDigits(d.day);
    assert ',' !in y && ',' !in m && ',' !in dd;
    assert FormatDate(d) == y + "-" + m + "-" + dd;
  }

  /** AsCsvLine: id, name, amount, date and category, each followed by a
      comma except the last. */
  function CsvLine(e: Expense): string
  {
    IntToString(e.id) + "," + e.name + "," + FormatAmount(e.amount) + ","
      + FormatDate(e.date) + "," + e.category
  }

  lemma CsvLineIsJoin(e: Expense)
    ensures CsvLine(e) == Join(CsvFields(e), ',')
  {
    JoinFive(IntToString(e.id), e.name, FormatAmount(e.amount), FormatDate(e.date), e.category, ',');
  }

  /** With a comma-free name and category the line holds exactly four commas,
      and cutting it at them gives back id, name, amount, date and category
      in that order, whatever the date. */
  lemma CsvLineFieldOrder(e: Expense)
    requires ',' !in e.name && ',' !in e.category
    ensures multiset(CsvLine(e))[','] == 4
    ensures SplitFields(CsvLine(e), ',') == CsvFields(e)
  {
    NumbersHaveNoComma(e);
    DateHasNoComma(e.date);
    CsvLineIsJoin(e);
    SplitFieldsJoin(CsvFields(e), ',');
    SeparatorCountOfJoin(CsvFields(e), ',');
  }

  // ---------------------------------------------------------------------
  // Any interleaving of the two constructors

  /** One constructor call, with the arguments it was given. */
  datatype Construction =
    | Auto(name: string, amount: int, date: Date, category: string)
    | Restore(id: int, name: string, amount: int, date: Date, category: string)

  /** The expenses made by a sequence of constructor calls and the counter after them. */
  datatype Batch = Batch(expenses: seq<Expense>, nextId: int)

  /** Runs the constructor calls in order from counter `start`. Every id
      ends up below the final counter, restored ids are kept, and each
      auto-assigned id is above the start and above every id assigned or
      restored before it. */
  function ConstructAll(start: int, calls: seq<Construction>): (r: Batch)
    ensures |r.expenses| == |calls|
    ensures r.nextId >= start
    ensures forall i :: 0 <= i < |calls| ==> r.expenses[i].id < r.nextId
    ensures forall i :: 0 <= i < |calls| && calls[i].Restore? ==> r.expenses[i].id == calls[i].id
    ensures forall i :: 0 <= i < |calls| && calls[i].Auto? ==> r.expenses[i].id >= start
    ensures forall i, j :: 0 <= j < i < |calls| && calls[i].Auto? ==> r.expenses[j].id < r.expenses[i].id
    decreases |calls|
  {
    if |calls| == 0 then Batch([], start)
    else
      var before := ConstructAll(start, calls[..|calls| - 1]);
      var made := match calls[|calls| - 1]
        case Auto(name, amount, date, category) =>
          NewExpense(before.nextId, name, amount, date, category)
        case Restore(id, name, amount, date, category) =>
          RestoreExpense(before.nextId, id, name, amount, date, category);
      Batch(before.expenses + [made.expense], made.nextId)
  }

  /** No auto-assigned id repeats an id assigned or restored before it. */
  lemma AutoIdsAreFresh(start: int, calls: seq<Construction>, i: nat, j: nat)
    requires j < i < |calls| && calls[i].Auto?
    ensures ConstructAll(start, calls).expenses[i].id != ConstructAll(start, calls).expenses[j].id
  {
  }

  // ---------------------------------------------------------------------
  // The counter as a Java int

  /** Two's-complement wrap-around of a Java int operation. */
  function Wrap32(x: int): (r: int)
    ensures IsInt32(r)
    ensures IsInt32(x) ==> r == x
  {
    (x - MinInt32) % 0x1_0000_0000 + MinInt32
  }

  /** The restoring constructor's counter update as the tracker computes it,
      in int arithmetic: `id + 1` overflows when `id` is the largest int. */
  function AdvancePastAsWritten(counter: int, id: int): (next: int)
    requires IsInt32(counter) && IsInt32(id)
    ensures IsInt32(next)
    ensures id < MaxInt32 ==> next == AdvancePast(counter, id)
  {
    if id >= counter then Wrap32(id + 1) else counter
  }

  /** Restoring the largest int wraps the counter to the smallest one, so
      the next auto id lies below the restored id; after restoring the
      smallest int first, that next id is a duplicate of it. */
  lemma AdvancePastAsWrittenWraps()
    ensures AdvancePastAsWritten(FirstId, MaxInt32) == MinInt32 < MaxInt32
    ensures AdvancePastAsWritten(AdvancePastAsWritten(FirstId, MinInt32), MaxInt32) == MinInt32
  {
  }

  /** The auto-id constructor as the tracker computes it: `nextId++` in int
      arithmetic wraps once the counter has reached the largest int. */
  function NewExpenseAsWritten(nextId: int, name: string, amount: int, date: Date, category: string): (r: Created)
    requires IsInt32(nextId)
    ensures IsInt32(r.nextId)
    ensures nextId < MaxInt32 ==> r == NewExpense(nextId, name, amount, date, category)
  {
    Created(Expense(nextId, name, amount, date, category), Wrap32(nextId + 1))
  }

  /** One stored line with id 2147483646 moves the counter to the largest int
      without overflow; the next add takes that id and wraps the counter, so
      the add after it gets -2147483648, below every id handed out before. */
  lemma NewExpenseAsWrittenWraps(name: string, amount: int, date: Date, category: string)
    ensures var restored := AdvancePastAsWritten(FirstId, MaxInt32 - 1);
      var first := NewExpenseAsWritten(restored, name, amount, date, category);
      var second := NewExpenseAsWritten(first.nextId, name, amount, date, category);
      && restored == MaxInt32
      && first.expense.id == MaxInt32 && first.nextId == MinInt32
      && second.expense.id == MinInt32 < MaxInt32 - 1
  {
  }
}
