/** Saving the expense list to its text file and loading it back. The file
    holds one line per expense, `id,name,amount,date,category`, without a
    header and without any quoting of the delimiter. */
module StorageFile {
  import opened Results
  import opened Text
  import opened Numbers
  import opened Dates
  import opened Expenses
  import opened Storage

  // ---------------------------------------------------------------------
  // Save

  /** saveExpenses: one AsCsvLine per expense, in list order. */
  function SaveLines(expenses: seq<Expense>): (lines: seq<string>)
    ensures |lines| == |expenses|
    ensures forall i :: 0 <= i < |expenses| ==> lines[i] == CsvLine(expenses[i])
  {
    seq(|expenses|, i requires 0 <= i < |expenses| => CsvLine(expenses[i]))
  }

  // ---------------------------------------------------------------------
  // File text

  predicate IsLineBreak(c: char) {
    c == '\n' || c == '\r'
  }

  predicate HasLineBreak(s: string) {
    '\n' in s || '\r' in s
  }

  /** PrintWriter.println after every line, with "\n" as the separator;
      the file is rewritten from the start. */
  function WriteText(lines: seq<string>): string
  {
    if |lines| == 0 then "" else lines[0] + "\n" + WriteText(lines[1..])
  }

  /** The position of the first line terminator. */
  function FirstLineBreak(s: string): (k: nat)
    requires HasLineBreak(s)
    ensures k < |s| && IsLineBreak(s[k])
    ensures !HasLineBreak(s[..k])
  {
    if IsLineBreak(s[0]) then 0
    else
      assert s == [s[0]] + s[1..];
      var k := 1 + FirstLineBreak(s[1..]);
      assert s[..k] == [s[0]] + s[1..][..k - 1];
      k
  }

  /** After a prefix without terminators, the first terminator is the one that follows it. */
  lemma FirstLineBreakAfterPrefix(prefix: string, rest: string)
    requires !HasLineBreak(prefix)
    ensures HasLineBreak(prefix + ['\n'] + rest)
    ensures FirstLineBreak(prefix + ['\n'] + rest) == |prefix|
  {
    var s := prefix + ['\n'] + rest;
    assert s[|prefix|] == '\n';
    var k := FirstLineBreak(s);
    assert forall j :: 0 <= j < |prefix| ==> s[j] == prefix[j];
    assert k <= |prefix| ==> s[..k] == prefix[..k];
  }

  /** BufferedReader.readLine until it returns null: a line ends at "\n",
      "\r" or "\r\n", and text after the last terminator is one more line
      when it is not empty. */
  function ReadLines(text: string): (lines: seq<string>)
    ensures forall i :: 0 <= i < |lines| ==> !HasLineBreak(lines[i])
    decreases |text|
  {
    if |text| == 0 then []
    else if !HasLineBreak(text) then [text]
    else
      var k := FirstLineBreak(text);
      var rest := if text[k] == '\r' && k + 1 < |text| && text[k + 1] == '\n' then text[k + 2..] else text[k + 1..];
      [text[..k]] + ReadLines(rest)
  }

  /** A line without terminators followed by "\n" is read as that line,
      and reading goes on right after the "\n". */
  lemma ReadLinesAfterFirst(first: string, rest: string)
    requires !HasLineBreak(first)
    ensures ReadLines(first + "\n" + rest) == [first] + ReadLines(rest)
  {
    var text := first + "\n" + rest;
    assert text == first + ['\n'] + rest;
    FirstLineBreakAfterPrefix(first, rest);
    var k := FirstLineBreak(text);
    assert text[k] == '\n';
    assert text[..k] == first && text[k + 1..] == rest;
  }

  /** Reading back what was written gives the same lines, when none of them
      holds a line terminator. */
  lemma {:induction false} ReadLinesOfWriteText(lines: seq<string>)
    requires forall i :: 0 <= i < |lines| ==> !HasLineBreak(lines[i])
    ensures ReadLines(WriteText(lines)) == lines
    decreases |lines|
  {
    if |lines| > 0 {
      ReadLinesAfterFirst(lines[0], WriteText(lines[1..]));
      ReadLinesOfWriteText(lines[1..]);
      assert lines == [lines[0]] + lines[1..];
    }
  }

  // ---------------------------------------------------------------------
  // Load

  /** The field whose parse threw. */
  datatype Field = IdField | AmountField | DateField

  /** A field that passed the five-part check but does not parse: the
      exception escapes the read loop, so the whole load fails. */
  datatype LoadError = Malformed(line: nat, field: Field)

  /** What the read loop does with one line. */
  datatype LineReading =
    | Skip
    | Restored(id: int, name: string, amount: int, date: Date, category: string)
    | Bad(field: Field)

  /** One line of loadExpenses: split on ',' with String.split, then read
      as parts. */
  function ReadLine(line: string): LineReading {
    ReadParts(JavaSplit(line, ','))
  }

  /** The parts of one line: skipped when there are fewer than five;
      otherwise the first five are trimmed and parsed in the order id,
      amount, date, and any further parts are ignored. */
  function ReadParts(parts: seq<string>): (r: LineReading)
    ensures r.Skip? <==> |parts| < 5
    ensures r.Restored? ==>
      && ParseInt32(Trim(parts[0])) == Some(r.id)
      && r.name == Trim(parts[1])
      && ParseAmount(Trim(parts[2])) == Some(r.amount)
      && ParseDate(Trim(parts[3])) == Some(r.date)
      && r.category == Trim(parts[4])
    ensures r.Restored? <==> (|parts| >= 5 && ParseInt32(Trim(parts[0])).Some?
      && ParseAmount(Trim(parts[2])).Some? && ParseDate(Trim(parts[3])).Some?)
    ensures r.Bad? ==> |parts| >= 5
    ensures r.Bad? ==> (r.field == IdField <==> ParseInt32(Trim(parts[0])).None?)
    ensures r.Bad? ==> (r.field == AmountField <==> ParseInt32(Trim(parts[0])).Some? && ParseAmount(Trim(parts[2])).None?)
  {
    if |parts| < 5 then Skip
    else
      match ParseInt32(Trim(parts[0]))
      case None => Bad(IdField)
      case Some(id) =>
        match ParseAmount(Trim(parts[2]))
        case None => Bad(AmountField)
        case Some(amount) =>
          match ParseDate(Trim(parts[3]))
          case None => Bad(DateField)
          case Some(date) => Restored(id, Trim(parts[1]), amount, date, Trim(parts[4]))
  }

  /** A saved expense with an empty category ends its line with a comma;
      the split drops that last empty part, so the line is skipped on load. */
  lemma EmptyCategoryLineIsSkipped(e: Expense)
    requires ',' !in e.name && e.category == ""
    ensures ReadLine(CsvLine(e)) == Skip
  {
    var fields := CsvFields(e);
    NumbersHaveNoComma(e);
    DateHasNoComma(e.date);
    assert FormatDate(e.date) != "";
    CsvLineIsJoin(e);
    JavaSplitDropsEmptyLast(fields, ',');
    assert |JavaSplit(CsvLine(e), ',')| == 4;
  }

  /** The effect of one read line on the list loaded so far: a skipped
      line changes nothing, a restored line appends its expense and moves the
      counter past its id, a malformed one fails with its line number. */
  function ApplyReading(before: Ledger, reading: LineReading, lineNumber: nat): (r: Result<Ledger, LoadError>)
    ensures r.Failure? <==> reading.Bad?
    ensures r.Failure? ==> r.error == Malformed(lineNumber, reading.field)
    ensures reading.Skip? ==> r == Success(before)
    ensures reading.Restored? ==>
      && r.value.expenses == before.expenses + [Expense(reading.id, reading.name, reading.amount, reading.date, reading.category)]
      && r.value.nextId >= before.nextId
      && r.value.nextId > reading.id
      && (r.value.nextId == before.nextId || r.value.nextId == reading.id + 1)
  {
    match reading
    case Skip => Success(before)
    case Bad(field) => Failure(Malformed(lineNumber, field))
    case Restored(id, name, amount, date, category) =>
      var made := RestoreExpense(before.nextId, id, name, amount, date, category);
      Success(Ledger(before.expenses + [made.expense], made.nextId))
  }

  /** The read loop of loadExpenses over what each line yields, appending
      to `l`: skipped lines change nothing, each restored line is appended
      with its own id, and the first malformed field aborts the load. The list
      already held is kept as a prefix, the counter only grows, and every
      loaded id ends up below it. */
  function LoadReadings(l: Ledger, readings: seq<LineReading>): (r: Result<Ledger, LoadError>)
    ensures r.Failure? ==> r.error.line < |readings| && readings[r.error.line].Bad?
    ensures r.Success? ==> |l.expenses| <= |r.value.expenses| <= |l.expenses| + |readings|
    ensures r.Success? ==> r.value.expenses[..|l.expenses|] == l.expenses
    ensures r.Success? ==> r.value.nextId >= l.nextId
    ensures r.Success? ==> forall i :: |l.expenses| <= i < |r.value.expenses| ==> r.value.expenses[i].id < r.value.nextId
    ensures r.Success? ==> (r.value.nextId == l.nextId
      || exists i :: |l.expenses| <= i < |r.value.expenses| && r.value.nextId == r.value.expenses[i].id + 1)
    decreases |readings|
  {
    if |readings| == 0 then Success(l)
    else
      var n := |readings| - 1;
      match LoadReadings(l, readings[..n])
      case Failure(error) => Failure(error)
      case Success(before) =>
        var r := ApplyReading(before, readings[n], n);
        assert r.Success? ==> r.value.expenses[..|before.expenses|] == before.expenses;
        assert r.Success? && r.value.nextId != before.nextId ==> r.value.nextId == r.value.expenses[|before.expenses|].id + 1;
        r
  }

  /** The expenses the restored lines describe, in line order; skipped and
      malformed lines contribute nothing. */
  function RestoredExpenses(readings: seq<LineReading>): (es: seq<Expense>)
    ensures |es| <= |readings|
    decreases |readings|
  {
    if |readings| == 0 then []
    else
      var n := |readings| - 1;
      var last := readings[n];
      RestoredExpenses(readings[..n])
        + (if last.Restored? then [Expense(last.id, last.name, last.amount, last.date, last.category)] else [])
  }

  /** What a load amounts to: it succeeds exactly when no line is malformed,
      a failure names the first malformed line, and a success appends the
      restored lines' expenses, in order, to the list held before. */
  lemma LoadReadingsOutcome(l: Ledger, readings: seq<LineReading>)
    ensures LoadReadings(l, readings).Success? <==> forall i :: 0 <= i < |readings| ==> !readings[i].Bad?
    ensures LoadReadings(l, readings).Failure? ==>
      forall j :: 0 <= j < LoadReadings(l, readings).error.line ==> !readings[j].Bad?
    ensures LoadReadings(l, readings).Success? ==>
      LoadReadings(l, readings).value.expenses == l.expenses + RestoredExpenses(readings)
  {
    LoadFailsAtFirstBad(l, readings);
    LoadAppendsRestored(l, readings);
  }

  /** A load fails exactly when some line is malformed, and then at the first one. */
  lemma {:induction false} LoadFailsAtFirstBad(l: Ledger, readings: seq<LineReading>)
    ensures LoadReadings(l, readings).Success? <==> forall i :: 0 <= i < |readings| ==> !readings[i].Bad?
    ensures LoadReadings(l, readings).Failure? ==>
      forall j :: 0 <= j < LoadReadings(l, readings).error.line ==> !readings[j].Bad?
    decreases |readings|
  {
    if |readings| > 0 {
      var n := |readings| - 1;
      var prefix := readings[..n];
      LoadFailsAtFirstBad(l, prefix);
      assert forall j :: 0 <= j < n ==> prefix[j] == readings[j];
      match LoadReadings(l, prefix)
      case Failure(error) =>
        assert LoadReadings(l, readings) == Failure(error);
        assert prefix[error.line].Bad?;
      case Success(before) =>
        assert LoadReadings(l, readings) == ApplyReading(before, readings[n], n);
    }
  }

  /** A successful load appends the restored lines' expenses, in order. */
  lemma {:induction false} LoadAppendsRestored(l: Ledger, readings: seq<LineReading>)
    ensures LoadReadings(l, readings).Success? ==>
      LoadReadings(l, readings).value.expenses == l.expenses + RestoredExpenses(readings)
    decreases |readings|
  {
    if |readings| > 0 && LoadReadings(l, readings).Success? {
      var n := |readings| - 1;
      var prefix := readings[..n];
      LoadAppendsRestored(l, prefix);
      var before := LoadReadings(l, prefix).value;
      var last := readings[n];
      assert LoadReadings(l, readings) == ApplyReading(before, last, n);
      var tail := if last.Restored? then [Expense(last.id, last.name, last.amount, last.date, last.category)] else [];
      assert RestoredExpenses(readings) == RestoredExpenses(prefix) + tail;
      SeqAppendAssociates(l.expenses, RestoredExpenses(prefix), tail);
    }
  }

  /** What each line of the file yields, in order. */
  function Readings(lines: seq<string>): (r: seq<LineReading>)
    ensures |r| == |lines|
    ensures forall i :: 0 <= i < |lines| ==> r[i] == ReadLine(lines[i])
  {
    seq(|lines|, i requires 0 <= i < |lines| => ReadLine(lines[i]))
  }

  /** loadExpenses over the lines of the file. */
  function LoadLines(l: Ledger, lines: seq<string>): Result<Ledger, LoadError> {
    LoadReadings(l, Readings(lines))
  }

  /** Loading keeps every id below the counter when that held before. */
  lemma LoadKeepsIdsBelowCounter(l: Ledger, readings: seq<LineReading>)
    requires IdsBelowCounter(l)
    requires LoadReadings(l, readings).Success?
    ensures IdsBelowCounter(LoadReadings(l, readings).value)
  {
    var r := LoadReadings(l, readings).value;
    forall i | 0 <= i < |l.expenses|
      ensures r.expenses[i].id < r.nextId
    {
      assert r.expenses[..|l.expenses|][i] == l.expenses[i];
    }
  }

  /** After a successful start-up load, the next added expense gets an id
      that no loaded expense has, and all ids stay below the counter. */
  lemma AddAfterLoadIsFresh(text: string, name: string, amount: int, dateInput: string, category: string, today: Date)
    requires LoadText(StartLedger(), text).Success?
    requires AddExpense(LoadText(StartLedger(), text).value, name, amount, dateInput, category, today).Success?
    ensures var loaded := LoadText(StartLedger(), text).value;
      var added := AddExpense(loaded, name, amount, dateInput, category, today).value;
      && IdsBelowCounter(added)
      && forall i :: 0 <= i < |loaded.expenses| ==> loaded.expenses[i].id != added.expenses[|loaded.expenses|].id
  {
    LoadKeepsIdsBelowCounter(StartLedger(), Readings(ReadLines(text)));
    var loaded := LoadText(StartLedger(), text).value;
    AddAssignsFreshId(loaded, name, amount, dateInput, category, today);
  }

  /** Reading the file text and loading its lines. */
  function LoadText(l: Ledger, text: string): Result<Ledger, LoadError> {
    LoadLines(l, ReadLines(text))
  }

  /** The text of the file after saving `expenses`. */
  function SaveText(expenses: seq<Expense>): string {
    WriteText(SaveLines(expenses))
  }

  // ---------------------------------------------------------------------
  // Round trip

  /** Text that a save and a load leave as it is: no delimiter, no line
      terminator, nothing trim would remove. */
  predicate IsPlainField(s: string) {
    ',' !in s && !HasLineBreak(s) && IsTrimmed(s)
  }

  /** An expense whose line reads back as the same expense. */
  predicate IsStorable(e: Expense) {
    && IsInt32(e.id)
    && IsFullDate(e.date)
    && IsPlainField(e.name)
    && IsPlainField(e.category)
    && e.category != ""
  }

  lemma NumbersAreTrimmed(e: Expense)
    ensures IsTrimmed(IntToString(e.id))
    ensures IsTrimmed(FormatAmount(e.amount))
  {
  }

  lemma FullDateIsPlain(d: Date)
    requires IsFullDate(d)
    ensures IsTrimmed(FormatDate(d)) && !HasLineBreak(FormatDate(d))
  {
    FormatYearOfFullYear(d.year);
    FormatTwoDigitsValue(d.month);
    FormatTwoDigitsValue(d.day);
    var y := FormatYear(d.year);
    var m := FormatTwoDigits(d.month);
    var dd := FormatTwoDigits(d.day);
    var s := FormatDate(d);
    assert s == y + "-" + m + "-" + dd;
    assert forall k :: 0 <= k < |s| ==> IsDigit(s[k]) || s[k] == '-';
    assert s[0] == y[0] && s[|s| - 1] == dd[1];
  }

  /** The line of a storable expense reads back as that expense's fields. */
  lemma ReadLineOfCsvLine(e: Expense)
    requires IsStorable(e)
    ensures ReadLine(CsvLine(e)) == Restored(e.id, e.name, e.amount, e.date, e.category)
  {
    var fields := CsvFields(e);
    NumbersHaveNoComma(e);
    DateHasNoComma(e.date);
    CsvLineIsJoin(e);
    JavaSplitJoin(fields, ',');
    ReadPartsOfCsvFields(e);
  }

  /** The five fields of a storable expense are read as that expense. */
  lemma ReadPartsOfCsvFields(e: Expense)
    requires IsStorable(e)
    ensures ReadParts(CsvFields(e)) == Restored(e.id, e.name, e.amount, e.date, e.category)
  {
    TrimmedIdParses(e.id);
    TrimmedAmountParses(e.amount);
    TrimmedDateParses(e.date);
    TrimFixesTrimmed(e.name);
    TrimFixesTrimmed(e.category);
    ReadPartsOfParsed(IntToString(e.id), e.name, FormatAmount(e.amount), FormatDate(e.date), e.category,
      e.id, e.amount, e.date);
  }

  /** A written id, trimmed, parses back to the id. */
  lemma TrimmedIdParses(id: int)
    requires IsInt32(id)
    ensures ParseInt32(Trim(IntToString(id))) == Some(id)
  {
    var s := IntToString(id);
    assert IsTrimmed(s);
    TrimFixesTrimmed(s);
    ParseInt32OfIntToString(id);
  }

  /** A written amount, trimmed, parses back to the amount. */
  lemma TrimmedAmountParses(amount: int)
    ensures ParseAmount(Trim(FormatAmount(amount))) == Some(amount)
  {
    var s := FormatAmount(amount);
    assert IsTrimmed(s);
    TrimFixesTrimmed(s);
    ParseAmountOfFormatAmount(amount);
  }

  /** A written full date, trimmed, parses back to the date. */
  lemma TrimmedDateParses(d: Date)
    requires IsFullDate(d)
    ensures ParseDate(Trim(FormatDate(d))) == Some(d)
  {
    FullDateIsPlain(d);
    TrimFixesTrimmed(FormatDate(d));
    ParseFormatDate(d);
  }

  /** Five parts whose id, amount and date parse are restored with those values. */
  lemma ReadPartsOfParsed(p0: string, p1: string, p2: string, p3: string, p4: string,
                          id: int, amount: int, date: Date)
    requires ParseInt32(Trim(p0)) == Some(id)
    requires ParseAmount(Trim(p2)) == Some(amount)
    requires ParseDate(Trim(p3)) == Some(date)
    ensures ReadParts([p0, p1, p2, p3, p4]) == Restored(id, Trim(p1), amount, date, Trim(p4))
  {
    var parts := [p0, p1, p2, p3, p4];
    assert parts[0] == p0 && parts[1] == p1 && parts[2] == p2 && parts[3] == p3 && parts[4] == p4;
  }

  /** Joining fields without terminators, with a separator that is not one,
      gives text without terminators. */
  lemma {:induction false} JoinHasNoLineBreak(fields: seq<string>, sep: char)
    requires !IsLineBreak(sep)
    requires forall i :: 0 <= i < |fields| ==> !HasLineBreak(fields[i])
    ensures !HasLineBreak(Join(fields, sep))
    decreases |fields|
  {
    if |fields| > 1 {
      var rest := Join(fields[1..], sep);
      JoinHasNoLineBreak(fields[1..], sep);
      var s := Join(fields, sep);
      assert s == fields[0] + [sep] + rest;
      forall k | 0 <= k < |s|
        ensures !IsLineBreak(s[k])
      {
        if k < |fields[0]| {
          assert s[k] == fields[0][k];
        } else if k > |fields[0]| {
          assert s[k] == rest[k - |fields[0]| - 1];
        }
      }
    }
  }

  /** Text made of digits, signs and points holds no terminator. */
  lemma NumeralHasNoLineBreak(s: string)
    requires forall k :: 0 <= k < |s| ==> IsNumeral(s[k])
    ensures !HasLineBreak(s)
  {
    assert forall k :: 0 <= k < |s| ==> !IsLineBreak(s[k]);
  }

  /** The line of a storable expense holds no line terminator. */
  lemma CsvLineHasNoLineBreak(e: Expense)
    requires IsStorable(e)
    ensures !HasLineBreak(CsvLine(e))
  {
    var fields := CsvFields(e);
    var a := IntToString(e.id);
    assert forall k :: 0 <= k < |a| ==> IsNumeral(a[k]);
    NumeralHasNoLineBreak(a);
    NumeralHasNoLineBreak(FormatAmount(e.amount));
    FullDateIsPlain(e.date);
    forall i | 0 <= i < |fields|
      ensures !HasLineBreak(fields[i])
    {
      if i == 0 {
        assert fields[i] == a;
      } else if i == 1 {
        assert fields[i] == e.name;
      } else if i == 2 {
        assert fields[i] == FormatAmount(e.amount);
      } else if i == 3 {
        assert fields[i] == FormatDate(e.date);
      } else {
        assert fields[i] == e.category;
      }
    }
    JoinHasNoLineBreak(fields, ',');
    CsvLineIsJoin(e);
  }

  /** Readings that each restore the matching expense load exactly those
      expenses, appended in order. */
  lemma {:induction false} LoadRestoredReadings(l: Ledger, readings: seq<LineReading>, expenses: seq<Expense>)
    requires |readings| == |expenses|
    requires forall i :: 0 <= i < |readings| ==> readings[i] == RestoredAs(expenses[i])
    ensures LoadReadings(l, readings).Success?
    ensures LoadReadings(l, readings).value.expenses == l.expenses + expenses
    decreases |readings|
  {
    if |readings| > 0 {
      var n := |readings| - 1;
      var last := expenses[n];
      LoadRestoredReadings(l, readings[..n], expenses[..n]);
      var before := LoadReadings(l, readings[..n]).value;
      assert LoadReadings(l, readings) == ApplyReading(before, RestoredAs(last), n);
      assert expenses == expenses[..n] + [last];
      SeqAppendAssociates(l.expenses, expenses[..n], [last]);
    }
  }

  /** The reading that restores `e` as it is. */
  function RestoredAs(e: Expense): (r: LineReading)
    ensures r.Restored? && Expense(r.id, r.name, r.amount, r.date, r.category) == e
  {
    Restored(e.id, e.name, e.amount, e.date, e.category)
  }

  lemma SeqAppendAssociates<T>(a: seq<T>, b: seq<T>, c: seq<T>)
    ensures a + (b + c) == (a + b) + c
  {
  }

  /** Loading the saved lines of storable expenses appends exactly those
      expenses, in order. */
  lemma LoadSaveLines(l: Ledger, expenses: seq<Expense>)
    requires forall i :: 0 <= i < |expenses| ==> IsStorable(expenses[i])
    ensures LoadLines(l, SaveLines(expenses)).Success?
    ensures LoadLines(l, SaveLines(expenses)).value.expenses == l.expenses + expenses
  {
    var readings := Readings(SaveLines(expenses));
    forall i | 0 <= i < |readings|
      ensures readings[i] == RestoredAs(expenses[i])
    {
      ReadLineOfCsvLine(expenses[i]);
    }
    LoadRestoredReadings(l, readings, expenses);
  }

  /** The saved text of storable expenses is read back as the saved lines. */
  lemma SavedTextReadsBack(expenses: seq<Expense>)
    requires forall i :: 0 <= i < |expenses| ==> IsStorable(expenses[i])
    ensures ReadLines(SaveText(expenses)) == SaveLines(expenses)
  {
    var lines := SaveLines(expenses);
    forall i | 0 <= i < |lines|
      ensures !HasLineBreak(lines[i])
    {
      CsvLineHasNoLineBreak(expenses[i]);
    }
    ReadLinesOfWriteText(lines);
  }

  /** Saving storable expenses to the file and loading the file into a fresh
      list gives back the same expenses in the same order, with the counter
      at or above its start and above every loaded id. */
  lemma SaveThenLoad(expenses: seq<Expense>, counter: int)
    requires forall i :: 0 <= i < |expenses| ==> IsStorable(expenses[i])
    ensures var r := LoadText(Ledger([], counter), SaveText(expenses));
      && r.Success?
      && r.value.expenses == expenses
      && r.value.nextId >= counter
      && (forall i :: 0 <= i < |expenses| ==> expenses[i].id < r.value.nextId)
      && (r.value.nextId == counter || exists i :: 0 <= i < |expenses| && r.value.nextId == expenses[i].id + 1)
  {
    var start := Ledger([], counter);
    LoadSavedText(start, expenses);
    assert start.expenses + expenses == expenses;
    CounterAfterLoadIntoEmpty(counter, SaveText(expenses), expenses);
  }

  /** Loading the saved text of storable expenses appends exactly those
      expenses, in order. */
  lemma LoadSavedText(l: Ledger, expenses: seq<Expense>)
    requires forall i :: 0 <= i < |expenses| ==> IsStorable(expenses[i])
    ensures LoadText(l, SaveText(expenses)).Success?
    ensures LoadText(l, SaveText(expenses)).value.expenses == l.expenses + expenses
  {
    SavedTextReadsBack(expenses);
    LoadSaveLines(l, expenses);
  }

  /** A successful load of any text into an empty list leaves the counter at
      or above its start, above every loaded id, and at its start or one past
      a loaded id. */
  lemma CounterAfterLoadIntoEmpty(counter: int, text: string, expenses: seq<Expense>)
    requires LoadText(Ledger([], counter), text).Success?
    requires LoadText(Ledger([], counter), text).value.expenses == expenses
    ensures var r := LoadText(Ledger([], counter), text);
      && r.Success?
      && r.value.expenses == expenses
      && r.value.nextId >= counter
      && (forall i :: 0 <= i < |expenses| ==> expenses[i].id < r.value.nextId)
      && (r.value.nextId == counter || exists i :: 0 <= i < |expenses| && r.value.nextId == expenses[i].id + 1)
  {
  }
}
