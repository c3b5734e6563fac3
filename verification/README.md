# Expense tracker ledger and its CSV file, in Dafny

A model of the core of a console expense tracker written in Java. It covers two parts:

- the `Expense` record with its process-wide id counter;
- the `Storage` class, which keeps the expenses in a list and persists them to a flat CSV file.

The console prompts around each operation are taken away. Every operation takes the values the user typed, or the number an amount parsed to, and returns the new state or the reason nothing changed.

The state is a `Ledger`: the expense list in insertion order and the next id. The Java code keeps that counter in a static field. Here it is passed in and handed back explicitly.

Modules, in dependency order:

| file | module | contents |
|---|---|---|
| results.dfy | Results | `Option` and `Result` |
| text.dfy | Text | Java's `String.trim`, `isBlank`, `split(",")` and `equalsIgnoreCase` |
| numbers.dfy | Numbers | `Integer.toString` and `Integer.parseInt` for ids; amounts in cents, written as `Double.toString` writes them and read back |
| dates.dfy | Dates | `LocalDate.toString` and `LocalDate.parse` for ISO 8601 `YYYY-MM-DD` (the full-date of section 5.6 of RFC 3339) |
| expense.dfy | Expenses | the record, both constructors, the setters, `AsCsvLine`, any interleaving of constructors, and the int overflow of the counter |
| storage.dfy | Storage | add, update, delete, the summary, the month summary and the category filter |
| storage_file.dfy | StorageFile | save, the file text, the line reader, load, and the save/load round trip |

Where the source's own comments and its code disagree, the model follows the code:

- **Malformed fields on load.** The Javadoc of `loadExpenses` (src/storage/Storage.java:559) says invalid lines are skipped with a warning. Only lines with fewer than five parts are skipped (lines 579-583). A malformed id, amount or date makes `Integer.parseInt`, `Double.parseDouble` or `LocalDate.parse` throw (lines 585-588). Nothing in the method catches those exceptions, so the whole load fails at the first malformed line (`StorageFile.LoadReadingsOutcome`, `Malformed`).
- **Amount on update.** The setters store any value (src/model/Expense.java:48-74). The update path hands the parsed amount to `setAmount` without checking that it is positive (src/storage/Storage.java:272), unlike `addExpense`. `Storage.UpdateExpenseData` stores it as given.
- **Empty name.** The round trip also holds for an empty name. The field between two commas survives the split. Only an empty category is lost, because it is the trailing field (`StorageFile.EmptyCategoryLineIsSkipped`).

## Model

| member | source | states |
|---|---|---|
| Expenses.NewExpense | src/model/Expense.java:15-22 | the auto-id constructor gives the expense the current counter value as its id, stores the other fields as given, and leaves the counter exactly one higher |
| Expenses.RestoreExpense | src/model/Expense.java:25-38 | the restore constructor keeps the given id unchanged; the counter never goes down, ends above the id, and is either unchanged or id + 1 |
| Expenses.AdvancePast | src/model/Expense.java:34-37 | the counter after a restore is at least the old counter and above the id, and is one of the two, which makes it max(counter, id + 1) |
| Expenses.SetName | src/model/Expense.java:48-50 | the name becomes the new value; id, amount, date and category are unchanged |
| Expenses.SetAmount | src/model/Expense.java:56-58 | the amount becomes the new value with no positivity check; every other field is unchanged |
| Expenses.SetDate | src/model/Expense.java:64-66 | the date becomes the new value; every other field is unchanged |
| Expenses.SetCategory | src/model/Expense.java:72-74 | the category becomes the new value; every other field is unchanged |
| Expenses.CsvLine | src/model/Expense.java:84-87 | AsCsvLine itself: the id, name, amount, date and category texts joined by commas. It is the reference definition that CsvLineIsJoin, CsvLineFieldOrder, ReadLineOfCsvLine and EmptyCategoryLineIsSkipped are stated over |
| Expenses.CsvLineIsJoin | src/model/Expense.java:84-87 | the CSV line is id, name, amount, date and category joined by single commas, in that order |
| Expenses.DateHasNoComma | src/model/Expense.java:86 | the date as LocalDate.toString writes it holds no comma, for every year |
| Expenses.CsvLineFieldOrder | src/model/Expense.java:84-87 | with a comma-free name and category, and any date, the line holds exactly four commas, and cutting it at them returns the five fields in order |
| Expenses.ConstructAll | src/model/Expense.java:15-38 | over any interleaving of the two constructors: every id ends below the final counter, restored ids are kept, the counter never falls below its start, and each auto id is greater than every id assigned or restored before it |
| Expenses.AutoIdsAreFresh | src/model/Expense.java:33-37 | no auto-assigned id equals any id assigned or restored before it |
| Expenses.AdvancePastAsWritten | src/model/Expense.java:34-37 | the counter update in Java int arithmetic stays in int range and agrees with the unbounded update for every id below the largest int |
| Expenses.AdvancePastAsWrittenWraps | src/model/Expense.java:36 | restoring id 2147483647 wraps the counter to -2147483648, below the restored id; after a restore of -2147483648 the next auto id duplicates that one |
| Expenses.NewExpenseAsWritten | src/model/Expense.java:17 | the auto-id step in Java int arithmetic keeps the counter in int range and agrees with the unbounded step while the counter is below the largest int |
| Expenses.NewExpenseAsWrittenWraps | src/model/Expense.java:15-37 | after one restored id 2147483646 the counter is the largest int; the next add takes it and wraps the counter to -2147483648, which the add after that takes as its id |
| Numbers.IntToString | src/model/Expense.java:86 | the id is written as an optional minus sign followed by decimal digits, ending in a digit |
| Numbers.ParseInt32 | src/storage/Storage.java:585 | a parsed id lies in the int range, and the text it came from starts with a sign or a digit |
| Numbers.ParseInt32OfIntToString | src/storage/Storage.java:585 | every int written by Integer.toString is read back as the same int |
| Numbers.FormatAmount | src/model/Expense.java:86 | the amount is written with digits, '-' and '.' only, at least three characters long, ending in a digit and starting with '-' exactly when it is negative |
| Numbers.FormatAmountPointAndSign | src/model/Expense.java:86 | a written amount holds exactly one point, and holds one minus sign, in front, when negative and none otherwise |
| Numbers.ParseAmount | src/storage/Storage.java:587 | an accepted amount text is non-empty and does not end with the point, and a negative amount comes only from text starting with '-' |
| Numbers.ParseAmountOfFormatAmount | src/storage/Storage.java:587 | every amount written to the file is read back as the same number of cents |
| Dates.DaysInMonth | src/storage/Storage.java:588 | every month has 28 to 31 days under the Gregorian leap-year rule |
| Dates.FormatDate | src/model/Expense.java:86 | LocalDate.toString for any year: the year (four digits, zero-padded, with '-' below zero and '+' above 9999), then two-digit month and day, joined by '-'. It is the reference definition that ParseFormatDate and DateHasNoComma are stated over |
| Dates.ParseDate | src/storage/Storage.java:588 | an accepted date is a real calendar day with a four-digit year, read from exactly ten characters with a digit at both ends |
| Dates.ParseFormatDate | src/storage/Storage.java:588 | every full date written by LocalDate.toString is parsed back to the same date |
| Text.Trim | src/storage/Storage.java:585-589 | the trimmed text has no character at or below a space at either end and is not longer than the input |
| Text.TrimStrips | src/storage/Storage.java:585-589 | the trimmed text is a slice of the input: everything cut from its front and from its back is a character at or below a space, so nothing inside is changed |
| Text.TrimFixesTrimmed | src/storage/Storage.java:585-589 | trim leaves text unchanged exactly when it is already trimmed, and trimming twice is trimming once |
| Text.JavaSplit | src/storage/Storage.java:578 | no part of the split holds the separator; text without a separator comes back as one part |
| Text.SplitFieldsJoin | src/storage/Storage.java:578 | cutting the join of separator-free fields at the separator returns those fields |
| Text.JoinSplitFields | src/storage/Storage.java:578 | joining the cut fields with the separator gives back the text |
| Text.JavaSplitJoin | src/storage/Storage.java:578 | String.split on the join of two or more separator-free fields whose last field is non-empty returns exactly those fields |
| Text.JavaSplitDropsEmptyLast | src/storage/Storage.java:578 | String.split drops an empty last field that follows a non-empty one |
| Text.EqualsIgnoreCase | src/storage/Storage.java:498 | String.equalsIgnoreCase: same length and every pair of characters equal after ASCII case mapping. It is the reference definition that EqualsIgnoreCaseIffSameLowerCase, EqualsIgnoreCaseIsEquivalence and CategorySummary are stated over |
| Text.EqualsIgnoreCaseIffSameLowerCase | src/storage/Storage.java:498 | two strings are equal ignoring case exactly when their lower-case forms are equal (both directions) |
| Text.EqualsIgnoreCaseIsEquivalence | src/storage/Storage.java:498 | equality ignoring case is reflexive, symmetric and transitive |
| Storage.DateOrToday | src/storage/Storage.java:133-151 | the typed date is used when it parses; empty or malformed input gives today's date |
| Storage.AddExpense | src/storage/Storage.java:94-166 | success exactly when the trimmed name and category are non-empty and the amount is positive, with the errors checked in prompt order; on success exactly one expense is appended, with the current counter as its id and the trimmed fields; earlier entries keep their order; the counter rises by one |
| Storage.AddAssignsFreshId | src/storage/Storage.java:165-166 | after an add, all ids are still below the counter, the new id differs from every earlier id, and distinct ids stay distinct |
| Storage.AddRaisesTotals | src/storage/Storage.java:165-166 | an add raises the count by one and the total by the new amount |
| Text.IsBlank | src/storage/Storage.java:255 | String.isBlank: every character is a Character.isWhitespace character. It is the reference definition that UpdateExpenseData and UpdateWithNoInputKeepsExpense are stated over |
| Storage.UpdateExpenseData | src/storage/Storage.java:248-302 | a blank description, an absent amount or an empty or malformed date keeps the current value, otherwise the new value is stored; id and category never change |
| Storage.UpdateWithNoInputKeepsExpense | src/storage/Storage.java:250-299 | pressing Enter at every prompt leaves the expense exactly as it was |
| Storage.UpdateExpense | src/storage/Storage.java:190-233 | an empty list, 0 and a position outside 1..size are refused as such; success exactly for positions 1..size; only the chosen entry is edited; length, order and counter stay |
| Storage.UpdateKeepsIds | src/storage/Storage.java:224-233 | an update keeps every id of the list at its position |
| Storage.DeleteExpense | src/storage/Storage.java:311-353 | an empty list and a position outside 1..size are refused; on success the entry at position choice-1 is removed, the others keep their order, and the counter is not rewound |
| Storage.DeleteRemovesExactlyOne | src/storage/Storage.java:336-338 | a delete removes exactly the chosen expense as a multiset, and keeps ids below the counter and distinct |
| Storage.DeleteLowersTotals | src/storage/Storage.java:336-338 | a delete lowers the count by one and the total by the removed amount |
| Storage.Filter | src/storage/Storage.java:454-461 | the filtered list holds exactly the expenses of the list that satisfy the condition, and is no longer than the list |
| Storage.Summary | src/storage/Storage.java:400-423 | an empty list gives "no expenses"; otherwise the count is the list length and the total is the sum of all amounts |
| Storage.Tally | src/storage/Storage.java:496-504 | one pass collects exactly the filtered expenses with their count and the sum of their amounts |
| Storage.MonthSummary | src/storage/Storage.java:434-482 | months outside 1..12 are refused; otherwise the count and total are those of the expenses dated in that month of the current year |
| Storage.MonthFilterIsExact | src/storage/Storage.java:457 | the month filter keeps an expense exactly when its year is the current year and its month the chosen month |
| Storage.CategorySummary | src/storage/Storage.java:484-518 | zero matches is reported as its own result; otherwise the matches, in list order, are the expenses whose category equals the trimmed query ignoring case, with their count and total |
| Storage.CategoryFilterIgnoresCase | src/storage/Storage.java:498 | the category filter keeps an expense exactly when its category and the trimmed query agree after lower-casing |
| StorageFile.SaveLines | src/storage/Storage.java:533-536 | one CSV line per expense, in list order |
| StorageFile.WriteText | src/storage/Storage.java:531-536 | the file text after println of each line, in order, each followed by "\n". It is the reference definition that ReadLinesOfWriteText is stated over |
| StorageFile.SaveText | src/storage/Storage.java:527-536 | saveExpenses as text: WriteText of SaveLines. It is the reference definition that SavedTextReadsBack, LoadSavedText and SaveThenLoad are stated over |
| StorageFile.ReadLines | src/storage/Storage.java:576 | no line handed out by the reader holds a line terminator |
| StorageFile.ReadLinesOfWriteText | src/storage/Storage.java:535 | lines written one per println are read back by readLine as the same lines, provided none holds a terminator |
| StorageFile.SavedTextReadsBack | src/storage/Storage.java:533-536 | the saved text of storable expenses is read back line by line as exactly the saved lines |
| StorageFile.ReadLine | src/storage/Storage.java:578-589 | one line of the read loop: String.split on ',' and then ReadParts. It is the reference definition that ReadLineOfCsvLine and EmptyCategoryLineIsSkipped are stated over |
| StorageFile.ReadParts | src/storage/Storage.java:579-589 | a line's parts are skipped exactly when there are fewer than five; a restored line takes id, name, amount, date and category from the first five trimmed parts, and exactly when id, amount and date all parse; a failure names the id when the id does not parse, and the amount when the id parses but the amount does not |
| StorageFile.EmptyCategoryLineIsSkipped | src/storage/Storage.java:578-583 | the saved line of an expense with a comma-free name and an empty category splits into four parts and is skipped on load, whatever the date |
| StorageFile.ApplyReading | src/storage/Storage.java:585-592 | a skipped line changes nothing; a restored one appends its expense and moves the counter past its id; a malformed field fails the load at that line |
| StorageFile.LoadReadings | src/storage/Storage.java:576-593 | a failure names a line that was malformed; on success the list held before is kept as a prefix, at most one expense is added per line, the counter never goes down, every loaded id ends below it, and the counter is either unchanged or one past a loaded id |
| StorageFile.RestoredExpenses | src/storage/Storage.java:585-592 | the expenses of the restored lines, in line order, never more than there are lines. It is the reference definition LoadReadingsOutcome is stated over |
| StorageFile.LoadReadingsOutcome | src/storage/Storage.java:576-593 | a load succeeds exactly when no line is malformed; a failure names the first malformed line, since the exception leaves the loop there; a success appends exactly the restored lines' expenses, in order, to the list held before |
| StorageFile.LoadFailsAtFirstBad | src/storage/Storage.java:576-593 | a load fails exactly when some line is malformed, and every line before the one it names is not malformed |
| StorageFile.LoadAppendsRestored | src/storage/Storage.java:576-593 | a successful load appends exactly the expenses of the restored lines, in line order, and skipped lines add nothing |
| StorageFile.LoadText | src/storage/Storage.java:574-593 | loadExpenses over the file text: readLine splits it into lines, and LoadReadings folds their readings. It is the reference definition that SaveThenLoad, LoadSavedText, CounterAfterLoadIntoEmpty and AddAfterLoadIsFresh are stated over |
| StorageFile.LoadKeepsIdsBelowCounter | src/storage/Storage.java:591-592 | if all ids were below the counter before the load, they still are after it |
| StorageFile.AddAfterLoadIsFresh | src/storage/Storage.java:165 | after the start-up load, the next added expense gets an id that no loaded expense has |
| StorageFile.ReadLineOfCsvLine | src/storage/Storage.java:585-589 | the saved line of a storable expense reads back as exactly that expense's fields |
| StorageFile.LoadRestoredReadings | src/storage/Storage.java:591-592 | lines that each restore an expense append exactly those expenses, in order |
| StorageFile.LoadSaveLines | src/storage/Storage.java:576-593 | loading the saved lines of storable expenses appends exactly those expenses, in order |
| StorageFile.SaveThenLoad | src/storage/Storage.java:527-608 | saving storable expenses and loading the file into an empty list gives back the same sequence; the counter ends at or above its start, above every loaded id, and at its start or one past a loaded id |
| StorageFile.LoadSavedText | src/storage/Storage.java:527-593 | loading the saved text of storable expenses succeeds and appends exactly those expenses, in order |
| StorageFile.CounterAfterLoadIntoEmpty | src/storage/Storage.java:576-593 | after a successful load of any text into an empty list, the counter is at or above its start, above every loaded id, and at its start or one past a loaded id |

A storable expense (`StorageFile.IsStorable`) has an int id, a full date, and a name and category that hold no comma and no line terminator and are already trimmed. Its category must also be non-empty.

## Left out

- Console interaction: the Scanner prompts and their retry loops, the Y/N confirmation before an update (src/storage/Storage.java:229-238), `Pause`, the printed messages, `viewExpenses`, `viewExpenseDetails` and `toString`. Each operation takes the already-typed values, and a refused value is returned as an error instead of prompting again.
- src/ExpenseTracker.java (the menu loop and screen clearing) is not part of this model; it is glue and process I/O.
- File-system calls: creating the directory and file, opening, writing and closing. The file is modelled as its text. A missing file or an I/O error during load is not modelled.
- Floating point: amounts are whole numbers of cents. `Numbers.ParseAmount` accepts only an optional sign, digits and at most two decimals. Double.parseDouble's other forms (".5", "5.", exponents, a type suffix such as "5d" or "5.0f", "NaN", "Infinity", hexadecimal, more decimals) are left out, and so is the rounding of sums of doubles.
- Numbers.FormatAmount: matches Double.toString only below ten million; the scientific notation Double.toString uses from 10^7 upward is not modelled.
- The clock: `LocalDate.now()` and the current year are parameters (`today`, `currentYear`).
- Dates.ParseDate: accepts only unsigned four-digit years. LocalDate.parse also accepts a minus sign on a year of four or more digits ("-0001-01-01") and a plus sign on a year of more than four digits ("+10000-01-01"). Dates in the file never need them, because a storable expense has a year in 0..9999.
- Storage.DateOrToday: a typed date with a signed year is taken as malformed, so an add uses today's date where the tracker would store the typed year.
- Storage.UpdateExpenseData: a typed date with a signed year is taken as malformed, so the update keeps the old date where the tracker would store the typed year.
- Text.EqualsIgnoreCaseIffSameLowerCase: case mapping is ASCII only; Java's equalsIgnoreCase also maps non-ASCII letters.
- Numbers.ParseInt32: accepts only ASCII digits; Integer.parseInt also accepts other Unicode decimal digits.
- The line separator is fixed as "\n"; println uses the platform's separator.
- Expenses.NewExpense: the counter is an unbounded integer. The int wrap of `nextId++` once the counter has reached 2147483647 is modelled separately by Expenses.NewExpenseAsWritten and listed under Findings.

## Findings

| source | as written | input that shows it | evidently intended | confidence | as-written member | corrected member |
|---|---|---|---|---|---|---|
| src/model/Expense.java:34-37 | `nextId = id + 1` in int arithmetic | a stored line `2147483647,Rent,10.0,2024-01-01,Home`: the counter wraps to -2147483648, so the next auto id is below an existing one; when a line with id -2147483648 comes before it, the next auto id repeats that id | the counter stays above every restored id | not executed | Expenses.AdvancePastAsWritten, Expenses.AdvancePastAsWrittenWraps | Expenses.AdvancePast |
| src/model/Expense.java:17 | `this.id = nextId++` in int arithmetic | a stored line `2147483646,Rent,10.0,2024-01-01,Home` moves the counter to 2147483647 without overflow; the next add takes id 2147483647 and wraps the counter to -2147483648, so the add after it gets id -2147483648, below every earlier id | each auto id is greater than every id handed out before it | not executed | Expenses.NewExpenseAsWritten, Expenses.NewExpenseAsWrittenWraps | Expenses.NewExpense |
