# Finances: a verified model of the expense pipeline

Finances is a personal expense tracker. Its expenses arrive in one of two ways:

- typed into a Qt form;
- sent as chat messages to a Telegram bot.

Both routes send the text `"DD/MM/YYYY; VALUE[+VALUE…]; CATEGORY; DESCRIPTION"` through one parser, `UserInputProcessor`. A valid parse is appended to a six-column SQLite table, and a chat message containing `DELETE` removes the matching rows. The windows query the table per period and show:

- a list that can be sorted and printed;
- a click-to-delete list;
- per-category totals;
- cumulative totals for every month before the current one.

This project models that pipeline in Dafny and proves what each step promises.

| module (file) | models | form |
|---|---|---|
| `Wrappers` (wrappers.dfy) | `Option`, `Result` and the Python exceptions the core can raise (`ValueError`, `KeyError`, `UnboundLocalError`) | datatypes |
| `Text` (text.dfy) | the Python string built-ins the core relies on: `str.strip`, `str.split`, `in`, `str.replace`, `int()`, `str(int)`, `" " * n` | functions and lemmas |
| `Registry` (registry.dfy) | `scripts/utils.py`: the categories, their normalised keys, the years, the months and their dictionaries | constants, functions and lemmas |
| `InputParser` (parser.dfy) | `scripts/processInput.py`: the date, value, category and description parsers | pure specification functions, plus the class `UserInputProcessor`, whose methods set its six nullable fields one step at a time |
| `StableSort` (stable_sort.dfy) | the stable sort by key that Python's `sorted` and `list.sort` perform | function and lemmas |
| `Expenses` (database.dfy) | `scripts/database.py` | specification functions and lemmas; the class `DatabaseHandler` over an in-memory row sequence, with loops for the period walk, the zero-filled totals, the projection and the `int(day)` check |
| `Interface` (ui.dfy) | `scripts/UI.py` | the classes `ExpensesWindow`, `DateWindow` and `ExpenseManager`, with their state changes; loop methods for the column padder, the line lookup and the totals; pure functions for the month label and the open guard |
| `Bot` (bot.dfy) | `scripts/telegramBot.py` | the class `TelegramBot`: its update loop, its two processing loops and the offset rule |

## Modelling choices

- **Money.** Amounts are exact integer cents.
  - The source sums Python floats and prints the sum with `:.2f`.
  - Every accepted term has at most two decimals, so the printed sum is the exact cents sum as long as the total stays far below 2^53 cents.
  - The model computes the exact sum.
- **Year.** The parser's `year` is an `int`, and the table's `year` column is TEXT, so a stored year is the year's decimal text (`Expenses.ParsedRow`). The windows query with the strings of `YEARS`.
- **The table** is `DatabaseHandler.rows: seq<Row>`, in insertion order, which is the order SQLite returns rows for these queries. With it:
  - `add_entry` appends.
  - `delete_entry` removes every row equal in all six columns and returns nothing.
  - `get_elements_period` selects, projects and stable-sorts by `int(day)`. A non-integer day raises `ValueError`, which is modelled as `Err(ValueError)`.
  - `get_cumulative_expenses_until_period` walks the periods strictly before the target.
    - Each period gets a zero-filled map per category.
    - A row with an unknown category is `KeyError`, and one whose value `float()` rejects is `ValueError`.
- **Time.** `time.strftime` is replaced by a `Today` parameter.
- **The Telegram server** is a function from the requested offset to the updates it returns.
- **The cursor file** is modelled as two fields:
  - `lastUpdateId` is the value read at start;
  - `savedUpdateId` is the last value written.
- **Function-valued parameters.** A few specification functions take the value reader or the parser as a parameter, so that their lemmas hold for any reader or parser:
  - the value reader: `Expenses.AddRows`, `Interface.ItemSum` and `Interface.CategoryTotals` take `read: string -> Option<nat>`;
  - the parser: the bot's `Bot.Accepted`, `Bot.AddedRows` and `Bot.AfterDeletes` take `parse: string -> Parsed`.

  The methods instantiate these parameters with the model's own `ValueCents` and `Parse`.

### Behaviour of the code worth knowing

- **Deleting rows.**
  - `delete_entry` (scripts/database.py:40-49) is an SQL `DELETE … WHERE` on all six columns: it removes every equal row and returns `None`.
  - As a consequence, the bot (scripts/telegramBot.py:64-76) reports every delete message as failed, even when the delete ran. `Bot.TelegramBot.RemoveEntries` states this: `successDel` is always empty.
- **The `DELETE` marker.**
  - The bot's `message.replace("DELETE", "")` scans once from left to right, so a marker can survive it: "DEDELETELETE" becomes "DELETE" (`Bot.MarkerSurvivesReplace`).
- **Spaces in values.**
  - The docstring of `processValue` promises `"2 + 4.50"`.
  - The terms are not trimmed before the pattern match, so that value is rejected (`InputParser.ValueSpacesRejected`).
- **A stored cursor of 0** is falsy in `last_update_id+1 if last_update_id else None`, so it asks for every pending update, exactly as no cursor does (`Bot.OffsetSpec`).
- **Clicking a sort button that is already checked.** Qt toggles the checkbox before the slot runs.
  - `_sort_by_date` ends in the checked state whatever happens.
  - When `sort_items("category")` raises, at the moment of the raise only that button has been flipped.

## Model

| member | source | states |
|---|---|---|
| Registry.CategoriesDistinct | scripts/utils.py:6-8 | there are seven categories and they are pairwise distinct |
| Registry.CategoryKeysValues | scripts/utils.py:9-11 | each category's key is its lower-cased, space-free name ("To myself" has key "tomyself") |
| Registry.CategoryKeyAt | scripts/utils.py:9-11 | the key of the i-th category is the i-th listed key |
| Registry.CategoryKeysDistinct | scripts/utils.py:9-14 | two categories with the same key are the same category |
| Registry.CategoryDictsInverse | scripts/utils.py:9-14 | the name→key and key→name dictionaries have the categories and the keys as their domains, pair them in list order, and are inverse bijections |
| Registry.NormalizeIdempotent | scripts/utils.py:10 | lower-casing and removing spaces twice changes nothing more than doing it once |
| Registry.LowerIdempotent | scripts/utils.py:10 | lower-casing is idempotent |
| Registry.LowerDistributes | scripts/utils.py:10 | lower-casing works character by character over a concatenation |
| Registry.RemoveSpacesAppend | scripts/utils.py:10 | removing spaces works piece by piece over a concatenation |
| Registry.RemoveSpacesOfSpaceFree | scripts/utils.py:10 | removing spaces leaves a space-free string unchanged |
| Registry.RemoveSpacesOfLower | scripts/utils.py:10 | the space-free form of a lower-case string is still lower-case |
| Registry.KeyOfWords | scripts/utils.py:10 | two words joined by a space have the two keys side by side as key |
| Registry.ToMyselfKey | scripts/utils.py:10 | "To myself" normalises to "tomyself" |
| Registry.YearRange | scripts/utils.py:15 | `[str(y) for y in range(lo, hi)]`: hi-lo strings, the i-th being the decimal text of lo+i |
| Registry.YearsSpan | scripts/utils.py:15 | `YEARS` is exactly "2024" … "2030" |
| Registry.YearsIncreasing | scripts/utils.py:15 | seven years, the i-th reads back with `int()` as 2024+i, so they strictly increase and differ |
| Registry.YearString | scripts/utils.py:15 | `str(n)` of a year in 2024..2030 is the matching `YEARS` entry |
| Registry.MonthsDistinct | scripts/utils.py:16-18 | twelve pairwise distinct months |
| Registry.MonthAt | scripts/utils.py:19-20 | the i-th month has number i+1 in both dictionaries |
| Registry.MonthDictsInverse | scripts/utils.py:19-20 | the month dictionaries have `MONTHS` and 1..12 as domains, follow list order and are inverse bijections |
| Registry.MonthPosition | scripts/utils.py:19 | a name the dictionary knows is one of the twelve months |
| Registry.IndexOf | scripts/UI.py:98 | `list.index`: the first position holding x, and None exactly when x is absent |
| Text.StripShape | scripts/processInput.py:50-53 | `str.strip` leaves a slice of its input with no whitespace at either end |
| Text.StripIdempotent | scripts/processInput.py:104 | stripping twice is stripping once (so `processDescription`'s second strip changes nothing) |
| Text.StripPadded | scripts/processInput.py:50-53 | stripping a trimmed core padded with whitespace gives the core back |
| Text.StripEmpty | scripts/processInput.py:105 | a string strips to "" exactly when it is all whitespace |
| Text.SplitJoin | scripts/processInput.py:42 | splitting the join of separator-free pieces gives those pieces back |
| Text.JoinSplit | scripts/processInput.py:42 | joining the pieces of a split gives the string back |
| Text.SplitPiecesFree | scripts/processInput.py:42 | no piece of a split contains the separator |
| Text.SplitCount | scripts/processInput.py:42-43 | a split has one more piece than the string has separators |
| Text.ContainsOccurs | scripts/telegramBot.py:38-39 | `pat in s` holds exactly when pat occurs at some position of s |
| Text.ReplaceAllAbsent | scripts/telegramBot.py:62 | `s.replace(pat, rep)` leaves a string without pat unchanged |
| Text.ReplaceAllShrinks | scripts/telegramBot.py:62 | removing a pattern never lengthens the string |
| Text.NatToStringValue | scripts/telegramBot.py:49 | `str(n)` is a digit string that reads back as n |
| Text.PyIntOfNatToString | scripts/database.py:60 | `int(str(n)) == n` |
| Text.PyIntOfDigits | scripts/database.py:60 | `int()` of a non-empty digit string is its decimal value |
| Text.SeparatorNotSkipped | scripts/database.py:60 | `int()` rejects a day with an information separator (U+001C..U+001F) before or after its digits, although `strip` would remove it |
| Text.Spaces | scripts/UI.py:111-113 | `" " * n`: n spaces, and "" when n is not positive |
| InputParser.DaysInMonth | scripts/processInput.py:57 | the Gregorian month length is between 28 and 31, and is 29 exactly for February of a leap year |
| InputParser.DayDigits | scripts/processInput.py:57 | `%d` accepts only a day in 1..31 |
| InputParser.MonthDigits | scripts/processInput.py:57 | `%m` accepts only a month in 1..12 |
| InputParser.YearDigits | scripts/processInput.py:57 | `%Y` accepts only four digits |
| InputParser.ParseDate | scripts/processInput.py:56-60 | `strptime` yields only real Gregorian dates |
| InputParser.DateRoundTrip | scripts/processInput.py:56-60 | every real date with a four-digit year reads back from its plain or zero-padded d/m/Y text |
| InputParser.ParseDateOfFields | scripts/processInput.py:57 | d/m/Y text whose fields each match parses to that date if it is real and fails otherwise |
| InputParser.FebruaryDay | scripts/processInput.py:57 | day dd of February parses exactly when dd fits February of that year |
| InputParser.DateExampleFebruary31 | scripts/processInput.py:57 | "31/02/2024" is rejected |
| InputParser.DateExampleLeap | scripts/processInput.py:57 | "29/02/2024" is accepted |
| InputParser.DateExampleCommonYear | scripts/processInput.py:57 | "29/02/2023" is rejected |
| InputParser.DateExampleCentury | scripts/processInput.py:57 | "29/02/1900" is rejected (a century is not a leap year) |
| InputParser.DateExampleFourCenturies | scripts/processInput.py:57 | "29/02/2000" is accepted |
| InputParser.Pad2 | scripts/processInput.py:58 | `f"{day:02}"`: two digits with the day's value |
| InputParser.DigitRun | scripts/processInput.py:75 | `\d+` consumes exactly the maximal leading digit run |
| InputParser.TermOfDigits | scripts/processInput.py:75-77 | a digit string matches the term pattern and is worth 100 cents per unit |
| InputParser.TermWithDecimals | scripts/processInput.py:75-77 | digits "." digits match exactly when there are 1 or 2 decimals, with the right cents |
| InputParser.FormatCentsShape | scripts/processInput.py:80 | `:.2f` of a cents amount is its integer part, a dot and exactly two digits |
| InputParser.FormatCentsTerm | scripts/processInput.py:80 | the formatted value is itself a valid term worth the same cents |
| InputParser.ValueRoundTrip | scripts/processInput.py:72-80 | re-parsing a formatted value gives the same string |
| InputParser.ParseValueIdempotent | scripts/processInput.py:72-80 | parsing the parser's own output gives the same value |
| InputParser.ValueSumExample | scripts/processInput.py:113 | "35.00+45.1+3" gives "83.10" |
| InputParser.ValueDecimalsRejected | scripts/processInput.py:75-78 | one term with three decimals ("5.123") rejects the value |
| InputParser.ValueSpacesRejected | scripts/processInput.py:70-78 | "2 + 4.50" is rejected, because the terms are not trimmed |
| InputParser.CategoryMatch | scripts/processInput.py:91-93 | an accepted category is a registry name with the input's key, and any name with that key is the answer |
| InputParser.CategoryLookup | scripts/processInput.py:91-93 | looking the key up among the dictionary's values and then in the key→name dictionary is the same as matching keys |
| InputParser.CategoryRoundTrip | scripts/processInput.py:91-93 | each category is accepted as itself and from its key |
| InputParser.CategoryCaseExample | scripts/processInput.py:91-93 | "OTHeRs" gives "Others" |
| InputParser.PlaceholderRejected | scripts/processInput.py:91-93 | the combo-box placeholder "Category..." is not a category |
| InputParser.DescriptionShape | scripts/processInput.py:104-106 | the description fails exactly for all-whitespace text, and otherwise is non-empty, trimmed and reparses to itself |
| InputParser.WrongSegmentCount | scripts/processInput.py:42-48 | a message without exactly three ';' leaves all six fields None and is invalid |
| InputParser.FieldsIndependent | scripts/processInput.py:50-53 | two four-segment messages equal in one segment agree on that segment's fields, whatever the other segments are |
| InputParser.ParseSound | scripts/processInput.py:55-106 | day, month and year are set together; each field is well formed (two-digit day 1..31, month from `MONTHS`, year 1..9999, value fixed point, category from the registry, description non-empty and trimmed) |
| InputParser.ParseOfSegments | scripts/processInput.py:42-53 | each field of a four-segment message is the parse of its own stripped segment |
| InputParser.StepsOfSegments | scripts/processInput.py:50-53 | the four step functions in order, applied to the stripped segments, lay `Parse` over the fields started with |
| InputParser.MessageRoundTrip | scripts/processInput.py:41-106 | the message rendered from a real date, a cents value, a category and a clean description parses back to exactly those six fields |
| InputParser.ExampleMessage | scripts/processInput.py:113-115 | the built-in example parses to ("24", "December", 2024, "83.10", "Others", "This is a test :)") |
| InputParser.UserInputProcessor.constructor | scripts/processInput.py:11-27 | the six fields are `Parse(message)`'s and `isValid` is their validity |
| InputParser.UserInputProcessor.IsValid | scripts/processInput.py:29-39 | the loop returns true exactly when no field is None |
| InputParser.UserInputProcessor.ProcessMessage | scripts/processInput.py:41-53 | a wrong segment count changes nothing; otherwise the four steps lay the parsed fields over the old ones |
| InputParser.UserInputProcessor.ProcessDate | scripts/processInput.py:55-65 | on success day, month and year are set together; on failure nothing changes |
| InputParser.UserInputProcessor.ProcessValue | scripts/processInput.py:67-85 | the loop over the terms computes the flag of the pattern match; only `value` changes |
| InputParser.UserInputProcessor.ProcessCategory | scripts/processInput.py:87-98 | only `category` changes, to the matched name |
| InputParser.UserInputProcessor.ProcessDescription | scripts/processInput.py:100-109 | only `description` changes, to the non-empty stripped text |
| StableSort.SortByIsStableSort | scripts/database.py:60 | insertion by key yields a stable sort: a reordering, ascending keys, equal keys in input order |
| StableSort.StableSortUnique | scripts/UI.py:96 | two stable sorts of one sequence by one key are equal |
| StableSort.StableSortCharacterized | scripts/UI.py:96 | anything that is a stable sort of the input is `SortBy`'s result |
| StableSort.SortBySorted | scripts/UI.py:96 | sorting an already-sorted sequence gives it back |
| Expenses.ParsedRow | scripts/telegramBot.py:49-56 | each column of the stored row is the matching parsed field, with the year written out in decimal |
| Expenses.DatabaseHandler.constructor | scripts/database.py:19-30 | the table holds the stored rows |
| Expenses.DatabaseHandler.AddEntry | scripts/database.py:35-38 | the given row is appended and the rows before it are unchanged |
| Expenses.DatabaseHandler.DeleteEntry | scripts/database.py:40-49 | the table becomes `Without(rows, r)`; no value is returned |
| Expenses.WithoutMembers | scripts/database.py:40-49 | after the delete, a row remains exactly when it was there and differs from r; every copy of r is gone and other counts are kept |
| Expenses.WithoutAppend | scripts/database.py:40-49 | the delete keeps the order of the remaining rows (it distributes over concatenation) |
| Expenses.WithoutAbsent | scripts/database.py:40-49 | deleting a row that is not there changes nothing |
| Expenses.DeleteAfterAdd | scripts/database.py:35-49 | adding r and then deleting r is the same as only deleting r |
| Expenses.DeleteIdempotent | scripts/database.py:40-49 | deleting twice is deleting once |
| Expenses.SelectMembers | scripts/database.py:52-53 | the selection holds exactly the rows of that month and year |
| Expenses.SelectAppend | scripts/database.py:52-53 | the selection keeps table order |
| Expenses.SelectAfterAdd | scripts/database.py:35-53 | after an add, the period's selection grows by the new row exactly when the row is of that period |
| Expenses.DatabaseHandler.GetElementsPeriod | scripts/database.py:51-61 | the loop computes `ElementsPeriod`: ValueError when some day is not an integer, else the sorted projection |
| Expenses.ElementsPeriodRaises | scripts/database.py:60 | the query succeeds exactly when every selected row's day passes `int()` |
| Expenses.ElementsPeriodSorted | scripts/database.py:51-61 | the result is a stable sort by `int(day)` of the projected selection, and a permutation of it |
| Expenses.ElementsPeriodAscending | scripts/database.py:60 | every day of the result is an integer, ascending |
| Expenses.ProjectItems | scripts/database.py:55-58 | the loop builds the projection of the fetched rows |
| Expenses.CheckAll | scripts/database.py:60 | the loop reports whether every element satisfies the predicate |
| Expenses.CollectPeriods | scripts/database.py:65-75 | the nested loops with `to_break` collect exactly `PeriodsBefore(month, year)` |
| Expenses.FirstIndex | scripts/database.py:68-73 | the first position of the target, or the length when it is absent |
| Expenses.PeriodsBeforeTarget | scripts/database.py:66-75 | for a registry target, the walk is the (year, month) prefix before it, of length 12·yi+mi |
| Expenses.PeriodsBeforeFirst | scripts/database.py:66-75 | before January 2024 nothing is walked |
| Expenses.PeriodsBeforeUnknown | scripts/database.py:66-75 | a target outside the registry walks all 84 periods |
| Expenses.AllPeriodsShape | scripts/database.py:68-69 | 84 periods, each of a registry month and year |
| Expenses.ZeroFill | scripts/database.py:84-86 | the loop builds the map of every category to 0 |
| Expenses.ZeroTotalsKeys | scripts/database.py:84-86 | the zero map's keys are exactly the categories, each mapped to 0 |
| Expenses.AddPeriodRows | scripts/database.py:88-91 | the `+=` loop computes `AddRows`: the totals, or the first row's KeyError or ValueError |
| Expenses.AddRowAdds | scripts/database.py:89-91 | a readable row of a known category adds its cents to its category only |
| Expenses.AddRowsKeys | scripts/database.py:88-91 | the `+=` loop never adds keys |
| Expenses.AddRowsSums | scripts/database.py:88-91 | on success, each category's total is its start plus the cents of that category's rows |
| Expenses.AddRowsOk | scripts/database.py:88-91 | the loop succeeds exactly when every row is readable and of a known category |
| Expenses.AddRowsFirstError | scripts/database.py:89-91 | the first bad row decides the error: ValueError if its value fails, else KeyError |
| Expenses.PeriodKeyInjective | scripts/database.py:84 | "month\|year" keys of bar-free months determine the period |
| Expenses.WalkOk | scripts/database.py:79-91 | the walk succeeds exactly when every period's totals succeed |
| Expenses.WalkFirstError | scripts/database.py:79-91 | the first failing period's error is the walk's |
| Expenses.WalkKeys | scripts/database.py:84 | the result's keys are exactly the walked periods' keys |
| Expenses.WalkValues | scripts/database.py:79-91 | each walked period's key maps to that period's totals |
| Expenses.PeriodTotalsOk | scripts/database.py:88-91 | a period's totals succeed exactly when each of its rows is readable and of a known category |
| Expenses.PeriodTotalsSums | scripts/database.py:84-91 | a period's totals have every category as key, mapped to the cents sum of that category's rows of the period |
| Expenses.CumulativeOk | scripts/database.py:63-93 | the cumulative query succeeds exactly when every walked period's totals do |
| Expenses.CumulativeKeys | scripts/database.py:63-93 | its keys are exactly the "month\|year" keys of the periods before the target |
| Expenses.CumulativeValues | scripts/database.py:63-93 | each such key holds that period's zero-filled per-category sums |
| Expenses.DatabaseHandler.GetCumulativeExpensesUntilPeriod | scripts/database.py:63-93 | the method computes `Cumulative(rows, month, year)` |
| Interface.SortByDateSpec | scripts/UI.py:95-96 | "date" raises exactly when some day is not an integer; otherwise the result is a stable sort by `int(day)`, a permutation, and ascending |
| Interface.SortByCategorySpec | scripts/UI.py:97-98 | "category" raises exactly when some category is not in the registry; otherwise the result is a stable sort by registry position, a permutation, and ascending |
| Interface.SortOtherSpec | scripts/UI.py:94-98 | any other method leaves the items as they are |
| Interface.SortIdempotent | scripts/UI.py:94-98 | sorting the sorted list again changes nothing |
| Interface.OpenedInDateOrder | scripts/UI.py:73-74 | the window opens on items already in date order, so sorting by date changes nothing |
| Interface.ColumnShape | scripts/UI.py:111-113 | a padded field is the field then spaces, of length max(width, field length), never truncated |
| Interface.PrintLineLayout | scripts/UI.py:106-114 | a printed line is the padded day (width 5), padded category (15), padded value (10) and the description, at those offsets |
| Interface.CategoriesFit | scripts/UI.py:108 | every category name fits its 15 columns |
| Interface.ColumnTrimmed | scripts/UI.py:111-113 | a field that fits and does not end in a space reads back by trimming its column |
| Interface.PrintLineInjective | scripts/UI.py:102-117 | items whose fields fit their columns print distinct lines |
| Interface.MakePrintingNice | scripts/UI.py:100-117 | the loop returns one line per item, in order, each `PrintLine` of its item |
| Interface.FindLine | scripts/UI.py:158-161 | the loop finds the first index of the clicked text, or none |
| Interface.DeleteFindsClicked | scripts/UI.py:158-162 | for columnar items, the first line equal to an item's line belongs to that very item |
| Interface.ExpensesWindow.constructor | scripts/UI.py:34-78 | the window holds the period's items, their printed lines and the date button checked |
| Interface.ExpensesWindow.SortItems | scripts/UI.py:94-98 | the items become the sorted list, or stay and the error is raised |
| Interface.ExpensesWindow.WriteExpensesWindow | scripts/UI.py:120-123 | the printed lines are rebuilt from the items |
| Interface.ExpensesWindow.SortByDate | scripts/UI.py:80-85 | the items are date-sorted and reprinted; date checked, category unchecked |
| Interface.ExpensesWindow.SortByCategory | scripts/UI.py:87-92 | success exactly when every category is known; then category checked, date unchecked; otherwise the lists stay and only the clicked button is flipped |
| Interface.ExpensesWindow.DeleteItem | scripts/UI.py:149-162 | the first matching line's item is deleted with the window's month and year; with no match UnboundLocalError is raised and the table stays |
| Interface.EntryMessageCount | scripts/UI.py:272-273 | the built message has three more ';' than its parts have together |
| Interface.SemicolonRejected | scripts/UI.py:272-277 | a ';' typed into any field makes the message invalid |
| Interface.PlaceholderNeverAccepted | scripts/UI.py:270-277 | a form left on "Category..." is never stored |
| Interface.AddExpenseRoundTrip | scripts/UI.py:266-288 | the form filled with a real date, a formatted value, a category and a clean description stores exactly that row |
| Interface.DateWindow.constructor | scripts/UI.py:170-251 | the widgets start out empty: inputs cleared, the category placeholder shown, no label and a blank figure |
| Interface.NewDateWindow | scripts/UI.py:170-256 | `DateWindow(...)` raises ValueError exactly when its first `plotSummaryDate` raises; otherwise a fresh window with empty inputs whose chart is "No expenses so far" or the per-category totals of the period |
| Interface.BadDayBlocksWindow | scripts/UI.py:254 | a row whose day `int()` rejects makes the date window of its period fail to open |
| Interface.DateWindow.AddExpense | scripts/UI.py:266-297 | KeyError for an unknown month; otherwise a valid parse appends the parsed row, confirms it and resets the form, and an invalid one leaves table and form as they were and shows "Information not valid..." |
| Interface.DateWindow.ShowExpenses | scripts/UI.py:300-302 | it opens a window on the period's items, or raises the query's error |
| Interface.DateWindow.PlotSummaryDate | scripts/UI.py:304-330 | ValueError if the query fails; "No expenses so far" for an empty period; otherwise one total per category in registry order, each the cents sum of its items; ValueError exactly when some value fails `float()` |
| Interface.CategoryTotals | scripts/UI.py:310-316 | the nested loops compute `PerCategory`, or ValueError exactly when some listed category has an unreadable value |
| Interface.ItemSumAbsent | scripts/UI.py:313-315 | a category without items totals 0 |
| Interface.PerCategoryTotal | scripts/UI.py:310-324 | the per-category totals of distinct categories add up to the sum over items of those categories |
| Interface.SummaryTotal | scripts/UI.py:324 | the title total is the sum over all registry categories |
| Interface.OpenDecisionIgnores | scripts/UI.py:447-448 | nothing happens exactly when the month or the year is not in the registry |
| Interface.OpenDecisionAsks | scripts/UI.py:450-456 | a confirmation is asked exactly for a registry period other than today's |
| Interface.OpenDecisionOpens | scripts/UI.py:457-458 | the window opens directly exactly for today's period |
| Interface.PreviousMonthIndex | scripts/UI.py:474 | the label month is `MONTHS[(m-2) mod 12]`, with Python's negative index |
| Interface.PreviousMonthDecember | scripts/UI.py:474-475 | the label is December exactly in January |
| Interface.PreviousMonthSpec | scripts/UI.py:473-475 | in January the label is December of the previous year; otherwise it is the previous month of the same year |
| Interface.ExpenseManager.constructor | scripts/UI.py:379-424 | no date window, no pending confirmation and a blank figure |
| Interface.ExpenseManager.OpenWindowDate | scripts/UI.py:444-458 | it follows the decision: ignore, ask (recording the chosen period) or open; on the open branch it stores a fresh window on that period, or reports ValueError and stores nothing exactly when the window's first chart raises |
| Interface.ExpenseManager.OnConfirmationWindow | scripts/UI.py:460-464 | refusal changes nothing; acceptance stores a fresh window on the period, unless the window's first chart raises, which reports ValueError and leaves `date_window` as it was |
| Interface.ExpenseManager.CloseWindowDate | scripts/UI.py:467-468 | the date window is cleared |
| Interface.ExpenseManager.CloseEvent | scripts/UI.py:435-442 | closing is accepted exactly when no date window is open |
| Interface.ExpenseManager.PlotSummaryAllMonths | scripts/UI.py:470-478 | the title is the previous month's label, and the data is the cumulative query for today's month and year |
| Interface.NewExpenseManager | scripts/UI.py:379-433 | `ExpenseManager(...)` raises exactly the cumulative query's error; otherwise a fresh main window with no date window whose chart holds the previous month's label and today's cumulative table |
| Bot.PartitionSpec | scripts/telegramBot.py:38-39 | the messages are split in order on "DELETE": each message is in exactly one list, the marked ones in the second |
| Bot.FilterAppend | scripts/telegramBot.py:38-39 | the comprehensions keep order (they distribute over concatenation) |
| Bot.FilterMembers | scripts/telegramBot.py:38-39 | a comprehension keeps exactly the messages its test selects |
| Bot.FilterSplits | scripts/telegramBot.py:38-39 | the two comprehensions share the messages out, each message exactly once |
| Bot.AcceptedSplits | scripts/telegramBot.py:46-59 | each new message is in exactly one of the success and fail lists, and in success exactly when its parse is valid |
| Bot.AddedRowsMatch | scripts/telegramBot.py:46-59 | exactly one `add_entry` per accepted message, in order, each storing its message's parsed row |
| Bot.AfterDeletesSpec | scripts/telegramBot.py:61-78 | after the deletes, a row remains exactly when it was there and no valid delete message names it |
| Bot.AfterDeletesAppend | scripts/telegramBot.py:61-78 | the deletes act on each part of the table separately, so the kept rows stay in their order |
| Bot.InvalidDeletesKeepTable | scripts/telegramBot.py:61-78 | delete messages that do not parse leave the table unchanged |
| Bot.MarkerSurvivesReplace | scripts/telegramBot.py:62 | removing "DELETE" once can leave a "DELETE": "DEDELETELETE" becomes "DELETE" |
| Bot.OffsetSpec | scripts/telegramBot.py:109 | the offset is None exactly for no cursor or a cursor of 0, and otherwise is the cursor plus one |
| Bot.NextOffsetSkipsBatch | scripts/telegramBot.py:101-109 | with ascending positive ids, the next run's offset is past every update just processed |
| Bot.TelegramBot.constructor | scripts/telegramBot.py:18-31 | the cursor is the stored one (None without a file), with no chat and no messages |
| Bot.TelegramBot.GetUpdates | scripts/telegramBot.py:107-110 | the updates are the server's answer for the cursor's offset |
| Bot.TelegramBot.CollectUpdates | scripts/telegramBot.py:100-104 | the messages are the updates' texts in order; the saved cursor and the chat are the last update's, or unchanged for an empty batch |
| Bot.TelegramBot.AddNewEntries | scripts/telegramBot.py:46-59 | the loop fills the success and fail lists in order and appends the accepted rows |
| Bot.TelegramBot.AddOne | scripts/telegramBot.py:47-57 | one message: it reports validity and appends its row exactly when valid |
| Bot.TelegramBot.RemoveEntries | scripts/telegramBot.py:61-78 | each unmarked delete message is deleted when valid and always lands in the fail list; the success list stays empty |
| Bot.TelegramBot.Remove | scripts/telegramBot.py:63-76 | one valid parse deletes its row; an invalid one changes nothing |
| Bot.TelegramBot.ProcessMessages | scripts/telegramBot.py:37-78 | the report is `Outcome(messages)`; the table is the old one, plus the added rows, minus the valid deletes, in that order |
| Bot.TelegramBot.Run | scripts/telegramBot.py:97-110 | fetch, collect, then process, with the table, the report, the cursor and the chat as above |

## Left out

- An exception that escapes a Qt slot (`add_expense`, `show_expenses`, `_sort_by_category`, `delete_item`, `onConfirmationWindow`) ends the application, because PyQt5 then calls `qFatal`. The model returns the exception as `raised` or `Err` and describes the state at the moment of the raise. It does not model the abort.
- Qt widgets, layouts, timers, signals and window lifecycle: only the state the slots read and write is modelled (items, printed lines, button checks, form fields, confirmation text, the date window).
- Ids of the Qt widgets are not modelled; `delete_item` receives the clicked label's text. Removing the row from the list widget is a display effect and is not modelled.
- Rendering by matplotlib, and the `numpy` mean and standard deviation in `plotSummaryAllMonths`: floating-point numerics and drawing. `PlotSummaryAllMonths` returns the title and the queried data.
- SQLite: the connection, `CREATE TABLE`, commits and closing. The table is a row sequence in insertion order.
- `CreateBackup`: file copying and pruning.
- The Telegram transport: `Bot`, `send_message`, `asyncio`. The four reported lists are returned instead of sent.
- The cursor file: `lastUpdateId` is the value read at start, and `savedUpdateId` the last one written. Reading `int(...)` of a corrupt file is not modelled.
- The `debug` printing of `UserInputProcessor` (scripts/processInput.py:44-47, 62-65, 82-85, 95-98, 108-109), which the date window turns on: console output only.
- The token file read at import, the path constants, and main.py's dispatch between the UI and the bot.
- `time.strftime` is replaced by a `Today` parameter whose year has four digits and whose month is 1..12.
- `InputParser.ParseValue`: sums cents exactly instead of Python floats. The two agree while the total stays far below 2^53 cents; beyond that the float sum could round, and a term or total of about 1.8·10^308 or more (for instance any term of 310 or more digits) overflows to `inf`, so the source stores the text "inf" while the model formats the exact digits.
- `Expenses.ValueCents`: reads stored values with the term pattern, not `float()`. Stored values always come from the parser, but `float()` also accepts forms such as "1e3", "-2", "1_000", ".5", "inf" or "nan", which are not modelled. Like `float()`, the model skips surrounding whitespace other than U+001C..U+001F.
- Regular-expression and `strptime` corner cases:
  - Unicode digits for `\d`;
  - `$` matching before a trailing newline in a middle value term;
  - `strptime` skipping whitespace it finds in the format or input.
  The model uses ASCII digits and the plain anchored pattern.
- `Text.PyInt`: accepts ASCII digits only. Python's `int()` also accepts other Unicode decimal digits, such as "٣" or "３". A day written by this program never holds them, because both entry paths store `f"{date.day:02}"`. A row with such a day written by other means is an error in the model and is read as a number by the source.
- `Registry.Lower`: lower-cases ASCII letters only, because Unicode case mapping is not modelled.
- `Interface.DateWindow.constructor`: a Dafny constructor cannot raise, so it builds only the widgets; the first `plotSummaryDate` and its ValueError are modelled by `Interface.NewDateWindow`, which the date-window opening uses.
- `Interface.ExpenseManager.constructor`: a Dafny constructor cannot raise, so it builds only the widgets; the first `plotSummaryAllMonths` and its KeyError or ValueError are modelled by `Interface.NewExpenseManager`.
- `Interface.ExpensesWindow.constructor`: requires the period query to succeed, because in the source the query is run inside the constructor and its exception escapes it. `Interface.DateWindow.ShowExpenses` models that error path.
- `Bot.TelegramBot.Run`: the server is a function of the offset, so it also stands for the network and for retries. Updates without text are not modelled.
