# Expense manager core, modelled in Dafny

This project models the core of a small Python expense manager:

- **The expense record** (`app/models/expense.py`). It is modelled in two parts.
  - `Expenses.Expense` is a class whose fields the mutators `update`, `apply_discount` and `categorize` change in place.
  - `Expenses.Record` is the value those fields hold. The record's pure parts are predicates and functions over it: validity, the category, date-range and keyword tests, equality without the id, `clone`, and conversion to and from a flat dictionary.
- **The in-memory store** (`app/services/expense_service.py`). `ExpenseServices.ExpenseService` holds `expenses`, a sequence of references to `Expense` objects. Aliasing is kept.
  - If one object is added twice, the bulk operations change it twice.
  - An update made through one reference is seen through every other.
  - The loops of `total_amount_by_category`, `find_duplicates`, `categorize_all`, `apply_discount_to_category` and the per-item import loop are `while` loops. Each is proved against a specification function by invariants.
- **The date and text helpers** (`app/utils/helpers.py`). These are pure functions over a proleptic Gregorian `Calendar.Date` (years 1 to 9999, the range of Python's `date`), plus models of `strip`, `lower` and the two regular expressions. `lower` and `\w` are ASCII; `strip` and `\s` use Python's full whitespace set.

Supporting modules:

- `Wrappers`: `Option`, `Result` and `Outcome`.
- `Text`: the parts of Python's `str` the core uses.
- `Calendar`: `toordinal`, `fromordinal`, `weekday`, `monthrange`, and the ordering of `date` and naive `datetime`.
- `IsoFormat`: `datetime.isoformat()` and the shapes of `datetime.fromisoformat` that `isoformat()` produces, plus a bare `YYYY-MM-DD`.

Amounts are `real`. A Python exception is a `Failure`/`Fail` value that names its cause.

Behaviours of the code worth knowing:

- `from_dict` raises `KeyError` when `"date"` is missing. The date is not defaulted (`FromDict`, `FromDictMissingKey`).
- `add_expense` assigns no id. It only checks `is_valid` and appends (`AddExpense`).
- `update` does not re-validate: an update can make a stored expense invalid (`UpdateDoesNotRevalidate`).
- `delete_expense` finds the expense by id. It then calls `list.remove`, which compares with `__eq__`, and `__eq__` ignores ids. It therefore deletes the first expense equal to the one found, which can be an earlier twin with another id (`DeleteExpense`, `DeleteRemovesEarlierTwin`).

## Model

| member | source | states |
|---|---|---|
| Expenses.Expense.constructor | app/models/expense.py:10-17 | a new expense object holds exactly the six given field values |
| Expenses.IsValidIff | app/models/expense.py:40-42 | valid exactly when the amount is positive and neither category nor description is empty or all whitespace |
| Expenses.MatchesCategoryProperties | app/models/expense.py:54-56 | a match means equal lengths and characters that agree up to ASCII case; the test is symmetric between the two strings, insensitive to the target's case, and true for the record's own category |
| Expenses.DateRangeProperties | app/models/expense.py:58-60 | the range is inclusive at both ends, and no date lies in a range whose start is after its end |
| Expenses.ContainsKeywordProperties | app/models/expense.py:100-102 | the lowered keyword occurs at some offset of the lowered description; the empty keyword is in every description |
| Expenses.SameIgnoresId | app/models/expense.py:88-98 | `__eq__` holds exactly when the records agree once the id is set equal; it is reflexive, symmetric and transitive |
| Expenses.KeyIffSame | app/services/expense_service.py:64 | two records have the same duplicate key exactly when `__eq__` holds between them |
| Expenses.CloneOf | app/models/expense.py:66-75 | the copy has the new id and is `__eq__` to the original |
| Expenses.Expense.Clone | app/models/expense.py:66-75 | returns a fresh object holding the copy |
| Expenses.Discounted | app/models/expense.py:77-80 | only the amount changes. For a percent strictly between 0 and 100 it becomes `amount * (1 - percent/100)`; for any other percent nothing changes |
| Expenses.DiscountShrinksPositiveAmount | app/models/expense.py:77-80 | an effective discount keeps a positive amount positive and makes it strictly smaller |
| Expenses.Expense.ApplyDiscount | app/models/expense.py:77-80 | the object's new value is the discounted old value |
| Expenses.Recategorized | app/models/expense.py:82-86 | only the category can change. It becomes `mapping[lower(category)]` when that key exists; otherwise the record is unchanged |
| Expenses.Expense.Categorize | app/models/expense.py:82-86 | the object's new value is the recategorised old value |
| Expenses.Assign | app/models/expense.py:47-48 | one `setattr`: the named field reads back the stored value, and every other field is unchanged; a value the field cannot hold changes nothing |
| Expenses.Expense.Update | app/models/expense.py:44-48 | the object's new value is the old one with the assignments applied in order |
| Expenses.UpdateKeepsUnmentioned | app/models/expense.py:44-48 | a field no assignment names keeps its value |
| Expenses.UpdateLastAssignmentWins | app/models/expense.py:44-48 | a field takes the value of the last assignment that names it |
| Expenses.UpdateIgnoresUnknownNames | app/models/expense.py:44-48 | assignments to names that are not fields change nothing |
| Expenses.UpdateDoesNotRevalidate | app/models/expense.py:44-48 | setting the amount to 0 leaves an invalid record; update does not check validity |
| Expenses.ToDict | app/models/expense.py:19-27 | the dictionary has exactly the six field names as keys, holds every field's value, and holds the date as its ISO text |
| Expenses.FromDict | app/models/expense.py:29-38 | decoding succeeds only when every required key is present |
| Expenses.FromDictToDict | app/models/expense.py:19-38 | decoding the dictionary of a record gives back that record, id included |
| Expenses.FromDictWithoutId | app/models/expense.py:32 | a dictionary without `id` decodes to the record with no id |
| Expenses.FromDictMissingKey | app/models/expense.py:31-38 | the first absent required key, in argument order, is the `KeyError` raised |
| Expenses.Where | app/models/expense.py:104-110 | the filter's result is an order-preserving subsequence of the list, holding exactly the elements that satisfy the test |
| Expenses.WhereCounts | app/models/expense.py:104-110 | each element that satisfies the test keeps all its occurrences, and every other element has none |
| Text.TrimLeft | app/utils/helpers.py:62 | removes exactly the leading whitespace: the removed prefix is all whitespace and the rest starts with a non-space |
| Text.TrimRight | app/utils/helpers.py:62 | removes exactly the trailing whitespace |
| Text.Strip | app/models/expense.py:42 | the result neither starts nor ends with whitespace |
| Text.StripEmptyIffAllSpace | app/models/expense.py:42 | `strip()` is empty exactly when the string is all whitespace |
| Text.StripIsTrimmedInfix | app/utils/helpers.py:62 | `strip()` keeps a contiguous middle part of the string |
| Text.LowerCharFacts | app/utils/helpers.py:62 | lowering never produces an upper-case letter, keeps whitespace, and changes exactly the upper-case letters |
| Text.LowerIdempotent | app/utils/helpers.py:62 | lowering twice is lowering once |
| Text.LowerEqIffCaseless | app/models/expense.py:56 | two strings lower to the same string exactly when they have the same length and agree character by character up to case |
| Text.IsInfixIffAtOffset | app/models/expense.py:102 | `p in s` holds exactly when `p` occurs at some offset of `s` |
| Text.EmptyIsInfix | app/models/expense.py:102 | the empty string is in every string |
| Text.Find | app/utils/helpers.py:31 | the first position of the character, or the length when it is absent |
| Text.RFind | app/utils/helpers.py:31 | the last position of the character, or -1 |
| IsoFormat.Pad | app/models/expense.py:26 | exactly `w` decimal digits |
| IsoFormat.ParseDigits | app/models/expense.py:37 | a value exactly when every character is a digit |
| IsoFormat.ParsePad | app/models/expense.py:26-37 | reading back a zero-padded number gives the number |
| IsoFormat.Format | app/models/expense.py:26 | `isoformat()` is 19 characters long, or 26 with microseconds |
| IsoFormat.DateText | app/models/expense.py:26 | the date part is 10 characters long |
| IsoFormat.TimeText | app/models/expense.py:26 | the time part is 8 characters long, or 15 with microseconds |
| IsoFormat.Parse | app/models/expense.py:37 | only texts of 10, 19 or 26 characters decode |
| IsoFormat.ParseDate | app/models/expense.py:37 | only 10-character texts decode as a date |
| IsoFormat.ParseTime | app/models/expense.py:37 | only 8- or 15-character texts decode as a time |
| IsoFormat.ParseFormat | app/models/expense.py:26-37 | `fromisoformat(isoformat(t)) == t` for every datetime |
| IsoFormat.ParseDateText | app/models/expense.py:26-37 | the date fields written out are read back |
| IsoFormat.ParseTimeText | app/models/expense.py:26-37 | the time fields written out are read back |
| IsoFormat.ParseDateOnly | app/models/expense.py:37 | a bare date decodes as midnight of that day, and to the same value as with `T00:00:00` appended |
| Calendar.DaysInMonth | app/utils/helpers.py:70 | every month has 28 to 31 days |
| Calendar.DaysBeforeMonth | app/utils/helpers.py:70 | the days before a month are never negative |
| Calendar.DaysBeforeYear | app/utils/helpers.py:55 | the days before a year are never negative |
| Calendar.DaysBeforeYearClosedForm | app/utils/helpers.py:55 | the year-by-year count equals Python's closed form `365p + p//4 - p//100 + p//400` |
| Calendar.DaysBeforeMonthTable | app/utils/helpers.py:70 | the month offsets are Python's table, with one more day after February in a leap year |
| Calendar.MonthsFillYear | app/utils/helpers.py:70 | the twelve months add up to the length of the year |
| Calendar.DaysBeforeMonthMonotone | app/utils/helpers.py:70 | a later month starts after every day of an earlier one |
| Calendar.DaysBeforeYearMonotone | app/utils/helpers.py:55 | a later year starts after every day of an earlier one |
| Calendar.Ordinal | app/utils/helpers.py:55 | `toordinal()` is at least 1 |
| Calendar.Weekday | app/utils/helpers.py:75 | `weekday()` is 0 to 6 |
| Calendar.WeekdayOfOrdinal | app/utils/helpers.py:75 | the weekday of an ordinal is 0 to 6 |
| Calendar.WeekdayOfOrdinalShift | app/utils/helpers.py:75-76 | `k` days later the weekday has moved on by `k`, modulo 7 |
| Calendar.MaxOrdinalIsLastDay | app/utils/helpers.py:76 | 9999-12-31 has ordinal 3652059 |
| Calendar.OrdinalWithinYear | app/utils/helpers.py:55 | a day's ordinal lies within its year's span of ordinals |
| Calendar.OrdinalOrder | app/utils/helpers.py:55 | one date is earlier than another exactly when its ordinal is smaller, and equal exactly when the ordinals are equal |
| Calendar.OrdinalInjective | app/utils/helpers.py:55 | a date is determined by its ordinal |
| Calendar.Next | app/utils/helpers.py:76 | the next day is a well-formed date |
| Calendar.Prev | app/utils/helpers.py:75 | the previous day is a well-formed date |
| Calendar.OrdinalNext | app/utils/helpers.py:76 | the next day has the next ordinal |
| Calendar.OrdinalPrev | app/utils/helpers.py:75 | the previous day has the previous ordinal |
| Calendar.YearBoundary | app/utils/helpers.py:55 | 1 January follows 31 December of the year before |
| Calendar.FromOrdinal | app/utils/helpers.py:75-76 | `fromordinal(n)` is the date whose ordinal is `n` |
| Calendar.YearOf | app/utils/helpers.py:75-76 | the year found is the one whose span holds the ordinal |
| Calendar.MonthOf | app/utils/helpers.py:75-76 | the month found is the one whose span holds the day of the year |
| Calendar.AddDays | app/utils/helpers.py:75-76 | `d + timedelta(days=k)` is the date whose ordinal is `k` more |
| Calendar.AddDaysSteps | app/utils/helpers.py:75-76 | adding one day is the next day, and subtracting one is the previous day |
| Calendar.FirstDayIsMonday | app/utils/helpers.py:75 | 0001-01-01 was a Monday |
| Calendar.WeekdayNext | app/utils/helpers.py:76 | the next day's weekday is one more, modulo 7 |
| Calendar.WeekdayAddDays | app/utils/helpers.py:75-76 | adding `k` days adds `k` to the weekday, modulo 7 |
| Calendar.AtMostIsTotalOrder | app/services/expense_service.py:75 | comparison of naive datetimes is a total order |
| Helpers.FirstDayOfMonth | app/utils/helpers.py:64-66 | same year and month, day 1, and no later than the given date |
| Helpers.LastDayOfMonth | app/utils/helpers.py:68-71 | same year and month, the day is the month's length, and it is no earlier than the given date or the first of the month |
| Helpers.MonthLengths | app/utils/helpers.py:68-71 | 31 days for months 1, 3, 5, 7, 8, 10 and 12, and 30 for 4, 6, 9 and 11. February has 29 days exactly in a Gregorian leap year, otherwise 28 |
| Helpers.LastDayEndsMonth | app/utils/helpers.py:68-71 | the day after the last day is the first of the next month, and the month spans its length less one day |
| Helpers.ValidIffWithinMaxOrdinal | app/utils/helpers.py:73-77 | a well-formed date is representable exactly when its ordinal is at most 3652059 |
| Helpers.WeekStart | app/utils/helpers.py:75 | the Monday on or before the date, `weekday()` days earlier |
| Helpers.WeekEnd | app/utils/helpers.py:76 | the Sunday six days after the Monday |
| Helpers.WeekRange | app/utils/helpers.py:73-77 | a Monday and the Sunday six days later that enclose the date. The result is `OverflowError` exactly when that Sunday would come after 9999-12-31 |
| Helpers.WeekRangeOverflowsOnlyAtTheEnd | app/utils/helpers.py:73-77 | the only dates whose week overflows are 9999-12-27 to 9999-12-31 |
| Helpers.WeekendIsSaturdayAndSunday | app/utils/helpers.py:79-81 | counting the week from its Monday, a date is a weekend day exactly when it is day 5 or 6 |
| Helpers.DaysBetweenProperties | app/utils/helpers.py:50-58 | the difference is zero exactly for equal dates and positive exactly when the start is earlier. It is antisymmetric and additive over three dates, and it undoes adding days |
| Helpers.CollapseFacts | app/utils/helpers.py:62 | collapsing whitespace leaves single spaces only, keeps a non-space first character, and does not end in whitespace when the input does not |
| Helpers.CollapseOfSingleSpaced | app/utils/helpers.py:62 | collapsing a single-spaced string changes nothing |
| Helpers.LowerKeepsShape | app/utils/helpers.py:62 | lowering keeps a string trimmed and single-spaced and leaves no upper-case letter; a string without upper-case letters is unchanged |
| Helpers.NormalizeTextProperties | app/utils/helpers.py:60-62 | the result is trimmed, single-spaced and free of upper-case letters, and normalising is idempotent |
| Helpers.NormalizedIsFixed | app/utils/helpers.py:60-62 | a text of that shape is its own normal form |
| Helpers.MatchesEmailPatternIffShape | app/utils/helpers.py:29-32 | the full-match test succeeds exactly when the text splits as `local@domain.tld` |
| Helpers.IsValidEmailCharacterization | app/utils/helpers.py:29-32 | valid exactly when the text, or the text less one final newline, is `local@domain.tld`. A valid text holds exactly one `@` |
| ExpenseServices.IdIndex | app/services/expense_service.py:25-26 | the first position whose id matches, or the length when none does |
| ExpenseServices.RemovalIndex | app/services/expense_service.py:31 | the first position `__eq__` to the value, or the length when none is |
| ExpenseServices.RemovalIndexAtMost | app/services/expense_service.py:28-33 | removing an element of the list removes it or an earlier equal one, and removes that element itself exactly when nothing earlier equals it |
| ExpenseServices.DeleteRemovesEarlierTwin | app/services/expense_service.py:28-33 | with records 1 and 2 differing only in id, deleting id 2 removes record 1 |
| ExpenseServices.TotalAppend | app/services/expense_service.py:48-49 | the sum of a concatenation is the sum of the sums |
| ExpenseServices.TotalBounds | app/services/expense_service.py:48-49 | amounts in `[lo, hi]` sum to between `n*lo` and `n*hi` |
| ExpenseServices.MeanIsBounded | app/services/expense_service.py:51-52 | the mean of amounts in `[lo, hi]` lies in `[lo, hi]` |
| ExpenseServices.OfCategory | app/services/expense_service.py:56-57 | an order-preserving subsequence of the records, holding exactly those of the given category |
| ExpenseServices.CategoryTotalAppend | app/services/expense_service.py:56-57 | one more record adds its amount to its own category's total only |
| ExpenseServices.CategoryTotalAbsent | app/services/expense_service.py:54-58 | a category that does not occur totals zero |
| ExpenseServices.CategoriesDistinct | app/services/expense_service.py:54-58 | the dictionary's keys, in insertion order, list no category twice |
| ExpenseServices.CategoriesIff | app/services/expense_service.py:54-58 | a category is a key exactly when some record has it |
| ExpenseServices.CategoriesSnoc | app/services/expense_service.py:57 | one more record adds its category at the end, unless it is already a key |
| ExpenseServices.Credit | app/services/expense_service.py:57 | `defaultdict` update: the record's category becomes a key whose entry is the old entry, or 0 when it was absent, plus the record's amount; every other entry is unchanged |
| ExpenseServices.TotalsStep | app/services/expense_service.py:56-57 | one loop step keeps the dictionary the per-category totals of the records seen so far |
| ExpenseServices.SumOfTotalsAppend | app/services/expense_service.py:54-58 | one more record raises the summed totals of distinct categories by its amount exactly when its category is among them |
| ExpenseServices.CategoryTotalsAddUp | app/services/expense_service.py:54-58 | the per-category totals add up to the total amount |
| ExpenseServices.DuplicateIndices | app/services/expense_service.py:60-69 | the reported positions are in range and strictly increasing |
| ExpenseServices.DuplicateIndicesIff | app/services/expense_service.py:60-69 | a position is reported exactly when its key occurred earlier, so a first occurrence is never reported |
| ExpenseServices.DuplicateCount | app/services/expense_service.py:60-69 | as many duplicates as elements, less the number of distinct keys |
| ExpenseServices.DuplicatesStep | app/services/expense_service.py:63-68 | one loop step appends the element exactly when its key was already seen |
| ExpenseServices.Insert | app/services/expense_service.py:75 | inserting adds exactly the one element |
| ExpenseServices.SortNewestFirst | app/services/expense_service.py:75 | the sort is a permutation |
| ExpenseServices.InsertKeepsOrder | app/services/expense_service.py:75 | insertion keeps a newest-first list newest first |
| ExpenseServices.SortIsNewestFirst | app/services/expense_service.py:75 | the sorted list has non-increasing dates |
| ExpenseServices.InsertIsStable | app/services/expense_service.py:75 | insertion goes in front of the elements of its own date |
| ExpenseServices.SortIsStable | app/services/expense_service.py:75 | elements with equal dates keep their original order |
| ExpenseServices.ElementsOfPermutation | app/services/expense_service.py:75 | permuted pairs have permuted objects |
| ExpenseServices.RecentIsPartOfList | app/services/expense_service.py:75 | a prefix of the sorted list is drawn from the list, counting repetitions |
| ExpenseServices.RecategorizedTimesProperties | app/services/expense_service.py:77-79 | repeated recategorising changes only the category, and changes nothing when the lowered category is not a key |
| ExpenseServices.DiscountedTimesProperties | app/services/expense_service.py:81-84 | repeated discounts change only the amount, and keep a positive amount positive and no larger |
| ExpenseServices.DiscountVisitsMeaning | app/services/expense_service.py:81-84 | the discount keeps the category, so a matching record is discounted on every visit and any other is left alone |
| ExpenseServices.DistinctOccursOnce | app/services/expense_service.py:77-84 | in a list without repeated references, every object is visited once |
| ExpenseServices.CategorizeVisit | app/services/expense_service.py:78-79 | one loop visit recategorises the visited object, so every object has been recategorised once per reference visited and the others are unchanged |
| ExpenseServices.DiscountVisit | app/services/expense_service.py:82-84 | one loop visit discounts the visited object if it matches, and leaves the others unchanged |
| ExpenseServices.Admit | app/services/expense_service.py:101 | an item is added exactly when it decodes to a valid record; otherwise it gives its decoding error or `ValueError` |
| ExpenseServices.Outcomes | app/services/expense_service.py:100-101 | one outcome per item |
| ExpenseServices.OutcomesAt | app/services/expense_service.py:100-101 | the outcome of item `i` is `add_expense(Expense.from_dict(items[i]))` |
| ExpenseServices.LeadingSuccesses | app/services/expense_service.py:100-101 | the leading items all succeed, and the next one fails |
| ExpenseServices.ImportStep | app/services/expense_service.py:100-101 | a failing item ends the import with its error, and a succeeding one appends its record and goes on |
| ExpenseServices.ImportAppendsLeadingSuccesses | app/services/expense_service.py:100-101 | the import keeps the stored records and appends exactly the leading successes, in order. It passes exactly when every item succeeds, and otherwise fails with the first failure's error |
| ExpenseServices.ExpenseService.constructor | app/services/expense_service.py:14-15 | the store starts empty |
| ExpenseServices.ExpenseService.AddExpense | app/services/expense_service.py:17-20 | a valid expense is appended and nothing else changes, with no id assigned; an invalid one raises `ValueError` and leaves the list as it was |
| ExpenseServices.ExpenseService.GetAllExpenses | app/services/expense_service.py:22-23 | the stored references, in order |
| ExpenseServices.ExpenseService.GetExpenseById | app/services/expense_service.py:25-26 | the first expense with the id; none exactly when no expense has it |
| ExpenseServices.ExpenseService.DeleteExpense | app/services/expense_service.py:28-33 | true exactly when the id is found. Then exactly one element is removed: the first `__eq__` to the one found, at or before it. Otherwise the list is unchanged |
| ExpenseServices.ExpenseService.UpdateExpense | app/services/expense_service.py:35-40 | true exactly when the id is found; then that object takes the updated value. The list and every other object are unchanged |
| ExpenseServices.ExpenseService.FilterExpensesByCategory | app/services/expense_service.py:42-43 | the order-preserving subsequence of exactly the category matches |
| ExpenseServices.ExpenseService.FilterExpensesByDateRange | app/services/expense_service.py:45-46 | the order-preserving subsequence of exactly the expenses within the range |
| ExpenseServices.ExpenseService.GetExpensesContainingKeyword | app/services/expense_service.py:71-72 | the order-preserving subsequence of exactly the expenses whose description contains the keyword |
| ExpenseServices.ExpenseService.TotalAmount | app/services/expense_service.py:48-49 | 0 for an empty store |
| ExpenseServices.ExpenseService.AverageAmount | app/services/expense_service.py:51-52 | 0 for an empty store, otherwise the value that times the count gives the total |
| ExpenseServices.ExpenseService.AverageIsBounded | app/services/expense_service.py:51-52 | the average lies between any lower and upper bound of the amounts |
| ExpenseServices.ExpenseService.TotalAmountByCategory | app/services/expense_service.py:54-58 | the keys are exactly the categories present, compared case-sensitively, and each value is its category's total |
| ExpenseServices.ExpenseService.FindDuplicates | app/services/expense_service.py:60-69 | exactly the elements at the positions whose key occurred earlier, in list order |
| ExpenseServices.ExpenseService.GetRecentExpenses | app/services/expense_service.py:74-75 | as many elements as the slice keeps, drawn from the list |
| ExpenseServices.ExpenseService.RecentIsNewestFirst | app/services/expense_service.py:74-75 | the result has non-increasing dates |
| ExpenseServices.ExpenseService.RecentLeavesOutOnlyOlder | app/services/expense_service.py:74-75 | no element left out is later than an element returned |
| ExpenseServices.ExpenseService.CategorizeAll | app/services/expense_service.py:77-79 | the list is unchanged, and each object is recategorised once per reference to it |
| ExpenseServices.ExpenseService.ApplyDiscountToCategory | app/services/expense_service.py:81-84 | the list is unchanged, and each object is put through the visit once per reference to it; only matching objects are discounted |
| ExpenseServices.ExpenseService.AddRecord | app/services/expense_service.py:101 | builds a fresh object from the decoded record and adds it as `add_expense` does; the stored objects keep their values |
| ExpenseServices.ExpenseService.ImportOne | app/services/expense_service.py:101 | one item: on success a fresh object holding the decoded record is appended; on failure the item's error is returned and the list is unchanged |
| ExpenseServices.ExpenseService.ImportItems | app/services/expense_service.py:100-101 | the list keeps its old objects in front and ends holding the records, and giving the outcome, that `Import` describes over the items' outcomes |

## Left out

- Not modelled, as outside the core:
  - the HTTP route layer;
  - the tests;
  - persistence and configuration;
  - `export_to_csv` and `export_to_json`;
  - opening and JSON-parsing the file in `import_from_json`.

  The import loop is modelled over an in-memory sequence of dictionaries.
- `summary`, `formatted`, `format_currency` and `format_percentage` are not modelled: they only format floats for display.
- `parse_date`, and so the string arguments of `calculate_days_between`, are not modelled. `strptime` with an arbitrary format is left out, and the days are counted between dates that are already parsed.
- The clock, `uuid`, `random`, `locale.setlocale` and logging are not modelled. This covers `datetime.now` as the default date, `get_current_timestamp`, `generate_transaction_id`, `get_random_color` and `log_exception`. The `date.today()` defaults of the date helpers become an explicit date argument.
- Amounts are real numbers, not binary floating point. The rounding of `amount * (percent / 100)` and of `sum` is not modelled.
- `lower()` and `\w` are modelled on ASCII letters and digits. Unicode case mapping and Unicode word characters are left out. `isspace`, and so `strip()` and `\s`, uses Python's full set of whitespace characters.
- Values are typed. `update` ignores a value of a kind the field cannot hold, where Python would store it. `from_dict` rejects one, where Python would build the object anyway.
- `hasattr` is true in Python for methods as well as fields. `update` is modelled on the six fields only, so assigning over a method is left out.
- The `NotImplemented` branch of `__eq__` compares an expense with a non-expense. There are no non-expense values in the model.
- `fromisoformat` also accepts time zones, week dates and other shapes that `isoformat()` does not produce. The model decodes only `YYYY-MM-DD`, `YYYY-MM-DDThh:mm:ss` and `YYYY-MM-DDThh:mm:ss.ffffff`.
- Dates with time zones are not modelled; every datetime is naive.
- The dictionaries of `to_dict` and `total_amount_by_category` are maps. Their key order is not part of the result; `Categories` states the insertion order separately.
- `GetAllExpenses` returns the stored references as a value. That the Python list object itself is shared with the caller, who could append to it, is not modelled.
- ImportItems: does not state that every appended object is fresh. `ImportOne` and `AddRecord` state freshness of each object they add.
- ExpenseService.TotalAmount: states only the empty case. The total is `Total(Values(expenses))`, and its properties are the lemmas `TotalAppend`, `TotalBounds` and `CategoryTotalsAddUp`.
- ExpenseService.GetRecentExpenses: the order and stability of the result are separate lemmas (`RecentIsNewestFirst`, `RecentLeavesOutOnlyOlder`, `SortIsStable`). The sort itself is an insertion sort on pairs of an object and its date.
