# Task manager core, modelled in Dafny

The repository is a command-line task manager written in JavaScript. Tasks are
JSON objects kept in one file, `tasks.json`. The commands are:

- `add`: a new task with a description, priority, due date and category;
- `list`: filters by status, priority and category, and sorts by priority, due date or status;
- `done`, `delete` (with a y/n confirmation), `search` and `stats`.

Two utility modules format dates and draw progress bars.

This project models the core of that program:

| source file | Dafny modules | form |
|---|---|---|
| `src/storage.js` | `Storage` | a class `TaskStore` whose field `file` is the file's state (missing, corrupt or a stored list); each operation loads, changes and overwrites it |
| `src/task.js` | `TaskQuery`, `TaskCommands` | filters and search as functions over task lists. `sortTasks` copies the list into a fresh array and sorts it in place. `stats` counts priorities in a loop. `add`, `done` and `delete` are methods on the store. |
| `src/utils/dateHelper.js` | `DateHelper` | pure functions; the current day is a parameter |
| `src/utils/progressBar.js` | `ProgressBar` | pure functions; `createBarChart` is a method with a loop |

The behaviour of the libraries the core calls is modelled as far as the core
uses it:

- `Records`: a task is a map from property names to JSON values; `{...a, ...b}` is `Merge`.
- `JsString`: `trim`, `toLowerCase`, `includes`, `parseInt`, `String(n)`, `padEnd`, `repeat` and `join`.
- `JsArray`: `filter`, `findIndex` and a filter's `length`.
- `JsSort`: a stable sort by an integer key, as an in-place insertion sort over an array.
- `Calendar`: proleptic Gregorian dates, day ordinals, `isValid`, `isBefore` and `startOfDay`.
- `DateFns`:
  - `parseISO` on the `YYYY-MM-DD` form;
  - `format` for the `y`, `M` and `d` tokens and literal characters;
  - `parse` for the six layouts `parseToISO` tries.
- `DateExamples`: the concrete cases the repository's tests check.

Percentages are exact reals. `Math.round(x)` is `floor(x + 0.5)`. Every
`throw` and every invalid result the core turns into a message is a `Result`
or a dedicated datatype.

## Model

| member | source | states |
|---|---|---|
| Records.Merge | src/storage.js:55 | The spread merge has the keys of both objects, the values of `updates` for its keys, and the old values for every other key. |
| Storage.ErrorMessage | src/storage.js:51-53 | The not-found message is `Task #<id> not found`, and the id parses back out of it. |
| Storage.Locate | src/storage.js:49 | `findIndex(t => t.id === id)` returns the first index whose task has that id, and none exactly when no task has it. |
| Storage.TaskStore.GetTasks | src/storage.js:11-19 | Returns the stored list, or `[]` for a missing file or one that does not parse as JSON; the state is unchanged. |
| Storage.TaskStore.SaveTasks | src/storage.js:25-27 | The file afterwards holds exactly the given list. |
| Storage.TaskStore.AddTask | src/storage.js:34-39 | Returns the task unchanged. The stored list becomes the old list plus the task: one longer, with the earlier entries untouched. |
| Storage.TaskStore.UpdateTask | src/storage.js:47-58 | An absent id gives the not-found error and leaves the file unchanged. Otherwise only the first matching entry is replaced by its merge with the updates, and that entry is returned. |
| Storage.TaskStore.DeleteTask | src/storage.js:65-76 | An absent id gives the not-found error and writes nothing. Otherwise exactly the first matching entry is removed and the result is `true`. |
| Storage.UpdateFrame | src/storage.js:55 | After an update the length and every other entry are unchanged. Fields not in the updates keep their values; the updated fields take the new ones. |
| Storage.DeleteFrame | src/storage.js:73 | `splice(i, 1)` shortens the list by one and keeps the order of the rest; the remaining multiset plus the removed task is the original. |
| Storage.SaveThenGet | src/storage.js:11-27 | Saving a list and reading it back gives the same list, order and every field included. |
| Storage.SaveTwice | src/storage.js:25-27 | Saving overwrites: after two saves only the second list is read back. |
| Storage.AddToCorrupt | src/storage.js:12-18 | Adding to a corrupt file starts from the empty list, so the file then holds only the new task. |
| Storage.RapidOperations | tests/storage.test.js:242-251 | Add #1, complete #1, add #2, delete #1: one task remains, and it is #2. |
| JsArray.Filter | src/task.js:87-95 | A filter never lengthens the list. |
| JsArray.FilterMembers | src/task.js:87-95 | The filter keeps exactly the elements that satisfy the predicate. |
| JsArray.FilterAppend | src/task.js:87-95 | Filtering distributes over concatenation, so relative order is kept. |
| JsArray.FilterFilter | src/task.js:87-95 | Two filters in a row are one filter by the conjunction. |
| JsArray.FindIndex | src/storage.js:49 | `findIndex` returns the first index that matches, or none when no element matches. |
| JsArray.CountUpdate | src/task.js:248-249 | Replacing one element changes a filter count by exactly what the old and new element contribute. |
| JsArray.CountDisjoint3 | src/task.js:253-258 | Predicates that are pairwise exclusive count at most the length of the list between them. |
| JsString.TrimEmptyIff | src/task.js:29 | `trim()` gives the empty string exactly when the text is all white space. |
| JsString.TrimmedEnds | src/task.js:37 | A trimmed text that is not empty starts and ends with a character that is not white space. |
| JsString.TrimInner | src/task.js:332 | Trimming keeps exactly the span from the first to the last character that is not white space. |
| JsString.Lower | src/task.js:214 | `toLowerCase` keeps the length and lowers each ASCII capital. |
| JsString.LowerIdempotent | src/task.js:214 | Lowering twice is lowering once. |
| JsString.IncludesIff | src/task.js:214 | `includes` holds exactly when the needle occurs at some index. |
| JsString.ParseIntOfIntToString | src/task.js:141 | `parseInt(String(n))` gives back `n` for every integer. |
| JsString.ParseIntOfLeadingNat | src/utils/dateHelper.js:134 | `parseInt` of a number followed by text that starts with neither a digit nor `x` gives back the number, so the count in a "k days ago" label can be read back. |
| JsString.NatToStringInjective | src/utils/dateHelper.js:134 | Different numbers are written differently. |
| JsString.Repeat | src/utils/progressBar.js:30-31 | `repeat(n)` has `n` times the length of its argument. |
| JsString.PadEnd | src/utils/progressBar.js:89 | `padEnd(w)` keeps the text as a prefix, fills with spaces, and has length `max(len, w)`. |
| JsSort.SortByKeySorted | src/task.js:295 | The sort orders by the comparator's key. |
| JsSort.SortByKeyPermutes | src/task.js:290-310 | The sort returns a permutation of its input. |
| JsSort.SortByKeyStable | src/task.js:295 | Elements with equal keys keep their input order. |
| JsSort.InsertInPlace | src/task.js:295 | Shifting one element into the sorted prefix of the array gives the prefix with the element inserted. The rest of the array is untouched. |
| JsSort.SortInPlace | src/task.js:290-310 | Sorting the array in place leaves it holding the stable sort of its old contents. |
| TaskQuery.ApplyFiltersIsConjunction | src/task.js:87-95 | The `list` filters keep, in original order, exactly the tasks equal on every given criterion, combined by AND. |
| TaskQuery.FilterIfGivenIsFilter | src/task.js:87-95 | An option that was not given filters nothing; a given option keeps the tasks whose field equals it. |
| TaskQuery.NoCriteriaKeepsAll | src/task.js:87-95 | With no option given, `list` shows every task. |
| TaskQuery.Search | src/task.js:213-215 | Search fails (a `TypeError` in the source) exactly when some task has no string description. Otherwise a task is among the results exactly when it is in the list and its lower-cased description contains the lower-cased query, and there are no more results than tasks. |
| TaskQuery.SearchAppend | src/task.js:213-215 | The results keep the stored order: searching a list made of two parts gives the first part's results followed by the second part's. |
| TaskQuery.SearchFinds | src/task.js:213-215 | A task is in the results exactly when it is in the list and the lowered query occurs in its lowered description. |
| TaskQuery.EmptyQueryMatchesAll | src/task.js:213-215 | The empty query matches every task. |
| TaskQuery.SearchIgnoresCase | src/task.js:214 | Searching for a query and for its lower-case form gives the same result. |
| TaskQuery.DueDate | src/task.js:301 | A due date the comparator reads is a real calendar day no later than year 9999. |
| TaskQuery.SortTasks | src/task.js:289-316 | Sorts a copy, so the input is untouched. The result is the specified stable order and a permutation of the input. Any other field returns an unchanged copy. |
| TaskQuery.SortedMembers | src/task.js:289-316 | The sorted list has exactly the members of the input. |
| TaskQuery.PriorityOrder | src/task.js:293-296 | Sorting by priority puts high, then medium, then low, and keeps the input order within each priority. |
| TaskQuery.StatusOrder | src/task.js:304-309 | Sorting by status puts every pending task before every completed task, and keeps the input order within each group. |
| TaskQuery.DueOrder | src/task.js:297-302 | Sorting by due date puts every dated task before every undated one, and dated tasks in non-decreasing date order. |
| TaskQuery.PriorityExample | tests/priority.test.js:168-181 | The list [low, high, medium] sorted by priority is [high, medium, low]. |
| TaskQuery.CompletionPercent | src/task.js:250 | The percentage is `completed / total * 100` rounded to the nearest integer, halves up; it lies in [0, 100] when `completed <= total`. |
| TaskQuery.ComputeStats | src/task.js:243-258 | The counting loop computes exactly the statistics of the list, including the no-statistics case for an empty list. |
| TaskQuery.StatsBounds | src/task.js:248-258 | Completed plus pending, and the three priority buckets, are each at most the total. The percentage lies in [0, 100]. It is 100 exactly when `200 * completed >= 199 * total`, and 0 exactly when `200 * completed < total`. |
| TaskQuery.PercentMonotone | src/task.js:250 | More completed tasks never lower the percentage. |
| TaskQuery.TwoOfThree | src/task.js:250-263 | Two completed tasks out of three show 67% completed and 33% pending. |
| TaskQuery.PriorityBuckets | tests/priority.test.js:231-249 | Two high, three medium and one low task give exactly those bucket counts. |
| TaskCommands.ErrorText | src/task.js:143-176 | The not-found error reads `Task #<id> not found` and the id parses back from it. |
| TaskCommands.ErrorTextInjective | src/task.js:143-176 | Different command errors never print the same message. |
| TaskCommands.BuildTask | src/task.js:35-49 | The built task has exactly the keys id, description, status, priority and createdAt, plus dueDate and category when given. Status is pending, priority defaults to medium, and the description is the trimmed text. |
| TaskCommands.NewTaskLiteral | src/task.js:35-41 | The object literal alone is a new task without a due date or category. |
| TaskCommands.WithDueDate | src/task.js:44-46 | Assigning `dueDate` to a new task without one gives the new task with that due date. |
| TaskCommands.WithCategory | src/task.js:47-49 | Assigning `category` gives the new task with that category. |
| TaskCommands.NewTaskFields | src/task.js:35-49 | A new task is pending, has the stored priority, and has its category when one was given. |
| TaskCommands.NewTaskFiltered | src/task.js:35-49 | A new task is listed by `list --status pending` with its own priority and category. |
| TaskCommands.NewTaskFound | src/task.js:37 | A search for its own trimmed description finds the new task. |
| TaskCommands.NewTaskListed | src/task.js:35-49 | A newly added task is both listed by its own criteria and found by its own description. |
| TaskCommands.Add | src/task.js:29-52 | A description that is empty after trimming is rejected and nothing is stored. Otherwise exactly the new task is appended to the stored list. |
| TaskCommands.Done | src/task.js:141-148 | An id that does not parse is rejected; an absent id gives the not-found error. In both cases the file is unchanged. Otherwise the task's status becomes `completed`. |
| TaskCommands.DoneOnlyStatus | src/task.js:148 | `done` changes only the `status` field of one task. The completed count rises by one unless the task was already completed; the pending count falls by one if it was pending. |
| TaskCommands.InvalidIdArgument | src/task.js:141-146 | An argument that starts with neither a digit, a sign nor white space does not parse as an id. |
| TaskCommands.Delete | src/task.js:164-198 | An invalid id or an absent task is an error and changes nothing. Otherwise the task is removed when forced or confirmed; when not confirmed the file is unchanged. |
| TaskCommands.DeleteRemovesOne | src/task.js:182 | Deleting removes one task with that id and keeps every task with another id. |
| TaskCommands.ShortYesConfirms | src/task.js:332-333 | The answer `y` confirms. |
| TaskCommands.PaddedYesConfirms | src/task.js:332-333 | The answer ` YES ` confirms, after trimming and lowering. |
| TaskCommands.NoDeclines | src/task.js:332-333 | The answers `n` and the empty answer do not confirm. |
| TaskCommands.OtherLengthsDecline | src/task.js:332-333 | An answer whose trimmed length is neither 1 nor 3 never confirms. |
| Calendar.DaysInMonth | src/utils/dateHelper.js:17 | A month has 28 to 31 days; February has 29 exactly in leap years. |
| Calendar.MonthsFillYear | src/utils/dateHelper.js:17 | The twelve months add up to the year's length. |
| Calendar.OrdinalOrder | src/utils/dateHelper.js:73 | Day ordinals order real dates as the calendar does, and equal ordinals mean the same date. |
| Calendar.NextDay | src/utils/dateHelper.js:123-140 | The next day is a real date after the given one. |
| Calendar.NextDayOrdinal | src/utils/dateHelper.js:128-129 | The next day's ordinal is one more. |
| Calendar.AddDaysOrdinal | src/utils/dateHelper.js:128-129 | Counting k days forward one day at a time adds k to the ordinal. |
| Calendar.DaysApart | src/utils/dateHelper.js:128-129 | A real date on or after another is reached from it by counting forward the difference of their ordinals. |
| Calendar.DayWithinYear | src/utils/dateHelper.js:128-129 | A date's ordinal lies within its own year's range of ordinals. |
| Calendar.YearsMonotone | src/utils/dateHelper.js:128-129 | Each year's range of ordinals lies before the next year's. |
| DateFns.ParseIsoDate | src/utils/dateHelper.js:15-17 | `parseISO` gives a date exactly for `YYYY-MM-DD` text naming a real day, and that date is the text's digits. |
| DateFns.IsoRoundTrip | src/utils/dateHelper.js:105 | Formatting a date in years 1 to 9999 with `yyyy-MM-dd` and parsing the text as ISO gives the date back. |
| DateFns.IsoRenderingOfString | src/utils/dateHelper.js:48-54 | Formatting a parsed ISO date with `yyyy-MM-dd` gives the original text back. |
| DateFns.ZeroPadShape | src/utils/dateHelper.js:54 | A zero-padded field has exactly the field's width, all digits, and reads back as its value. |
| DateFns.ZeroPadOfDigits | src/utils/dateHelper.js:54 | Padding the value of a digit string to its own width gives the string back. |
| DateFns.DefaultRendering | src/utils/dateHelper.js:48 | `MMM dd, yyyy` renders as the short month name, the two-digit day and the four-digit year. |
| DateFns.LongRendering | src/utils/dateHelper.js:97 | `MMMM dd, yyyy` renders with the full month name. |
| DateFns.ParseWithPattern | src/utils/dateHelper.js:103-104 | `parse` against a layout gives, when it succeeds, a real date in years 1 to 9999. |
| DateFns.ParseNeedsLiteral | src/utils/dateHelper.js:103 | Text lacking a separator character that the layout requires never parses. |
| DateFns.DefaultParseRoundTrip | src/utils/dateHelper.js:96-103 | Parsing the `MMM dd, yyyy` rendering of a date with the same layout gives the date back. |
| DateFns.ScannedDate | src/utils/dateHelper.js:103-104 | When a layout reads the whole text into year, month and day, the parse is that date exactly when it is a real date with a positive year. |
| DateHelper.ValidateDate | src/utils/dateHelper.js:8-40 | A missing, empty or non-string argument gets the "required" message. A string is valid exactly when it has the `YYYY-MM-DD` form and names a real day; otherwise it gets the format message. |
| DateHelper.MessagesNameForm | src/utils/dateHelper.js:20 | Both error messages mention `YYYY-MM-DD`. |
| DateHelper.FormatIsoIdentity | src/utils/dateHelper.js:48-58 | Formatting a valid ISO date with `yyyy-MM-dd` returns it unchanged. |
| DateHelper.DefaultDisplay | src/utils/dateHelper.js:48 | The default display is the short month, day and year, twelve characters long. |
| DateHelper.IsTaskOverdue | src/utils/dateHelper.js:65-78 | A task is overdue exactly when its due date is truthy, its status is not completed, the due date parses, and that day is strictly before today. |
| DateHelper.OverdueStaysOverdue | src/utils/dateHelper.js:65-78 | A task that is overdue today is still overdue tomorrow. |
| DateHelper.FirstLayout | src/utils/dateHelper.js:101-110 | The search returns the first layout that reads a date, or none when no layout does. |
| DateHelper.ParseToIso | src/utils/dateHelper.js:85-116 | A valid ISO date is returned as it is. Otherwise the first layout that reads a date gives it in ISO form, and that form is valid. The result is the error exactly when no layout reads the text. |
| DateHelper.ParseToIsoIdempotent | src/utils/dateHelper.js:85-89 | Parsing the ISO form that `parseToISO` returns gives the same result again. |
| DateHelper.NoDelimiterUnparsable | src/utils/dateHelper.js:92-115 | Text that is not ISO and has neither a slash nor a space is unparsable. |
| DateHelper.SlashReadings | src/utils/dateHelper.js:93-94 | A `dd/dd/dddd` text reads month first under the first layout and day first under the second. |
| DateHelper.SlashMonthFirst | src/utils/dateHelper.js:93-105 | When the month-first reading is a real date, `parseToISO` returns it. |
| DateHelper.SlashDayFirst | src/utils/dateHelper.js:94-105 | When only the day-first reading is a real date, `parseToISO` returns it. |
| DateHelper.DisplayHasNoSlash | src/utils/dateHelper.js:48-54 | The default display of a date contains no slash, so the slash layouts cannot read it. |
| DateHelper.DisplayReadsBack | src/utils/dateHelper.js:48-116 | `parseToISO` of `formatDate(d)` gives back the valid ISO date `d`. |
| DateHelper.GetRelativeDate | src/utils/dateHelper.js:123-147 | Text that is not a date is returned unchanged (it falls through to `formatDate`, which gives it back). |
| DateHelper.RelativeToday | src/utils/dateHelper.js:135-136 | The label is "Today" exactly for today's date. |
| DateHelper.RelativeTomorrow | src/utils/dateHelper.js:137-138 | The label is "Tomorrow" exactly for the day after today. |
| DateHelper.RelativeYesterday | src/utils/dateHelper.js:131-133 | The label is "Yesterday" exactly for the day before today. |
| DateHelper.RelativeDaysAgo | src/utils/dateHelper.js:131-134 | For k of at least two, the label is "k days ago" exactly when counting k days forward from the date reaches today. |
| DateHelper.AgoReadsBack | src/utils/dateHelper.js:131-134 | The number in a "k days ago" label reads back, with `parseInt`, as the k days from the date to today. |
| DateHelper.RelativeDaysAhead | src/utils/dateHelper.js:139-140 | For k from two to seven, the label is "In k days" exactly when the date is k days after today. |
| DateHelper.RelativeBeyondWeek | src/utils/dateHelper.js:141-142 | The label is the `formatDate` display exactly when the date comes after the day seven days from today. |
| ProgressBar.ColorOf | src/utils/progressBar.js:35-55 | A known colour name selects its colour; any other name gives green. |
| ProgressBar.ColorOfName | src/utils/progressBar.js:35-55 | Every colour is selected by its own name. |
| ProgressBar.Clamp | src/utils/progressBar.js:23 | The clamped percentage lies in [0, 100] and equals the input when the input already does. |
| ProgressBar.Round | src/utils/progressBar.js:26 | `Math.round` gives the integer within one half of its argument, halves rounded up. |
| ProgressBar.RoundMonotone | src/utils/progressBar.js:26 | Rounding is monotone. |
| ProgressBar.FilledWidthBounds | src/utils/progressBar.js:26-27 | For a non-negative width the filled width lies in [0, width], so the empty width is not negative either. |
| ProgressBar.FilledWidthMonotone | src/utils/progressBar.js:26 | A larger percentage never fills fewer cells. |
| ProgressBar.CreateProgressBar | src/utils/progressBar.js:14-69 | A negative width throws. Otherwise the bar is the filled cells then the empty cells, in brackets. The rounded percentage follows only when it is shown. The filled cells take the selected colour. |
| ProgressBar.BarCells | src/utils/progressBar.js:26-31 | Cells 1 to n hold the fill character and cells n+1 to width the empty character, between the two brackets. |
| ProgressBar.BarPercentText | src/utils/progressBar.js:61-66 | The text after the bar parses back to the rounded clamped percentage, in [0, 100], when shown, and is empty otherwise. |
| ProgressBar.PercentReadsBack | src/utils/progressBar.js:62 | `" N%"` parses back to N. |
| ProgressBar.GetProgressColor | src/utils/progressBar.js:102-113 | Green at or above `excellent`, else cyan at or above `good`, else yellow at or above `warning`, else red. |
| ProgressBar.ProgressColorMonotone | src/utils/progressBar.js:102-113 | With ordered thresholds, a higher percentage never gets a worse colour. |
| ProgressBar.CreateMiniProgressBar | src/utils/progressBar.js:121-149 | A negative width throws. Otherwise the bar is `▰` repeated for the filled width, then `▱` for the rest. Its colour comes from the clamped percentage with the default thresholds. |
| ProgressBar.MiniBarColors | src/utils/progressBar.js:122-146 | The mini bar is never blue or magenta, is green from 80% and red below 40%, and is exactly `width` cells long. |
| ProgressBar.ItemPercentage | src/utils/progressBar.js:82 | A total that is not positive gives 0%; a value within its total gives a share in [0, 100]. |
| ProgressBar.ChartLines | src/utils/progressBar.js:80-91 | There is one line per item. |
| ProgressBar.CreateBarChart | src/utils/progressBar.js:77-94 | The chart is the items' lines, in order, joined by newlines. A negative width throws at the first item. |
| ProgressBar.ZeroTotalEmptyBar | src/utils/progressBar.js:82-86 | An item whose total is not positive draws every cell empty. |
| ProgressBar.ChartLineShape | src/utils/progressBar.js:89 | A line is indented by three spaces, then the label. A label of at most 15 characters is padded to 15 characters, so the bar's opening bracket is at index 19. |
| DateExamples.LeapDay | tests/dateHelper.test.js:255-264 | 2024-02-29 is valid; 2023-02-29 gets the format message. |
| DateExamples.RejectedDates | tests/dateHelper.test.js:23-56 | 2024-13-45, 2024-1-5 and 2024/12/31 get the format message; the empty string and a non-string get the "required" message. |
| DateExamples.MonthFirstYearEnd | tests/dateHelper.test.js:149-153 | `12/31/2024` parses to `2024-12-31`. |
| DateExamples.MonthFirstExample | src/utils/dateHelper.js:93-105 | The ambiguous `03/04/2024` is read month first, as `2024-03-04`. |
| DateExamples.DayFirstExample | tests/dateHelper.test.js:155-159 | `31/12/2024` parses to `2024-12-31`. |
| DateExamples.NotADate | tests/dateHelper.test.js:167-171 | `not-a-date` is unparsable, with the parse message. |
| DateExamples.DisplayExample | tests/dateHelper.test.js:60-63 | `2024-12-31` displays as `Dec 31, 2024`. |
| DateExamples.DisplayParseExample | tests/dateHelper.test.js:161-165 | `Dec 31, 2024` parses to `2024-12-31`. |
| DateExamples.LongExample | tests/dateHelper.test.js:70-73 | `2024-01-15` with `MMMM dd, yyyy` displays as `January 15, 2024`. |

## Left out

- File I/O and JSON: the file is an abstract state, either missing, corrupt (not parsable as JSON) or a stored list of tasks. `JSON.stringify` and `JSON.parse` are taken to round-trip every task the model can hold, so special characters and empty objects survive by construction.
- Clocks: the current day (`startOfDay(new Date())`), `Date.now()` for a new id and `new Date().toISOString()` for `createdAt` are parameters. Time zones, daylight saving and millisecond arithmetic are not modelled; `getRelativeDate` works on whole-day ordinals, which is what its rounding of the millisecond difference gives.
- Console output and colours: chalk escapes, console messages, the emoji of `stats`, `getPriorityIcon` and the display lines of `list` and `search` are not modelled. A bar returns its uncoloured text beside the colour of its filled cells.
- Process control: the commander wiring and `process.exit` are modelled as error results.
- The y/n prompt: the readline prompt itself is not modelled. The answer is a parameter of `Delete`, and `Confirmed` models what `confirmAction` does with it.
- TaskQuery.SortTasks: modelled only where the comparators are consistent, which its precondition `Sortable` states:
  - every priority is high, medium or low;
  - every status is pending or completed;
  - every truthy due date is a valid `YYYY-MM-DD` string.

  The `NaN` comparisons and the inconsistent order among undated tasks are not modelled. The engine's sort is modelled as a stable insertion sort, since every stable sort gives the same result for a consistent comparator.
- DateFns.ParseIsoDate: models `parseISO` only on the `YYYY-MM-DD` form. Other ISO 8601 forms that `parseISO` accepts (times, week dates, ordinal dates, expanded years) count as invalid, which `validateDate` also does because of its regular expression. `formatDate` and `getRelativeDate` are modelled on the same restriction.
- DateHelper.IsTaskOverdue: a due date in another form that `parseISO` accepts (`2024-12`, `20241231`, `2024-12-31T10:00`) is never overdue in the model, while the source compares the day it denotes with today. `add` stores `--due` without checking it, so such a due date can reach the list.
- DateHelper.GetRelativeDate: a due date in such another form is returned unchanged in the model, while the source labels the day it denotes.
- Storage.TaskStore.GetTasks: file content that parses as JSON but is not an array of objects (`null`, `{}`, `5`, `[1]`) is outside the model. The source returns it as it is, and the next `push`, `t.id` or `filter` throws a `TypeError`.
- DateFns.FormatPattern: renders only runs of `y`, `M` and `d` and literal characters. Any other letter, quoted text or ordinal makes the rendering fail, and `formatDate` then returns its input, as it does when `format` throws.
- DateFns.ParseWithPattern:
  - the reference date supplies no missing fields, since all six layouts give year, month and day;
  - years below 1 are rejected;
  - month names are matched ignoring ASCII case only.
- JsString.Lower: maps only ASCII capitals; Unicode case mapping is not modelled.
- JsString.ParseInt: the 2^53 limit of safe integers is not modelled, so ids are unbounded integers.
- ProgressBar.Round: rounds exact reals. Floating-point error in `percentage / 100 * width` and in `value / total * 100` is not modelled; neither is `NaN`, nor a width that is not an integer.
- ProgressBar.ItemPercentage: an item's value and total are integers. A fractional JavaScript number, such as a value of 2.5, cannot be represented, so its share is not modelled.
- ProgressBar.CreateBarChart: items hold integer values and totals only. The source prints a fractional value such as `2.5` as it is at the end of the line, and the model has no such item. Labels are padded by counting characters, not UTF-16 code units; see JsString.PadEnd.
- JsString.PadEnd: length is counted in Unicode characters, while JavaScript's `length` and `padEnd` count UTF-16 code units. A character outside the Basic Multilingual Plane, such as an emoji, counts once in the model and twice in the source. A chart label with such characters therefore gets one more space of padding per character in the model, up to the width: `🔴 High` gets 9 spaces here and 8 in the source.
- ProgressBar.ChartLineShape: the bracket at index 19 is counted in characters. In UTF-16 code units it holds only for labels without characters outside the Basic Multilingual Plane.
- Records.Value: a task field holds a string, an integer, a boolean or `null`. Fractional numbers, arrays and nested objects inside a task are not modelled; the tasks the program itself writes never hold them.
- TaskQuery.CompletionPercent: rounds the exact rational `100 * completed / total`, not its floating-point value.
- Checks the tests expect but the code does not make (rejecting an unknown priority, folding `HIGH` to `high`, rejecting a bad `--due` in `add`) are not modelled; `add` stores its options as given.
- The Discord bot (`src/index.js`, `src/config.js`) and the sample code in `src/index.ts` are not part of this model.
