# US bikeshare explorer — a Dafny model

`bikeshare.py` lets a user pick a city (Chicago, New York City or Washington), a month (January–June or "all") and a day of the week (or "all"). It then loads that city's trip log and prints:

- the popular travel times;
- the popular stations and trip;
- the total and mean trip duration;
- user statistics: counts per user type and per gender, and earliest, latest and most common birth year.

It can also page through the raw rows five at a time.

This project models that program's logic in Dafny and proves what it computes:

| module | file | models |
|---|---|---|
| `Text` | `text.dfy` | the Python built-ins it uses on ASCII text: `str.strip`, `str.lower`, single-word `str.title`, and `int()` on an optional sign plus digits |
| `Calendar` | `calendar.dfy` | `strftime('%B')` and `strftime('%A')`: month name by table lookup, weekday from the Gregorian day count (0001-01-01 is day 1, a Monday) |
| `Trips` | `trips.dfy` | trip rows, the per-city schema (optional `Gender` and `Birth Year` columns) and the derived columns `month`, `day_of_week` and `start_hour` that `load_data` adds |
| `Filter` | `filter.dfy` | the month and day filtering of `load_data` |
| `Aggregates` | `aggregates.dfy` | the pandas reductions: `mode()[0]`, `value_counts()`, `min()`, `max()` |
| `Statistics` | `statistics.dfy` | `time_stats`, `station_stats`, `trip_duration_stats` and `user_stats`, as functions that return what the program prints |
| `Paginator` | `paginator.dfy` | the `display_raw_data` loop, as written and corrected |
| `Menu` | `menu.dfy` | `get_user_input`, `get_filter` (with its in-place `insert(0, 'all')`) and `get_filters` |
| `Wrappers` | `wrappers.dfy` | `Option` and `Result` |

Where the source calls `input()`, the model takes the typed lines as a sequence. Running out of lines ends the prompt, where Python would raise `EOFError`.

A pandas call that raises on an empty column becomes an `Err` result. A column missing from the city's file becomes `None`.

Three points of the program's behaviour shape the model:

- **Mode.** Which of several tied values `mode()[0]` returns depends on pandas' ordering, which is not visible in the program. The model states only that the reported value is a most common one.
- **Menu.** The menus are modelled as the program writes them, including the misspelt day list (see Findings).
- **Paging.** The pager never shows a chunk that would reach the last row (see Findings).

## Model

| member | source | states |
|---|---|---|
| Text.Strip | bikeshare.py:65 | the stripped text is empty or starts and ends with a non-whitespace character, and is no longer than the input |
| Text.StripPadded | bikeshare.py:65 | stripping padding + word + padding gives back exactly the word, for any whitespace padding |
| Text.StripEmptyIffBlank | bikeshare.py:65 | stripping yields "" exactly when the line is all whitespace |
| Text.StripLower | bikeshare.py:65 | stripping and lower-casing commute |
| Text.StripDecimal | bikeshare.py:65 | a numeral is unchanged by stripping |
| Text.ParseInt | bikeshare.py:69 | `int()` accepts only an optional sign followed by digits, and reads every plain digit string as a non-negative number; its values are pinned by ParseDecimal, ParseLeadingZero, ParsePlus, ParseMinus and ParseLower |
| Text.ParseDecimal | bikeshare.py:69 | `int(str(n)) == n` for every integer, negative ones included |
| Text.DigitsLeadingZero | bikeshare.py:69 | a leading zero does not change the value of a digit string |
| Text.ParseLeadingZero | bikeshare.py:69 | a non-empty digit string reads as its decimal value, and `"07"` reads like `"7"` |
| Text.ParsePlus | bikeshare.py:69 | a `+` sign before a digit string does not change its value, so `"+7"` reads as 7 |
| Text.ParseMinus | bikeshare.py:69 | a `-` sign before a digit string negates its value |
| Text.ParseLower | bikeshare.py:69 | `int()` reads the same number (or fails the same way) before and after lower-casing |
| Text.Lower | bikeshare.py:82 | `lower()` keeps the length and lower-cases each character in place, leaving non-letters alone |
| Text.LowerIdempotent | bikeshare.py:82 | lower-casing twice is lower-casing once |
| Text.Title | bikeshare.py:145 | title case keeps the length; its first character is the input's first character upper-cased and every later one the input's character lower-cased |
| Text.TitleOfLowerWord | bikeshare.py:150 | title-casing a lower-case word changes only its first letter |
| Text.TitleIgnoresCase | bikeshare.py:150 | the title case of a lower-cased word equals that of the word as typed |
| Calendar.MonthName | bikeshare.py:136 | `%B` is one of the twelve English month names |
| Calendar.WeekdayName | bikeshare.py:137 | `%A` is one of the seven English weekday names |
| Calendar.Weekday | bikeshare.py:137 | the weekday index is below 7 |
| Calendar.DaysBeforeNextMonth | bikeshare.py:137 | the month-offset table agrees with the month lengths, leap years included |
| Calendar.DaysBeforeNextYear | bikeshare.py:137 | the day count of the years before `y + 1` adds the length of year `y` |
| Calendar.NextDayIsNextOrdinal | bikeshare.py:137 | consecutive calendar days have consecutive day numbers, across month and year ends |
| Calendar.NextDayIsNextWeekday | bikeshare.py:137 | the weekday advances by one each day, Sunday wrapping to Monday |
| Calendar.FirstDayOf2017 | bikeshare.py:137 | 1 January 2017 is reported as "Sunday" |
| Trips.Derive | bikeshare.py:133-138 | a row gains the month name of its start date, its weekday name and its start hour; all other fields are kept unchanged |
| Trips.FirstInvalid | bikeshare.py:133 | finds the first row whose start time cannot be converted, or none when all can |
| Trips.Load | bikeshare.py:129-138 | a load succeeds exactly when every start time converts; it then holds, in order and under the city's schema, each row with the month, weekday and hour derived from its own start time; otherwise it names an offending row |
| Trips.Column | bikeshare.py:145 | `df[column]` has one value per row, in row order |
| Trips.ColumnMember | bikeshare.py:168 | every value in a column comes from some row |
| Trips.Present | bikeshare.py:259 | dropping missing cells keeps exactly the present values |
| Trips.PresentAppend | bikeshare.py:259 | dropping missing cells from two stretches keeps the present values of each, in order |
| Filter.Where | bikeshare.py:145 | a masked frame holds exactly the rows that satisfy the mask and is no longer than the input |
| Filter.WhereIsSubsequence | bikeshare.py:145 | a masked frame keeps the input order |
| Filter.WhereAppend | bikeshare.py:145 | masking a concatenation masks each part |
| Filter.WhereSame | bikeshare.py:150 | masks that agree on every row select the same rows |
| Filter.WhereWhere | bikeshare.py:143-150 | masking twice equals masking once with the conjunction |
| Filter.WhereAll | bikeshare.py:143 | a mask true on every row keeps the frame |
| Filter.WhereNone | bikeshare.py:148-150 | a mask false on every row empties the frame |
| Filter.Apply | bikeshare.py:142-152 | the filtered rows are exactly the input rows whose month and weekday equal the title-cased arguments ("all" constrains nothing); the schema is kept and the result is no longer than the input |
| Filter.AllAllIsIdentity | bikeshare.py:143-150 | month "all" and day "all" return the dataset unchanged |
| Filter.ApplyIsConjunction | bikeshare.py:142-150 | the month mask followed by the day mask is one conjunctive mask |
| Filter.ApplyIdempotent | bikeshare.py:142-152 | filtering again with the same arguments changes nothing |
| Filter.ApplyKeepsOrder | bikeshare.py:142-152 | the result is a subsequence of the input, so row order is kept |
| Filter.ApplyAppend | bikeshare.py:142-152 | filtering two stretches of a log together equals filtering each and concatenating |
| Filter.UnknownMonthSelectsNothing | bikeshare.py:143-145 | a month argument whose title case is no month name yields no rows |
| Filter.UnknownDaySelectsNothing | bikeshare.py:148-150 | a day argument whose title case is no weekday name yields no rows |
| Filter.WednessdaySelectsNothing | bikeshare.py:148-150 | the listed "wednessday" yields no rows on any loaded dataset |
| Filter.WednesdaySelectsWednesdays | bikeshare.py:148-150 | spelled "wednesday", the day filter keeps exactly the Wednesday rows (with the month constraint) |
| Aggregates.Count | bikeshare.py:253 | a value occurs a positive number of times exactly when it is in the column |
| Aggregates.CountIsMultiplicity | bikeshare.py:253 | the count equals the multiplicity in the column's multiset |
| Aggregates.ModeFrom | bikeshare.py:168 | a scan that keeps the value of highest count so far ends with a most common value |
| Aggregates.Mode | bikeshare.py:168 | `mode()[0]` of a non-empty column occurs in it, and no value of the column occurs more often |
| Aggregates.ModeIsUnique | bikeshare.py:168 | a value strictly more common than all others is the mode |
| Aggregates.Min | bikeshare.py:269 | `min()` is a value of the column and no value is below it |
| Aggregates.Max | bikeshare.py:270 | `max()` is a value of the column and no value is above it |
| Aggregates.Distinct | bikeshare.py:253 | the distinct values, each once, covering the column |
| Aggregates.Tally | bikeshare.py:253 | pairs each key with its number of occurrences |
| Aggregates.ValueCounts | bikeshare.py:253 | `value_counts()` lists every distinct value of the column exactly once, with its number of occurrences, and the counts add up to the column length |
| Aggregates.TallyEmpty | bikeshare.py:253 | counting over an empty column gives 0 in total |
| Aggregates.TallyCons | bikeshare.py:253 | one more row raises the total by the number of keys equal to it |
| Aggregates.CountUnique | bikeshare.py:253 | a key of a duplicate-free key list occurs in it once |
| Aggregates.TallyTotal | bikeshare.py:253 | over duplicate-free keys covering the column, the counts add up to its length |
| Statistics.TimeStats | bikeshare.py:155-182 | popular month, weekday and start hour are modes of their columns; the call fails exactly on an empty frame |
| Statistics.TimeStatsAreCalendarValues | bikeshare.py:168-177 | on loaded data, the popular month and day are calendar names and the popular hour is below 24 |
| Statistics.FilteredMonthIsPopular | bikeshare.py:168 | after filtering by a month, that month is the popular month |
| Statistics.FilteredDayIsPopular | bikeshare.py:172 | after filtering by a day, that day is the popular day |
| Statistics.PopularHourExample | bikeshare.py:177 | start hours 8, 8, 17 give popular hour 8 |
| Statistics.StationStats | bikeshare.py:185-213 | popular start station, end station and "start <----> end" trip are modes of their columns; the call fails exactly on an empty frame |
| Statistics.PopularTripWasMade | bikeshare.py:208 | the popular trip key is the start and end station of some trip in the frame |
| Statistics.TripDurationStats | bikeshare.py:216-238 | the total is the sum of the trip durations (0 on an empty frame); the mean is missing exactly on an empty frame, and otherwise mean × row count = total |
| Statistics.TotalDuration | bikeshare.py:229 | `sum()` is 0 on no rows and the duration itself on one row; with TotalAppend this fixes it as the sum over all rows |
| Statistics.TotalAppend | bikeshare.py:229 | the total of two stretches is the sum of their totals |
| Statistics.TotalSplits | bikeshare.py:229 | the total of the rows a mask keeps plus that of the rows it drops is the whole total |
| Statistics.TotalBounds | bikeshare.py:229 | durations between lo and hi bound the total by n·lo and n·hi |
| Statistics.MeanBetween | bikeshare.py:233 | the mean lies between the shortest and the longest duration |
| Statistics.QuotientBetween | bikeshare.py:233 | a total between n·lo and n·hi gives a quotient between lo and hi |
| Statistics.DurationExample | bikeshare.py:229-233 | durations 100 and 300 give total 400 and mean 200 |
| Statistics.Trunc | bikeshare.py:269-271 | `int()` of a float truncates toward zero: the result is within one of x, at or below a non-negative x and at or above a negative one |
| Statistics.TruncMonotone | bikeshare.py:269-271 | `int()` of a float keeps the order |
| Statistics.TruncBetween | bikeshare.py:269-271 | truncation keeps every year between the truncated minimum and maximum |
| Statistics.BirthYearStats | bikeshare.py:267-275 | earliest ≤ popular ≤ most recent; every year truncates within [earliest, most recent], which are attained; popular is the truncation of a mode; it fails exactly when there is no present year |
| Statistics.UserStats | bikeshare.py:241-282 | user-type counts are `value_counts()` of the column, adding up to the row count; gender counts exist exactly when the city has the column, are `value_counts()` of the present genders, and give each gender the number of rows that carry it; birth-year figures exist exactly when the city has the column, are those of the present years, and fail exactly when no year is present |
| Statistics.PresentCount | bikeshare.py:259 | dropping missing cells keeps each present value as many times as it occurs |
| Statistics.CountAppend | bikeshare.py:259 | occurrences in two stretches add up |
| Statistics.NoGenderColumn | bikeshare.py:258-263 | a city without a `Gender` column reports the figure as unavailable, not as an error |
| Paginator.IsYes | bikeshare.py:299 | a reply counts as "yes" only if it has three characters and starts with y or Y |
| Paginator.YesInAnyCase | bikeshare.py:299 | "yes" is accepted in any case, while "y", "no" and " yes" are not |
| Paginator.Chunks | bikeshare.py:299-303 | the loop prints at most one chunk per reply, and every chunk has exactly chunk-size rows; ChunkAt, ChunksStop and ChunksContiguous give each chunk's rows |
| Paginator.DisplayRawData | bikeshare.py:284-303 | the loop prints exactly the chunks of the specification function `Chunks`, in order |
| Paginator.ChunkAt | bikeshare.py:297-303 | chunk k is rows [start + k·size, start + (k+1)·size), lies before the last row, and was asked for by a "yes" |
| Paginator.ChunksStop | bikeshare.py:299 | the loop stops at the first reply that is not "yes", or when the next chunk would reach the last row |
| Paginator.ChunksContiguous | bikeshare.py:297-303 | the printed chunks are contiguous and non-overlapping: together they are exactly rows [start, start + n·size) |
| Paginator.LastRowNeverShown | bikeshare.py:299 | every printed chunk ends before the last row |
| Paginator.ShortDataNeverShown | bikeshare.py:299 | with at most chunk-size rows, nothing is ever printed |
| Paginator.TenRowsShowOnlyFive | bikeshare.py:299 | ten rows in chunks of five, always "yes": only rows 0–4 are printed |
| Paginator.DisplayRawDataCorrected | bikeshare.py:299-303 | the corrected loop prints exactly `CorrectedChunks` |
| Paginator.CorrectedChunksShowEverything | bikeshare.py:299-303 | corrected, enough "yes" replies print every row from the start index, each once and in order |
| Menu.GetUserInput | bikeshare.py:51-84 | a number result is always out of range for the options, and a name that is not an option was typed as text, not as a number; SelectByNumber, ZeroSelectsLast, NegativeSelectsFromEnd, OutOfRangeIsRejected, NameAccepted, SelectByName and IgnoresCase pin each branch |
| Menu.Accepted | bikeshare.py:46 | a number never counts as one of the options |
| Menu.PyIndex | bikeshare.py:74-78 | Python indexing succeeds exactly for -len ≤ i < len, counting negative indices from the end |
| Menu.SelectByNumber | bikeshare.py:68-74 | typing k, for 1 ≤ k ≤ len, selects the k-th option |
| Menu.ZeroSelectsLast | bikeshare.py:70-74 | typing "0" selects the last option |
| Menu.NegativeSelectsFromEnd | bikeshare.py:70-74 | typing -k selects the option at index len - 1 - k |
| Menu.OutOfRangeIsRejected | bikeshare.py:76-78 | an out-of-range number comes back as that number minus one and is not accepted |
| Menu.NameAccepted | bikeshare.py:80-82 | a non-numeric line resolves to the name given by its stripped, lower-cased text, and is accepted exactly when that name is an option |
| Menu.SelectByName | bikeshare.py:65-82 | an option typed in any case with blanks around it, and not readable as a number, selects that option |
| Menu.WashingtonByName | bikeshare.py:65-82 | the line `" Washington "` at the city prompt selects `washington` |
| Menu.IgnoresCase | bikeshare.py:65-82 | the resolved choice does not depend on the case of the typed line |
| Menu.AllShiftsNumbers | bikeshare.py:31-36 | with "all" in front, "1" selects "all" and number k + 1 selects what k selected before |
| Menu.ReadUntilValid | bikeshare.py:43-47 | the choice is the first typed line that resolves to an option, every earlier line was rejected, and with no accepted line every line was rejected and all are used up; the result equals the reference FirstAccepted |
| Menu.FirstAccepted | bikeshare.py:43-47 | reference definition of the prompt loop: the first accepted line and the number of lines read; it never reads more lines than there are |
| Menu.AfterChoice | bikeshare.py:43-47 | the lines left over after a choice are a suffix of the input |
| Menu.FirstAcceptedUnique | bikeshare.py:43-47 | any choice that is the first accepted line, with every earlier one rejected (or none accepted and all read), is FirstAccepted's |
| Menu.RejectedOneMore | bikeshare.py:46-47 | one more rejected line extends the run of rejected lines |
| Menu.OptionList.constructor | bikeshare.py:98 | a new list holds a copy of the given options |
| Menu.OptionList.InsertAll | bikeshare.py:31-32 | `insert(0, 'all')` puts "all" in front of the list in place |
| Menu.GetFilter | bikeshare.py:15-49 | the caller's list gains "all" in front when asked; the choice is on the updated list and is the first accepted line; with no choice every line was rejected; the result is FirstAccepted on the updated list |
| Menu.GetFilters | bikeshare.py:86-114 | the city is the first line accepted on the city list; the month is the first accepted on "all" + months among the lines left after the city; the day likewise after the month; each is a listed option, and no day choice title-cases to "Wednesday" |
| Menu.FourSelectsWednessday | bikeshare.py:11 | on the day menu, typing "4" selects "wednessday" |
| Menu.NoDayOptionIsWednesday | bikeshare.py:11 | no option of the day menu title-cases to "Wednesday" |
| Menu.NoAnswerSelectsWednesday | bikeshare.py:11 | no accepted answer on the day menu title-cases to "Wednesday" |
| Menu.CorrectedDaysAreWeekdays | bikeshare.py:11 | the corrected day list title-cases to the seven weekday names, in order |
| Menu.CorrectedDayIsWeekday | bikeshare.py:11 | the i-th corrected day title-cases to the i-th weekday name |

## Left out

- Reading the CSV files and the `CITY_DATA` table (bikeshare.py:5-7, 129): file I/O. A city's rows arrive as a sequence, with a schema that says whether `Gender` and `Birth Year` exist.
- Text parsing of `Start Time` by `pd.to_datetime`: a raw row arrives with its date and time already split into fields. An invalid field stands for a start time that does not convert.
- The `End Time` column: it is never read.
- All `print` and `input` calls, the menu text (bikeshare.py:28-40), elapsed-time measurement and the `main` restart loop (bikeshare.py:305-321): console I/O and clocks.
- Aggregates.Mode: states only that the value returned is a most common one, because pandas' order among tied values is not visible in the program.
- Statistics.TimeStats: the tie-break among equally popular values is left open, as for `Aggregates.Mode`.
- Statistics.StationStats: the tie-break among equally popular values is left open, as for `Aggregates.Mode`.
- Statistics.BirthYearStats: the popular year is only known to be the truncation of some most common year, for the same reason.
- Statistics.UserStats: the order in which `value_counts()` lists the categories (by descending count) is not modelled; the categories are listed in order of first occurrence.
- Statistics.TripDurationStats: durations are integers and the mean is exact `real` division; floating-point rounding is not modelled. On an empty frame the mean is missing where pandas reports NaN.
- Missing `User Type` cells: user types are taken as always present.
- Missing `Trip Duration`, `Start Station` and `End Station` cells: every row has them. pandas would skip a missing duration in `sum()` and `mean()`, and a missing station makes the `' <----> '` key NaN, which `mode()` drops.
- Text.Lower, Text.Strip and Text.Title: only ASCII is modelled. Python's Unicode case mapping, Unicode whitespace and multi-word title-casing are not.
- `int()` forms other than an optional sign and decimal digits: underscores, Unicode digits, and non-ASCII whitespace around the number (which the ASCII-only strip keeps and Python's `int()` would accept). Such a token is rejected as a number.
- Menu.ReadUntilValid: running out of typed lines ends the prompt without a choice, where Python raises `EOFError`.

## Findings

| source | as written | input that shows it | evidently intended | confidence | as-written member | corrected member |
|---|---|---|---|---|---|---|
| bikeshare.py:11 | `DAYS` spells the third day "wednessday", and its title case "Wednessday" is no `%A` weekday name | choose day "wednessday" (or "4" on the day menu): the filter returns no rows on any city | "wednesday", so that choosing it keeps the Wednesday trips | high, not executed | Filter.WednessdaySelectsNothing | Filter.WednesdaySelectsWednesdays |
| bikeshare.py:299 | the loop prints a chunk only while `start_index + chunk_size < len(df)`, so the chunk that reaches the last row is never printed | 10 rows, chunk size 5, replies "yes", "yes", "yes": only rows 0–4 are printed; with 5 rows or fewer nothing is | print while `start_index < len(df)`, with a short last chunk, so every row can be seen | high, not executed | Paginator.TenRowsShowOnlyFive | Paginator.CorrectedChunksShowEverything |
