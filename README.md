# finviz-platform: the screener clean-up and the earnings calendar, in Dafny

This project models two Python files of finviz-platform.

- `finviz_utils/finviz_utils.py` holds the scalar converters that turn one screener cell into a number or a label: money with B/M/K suffixes, percentages, 52-week ranges, volumes, Yes/No flags and earnings times. It also holds the column passes that apply them, in place, to the rows of a screener frame indexed by field name.
- `finviz_utils/earnings_calendar/earnings_calendar.py` covers the earnings calendar:
  - the `days_left` clock arithmetic;
  - `MasterEarningsCalendar`, which reads the whole calendar and extends the local copy with newer remote rows;
  - `FinvizDataCalendarGenerator`, which checks the sector/industry/index argument, builds the storage path and joins the calendar onto the screener fundamentals;
  - `FinvizCalendarLoader`, which loads a calendar and answers `days_left` windows, with the incremental `_store`.

Modules, in dependency order:

- `Results`: Option and Result.
- `Text`: Python's `str`, `zfill`, `lower`, `strip`, `replace`, `find`, `split`.
- `Decimal`: `float(str)` on decimal text.
- `Cells`: the values a pandas cell holds. NaN is `Missing` and `None` is `Null`.
- `Normalize`: the scalar converters.
- `FramePasses`: the column passes, with the class `Frame`.
- `Tables`: `df[mask]`, slicing and `sort_values`.
- `CalendarRows`: calendar rows, `days_left`, `drop_duplicates` and column stamping.
- `CalendarPaths`: the storage layout.
- `MasterCalendar`.
- `CalendarGenerator`.
- `CalendarLoading`: the loader, with the class `CalendarLoader`.

Conventions:

- A pandas operation that raises becomes an `Err`.
- Python integers are unbounded, so `int` needs no wrap-around.
- The model treats pandas' `sort_values` and `sort_index` as unstable, so a sort promises only ascending keys and the same rows (a multiset equality).
- The clock is an explicit `Clock` value: today's day number, the microsecond of the day and the civil date.
- The files the code reads are a `map` from path to rows.

## Model

| member | source | states |
|---|---|---|
| Normalize.MoneyValue | finviz_utils/finviz_utils.py:117-138 | floats and NaN come back unchanged, an int becomes the equal float, None raises; "-" gives 0.0; text ending in none of B, M, K (other than "-") comes back unchanged; text ending in B, M or K (tested in that order) raises exactly when the text before the suffix does not parse as a number, and otherwise gives a float |
| Normalize.MoneyValueIdempotent | finviz_utils/finviz_utils.py:117-138 | converting an already converted money value changes nothing |
| Normalize.MoneyOfNat | finviz_utils/finviz_utils.py:123-134 | "nB", "nM", "nK" read as n times 1e9, 1e6, 1e3 for every whole n |
| Normalize.MoneyOfDecimal | finviz_utils/finviz_utils.py:123-134 | every readable number followed by B, M or K reads as it times 1e9, 1e6 or 1e3 |
| Normalize.StripNumberSuffix | finviz_utils/finviz_utils.py:124 | stripping a letter that cannot end a number removes exactly the appended one |
| Normalize.MoneyBillionsExample | finviz_utils/finviz_utils.py:123-126 | "1.5B" is 1.5e9 |
| Normalize.MoneyExamples | finviz_utils/finviz_utils.py:135-138 | "-" is 0.0 and unrecognised text comes back unchanged |
| Normalize.Scaled | finviz_utils/finviz_utils.py:124-125 | a successful suffix conversion yields a float |
| Normalize.FormatPercent | finviz_utils/finviz_utils.py:140-151 | raises exactly for a value that is neither text nor a number; a float x gives x/100 and an int i gives i/100; results are floats; NaN stays NaN |
| Normalize.PercentOfInt | finviz_utils/finviz_utils.py:140-151 | "i%", "i" and the integer i all give i/100, negative i included |
| Normalize.PercentOfDecimal | finviz_utils/finviz_utils.py:141-151 | any readable number, with or without a trailing '%', gives that number divided by 100 |
| Normalize.PercentUnreadable | finviz_utils/finviz_utils.py:142-145 | text that does not read as a number, once '%' is stripped, gives 0.0 |
| Normalize.PercentExamples | finviz_utils/finviz_utils.py:140-151 | "12.5%" is 0.125, the integer 5 is 0.05, "-" is 0.0 |
| Normalize.RangeSide | finviz_utils/finviz_utils.py:176-179 | "-" is 0.0 and any other readable side is a float |
| Normalize.Low52 | finviz_utils/finviz_utils.py:182-188 | only text can give a low, and the low is a float |
| Normalize.High52 | finviz_utils/finviz_utils.py:173-180 | only text can give a high, and the high is a float |
| Normalize.RangeParts | finviz_utils/finviz_utils.py:173-188 | for "LOW - HIGH", low is read from the part before " - " and high from the part after |
| Normalize.SplitPair | finviz_utils/finviz_utils.py:175 | text free of the separator's first character splits into exactly its two sides |
| Normalize.RangeSidePointed | finviz_utils/finviz_utils.py:179 | "whole.frac" reads as its decimal value |
| Normalize.RangeExample | finviz_utils/finviz_utils.py:173-188 | "10.5 - 20.25" is low 10.5 and high 20.25 |
| Normalize.RangeDashExample | finviz_utils/finviz_utils.py:182-185 | "- - 20.25" is low 0.0 and high 20.25 |
| Normalize.Volume | finviz_utils/finviz_utils.py:220-227 | text gives a float or raises; any other value comes back unchanged |
| Normalize.VolumeOfDecimal | finviz_utils/finviz_utils.py:220-227 | a volume raises exactly when its text without commas is not a number, and otherwise is that number |
| Normalize.VolumeOfGroups | finviz_utils/finviz_utils.py:224-225 | three comma-separated groups read as the number their digits spell |
| Normalize.VolumeIgnoresCommas | finviz_utils/finviz_utils.py:224-225 | commas never change a volume, and text still holding a comma could not be read |
| Normalize.VolumeExample | finviz_utils/finviz_utils.py:220-225 | "1,234,567" is 1234567.0 |
| Normalize.GroupsJoined | finviz_utils/finviz_utils.py:224 | comma-separated digit groups lose exactly the commas |
| Normalize.ToFloat | finviz_utils/finviz_utils.py:236 | `float(v)` raises exactly on None and unreadable text; floats and NaN come back unchanged, an int becomes the equal float, and readable text becomes the number it reads as |
| Normalize.TransformBoolean | finviz_utils/finviz_utils.py:241-251 | 1 exactly for "Yes", 0 exactly for "No", NaN for everything else (both directions) |
| Normalize.EarningsTime | finviz_utils/finviz_utils.py:263-271 | raises exactly for non-text; gives a label exactly when the text is not "-" and has three tokens, and that label is the third token |
| Normalize.EarningsTimeOfThree | finviz_utils/finviz_utils.py:268-270 | "a b t" gives t for any three words |
| Normalize.EarningsTimeDashIsOneToken | finviz_utils/finviz_utils.py:265-266 | "-" is one token, so the explicit test only repeats the length test's outcome |
| Normalize.EarningsTimeExamples | finviz_utils/finviz_utils.py:263-271 | "Feb 23 AMC" gives "AMC", "-" gives NaN, NaN raises |
| Decimal.ParseDecimal | finviz_utils/finviz_utils.py:124 | empty text is not a number |
| Decimal.ParseNat | finviz_utils/finviz_utils.py:124 | reading back `str(n)` gives n |
| Decimal.ParseInt | finviz_utils/finviz_utils.py:143 | reading back `str(i)` gives i, negative numbers included |
| Decimal.ParsePointed | finviz_utils/finviz_utils.py:143 | "whole.frac" reads as whole plus the scaled fraction |
| Decimal.DecimalEdges | finviz_utils/finviz_utils.py:124 | readable text starts and ends with a digit, a point or a sign, so a suffix letter or '%' is never part of a number |
| Decimal.CommaRejected | finviz_utils/finviz_utils.py:224-225 | text with a comma does not read as a number |
| Text.Remove | finviz_utils/finviz_utils.py:224 | `replace(c, '')` leaves no c and keeps every other character as often as it occurred |
| Text.RemoveAppend | finviz_utils/finviz_utils.py:224 | removal distributes over concatenation |
| Text.Strip | finviz_utils/finviz_utils.py:124 | `strip(c)` leaves no c at either end and never lengthens |
| Text.Find | finviz_utils/finviz_utils.py:175 | the leftmost occurrence, or none at all |
| Text.JoinSplit | finviz_utils/finviz_utils.py:175 | joining the pieces of `split(sep)` with sep gives the text back |
| Text.SplitPiecesFree | finviz_utils/finviz_utils.py:175 | no piece of `split(sep)` contains sep |
| Text.Words | finviz_utils/finviz_utils.py:268 | `split()` yields non-empty runs of non-space characters |
| Text.WordsOfJoin | finviz_utils/finviz_utils.py:268 | words joined by single spaces split back into the same words |
| Text.ZFill | finviz_utils/earnings_calendar/earnings_calendar.py:318-320 | `zfill(w)` has length max(len, w) and leaves long text unchanged |
| Text.Lower | finviz_utils/earnings_calendar/earnings_calendar.py:321 | `lower()` leaves no upper-case letter, keeps every other character, and sends each upper-case letter to the lower-case letter at the same place in the alphabet |
| Text.LowerIdempotent | finviz_utils/earnings_calendar/earnings_calendar.py:321 | lower-casing twice is lower-casing once |
| Text.Replace | finviz_utils/earnings_calendar/earnings_calendar.py:240 | `replace(c, d)` keeps the length, leaves no c when d differs, changes exactly the c positions, and writes d there |
| Text.SplitOn | finviz_utils/finviz_utils.py:175 | `split(sep)` yields at least one piece, and at least two when sep occurs; JoinSplit and SplitPiecesFree pin the pieces |
| FramePasses.MapCells | finviz_utils/finviz_utils.py:158 | `apply` succeeds exactly when every cell converts, and then holds each cell's conversion |
| FramePasses.ReplaceDash | finviz_utils/finviz_utils.py:157 | `replace('-', 0.0)` leaves no "-" cell: the "-" cells become 0.0 and every other cell is kept |
| FramePasses.ReplaceDashIdempotent | finviz_utils/finviz_utils.py:157 | replacing the dashes twice is replacing them once |
| FramePasses.PercentPass | finviz_utils/finviz_utils.py:153-163 | only listed fields can disappear and only the "(%)" names of listed fields can appear; the PercentPass* rows give each field's row |
| FramePasses.MoneyPass | finviz_utils/finviz_utils.py:165-171 | no field is added or removed, every row keeps its width, and unlisted fields keep their rows; MoneyPassEffect gives the raise condition and the converted rows |
| FramePasses.NumericPass | finviz_utils/finviz_utils.py:229-239 | no field is added or removed and every row keeps its width; NumericPassConverted gives the converted rows |
| FramePasses.BooleanPass | finviz_utils/finviz_utils.py:253-260 | no field is added or removed and every row keeps its width; BooleanPassConverted gives the converted cells |
| FramePasses.Pipeline | finviz_utils/finviz_utils.py:208-217 | a field that no pass lists, reads or adds comes through unchanged, whichever exception escapes; Frame.ProcessDataframe ties the pass order to it |
| FramePasses.PercentPassUntouched | finviz_utils/finviz_utils.py:153-163 | a field neither listed nor a listed field's "(%)" name is unchanged |
| FramePasses.PercentPassConverted | finviz_utils/finviz_utils.py:157-160 | a listed field whose cells all convert is dropped, and "<field> (%)" holds the converted row |
| FramePasses.PercentPassKept | finviz_utils/finviz_utils.py:157-162 | a listed field with a None cell keeps its row with "-" replaced, and its "(%)" field is untouched |
| FramePasses.PercentPassAbsent | finviz_utils/finviz_utils.py:156-162 | a missing listed field (KeyError, reported and skipped) stays missing and its "(%)" field is untouched |
| FramePasses.MoneyPassEffect | finviz_utils/finviz_utils.py:165-171 | the pass raises exactly when a listed present field has an unconvertible cell; otherwise every listed present field holds its converted row and no field is added or removed; unlisted fields never change |
| FramePasses.MoneyPassStops | finviz_utils/finviz_utils.py:167-169 | once the money pass has raised, later fields are not visited |
| FramePasses.NumericPassUntouched | finviz_utils/finviz_utils.py:229-239 | no field is added or removed, and unlisted fields are unchanged |
| FramePasses.NumericPassConverted | finviz_utils/finviz_utils.py:230-238 | a listed field holds its `float`/`process_volume` conversion, or, when that raised, its row with "-" replaced by 0.0 |
| FramePasses.BooleanPassUntouched | finviz_utils/finviz_utils.py:253-260 | no field is added or removed, and unlisted fields are unchanged |
| FramePasses.BooleanPassConverted | finviz_utils/finviz_utils.py:255-257 | every cell of a listed field is 1, 0 or NaN, with 1 exactly for "Yes" and 0 exactly for "No" |
| FramePasses.BooleanTwiceClears | finviz_utils/finviz_utils.py:255-257 | a field listed twice ends all NaN |
| FramePasses.Range52 | finviz_utils/finviz_utils.py:190-205 | with no "52W Range" the frame is returned unchanged; otherwise "52W Low" and "52W High" hold each cell's low and high, the range field survives exactly when drop is false, and other fields are untouched; no exception escapes exactly when every range cell yields both a low and a high, and once every low converts "52W Low" is written even if a high then fails |
| FramePasses.ReportDate | finviz_utils/finviz_utils.py:274-281 | with no "Earnings" the frame is unchanged; otherwise "Earnings Time" holds each cell's earnings time, or a non-text cell raises and leaves the frame unchanged |
| FramePasses.Frame.constructor | finviz_utils/finviz_utils.py:208 | a frame over rectangular field rows |
| FramePasses.Frame.ConvertPercentColumns | finviz_utils/finviz_utils.py:153-163 | the loop leaves the frame's fields as the percent pass over the list |
| FramePasses.Frame.ProcessMoneyColumns | finviz_utils/finviz_utils.py:165-171 | the loop leaves the fields, and the escaping exception, as the money pass |
| FramePasses.Frame.ProcessNumericColumns | finviz_utils/finviz_utils.py:229-239 | the loop leaves the fields as the numeric pass |
| FramePasses.Frame.ProcessBooleanColumns | finviz_utils/finviz_utils.py:253-260 | the loop leaves the fields as the boolean pass |
| FramePasses.Frame.Process52HighLow | finviz_utils/finviz_utils.py:190-205 | the fields and the exception are those of `Range52` |
| FramePasses.Frame.ProcessReportDate | finviz_utils/finviz_utils.py:274-281 | the fields and the exception are those of `ReportDate` |
| FramePasses.Frame.ProcessDataframe | finviz_utils/finviz_utils.py:208-217 | runs percent, money, numeric, 52-week and report-date passes in order (boolean commented out), stopping at the first exception |
| CalendarRows.DaysLeft | finviz_utils/earnings_calendar/earnings_calendar.py:100-104 | `(reportDate - today).days` is the difference in day numbers, one less once today's midnight has passed |
| CalendarRows.IsoDate | finviz_utils/earnings_calendar/earnings_calendar.py:393 | `strftime("%Y-%m-%d")` starts with the year and a dash, and the month and day take at least two characters each |
| CalendarRows.DaysLeftFloor | finviz_utils/earnings_calendar/earnings_calendar.py:100-104 | `days_left` is the d with d days ≤ time to the report < d+1 days |
| CalendarRows.DaysLeftZero | finviz_utils/earnings_calendar/earnings_calendar.py:100-104 | `days_left` is 0 exactly when the report is less than 24 hours away |
| CalendarRows.DaysLeftToday | finviz_utils/earnings_calendar/earnings_calendar.py:100-104 | a report dated today is -1 once midnight has passed |
| CalendarRows.DaysLeftMonotone | finviz_utils/earnings_calendar/earnings_calendar.py:100-104 | a later report never has fewer days left |
| CalendarRows.UpdateDaysLeft | finviz_utils/earnings_calendar/earnings_calendar.py:337-340 | same rows in the same order, each with `days_left` recomputed and nothing else changed |
| CalendarRows.StampColumn | finviz_utils/earnings_calendar/earnings_calendar.py:393 | every row gets the field set to the value, and nothing else changes |
| CalendarRows.StampKeepsOrder | finviz_utils/earnings_calendar/earnings_calendar.py:391-393 | stamping keeps a `days_left` order |
| CalendarRows.StampSortCommute | finviz_utils/earnings_calendar/earnings_calendar.py:391-393 | stamping then sorting is sorting then stamping |
| CalendarRows.KeysOf | finviz_utils/earnings_calendar/earnings_calendar.py:389 | every row's (reportDate, Ticker) is among the keys, and there are no more keys than rows |
| CalendarRows.KeyWitness | finviz_utils/earnings_calendar/earnings_calendar.py:389 | a key is present exactly when some row carries it |
| CalendarRows.UniqueKeysDistinct | finviz_utils/earnings_calendar/earnings_calendar.py:389 | as many keys as rows exactly when no two rows share a key |
| CalendarRows.KeysOfPermutation | finviz_utils/earnings_calendar/earnings_calendar.py:391 | reordering keeps the key set |
| CalendarRows.KeysOfAppend | finviz_utils/earnings_calendar/earnings_calendar.py:386 | the keys of a concatenation are the union of the keys |
| CalendarRows.FirstWithKey | finviz_utils/earnings_calendar/earnings_calendar.py:389 | a row with the key, at a position no earlier row has that key |
| CalendarRows.LastWithKey | finviz_utils/earnings_calendar/earnings_calendar.py:389 | a row with the key, at a position no later row has that key |
| CalendarRows.DedupFirstFrom | finviz_utils/earnings_calendar/earnings_calendar.py:389 | keeps the first row of each key not already seen, in order, with unique keys |
| CalendarRows.DedupLast | finviz_utils/earnings_calendar/earnings_calendar.py:389 | `keep='last'`: keeps the last row of each key, in order, with unique keys and every key present |
| CalendarRows.Dedup | finviz_utils/earnings_calendar/earnings_calendar.py:389 | `drop_duplicates`: an order-keeping selection with unique keys and the same key set, where each kept row is the one `keep` chooses |
| CalendarRows.DedupOfUnique | finviz_utils/earnings_calendar/earnings_calendar.py:389 | a table whose keys are already unique is unchanged |
| CalendarRows.FirstWithKeyPrefix | finviz_utils/earnings_calendar/earnings_calendar.py:386-389 | under `keep='first'` a key of the old table keeps its old row |
| CalendarRows.LastWithKeySuffix | finviz_utils/earnings_calendar/earnings_calendar.py:386-389 | under `keep='last'` a key of the new table takes its newest row |
| Tables.Filter | finviz_utils/earnings_calendar/earnings_calendar.py:346-347 | a boolean mask keeps exactly the satisfying rows, as often as they occur, in order |
| Tables.FilterMembers | finviz_utils/earnings_calendar/earnings_calendar.py:287 | a row is selected exactly when it is a row that satisfies the mask |
| Tables.FilterAgrees | finviz_utils/earnings_calendar/earnings_calendar.py:355-356 | masks that agree on every row select the same rows |
| Tables.FilterTwice | finviz_utils/earnings_calendar/earnings_calendar.py:287 | filtering twice is filtering by both masks |
| Tables.TakePrefix | finviz_utils/earnings_calendar/earnings_calendar.py:363 | `[:stop]` is always a prefix: of length stop for 0 ≤ stop ≤ len, the whole table from len on, the table without its last -stop rows for a negative stop, and empty from -len down |
| Tables.SortBy | finviz_utils/earnings_calendar/earnings_calendar.py:60 | the result is sorted by the key and is a permutation of the input |
| Tables.InsertBy | finviz_utils/earnings_calendar/earnings_calendar.py:60 | inserting into a sorted table keeps it sorted and adds exactly that row |
| CalendarPaths.Week | finviz_utils/earnings_calendar/earnings_calendar.py:230-237 | the week bucket is 1 to 4 |
| CalendarPaths.WeekBuckets | finviz_utils/earnings_calendar/earnings_calendar.py:230-237 | days 1-7, 8-14 and 15-21 are weeks 1-3, and week 4 is exactly the days after the 21st |
| CalendarPaths.CleanTag | finviz_utils/earnings_calendar/earnings_calendar.py:240 | the cleaned tag has no '-' and no ' ' |
| CalendarPaths.CleanTagKeepsClean | finviz_utils/earnings_calendar/earnings_calendar.py:240 | an already clean tag is unchanged |
| CalendarPaths.IsoDateParts | finviz_utils/earnings_calendar/earnings_calendar.py:393 | `strftime("%Y-%m-%d")` is the year, a dash, two digits reading back as the month, a dash, and two digits reading back as the day |
| CalendarPaths.TwoDigitsRoundTrip | finviz_utils/earnings_calendar/earnings_calendar.py:240 | `str(n).zfill(2)` for 0 ≤ n < 100 is two digits that read back as n |
| CalendarPaths.BuildPath | finviz_utils/earnings_calendar/earnings_calendar.py:224-245 | the built path starts with the folder and sub-folder and ends in "/calendar.csv"; CleanTag, TwoDigitsRoundTrip and WeekBuckets pin its parts |
| CalendarPaths.StoredPath | finviz_utils/earnings_calendar/earnings_calendar.py:318-324 | the loader's path starts with the data and calendar folders, the source and the name, and ends in "/calendar.csv" |
| CalendarPaths.LoadFindsBuiltPath | finviz_utils/earnings_calendar/earnings_calendar.py:224-245 | the loader's path for a saved group, tag and date is the path `build_path_from_date` builds under DATA_FOLDER/FINVIZ_DATA_CALENDAR_FOLDER |
| MasterCalendar.WholeCalendar | finviz_utils/earnings_calendar/earnings_calendar.py:29-60 | csv: the file's rows in file order with `days_left` refreshed; remote: the rows sorted by report date; every row's `days_left` is fresh |
| MasterCalendar.FromDate | finviz_utils/earnings_calendar/earnings_calendar.py:79 | `web.loc[day:]` is no longer than the calendar and every row it keeps is dated day or later; FromDateRows gives the converse |
| MasterCalendar.FromDateRows | finviz_utils/earnings_calendar/earnings_calendar.py:79 | `web.loc[day:]` keeps exactly the rows dated day or later, in order |
| MasterCalendar.FromDateEmptyLater | finviz_utils/earnings_calendar/earnings_calendar.py:74-79 | with no row from day a on, there is none from any later day |
| MasterCalendar.ProbeAfter | finviz_utils/earnings_calendar/earnings_calendar.py:72-81 | the probe loop ends with the remote rows from last+2 on |
| MasterCalendar.UpdateLocal | finviz_utils/earnings_calendar/earnings_calendar.py:63-89 | fails exactly on an empty local file; otherwise returns the local rows followed by the remote rows from last+2 on |
| MasterCalendar.ProbeSkipsNextDay | finviz_utils/earnings_calendar/earnings_calendar.py:72-79 | a remote row dated last+1 is in the probe from last+1 and not in the one from last+2 |
| MasterCalendar.NextDayRowLost | finviz_utils/earnings_calendar/earnings_calendar.py:72-79 | a one-row remote calendar dated last+1: the written probe adds nothing, the intended probe adds the row |
| MasterCalendar.ProbeFromNextDay | finviz_utils/earnings_calendar/earnings_calendar.py:72-81 | the corrected loop ends with the remote rows from last+1 on |
| MasterCalendar.UpdateLocalFromNextDay | finviz_utils/earnings_calendar/earnings_calendar.py:63-89 | corrected: the local rows followed by every remote row dated after the last local row |
| MasterCalendar.NextDaySplit | finviz_utils/earnings_calendar/earnings_calendar.py:72-79 | on the sorted remote calendar, the rows from day d on are the rows of d followed by the rows from d+1 on |
| CalendarGenerator.SelectGroup | finviz_utils/earnings_calendar/earnings_calendar.py:134-157 | accepts exactly when exactly one of sector, industry and index is given, and files it under sectors, industries or indexes with that tag |
| CalendarGenerator.StoreData | finviz_utils/earnings_calendar/earnings_calendar.py:203-220 | fails exactly for an unknown sub-folder or non-local storage; otherwise the path is built under DATA_FOLDER + the raw or the calendar folder |
| CalendarGenerator.SelectedGroupSaves | finviz_utils/earnings_calendar/earnings_calendar.py:158-178 | every accepted group can be saved |
| CalendarGenerator.ChooseColumns | finviz_utils/earnings_calendar/earnings_calendar.py:256-264 | the base list (custom or included), extended by at most one label that it lacked: "Industry" exactly for an industry request without it; otherwise exactly "Index" for an index request without it, even when industry was requested but already listed; nothing is appended when the requested label is already there or nothing was requested |
| CalendarGenerator.Tickers | finviz_utils/earnings_calendar/earnings_calendar.py:266-273 | the tickers are exactly those of the fundamentals rows |
| CalendarGenerator.RowOf | finviz_utils/earnings_calendar/earnings_calendar.py:269-273 | the fundamentals row of a ticker carries that ticker |
| CalendarGenerator.SelectedExtend | finviz_utils/earnings_calendar/earnings_calendar.py:261-266 | the "Industry" or "Index" column appended to the list adds exactly that column's cell, when the ticker has one, to the merged fields |
| CalendarGenerator.WithFundamentals | finviz_utils/earnings_calendar/earnings_calendar.py:269-273 | only rows whose ticker has fundamentals |
| CalendarGenerator.Join | finviz_utils/earnings_calendar/earnings_calendar.py:269-273 | the inner join, row by row: the calendar row's date, ticker and `days_left`, its fields plus the chosen fundamentals |
| CalendarGenerator.JoinIsInner | finviz_utils/earnings_calendar/earnings_calendar.py:269-273 | a ticker without fundamentals disappears; one with fundamentals is joined |
| CalendarGenerator.JoinContains | finviz_utils/earnings_calendar/earnings_calendar.py:269-273 | a calendar row whose ticker has fundamentals appears merged |
| CalendarGenerator.PrepareFinvizCalendar | finviz_utils/earnings_calendar/earnings_calendar.py:248-277 | fails exactly when a chosen column is missing, "Ticker" is not chosen (the merge key is absent on the right), or a ticker repeats (many_to_one); otherwise the joined rows stamped with dataDate, sorted by `days_left` |
| CalendarGenerator.JoinedTickers | finviz_utils/earnings_calendar/earnings_calendar.py:269-275 | every prepared row belongs to a ticker with fundamentals |
| CalendarGenerator.EarningCalendarFor | finviz_utils/earnings_calendar/earnings_calendar.py:280-289 | exactly the local calendar's rows of the given symbols, sorted by report date |
| CalendarGenerator.GetFinvizDataBy | finviz_utils/earnings_calendar/earnings_calendar.py:116-180 | refuses several groups; raw returns the fetched table; otherwise fails exactly when `prepare_finviz_calendar` would (a chosen column missing, "Ticker" not chosen, a ticker repeated) and returns the `days_left`-sorted, dataDate-stamped join of the local calendar rows of the fetched tickers with the fundamentals; saves exactly when asked, to the built path |
| CalendarLoading.LoadStored | finviz_utils/earnings_calendar/earnings_calendar.py:316-329 | fails exactly for an unknown lower-cased group or a missing file; otherwise the file's refreshed rows sorted by `days_left` |
| CalendarLoading.LoadFromPath | finviz_utils/earnings_calendar/earnings_calendar.py:331-335 | fails exactly for a missing file; otherwise exactly the file's rows, in file order, each with `days_left` refreshed |
| CalendarLoading.LoadRows | finviz_utils/earnings_calendar/earnings_calendar.py:294-314 | a DataFrame wins and is refreshed; otherwise complete stored-file arguments win and give `_load_stored_data`'s result or error; otherwise a path gives `_load_from_path`'s result or error; with no source at all it raises the source's message; any loaded rows are fresh |
| CalendarLoading.SortKeepsFresh | finviz_utils/earnings_calendar/earnings_calendar.py:325-326 | reordering keeps `days_left` fresh |
| CalendarLoading.Store | finviz_utils/earnings_calendar/earnings_calendar.py:384-395 | the stored table is sorted by `days_left` |
| CalendarLoading.StoreRows | finviz_utils/earnings_calendar/earnings_calendar.py:384-395 | no key repeats, every old and new key is there, and each row is the one `drop_duplicates` kept, refreshed and stamped with today |
| CalendarLoading.StoreKeepsOld | finviz_utils/earnings_calendar/earnings_calendar.py:368-389 | with keep='first' a key already stored keeps its stored row |
| CalendarLoading.StoreTakesNew | finviz_utils/earnings_calendar/earnings_calendar.py:368-389 | with keep='last' a key of the new rows takes its newest new row |
| CalendarLoading.CalendarLoader.FromRows | finviz_utils/earnings_calendar/earnings_calendar.py:294-307 | a loader over fresh rows |
| CalendarLoading.CalendarLoader.Open | finviz_utils/earnings_calendar/earnings_calendar.py:294-307 | `FinvizCalendarLoader(...)` raises exactly when loading fails, and otherwise holds the loaded rows |
| CalendarLoading.CalendarLoader.Upcoming | finviz_utils/earnings_calendar/earnings_calendar.py:349-352 | exactly the rows with 0 ≤ `days_left` ≤ days, in order |
| CalendarLoading.CalendarLoader.Former | finviz_utils/earnings_calendar/earnings_calendar.py:342-347 | raises exactly for 0 days; otherwise exactly the rows with -days ≤ `days_left` < 0, in order |
| CalendarLoading.CalendarLoader.ReportedByDays | finviz_utils/earnings_calendar/earnings_calendar.py:354-356 | exactly the rows with -days < `days_left` < 0, in order |
| CalendarLoading.CalendarLoader.UpcomingFromDays | finviz_utils/earnings_calendar/earnings_calendar.py:362-363 | a prefix of the rows with `days_left` ≥ days (in order), of length min(batch_size, their number) for a non-negative batch_size |
| CalendarLoading.CalendarLoader.ReportedByTicker | finviz_utils/earnings_calendar/earnings_calendar.py:365-366 | exactly the ticker's rows, in order |
| CalendarLoading.CalendarLoader.StoreUpcoming | finviz_utils/earnings_calendar/earnings_calendar.py:368-376 | over the stored rows (the file at `path`, read by the caller; a missing file is not modelled) and `upcoming(days)`: every key once, each row the one `keep` picks, refreshed and stamped, sorted by `days_left` |
| CalendarLoading.CalendarLoader.StoreFormer | finviz_utils/earnings_calendar/earnings_calendar.py:378-382 | as written: over the stored rows (read by the caller) and `upcoming(days)`: the keys are the stored keys and the upcoming keys, each once, each row the one `keep` picks, refreshed and stamped, sorted |
| CalendarLoading.CalendarLoader.StoreFormerCorrected | finviz_utils/earnings_calendar/earnings_calendar.py:378-382 | as intended: raises exactly for 0 days; otherwise the same table over the stored rows and `former(days)`: the stored and former keys once each, each row the one `keep` picks, refreshed and stamped, sorted |
| CalendarLoading.TodayIsNotPast | finviz_utils/earnings_calendar/earnings_calendar.py:342-356 | a row with `days_left` 0 is upcoming exactly for a horizon ≥ 0 and is never reported |
| CalendarLoading.UpcomingFormerDisjoint | finviz_utils/earnings_calendar/earnings_calendar.py:342-356 | no row is both upcoming and reported |
| CalendarLoading.ReportedByDaysIsFormer | finviz_utils/earnings_calendar/earnings_calendar.py:342-356 | `get_reported_by_days(d)` is `former(d - 1)` |
| CalendarLoading.StoreFormerDropsFormerRows | finviz_utils/earnings_calendar/earnings_calendar.py:378-382 | a row reported within the window (with a new key) is missing from `store_former` as written and present in the corrected version |
| CalendarLoading.PastKeyNotUpcoming | finviz_utils/earnings_calendar/earnings_calendar.py:342-352 | the key of a reported row is not among the upcoming rows' keys |
| CalendarLoading.SubsequenceTrans | finviz_utils/earnings_calendar/earnings_calendar.py:363 | a selection of a selection is a selection |

## Left out

- Network, file I/O and printing are not modelled:
  - the Alpha Vantage request, the screener download (`get_dataframe_by_*`), `read_csv`, `to_csv` and `os.makedirs` are outside the model;
  - downloaded tables and read files are parameters (`remote`, `fetched`, `files`, `localFile`, `stored`);
  - writes are returned as a path.
- The constants modules (earnings_calendar/constants.py and finviz_utils/constants.py) are not part of this model. The folders and column lists are parameters (`Config`, `ColumnLists`).
- `datetime.today()`/`now()` become the `Clock` parameter. The conversion between civil dates and day numbers is not modelled: the clock supplies both.
- `float(str)` is modelled on signed decimal text only. Exponents, "inf", "nan", underscores and surrounding whitespace read as errors. Floats are exact reals, so rounding is not modelled.
- `lower()` is modelled on ASCII letters only.
- The frame's index order is not modelled: fields are a map.
- Only the `days_left` sort key of `prepare_finviz_calendar` is modelled; the `sort_value` parameter is not.
- The merge in `prepare_finviz_calendar` matches the "Ticker" cell of each fundamentals row. The model matches the ticker the row belongs to, so it assumes the two agree, as they do in the screener tables, and drops the "Ticker" cell from the merged fields because `set_index('Ticker')` moves it into the index.
- pandas details that are not modelled:
  - the `_x`/`_y` suffixes `merge` gives clashing columns;
  - `set_index`/`reset_index`, which only move the date and ticker between index and columns;
  - the NaN that `concat(join='outer')` fills in, since an absent field stands for NaN.
- Aliasing is not modelled: `_update_days_left` also writes into the caller's frame.
- Loader `data` that is not a DataFrame behaves like `None`.
- `store_data` writes under `DATA_FOLDER + FINVIZ_DATA_CALENDAR_FOLDER`, with no separator, while `_load_stored_data` reads under `DATA_FOLDER/FINVIZ_DATA_CALENDAR_FOLDER`. `CalendarPaths.LoadFindsBuiltPath` states the loader's path for the folder with the separator. Whether the two agree depends on the folder constants of the constants module.
- `prepare_finviz_calendar` appends "Industry" or "Index" to the module-level column list itself, so the list grows across calls. The model computes the list afresh each time.
- The `strftime` year padding is not modelled (years below 1000).
- `drop_duplicates(keep=False)` is not modelled: the source calls it only with 'first' or 'last'.
- Members not modelled: `get_local_earnings_calendar` (a read plus an Excel write), `gel_all_tracked_industries` (a loop over the tracked-industries list of the constants module), `get_reported_by_date` (a date-string index lookup), `get_reported_by_days_passed` (it reads an undefined variable and always raises), `get_earning_anomalies_for_ticker` (empty), and the screener download functions of finviz_utils.py.
- CalendarLoading.Store: its own contract promises only the order; the full content is stated by `CalendarLoading.StoreRows`, because stating it on the function made each use too costly to verify.
- CalendarLoading.CalendarLoader.UpcomingFromDays: the row count is stated only for a non-negative batch size. For a negative size the result is still a prefix of the matching rows, and its length follows Python's slicing, as `Tables.TakePrefix` states.
- `data.loc[col].replace('-', 0.0, inplace=True)` is assumed to write through to the frame. It does so on a single-block frame without copy-on-write. `FramePasses.PercentColumn`/`ConvertPercentColumns` and `FramePasses.NumericColumn`/`ProcessNumericColumns` rely on this: where pandas replaces in a copy, a numeric column that fails to convert keeps its "-" cells, and the percent conversion reads "-" through `format_percent`'s fallback to 0.0 either way.
- `store_upcoming` and `store_former` read the existing file at `path`. A missing file raises there. In the model the rows are the `stored` parameter, so that error path is not modelled.
- Normalize.Low52 and Normalize.High52: their own contracts promise only a float result. The values are stated by `Normalize.RangeParts` for text with exactly one separator.

## Findings

| source | as written | input that shows it | evidently intended | confidence | as-written member | corrected member |
|---|---|---|---|---|---|---|
| finviz_utils/earnings_calendar/earnings_calendar.py:72-79 | `next_day` is advanced before the first query, so the first probe asks for rows from the last local date plus two days | a local calendar ending on day 10 and a remote row dated day 11: nothing is added, and day 11 is lost | probe from the day after the last local row | not executed | MasterCalendar.UpdateLocal (with MasterCalendar.NextDayRowLost, MasterCalendar.ProbeSkipsNextDay) | MasterCalendar.UpdateLocalFromNextDay (with MasterCalendar.NextDaySplit) |
| finviz_utils/earnings_calendar/earnings_calendar.py:378-382 | `store_former` stores `self.upcoming(days)` | any loader row with `days_left` -1, asked with days=5: it is not stored | store `self.former(days)` | not executed | CalendarLoading.CalendarLoader.StoreFormer (with CalendarLoading.StoreFormerDropsFormerRows) | CalendarLoading.CalendarLoader.StoreFormerCorrected |
