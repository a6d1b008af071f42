# Hatch-event correlation: a Dafny model of `summary`

`summary` in `utils.py` correlates four record tables for one facility: pressure readings (`thp`), drone detections of an open hatch (`drone`), work orders (`workorder`) and inspection forms (`form`).
It selects each table's rows for the facility. Then, for each detection it reads, it builds a list of slices:

- the facility's pressure readings within 30 days of the detection time, both ends included, stored only when that slice is non-empty;
- the work orders mentioning "hatch" that have a created, start or end date in the same window;
- the facility's whole drone slice.

It stores that list under the detection time. When nothing was stored, it returns the sentinel `(id, 'invalid')`.

The model reproduces the code's behaviour, including its quirks:

- the loop runs `nunique(DTM)` times but reads drone rows by position, so it visits rows `0..n-1`, not the distinct times;
- the work-order table is narrowed in place, so each iteration filters what the previous one kept;
- a repeated detection time overwrites the earlier entry;
- the last element of every stored list is the facility's drone slice (utils.py:114), while the form slice is narrowed at utils.py:113 but never stored.

Files:

- `seqs.dfy` (module `Seqs`): boolean-mask selection as an order-preserving `Filter`, subsequences, and the distinct-value count behind `nunique`.
- `records.dfy` (module `Records`): one datatype per row kind, the inclusive window test of `Series.between`, ASCII lower-casing, substring search, and the "hatch" keyword mask.
  pandas `str.contains` reads its pattern as a regular expression by default; for "hatch", which has no regular expression metacharacters, that is the same as substring search.
- `utils.dfy` (module `Utils`): the selections, the loop as a function of the iterations done (`Run`), the value `summary` returns (`SummaryOf`), the imperative driver `Summary`, and the properties of all of these.
- `scenarios.dfy` (module `Scenarios`): four worked examples on small tables.

Timestamps are already-parsed integers in seconds, and the window half-width is `30 * 86400`.
A missing date (NaT) or a missing text (NaN) is `None`. A missing date is never in a window, and a missing text reads as `""`.
Facility ids are strings compared by equality.
The result is the datatype `SummaryResult`: `Invalid(id)` stands for the sentinel pair and `Found(entries)` for the dictionary.

## Model

| member | source | states |
|---|---|---|
| `Seqs.FilterSpec` | utils.py:68-77 | a mask selection keeps exactly the rows satisfying the mask, as a subsequence of the input, and keeps everything when every row qualifies |
| `Seqs.FilterCounts` | utils.py:68-77 | a mask selection holds every copy of each row satisfying the mask and no copy of any other row |
| `Seqs.SubsequenceTransitive` | utils.py:97-110 | a selection of a selection is a subsequence of the original table |
| `Seqs.CountDistinct` | utils.py:82 | `nunique` never exceeds the number of rows and is 0 exactly for an empty column |
| `Records.Contains` | utils.py:97-98 | `str.contains` holds exactly when the pattern occurs at some position of the text (pandas reads the pattern as a regular expression; for "hatch" that is the same) |
| `Records.MentionsHatchSpec` | utils.py:96-99 | the keyword mask holds exactly when "hatch" occurs in the lower-cased description or the lower-cased resolution, missing text counting as empty |
| `Utils.FacilitySelections` | utils.py:67-77 | each of the four facility selections keeps exactly the rows whose facility id equals `id`, in input order |
| `Utils.FacilityCounts` | utils.py:67-77 | each facility selection holds every copy of each row of that facility and no copy of any other row |
| `Utils.ReadingsBetweenSpec` | utils.py:87-90 | the pressure selection keeps exactly the readings with `lo <= timestamp <= hi`, in input order |
| `Utils.HatchOrdersSpec` | utils.py:96-99 | the keyword selection keeps exactly the work orders that mention "hatch", in input order |
| `Utils.OrdersBetweenSpec` | utils.py:101-110 | the date selection keeps exactly the work orders whose created, start or end date is present and lies in `[lo, hi]`, in input order |
| `Utils.IterationCounts` | utils.py:90-110 | the pressure, keyword and date selections of one iteration each keep every copy of a row that passes their mask and no copy of any other row |
| `Utils.OrdersStepKept` | utils.py:97-110 | one iteration's keyword selection followed by its date selection keeps exactly the work orders that mention "hatch" and have a date in `[lo, hi]` |
| `Utils.OrdersStepCounts` | utils.py:97-110 | those two selections together keep every copy of such a work order and no copy of any other |
| `Utils.Summary` | utils.py:64-122 | the loop computes `SummaryOf`; the result is the sentinel exactly when the drone table has no row of the facility, and the sentinel carries `id` |
| `Utils.RunKeys` | utils.py:82-84 | after `k` iterations the dictionary's keys are exactly the detection times of rows `0..k-1` |
| `Utils.RunOrders` | utils.py:97-110 | after `k` iterations a work order is kept exactly when it is in the facility's table, mentions "hatch" (once `k > 0`) and has a date in the window of each of the first `k` detections |
| `Utils.RunOrdersCounts` | utils.py:97-110 | after `k` iterations the narrowed work-order table holds every copy of each row it keeps, and no copy of any other row |
| `Utils.RunOrdersSubsequence` | utils.py:97-110 | the narrowed work-order table is always a subsequence of the facility's work-order table |
| `Utils.RunNarrows` | utils.py:106-111 | the work orders after iteration `k` are a subsequence of those after iteration `k-1` |
| `Utils.RunEntries` | utils.py:80-117 | every stored list has 2 or 3 elements, a pressure slice exactly when the window holds a reading, the work orders of its window, and the drone slice last |
| `Utils.StoredOrdersInEarlierWindows` | utils.py:106-116 | a work order is stored at iteration `k` exactly when it is in the facility's table, mentions "hatch" and has a date in the window of every detection read at iterations `0..k` |
| `Utils.RunLastWrite` | utils.py:82-116 | the list under a detection time is the one built by the last iteration that read that time, with that iteration's work orders; earlier lists for the same time are overwritten |
| `Utils.SentinelIffNoDetections` | utils.py:119-120 | the result is the sentinel exactly when the loop count is 0, exactly when no drone row has the facility id, and it then carries `id` |
| `Utils.LoopBoundsAndKeys` | utils.py:82-84 | the loop count is at most the drone slice's length, so every positional read is in bounds; the keys are the times of rows `0..n-1`, and there are at most `n` of them |
| `Utils.StoredListLength` | utils.py:91-116 | a stored list has 3 elements when the facility has a reading in the window and 2 otherwise |
| `Utils.PressureRowsInWindow` | utils.py:87-92 | a stored pressure slice is non-empty and holds exactly the facility's readings with `t - 30 days <= timestamp <= t + 30 days` |
| `Utils.PressureRowsCounts` | utils.py:87-92 | a stored pressure slice holds every copy of each of those readings and no copy of any other row |
| `Utils.WorkOrderRowsMatch` | utils.py:97-111 | every stored work order comes from the input, has the facility id, mentions "hatch" and has a created, start or end date within 30 days of its key |
| `Utils.StoredOrdersAreLastWrite` | utils.py:82-116 | for each key `t`, with `j` the last row read whose time is `t`, the stored work orders are exactly the facility's work orders that mention "hatch" and have a date in the windows of rows `0..j`, every copy of each |
| `Utils.LastSliceIsFacilityDrones` | utils.py:114 | the last element of every stored list is the facility's drone rows, unchanged and in input order |
| `Utils.SlicesPreserveOrder` | utils.py:90-114 | every slice in every stored list is a subsequence of the input table it was taken from |
| `Scenarios.WindowKeepsOnlyNearbyReading` | utils.py:87-92 | a detection on 15 January keeps the 1 January reading and drops the 1 March one |
| `Scenarios.NoDetectionsGivesSentinel` | utils.py:119-120 | a facility without detections gets `Invalid(id)` |
| `Scenarios.RepeatedTimeHidesLaterDetection` | utils.py:82-84 | with detection times `[t, t, u]` the loop reads two rows, both at `t`, and stores no entry for `u` |
| `Scenarios.RepeatedTimeKeepsLastWrite` | utils.py:82-116 | with detection times `[0, 200 days, 0, 400 days]` and one work order created at 0 that mentions "Hatch", the list stored under 0 is the third iteration's, with an empty work-order slice |

## Left out

- The plotting functions `plot_ts_open_hatch` and `plot_prediction_validation` (utils.py:8-59) are left out. They are chart rendering and image-file output.
- Date parsing with `pd.to_datetime` (utils.py:78, 85, 102-104) is left out. Every timestamp is an already-parsed integer, or `Option<int>` where NaT is possible.
- The form selection at utils.py:113 is left out. It masks the form slice with a column of the drone slice, so it depends on pandas index alignment, and it raises when `drone` has no `SubmitDate` column. Its result never reaches the output. The model assumes it does not raise, and gives it no effect.
- `str.lower` is modelled for ASCII letters only; Unicode case mapping is not modelled.
- The expression statement at utils.py:83 has no effect and is not modelled.
- pandas copy-versus-view behaviour of the in-place column assignments is not modelled.
- `nunique` skips NaN values; the model assumes every detection has a time.
- Rows are values. Two identical rows of one table cannot be told apart; the `*Counts` lemmas state how many copies of each are kept.
- The dictionary's key order is not modelled. A Python dict keeps keys in insertion order, and overwriting a repeated detection time keeps that key's first position. The model's `map` has no order.
- `nunique` at utils.py:82 counts the raw `DTM` values before they are parsed at utils.py:85. Two spellings of one time therefore count as two values there. The model takes every time already parsed, so its `CountDistinct` counts parsed times.
