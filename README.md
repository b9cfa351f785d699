# Shanghai metro route summary — a Dafny model

The application asks the AMap web service for transit routes between two
addresses in Shanghai, takes the first route plan it gets back and shows a
short summary of it. `parse_route_v5` in `app.py` computes that summary. This
project models that function and proves its properties. It takes one transit
plan (a list of segments) and returns three things:

* **lines**: the metro line labels ridden, in the order first met and without
  repeats. A bus-line name such as `地铁7号线(美兰湖--花木路)` yields the text
  after its first `地铁` ("metro") up to and including its first `号线` ("line
  number" suffix). Here that is `7号线`. The suffix is part of the label
  because the code ends the slice two characters past the start of `号线`, as
  the comment at app.py:63 (`提取 "X号线"`, "extract 'X号线'") says. A name
  yields no label when it lacks either marker, or when its first `号线` comes
  before its first `地铁`.
* **total distance** in metres. It is the sum of every bus-line `distance` and
  every walking `distance` that is a non-empty string of digits. Anything else
  counts as 0 and never raises an error. Bus lines are read only in segments
  whose `bus` field is a JSON object.
* **estimated time** in minutes: `max(1, total // 400)`.

Modules:

* `Wrappers` (wrappers.dfy): the `Option` type.
* `Text` (text.dfy): Python's `str.find` and `in` as `FirstIndex` and
  `Contains`, the ASCII digit test behind `isdigit`, and `int()` as
  `ParseNat`. `DecimalOf` is a reference rendering of numbers that `ParseNat`
  inverts.
* `Distinct` (distinct.dfy): `Dedup`, the order-preserving list of distinct
  elements that the "append if not in lines" step builds. It is characterised
  as the unique duplicate-free list of the input's elements ordered by first
  occurrence.
* `Route` (route.dfy): the data model (`BusLine`, `Segment`, `Plan`,
  `Summary`) and the summary as functions of the plan (`ExtractLabel`,
  `PlanLabels`, `DistanceValue`, `TotalMeters`, `EstimateMinutes`,
  `Summarize`), with the lemmas about them.
* `RouteParser` (route_parser.dfy): the function as the code runs it. It
  loops over the segments and, in `ScanBusLines`, over each segment's bus
  lines, appending to a list and adding to a running total. `ParseRoute` is
  proved equal to `Summarize`. `ScanBusLines` is proved equal to the parts of
  `Summarize` one segment contributes: the deduplicated labels seen so far
  followed by the segment's labels, and the running total plus the segment's
  bus distances.
* `RouteExamples` (route_examples.dfy): worked cases on concrete plans.

## Model

| member | source | states |
|---|---|---|
| `RouteParser.ParseRoute` | app.py:52-83 | The lines, total and estimate built by the nested loops equal `Summarize(plan)`: the deduplicated labels, the summed distances and `max(1, total // 400)`. The lines hold no repeats and the estimate is at least 1. |
| `RouteParser.ScanBusLines` | app.py:61-74 | The inner loop over one segment's bus lines extends the list to the deduplicated labels seen so far plus this segment's labels. It adds exactly the segment's bus-line distances to the total. |
| `Route.ExtractLabel` | app.py:64-68 | The label of one bus-line name, or none. Its contract is stated by `Route.LabelPresence` (when a label exists) and `Route.LabelShape` (what the label is). |
| `Route.LabelPresence` | app.py:64-67 | A name yields a label if and only if it contains `号线` and some `地铁` occurs before every `号线`. A name missing a marker, or whose first `号线` precedes its first `地铁`, yields none. |
| `Route.LabelShape` | app.py:64-68 | A label directly follows the first `地铁` of the name, ends with `号线`, is at least 2 characters long, and holds no `号线` before its end. So it runs to the first `号线` after the marker. |
| `Route.MarkersApart` | app.py:65-67 | An occurrence of `地铁` before an occurrence of `号线` ends before it starts, so `start < end` holds exactly when the first `地铁` comes before the first `号线`. |
| `Route.BusLabelsMembership` | app.py:61-68 | A label is among a segment's bus-line labels if and only if some bus line's name yields it. |
| `Route.PlanLabelsMembership` | app.py:57-68 | A label is among the plan's scanned labels if and only if some bus line of some segment whose `bus` is an object yields it. |
| `Route.LinesAreThePlansLabels` | app.py:57-70 | A label is in the returned lines if and only if it is extracted from some bus-line name in the plan. |
| `Route.LinesAreDistinct` | app.py:69-70 | The returned lines never hold the same label twice. |
| `Route.LinesAreFirstOccurrences` | app.py:57-70 | The lines are the duplicate-free list of the plan's labels in first-occurrence order, and no other list is. |
| `Route.LinesOfPrefix` | app.py:57-70 | Segments scanned later only append: the lines of a plan's first part are a prefix of the lines of the whole plan. |
| `Route.NonObjectBusSegment` | app.py:59-80 | A segment whose `bus` is not an object adds no line and no bus distance, while its walking distance is still added. |
| `Route.BusMetersIgnoreNames` | app.py:72-74 | A bus line's distance is added whatever its name: lists with the same distance fields sum to the same total, whether or not their names yield labels. |
| `Route.TotalMeters` | app.py:57-80 | The running total of the plan's distances. Its contract is stated by `Route.TotalIsSumOfLegs`, `Route.TotalMetersAppend` and `Route.NonObjectBusSegment`. |
| `Route.TotalIsSumOfLegs` | app.py:72-80 | The total equals the sum, over every bus-line distance (in segments whose `bus` is an object) and every walking distance, of each field's counted value. |
| `Route.TotalMetersAppend` | app.py:57-80 | The total of two plans joined is the sum of their totals. |
| `Route.PlanLabelsAppend` | app.py:57-68 | The scanned labels of two plans joined are the labels of the first followed by those of the second. |
| `Route.DistanceValue` | app.py:72-80 | A distance field contributes something only when it is present, non-empty and all digits. Otherwise it contributes 0. |
| `Route.DistanceOfDecimal` | app.py:73-74 | A distance field holding the decimal rendering of `n` contributes exactly `n`. |
| `Route.EstimateMinutes` | app.py:83 | The estimate is at least 1. For 400 m or more it is the whole number of 400 m stretches (`m*400 <= total < (m+1)*400`). Below 400 m, zero included, it is 1. |
| `Route.EstimateMonotone` | app.py:83 | A longer total never gives a smaller estimate. |
| `Route.Summarize` | app.py:52-84 | The three results for a plan. The lines are empty exactly when no bus-line name in the plan yields a label, there are never more lines than labels scanned, and the estimate is at least 1. `Route.LinesAreFirstOccurrences`, `Route.TotalIsSumOfLegs` and `Route.EstimateMinutes` state the rest. |
| `Route.Kilometres` | app.py:84 | The kilometre figure times 1000 is the metre total, as an exact real number. |
| `Text.FirstIndex` | app.py:65-66 | Python's `str.find`. Its contract is stated by `Text.FirstIndexSpec` and `Text.FirstIndexIs`. |
| `Text.Contains` | app.py:64 | Python's `pat in name`. Its contract is stated by `Text.ContainsSpec`. |
| `Text.IsNumeral` | app.py:73-79 | `dist.isdigit()` after the truthiness test `dist and`: a non-empty string of ASCII digits. `Route.DistanceValue` states what a field counts for. |
| `Text.FindFromSpec` | app.py:65-66 | The search from a position returns the first occurrence at or after it, or nothing when there is none. |
| `Text.FirstIndexSpec` | app.py:64-66 | `find` returns an occurrence with no earlier occurrence, and "not found" exactly when the pattern occurs nowhere. |
| `Text.ContainsSpec` | app.py:64 | `pat in name` holds if and only if the pattern occurs somewhere in the name. |
| `Text.FirstIndexIs` | app.py:65-66 | An occurrence with no earlier occurrence is the one `find` returns. |
| `Text.ParseNat` | app.py:74 | The value read from `n` digits is below `10^n`. |
| `Text.ParseDecimal` | app.py:74 | Reading back the decimal rendering of a number gives the number. |
| `Text.ParseLeadingZero` | app.py:74 | A leading zero does not change the value read. |
| `Distinct.Dedup` | app.py:69-70 | The list built by "append if not in lines". It is never longer than its input. `Distinct.DedupIsFirstOccurrenceList` and `Distinct.FirstOccurrenceListUnique` characterise it completely. |
| `Distinct.DedupElements` | app.py:69-70 | The list built by "append if not present" holds exactly the elements scanned. |
| `Distinct.DedupNoDuplicates` | app.py:69-70 | That list holds no element twice. |
| `Distinct.DedupFirstOccurrenceOrder` | app.py:69-70 | That list orders elements by their first occurrence in the scan. |
| `Distinct.DedupIsFirstOccurrenceList` | app.py:69-70 | That list is a duplicate-free list of exactly the scanned elements, ordered by first occurrence. |
| `Distinct.FirstOccurrenceListUnique` | app.py:69-70 | Any list with those three properties is that list. |
| `Distinct.DedupOfDistinct` | app.py:69-70 | A scan that meets no repeats keeps every element. |
| `Distinct.DedupIdempotent` | app.py:69-70 | Deduplicating a list that is already deduplicated changes nothing. |
| `Distinct.DedupPrefix` | app.py:57-70 | Elements scanned later never disturb the list built so far. |
| `RouteExamples.SevenLineLabel` | app.py:64-68 | `地铁7号线(美兰湖--花木路)` yields `7号线`. |
| `RouteExamples.ReversedMarkersNoLabel` | app.py:64-67 | `1号线地铁` yields no label. |
| `RouteExamples.BusAndWalkPlan` | app.py:52-84 | A bus leg of "1200" and a walk of "300" give 1500 m, 3 minutes and the single line `7号线`. |
| `RouteExamples.ReversedNameStillCountsDistance` | app.py:64-74 | A reversed name with distance "800" gives no line but still 800 m (2 minutes). |
| `RouteExamples.NonNumericDistance` | app.py:72-80 | A distance of "N/A", an empty one or a missing one counts as 0. |
| `RouteExamples.EmptyPlanTakesOneMinute` | app.py:83 | A plan with no distance gets 0 m and a 1-minute estimate. |

## Left out

- `geocode` and `get_transit_route` (app.py:18-50): HTTP calls to the AMap service, with every failure swallowed. They are network I/O, and the only logic in them is a `status == "1"` test.
- Reading the API key from the secrets store or the environment, and stopping when it is missing (app.py:8-16): configuration I/O.
- The Streamlit page (app.py:89-124): the inputs, the button, choosing `routes[0]`, joining lines with arrows, and the "no metro line identified" message.
- RouteParser.ParseRoute: returns the total in metres as a natural number, not the float `total_distance / 1000`. `Route.Kilometres` gives the exact value. Float rounding and the one-decimal display are not modelled.
- Python's `str.isdigit` accepts non-ASCII digits, and `int()` rejects some of them (such as `²`), which would raise. The model's digit test accepts ASCII `0`-`9` only.
- Route.DistanceValue: counts a digit string of any length. On CPython 3.11 and later (and the 3.7-3.10 security releases), `int(dist)` at app.py:74 and app.py:80 raises `ValueError` for strings longer than `sys.get_int_max_str_digits()`, which is 4300 by default. The model has no such limit, so for those inputs it returns a total where the source raises.
- Untyped JSON is not modelled. Fields are typed: a bus-line `name` is a string (a missing name is the empty string), `distance` and the walking distance are optional strings, and `segments` and `buslines` are lists (missing ones are empty). The source does not always raise on other JSON values, and the typed model cannot express what it does then. A falsy non-string `distance` (`0`, `false`, `[]`, `{}`) is skipped by `if dist and` at app.py:73 and app.py:79. A truthy non-string `distance` raises at `isdigit`. A list-valued name without the markers passes the `in` tests at app.py:64 and yields nothing. A `walking` field that is not an object (a list, say) raises at `get`.
- Python strings are sequences of code points. Dafny strings here are sequences of Unicode scalar values. The two agree for every name without lone surrogates. Python's `json` decodes an escape such as `\ud800` to a lone surrogate, which no Dafny `string` can hold, so such names are not modelled.
- The inner loop over a segment's bus lines is its own method, `ScanBusLines`, called from the loop over segments. This keeps each proof small; the behaviour is the same as the nested loop.
