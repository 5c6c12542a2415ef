# Care finder: directory search, quick statistics and wait-time display

This project models the logic of the index page of a small care-finder UI
(`client/pages/Index.tsx`). The page holds a fixed directory of healthcare
facilities: emergency rooms, urgent-care centres and walk-in clinics. Each
record has a distance and a wait time. The page does four things with that
directory:

- it filters the directory by a free-text search that matches the
  lower-cased name or type of a record;
- it shows three figures above the list: how many locations are listed, how
  many of them have a low wait, and the nearest distance;
- it shows "No locations found" when nothing is listed;
- on every card it shows a style token chosen from the wait category and a
  wait-time label such as "45 min", "2h" or "1h 15m".

All of this is pure computation over an immutable list. The model is
therefore written as datatypes, functions and lemmas, with no classes and no
loops. There are six modules:

- `Wrappers`: the Option type.
- `Text`: decimal rendering of naturals, ASCII lower-casing and substring
  containment.
- `Seqs`: a generic stable filter, a guarded minimum and JavaScript's
  `Math.min`.
- `Locations`: the record, its two enumerations and the demonstration
  directory.
- `Presentation`: `getWaitTimeColor`, `formatWaitTime` and a parser that
  inverts `formatWaitTime`.
- `Query`: the search, the statistics, the empty-state rule and the
  demonstration scenario.

The record's `type` field is called `kind`, because `type` is a Dafny
keyword. `type` and `waitCategory` become closed enumerations.
`TypeName`/`CategoryName` give the string literal each value stands for, and
searching and colour mapping work on those strings, as the source does. The
model keeps the wait category independent of the wait time, as in the
source. Record 5 has a 75-minute wait in the "medium" category, and record
2 has a 45-minute wait in the same category. No threshold ties the two
fields, so none is stated.

`getWaitTimeColor` takes a string in the source, so `WaitTimeColor` takes a
string too, and every string other than "low", "medium" and "long" gets the
fallback token. `formatWaitTime` is modelled over `nat`: the page only
passes it the non-negative integer wait times of its records.

## Model

| member | source | states |
|---|---|---|
| `Text.NatToString` | client/pages/Index.tsx:90 | the decimal rendering that `${minutes}` prints: non-empty, digits only, no leading zero, a single digit exactly below 10 |
| `Text.DigitsValueOfNatToString` | client/pages/Index.tsx:90 | reading a rendering back as a decimal number gives the number rendered |
| `Text.NatToStringInjective` | client/pages/Index.tsx:90 | different numbers never render alike |
| `Text.LeadingDigits` | client/pages/Index.tsx:90 | gives the longest all-digit prefix of a string, so the next character, if any, is not a digit |
| `Text.Lower` | client/pages/Index.tsx:147-148 | lower-casing keeps the length of the string |
| `Text.LowerResult` | client/pages/Index.tsx:147-148 | the lower-cased query and fields contain no upper-case letter, each upper-case letter becomes the same letter in lower case, and every other character stays in place |
| `Text.LowerSameIff` | client/pages/Index.tsx:147-148 | two strings lower-case alike exactly when they have the same length and differ at most in the case of ASCII letters, in both directions |
| `Text.LowerIdempotent` | client/pages/Index.tsx:147-148 | lower-casing twice is lower-casing once |
| `Text.LowerAvoids` | client/pages/Index.tsx:147-148 | a letter missing from a string in both cases is missing from its lower-cased form |
| `Text.Contains` | client/pages/Index.tsx:147-148 | `includes` only succeeds for a needle no longer than the haystack |
| `Text.ContainsIffOccurs` | client/pages/Index.tsx:147-148 | `includes` holds exactly when the needle occurs at some position of the haystack, in both directions |
| `Text.ContainsEmpty` | client/pages/Index.tsx:147-148 | every string includes the empty string |
| `Text.NotContainedWithoutFirstChar` | client/pages/Index.tsx:147-148 | a needle whose first character is absent from the haystack is not included in it |
| `Seqs.Filter` | client/pages/Index.tsx:145-149 | `Array.filter` keeps exactly the elements that satisfy the test, and never makes the list longer |
| `Seqs.FilterSelects` | client/pages/Index.tsx:145-149 | the result consists of the elements at exactly the positions that pass the test, in strictly increasing position order, each once. This gives soundness, completeness and order preservation at once |
| `Seqs.FilterLength` | client/pages/Index.tsx:207-208 | the length of a filtered list equals the number of positions that pass the test |
| `Seqs.FilterKeepsAll` | client/pages/Index.tsx:145-149 | a test that every element passes leaves the list unchanged |
| `Seqs.FilterCongruent` | client/pages/Index.tsx:145-149 | two tests that agree on every element give the same filtered list |
| `Seqs.FilterSnoc` | client/pages/Index.tsx:145-149 | appending one element to the input appends it to the output exactly when it passes the test |
| `Seqs.Minimum` | client/pages/Index.tsx:215 | the guarded minimum is None exactly on the empty list; otherwise it is an element of the list and at most every element |
| `Seqs.MathMin` | client/pages/Index.tsx:215 | `Math.min` of a spread list is Infinity exactly when the list is empty |
| `Seqs.MathMinIsGuardedByMinimum` | client/pages/Index.tsx:215 | `Math.min` and the guarded minimum agree on every non-empty list, and `Math.min` gives Infinity where the guarded one gives None |
| `Locations.TypeName` | client/pages/Index.tsx:7 | each facility kind is written as its own literal of the `type` union, and that literal reads back to the kind |
| `Locations.CategoryName` | client/pages/Index.tsx:10 | each wait category is written as its own literal of the `waitCategory` union, and that literal reads back to the category |
| `Locations.MockLocationsValid` | client/pages/Index.tsx:17-73 | the demonstration directory has unique ids and non-negative distances |
| `Presentation.WaitTimeColor` | client/pages/Index.tsx:75-86 | total: it always gives a non-empty token, and it gives the fallback "bg-gray-500 text-white" exactly when the category is not "low", "medium" or "long" |
| `Presentation.CategoryTokensDistinct` | client/pages/Index.tsx:75-86 | the three categories get three different tokens, none of them the fallback |
| `Presentation.FormatWaitTime` | client/pages/Index.tsx:88-98 | the label has at least two characters and starts with a digit; it ends in "n" (of " min") exactly under an hour, and in "h" exactly for a whole number of hours from one hour on |
| `Presentation.FormatWaitTimeCases` | client/pages/Index.tsx:88-98 | under 60 minutes the label is "<m> min"; for a whole number of hours it is "<h>h" with h >= 1; otherwise it is "<h>h <r>m" with h >= 1 and 0 < r < 60 |
| `Presentation.FormatWaitTimeRoundTrip` | client/pages/Index.tsx:88-98 | every label reads back, through `ParseWaitTime`, to the wait time it was made from |
| `Presentation.RoundTripUnderAnHour` | client/pages/Index.tsx:89-91 | the round trip for the "<m> min" shape |
| `Presentation.RoundTripWholeHours` | client/pages/Index.tsx:92-96 | the round trip for the "<h>h" shape |
| `Presentation.RoundTripHoursAndMinutes` | client/pages/Index.tsx:92-97 | the round trip for the "<h>h <r>m" shape |
| `Presentation.RoundTripMinutes` | client/pages/Index.tsx:97 | the trailing "<r>m" of a label reads back to r |
| `Presentation.FormatWaitTimeInjective` | client/pages/Index.tsx:88-98 | different wait times never get the same label |
| `Presentation.FormatMinutesExamples` | client/pages/Index.tsx:89-91 | 0, 15 and 45 minutes give "0 min", "15 min" and "45 min" |
| `Presentation.FormatHoursExamples` | client/pages/Index.tsx:92-97 | 60, 75, 90, 120 and 125 minutes give "1h", "1h 15m", "1h 30m", "2h" and "2h 5m" |
| `Query.Matches` | client/pages/Index.tsx:146-148 | the empty query matches every record, and a record only matches a query no longer than its name or its type |
| `Query.FilterByQuery` | client/pages/Index.tsx:145-149 | a record is listed exactly when it is in the directory and its lower-cased name or type contains the lower-cased query; the list is never longer than the directory |
| `Query.FilterByQuerySelects` | client/pages/Index.tsx:145-149 | the listed records are the directory's matching positions, all of them and no others, in directory order |
| `Query.FilterByEmptyQuery` | client/pages/Index.tsx:145-149 | the empty query lists the whole directory unchanged |
| `Query.FilterByQueryCaseInsensitive` | client/pages/Index.tsx:147-148 | two queries with the same lower-cased form list the same records |
| `Query.FilterByCaseVariantQuery` | client/pages/Index.tsx:147-148 | two queries that differ only in the case of ASCII letters list the same records |
| `Query.UpperCaseQueryExample` | client/pages/Index.tsx:147-148 | "ER" lists what "er" lists |
| `Query.FilterByLoweredQuery` | client/pages/Index.tsx:147-148 | lower-casing the query first changes nothing |
| `Query.FilterKeepsValid` | client/pages/Index.tsx:283 | the listed records keep unique ids, which the list uses as React keys, and non-negative distances |
| `Query.LowWaitCount` | client/pages/Index.tsx:207-208 | the "Low Wait" figure is the number of listed positions whose category is low, so it is at most the number listed |
| `Query.NearestDistance` | client/pages/Index.tsx:215 | the "Nearest" figure is None exactly for an empty list; otherwise it is the distance of some listed record and at most every listed distance |
| `Query.NearestDistanceAsWritten` | client/pages/Index.tsx:215 | the source's figure is Infinity exactly for an empty list; otherwise it is the distance of some listed record and at most every listed distance |
| `Query.NoMatchShowsInfinity` | client/pages/Index.tsx:215 | as written, a query that matches no record makes the nearest figure Infinity |
| `Query.NearestDistanceGuardsInfinity` | client/pages/Index.tsx:215 | the guarded figure is None exactly where the source's is Infinity, and otherwise it equals the source's |
| `Query.Aggregate` | client/pages/Index.tsx:200-215 | the count is the number listed, the low-wait count is the number of listed positions whose category is low, and so at most the count; the nearest distance is missing exactly when the count is 0, and otherwise it is the distance of some listed record and at most every listed distance |
| `Query.AggregateOfNothing` | client/pages/Index.tsx:200-215 | an empty list gives the figures 0, 0 and no nearest distance |
| `Query.ShowsNoLocationsFound` | client/pages/Index.tsx:269 | the empty state of a list appears exactly when its location count is 0, and exactly when it has no nearest distance |
| `Query.EmptyStateRule` | client/pages/Index.tsx:269 | "No locations found" is shown exactly when no directory record matches the query, and exactly when there is no nearest distance |
| `Query.NotUrgent` | client/pages/Index.tsx:145-149 | a record that is not an urgent-care centre and has no u in its name does not match "urgent" |
| `Query.UrgentByType` | client/pages/Index.tsx:145-149 | every urgent-care centre matches "urgent" through its type |
| `Query.UrgentPicksSecondAndFifth` | client/pages/Index.tsx:145-149 | in five records where only the second and the fifth are urgent-care centres, and the others have no u in their names, "urgent" lists exactly those two |
| `Query.MockNamesWithoutU` | client/pages/Index.tsx:17-73 | the names of the three demonstration records that are not urgent-care centres contain no u |
| `Query.UrgentScenario` | client/pages/Index.tsx:145-149 | searching the demonstration directory for "urgent" lists records 2 and 5, and gives the figures 2, 0 and 1.2 |
| `Query.UrgentStats` | client/pages/Index.tsx:200-215 | records 2 and 5 give the figures 2, 0 and 1.2 |

## Findings

| source | as written | input that shows it | evidently intended | confidence | as-written member | corrected member |
|---|---|---|---|---|---|---|
| client/pages/Index.tsx:215 | the "Nearest" figure is `Math.min(...distances)`, which is Infinity for an empty list, so the page shows "Infinity mi" | any search that matches no record, e.g. "zzz-no-match" | no nearest distance when nothing is listed; the list already shows "No locations found" at line 269 | medium, not executed | `Query.NoMatchShowsInfinity` | `Query.NearestDistance` |

`Query.NearestDistanceGuardsInfinity` connects the two: the figures differ
only where the source shows Infinity. The rest of the model uses
`Query.NearestDistance`.

## Left out

- client/pages/NotFound.tsx: a static page that logs the unmatched route to the console. It has no logic to model.
- The React rendering: JSX, icons, CSS classes other than the returned tokens, the background image, and the "Call Now" and "Call 911" buttons, which have no handlers.
- The `useState` UI state: the search text is a parameter of the search, and the filter panel toggled at line 189 is not modelled. The filter chips at lines 230-241 have no handlers, so there is no type filter to model.
- Floating point: distances are `real`. The one-decimal rendering `toFixed(1)` (line 215) and the JSX expression `{location.distance}` (line 112) are not modelled.
- `Text.Lower`: ASCII lower-casing only. It agrees with JavaScript's `toLowerCase` on ASCII text. A query with non-ASCII letters can differ: JavaScript lower-cases the Kelvin sign U+212A to "k", so that query lists records 2 and 4, while the model leaves the sign unchanged and lists nothing.
- `Presentation.FormatWaitTime`: not defined for negative or fractional minutes, which the page never passes. Minutes are an exact integer here. JavaScript's double arithmetic is not modelled: `Math.floor(minutes / 60)`, `minutes % 60` and `${hours}` are exact only below 2^53, and from 1e21 on the template prints exponent notation. `Presentation.FormatWaitTimeRoundTrip` and `Presentation.FormatWaitTimeInjective` are therefore claims about the exact-integer labels.
- The "zzz-no-match" scenario on the demonstration data is not proved as a concrete computation. `Query.EmptyStateRule`, `Query.AggregateOfNothing` and `Query.NoMatchShowsInfinity` state it for every query that matches nothing.
