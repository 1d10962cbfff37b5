# Family travel planner: the geocoding pipeline, modelled in Dafny

The travel planner asks a language model for a day-by-day itinerary and
places every activity on a map. Between the model's reply and the map sits
a small pipeline in `app.py`, and this project models that pipeline and
proves properties of it:

- **Fence stripping** (`fences.dfy`, module `Fences`). The reply is cut down
  to the inside of its Markdown code fence before it is parsed as JSON.
- **Location normaliser** (`normalizer.dfy`, module `Normalizer`). The
  inline string rewrites in `create_map_with_route` are modelled as one
  function, `Normalize(location, destination)`:
  1. parenthesised groups are deleted;
  2. one leading `Inside`/`Near`/`At`/`In` is dropped;
  3. a string of three or more comma parts is rebuilt as "landmark, city, country";
  4. standalone five-digit tokens are deleted;
  5. whitespace is collapsed;
  6. `, ,` becomes `,` in one pass.

  Each regular expression is written out by hand over strings, using the
  string toolkit in `text.dfy` (module `Text`), which has Python's `split`,
  `strip`, `lower` and `in`.
- **Throttle and memo cache** (`geocoding.dfy`, module `Geocoding`).
  - `get_location_coordinates` waits until 1.5 s have passed since the
    recorded time of the previous lookup.
  - It then calls `_geocode_cached`, a memo table with a one-hour lifetime,
    and records the time it finished.
  - The pure function `Geocode` is the specification. The class `Geocoder`
    holds the state: the clock, `_last_geocode_time[0]` and the memo table.
  - The network is an oracle from (query, request time) to an answer and a
    latency.
- **Itinerary projector** (`projector.dfy`, module `Projector`). This is
  the rest of `create_map_with_route`:
  - it resolves an anchor for the map;
  - it walks the days and activities in order;
  - for each activity it looks up the normalised location, then falls back
    once to "name, destination";
  - it keeps the counts `all_locations`, `markers_added`,
    `failed_locations` and `activity_count`.

  The pure function `Project` is the specification. The method `CreateMap`
  runs the nested loops against a `Geocoder`, and its postcondition says it
  computes exactly `Project`.

`wrappers.dfy` holds the `Option` type used for Python's `None` and for
missing dictionary keys.

Behaviour that differs from what one might expect:

- **The normaliser is not idempotent.** For any of the four prepositions
  `p` and a plain place name, `p p name` becomes `p name`, and a second
  application gives `name` (`Normalizer.NormalizeOnePrepositionPerPass`).
  With `p` = "In" and the name "Paris", `"In In Paris"` becomes
  `"In Paris"` and then `"Paris"`.
- **Four-digit postcodes stay.** Only standalone five-digit tokens are
  deleted, so a four-digit postcode such as "1010" survives
  (`Normalizer.FourDigitPostcodeSurvives`). For example, "Aquatis, 1010
  Lausanne, Switzerland" keeps its "1010".
- **The spacing is measured from the end of the previous call.** The wait
  runs from the recorded end of the previous call to the start of the
  next, and cache hits pay the wait too. With no time passing between
  calls, each call starts exactly 1.5 s after the previous one finished
  (`Geocoding.CallsAreSpaced`); when time passes in between, the gap is at
  least 1.5 s (`Geocoding.ThrottledStart`).
- **The recorded time resets on every rerun.** `_last_geocode_time` is
  reset to `[0]` each time Streamlit runs the script again. So the first
  lookup of a rerun never waits (`Geocoding.RerunDoesNotWait`).
- **A plan without `days` raises an error.** Anchor failure is not the
  only fatal case: when the plan has no `days` key, the code
  raises `UnboundLocalError` at app.py:393, because `total_activities` is
  never assigned. This is modelled as the outcome `Unbound`.
- **The anchor adds no entry to the map bounds.** The bounds are fitted to
  `all_locations`, and resolving the anchor never appends to that list:
  `len(all_locations) == markers_added` (`Projector.ProjectAccounts`). The
  anchor's coordinates appear there only when an activity resolves to
  them (`Projector.AnchorReusedByFirstActivity`).

## Model

| member | source | states |
|---|---|---|
| Fences.StripFences | app.py:194-197 | The reply cut down to the inside of its fence. A reply that opens with a fence comes back with no whitespace at either end; `StripFencesUnfenced`, `StripFencesLeavesNoFence`, `StripFencesJsonBlock` and `StripFencesBareBlock` say what it is in each case |
| Fences.AfterOpening | app.py:195-196 | `s.split(sep)[1]` on a string that opens with `sep` is the first piece of the split of the text after the opening separator |
| Fences.StripFencesUnfenced | app.py:194-197 | A reply that does not open with three backticks is returned unchanged, and is not stripped |
| Fences.StripFencesLeavesNoFence | app.py:194-197 | Once the reply opens with a fence, the result contains no ```` ``` ```` at all |
| Fences.StripFencesJsonBlock | app.py:194-195 | A ```` ```json ```` block without backticks inside gives back its body, stripped, whether no closing fence follows or one follows with any tail that does not start with a backtick |
| Fences.StripFencesBareBlock | app.py:196-197 | A bare fenced block (body without backticks, not starting with `json`) gives back its body, stripped, whatever follows the closing fence |
| Fences.SplitLeading | app.py:195-196 | A string that opens with the separator splits into an empty first piece and the split of the rest |
| Fences.FirstPieceBefore | app.py:195-196 | When the text before the separator does not contain the separator's first character, the first piece of the split is exactly that text |
| Text.Split | app.py:195 | `str.split(sep)`: at least one piece, and every piece but the last ends at the leftmost occurrence of the separator after it |
| Text.SplitJoin | app.py:309 | Joining the pieces of `str.split` with the separator gives back the string: the split loses nothing and invents nothing |
| Text.SplitPiecesFree | app.py:309 | No piece of `str.split(sep)` contains the separator |
| Text.Find | app.py:309 | The first occurrence of a pattern: it occurs there and nowhere before; `None` means it occurs nowhere |
| Text.ContainsIff | app.py:319 | Python's `pat in s` holds exactly when the pattern occurs at some position |
| Text.Lower | app.py:319 | `str.lower()` on ASCII: the same length, each character lowered |
| Text.Strip | app.py:332 | `str.strip()`: the result is a slice of the input whose ends are not whitespace, and everything cut off is whitespace |
| Text.StripContains | app.py:197 | Stripping never creates an occurrence of a pattern |
| Normalizer.RemoveParenthesised | app.py:302 | Rule 1 only deletes characters: the result is a subsequence of the input |
| Normalizer.RemoveParenthesisedLeavesNoGroup | app.py:302 | After rule 1 no `(` is followed later by a `)` |
| Normalizer.RemoveParenthesisedIdentity | app.py:302 | A string lacking `(` or lacking `)` passes rule 1 unchanged |
| Normalizer.RemoveParenthesisedSkips | app.py:302 | Text before the first `(` is kept as it is |
| Normalizer.RemoveParenthesisedGroup | app.py:302 | A leading `(...)` group without an inner `)` is deleted and the scan resumes after it |
| Normalizer.LeadingWord | app.py:305 | The leading preposition found is one of the four and leads the string (ignoring case); `None` means none of the four leads it |
| Normalizer.StripPreposition | app.py:305 | Rule 2. Its result is a suffix of the input: only text at the front is removed. `StripPrepositionSpec` and `PrepositionGoes` say exactly what goes |
| Normalizer.StripPrepositionSpec | app.py:305 | Rule 2 changes the string exactly when a preposition, in any case and followed by whitespace, is at position 0; it then removes that word and the whitespace after it, and nothing else |
| Normalizer.LeadingUnique | app.py:305 | At most one of `Inside`, `Near`, `At`, `In` can lead a string, so at most one is removed |
| Normalizer.IntoIsKept | app.py:305 | `Into Alfama` is not cut as `In`: the word must be followed by whitespace |
| Normalizer.PrepositionGoes | app.py:305 | A preposition spelled in any case, followed by whitespace, is removed together with all of that whitespace |
| Normalizer.OnlyOnePrepositionGoes | app.py:305 | Rule 2 removes only one leading preposition: of two in a row, a second application removes the next one |
| Normalizer.FirstCityPart | app.py:316-321 | The find-first loop with `break`: the index found names a city and no earlier part does; `None` means no part does |
| Normalizer.Rebuild | app.py:309-326 | Rule 3, the "landmark, city, country" rebuild. It carries no contract of its own: `RebuildKeepsThreeParts`, `EmptyDestinationPicksFirst` and `CommaDestinationNeverMatches` say what it gives |
| Normalizer.RebuildKeepsThreeParts | app.py:309-326 | A rebuilt string splits on commas into exactly the landmark, the city and the country |
| Normalizer.CityFree | app.py:316-324 | The chosen city never contains a comma |
| Normalizer.PartCommaFree | app.py:309 | No comma part contains a comma |
| Normalizer.CommaDestinationNeverMatches | app.py:319 | A destination containing a comma (such as "Paris, France") never matches a part by the destination test |
| Normalizer.EmptyDestinationPicksFirst | app.py:316-324 | An empty destination selects the stripped first part, or the second-to-last part when the first strips to nothing |
| Normalizer.DropPostcodesLeavesNone | app.py:329 | The rule 4 scan leaves no standalone five-digit token |
| Normalizer.RemovePostcodes | app.py:329 | Rule 4. No standalone five-digit token remains, including one formed by the deletion itself; `RemovePostcodesSplit`, `RemovePostcodesWord` and `OtherNumbersSurvive` say that everything else is kept |
| Normalizer.RemovePostcodesIdentity | app.py:329 | A string without standalone five-digit tokens passes rule 4 unchanged |
| Normalizer.FourDigitPostcodeSurvives | app.py:329 | "1010 Lausanne" passes rule 4 unchanged: four-digit postcodes survive |
| Normalizer.DropPostcodesWordRun | app.py:329 | Inside a run of word characters nothing is deleted, because `\b` fails there |
| Normalizer.DropPostcodesSplit | app.py:329 | A non-word character splits the rule 4 scan: the text before it and the text after it are treated independently and the character is kept |
| Normalizer.RemovePostcodesSplit | app.py:329 | Rule 4 on two texts joined by a non-word character is rule 4 on each, joined by that character |
| Normalizer.RemovePostcodesWord | app.py:329 | A single word is deleted by rule 4 exactly when it is five digits, and otherwise kept whole |
| Normalizer.OtherNumbersSurvive | app.py:329 | In "street number, code city" only the five-digit code goes: "Carrer 401, 08013 Barcelona" becomes "Carrer 401,  Barcelona", the house number and both spaces around the code staying |
| Normalizer.PostcodeGapClosed | app.py:329-332 | Rules 4 and 5 together: "street number, code city" becomes "street number, city", so the city stays a separate word |
| Normalizer.CollapseSpaces | app.py:332 | `re.sub(r'\s+', ' ', s)`: the result is empty exactly when the input is, starts with whitespace exactly when the input does, never has two whitespace characters in a row, and its only whitespace is the plain space |
| Normalizer.CollapseSpacesRun | app.py:332 | A whole run of whitespace at the front becomes one plain space and the rest is collapsed on its own |
| Normalizer.CollapseSpacesConcat | app.py:332 | Collapsing distributes over a cut just after a visible character, so a run inside the text is treated as one at the front |
| Normalizer.CollapseSpacesBetween | app.py:332 | A whitespace run between two visible characters becomes exactly one plain space |
| Normalizer.CollapseSpacesKeepsVisible | app.py:332 | Collapsing whitespace keeps every non-whitespace character, in order |
| Normalizer.StripKeepsVisible | app.py:332 | Stripping keeps every non-whitespace character, in order |
| Normalizer.Squash | app.py:332 | Rule 5. The result never has whitespace at either end nor two whitespace characters in a row, and its only whitespace is the plain space; `SquashSpec` and `SquashBetween` say what it keeps |
| Normalizer.SquashSpec | app.py:332 | Rule 5's result has no whitespace at either end and never two in a row, its only whitespace is the plain space, and it keeps all the visible text |
| Normalizer.SquashBetween | app.py:332 | Two texts separated by any whitespace run, the first ending and the second starting with a visible character, are squashed separately and joined by exactly one plain space |
| Normalizer.MergeCommas | app.py:333 | The `, ,` pass never lengthens the string and keeps its first and last characters |
| Normalizer.MergeCommasNoDoubleSpace | app.py:333 | The `, ,` pass creates no double whitespace |
| Normalizer.MergeCommasIdentity | app.py:333 | A string without `,` + whitespace + `,` passes unchanged |
| Normalizer.MergeCommasMerges | app.py:333 | `,` + whitespace + `,` becomes one `,` and the scan resumes after it |
| Normalizer.MergeCommasSinglePass | app.py:333 | The pass is single and non-overlapping: of `, , ,` only the first pair is merged, so `"a, , , b"` gives `"a, , b"` |
| Normalizer.Normalize | app.py:297-336 | The six rules in order. A normalised location never has whitespace at either end nor two whitespace characters in a row |
| Normalizer.NormalizeDropsPreposition | app.py:297-336 | A preposition in any case, one space and a plain place name (no parentheses, commas or digits, single plain spaces) normalise to the place name |
| Normalizer.NormalizeOnePrepositionPerPass | app.py:297-336 | The normaliser is not idempotent: a doubled preposition before a plain place name loses one copy per application |
| Geocoding.Outcome | app.py:91-100 | `_geocode_cached` without the memo table: coordinates only for a found location; a miss or any exception gives `None` |
| Geocoding.ThrottledStart | app.py:106-110 | The lookup starts no earlier than now and at least 1.5 s after the recorded time, and no later than needed |
| Geocoding.Geocode | app.py:88-115 | One call: the memoised result is served exactly when the entry is younger than an hour at the start of the lookup. Otherwise the network is asked and its answer, `None` included, is memoised with the time the request returned. The recorded time becomes the end of the call |
| Geocoding.ClearMemo | app.py:77-78 | Clearing empties the memo table and keeps the clock and the recorded time |
| Geocoding.CallsAreSpaced | app.py:106-114 | For any sequence of calls with no time passing between them, cache hits included, each lookup starts exactly 1.5 s after the previous call finished |
| Geocoding.RepeatIsServedFromMemo | app.py:88-100 | A result just fetched is served from the memo table when asked again at once. Whenever the memo serves a repeat, the result is the same |
| Geocoding.FailureIsMemoised | app.py:95-100 | A failed lookup, including an exception, is memoised as `None` like any other result |
| Geocoding.ExpiredIsRefetched | app.py:88 | An entry an hour old or older at the start of the lookup is not served: the network is asked again |
| Geocoding.ClearedMemoFetches | app.py:77-78 | After the cache is cleared every query goes to the network |
| Geocoding.RerunDoesNotWait | app.py:86 | On a rerun the recorded time is back at 0, so the first lookup starts at once |
| Geocoding.MemoFromOracleUpdate | app.py:93-100 | Memoising the network's answer keeps every entry equal to what the network answered when it was fetched |
| Geocoding.Geocoder.constructor | app.py:86-88 | A fresh geocoder: an empty memo table and recorded time 0 |
| Geocoding.Geocoder.Wait | app.py:106-110 | The clock advances to `ThrottledStart` and nothing else changes |
| Geocoding.Geocoder.Fetch | app.py:91-100 | A miss: the result is the network's answer, the clock moves by the latency, and the answer is memoised with that time |
| Geocoding.Geocoder.Lookup | app.py:102-115 | `get_location_coordinates` returns and leaves exactly what `Geocode` says, and keeps the memo table faithful to the network |
| Geocoding.Geocoder.Rerun | app.py:86 | A rerun resets the recorded time to 0 and keeps the memo table |
| Geocoding.Geocoder.Elapse | app.py:104-106 | Time passing between calls only moves the clock |
| Geocoding.Geocoder.Clear | app.py:77-78 | The "Clear Cache" button empties the memo table as `ClearMemo` says |
| Projector.Prefix | app.py:367 | Python's `s[:n]`: a prefix of exactly `min(len(s), n)` characters |
| Projector.AnchorQuery | app.py:212-217 | The anchor query exists exactly when the plan has days, the first day has activities and the first activity has a non-empty `location`. It is that raw location |
| Projector.Resolve | app.py:339-346 | The lookups for one activity, the cleaned query and then at most one fallback. It carries no contract of its own: `RetryRecovers` states its three cases and `ResolveActivity` runs it |
| Projector.RetryRecovers | app.py:339-383 | One activity: a hit on the cleaned query adds its coordinates; a miss followed by a hit on "name, destination" adds the fallback's coordinates and a marker for them and records no failure; two misses add only a failure. The geocoder ends as the last lookup leaves it |
| Projector.Record | app.py:348-383 | The totals after one activity. It carries no contract of its own: `RecordBalanced` states what it adds |
| Projector.RecordBalanced | app.py:348-383 | One activity counts once and extends exactly one of the locations (with a marker of the day's number and colour) and the failures (with its raw location) |
| Projector.VisitAllBalanced | app.py:284-387 | A day's activities keep `markers_added == len(all_locations)` and add one to `activity_count` per activity |
| Projector.VisitAllMarkers | app.py:276-277 | Every marker a day adds carries that day's number and colour |
| Projector.VisitDayMarkers | app.py:275-277 | The markers of day `i` show its `day` value, or `i + 1` when it has none, and colour `colors[i % 13]` |
| Projector.VisitDaysBalanced | app.py:267-387 | After the first `k` days the totals balance and `activity_count` is the number of their activities |
| Projector.ProjectAccounts | app.py:263-397 | In the result, `markers_added == len(all_locations)` and `markers_added + len(failed_locations) == total_activities`; the anchor adds no entry, so `len(all_locations) == markers_added` |
| Projector.Anchor | app.py:209-224 | The anchor lookups: the first activity's location, then the destination. It carries no contract of its own: `MissingDaysNeverDraws`, `AnchorReusedByFirstActivity` and `FindAnchor` pin it |
| Projector.ProjectWith | app.py:206-397 | `create_map_with_route` for a given normaliser. It carries no contract of its own: `ProjectAccounts`, `MissingDaysNeverDraws` and `AnchorReusedByFirstActivity` state what it gives and `CreateMapWith` runs it |
| Projector.Project | app.py:206-397 | `ProjectWith` with the normaliser `Normalize`. It carries no contract of its own: `CreateMap` runs it |
| Projector.MissingDaysNeverDraws | app.py:209-265 | A plan without `days` never yields a map: only the destination is looked up for the anchor, and the call fails with `UnboundLocalError` exactly when that lookup finds something |
| Projector.AnchorReusedByFirstActivity | app.py:209-224 | When the first activity's location is already clean, its anchor lookup went to the network and found it, the map is drawn and its first location is the anchor, served from the memo table |
| Projector.ColoursCycle | app.py:259-277 | Thirteen consecutive days get different colours, and day `i + 13` gets day `i`'s |
| Projector.ResolveActivity | app.py:339-346 | The lookups for one activity return and leave what `Resolve` says |
| Projector.FindAnchor | app.py:209-224 | The anchor lookups return and leave what `Anchor` says |
| Projector.VisitActivity | app.py:286-387 | The loop body updates the totals and the geocoder as `Visit` says |
| Projector.VisitActivities | app.py:284-387 | The activity loop computes `VisitAll` over the day's activities |
| Projector.VisitAllDays | app.py:275-387 | The day loop computes `VisitDays` over all days |
| Projector.CreateMapWith | app.py:206-397 | The whole function, for a given normaliser, returns and leaves what `ProjectWith` says |
| Projector.CreateMap | app.py:206-397 | `create_map_with_route` with `Normalize` returns and leaves exactly what `Project` says |

## Left out

- The Streamlit UI is not modelled: sidebar inputs, session state, spinners, the progress bar, status messages and debug callbacks. The progress fraction is only the counter `count`.
- The Gemini call and its prompt are not modelled. The reply is a string input to `StripFences`. `json.loads` is not modelled; the parsed itinerary is the input datatype `Plan`.
- Nominatim is an oracle (`Geocoding.Oracle`) from the query and the request time to an answer and a latency. Latitude and longitude are carried as they come and never inspected.
- `time.time()` and `time.sleep` become an integer clock in milliseconds that only moves forward. The sleep is exact. A wall clock that goes backwards is out of scope.
- Geocoding.Geocode: models `st.cache_data` only by its memo semantics. An entry is stamped when the request returns and is served while it is younger than 3,600,000 ms. Streamlit's own copying, hashing and eviction are out of scope. A lookup served from the memo table takes no time: the recorded end of the call is its start.
- folium is not modelled: the map, the tile layers, the HTML popups and `fit_bounds`. A marker is recorded as its coordinates, day number, colour, title, duration, `description[:100]` and `challenge[:80]`.
- `print` logging and the unused `geodesic` import are not modelled.
- Projector.CreateMap: does not model the `except Exception` branch (app.py:384-387). With every field a string, as the model's types require, nothing in the loop body can raise. A JSON `null` or a number in a field is outside the model.
- Day numbers: the `day` value is modelled as an optional integer. Any other JSON value would only be displayed.
- Projector.CreateMap: time does not pass between lookups inside one call of `create_map_with_route`. The string work between them is taken to be instantaneous. `Geocoder.Elapse` models time passing between calls.
- Text.Lower: lowers ASCII letters only. Python's full Unicode `lower()` is not modelled. Likewise `\d` and `\w` are ASCII-only, while `\s` and `strip()` use the full set of Unicode whitespace.
- Normalizer.LeadingWord: its `re.IGNORECASE` match is ASCII-only in the model. Python's Unicode matching would also accept `ı` and `İ` for `i` (so "İn Paris" loses its preposition there but not in the model) and `ſ` for `s`.
- Projector.CreateMapWith: the walk over the activities takes the normaliser as a parameter, so the accounting proofs hold for any normaliser. `Project` and `CreateMap` fix it to `Normalizer.Normalize`.
