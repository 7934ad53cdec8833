# ChronoMyst core, modelled in Dafny

ChronoMyst is a browser tool for game masters of murder-mystery scenarios. A scenario has:

- a cast of characters and a set of places;
- a time grid built from a start time, an end time and an interval, all "HH:mm";
- timeline events that place characters at places over a span of grid rows;
- a map image with one marker per place.

This project models the logic behind the grid and the map:

- **Time grids.** `updateConfig` of the timeline slice, the multi-day `getTimePresets` of the event modal, and the map view's `getTimeSlots`.
- **Timeline table.** The row-span map, built in place, and its cell lookup.
- **Marker resolution.** Resolving a marker's place id to a place, in the selector, the map view and the debug view. The unplaced-place filters.
- **Alibi table.** The half-open slot overlap of `selectAlibi`.
- **Event editor.** The id resolution of the event modal, its form and calendar conversions, and its create/update id policy.
- **Map-marker store.** The store and its reducers.
- **Validators.** The config form, the event form and the item checks.
- **Utilities.** `sanitizeFilename`, `useNextSort`, and the import/export envelope of the layout.

**Form of the model.** Each source file is one module.

- Code that changes state step by step is imperative Dafny, proved against specification functions:
  - the slice reducers are methods of the classes `TimelineSlice.TimelineStore` and `MapSlice.MapStore`;
  - the drag refs of the map view are fields of `MapView.DragState`;
  - the slot loop is `HmTime.SteppedTimes`;
  - the span-map loops are `TimelineTable.BuildSpanMap`, `AllOrdinary`, `MarkCharacters` and `MergeRows`;
  - the in-place id overwrite is `EditEventModal.HandleSubmit`.
- Pure selectors, filters and validators are functions. Lemmas state what they promise.

**JavaScript numbers.** A number is `JsText.Num`: an integer or NaN.

- Comparisons with NaN are false.
- Arithmetic with NaN gives NaN.

The model relies on these rules in many places. For example, an unreadable bound passes `updateConfig`'s guard and then yields an empty grid.

**A malformed range.** `updateConfig` returns early on a step ≤ 0 or an end before the start, and keeps the previous times, characters and places (src/features/timelines/timelineSlice.ts:159-163). `TimelineSlice.TimelineStore.UpdateConfig` models this.

**Byte order mark.** The export writes a byte order mark before the JSON text, although section 8.1 of RFC 8259 says that JSON generators must not add one. The import strips one leading mark, which that section allows parsers to do. Both are modelled as written.

**Validation messages.** The validators return Japanese message strings. The model returns the constructors of `CustomValidation.ValidationError`, one per distinct message:

| constructor | meaning |
|---|---|
| `Required` | the field is required |
| `StartNotBeforeEnd` | the start must be before the end |
| `EndNotAfterStart` | the end must be after the start |
| `TooFewCharacters` | add at least one character |
| `TooManyCharacters` | at most ten characters |
| `TooManyPlaces` | at most ten places |
| `CharacterNameRequired` | a character needs a name |
| `PlaceNameRequired` | a place needs a name |
| `NoCharacterSelected` | select at least one character |

`None` stands for the validators' `null`, meaning valid.

## Model

| member | source | states |
|---|---|---|
| TimelineSlice.TimelineStore.constructor | src/features/timelines/timelineSlice.ts:126-128 | the store starts holding exactly the given initial state |
| TimelineSlice.TimelineStore.Save | src/features/timelines/timelineSlice.ts:130-132 | `save` replaces the entire state with the payload |
| TimelineSlice.TimelineStore.UpdateScenarioName | src/features/timelines/timelineSlice.ts:133-137 | only the scenario's name changes; every other field is unchanged |
| TimelineSlice.TimelineStore.UpdateConfig | src/features/timelines/timelineSlice.ts:138-177 | a step ≤ 0 or an end before the start leaves the whole state unchanged; otherwise times become the formatted stepped grid, characters and places are replaced by the payload's, and scenario and events stay |
| TimelineSlice.AcceptedTimes | src/features/timelines/timelineSlice.ts:155-171 | an accepted range gives (end − start) div step + 1 times; the first is the start; time i reads back as start + i·step ≤ end; all are distinct; the end is listed iff step divides end − start; start = end gives exactly one time |
| TimelineSlice.RejectedRanges | src/features/timelines/timelineSlice.ts:159-163 | a zero interval and an end before the start are both rejected by the guard |
| TimelineSlice.NaNBoundTimes | src/features/timelines/timelineSlice.ts:159-169 | an unreadable start or end passes the guard (NaN comparisons are false) and yields no times |
| TimelineSlice.NaNIntervalTimes | src/features/timelines/timelineSlice.ts:159-169 | an unreadable interval passes the guard, and the loop pushes the start once before `t += NaN` stops it |
| TimelineSlice.EveningExample | src/features/timelines/timelineSlice.ts:155-171 | "18:00" to "23:00" every "01:00" is accepted and gives six times, from minute 1080 to minute 1380 |
| HmTime.ToMinutes | src/features/timelines/timelineSlice.ts:143-146 | a time that reads as a number is never negative (the exact value is given by HmTime.HmRoundTrip and HmTime.DigitPairMinutes) |
| HmTime.DigitPairMinutes | src/features/timelines/timelineSlice.ts:143-146 | two digit strings joined by ':' read as h·60 + m minutes |
| HmTime.TwoPartMinutes | src/features/timelines/timelineSlice.ts:143-146 | a time that splits into two digit parts reads as the first times 60 plus the second |
| HmTime.WholeHour | src/features/timelines/timelineSlice.ts:143-146 | "HH:00" is HH·60 minutes |
| HmTime.ToHmShape | src/features/timelines/timelineSlice.ts:149-153 | `toHmString` gives at least two hour digits, ':', and exactly two minute digits; below 100 hours it is exactly "HH:mm" |
| HmTime.PaddedPairMinutes | src/features/timelines/timelineSlice.ts:143-153 | zero-padded hours and minutes joined by ':' read back as h·60 + m |
| HmTime.HmRoundTrip | src/features/timelines/timelineSlice.ts:143-153 | `toMinutes(toHmString(m)) = m` for every m ≥ 0 |
| HmTime.ToHmInjective | src/features/timelines/timelineSlice.ts:149-153 | different minute values format to different strings |
| HmTime.SteppedTimes | src/features/timelines/timelineSlice.ts:166-169 | the loop's output is the formatted grid of the values `t` takes in `for (t = lo; t <= hi; t += step)`, with NaN bounds and steps as JavaScript treats them |
| HmTime.GridAdvance | src/features/timelines/timelineSlice.ts:167 | one loop pass keeps "values done + grid from t" equal to the whole grid |
| HmTime.GridStep | src/features/timelines/timelineSlice.ts:167 | the grid from t is t followed by the grid from t + step |
| HmTime.FormatAppend | src/features/timelines/timelineSlice.ts:168 | pushing one more value appends its formatted time |
| HmTime.FormatAt | src/features/timelines/timelineSlice.ts:166-169 | formatting keeps length and order: time i is value i, formatted |
| HmTime.FormatReadsBack | src/features/timelines/timelineSlice.ts:166-169 | each formatted time reads back as the value it came from |
| HmTime.FormatDistinct | src/features/timelines/timelineSlice.ts:166-169 | a duplicate-free value list formats to a duplicate-free time list |
| HmTime.Grid | src/features/timelines/timelineSlice.ts:166-167 | the values `t` takes in the loop: none iff the loop guard fails at once (an end before the start, or a NaN bound); otherwise the first is the start and every value lies between start and end |
| HmTime.SlotsLength | src/features/timelines/timelineSlice.ts:167 | the stepped grid has (hi − lo) div step + 1 values, or none when hi < lo |
| HmTime.SlotsAt | src/features/timelines/timelineSlice.ts:167 | value i of the grid is lo + i·step and does not pass hi |
| HmTime.SlotsStopAtLast | src/features/timelines/timelineSlice.ts:167 | one more step past the last value would pass hi |
| HmTime.SlotsIncrease | src/features/timelines/timelineSlice.ts:167-168 | each value is exactly step above the previous, so the grid strictly increases |
| HmTime.SlotsFirst | src/features/timelines/timelineSlice.ts:160-167 | the first value is lo, and lo = hi gives it alone |
| HmTime.SlotsHaveEnd | src/features/timelines/timelineSlice.ts:160-167 | hi is a value of the grid iff step divides hi − lo |
| HmTime.FormattedSlots | src/features/timelines/timelineSlice.ts:166-169 | the formatted grid of a whole-minute range: its count, time i reads back as lo + i·step ≤ hi, and all times are distinct |
| HmTime.FormattedSlotsHaveEnd | src/features/timelines/timelineSlice.ts:160-169 | the formatted hi is listed iff step divides hi − lo |
| JsText.ParseNumber | src/features/timelines/timelineSlice.ts:144 | `Number(part)` is a number iff the part is all decimal digits ("" is 0), and that number is never negative |
| JsText.Decimal | src/features/timelines/timelineSlice.ts:152 | `String(n)` of a natural number is a non-empty digit string with no leading zero, of one digit below 10 and at most two below 100 |
| JsText.DecimalRoundTrip | src/features/timelines/timelineSlice.ts:144-152 | reading back the decimal digits of n gives n |
| JsText.LeadingZeros | src/features/timelines/timelineSlice.ts:152 | leading zeros do not change the value of a digit string |
| JsText.PadStartShape | src/features/timelines/timelineSlice.ts:152 | `padStart` ends with the string, has only pad characters before it, and is at least the width long |
| JsText.PaddedDecimalRoundTrip | src/features/timelines/timelineSlice.ts:144-152 | a zero-padded decimal is all digits and reads back as its number |
| JsText.Split | src/features/timelines/timelineSlice.ts:144 | `split` gives at least one piece and no piece contains the separator |
| JsText.SplitJoin | src/features/timelines/timelineSlice.ts:144 | joining the pieces back with the separator gives the original string |
| JsText.SplitTwo | src/features/timelines/timelineSlice.ts:144 | two separator-free pieces joined by one separator split back into exactly those two pieces |
| JsText.NumberToString | src/components/EditEventModal.tsx:165 | `String(id)` is non-empty, all digits for a natural id, and starts with '-' for a negative one |
| JsText.NumberToStringInjective | src/components/EditEventModal.tsx:165-167 | different ids print differently, so comparing printed ids compares ids |
| EventModalHooks.InitialValues | src/components/pages/timeline/editTimelineEventModal/hooks.ts:25-43 | an event with a non-empty id or start time is returned unchanged; otherwise a blank draft: days "1", colour `COLOR_EVENT_DEFAULT`, empty strings, empty id lists, placeholder witness and place |
| EventModalHooks.InitialValuesIdempotent | src/components/pages/timeline/editTimelineEventModal/hooks.ts:25-43 | feeding the hook its own initial values gives them back |
| EventModalHooks.PresetRange | src/components/pages/timeline/editTimelineEventModal/hooks.ts:73-104 | the loop's lower bound is never a negative number |
| EventModalHooks.ZeroIntervalStalls | src/components/pages/timeline/editTimelineEventModal/hooks.ts:75-101 | as written, an interval of "00:00" over a non-empty range gives step 0, which adding leaves every `t` unchanged, so the loop never ends |
| EventModalHooks.GetTimePresetsGuarded | src/components/pages/timeline/editTimelineEventModal/hooks.ts:62-107 | with `updateConfig`'s step guard added: a step ≤ 0 gives no presets; any other step terminates with the formatted grid of the day's range |
| EventModalHooks.GetTimePresets | src/components/pages/timeline/editTimelineEventModal/hooks.ts:62-107 | the presets are the formatted stepped grid over the day's range, for each of the four branches |
| EventModalHooks.DayBounds | src/components/pages/timeline/editTimelineEventModal/hooks.ts:76-77 | "00:00" is minute 0 and "24:00" is minute 1440 |
| EventModalHooks.PresetRanges | src/components/pages/timeline/editTimelineEventModal/hooks.ts:81-104 | ranges per branch: at most one configured day gives start..end whatever day is asked; otherwise day 1 is start..1440, the last day 0..end, any other day 0..1440 |
| EventModalHooks.PresetsWithinBounds | src/components/pages/timeline/editTimelineEventModal/hooks.ts:79-106 | in every branch, presets rise from lo by exactly the step, never pass hi, number (hi − lo) div step + 1, and are distinct |
| EventModalHooks.MiddleDayExample | src/components/pages/timeline/editTimelineEventModal/hooks.ts:99-104 | an hourly middle day of a three-day scenario has 25 presets, from minute 0 to minute 1440 |
| TimelineTable.Ones | src/components/TimelineTable.tsx:21 | a column of n ordinary cells |
| TimelineTable.InitialSpans | src/components/TimelineTable.tsx:19-22 | every character name gets a column, and every column is all ones of length \|times\| and belongs to a listed character |
| TimelineTable.IndexOf | src/components/TimelineTable.tsx:26-27 | `indexOf` is −1 iff the time is absent, otherwise the first index holding it |
| TimelineTable.EventRange | src/components/TimelineTable.tsx:25-28 | an event is skipped iff it has no end time, no character list, a start or end not among the times, or an end before the start; an accepted range is ordered, within the times, and its rows hold the event's start and end times |
| TimelineTable.MarkColumn | src/components/TimelineTable.tsx:30-35 | merging rows start..end writes end − start + 1 at start, 0 on the rows below it up to end, and changes no row outside [start, end] |
| TimelineTable.ApplyEvent | src/components/TimelineTable.tsx:31-36 | the event's writes throw (None) iff some listed character has no column |
| TimelineTable.ApplyEventColumns | src/components/TimelineTable.tsx:31-36 | an accepted event keeps the keys, merges its range in the column of each character it lists, and leaves every other column unchanged |
| TimelineTable.MarkColumnIdempotent | src/components/TimelineTable.tsx:31-36 | a character listed twice merges its range once |
| TimelineTable.ColumnOf | src/components/TimelineTable.tsx:24-37 | a column keeps one entry per time row through the events |
| TimelineTable.ApplyEventsColumn | src/components/TimelineTable.tsx:24-37 | columns are independent: each column of the result is that column folded over, in list order, the events that list the character |
| TimelineTable.ColumnOfAppend | src/components/TimelineTable.tsx:24-36 | later events win: an appended event merges its range over what the earlier events left |
| TimelineTable.ColumnOfInRange | src/components/TimelineTable.tsx:26-35 | merging keeps every span in 0..\|times\| and a non-zero span at row i at most \|times\| − i |
| TimelineTable.SpanMapWellFormed | src/components/TimelineTable.tsx:18-40 | every character has a column of \|times\| spans, each in range |
| TimelineTable.MergedRangeSum | src/components/TimelineTable.tsx:30-35 | a merged range sums to its span |
| TimelineTable.MarkKeepsSum | src/components/TimelineTable.tsx:30-35 | merging ordinary rows moves their total onto the first row |
| TimelineTable.DisjointKeepsSum | src/components/TimelineTable.tsx:24-37 | disjoint merges over ordinary rows keep a column's sum |
| TimelineTable.DisjointSpansCoverTimes | src/components/TimelineTable.tsx:17-40 | a character whose accepted events merge pairwise-disjoint ranges has spans summing to \|times\|, so every row is drawn once |
| TimelineTable.BuildSpanMap | src/components/TimelineTable.tsx:18-40 | the nested loops compute the span map the specification functions define, or None where a write throws |
| TimelineTable.AllOrdinary | src/components/TimelineTable.tsx:20-22 | the `characters.forEach` loop builds the initial all-ones map |
| TimelineTable.MarkCharacters | src/components/TimelineTable.tsx:31-36 | the `ev.characters.forEach` loop applies one event's writes |
| TimelineTable.MergeRows | src/components/TimelineTable.tsx:32-35 | the write at the start row and the `for` loop of zeros give the merged column |
| TimelineTable.FirstEventAt | src/components/TimelineTable.tsx:72-76 | `events.find` gives the first event that starts at the row's time and lists the character, or None iff there is none |
| TimelineTable.CellAt | src/components/TimelineTable.tsx:64-83 | a cell is skipped iff its span is 0; otherwise it carries the span and the first matching event |
| TimelineTable.CellsDefined | src/components/TimelineTable.tsx:64-83 | on a built map every lookup is defined, and a drawn cell spans at least one row and ends within the table |
| Models.FindPlace | src/features/map/selectors.ts:31 | the first place with the id, or None iff no place has it |
| Models.FindPlaceUnique | src/features/map/selectors.ts:31 | with distinct ids, the place found for a place's id is that place |
| MapSelectors.SelectMapData | src/features/map/selectors.ts:23-37 | image and selected time are copied; markers keep count, order, id and position; a place is `null` iff no configured place has the id, otherwise it is the first configured place with that id |
| MapSelectors.SelectAlibi | src/features/map/selectors.ts:38-67 | one key per slot value; each slot lists the events that `Matched` keeps for its window, in order with their repeats |
| MapSelectors.SelectMapDataIdempotent | src/features/map/selectors.ts:23-37 | resolving already-resolved data changes nothing |
| MapSelectors.SelectMapDataFindsPlace | src/features/map/selectors.ts:31 | with distinct ids, a marker resolves to exactly the place with its id |
| MapSelectors.AlibiFoldEntries | src/features/map/selectors.ts:50-65 | the `reduce` keys its result by the slot values, and each entry is what that slot's window matches |
| MapSelectors.AlibiMembership | src/features/map/selectors.ts:38-67 | one entry per slot value; an event is listed iff it is in the list, starts before the slot's end and ends after its start; each list is a subsequence of the events |
| MapSelectors.AlibiExcludes | src/features/map/selectors.ts:57-61 | an event merely touching a slot boundary, or with an unparseable end, is not listed |
| MapSelectors.AlibiBoundaryExample | src/features/map/selectors.ts:53-61 | with hourly slots, the 11:00 slot leaves out 10:00–11:00 and lists 10:30–11:30 |
| MapSlice.FirstMarkerIndex | src/features/map/mapSlice.ts:36-38 | `find` locates the first marker with the id, or None iff there is none |
| MapSlice.Assign | src/features/map/mapSlice.ts:41 | `Object.assign` takes the payload's id and position, and its place only when the payload has a `place` key |
| MapSlice.UpdatedMarkers | src/features/map/mapSlice.ts:32-43 | the first marker with the payload's id is overwritten; length, order and the other markers are kept; with no match the list is unchanged |
| MapSlice.WithoutPlace | src/features/map/mapSlice.ts:46-52 | the markers with a different place id remain, in their order and each as often as before; none with the id remains |
| MapSlice.MapStore.constructor | src/features/map/mapSlice.ts:6-10 | the initial state has no image, no markers and no selected time |
| MapSlice.MapStore.Save | src/features/map/mapSlice.ts:16-18 | the payload replaces the whole map state |
| MapSlice.MapStore.UpdateMapImage | src/features/map/mapSlice.ts:20-24 | only the image changes |
| MapSlice.MapStore.AddMapMarker | src/features/map/mapSlice.ts:26-30 | the marker is appended at the end, with no duplicate check; nothing else changes |
| MapSlice.MapStore.UpdateMapMarker | src/features/map/mapSlice.ts:32-44 | the markers become `UpdatedMarkers` of the old ones; nothing else changes |
| MapSlice.MapStore.DeleteMapMarker | src/features/map/mapSlice.ts:46-52 | the markers become `WithoutPlace` of the old ones; nothing else changes |
| MapSlice.MapStore.UpdateSelectedTime | src/features/map/mapSlice.ts:54-60 | only the selected time changes |
| MapSlice.DeleteProperties | src/features/map/mapSlice.ts:46-52 | deleting keeps the rest in order, removes nothing for an absent id, and is idempotent |
| MapSlice.AddThenDelete | src/features/map/mapSlice.ts:26-52 | adding a marker for an unmarked place and then deleting that place's markers restores the list |
| MapSlice.UpdateThenFind | src/features/map/mapSlice.ts:32-44 | after an update the lookup finds the same marker, now at the payload's position |
| MapView.ResolveMapData | src/components/pages/map/hooks.tsx:22-28 | the image is copied; markers keep count, order, id and position; the place is `undefined` iff no configured place has the id, otherwise the first configured place with that id |
| MapView.ResolveMapDataFindsPlace | src/components/pages/map/hooks.tsx:24 | with distinct ids, a marker resolves to exactly the place with its id |
| MapView.UnselectedPlaces | src/components/pages/map/hooks.tsx:31-35 | a configured place is listed iff no marker references it; the list keeps the configured order and every repeat |
| MapView.PlacingRemovesPlace | src/components/pages/map/hooks.tsx:31-35 | dropping a place onto the map takes it off the list and leaves every other place as it was |
| MapView.OnFileDrop | src/components/pages/map/hooks.tsx:38-45 | no file clears the image; otherwise the image becomes the first file's object URL |
| MapView.HandleMarkerDelete | src/components/pages/map/hooks.tsx:95-97 | the delete action carries the given place id |
| MapView.DragState.constructor | src/components/pages/map/hooks.tsx:47-48 | nothing is being dragged at first |
| MapView.DragState.HandlePlaceDrag | src/components/pages/map/hooks.tsx:51-55 | the place becomes the moving place; the moving marker is unchanged |
| MapView.DragState.HandleMarkerMoveStart | src/components/pages/map/hooks.tsx:103-107 | the marker becomes the moving marker; the moving place is unchanged |
| MapView.DragState.HandleDrop | src/components/pages/map/hooks.tsx:58-92 | without a container nothing happens; otherwise a moving marker is moved, then a moving place is added (payloads without a `place` key), and both refs end cleared |
| MapView.FloorDiv | src/components/pages/map/hooks.tsx:114 | `Math.floor(a / b)` for a positive divisor is the quotient q with q·b ≤ a < q·b + b |
| MapView.SlotCount | src/components/pages/map/hooks.tsx:112-121 | a NaN interval or amount gives length 0; an in-range quotient of a positive interval is the length |
| MapView.GetTimeSlots | src/components/pages/map/hooks.tsx:110-125 | throws iff `Array.from` rejects the count or a first slot has an unreadable start; otherwise `count` slots, slot i at start + i·interval minutes |
| MapView.TimeSlotsShape | src/components/pages/map/hooks.tsx:110-125 | exactly amount div interval slots; slot i is start + i·interval minutes; each is one interval after the previous; all are before start + amount, which is never a slot |
| MapView.TimeSlotsDegenerate | src/components/pages/map/hooks.tsx:110-125 | a zero interval with a positive amount throws; a negative amount, or an unreadable interval or amount, gives no slots |
| MapContainer.MarkerPlaces | src/components/pages/map/mapContainer/hooks.ts:22-26 | exactly the configured places, in order, that no stored marker references; the same list the map view offers |
| MapContainer.HandleAddMarker | src/components/pages/map/mapContainer/hooks.ts:29-50 | nothing without the zoom wrapper; otherwise a marker with the place's id, the place itself and the given position |
| MapContainer.AddedPlaceLeavesList | src/components/pages/map/mapContainer/hooks.ts:22-49 | adding that marker takes the place off the list of places still to put on the map |
| MapContainer.HandleUpdateMarker | src/components/pages/map/mapContainer/hooks.ts:53-76 | no action iff no marker has the id, the delta is missing or the wrapper is missing; otherwise the payload keeps the first such marker's id and place and moves only its position |
| MapContainer.SameIdsSameIndex | src/components/pages/map/mapContainer/hooks.ts:56 | markers with the same ids in the same order have the same first match for every id |
| MapContainer.MoveUpdatesStore | src/components/pages/map/mapContainer/hooks.ts:53-76 | dispatching the move updates the first stored marker with the id (id kept, resolved place taken, position moved) and no other |
| DebugView.DebugJson | src/components/pages/debug/hooks.ts:15-27 | the timeline is passed through unchanged; the image is copied; markers keep count, order, id and position; the place is `undefined` iff the place was deleted, otherwise the first configured place with the id |
| DebugView.DebugAgreesWithSelector | src/components/pages/debug/hooks.ts:15-21 | the debug view and the selector agree except that a deleted place is `undefined` in one and `null` in the other |
| CustomValidation.ValidateCharacterItem | src/app/customValidation.ts:4-10 | an error iff the character's name is empty |
| CustomValidation.ValidatePlaceItem | src/app/customValidation.ts:13-19 | an error iff the place's name is empty |
| CustomValidation.OnlyNameMatters | src/app/customValidation.ts:4-19 | only the name is inspected, and a name of one space is accepted |
| ConfigValidator.ValidateInterval | src/components/pages/timeline/configModal/validator.ts:18-24 | an error (`Required`) iff the interval is empty |
| ConfigValidator.ValidateStartTime | src/components/pages/timeline/configModal/validator.ts:26-40 | empty gives `Required`; otherwise an error iff an end is set and the start's minutes are ≥ the end's |
| ConfigValidator.ValidateEndTime | src/components/pages/timeline/configModal/validator.ts:42-56 | empty gives `Required`; otherwise an error iff a start is set and the start's minutes are ≥ the end's |
| ConfigValidator.BoundsAgree | src/components/pages/timeline/configModal/validator.ts:26-56 | on a filled-in form both bound checks fail or both pass; between readable times they pass iff the start is strictly earlier (equal bounds fail both); unreadable times pass both |
| ConfigValidator.Present | src/components/pages/timeline/configModal/validator.ts:67-69 | `.filter((message) => message)` keeps exactly the messages present; wrapped back, they are what the filter keeps, in order and with their repeats |
| ConfigValidator.ValidateCharacters | src/components/pages/timeline/configModal/validator.ts:57-71 | fewer than 1 and more than 10 are errors, checked first; otherwise the first item error, or none |
| ConfigValidator.ValidatePlaces | src/components/pages/timeline/configModal/validator.ts:72-83 | more than 10 is an error, checked first (none is fine); otherwise the first item error, or none |
| ConfigValidator.ValidConfigOrdered | src/components/pages/timeline/configModal/validator.ts:17-84 | a valid config with readable bounds has its start strictly before its end, 1–10 characters and at most 10 places |
| EventValidator.ValidateStart | src/components/pages/timeline/editTimelineEventModal/validator.ts:7-21 | empty gives `Required`; otherwise an error iff an end is set and the start's instant is ≥ the end's |
| EventValidator.ValidateEnd | src/components/pages/timeline/editTimelineEventModal/validator.ts:23-40 | empty gives `Required`; otherwise an error iff a start is set and the start's instant is ≥ the end's |
| EventValidator.ValidateCharacterIds | src/components/pages/timeline/editTimelineEventModal/validator.ts:42-49 | an error iff no character is selected |
| EventValidator.BoundsAgree | src/components/pages/timeline/editTimelineEventModal/validator.ts:7-40 | on a filled-in form both checks accept the same pairs: between valid dates those with start < end; an invalid date passes both |
| AppUtil.SanitizeFilename | src/app/util.ts:11-12 | length is kept; each of `/ \ ? % * : \| " < >` and space becomes '_'; every other character stays in place |
| AppUtil.SanitizeClean | src/app/util.ts:11-12 | the result holds no forbidden character, and sanitising is idempotent |
| AppUtil.SanitizeKeepsCleanNames | src/app/util.ts:11-12 | a name without forbidden characters is unchanged |
| NextSort.Max | src/features/utils/useNextSort.ts:7 | `Math.max` of a non-empty list is an element of it and at least every element |
| NextSort.NextSort | src/features/utils/useNextSort.ts:4-8 | an empty list gives 1; otherwise one more than some element; always greater than every element |
| NextSort.NextSortOrderFree | src/features/utils/useNextSort.ts:4-8 | lists with the same elements give the same next key |
| NextSort.NextSortPermutation | src/features/utils/useNextSort.ts:4-8 | reordering the items keeps the next key |
| LayoutIo.StripBom | src/components/layout/hooks.ts:48-51 | a leading U+FEFF is removed; text without one is unchanged |
| LayoutIo.Member | src/components/layout/hooks.ts:58-61 | a member is found iff the value is an object with that key, and then it is the value under the key |
| LayoutIo.CheckEnvelope | src/components/layout/hooks.ts:55-64 | accepted iff the value is a non-null object whose `appName` and `version` are this application's and whose `data` is a non-null object; then the result is `data` |
| LayoutIo.ImportText | src/components/layout/hooks.ts:46-69 | a parse failure dispatches nothing; otherwise the BOM-stripped, parsed value goes through the envelope check |
| LayoutIo.Envelope | src/components/layout/hooks.ts:81-85 | the export envelope has exactly the keys `appName`, `version` and `data`, holding the name, the version and the timeline |
| LayoutIo.ExportText | src/components/layout/hooks.ts:93-97 | the file text is the BOM followed by the stringified envelope |
| LayoutIo.ExportFilename | src/components/layout/hooks.ts:88-90 | the name is the date, '_', the sanitised scenario name and ".json", and its middle holds no forbidden character |
| LayoutIo.StripBomOnce | src/components/layout/hooks.ts:48-51 | the import strips exactly the one mark the export wrote |
| LayoutIo.ExportImportRoundTrip | src/components/layout/hooks.ts:46-97 | importing an exported file gives back the timeline, when the parser inverts the stringifier and the timeline is an object |
| LayoutIo.ForeignFileRefused | src/components/layout/hooks.ts:55-64 | another application's file, another version's file, or non-object data is refused |
| EditEventModal.CharacterKeys | src/components/EditEventModal.tsx:78-80 | the chips' ids are the characters' printed ids, one per character, in order |
| EditEventModal.FindCharacterByKey | src/components/EditEventModal.tsx:165 | the first configured character printed as the key, or None iff there is none |
| EditEventModal.FindPlaceByKey | src/components/EditEventModal.tsx:167 | a configured place printed as the key, or None iff there is none |
| EditEventModal.FindPlaceByKeyAgrees | src/components/EditEventModal.tsx:167 | looking a place up by its printed id is the plain id lookup |
| EditEventModal.FindCharacterUnique | src/components/EditEventModal.tsx:165 | with distinct ids, a character is found by its own printed id |
| EditEventModal.ResolveCharacters | src/components/EditEventModal.tsx:164-166 | no longer than the ids; each result is a configured character whose printed id is among the ids |
| EditEventModal.ResolveAppend | src/components/EditEventModal.tsx:164-166 | resolution works id by id: a concatenation resolves to the concatenation |
| EditEventModal.ResolveSingles | src/components/EditEventModal.tsx:164-166 | an unknown id is dropped; a known one contributes its character (so repeated ids are kept) |
| EditEventModal.ResolveFirstKey | src/components/EditEventModal.tsx:164-166 | a first id that finds its own character contributes exactly that character |
| EditEventModal.ResolveKeys | src/components/EditEventModal.tsx:164-166 | the chips' ids of configured characters with distinct ids resolve back to those characters, in order |
| EditEventModal.BuildEventPayload | src/components/EditEventModal.tsx:163-169 | only characters and place change; the characters are `ResolveCharacters` of the ids (each id in order to its first match, unknown ids dropped, repeats kept); the place is the first place printed as `placeId`, or `undefined` iff there is none |
| EditEventModal.ToToday | src/components/EditEventModal.tsx:46-59 | a time that reads as h·60 + m minutes becomes today at that minute; an unreadable one throws (None) |
| EditEventModal.FormToCalendar | src/components/EditEventModal.tsx:87-97 | defined iff the start and any non-empty end are readable; id, title = detail, both colours = colour, characters and place carried; an empty end stays empty; the start is today at the start's minutes |
| EditEventModal.HandleSubmit | src/components/EditEventModal.tsx:172-183 | dispatches iff the conversion succeeds; an edit updates under the draft's id; a new event is created under the fresh id; otherwise the event is the converted payload |
| EditEventModal.CalendarToForm | src/components/EditEventModal.tsx:62-84 | id, title and colour copied; times converted or ""; characters or []; chip ids are their printed ids; the place or the `{}` placeholder with "" |
| EditEventModal.GetInitialValues | src/components/EditEventModal.tsx:257-272 | no event gives the blank grey draft; an event is converted |
| EditEventModal.EditRoundTrip | src/components/EditEventModal.tsx:62-169 | opening a configured event and saving it unchanged resolves back to the same characters and place (no place comes back `undefined`) |

## Left out

- I/O and the browser are not modelled: the file picker, `file.text()`, the download link, `Blob`, `URL.createObjectURL`, `alert` and `confirm`. `URL.createObjectURL` is the parameter `objectUrl` of `MapView.OnFileDrop`.
- `JSON.parse` and `JSON.stringify` are parameters of `LayoutIo`. The round trip assumes the parser inverts the stringifier.
- The clock is left out. `getTodayString` is the parameter `dateStr` of `LayoutIo.ExportFilename`, and "today" in `toToday` is symbolic (`EditEventModal.CalTime.TodayAt`).
- Time zones and `Date` parsing are not modelled:
  - `new Date(...).getTime()` in the alibi selector and in the event validator is the parameter `parse` (NaN for an invalid date);
  - `isoToTimeString` is the parameter `isoToHm` of `EditEventModal.CalendarToForm`;
  - the map slots are milliseconds, not ISO strings.
- MapView.GetTimeSlots: the range limit of `toISOString` is not modelled, and a slot past that range does not throw in the model. `toMinute` is not defined in the repository's files, so the interval and the amount are inputs.
- EditEventModal.ToToday: hours of 24 or more, or minutes of 60 or more, roll over into later days in `Date`. The model keeps the minute count and does not split it into a date.
- JsText.ParseNumber: only "" and decimal-digit strings are numbers. JavaScript also accepts signs, white space, fractions, exponents and hex, and the model reads those as NaN. Consequently HmTime.ToMinutes never yields a negative or fractional minute count.
- TimelineSlice.TimelineStore.UpdateConfig: a signed interval such as "-01:00" is step −60 in JavaScript, so `updateConfig` returns early. The model reads it as NaN, which passes the guard: the times become the single start slot and the characters and places are replaced. A negative or fractional bound is likewise NaN in the model, where JavaScript computes with it.
- EditEventModal.ToToday: a signed time such as "-1:00" is NaN in the model, so nothing is dispatched; JavaScript builds 23:00 of the previous day and the submit goes through. An hour count large enough to put the date outside the range of `Date` makes `toISOString` throw in JavaScript, but not in the model.
- Marker positions are opaque: the floating-point coordinate transforms of the drop and of the zoom wrapper are left out. `MapContainer.HandleUpdateMarker` takes the transform as the parameter `reposition`, and `MapContainer.HandleAddMarker` takes the computed centre as `pos`.
- The uuid of a new event is the parameter `freshId` of `EditEventModal.HandleSubmit`.
- Some store operations are dispatched but not defined in the repository's files: the timeline event create, update and delete, `jsonImport`, `updateCharacterMemo`, `selectTimes` and the `getTimeSlots` that the alibi selector imports. They are not part of this model. The alibi selector takes its slot list as an input.
- The `useMemo` inside `createSelector` is modelled as a direct call. React hooks, Mantine forms, FullCalendar and the rendering itself are left out.
- The timeline slice's sample initial state is not reproduced. The store's constructor takes the initial state as a value.
- EventModalHooks.GetTimePresets: requires a positive step on a non-empty range, because the source's loop does not terminate otherwise (see Findings).
- Sort keys are integers. `NextSort` does not model `Math.max` of a non-numeric or NaN sort.
- An absent `endTime` of the event form is modelled as "", which every reader of the form treats like `undefined`.
- The mutable `Record` and arrays of the span map are modelled as a `map` of `seq` values, which the loops reassign. The map is a local value of the memo, so there is no aliasing to lose.
- The place type of a marker's `placeId` is the place's numeric id throughout. The string-typed `selectedPlaceId` of the delete handler and `active.id` of the drag handler are taken to hold that id.

## Findings

| source | as written | input that shows it | evidently intended | confidence | as-written member | corrected member |
|---|---|---|---|---|---|---|
| src/components/pages/timeline/editTimelineEventModal/hooks.ts:75-101 | the preset loops add `stepMin` with no check that it is positive | interval "00:00" with start ≤ end: step 0, `t` never moves, the loop never ends | skip a step ≤ 0, as `updateConfig` does (src/features/timelines/timelineSlice.ts:159-163) | high; not executed | EventModalHooks.ZeroIntervalStalls | EventModalHooks.GetTimePresetsGuarded |
