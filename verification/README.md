# BlazorDateRangePicker popup core, in Dafny

A model of the date-range picker component's base class
(`DatePickerComponentBase`): the picker's state, the normalisation of the
selected dates when the component is initialised, the popup's open / close /
toggle / outside-click state machine with its rollback snapshot, the
positioning of the two calendar panels, the lookup of the predefined range
matching the selection, the choice of named configuration, and the merge of
pass-through HTML attributes.

Modules:

- `Optional` — `Option<T>` standing in for C# `null` and nullable value types.
- `Calendar` — dates as .NET tick counts, `.Date`, the last tick of a day, and
  the proleptic Gregorian calendar behind `DateTime.Year`, `DateTime.Month` and
  `AddMonths(1)`. The month of a day is computed by walking years and months and
  is proved to be the unique month whose first day is at or before it and
  whose successor's first day is after it.
- `Ranges` — the `Ranges` dictionary as an ordered sequence of pairs and
  `Ranges?.FirstOrDefault(...)` as `Open` uses it.
- `Picker` — the state record, `Initialize` (`OnInitialized`), `AdjustCalendars`,
  `Open`, `Close`, `Toggle`, `InvokeClickOutside`, `ShowCalendars`,
  `HideCalendars`. Each transition returns the next state and the notifications
  (`Opened`, `Closed`, `Cancel(explicit)`) it raises, in order.
- `Session` — sequences of calls with one notification log, and the properties
  that span several calls.
- `Config` — which registered configuration object a picker copies.
- `Attributes` — `CombinedAttributes`.

The current time (`DateTime.Now`) and the culture's first day of week are
parameters. Dates are the clock reading of a `DateTimeOffset` in ticks; a
calendar day is `ticks / 864000000000`.

The lookup in `Open` is modelled as the code behaves.
`Ranges?.FirstOrDefault(...)` over a `Dictionary<string, DateRange>` yields a
nullable `KeyValuePair`, and that is null only when `Ranges` itself is null. So
the custom-range label is chosen, and the calendars shown, only when no
predefined ranges are set at all. With ranges set and none matching, the chosen
label becomes the default pair's null key and the calendars' visibility is left
as it was (`Picker.OpenUnmatchedChoosesNoLabel`). This does not agree with the
class's own documentation of `ShowCustomRangeLabel`
(BlazorDateRangePicker/DatePickerComponentBase.cs:178), which says the
custom-range label is highlighted whenever the selection does not match one of
the predefined ranges.

`Close` is not guarded: closing an already hidden picker raises `Closed` again
(`Session.CloseTwiceLogsTwice`). Within this class the rollback snapshot
(`OldStartValue`/`OldEndValue`) is written only by `Open` from hidden and is
not cleared on closing; the properties are `internal`, so code outside this
class may also write them, and that code is not part of this model.

## Model

| member | source | states |
|---|---|---|
| `Attributes.CombinedAttributes` | BlazorDateRangePicker/DatePickerComponentBase.cs:48-70 | keys are the union of the configuration's and the component's attributes (a null dictionary adds none); a shared key takes the component's value, any other key the value of the dictionary holding it; equals map union with the component's attributes on the right |
| `Attributes.CopyEach` | BlazorDateRangePicker/DatePickerComponentBase.cs:55-58 | writing every entry of one dictionary into another through the indexer adds its keys and overwrites shared ones, keeping the other entries |
| `Config.SelectConfig` | BlazorDateRangePicker/DatePickerComponentBase.cs:297-304 | with a non-empty requested name that some configuration has, the first configuration with that name; otherwise the first configuration; the built-in default exactly when none is registered |
| `Config.FirstNamed` | BlazorDateRangePicker/DatePickerComponentBase.cs:299-301 | the index found carries the requested name and no earlier one does; none found means no configuration has it |
| `Calendar.StartOfDay` | BlazorDateRangePicker/DatePickerComponentBase.cs:324 | `.Date` stays on the same calendar day, falls on a day boundary and is not later than the input |
| `Calendar.EndOfDay` | BlazorDateRangePicker/DatePickerComponentBase.cs:325 | `.Date.AddDays(1).AddTicks(-1)` stays on the same calendar day, is the day's last tick and is not earlier than the input |
| `Calendar.DayBounds` | BlazorDateRangePicker/DatePickerComponentBase.cs:324-325 | a tick is on the same calendar day as `t` exactly when it lies between `t`'s start-of-day and end-of-day |
| `Calendar.NormalisationIdempotent` | BlazorDateRangePicker/DatePickerComponentBase.cs:324-325 | normalising an already normalised start or end date changes nothing |
| `Calendar.MonthOfTicks` | BlazorDateRangePicker/DatePickerComponentBase.cs:370-373 | the year and month of an instant form a valid month whose first day is at or before the instant's day and whose successor's first day is after it |
| `Calendar.MonthOfUnique` | BlazorDateRangePicker/DatePickerComponentBase.cs:372-373 | any valid month containing a day is the month computed for it, so comparing year and month compares the containing months |
| `Calendar.NextRollsOver` | BlazorDateRangePicker/DatePickerComponentBase.cs:375 | `AddMonths(1)` advances the month, rolls December into January of the next year, and never yields the same month |
| `Calendar.SameDaySameMonth` | BlazorDateRangePicker/DatePickerComponentBase.cs:324-325 | normalising a date within its day does not change the month a calendar shows for it |
| `Picker.RightAnchor` | BlazorDateRangePicker/DatePickerComponentBase.cs:371 | the right calendar's month before the collision rule contains the end date's day, or is the month after now's when there is no end date |
| `Picker.AdjustCalendars` | BlazorDateRangePicker/DatePickerComponentBase.cs:368-377 | left month contains the start date's day (now's if none); right month is the anchor exactly when it differs from the left one, else the month after; the two always differ; nothing else changes |
| `Picker.Initialize` | BlazorDateRangePicker/DatePickerComponentBase.cs:314-327 | start date on the same day at a day boundary, end date on the same day at its last tick, null stays null; a single-date picker forces auto-apply; first day of week defaults to the culture's and is given to both calendars; the left calendar shows the start date's month (now's if none), the right one the end date's month (the month after now's if none), moved on by one month when it would equal the left one |
| `Picker.InitializeIdempotentOnDates` | BlazorDateRangePicker/DatePickerComponentBase.cs:324-325 | initialising again from an initialised picker's dates and settings leaves dates and settings unchanged |
| `Picker.Open` | BlazorDateRangePicker/DatePickerComponentBase.cs:335-366 | no-op with no notification when visible; otherwise snapshots start and end, repositions calendars only when auto-adjust is true, chooses the custom label and shows calendars when ranges are null, takes the lookup's key otherwise, becomes visible and raises exactly `Opened` |
| `Picker.OpenChoosesFirstMatchingLabel` | BlazorDateRangePicker/DatePickerComponentBase.cs:344-350 | with ranges set, a label is chosen exactly when some range's start and end fall on the selection's days, and it is the key of the earliest such range |
| `Picker.OpenUnmatchedChoosesNoLabel` | BlazorDateRangePicker/DatePickerComponentBase.cs:344-350 | with ranges set and none matching, the chosen label is null and the calendars' visibility is unchanged |
| `Picker.Close` | BlazorDateRangePicker/DatePickerComponentBase.cs:391-396 | always hides the popup and raises one `Closed`, changing nothing else |
| `Picker.Toggle` | BlazorDateRangePicker/DatePickerComponentBase.cs:382-386 | is exactly `Close` when showing and exactly `Open` when hidden; so it flips visibility, raises `Closed` or `Opened` accordingly, and keeps the selection |
| `Picker.NormalisingKeepsMonths` | BlazorDateRangePicker/DatePickerComponentBase.cs:324-327 | normalising start and end within their days leaves the months the calendars are then adjusted to unchanged |
| `Picker.InvokeClickOutside` | BlazorDateRangePicker/DatePickerComponentBase.cs:401-411 | when showing and close-on-outside-click is true: restores start and end from the snapshot, hides, raises `Closed` then `Cancel(false)`; otherwise (including a null flag) changes nothing and raises nothing |
| `Picker.ShowCalendars` | BlazorDateRangePicker/DatePickerComponentBase.cs:413-416 | the calendars become visible and nothing else changes |
| `Picker.HideCalendars` | BlazorDateRangePicker/DatePickerComponentBase.cs:418-421 | the calendars become hidden and nothing else changes |
| `Ranges.FirstOrDefault` | BlazorDateRangePicker/DatePickerComponentBase.cs:344-346 | a found entry is in the dictionary and matches by calendar day; nothing found means no entry matches; a null start or end never matches |
| `Ranges.SelectedRange` | BlazorDateRangePicker/DatePickerComponentBase.cs:344-347 | the lifted lookup is null exactly when `Ranges` is null |
| `Ranges.FirstOrDefaultIsFirstMatch` | BlazorDateRangePicker/DatePickerComponentBase.cs:344-349 | the looked-up key is present exactly when some entry matches, and is the key of the earliest matching entry |
| `Ranges.LookupIgnoresTimeOfDay` | BlazorDateRangePicker/DatePickerComponentBase.cs:345-346 | selections on the same start and end days find the same entry whatever their times of day |
| `Session.RunAppend` | BlazorDateRangePicker/DatePickerComponentBase.cs:335-411 | running two call sequences one after the other equals running their concatenation, logs concatenated |
| `Session.EditsKeepSnapshot` | BlazorDateRangePicker/DatePickerComponentBase.cs:339-340 | edits of the selection raise nothing and keep visibility, settings and the rollback snapshot |
| `Session.OpenThenEdit` | BlazorDateRangePicker/DatePickerComponentBase.cs:337-357 | after opening a hidden picker and any edits, it is showing, its snapshot is the pre-open selection and the log is `Opened` |
| `Session.OutsideClickRollsBack` | BlazorDateRangePicker/DatePickerComponentBase.cs:404-409 | open, any edits, outside click: start and end are back to their pre-open values, the popup is hidden, the log is `Opened`, `Closed`, `Cancel(false)` |
| `Session.CloseTwiceLogsTwice` | BlazorDateRangePicker/DatePickerComponentBase.cs:391-396 | closing is unguarded: two closes raise `Closed` twice |
| `Session.ToggleTwiceFromHidden` | BlazorDateRangePicker/DatePickerComponentBase.cs:382-386 | toggling a hidden picker twice logs `Opened`, `Closed`, ends hidden, keeps the selection, and leaves it as the snapshot |
| `Session.VisibilityFollowsLog` | BlazorDateRangePicker/DatePickerComponentBase.cs:357-395 | after any call sequence, `Visible` is what the last `Opened`/`Closed` in the log says, or unchanged when there is none |
| `Session.RunKeepsCalendarsDistinct` | BlazorDateRangePicker/DatePickerComponentBase.cs:368-377 | no modelled call makes the two calendars show the same month |
| `Session.InitializedCalendarsStayDistinct` | BlazorDateRangePicker/DatePickerComponentBase.cs:327 | from initialisation on, through any call sequence, the two calendars show different months |

## Left out

- JavaScript interop in `Open` (outside-click registration and popup positioning): the JavaScript side is foreign code; the C# arguments built for it are covered by the `Picker.Open` line below.
- Picker.Open: assumes `Drops` and `Opens` are non-null (set by a configuration). When either is null, `Enum.GetName` on line 361 throws `ArgumentNullException` after `Visible` has been set (line 357) and before `OnOpened` is invoked (line 363), so the source is left visible with no `Opened` raised; the model always raises `Opened`.
- `StateHasChanged` and the asynchronous `EventCallback.InvokeAsync` machinery: a raised notification is an entry appended to a log.
- Dependency injection and `config.CopyProperties`: the registered configurations are given as a sequence, only the choice among them is modelled (`Config.SelectConfig`), and copying their properties is not part of this model; the attribute dictionaries are inputs to `Attributes.CombinedAttributes`.
- Culture-dependent `DateFormat` default: localisation only. The culture's first day of week is a parameter.
- `Id` / `ParentId` GUIDs: DOM correlation only.
- `CalendarType` internals (the day grid, the `Month` setter): not part of this model; a calendar is its first day of week and the year and month it shows, taken to be those of the value assigned to `Month`.
- Day-click selection, `MinDate`/`MaxDate`/`MaxSpan`, `DaysEnabledFunction`, `CustomDateFunction`, the apply and explicit cancel (`Cancel(true)`) buttons and month navigation: only their parameters are declared in this class; their logic is not part of this model.
- CSS classes, button labels and other presentation parameters.
- Time-zone offsets of `DateTimeOffset` and the conversion between `DateTime` and `DateTimeOffset`: dates are plain tick counts.
- Calendar.EndOfDay: does not model the `ArgumentOutOfRangeException` that `AddDays(1)` throws on 9999-12-31, because ticks are unbounded here.
- Picker.AdjustCalendars: reads the clock once (`now`), while the source reads `DateTime.Now` separately on lines 370 and 371. With neither start nor end date and a month boundary passing between the two reads, the source can show months two apart (for example January and March); the model cannot. The two months still differ in that case.
- Picker.AdjustCalendars: does not model the exception `AddMonths(1)` throws in December 9999, because years are unbounded here.
- A `Ranges` entry whose value is null (a `NullReferenceException` in the lookup): range bounds are always present here.
