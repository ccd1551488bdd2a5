# Calendar controller model

A Dafny model of the controller behind the `mwl-calendar` widget of
angular-bootstrap-calendar (`src/directives/mwlCalendar.js`). The controller
holds the widget's view mode, anchor date, title and event list; it drills
down one view when a date is clicked (unless the host vetoes it), validates
the events without ever dropping one, overlays a positional `$id` on each,
and decides whether a refresh signal must be sent to the renderers. Nothing
is watched until the templates have loaded.

- `wrappers.dfy` — `Option`, used for JavaScript's `undefined`.
- `calendar_logic.dfy` (module `CalendarLogic`) — the pure decisions: the
  `nextView` table as a partial map, the hook's veto, the warnings of
  `eventIsValid`, the `shouldUpdate` rule, and the `$id` a refresh writes.
- `calendar_gate.dfy` (module `CalendarGate`) — the template-load and watch
  gate as a state machine over triggers, with lemmas about whole traces.
- `calendar_controller.dfy` (module `CalendarController`) — the controller
  as a class whose fields are `vm`'s fields and the constructor's closure
  variables (`previousDate`, `previousView`, `eventsWatched`), the events as
  objects whose `$id` is written in place, and a client scenario.

Dates are integers (milliseconds). The date library's `startOf(view)` and the
title formatters are injected into the controller as functions, as the
source injects `moment` and `calendarTitle`. `view` is an `Option<View>`:
clicking a date in day view finds no entry in the table, passes `undefined`
to the host's hook and, unless the hook returns `false`, sets `view` to
`undefined`. That is what the code does, although no navigation at all is
the more plausible intent; the model follows the code
(`Controller.DateClicked`, and the last step of `MonthViewScenario`).

Because the same event object may be listed twice, the `$id` written last
wins: an object gets the index of its last occurrence
(`CalendarLogic.PositionalId`); when no object is listed twice, every `$id` is
its index (`CalendarLogic.PositionalIdOfDistinct`).

## Model

| member | source | states |
|---|---|---|
| `CalendarLogic.NextView` | src/directives/mwlCalendar.js:24-31 | the lookup is defined exactly for year, month and week (year to month, month and week to day), and each entry is a strictly narrower view; day and undefined give undefined |
| `CalendarLogic.Vetoes` | src/directives/mwlCalendar.js:30 | only the hook result `false` vetoes the navigation; `undefined` and any other value let it through |
| `CalendarLogic.EventWarnings` | src/directives/mwlCalendar.js:44-63 | the warnings of one event come in the order the checks are made, each at most once |
| `CalendarLogic.EventWarningsExplained` | src/directives/mwlCalendar.js:45-62 | each warning is logged exactly when its condition holds: start missing or falsy; start present but not a Date; end truthy and not a Date; end truthy and start after end (invalid dates never compare as after); a type without a colour |
| `CalendarLogic.NoWarningsIffWellFormed` | src/directives/mwlCalendar.js:44-65 | an event draws no warning if and only if its start is a Date, its end is absent or a Date not before the start, and a type comes with a colour |
| `CalendarLogic.ShouldUpdate` | src/directives/mwlCalendar.js:80-87 | the `shouldUpdate` test: an unchanged anchor date, a changed view, or a date outside the window of the current view always updates |
| `CalendarLogic.ShouldUpdateCases` | src/directives/mwlCalendar.js:79-87 | an unchanged anchor date, a changed view or a date outside the current window always updates; a moved date inside the window of an unchanged view never does |
| `CalendarLogic.UndefinedViewNeverSuppressed` | src/directives/mwlCalendar.js:82-87 | since the date library's truncation leaves a date as it is for an undefined unit, a refresh in an undefined view (where a day-view click leads) is never suppressed |
| `CalendarLogic.LastIndexBelow` | src/directives/mwlCalendar.js:73-76 | the result is -1 when the object does not occur below the bound, and otherwise an index below the bound that holds the object |
| `CalendarLogic.LastIndexBelowIsLast` | src/directives/mwlCalendar.js:73-76 | no occurrence of the object lies after that index and below the bound |
| `CalendarLogic.LastIndexBelowAtLeast` | src/directives/mwlCalendar.js:73-76 | the last occurrence of an element is at or after its own position |
| `CalendarLogic.PositionalId` | src/directives/mwlCalendar.js:73-76 | the `$id` an element ends with is an index, not before its own, holding the same object |
| `CalendarLogic.PositionalIdOfDistinct` | src/directives/mwlCalendar.js:73-76 | with no object listed twice, every `$id` equals the element's index |
| `CalendarGate.Step` | src/directives/mwlCalendar.js:99-120 | a trigger causes at most one refresh, only once loaded, and a refresh leaves the deep events watch armed; a pending gate changes only on settlement: a successful load leaves it loaded with the deep watch unarmed, a failed one leaves it failed, and only a successful load leads to refreshes; a failed gate never changes, whatever the trigger |
| `CalendarGate.RunAppend` | src/directives/mwlCalendar.js:99-124 | running two trace segments in turn is running their concatenation, refreshes added |
| `CalendarGate.FailureIsPermanent` | src/directives/mwlCalendar.js:122-124 | after a load failure no trigger ever refreshes and the gate stays failed |
| `CalendarGate.NothingBeforeLoad` | src/directives/mwlCalendar.js:99-100 | while the template promise is unsettled, no trigger refreshes |
| `CalendarGate.RefreshesOnceLoaded` | src/directives/mwlCalendar.js:105-120 | once loaded, every watch-group firing refreshes once and every events change after the first firing refreshes once; the deep watch ends armed iff it was or the group fired |
| `CalendarGate.Lifecycle` | src/directives/mwlCalendar.js:99-124 | over a whole life (triggers, settlement, triggers): a failed load means no refresh ever; a successful one means exactly the refreshes counted after it |
| `CalendarController.ValidationLogEmptyIffWellFormed` | src/directives/mwlCalendar.js:44-65 | validating a list of events logs nothing if and only if every event in it is well formed |
| `CalendarController.AssignPositionalIds` | src/directives/mwlCalendar.js:73-76 | after the pass, every listed event's `$id` is its positional id (its index when no object is listed twice) |
| `CalendarController.Controller.TitleShown` | src/directives/mwlCalendar.js:69 | a title is computed only when a formatter exists for the current view (so never in an undefined view) and the `view-title` attribute is bound |
| `CalendarController.Controller.constructor` | src/directives/mwlCalendar.js:11-42 | given the date library's truncation (a date is left as it is for an undefined unit), events default to the empty list when undefined; the snapshot starts at the bound view and date; nothing is loaded, watched, signalled or logged |
| `CalendarController.Controller.ChangeView` | src/directives/mwlCalendar.js:15-18 | sets `view` and `viewDate` to the arguments and may change no other field |
| `CalendarController.Controller.DateClicked` | src/directives/mwlCalendar.js:20-34 | the hook is called with the clicked date and the table's next view; if it returns exactly `false` view and date are unchanged, otherwise the view becomes that next view (undefined from day view) and the date the clicked one; no other field changes |
| `CalendarController.Controller.EventIsValid` | src/directives/mwlCalendar.js:44-65 | returns true for every event and appends that event's warnings to the log |
| `CalendarController.Controller.FilterValidEvents` | src/directives/mwlCalendar.js:73 | the filter keeps every event in order and logs each event's warnings in list order |
| `CalendarController.Controller.ReindexEvents` | src/directives/mwlCalendar.js:73-76 | the event list keeps its length and order, each event gets its positional `$id`, and the validation log is appended |
| `CalendarController.Controller.CompareAndSnapshot` | src/directives/mwlCalendar.js:79-96 | one signal is scheduled iff `shouldUpdate` holds of the old snapshot and the current state, the snapshot becomes the current date and view either way, and the refresh is counted so that the controller invariant (never more signals than refreshes, refreshes only once watched) is kept |
| `CalendarController.Controller.RefreshCalendar` | src/directives/mwlCalendar.js:67-97 | the whole refresh: title recomputed only when a formatter exists for the view and the title is bound, otherwise unchanged; events re-indexed; signal iff `shouldUpdate`; snapshot overwritten; view and date unchanged |
| `CalendarController.Controller.TemplatesSettled` | src/directives/mwlCalendar.js:99-124 | success sets `templatesLoaded`; failure logs an error and leaves the controller inert; the gate moves as `Step` says |
| `CalendarController.Controller.OnWatchGroupFired` | src/directives/mwlCalendar.js:105-120 | before loading nothing changes; the first firing arms the deep events watch and refreshes once; each later firing refreshes once; the gate and refresh count move as `Step` says |
| `CalendarController.Controller.OnEventsChanged` | src/directives/mwlCalendar.js:116 | a change of the events refreshes once if the deep watch is armed and changes nothing otherwise; when view and date are those of the last refresh (a change of the events alone), that refresh always signals |

## Left out

- The `mwlCalendar` directive definition (src/directives/mwlCalendar.js:127-157): declarative binding configuration with no logic. The host's two-way bindings appear only as direct assignments to the controller's fields.
- The warning about deprecated attributes (src/directives/mwlCalendar.js:36-39): a one-off log at construction.
- The date library: `startOf` is an injected function, constrained only to leave a date as it is for an undefined view; on the valid dates of the model `isSame` is equality and `isAfter` is integer order; locale and week-start rules are not modelled. `moment(date).toDate()` in `dateClicked` is the identity on abstract dates.
- Invalid Date objects: an event's `DateValue` and the controller's `viewDate` always hold a valid point in time. In the source an invalid Date passes `angular.isDate` without a not-a-Date warning and never compares as after (src/directives/mwlCalendar.js:47, 52, 55), and an invalid `viewDate` never `isSame` the previous one, so every refresh signals (src/directives/mwlCalendar.js:82-83); the model captures neither.
- Thrown errors: a `null` or `undefined` element of the event list throws at `event.startsAt` (src/directives/mwlCalendar.js:45); any other non-object element is validated, with a missing-start warning, and throws at `Object.defineProperty` (src/directives/mwlCalendar.js:74), and an `events` binding that is not an array throws at `.filter` (src/directives/mwlCalendar.js:73); either aborts the refresh after the title is written and before the snapshot is updated. The model's events are always objects in a list, so these partial refreshes are not modelled.
- The fresh array: each refresh stores a new array in `vm.events` (src/directives/mwlCalendar.js:73), which the two-way binding hands back to the host. The model's event list is a sequence value, so the array's identity, and the host seeing a different array object, are not modelled; only the event objects, whose `$id` is written in place, keep their identity.
- An event's `type` and `color` are None for any falsy value.
- `CalendarController.Controller.RefreshCalendar`: takes one `now` for the whole refresh, where the source reads the clock once per event whose start is undefined and whose end is truthy (src/directives/mwlCalendar.js:51-55).
- `$timeout` and `$broadcast`: a scheduled refresh signal is counted when it is scheduled; the deferral to a later tick is not modelled.
- `$log` text: log lines are a warning kind with the event's data, or the template-load error.
- Watch mechanics: the watch group over view date, view, open cell and locale is one trigger; the deep watch's object comparison is a second trigger; the deep watch's first call is taken to happen when it is registered.
- `Object.defineProperty` enumerability of `$id`: only its value is modelled.
- The title formatters' internals: they are injected functions from a date to a title.
- `view` values other than the four view names and `undefined`.
- The host's `onViewChangeClick` is a function of the date and next view; side effects it may have are not modelled.
- The template promise settles once: `CalendarController.Controller.TemplatesSettled` requires an unsettled gate, and `CalendarGate.Step` ignores a second settlement.
