/**
 * The calendar controller of src/directives/mwlCalendar.js: the state the
 * controller keeps (`vm.*` and the closure variables of its constructor) and
 * the operations that change it, each proved against the pure definitions of
 * CalendarLogic and CalendarGate.
 */
module CalendarController {
  import opened Wrappers
  import opened CalendarLogic
  import opened CalendarGate

  /** An event object owned by the host; the controller only writes its `$id`. */
  class CalendarEvent {
    const data: EventData
    var id: Option<nat>

    constructor (data: EventData)
      ensures this.data == data && id == None
    {
      this.data := data;
      id := None;
    }
  }

  /** What the controller writes to the log. */
  datatype LogEntry =
    | EventWarning(warning: Warning, event: EventData)
    | TemplatesNotLoaded

  /** The log lines `eventIsValid` writes for one event. */
  function WarningEntries(e: EventData, now: Date): seq<LogEntry>
  {
    var ws := EventWarnings(e, now);
    seq(|ws|, i requires 0 <= i < |ws| => EventWarning(ws[i], e))
  }

  /** The log lines of validating `es` in order. */
  function ValidationLog(es: seq<CalendarEvent>, now: Date): seq<LogEntry>
    decreases |es|
  {
    if es == [] then []
    else ValidationLog(es[..|es| - 1], now) + WarningEntries(es[|es| - 1].data, now)
  }

  /** Validating one more event appends its log lines. */
  lemma ValidationLogSnoc(es: seq<CalendarEvent>, i: nat, now: Date)
    requires i < |es|
    ensures ValidationLog(es[..i + 1], now) == ValidationLog(es[..i], now) + WarningEntries(es[i].data, now)
  {
    assert es[..i + 1][..i] == es[..i];
  }

  /** A list of events is validated without a single log line exactly when every event is well formed. */
  lemma {:induction false} ValidationLogEmptyIffWellFormed(es: seq<CalendarEvent>, now: Date)
    ensures ValidationLog(es, now) == [] <==> forall k :: 0 <= k < |es| ==> WellFormed(es[k].data)
    decreases |es|
  {
    if es != [] {
      var init, last := es[..|es| - 1], es[|es| - 1];
      ValidationLogEmptyIffWellFormed(init, now);
      NoWarningsIffWellFormed(last.data, now);
      assert |WarningEntries(last.data, now)| == |EventWarnings(last.data, now)|;
      assert forall k :: 0 <= k < |init| ==> init[k] == es[k];
    }
  }

  /**
   * The `.map` of a refresh: writes each element's index into its `$id`, in
   * order, so that an object listed twice keeps the later index.
   */
  method AssignPositionalIds(es: seq<CalendarEvent>)
    modifies set e | e in es
    ensures forall k {:trigger es[k].id} :: 0 <= k < |es| ==> es[k].id == Some(PositionalId(es, k))
  {
    var j := 0;
    while j < |es|
      invariant 0 <= j <= |es|
      invariant forall k {:trigger es[k].id} :: 0 <= k < |es| ==>
                  es[k].id == (var r := LastIndexBelow(es, es[k], j);
                               if r >= 0 then Some(r as nat) else old(es[k].id))
    {
      es[j].id := Some(j);
      j := j + 1;
    }
    forall k | 0 <= k < |es| {
      LastIndexBelowAtLeast(es, |es|, k);
    }
  }

  /** The controller instance (`vm`) together with the closure variables of its constructor. */
  class Controller {
    // bound from the host
    var events: seq<CalendarEvent>
    var view: Option<View>
    var viewDate: Date
    var viewTitle: Option<string>
    // closure state
    var previousDate: Date
    var previousView: Option<View>
    var templatesLoaded: bool
    var eventsWatched: bool
    // what the controller emits: scheduled refresh signals and log lines
    var refreshSignals: nat
    var log: seq<LogEntry>
    // the template promise has settled; the number of refreshes run so far
    ghost var templatesSettled: bool
    ghost var refreshCount: nat

    // injected collaborators: the date library's truncation, the title
    // formatters by view, and whether the `view-title` attribute is bound
    const startOf: (Option<View>, Date) -> Date
    const calendarTitle: map<View, Date -> string>
    const viewTitleBound: bool

    ghost predicate Valid()
      reads this`templatesLoaded, this`templatesSettled, this`eventsWatched,
            this`refreshSignals, this`refreshCount
    {
      && (templatesLoaded ==> templatesSettled)
      && (eventsWatched ==> templatesLoaded)
      && (refreshCount > 0 ==> eventsWatched)
      && refreshSignals <= refreshCount
    }

    /** The gate state of CalendarGate that the flags stand for. */
    ghost function Gate(): GateState
      reads this`templatesLoaded, this`templatesSettled, this`eventsWatched
    {
      if !templatesSettled then Pending
      else if templatesLoaded then Loaded(eventsWatched)
      else Failed
    }

    function EventObjects(): set<CalendarEvent>
      reads this`events
    {
      set e | e in events
    }

    /** A title is computed when a formatter exists for the view and the host binds the title. */
    predicate TitleShown(): (shown: bool)
      reads this`view
      ensures shown ==> view.Some? && view.value in calendarTitle
      ensures view == None || !viewTitleBound ==> !shown
      ensures view.Some? && view.value in calendarTitle && viewTitleBound ==> shown
    {
      view.Some? && view.value in calendarTitle && viewTitleBound
    }

    /** What one run of `refreshCalendar` does, relative to the state before it. */
    twostate predicate Refreshed(now: Date)
      reads this, EventObjects()
    {
      && view == old(view) && viewDate == old(viewDate)
      && viewTitle == (if TitleShown() then Some(calendarTitle[view.value](viewDate)) else old(viewTitle))
      && events == old(events)
      && (forall k {:trigger events[k].id} :: 0 <= k < |events| ==> events[k].id == Some(PositionalId(events, k)))
      && log == old(log) + ValidationLog(events, now)
      && previousDate == viewDate && previousView == view
      && refreshSignals == old(refreshSignals)
           + (if ShouldUpdate(startOf, old(previousDate), old(previousView), viewDate, view) then 1 else 0)
      && refreshCount == old(refreshCount) + 1
    }

    constructor (
      events: Option<seq<CalendarEvent>>, view: Option<View>, viewDate: Date, viewTitle: Option<string>,
      startOf: (Option<View>, Date) -> Date, calendarTitle: map<View, Date -> string>, viewTitleBound: bool)
      requires forall d :: startOf(None, d) == d  // the date library leaves a date as it is for an undefined unit
      ensures Valid() && Gate() == Pending
      ensures this.events == events.GetOr([])
      ensures this.view == view && this.viewDate == viewDate && this.viewTitle == viewTitle
      ensures previousDate == viewDate && previousView == view
      ensures !templatesLoaded && !eventsWatched
      ensures refreshSignals == 0 && refreshCount == 0 && log == []
      ensures this.startOf == startOf && this.calendarTitle == calendarTitle
      ensures this.viewTitleBound == viewTitleBound
    {
      this.events := events.GetOr([]);
      this.view := view;
      this.viewDate := viewDate;
      this.viewTitle := viewTitle;
      this.startOf := startOf;
      this.calendarTitle := calendarTitle;
      this.viewTitleBound := viewTitleBound;
      previousDate := viewDate;
      previousView := view;
      templatesLoaded, eventsWatched := false, false;
      refreshSignals, log := 0, [];
      templatesSettled, refreshCount := false, 0;
    }

    /** `changeView`: sets the view and the anchor date together and touches nothing else. */
    method ChangeView(view: Option<View>, newDay: Date)
      modifies this`view, this`viewDate
      ensures this.view == view && viewDate == newDay
    {
      this.view := view;
      viewDate := newDay;
    }

    /**
     * `dateClicked`: drills down to the table's next view at the clicked
     * date unless the host's hook, called with that date and that next view,
     * returns exactly `false`. In Day view the table has no entry, so the
     * hook sees an undefined view and, unless it vetoes, `view` becomes
     * undefined.
     */
    method DateClicked(date: Date, onViewChangeClick: (Date, Option<View>) -> HookResult)
      modifies this`view, this`viewDate
      ensures var next := NextView(old(view));
              if Vetoes(onViewChangeClick(date, next)) then view == old(view) && viewDate == old(viewDate)
              else view == next && viewDate == date
    {
      var rawDate := date;  // an abstract date is already a point in time
      var next := NextView(view);
      if !Vetoes(onViewChangeClick(rawDate, next)) {
        ChangeView(next, rawDate);
      }
    }

    /** `eventIsValid`: logs the event's warnings and accepts it whatever they are. */
    method EventIsValid(e: CalendarEvent, now: Date) returns (valid: bool)
      modifies this`log
      ensures valid
      ensures log == old(log) + WarningEntries(e.data, now)
    {
      log := log + WarningEntries(e.data, now);
      valid := true;
    }

    /** `events.filter(eventIsValid)`: every event is kept, in order, and each is logged about. */
    method FilterValidEvents(now: Date) returns (kept: seq<CalendarEvent>)
      modifies this`log
      ensures kept == events
      ensures log == old(log) + ValidationLog(events, now)
    {
      var es := events;
      kept := [];
      for i := 0 to |es|
        invariant kept == es[..i]
        invariant log == old(log) + ValidationLog(es[..i], now)
      {
        var valid := EventIsValid(es[i], now);
        if valid {
          kept := kept + [es[i]];
        }
        ValidationLogSnoc(es, i, now);
      }
      assert es[..|es|] == es;
    }

    /**
     * The event part of a refresh: every event passes the filter, in order,
     * with its warnings logged, and each gets its positional `$id`.
     */
    method ReindexEvents(now: Date)
      modifies this`events, this`log, EventObjects()
      ensures events == old(events)
      ensures forall k {:trigger events[k].id} :: 0 <= k < |events| ==> events[k].id == Some(PositionalId(events, k))
      ensures log == old(log) + ValidationLog(events, now)
    {
      var kept := FilterValidEvents(now);
      AssignPositionalIds(kept);
      events := kept;
    }

    /**
     * The decision part of a refresh: signal when `ShouldUpdate` says so,
     * then overwrite the snapshot whatever the decision was.
     */
    method CompareAndSnapshot()
      requires Valid() && eventsWatched
      modifies this`previousDate, this`previousView, this`refreshSignals, this`refreshCount
      ensures Valid()
      ensures refreshCount == old(refreshCount) + 1
      ensures previousDate == viewDate && previousView == view
      ensures refreshSignals == old(refreshSignals)
                + (if ShouldUpdate(startOf, old(previousDate), old(previousView), viewDate, view) then 1 else 0)
    {
      var currentDate := viewDate;
      var shouldUpdate := ShouldUpdate(startOf, previousDate, previousView, currentDate, view);
      previousDate := currentDate;
      previousView := view;
      if shouldUpdate {
        refreshSignals := refreshSignals + 1;  // $timeout(... $broadcast('calendar.refreshView'))
      }
      refreshCount := refreshCount + 1;
    }

    /**
     * `refreshCalendar`: recomputes the title when it is shown, validates and
     * re-indexes the events, decides whether to signal a refresh against the
     * snapshot of the last refresh, and then overwrites that snapshot.
     */
    method RefreshCalendar(now: Date)
      requires Valid() && eventsWatched
      modifies this`viewTitle, this`events, this`log, this`previousDate, this`previousView,
               this`refreshSignals, this`refreshCount, EventObjects()
      ensures Valid()
      ensures Refreshed(now)
    {
      if TitleShown() {
        viewTitle := Some(calendarTitle[view.value](viewDate));
      }
      ReindexEvents(now);
      CompareAndSnapshot();
    }

    /** The template promise settles: success arms the watch group, failure is logged and final. */
    method TemplatesSettled(succeeded: bool)
      requires Valid() && Gate() == Pending
      modifies this`templatesLoaded, this`templatesSettled, this`log
      ensures Valid()
      ensures Gate() == Step(old(Gate()), if succeeded then LoadSucceeded else LoadFailed).state
      ensures templatesLoaded == succeeded
      ensures log == old(log) + (if succeeded then [] else [TemplatesNotLoaded])
    {
      templatesSettled := true;
      if succeeded {
        templatesLoaded := true;
      } else {
        log := log + [TemplatesNotLoaded];
      }
    }

    /**
     * The watch group on view date, view, open cell and locale fires. It
     * exists only once the templates have loaded; its first firing arms the
     * deep watch on the events, whose first call refreshes, and each later
     * firing refreshes directly.
     */
    method OnWatchGroupFired(now: Date)
      requires Valid()
      modifies this, EventObjects()
      ensures Valid()
      ensures Gate() == Step(old(Gate()), WatchGroupFired).state
      ensures refreshCount == old(refreshCount) + Step(old(Gate()), WatchGroupFired).refreshes
      ensures old(templatesLoaded) ==> Refreshed(now)
      ensures !old(templatesLoaded) ==> unchanged(this) && unchanged(EventObjects())
    {
      if templatesLoaded {
        if !eventsWatched {
          eventsWatched := true;
          RefreshCalendar(now);
        } else {
          RefreshCalendar(now);
        }
      }
    }

    /** The deep watch on the events sees a change; it exists only once armed. */
    method OnEventsChanged(now: Date)
      requires Valid()
      modifies this, EventObjects()
      ensures Valid()
      ensures Gate() == Step(old(Gate()), EventsChanged).state
      ensures refreshCount == old(refreshCount) + Step(old(Gate()), EventsChanged).refreshes
      ensures old(eventsWatched) ==> Refreshed(now)
      ensures !old(eventsWatched) ==> unchanged(this) && unchanged(EventObjects())
      ensures old(eventsWatched) && old(previousDate) == viewDate && old(previousView) == view ==>
                refreshSignals == old(refreshSignals) + 1
    {
      if eventsWatched {
        RefreshCalendar(now);
      }
    }
  }

  /**
   * Clients of the controller. The scenarios use small integers as dates;
   * the truncation below knows one month, the dates 0 to 30. A month view
   * anchored on its start, with one event: the first watch-group firing
   * refreshes and signals; moving the anchor inside the month is suppressed.
   */
  method MonthViewScenario(now: Date) returns (c: Controller)
    ensures fresh(c) && fresh(c.EventObjects())
    ensures c.Valid() && c.eventsWatched && c.view == Some(Month) && c.viewDate == 19
    ensures c.previousDate == 19 && c.previousView == Some(Month) && c.refreshSignals == 1
  {
    var startOf := (v: Option<View>, d: Date) => if v == Some(Month) && 0 <= d < 31 then 0 else d;
    var e := new CalendarEvent(EventData(DateValue(4), Absent, None, None));
    c := new Controller(Some([e]), Some(Month), 0, None, startOf, map[], false);
    c.TemplatesSettled(true);

    c.OnWatchGroupFired(now);
    assert c.refreshSignals == 1;
    assert e.id == Some(0);

    c.viewDate := 19;
    c.OnWatchGroupFired(now);
  }

  /**
   * Continuing: clicking a day drills down to day view and signals; a
   * vetoing hook changes nothing; a click in day view leaves the view
   * undefined.
   */
  method DrillDownScenario(now: Date)
  {
    var c := MonthViewScenario(now);
    c.DateClicked(14, (d: Date, next: Option<View>) => Undefined);
    assert c.view == Some(Day) && c.viewDate == 14;
    c.OnWatchGroupFired(now);
    assert c.refreshSignals == 2;

    c.DateClicked(20, (d: Date, next: Option<View>) => False);
    assert c.view == Some(Day) && c.viewDate == 14;

    c.DateClicked(20, (d: Date, next: Option<View>) => Other);
    assert c.view == None && c.viewDate == 20;
  }
}
