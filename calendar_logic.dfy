/**
 * The pure decisions of the calendar controller (src/directives/mwlCalendar.js):
 * the drill-down table used when a date is clicked, the host's veto hook,
 * the advisory checks on an event, the refresh-suppression rule and the
 * positional `$id` that a refresh overlays on each event.
 *
 * Dates are abstract points in time (milliseconds); the date library's
 * truncation `startOf(view)` is passed in as a function wherever it is used.
 */
module CalendarLogic {
  import opened Wrappers

  /** A point in time, as the number of milliseconds of a JavaScript Date. */
  type Date = int

  /** The four view modes. `vm.view` itself is an `Option<View>`: None is `undefined`. */
  datatype View = Year | Month | Week | Day

  /** How wide a window a view shows: a drill-down always goes to a narrower one. */
  function Span(v: View): nat
  {
    match v
    case Year => 3
    case Month => 2
    case Week => 1
    case Day => 0
  }

  // ---------------------------------------------------------------------------
  // Navigation on a date click

  /** The `nextView` object literal: a partial table, with no entry for Day. */
  const NextViewTable: map<View, View> := map[Year := Month, Month := Day, Week := Day]

  /** `nextView[vm.view]`: the entry for the current view, or undefined. */
  function NextView(v: Option<View>): (r: Option<View>)
    ensures r.Some? <==> v.Some? && v.value != Day
    ensures r.Some? ==> r.value in {Month, Day} && Span(r.value) < Span(v.value)
    ensures v == Some(Year) ==> r == Some(Month)
    ensures v == Some(Month) || v == Some(Week) ==> r == Some(Day)
  {
    assert NextViewTable.Keys == {Year, Month, Week};
    match v
    case None => None
    case Some(w) =>
      assert w != Day ==> w == Year || w == Month || w == Week;
      if w in NextViewTable then Some(NextViewTable[w]) else None
  }

  /** What the host's `onViewChangeClick` expression evaluated to. */
  datatype HookResult = False | Undefined | Other

  /** The click is vetoed only by the exact value `false` (a `!== false` test). */
  predicate Vetoes(h: HookResult): (vetoed: bool)
    ensures vetoed <==> h == False
    ensures h == Undefined || h == Other ==> !vetoed
  {
    h == False
  }

  // ---------------------------------------------------------------------------
  // Advisory checks on an event

  /**
   * A date-valued field of an event as the host supplied it: missing (or
   * `undefined`, which the date library reads as now); another falsy value
   * (`null`, `0`, `''`, `false`), which the date library reads as `parsed`
   * (None for an invalid date); a real Date object; or some other truthy
   * value, such as a string, which the date library parses to a point in
   * time or to an invalid date.
   */
  datatype DateField =
    | Absent
    | Falsy(parsed: Option<Date>)
    | DateValue(at: Date)
    | NonDate(parsed: Option<Date>)

  /** The field fails JavaScript's truthiness test (`!event.startsAt`). */
  predicate Missing(f: DateField)
  {
    f.Absent? || f.Falsy?
  }

  /** The host's data for one event; `eventType` and `color` are None when falsy. */
  datatype EventData = EventData(
    startsAt: DateField,
    endsAt: DateField,
    eventType: Option<string>,
    color: Option<string>)

  /** `moment(field)`: undefined means now; None stands for an invalid date. */
  function AsMoment(f: DateField, now: Date): (r: Option<Date>)
    ensures f.DateValue? ==> r == Some(f.at)
  {
    match f
    case Absent => Some(now)
    case Falsy(p) => p
    case DateValue(t) => Some(t)
    case NonDate(p) => p
  }

  /** `a.isAfter(b)`: false whenever either side is an invalid date. */
  predicate IsAfter(a: Option<Date>, b: Option<Date>)
  {
    a.Some? && b.Some? && a.value > b.value
  }

  /** The warnings `eventIsValid` may log, in the order it checks them. */
  datatype Warning = MissingStartsAt | StartsAtNotDate | EndsAtNotDate | StartsAfterEnds | TypeWithoutColor

  function Rank(w: Warning): nat
  {
    match w
    case MissingStartsAt => 0
    case StartsAtNotDate => 1
    case EndsAtNotDate => 2
    case StartsAfterEnds => 3
    case TypeWithoutColor => 4
  }

  /** The warnings logged for one event, in the order the checks are made. */
  function EventWarnings(e: EventData, now: Date): (r: seq<Warning>)
    ensures forall i, j :: 0 <= i < j < |r| ==> Rank(r[i]) < Rank(r[j])
  {
    var onStart :=
      if Missing(e.startsAt) then [MissingStartsAt]
      else if !e.startsAt.DateValue? then [StartsAtNotDate]
      else [];
    var onEnd :=
      if Missing(e.endsAt) then []
      else (if !e.endsAt.DateValue? then [EndsAtNotDate] else [])
           + (if IsAfter(AsMoment(e.startsAt, now), AsMoment(e.endsAt, now)) then [StartsAfterEnds] else []);
    var onType := if e.eventType.Some? && e.color.None? then [TypeWithoutColor] else [];
    onStart + onEnd + onType
  }

  /**
   * Each warning is logged exactly when its condition holds; the checks on
   * `endsAt` are made only when it is present, and a missing `startsAt` is
   * not also reported as not being a Date.
   */
  lemma EventWarningsExplained(e: EventData, now: Date)
    ensures var r := EventWarnings(e, now);
            && (MissingStartsAt in r <==> Missing(e.startsAt))
            && (StartsAtNotDate in r <==> e.startsAt.NonDate?)
            && (EndsAtNotDate in r <==> e.endsAt.NonDate?)
            && (StartsAfterEnds in r <==>
                  !Missing(e.endsAt) && IsAfter(AsMoment(e.startsAt, now), AsMoment(e.endsAt, now)))
            && (TypeWithoutColor in r <==> e.eventType.Some? && e.color.None?)
  {
  }

  /** The shape the host is asked to supply: Date objects, start not after end, a colour with a type. */
  predicate WellFormed(e: EventData)
  {
    && e.startsAt.DateValue?
    && (Missing(e.endsAt) || (e.endsAt.DateValue? && e.startsAt.at <= e.endsAt.at))
    && (e.eventType.Some? ==> e.color.Some?)
  }

  /** An event draws no warning exactly when it is well formed, whatever the clock says. */
  lemma NoWarningsIffWellFormed(e: EventData, now: Date)
    ensures EventWarnings(e, now) == [] <==> WellFormed(e)
  {
  }

  // ---------------------------------------------------------------------------
  // Refresh suppression

  /**
   * `shouldUpdate`: a refresh signal is suppressed only when the anchor date
   * moved, stayed inside the window of the current view, and the view is the
   * one of the last refresh. An unchanged date or a changed view always
   * updates.
   */
  predicate ShouldUpdate(
    startOf: (Option<View>, Date) -> Date,
    previousDate: Date, previousView: Option<View>,
    currentDate: Date, currentView: Option<View>): (update: bool)
    ensures previousDate == currentDate ==> update
    ensures previousView != currentView ==> update
    ensures startOf(currentView, previousDate) != startOf(currentView, currentDate) ==> update
  {
    !(&& startOf(currentView, previousDate) == startOf(currentView, currentDate)
      && previousDate != currentDate
      && currentView == previousView)
  }

  /** The cases `shouldUpdate` can never suppress, and what suppression implies. */
  lemma ShouldUpdateCases(
    startOf: (Option<View>, Date) -> Date,
    previousDate: Date, previousView: Option<View>,
    currentDate: Date, currentView: Option<View>)
    ensures previousDate == currentDate ==>
              ShouldUpdate(startOf, previousDate, previousView, currentDate, currentView)
    ensures previousView != currentView ==>
              ShouldUpdate(startOf, previousDate, previousView, currentDate, currentView)
    ensures startOf(currentView, previousDate) != startOf(currentView, currentDate) ==>
              ShouldUpdate(startOf, previousDate, previousView, currentDate, currentView)
    ensures previousDate != currentDate && previousView == currentView
            && startOf(currentView, previousDate) == startOf(currentView, currentDate) ==>
              !ShouldUpdate(startOf, previousDate, previousView, currentDate, currentView)
  {
  }

  /**
   * With the date library's truncation, which leaves a date unchanged for an
   * undefined view, a refresh in an undefined view is never suppressed.
   */
  lemma UndefinedViewNeverSuppressed(
    startOf: (Option<View>, Date) -> Date,
    previousDate: Date, previousView: Option<View>, currentDate: Date)
    requires forall d :: startOf(None, d) == d
    ensures ShouldUpdate(startOf, previousDate, previousView, currentDate, None)
  {
  }

  // ---------------------------------------------------------------------------
  // Positional ids

  /**
   * The last index below `n` at which `x` occurs in `s`, or -1. A refresh
   * writes `$id := index` on each element in order, so an object that occurs
   * several times ends up with the index of its last occurrence.
   */
  function LastIndexBelow<T(==)>(s: seq<T>, x: T, n: nat): (r: int)
    requires n <= |s|
    ensures -1 <= r < n
    ensures r >= 0 ==> s[r] == x
    ensures r < 0 ==> x !in s[..n]
    decreases n
  {
    if n == 0 then -1
    else if s[n - 1] == x then n - 1
    else
      assert s[..n] == s[..n - 1] + [s[n - 1]];
      LastIndexBelow(s, x, n - 1)
  }

  /** No occurrence of `x` lies between the last one below `n` and `n`. */
  lemma {:induction false} LastIndexBelowIsLast<T>(s: seq<T>, x: T, n: nat, k: nat)
    requires n <= |s| && LastIndexBelow(s, x, n) < k < n
    ensures s[k] != x
    decreases n
  {
    if s[n - 1] != x && k < n - 1 {
      LastIndexBelowIsLast(s, x, n - 1, k);
    }
  }

  /** The last occurrence below `n` of the element at `k < n` is at `k` or later. */
  lemma LastIndexBelowAtLeast<T>(s: seq<T>, n: nat, k: nat)
    requires k < n <= |s|
    ensures LastIndexBelow(s, s[k], n) >= k
  {
  }

  /** The `$id` an element of `s` carries after the ids have been written. */
  function PositionalId<T(==)>(s: seq<T>, k: nat): (id: nat)
    requires k < |s|
    ensures k <= id < |s| && s[id] == s[k]
  {
    LastIndexBelowAtLeast(s, |s|, k);
    LastIndexBelow(s, s[k], |s|)
  }

  predicate Distinct<T(==)>(s: seq<T>)
  {
    forall i, j :: 0 <= i < j < |s| ==> s[i] != s[j]
  }

  /** With no object listed twice, every `$id` is exactly the element's index. */
  lemma PositionalIdOfDistinct<T>(s: seq<T>, k: nat)
    requires Distinct(s) && k < |s|
    ensures PositionalId(s, k) == k
  {
  }
}
