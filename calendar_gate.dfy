/**
 * The initialisation gate of the calendar controller
 * (src/directives/mwlCalendar.js, the template-load callback): nothing is
 * watched until the templates have loaded; the first firing of the watch
 * group only arms the deep watch on the events, whose own first call
 * refreshes once; every later firing, and every change the deep watch then
 * sees, refreshes directly. A load failure leaves the widget inert for good.
 */
module CalendarGate {

  /** Where the template load and the watchers stand. */
  datatype GateState =
    | Pending                        // templates still loading: no watcher exists
    | Failed                         // the load was rejected: no watcher will ever exist
    | Loaded(eventsWatched: bool)    // the watch group exists; the deep events watch once armed

  /** What can happen to the controller from outside. */
  datatype Trigger =
    | LoadSucceeded     // the template promise resolves
    | LoadFailed        // the template promise rejects
    | WatchGroupFired   // view date, view, open cell or locale changed
    | EventsChanged     // the deep watch on the event list sees a change

  /** The state after a trigger and how many refreshes it caused. */
  datatype Outcome = Outcome(state: GateState, refreshes: nat)

  /**
   * One trigger. A promise settles once, so a second settlement is ignored;
   * triggers with no watcher registered for them change nothing.
   */
  function Step(g: GateState, t: Trigger): (o: Outcome)
    ensures o.refreshes <= 1
    ensures o.refreshes == 1 ==> o.state == Loaded(true) && g.Loaded?
    ensures !g.Loaded? && !t.LoadSucceeded? ==> o.refreshes == 0 && !o.state.Loaded?
    ensures g.Failed? ==> o == Outcome(Failed, 0)
    ensures g.Pending? && !Settles(t) ==> o == Outcome(Pending, 0)
    ensures g.Pending? && t.LoadSucceeded? ==> o == Outcome(Loaded(false), 0)
    ensures g.Pending? && t.LoadFailed? ==> o == Outcome(Failed, 0)
  {
    match g
    case Pending =>
      if t.LoadSucceeded? then Outcome(Loaded(false), 0)
      else if t.LoadFailed? then Outcome(Failed, 0)
      else Outcome(Pending, 0)
    case Failed => Outcome(Failed, 0)
    case Loaded(watched) =>
      if t.WatchGroupFired? then Outcome(Loaded(true), 1)            // arms the deep watch, or refreshes directly
      else if t.EventsChanged? && watched then Outcome(Loaded(true), 1)
      else Outcome(g, 0)
  }

  /** A sequence of triggers, with the refreshes summed. */
  function Run(g: GateState, ts: seq<Trigger>): (o: Outcome)
    decreases |ts|
  {
    if ts == [] then Outcome(g, 0)
    else
      var first := Step(g, ts[0]);
      var rest := Run(first.state, ts[1..]);
      Outcome(rest.state, first.refreshes + rest.refreshes)
  }

  /** Running two trace segments one after the other is running their concatenation. */
  lemma {:induction false} RunAppend(g: GateState, a: seq<Trigger>, b: seq<Trigger>)
    ensures Run(g, a + b).state == Run(Run(g, a).state, b).state
    ensures Run(g, a + b).refreshes == Run(g, a).refreshes + Run(Run(g, a).state, b).refreshes
    decreases |a|
  {
    if a != [] {
      assert (a + b)[1..] == a[1..] + b;
      RunAppend(Step(g, a[0]).state, a[1..], b);
    } else {
      assert a + b == b;
    }
  }

  /** After a load failure nothing ever refreshes. */
  lemma {:induction false} FailureIsPermanent(ts: seq<Trigger>)
    ensures Run(Failed, ts) == Outcome(Failed, 0)
    decreases |ts|
  {
    if ts != [] {
      FailureIsPermanent(ts[1..]);
    }
  }

  predicate Settles(t: Trigger)
  {
    t.LoadSucceeded? || t.LoadFailed?
  }

  /** While the templates are loading, nothing refreshes. */
  lemma {:induction false} NothingBeforeLoad(ts: seq<Trigger>)
    requires forall i :: 0 <= i < |ts| ==> !Settles(ts[i])
    ensures Run(Pending, ts) == Outcome(Pending, 0)
    decreases |ts|
  {
    if ts != [] {
      NothingBeforeLoad(ts[1..]);
    }
  }

  /** The part of `ts` from the first occurrence of `t` on; empty when `t` does not occur. */
  function FromFirst(ts: seq<Trigger>, t: Trigger): (r: seq<Trigger>)
    ensures |r| <= |ts| && r == ts[|ts| - |r|..]
    ensures r == [] <==> t !in ts
    ensures r != [] ==> r[0] == t
    decreases |ts|
  {
    if ts == [] then []
    else if ts[0] == t then ts
    else FromFirst(ts[1..], t)
  }

  /**
   * The refreshes a trace causes once the templates have loaded, counted
   * independently of `Step`: one per firing of the watch group, and one per
   * change of the events seen once the deep watch is armed.
   */
  function ExpectedRefreshes(watched: bool, ts: seq<Trigger>): nat
  {
    multiset(ts)[WatchGroupFired]
      + multiset(if watched then ts else FromFirst(ts, WatchGroupFired))[EventsChanged]
  }

  /** The gate, once loaded, refreshes exactly as counted by `ExpectedRefreshes`. */
  lemma {:induction false} RefreshesOnceLoaded(watched: bool, ts: seq<Trigger>)
    ensures Run(Loaded(watched), ts).state == Loaded(watched || WatchGroupFired in ts)
    ensures Run(Loaded(watched), ts).refreshes == ExpectedRefreshes(watched, ts)
    decreases |ts|
  {
    if ts != [] {
      var t := ts[0];
      var next := Step(Loaded(watched), t).state.eventsWatched;
      RefreshesOnceLoaded(next, ts[1..]);
      assert ts == [t] + ts[1..];
      assert multiset(ts) == multiset([t]) + multiset(ts[1..]);
      assert WatchGroupFired in ts <==> t == WatchGroupFired || WatchGroupFired in ts[1..];
    }
  }

  /**
   * The whole life of a controller: triggers while loading, the settlement of
   * the template promise, then more triggers. A failure means no refresh
   * ever; a success means exactly the refreshes `ExpectedRefreshes` counts
   * after it, the first watch-group firing among them arming the deep watch.
   */
  lemma Lifecycle(before: seq<Trigger>, loaded: bool, after: seq<Trigger>)
    requires forall i :: 0 <= i < |before| ==> !Settles(before[i])
    ensures var o := Run(Pending, before + [if loaded then LoadSucceeded else LoadFailed] + after);
            && (loaded ==> o.state == Loaded(WatchGroupFired in after)
                           && o.refreshes == ExpectedRefreshes(false, after))
            && (!loaded ==> o == Outcome(Failed, 0))
  {
    var settle := if loaded then LoadSucceeded else LoadFailed;
    var settled := if loaded then Loaded(false) else Failed;
    NothingBeforeLoad(before);
    RunAppend(Pending, before, [settle]);
    assert Run(Pending, [settle]) == Outcome(settled, 0) by {
      assert [settle][1..] == [];
    }
    RunAppend(Pending, before + [settle], after);
    if loaded {
      RefreshesOnceLoaded(false, after);
    } else {
      FailureIsPermanent(after);
    }
  }
}
