/**
 * Runs of the trip multiplexer against a modem that measures distance.  Every
 * request is answered before the next event, granted or refused; a refused
 * restart leaves the batch running.  The odometer stays below the 32 bits of
 * the distance reports.
 */
module TripRuns {
  import opened Wrappers
  import opened TripBatching

  /** What the modem was last asked to run and agreed to. */
  datatype Batch = Batch(distance: Uint32, interval: Uint32)

  /** batchStart is the odometer reading at the last (re)start of the batch, startedAt that at each session start. */
  datatype World =
    World(st: State, modem: Option<Batch>, odometer: nat, batchStart: nat, startedAt: map<Uint32, nat>)

  datatype Event =
    | Drive(metres: nat)
    // queried: the modem told its distance; accepted: it took the start or restart
    | Started(id: Uint32, distance: Uint32, interval: Uint32, queried: bool, accepted: bool)
    | Reported(accepted: bool)
    | Stopped(id: Uint32, accepted: bool)

  predicate Measurable(w: World) {
    w.batchStart <= w.odometer < TWO_TO_THE_32
  }

  /** The accumulated distance the modem knows of. */
  function Acc(w: World): Uint32
    requires Measurable(w)
  {
    w.odometer - w.batchStart
  }

  function Query(w: World, e: Event): Option<Uint32>
    requires Measurable(w) && e.Started?
  {
    if e.queried then Some(Acc(w)) else None
  }

  const INITIAL := World(State(map[], 0, 0, false, false), None, 0, 0, map[])

  predicate Enabled(w: World, e: Event) {
    match e
    case Drive(metres) => w.odometer + metres < TWO_TO_THE_32
    case Stopped(id, _) => id in w.st.trips
    case _ => true
  }

  /** What the modem runs after its answer to a request. */
  function Ran(modem: Option<Batch>, sent: Option<Request>, accepted: bool): Option<Batch> {
    if sent.None? || !accepted then modem
    else
      match sent.value
      case StartTrip(distance, interval) => Some(Batch(distance, interval))
      case RestartTrip(distance, interval) => Some(Batch(distance, interval))
      case StopTrip => None
  }

  /** A start or restart of the batch that the modem accepts sets its distance back to 0. */
  function After(w: World, o: Outcome, accepted: bool): World {
    w.(st := o.state,
       modem := Ran(w.modem, o.sent, accepted),
       batchStart := if o.sent.None? || o.sent.value.StopTrip? || !accepted then w.batchStart else w.odometer)
  }

  ghost function Next(w: World, e: Event): (r: World)
    requires Measurable(w) && Enabled(w, e)
    ensures Measurable(r)
  {
    match e
    case Drive(metres) => w.(odometer := w.odometer + metres)
    case Started(id, distance, interval, queried, accepted) =>
      if w.st.trips == map[] then
        After(w, StartFirst(w.st, id, distance, interval, accepted), accepted)
        .(startedAt := w.startedAt[id := w.odometer])
      else
        After(w, StartNext(w.st, id, distance, interval, Query(w, e)), accepted)
        .(startedAt := if queried then w.startedAt[id := w.odometer] else w.startedAt)
    case Reported(accepted) => After(w, Report(w.st, Acc(w), accepted), accepted)
    case Stopped(id, accepted) => After(w, Stop(w.st, id, Acc(w), accepted), accepted)
  }

  /** ws are the worlds of a run with the events es. */
  ghost predicate IsRun(ws: seq<World>, es: seq<Event>) {
    && |ws| == |es| + 1
    && ws[0] == INITIAL
    && forall i :: 0 <= i < |es| ==> StepOf(ws, es, i)
  }

  ghost predicate StepOf(ws: seq<World>, es: seq<Event>, i: nat)
    requires i < |es| && |ws| == |es| + 1
  {
    Measurable(ws[i]) && Enabled(ws[i], es[i]) && ws[i + 1] == Next(ws[i], es[i])
  }

  // ----- No trip is reported complete early -----

  /**
   * The three offsets of a trip are ordered, the batch has accumulated at
   * least the offset at which the trip joined, and the tracked distance is at
   * most the distance driven since the session started.
   */
  predicate NotAhead(t: Trip, acc: Uint32, driven: int) {
    t.ongoing <= acc && t.onRestart <= t.thisTrip <= t.onRestart + (acc - t.ongoing) <= driven
  }

  ghost predicate NoneAhead(w: World) {
    Measurable(w) && forall id :: id in w.st.trips ==>
      id in w.startedAt && w.startedAt[id] <= w.odometer
      && NotAhead(w.st.trips[id], Acc(w), w.odometer - w.startedAt[id])
  }

  /** Below the wrap-around the tracked distance is the plain sum. */
  lemma TrackedExact(w: World, id: Uint32)
    requires NoneAhead(w) && id in w.st.trips
    ensures var t := w.st.trips[id];
            Tracked(t, Acc(w)) == t.onRestart + (Acc(w) - t.ongoing)
            && Tracked(t, Acc(w)) <= w.odometer - w.startedAt[id]
  {
  }

  /** A start that asks the modem for a restart. */
  predicate Restarts(w: World, e: Event)
    requires Measurable(w)
  {
    && e.Started? && w.st.trips != map[]
    && (e.distance < Remaining(w.st, Query(w, e)) || e.interval < w.st.interval)
  }

  /** What a trip counts twice when its offsets are taken over but the batch runs on. */
  function CountedTwice(t: Trip): int {
    t.ongoing + (t.thisTrip - t.onRestart)
  }

  /**
   * A start whose restart is refused comes before the batch has accumulated
   * any distance; or, if the query failed and no session is added, each trip
   * lags by what it then counts twice.
   */
  predicate SafeStart(w: World, e: Event)
    requires Measurable(w)
  {
    Restarts(w, e) && !e.accepted ==>
      if e.queried then Acc(w) == 0
      else forall id :: id in w.st.trips ==>
        id in w.startedAt
        && CountedTwice(w.st.trips[id]) <= w.odometer - w.startedAt[id] - Tracked(w.st.trips[id], Acc(w))
  }

  /** after is w with all offsets taken over, and the new session if the query was answered. */
  predicate IsCarried(w: World, e: Event, after: World)
    requires Measurable(w) && e.Started?
  {
    && Measurable(after) && after.odometer == w.odometer && Acc(after) == (if e.accepted then 0 else Acc(w))
    && after.st.trips.Keys == w.st.trips.Keys + (if e.queried then {e.id} else {})
    && after.startedAt == (if e.queried then w.startedAt[e.id := w.odometer] else w.startedAt)
    && (e.queried ==> after.st.trips[e.id] == Trip(0, 0, 0, e.distance, e.interval))
    && forall id :: id in w.st.trips && (e.queried ==> id != e.id) ==>
         after.st.trips[id] == w.st.trips[id].(ongoing := 0, onRestart := w.st.trips[id].thisTrip)
  }

  lemma RestartCarries(w: World, e: Event)
    requires Measurable(w) && Restarts(w, e)
    ensures IsCarried(w, e, Next(w, e))
  {
  }

  lemma CarriedNoneAheadIff(w: World, e: Event, after: World)
    requires NoneAhead(w) && Restarts(w, e) && IsCarried(w, e, after)
    ensures NoneAhead(after) <==> SafeStart(w, e)
  {
    if !e.accepted && e.queried {
      assert e.id in after.st.trips;
    }
    if !e.accepted && !e.queried {
      forall id | id in w.st.trips
        ensures id in after.st.trips
        ensures NotAhead(after.st.trips[id], Acc(w), w.odometer - w.startedAt[id]) <==>
                CountedTwice(w.st.trips[id]) <= w.odometer - w.startedAt[id] - Tracked(w.st.trips[id], Acc(w))
      {
        TrackedExact(w, id);
      }
    }
  }

  /** A start keeps all trips from being ahead if and only if it is safe. */
  lemma StartNoneAheadIff(w: World, e: Event)
    requires NoneAhead(w) && e.Started?
    ensures NoneAhead(Next(w, e)) <==> SafeStart(w, e)
  {
    if Restarts(w, e) {
      RestartCarries(w, e);
      CarriedNoneAheadIff(w, e, Next(w, e));
    }
  }

  /** Either the batch runs on with the same trips, or it restarts with all of them rebased. */
  predicate RunsOnOrRebases(trips: map<Uint32, Trip>, acc: Uint32, o: Outcome, accepted: bool) {
    if o.sent.None? || o.sent.value.StopTrip? || !accepted then o.state.trips == trips
    else o.state.trips == Rebased(trips, acc)
  }

  lemma RestartShape(st: State, acc: Uint32, accepted: bool)
    ensures RunsOnOrRebases(st.trips, acc, Restart(st, acc, accepted), accepted)
  {
  }

  lemma OutcomeKeepsNoneAhead(w: World, o: Outcome, accepted: bool)
    requires NoneAhead(w) && RunsOnOrRebases(w.st.trips, Acc(w), o, accepted)
    ensures NoneAhead(After(w, o, accepted))
  {
  }

  lemma DropKeepsNoneAhead(w: World)
    requires NoneAhead(w)
    ensures NoneAhead(w.(st := Dropped(w.st, Acc(w))))
  {
    forall id | id in w.st.trips
      ensures NotAhead(w.st.trips[id].(thisTrip := Tracked(w.st.trips[id], Acc(w))), Acc(w),
                       w.odometer - w.startedAt[id])
    {
      TrackedExact(w, id);
    }
  }

  /** The same after the trips have been changed in the same event. */
  lemma ChangedOutcomeKeepsNoneAhead(w: World, st: State, o: Outcome, accepted: bool)
    requires Measurable(w) && NoneAhead(w.(st := st)) && RunsOnOrRebases(st.trips, Acc(w), o, accepted)
    ensures NoneAhead(After(w, o, accepted))
  {
    OutcomeKeepsNoneAhead(w.(st := st), o, accepted);
    assert After(w, o, accepted) == After(w.(st := st), o, accepted);
  }

  lemma ReportShape(st: State, acc: Uint32, accepted: bool)
    ensures RunsOnOrRebases(Dropped(st, acc).trips, acc, Report(st, acc, accepted), accepted)
  {
    RestartShape(Dropped(st, acc), acc, accepted);
  }

  lemma StopShape(st: State, id: Uint32, acc: Uint32, accepted: bool)
    requires id in st.trips
    ensures RunsOnOrRebases(Without(st, id).trips, acc, Stop(st, id, acc, accepted), accepted)
  {
    RestartShape(Without(st, id), acc, accepted);
  }

  lemma WithoutKeepsNoneAhead(w: World, id: Uint32)
    requires NoneAhead(w) && id in w.st.trips
    ensures NoneAhead(w.(st := Without(w.st, id)))
  {
  }

  lemma NextNoneAheadIff(w: World, e: Event)
    requires NoneAhead(w) && Enabled(w, e)
    ensures NoneAhead(Next(w, e)) <==> SafeStart(w, e)
  {
    match e
    case Drive(_) =>
    case Started(_, _, _, _, _) => StartNoneAheadIff(w, e);
    case Reported(accepted) =>
      DropKeepsNoneAhead(w);
      ReportShape(w.st, Acc(w), accepted);
      ChangedOutcomeKeepsNoneAhead(w, Dropped(w.st, Acc(w)), Report(w.st, Acc(w), accepted), accepted);
    case Stopped(id, accepted) =>
      WithoutKeepsNoneAhead(w, id);
      StopShape(w.st, id, Acc(w), accepted);
      ChangedOutcomeKeepsNoneAhead(w, Without(w.st, id), Stop(w.st, id, Acc(w), accepted), accepted);
  }

  /** A run in which every start is safe. */
  ghost predicate IsSafeRun(ws: seq<World>, es: seq<Event>) {
    IsRun(ws, es) && forall i :: 0 <= i < |es| ==> Measurable(ws[i]) && SafeStart(ws[i], es[i])
  }

  lemma {:induction false} RunNoneAhead(ws: seq<World>, es: seq<Event>, i: nat)
    requires IsSafeRun(ws, es) && i < |ws|
    ensures NoneAhead(ws[i])
  {
    if i == 0 {
    } else {
      RunNoneAhead(ws, es, i - 1);
      assert StepOf(ws, es, i - 1) && SafeStart(ws[i - 1], es[i - 1]);
      NextNoneAheadIff(ws[i - 1], es[i - 1]);
    }
  }

  /**
   * In every run of starts, stops, reports and driving with safe starts, a trip
   * reported complete has driven its full distance since it started, and the
   * unsigned subtraction of its offset from the batch distance does not wrap.
   */
  lemma NoEarlyCompletion(ws: seq<World>, es: seq<Event>, i: nat, id: Uint32)
    requires IsSafeRun(ws, es) && i < |es| && es[i].Reported?
    requires Measurable(ws[i]) && id in Completed(ws[i].st.trips, Acc(ws[i]))
    ensures id in ws[i].startedAt
    ensures ws[i].st.trips[id].ongoing <= Acc(ws[i])
    ensures ws[i].st.trips[id].distance <= ws[i].odometer - ws[i].startedAt[id]
  {
    RunNoneAhead(ws, es, i);
    TrackedExact(ws[i], id);
  }

  // ----- Trips are reported complete in time -----

  function Driven(w: World, id: Uint32): int
    requires id in w.startedAt
  {
    w.odometer - w.startedAt[id]
  }

  /** Every trip is tracked at exactly the distance driven since its session started. */
  ghost predicate TracksDriven(w: World) {
    NoneAhead(w) && forall id :: id in w.st.trips ==> Tracked(w.st.trips[id], Acc(w)) == Driven(w, id)
  }

  /** The distance of the trip is up to date: nothing has been driven since it was last brought up to date. */
  predicate UpToDate(t: Trip, acc: Uint32) {
    t.thisTrip == Tracked(t, acc)
  }

  /**
   * A start under a new id; if it restarts the batch, every trip is up to date;
   * if that restart is refused, no trip counts anything twice, and a session is
   * added only before the batch has accumulated any distance.
   */
  predicate KeepsTracking(w: World, e: Event)
    requires Measurable(w)
  {
    e.Started? ==>
      && e.id !in w.st.trips
      && (Restarts(w, e) ==>
            if e.accepted then forall id :: id in w.st.trips ==> UpToDate(w.st.trips[id], Acc(w))
            else (e.queried ==> Acc(w) == 0) && forall id :: id in w.st.trips ==> CountedTwice(w.st.trips[id]) == 0)
  }

  lemma CarriedTracksDrivenIff(w: World, e: Event, after: World)
    requires TracksDriven(w) && Restarts(w, e) && e.id !in w.st.trips
    requires IsCarried(w, e, after) && NoneAhead(after)
    ensures TracksDriven(after) <==> KeepsTracking(w, e)
  {
    forall id | id in w.st.trips
      ensures id in after.st.trips
      ensures Tracked(after.st.trips[id], Acc(after)) == Driven(after, id) <==>
              if e.accepted then UpToDate(w.st.trips[id], Acc(w)) else CountedTwice(w.st.trips[id]) == 0
    {
      TrackedExact(w, id);
      TrackedExact(after, id);
    }
    if e.queried {
      assert e.id in after.st.trips;
    }
  }

  /** A start under a new id keeps the tracking exact if and only if it is of that kind. */
  lemma StartTracksDrivenIff(w: World, e: Event)
    requires TracksDriven(w) && e.Started? && e.id !in w.st.trips
    ensures TracksDriven(Next(w, e)) <==> KeepsTracking(w, e)
  {
    StartNoneAheadIff(w, e);
    if Restarts(w, e) {
      RestartCarries(w, e);
      if NoneAhead(Next(w, e)) {
        CarriedTracksDrivenIff(w, e, Next(w, e));
      } else {
        UnsafeTracksNot(w, e);
      }
    }
  }

  lemma UnsafeTracksNot(w: World, e: Event)
    requires TracksDriven(w) && e.Started? && !SafeStart(w, e)
    ensures !KeepsTracking(w, e)
  {
    if !e.queried {
      var id :| id in w.st.trips && CountedTwice(w.st.trips[id]) > 0;
    }
  }

  lemma OutcomeTracksDriven(w: World, o: Outcome, accepted: bool)
    requires TracksDriven(w) && RunsOnOrRebases(w.st.trips, Acc(w), o, accepted)
    ensures TracksDriven(After(w, o, accepted))
  {
    OutcomeKeepsNoneAhead(w, o, accepted);
  }

  lemma ChangedOutcomeTracksDriven(w: World, st: State, o: Outcome, accepted: bool)
    requires Measurable(w) && TracksDriven(w.(st := st)) && RunsOnOrRebases(st.trips, Acc(w), o, accepted)
    ensures TracksDriven(After(w, o, accepted))
  {
    OutcomeTracksDriven(w.(st := st), o, accepted);
    assert After(w, o, accepted) == After(w.(st := st), o, accepted);
  }

  /** Driving, reports and stops always keep it. */
  lemma NextTracksDriven(w: World, e: Event)
    requires TracksDriven(w) && Enabled(w, e) && KeepsTracking(w, e)
    ensures TracksDriven(Next(w, e))
  {
    match e
    case Drive(_) => NextNoneAheadIff(w, e);
    case Started(_, _, _, _, _) => StartTracksDrivenIff(w, e);
    case Reported(accepted) =>
      DropKeepsNoneAhead(w);
      ReportShape(w.st, Acc(w), accepted);
      ChangedOutcomeTracksDriven(w, Dropped(w.st, Acc(w)), Report(w.st, Acc(w), accepted), accepted);
    case Stopped(id, accepted) =>
      WithoutKeepsNoneAhead(w, id);
      StopShape(w.st, id, Acc(w), accepted);
      ChangedOutcomeTracksDriven(w, Without(w.st, id), Stop(w.st, id, Acc(w), accepted), accepted);
  }

  ghost predicate IsTrackingRun(ws: seq<World>, es: seq<Event>) {
    IsRun(ws, es) && forall i :: 0 <= i < |es| ==> Measurable(ws[i]) && KeepsTracking(ws[i], es[i])
  }

  lemma {:induction false} RunTracksDriven(ws: seq<World>, es: seq<Event>, i: nat)
    requires IsTrackingRun(ws, es) && i < |ws|
    ensures TracksDriven(ws[i])
  {
    if i == 0 {
    } else {
      RunTracksDriven(ws, es, i - 1);
      assert StepOf(ws, es, i - 1) && KeepsTracking(ws[i - 1], es[i - 1]);
      NextTracksDriven(ws[i - 1], es[i - 1]);
    }
  }

  /**
   * In every run of such starts, with stops, reports and driving, a report
   * completes exactly the trips that have driven their distance since their
   * session started: none early, and none late.
   */
  lemma CompletedExactlyWhenDriven(ws: seq<World>, es: seq<Event>, i: nat, id: Uint32)
    requires IsTrackingRun(ws, es) && i < |es| && es[i].Reported?
    requires Measurable(ws[i]) && id in ws[i].st.trips
    ensures id in ws[i].startedAt
    ensures id in Completed(ws[i].st.trips, Acc(ws[i])) <==> ws[i].st.trips[id].distance <= Driven(ws[i], id)
  {
    RunTracksDriven(ws, es, i);
  }

  // ----- Reached worlds, for examples -----

  ghost predicate Reached(w: World) {
    exists ws, es :: IsRun(ws, es) && ws[|es|] == w
  }

  lemma InitialReached()
    ensures Reached(INITIAL)
  {
    assert IsRun([INITIAL], []);
  }

  lemma ExtendRun(ws: seq<World>, es: seq<Event>, e: Event, after: World)
    requires IsRun(ws, es)
    requires var w := ws[|es|]; Measurable(w) && Enabled(w, e) && after == Next(w, e)
    ensures IsRun(ws + [after], es + [e])
  {
    forall i | 0 <= i < |es + [e]|
      ensures StepOf(ws + [after], es + [e], i)
    {
      assert i < |es| ==> StepOf(ws, es, i);
    }
  }

  lemma ReachedNext(w: World, e: Event, after: World)
    requires Reached(w) && Measurable(w) && Enabled(w, e) && after == Next(w, e)
    ensures Reached(after)
  {
    var ws, es :| IsRun(ws, es) && ws[|es|] == w;
    ExtendRun(ws, es, e, after);
    assert (ws + [after])[|es + [e]|] == after;
  }

  // One trip; 50 metres on, a second one asks for a restart that is refused.
  const TRIP_1 := Trip(0, 0, 0, 100, 10)
  const ONE_TRIP := World(State(map[1 := TRIP_1], 100, 10, false, false), Some(Batch(100, 10)), 0, 0, map[1 := 0])
  const UNDERWAY := ONE_TRIP.(odometer := 50)
  const REFUSED_2 :=
    World(State(map[1 := TRIP_1, 2 := Trip(0, 0, 0, 40, 10)], 40, 10, false, false), Some(Batch(100, 10)),
          50, 0, map[1 := 0, 2 := 50])

  lemma OneTripReached()
    ensures ONE_TRIP == Next(INITIAL, Started(1, 100, 10, true, true)) && Reached(ONE_TRIP)
  {
    InitialReached();
    var after := Next(INITIAL, Started(1, 100, 10, true, true));
    assert after.st.trips == map[1 := TRIP_1] && after.startedAt == map[1 := 0];
    ReachedNext(INITIAL, Started(1, 100, 10, true, true), ONE_TRIP);
  }

  lemma UnderwayReached()
    ensures UNDERWAY == Next(ONE_TRIP, Drive(50)) && Reached(UNDERWAY)
  {
    OneTripReached();
    ReachedNext(ONE_TRIP, Drive(50), UNDERWAY);
  }

  /** The second trip is then reported complete although it has not driven at all. */
  lemma RefusedRestartCompletesEarly()
    ensures Reached(REFUSED_2) && REFUSED_2 == Next(UNDERWAY, Started(2, 40, 10, true, false))
    ensures 2 in Completed(REFUSED_2.st.trips, Acc(REFUSED_2)) && Driven(REFUSED_2, 2) == 0
  {
    UnderwayReached();
    var e := Started(2, 40, 10, true, false);
    assert 1 in UNDERWAY.st.trips;
    assert StartNext(UNDERWAY.st, 2, 40, 10, Some(50)).state.trips == REFUSED_2.st.trips;
    assert Next(UNDERWAY, e).startedAt == map[1 := 0, 2 := 50];
    ReachedNext(UNDERWAY, e, REFUSED_2);
  }
}
