/** Runs of the trip multiplexer that show where its properties end. */
module TripExamples {
  import opened Wrappers
  import opened MapSearch
  import opened TripBatching
  import opened TripRuns
  import opened TripFits

  ghost predicate CalmReached(w: World) {
    exists ws, es :: IsCalmRun(ws, es) && ws[|es|] == w
  }

  lemma CalmInitial()
    ensures CalmReached(INITIAL) && BatchFits(INITIAL)
  {
    assert IsCalmRun([INITIAL], []);
  }

  lemma CalmNext(w: World, e: Event, after: World)
    requires CalmReached(w) && BatchFits(w) && IsCalm(w, e) && after == Next(w, e)
    ensures CalmReached(after) && BatchFits(after)
  {
    NextBatchFitsIff(w, e);
    ExtendCalm(w, e, after);
  }

  lemma ExtendCalm(w: World, e: Event, after: World)
    requires CalmReached(w) && IsCalm(w, e) && after == Next(w, e)
    ensures CalmReached(after)
  {
    var ws, es :| IsCalmRun(ws, es) && ws[|es|] == w;
    ExtendRun(ws, es, e, after);
    var ws', es' := ws + [after], es + [e];
    assert forall i :: 0 <= i < |es'| ==> IsCalm(ws'[i], es'[i]);
    assert IsCalmRun(ws', es') && ws'[|es'|] == after;
  }

  lemma CalmUnderway()
    ensures CalmReached(ONE_TRIP) && BatchFits(ONE_TRIP) && CalmReached(UNDERWAY) && BatchFits(UNDERWAY)
  {
    OneTripReached();
    UnderwayReached();
    CalmInitial();
    CalmNext(INITIAL, Started(1, 100, 10, true, true), ONE_TRIP);
    CalmNext(ONE_TRIP, Drive(50), UNDERWAY);
  }

  lemma MinRemainingOfOne(id: Uint32, t: Trip)
    requires t.thisTrip < t.distance
    ensures MinRemaining(map[id := t]) == t.distance - t.thisTrip
  {
    var trips := map[id := t];
    SmallestIsMinimum(Remainders(trips), trips.Keys, 0);
    assert id in trips.Keys;
  }

  lemma MinIntervalOfOne(id: Uint32, t: Trip)
    requires t.interval > 0
    ensures MinInterval(map[id := t]) == t.interval
  {
    var trips := map[id := t];
    SmallestIsMinimum(Intervals(trips), trips.Keys, 0);
    assert id in trips.Keys;
  }

  // ----- A start over a trip that is not up to date -----

  const SHORT :=
    World(State(map[1 := TRIP_1, 2 := Trip(0, 0, 0, 10, 10)], 10, 10, false, false), Some(Batch(10, 10)),
          50, 50, map[1 := 0, 2 := 50])
  const SHORT_ENDS := SHORT.(odometer := 60)
  const SHORT_DONE :=
    World(State(map[1 := Trip(0, 10, 10, 100, 10)], 90, 10, true, true), Some(Batch(90, 10)), 60, 60, SHORT.startedAt)
  const LATE := SHORT_DONE.(odometer := 120)

  lemma CalmShort()
    ensures CalmReached(SHORT_ENDS) && BatchFits(SHORT_ENDS)
  {
    CalmUnderway();
    var e := Started(2, 10, 10, true, true);
    assert 1 in UNDERWAY.st.trips;
    assert StartNext(UNDERWAY.st, 2, 10, 10, Some(50)).state.trips == SHORT.st.trips;
    CalmNext(UNDERWAY, e, SHORT);
    CalmNext(SHORT, Drive(10), SHORT_ENDS);
  }

  lemma ShortCompletes()
    ensures Completed(SHORT_ENDS.st.trips, 10) == {2}
    ensures Dropped(SHORT_ENDS.st, 10) == State(map[1 := Trip(0, 10, 0, 100, 10)], 10, 10, true, true)
  {
    assert 2 in SHORT_ENDS.st.trips && 1 in SHORT_ENDS.st.trips;
    assert 2 in Completed(SHORT_ENDS.st.trips, 10);
    assert Dropped(SHORT_ENDS.st, 10).trips == map[1 := Trip(0, 10, 0, 100, 10)];
  }

  lemma CalmShortDone()
    ensures CalmReached(SHORT_DONE) && BatchFits(SHORT_DONE)
  {
    CalmShort();
    ShortCompletes();
    var t := Trip(0, 10, 0, 100, 10);
    MinRemainingOfOne(1, t);
    MinIntervalOfOne(1, t);
    assert Rebased(map[1 := t], 10) == map[1 := Trip(0, 10, 10, 100, 10)];
    CalmNext(SHORT_ENDS, Reported(true), SHORT_DONE);
  }

  /**
   * A second trip starts 50 metres into the first and restarts the batch; those
   * 50 metres are lost to the first, which is still running, with 30 metres of
   * the batch to go, when it has driven 120 of its 100 metres.
   */
  lemma LateAfterRestart()
    ensures CalmReached(LATE) && Acc(LATE) + 30 == LATE.st.distance
    ensures 1 in LATE.st.trips && LATE.st.trips[1].distance == 100 && Driven(LATE, 1) == 120
    ensures 1 !in Completed(LATE.st.trips, Acc(LATE))
    ensures !KeepsTracking(UNDERWAY, Started(2, 10, 10, true, true))
  {
    CalmShortDone();
    CalmNext(SHORT_DONE, Drive(60), LATE);
    assert 1 in UNDERWAY.st.trips && !UpToDate(UNDERWAY.st.trips[1], 50);
  }

  // ----- A start that restarts the batch only for its interval -----

  const RETIMED :=
    World(State(map[1 := TRIP_1, 2 := Trip(0, 0, 0, 1000, 5)], 50, 5, false, false), Some(Batch(50, 5)),
          50, 50, map[1 := 0, 2 := 50])
  const STALLED := RETIMED.(odometer := 100)

  lemma CalmStalled()
    ensures CalmReached(STALLED)
  {
    CalmUnderway();
    var e := Started(2, 1000, 5, true, true);
    assert 1 in UNDERWAY.st.trips;
    assert StartNext(UNDERWAY.st, 2, 1000, 5, Some(50)).state.trips == RETIMED.st.trips;
    CalmNext(UNDERWAY, e, RETIMED);
    CalmNext(RETIMED, Drive(50), STALLED);
  }

  /** At the end of the batch the report completes no trip and restarts nothing. */
  lemma IntervalRestartStalls()
    ensures CalmReached(STALLED) && Acc(STALLED) == STALLED.st.distance
    ensures Completed(STALLED.st.trips, Acc(STALLED)) == {} && Report(STALLED.st, Acc(STALLED), true).sent == None
  {
    CalmStalled();
    NoneCompleted();
  }

  lemma NoneCompleted()
    ensures Completed(STALLED.st.trips, 50) == {}
  {
  }

  // ----- A stop after driving unreported -----

  const TRIP_2 := Trip(0, 0, 0, 200, 10)
  const TWO_TRIPS :=
    World(State(map[1 := TRIP_1, 2 := TRIP_2], 100, 10, false, false), Some(Batch(100, 10)), 0, 0, map[1 := 0, 2 := 0])
  const UNREPORTED := TWO_TRIPS.(odometer := 50)
  const STOPPED :=
    World(State(map[2 := Trip(0, 50, 50, 200, 10)], 200, 10, true, true), Some(Batch(200, 10)), 50, 50,
          TWO_TRIPS.startedAt)
  const OVERRUN := STOPPED.(odometer := 210)

  lemma CalmUnreported()
    ensures CalmReached(UNREPORTED) && BatchFits(UNREPORTED)
  {
    CalmUnderway();
    var e := Started(2, 200, 10, true, true);
    assert 1 in ONE_TRIP.st.trips;
    assert StartNext(ONE_TRIP.st, 2, 200, 10, Some(0)).state.trips == TWO_TRIPS.st.trips;
    CalmNext(ONE_TRIP, e, TWO_TRIPS);
    CalmNext(TWO_TRIPS, Drive(50), UNREPORTED);
  }

  lemma FirstStopped()
    ensures STOPPED == Next(UNREPORTED, Stopped(1, true))
  {
    MinRemainingOfOne(2, TRIP_2);
    MinIntervalOfOne(2, TRIP_2);
    assert Without(UNREPORTED.st, 1).trips == map[2 := TRIP_2];
    assert Rebased(map[2 := TRIP_2], 50) == STOPPED.st.trips;
  }

  /** Stopping the shorter of two trips then lets the batch run past the end of the longer one. */
  lemma StopOverrunsTrip()
    ensures CalmReached(UNREPORTED)
    ensures STOPPED == Next(UNREPORTED, Stopped(1, true)) && OVERRUN == Next(STOPPED, Drive(160))
    ensures Acc(OVERRUN) < OVERRUN.st.distance && Driven(OVERRUN, 2) > OVERRUN.st.trips[2].distance
    ensures !StopFits(UNREPORTED, Stopped(1, true))
  {
    CalmUnreported();
    FirstStopped();
    assert 2 in STOPPED.st.trips && !Fits(STOPPED.st, 2);
    StopFitsIff(UNREPORTED, Stopped(1, true));
  }
}
