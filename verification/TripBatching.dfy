/**
 * The trip multiplexer of the batching adapter: many trip sessions share one
 * modem batch.  Each session keeps three distance offsets; the batch has one
 * ongoing distance and one interval.
 *
 * The class follows the handlers of the adapter, with the modem's answers as
 * parameters; its methods are proved against step functions on values.  The
 * lemmas run those steps against a modem that measures the distance driven.
 */
module TripBatching {
  import opened Wrappers
  import opened MapSearch

  const TWO_TO_THE_32 := 0x1_0000_0000
  type Uint32 = x: int | 0 <= x < TWO_TO_THE_32

  function Sub(a: Uint32, b: Uint32): Uint32 {
    if b <= a then a - b else a - b + TWO_TO_THE_32
  }

  function Add(a: Uint32, b: Uint32): Uint32 {
    if a + b < TWO_TO_THE_32 then a + b else a + b - TWO_TO_THE_32
  }

  /** Both wrap around as unsigned 32-bit arithmetic does, so adding undoes subtracting. */
  lemma Wraps(a: Uint32, b: Uint32)
    ensures Sub(a, b) == (a - b) % TWO_TO_THE_32 && Add(a, b) == (a + b) % TWO_TO_THE_32
    ensures Add(Sub(a, b), b) == a
  {
  }

  /**
   * TripSessionStatus: ongoing, thisTrip and onRestart are the accumulated
   * distances of the ongoing batch at the start of the trip, of this trip so
   * far, and of this trip at the last restart of the batch.
   */
  datatype Trip = Trip(ongoing: Uint32, thisTrip: Uint32, onRestart: Uint32, distance: Uint32, interval: Uint32)

  datatype State = State(
    trips: map<Uint32, Trip>,
    distance: Uint32,
    interval: Uint32,
    intervalDropped: bool,
    distanceDropped: bool)

  /** What the adapter asks of the modem. */
  datatype Request =
    | StartTrip(distance: Uint32, interval: Uint32)
    | RestartTrip(distance: Uint32, interval: Uint32)
    | StopTrip

  datatype Outcome = Outcome(state: State, sent: Option<Request>)

  // ----- The steps, on values -----

  /** The distance a trip has covered when the batch has accumulated acc. */
  function Tracked(t: Trip, acc: Uint32): Uint32 {
    Add(t.onRestart, Sub(acc, t.ongoing))
  }

  function Remainders(trips: map<Uint32, Trip>): map<Uint32, Uint32> {
    map id | id in trips :: Sub(trips[id].distance, trips[id].thisTrip)
  }

  function Intervals(trips: map<Uint32, Trip>): map<Uint32, Uint32> {
    map id | id in trips :: trips[id].interval
  }

  /** The start of a session while no trip is running. */
  function StartFirst(st: State, id: Uint32, distance: Uint32, interval: Uint32, accepted: bool): Outcome {
    Outcome(
      if accepted then
        st.(trips := st.trips[id := Trip(0, 0, 0, distance, interval)], distance := distance, interval := interval)
      else
        st.(trips := st.trips - {id}),
      Some(StartTrip(distance, interval)))
  }

  /** Every offset taken over into a batch that restarts from 0 when a session starts. */
  function Carried(trips: map<Uint32, Trip>): map<Uint32, Trip> {
    map id | id in trips :: trips[id].(ongoing := 0, onRestart := trips[id].thisTrip)
  }

  /** What a start takes the rest of the batch to be: all of it when the modem does not answer the query. */
  function Remaining(st: State, query: Option<Uint32>): Uint32 {
    if query.Some? then Sub(st.distance, query.value) else st.distance
  }

  /**
   * The start of a session while others run.  query is the distance the batch
   * has accumulated, or None when the query failed; the session is then not
   * saved.  The answer to the restart changes nothing.
   */
  function StartNext(st: State, id: Uint32, distance: Uint32, interval: Uint32, query: Option<Uint32>): Outcome {
    var remaining := Remaining(st, query);
    var trips := if query.Some? then st.trips[id := Trip(query.value, 0, 0, distance, interval)] else st.trips;
    var faster := interval < st.interval;
    if distance < remaining || faster then
      var newDistance := if distance < remaining then distance else remaining;
      var newInterval := if faster then interval else st.interval;
      Outcome(st.(trips := Carried(trips), distance := newDistance, interval := newInterval),
              Some(RestartTrip(newDistance, newInterval)))
    else
      Outcome(st.(trips := trips), None)
  }

  /** Every offset taken over into a batch restarted after acc, up to date. */
  function Rebased(trips: map<Uint32, Trip>, acc: Uint32): map<Uint32, Trip> {
    map id | id in trips ::
      trips[id].(ongoing := 0, thisTrip := Tracked(trips[id], acc), onRestart := Tracked(trips[id], acc))
  }

  /** Whether the batch takes the least remaining distance. */
  predicate Redistanced(st: State, acc: Uint32, minRemaining: Uint32) {
    if !st.distanceDropped && Sub(st.distance, acc) != 0 then minRemaining < Sub(st.distance, acc)
    else minRemaining != 0
  }

  /** Whether the batch takes the least interval. */
  predicate Retimed(st: State, minInterval: Uint32) {
    minInterval < st.interval || (minInterval != st.interval && st.intervalDropped)
  }

  /** restartTripBatching once the two minima are known; a refused restart changes nothing. */
  function RestartWith(st: State, acc: Uint32, minRemaining: Uint32, minInterval: Uint32, accepted: bool): Outcome {
    if Redistanced(st, acc, minRemaining) || Retimed(st, minInterval) then
      var newDistance := if Redistanced(st, acc, minRemaining) then minRemaining else st.distance;
      var newInterval := if Retimed(st, minInterval) then minInterval else st.interval;
      Outcome(if accepted then
                st.(trips := Rebased(st.trips, acc), distance := newDistance, interval := newInterval)
              else st,
              Some(RestartTrip(newDistance, newInterval)))
    else
      Outcome(st, None)
  }

  ghost function MinRemaining(trips: map<Uint32, Trip>): Uint32 {
    Smallest(Remainders(trips), trips.Keys, 0)
  }

  ghost function MinInterval(trips: map<Uint32, Trip>): Uint32 {
    Smallest(Intervals(trips), trips.Keys, 0)
  }

  /** restartTripBatching, with acc the distance it works with. */
  ghost function Restart(st: State, acc: Uint32, accepted: bool): Outcome {
    if st.trips == map[] then Outcome(st.(distance := 0, interval := 0), Some(StopTrip))
    else RestartWith(st, acc, MinRemaining(st.trips), MinInterval(st.trips), accepted)
  }

  predicate IsCompleted(t: Trip, acc: Uint32) {
    t.distance <= Tracked(t, acc)
  }

  function Completed(trips: map<Uint32, Trip>, acc: Uint32): set<Uint32> {
    set id | id in trips && IsCompleted(trips[id], acc)
  }

  /** The state once all trips but the pending ones have their new distance and the completed ones are dropped. */
  function DroppedBut(st: State, acc: Uint32, pending: set<Uint32>): State {
    var done := Completed(st.trips, acc) - pending;
    State(map id | id in st.trips && id !in done ::
            if id in pending then st.trips[id] else st.trips[id].(thisTrip := Tracked(st.trips[id], acc)),
          st.distance, st.interval,
          st.intervalDropped || (exists id :: id in done && st.trips[id].interval == st.interval),
          st.distanceDropped || (exists id :: id in done && st.trips[id].distance == st.distance))
  }

  function Dropped(st: State, acc: Uint32): State {
    DroppedBut(st, acc, {})
  }

  /** One round of the report loop. */
  function DropStep(st: State, acc: Uint32, k: Uint32): State
    requires k in st.trips
  {
    var trip := st.trips[k].(thisTrip := Tracked(st.trips[k], acc));
    if trip.distance <= trip.thisTrip then
      st.(trips := st.trips - {k},
          intervalDropped := st.intervalDropped || trip.interval == st.interval,
          distanceDropped := st.distanceDropped || trip.distance == st.distance)
    else
      st.(trips := st.trips[k := trip])
  }

  lemma DropOne(st: State, acc: Uint32, pending: set<Uint32>, k: Uint32)
    requires k in pending && k in st.trips
    ensures k in DroppedBut(st, acc, pending).trips && DroppedBut(st, acc, pending).trips[k] == st.trips[k]
    ensures DropStep(DroppedBut(st, acc, pending), acc, k) == DroppedBut(st, acc, pending - {k})
    ensures Completed(st.trips, acc) - (pending - {k})
            == Completed(st.trips, acc) - pending + (if IsCompleted(st.trips[k], acc) then {k} else {})
  {
    var done, done' := Completed(st.trips, acc) - pending, Completed(st.trips, acc) - (pending - {k});
    if k in Completed(st.trips, acc) {
      assert done' == done + {k};
    } else {
      assert done' == done;
    }
  }

  /** The report of an accumulated distance. */
  ghost function Report(st: State, acc: Uint32, accepted: bool): Outcome {
    if Completed(st.trips, acc) == {} then Outcome(Dropped(st, acc), None)
    else Restart(Dropped(st, acc), acc, accepted)
  }

  function Without(st: State, id: Uint32): State
    requires id in st.trips
  {
    st.(trips := st.trips - {id},
        intervalDropped := st.intervalDropped || st.trips[id].interval == st.interval,
        distanceDropped := st.distanceDropped || st.trips[id].distance == st.distance)
  }

  /** The stop of a session that is a trip, while the batch has accumulated acc. */
  ghost function Stop(st: State, id: Uint32, acc: Uint32, accepted: bool): Outcome
    requires id in st.trips
  {
    var left := Without(st, id);
    if left.trips == map[] then Outcome(left.(distance := 0, interval := 0), Some(StopTrip))
    else Restart(left, acc, accepted)
  }

  // ----- The adapter -----

  class BatchingAdapter {
    var tripSessions: map<Uint32, Trip>
    var ongoingTripDistance: Uint32
    var ongoingTripInterval: Uint32
    var tripWithOngoingIntervalDropped: bool
    var tripWithOngoingDistanceDropped: bool
    /** Everything sent to the modem so far. */
    ghost var sent: seq<Request>

    function View(): State
      reads this
    {
      State(tripSessions, ongoingTripDistance, ongoingTripInterval,
            tripWithOngoingIntervalDropped, tripWithOngoingDistanceDropped)
    }

    /** The adapter has moved from one state to the outcome's state and sent what the outcome says. */
    twostate predicate Did(outcome: Outcome)
      reads this
    {
      View() == outcome.state
      && sent == old(sent) + (match outcome.sent case None => [] case Some(request) => [request])
    }

    constructor ()
      ensures View() == State(map[], 0, 0, false, false) && sent == []
    {
      tripSessions := map[];
      ongoingTripDistance, ongoingTripInterval := 0, 0;
      tripWithOngoingIntervalDropped, tripWithOngoingDistanceDropped := false, false;
      sent := [];
    }

    /**
     * startTripBatchingMultiplex.  accepted is the modem's answer to a first
     * start; query is its answer about the accumulated distance when trips are
     * running, or None for an error.
     */
    method StartTripBatchingMultiplex(
        id: Uint32, distance: Uint32, interval: Uint32, accepted: bool, query: Option<Uint32>)
      modifies this
      ensures Did(if old(tripSessions) == map[] then StartFirst(old(View()), id, distance, interval, accepted)
                  else StartNext(old(View()), id, distance, interval, query))
    {
      if |tripSessions| == 0 {
        tripSessions := tripSessions[id := Trip(0, 0, 0, distance, interval)];
        sent := sent + [StartTrip(distance, interval)];
        if accepted {
          ongoingTripDistance, ongoingTripInterval := distance, interval;
        } else {
          tripSessions := tripSessions - {id};
        }
      } else {
        var newDistance, newInterval, needsRestart := ongoingTripDistance, ongoingTripInterval, false;
        if newInterval > interval {
          newInterval, needsRestart := interval, true;
        }
        if query.None? {
          if distance < newDistance {
            newDistance, needsRestart := distance, true;
          }
        } else {
          var remaining := Sub(newDistance, query.value);
          if distance < remaining {
            newDistance, needsRestart := distance, true;
          } else if needsRestart {
            newDistance := remaining;
          }
          tripSessions := tripSessions[id := Trip(query.value, 0, 0, distance, interval)];
        }
        if needsRestart {
          ongoingTripDistance, ongoingTripInterval := newDistance, newInterval;
          CarryOffsets();
          sent := sent + [RestartTrip(newDistance, newInterval)];
        }
      }
    }

    /** The loop that resets the offsets when a session start restarts the batch. */
    method CarryOffsets()
      modifies this`tripSessions
      ensures tripSessions == Carried(old(tripSessions))
    {
      var before, keys := tripSessions, tripSessions.Keys;
      while keys != {}
        invariant keys <= before.Keys && tripSessions.Keys == before.Keys
        invariant forall k :: k in before ==>
                    tripSessions[k] == if k in keys then before[k] else Carried(before)[k]
        decreases |keys|
      {
        var k :| k in keys;
        tripSessions := tripSessions[k := before[k].(ongoing := 0, onRestart := before[k].thisTrip)];
        keys := keys - {k};
      }
    }

    /** The loop of MsgReportCompletedTrips: update every trip and erase the completed ones. */
    method DropCompleted(acc: Uint32) returns (completed: set<Uint32>)
      modifies this
      ensures View() == Dropped(old(View()), acc) && sent == old(sent)
      ensures completed == Completed(old(tripSessions), acc)
    {
      var keys := tripSessions.Keys;
      completed := {};
      ghost var before := View();
      assert before.trips == DroppedBut(before, acc, keys).trips;
      while keys != {}
        invariant keys <= before.trips.Keys
        invariant sent == old(sent) && completed == Completed(before.trips, acc) - keys
        invariant View() == DroppedBut(before, acc, keys)
        decreases |keys|
      {
        var k :| k in keys;
        DropOne(before, acc, keys, k);
        var isCompleted := UpdateTrip(k, acc);
        completed := if isCompleted then completed + {k} else completed;
        keys := keys - {k};
      }
    }

    method UpdateTrip(k: Uint32, acc: Uint32) returns (isCompleted: bool)
      requires k in tripSessions
      modifies this
      ensures isCompleted <==> IsCompleted(old(tripSessions)[k], acc)
      ensures View() == DropStep(old(View()), acc, k) && sent == old(sent)
    {
      var trip := tripSessions[k].(thisTrip := Tracked(tripSessions[k], acc));
      tripSessions := tripSessions[k := trip];
      isCompleted := trip.distance <= trip.thisTrip;
      if isCompleted {
        tripSessions := tripSessions - {k};
        if trip.interval == ongoingTripInterval {
          tripWithOngoingIntervalDropped := true;
        }
        if trip.distance == ongoingTripDistance {
          tripWithOngoingDistanceDropped := true;
        }
        assert tripSessions == old(tripSessions) - {k};
      }
    }

    /** MsgReportCompletedTrips::proc. */
    method ReportCompletedTrips(acc: Uint32, accepted: bool) returns (completed: set<Uint32>)
      modifies this
      ensures completed == Completed(old(tripSessions), acc)
      ensures Did(Report(old(View()), acc, accepted))
    {
      completed := DropCompleted(acc);
      if completed != {} {
        RestartTripBatching(acc, accepted);
      }
    }

    /**
     * stopTripBatchingMultiplex for a trip session.  The answer to the stop of
     * the last one changes nothing here; accepted is that to a restart.
     */
    method StopTripBatchingMultiplex(id: Uint32, acc: Uint32, accepted: bool)
      requires id in tripSessions
      modifies this
      ensures Did(Stop(old(View()), id, acc, accepted))
    {
      if |tripSessions| == 1 {
        LastTrip(tripSessions, id);
        sent := sent + [StopTrip];
      } else {
        NotLastTrip(tripSessions, id);
      }
      var trip := tripSessions[id];
      if trip.interval == ongoingTripInterval {
        tripWithOngoingIntervalDropped := true;
      }
      if trip.distance == ongoingTripDistance {
        tripWithOngoingDistanceDropped := true;
      }
      tripSessions := tripSessions - {id};
      assert View() == Without(old(View()), id);
      if |tripSessions| == 0 {
        ongoingTripDistance, ongoingTripInterval := 0, 0;
      } else {
        RestartTripBatching(acc, accepted);
      }
    }

    /**
     * restartTripBatching.  acc is the reported distance or the one the modem
     * answers, whichever the caller asks for.
     */
    method RestartTripBatching(acc: Uint32, accepted: bool)
      modifies this
      ensures Did(Restart(old(View()), acc, accepted))
    {
      if |tripSessions| == 0 {
        sent := sent + [StopTrip];
        ongoingTripDistance, ongoingTripInterval := 0, 0;
        return;
      }
      var minRemaining := FindSmallest(Remainders(tripSessions), tripSessions.Keys);
      var minInterval := FindSmallest(Intervals(tripSessions), tripSessions.Keys);
      OnDistanceAnswer(acc, minRemaining, minInterval, accepted);
    }

    /** The callback of restartTripBatching that decides on the restart, and that of the restart. */
    method OnDistanceAnswer(acc: Uint32, minRemaining: Uint32, minInterval: Uint32, accepted: bool)
      modifies this
      ensures Did(RestartWith(old(View()), acc, minRemaining, minInterval, accepted))
    {
      var newDistance, newInterval, needsRestart := ongoingTripDistance, ongoingTripInterval, false;
      if !tripWithOngoingDistanceDropped && Sub(newDistance, acc) != 0 {
        if minRemaining < Sub(newDistance, acc) {
          newDistance, needsRestart := minRemaining, true;
        }
      } else if minRemaining != 0 {
        newDistance, needsRestart := minRemaining, true;
      }
      if minInterval < newInterval || (minInterval != newInterval && tripWithOngoingIntervalDropped) {
        newInterval, needsRestart := minInterval, true;
      }
      if needsRestart {
        sent := sent + [RestartTrip(newDistance, newInterval)];
        if accepted {
          RebaseOffsets(acc);
          ongoingTripDistance, ongoingTripInterval := newDistance, newInterval;
        }
      }
    }

    /** The loop that brings every trip up to date when a restart is accepted. */
    method RebaseOffsets(acc: Uint32)
      modifies this`tripSessions
      ensures tripSessions == Rebased(old(tripSessions), acc)
    {
      var before, keys := tripSessions, tripSessions.Keys;
      while keys != {}
        invariant keys <= before.Keys && tripSessions.Keys == before.Keys
        invariant forall k :: k in before ==>
                    tripSessions[k] == if k in keys then before[k] else Rebased(before, acc)[k]
        decreases |keys|
      {
        var k :| k in keys;
        var total := Tracked(before[k], acc);
        tripSessions := tripSessions[k := before[k].(ongoing := 0, thisTrip := total, onRestart := total)];
        keys := keys - {k};
      }
    }
  }

  lemma LastTrip(trips: map<Uint32, Trip>, id: Uint32)
    requires id in trips && |trips| == 1
    ensures trips - {id} == map[]
  {
    assert |trips.Keys - {id}| == 0;
    assert (trips - {id}).Keys == trips.Keys - {id};
  }

  lemma NotLastTrip(trips: map<Uint32, Trip>, id: Uint32)
    requires id in trips && |trips| != 1
    ensures trips - {id} != map[]
  {
    assert |trips.Keys - {id}| == |trips| - 1;
    assert (trips - {id}).Keys == trips.Keys - {id};
  }
}
