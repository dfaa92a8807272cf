/**
 * What the modem runs against what the trip sessions asked for: the batch of
 * the modem is the one of the adapter, its interval is the least any live trip
 * wants, and each trip is the one its client started.
 */
module TripModem {
  import opened Wrappers
  import opened MapSearch
  import opened TripBatching
  import opened TripRuns
  import opened TripFits

  /** The trip is over with the event: it has covered its distance at a report, or is stopped. */
  predicate Ends(w: World, e: Event, id: Uint32)
    requires Measurable(w) && id in w.st.trips
  {
    (e.Reported? && IsCompleted(w.st.trips[id], Acc(w))) || (e.Stopped? && e.id == id)
  }

  predicate AllEnd(w: World, e: Event)
    requires Measurable(w)
  {
    forall id :: id in w.st.trips ==> Ends(w, e, id)
  }

  // ----- Each live trip is what its client asked for -----

  /** The event adds a trip under its id: the first start is granted, or the query of a further one answered. */
  predicate Adds(w: World, e: Event) {
    e.Started? && if w.st.trips == map[] then e.accepted else e.queried
  }

  lemma RestartedTrips(st: State, acc: Uint32, accepted: bool, id: Uint32)
    ensures var after := Restart(st, acc, accepted).state;
            && (id in after.trips <==> id in st.trips)
            && (id in st.trips ==>
                  after.trips[id].distance == st.trips[id].distance
                  && after.trips[id].interval == st.trips[id].interval)
            && after.intervalDropped == st.intervalDropped && after.distanceDropped == st.distanceDropped
  {
  }

  /** Live are the trips that were live or are added, but for those that end; all keep what they were started with. */
  lemma TripsAsAsked(w: World, e: Event, id: Uint32)
    requires Measurable(w) && Enabled(w, e)
    ensures var after := Next(w, e);
            && (id in after.st.trips <==> (Adds(w, e) && e.id == id) || (id in w.st.trips && !Ends(w, e, id)))
            && (id in after.st.trips ==>
                  var t := after.st.trips[id];
                  if Adds(w, e) && e.id == id then t.distance == e.distance && t.interval == e.interval
                  else t.distance == w.st.trips[id].distance && t.interval == w.st.trips[id].interval)
  {
    match e
    case Drive(_) =>
    case Started(_, _, _, _, _) =>
    case Reported(accepted) => RestartedTrips(Dropped(w.st, Acc(w)), Acc(w), accepted, id);
    case Stopped(k, accepted) => RestartedTrips(Without(w.st, k), Acc(w), accepted, id);
  }

  /** Each dropped flag records whether a trip with the ongoing interval, or distance, has ever ended. */
  lemma FlagsRecordEnds(w: World, e: Event)
    requires Measurable(w) && Enabled(w, e)
    ensures Next(w, e).st.intervalDropped <==>
            w.st.intervalDropped
            || exists id :: id in w.st.trips && Ends(w, e, id) && w.st.trips[id].interval == w.st.interval
    ensures Next(w, e).st.distanceDropped <==>
            w.st.distanceDropped
            || exists id :: id in w.st.trips && Ends(w, e, id) && w.st.trips[id].distance == w.st.distance
  {
    match e
    case Drive(_) =>
    case Started(_, _, _, _, _) =>
    case Reported(accepted) =>
      assert forall id :: id in w.st.trips ==> (Ends(w, e, id) <==> id in Completed(w.st.trips, Acc(w)));
      ReportFlags(w.st, Acc(w), accepted);
    case Stopped(id, accepted) => StopFlags(w.st, id, Acc(w), accepted);
  }

  lemma ReportFlags(st: State, acc: Uint32, accepted: bool)
    ensures Report(st, acc, accepted).state.intervalDropped == Dropped(st, acc).intervalDropped
    ensures Report(st, acc, accepted).state.distanceDropped == Dropped(st, acc).distanceDropped
  {
  }

  lemma StopFlags(st: State, id: Uint32, acc: Uint32, accepted: bool)
    requires id in st.trips
    ensures Stop(st, id, acc, accepted).state.intervalDropped == Without(st, id).intervalDropped
    ensures Stop(st, id, acc, accepted).state.distanceDropped == Without(st, id).distanceDropped
  {
  }

  /** A further start asks for the shorter of its distance and the rest, at the shorter interval, or for nothing. */
  lemma StartAsks(w: World, e: Event)
    requires Measurable(w) && e.Started? && Acc(w) <= w.st.distance
    ensures var rest := if e.queried then w.st.distance - Acc(w) else w.st.distance;
            StartNext(w.st, e.id, e.distance, e.interval, Query(w, e)).sent
            == if e.distance < rest || e.interval < w.st.interval then
                 Some(RestartTrip(if e.distance < rest then e.distance else rest,
                                  if e.interval < w.st.interval then e.interval else w.st.interval))
               else None
  {
  }

  /** After a report all live trips are up to date, so a start that follows at once keeps the tracking exact. */
  lemma ReportBringsUpToDate(w: World, accepted: bool, id: Uint32)
    requires NoneAhead(w)
    ensures var after := Next(w, Reported(accepted));
            id in after.st.trips ==> UpToDate(after.st.trips[id], Acc(after))
  {
    var dropped := w.(st := Dropped(w.st, Acc(w)));
    DropKeepsNoneAhead(w);
    if id in dropped.st.trips {
      TrackedExact(dropped, id);
      ReportShape(w.st, Acc(w), accepted);
    }
  }

  // ----- The modem runs the batch of the adapter -----

  predicate InStep(w: World) {
    w.modem == if w.st.trips == map[] then None else Some(Batch(w.st.distance, w.st.interval))
  }

  /**
   * A start that restarts the batch is granted, or asks for the batch that
   * already runs; and the modem takes the stop when the last trip ends.
   */
  predicate KeepsInStep(w: World, e: Event)
    requires Measurable(w)
  {
    && (Restarts(w, e) && !e.accepted ==> NewDistance(w, e) == w.st.distance && w.st.interval <= e.interval)
    && ((e.Reported? || e.Stopped?) && w.st.trips != map[] && AllEnd(w, e) ==> e.accepted)
  }

  /** A restart asks for the batch that the adapter then takes for running. */
  lemma RestartAsks(st: State, acc: Uint32, accepted: bool, modem: Option<Batch>)
    requires st.trips != map[] && modem == Some(Batch(st.distance, st.interval))
    ensures var o := Restart(st, acc, accepted);
            o.state.trips.Keys == st.trips.Keys
            && Ran(modem, o.sent, accepted) == Some(Batch(o.state.distance, o.state.interval))
  {
  }

  /** Every event keeps the modem in step if and only if it is of that kind. */
  lemma NextInStepIff(w: World, e: Event)
    requires Measurable(w) && Enabled(w, e) && InStep(w)
    ensures InStep(Next(w, e)) <==> KeepsInStep(w, e)
  {
    match e
    case Drive(_) =>
    case Started(_, _, _, _, _) => StartInStepIff(w, e);
    case Reported(accepted) => ReportInStepIff(w, e);
    case Stopped(_, _) => StopInStepIff(w, e);
  }

  lemma StopInStepIff(w: World, e: Event)
    requires Measurable(w) && e.Stopped? && e.id in w.st.trips && InStep(w)
    ensures InStep(Next(w, e)) <==> KeepsInStep(w, e)
  {
    var left := Without(w.st, e.id);
    if left.trips != map[] {
      RestartAsks(left, Acc(w), e.accepted, w.modem);
      var k :| k in left.trips;
      assert !Ends(w, e, k);
    } else {
      assert forall id :: id in w.st.trips ==> id in left.trips || id == e.id;
    }
  }

  lemma StartInStepIff(w: World, e: Event)
    requires Measurable(w) && e.Started? && InStep(w)
    ensures InStep(Next(w, e)) <==> KeepsInStep(w, e)
  {
    if w.st.trips != map[] {
      var k :| k in w.st.trips;
      TripsAsAsked(w, e, k);
      assert Next(w, e).st.trips != map[];
    } else if e.accepted {
      assert e.id in Next(w, e).st.trips;
    }
  }

  lemma ReportInStepIff(w: World, e: Event)
    requires Measurable(w) && e.Reported? && InStep(w)
    ensures InStep(Next(w, e)) <==> KeepsInStep(w, e)
  {
    var left := Dropped(w.st, Acc(w));
    ReportLeaves(w, e);
    if id :| id in Completed(w.st.trips, Acc(w)) {
      if left.trips != map[] {
        RestartAsks(left, Acc(w), e.accepted, w.modem);
      }
    }
  }

  /** Nothing is left exactly if all trips end. */
  lemma ReportLeaves(w: World, e: Event)
    requires Measurable(w) && e.Reported?
    ensures Dropped(w.st, Acc(w)).trips == map[] <==> AllEnd(w, e)
    ensures Completed(w.st.trips, Acc(w)) == {} ==> Dropped(w.st, Acc(w)).trips.Keys == w.st.trips.Keys
  {
    var left := Dropped(w.st, Acc(w)).trips;
    assert forall id :: id in left <==> id in w.st.trips && !Ends(w, e, id);
    if AllEnd(w, e) {
      assert forall id :: id !in left;
      assert left == map[];
    }
    if Completed(w.st.trips, Acc(w)) == {} {
      assert forall id :: id in w.st.trips ==> id !in Completed(w.st.trips, Acc(w));
    }
  }

  /** While the batch is not above its ongoing distance, a refused restart at a start always leaves it out of step. */
  lemma RefusedStartOutOfStep(w: World, e: Event)
    requires Measurable(w) && InStep(w) && Restarts(w, e) && Acc(w) <= w.st.distance && !e.accepted
    ensures !InStep(Next(w, e))
  {
    NextInStepIff(w, e);
  }

  lemma {:induction false} RunInStep(ws: seq<World>, es: seq<Event>, i: nat)
    requires IsRun(ws, es) && i < |ws|
    requires forall k :: 0 <= k < i ==> Measurable(ws[k]) && KeepsInStep(ws[k], es[k])
    ensures InStep(ws[i])
  {
    if i == 0 {
    } else {
      RunInStep(ws, es, i - 1);
      assert StepOf(ws, es, i - 1);
      NextInStepIff(ws[i - 1], es[i - 1]);
    }
  }

  /** Without trips the adapter has no ongoing batch. */
  predicate IdleAtRest(st: State) {
    st.trips == map[] ==> st.distance == 0 && st.interval == 0
  }

  lemma NextIdleAtRest(w: World, e: Event)
    requires Measurable(w) && Enabled(w, e) && IdleAtRest(w.st)
    ensures IdleAtRest(Next(w, e).st)
  {
    match e
    case Drive(_) =>
    case Started(_, _, _, _, _) => StartIdleAtRest(w, e);
    case Reported(accepted) => RestartIdleAtRest(Dropped(w.st, Acc(w)), Acc(w), accepted);
      ReportLeaves(w, e);
    case Stopped(id, accepted) => RestartIdleAtRest(Without(w.st, id), Acc(w), accepted);
  }

  lemma StartIdleAtRest(w: World, e: Event)
    requires Measurable(w) && e.Started? && IdleAtRest(w.st)
    ensures IdleAtRest(Next(w, e).st)
  {
    if w.st.trips != map[] {
      var k :| k in w.st.trips;
      TripsAsAsked(w, e, k);
    } else if e.accepted {
      assert e.id in Next(w, e).st.trips;
    }
  }

  lemma RestartIdleAtRest(st: State, acc: Uint32, accepted: bool)
    ensures IdleAtRest(Restart(st, acc, accepted).state)
  {
    if st.trips != map[] {
      var k :| k in st.trips;
      RestartedTrips(st, acc, accepted, k);
    }
  }

  lemma {:induction false} RunIdleAtRest(ws: seq<World>, es: seq<Event>, i: nat)
    requires IsRun(ws, es) && i < |ws|
    ensures IdleAtRest(ws[i].st)
  {
    if i == 0 {
    } else {
      RunIdleAtRest(ws, es, i - 1);
      assert StepOf(ws, es, i - 1);
      NextIdleAtRest(ws[i - 1], es[i - 1]);
    }
  }

  // ----- The interval is the least that a live trip wants -----

  predicate Positive(st: State) {
    forall id :: id in st.trips ==> st.trips[id].interval > 0
  }

  predicate IntervalExact(st: State) {
    && (st.trips != map[] ==> exists id :: id in st.trips && st.trips[id].interval == st.interval)
    && forall id :: id in st.trips ==> st.interval <= st.trips[id].interval
  }

  /**
   * A failed query does not come with a shorter interval; and when trips end, a
   * restart is not refused unless another trip has the ongoing interval.
   */
  predicate KeepsInterval(w: World, e: Event)
    requires Measurable(w)
  {
    && (Restarts(w, e) && !e.queried ==> w.st.interval <= e.interval)
    && ((e.Reported? || e.Stopped?) && !e.accepted && !AllEnd(w, e) ==>
          exists id :: id in w.st.trips && !Ends(w, e, id) && w.st.trips[id].interval == w.st.interval)
  }

  /** The restart takes the least interval of the trips it is left with, whichever has ended. */
  lemma RestartInterval(st: State, acc: Uint32, accepted: bool)
    requires st.trips != map[] && Positive(st) && forall id :: id in st.trips ==> st.interval <= st.trips[id].interval
    requires !st.intervalDropped ==> exists id :: id in st.trips && st.trips[id].interval == st.interval
    ensures var after := Restart(st, acc, accepted).state;
            IntervalExact(after) <==>
            (accepted || exists id :: id in st.trips && st.trips[id].interval == st.interval)
  {
    var after, least := Restart(st, acc, accepted).state, MinInterval(st.trips);
    SmallestIsMinimum(Intervals(st.trips), st.trips.Keys, 0);
    assert exists k :: k in st.trips;
    var k :| k in st.trips.Keys && Intervals(st.trips)[k] == least;
    forall id
      ensures id in after.trips <==> id in st.trips
      ensures id in st.trips ==> after.trips[id].interval == st.trips[id].interval && least <= st.trips[id].interval
    {
      RestartedTrips(st, acc, accepted, id);
      assert id in st.trips ==> id in st.trips.Keys;
    }
    assert k in after.trips && after.trips[k].interval == least;
    if accepted {
      assert after.interval == least;
    } else {
      assert after.interval == st.interval;
    }
  }

  /**
   * An accepted restart takes the least interval of the trips if one of them
   * wants a shorter one than the ongoing, or a trip with the ongoing interval
   * has ended; and otherwise the interval stays.
   */
  lemma RestartTakesInterval(st: State, acc: Uint32, accepted: bool)
    requires st.trips != map[] && Positive(st)
    ensures var after := Restart(st, acc, accepted).state;
            if accepted
               && (st.intervalDropped || exists id :: id in st.trips && st.trips[id].interval < st.interval) then
              IntervalExact(after)
            else after.interval == st.interval
  {
    var after, least := Restart(st, acc, accepted).state, MinInterval(st.trips);
    SmallestIsMinimum(Intervals(st.trips), st.trips.Keys, 0);
    assert exists k :: k in st.trips;
    var k :| k in st.trips.Keys && Intervals(st.trips)[k] == least;
    forall id
      ensures id in after.trips <==> id in st.trips
      ensures id in st.trips ==> after.trips[id].interval == st.trips[id].interval && least <= st.trips[id].interval
    {
      RestartedTrips(st, acc, accepted, id);
      assert id in st.trips ==> id in st.trips.Keys;
    }
    assert k in after.trips && after.trips[k].interval == least && st.trips[k].interval == least;
  }

  lemma StartIntervalIff(w: World, e: Event)
    requires Measurable(w) && e.Started? && Positive(w.st) && IntervalExact(w.st) && e.id !in w.st.trips
    ensures IntervalExact(Next(w, e).st) <==> KeepsInterval(w, e)
  {
    var after := Next(w, e);
    forall id
      ensures id in after.st.trips <==> (Adds(w, e) && e.id == id) || id in w.st.trips
      ensures id in after.st.trips ==>
                after.st.trips[id].interval == if Adds(w, e) && e.id == id then e.interval else w.st.trips[id].interval
    {
      TripsAsAsked(w, e, id);
    }
    if w.st.trips != map[] {
      var k :| k in w.st.trips && w.st.trips[k].interval == w.st.interval;
      assert k in after.st.trips && after.st.trips[k].interval == w.st.interval;
    }
    if Adds(w, e) {
      assert e.id in after.st.trips;
    }
  }

  /** The trips left when some end, before any restart. */
  predicate IsLeft(w: World, e: Event, left: State)
    requires Measurable(w)
  {
    && (forall id :: id in left.trips <==> id in w.st.trips && !Ends(w, e, id))
    && (forall id :: id in left.trips ==> left.trips[id].interval == w.st.trips[id].interval)
    && left.interval == w.st.interval
  }

  lemma EndedInterval(w: World, e: Event, left: State, acc: Uint32)
    requires Measurable(w) && (e.Reported? || e.Stopped?) && Positive(w.st) && IntervalExact(w.st)
    requires IsLeft(w, e, left) && left.trips != map[]
    requires left.intervalDropped <==>
             w.st.intervalDropped
             || exists id :: id in w.st.trips && Ends(w, e, id) && w.st.trips[id].interval == w.st.interval
    ensures IntervalExact(Restart(left, acc, e.accepted).state) <==> KeepsInterval(w, e)
  {
    var k :| k in w.st.trips && w.st.trips[k].interval == w.st.interval;
    assert !left.intervalDropped ==> k in left.trips && left.trips[k].interval == left.interval;
    RestartInterval(left, acc, e.accepted);
    LeftWithInterval(w, e, left);
    assert !AllEnd(w, e) by {
      var some :| some in left.trips;
      assert !Ends(w, e, some);
    }
    assert !Restarts(w, e);
  }

  lemma LeftWithInterval(w: World, e: Event, left: State)
    requires Measurable(w) && IsLeft(w, e, left)
    ensures (exists id :: id in left.trips && left.trips[id].interval == left.interval) <==>
            exists id :: id in w.st.trips && !Ends(w, e, id) && w.st.trips[id].interval == w.st.interval
  {
    if id :| id in w.st.trips && !Ends(w, e, id) && w.st.trips[id].interval == w.st.interval {
      assert id in left.trips && left.trips[id].interval == left.interval;
    }
  }

  /** Every event keeps the interval exact if and only if it is of that kind. */
  lemma NextIntervalExactIff(w: World, e: Event)
    requires Measurable(w) && Enabled(w, e) && Positive(w.st) && IntervalExact(w.st)
    requires e.Started? ==> e.id !in w.st.trips
    ensures IntervalExact(Next(w, e).st) <==> KeepsInterval(w, e)
  {
    match e
    case Drive(_) =>
    case Started(_, _, _, _, _) => StartIntervalIff(w, e);
    case Reported(_) => ReportIntervalIff(w, e);
    case Stopped(_, _) => StopIntervalIff(w, e);
  }

  lemma StopIntervalIff(w: World, e: Event)
    requires Measurable(w) && e.Stopped? && e.id in w.st.trips && Positive(w.st) && IntervalExact(w.st)
    ensures IntervalExact(Next(w, e).st) <==> KeepsInterval(w, e)
  {
    var left := Without(w.st, e.id);
    if left.trips != map[] {
      EndedInterval(w, e, left, Acc(w));
    } else {
      assert forall id :: id in w.st.trips && id !in left.trips ==> Ends(w, e, id);
      assert forall id :: id in w.st.trips ==> id !in left.trips;
    }
  }

  lemma ReportIntervalIff(w: World, e: Event)
    requires Measurable(w) && e.Reported? && Positive(w.st) && IntervalExact(w.st)
    ensures IntervalExact(Next(w, e).st) <==> KeepsInterval(w, e)
  {
    var left := Dropped(w.st, Acc(w));
    if Completed(w.st.trips, Acc(w)) == {} {
      assert forall id :: id in w.st.trips ==> id !in Completed(w.st.trips, Acc(w));
      assert forall id :: id in w.st.trips ==> id in left.trips && left.trips[id].interval == w.st.trips[id].interval;
    } else if left.trips != map[] {
      assert forall id :: id in w.st.trips && Ends(w, e, id) <==> id in Completed(w.st.trips, Acc(w));
      EndedInterval(w, e, left, Acc(w));
    } else {
      assert forall id :: id in w.st.trips && id !in left.trips ==> Ends(w, e, id);
      assert forall id :: id in w.st.trips ==> id !in left.trips;
    }
  }

  lemma NextPositive(w: World, e: Event)
    requires Measurable(w) && Enabled(w, e) && Positive(w.st) && (e.Started? ==> e.interval > 0)
    ensures Positive(Next(w, e).st)
  {
    forall id | id in Next(w, e).st.trips
      ensures Next(w, e).st.trips[id].interval > 0
    {
      TripsAsAsked(w, e, id);
    }
  }

  /** Sessions start under new ids with positive intervals. */
  predicate IsProper(w: World, e: Event) {
    e.Started? ==> e.id !in w.st.trips && e.interval > 0
  }

  lemma {:induction false} RunInterval(ws: seq<World>, es: seq<Event>, i: nat)
    requires IsRun(ws, es) && i < |ws|
    requires forall k :: 0 <= k < i ==> Measurable(ws[k]) && IsProper(ws[k], es[k]) && KeepsInterval(ws[k], es[k])
    ensures Positive(ws[i].st) && IntervalExact(ws[i].st)
  {
    if i == 0 {
    } else {
      RunInterval(ws, es, i - 1);
      assert StepOf(ws, es, i - 1) && IsProper(ws[i - 1], es[i - 1]) && KeepsInterval(ws[i - 1], es[i - 1]);
      NextPositive(ws[i - 1], es[i - 1]);
      NextIntervalExactIff(ws[i - 1], es[i - 1]);
    }
  }

  /** Over runs of such events the modem runs the ongoing distance, at the least interval of the live trips. */
  lemma ModemRunsLeastInterval(ws: seq<World>, es: seq<Event>, i: nat, id: Uint32)
    requires IsRun(ws, es) && i < |ws| && id in ws[i].st.trips
    requires forall k :: 0 <= k < i ==>
               Measurable(ws[k]) && IsProper(ws[k], es[k]) && KeepsInterval(ws[k], es[k]) && KeepsInStep(ws[k], es[k])
    ensures ws[i].modem.Some? && ws[i].modem.value.distance == ws[i].st.distance
    ensures ws[i].modem.value.interval <= ws[i].st.trips[id].interval
    ensures exists k :: k in ws[i].st.trips && ws[i].st.trips[k].interval == ws[i].modem.value.interval
  {
    RunInStep(ws, es, i);
    RunInterval(ws, es, i);
  }
}
