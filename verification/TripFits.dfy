/**
 * The shared batch against the ends of its trips: that it never runs past one,
 * and that some trip ends with it.
 */
module TripFits {
  import opened Wrappers
  import opened MapSearch
  import opened TripBatching
  import opened TripRuns

  // ----- The batch never runs past the end of a trip -----

  /** What is left of the batch, on top of what the trip has covered, is within the trip. */
  predicate Fits(st: State, id: Uint32)
    requires id in st.trips
  {
    var t := st.trips[id];
    st.distance + t.onRestart - t.ongoing <= t.distance && t.thisTrip < t.distance
  }

  ghost predicate BatchFits(w: World) {
    NoneAhead(w) && forall id :: id in w.st.trips ==> Fits(w.st, id)
  }

  /** What the trip has ahead of it by its tracked distance. */
  function Ahead(t: Trip, acc: Uint32): int {
    t.distance - Tracked(t, acc)
  }

  /** The distance of the batch that a start which restarts it asks for. */
  function NewDistance(w: World, e: Event): Uint32
    requires Measurable(w) && e.Started?
  {
    if e.distance < Remaining(w.st, Query(w, e)) then e.distance else Remaining(w.st, Query(w, e))
  }

  /** A start that is safe and, if it restarts the batch without knowing its distance, fits all trips up to date. */
  predicate StartFits(w: World, e: Event)
    requires Measurable(w) && e.Started?
  {
    && SafeStart(w, e)
    && (Restarts(w, e) && !e.queried ==>
          forall id :: id in w.st.trips ==> NewDistance(w, e) <= w.st.trips[id].distance - w.st.trips[id].thisTrip)
  }

  /** The restart after a stop takes the least remaining distance. */
  predicate Recounts(left: State, acc: Uint32) {
    left.distanceDropped || acc == left.distance
  }

  /**
   * The restart after a stop takes the least remaining distance, and a trip
   * that is nearest to its end is up to date; or it is for the interval alone,
   * and all trips have as much as the whole ongoing distance ahead; or there is
   * none.
   */
  ghost predicate RestartStaysWithin(w: World)
    requires Measurable(w)
  {
    if Recounts(w.st, Acc(w)) then exists id :: id in w.st.trips && NearestUpToDate(w.st.trips, id, Acc(w))
    else Retimed(w.st, MinInterval(w.st.trips)) ==>
      forall id :: id in w.st.trips ==> w.st.distance <= Ahead(w.st.trips[id], Acc(w))
  }

  /** The world without the stopped trip. */
  function Left(w: World, e: Event): World
    requires e.Stopped? && e.id in w.st.trips
  {
    w.(st := Without(w.st, e.id))
  }

  /** Such a stop, or one of the only trip, or one whose restart is refused. */
  ghost predicate StopFits(w: World, e: Event)
    requires Measurable(w) && e.Stopped? && e.id in w.st.trips
  {
    Left(w, e).st.trips != map[] && e.accepted ==> RestartStaysWithin(Left(w, e))
  }

  predicate NearestUpToDate(trips: map<Uint32, Trip>, id: Uint32, acc: Uint32)
    requires id in trips
  {
    UpToDate(trips[id], acc) && forall k :: k in trips ==> Ahead(trips[id], acc) <= Ahead(trips[k], acc)
  }

  /** While trips run the batch is not above its ongoing distance when the adapter hears of it; trips are not empty. */
  predicate Timely(w: World, e: Event)
    requires Measurable(w)
  {
    (e.Started? ==> e.distance > 0) && (!e.Drive? && w.st.trips != map[] ==> Acc(w) <= w.st.distance)
  }

  ghost predicate KeepsFit(w: World, e: Event)
    requires Measurable(w) && Enabled(w, e)
  {
    (e.Started? ==> StartFits(w, e)) && (e.Stopped? ==> StopFits(w, e))
  }

  // Starts

  lemma CarriedFitsIff(w: World, e: Event, after: World)
    requires BatchFits(w) && Restarts(w, e) && Timely(w, e)
    requires IsCarried(w, e, after) && NoneAhead(after) && after.st.distance == NewDistance(w, e)
    ensures BatchFits(after) <==> StartFits(w, e)
  {
    CarriedNoneAheadIff(w, e, after);
    if e.queried {
      forall id | id in after.st.trips
        ensures Fits(after.st, id)
      {
        assert id != e.id ==> id in w.st.trips && Fits(w.st, id);
      }
    } else {
      forall id | id in w.st.trips
        ensures id in after.st.trips
        ensures Fits(after.st, id) <==>
                NewDistance(w, e) <= w.st.trips[id].distance - w.st.trips[id].thisTrip
      {
        assert Fits(w.st, id);
      }
    }
  }

  lemma StartFitsIff(w: World, e: Event)
    requires BatchFits(w) && e.Started? && Timely(w, e)
    ensures BatchFits(Next(w, e)) <==> StartFits(w, e)
  {
    StartNoneAheadIff(w, e);
    if Restarts(w, e) {
      RestartCarries(w, e);
      if NoneAhead(Next(w, e)) {
        CarriedFitsIff(w, e, Next(w, e));
      }
    } else {
      forall id | id in w.st.trips
        ensures Fits(w.st, id)
      {
      }
    }
  }

  // Reports

  /** A trip completes only when the batch has reached its ongoing distance, and then exactly at its own. */
  lemma CompletionExact(w: World, id: Uint32)
    requires BatchFits(w) && Acc(w) <= w.st.distance
    requires id in Completed(w.st.trips, Acc(w))
    ensures Acc(w) == w.st.distance
    ensures Tracked(w.st.trips[id], Acc(w)) == w.st.trips[id].distance
  {
    TrackedExact(w, id);
    assert Fits(w.st, id);
  }

  /** What a restart after a fresh report does to one trip. */
  lemma RestartFits(w: World, id: Uint32, accepted: bool)
    requires NoneAhead(w) && w.st.trips != map[] && Acc(w) == w.st.distance
    requires forall k :: k in w.st.trips ==> UpToDate(w.st.trips[k], Acc(w)) && Ahead(w.st.trips[k], Acc(w)) > 0
    requires id in w.st.trips
    ensures var o := Restart(w.st, Acc(w), accepted);
            o.sent.Some? && o.sent.value.RestartTrip? && id in o.state.trips && Fits(o.state, id)
  {
    SmallestIsMinimum(Remainders(w.st.trips), w.st.trips.Keys, 0);
    TrackedExact(w, id);
  }

  lemma ReportKeepsBatchFits(w: World, accepted: bool)
    requires BatchFits(w) && Timely(w, Reported(accepted))
    ensures BatchFits(Next(w, Reported(accepted)))
  {
    NextNoneAheadIff(w, Reported(accepted));
    DropKeepsNoneAhead(w);
    if id :| id in Completed(w.st.trips, Acc(w)) {
      CompletionExact(w, id);
      CompletedFits(w, Next(w, Reported(accepted)).st, accepted);
    }
  }

  lemma CompletedFits(w: World, after: State, accepted: bool)
    requires BatchFits(w) && Acc(w) == w.st.distance && NoneAhead(w.(st := Dropped(w.st, Acc(w))))
    requires after == Restart(Dropped(w.st, Acc(w)), Acc(w), accepted).state
    ensures forall id :: id in after.trips ==> Fits(after, id)
  {
    var dropped := w.(st := Dropped(w.st, Acc(w)));
    forall id | id in after.trips
      ensures Fits(after, id)
    {
      RestartShape(dropped.st, Acc(w), accepted);
      RestartFits(dropped, id, accepted);
    }
  }

  // Stops

  /** The least remaining distance, counted up to the last report, is ahead of all trips exactly in this case. */
  lemma LeastAheadIff(w: World)
    requires BatchFits(w) && w.st.trips != map[]
    ensures (forall id :: id in w.st.trips ==> MinRemaining(w.st.trips) <= Ahead(w.st.trips[id], Acc(w)))
            <==> exists id :: id in w.st.trips && NearestUpToDate(w.st.trips, id, Acc(w))
    ensures MinRemaining(w.st.trips) > 0
    ensures Acc(w) <= w.st.distance ==> w.st.distance - Acc(w) <= MinRemaining(w.st.trips)
  {
    var trips, least := w.st.trips, MinRemaining(w.st.trips);
    SmallestIsMinimum(Remainders(trips), trips.Keys, 0);
    forall id | id in trips
      ensures 0 < least <= trips[id].distance - trips[id].thisTrip
      ensures Ahead(trips[id], Acc(w)) <= trips[id].distance - trips[id].thisTrip
      ensures w.st.distance - Acc(w) <= Ahead(trips[id], Acc(w))
    {
      TrackedExact(w, id);
      assert Fits(w.st, id) && id in trips.Keys;
    }
    assert exists id :: id in trips;
    var k :| k in trips && Remainders(trips)[k] == least;
    if forall id :: id in trips ==> least <= Ahead(trips[id], Acc(w)) {
      assert NearestUpToDate(trips, k, Acc(w));
    }
  }

  lemma RebasedFitsIff(w: World, after: World)
    requires BatchFits(w) && NoneAhead(after) && after.st.trips == Rebased(w.st.trips, Acc(w))
    requires after.st.distance > 0
    ensures BatchFits(after) <==> forall id :: id in w.st.trips ==> after.st.distance <= Ahead(w.st.trips[id], Acc(w))
  {
    forall id | id in w.st.trips
      ensures id in after.st.trips
      ensures Fits(after.st, id) <==> after.st.distance <= Ahead(w.st.trips[id], Acc(w))
    {
      TrackedExact(w, id);
    }
  }

  lemma WithoutFits(w: World, id: Uint32)
    requires BatchFits(w) && id in w.st.trips
    ensures BatchFits(w.(st := Without(w.st, id)))
  {
    WithoutKeepsNoneAhead(w, id);
    var left := Without(w.st, id);
    forall k | k in left.trips
      ensures Fits(left, k)
    {
      assert Fits(w.st, k);
    }
  }

  /** What the restart after a stop does, in a world that already is without the stopped trip. */
  lemma RestartCases(w: World, accepted: bool)
    requires BatchFits(w) && w.st.trips != map[] && Acc(w) <= w.st.distance && accepted
    ensures var after := After(w, Restart(w.st, Acc(w), accepted), accepted);
            if Recounts(w.st, Acc(w)) then
              after.st.trips == Rebased(w.st.trips, Acc(w)) && after.st.distance == MinRemaining(w.st.trips)
            else if Retimed(w.st, MinInterval(w.st.trips)) then
              after.st.trips == Rebased(w.st.trips, Acc(w)) && after.st.distance == w.st.distance
            else after == w
  {
    LeastAheadIff(w);
    RedistancedIff(w.st, Acc(w), MinRemaining(w.st.trips));
  }

  lemma RedistancedIff(st: State, acc: Uint32, least: Uint32)
    requires acc <= st.distance && 0 < least && st.distance - acc <= least
    ensures Redistanced(st, acc, least) <==> Recounts(st, acc)
  {
  }

  lemma RestartFitsIff(w: World, after: World, accepted: bool)
    requires BatchFits(w) && w.st.trips != map[] && Acc(w) <= w.st.distance && accepted
    requires after == After(w, Restart(w.st, Acc(w), accepted), accepted)
    ensures BatchFits(after) <==> RestartStaysWithin(w)
  {
    LeastAheadIff(w);
    RestartCases(w, accepted);
    RestartShape(w.st, Acc(w), accepted);
    OutcomeKeepsNoneAhead(w, Restart(w.st, Acc(w), accepted), accepted);
    if Recounts(w.st, Acc(w)) || Retimed(w.st, MinInterval(w.st.trips)) {
      RebasedFitsIff(w, after);
    }
  }

  /** A stop is the removal of the trip and, if others are left, the restart. */
  lemma StopRestarts(w: World, e: Event)
    requires Measurable(w) && e.Stopped? && e.id in w.st.trips && Left(w, e).st.trips != map[]
    ensures Next(w, e) == After(Left(w, e), Restart(Left(w, e).st, Acc(Left(w, e)), e.accepted), e.accepted)
    ensures !e.accepted ==> Next(w, e) == Left(w, e)
  {
  }

  lemma StoppedFitsIff(w: World, e: Event, after: World)
    requires BatchFits(w) && e.Stopped? && e.id in w.st.trips && Acc(w) <= w.st.distance
    requires Left(w, e).st.trips != map[]
    requires after == After(Left(w, e), Restart(Left(w, e).st, Acc(Left(w, e)), e.accepted), e.accepted)
    requires !e.accepted ==> after == Left(w, e)
    ensures BatchFits(after) <==> StopFits(w, e)
  {
    WithoutFits(w, e.id);
    if e.accepted {
      RestartFitsIff(Left(w, e), after, e.accepted);
    }
  }

  /** Stopping a trip keeps the batch within the others if and only if it is of that kind. */
  lemma StopFitsIff(w: World, e: Event)
    requires BatchFits(w) && e.Stopped? && e.id in w.st.trips && Timely(w, e)
    ensures BatchFits(Next(w, e)) <==> StopFits(w, e)
  {
    if Left(w, e).st.trips == map[] {
      NextNoneAheadIff(w, e);
    } else {
      StopRestarts(w, e);
      StoppedFitsIff(w, e, Next(w, e));
    }
  }

  // Over all runs

  /** Every timely event keeps the batch within all trips, a start or a stop if and only if it is of the right kind. */
  lemma NextBatchFitsIff(w: World, e: Event)
    requires BatchFits(w) && Enabled(w, e) && Timely(w, e)
    ensures BatchFits(Next(w, e)) <==> KeepsFit(w, e)
  {
    match e
    case Drive(_) => NextNoneAheadIff(w, e);
    case Started(_, _, _, _, _) => StartFitsIff(w, e);
    case Reported(accepted) => ReportKeepsBatchFits(w, accepted);
    case Stopped(_, _) => StopFitsIff(w, e);
  }

  /** Runs of timely events, with all starts and stops of the right kind. */
  ghost predicate IsCalmRun(ws: seq<World>, es: seq<Event>) {
    IsRun(ws, es) && forall i :: 0 <= i < |es| ==> IsCalm(ws[i], es[i])
  }

  ghost predicate IsCalm(w: World, e: Event) {
    Measurable(w) && Enabled(w, e) && Timely(w, e) && KeepsFit(w, e)
  }

  lemma {:induction false} CalmRunFits(ws: seq<World>, es: seq<Event>, i: nat)
    requires IsCalmRun(ws, es) && i < |ws|
    ensures BatchFits(ws[i])
  {
    if i == 0 {
    } else {
      CalmRunFits(ws, es, i - 1);
      assert StepOf(ws, es, i - 1) && IsCalm(ws[i - 1], es[i - 1]);
      NextBatchFitsIff(ws[i - 1], es[i - 1]);
    }
  }

  /**
   * In every such run the shared batch ends no later than any trip does by its
   * tracked distance: whatever the batch distance, up to the ongoing one, that
   * of no live trip is beyond its end.
   */
  lemma BatchNeverOverrunsTracked(ws: seq<World>, es: seq<Event>, i: nat, id: Uint32, acc: Uint32)
    requires IsCalmRun(ws, es) && i < |ws| && id in ws[i].st.trips
    requires Measurable(ws[i]) && Acc(ws[i]) <= acc <= ws[i].st.distance
    ensures var t := ws[i].st.trips[id];
            ws[i].st.distance + t.onRestart - t.ongoing <= t.distance
            && Tracked(t, acc) <= t.distance
  {
    CalmRunFits(ws, es, i);
    assert Fits(ws[i].st, id);
  }

  /** A trip is reported complete when its tracked distance is exactly the trip distance. */
  lemma RunCompletesExactly(ws: seq<World>, es: seq<Event>, i: nat, id: Uint32)
    requires IsCalmRun(ws, es) && i < |es| && es[i].Reported?
    requires Measurable(ws[i]) && id in Completed(ws[i].st.trips, Acc(ws[i]))
    ensures Acc(ws[i]) == ws[i].st.distance
    ensures Tracked(ws[i].st.trips[id], Acc(ws[i])) == ws[i].st.trips[id].distance
  {
    CalmRunFits(ws, es, i);
    assert IsCalm(ws[i], es[i]);
    CompletionExact(ws[i], id);
  }

  /**
   * If the starts also keep the tracking exact, no live trip drives past its
   * end before the batch does: up to the ongoing distance, what each has driven
   * is within its distance.
   */
  lemma BatchNeverOverrunsTrip(ws: seq<World>, es: seq<Event>, i: nat, id: Uint32)
    requires IsCalmRun(ws, es) && IsTrackingRun(ws, es) && i < |ws| && id in ws[i].st.trips
    requires Measurable(ws[i]) && Acc(ws[i]) <= ws[i].st.distance
    ensures id in ws[i].startedAt
    ensures Driven(ws[i], id) + (ws[i].st.distance - Acc(ws[i])) <= ws[i].st.trips[id].distance
  {
    RunTracksDriven(ws, es, i);
    CalmRunFits(ws, es, i);
    assert Fits(ws[i].st, id);
    TrackedExact(ws[i], id);
  }

  /** And a trip is reported complete when it has driven exactly its distance. */
  lemma RunCompletesAtDriven(ws: seq<World>, es: seq<Event>, i: nat, id: Uint32)
    requires IsCalmRun(ws, es) && IsTrackingRun(ws, es) && i < |es| && es[i].Reported?
    requires Measurable(ws[i]) && id in Completed(ws[i].st.trips, Acc(ws[i]))
    ensures id in ws[i].startedAt
    ensures Driven(ws[i], id) == ws[i].st.trips[id].distance
  {
    RunTracksDriven(ws, es, i);
    RunCompletesExactly(ws, es, i, id);
  }

  // ----- The end of the batch completes a trip -----

  /** The trip ends together with the batch. */
  predicate EndsTogether(st: State, id: Uint32)
    requires id in st.trips
  {
    st.distance + st.trips[id].onRestart - st.trips[id].ongoing == st.trips[id].distance
  }

  ghost predicate SomeEndsTogether(st: State) {
    st.trips == map[] || exists id :: id in st.trips && EndsTogether(st, id)
  }

  /** When the batch reaches its end, some trip is reported complete. */
  lemma BatchEndCompletesTrip(w: World)
    requires BatchFits(w) && SomeEndsTogether(w.st) && w.st.trips != map[] && Acc(w) == w.st.distance
    ensures Completed(w.st.trips, Acc(w)) != {}
  {
    var id :| id in w.st.trips && EndsTogether(w.st, id);
    TrackedExact(w, id);
    assert id in Completed(w.st.trips, Acc(w));
  }

  /**
   * If a start restarts the batch: the new trip goes no further than the rest
   * of the batch, or a trip that ends with the batch is up to date; or, when
   * the distance is not known, a trip has the new distance ahead of it.
   */
  predicate StartKeepsEnd(w: World, e: Event)
    requires Measurable(w) && e.Started?
  {
    Restarts(w, e) ==>
      if e.queried then
        e.distance <= w.st.distance - Acc(w)
        || exists id :: id in w.st.trips && EndsTogether(w.st, id) && UpToDate(w.st.trips[id], Acc(w))
      else
        exists id :: id in w.st.trips && NewDistance(w, e) == w.st.trips[id].distance - w.st.trips[id].thisTrip
  }

  /** The restart after a completion is not refused while trips are left. */
  predicate ReportKeepsEnd(w: World, e: Event)
    requires Measurable(w) && e.Reported?
  {
    e.accepted || Completed(w.st.trips, Acc(w)) == {} || Dropped(w.st, Acc(w)).trips == map[]
  }

  /** The restart takes the least remaining distance; or a trip has the ongoing distance ahead if it is retimed. */
  ghost predicate RestartKeepsEnd(w: World)
    requires Measurable(w)
  {
    Recounts(w.st, Acc(w))
    || if Retimed(w.st, MinInterval(w.st.trips)) then
         exists id :: id in w.st.trips && w.st.distance == Ahead(w.st.trips[id], Acc(w))
       else SomeEndsTogether(w.st)
  }

  /** Such a stop, or one of the only trip; or, if the restart is refused, another trip ends with the batch. */
  ghost predicate StopKeepsEnd(w: World, e: Event)
    requires Measurable(w) && e.Stopped? && e.id in w.st.trips
  {
    Left(w, e).st.trips == map[]
    || if e.accepted then RestartKeepsEnd(Left(w, e)) else SomeEndsTogether(Left(w, e).st)
  }

  ghost predicate KeepsEnd(w: World, e: Event)
    requires Measurable(w) && Enabled(w, e)
  {
    match e
    case Drive(_) => true
    case Started(id, _, _, _, _) => id !in w.st.trips && StartKeepsEnd(w, e)
    case Reported(_) => ReportKeepsEnd(w, e)
    case Stopped(_, _) => StopKeepsEnd(w, e)
  }

  lemma CarriedEndsTogetherIff(w: World, e: Event, after: World)
    requires BatchFits(w) && Timely(w, e) && Restarts(w, e) && e.id !in w.st.trips
    requires IsCarried(w, e, after) && after.st.distance == NewDistance(w, e)
    ensures SomeEndsTogether(after.st) <==> StartKeepsEnd(w, e)
  {
    if e.queried {
      assert e.id in after.st.trips;
    }
    forall id | id in w.st.trips
      ensures id in after.st.trips
      ensures EndsTogether(after.st, id) <==>
              NewDistance(w, e) == w.st.trips[id].distance - w.st.trips[id].thisTrip
      ensures e.queried && w.st.distance - Acc(w) < e.distance ==>
                (EndsTogether(after.st, id) <==> EndsTogether(w.st, id) && UpToDate(w.st.trips[id], Acc(w)))
    {
      TrackedExact(w, id);
      assert Fits(w.st, id);
    }
    assert forall id :: id in after.st.trips ==> id in w.st.trips || (e.queried && id == e.id);
  }

  lemma StartEndsTogetherIff(w: World, e: Event)
    requires BatchFits(w) && e.Started? && Timely(w, e) && e.id !in w.st.trips && SomeEndsTogether(w.st)
    ensures SomeEndsTogether(Next(w, e).st) <==> StartKeepsEnd(w, e)
  {
    var after := Next(w, e);
    if Restarts(w, e) {
      RestartCarries(w, e);
      CarriedEndsTogetherIff(w, e, after);
    } else if w.st.trips == map[] {
      assert e.accepted ==> e.id in after.st.trips && EndsTogether(after.st, e.id);
    } else {
      var k :| k in w.st.trips && EndsTogether(w.st, k);
      assert k in after.st.trips && EndsTogether(after.st, k);
    }
  }

  /** The least remaining distance is that of some trip. */
  lemma LeastOfSome(trips: map<Uint32, Trip>) returns (id: Uint32)
    requires trips != map[] && forall k :: k in trips ==> trips[k].thisTrip < trips[k].distance
    ensures id in trips && MinRemaining(trips) == trips[id].distance - trips[id].thisTrip > 0
  {
    SmallestIsMinimum(Remainders(trips), trips.Keys, 0);
    assert exists k :: k in trips;
    id :| id in trips.Keys && Remainders(trips)[id] == MinRemaining(trips);
  }

  lemma RestartEndsTogether(w: World)
    requires NoneAhead(w) && w.st.trips != map[] && Acc(w) == w.st.distance
    requires forall k :: k in w.st.trips ==> UpToDate(w.st.trips[k], Acc(w)) && Ahead(w.st.trips[k], Acc(w)) > 0
    ensures SomeEndsTogether(Restart(w.st, Acc(w), true).state)
  {
    var id := LeastOfSome(w.st.trips);
    RedistancedIff(w.st, Acc(w), MinRemaining(w.st.trips));
    RebasedEndsTogether(w, Restart(w.st, Acc(w), true).state, id);
  }

  /** After a completion no trip that is left ends with the batch as it was. */
  lemma LeftEndLater(w: World, id: Uint32)
    requires BatchFits(w) && Acc(w) == w.st.distance && id in Dropped(w.st, Acc(w)).trips
    ensures !EndsTogether(Dropped(w.st, Acc(w)), id)
  {
    TrackedExact(w, id);
  }

  lemma ReportEndsTogetherIff(w: World, e: Event)
    requires BatchFits(w) && e.Reported? && Timely(w, e) && SomeEndsTogether(w.st)
    ensures SomeEndsTogether(Next(w, e).st) <==> ReportKeepsEnd(w, e)
  {
    var dropped := w.(st := Dropped(w.st, Acc(w)));
    if id :| id in Completed(w.st.trips, Acc(w)) {
      CompletionExact(w, id);
      if dropped.st.trips != map[] {
        CompletedEndsTogetherIff(w, e);
      }
    } else if w.st.trips != map[] {
      var k :| k in w.st.trips && EndsTogether(w.st, k);
      assert k in dropped.st.trips && EndsTogether(dropped.st, k);
    }
  }

  lemma CompletedEndsTogetherIff(w: World, e: Event)
    requires BatchFits(w) && e.Reported? && Acc(w) == w.st.distance && Completed(w.st.trips, Acc(w)) != {}
    requires Dropped(w.st, Acc(w)).trips != map[]
    ensures SomeEndsTogether(Next(w, e).st) <==> e.accepted
  {
    var dropped := w.(st := Dropped(w.st, Acc(w)));
    DropKeepsNoneAhead(w);
    if e.accepted {
      RestartEndsTogether(dropped);
    } else {
      forall k | k in dropped.st.trips
        ensures !EndsTogether(dropped.st, k)
      {
        LeftEndLater(w, k);
      }
    }
  }

  lemma StopEndsTogetherIff(w: World, e: Event)
    requires BatchFits(w) && e.Stopped? && e.id in w.st.trips && Timely(w, e) && StopFits(w, e)
    ensures SomeEndsTogether(Next(w, e).st) <==> StopKeepsEnd(w, e)
  {
    if Left(w, e).st.trips != map[] {
      StopRestarts(w, e);
      StoppedEndsTogetherIff(w, e, Next(w, e));
    }
  }

  lemma StoppedEndsTogetherIff(w: World, e: Event, after: World)
    requires BatchFits(w) && e.Stopped? && e.id in w.st.trips && Acc(w) <= w.st.distance && StopFits(w, e)
    requires Left(w, e).st.trips != map[]
    requires after == After(Left(w, e), Restart(Left(w, e).st, Acc(Left(w, e)), e.accepted), e.accepted)
    requires !e.accepted ==> after == Left(w, e)
    ensures SomeEndsTogether(after.st) <==> StopKeepsEnd(w, e)
  {
    if e.accepted {
      WithoutFits(w, e.id);
      RestartKeepsEndIff(Left(w, e), after, e.accepted);
    }
  }

  lemma RestartKeepsEndIff(w: World, after: World, accepted: bool)
    requires BatchFits(w) && w.st.trips != map[] && Acc(w) <= w.st.distance && accepted
    requires RestartStaysWithin(w) && after == After(w, Restart(w.st, Acc(w), accepted), accepted)
    ensures SomeEndsTogether(after.st) <==> RestartKeepsEnd(w)
  {
    RestartCases(w, accepted);
    if Recounts(w.st, Acc(w)) {
      var id :| id in w.st.trips && NearestUpToDate(w.st.trips, id, Acc(w));
      NearestIsLeast(w, id);
      RebasedEndsTogether(w, after.st, id);
    } else if Retimed(w.st, MinInterval(w.st.trips)) {
      RetimedEndsTogetherIff(w, after.st);
    }
  }

  lemma RetimedEndsTogetherIff(w: World, after: State)
    requires NoneAhead(w) && w.st.trips != map[] && after.trips == Rebased(w.st.trips, Acc(w))
    ensures SomeEndsTogether(after) <==>
            exists id :: id in w.st.trips && after.distance == Ahead(w.st.trips[id], Acc(w))
  {
    forall id | id in w.st.trips
      ensures id in after.trips && (EndsTogether(after, id) <==> after.distance == Ahead(w.st.trips[id], Acc(w)))
    {
      RebasedEndsTogether(w, after, id);
    }
    assert after.trips.Keys == w.st.trips.Keys;
  }

  lemma RebasedEndsTogether(w: World, after: State, id: Uint32)
    requires NoneAhead(w) && id in w.st.trips && after.trips == Rebased(w.st.trips, Acc(w))
    ensures id in after.trips && (EndsTogether(after, id) <==> after.distance == Ahead(w.st.trips[id], Acc(w)))
  {
    TrackedExact(w, id);
  }

  lemma NearestIsLeast(w: World, id: Uint32)
    requires BatchFits(w) && id in w.st.trips && NearestUpToDate(w.st.trips, id, Acc(w))
    ensures MinRemaining(w.st.trips) == Ahead(w.st.trips[id], Acc(w))
  {
    LeastAheadIff(w);
    SmallestIsMinimum(Remainders(w.st.trips), w.st.trips.Keys, 0);
    assert id in w.st.trips.Keys && Fits(w.st, id);
  }

  /** Every event keeps a trip that ends with the batch if and only if it is of the right kind. */
  lemma NextEndsTogetherIff(w: World, e: Event)
    requires BatchFits(w) && Enabled(w, e) && Timely(w, e) && KeepsFit(w, e) && SomeEndsTogether(w.st)
    requires e.Started? ==> e.id !in w.st.trips
    ensures SomeEndsTogether(Next(w, e).st) <==> KeepsEnd(w, e)
  {
    match e
    case Drive(_) =>
    case Started(_, _, _, _, _) => StartEndsTogetherIff(w, e);
    case Reported(_) => ReportEndsTogetherIff(w, e);
    case Stopped(_, _) => StopEndsTogetherIff(w, e);
  }

  lemma {:induction false} RunEndsTogether(ws: seq<World>, es: seq<Event>, i: nat)
    requires IsCalmRun(ws, es) && i < |ws|
    requires forall k :: 0 <= k < |es| ==> Measurable(ws[k]) && Enabled(ws[k], es[k]) && KeepsEnd(ws[k], es[k])
    ensures BatchFits(ws[i]) && SomeEndsTogether(ws[i].st)
  {
    CalmRunFits(ws, es, i);
    if i == 0 {
    } else {
      RunEndsTogether(ws, es, i - 1);
      assert StepOf(ws, es, i - 1) && IsCalm(ws[i - 1], es[i - 1]) && KeepsEnd(ws[i - 1], es[i - 1]);
      NextEndsTogetherIff(ws[i - 1], es[i - 1]);
    }
  }

  /** In such runs a batch that has reached its ongoing distance completes a trip at the next report. */
  lemma RunBatchEndCompletesTrip(ws: seq<World>, es: seq<Event>, i: nat)
    requires IsCalmRun(ws, es) && i < |ws|
    requires forall k :: 0 <= k < |es| ==> Measurable(ws[k]) && Enabled(ws[k], es[k]) && KeepsEnd(ws[k], es[k])
    requires ws[i].st.trips != map[] && Measurable(ws[i]) && Acc(ws[i]) == ws[i].st.distance
    ensures Completed(ws[i].st.trips, Acc(ws[i])) != {}
  {
    RunEndsTogether(ws, es, i);
    BatchEndCompletesTrip(ws[i]);
  }
}
