# Verified models of the device's location stack and recovery search

Dafny 4.11 models of the stateful parts of the repository, with proofs of what
they keep. `dafny verify dfyconfig.toml` checks all of it.

Handlers and loops of the program are methods of classes with the program's
fields, each proved equal to a step function on values; the lemmas are about
those functions, over single steps and over all runs. What is sent to the
modem, the framework or a client is a ghost trace; the modem's answers are
parameters.

| file | models |
|---|---|
| BoyerMoore | the substring search of `recovery/recovery_updater.cpp`, with its two tables |
| TripBatching, TripRuns, TripFits, TripModem, TripExamples | trip sessions sharing one modem batch, run against an odometer |
| Tracking, TrackingRuns, TrackingAsked | time-based tracking sessions sharing one fix request |
| GpsLock | the GPS lock: four commands against recomputation on restart |
| Blacklist | blacklisted satellites: lists against 64-bit masks |
| Agps, AgpsRuns, AgpsNotices, AgpsManager | the AGPS state machine and its manager |
| BatchFullEvent | the BATCH_FULL event against batching sessions |
| Geofences, GeofenceItems | the two geofence indexes under asynchronous additions and removals |
| AdapterTable | the adapter array without holes |
| DestroyHandshake | destroying a client whose adapters answer in any order |
| MapSearch, Wrappers | the minimum search of the session maps; `Option` |

## What the proofs found

- `bm_search` is not leftmost search for every pattern. Line 78 compares the
  tail from `p`, not from `p + 1`, so a pattern with a proper border can be
  shifted past an occurrence. For NUL-free patterns it is exact if and only if
  the pattern has no proper border or repeats one byte; the marker on line 40
  has none. Results it does return are always true occurrences.
- Every trip start that restarts the batch takes each running trip at its last
  report and drops what it has driven since. Without stops a trip can then be
  live, with the batch not at its end, past its own distance. Tracking stays
  exact if and only if all running trips are up to date at such a start.
- If that restart is refused, the offsets are taken over all the same, and a
  trip can be reported complete that has not driven at all. It is safe exactly
  if the batch has not moved yet.
- Stopping a trip can let the shared batch run past the end of another trip:
  the remaining distances count only up to the last report, and the
  "distance dropped" flag is never cleared.
- A restart that the modem refuses at a start also leaves it at another batch
  than the adapter takes for running.
- After a start that restarts the batch only for a shorter interval the batch
  can end without completing any trip.
- An update that raises the smallest tracking interval can leave the modem at
  the old one, and so does a refused stop; sessions are served, but not at the
  minimum.
- A geofence of a stopped client comes back for good if the modem restarts
  before its removal is answered; and a hardware id reused in that time leaves
  a key that points nowhere.
- A geofence whose removal was requested before a modem restart and is granted
  after it stays, under its new id.
- A late NFW control message, and a late failure of a start whose session was
  restarted, can leave the lock and the BATCH_FULL bit out of step.
- Bit 31 of a blacklist mask does not survive the round trip, because line
  1489 of `GnssAdapter.cpp` shifts a plain int.

## Model

| member | source | states |
|---|---|---|
| BoyerMoore.MaxSuffixLen | recovery/recovery_updater.cpp:47-55 | the returned length is that of the longest common suffix of the pattern and its part ending at p, cut off at p |
| BoyerMoore.MakeDelta1 | recovery/recovery_updater.cpp:60-69 | every byte gets the distance from the last pattern position to its last occurrence before it, or the pattern length |
| BoyerMoore.LastIndex | recovery/recovery_updater.cpp:65-68 | the result is the last position below n that holds the byte; -1 exactly when there is none |
| BoyerMoore.Delta1Aligns | recovery/recovery_updater.cpp:60-69 | the shift of a byte aligns its last occurrence before the final position, or moves past the pattern when there is none |
| BoyerMoore.StrnCmpEqual | recovery/recovery_updater.cpp:78-80 | the comparison succeeds exactly if both sides agree up to and including the first NUL byte |
| BoyerMoore.FillPrefixes | recovery/recovery_updater.cpp:76-82 | after the first loop every entry holds the border shift: the table for no realigning shift at all |
| BoyerMoore.FillRealigns | recovery/recovery_updater.cpp:84-90 | after the second loop every entry holds the least realigning shift, or else the border shift of the first loop |
| BoyerMoore.MakeDelta2 | recovery/recovery_updater.cpp:72-91 | the filled table is, entry by entry, the good-suffix table defined from the pattern alone |
| BoyerMoore.LastPrefixAtMost | recovery/recovery_updater.cpp:76-82 | a tail that compares equal bounds the border shift from above |
| BoyerMoore.RealignsAtEnd | recovery/recovery_updater.cpp:84-90 | one end position of the second loop decides its realigning shift for exactly one entry: overwriting in ascending order keeps the least shift |
| BoyerMoore.LeastRealignIsLeast | recovery/recovery_updater.cpp:84-90 | the shift kept for an entry is the least that realigns the matched suffix behind a different byte; none is kept exactly when none exists |
| BoyerMoore.UnborderedTable | recovery/recovery_updater.cpp:72-91 | for an unbordered NUL-free pattern each entry past the first is exactly the least realigning shift, or the pattern length less one |
| BoyerMoore.MismatchMeaning | recovery/recovery_updater.cpp:108-115 | the inner loop ends at the last position that disagrees, and runs off exactly when the pattern occurs in the window |
| BoyerMoore.CompareBack | recovery/recovery_updater.cpp:108-112 | the loop leaves i and j at that position, inside the text |
| BoyerMoore.TablesUsable | recovery/recovery_updater.cpp:60-91 | for every non-empty pattern both tables have the sizes and bounds that keep the scan in range and moving forward |
| BoyerMoore.NextWindow | recovery/recovery_updater.cpp:116 | every mismatch moves the window start forward, by at most the pattern length |
| BoyerMoore.ScanRound | recovery/recovery_updater.cpp:108-117 | one round returns the window or moves on by the larger of the two shifts |
| BoyerMoore.ScanText | recovery/recovery_updater.cpp:106-119 | the loop, with every access in bounds and the window start growing, returns what the abstract scan returns; i stays below text length plus pattern length |
| BoyerMoore.Search | recovery/recovery_updater.cpp:93-120 | the whole search, tables included, returns the result of the abstract search |
| BoyerMoore.SearchSound | recovery/recovery_updater.cpp:93-120 | for every non-empty pattern a reported position is a true occurrence and never before the leftmost one |
| BoyerMoore.FirstOccurrenceIsLeftmost | recovery/recovery_updater.cpp:93-120 | the reference: naive search finds the leftmost occurrence, and nothing exactly when there is none |
| BoyerMoore.BadCharacterSafe | recovery/recovery_updater.cpp:116 | the bad-character shift never passes an occurrence |
| BoyerMoore.OverlapShape | recovery/recovery_updater.cpp:72-91 | an occurrence overlapping a mismatched window either realigns the matched suffix or is a border of the pattern |
| BoyerMoore.GoodSuffixSafe | recovery/recovery_updater.cpp:72-91 | the good-suffix shift never passes such an alignment when the pattern does not overshift |
| BoyerMoore.ShiftSkipsNothing | recovery/recovery_updater.cpp:106-117 | the larger of the two shifts passes no occurrence, for every text and window |
| BoyerMoore.ScanComplete | recovery/recovery_updater.cpp:106-119 | tables that skip nothing make the scan equal to the naive search from any window on |
| BoyerMoore.OvershiftMisses | recovery/recovery_updater.cpp:78 | every overshifting pattern has a text that contains it and in which the search returns nothing |
| BoyerMoore.SearchExactIffNoOvershift | recovery/recovery_updater.cpp:93-120 | the search equals leftmost search on all texts if and only if no good-suffix entry overshifts |
| BoyerMoore.SearchExactIffUnborderedOrConstant | recovery/recovery_updater.cpp:93-120 | for NUL-free patterns: equal on all texts if and only if the pattern has no proper border or is one byte repeated |
| BoyerMoore.BorderedIsMissed | recovery/recovery_updater.cpp:78 | any other bordered pattern is missed in some text that contains it |
| BoyerMoore.AbcaIsMissed | recovery/recovery_updater.cpp:78 | "abca" is such a pattern |
| BoyerMoore.BasebandSearchExact | recovery/recovery_updater.cpp:40 | the version marker is always found at its first occurrence: the search refines naive search for it |
| MapSearch.SmallestIsMinimum | gps/batching/BatchingAdapter.cpp:946-962 | on positive values the 0-sentinel search of a session map finds the minimum |
| MapSearch.FindSmallest | gps/batching/BatchingAdapter.cpp:946-962 | the loop over the map in key order computes that search |
| TripBatching.BatchingAdapter.StartTripBatchingMultiplex | gps/batching/BatchingAdapter.cpp:748-857 | whole new trip state and request of a start, first or further, the first refused or not, the query answered or not, over 32-bit arithmetic |
| TripBatching.BatchingAdapter.ReportCompletedTrips | gps/batching/BatchingAdapter.cpp:661-700 | the trips reported complete are exactly those whose tracked distance has reached their own; whole new state and request |
| TripBatching.BatchingAdapter.DropCompleted | gps/batching/BatchingAdapter.cpp:667-691 | the erasing traversal drops exactly the completed trips, updates all others and raises each dropped flag exactly if such a trip went |
| TripBatching.BatchingAdapter.StopTripBatchingMultiplex | gps/batching/BatchingAdapter.cpp:859-908 | whole new trip state and request when a trip is stopped, last or not; the same whatever the modem answers to the last stop |
| TripBatching.BatchingAdapter.RestartTripBatching | gps/batching/BatchingAdapter.cpp:923-1028 | the batch is stopped when no trip is left, and otherwise restarted with the minima of the remaining distances and intervals where the code calls for it |
| TripBatching.BatchingAdapter.OnDistanceAnswer | gps/batching/BatchingAdapter.cpp:968-1026 | the decision on the restart; every trip brought up to date if the modem accepts it, and nothing changed if not |
| TripBatching.DropOne | gps/batching/BatchingAdapter.cpp:667-691 | one round of the traversal is one step from the pending to the updated trips |
| TripBatching.Wraps | gps/batching/BatchingAdapter.cpp:671-673 | the arithmetic is that of unsigned 32-bit integers |
| TripRuns.NextNoneAheadIff | gps/batching/BatchingAdapter.cpp:661-1028 | every event, granted or refused, keeps all tracked distances at or below the distance driven and all offsets ordered; a start if and only if it is safe |
| TripRuns.StartNoneAheadIff | gps/batching/BatchingAdapter.cpp:832-851 | a start whose restart is refused is safe exactly if the batch has not moved; after a failed query, if every trip lags by what it counts twice |
| TripRuns.TrackedExact | gps/batching/BatchingAdapter.cpp:671-673 | in such states the unsigned arithmetic of the tracked distance does not wrap |
| TripRuns.NoEarlyCompletion | gps/batching/BatchingAdapter.cpp:661-700 | in every run of safe starts, stops, reports and driving a trip reported complete has driven its full distance |
| TripRuns.RefusedRestartCompletesEarly | gps/batching/BatchingAdapter.cpp:832-851 | a run with an unsafe start, after which a trip that has not driven at all is reported complete |
| TripRuns.StartTracksDrivenIff | gps/batching/BatchingAdapter.cpp:838-843 | a start keeps every trip tracked at exactly the distance driven if and only if it restarts nothing, or all running trips are up to date (or, refused, count nothing twice) |
| TripRuns.NextTracksDriven | gps/batching/BatchingAdapter.cpp:661-1028 | reports, stops and driving always keep the tracking exact |
| TripRuns.CompletedExactlyWhenDriven | gps/batching/BatchingAdapter.cpp:671-677 | over every run of such starts a report completes exactly the trips that have driven their distance: none early, none late |
| TripFits.NextBatchFitsIff | gps/batching/BatchingAdapter.cpp:661-1028 | every timely event keeps the end of the batch within every trip; starts and stops if and only if they are of a stated kind |
| TripFits.StartFitsIff | gps/batching/BatchingAdapter.cpp:797-843 | a start does so exactly if it is safe and, after a failed query, asks for no more than each trip has left as of the last report |
| TripFits.StopFitsIff | gps/batching/BatchingAdapter.cpp:885-908 | stopping a trip does so exactly if nothing is restarted; or a trip nearest to its end is up to date when the remaining distances are recounted; or, for a new interval alone, all have a whole ongoing distance ahead |
| TripFits.CompletionExact | gps/batching/BatchingAdapter.cpp:671-677 | a trip then completes only when the batch is at its ongoing distance, and with exactly its own distance tracked |
| TripFits.RunCompletesExactly | gps/batching/BatchingAdapter.cpp:671-677 | the same over every run of such events |
| TripFits.BatchNeverOverrunsTracked | gps/batching/BatchingAdapter.cpp:748-857 | over such runs: ongoing distance, plus the distance at the restart, less the offset, is at most the trip distance; no tracked distance passes its trip before the batch ends |
| TripFits.BatchNeverOverrunsTrip | gps/batching/BatchingAdapter.cpp:748-857 | if the starts also keep the tracking exact: what a live trip has driven, plus the rest of the batch, is within its distance |
| TripFits.RunCompletesAtDriven | gps/batching/BatchingAdapter.cpp:671-677 | and a trip is reported complete when it has driven exactly its distance |
| TripFits.StartEndsTogetherIff | gps/batching/BatchingAdapter.cpp:797-843 | a start keeps some trip that ends with the batch exactly if it restarts nothing, is itself no longer than the rest of the batch, or such a trip is up to date (a failed query apart) |
| TripFits.ReportEndsTogetherIff | gps/batching/BatchingAdapter.cpp:661-700 | a report does so exactly if the restart after a completion is not refused while trips are left |
| TripFits.StopEndsTogetherIff | gps/batching/BatchingAdapter.cpp:885-908 | a stop that stays within the trips does so exactly if distances are recounted, or another trip ends with the batch |
| TripFits.RunBatchEndCompletesTrip | gps/batching/BatchingAdapter.cpp:661-1028 | over runs of such events a batch at its end completes a trip at the next report: trips make progress |
| TripModem.TripsAsAsked | gps/batching/BatchingAdapter.cpp:748-908 | live are the trips that were or are added, but for those that end, each with the distance and interval it was started with |
| TripModem.FlagsRecordEnds | gps/batching/BatchingAdapter.cpp:679-687 | each dropped flag records whether a trip with the ongoing interval, or distance, has ever ended |
| TripModem.StartAsks | gps/batching/BatchingAdapter.cpp:797-846 | a further start asks the modem for the shorter of its distance and the rest of the batch, at the shorter interval, or for nothing |
| TripModem.ReportBringsUpToDate | gps/batching/BatchingAdapter.cpp:671-673 | after a report all live trips are up to date, so that a start may follow |
| TripModem.NextInStepIff | gps/batching/BatchingAdapter.cpp:763-855 | every event keeps the modem at the batch the adapter takes for running, and at none without trips; a refused restart at a start, and a refused stop of the last trip, do not |
| TripModem.RefusedStartOutOfStep | gps/batching/BatchingAdapter.cpp:832-851 | a refused restart at a start never does while the batch is within its ongoing distance |
| TripModem.RunInStep | gps/batching/BatchingAdapter.cpp:748-1028 | so over every run |
| TripModem.NextIntervalExactIff | gps/batching/BatchingAdapter.cpp:978-1001 | every event keeps the ongoing interval the least that a live trip wants, exactly unless a failed query comes with a shorter one, or the last trip with it ends and the restart is refused |
| TripModem.RestartTakesInterval | gps/batching/BatchingAdapter.cpp:996-1001 | an accepted restart takes the least interval if a trip wants a shorter one or one with the ongoing interval has ended, and keeps it otherwise |
| TripModem.ModemRunsLeastInterval | gps/batching/BatchingAdapter.cpp:748-1028 | over runs of such events the modem runs the ongoing distance at the least interval of the live trips |
| TripModem.RunIdleAtRest | gps/batching/BatchingAdapter.cpp:903-943 | over every run there is no ongoing distance or interval without trips |
| TripExamples.LateAfterRestart | gps/batching/BatchingAdapter.cpp:838-843 | a run without stops in which a restarting start loses 50 metres: a trip of 100 metres is still running, and the batch too, after 120 |
| TripExamples.IntervalRestartStalls | gps/batching/BatchingAdapter.cpp:838-843 | a run in which the batch is at its end, no trip completes and nothing is restarted |
| TripExamples.StopOverrunsTrip | gps/batching/BatchingAdapter.cpp:885-1028 | a run in which a stop lets the batch run on when the other trip has driven past its end |
| Tracking.GnssAdapter.FindMultiplexed | gps/gnss/GnssAdapter.cpp:2464-2480 | the loop finds the least interval and power mode over any subset of the sessions |
| Tracking.GnssAdapter.StartTimeBasedTrackingMultiplex | gps/gnss/GnssAdapter.cpp:2453-2503 | what a start asks of the modem, nothing included |
| Tracking.GnssAdapter.UpdateTrackingMultiplex | gps/gnss/GnssAdapter.cpp:2674-2736 | what an update asks of the modem |
| Tracking.GnssAdapter.StopTimeBasedTrackingMultiplex | gps/gnss/GnssAdapter.cpp:2791-2840 | what a stop asks of the modem |
| Tracking.GnssAdapter.StartTracking | gps/gnss/GnssAdapter.cpp:2405-2442 | whole new session map and modem interval after a start and its answer, the erase on refusal included |
| Tracking.GnssAdapter.UpdateTrackingOptions | gps/gnss/GnssAdapter.cpp:2584-2647 | the same for an update, the old options restored on refusal |
| Tracking.GnssAdapter.StopTracking | gps/gnss/GnssAdapter.cpp:2757-2768 | the same for a stop; the session goes even when the modem refuses |
| Tracking.GnssAdapter.RestartSessions | gps/gnss/GnssAdapter.cpp:2144-2174 | the interval sent when the modem comes back |
| TrackingRuns.NextExactIff | gps/gnss/GnssAdapter.cpp:2453-2503 | each command, granted or refused, keeps the modem at the minimum over all live sessions if and only if it is of a stated kind |
| TrackingRuns.RefusedStopExactIff | gps/gnss/GnssAdapter.cpp:2757-2768 | a refused stop does so exactly if another session asks for the interval of the modem too |
| TrackingRuns.UpdateExactIff | gps/gnss/GnssAdapter.cpp:2674-2736 | an update does so exactly unless its session alone held the minimum, gives it up, and asks for no more power: then the modem hears nothing |
| TrackingRuns.RunExact | gps/gnss/GnssAdapter.cpp:2453-2503 | over every run of such commands the modem runs the minimum interval of the live sessions, and is stopped exactly when there is none |
| TrackingRuns.EngineUpResends | gps/gnss/GnssAdapter.cpp:2144-2174 | a modem that comes back is sent the interval it had |
| TrackingRuns.EngineUpRestoresExact | gps/gnss/GnssAdapter.cpp:2144-2174 | whatever was refused before, a modem that comes back runs the exact interval again |
| TrackingRuns.NextServed | gps/gnss/GnssAdapter.cpp:2505-2552 | start, update and stop, granted or refused, keep every session served |
| TrackingRuns.RunServed | gps/gnss/GnssAdapter.cpp:2405-2442 | over every run, whatever the modem refuses: while sessions are live the last accepted interval is at least 100 ms and at most each session's |
| TrackingRuns.StaleAfterUpdate | gps/gnss/GnssAdapter.cpp:2711-2732 | a run after which the modem keeps an interval no session asks for |
| TrackingAsked.RunHolds | gps/gnss/GnssAdapter.cpp:2405-2442 | over every run a session lives and holds, above the floor, exactly the options of its client's last start or update that was granted or needed no answer; it keeps the old ones after a refused update |
| TrackingAsked.OthersUnchanged | gps/gnss/GnssAdapter.cpp:2505-2552 | a command leaves all sessions but its own as they are |
| TrackingAsked.LoweringReachesModem | gps/gnss/GnssAdapter.cpp:2713-2731 | a granted start or update that wants a shorter interval than every session leaves the modem at that interval |
| TrackingAsked.SentIffWantsMore | gps/gnss/GnssAdapter.cpp:2481-2498 | the modem is asked exactly when a start, a changed update or a stopped session wants a shorter interval or more power than all others |
| GpsLock.GnssAdapter.EnableCommand | gps/gnss/GnssAdapter.cpp:2981-3003 | lock, control id and lock sent after an enable |
| GpsLock.GnssAdapter.DisableCommand | gps/gnss/GnssAdapter.cpp:3034-3053 | the same for a disable |
| GpsLock.GnssAdapter.NfwControlCommand | gps/gnss/GnssAdapter.cpp:4909-4930 | the same for an NFW control command, ignored in P behaviour |
| GpsLock.GnssAdapter.GnssUpdateConfigCommand | gps/gnss/GnssAdapter.cpp:1095-1125 | the same for a configuration update, with the engine update left out where the code drops its flag |
| GpsLock.GnssAdapter.SetConfig | gps/gnss/GnssAdapter.cpp:748-752 | the lock recomputed and sent when the modem comes back |
| GpsLock.NextAgrees | gps/gnss/GnssAdapter.cpp:1095-1125 | each command keeps the lock last sent equal to the one a restart would compute |
| GpsLock.RunAgrees | gps/gnss/GnssAdapter.cpp:735-752 | so over every run of commands and restarts |
| GpsLock.RestartResendsLock | gps/gnss/GnssAdapter.cpp:735-752 | a restart re-sends the lock the modem already has and changes nothing |
| GpsLock.EnabledUnlocksMo | gps/gnss/GnssAdapter.cpp:2981-3003 | while location is enabled the lock sent never has the MO bit |
| GpsLock.DisableLocksMo | gps/gnss/GnssAdapter.cpp:3034-3053 | after a disable it always has |
| GpsLock.NiFollowsNfwControl | gps/gnss/GnssAdapter.cpp:4909-4922 | in Q behaviour the NI bit is what the last NFW control command asked for, across enables and disables |
| GpsLock.LockFollowsUpdate | gps/gnss/GnssAdapter.cpp:1095-1125 | over every run with a configuration update: the configured lock is the one last asked for, with MO; it is the lock sent while location is disabled, and no bit is while it is enabled |
| GpsLock.LockFollowsCommands | gps/gnss/GnssAdapter.cpp:2981-3053 | over every run without one: each bit of the lock is what the last enable or disable, NFW command or configuration made it |
| GpsLock.QLockSent | gps/gnss/GnssAdapter.cpp:2992-2999 | and the modem has that lock once one has been sent |
| GpsLock.RunSwitches | gps/gnss/GnssAdapter.cpp:2983-3041 | location is enabled by the session of the last enable that counts, until its own disable |
| GpsLock.LateNfwMessageIff | gps/gnss/GnssAdapter.cpp:4909-4930 | an NFW message handled after the behaviour has changed keeps the agreement exactly if location is disabled |
| Blacklist.ConvertToGnssSvIdConfig | gps/gnss/GnssAdapter.cpp:1439-1504 | the four masks of a list, and whether it is valid |
| Blacklist.ConvertMaskToList | gps/gnss/GnssAdapter.cpp:1536-1561 | the shifting loop lists the bits of the mask |
| Blacklist.ConvertFromGnssSvIdConfig | gps/gnss/GnssAdapter.cpp:1506-1534 | the four lists in the order of the code |
| Blacklist.MasksOfList | gps/gnss/GnssAdapter.cpp:1483-1490 | a mask bit is set exactly if the list names it: by its id, by id 0, or by the id of bit 31, whose shift is sign-extended |
| Blacklist.InMaskToList | gps/gnss/GnssAdapter.cpp:1544-1560 | an id is listed exactly if its bit is set; id 0 alone stands for a full mask |
| Blacklist.MaskToListAscends | gps/gnss/GnssAdapter.cpp:1551-1560 | the list is strictly ascending |
| Blacklist.FirstIds | gps/gnss/GnssAdapter.cpp:1458-1475 | the first satellites of the four constellations have bit 0 |
| Blacklist.ListRoundTrip | gps/gnss/GnssAdapter.cpp:1439-1504 | list to masks to list gives the same valid ids for each constellation, for offsets up to 30; id 0 absorbs the others |
| Blacklist.MasksRoundTripIff | gps/gnss/GnssAdapter.cpp:1489 | masks to list to masks is the identity if and only if bit 31 is clear in every mask that is not full |
| Agps.AgpsStateMachine.ProcessSubscribe | gps/gnss/Agps.cpp:73-107 | whole new state, list and trace for a subscribe |
| Agps.AgpsStateMachine.ProcessUnsubscribe | gps/gnss/Agps.cpp:109-171 | the same for an unsubscribe |
| Agps.AgpsStateMachine.ProcessGranted | gps/gnss/Agps.cpp:173-194 | the same for a grant |
| Agps.AgpsStateMachine.ProcessReleased | gps/gnss/Agps.cpp:196-241 | the same for a release |
| Agps.AgpsStateMachine.ProcessDenied | gps/gnss/Agps.cpp:243-283 | the same for a denial |
| Agps.AgpsStateMachine.NotifyAllSubscribers | gps/gnss/Agps.cpp:310-343 | the traversal that erases as it goes notifies exactly the chosen subscribers in order, and deletes exactly those if asked |
| Agps.SweepIsNotifyAll | gps/gnss/Agps.cpp:318-342 | erasing during the traversal misses nobody and notifies nobody twice: it does what notifying and deleting all the chosen at once would |
| Agps.AgpsStateMachine.Insert | gps/gnss/Agps.cpp:392-411 | a subscriber is appended unless its handle is listed |
| Agps.AgpsStateMachine.DeleteSubscriber | gps/gnss/Agps.cpp:413-430 | exactly the subscribers with the handle go |
| Agps.AgpsStateMachine.AnyActiveSubscribers | gps/gnss/Agps.cpp:432-442 | true exactly if some listed subscriber is active |
| Agps.AgpsStateMachine.GetSubscriber | gps/gnss/Agps.cpp:465-478 | the first subscriber with the handle |
| Agps.AgpsStateMachine.DropAllSubscribers | gps/gnss/Agps.cpp:495-506 | the list is emptied without a callback |
| AgpsRuns.NotifiedAreDeleted | gps/gnss/Agps.cpp:310-343 | who is told of an end is exactly who is deleted |
| AgpsRuns.NextConserves | gps/gnss/Agps.cpp:109-171 | each event keeps additions less ends equal to the list, handle by handle |
| AgpsRuns.RunInvariant | gps/gnss/Agps.cpp:41-71 | over every run, restarts included: a released machine has no subscribers, the trace accounts for the list, and requests alternate with releases |
| AgpsRuns.RunStatesBacked | gps/gnss/Agps.cpp:73-283 | without a modem restart: Pending and Acquired have an active subscriber, Releasing has one at all |
| AgpsRuns.SubscribersConserved | gps/gnss/Agps.cpp:109-171 | for every handle: additions less ends less restart drops is 1 if it is listed and 0 if not |
| AgpsRuns.AddedMinusEnded | gps/gnss/Agps.cpp:345-380 | without a modem restart: additions less terminal callbacks |
| AgpsRuns.HandlesDistinct | gps/gnss/Agps.cpp:392-411 | no two listed subscribers share a handle, in any run |
| AgpsRuns.NextInStep | gps/gnss/Agps.cpp:285-308 | each event keeps requests, releases and losses alternating, in step with the state |
| AgpsRuns.BetweenRequests | gps/gnss/Agps.cpp:285-308 | between two requests lies a release, a forced release or a denial |
| AgpsRuns.BetweenReleases | gps/gnss/Agps.cpp:285-308 | between two releases lies a request |
| AgpsRuns.RequestOnEnteringPending | gps/gnss/Agps.cpp:73-107 | a request is sent exactly when an event takes the machine into Pending |
| AgpsNotices.NextSays | gps/gnss/Agps.cpp:345-380 | every event tells each handle exactly what it should be told: open, failed or closed, once or not at all |
| AgpsNotices.RunSays | gps/gnss/Agps.cpp:345-380 | so after every run |
| AgpsNotices.EntryFollows | gps/gnss/Agps.cpp:392-430 | a subscriber joins under a handle that is not listed, leaves with its last notice or a modem restart, and becomes inactive when it releases but waits |
| AgpsNotices.StateFollows | gps/gnss/Agps.cpp:73-283 | the next state for every state and event, by who else is listed and active |
| AgpsNotices.ReleaseSentIff | gps/gnss/Agps.cpp:133-144 | a release of the connection is sent exactly when a subscriber's release takes the machine off it |
| AgpsNotices.RunToldOpen | gps/gnss/Agps.cpp:92-98 | over every run: in Acquired every active subscriber has been told that the connection is open since it was requested, and in Pending nobody has |
| AgpsManagement.AgpsManager.RequestATL | gps/gnss/Agps.cpp:563-597 | which machine subscribes, or the failed open status if there is none; the other machine is unchanged |
| AgpsManagement.AgpsManager.ReleaseATL | gps/gnss/Agps.cpp:599-625 | the machine that holds the handle unsubscribes, the first of the two if both do |
| AgpsManagement.AgpsManager.ReportAtlOpenSuccess | gps/gnss/Agps.cpp:627-644 | the machine for the type is granted |
| AgpsManagement.AgpsManager.ReportAtlOpenFailed | gps/gnss/Agps.cpp:646-653 | the machine for the type is denied |
| AgpsManagement.AgpsManager.ReportAtlClosed | gps/gnss/Agps.cpp:655-662 | the machine for the type is released |
| AgpsManagement.AgpsManager.HandleModemSSR | gps/gnss/Agps.cpp:664-675 | both machines drop their subscribers and keep their states |
| AgpsManagement.NeverReleasing | gps/gnss/Agps.cpp:592-597 | through the manager no machine is ever in Releasing, even after modem restarts |
| AgpsManagement.ManagerReached | gps/gnss/Agps.cpp:563-675 | every machine behind the manager is in a state of some run of its own |
| AgpsManagement.ManagerConserves | gps/gnss/Agps.cpp:563-675 | so both machines account for their subscribers, over every run of messages |
| AgpsManagement.ReportTells | gps/gnss/Agps.cpp:627-662 | over every run: a success, failure or close reported for a type tells the subscribers of its machine just that and lets them go unless it is a success; the other machine does not change |
| AgpsManagement.RequestLists | gps/gnss/Agps.cpp:563-597 | a request is listed with the machine of its type, or told to have failed |
| AgpsManagement.ReleaseCloses | gps/gnss/Agps.cpp:599-625 | a release is told closed and let go, by the first machine that lists it |
| AgpsManagement.RestartDropsAll | gps/gnss/Agps.cpp:664-675 | a modem restart drops everyone in both machines silently and leaves their states |
| AgpsManagement.Routing | gps/gnss/Agps.cpp:537-561 | which types go to which machine |
| BatchFullEvent.BatchingAdapter.AutoReportBatchingSessionsCount | gps/batching/BatchingAdapter.cpp:299-310 | the loop counts the sessions that report automatically |
| BatchFullEvent.BatchingAdapter.StartBatching | gps/batching/BatchingAdapter.cpp:371-386 | whole new state after a start |
| BatchFullEvent.BatchingAdapter.OnStartAnswer | gps/batching/BatchingAdapter.cpp:387-402 | and after its answer |
| BatchFullEvent.BatchingAdapter.StopBatching | gps/batching/BatchingAdapter.cpp:497-508 | whole new state after a stop |
| BatchFullEvent.BatchingAdapter.OnStopAnswer | gps/batching/BatchingAdapter.cpp:509-532 | and after its success, the restart included |
| BatchFullEvent.BatchingAdapter.UpdateClientsEventMask | gps/batching/BatchingAdapter.cpp:147-162 | the bit recomputed from the sessions |
| BatchFullEvent.FailedStartKeepsBitIff | gps/batching/BatchingAdapter.cpp:388-399 | the failure of a start keeps the event right if and only if it does not take away the last automatic session while it was itself a start without reports |
| BatchFullEvent.NextBitBacked | gps/batching/BatchingAdapter.cpp:371-534 | each event keeps the bit right if and only if it is not such a failure |
| BatchFullEvent.EventMatchesSessions | gps/batching/BatchingAdapter.cpp:147-162 | over every interleaving without such a failure: an automatic session has the bit set, and with nothing in flight the bit is what updateClientsEventMask computes |
| BatchFullEvent.StartsAndStopsMatch | gps/batching/BatchingAdapter.cpp:371-403 | starts, which may fail, and stops without restart never bring such a failure about, in any interleaving |
| BatchFullEvent.RestartOverStart | gps/batching/BatchingAdapter.cpp:522-526 | a concrete interleaving with a restart that does, and leaves the bit set with nothing in flight |
| BatchFullEvent.SessionsFollow | gps/batching/BatchingAdapter.cpp:371-534 | over every interleaving the sessions and their modes follow from the starts, stops and answers |
| BatchFullEvent.RequestsFollow | gps/batching/BatchingAdapter.cpp:371-534 | and so do the requests on their way, restarts included |
| BatchFullEvent.BitFollows | gps/batching/BatchingAdapter.cpp:375-398 | the bit turns on when an automatic session begins as the only one, off when the last one ends, and with the clients to whether there is one |
| Geofences.GeofenceAdapter.SaveGeofenceItem | gps/geofence/GeofenceAdapter.cpp:644-661 | both indexes get the item |
| Geofences.GeofenceAdapter.RemoveGeofenceItem | gps/geofence/GeofenceAdapter.cpp:663-686 | both lose it, and neither if its key is gone |
| Geofences.GeofenceAdapter.OnAddAnswer | gps/geofence/GeofenceAdapter.cpp:252-260 | whole new state after the answer to an addition, by a client or after a modem restart, which also sends the pause again |
| Geofences.GeofenceAdapter.RemoveGeofence | gps/geofence/GeofenceAdapter.cpp:346-357 | a removal is sent for a known key only |
| Geofences.GeofenceAdapter.OnRemoveAnswer | gps/geofence/GeofenceAdapter.cpp:354-360 | whole new state after its answer |
| Geofences.GeofenceAdapter.StopClientSessions | gps/geofence/GeofenceAdapter.cpp:50-78 | the loop erases exactly the keys of the client and sends a removal for each |
| Geofences.GeofenceAdapter.OnDropAnswer | gps/geofence/GeofenceAdapter.cpp:62-72 | the object goes when that removal succeeds |
| Geofences.GeofenceAdapter.RestartGeofences | gps/geofence/GeofenceAdapter.cpp:141-176 | both indexes are emptied and every geofence is added anew, with its key |
| Geofences.GeofenceAdapter.PauseGeofenceItem | gps/geofence/GeofenceAdapter.cpp:688-698 | only the pause flag of one object changes |
| Geofences.GeofenceAdapter.ResumeGeofenceItem | gps/geofence/GeofenceAdapter.cpp:700-710 | likewise |
| Geofences.GeofenceAdapter.ModifyGeofenceItem | gps/geofence/GeofenceAdapter.cpp:712-724 | only the options of one object change |
| Geofences.NextConsistentIff | gps/geofence/GeofenceAdapter.cpp:50-176 | every request and answer, in any order, keeps the two indexes consistent if and only if it is not an addition under an id that a key points to or that is being removed for a stopped client |
| Geofences.SaveConsistentIff | gps/geofence/GeofenceAdapter.cpp:644-661 | exactly when a saved item keeps them so |
| Geofences.KeysInjective | gps/geofence/GeofenceAdapter.cpp:96-117 | unless an id is so reused: the id of a key leads back to that key, at all times, so no two keys share one |
| Geofences.IndexesInverse | gps/geofence/GeofenceAdapter.cpp:644-686 | with no removal of a stopped client outstanding and none failed, the two indexes are exact inverses |
| Geofences.ReusedIdDangles | gps/geofence/GeofenceAdapter.cpp:62-72 | a run in which the hardware reuses an id with a removal outstanding, and the late answer leaves a key that points nowhere |
| Geofences.StoppedGoneIff | gps/geofence/GeofenceAdapter.cpp:50-78 | a stop leaves the client without keys, and without any to come exactly if none of its additions is on its way |
| Geofences.NextGoneIff | gps/geofence/GeofenceAdapter.cpp:141-176 | until the client adds again it stays so, if and only if the modem does not restart while a geofence of it is still listed |
| Geofences.RunGone | gps/geofence/GeofenceAdapter.cpp:50-176 | so over every run after the stop |
| Geofences.RestartRevivesStopped | gps/geofence/GeofenceAdapter.cpp:141-176 | a run in which the restart brings the stopped client's geofence back, key and all, with nothing left to remove it |
| GeofenceItems.RequestsFollow | gps/geofence/GeofenceAdapter.cpp:50-176 | each event asks for exactly the additions, removals and pauses it should, with the id, key, options and place they are about |
| GeofenceItems.IdsFollow | gps/geofence/GeofenceAdapter.cpp:644-686 | over every run without reuse of an id: the id of each key follows from the answers, stops and restarts |
| GeofenceItems.ItemsFollow | gps/geofence/GeofenceAdapter.cpp:644-724 | and so does the geofence under each id, with its options and pause flag |
| GeofenceItems.RemovalErases | gps/geofence/GeofenceAdapter.cpp:663-686 | a granted removal of a listed geofence leaves neither the id nor a key pointing to it, and all else as it was |
| GeofenceItems.RemovalGoneIff | gps/geofence/GeofenceAdapter.cpp:354-360 | after it a key is gone exactly if the id was then the key's, or the key was gone |
| GeofenceItems.NextKeyGone | gps/geofence/GeofenceAdapter.cpp:141-176 | gone it stays, modem restarts included, until it is added again |
| GeofenceItems.RemovedForGood | gps/geofence/GeofenceAdapter.cpp:346-360 | over every run: a removal granted before a modem restart or the stop of its client takes the geofence away for good |
| GeofenceItems.RemovedIff | gps/geofence/GeofenceAdapter.cpp:346-360 | and one granted later exactly if the id is then the key's again, or the key was gone |
| GeofenceItems.RemovalOvertaken | gps/geofence/GeofenceAdapter.cpp:141-176 | a run in which the restart comes first, the removal succeeds, and the geofence stays |
| AdapterTable.LocApiBase.AddAdapter | gps/core/LocApiBase.cpp:230-239 | the adapter is appended if it is new and there is room; no holes, no duplicates; open is posted exactly then |
| AdapterTable.LocApiBase.RemoveAdapter | gps/core/LocApiBase.cpp:241-275 | exactly the given adapter goes, the last one takes its place; close or open is posted, or nothing for a stranger |
| AdapterTable.LocApiBase.CloseGap | gps/core/LocApiBase.cpp:246-272 | the inner scan and the move into the gap |
| AdapterTable.LocApiBase.GetEvtMask | gps/core/LocApiBase.cpp:167-174 | an event is in the mask exactly if some registered adapter wants it and it is not excluded |
| AdapterTable.RemovedDeletes | gps/core/LocApiBase.cpp:241-263 | as a multiset the table loses the given adapter, once, and nothing else |
| AdapterTable.AddThenRemove | gps/core/LocApiBase.cpp:230-263 | adding and removing again restores the table |
| AdapterTable.RemovedPlaces | gps/core/LocApiBase.cpp:254-264 | the other entries keep their places, but for the last, which takes that of the removed one |
| AdapterTable.MessagePerChange | gps/core/LocApiBase.cpp:230-275 | one message is posted by each call that changes the table, and none by any other; ten adapters fit |
| AdapterTable.RunTable | gps/core/LocApiBase.cpp:230-275 | over every run the table has no duplicates and fits |
| AdapterTable.CloseOnEmptying | gps/core/LocApiBase.cpp:265-271 | a close is posted exactly by the call that empties the table |
| AdapterTable.ClosedWhenEmpty | gps/core/LocApiBase.cpp:265-271 | over every run the last message is a close exactly when the table is empty again |
| DestroyHandshake.LocationAPI.Destroy | gps/location/LocationAPI.cpp:229-290 | removals sent, adapters to wait for, and the immediate callback |
| DestroyHandshake.LocationAPI.OnRemoveClientComplete | gps/location/LocationAPI.cpp:104-128 | one adapter less to wait for, callback and delete with the last |
| DestroyHandshake.ToldOnceAllAnswered | gps/location/LocationAPI.cpp:104-128 | in every order of events after a destroy with a callback: callback and delete have each happened once if all adapters of the client have answered, and not at all before |
| DestroyHandshake.RunAwaitedAsked | gps/location/LocationAPI.cpp:240-276 | every adapter waited for has been asked to remove the client, so its answer is to come |
| DestroyHandshake.NoCallbackNoDelete | gps/location/LocationAPI.cpp:229-290 | a destroy without a callback never calls back and never deletes |
| DestroyHandshake.AskedOnce | gps/location/LocationAPI.cpp:263-276 | after a destroy, with or without a callback, each adapter of the client has been asked once to remove it, and no other |
| DestroyHandshake.RunNotifiedFirst | gps/location/LocationAPI.cpp:121-127 | the object is deleted only right after the callback |
| DestroyHandshake.NextRegistered | gps/location/LocationAPI.cpp:229-292 | a client is live with its adapters from its creation until its destroy |
| DestroyHandshake.DestroyingUntilAnswered | gps/location/LocationAPI.cpp:104-128 | until then the wait mask is exactly the adapters that have not answered |

## Left out

- BoyerMoore.Search: the empty pattern, for which the program builds its tables with a length that wraps below zero before it returns; and texts so long that text plus pattern length exceeds the range of int (`ScanText` shows i stays below that sum).
- BoyerMoore.MakeDelta1: the `uint8_t` conversion of a signed char; bytes are taken as 0 to 255 throughout.
- TripBatching.BatchingAdapter.StartTripBatchingMultiplex: the event mask and `mBatchingSessions`, which trips share with other batching and the code itself does not keep consistent for them.
- TripBatching.BatchingAdapter.StopTripBatchingMultiplex: the event mask, and the restart with new options, which is a stop followed by a start.
- TripBatching.BatchingAdapter.RestartTripBatching: the event mask; reports that overtake an answer; the count of batched positions, which is never used.
- TripRuns.NextNoneAheadIff: events come with the answers to earlier requests handled, the distance query of a restart is answered (the code takes whatever value it gets), and the odometer stays below 32 bits; a modem restart is not part of the runs.
- TripFits.NextBatchFitsIff: trips have positive distances, and the batch is not above its ongoing distance when the adapter hears of it.
- Tracking.GnssAdapter.StartTracking: clients without a callback, pending messages before the engine is known, distance-based sessions and switches to them, `stopClientSessions`, the engine hub; of the options sent only the interval, as the power mode sent is not minimal in the code; when something is sent is modelled for both.
- Tracking.GnssAdapter.UpdateTrackingOptions: switches between time-based and distance-based sessions, which do not keep the session map in step with the modem.
- TrackingAsked.SentIffWantsMore: sessions have a power mode other than GNSS_POWER_MODE_INVALID, which the search takes for unset.
- TrackingRuns.NextExactIff: starts are under new keys, as generated session ids are.
- GpsLock.GnssAdapter.GnssUpdateConfigCommand: all parts of the configuration but the lock; a lock the modem refuses to set.
- Blacklist.ConvertToGnssSvIdConfig: ids whose shift exceeds 31, undefined in C++; `size` fields and flags. The bit-31 shift is modelled as two's complement with sign extension.
- Agps: APN, bearer and type data, and the rewriting of the emergency type, which only changes that data; subscribers are values in a sequence, so aliasing of the current subscriber with the list is not modelled.
- AgpsManagement.AgpsManager.ReportAtlOpenSuccess: a report for a type without a machine, which the program dereferences unchecked.
- AgpsManagement.AgpsManager.ReportAtlOpenFailed: the same.
- AgpsManagement.AgpsManager.ReportAtlClosed: the same.
- BatchFullEvent.BatchingAdapter.AutoReportBatchingSessionsCount: the trip sessions, which the program adds to the count but does not keep consistent with `mBatchingSessions`.
- BatchFullEvent.BatchingAdapter.UpdateClientsEventMask: the BATCH_STATUS bit, which depends on the clients' callbacks alone.
- BatchFullEvent.BatchingAdapter.OnStopAnswer: a failed stop, restored with the wrong options by the code; restarts as a trip.
- Geofences.GeofenceAdapter.OnAddAnswer: error arrays and aggregated responses; the options and place of a geofence are opaque numbers.
- Geofences.NextConsistentIff: clients add under new keys, as generated ids are.
- AdapterTable.LocApiBase.AddAdapter: the message task and the handling of the open and close messages.
- DestroyHandshake.LocationAPI.Destroy: loading of the interfaces, the mutex (calls are taken one at a time), and which callbacks register a client with which adapter.
- Camera, fingerprint, lights, touch, init, RIL, shims, logging, files and properties: no state with invariants of its own.
- `SystemStatus` and the network observer: rest on containers whose source is not part of this model.
