/**
 * The batch-full event of the batching adapter: it is registered while some
 * batching session wants automatic reports.  Starts and stops are requests the
 * modem answers later, in any order; a start may fail, a stop succeeds.
 */
module BatchFullEvent {
  import opened Wrappers

  /** The session keys stand for the client and the id. */
  type Key = int

  datatype Mode = Routine | NoAutoReport

  /** A request on its way; a stop carries the mode the session is to restart with. */
  datatype Request =
    | StartRequest(key: Key, mode: Mode)
    | StopRequest(key: Key, mode: Mode, restart: Option<Mode>)

  /** batchFull is the event bit; used holds every key a session was ever started under. */
  datatype State = State(sessions: map<Key, Mode>, batchFull: bool, inFlight: multiset<Request>, used: set<Key>)

  datatype Event =
    | Start(key: Key, mode: Mode)
    | Stop(key: Key, restart: Option<Mode>)
    | Answer(request: Request, success: bool)
    | ClientsChange

  function AutoSessions(sessions: map<Key, Mode>): set<Key> {
    set k | k in sessions && sessions[k] != NoAutoReport
  }

  predicate AnyAuto(sessions: map<Key, Mode>) {
    exists k :: k in sessions && sessions[k] != NoAutoReport
  }

  // ----- The steps, on values -----

  function OnStart(st: State, key: Key, mode: Mode): State {
    State(st.sessions[key := mode],
          st.batchFull || (mode != NoAutoReport && !AnyAuto(st.sessions)),
          st.inFlight + multiset{StartRequest(key, mode)},
          st.used + {key})
  }

  function OnStop(st: State, key: Key, restart: Option<Mode>): State
    requires key in st.sessions
  {
    st.(sessions := st.sessions - {key},
        inFlight := st.inFlight + multiset{StopRequest(key, st.sessions[key], restart)})
  }

  function OnAnswer(st: State, request: Request, success: bool): State {
    var left := st.inFlight - multiset{request};
    match request
    case StartRequest(key, mode) =>
      if success then st.(inFlight := left)
      else
        var sessions := st.sessions - {key};
        st.(sessions := sessions, inFlight := left,
            batchFull := st.batchFull && !(mode != NoAutoReport && !AnyAuto(sessions)))
    case StopRequest(key, _, restart) =>
      var stopped := OnStopped(st, request);
      if restart.Some? then OnStart(stopped, key, restart.value) else stopped
  }

  /** The success of a stop, before any restart. */
  function OnStopped(st: State, request: Request): State {
    st.(inFlight := st.inFlight - multiset{request},
        batchFull := st.batchFull && !(!AnyAuto(st.sessions) && request.mode != NoAutoReport))
  }

  /** Sessions start under new keys; a session is stopped while it is known. */
  predicate Enabled(st: State, e: Event) {
    match e
    case Start(key, _) => key !in st.used
    case Stop(key, _) => key in st.sessions
    case Answer(request, success) => request in st.inFlight && (request.StopRequest? ==> success)
    case ClientsChange => true
  }

  function Next(st: State, e: Event): State
    requires Enabled(st, e)
  {
    match e
    case Start(key, mode) => OnStart(st, key, mode)
    case Stop(key, restart) => OnStop(st, key, restart)
    case Answer(request, success) => OnAnswer(st, request, success)
    case ClientsChange => st.(batchFull := AnyAuto(st.sessions))
  }

  // ----- The adapter -----

  class BatchingAdapter {
    var batchingSessions: map<Key, Mode>
    var batchFullBit: bool
    ghost var inFlight: multiset<Request>
    ghost var used: set<Key>

    ghost function View(): State
      reads this
    {
      State(batchingSessions, batchFullBit, inFlight, used)
    }

    constructor ()
      ensures View() == State(map[], false, multiset{}, {})
    {
      batchingSessions, batchFullBit, inFlight, used := map[], false, multiset{}, {};
    }

    method AutoReportBatchingSessionsCount() returns (count: nat)
      ensures count == |AutoSessions(batchingSessions)|
    {
      count := 0;
      var keys := batchingSessions.Keys;
      ghost var counted: set<Key> := {};
      while keys != {}
        invariant keys <= batchingSessions.Keys
        invariant counted == AutoSessions(batchingSessions) - keys && count == |counted|
        decreases |keys|
      {
        assert (forall k :: k !in keys) ==> keys == {};
        var k :| k in keys;
        if batchingSessions[k] != NoAutoReport {
          count := count + 1;
          counted := counted + {k};
        }
        keys := keys - {k};
      }
      assert counted == AutoSessions(batchingSessions);
    }

    method StartBatching(key: Key, mode: Mode)
      modifies this
      ensures View() == OnStart(old(View()), key, mode)
    {
      var count := AutoReportBatchingSessionsCount();
      NoneCounted(batchingSessions);
      if mode != NoAutoReport && count == 0 {
        batchFullBit := true;
      }
      batchingSessions := batchingSessions[key := mode];
      inFlight, used := inFlight + multiset{StartRequest(key, mode)}, used + {key};
    }

    /** The callback of startBatching. */
    method OnStartAnswer(key: Key, mode: Mode, success: bool)
      modifies this
      ensures View() == OnAnswer(old(View()), StartRequest(key, mode), success)
    {
      inFlight := inFlight - multiset{StartRequest(key, mode)};
      if !success {
        batchingSessions := batchingSessions - {key};
        var count := AutoReportBatchingSessionsCount();
        NoneCounted(batchingSessions);
        if mode != NoAutoReport && count == 0 {
          batchFullBit := false;
        }
      }
    }

    method StopBatching(key: Key, restart: Option<Mode>)
      modifies this
      ensures View() == if key in old(batchingSessions) then OnStop(old(View()), key, restart) else old(View())
    {
      if key in batchingSessions {
        inFlight := inFlight + multiset{StopRequest(key, batchingSessions[key], restart)};
        batchingSessions := batchingSessions - {key};
      }
    }

    /** The callback of stopBatching for a stop that succeeds. */
    method OnStopAnswer(key: Key, mode: Mode, restart: Option<Mode>)
      modifies this
      ensures View() == OnAnswer(old(View()), StopRequest(key, mode, restart), true)
    {
      EndStop(StopRequest(key, mode, restart));
      if restart.Some? {
        StartBatching(key, restart.value);
      }
    }

    method EndStop(request: Request)
      modifies this
      ensures View() == OnStopped(old(View()), request)
    {
      inFlight := inFlight - multiset{request};
      var count := AutoReportBatchingSessionsCount();
      NoneCounted(batchingSessions);
      if count == 0 && request.mode != NoAutoReport {
        batchFullBit := false;
      }
    }

    method UpdateClientsEventMask()
      modifies this
      ensures View() == old(View()).(batchFull := AnyAuto(old(batchingSessions)))
    {
      var count := AutoReportBatchingSessionsCount();
      NoneCounted(batchingSessions);
      batchFullBit := count > 0;
    }
  }

  lemma NoneCounted(sessions: map<Key, Mode>)
    ensures |AutoSessions(sessions)| == 0 <==> !AnyAuto(sessions)
  {
    if AnyAuto(sessions) {
      var k :| k in sessions && sessions[k] != NoAutoReport;
      assert k in AutoSessions(sessions);
    } else {
      assert forall k :: k !in AutoSessions(sessions);
      assert AutoSessions(sessions) == {};
    }
  }

  // ----- When the event is right -----

  const INITIAL := State(map[], false, multiset{}, {})

  /** The stop of an automatic session is on its way. */
  predicate AutoStopComing(st: State) {
    exists r :: r in st.inFlight && r.StopRequest? && r.mode != NoAutoReport
  }

  /** An automatic session has the event on; without one, a stop that will turn it off is on its way. */
  predicate BitBacked(st: State) {
    (AnyAuto(st.sessions) ==> st.batchFull) && (st.batchFull && !AnyAuto(st.sessions) ==> AutoStopComing(st))
  }

  /**
   * The failure of a start without automatic reports takes away the last
   * automatic session: one restarted under that key in the meantime.
   */
  predicate Orphans(st: State, e: Event) {
    && e.Answer? && e.request.StartRequest? && !e.success && e.request.mode == NoAutoReport
    && AnyAuto(st.sessions) && !AnyAuto(st.sessions - {e.request.key}) && !AutoStopComing(st)
  }

  /** What the stops on their way say about their sessions. */
  predicate StopsFit(st: State) {
    && (forall k :: k in st.sessions ==> k in st.used)
    && (forall r :: r in st.inFlight && r.StopRequest? ==> r.key in st.used && r.key !in st.sessions)
    && (forall r, s :: r in st.inFlight && s in st.inFlight && r.StopRequest? && s.StopRequest? && s.key == r.key
          ==> s == r && st.inFlight[r] == 1)
  }

  lemma NextStopsFit(st: State, e: Event)
    requires StopsFit(st) && Enabled(st, e)
    ensures StopsFit(Next(st, e))
  {
    match e
    case Start(key, _) => FewerStopsFit(st, Next(st, e), key);
    case Stop(key, _) =>
    case Answer(request, success) => AnswerStopsFit(st, request, success);
    case ClientsChange =>
  }

  lemma AnswerStopsFit(st: State, request: Request, success: bool)
    requires StopsFit(st) && request in st.inFlight && (request.StopRequest? ==> success)
    ensures StopsFit(OnAnswer(st, request, success))
  {
    var after := OnAnswer(st, request, success);
    if request.StopRequest? {
      forall r | r in after.inFlight && r.StopRequest?
        ensures r.key != request.key
      {
        assert r in st.inFlight && (r == request ==> st.inFlight[r] > 1);
      }
    }
    FewerStopsFit(st, after, request.key);
  }

  /** No stop comes, and a session may come under a key without a stop. */
  lemma FewerStopsFit(st: State, after: State, key: Key)
    requires StopsFit(st) && st.used <= after.used
    requires forall r: Request :: r.StopRequest? ==> after.inFlight[r] <= st.inFlight[r]
    requires forall k :: k in after.sessions ==> k in st.sessions || (k == key && k in after.used)
    requires key in after.sessions && key !in st.sessions ==>
               forall r :: r in after.inFlight && r.StopRequest? ==> r.key != key
    ensures StopsFit(after)
  {
  }

  /** The stops on their way after a start, and after its answer, are the same. */
  lemma SameStops(st: State, after: State)
    requires forall r: Request :: r.StopRequest? ==> after.inFlight[r] == st.inFlight[r]
    ensures AutoStopComing(after) <==> AutoStopComing(st)
  {
  }

  lemma StartBitBacked(st: State, key: Key, mode: Mode)
    requires BitBacked(st) && key !in st.sessions
    ensures BitBacked(OnStart(st, key, mode))
  {
    var after := OnStart(st, key, mode);
    SameStops(st, after);
    assert key in after.sessions;
    if AnyAuto(st.sessions) {
      var k :| k in st.sessions && st.sessions[k] != NoAutoReport;
      assert after.sessions[k] == st.sessions[k];
    }
  }

  lemma StopBitBacked(st: State, key: Key, restart: Option<Mode>)
    requires BitBacked(st) && key in st.sessions
    ensures BitBacked(OnStop(st, key, restart))
  {
    var after, mine := OnStop(st, key, restart), StopRequest(key, st.sessions[key], restart);
    assert mine in after.inFlight;
    if after.batchFull && !AnyAuto(after.sessions) && mine.mode == NoAutoReport {
      assert forall k :: k in st.sessions ==> k == key || (k in after.sessions && after.sessions[k] == st.sessions[k]);
      var r :| r in st.inFlight && r.StopRequest? && r.mode != NoAutoReport;
      assert r in after.inFlight;
    }
  }

  /** The failure of a start keeps the event right exactly if it does not orphan it. */
  lemma FailedStartKeepsBitIff(st: State, request: Request)
    requires BitBacked(st) && request.StartRequest?
    ensures BitBacked(OnAnswer(st, request, false)) <==> !Orphans(st, Answer(request, false))
  {
  }

  lemma StopAnswerBitBacked(st: State, request: Request)
    requires StopsFit(st) && BitBacked(st) && request in st.inFlight && request.StopRequest?
    ensures BitBacked(OnAnswer(st, request, true))
  {
    var stopped := OnStopped(st, request);
    if stopped.batchFull && !AnyAuto(stopped.sessions) {
      var r :| r in st.inFlight && r.StopRequest? && r.mode != NoAutoReport;
      assert r in stopped.inFlight;
    }
    if request.restart.Some? {
      StartBitBacked(stopped, request.key, request.restart.value);
    }
  }

  lemma NextBitBacked(st: State, e: Event)
    requires StopsFit(st) && BitBacked(st) && Enabled(st, e)
    ensures BitBacked(Next(st, e)) <==> !Orphans(st, e)
  {
    match e
    case Start(key, mode) => StartBitBacked(st, key, mode);
    case Stop(key, restart) => StopBitBacked(st, key, restart);
    case Answer(request, success) =>
      if request.StopRequest? {
        StopAnswerBitBacked(st, request);
      } else if success {
        SameStops(st, OnAnswer(st, request, success));
      } else {
        FailedStartKeepsBitIff(st, request);
      }
    case ClientsChange =>
  }

  // ----- Over all interleavings -----

  /** sts are the states of a run with the events es. */
  ghost predicate IsRun(sts: seq<State>, es: seq<Event>) {
    && |sts| == |es| + 1
    && sts[0] == INITIAL
    && forall i :: 0 <= i < |es| ==> StepOf(sts, es, i)
  }

  ghost predicate StepOf(sts: seq<State>, es: seq<Event>, i: nat)
    requires i < |es| && |sts| == |es| + 1
  {
    Enabled(sts[i], es[i]) && sts[i + 1] == Next(sts[i], es[i])
  }

  lemma {:induction false} RunBitBacked(sts: seq<State>, es: seq<Event>, i: nat)
    requires IsRun(sts, es) && i < |sts|
    requires forall k :: 0 <= k < i ==> !Orphans(sts[k], es[k])
    ensures StopsFit(sts[i]) && BitBacked(sts[i])
  {
    if i == 0 {
    } else {
      RunBitBacked(sts, es, i - 1);
      assert StepOf(sts, es, i - 1);
      NextStopsFit(sts[i - 1], es[i - 1]);
      NextBitBacked(sts[i - 1], es[i - 1]);
    }
  }

  /**
   * In every interleaving in which no failure orphans the event: an automatic
   * session has it registered, and with no request on its way it is registered
   * exactly if there is one, which is what updateClientsEventMask computes.
   */
  lemma EventMatchesSessions(sts: seq<State>, es: seq<Event>, i: nat)
    requires IsRun(sts, es) && i < |sts|
    requires forall k :: 0 <= k < i ==> !Orphans(sts[k], es[k])
    ensures AnyAuto(sts[i].sessions) ==> sts[i].batchFull
    ensures sts[i].inFlight == multiset{} ==> sts[i].batchFull == AnyAuto(sts[i].sessions)
    ensures sts[i].inFlight == multiset{} ==> Next(sts[i], ClientsChange) == sts[i]
  {
    RunBitBacked(sts, es, i);
  }

  // ----- Starts and stops alone never orphan the event -----

  predicate NoRestart(e: Event) {
    e.Stop? ==> e.restart == None
  }

  /** A session whose start is on its way has the mode of that start, and no stop restarts one. */
  predicate StartsFit(st: State) {
    && (forall k :: k in st.sessions ==> k in st.used)
    && (forall r :: r in st.inFlight ==> r.key in st.used)
    && (forall r :: r in st.inFlight && r.StartRequest? && r.key in st.sessions ==> st.sessions[r.key] == r.mode)
    && (forall r :: r in st.inFlight && r.StopRequest? ==> r.restart == None)
  }

  lemma NextStartsFit(st: State, e: Event)
    requires StartsFit(st) && Enabled(st, e) && NoRestart(e)
    ensures StartsFit(Next(st, e))
  {
  }

  lemma {:induction false} RunStartsFit(sts: seq<State>, es: seq<Event>, i: nat)
    requires IsRun(sts, es) && i < |sts| && forall e :: e in es ==> NoRestart(e)
    ensures StartsFit(sts[i])
  {
    if i == 0 {
    } else {
      RunStartsFit(sts, es, i - 1);
      assert StepOf(sts, es, i - 1) && es[i - 1] in es;
      NextStartsFit(sts[i - 1], es[i - 1]);
    }
  }

  /** So the event matches in every interleaving of starts, which may fail, and stops. */
  lemma StartsAndStopsMatch(sts: seq<State>, es: seq<Event>, i: nat)
    requires IsRun(sts, es) && i < |sts| && forall e :: e in es ==> NoRestart(e)
    ensures AnyAuto(sts[i].sessions) ==> sts[i].batchFull
    ensures sts[i].inFlight == multiset{} ==> sts[i].batchFull == AnyAuto(sts[i].sessions)
  {
    forall k | 0 <= k < i
      ensures !Orphans(sts[k], es[k])
    {
      RunStartsFit(sts, es, k);
      assert StepOf(sts, es, k);
      FittingStartOrphansNothing(sts[k], es[k]);
    }
    EventMatchesSessions(sts, es, i);
  }

  lemma FittingStartOrphansNothing(st: State, e: Event)
    requires StartsFit(st) && Enabled(st, e)
    ensures !Orphans(st, e)
  {
    if e.Answer? && e.request.mode == NoAutoReport && AnyAuto(st.sessions) {
      var k :| k in st.sessions && st.sessions[k] != NoAutoReport;
      assert e.request.StartRequest? ==> k in st.sessions - {e.request.key};
    }
  }

  /**
   * With restarts it can happen: a session restarted with automatic reports
   * before its start has failed is erased by the late failure, and the event
   * stays registered with nothing in flight.
   */
  lemma RestartOverStart()
    ensures var s1 := OnStart(INITIAL, 1, NoAutoReport);
            var s2 := OnStop(s1, 1, Some(Routine));
            var s3 := OnAnswer(s2, StopRequest(1, NoAutoReport, Some(Routine)), true);
            var s4 := OnAnswer(s3, StartRequest(1, NoAutoReport), false);
            var s5 := OnAnswer(s4, StartRequest(1, Routine), true);
            Orphans(s3, Answer(StartRequest(1, NoAutoReport), false))
            && s5.inFlight == multiset{} && s5.sessions == map[] && s5.batchFull
  {
  }

  // ----- Sessions and requests follow from the events -----

  function Session(st: State, key: Key): Option<Mode> {
    if key in st.sessions then Some(st.sessions[key]) else None
  }

  /** The mode a session runs in: that of its start or restart, until it is stopped or its start fails. */
  function Followed(es: seq<Event>, key: Key): Option<Mode> {
    if es == [] then None else FollowedBy(Followed(es[..|es| - 1], key), es[|es| - 1], key)
  }

  function FollowedBy(before: Option<Mode>, e: Event, key: Key): Option<Mode> {
    match e
    case Start(k, mode) => if k == key then Some(mode) else before
    case Stop(k, _) => if k == key then None else before
    case Answer(StartRequest(k, _), success) => if k == key && !success then None else before
    case Answer(StopRequest(k, _, restart), _) => if k == key && restart.Some? then restart else before
    case ClientsChange => before
  }

  lemma NextSession(st: State, e: Event, key: Key)
    requires Enabled(st, e)
    ensures Session(Next(st, e), key) == FollowedBy(Session(st, key), e, key)
  {
  }

  /** What has been asked of the modem, a restart when its stop was answered, and not been answered. */
  function Unanswered(es: seq<Event>): multiset<Request> {
    if es == [] then multiset{}
    else
      var init := es[..|es| - 1];
      var before := Unanswered(init);
      match es[|es| - 1]
      case Start(key, mode) => before + multiset{StartRequest(key, mode)}
      case Stop(key, restart) =>
        if Followed(init, key).Some? then before + multiset{StopRequest(key, Followed(init, key).value, restart)}
        else before
      case Answer(request, _) =>
        before - multiset{request}
        + if request.StopRequest? && request.restart.Some?
          then multiset{StartRequest(request.key, request.restart.value)} else multiset{}
      case ClientsChange => before
  }

  lemma {:induction false} SessionsFollow(sts: seq<State>, es: seq<Event>, i: nat, key: Key)
    requires IsRun(sts, es) && i < |sts|
    ensures Session(sts[i], key) == Followed(es[..i], key)
  {
    if i == 0 {
    } else {
      SessionsFollow(sts, es, i - 1, key);
      assert StepOf(sts, es, i - 1);
      NextSession(sts[i - 1], es[i - 1], key);
      assert es[..i][..i - 1] == es[..i - 1];
    }
  }

  lemma {:induction false} RequestsFollow(sts: seq<State>, es: seq<Event>, i: nat)
    requires IsRun(sts, es) && i < |sts|
    ensures sts[i].inFlight == Unanswered(es[..i])
  {
    if i == 0 {
    } else {
      RequestsFollow(sts, es, i - 1);
      SessionsFollow(sts, es, i - 1, if es[i - 1].Stop? then es[i - 1].key else 0);
      assert StepOf(sts, es, i - 1);
      assert es[..i][..i - 1] == es[..i - 1];
    }
  }

  /** The event begins, or restarts, an automatic session. */
  predicate Begins(e: Event) {
    match e
    case Start(_, mode) => mode != NoAutoReport
    case Answer(StopRequest(_, _, restart), _) => restart.Some? && restart.value != NoAutoReport
    case _ => false
  }

  /** The event is the failed start or the stop of an automatic session. */
  predicate EndsAuto(e: Event) {
    e.Answer? && e.request.mode != NoAutoReport && (e.request.StopRequest? || !e.success)
  }

  /**
   * The event bit is turned on when an automatic session begins and there is no
   * other, and off when one ends and none is left; and a change of the clients
   * sets it to whether there is one.
   */
  lemma BitFollows(st: State, e: Event)
    requires StopsFit(st) && Enabled(st, e)
    ensures var after := Next(st, e);
            after.batchFull
            == if e.ClientsChange? then AnyAuto(st.sessions)
               else if Begins(e) then st.batchFull || !AnyAuto(st.sessions)
               else if EndsAuto(e) then st.batchFull && AnyAuto(after.sessions)
               else st.batchFull
  {
    if e.Answer? && e.request.StopRequest? && e.request.restart == Some(NoAutoReport) {
      SilentRestart(st, e.request.key);
    }
  }

  /** A session restarted without automatic reports leaves whether there is an automatic one. */
  lemma SilentRestart(st: State, key: Key)
    requires key !in st.sessions
    ensures AnyAuto(st.sessions[key := NoAutoReport]) <==> AnyAuto(st.sessions)
  {
    var after := st.sessions[key := NoAutoReport];
    if k :| k in st.sessions && st.sessions[k] != NoAutoReport {
      assert k in after && after[k] != NoAutoReport;
    }
    if k :| k in after && after[k] != NoAutoReport {
      assert k in st.sessions;
    }
  }
}
