/**
 * The tracking multiplexer of the GNSS adapter: many time-based sessions share
 * one fix request of the modem, which knows a single interval.
 *
 * The class follows the command handlers, with the modem's answer to their
 * request as a parameter; the methods are proved against functions on values.
 */
module Tracking {
  import opened Wrappers
  import opened MapSearch

  const MIN_TRACKING_INTERVAL := 100
  const TRACKING_TBM_THRESHOLD_MILLIS := 480000

  // GNSS_POWER_MODE_INVALID, the mode that no request has set, is 0.
  type PowerMode = x: nat | x <= 5
  const M2: PowerMode := 2
  const M4: PowerMode := 4

  datatype Options = Options(size: nat, minInterval: nat, powerMode: PowerMode, tbm: nat)

  /** A session key stands for the client and the id, in the order of the session map. */
  type Key = int

  /**
   * The sessions, and what the modem runs: nothing, or a fix with the interval
   * it accepted last.
   */
  datatype State = State(sessions: map<Key, Options>, modem: Option<nat>)

  datatype Command =
    | Start(key: Key, options: Options, accepted: bool)
    | Update(key: Key, options: Options, accepted: bool)
    | Stop(key: Key, accepted: bool)
    | EngineUp

  /** What a command asks of the modem. */
  datatype Request = StartFix(interval: nat) | StopFix

  // ----- The commands, on values -----

  function Intervals(sessions: map<Key, Options>): map<Key, nat> {
    map k | k in sessions :: sessions[k].minInterval
  }

  function PowerModes(sessions: map<Key, Options>): map<Key, nat> {
    map k | k in sessions :: sessions[k].powerMode
  }

  /** The smallest interval and power mode of some of the sessions, as the adapter searches for them. */
  ghost function LeastInterval(sessions: map<Key, Options>, keys: set<Key>): nat
    requires keys <= sessions.Keys
  {
    Smallest(Intervals(sessions), keys, 0)
  }

  ghost function LeastPower(sessions: map<Key, Options>, keys: set<Key>): nat
    requires keys <= sessions.Keys
  {
    Smallest(PowerModes(sessions), keys, 0)
  }

  /** The options a command works with: the interval has a floor, and M4 falls back to M2 above the threshold. */
  function Normalized(options: Options): Options {
    options.(
      minInterval := if options.minInterval < MIN_TRACKING_INTERVAL then MIN_TRACKING_INTERVAL else options.minInterval,
      powerMode := if options.powerMode == M4 && options.tbm > TRACKING_TBM_THRESHOLD_MILLIS then M2
                   else options.powerMode)
  }

  ghost function StartRequest(st: State, options: Options): Option<Request> {
    if st.sessions == map[] then Some(StartFix(options.minInterval))
    else
      var least := LeastInterval(st.sessions, st.sessions.Keys);
      var leastPower := LeastPower(st.sessions, st.sessions.Keys);
      if options.minInterval < least then Some(StartFix(options.minInterval))
      else if options.powerMode < leastPower then Some(StartFix(least))
      else None
  }

  ghost function UpdateRequest(st: State, key: Key, options: Options): Option<Request>
    requires key in st.sessions
  {
    var previous, others := st.sessions[key], st.sessions.Keys - {key};
    if previous.minInterval == options.minInterval && previous.powerMode == options.powerMode then None
    else if others == {} then Some(StartFix(options.minInterval))
    else
      var least, leastPower := LeastInterval(st.sessions, others), LeastPower(st.sessions, others);
      if options.minInterval < least then Some(StartFix(options.minInterval))
      else if options.powerMode < leastPower then Some(StartFix(least))
      else None
  }

  ghost function StopRequest(st: State, key: Key): Option<Request>
    requires key in st.sessions
  {
    var previous, others := st.sessions[key], st.sessions.Keys - {key};
    if others == {} then Some(StopFix)
    else
      var least, leastPower := LeastInterval(st.sessions, others), LeastPower(st.sessions, others);
      if previous.minInterval < least || previous.powerMode < leastPower then Some(StartFix(least)) else None
  }

  /** What the modem runs after an answer. */
  function Answered(modem: Option<nat>, request: Option<Request>, accepted: bool): Option<nat> {
    if request.None? || !accepted then modem
    else
      match request.value
      case StartFix(interval) => Some(interval)
      case StopFix => None
  }

  /** A command, with the answer handled before the next one. */
  ghost function Next(st: State, c: Command): State {
    match c
    case Start(key, options, accepted) =>
      if options.size == 0 then st
      else
        var chosen := Normalized(options);
        var request := StartRequest(st, chosen);
        State(if request.Some? && !accepted then st.sessions - {key} else st.sessions[key := chosen],
              Answered(st.modem, request, accepted))
    case Update(key, options, accepted) =>
      if key !in st.sessions || options.size == 0 then st
      else
        var chosen := Normalized(options);
        var request := UpdateRequest(st, key, chosen);
        State(if request.Some? && !accepted then st.sessions else st.sessions[key := chosen],
              Answered(st.modem, request, accepted))
    case Stop(key, accepted) =>
      if key !in st.sessions then st
      else State(st.sessions - {key}, Answered(st.modem, StopRequest(st, key), accepted))
    case EngineUp =>
      State(st.sessions,
            if st.sessions == map[] then None else Some(LeastInterval(st.sessions, st.sessions.Keys)))
  }

  // ----- The adapter -----

  class GnssAdapter {
    var timeBasedTrackingSessions: map<Key, Options>
    ghost var modem: Option<nat>

    ghost function View(): State
      reads this
    {
      State(timeBasedTrackingSessions, modem)
    }

    /** Sessions are saved with options that have been set, and with the interval floor. */
    predicate Valid()
      reads this
    {
      forall k :: k in timeBasedTrackingSessions ==>
        timeBasedTrackingSessions[k].size > 0 && timeBasedTrackingSessions[k].minInterval >= MIN_TRACKING_INTERVAL
    }

    constructor ()
      ensures Valid() && View() == State(map[], None)
    {
      timeBasedTrackingSessions, modem := map[], None;
    }

    /** The search for the smallest interval and power mode over some of the sessions. */
    method FindMultiplexed(keys: set<Key>) returns (options: Options, powerMode: nat)
      requires Valid() && keys <= timeBasedTrackingSessions.Keys
      ensures options.minInterval == LeastInterval(timeBasedTrackingSessions, keys)
      ensures powerMode == LeastPower(timeBasedTrackingSessions, keys)
    {
      ghost var intervals, powers := Intervals(timeBasedTrackingSessions), PowerModes(timeBasedTrackingSessions);
      options, powerMode := Options(0, 0, 0, 0), 0;
      var rest := keys;
      while rest != {}
        invariant rest <= keys
        invariant options.size == 0 <==> options.minInterval == 0
        invariant Smallest(intervals, keys, 0) == Smallest(intervals, rest, options.minInterval)
        invariant Smallest(powers, keys, 0) == Smallest(powers, rest, powerMode)
        decreases |rest|
      {
        assert IsLeast(rest, LeastKey(rest));
        var k :| k in rest && forall other :: other in rest ==> k <= other;
        var session := timeBasedTrackingSessions[k];
        if options.size == 0 || session.minInterval < options.minInterval {
          options := session;
        }
        if powerMode == 0 || session.powerMode < powerMode {
          powerMode := session.powerMode;
        }
        rest := rest - {k};
      }
    }

    method StartTimeBasedTrackingMultiplex(options: Options) returns (request: Option<Request>)
      requires Valid()
      ensures request == StartRequest(View(), options)
    {
      if |timeBasedTrackingSessions| == 0 {
        return Some(StartFix(options.minInterval));
      }
      var multiplexed, leastPower := FindMultiplexed(timeBasedTrackingSessions.Keys);
      var updateOptions := false;
      if options.minInterval < multiplexed.minInterval {
        multiplexed, updateOptions := multiplexed.(minInterval := options.minInterval), true;
      }
      if options.powerMode < leastPower {
        updateOptions := true;
      }
      request := if updateOptions then Some(StartFix(multiplexed.minInterval)) else None;
    }

    method UpdateTrackingMultiplex(key: Key, options: Options) returns (request: Option<Request>)
      requires Valid() && key in timeBasedTrackingSessions
      ensures request == UpdateRequest(View(), key, options)
    {
      var previous := timeBasedTrackingSessions[key];
      request := None;
      if previous.minInterval != options.minInterval || previous.powerMode != options.powerMode {
        var multiplexed, leastPower := FindMultiplexed(timeBasedTrackingSessions.Keys - {key});
        var updateOptions := false;
        if options.minInterval < multiplexed.minInterval {
          multiplexed, updateOptions := multiplexed.(minInterval := options.minInterval), true;
        }
        if options.powerMode < leastPower {
          updateOptions := true;
        }
        Alone(timeBasedTrackingSessions.Keys, key);
        if |timeBasedTrackingSessions| == 1 {
          multiplexed, updateOptions := options, true;
        }
        if updateOptions {
          request := Some(StartFix(multiplexed.minInterval));
        }
      }
    }

    method StopTimeBasedTrackingMultiplex(key: Key) returns (request: Option<Request>)
      requires Valid() && key in timeBasedTrackingSessions
      ensures request == StopRequest(View(), key)
    {
      Alone(timeBasedTrackingSessions.Keys, key);
      if |timeBasedTrackingSessions| == 1 {
        return Some(StopFix);
      }
      var previous := timeBasedTrackingSessions[key];
      var multiplexed, leastPower := FindMultiplexed(timeBasedTrackingSessions.Keys - {key});
      request := if previous.minInterval < multiplexed.minInterval || previous.powerMode < leastPower
                 then Some(StartFix(multiplexed.minInterval)) else None;
    }

    /** startTrackingCommand for a client with a callback. */
    method StartTracking(key: Key, options: Options, accepted: bool)
      requires Valid()
      modifies this
      ensures Valid() && View() == Next(old(View()), Start(key, options, accepted))
    {
      if options.size == 0 {
        return;
      }
      var chosen := Normalized(options);
      var request := StartTimeBasedTrackingMultiplex(chosen);
      timeBasedTrackingSessions := timeBasedTrackingSessions[key := chosen];
      modem := Answered(modem, request, accepted);
      if request.Some? && !accepted {
        timeBasedTrackingSessions := timeBasedTrackingSessions - {key};
        assert timeBasedTrackingSessions == old(timeBasedTrackingSessions) - {key};
      }
    }

    /** updateTrackingOptionsCommand for a session that stays time-based. */
    method UpdateTrackingOptions(key: Key, options: Options, accepted: bool)
      requires Valid()
      modifies this
      ensures Valid() && View() == Next(old(View()), Update(key, options, accepted))
    {
      if key !in timeBasedTrackingSessions || options.size == 0 {
        return;
      }
      var chosen := Normalized(options);
      var before := timeBasedTrackingSessions[key];
      var request := UpdateTrackingMultiplex(key, chosen);
      timeBasedTrackingSessions := timeBasedTrackingSessions[key := chosen];
      modem := Answered(modem, request, accepted);
      if request.Some? && !accepted {
        timeBasedTrackingSessions := timeBasedTrackingSessions[key := before];
        assert timeBasedTrackingSessions == old(timeBasedTrackingSessions);
      }
    }

    /** stopTrackingCommand. */
    method StopTracking(key: Key, accepted: bool)
      requires Valid()
      modifies this
      ensures Valid() && View() == Next(old(View()), Stop(key, accepted))
    {
      if key !in timeBasedTrackingSessions {
        return;
      }
      var request := StopTimeBasedTrackingMultiplex(key);
      timeBasedTrackingSessions := timeBasedTrackingSessions - {key};
      modem := Answered(modem, request, accepted);
    }

    /** restartSessions after the modem has come back. */
    method RestartSessions()
      requires Valid()
      modifies this`modem
      ensures Valid() && View() == Next(old(View()), EngineUp)
    {
      modem := None;
      if |timeBasedTrackingSessions| != 0 {
        var smallest, power := FindMultiplexed(timeBasedTrackingSessions.Keys);
        modem := Some(smallest.minInterval);
      }
    }
  }

  lemma Alone(keys: set<Key>, key: Key)
    requires key in keys
    ensures |keys| == 1 <==> keys - {key} == {}
  {
    assert |keys - {key}| == |keys| - 1;
  }

  // ----- The interval of the modem -----

  predicate Floored(sessions: map<Key, Options>) {
    forall k :: k in sessions ==> sessions[k].minInterval >= MIN_TRACKING_INTERVAL
  }

  /** v is the smallest interval over the live sessions. */
  predicate IsMinimum(sessions: map<Key, Options>, v: nat) {
    (exists k :: k in sessions && sessions[k].minInterval == v)
    && forall k :: k in sessions ==> v <= sessions[k].minInterval
  }

  /** The modem runs the smallest interval of all sessions, and nothing when there is none. */
  predicate Exact(st: State) {
    Floored(st.sessions)
    && if st.sessions == map[] then st.modem == None
       else st.modem.Some? && IsMinimum(st.sessions, st.modem.value)
  }

  /** While sessions are live the modem serves each of them at least as often as it wants. */
  predicate Served(st: State) {
    Floored(st.sessions)
    && (st.sessions != map[] ==>
          st.modem.Some? && st.modem.value >= MIN_TRACKING_INTERVAL
          && forall k :: k in st.sessions ==> st.modem.value <= st.sessions[k].minInterval)
  }

  lemma LeastIsMinimum(sessions: map<Key, Options>, keys: set<Key>)
    requires Floored(sessions) && keys <= sessions.Keys && keys != {}
    ensures var least := LeastInterval(sessions, keys);
            least >= MIN_TRACKING_INTERVAL
            && (exists k :: k in keys && sessions[k].minInterval == least)
            && forall k :: k in keys ==> least <= sessions[k].minInterval
  {
    SmallestIsMinimum(Intervals(sessions), keys, 0);
    assert (forall k :: k !in keys) ==> keys == {};
  }
}
