/**
 * The tracking sessions against what their clients asked for: what a session
 * holds follows from the commands and the modem's answers alone, and what is
 * asked of the modem from the intervals and power modes of the sessions.
 */
module TrackingAsked {
  import opened Wrappers
  import opened MapSearch
  import opened Tracking
  import opened TrackingRuns

  // ----- What a session holds -----

  /** What the command asks of the modem. */
  ghost function Sent(st: State, c: Command): Option<Request> {
    match c
    case Start(_, options, _) => if options.size == 0 then None else StartRequest(st, Normalized(options))
    case Update(key, options, _) =>
      if key !in st.sessions || options.size == 0 then None else UpdateRequest(st, key, Normalized(options))
    case Stop(key, _) => if key in st.sessions then StopRequest(st, key) else None
    case EngineUp => None
  }

  ghost predicate Refused(st: State, c: Command) {
    Sent(st, c).Some? && !c.EngineUp? && !c.accepted
  }

  /**
   * The options of the client's last start or update that was granted or needed
   * no answer; none after a refused start or a stop.
   */
  ghost function Held(cs: seq<Command>, key: Key): Option<Options> {
    if cs == [] then None
    else
      var before, c, st := Held(cs[..|cs| - 1], key), cs[|cs| - 1], Run(cs[..|cs| - 1]);
      if c.EngineUp? || c.key != key then before
      else
        match c
        case Start(_, options, _) =>
          if options.size == 0 then before else if Refused(st, c) then None else Some(options)
        case Update(_, options, _) =>
          if before.None? || options.size == 0 || Refused(st, c) then before else Some(options)
        case Stop(_, _) => None
  }

  /** The session does what was asked, at no less than the floor, and with M2 for M4 above the threshold. */
  predicate Does(session: Options, asked: Options) {
    && session.minInterval == (if asked.minInterval >= 100 then asked.minInterval else 100)
    && session.powerMode == (if asked.powerMode == 4 && asked.tbm > 480000 then 2 else asked.powerMode)
    && session.size == asked.size && session.tbm == asked.tbm
  }

  lemma {:induction false} RunHolds(cs: seq<Command>, key: Key)
    ensures var sessions := Run(cs).sessions;
            && (key in sessions <==> Held(cs, key).Some?)
            && (key in sessions ==> Does(sessions[key], Held(cs, key).value))
  {
    if cs == [] {
    } else {
      RunHolds(cs[..|cs| - 1], key);
    }
  }

  /** A command leaves all sessions but its own as they are. */
  lemma OthersUnchanged(st: State, c: Command, key: Key)
    requires c.EngineUp? || c.key != key
    ensures key in Next(st, c).sessions <==> key in st.sessions
    ensures key in st.sessions ==> Next(st, c).sessions[key] == st.sessions[key]
  {
  }

  // ----- What reaches the modem -----

  /** A granted start or update that wants more than every session leaves the modem at what it wants. */
  lemma LoweringReachesModem(st: State, c: Command)
    requires Floored(st.sessions) && (c.Start? || (c.Update? && c.key in st.sessions)) && c.options.size != 0
    requires forall k :: k in st.sessions ==> Normalized(c.options).minInterval < st.sessions[k].minInterval
    requires c.accepted
    ensures Next(st, c).modem == Some(if c.options.minInterval >= 100 then c.options.minInterval else 100)
  {
    var keys := if c.Start? then st.sessions.Keys else st.sessions.Keys - {c.key};
    if keys != {} {
      LeastIsMinimum(st.sessions, keys);
    }
  }

  /** Every session has a power mode other than GNSS_POWER_MODE_INVALID. */
  predicate PowersSet(st: State) {
    forall k :: k in st.sessions ==> st.sessions[k].powerMode > 0
  }

  /** The options want a shorter interval, or more power, than all sessions among the keys. */
  predicate WantsMore(st: State, options: Options, keys: set<Key>)
    requires keys <= st.sessions.Keys
  {
    (forall k :: k in keys ==> options.minInterval < st.sessions[k].minInterval)
    || (forall k :: k in keys ==> options.powerMode < st.sessions[k].powerMode)
  }

  lemma WantsMoreThanLeast(st: State, options: Options, keys: set<Key>)
    requires Floored(st.sessions) && PowersSet(st) && keys <= st.sessions.Keys && keys != {}
    ensures WantsMore(st, options, keys) <==>
            options.minInterval < LeastInterval(st.sessions, keys) || options.powerMode < LeastPower(st.sessions, keys)
  {
    LeastIsMinimum(st.sessions, keys);
    SmallestIsMinimum(PowerModes(st.sessions), keys, 0);
    assert (forall k :: k !in keys) ==> keys == {};
    var some :| some in keys;
    assert exists k :: k in keys && PowerModes(st.sessions)[k] == LeastPower(st.sessions, keys);
  }

  /**
   * The modem is asked exactly when a start wants more than all sessions, a
   * changed update more than all others, or a stopped session wanted more than
   * all others.
   */
  lemma SentIffWantsMore(st: State, c: Command)
    requires Floored(st.sessions) && PowersSet(st)
    ensures Sent(st, c).Some? <==>
            match c
            case Start(_, options, _) =>
              options.size != 0 && WantsMore(st, Normalized(options), st.sessions.Keys)
            case Update(key, options, _) =>
              && key in st.sessions && options.size != 0
              && (Normalized(options).minInterval != st.sessions[key].minInterval
                  || Normalized(options).powerMode != st.sessions[key].powerMode)
              && WantsMore(st, Normalized(options), st.sessions.Keys - {key})
            case Stop(key, _) => key in st.sessions && WantsMore(st, st.sessions[key], st.sessions.Keys - {key})
            case EngineUp => false
  {
    match c
    case Start(_, options, _) =>
      if st.sessions != map[] {
        WantsMoreThanLeast(st, Normalized(options), st.sessions.Keys);
      }
    case Update(key, options, _) =>
      if key in st.sessions && st.sessions.Keys - {key} != {} {
        WantsMoreThanLeast(st, Normalized(options), st.sessions.Keys - {key});
      }
    case Stop(key, _) =>
      if key in st.sessions && st.sessions.Keys - {key} != {} {
        WantsMoreThanLeast(st, st.sessions[key], st.sessions.Keys - {key});
      }
    case EngineUp =>
  }
}
