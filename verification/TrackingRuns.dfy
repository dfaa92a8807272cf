/**
 * Runs of the tracking multiplexer: the interval of the modem against the
 * intervals of the live sessions.
 */
module TrackingRuns {
  import opened Wrappers
  import opened MapSearch
  import opened Tracking

  const IDLE := State(map[], None)

  ghost function Run(cs: seq<Command>): State {
    if cs == [] then IDLE else Next(Run(cs[..|cs| - 1]), cs[|cs| - 1])
  }

  // ----- When a command leaves the interval exact -----

  /**
   * The session alone asked for the interval of the modem, now asks for no
   * less than the next one wants, and does not ask for more power either.
   */
  ghost predicate LeavesStale(st: State, key: Key, options: Options)
    requires key in st.sessions
  {
    var others := st.sessions.Keys - {key};
    && others != {}
    && st.sessions[key].minInterval < LeastInterval(st.sessions, others) <= options.minInterval
    && options.powerMode >= LeastPower(st.sessions, others)
  }

  /** No other session asks for the interval of the modem. */
  predicate AsksAlone(st: State, key: Key) {
    forall k :: k in st.sessions && k != key ==> st.modem != Some(st.sessions[k].minInterval)
  }

  /**
   * A start under a new key, granted or refused; an update that leaves no
   * interval stale; a stop that is granted, or whose interval another session
   * asks for too.
   */
  ghost predicate KeepsExact(st: State, c: Command) {
    match c
    case Start(key, _, _) => key !in st.sessions
    case Update(key, options, _) =>
      key in st.sessions && options.size != 0 ==> !LeavesStale(st, key, Normalized(options))
    case Stop(key, accepted) => key in st.sessions && !accepted ==> !AsksAlone(st, key)
    case EngineUp => true
  }

  lemma StartExact(st: State, key: Key, options: Options, accepted: bool)
    requires Exact(st) && key !in st.sessions
    ensures Exact(Next(st, Start(key, options, accepted)))
  {
    var after := Next(st, Start(key, options, accepted));
    if key !in after.sessions {
      assert after.sessions == st.sessions;
    } else {
      if st.sessions != map[] {
        LeastIsMinimum(st.sessions, st.sessions.Keys);
        var k :| k in st.sessions && st.sessions[k].minInterval == st.modem.value;
        assert after.sessions[k] == st.sessions[k];
      }
    }
  }

  lemma StopExact(st: State, key: Key)
    requires Exact(st) && key in st.sessions
    ensures Exact(Next(st, Stop(key, true)))
  {
    var others := st.sessions.Keys - {key};
    var after := Next(st, Stop(key, true));
    assert after.sessions.Keys == others;
    if others != {} {
      LeastIsMinimum(st.sessions, others);
      var least := LeastInterval(st.sessions, others);
      var k :| k in others && st.sessions[k].minInterval == least;
      assert after.sessions[k].minInterval == least;
      var held :| held in st.sessions && st.sessions[held].minInterval == st.modem.value;
      assert held == key || held in others;
    }
  }

  /** Coming back, the modem is sent the interval it already had. */
  lemma EngineUpResends(st: State)
    requires Exact(st)
    ensures Next(st, EngineUp) == st
  {
    if st.sessions != map[] {
      LeastIsMinimum(st.sessions, st.sessions.Keys);
    }
  }

  /** Whatever was refused before, a modem that comes back runs the exact interval again. */
  lemma EngineUpRestoresExact(st: State)
    requires Floored(st.sessions)
    ensures Exact(Next(st, EngineUp))
  {
    if st.sessions != map[] {
      LeastIsMinimum(st.sessions, st.sessions.Keys);
    }
  }

  /** A refused stop leaves the modem at an interval nobody asks for, unless another session does. */
  lemma RefusedStopExactIff(st: State, key: Key)
    requires Exact(st) && key in st.sessions
    ensures Exact(Next(st, Stop(key, false))) <==> !AsksAlone(st, key)
  {
    var after := Next(st, Stop(key, false));
    assert after.modem == st.modem;
    assert forall k :: k in after.sessions <==> k in st.sessions && k != key;
    assert forall k :: k in after.sessions ==> after.sessions[k] == st.sessions[k];
    if !AsksAlone(st, key) {
      var k :| k in st.sessions && k != key && st.modem == Some(st.sessions[k].minInterval);
      assert k in after.sessions;
    }
  }

  /** An update keeps the interval exact if and only if it leaves none stale; that kind is never sent to the modem. */
  lemma UpdateExactIff(st: State, key: Key, options: Options, accepted: bool)
    requires Exact(st) && key in st.sessions && options.size != 0
    ensures Exact(Next(st, Update(key, options, accepted))) <==> !LeavesStale(st, key, Normalized(options))
  {
    var chosen := Normalized(options);
    if UpdateRequest(st, key, chosen).Some? && !accepted {
      if LeavesStale(st, key, chosen) {
        StaleIsNotSent(st, key, chosen);
      }
      assert Next(st, Update(key, options, accepted)) == st;
    } else {
      UpdatedExactIff(st, key, chosen, Next(st, Update(key, options, accepted)));
    }
  }

  lemma StaleIsNotSent(st: State, key: Key, chosen: Options)
    requires key in st.sessions && Floored(st.sessions) && LeavesStale(st, key, chosen)
    ensures UpdateRequest(st, key, chosen) == None
  {
  }

  lemma UpdatedExactIff(st: State, key: Key, chosen: Options, after: State)
    requires Exact(st) && key in st.sessions && chosen.minInterval >= MIN_TRACKING_INTERVAL
    requires after == State(st.sessions[key := chosen], Answered(st.modem, UpdateRequest(st, key, chosen), true))
    ensures Exact(after) <==> !LeavesStale(st, key, chosen)
  {
    var others := st.sessions.Keys - {key};
    assert after.sessions.Keys == st.sessions.Keys;
    assert forall k :: k in after.sessions ==> k == key || (k in others && after.sessions[k] == st.sessions[k]);
    var held :| held in st.sessions && st.sessions[held].minInterval == st.modem.value;
    if others != {} {
      LeastIsMinimum(st.sessions, others);
      var next :| next in others && st.sessions[next].minInterval == LeastInterval(st.sessions, others);
      assert after.sessions[next] == st.sessions[next];
    }
  }

  /** Every command, start under a new key, keeps the interval exact if and only if it is of that kind. */
  lemma NextExactIff(st: State, c: Command)
    requires Exact(st) && (c.Start? ==> c.key !in st.sessions)
    ensures Exact(Next(st, c)) <==> KeepsExact(st, c)
  {
    match c
    case Start(key, options, accepted) => StartExact(st, key, options, accepted);
    case Update(key, options, accepted) =>
      if key in st.sessions && options.size != 0 {
        UpdateExactIff(st, key, options, accepted);
      }
    case Stop(key, accepted) =>
      if key in st.sessions && accepted {
        StopExact(st, key);
      } else if key in st.sessions {
        RefusedStopExactIff(st, key);
      }
    case EngineUp => EngineUpResends(st);
  }

  /**
   * In every run of such commands the modem runs the smallest interval over the
   * live sessions, and it is stopped exactly when none is live.
   */
  lemma {:induction false} RunExact(cs: seq<Command>)
    requires forall i :: 0 <= i < |cs| ==> KeepsExact(Run(cs[..i]), cs[i])
    ensures Exact(Run(cs))
  {
    if cs == [] {
    } else {
      var init := cs[..|cs| - 1];
      forall i | 0 <= i < |init|
        ensures KeepsExact(Run(init[..i]), init[i])
      {
        assert init[..i] == cs[..i];
      }
      RunExact(init);
      assert KeepsExact(Run(cs[..|cs| - 1]), cs[|cs| - 1]);
      NextExactIff(Run(init), cs[|cs| - 1]);
    }
  }

  // ----- Updates and refusals: every session is still served -----

  lemma StartServed(st: State, key: Key, options: Options, accepted: bool)
    requires Served(st)
    ensures Served(Next(st, Start(key, options, accepted)))
  {
    if st.sessions != map[] {
      LeastIsMinimum(st.sessions, st.sessions.Keys);
    }
  }

  lemma UpdateServed(st: State, key: Key, options: Options, accepted: bool)
    requires Served(st) && key in st.sessions
    ensures Served(Next(st, Update(key, options, accepted)))
  {
    var others := st.sessions.Keys - {key};
    assert forall k :: k in st.sessions ==> k == key || k in others;
    if others != {} {
      LeastIsMinimum(st.sessions, others);
    }
  }

  lemma StopServed(st: State, key: Key, accepted: bool)
    requires Served(st) && key in st.sessions
    ensures Served(Next(st, Stop(key, accepted)))
  {
    var others := st.sessions.Keys - {key};
    assert (st.sessions - {key}).Keys == others;
    if others != {} {
      LeastIsMinimum(st.sessions, others);
    }
  }

  lemma NextServed(st: State, c: Command)
    requires Served(st)
    ensures Served(Next(st, c))
  {
    match c
    case Start(key, options, accepted) => StartServed(st, key, options, accepted);
    case Update(key, options, accepted) =>
      if key in st.sessions {
        UpdateServed(st, key, options, accepted);
      }
    case Stop(key, accepted) =>
      if key in st.sessions {
        StopServed(st, key, accepted);
      }
    case EngineUp =>
      if st.sessions != map[] {
        LeastIsMinimum(st.sessions, st.sessions.Keys);
      }
  }

  /**
   * In every run of starts, updates and stops, whatever the modem refuses: as
   * long as sessions are live, the interval it accepted last is at least the
   * floor and at most what every live session asks for.
   */
  lemma {:induction false} RunServed(cs: seq<Command>)
    ensures Served(Run(cs))
  {
    if cs == [] {
    } else {
      RunServed(cs[..|cs| - 1]);
      NextServed(Run(cs[..|cs| - 1]), cs[|cs| - 1]);
    }
  }

  // ----- An interval that stays behind -----

  const FAST := Options(1, 100, 1, 0)
  const SLOW := Options(1, 200, 1, 0)
  const ONE := State(map[1 := FAST], Some(100))
  const BOTH := State(map[1 := FAST, 2 := SLOW], Some(100))

  lemma RunAppend(cs: seq<Command>, c: Command)
    ensures Run(cs + [c]) == Next(Run(cs), c)
  {
    assert (cs + [c])[..|cs|] == cs;
  }

  lemma BothReached()
    ensures Run([Start(1, FAST, true), Start(2, SLOW, true)]) == BOTH && Exact(BOTH)
  {
    var first, second := Start(1, FAST, true), Start(2, SLOW, true);
    RunAppend([], first);
    RunAppend([first], second);
    assert [] + [first] == [first] && [first] + [second] == [first, second];
    assert Run([first]) == ONE;
    assert 1 in ONE.sessions && Exact(ONE);
    LeastIsMinimum(ONE.sessions, ONE.sessions.Keys);
    SmallestIsMinimum(PowerModes(ONE.sessions), ONE.sessions.Keys, 0);
    assert Next(ONE, second) == BOTH;
    NextExactIff(ONE, second);
  }

  /** The smallest interval is raised above the second one: the modem is left with the old one. */
  lemma StaleAfterUpdate()
    ensures var st := Run([Start(1, FAST, true), Start(2, SLOW, true), Update(1, FAST.(minInterval := 500), true)]);
            st.modem == Some(100) && st.sessions == map[1 := FAST.(minInterval := 500), 2 := SLOW] && !Exact(st)
  {
    var first, second, raise := Start(1, FAST, true), Start(2, SLOW, true), Update(1, FAST.(minInterval := 500), true);
    BothReached();
    RunAppend([first, second], raise);
    assert [first, second] + [raise] == [first, second, raise];
    RaiseIsStale();
  }

  lemma RaiseIsStale()
    ensures var st := Next(BOTH, Update(1, FAST.(minInterval := 500), true));
            st.modem == Some(100) && st.sessions == map[1 := FAST.(minInterval := 500), 2 := SLOW] && !Exact(st)
  {
    BothReached();
    var others := BOTH.sessions.Keys - {1};
    assert 1 in BOTH.sessions && 2 in BOTH.sessions && others == {2};
    LeastIsMinimum(BOTH.sessions, others);
    SmallestIsMinimum(PowerModes(BOTH.sessions), others, 0);
    UpdateExactIff(BOTH, 1, FAST.(minInterval := 500), true);
  }
}
