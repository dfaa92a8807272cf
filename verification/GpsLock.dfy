/**
 * The GPS lock of the GNSS adapter.  Four commands update it step by step and
 * send it to the modem; when the modem comes back it is computed from scratch.
 */
module GpsLock {
  import opened Wrappers

  /** A lock mask by its bits: GNSS_CONFIG_GPS_LOCK_MO, GNSS_CONFIG_GPS_LOCK_NI, and all others as a number. */
  datatype Lock = Lock(mo: bool, ni: bool, others: nat)

  const NONE := Lock(false, false, 0)

  /**
   * gpsLock is the configured lock, afwControlId the session that enabled
   * location (0 when disabled), supportNfwControl tells Q from P behaviour, and
   * sent is the lock last sent to the modem.
   */
  datatype State = State(gpsLock: Lock, afwControlId: nat, supportNfwControl: bool, sent: Option<Lock>)

  datatype Command =
    | Enable(id: nat, gnss: bool)
    | Disable(id: nat)
    | NfwControl(enable: bool)
    | UpdateConfig(lock: Lock)
    | EngineUp

  // ----- The commands, on values -----

  /** The mask without anything but the NI bit. */
  function OnlyNi(lock: Lock): Lock {
    Lock(false, lock.ni, 0)
  }

  /** The lock setConfig computes. */
  function Computed(st: State): Lock {
    if st.supportNfwControl || st.afwControlId == 0 then st.gpsLock else NONE
  }

  function OnEnable(st: State, id: nat, gnss: bool): State {
    if !gnss || st.afwControlId > 0 then st
    else if st.supportNfwControl then
      var lock := OnlyNi(st.gpsLock);
      st.(afwControlId := id, gpsLock := lock, sent := Some(lock))
    else
      st.(afwControlId := id, sent := Some(NONE))
  }

  function OnDisable(st: State, id: nat): State {
    if st.afwControlId != id then st
    else
      var lock := if st.supportNfwControl then st.gpsLock.(mo := true) else st.gpsLock;
      st.(afwControlId := 0, gpsLock := lock, sent := Some(lock))
  }

  /** The message of an NFW control command, whatever has changed since it was queued. */
  function OnNfwMessage(st: State, enable: bool): State {
    var lock := st.gpsLock.(ni := !enable);
    st.(gpsLock := lock, sent := Some(lock))
  }

  function OnUpdateConfig(st: State, requested: Lock): State {
    var lock := requested.(mo := true);
    var updated := st.(gpsLock := lock, supportNfwControl := false);
    if st.afwControlId == 0 then updated.(sent := Some(lock))
    else if st.supportNfwControl then updated.(sent := Some(NONE))
    else updated
  }

  /** A command handled before the next one. */
  function Next(st: State, c: Command): State {
    match c
    case Enable(id, gnss) => OnEnable(st, id, gnss)
    case Disable(id) => OnDisable(st, id)
    case NfwControl(enable) => if st.supportNfwControl then OnNfwMessage(st, enable) else st
    case UpdateConfig(lock) => OnUpdateConfig(st, lock)
    case EngineUp => st.(sent := Some(Computed(st)))
  }

  // ----- The adapter -----

  class GnssAdapter {
    var gpsLock: Lock
    var afwControlId: nat
    var supportNfwControl: bool
    ghost var sent: Option<Lock>

    ghost function View(): State
      reads this
    {
      State(gpsLock, afwControlId, supportNfwControl, sent)
    }

    constructor (configured: Lock)
      ensures View() == Initial(configured)
    {
      gpsLock, afwControlId, supportNfwControl, sent := configured, 0, true, None;
    }

    method SetGpsLock(lock: Lock)
      modifies this`sent
      ensures sent == Some(lock)
    {
      sent := Some(lock);
    }

    method EnableCommand(id: nat, gnss: bool)
      modifies this
      ensures View() == Next(old(View()), Enable(id, gnss))
    {
      if gnss && afwControlId == 0 {
        afwControlId := id;
        var lock := NONE;
        if supportNfwControl {
          gpsLock := OnlyNi(gpsLock);
          lock := gpsLock;
        }
        SetGpsLock(lock);
      }
    }

    method DisableCommand(id: nat)
      modifies this
      ensures View() == Next(old(View()), Disable(id))
    {
      if afwControlId == id {
        afwControlId := 0;
        if supportNfwControl {
          gpsLock := gpsLock.(mo := true);
        }
        SetGpsLock(gpsLock);
      }
    }

    method NfwControlCommand(enable: bool)
      modifies this
      ensures View() == Next(old(View()), NfwControl(enable))
    {
      if supportNfwControl {
        ControlNfwLocationAccess(enable);
      }
    }

    /** The message that nfwControlCommand queues. */
    method ControlNfwLocationAccess(enable: bool)
      modifies this
      ensures View() == OnNfwMessage(old(View()), enable)
    {
      var lock := gpsLock;
      if enable {
        lock := lock.(ni := false);
      } else {
        lock := lock.(ni := true);
      }
      gpsLock := lock;
      SetGpsLock(lock);
    }

    /** gnssUpdateConfigCommand with a valid lock. */
    method GnssUpdateConfigCommand(requested: Lock)
      modifies this
      ensures View() == Next(old(View()), UpdateConfig(requested))
    {
      var lock, needsUpdate := requested.(mo := true), true;
      gpsLock := lock;
      if afwControlId != 0 {
        if supportNfwControl {
          lock := NONE;
        } else {
          needsUpdate := false;
        }
      }
      supportNfwControl := false;
      if needsUpdate {
        SetGpsLock(lock);
      }
    }

    /** The part of setConfig about the lock. */
    method SetConfig()
      modifies this
      ensures View() == Next(old(View()), EngineUp)
    {
      if supportNfwControl || afwControlId == 0 {
        SetGpsLock(gpsLock);
      } else {
        SetGpsLock(NONE);
      }
    }
  }

  // ----- Over all runs -----

  function Initial(configured: Lock): State {
    State(configured, 0, true, None)
  }

  /** The session ids of the enable commands are generated, and not 0. */
  predicate Enabled(c: Command) {
    c.Enable? ==> c.id > 0
  }

  function Run(configured: Lock, cs: seq<Command>): State {
    if cs == [] then Initial(configured) else Next(Run(configured, cs[..|cs| - 1]), cs[|cs| - 1])
  }

  /** The modem has what setConfig would send. */
  predicate Agrees(st: State) {
    st.sent.Some? ==> st.sent.value == Computed(st)
  }

  /** While location is enabled, Q behaviour locks at most NI; P behaviour keeps MO in the configured lock. */
  predicate LockShape(st: State) {
    && (st.supportNfwControl && st.afwControlId != 0 ==> !st.gpsLock.mo)
    && (!st.supportNfwControl ==> st.gpsLock.mo)
  }

  lemma NextAgrees(st: State, c: Command)
    requires Agrees(st) && LockShape(st) && Enabled(c)
    ensures Agrees(Next(st, c)) && LockShape(Next(st, c))
  {
  }

  lemma {:induction false} RunAgrees(configured: Lock, cs: seq<Command>)
    requires forall c :: c in cs ==> Enabled(c)
    ensures Agrees(Run(configured, cs)) && LockShape(Run(configured, cs))
  {
    if cs == [] {
    } else {
      RunAgrees(configured, cs[..|cs| - 1]);
      assert cs[|cs| - 1] in cs;
      NextAgrees(Run(configured, cs[..|cs| - 1]), cs[|cs| - 1]);
    }
  }

  /** Whatever the commands so far, the modem coming back is sent the lock it already has. */
  lemma RestartResendsLock(configured: Lock, cs: seq<Command>)
    requires forall c :: c in cs ==> Enabled(c)
    requires Run(configured, cs).sent.Some?
    ensures Next(Run(configured, cs), EngineUp) == Run(configured, cs)
  {
    RunAgrees(configured, cs);
  }

  /** While location is enabled the modem never locks positioning by the phone. */
  lemma EnabledUnlocksMo(configured: Lock, cs: seq<Command>)
    requires forall c :: c in cs ==> Enabled(c)
    ensures var st := Run(configured, cs);
            st.afwControlId != 0 && st.sent.Some? ==> !st.sent.value.mo
  {
    RunAgrees(configured, cs);
  }

  /** Disabling location locks it, in Q and in P behaviour. */
  lemma DisableLocksMo(configured: Lock, cs: seq<Command>, id: nat)
    requires forall c :: c in cs ==> Enabled(c)
    requires id == Run(configured, cs).afwControlId
    ensures var st := Next(Run(configured, cs), Disable(id)); st.sent.Some? && st.sent.value.mo
  {
    RunAgrees(configured, cs);
  }

  /**
   * An NFW control message that is handled after the behaviour has changed
   * keeps the modem in agreement if and only if location is disabled then.
   */
  lemma LateNfwMessageIff(configured: Lock, cs: seq<Command>, enable: bool)
    requires forall c :: c in cs ==> Enabled(c)
    ensures var st := Run(configured, cs);
            Agrees(OnNfwMessage(st, enable)) <==> st.supportNfwControl || st.afwControlId == 0
  {
    RunAgrees(configured, cs);
  }

  // ----- The lock follows from the commands -----

  /** What the last NFW control command asked for, if there was one. */
  function LastNfw(cs: seq<Command>): Option<bool> {
    if cs == [] then None
    else if cs[|cs| - 1].NfwControl? then Some(cs[|cs| - 1].enable)
    else LastNfw(cs[..|cs| - 1])
  }

  /** In Q behaviour the NI bit is what the last NFW control command asked for; enable and disable leave it alone. */
  lemma {:induction false} NiFollowsNfwControl(configured: Lock, cs: seq<Command>)
    ensures var st := Run(configured, cs);
            st.supportNfwControl && LastNfw(cs).Some?
            ==> st.gpsLock.ni == !LastNfw(cs).value
  {
    if cs == [] {
    } else {
      NiFollowsNfwControl(configured, cs[..|cs| - 1]);
    }
  }

  /** The lock of the last configuration update, if there was one. */
  function LastUpdate(cs: seq<Command>): Option<Lock> {
    if cs == [] then None
    else if cs[|cs| - 1].UpdateConfig? then Some(cs[|cs| - 1].lock)
    else LastUpdate(cs[..|cs| - 1])
  }

  /** The session that has location enabled, or 0: enables while none has it count, and disables by that session. */
  function EnabledBy(cs: seq<Command>): nat {
    if cs == [] then 0
    else
      var owner := EnabledBy(cs[..|cs| - 1]);
      match cs[|cs| - 1]
      case Enable(id, gnss) => if gnss && owner == 0 then id else owner
      case Disable(id) => if id == owner then 0 else owner
      case _ => owner
  }

  /** Whether the last enable or disable that counts was an enable. */
  function LastSwitch(cs: seq<Command>): Option<bool> {
    if cs == [] then None
    else
      var owner, before := EnabledBy(cs[..|cs| - 1]), LastSwitch(cs[..|cs| - 1]);
      match cs[|cs| - 1]
      case Enable(_, gnss) => if gnss && owner == 0 then Some(true) else before
      case Disable(id) => if id == owner then Some(false) else before
      case _ => before
  }

  /** Whether some enable has counted. */
  predicate EverEnabled(cs: seq<Command>) {
    cs != [] && (EverEnabled(cs[..|cs| - 1])
                 || (cs[|cs| - 1].Enable? && cs[|cs| - 1].gnss && EnabledBy(cs[..|cs| - 1]) == 0))
  }

  lemma {:induction false} RunSwitches(configured: Lock, cs: seq<Command>)
    requires forall c :: c in cs ==> Enabled(c)
    ensures var st := Run(configured, cs);
            && st.afwControlId == EnabledBy(cs)
            && (st.afwControlId != 0 ==> LastSwitch(cs) == Some(true))
            && (LastSwitch(cs) == Some(true) ==> st.afwControlId != 0)
            && (st.supportNfwControl <==> LastUpdate(cs).None?)
  {
    if cs == [] {
    } else {
      RunSwitches(configured, cs[..|cs| - 1]);
      assert cs[|cs| - 1] in cs;
    }
  }

  /**
   * After a configuration update the configured lock is the one last asked
   * for, with the MO bit, across enables, disables and ignored NFW commands;
   * the lock sent is that lock while location is disabled, and no bit at all
   * while it is enabled.
   */
  lemma {:induction false} LockFollowsUpdate(configured: Lock, cs: seq<Command>)
    requires (forall c :: c in cs ==> Enabled(c)) && LastUpdate(cs).Some?
    ensures var st, asked := Run(configured, cs), LastUpdate(cs).value;
            && st.gpsLock.mo && st.gpsLock.ni == asked.ni && st.gpsLock.others == asked.others
            && st.sent == Some(if EnabledBy(cs) == 0 then st.gpsLock else Lock(false, false, 0))
  {
    RunSwitches(configured, cs);
    RunAgrees(configured, cs);
    var init, c := cs[..|cs| - 1], cs[|cs| - 1];
    RunSwitches(configured, init);
    RunAgrees(configured, init);
    if LastUpdate(init).Some? {
      LockFollowsUpdate(configured, init);
    }
    assert c in cs;
  }

  /**
   * Before, in Q behaviour: the MO bit is clear after an enable, set after a
   * disable and else as configured; the NI bit is as last asked for, or as
   * configured; and the first enable clears all other bits.
   */
  lemma {:induction false} LockFollowsCommands(configured: Lock, cs: seq<Command>)
    requires (forall c :: c in cs ==> Enabled(c)) && LastUpdate(cs).None?
    ensures var lock := Run(configured, cs).gpsLock;
            && lock.mo == (if LastSwitch(cs).Some? then !LastSwitch(cs).value else configured.mo)
            && lock.ni == (if LastNfw(cs).Some? then !LastNfw(cs).value else configured.ni)
            && lock.others == (if EverEnabled(cs) then 0 else configured.others)
  {
    if cs == [] {
    } else {
      LockFollowsCommands(configured, cs[..|cs| - 1]);
      RunSwitches(configured, cs[..|cs| - 1]);
      assert cs[|cs| - 1] in cs;
    }
  }

  /** And the modem has that lock once any has been sent: by an enable or disable that counts, or an NFW command. */
  lemma {:induction false} QLockSent(configured: Lock, cs: seq<Command>)
    requires (forall c :: c in cs ==> Enabled(c)) && LastUpdate(cs).None?
    ensures var st := Run(configured, cs);
            && (LastSwitch(cs).Some? || LastNfw(cs).Some? ==> st.sent.Some?)
            && (st.sent.Some? ==> st.sent.value == st.gpsLock)
  {
    RunAgrees(configured, cs);
    RunSwitches(configured, cs);
    if cs == [] {
    } else {
      QLockSent(configured, cs[..|cs| - 1]);
      RunSwitches(configured, cs[..|cs| - 1]);
      assert cs[|cs| - 1] in cs;
    }
  }
}
