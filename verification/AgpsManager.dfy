/**
 * The AGPS manager: it keeps a state machine for assisted GNSS and one for the
 * internet connection, and passes requests and framework reports on to them.
 */
module AgpsManagement {
  import opened Wrappers
  import opened Agps
  import opened AgpsRuns
  import opened AgpsNotices

  datatype AgpsType = Invalid | Supl | SuplEs | WwanAny | Other

  /** The machines as values; refused lists the requests for which there is no machine. */
  datatype Manager = Manager(agnss: Option<Machine>, internet: Option<Machine>, refused: seq<Action>)

  datatype Message =
    | RequestATL(handle: int, agpsType: AgpsType)
    | ReleaseATL(handle: int)
    | AtlOpenSuccess(agpsType: AgpsType)
    | AtlOpenFailed(agpsType: AgpsType)
    | AtlClosed(agpsType: AgpsType)
    | ModemSSR

  predicate ForAgnss(agpsType: AgpsType) {
    agpsType.Invalid? || agpsType.Supl? || agpsType.SuplEs?
  }

  function MachineFor(m: Manager, agpsType: AgpsType): Option<Machine> {
    if ForAgnss(agpsType) then m.agnss else m.internet
  }

  function NextIf(machine: Option<Machine>, e: Event): Option<Machine> {
    if machine.Some? then Some(Next(machine.value, e)) else None
  }

  /** The machine for the type takes the event. */
  function PassOn(m: Manager, agpsType: AgpsType, e: Event): Manager {
    if ForAgnss(agpsType) then m.(agnss := NextIf(m.agnss, e)) else m.(internet := NextIf(m.internet, e))
  }

  predicate Holds(machine: Option<Machine>, handle: int) {
    machine.Some? && IndexOf(machine.value.subscribers, handle) < |machine.value.subscribers|
  }

  function Handle(m: Manager, msg: Message): Manager {
    match msg
    case RequestATL(handle, agpsType) =>
      if MachineFor(m, agpsType).None? then m.(refused := m.refused + [OpenStatus(handle, false)])
      else PassOn(m, agpsType, Subscribe(Subscriber(handle, false, false)))
    case ReleaseATL(handle) =>
      if Holds(m.agnss, handle) then m.(agnss := NextIf(m.agnss, Unsubscribe(handle)))
      else if Holds(m.internet, handle) then m.(internet := NextIf(m.internet, Unsubscribe(handle)))
      else m
    case AtlOpenSuccess(agpsType) => PassOn(m, agpsType, Granted)
    case AtlOpenFailed(agpsType) => PassOn(m, agpsType, Denied)
    case AtlClosed(agpsType) => PassOn(m, agpsType, ConnReleased)
    case ModemSSR => m.(agnss := NextIf(m.agnss, ModemRestart), internet := NextIf(m.internet, ModemRestart))
  }

  class AgpsManager {
    const agnssNif: AgpsStateMachine?
    const internetNif: AgpsStateMachine?
    ghost var refused: seq<Action>

    ghost predicate Valid() {
      agnssNif != null ==> agnssNif != internetNif
    }

    ghost function Footprint(): set<object> {
      {this} + (if agnssNif == null then {} else {agnssNif}) + (if internetNif == null then {} else {internetNif})
    }

    ghost function View(): Manager
      reads this, agnssNif, internetNif
    {
      Manager(if agnssNif == null then None else Some(agnssNif.View()),
              if internetNif == null then None else Some(internetNif.View()),
              refused)
    }

    constructor (agnss: AgpsStateMachine?, internet: AgpsStateMachine?)
      requires agnss != null ==> agnss != internet
      ensures Valid() && agnssNif == agnss && internetNif == internet && refused == []
    {
      agnssNif, internetNif, refused := agnss, internet, [];
    }

    function GetAgpsStateMachine(agpsType: AgpsType): AgpsStateMachine? {
      if ForAgnss(agpsType) then agnssNif else internetNif
    }

    method RequestATL(handle: int, agpsType: AgpsType)
      requires Valid()
      modifies Footprint()
      ensures View() == Handle(old(View()), Message.RequestATL(handle, agpsType))
    {
      var sm := GetAgpsStateMachine(agpsType);
      if sm == null {
        refused := refused + [OpenStatus(handle, false)];
        return;
      }
      sm.ProcessSubscribe(Subscriber(handle, false, false));
    }

    method ReleaseATL(handle: int)
      requires Valid()
      modifies Footprint()
      ensures View() == Handle(old(View()), Message.ReleaseATL(handle))
    {
      var i;
      if agnssNif != null {
        i := agnssNif.GetSubscriber(handle);
        if i < |agnssNif.subscribers| {
          agnssNif.ProcessUnsubscribe(i);
          return;
        }
      }
      if internetNif != null {
        i := internetNif.GetSubscriber(handle);
        if i < |internetNif.subscribers| {
          internetNif.ProcessUnsubscribe(i);
        }
      }
    }

    /** The reports of the framework come for types that have a machine. */
    method ReportAtlOpenSuccess(agpsType: AgpsType)
      requires Valid() && GetAgpsStateMachine(agpsType) != null
      modifies Footprint()
      ensures View() == Handle(old(View()), AtlOpenSuccess(agpsType))
    {
      GetAgpsStateMachine(agpsType).ProcessGranted();
    }

    method ReportAtlOpenFailed(agpsType: AgpsType)
      requires Valid() && GetAgpsStateMachine(agpsType) != null
      modifies Footprint()
      ensures View() == Handle(old(View()), AtlOpenFailed(agpsType))
    {
      GetAgpsStateMachine(agpsType).ProcessDenied();
    }

    method ReportAtlClosed(agpsType: AgpsType)
      requires Valid() && GetAgpsStateMachine(agpsType) != null
      modifies Footprint()
      ensures View() == Handle(old(View()), AtlClosed(agpsType))
    {
      GetAgpsStateMachine(agpsType).ProcessReleased();
    }

    method HandleModemSSR()
      requires Valid()
      modifies Footprint()
      ensures View() == Handle(old(View()), ModemSSR)
    {
      if agnssNif != null {
        agnssNif.DropAllSubscribers();
      }
      if internetNif != null {
        internetNif.DropAllSubscribers();
      }
    }
  }

  // ----- Runs through the manager -----

  /** The manager after the messages, starting from fresh machines. */
  function ManagerRun(hasAgnss: bool, hasInternet: bool, msgs: seq<Message>): Manager {
    if msgs == [] then
      Manager(if hasAgnss then Some(FRESH) else None, if hasInternet then Some(FRESH) else None, [])
    else
      Handle(ManagerRun(hasAgnss, hasInternet, msgs[..|msgs| - 1]), msgs[|msgs| - 1])
  }

  /** Nobody waits for the close, so nobody becomes inactive and a release never lingers. */
  predicate Prompt(m: Machine) {
    m.state != Releasing && forall s :: s in m.subscribers ==> !s.waitForClose && !s.inactive
  }

  lemma {:induction false} WithoutIsPart(subs: seq<Subscriber>, handle: int)
    ensures forall s :: s in WithoutHandle(subs, handle) ==> s in subs
  {
    if subs == [] {
    } else {
      WithoutIsPart(subs[1..], handle);
    }
  }

  lemma UnsubscribePrompt(m: Machine, i: nat)
    requires Prompt(m) && i < |m.subscribers|
    ensures Prompt(OnUnsubscribe(m, i))
  {
    var s := m.subscribers[i];
    assert s in m.subscribers;
    WithoutIsPart(m.subscribers, s.handle);
    var left := Retire(m, i).subscribers;
    if left != [] {
      assert left[0] in left && !left[0].inactive;
    }
  }

  lemma NextPrompt(m: Machine, e: Event)
    requires Prompt(m) && (e.Subscribe? ==> !e.subscriber.waitForClose && !e.subscriber.inactive)
    ensures Prompt(Next(m, e))
  {
    AllChosenGone(m.subscribers);
    if e.Unsubscribe? {
      var i := IndexOf(m.subscribers, e.handle);
      if i < |m.subscribers| {
        UnsubscribePrompt(m, i);
      }
    }
  }

  /** A machine state the manager can bring about: some run of events, and prompt. */
  ghost predicate Reached(machine: Option<Machine>) {
    machine.Some? ==> Prompt(machine.value) && exists es: seq<Event> :: machine.value == Run(es)
  }

  lemma ReachedNext(machine: Option<Machine>, e: Event)
    requires Reached(machine) && (e.Subscribe? ==> !e.subscriber.waitForClose && !e.subscriber.inactive)
    ensures Reached(NextIf(machine, e))
  {
    if machine.Some? {
      NextPrompt(machine.value, e);
      var es: seq<Event> :| machine.value == Run(es);
      assert (es + [e])[..|es|] == es;
      assert Next(machine.value, e) == Run(es + [e]);
    }
  }

  lemma {:induction false} ManagerReached(hasAgnss: bool, hasInternet: bool, msgs: seq<Message>)
    ensures var m := ManagerRun(hasAgnss, hasInternet, msgs); Reached(m.agnss) && Reached(m.internet)
  {
    if msgs == [] {
      assert Run([]) == FRESH;
    } else {
      var before, msg := ManagerRun(hasAgnss, hasInternet, msgs[..|msgs| - 1]), msgs[|msgs| - 1];
      ManagerReached(hasAgnss, hasInternet, msgs[..|msgs| - 1]);
      var e := match msg
        case RequestATL(handle, _) => Subscribe(Subscriber(handle, false, false))
        case ReleaseATL(handle) => Unsubscribe(handle)
        case AtlOpenSuccess(_) => Granted
        case AtlOpenFailed(_) => Denied
        case AtlClosed(_) => ConnReleased
        case ModemSSR => ModemRestart;
      ReachedNext(before.agnss, e);
      ReachedNext(before.internet, e);
    }
  }

  /** Through the manager no machine is ever releasing, not even after modem restarts. */
  lemma NeverReleasing(hasAgnss: bool, hasInternet: bool, msgs: seq<Message>)
    ensures var m := ManagerRun(hasAgnss, hasInternet, msgs);
            (m.agnss.Some? ==> m.agnss.value.state != Releasing)
            && (m.internet.Some? ==> m.internet.value.state != Releasing)
  {
    ManagerReached(hasAgnss, hasInternet, msgs);
  }

  /** Both machines keep their subscribers accounted for, whatever messages the manager passes on. */
  lemma ManagerConserves(hasAgnss: bool, hasInternet: bool, msgs: seq<Message>, h: int)
    ensures var m := ManagerRun(hasAgnss, hasInternet, msgs);
            && (m.agnss.Some? ==> Accounted(m.agnss.value, h))
            && (m.internet.Some? ==> Accounted(m.internet.value, h))
  {
    ManagerReached(hasAgnss, hasInternet, msgs);
    var m := ManagerRun(hasAgnss, hasInternet, msgs);
    if m.agnss.Some? {
      var es: seq<Event> :| m.agnss.value == Run(es);
      SubscribersConserved(es, h);
    }
    if m.internet.Some? {
      var es: seq<Event> :| m.internet.value == Run(es);
      SubscribersConserved(es, h);
    }
  }

  predicate Accounted(m: Machine, h: int) {
    Additions(m.trace, h) - Terminals(m.trace, h) - Drops(m.trace, h) == if Listed(m.subscribers, h) then 1 else 0
  }

  // ----- What the messages bring about -----

  /** The machine that is not for the type. */
  function OtherMachine(m: Manager, agpsType: AgpsType): Option<Machine> {
    if ForAgnss(agpsType) then m.internet else m.agnss
  }

  /** A prompt machine takes an event. */
  lemma ReachedSays(machine: Option<Machine>, e: Event, h: int)
    requires Reached(machine) && machine.Some?
    ensures var m, after := machine.value, Next(machine.value, e);
            && Says(m.trace, after.trace, h, Opens(m, e, h), Fails(m, e, h), Closes(m, e, h))
            && m.state != Releasing
            && (Entry(m.subscribers, h).Some? ==>
                  !Entry(m.subscribers, h).value.inactive && !Entry(m.subscribers, h).value.waitForClose)
            && Entry(after.subscribers, h)
               == if e.Subscribe? && e.subscriber.handle == h && Entry(m.subscribers, h).None? then Some(e.subscriber)
                  else if e.ModemRestart? || Fails(m, e, h) || Closes(m, e, h) then None
                  else Entry(m.subscribers, h)
  {
    var es: seq<Event> :| machine.value == Run(es);
    RunInvariant(es);
    NextSays(machine.value, e, h);
    EntryFollows(machine.value, e, h);
    EntryListed(machine.value.subscribers, h);
  }

  /**
   * A reported success tells the waiting subscribers of the type's machine so
   * and keeps them; a failure tells them that, and a close those who use the
   * connection, and lets them go.  The other machine does not change.
   */
  lemma ReportTells(hasAgnss: bool, hasInternet: bool, msgs: seq<Message>, msg: Message, h: int)
    requires msg.AtlOpenSuccess? || msg.AtlOpenFailed? || msg.AtlClosed?
    requires MachineFor(ManagerRun(hasAgnss, hasInternet, msgs), msg.agpsType).Some?
    ensures var m := ManagerRun(hasAgnss, hasInternet, msgs);
            var before := MachineFor(m, msg.agpsType).value;
            var listed := Entry(before.subscribers, h).Some?;
            Turns(m, msg, msg.agpsType, h,
                  msg.AtlOpenSuccess? && listed && before.state == Pending,
                  msg.AtlOpenFailed? && listed && before.state == Pending,
                  msg.AtlClosed? && listed && before.state == Acquired)
  {
    var m := ManagerRun(hasAgnss, hasInternet, msgs);
    var e := if msg.AtlOpenSuccess? then Granted else if msg.AtlOpenFailed? then Denied else ConnReleased;
    ManagerReached(hasAgnss, hasInternet, msgs);
    EventTells(MachineFor(m, msg.agpsType), e, h);
    assert MachineFor(Handle(m, msg), msg.agpsType) == NextIf(MachineFor(m, msg.agpsType), e);
  }

  lemma EventTells(machine: Option<Machine>, e: Event, h: int)
    requires Reached(machine) && machine.Some? && (e.Granted? || e.Denied? || e.ConnReleased?)
    ensures var listed := Entry(machine.value.subscribers, h).Some?;
            Told(machine.value, Next(machine.value, e), h,
                 listed && e.Granted? && machine.value.state == Pending,
                 listed && e.Denied? && machine.value.state == Pending,
                 listed && e.ConnReleased? && machine.value.state == Acquired)
  {
    ReachedSays(machine, e, h);
  }

  /** What h is told, and that its entry goes exactly with a failure or a close. */
  ghost predicate Told(before: Machine, after: Machine, h: int, opens: bool, fails: bool, closes: bool) {
    && Says(before.trace, after.trace, h, opens, fails, closes)
    && Entry(after.subscribers, h) == if fails || closes then None else Entry(before.subscribers, h)
  }

  /** The message makes the type's machine tell h so, and leaves the other machine alone. */
  ghost predicate Turns(
      m: Manager, msg: Message, agpsType: AgpsType, h: int, opens: bool, fails: bool, closes: bool)
    requires MachineFor(m, agpsType).Some?
  {
    var after := Handle(m, msg);
    && MachineFor(after, agpsType).Some? && OtherMachine(after, agpsType) == OtherMachine(m, agpsType)
    && Told(MachineFor(m, agpsType).value, MachineFor(after, agpsType).value, h, opens, fails, closes)
  }

  /** A request lists its handle with the type's machine, or is told to have failed when there is none. */
  lemma RequestLists(hasAgnss: bool, hasInternet: bool, msgs: seq<Message>, handle: int, agpsType: AgpsType)
    ensures var m := ManagerRun(hasAgnss, hasInternet, msgs);
            var after := Handle(m, RequestATL(handle, agpsType));
            && OtherMachine(after, agpsType) == OtherMachine(m, agpsType)
            && if MachineFor(m, agpsType).None? then
                 after == m.(refused := m.refused + [OpenStatus(handle, false)])
               else
                 MachineFor(after, agpsType).Some? && after.refused == m.refused
                 && Entry(MachineFor(after, agpsType).value.subscribers, handle).Some?
  {
    var m := ManagerRun(hasAgnss, hasInternet, msgs);
    ManagerReached(hasAgnss, hasInternet, msgs);
    if MachineFor(m, agpsType).Some? {
      ReachedSays(MachineFor(m, agpsType), Subscribe(Subscriber(handle, false, false)), handle);
    }
  }

  /** A release tells its handle that it is closed and lets it go, in the first of the machines that lists it. */
  lemma ReleaseCloses(hasAgnss: bool, hasInternet: bool, msgs: seq<Message>, handle: int)
    ensures var m := ManagerRun(hasAgnss, hasInternet, msgs);
            var after := Handle(m, ReleaseATL(handle));
            if Lists(m.agnss, handle) then
              after.internet == m.internet && after.agnss.Some?
              && Told(m.agnss.value, after.agnss.value, handle, false, false, true)
            else if Lists(m.internet, handle) then
              after.agnss == m.agnss && after.internet.Some?
              && Told(m.internet.value, after.internet.value, handle, false, false, true)
            else after == m
  {
    var m := ManagerRun(hasAgnss, hasInternet, msgs);
    ManagerReached(hasAgnss, hasInternet, msgs);
    HoldsLists(m.agnss, handle);
    HoldsLists(m.internet, handle);
    if Lists(m.agnss, handle) {
      ReachedSays(m.agnss, Unsubscribe(handle), handle);
    } else if Lists(m.internet, handle) {
      ReachedSays(m.internet, Unsubscribe(handle), handle);
    }
  }

  predicate Lists(machine: Option<Machine>, handle: int) {
    machine.Some? && Entry(machine.value.subscribers, handle).Some?
  }

  lemma HoldsLists(machine: Option<Machine>, handle: int)
    ensures Holds(machine, handle) <==> Lists(machine, handle)
  {
    if machine.Some? {
      EntryAt(machine.value.subscribers, handle);
    }
  }

  /** A modem restart drops everyone in both machines without a word, and leaves their states. */
  lemma RestartDropsAll(hasAgnss: bool, hasInternet: bool, msgs: seq<Message>, h: int)
    ensures var m := ManagerRun(hasAgnss, hasInternet, msgs);
            Dropped(m.agnss, Handle(m, ModemSSR).agnss, h) && Dropped(m.internet, Handle(m, ModemSSR).internet, h)
  {
    var m := ManagerRun(hasAgnss, hasInternet, msgs);
    ManagerReached(hasAgnss, hasInternet, msgs);
    if m.agnss.Some? {
      ReachedSays(m.agnss, ModemRestart, h);
    }
    if m.internet.Some? {
      ReachedSays(m.internet, ModemRestart, h);
    }
  }

  ghost predicate Dropped(before: Option<Machine>, after: Option<Machine>, h: int) {
    if before.None? then after.None?
    else
      after.Some? && after.value.state == before.value.state && Entry(after.value.subscribers, h).None?
      && Says(before.value.trace, after.value.trace, h, false, false, false)
  }

  /** Only the SUPL types and the invalid one go to the machine for assisted GNSS. */
  lemma Routing(m: Manager)
    ensures MachineFor(m, Invalid) == MachineFor(m, Supl) == MachineFor(m, SuplEs) == m.agnss
    ensures MachineFor(m, WwanAny) == MachineFor(m, Other) == m.internet
  {
  }
}
