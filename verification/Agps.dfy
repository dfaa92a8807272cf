/**
 * The AGPS state machine and its manager: subscribers share one data
 * connection, which the machine requests from and releases to the framework.
 *
 * The classes follow the event handlers and are proved against functions on
 * machine values.  A machine value carries the trace of everything it sent,
 * with marks for the subscribers it adds and drops and for connections that
 * the framework takes away.
 */
module Agps {
  datatype AgpsState = Released | Pending | Acquired | Releasing

  datatype Subscriber = Subscriber(handle: int, waitForClose: bool, inactive: bool)

  datatype Notification = ForAll | ForInactive | ForActive

  datatype Action =
    | OpenStatus(handle: int, success: bool)
    | CloseStatus(handle: int)
    | RequestConn
    | ReleaseConn
    // marks
    | Added(handle: int)
    | Discarded(handle: int)
    | TakenAway

  datatype Machine = Machine(state: AgpsState, subscribers: seq<Subscriber>, trace: seq<Action>)

  datatype Event =
    | Subscribe(subscriber: Subscriber)
    | Unsubscribe(handle: int)
    | Granted
    | ConnReleased
    | Denied
    | ModemRestart

  // ----- The subscriber list -----

  predicate Selects(n: Notification, s: Subscriber) {
    n == ForAll || (n == ForInactive && s.inactive) || (n == ForActive && !s.inactive)
  }

  /** The subscribers that n does not select. */
  function Others(subs: seq<Subscriber>, n: Notification): seq<Subscriber> {
    if subs == [] then []
    else (if Selects(n, subs[0]) then [] else [subs[0]]) + Others(subs[1..], n)
  }

  function WithoutHandle(subs: seq<Subscriber>, handle: int): seq<Subscriber> {
    if subs == [] then []
    else (if subs[0].handle == handle then [] else [subs[0]]) + WithoutHandle(subs[1..], handle)
  }

  predicate Listed(subs: seq<Subscriber>, handle: int) {
    exists i :: 0 <= i < |subs| && subs[i].handle == handle
  }

  predicate AnyActive(subs: seq<Subscriber>) {
    exists i :: 0 <= i < |subs| && !subs[i].inactive
  }

  /** The notice of an event to each of the subscribers that n selects. */
  function Notices(subs: seq<Subscriber>, n: Notification, e: Event): seq<Action>
    requires e.Granted? || e.Denied? || e.ConnReleased?
  {
    if subs == [] then []
    else (if Selects(n, subs[0]) then [Notice(subs[0].handle, e)] else []) + Notices(subs[1..], n, e)
  }

  function Notice(handle: int, e: Event): Action
    requires e.Granted? || e.Denied? || e.ConnReleased?
  {
    match e
    case Granted => OpenStatus(handle, true)
    case Denied => OpenStatus(handle, false)
    case ConnReleased => CloseStatus(handle)
  }

  // ----- The steps of the machine, on values -----

  function AddSubscriber(m: Machine, s: Subscriber): Machine {
    if Listed(m.subscribers, s.handle) then m
    else m.(subscribers := m.subscribers + [s], trace := m.trace + [Added(s.handle)])
  }

  function OnSubscribe(m: Machine, s: Subscriber): Machine {
    match m.state
    case Released =>
      var added := AddSubscriber(m, s);
      added.(state := Pending, trace := added.trace + [RequestConn])
    case Pending => AddSubscriber(m, s)
    case Acquired => AddSubscriber(m.(trace := m.trace + [OpenStatus(s.handle, true)]), s)
    case Releasing => AddSubscriber(m, s)
  }

  /** The current subscriber i made inactive, or notified and deleted. */
  function Retire(m: Machine, i: nat): Machine
    requires i < |m.subscribers|
  {
    var s := m.subscribers[i];
    if s.waitForClose then
      m.(subscribers := m.subscribers[i := s.(inactive := true)])
    else
      m.(subscribers := WithoutHandle(m.subscribers, s.handle), trace := m.trace + [CloseStatus(s.handle)])
  }

  function OnUnsubscribe(m: Machine, i: nat): Machine
    requires i < |m.subscribers|
  {
    var retired := Retire(m, i);
    match m.state
    case Released => m.(trace := m.trace + [CloseStatus(m.subscribers[i].handle)])
    case Releasing => if retired.subscribers == [] then retired.(state := Released) else retired
    case _ =>
      if retired.subscribers == [] then
        retired.(state := Released, trace := retired.trace + [ReleaseConn])
      else if !AnyActive(retired.subscribers) then
        retired.(state := Releasing, trace := retired.trace + [ReleaseConn])
      else
        retired
  }

  /** Notify the chosen subscribers and, if asked, delete them. */
  function NotifyAll(m: Machine, e: Event, delete: bool, n: Notification): Machine
    requires e.Granted? || e.Denied? || e.ConnReleased?
  {
    m.(subscribers := if delete then Others(m.subscribers, n) else m.subscribers,
       trace := m.trace + Notices(m.subscribers, n, e))
  }

  function OnGranted(m: Machine): Machine {
    if m.state == Pending then NotifyAll(m.(state := Acquired), Granted, false, ForActive) else m
  }

  /** The end of a release: the waiting subscribers go, and active ones ask for a new connection. */
  function FinishRelease(m: Machine): Machine {
    var left := NotifyAll(m, ConnReleased, true, ForInactive);
    if AnyActive(left.subscribers) then left.(state := Pending, trace := left.trace + [RequestConn])
    else left.(state := Released)
  }

  function TakeAway(m: Machine, e: Event): Machine
    requires e.Granted? || e.Denied? || e.ConnReleased?
  {
    NotifyAll(m.(state := Released, trace := m.trace + [TakenAway]), e, true, ForAll)
  }

  function OnReleased(m: Machine): Machine {
    match m.state
    case Acquired => TakeAway(m, ConnReleased)
    case Releasing => FinishRelease(m)
    case _ => m
  }

  function OnDenied(m: Machine): Machine {
    match m.state
    case Releasing => FinishRelease(m)
    case Pending => TakeAway(m, Denied)
    case _ => m
  }

  function Marks(subs: seq<Subscriber>): seq<Action> {
    if subs == [] then [] else [Discarded(subs[0].handle)] + Marks(subs[1..])
  }

  /** A modem restart drops all subscribers and leaves the state as it is. */
  function OnModemRestart(m: Machine): Machine {
    m.(subscribers := [], trace := m.trace + Marks(m.subscribers))
  }

  function IndexOf(subs: seq<Subscriber>, handle: int): (i: nat)
    ensures i <= |subs|
    ensures i < |subs| ==> subs[i].handle == handle
    ensures forall k :: 0 <= k < i ==> subs[k].handle != handle
  {
    if subs == [] || subs[0].handle == handle then 0 else 1 + IndexOf(subs[1..], handle)
  }

  /** One event; a release for a handle that is not listed is ignored. */
  function Next(m: Machine, e: Event): Machine {
    match e
    case Subscribe(s) => OnSubscribe(m, s)
    case Unsubscribe(handle) =>
      var i := IndexOf(m.subscribers, handle);
      if i < |m.subscribers| then OnUnsubscribe(m, i) else m
    case Granted => OnGranted(m)
    case ConnReleased => OnReleased(m)
    case Denied => OnDenied(m)
    case ModemRestart => OnModemRestart(m)
  }

  const FRESH := Machine(Released, [], [])

  /** Erasing, or stepping over, the element after the kept ones. */
  lemma Advance(list: seq<Subscriber>, kept: seq<Subscriber>, rest: seq<Subscriber>)
    requires list == kept + rest && rest != []
    ensures list[|kept|] == rest[0]
    ensures list[..|kept|] + list[|kept| + 1..] == kept + rest[1..]
    ensures list == (kept + [rest[0]]) + rest[1..]
  {
  }

  lemma AdvanceOthers(kept: seq<Subscriber>, rest: seq<Subscriber>, n: Notification)
    requires rest != []
    ensures kept + Others(rest, n)
            == (if Selects(n, rest[0]) then kept else kept + [rest[0]]) + Others(rest[1..], n)
  {
  }

  lemma AdvanceNotices(said: seq<Action>, rest: seq<Subscriber>, n: Notification, e: Event)
    requires rest != [] && (e.Granted? || e.Denied? || e.ConnReleased?)
    ensures said + Notices(rest, n, e)
            == (if Selects(n, rest[0]) then said + [Notice(rest[0].handle, e)] else said) + Notices(rest[1..], n, e)
  {
  }

  /** The traversal from the subscriber i on, one by one. */
  function Swept(m: Machine, i: nat, e: Event, delete: bool, n: Notification): Machine
    requires e.Granted? || e.Denied? || e.ConnReleased?
    requires i <= |m.subscribers|
    decreases |m.subscribers| - i
  {
    if i == |m.subscribers| then m
    else
      var s := m.subscribers[i];
      if !Selects(n, s) then Swept(m, i + 1, e, delete, n)
      else
        var told := m.(trace := m.trace + [Notice(s.handle, e)]);
        if delete then
          Swept(told.(subscribers := m.subscribers[..i] + m.subscribers[i + 1..]), i, e, delete, n)
        else
          Swept(told, i + 1, e, delete, n)
  }

  /** Erasing during the traversal misses nobody and notifies nobody twice. */
  lemma {:induction false} SweepIsNotifyAll(
      m: Machine, kept: seq<Subscriber>, rest: seq<Subscriber>, e: Event, delete: bool, n: Notification)
    requires e.Granted? || e.Denied? || e.ConnReleased?
    requires m.subscribers == kept + rest
    ensures Swept(m, |kept|, e, delete, n)
            == m.(subscribers := if delete then kept + Others(rest, n) else m.subscribers,
                  trace := m.trace + Notices(rest, n, e))
    decreases |rest|
  {
    if rest == [] {
    } else {
      Advance(m.subscribers, kept, rest);
      AdvanceOthers(kept, rest, n);
      AdvanceNotices(m.trace, rest, n, e);
      var told := if Selects(n, rest[0]) then m.(trace := m.trace + [Notice(rest[0].handle, e)]) else m;
      if Selects(n, rest[0]) && delete {
        SweepIsNotifyAll(told.(subscribers := kept + rest[1..]), kept, rest[1..], e, delete, n);
      } else {
        SweepIsNotifyAll(told, kept + [rest[0]], rest[1..], e, delete, n);
      }
    }
  }

  // ----- The machine -----

  class AgpsStateMachine {
    var state: AgpsState
    var subscribers: seq<Subscriber>
    ghost var trace: seq<Action>

    ghost function View(): Machine
      reads this
    {
      Machine(state, subscribers, trace)
    }

    constructor ()
      ensures View() == FRESH
    {
      state, subscribers, trace := Released, [], [];
    }

    method ProcessSubscribe(s: Subscriber)
      modifies this
      ensures View() == OnSubscribe(old(View()), s)
    {
      match state {
        case Released =>
          Insert(s);
          RequestOrRelease(true);
          state := Pending;
        case Pending =>
          Insert(s);
        case Acquired =>
          trace := trace + [OpenStatus(s.handle, true)];
          Insert(s);
        case Releasing =>
          Insert(s);
      }
    }

    /** i is where the list holds the current subscriber. */
    method ProcessUnsubscribe(i: nat)
      requires i < |subscribers|
      modifies this
      ensures View() == OnUnsubscribe(old(View()), i)
    {
      if state == Released {
        trace := trace + [CloseStatus(subscribers[i].handle)];
        return;
      }
      if subscribers[i].waitForClose {
        subscribers := subscribers[i := subscribers[i].(inactive := true)];
      } else {
        trace := trace + [CloseStatus(subscribers[i].handle)];
        DeleteSubscriber(subscribers[i].handle);
      }
      if |subscribers| == 0 {
        if state != Releasing {
          RequestOrRelease(false);
        }
        state := Released;
      } else if state != Releasing {
        var active := AnyActiveSubscribers();
        if !active {
          state := Releasing;
          RequestOrRelease(false);
        }
      }
    }

    method ProcessGranted()
      modifies this
      ensures View() == OnGranted(old(View()))
    {
      if state == Pending {
        state := Acquired;
        NotifyAllSubscribers(Granted, false, ForActive);
      }
    }

    method ProcessReleased()
      modifies this
      ensures View() == OnReleased(old(View()))
    {
      match state {
        case Acquired =>
          state := Released;
          trace := trace + [TakenAway];
          NotifyAllSubscribers(ConnReleased, true, ForAll);
        case Releasing =>
          EndRelease();
        case Released =>
        case Pending =>
      }
    }

    method ProcessDenied()
      modifies this
      ensures View() == OnDenied(old(View()))
    {
      match state {
        case Releasing =>
          EndRelease();
        case Pending =>
          state := Released;
          trace := trace + [TakenAway];
          NotifyAllSubscribers(Denied, true, ForAll);
        case Released =>
        case Acquired =>
      }
    }

    method EndRelease()
      modifies this
      ensures View() == FinishRelease(old(View()))
    {
      NotifyAllSubscribers(ConnReleased, true, ForInactive);
      var active := AnyActiveSubscribers();
      if active {
        state := Pending;
        RequestOrRelease(true);
      } else {
        state := Released;
      }
    }

    method RequestOrRelease(request: bool)
      modifies this`trace
      ensures trace == old(trace) + [if request then RequestConn else ReleaseConn]
    {
      trace := trace + [if request then RequestConn else ReleaseConn];
    }

    /** notifyAllSubscribers: one traversal that erases as it goes. */
    method NotifyAllSubscribers(e: Event, delete: bool, n: Notification)
      requires e.Granted? || e.Denied? || e.ConnReleased?
      modifies this
      ensures View() == NotifyAll(old(View()), e, delete, n)
    {
      var i := 0;
      while i < |subscribers|
        invariant 0 <= i <= |subscribers|
        invariant Swept(View(), i, e, delete, n) == Swept(old(View()), 0, e, delete, n)
        decreases |subscribers| - i
      {
        var s := subscribers[i];
        if Selects(n, s) {
          trace := trace + [Notice(s.handle, e)];
          if delete {
            subscribers := subscribers[..i] + subscribers[i + 1..];
            continue;
          }
        }
        i := i + 1;
      }
      SweepIsNotifyAll(old(View()), [], old(subscribers), e, delete, n);
    }

    method Insert(s: Subscriber)
      modifies this
      ensures View() == AddSubscriber(old(View()), s)
    {
      var i := 0;
      while i < |subscribers|
        invariant 0 <= i <= |subscribers|
        invariant forall k :: 0 <= k < i ==> subscribers[k].handle != s.handle
      {
        if subscribers[i].handle == s.handle {
          return;
        }
        i := i + 1;
      }
      subscribers := subscribers + [s];
      trace := trace + [Added(s.handle)];
    }

    method DeleteSubscriber(handle: int)
      modifies this`subscribers
      ensures subscribers == WithoutHandle(old(subscribers), handle)
    {
      ghost var before, kept, rest := subscribers, [], subscribers;
      var i := 0;
      while i < |subscribers|
        invariant subscribers == kept + rest && i == |kept|
        invariant kept + WithoutHandle(rest, handle) == WithoutHandle(before, handle)
        decreases |rest|
      {
        var s := subscribers[i];
        Advance(subscribers, kept, rest);
        rest := rest[1..];
        if s.handle == handle {
          subscribers := subscribers[..i] + subscribers[i + 1..];
        } else {
          kept, i := kept + [s], i + 1;
        }
      }
      assert rest == [];
    }

    method AnyActiveSubscribers() returns (active: bool)
      ensures active <==> AnyActive(subscribers)
    {
      var i := 0;
      while i < |subscribers|
        invariant 0 <= i <= |subscribers|
        invariant forall k :: 0 <= k < i ==> subscribers[k].inactive
      {
        if !subscribers[i].inactive {
          return true;
        }
        i := i + 1;
      }
      return false;
    }

    /** The place of the subscriber with the handle, or the length of the list. */
    method GetSubscriber(handle: int) returns (i: nat)
      ensures i == IndexOf(subscribers, handle)
    {
      i := 0;
      while i < |subscribers|
        invariant i <= |subscribers|
        invariant forall k :: 0 <= k < i ==> subscribers[k].handle != handle
      {
        if subscribers[i].handle == handle {
          return;
        }
        i := i + 1;
      }
    }

    method DropAllSubscribers()
      modifies this
      ensures View() == OnModemRestart(old(View()))
    {
      ghost var before, said := subscribers, [];
      while |subscribers| > 0
        invariant trace == old(trace) + said && said + Marks(subscribers) == Marks(before) && state == old(state)
        decreases |subscribers|
      {
        var s := subscribers[0];
        trace, said := trace + [Discarded(s.handle)], said + [Discarded(s.handle)];
        subscribers := subscribers[1..];
      }
    }
  }
}
