/**
 * Runs of the AGPS state machine: what its states say about the subscribers,
 * the conservation of subscribers, and the order of connection requests and
 * releases.
 */
module AgpsRuns {
  import opened Agps

  /** A new subscriber is active. */
  predicate ValidEvent(e: Event) {
    e.Subscribe? ==> !e.subscriber.inactive
  }

  function Run(es: seq<Event>): Machine {
    if es == [] then FRESH else Next(Run(es[..|es| - 1]), es[|es| - 1])
  }

  // ----- Counting -----

  function CountHandle(subs: seq<Subscriber>, h: int): nat {
    if subs == [] then 0 else (if subs[0].handle == h then 1 else 0) + CountHandle(subs[1..], h)
  }

  /** Additions count up; terminal callbacks and drops count down. */
  function Weight(a: Action, h: int): int {
    match a
    case Added(k) => if k == h then 1 else 0
    case CloseStatus(k) => if k == h then -1 else 0
    case OpenStatus(k, success) => if k == h && !success then -1 else 0
    case Discarded(k) => if k == h then -1 else 0
    case _ => 0
  }

  function Balance(trace: seq<Action>, h: int): int {
    if trace == [] then 0 else Weight(trace[0], h) + Balance(trace[1..], h)
  }

  lemma {:induction false} BalanceAppend(a: seq<Action>, b: seq<Action>, h: int)
    ensures Balance(a + b, h) == Balance(a, h) + Balance(b, h)
  {
    if a == [] {
      assert a + b == b;
    } else {
      assert (a + b)[1..] == a[1..] + b;
      BalanceAppend(a[1..], b, h);
    }
  }

  lemma {:induction false} CountAppend(a: seq<Subscriber>, b: seq<Subscriber>, h: int)
    ensures CountHandle(a + b, h) == CountHandle(a, h) + CountHandle(b, h)
  {
    if a == [] {
      assert a + b == b;
    } else {
      assert (a + b)[1..] == a[1..] + b;
      CountAppend(a[1..], b, h);
    }
  }

  lemma {:induction false} CountListed(subs: seq<Subscriber>, h: int)
    ensures CountHandle(subs, h) > 0 <==> Listed(subs, h)
  {
    if subs == [] {
    } else {
      CountListed(subs[1..], h);
      if i :| 0 <= i < |subs| && subs[i].handle == h {
        assert i > 0 ==> subs[1..][i - 1].handle == h;
      }
      if Listed(subs[1..], h) {
        var i :| 0 <= i < |subs[1..]| && subs[1..][i].handle == h;
        assert subs[i + 1].handle == h;
      }
    }
  }

  lemma {:induction false} CountUpdate(subs: seq<Subscriber>, i: nat, s: Subscriber, h: int)
    requires i < |subs| && s.handle == subs[i].handle
    ensures CountHandle(subs[i := s], h) == CountHandle(subs, h)
  {
    if i == 0 {
    } else {
      assert subs[i := s][1..] == subs[1..][i - 1 := s];
      CountUpdate(subs[1..], i - 1, s, h);
    }
  }

  lemma {:induction false} CountWithout(subs: seq<Subscriber>, k: int, h: int)
    ensures CountHandle(WithoutHandle(subs, k), h) == if h == k then 0 else CountHandle(subs, h)
  {
    if subs == [] {
    } else {
      CountWithout(subs[1..], k, h);
      CountAppend(if subs[0].handle == k then [] else [subs[0]], WithoutHandle(subs[1..], k), h);
    }
  }

  /** Who is notified of an end is exactly who is deleted. */
  lemma {:induction false} NotifiedAreDeleted(subs: seq<Subscriber>, n: Notification, e: Event, h: int)
    requires e.Denied? || e.ConnReleased?
    ensures CountHandle(subs, h) as int + Balance(Notices(subs, n, e), h) == CountHandle(Others(subs, n), h)
  {
    if subs == [] {
    } else {
      NotifiedAreDeleted(subs[1..], n, e, h);
      var s := subs[0];
      CountAppend(if Selects(n, s) then [] else [s], Others(subs[1..], n), h);
      BalanceAppend(if Selects(n, s) then [Notice(s.handle, e)] else [], Notices(subs[1..], n, e), h);
    }
  }

  lemma {:induction false} GrantsWeighNothing(subs: seq<Subscriber>, n: Notification, h: int)
    ensures Balance(Notices(subs, n, Granted), h) == 0
  {
    if subs == [] {
    } else {
      GrantsWeighNothing(subs[1..], n, h);
      var s := subs[0];
      BalanceAppend(if Selects(n, s) then [Notice(s.handle, Granted)] else [], Notices(subs[1..], n, Granted), h);
    }
  }

  lemma {:induction false} MarksWeigh(subs: seq<Subscriber>, h: int)
    ensures Balance(Marks(subs), h) + CountHandle(subs, h) == 0
  {
    if subs == [] {
    } else {
      MarksWeigh(subs[1..], h);
      BalanceAppend([Discarded(subs[0].handle)], Marks(subs[1..]), h);
    }
  }

  // ----- Conservation of subscribers -----

  /** The trace accounts for everyone on the list, and nobody else. */
  ghost predicate Conserved(m: Machine) {
    forall h :: Balance(m.trace, h) == CountHandle(m.subscribers, h) <= 1
  }

  lemma AddConserves(m: Machine, s: Subscriber)
    requires Conserved(m)
    ensures Conserved(AddSubscriber(m, s))
  {
    forall h
      ensures Balance(AddSubscriber(m, s).trace, h) == CountHandle(AddSubscriber(m, s).subscribers, h) <= 1
    {
      CountListed(m.subscribers, s.handle);
      CountAppend(m.subscribers, [s], h);
      BalanceAppend(m.trace, [Added(s.handle)], h);
    }
  }

  /** Appending weightless actions. */
  lemma SayConserves(m: Machine, said: seq<Action>, state: AgpsState)
    requires Conserved(m) && forall h :: Balance(said, h) == 0
    ensures Conserved(m.(trace := m.trace + said, state := state))
  {
    forall h
      ensures Balance(m.trace + said, h) == CountHandle(m.subscribers, h) <= 1
    {
      BalanceAppend(m.trace, said, h);
    }
  }

  lemma RetireConserves(m: Machine, i: nat)
    requires Conserved(m) && i < |m.subscribers|
    ensures Conserved(Retire(m, i))
  {
    var s := m.subscribers[i];
    forall h
      ensures Balance(Retire(m, i).trace, h) == CountHandle(Retire(m, i).subscribers, h) <= 1
    {
      CountListed(m.subscribers, s.handle);
      CountUpdate(m.subscribers, i, s.(inactive := true), h);
      CountWithout(m.subscribers, s.handle, h);
      BalanceAppend(m.trace, [CloseStatus(s.handle)], h);
    }
  }

  lemma NotifyConserves(m: Machine, e: Event, delete: bool, n: Notification)
    requires Conserved(m) && if delete then e.Denied? || e.ConnReleased? else e.Granted?
    ensures Conserved(NotifyAll(m, e, delete, n))
  {
    forall h
      ensures Balance(NotifyAll(m, e, delete, n).trace, h)
              == CountHandle(NotifyAll(m, e, delete, n).subscribers, h) <= 1
    {
      BalanceAppend(m.trace, Notices(m.subscribers, n, e), h);
      if delete {
        NotifiedAreDeleted(m.subscribers, n, e, h);
        CountOthers(m.subscribers, n, h);
      } else {
        GrantsWeighNothing(m.subscribers, n, h);
      }
    }
  }

  lemma {:induction false} CountOthers(subs: seq<Subscriber>, n: Notification, h: int)
    ensures CountHandle(Others(subs, n), h) <= CountHandle(subs, h)
  {
    if subs == [] {
    } else {
      CountOthers(subs[1..], n, h);
      CountAppend(if Selects(n, subs[0]) then [] else [subs[0]], Others(subs[1..], n), h);
    }
  }

  lemma FinishReleaseConserves(m: Machine)
    requires Conserved(m)
    ensures Conserved(FinishRelease(m))
  {
    NotifyConserves(m, ConnReleased, true, ForInactive);
    var left := NotifyAll(m, ConnReleased, true, ForInactive);
    SayConserves(left, [RequestConn], Pending);
  }

  lemma TakeAwayConserves(m: Machine, e: Event)
    requires Conserved(m) && (e.Denied? || e.ConnReleased?)
    ensures Conserved(TakeAway(m, e))
  {
    SayConserves(m, [TakenAway], Released);
    NotifyConserves(m.(state := Released, trace := m.trace + [TakenAway]), e, true, ForAll);
  }

  lemma NextConserves(m: Machine, e: Event)
    requires Conserved(m) && (m.state == Released ==> m.subscribers == [])
    ensures Conserved(Next(m, e))
  {
    match e
    case Subscribe(s) =>
      AddConserves(m, s);
      SayConserves(AddSubscriber(m, s), [RequestConn], Pending);
      SayConserves(m, [OpenStatus(s.handle, true)], m.state);
      AddConserves(m.(trace := m.trace + [OpenStatus(s.handle, true)]), s);
    case Unsubscribe(handle) =>
      var i := IndexOf(m.subscribers, handle);
      if i < |m.subscribers| {
        RetireConserves(m, i);
        SayConserves(Retire(m, i), [ReleaseConn], Released);
        SayConserves(Retire(m, i), [ReleaseConn], Releasing);
      }
    case Granted => NotifyConserves(m.(state := Acquired), Granted, false, ForActive);
    case ConnReleased =>
      FinishReleaseConserves(m);
      TakeAwayConserves(m, ConnReleased);
    case Denied =>
      FinishReleaseConserves(m);
      TakeAwayConserves(m, Denied);
    case ModemRestart =>
      forall h
        ensures Balance(Next(m, e).trace, h) == 0
      {
        MarksWeigh(m.subscribers, h);
        BalanceAppend(m.trace, Marks(m.subscribers), h);
      }
  }

  // ----- What the states say -----

  /** Over all runs: a released machine has no subscribers. */
  predicate ReleasedEmpty(m: Machine) {
    m.state == Released ==> m.subscribers == []
  }

  /** Over runs without a modem restart: someone waits for, uses or is left on the connection. */
  predicate StatesBacked(m: Machine) {
    && (m.state == Pending || m.state == Acquired ==> AnyActive(m.subscribers))
    && (m.state == Releasing ==> m.subscribers != [])
  }

  lemma {:induction false} AllChosenGone(subs: seq<Subscriber>)
    ensures Others(subs, ForAll) == []
  {
    if subs == [] {
    } else {
      AllChosenGone(subs[1..]);
    }
  }

  lemma {:induction false} InactiveGone(subs: seq<Subscriber>)
    ensures forall i :: 0 <= i < |Others(subs, ForInactive)| ==> !Others(subs, ForInactive)[i].inactive
    ensures AnyActive(Others(subs, ForInactive)) <==> Others(subs, ForInactive) != []
  {
    if subs != [] {
      InactiveGone(subs[1..]);
    }
    var others := Others(subs, ForInactive);
    if others != [] {
      assert !others[0].inactive;
    }
  }

  lemma NextReleasedEmpty(m: Machine, e: Event)
    requires ReleasedEmpty(m)
    ensures ReleasedEmpty(Next(m, e))
  {
    AllChosenGone(m.subscribers);
    InactiveGone(m.subscribers);
  }

  lemma AddedActive(subs: seq<Subscriber>, s: Subscriber)
    requires AnyActive(subs) || !s.inactive
    ensures AnyActive(subs + [s])
  {
    if AnyActive(subs) {
      var i :| 0 <= i < |subs| && !subs[i].inactive;
      assert !(subs + [s])[i].inactive;
    } else {
      assert !(subs + [s])[|subs|].inactive;
    }
  }

  lemma NextStatesBacked(m: Machine, e: Event)
    requires ReleasedEmpty(m) && StatesBacked(m) && ValidEvent(e) && !e.ModemRestart?
    ensures StatesBacked(Next(m, e))
  {
    match e
    case Subscribe(s) => AddedActive(m.subscribers, s);
    case Unsubscribe(handle) =>
    case Granted =>
    case ConnReleased => InactiveGone(m.subscribers);
    case Denied => InactiveGone(m.subscribers);
  }

  // ----- Connection requests and releases -----

  /** Whether the last thing that happened to the connection is a request. */
  function ConnectionOpen(trace: seq<Action>): bool {
    if trace == [] then false
    else
      match trace[|trace| - 1]
      case RequestConn => true
      case ReleaseConn => false
      case TakenAway => false
      case _ => ConnectionOpen(trace[..|trace| - 1])
  }

  /** Requests come on a closed connection; releases and losses on an open one. */
  predicate Alternates(trace: seq<Action>) {
    trace != [] ==>
      var before := trace[..|trace| - 1];
      && Alternates(before)
      && match trace[|trace| - 1]
         case RequestConn => !ConnectionOpen(before)
         case ReleaseConn => ConnectionOpen(before)
         case TakenAway => ConnectionOpen(before)
         case _ => true
  }

  function Requests(trace: seq<Action>): nat {
    if trace == [] then 0
    else Requests(trace[..|trace| - 1]) + (if trace[|trace| - 1] == RequestConn then 1 else 0)
  }

  predicate Neutral(said: seq<Action>) {
    RequestConn !in said && ReleaseConn !in said && TakenAway !in said
  }

  lemma Snoc(trace: seq<Action>, a: Action)
    ensures ConnectionOpen(trace + [a])
            == match a { case RequestConn => true case ReleaseConn => false case TakenAway => false
                         case _ => ConnectionOpen(trace) }
    ensures Alternates(trace + [a])
            == (Alternates(trace)
                && match a { case RequestConn => !ConnectionOpen(trace) case ReleaseConn => ConnectionOpen(trace)
                             case TakenAway => ConnectionOpen(trace) case _ => true })
    ensures Requests(trace + [a]) == Requests(trace) + (if a == RequestConn then 1 else 0)
  {
  }

  /** Actions that do not concern the connection change nothing about it. */
  lemma {:induction false} SayNeutral(trace: seq<Action>, said: seq<Action>)
    requires Neutral(said)
    ensures ConnectionOpen(trace + said) == ConnectionOpen(trace)
    ensures Alternates(trace + said) == Alternates(trace)
    ensures Requests(trace + said) == Requests(trace)
    decreases |said|
  {
    if said == [] {
      assert trace + said == trace;
    } else {
      var init, last := said[..|said| - 1], said[|said| - 1];
      SayNeutral(trace, init);
      assert said == init + [last] && trace + said == (trace + init) + [last];
      assert last in said;
      Snoc(trace + init, last);
    }
  }

  lemma {:induction false} NoticesNeutral(subs: seq<Subscriber>, n: Notification, e: Event)
    requires e.Granted? || e.Denied? || e.ConnReleased?
    ensures Neutral(Notices(subs, n, e))
  {
    if subs == [] {
    } else {
      NoticesNeutral(subs[1..], n, e);
    }
  }

  lemma {:induction false} MarksNeutral(subs: seq<Subscriber>)
    ensures Neutral(Marks(subs))
  {
    if subs == [] {
    } else {
      MarksNeutral(subs[1..]);
    }
  }

  /** The machine thinks of the connection as its trace does. */
  predicate InStep(m: Machine) {
    Alternates(m.trace) && (ConnectionOpen(m.trace) <==> m.state == Pending || m.state == Acquired)
  }

  lemma NotifyInStep(m: Machine, e: Event, delete: bool, n: Notification)
    requires e.Granted? || e.Denied? || e.ConnReleased?
    ensures var after := NotifyAll(m, e, delete, n);
            ConnectionOpen(after.trace) == ConnectionOpen(m.trace)
            && Alternates(after.trace) == Alternates(m.trace) && Requests(after.trace) == Requests(m.trace)
  {
    NoticesNeutral(m.subscribers, n, e);
    SayNeutral(m.trace, Notices(m.subscribers, n, e));
  }

  predicate EntersPending(before: Machine, after: Machine) {
    before.state != Pending && after.state == Pending
  }

  /** What an event does to the connection, in the machine and in the trace. */
  ghost predicate GoodStep(before: Machine, after: Machine) {
    InStep(after)
    && Requests(after.trace) == Requests(before.trace) + (if EntersPending(before, after) then 1 else 0)
  }

  lemma SubscribeInStep(m: Machine, s: Subscriber)
    requires InStep(m)
    ensures GoodStep(m, OnSubscribe(m, s))
  {
    var greeted := m.(trace := m.trace + [OpenStatus(s.handle, true)]);
    Snoc(m.trace, OpenStatus(s.handle, true));
    Snoc(m.trace, Added(s.handle));
    Snoc(greeted.trace, Added(s.handle));
    Snoc(AddSubscriber(m, s).trace, RequestConn);
  }

  lemma RetireInStep(m: Machine, i: nat)
    requires i < |m.subscribers|
    ensures var retired := Retire(m, i);
            ConnectionOpen(retired.trace) == ConnectionOpen(m.trace)
            && Alternates(retired.trace) == Alternates(m.trace) && Requests(retired.trace) == Requests(m.trace)
  {
  }

  lemma UnsubscribeInStep(m: Machine, i: nat)
    requires InStep(m) && i < |m.subscribers|
    ensures GoodStep(m, OnUnsubscribe(m, i))
  {
    if m.state == Released {
      Snoc(m.trace, CloseStatus(m.subscribers[i].handle));
    } else {
      RetireInStep(m, i);
      var retired := Retire(m, i);
      Snoc(retired.trace, ReleaseConn);
      if m.state != Releasing && (retired.subscribers == [] || !AnyActive(retired.subscribers)) {
        assert OnUnsubscribe(m, i).trace == retired.trace + [ReleaseConn];
      } else {
        assert OnUnsubscribe(m, i).trace == retired.trace;
      }
    }
  }

  lemma FinishReleaseInStep(m: Machine)
    requires InStep(m) && m.state == Releasing
    ensures GoodStep(m, FinishRelease(m))
  {
    NotifyInStep(m, ConnReleased, true, ForInactive);
    Snoc(NotifyAll(m, ConnReleased, true, ForInactive).trace, RequestConn);
  }

  lemma TakeAwayInStep(m: Machine, e: Event)
    requires InStep(m) && (m.state == Pending || m.state == Acquired) && (e.Denied? || e.ConnReleased?)
    ensures GoodStep(m, TakeAway(m, e))
  {
    Snoc(m.trace, TakenAway);
    NotifyInStep(m.(state := Released, trace := m.trace + [TakenAway]), e, true, ForAll);
  }

  lemma NextInStep(m: Machine, e: Event)
    requires InStep(m)
    ensures GoodStep(m, Next(m, e))
  {
    match e
    case Subscribe(s) => SubscribeInStep(m, s);
    case Unsubscribe(handle) =>
      var i := IndexOf(m.subscribers, handle);
      if i < |m.subscribers| {
        UnsubscribeInStep(m, i);
      }
    case Granted => NotifyInStep(m.(state := Acquired), Granted, false, ForActive);
    case ConnReleased =>
      if m.state == Releasing {
        FinishReleaseInStep(m);
      } else if m.state == Acquired {
        TakeAwayInStep(m, ConnReleased);
      }
    case Denied =>
      if m.state == Releasing {
        FinishReleaseInStep(m);
      } else if m.state == Pending {
        TakeAwayInStep(m, Denied);
      }
    case ModemRestart =>
      MarksNeutral(m.subscribers);
      SayNeutral(m.trace, Marks(m.subscribers));
  }

  // ----- Over all runs -----

  lemma {:induction false} RunInvariant(es: seq<Event>)
    ensures var m := Run(es); ReleasedEmpty(m) && Conserved(m) && InStep(m)
  {
    if es == [] {
    } else {
      var before, e := Run(es[..|es| - 1]), es[|es| - 1];
      RunInvariant(es[..|es| - 1]);
      NextReleasedEmpty(before, e);
      NextConserves(before, e);
      NextInStep(before, e);
    }
  }

  /** Without a modem restart every state but Released has the subscribers it stands for. */
  lemma {:induction false} RunStatesBacked(es: seq<Event>)
    requires ModemRestart !in es && forall e :: e in es ==> ValidEvent(e)
    ensures StatesBacked(Run(es))
  {
    if es == [] {
    } else {
      RunStatesBacked(es[..|es| - 1]);
      RunInvariant(es[..|es| - 1]);
      assert es[|es| - 1] in es;
      NextStatesBacked(Run(es[..|es| - 1]), es[|es| - 1]);
    }
  }

  /** How often h was added, was told its end (closed, or failed to open), and was dropped by a modem restart. */
  function Additions(trace: seq<Action>, h: int): nat {
    if trace == [] then 0 else (if trace[0] == Added(h) then 1 else 0) + Additions(trace[1..], h)
  }

  function Terminals(trace: seq<Action>, h: int): nat {
    if trace == [] then 0
    else (if trace[0] == CloseStatus(h) || trace[0] == OpenStatus(h, false) then 1 else 0) + Terminals(trace[1..], h)
  }

  function Drops(trace: seq<Action>, h: int): nat {
    if trace == [] then 0 else (if trace[0] == Discarded(h) then 1 else 0) + Drops(trace[1..], h)
  }

  lemma {:induction false} BalanceIs(trace: seq<Action>, h: int)
    ensures Balance(trace, h) == Additions(trace, h) - Terminals(trace, h) - Drops(trace, h)
  {
    if trace == [] {
    } else {
      BalanceIs(trace[1..], h);
    }
  }

  /**
   * In every run, for every handle: what was added and has been neither told
   * its end nor dropped by a restart is on the list, once.
   */
  lemma SubscribersConserved(es: seq<Event>, h: int)
    ensures var m := Run(es);
            Additions(m.trace, h) - Terminals(m.trace, h) - Drops(m.trace, h)
            == if Listed(m.subscribers, h) then 1 else 0
  {
    RunInvariant(es);
    BalanceIs(Run(es).trace, h);
    CountListed(Run(es).subscribers, h);
  }

  predicate NobodyDiscarded(trace: seq<Action>) {
    forall i :: 0 <= i < |trace| ==> !trace[i].Discarded?
  }

  lemma {:induction false} NoticesDiscardNobody(subs: seq<Subscriber>, n: Notification, e: Event)
    requires e.Granted? || e.Denied? || e.ConnReleased?
    ensures NobodyDiscarded(Notices(subs, n, e))
  {
    if subs == [] {
    } else {
      NoticesDiscardNobody(subs[1..], n, e);
    }
  }

  lemma NextDiscardsNobody(m: Machine, e: Event)
    requires NobodyDiscarded(m.trace) && !e.ModemRestart?
    ensures NobodyDiscarded(Next(m, e).trace)
  {
    match e
    case Subscribe(_) =>
    case Unsubscribe(_) =>
    case Granted => NoticesDiscardNobody(m.subscribers, ForActive, e);
    case ConnReleased =>
      NoticesDiscardNobody(m.subscribers, ForInactive, e);
      NoticesDiscardNobody(m.subscribers, ForAll, e);
    case Denied =>
      NoticesDiscardNobody(m.subscribers, ForInactive, ConnReleased);
      NoticesDiscardNobody(m.subscribers, ForAll, e);
  }

  lemma {:induction false} RunDiscardsNobody(es: seq<Event>)
    requires ModemRestart !in es
    ensures NobodyDiscarded(Run(es).trace)
  {
    if es == [] {
    } else {
      RunDiscardsNobody(es[..|es| - 1]);
      assert es[|es| - 1] in es;
      NextDiscardsNobody(Run(es[..|es| - 1]), es[|es| - 1]);
    }
  }

  lemma {:induction false} NoDrops(trace: seq<Action>, h: int)
    requires NobodyDiscarded(trace)
    ensures Drops(trace, h) == 0
  {
    if trace == [] {
    } else {
      NoDrops(trace[1..], h);
    }
  }

  /** Without a modem restart every subscriber on the list is one whose end is still to come, and no other. */
  lemma AddedMinusEnded(es: seq<Event>, h: int)
    requires ModemRestart !in es
    ensures Additions(Run(es).trace, h) - Terminals(Run(es).trace, h)
            == if Listed(Run(es).subscribers, h) then 1 else 0
  {
    SubscribersConserved(es, h);
    RunDiscardsNobody(es);
    NoDrops(Run(es).trace, h);
  }

  /** No two subscribers on the list share a handle. */
  lemma HandlesDistinct(es: seq<Event>, i: nat, j: nat)
    requires i < j < |Run(es).subscribers|
    ensures Run(es).subscribers[i].handle != Run(es).subscribers[j].handle
  {
    var subs := Run(es).subscribers;
    var h := subs[j].handle;
    RunInvariant(es);
    CountAppend(subs[..j], subs[j..], h);
    assert subs == subs[..j] + subs[j..];
    CountListed(subs[..j], h);
    assert i < |subs[..j]| && subs[..j][i] == subs[i];
  }

  lemma {:induction false} OpenStays(trace: seq<Action>, i: nat, j: nat, open: bool)
    requires i <= j <= |trace| && ConnectionOpen(trace[..i]) == open && ConnectionOpen(trace[..j]) != open
    ensures exists k :: i <= k < j &&
              if open then trace[k] == ReleaseConn || trace[k] == TakenAway else trace[k] == RequestConn
    decreases j
  {
    if i == j {
    } else {
      assert trace[..j] == trace[..j - 1] + [trace[j - 1]];
      Snoc(trace[..j - 1], trace[j - 1]);
      if ConnectionOpen(trace[..j - 1]) != open {
        OpenStays(trace, i, j - 1, open);
      }
    }
  }

  lemma {:induction false} AlternatesAt(trace: seq<Action>, i: nat)
    requires Alternates(trace) && i < |trace|
    ensures trace[i] == RequestConn ==> !ConnectionOpen(trace[..i]) && ConnectionOpen(trace[..i + 1])
    ensures trace[i] == ReleaseConn ==> ConnectionOpen(trace[..i]) && !ConnectionOpen(trace[..i + 1])
    decreases |trace|
  {
    var init := trace[..|trace| - 1];
    if i == |trace| - 1 {
      assert trace[..i + 1] == trace;
    } else {
      AlternatesAt(init, i);
      assert init[..i] == trace[..i] && init[..i + 1] == trace[..i + 1];
    }
  }

  /** Between two requests the connection is released, or taken away by a forced release or a denial. */
  lemma BetweenRequests(es: seq<Event>, i: nat, j: nat)
    requires i < j < |Run(es).trace| && Run(es).trace[i] == Run(es).trace[j] == RequestConn
    ensures exists k :: i < k < j && Run(es).trace[k] in {ReleaseConn, TakenAway}
  {
    var trace := Run(es).trace;
    RunInvariant(es);
    AlternatesAt(trace, i);
    AlternatesAt(trace, j);
    OpenStays(trace, i + 1, j, true);
  }

  /** Between two releases the connection is requested. */
  lemma BetweenReleases(es: seq<Event>, i: nat, j: nat)
    requires i < j < |Run(es).trace| && Run(es).trace[i] == Run(es).trace[j] == ReleaseConn
    ensures exists k :: i < k < j && Run(es).trace[k] == RequestConn
  {
    var trace := Run(es).trace;
    RunInvariant(es);
    AlternatesAt(trace, i);
    AlternatesAt(trace, j);
    OpenStays(trace, i + 1, j, false);
  }

  /** A request is sent exactly when a machine enters Pending. */
  lemma RequestOnEnteringPending(es: seq<Event>, e: Event)
    ensures Requests(Run(es + [e]).trace) - Requests(Run(es).trace)
            == if EntersPending(Run(es), Run(es + [e])) then 1 else 0
  {
    assert (es + [e])[..|es|] == es;
    RunInvariant(es);
    NextInStep(Run(es), e);
  }
}
