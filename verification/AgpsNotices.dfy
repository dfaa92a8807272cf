/**
 * What the AGPS state machine tells its subscribers, and whom it keeps: each
 * handle's entry, its notices and the state of the machine follow from the
 * events.
 */
module AgpsNotices {
  import opened Wrappers
  import opened Agps
  import opened AgpsRuns

  // ----- The entry of a handle -----

  function Entry(subs: seq<Subscriber>, h: int): Option<Subscriber> {
    if subs == [] then None else if subs[0].handle == h then Some(subs[0]) else Entry(subs[1..], h)
  }

  lemma {:induction false} EntryListed(subs: seq<Subscriber>, h: int)
    ensures Entry(subs, h).Some? <==> Listed(subs, h)
    ensures Entry(subs, h).Some? <==> CountHandle(subs, h) > 0
    ensures Entry(subs, h).Some? ==> Entry(subs, h).value in subs && Entry(subs, h).value.handle == h
  {
    CountListed(subs, h);
    if subs == [] {
    } else {
      EntryListed(subs[1..], h);
    }
  }

  lemma {:induction false} EntryAppend(subs: seq<Subscriber>, s: Subscriber, h: int)
    ensures Entry(subs + [s], h)
            == if Entry(subs, h).None? && s.handle == h then Some(s) else Entry(subs, h)
  {
    if subs == [] {
    } else {
      assert (subs + [s])[1..] == subs[1..] + [s];
      EntryAppend(subs[1..], s, h);
    }
  }

  lemma EntryPrefix(first: seq<Subscriber>, rest: seq<Subscriber>, h: int)
    requires |first| <= 1
    ensures Entry(first + rest, h) == if first != [] && first[0].handle == h then Some(first[0]) else Entry(rest, h)
  {
    if first == [] {
      assert first + rest == rest;
    } else {
      assert (first + rest)[1..] == rest;
    }
  }

  lemma {:induction false} EntryWithout(subs: seq<Subscriber>, k: int, h: int)
    ensures Entry(WithoutHandle(subs, k), h) == if h == k then None else Entry(subs, h)
  {
    if subs == [] {
    } else {
      EntryWithout(subs[1..], k, h);
      EntryPrefix(if subs[0].handle == k then [] else [subs[0]], WithoutHandle(subs[1..], k), h);
    }
  }

  lemma {:induction false} EntryOthers(subs: seq<Subscriber>, n: Notification, h: int)
    requires CountHandle(subs, h) <= 1
    ensures Entry(Others(subs, n), h)
            == if Entry(subs, h).Some? && Selects(n, Entry(subs, h).value) then None else Entry(subs, h)
  {
    if subs == [] {
    } else {
      EntryOthers(subs[1..], n, h);
      EntryListed(subs[1..], h);
      EntryPrefix(if Selects(n, subs[0]) then [] else [subs[0]], Others(subs[1..], n), h);
    }
  }

  lemma {:induction false} EntryUpdate(subs: seq<Subscriber>, i: nat, s: Subscriber, h: int)
    requires i < |subs| && s.handle == subs[i].handle && CountHandle(subs, s.handle) <= 1
    ensures Entry(subs[i := s], h) == if h == s.handle then Some(s) else Entry(subs, h)
  {
    if i == 0 {
      assert subs[i := s][1..] == subs[1..];
    } else {
      assert subs[i := s][1..] == subs[1..][i - 1 := s];
      CountListed(subs[1..], s.handle);
      assert subs[1..][i - 1].handle == s.handle;
      EntryUpdate(subs[1..], i - 1, s, h);
    }
  }

  lemma {:induction false} EntryAt(subs: seq<Subscriber>, h: int)
    ensures var i := IndexOf(subs, h);
            if i < |subs| then Entry(subs, h) == Some(subs[i]) else Entry(subs, h) == None
  {
    if subs == [] || subs[0].handle == h {
    } else {
      EntryAt(subs[1..], h);
    }
  }

  // ----- Whom an event tells what -----

  predicate IsActive(entry: Option<Subscriber>) {
    entry.Some? && !entry.value.inactive
  }

  /** The event tells h that the connection is open. */
  predicate Opens(m: Machine, e: Event, h: int) {
    (e.Granted? && m.state == Pending && IsActive(Entry(m.subscribers, h)))
    || (e.Subscribe? && m.state == Acquired && e.subscriber.handle == h)
  }

  /** The event tells h that it could not be opened. */
  predicate Fails(m: Machine, e: Event, h: int) {
    e.Denied? && m.state == Pending && Entry(m.subscribers, h).Some?
  }

  /** The event tells h that it is closed: its own release, unless it waits, a forced one, or the end of its wait. */
  predicate Closes(m: Machine, e: Event, h: int) {
    var entry := Entry(m.subscribers, h);
    entry.Some?
    && ((e == Unsubscribe(h) && (m.state == Released || !entry.value.waitForClose))
        || (e.ConnReleased? && m.state == Acquired)
        || ((e.ConnReleased? || e.Denied?) && m.state == Releasing && entry.value.inactive))
  }

  function Count(trace: seq<Action>, a: Action): nat {
    multiset(trace)[a]
  }

  lemma CountPrefix(said: bool, notice: Action, rest: seq<Action>, a: Action)
    ensures Count((if said then [notice] else []) + rest, a) == Count(rest, a) + (if said && notice == a then 1 else 0)
  {
    if !said {
      assert [] + rest == rest;
    }
  }

  /** Each subscriber that is selected is notified once, and of nothing else. */
  lemma {:induction false} NoticesCount(subs: seq<Subscriber>, n: Notification, e: Event, h: int, a: Action)
    requires (e.Granted? || e.Denied? || e.ConnReleased?) && CountHandle(subs, h) <= 1
    requires a == OpenStatus(h, true) || a == OpenStatus(h, false) || a == CloseStatus(h)
    ensures Count(Notices(subs, n, e), a)
            == if a == Notice(h, e) && Entry(subs, h).Some? && Selects(n, Entry(subs, h).value) then 1 else 0
  {
    if subs == [] {
    } else {
      NoticesCount(subs[1..], n, e, h, a);
      EntryListed(subs[1..], h);
      CountPrefix(Selects(n, subs[0]), Notice(subs[0].handle, e), Notices(subs[1..], n, e), a);
    }
  }

  lemma {:induction false} MarksSilent(subs: seq<Subscriber>, h: int)
    ensures forall a :: a in Marks(subs) ==> a.Discarded?
  {
    if subs == [] {
    } else {
      MarksSilent(subs[1..], h);
    }
  }

  /** What is said about h, in the three kinds of notices. */
  ghost predicate Says(before: seq<Action>, after: seq<Action>, h: int, opens: bool, fails: bool, closes: bool) {
    && Count(after, OpenStatus(h, true)) == Count(before, OpenStatus(h, true)) + (if opens then 1 else 0)
    && Count(after, OpenStatus(h, false)) == Count(before, OpenStatus(h, false)) + (if fails then 1 else 0)
    && Count(after, CloseStatus(h)) == Count(before, CloseStatus(h)) + (if closes then 1 else 0)
  }

  lemma NotifySays(m: Machine, e: Event, delete: bool, n: Notification, h: int)
    requires (e.Granted? || e.Denied? || e.ConnReleased?) && CountHandle(m.subscribers, h) <= 1
    ensures var entry := Entry(m.subscribers, h);
            var told := entry.Some? && Selects(n, entry.value);
            Says(m.trace, NotifyAll(m, e, delete, n).trace, h,
                 told && e.Granted?, told && e.Denied?, told && e.ConnReleased?)
  {
    NoticesCount(m.subscribers, n, e, h, OpenStatus(h, true));
    NoticesCount(m.subscribers, n, e, h, OpenStatus(h, false));
    NoticesCount(m.subscribers, n, e, h, CloseStatus(h));
  }

  lemma CountSnoc(trace: seq<Action>, a: Action, b: Action)
    ensures Count(trace + [a], b) == Count(trace, b) + (if a == b then 1 else 0)
  {
  }

  lemma CountOther(trace: seq<Action>, said: seq<Action>, a: Action)
    requires a !in said
    ensures Count(trace + said, a) == Count(trace, a)
  {
    assert multiset(said)[a] == 0;
  }

  lemma SaysSnoc(trace: seq<Action>, a: Action, h: int)
    ensures Says(trace, trace + [a], h, a == OpenStatus(h, true), a == OpenStatus(h, false), a == CloseStatus(h))
  {
    CountSnoc(trace, a, OpenStatus(h, true));
    CountSnoc(trace, a, OpenStatus(h, false));
    CountSnoc(trace, a, CloseStatus(h));
  }

  /** Every event tells each handle exactly what it should be told. */
  lemma NextSays(m: Machine, e: Event, h: int)
    requires Conserved(m)
    ensures Says(m.trace, Next(m, e).trace, h, Opens(m, e, h), Fails(m, e, h), Closes(m, e, h))
  {
    assert CountHandle(m.subscribers, h) <= 1;
    match e
    case Subscribe(s) => SubscribeSays(m, s, h);
    case Unsubscribe(k) => UnsubscribeSays(m, k, h);
    case Granted =>
      if m.state == Pending {
        NotifySays(m.(state := Acquired), Granted, false, ForActive, h);
      }
    case ConnReleased => EndSays(m, e, h);
    case Denied => EndSays(m, e, h);
    case ModemRestart => RestartSays(m, h);
  }

  lemma RestartSays(m: Machine, h: int)
    ensures Says(m.trace, OnModemRestart(m).trace, h, false, false, false)
  {
    MarksSilent(m.subscribers, h);
    CountOther(m.trace, Marks(m.subscribers), OpenStatus(h, true));
    CountOther(m.trace, Marks(m.subscribers), OpenStatus(h, false));
    CountOther(m.trace, Marks(m.subscribers), CloseStatus(h));
  }

  lemma SubscribeSays(m: Machine, s: Subscriber, h: int)
    ensures Says(m.trace, OnSubscribe(m, s).trace, h, Opens(m, Subscribe(s), h), false, false)
  {
    var greeted := m.(trace := m.trace + [OpenStatus(s.handle, true)]);
    SaysSnoc(m.trace, OpenStatus(s.handle, true), h);
    SaysSnoc(m.trace, Added(s.handle), h);
    SaysSnoc(greeted.trace, Added(s.handle), h);
    SaysSnoc(AddSubscriber(m, s).trace, RequestConn, h);
  }

  lemma RetireSays(m: Machine, i: nat, h: int)
    requires i < |m.subscribers|
    ensures var s := m.subscribers[i];
            Says(m.trace, Retire(m, i).trace, h, false, false, s.handle == h && !s.waitForClose)
  {
    SaysSnoc(m.trace, CloseStatus(m.subscribers[i].handle), h);
  }

  /** Beyond what the retiring says, a release of the connection may be sent. */
  lemma RetiredTrace(m: Machine, i: nat)
    requires i < |m.subscribers| && m.state != Released
    ensures OnUnsubscribe(m, i).trace == Retire(m, i).trace
            || OnUnsubscribe(m, i).trace == Retire(m, i).trace + [ReleaseConn]
  {
  }

  lemma UnsubscribeSays(m: Machine, k: int, h: int)
    ensures Says(m.trace, Next(m, Unsubscribe(k)).trace, h, false, false, Closes(m, Unsubscribe(k), h))
  {
    EntryAt(m.subscribers, k);
    var i := IndexOf(m.subscribers, k);
    if i < |m.subscribers| {
      if m.state == Released {
        SaysSnoc(m.trace, CloseStatus(k), h);
      } else {
        RetireSays(m, i, h);
        RetiredTrace(m, i);
        SaysSnoc(Retire(m, i).trace, ReleaseConn, h);
      }
    }
  }

  lemma FinishSays(m: Machine, h: int)
    requires CountHandle(m.subscribers, h) <= 1
    ensures var entry := Entry(m.subscribers, h);
            Says(m.trace, FinishRelease(m).trace, h, false, false, entry.Some? && entry.value.inactive)
  {
    NotifySays(m, ConnReleased, true, ForInactive, h);
    SaysSnoc(NotifyAll(m, ConnReleased, true, ForInactive).trace, RequestConn, h);
  }

  lemma TakeAwaySays(m: Machine, e: Event, h: int)
    requires CountHandle(m.subscribers, h) <= 1 && (e.ConnReleased? || e.Denied?)
    ensures var listed := Entry(m.subscribers, h).Some?;
            Says(m.trace, TakeAway(m, e).trace, h, false, listed && e.Denied?, listed && e.ConnReleased?)
  {
    SaysSnoc(m.trace, TakenAway, h);
    NotifySays(m.(state := Released, trace := m.trace + [TakenAway]), e, true, ForAll, h);
  }

  lemma EndSays(m: Machine, e: Event, h: int)
    requires CountHandle(m.subscribers, h) <= 1 && (e.ConnReleased? || e.Denied?)
    ensures Says(m.trace, Next(m, e).trace, h, false, Fails(m, e, h), Closes(m, e, h))
  {
    if m.state == Releasing {
      FinishSays(m, h);
    } else if m.state == (if e.ConnReleased? then Acquired else Pending) {
      TakeAwaySays(m, e, h);
    }
  }

  // ----- Whom the machine keeps -----

  /**
   * A subscriber joins under a handle that is not listed; it leaves with its
   * last notice, or a modem restart; and it becomes inactive when it releases
   * but waits for the close.
   */
  lemma EntryFollows(m: Machine, e: Event, h: int)
    requires Conserved(m) && ReleasedEmpty(m)
    ensures var before, after := Entry(m.subscribers, h), Entry(Next(m, e).subscribers, h);
            after == if e.Subscribe? && e.subscriber.handle == h && before.None? then Some(e.subscriber)
                     else if e.ModemRestart? || Fails(m, e, h) || Closes(m, e, h) then None
                     else if e == Unsubscribe(h) && before.Some? then Some(before.value.(inactive := true))
                     else before
  {
    assert CountHandle(m.subscribers, h) <= 1;
    match e
    case Subscribe(s) =>
      EntryAppend(m.subscribers, s, h);
      EntryListed(m.subscribers, s.handle);
    case Unsubscribe(k) => RetiredEntry(m, k, h);
    case Granted =>
    case ConnReleased =>
      EntryOthers(m.subscribers, ForInactive, h);
      EntryOthers(m.subscribers, ForAll, h);
    case Denied =>
      EntryOthers(m.subscribers, ForInactive, h);
      EntryOthers(m.subscribers, ForAll, h);
    case ModemRestart =>
  }

  lemma RetiredEntry(m: Machine, k: int, h: int)
    requires Conserved(m) && ReleasedEmpty(m)
    ensures var before, after := Entry(m.subscribers, h), Entry(Next(m, Unsubscribe(k)).subscribers, h);
            after == if h != k || before.None? then before
                     else if before.value.waitForClose then Some(before.value.(inactive := true)) else None
  {
    EntryAt(m.subscribers, k);
    var i := IndexOf(m.subscribers, k);
    if i < |m.subscribers| {
      var s := m.subscribers[i];
      assert CountHandle(m.subscribers, k) <= 1;
      EntryWithout(m.subscribers, k, h);
      EntryUpdate(m.subscribers, i, s.(inactive := true), h);
    }
  }

  // ----- The state of the machine -----

  /** Some active subscriber other than h. */
  ghost predicate OtherActive(m: Machine, h: int) {
    exists k :: k != h && IsActive(Entry(m.subscribers, k))
  }

  ghost predicate OtherListed(m: Machine, h: int) {
    exists k :: k != h && Entry(m.subscribers, k).Some?
  }

  lemma AnyActiveEntry(subs: seq<Subscriber>)
    requires forall h :: CountHandle(subs, h) <= 1
    ensures AnyActive(subs) <==> exists k :: IsActive(Entry(subs, k))
  {
    if AnyActive(subs) {
      var i :| 0 <= i < |subs| && !subs[i].inactive;
      EntryOf(subs, i);
      assert IsActive(Entry(subs, subs[i].handle));
    }
    if k :| IsActive(Entry(subs, k)) {
      ActiveEntry(subs, k);
    }
  }

  lemma ActiveEntry(subs: seq<Subscriber>, k: int)
    requires IsActive(Entry(subs, k))
    ensures AnyActive(subs)
  {
    EntryListed(subs, k);
    var i :| 0 <= i < |subs| && subs[i] == Entry(subs, k).value;
    assert !subs[i].inactive;
  }

  lemma {:induction false} EntryOf(subs: seq<Subscriber>, i: nat)
    requires i < |subs| && CountHandle(subs, subs[i].handle) <= 1
    ensures Entry(subs, subs[i].handle) == Some(subs[i])
  {
    if i == 0 {
    } else {
      CountListed(subs[1..], subs[i].handle);
      assert subs[1..][i - 1].handle == subs[i].handle;
      EntryOf(subs[1..], i - 1);
    }
  }

  lemma AnyEntry(subs: seq<Subscriber>)
    ensures subs != [] <==> exists k :: Entry(subs, k).Some?
  {
    if subs != [] {
      assert Entry(subs, subs[0].handle).Some?;
    }
  }

  /** The state a release by h leads to. */
  ghost function ReleasedTo(m: Machine, h: int): AgpsState
    requires Entry(m.subscribers, h).Some?
  {
    if m.state != Releasing && OtherActive(m, h) then m.state
    else if Entry(m.subscribers, h).value.waitForClose || OtherListed(m, h) then Releasing
    else Released
  }

  /** The state a reported end of the connection leads to. */
  ghost function EndedTo(m: Machine): AgpsState {
    if m.state == Releasing && exists k :: IsActive(Entry(m.subscribers, k)) then Pending else Released
  }

  lemma StateFollows(m: Machine, e: Event)
    requires Conserved(m) && ReleasedEmpty(m)
    ensures Next(m, e).state
            == match e
               case Subscribe(_) => if m.state == Released then Pending else m.state
               case Unsubscribe(h) => if Entry(m.subscribers, h).None? then m.state else ReleasedTo(m, h)
               case Granted => if m.state == Pending then Acquired else m.state
               case ConnReleased => if m.state == Pending then Pending else EndedTo(m)
               case Denied => if m.state == Acquired then Acquired else EndedTo(m)
               case ModemRestart => m.state
  {
    match e
    case Subscribe(_) =>
    case Unsubscribe(h) => UnsubscribedState(m, h);
    case Granted =>
    case ConnReleased =>
      if m.state == Releasing {
        EndedState(m);
      }
    case Denied =>
      if m.state == Releasing {
        EndedState(m);
      }
    case ModemRestart =>
  }

  lemma EndedState(m: Machine)
    requires Conserved(m) && m.state == Releasing
    ensures FinishRelease(m).state == EndedTo(m)
  {
    var left := Others(m.subscribers, ForInactive);
    InactiveGone(m.subscribers);
    AnyActiveEntry(m.subscribers);
    AnyEntry(left);
    forall k
      ensures Entry(left, k).Some? <==> IsActive(Entry(m.subscribers, k))
    {
      assert CountHandle(m.subscribers, k) <= 1;
      EntryOthers(m.subscribers, ForInactive, k);
    }
  }

  lemma LeftEntry(m: Machine, i: nat, k: int)
    requires Conserved(m) && i < |m.subscribers| && i == IndexOf(m.subscribers, m.subscribers[i].handle)
    ensures var s, left := m.subscribers[i], Retire(m, i).subscribers;
            && CountHandle(left, k) <= 1
            && Entry(left, k) == if k != s.handle then Entry(m.subscribers, k)
                                 else if s.waitForClose then Some(s.(inactive := true)) else None
  {
    var s := m.subscribers[i];
    RetireConserves(m, i);
    assert CountHandle(m.subscribers, s.handle) <= 1 && CountHandle(Retire(m, i).subscribers, k) <= 1;
    EntryWithout(m.subscribers, s.handle, k);
    EntryUpdate(m.subscribers, i, s.(inactive := true), k);
  }

  lemma ActiveAfterRetire(m: Machine, i: nat)
    requires Conserved(m) && i < |m.subscribers| && i == IndexOf(m.subscribers, m.subscribers[i].handle)
    ensures AnyActive(Retire(m, i).subscribers) <==> OtherActive(m, m.subscribers[i].handle)
  {
    var left := Retire(m, i).subscribers;
    forall k
      ensures CountHandle(left, k) <= 1
      ensures IsActive(Entry(left, k)) <==> k != m.subscribers[i].handle && IsActive(Entry(m.subscribers, k))
    {
      LeftEntry(m, i, k);
    }
    AnyActiveEntry(left);
    if k :| k != m.subscribers[i].handle && IsActive(Entry(m.subscribers, k)) {
      ActiveEntry(left, k);
    }
  }

  lemma ListedAfterRetire(m: Machine, i: nat)
    requires Conserved(m) && i < |m.subscribers| && i == IndexOf(m.subscribers, m.subscribers[i].handle)
    ensures Retire(m, i).subscribers != [] <==>
            m.subscribers[i].waitForClose || OtherListed(m, m.subscribers[i].handle)
  {
    var s, left := m.subscribers[i], Retire(m, i).subscribers;
    forall k
      ensures Entry(left, k).Some? <==> if k == s.handle then s.waitForClose else Entry(m.subscribers, k).Some?
    {
      LeftEntry(m, i, k);
    }
    AnyEntry(left);
    assert Entry(left, s.handle).Some? <==> s.waitForClose;
    if k :| k != s.handle && Entry(m.subscribers, k).Some? {
      assert Entry(left, k).Some?;
    }
  }

  lemma UnsubscribedState(m: Machine, h: int)
    requires Conserved(m) && ReleasedEmpty(m)
    ensures Next(m, Unsubscribe(h)).state == if Entry(m.subscribers, h).None? then m.state else ReleasedTo(m, h)
  {
    EntryAt(m.subscribers, h);
    var i := IndexOf(m.subscribers, h);
    if i < |m.subscribers| {
      ActiveAfterRetire(m, i);
      ListedAfterRetire(m, i);
    }
  }

  /** A release of the connection is sent exactly when a subscriber's release takes the machine off the connection. */
  lemma ReleaseSentIff(m: Machine, e: Event)
    ensures Count(Next(m, e).trace, ReleaseConn)
            == Count(m.trace, ReleaseConn)
               + if e.Unsubscribe? && (m.state == Pending || m.state == Acquired)
                    && (Next(m, e).state == Releasing || Next(m, e).state == Released) then 1 else 0
  {
    match e
    case Subscribe(s) => SubscribeReleasesNothing(m, s);
    case Unsubscribe(h) => UnsubscribeReleasesIff(m, h);
    case Granted => NotifyReleasesNothing(m, Granted, false, ForActive);
    case ConnReleased => EndReleasesNothing(m, e);
    case Denied => EndReleasesNothing(m, e);
    case ModemRestart =>
      MarksNeutral(m.subscribers);
      CountOther(m.trace, Marks(m.subscribers), ReleaseConn);
  }

  lemma RetireReleasesNothing(m: Machine, i: nat)
    requires i < |m.subscribers|
    ensures Count(Retire(m, i).trace, ReleaseConn) == Count(m.trace, ReleaseConn)
  {
    CountSnoc(m.trace, CloseStatus(m.subscribers[i].handle), ReleaseConn);
  }

  lemma UnsubscribeReleasesIff(m: Machine, h: int)
    ensures var after := Next(m, Unsubscribe(h));
            Count(after.trace, ReleaseConn)
            == Count(m.trace, ReleaseConn)
               + if (m.state == Pending || m.state == Acquired) && (after.state == Releasing || after.state == Released)
                 then 1 else 0
  {
    var i := IndexOf(m.subscribers, h);
    if i < |m.subscribers| {
      CountSnoc(m.trace, CloseStatus(m.subscribers[i].handle), ReleaseConn);
      if m.state != Released {
        RetireReleasesNothing(m, i);
        CountSnoc(Retire(m, i).trace, ReleaseConn, ReleaseConn);
        RetiredTrace(m, i);
      }
    }
  }

  lemma SubscribeReleasesNothing(m: Machine, s: Subscriber)
    ensures Count(OnSubscribe(m, s).trace, ReleaseConn) == Count(m.trace, ReleaseConn)
  {
    CountSnoc(m.trace, OpenStatus(s.handle, true), ReleaseConn);
    CountSnoc(m.trace, Added(s.handle), ReleaseConn);
    CountSnoc(m.trace + [OpenStatus(s.handle, true)], Added(s.handle), ReleaseConn);
    CountSnoc(AddSubscriber(m, s).trace, RequestConn, ReleaseConn);
  }

  lemma NotifyReleasesNothing(m: Machine, e: Event, delete: bool, n: Notification)
    requires e.Granted? || e.Denied? || e.ConnReleased?
    ensures Count(NotifyAll(m, e, delete, n).trace, ReleaseConn) == Count(m.trace, ReleaseConn)
  {
    NoticesNeutral(m.subscribers, n, e);
    CountOther(m.trace, Notices(m.subscribers, n, e), ReleaseConn);
  }

  lemma FinishReleasesNothing(m: Machine)
    ensures Count(FinishRelease(m).trace, ReleaseConn) == Count(m.trace, ReleaseConn)
  {
    NotifyReleasesNothing(m, ConnReleased, true, ForInactive);
    CountSnoc(NotifyAll(m, ConnReleased, true, ForInactive).trace, RequestConn, ReleaseConn);
  }

  lemma TakeAwayReleasesNothing(m: Machine, e: Event)
    requires e.ConnReleased? || e.Denied?
    ensures Count(TakeAway(m, e).trace, ReleaseConn) == Count(m.trace, ReleaseConn)
  {
    CountSnoc(m.trace, TakenAway, ReleaseConn);
    NotifyReleasesNothing(m.(state := Released, trace := m.trace + [TakenAway]), e, true, ForAll);
  }

  lemma EndReleasesNothing(m: Machine, e: Event)
    requires e.ConnReleased? || e.Denied?
    ensures Count(Next(m, e).trace, ReleaseConn) == Count(m.trace, ReleaseConn)
  {
    if m.state == Releasing {
      FinishReleasesNothing(m);
    } else if m.state == (if e.ConnReleased? then Acquired else Pending) {
      TakeAwayReleasesNothing(m, e);
    }
  }

  // ----- Everyone who uses the connection has been told -----

  /** h has been told that the connection is open since it was last requested. */
  function Opened(trace: seq<Action>, h: int): bool {
    if trace == [] then false
    else
      match trace[|trace| - 1]
      case RequestConn => false
      case OpenStatus(k, success) => (k == h && success) || Opened(trace[..|trace| - 1], h)
      case _ => Opened(trace[..|trace| - 1], h)
  }

  lemma OpenedSnoc(trace: seq<Action>, a: Action, h: int)
    ensures Opened(trace + [a], h) == (!a.RequestConn? && (a == OpenStatus(h, true) || Opened(trace, h)))
  {
    assert (trace + [a])[..|trace|] == trace;
  }

  lemma {:induction false} OpenedAppend(trace: seq<Action>, said: seq<Action>, h: int)
    requires RequestConn !in said
    ensures Opened(trace + said, h) <==> Opened(trace, h) || OpenStatus(h, true) in said
    decreases |said|
  {
    if said == [] {
      assert trace + said == trace;
    } else {
      var init, last := said[..|said| - 1], said[|said| - 1];
      OpenedAppend(trace, init, h);
      assert said == init + [last] && trace + said == (trace + init) + [last];
      assert last in said;
      OpenedSnoc(trace + init, last, h);
    }
  }

  /** Nobody is told before the connection is granted; then everyone active has been. */
  ghost predicate ToldOpen(m: Machine) {
    && (m.state == Pending ==> forall h :: !Opened(m.trace, h))
    && (m.state == Acquired ==> forall h :: IsActive(Entry(m.subscribers, h)) ==> Opened(m.trace, h))
  }

  lemma SubscribeToldOpen(m: Machine, s: Subscriber, h: int)
    requires ToldOpen(m)
    ensures Next(m, Subscribe(s)).state == Pending ==> !Opened(Next(m, Subscribe(s)).trace, h)
    ensures Next(m, Subscribe(s)).state == Acquired && IsActive(Entry(Next(m, Subscribe(s)).subscribers, h)) ==>
              Opened(Next(m, Subscribe(s)).trace, h)
  {
    var greeted := m.trace + [OpenStatus(s.handle, true)];
    EntryAppend(m.subscribers, s, h);
    OpenedSnoc(m.trace, Added(s.handle), h);
    OpenedSnoc(m.trace, OpenStatus(s.handle, true), h);
    OpenedSnoc(greeted, Added(s.handle), h);
    OpenedSnoc(AddSubscriber(m, s).trace, RequestConn, h);
  }

  lemma UnsubscribeToldOpen(m: Machine, k: int, h: int)
    requires ToldOpen(m) && Conserved(m) && ReleasedEmpty(m)
    ensures var after := Next(m, Unsubscribe(k));
            && (after.state == Pending ==> !Opened(after.trace, h))
            && (after.state == Acquired && IsActive(Entry(after.subscribers, h)) ==> Opened(after.trace, h))
  {
    RetiredEntry(m, k, h);
    OpenedSnoc(m.trace, CloseStatus(k), h);
  }

  lemma GrantToldOpen(m: Machine, h: int)
    requires ToldOpen(m) && Conserved(m)
    ensures var after := Next(m, Granted);
            after.state == Acquired && IsActive(Entry(after.subscribers, h)) ==> Opened(after.trace, h)
  {
    var said := Notices(m.subscribers, ForActive, Granted);
    assert CountHandle(m.subscribers, h) <= 1;
    NoticesNeutral(m.subscribers, ForActive, Granted);
    NoticesCount(m.subscribers, ForActive, Granted, h, OpenStatus(h, true));
    assert Count(said, OpenStatus(h, true)) > 0 ==> OpenStatus(h, true) in said;
    OpenedAppend(m.trace, said, h);
  }

  lemma EndToldOpen(m: Machine, e: Event, h: int)
    requires ToldOpen(m) && (e.ConnReleased? || e.Denied?)
    ensures var after := Next(m, e);
            && (after.state == Pending ==> !Opened(after.trace, h))
            && (after.state == Acquired && IsActive(Entry(after.subscribers, h)) ==> Opened(after.trace, h))
  {
    var left := NotifyAll(m, ConnReleased, true, ForInactive);
    OpenedSnoc(left.trace, RequestConn, h);
  }

  lemma RestartToldOpen(m: Machine, h: int)
    requires ToldOpen(m)
    ensures Next(m, ModemRestart).state == Pending ==> !Opened(Next(m, ModemRestart).trace, h)
  {
    MarksSilent(m.subscribers, h);
    OpenedAppend(m.trace, Marks(m.subscribers), h);
  }

  lemma NextToldOpen(m: Machine, e: Event)
    requires ToldOpen(m) && Conserved(m) && ReleasedEmpty(m)
    ensures ToldOpen(Next(m, e))
  {
    forall h
      ensures Next(m, e).state == Pending ==> !Opened(Next(m, e).trace, h)
      ensures Next(m, e).state == Acquired && IsActive(Entry(Next(m, e).subscribers, h)) ==> Opened(Next(m, e).trace, h)
    {
      match e
      case Subscribe(s) => SubscribeToldOpen(m, s, h);
      case Unsubscribe(k) => UnsubscribeToldOpen(m, k, h);
      case Granted => GrantToldOpen(m, h);
      case ConnReleased => EndToldOpen(m, e, h);
      case Denied => EndToldOpen(m, e, h);
      case ModemRestart => RestartToldOpen(m, h);
    }
  }

  /**
   * Over every run, restarts included: in Acquired every active subscriber has
   * been told that the connection is open since it was requested, and in
   * Pending nobody has.
   */
  lemma {:induction false} RunToldOpen(es: seq<Event>)
    ensures ToldOpen(Run(es))
  {
    if es == [] {
    } else {
      RunToldOpen(es[..|es| - 1]);
      RunInvariant(es[..|es| - 1]);
      NextToldOpen(Run(es[..|es| - 1]), es[|es| - 1]);
    }
  }

  /** Over every run: what the next event tells a handle, and what becomes of its entry. */
  lemma RunSays(es: seq<Event>, e: Event, h: int)
    ensures var m := Run(es);
            Says(m.trace, Run(es + [e]).trace, h, Opens(m, e, h), Fails(m, e, h), Closes(m, e, h))
    ensures Run(es + [e]) == Next(Run(es), e)
  {
    assert (es + [e])[..|es|] == es;
    RunInvariant(es);
    NextSays(Run(es), e, h);
  }
}
