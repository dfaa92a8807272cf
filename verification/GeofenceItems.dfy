/**
 * What becomes of one geofence: its entries in the two indexes and the requests
 * about it follow from the events, and once removed it stays away.
 */
module GeofenceItems {
  import opened Wrappers
  import opened Geofences

  function IdOf(st: State, key: Key): Option<int> {
    if key in st.geofenceIds then Some(st.geofenceIds[key]) else None
  }

  function ItemOf(st: State, hwId: int): Option<GeofenceObject> {
    if hwId in st.geofences then Some(st.geofences[hwId]) else None
  }

  // ----- The requests -----

  /** The event answers the request. */
  predicate Answers(e: Event, r: Request) {
    match e
    case AddAnswer(request, _) => r == request
    case RemoveAnswer(hwId, _) => r == RemoveRequest(hwId)
    case DropAnswer(request, _) => r == request
    case PauseAnswer(hwId) => r == PauseRequest(hwId)
    case _ => false
  }

  /**
   * The event puts the request on its way: the removal of a known key's id, the
   * removal of each geofence of a stopped client, the addition of every listed
   * geofence after a modem restart, and then the pause of a paused one.
   */
  predicate Asks(st: State, e: Event, r: Request) {
    match e
    case Add(key, fence) => r == AddRequest(key, fence, None, false)
    case Remove(key) => r.RemoveRequest? && IdOf(st, key) == Some(r.hwId)
    case StopClient(client) => r.DropRequest? && r.key.client == client && IdOf(st, r.key) == Some(r.hwId)
    case Restart =>
      r.AddRequest? && r.was.Some? && ItemOf(st, r.was.value) == Some(GeofenceObject(r.key, r.fence, r.paused))
    case AddAnswer(request, added) =>
      r.PauseRequest? && request.AddRequest? && request.paused && added == Some(r.hwId)
    case _ => false
  }

  lemma RequestsFollow(st: State, e: Event, r: Request)
    requires Enabled(st, e)
    ensures Next(st, e).inFlight[r]
            == st.inFlight[r] - (if Answers(e, r) then 1 else 0) + (if Asks(st, e, r) then 1 else 0)
  {
    match e
    case Add(_, _) =>
    case Remove(_) =>
    case StopClient(client) => StopAsks(st, client, r);
    case Restart => RestartAsks(st, r);
    case Paused(_) =>
    case Resumed(_) =>
    case Modified(_, _) =>
    case _ => AnswerRequests(st, e, r);
  }

  lemma AnswerRequests(st: State, e: Event, r: Request)
    requires Enabled(st, e) && (e.AddAnswer? || e.RemoveAnswer? || e.DropAnswer? || e.PauseAnswer?)
    ensures Next(st, e).inFlight[r]
            == st.inFlight[r] - (if Answers(e, r) then 1 else 0) + (if Asks(st, e, r) then 1 else 0)
  {
    match e
    case AddAnswer(request, added) => AddAnswerRequests(st, request, added, r);
    case RemoveAnswer(hwId, success) => RemoveAnswerRequests(st, hwId, success, r);
    case DropAnswer(_, _) =>
    case PauseAnswer(_) =>
  }

  lemma AddAnswerRequests(st: State, request: Request, added: Option<int>, r: Request)
    requires request.AddRequest? && request in st.inFlight
    ensures var e := AddAnswer(request, added);
            Next(st, e).inFlight[r]
            == st.inFlight[r] - (if r == request then 1 else 0) + (if Asks(st, e, r) then 1 else 0)
  {
  }

  lemma RemoveAnswerRequests(st: State, hwId: int, success: bool, r: Request)
    requires RemoveRequest(hwId) in st.inFlight
    ensures Next(st, RemoveAnswer(hwId, success)).inFlight[r]
            == st.inFlight[r] - if r == RemoveRequest(hwId) then 1 else 0
  {
  }

  lemma StopAsks(st: State, client: int, r: Request)
    ensures OnStopClient(st, client).inFlight[r] == st.inFlight[r] + if Asks(st, StopClient(client), r) then 1 else 0
  {
    var drops := DropsFor(st.geofenceIds, KeysOf(st.geofenceIds, client));
    assert r in drops <==> Asks(st, StopClient(client), r);
  }

  lemma RestartAsks(st: State, r: Request)
    ensures OnRestart(st).inFlight[r] == st.inFlight[r] + if Asks(st, Restart, r) then 1 else 0
  {
    var again := Readded(st.geofences, st.geofences.Keys);
    if Asks(st, Restart, r) {
      assert r == ReaddRequest(st.geofences, r.was.value);
    }
    assert r in again <==> Asks(st, Restart, r);
  }

  // ----- The indexes -----

  /** The id of a key, from the answer to its addition until its removal, its client's stop or a modem restart. */
  function KeyFollowed(es: seq<Event>, key: Key): Option<int> {
    if es == [] then None else KeyFollowedBy(KeyFollowed(es[..|es| - 1], key), es[|es| - 1], key)
  }

  function KeyFollowedBy(before: Option<int>, e: Event, key: Key): Option<int> {
    match e
    case StopClient(client) => if key.client == client then None else before
    case Restart => None
    case AddAnswer(request, added) => if added.Some? && request.AddRequest? && request.key == key then added else before
    case RemoveAnswer(hwId, success) => if success && before == Some(hwId) then None else before
    case _ => before
  }

  lemma NextId(st: State, e: Event, key: Key)
    requires Consistent(st) && Enabled(st, e)
    ensures IdOf(Next(st, e), key) == KeyFollowedBy(IdOf(st, key), e, key)
  {
    match e
    case Restart => assert st.geofences == map[] ==> IdOf(st, key) == None;
    case RemoveAnswer(hwId, success) => RemovedId(st, hwId, success, key);
    case _ =>
  }

  lemma RemovedId(st: State, hwId: int, success: bool, key: Key)
    requires Consistent(st)
    ensures IdOf(Next(st, RemoveAnswer(hwId, success)), key)
            == if success && IdOf(st, key) == Some(hwId) then None else IdOf(st, key)
  {
    assert IdOf(st, key) == Some(hwId) ==> st.geofences[hwId].key == key;
  }

  /** What an event makes of the geofence under an id; keyed says whether its key points to it. */
  function ItemFollowedBy(before: Option<GeofenceObject>, keyed: bool, e: Event, hwId: int): Option<GeofenceObject> {
    match e
    case Restart => None
    case AddAnswer(request, added) =>
      if added == Some(hwId) && request.AddRequest? then Some(GeofenceObject(request.key, request.fence, false))
      else before
    case RemoveAnswer(h, success) => if h == hwId && success && keyed then None else before
    case DropAnswer(request, success) =>
      if request.DropRequest? && request.hwId == hwId && success then None else before
    case Paused(h) => if h == hwId && before.Some? then Some(before.value.(paused := true)) else before
    case Resumed(h) => if h == hwId && before.Some? then Some(before.value.(paused := false)) else before
    case Modified(h, options) =>
      if h == hwId && before.Some? then Some(before.value.(fence := Fence(options, before.value.fence.info)))
      else before
    case _ => before
  }

  lemma NextItem(st: State, e: Event, hwId: int)
    requires Consistent(st) && Enabled(st, e)
    ensures var before := ItemOf(st, hwId);
            ItemOf(Next(st, e), hwId)
            == ItemFollowedBy(before, before.Some? && IdOf(st, before.value.key) == Some(hwId), e, hwId)
  {
    match e
    case AddAnswer(request, added) => AddedItem(st, request, added, hwId);
    case RemoveAnswer(h, success) => RemovedItem(st, h, success, hwId);
    case DropAnswer(_, _) =>
    case _ =>
  }

  lemma AddedItem(st: State, request: Request, added: Option<int>, hwId: int)
    requires request.AddRequest?
    ensures ItemOf(Next(st, AddAnswer(request, added)), hwId)
            == if added == Some(hwId) then Some(GeofenceObject(request.key, request.fence, false)) else ItemOf(st, hwId)
  {
  }

  lemma RemovedItem(st: State, h: int, success: bool, hwId: int)
    requires Consistent(st)
    ensures var before := ItemOf(st, hwId);
            ItemOf(Next(st, RemoveAnswer(h, success)), hwId)
            == if h == hwId && success && before.Some? && IdOf(st, before.value.key) == Some(hwId) then None else before
  {
    if h in st.geofences && st.geofences[h].key in st.geofenceIds {
      assert st.geofences[st.geofenceIds[st.geofences[h].key]].key == st.geofences[h].key;
    }
  }

  /** The geofence under an id, from the events alone. */
  function ItemFollowed(es: seq<Event>, hwId: int): Option<GeofenceObject> {
    if es == [] then None
    else
      var init := es[..|es| - 1];
      var before := ItemFollowed(init, hwId);
      ItemFollowedBy(before, before.Some? && KeyFollowed(init, before.value.key) == Some(hwId), es[|es| - 1], hwId)
  }

  /** Both indexes are what the events make them, unless the hardware reuses an id. */
  lemma {:induction false} IdsFollow(sts: seq<State>, es: seq<Event>, i: nat, key: Key)
    requires IsRun(sts, es) && i < |sts| && forall n :: 0 <= n < i ==> !Reuses(sts[n], es[n])
    ensures IdOf(sts[i], key) == KeyFollowed(es[..i], key)
  {
    if i == 0 {
    } else {
      IdsFollow(sts, es, i - 1, key);
      RunConsistent(sts, es, i - 1);
      assert StepOf(sts, es, i - 1);
      assert es[..i][..i - 1] == es[..i - 1];
      NextId(sts[i - 1], es[i - 1], key);
    }
  }

  lemma {:induction false} ItemsFollow(sts: seq<State>, es: seq<Event>, i: nat, hwId: int)
    requires IsRun(sts, es) && i < |sts| && forall n :: 0 <= n < i ==> !Reuses(sts[n], es[n])
    ensures ItemOf(sts[i], hwId) == ItemFollowed(es[..i], hwId)
  {
    if i == 0 {
    } else {
      ItemsFollow(sts, es, i - 1, hwId);
      var before := ItemOf(sts[i - 1], hwId);
      if before.Some? {
        IdsFollow(sts, es, i - 1, before.value.key);
      }
      RunConsistent(sts, es, i - 1);
      assert StepOf(sts, es, i - 1);
      assert es[..i][..i - 1] == es[..i - 1];
      NextItem(sts[i - 1], es[i - 1], hwId);
    }
  }

  // ----- A removed geofence stays away -----

  /** The key has no id, no geofence carries it, and no addition of it is on its way. */
  predicate KeyGone(st: State, key: Key) {
    && key !in st.geofenceIds
    && (forall h :: h in st.geofences ==> st.geofences[h].key != key)
    && (forall r :: r in st.inFlight && r.AddRequest? ==> r.key != key)
  }

  /** A successful removal: neither the id nor a key pointing to it is left, and all else is as before. */
  lemma RemovalErases(st: State, hwId: int)
    requires Consistent(st) && hwId in st.geofences && st.geofences[hwId].key in st.geofenceIds
    ensures var key, after := st.geofences[hwId].key, Next(st, RemoveAnswer(hwId, true));
            && hwId !in after.geofences && key !in after.geofenceIds
            && (forall k :: k in after.geofenceIds ==> after.geofenceIds[k] != hwId)
            && (forall h :: h != hwId ==> ItemOf(after, h) == ItemOf(st, h))
            && (forall k :: k != key ==> IdOf(after, k) == IdOf(st, k))
  {
    assert st.geofences[st.geofenceIds[st.geofences[hwId].key]].key == st.geofences[hwId].key;
  }

  /** A successful removal of an id makes a key go exactly if the id is then listed under that key, or it was gone. */
  lemma RemovalGoneIff(st: State, hwId: int, key: Key)
    requires Consistent(st) && RemoveRequest(hwId) in st.inFlight
    ensures KeyGone(Next(st, RemoveAnswer(hwId, true)), key)
            <==> KeyGone(st, key) || IdOf(st, key) == Some(hwId)
  {
    var after := Next(st, RemoveAnswer(hwId, true));
    assert forall r: Request :: r.AddRequest? ==> after.inFlight[r] == st.inFlight[r];
    if IdOf(st, key) == Some(hwId) {
      assert st.geofences[hwId].key == key;
    } else if h :| h in st.geofences && st.geofences[h].key == key {
      if key in st.geofenceIds {
        assert st.geofenceIds[key] == h;
      }
      assert h in after.geofences && after.geofences[h].key == key;
    } else if r :| r in st.inFlight && r.AddRequest? && r.key == key {
      assert r in after.inFlight;
    }
  }

  lemma StaysAway(st: State, after: State, key: Key)
    requires KeyGone(st, key)
    requires forall k :: k in after.geofenceIds ==> k in st.geofenceIds || k != key
    requires forall h :: h in after.geofences ==> after.geofences[h].key != key
    requires forall r :: r in after.inFlight && r.AddRequest? ==> r in st.inFlight || r.key != key
    ensures KeyGone(after, key)
  {
  }

  lemma AnswerKeyGone(st: State, e: Event, key: Key)
    requires KeyGone(st, key) && Enabled(st, e)
    requires e.AddAnswer? || e.RemoveAnswer? || e.DropAnswer? || e.PauseAnswer?
    ensures KeyGone(Next(st, e), key)
  {
    var after := Next(st, e);
    assert e.AddAnswer? ==> e.request.key != key;
    forall r | r in after.inFlight && r.AddRequest?
      ensures r in st.inFlight
    {
      AnswerRequests(st, e, r);
    }
    StaysAway(st, after, key);
  }

  lemma RestartKeyGone(st: State, key: Key)
    requires KeyGone(st, key)
    ensures KeyGone(OnRestart(st), key)
  {
    assert forall r :: r in Readded(st.geofences, st.geofences.Keys) ==> r.key != key;
    StaysAway(st, OnRestart(st), key);
  }

  /** Gone it stays, modem restarts included, until the key is added again. */
  lemma NextKeyGone(st: State, e: Event, key: Key)
    requires KeyGone(st, key) && Enabled(st, e) && (e.Add? ==> e.key != key)
    ensures KeyGone(Next(st, e), key)
  {
    match e
    case Add(_, _) => StaysAway(st, Next(st, e), key);
    case Remove(_) => StaysAway(st, Next(st, e), key);
    case StopClient(client) => StaysAway(st, OnStopClient(st, client), key);
    case Restart => RestartKeyGone(st, key);
    case Paused(_) => StaysAway(st, Next(st, e), key);
    case Resumed(_) => StaysAway(st, Next(st, e), key);
    case Modified(_, _) => StaysAway(st, Next(st, e), key);
    case _ => AnswerKeyGone(st, e, key);
  }

  /** The key points to the id, or is gone. */
  predicate PointsOrGone(st: State, key: Key, hwId: int) {
    IdOf(st, key) == Some(hwId) || KeyGone(st, key)
  }

  /** Neither a modem restart nor the stop of its client comes between the request and its answer. */
  lemma NextPointsOrGone(st: State, e: Event, key: Key, hwId: int)
    requires Consistent(st) && Enabled(st, e) && PointsOrGone(st, key, hwId) && key in st.issued
    requires !e.Restart? && e != StopClient(key.client)
    ensures PointsOrGone(Next(st, e), key, hwId) && key in Next(st, e).issued
  {
    if KeyGone(st, key) {
      NextKeyGone(st, e, key);
    } else {
      NextId(st, e, key);
      assert st.geofences[hwId].key == key;
      if e.RemoveAnswer? && e.success && e.hwId == hwId {
        RemovalGoneIff(st, hwId, key);
      }
    }
  }

  lemma {:induction false} RunPointsOrGone(sts: seq<State>, es: seq<Event>, i: nat, j: nat, key: Key)
    requires IsRun(sts, es) && i <= j < |sts| && forall n :: 0 <= n < j ==> !Reuses(sts[n], es[n])
    requires key in sts[i].geofenceIds
    requires forall n :: i <= n < j ==> !es[n].Restart? && es[n] != StopClient(key.client)
    ensures PointsOrGone(sts[j], key, sts[i].geofenceIds[key]) && key in sts[j].issued
    decreases j - i
  {
    RunConsistent(sts, es, j);
    if i == j {
      assert sts[i].geofences[sts[i].geofenceIds[key]].key == key;
    } else {
      RunPointsOrGone(sts, es, i, j - 1, key);
      RunConsistent(sts, es, j - 1);
      assert StepOf(sts, es, j - 1);
      NextPointsOrGone(sts[j - 1], es[j - 1], key, sts[i].geofenceIds[key]);
    }
  }

  lemma {:induction false} RunKeyGone(sts: seq<State>, es: seq<Event>, i: nat, j: nat, key: Key)
    requires IsRun(sts, es) && i <= j < |sts| && KeyGone(sts[i], key) && key in sts[i].issued
    ensures KeyGone(sts[j], key) && key in sts[j].issued
    decreases j - i
  {
    if i == j {
    } else {
      RunKeyGone(sts, es, i, j - 1, key);
      assert StepOf(sts, es, j - 1);
      NextKeyGone(sts[j - 1], es[j - 1], key);
    }
  }

  /**
   * The removal of a known key, granted before a modem restart or the stop of
   * its client, takes the geofence away for good: at every later state of the
   * run, whatever happens, modem restarts included.
   */
  lemma RemovedForGood(sts: seq<State>, es: seq<Event>, i: nat, j: nat, l: nat, key: Key)
    requires IsRun(sts, es) && i < j < l < |sts| && forall n :: 0 <= n < l ==> !Reuses(sts[n], es[n])
    requires es[i] == Remove(key) && key in sts[i].geofenceIds
    requires es[j] == RemoveAnswer(sts[i].geofenceIds[key], true)
    requires forall n :: i <= n < j ==> !es[n].Restart? && es[n] != StopClient(key.client)
    ensures KeyGone(sts[l], key)
  {
    var hwId := sts[i].geofenceIds[key];
    RunPointsOrGone(sts, es, i, j, key);
    RunConsistent(sts, es, j);
    assert StepOf(sts, es, j);
    RemovalGoneIff(sts[j], hwId, key);
    RunKeyGone(sts, es, j + 1, l, key);
  }

  /** And in general it is gone after the answer exactly if the id is then the key's again, or it was gone by then. */
  lemma RemovedIff(sts: seq<State>, es: seq<Event>, j: nat, key: Key, hwId: int)
    requires IsRun(sts, es) && j < |es| && forall n :: 0 <= n < j ==> !Reuses(sts[n], es[n])
    requires es[j] == RemoveAnswer(hwId, true)
    ensures KeyGone(sts[j + 1], key) <==> KeyGone(sts[j], key) || KeyFollowed(es[..j], key) == Some(hwId)
  {
    RunConsistent(sts, es, j);
    IdsFollow(sts, es, j, key);
    assert StepOf(sts, es, j);
    RemovalGoneIff(sts[j], hwId, key);
  }

  // ----- A removal overtaken by a modem restart -----

  const REMOVING := ADDED.(inFlight := multiset{RemoveRequest(7)})
  const OVERTAKEN := State(map[], map[], multiset{RemoveRequest(7), AGAIN}, {}, {KEY_1})
  const MOVED :=
    State(map[8 := GeofenceObject(KEY_1, FENCE, false)], map[KEY_1 := 8], multiset{RemoveRequest(7)}, {}, {KEY_1})
  const KEPT := MOVED.(inFlight := multiset{})

  lemma OvertakenReached()
    ensures Reached(OVERTAKEN)
  {
    AddedReached();
    assert KEY_1 in ADDED.geofenceIds;
    ReachedNext(ADDED, Remove(KEY_1), REMOVING);
    assert 7 in LISTED && Readded(LISTED, LISTED.Keys) == {AGAIN};
    ReachedNext(REMOVING, Restart, OVERTAKEN);
  }

  /** The restart comes first and the geofence is added anew under another id: the removal succeeds, and it stays. */
  lemma RemovalOvertaken()
    ensures Reached(KEPT) && KEPT == Next(MOVED, RemoveAnswer(7, true)) && !KeyGone(KEPT, KEY_1)
  {
    OvertakenReached();
    ReachedNext(OVERTAKEN, AddAnswer(AGAIN, Some(8)), MOVED);
    ReachedNext(MOVED, RemoveAnswer(7, true), KEPT);
    assert KEY_1 in KEPT.geofenceIds;
  }
}
