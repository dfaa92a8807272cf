/**
 * The two indexes of the geofence adapter: geofences by their hardware id, and
 * hardware ids by the key of client and id.  Additions and removals are
 * requests the modem answers later, in any order.
 */
module Geofences {
  import opened Wrappers

  datatype Key = Key(client: int, id: int)

  /** What a geofence is about: breach mask, responsiveness, dwell time, place. */
  datatype Fence = Fence(options: int, info: int)

  datatype GeofenceObject = GeofenceObject(key: Key, fence: Fence, paused: bool)

  datatype Request =
    // an addition by a client, or of a geofence known under an id, and perhaps paused, before the modem restarted
    | AddRequest(key: Key, fence: Fence, was: Option<int>, paused: bool)
    // the pause of such a geofence
    | PauseRequest(hwId: int)
    | RemoveRequest(hwId: int)
    // the removal of a stopped client's geofence
    | DropRequest(hwId: int, key: Key)

  /**
   * failed holds the hardware ids whose removal the modem refused, issued
   * every key for which an addition was ever requested by a client.
   */
  datatype State = State(
    geofences: map<int, GeofenceObject>,
    geofenceIds: map<Key, int>,
    inFlight: multiset<Request>,
    failed: set<int>,
    issued: set<Key>)

  datatype Event =
    | Add(key: Key, fence: Fence)
    | Remove(key: Key)
    | StopClient(client: int)
    | Restart
    // answers to the other requests
    | Paused(hwId: int)
    | Resumed(hwId: int)
    | Modified(hwId: int, options: int)
    | AddAnswer(request: Request, added: Option<int>)
    | RemoveAnswer(hwId: int, success: bool)
    | DropAnswer(request: Request, success: bool)
    | PauseAnswer(hwId: int)

  // ----- The steps, on values -----

  function SaveItem(st: State, key: Key, hwId: int, fence: Fence): State {
    st.(geofences := st.geofences[hwId := GeofenceObject(key, fence, false)],
        geofenceIds := st.geofenceIds[key := hwId])
  }

  /** A geofence that was paused before a modem restart is paused again, but not marked so. */
  function SaveAdded(st: State, request: Request, hwId: int): State
    requires request.AddRequest?
  {
    var paused := if request.paused then multiset{PauseRequest(hwId)} else multiset{};
    SaveItem(st.(inFlight := st.inFlight + paused), request.key, hwId, request.fence)
  }

  function RemoveItem(st: State, hwId: int): State {
    if hwId in st.geofences && st.geofences[hwId].key in st.geofenceIds then
      st.(geofences := st.geofences - {hwId}, geofenceIds := st.geofenceIds - {st.geofences[hwId].key})
    else st
  }

  function SetPaused(st: State, hwId: int, paused: bool): State {
    if hwId in st.geofences then
      st.(geofences := st.geofences[hwId := st.geofences[hwId].(paused := paused)])
    else st
  }

  function ModifyItem(st: State, hwId: int, options: int): State {
    if hwId in st.geofences then
      var fence := st.geofences[hwId].fence.(options := options);
      st.(geofences := st.geofences[hwId := st.geofences[hwId].(fence := fence)])
    else st
  }

  function KeysOf(ids: map<Key, int>, client: int): set<Key> {
    set k | k in ids && k.client == client
  }

  /**
   * stopClientSessions: the keys go at once, the objects when their removal is
   * answered.  The pending keys are those the loop has not come to.
   */
  function StoppedBut(st: State, client: int, pending: set<Key>): State {
    var gone := KeysOf(st.geofenceIds, client) - pending;
    st.(geofenceIds := st.geofenceIds - gone, inFlight := st.inFlight + multiset(DropsFor(st.geofenceIds, gone)))
  }

  function OnStopClient(st: State, client: int): State {
    StoppedBut(st, client, {})
  }

  /** One round of the loop. */
  function StopStep(st: State, client: int, key: Key): State
    requires key in st.geofenceIds
  {
    if key.client != client then st
    else st.(geofenceIds := st.geofenceIds - {key},
             inFlight := st.inFlight + multiset{DropRequest(st.geofenceIds[key], key)})
  }

  lemma StopOne(st: State, client: int, pending: set<Key>, key: Key)
    requires key in pending && key in st.geofenceIds
    ensures key in StoppedBut(st, client, pending).geofenceIds
    ensures StopStep(StoppedBut(st, client, pending), client, key) == StoppedBut(st, client, pending - {key})
  {
    var gone := KeysOf(st.geofenceIds, client) - pending;
    var gone' := KeysOf(st.geofenceIds, client) - (pending - {key});
    if key.client == client {
      assert gone' == gone + {key};
      assert DropsFor(st.geofenceIds, gone')
          == DropsFor(st.geofenceIds, gone) + {DropRequest(st.geofenceIds[key], key)};
      assert st.geofenceIds - gone' == st.geofenceIds - gone - {key};
    } else {
      assert gone' == gone;
    }
  }

  function DropsFor(ids: map<Key, int>, keys: set<Key>): set<Request>
    requires keys <= ids.Keys
  {
    set k | k in keys :: DropRequest(ids[k], k)
  }

  /** restartGeofences: both indexes are emptied and every geofence is added anew. */
  function OnRestart(st: State): State {
    if st.geofences == map[] then st
    else
      st.(geofences := map[], geofenceIds := map[],
          inFlight := st.inFlight + multiset(Readded(st.geofences, st.geofences.Keys)))
  }

  function Readded(geofences: map<int, GeofenceObject>, hwIds: set<int>): set<Request>
    requires hwIds <= geofences.Keys
  {
    set h | h in hwIds :: ReaddRequest(geofences, h)
  }

  function ReaddRequest(geofences: map<int, GeofenceObject>, hwId: int): Request
    requires hwId in geofences
  {
    AddRequest(geofences[hwId].key, geofences[hwId].fence, Some(hwId), geofences[hwId].paused)
  }

  /** The requests on their way when the loop has come to all geofences but the rest. */
  function ReaddedBut(sent: multiset<Request>, geofences: map<int, GeofenceObject>, rest: set<int>): multiset<Request> {
    sent + multiset(Readded(geofences, geofences.Keys - rest))
  }

  lemma ReaddOne(sent: multiset<Request>, geofences: map<int, GeofenceObject>, rest: set<int>, hwId: int)
    requires hwId in rest && hwId in geofences
    ensures ReaddedBut(sent, geofences, rest - {hwId})
            == ReaddedBut(sent, geofences, rest) + multiset{ReaddRequest(geofences, hwId)}
  {
    var done, request := geofences.Keys - rest, ReaddRequest(geofences, hwId);
    assert geofences.Keys - (rest - {hwId}) == done + {hwId};
    assert Readded(geofences, done + {hwId}) == Readded(geofences, done) + {request};
    assert request !in Readded(geofences, done);
  }

  function Next(st: State, e: Event): State {
    match e
    case Add(key, fence) =>
      st.(inFlight := st.inFlight + multiset{AddRequest(key, fence, None, false)}, issued := st.issued + {key})
    case Remove(key) =>
      if key in st.geofenceIds then st.(inFlight := st.inFlight + multiset{RemoveRequest(st.geofenceIds[key])}) else st
    case StopClient(client) => OnStopClient(st, client)
    case Restart => OnRestart(st)
    case Paused(hwId) => SetPaused(st, hwId, true)
    case Resumed(hwId) => SetPaused(st, hwId, false)
    case Modified(hwId, options) => ModifyItem(st, hwId, options)
    case AddAnswer(request, added) =>
      var left := st.(inFlight := st.inFlight - multiset{request});
      if added.Some? && request.AddRequest? then SaveAdded(left, request, added.value) else left
    case RemoveAnswer(hwId, success) =>
      var left := st.(inFlight := st.inFlight - multiset{RemoveRequest(hwId)});
      if success then RemoveItem(left, hwId) else left.(failed := left.failed + {hwId})
    case DropAnswer(request, success) =>
      var left := st.(inFlight := st.inFlight - multiset{request});
      if !request.DropRequest? then left
      else if success then left.(geofences := left.geofences - {request.hwId})
      else left.(failed := left.failed + {request.hwId})
    case PauseAnswer(hwId) => st.(inFlight := st.inFlight - multiset{PauseRequest(hwId)})
  }

  predicate BeingDropped(st: State, hwId: int) {
    exists r :: r in st.inFlight && r.DropRequest? && r.hwId == hwId
  }

  /** Clients add under new keys; only requests on their way are answered. */
  predicate Enabled(st: State, e: Event) {
    match e
    case Add(key, _) => key !in st.issued
    case AddAnswer(request, _) => request.AddRequest? && request in st.inFlight
    case RemoveAnswer(hwId, _) => RemoveRequest(hwId) in st.inFlight
    case DropAnswer(request, _) => request.DropRequest? && request in st.inFlight
    case PauseAnswer(hwId) => PauseRequest(hwId) in st.inFlight
    case _ => true
  }

  /** The hardware gives out an id that a key points to, or that a stopped client's geofence is being removed under. */
  predicate Reuses(st: State, e: Event) {
    && e.AddAnswer? && e.added.Some?
    && (BeingDropped(st, e.added.value)
        || (e.added.value in st.geofences && st.geofences[e.added.value].key in st.geofenceIds))
  }

  // ----- The adapter -----

  class GeofenceAdapter {
    var geofences: map<int, GeofenceObject>
    var geofenceIds: map<Key, int>
    ghost var inFlight: multiset<Request>
    ghost var failed: set<int>
    ghost var issued: set<Key>

    ghost function View(): State
      reads this
    {
      State(geofences, geofenceIds, inFlight, failed, issued)
    }

    constructor ()
      ensures View() == INITIAL
    {
      geofences, geofenceIds := map[], map[];
      inFlight, failed, issued := multiset{}, {}, {};
    }

    method GetHwIdFromClient(key: Key) returns (hwId: Option<int>)
      ensures hwId.Some? <==> key in geofenceIds
      ensures hwId.Some? ==> geofenceIds[key] == hwId.value
    {
      hwId := if key in geofenceIds then Some(geofenceIds[key]) else None;
    }

    method GetGeofenceKeyFromHwId(hwId: int) returns (key: Option<Key>)
      ensures key.Some? <==> hwId in geofences
      ensures key.Some? ==> geofences[hwId].key == key.value
    {
      key := if hwId in geofences then Some(geofences[hwId].key) else None;
    }

    method AddGeofence(key: Key, fence: Fence)
      modifies this
      ensures View() == Next(old(View()), Add(key, fence))
    {
      inFlight, issued := inFlight + multiset{AddRequest(key, fence, None, false)}, issued + {key};
    }

    /** The callback of addGeofence, for a client or after a modem restart. */
    method OnAddAnswer(request: Request, added: Option<int>)
      requires request.AddRequest?
      modifies this
      ensures View() == Next(old(View()), AddAnswer(request, added))
    {
      inFlight := inFlight - multiset{request};
      if added.Some? {
        if request.paused {
          inFlight := inFlight + multiset{PauseRequest(added.value)};
        }
        SaveGeofenceItem(request.key, added.value, request.fence);
      }
    }

    method SaveGeofenceItem(key: Key, hwId: int, fence: Fence)
      modifies this
      ensures View() == SaveItem(old(View()), key, hwId, fence)
    {
      geofences := geofences[hwId := GeofenceObject(key, fence, false)];
      geofenceIds := geofenceIds[key := hwId];
    }

    method RemoveGeofence(key: Key)
      modifies this
      ensures View() == Next(old(View()), Remove(key))
    {
      var hwId := GetHwIdFromClient(key);
      if hwId.Some? {
        inFlight := inFlight + multiset{RemoveRequest(hwId.value)};
      }
    }

    /** The callback of removeGeofence. */
    method OnRemoveAnswer(hwId: int, success: bool)
      modifies this
      ensures View() == Next(old(View()), RemoveAnswer(hwId, success))
    {
      inFlight := inFlight - multiset{RemoveRequest(hwId)};
      assert View() == old(View()).(inFlight := inFlight);
      if success {
        RemoveGeofenceItem(hwId);
      } else {
        failed := failed + {hwId};
      }
    }

    method RemoveGeofenceItem(hwId: int)
      modifies this
      ensures View() == RemoveItem(old(View()), hwId)
    {
      var key := GetGeofenceKeyFromHwId(hwId);
      if key.Some? {
        if key.value in geofenceIds {
          geofenceIds := geofenceIds - {key.value};
          geofences := geofences - {hwId};
        }
      }
    }

    method PauseGeofenceItem(hwId: int)
      modifies this
      ensures View() == Next(old(View()), Paused(hwId))
    {
      if hwId in geofences {
        geofences := geofences[hwId := geofences[hwId].(paused := true)];
      }
    }

    method ResumeGeofenceItem(hwId: int)
      modifies this
      ensures View() == Next(old(View()), Resumed(hwId))
    {
      if hwId in geofences {
        geofences := geofences[hwId := geofences[hwId].(paused := false)];
      }
    }

    method ModifyGeofenceItem(hwId: int, options: int)
      modifies this
      ensures View() == Next(old(View()), Modified(hwId, options))
    {
      if hwId in geofences {
        geofences := geofences[hwId := geofences[hwId].(fence := geofences[hwId].fence.(options := options))];
      }
    }

    /** stopClientSessions: the loop that erases the client's keys and sends the removals. */
    method StopClientSessions(client: int)
      modifies this
      ensures View() == Next(old(View()), StopClient(client))
    {
      ghost var before := View();
      var rest := geofenceIds.Keys;
      assert before == StoppedBut(before, client, rest);
      while rest != {}
        invariant rest <= before.geofenceIds.Keys && View() == StoppedBut(before, client, rest)
        decreases |rest|
      {
        var key :| key in rest;
        StopOne(before, client, rest, key);
        rest := rest - {key};
        StopKey(client, key);
      }
    }

    method StopKey(client: int, key: Key)
      requires key in geofenceIds
      modifies this
      ensures View() == StopStep(old(View()), client, key)
    {
      if key.client == client {
        inFlight := inFlight + multiset{DropRequest(geofenceIds[key], key)};
        geofenceIds := geofenceIds - {key};
      }
    }

    /** The callback of a removal sent by stopClientSessions. */
    method OnDropAnswer(request: Request, success: bool)
      requires request.DropRequest?
      modifies this
      ensures View() == Next(old(View()), DropAnswer(request, success))
    {
      inFlight := inFlight - multiset{request};
      if success {
        geofences := geofences - {request.hwId};
      } else {
        failed := failed + {request.hwId};
      }
    }

    method RestartGeofences()
      modifies this
      ensures View() == Next(old(View()), Restart)
    {
      if |geofences| == 0 {
        return;
      }
      var oldGeofences := geofences;
      geofences, geofenceIds := map[], map[];
      ghost var sent := inFlight;
      var rest := oldGeofences.Keys;
      while rest != {}
        invariant rest <= oldGeofences.Keys && geofences == map[] && geofenceIds == map[]
        invariant inFlight == ReaddedBut(sent, oldGeofences, rest)
        invariant failed == old(failed) && issued == old(issued)
        decreases |rest|
      {
        assert (forall h :: h !in rest) ==> rest == {};
        var hwId :| hwId in rest;
        ReaddOne(sent, oldGeofences, rest, hwId);
        rest := rest - {hwId};
        inFlight := inFlight + multiset{ReaddRequest(oldGeofences, hwId)};
      }
      assert oldGeofences.Keys - rest == oldGeofences.Keys;
    }
  }

  const INITIAL := State(map[], map[], multiset{}, {}, {})

  // ----- The two indexes agree -----

  /** Every key points to an object that carries it. */
  predicate KeysPointRight(st: State) {
    forall k :: k in st.geofenceIds ==>
      st.geofenceIds[k] in st.geofences && st.geofences[st.geofenceIds[k]].key == k
  }

  /** No two objects carry the same key, and none carries the key of an addition on its way. */
  predicate KeysApart(st: State) {
    && (forall h, i :: h in st.geofences && i in st.geofences && st.geofences[h].key == st.geofences[i].key ==> h == i)
    && (forall h :: h in st.geofences ==> st.geofences[h].key in st.issued)
    && (forall r :: r in st.inFlight && r.AddRequest? ==> r.key in st.issued)
    && (forall r, h :: r in st.inFlight && r.AddRequest? && h in st.geofences ==> st.geofences[h].key != r.key)
    && (forall r, s :: r in st.inFlight && s in st.inFlight && r.AddRequest? && s.AddRequest? && r.key == s.key
          ==> r == s && st.inFlight[r] == 1)
  }

  /** No key points to a geofence that is being dropped. */
  predicate DroppedUnused(st: State) {
    forall k :: k in st.geofenceIds ==> !BeingDropped(st, st.geofenceIds[k])
  }

  /** An object without its key is being dropped, or its removal failed. */
  predicate ObjectsKeyed(st: State) {
    forall h :: h in st.geofences ==>
      st.geofences[h].key in st.geofenceIds || BeingDropped(st, h) || h in st.failed
  }

  predicate Consistent(st: State) {
    KeysPointRight(st) && KeysApart(st) && DroppedUnused(st) && ObjectsKeyed(st)
  }

  /** A new geofence keeps the indexes consistent if and only if the hardware reuses no such id. */
  lemma SaveConsistentIff(st: State, request: Request, hwId: int)
    requires Consistent(st) && request.AddRequest? && request in st.inFlight
    ensures Consistent(Next(st, AddAnswer(request, Some(hwId)))) <==> !Reuses(st, AddAnswer(request, Some(hwId)))
  {
    var paused := if request.paused then multiset{PauseRequest(hwId)} else multiset{};
    var left := st.(inFlight := st.inFlight - multiset{request} + paused);
    assert Next(st, AddAnswer(request, Some(hwId))) == SaveItem(left, request.key, hwId, request.fence);
    RequestGoneConsistent(st, left);
    DropsStay(st, left);
    assert forall r :: r in left.inFlight && r.AddRequest? ==>
             r in st.inFlight && (r == request ==> st.inFlight[r] > 1);
    SaveItemConsistentIff(left, request.key, hwId, request.fence);
  }

  lemma SaveItemConsistentIff(st: State, key: Key, hwId: int, fence: Fence)
    requires Consistent(st) && key in st.issued
    requires forall r :: r in st.inFlight && r.AddRequest? ==> r.key != key
    requires forall h :: h in st.geofences ==> st.geofences[h].key != key
    ensures Consistent(SaveItem(st, key, hwId, fence))
            <==> !BeingDropped(st, hwId) && (hwId in st.geofences ==> st.geofences[hwId].key !in st.geofenceIds)
  {
    var after := SaveItem(st, key, hwId, fence);
    DropsStay(st, after);
    assert after.geofenceIds[key] == hwId;
    if hwId in st.geofences && st.geofences[hwId].key in st.geofenceIds {
      var other := st.geofences[hwId].key;
      assert st.geofenceIds[other] == hwId && other in after.geofenceIds;
    }
  }

  /** Two states with the same drops on their way. */
  lemma DropsStay(st: State, after: State)
    requires forall r: Request :: r.DropRequest? ==> (r in st.inFlight <==> r in after.inFlight)
    ensures forall h :: BeingDropped(st, h) <==> BeingDropped(after, h)
  {
  }

  /** Erasing a geofence and its key. */
  lemma RemoveConsistent(st: State, hwId: int)
    requires Consistent(st)
    ensures Consistent(RemoveItem(st, hwId))
  {
    if hwId in st.geofences && st.geofences[hwId].key in st.geofenceIds {
      var key := st.geofences[hwId].key;
      assert st.geofenceIds[key] == hwId;
      DropsStay(st, RemoveItem(st, hwId));
    }
  }

  lemma StopClientDrops(st: State, client: int, h: int)
    requires Consistent(st)
    ensures var gone := KeysOf(st.geofenceIds, client);
            BeingDropped(OnStopClient(st, client), h)
            <==> BeingDropped(st, h) || (h in st.geofences && st.geofences[h].key in gone
                                         && st.geofenceIds[st.geofences[h].key] == h)
  {
  }

  lemma StopClientConsistent(st: State, client: int)
    requires Consistent(st)
    ensures Consistent(OnStopClient(st, client))
  {
    var after := OnStopClient(st, client);
    forall h
      ensures BeingDropped(after, h)
              <==> BeingDropped(st, h) || (h in st.geofences && st.geofences[h].key in KeysOf(st.geofenceIds, client)
                                           && st.geofenceIds[st.geofences[h].key] == h)
    {
      StopClientDrops(st, client, h);
    }
    assert forall r :: r in after.inFlight && r.AddRequest? ==> after.inFlight[r] == st.inFlight[r];
    forall h | h in st.geofences && st.geofences[h].key in st.geofenceIds
      ensures st.geofenceIds[st.geofences[h].key] == h
    {
      assert st.geofences[st.geofenceIds[st.geofences[h].key]].key == st.geofences[h].key;
    }
  }

  lemma RestartConsistent(st: State)
    requires Consistent(st)
    ensures Consistent(OnRestart(st))
  {
  }

  /** Changes of an object that leave its key alone. */
  lemma ChangedConsistent(st: State, after: State)
    requires Consistent(st) && after == st.(geofences := after.geofences)
    requires after.geofences.Keys == st.geofences.Keys
    requires forall h :: h in st.geofences ==> after.geofences[h].key == st.geofences[h].key
    ensures Consistent(after)
  {
  }

  lemma ItemChangeConsistent(st: State, e: Event)
    requires Consistent(st) && (e.Paused? || e.Resumed? || e.Modified?)
    ensures Consistent(Next(st, e))
  {
    ChangedConsistent(st, Next(st, e));
  }

  /** Every request and answer keeps the indexes consistent, if and only if it is not such a reuse of an id. */
  lemma NextConsistentIff(st: State, e: Event)
    requires Consistent(st) && Enabled(st, e)
    ensures Consistent(Next(st, e)) <==> !Reuses(st, e)
  {
    match e
    case Add(key, fence) => AddConsistent(st, key, fence);
    case Remove(key) => RequestGoneConsistent(st, Next(st, e));
    case StopClient(client) => StopClientConsistent(st, client);
    case Restart => RestartConsistent(st);
    case Paused(_) => ItemChangeConsistent(st, e);
    case Resumed(_) => ItemChangeConsistent(st, e);
    case Modified(_, _) => ItemChangeConsistent(st, e);
    case AddAnswer(request, added) => AddAnswerConsistentIff(st, request, added);
    case RemoveAnswer(hwId, success) => RemoveAnswerConsistent(st, hwId, success);
    case DropAnswer(request, success) => DropAnswerConsistent(st, request, success);
    case PauseAnswer(hwId) => RequestGoneConsistent(st, Next(st, e));
  }

  lemma AddAnswerConsistentIff(st: State, request: Request, added: Option<int>)
    requires Consistent(st) && request.AddRequest? && request in st.inFlight
    ensures Consistent(Next(st, AddAnswer(request, added))) <==> !Reuses(st, AddAnswer(request, added))
  {
    if added.Some? {
      SaveConsistentIff(st, request, added.value);
    } else {
      RequestGoneConsistent(st, Next(st, AddAnswer(request, added)));
    }
  }

  lemma AddConsistent(st: State, key: Key, fence: Fence)
    requires Consistent(st) && key !in st.issued
    ensures Consistent(Next(st, Add(key, fence)))
  {
    var after := Next(st, Add(key, fence));
    DropsStay(st, after);
    assert KeysApart(after);
  }

  /** Removal requests come and go, additions go, and more removals may have failed. */
  lemma RequestGoneConsistent(st: State, after: State)
    requires Consistent(st) && after == st.(inFlight := after.inFlight, failed := after.failed)
    requires st.failed <= after.failed
    requires forall r: Request :: r.DropRequest? ==> after.inFlight[r] == st.inFlight[r]
    requires forall r: Request :: r.AddRequest? ==> after.inFlight[r] <= st.inFlight[r]
    ensures Consistent(after)
  {
  }

  lemma RemoveAnswerConsistent(st: State, hwId: int, success: bool)
    requires Consistent(st)
    ensures Consistent(Next(st, RemoveAnswer(hwId, success)))
  {
    var left := st.(inFlight := st.inFlight - multiset{RemoveRequest(hwId)});
    RequestGoneConsistent(st, left);
    RequestGoneConsistent(st, left.(failed := left.failed + {hwId}));
    RemoveConsistent(left, hwId);
  }

  lemma DropAnswerConsistent(st: State, request: Request, success: bool)
    requires Consistent(st) && request.DropRequest? && request in st.inFlight
    ensures Consistent(Next(st, DropAnswer(request, success)))
  {
  }

  // ----- Over all interleavings -----

  /** sts are the states of a run with the events es. */
  ghost predicate IsRun(sts: seq<State>, es: seq<Event>) {
    && |sts| == |es| + 1
    && sts[0] == INITIAL
    && forall i :: 0 <= i < |es| ==> StepOf(sts, es, i)
  }

  ghost predicate StepOf(sts: seq<State>, es: seq<Event>, i: nat)
    requires i < |es| && |sts| == |es| + 1
  {
    Enabled(sts[i], es[i]) && sts[i + 1] == Next(sts[i], es[i])
  }

  lemma {:induction false} RunConsistent(sts: seq<State>, es: seq<Event>, i: nat)
    requires IsRun(sts, es) && i < |sts| && forall k :: 0 <= k < i ==> !Reuses(sts[k], es[k])
    ensures Consistent(sts[i])
  {
    if i == 0 {
    } else {
      RunConsistent(sts, es, i - 1);
      assert StepOf(sts, es, i - 1);
      NextConsistentIff(sts[i - 1], es[i - 1]);
    }
  }

  /** Unless the hardware reuses such an id, the keys always point to their own geofences, so no two share one. */
  lemma KeysInjective(sts: seq<State>, es: seq<Event>, i: nat, j: Key, k: Key)
    requires IsRun(sts, es) && i < |sts| && forall n :: 0 <= n < i ==> !Reuses(sts[n], es[n])
    requires j in sts[i].geofenceIds && k in sts[i].geofenceIds
    ensures sts[i].geofenceIds[j] in sts[i].geofences && sts[i].geofences[sts[i].geofenceIds[j]].key == j
    ensures sts[i].geofenceIds[j] == sts[i].geofenceIds[k] ==> j == k
  {
    RunConsistent(sts, es, i);
    assert KeysPointRight(sts[i]);
  }

  /** Once every dropped geofence has been answered for, and none refused, the indexes are exact inverses. */
  lemma IndexesInverse(sts: seq<State>, es: seq<Event>, i: nat, key: Key, hwId: int)
    requires IsRun(sts, es) && i < |sts| && forall n :: 0 <= n < i ==> !Reuses(sts[n], es[n])
    requires sts[i].failed == {} && forall h :: !BeingDropped(sts[i], h)
    ensures key in sts[i].geofenceIds && sts[i].geofenceIds[key] == hwId
            <==> hwId in sts[i].geofences && sts[i].geofences[hwId].key == key
  {
    RunConsistent(sts, es, i);
    var st := sts[i];
    if hwId in st.geofences && st.geofences[hwId].key == key {
      assert key in st.geofenceIds;
      assert st.geofences[st.geofenceIds[key]].key == key;
    }
  }

  // ----- A stopped client is gone -----

  predicate AddsComing(st: State, client: int) {
    exists r :: r in st.inFlight && r.AddRequest? && r.key.client == client
  }

  /** The client has no keys, and no addition on its way will give it one. */
  predicate Gone(st: State, client: int) {
    (forall k :: k in st.geofenceIds ==> k.client != client) && !AddsComing(st, client)
  }

  /** A modem restart while a geofence of the client, dropped or not, is still listed. */
  predicate Revives(st: State, e: Event, client: int) {
    e.Restart? && exists h :: h in st.geofences && st.geofences[h].key.client == client
  }

  /** Stopping a client leaves it without keys for good exactly if it has no addition on its way. */
  lemma StoppedGoneIff(st: State, client: int)
    ensures forall k :: k in OnStopClient(st, client).geofenceIds ==> k.client != client
    ensures Gone(OnStopClient(st, client), client) <==> !AddsComing(st, client)
  {
    SameAdds(st, OnStopClient(st, client), client);
  }

  lemma SameAdds(st: State, after: State, client: int)
    requires forall r: Request :: r.AddRequest? && r.key.client == client ==>
               (r in st.inFlight <==> r in after.inFlight)
    ensures AddsComing(st, client) <==> AddsComing(after, client)
  {
  }

  lemma StaysGone(st: State, after: State, client: int)
    requires Gone(st, client)
    requires forall k :: k in after.geofenceIds ==> k in st.geofenceIds || k.client != client
    requires forall r: Request :: r.AddRequest? && r.key.client == client && r in after.inFlight ==> r in st.inFlight
    ensures Gone(after, client)
  {
  }

  lemma RestartGoneIff(st: State, client: int)
    requires Gone(st, client)
    ensures Gone(OnRestart(st), client) <==> !Revives(st, Restart, client)
  {
    if h :| h in st.geofences && st.geofences[h].key.client == client {
      assert ReaddRequest(st.geofences, h) in OnRestart(st).inFlight;
    } else {
      StaysGone(st, OnRestart(st), client);
    }
  }

  lemma AnswerStaysGone(st: State, e: Event, client: int)
    requires Gone(st, client) && Enabled(st, e)
    requires e.AddAnswer? || e.RemoveAnswer? || e.DropAnswer? || e.PauseAnswer?
    ensures Gone(Next(st, e), client)
  {
    assert e.AddAnswer? ==> e.request.key.client != client;
    StaysGone(st, Next(st, e), client);
  }

  /** Until the client adds again it stays so, if and only if no modem restart revives it. */
  lemma NextGoneIff(st: State, e: Event, client: int)
    requires Gone(st, client) && Enabled(st, e) && (e.Add? ==> e.key.client != client)
    ensures Gone(Next(st, e), client) <==> !Revives(st, e, client)
  {
    match e
    case Add(_, _) => StaysGone(st, Next(st, e), client);
    case Remove(_) => StaysGone(st, Next(st, e), client);
    case StopClient(other) => StaysGone(st, OnStopClient(st, other), client);
    case Restart => RestartGoneIff(st, client);
    case Paused(_) =>
    case Resumed(_) =>
    case Modified(_, _) =>
    case _ => AnswerStaysGone(st, e, client);
  }

  /** Over every run after the stop: no keys until the client adds again, unless a restart revives it. */
  lemma {:induction false} RunGone(sts: seq<State>, es: seq<Event>, i: nat, j: nat, client: int)
    requires IsRun(sts, es) && i < j < |sts| && es[i] == StopClient(client) && !AddsComing(sts[i], client)
    requires forall k :: i < k < j ==> !Revives(sts[k], es[k], client) && (es[k].Add? ==> es[k].key.client != client)
    ensures Gone(sts[j], client)
  {
    assert StepOf(sts, es, j - 1);
    if j == i + 1 {
      StoppedGoneIff(sts[i], client);
    } else {
      RunGone(sts, es, i, j - 1, client);
      NextGoneIff(sts[j - 1], es[j - 1], client);
    }
  }

  // ----- Runs in which the two properties fail -----

  ghost predicate Reached(st: State) {
    exists sts, es :: IsRun(sts, es) && sts[|es|] == st
  }

  lemma ReachedNext(st: State, e: Event, after: State)
    requires Reached(st) && Enabled(st, e) && after == Next(st, e)
    ensures Reached(after)
  {
    var sts, es :| IsRun(sts, es) && sts[|es|] == st;
    var sts', es' := sts + [after], es + [e];
    forall i | 0 <= i < |es'|
      ensures StepOf(sts', es', i)
    {
      assert i < |es| ==> StepOf(sts, es, i);
    }
    assert IsRun(sts', es') && sts'[|es'|] == after;
  }

  const FENCE := Fence(0, 0)
  const KEY_1 := Key(1, 1)
  const KEY_2 := Key(1, 2)
  const ADD_1 := AddRequest(KEY_1, FENCE, None, false)
  const ADD_2 := AddRequest(KEY_2, FENCE, None, false)
  const AGAIN := AddRequest(KEY_1, FENCE, Some(7), false)
  const DROP := DropRequest(7, KEY_1)
  const LISTED := map[7 := GeofenceObject(KEY_1, FENCE, false)]

  /** A client has added one geofence, and has been stopped; the removal is on its way. */
  const ADDED := State(LISTED, map[KEY_1 := 7], multiset{}, {}, {KEY_1})
  const STOPPED := State(LISTED, map[], multiset{DROP}, {}, {KEY_1})

  lemma AddedReached()
    ensures Reached(ADDED)
  {
    assert IsRun([INITIAL], []);
    ReachedNext(INITIAL, Add(KEY_1, FENCE), State(map[], map[], multiset{ADD_1}, {}, {KEY_1}));
    ReachedNext(State(map[], map[], multiset{ADD_1}, {}, {KEY_1}), AddAnswer(ADD_1, Some(7)), ADDED);
  }

  lemma StoppedReached()
    ensures Reached(STOPPED)
  {
    AddedReached();
    assert KeysOf(ADDED.geofenceIds, 1) == {KEY_1};
    assert DropsFor(ADDED.geofenceIds, {KEY_1}) == {DROP};
    ReachedNext(ADDED, StopClient(1), STOPPED);
  }

  const ADDING_2 := State(LISTED, map[], multiset{DROP, ADD_2}, {}, {KEY_1, KEY_2})
  const ADDED_2 :=
    State(map[7 := GeofenceObject(KEY_2, FENCE, false)], map[KEY_2 := 7], multiset{DROP}, {}, {KEY_1, KEY_2})
  const DANGLING := State(map[], map[KEY_2 := 7], multiset{}, {}, {KEY_1, KEY_2})

  lemma ReusedReached()
    ensures Reached(ADDING_2) && ADDED_2 == Next(ADDING_2, AddAnswer(ADD_2, Some(7)))
    ensures Reuses(ADDING_2, AddAnswer(ADD_2, Some(7)))
  {
    StoppedReached();
    ReachedNext(STOPPED, Add(KEY_2, FENCE), ADDING_2);
    assert DROP in ADDING_2.inFlight;
  }

  /** The hardware reuses the id for a new geofence: the late answer erases it, and its key points nowhere. */
  lemma ReusedIdDangles()
    ensures Reached(DANGLING) && !KeysPointRight(DANGLING)
  {
    ReusedReached();
    ReachedNext(ADDING_2, AddAnswer(ADD_2, Some(7)), ADDED_2);
    ReachedNext(ADDED_2, DropAnswer(DROP, true), DANGLING);
    assert KEY_2 in DANGLING.geofenceIds;
  }

  const RESTARTED := State(map[], map[], multiset{DROP, AGAIN}, {}, {KEY_1})
  const READDED := State(map[8 := GeofenceObject(KEY_1, FENCE, false)], map[KEY_1 := 8], multiset{DROP}, {}, {KEY_1})
  const REVIVED := READDED.(inFlight := multiset{})

  lemma RestartedReached()
    ensures Reached(RESTARTED) && Revives(STOPPED, Restart, 1) && RESTARTED == Next(STOPPED, Restart)
  {
    StoppedReached();
    assert 7 in LISTED && Readded(LISTED, LISTED.Keys) == {AGAIN};
    ReachedNext(STOPPED, Restart, RESTARTED);
  }

  /** The modem restarts first: the stopped client's geofence is added anew, and no answer is left to remove it. */
  lemma RestartRevivesStopped()
    ensures Reached(REVIVED) && !Gone(REVIVED, 1)
  {
    RestartedReached();
    ReachedNext(RESTARTED, AddAnswer(AGAIN, Some(8)), READDED);
    ReachedNext(READDED, DropAnswer(DROP, true), REVIVED);
    assert KEY_1 in REVIVED.geofenceIds;
  }
}
