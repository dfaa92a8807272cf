/**
 * Destroying a location client: its adapters are asked to remove it and answer
 * in any order; the client is told, and deleted, when all it waits for have
 * answered.
 */
module DestroyHandshake {

  datatype Adapter = Gnss | Batching | Geofence

  type Client = int

  datatype Action =
    | RemoveClient(client: Client, adapter: Adapter)
    | Notify(client: Client)
    | Delete(client: Client)

  /**
   * clients maps the live clients to the adapters they are registered with,
   * waiting those being destroyed with a callback to the adapters still to
   * answer; known are all clients ever created.
   */
  datatype State = State(
    clients: map<Client, set<Adapter>>,
    waiting: map<Client, set<Adapter>>,
    known: set<Client>,
    trace: seq<Action>)

  datatype Event =
    | Create(client: Client, adapters: set<Adapter>)
    | Destroy(client: Client, callback: bool)
    | Complete(client: Client, adapter: Adapter)

  // ----- The steps, on values -----

  function Removals(client: Client, adapters: set<Adapter>): seq<Action> {
    (if Gnss in adapters then [RemoveClient(client, Gnss)] else [])
    + (if Batching in adapters then [RemoveClient(client, Batching)] else [])
    + (if Geofence in adapters then [RemoveClient(client, Geofence)] else [])
  }

  function OnDestroy(st: State, client: Client, callback: bool): State {
    if client !in st.clients then st
    else
      var adapters := st.clients[client];
      var removed := st.(clients := st.clients - {client}, trace := st.trace + Removals(client, adapters));
      if !callback then removed
      else if adapters == {} then removed.(trace := removed.trace + [Notify(client), Delete(client)])
      else removed.(waiting := removed.waiting[client := adapters])
  }

  function OnComplete(st: State, client: Client, adapter: Adapter): State {
    if client !in st.waiting then st
    else
      var left := st.waiting[client] - {adapter};
      if left == {} then
        st.(waiting := st.waiting - {client}, trace := st.trace + [Notify(client), Delete(client)])
      else
        st.(waiting := st.waiting[client := left])
  }

  function Next(st: State, e: Event): State {
    match e
    case Create(client, adapters) =>
      st.(clients := st.clients[client := adapters], known := st.known + {client})
    case Destroy(client, callback) => OnDestroy(st, client, callback)
    case Complete(client, adapter) => OnComplete(st, client, adapter)
  }

  /** A client is created once. */
  predicate Enabled(st: State, e: Event) {
    e.Create? ==> e.client !in st.known
  }

  // ----- The location API -----

  class LocationAPI {
    var clientData: map<Client, set<Adapter>>
    var destroyClientData: map<Client, set<Adapter>>
    ghost var known: set<Client>
    ghost var trace: seq<Action>

    ghost function View(): State
      reads this
    {
      State(clientData, destroyClientData, known, trace)
    }

    constructor ()
      ensures View() == INITIAL
    {
      clientData, destroyClientData, known, trace := map[], map[], {}, [];
    }

    /** createInstance, for a client whose callbacks call for the adapters. */
    method CreateInstance(client: Client, adapters: set<Adapter>)
      modifies this
      ensures View() == Next(old(View()), Create(client, adapters))
    {
      clientData, known := clientData[client := adapters], known + {client};
    }

    method Destroy(client: Client, callback: bool)
      modifies this
      ensures View() == Next(old(View()), Event.Destroy(client, callback))
    {
      var invokeDestroyCb := false;
      if client in clientData {
        var removeFromGnss := Gnss in clientData[client];
        var removeFromBatching := Batching in clientData[client];
        var removeFromGeofence := Geofence in clientData[client];
        var needToWait := removeFromGnss || removeFromBatching || removeFromGeofence;
        SomeAdapter(clientData[client]);
        if callback && needToWait {
          var waitAdapters := (if removeFromGnss then {Gnss} else {})
                              + (if removeFromBatching then {Batching} else {})
                              + (if removeFromGeofence then {Geofence} else {});
          SameAdapters(waitAdapters, clientData[client]);
          destroyClientData := destroyClientData[client := waitAdapters];
        }
        trace := trace + Removals(client, clientData[client]);
        clientData := clientData - {client};
        invokeDestroyCb := callback && !needToWait;
      }
      if invokeDestroyCb {
        trace := trace + [Notify(client), Delete(client)];
      }
    }

    method OnRemoveClientComplete(client: Client, adapter: Adapter)
      modifies this
      ensures View() == Next(old(View()), Complete(client, adapter))
    {
      var invokeCallback := false;
      if client in destroyClientData {
        var left := destroyClientData[client] - {adapter};
        if left == {} {
          invokeCallback := true;
          destroyClientData := destroyClientData - {client};
        } else {
          destroyClientData := destroyClientData[client := left];
        }
      }
      if invokeCallback {
        trace := trace + [Notify(client), Delete(client)];
      }
    }
  }

  lemma SomeAdapter(adapters: set<Adapter>)
    ensures adapters == {} <==> Gnss !in adapters && Batching !in adapters && Geofence !in adapters
  {
    if Gnss !in adapters && Batching !in adapters && Geofence !in adapters {
      forall a: Adapter
        ensures a !in adapters
      {
        assert a.Gnss? || a.Batching? || a.Geofence?;
      }
    }
  }

  lemma SameAdapters(a: set<Adapter>, b: set<Adapter>)
    requires (Gnss in a <==> Gnss in b) && (Batching in a <==> Batching in b) && (Geofence in a <==> Geofence in b)
    ensures a == b
  {
    forall x: Adapter
      ensures x in a <==> x in b
    {
      assert x.Gnss? || x.Batching? || x.Geofence?;
    }
  }

  // ----- Over all orders of events -----

  const INITIAL := State(map[], map[], {}, [])

  /** sts are the states of a run with the events es. */
  ghost predicate IsRun(sts: seq<State>, es: seq<Event>) {
    && |sts| == |es| + 1
    && sts[0] == INITIAL
    && forall i :: 0 <= i < |es| ==> StepOf(sts, es, i)
  }

  ghost predicate StepOf(sts: seq<State>, es: seq<Event>, i: nat)
    requires i < |es| && |sts| == |es| + 1
  {
    Enabled(sts[i], es[i]) && sts[i + 1] == Next(sts[i], es[i])
  }

  function Count(trace: seq<Action>, a: Action): nat {
    multiset(trace)[a]
  }

  /** What a destroy says to the client. */
  lemma DestroyCounts(st: State, c: Client, callback: bool, client: Client)
    ensures var told := if c == client && c in st.clients && callback && st.clients[c] == {} then 1 else 0;
            Count(OnDestroy(st, c, callback).trace, Notify(client)) == Count(st.trace, Notify(client)) + told
            && Count(OnDestroy(st, c, callback).trace, Delete(client)) == Count(st.trace, Delete(client)) + told
  {
    if c in st.clients {
      var removals := Removals(c, st.clients[c]);
      RemovalsTellNothing(c, st.clients[c], client);
      Tell(st.trace + removals, c, client);
      assert Count(st.trace + removals, Notify(client)) == Count(st.trace, Notify(client));
      assert Count(st.trace + removals, Delete(client)) == Count(st.trace, Delete(client));
    }
  }

  lemma Tell(trace: seq<Action>, c: Client, client: Client)
    ensures var told := if c == client then 1 else 0;
            Count(trace + [Notify(c), Delete(c)], Notify(client)) == Count(trace, Notify(client)) + told
            && Count(trace + [Notify(c), Delete(c)], Delete(client)) == Count(trace, Delete(client)) + told
  {
  }

  /** And what a completion says. */
  lemma CompleteCounts(st: State, c: Client, adapter: Adapter, client: Client)
    ensures var told := if c == client && c in st.waiting && st.waiting[c] - {adapter} == {} then 1 else 0;
            Count(OnComplete(st, c, adapter).trace, Notify(client)) == Count(st.trace, Notify(client)) + told
            && Count(OnComplete(st, c, adapter).trace, Delete(client)) == Count(st.trace, Delete(client)) + told
  {
    Tell(st.trace, c, client);
  }

  /** A client that is live, or not yet known, has been told nothing and is not waited for. */
  predicate UntoldYet(st: State, client: Client) {
    (client in st.clients ==> client in st.known) && (client in st.waiting ==> client in st.known)
    && (client in st.clients || client !in st.known ==>
          client !in st.waiting && Count(st.trace, Notify(client)) == 0 && Count(st.trace, Delete(client)) == 0)
  }

  lemma RemovalsTellNothing(client: Client, adapters: set<Adapter>, c: Client)
    ensures Notify(c) !in Removals(client, adapters) && Delete(c) !in Removals(client, adapters)
  {
  }

  lemma NextUntoldYet(st: State, e: Event, client: Client)
    requires UntoldYet(st, client) && UntoldYet(st, e.client) && Enabled(st, e)
    ensures UntoldYet(Next(st, e), client)
  {
    match e
    case Create(_, _) =>
    case Destroy(c, callback) => DestroyCounts(st, c, callback, client);
    case Complete(c, adapter) => CompleteCounts(st, c, adapter, client);
  }

  lemma {:induction false} RunUntoldYet(sts: seq<State>, es: seq<Event>, i: nat, client: Client)
    requires IsRun(sts, es) && i < |sts|
    ensures UntoldYet(sts[i], client)
  {
    if i == 0 {
    } else {
      assert StepOf(sts, es, i - 1);
      RunUntoldYet(sts, es, i - 1, client);
      RunUntoldYet(sts, es, i - 1, es[i - 1].client);
      NextUntoldYet(sts[i - 1], es[i - 1], client);
    }
  }

  /** The adapters that have answered for the client from event d on, before event i. */
  function Answered(es: seq<Event>, client: Client, d: nat, i: nat): set<Adapter>
    requires d <= i <= |es|
    decreases i - d
  {
    if i == d then {}
    else
      Answered(es, client, d, i - 1)
      + (if es[i - 1].Complete? && es[i - 1].client == client then {es[i - 1].adapter} else {})
  }

  function Missing(es: seq<Event>, client: Client, d: nat, i: nat, adapters: set<Adapter>): set<Adapter>
    requires d <= i <= |es|
  {
    adapters - Answered(es, client, d, i)
  }

  /** How far the destruction of the client is when adapters in left have not answered. */
  predicate Destroying(st: State, client: Client, left: set<Adapter>) {
    && client in st.known && client !in st.clients
    && (if left == {} then client !in st.waiting else client in st.waiting && st.waiting[client] == left)
    && Count(st.trace, Notify(client)) == Count(st.trace, Delete(client)) == if left == {} then 1 else 0
  }

  /** Who is left after an event. */
  function Left(left: set<Adapter>, e: Event, client: Client): set<Adapter> {
    if e.Complete? && e.client == client then left - {e.adapter} else left
  }

  lemma NextDestroying(st: State, e: Event, client: Client, left: set<Adapter>)
    requires Destroying(st, client, left) && Enabled(st, e)
    ensures Destroying(Next(st, e), client, Left(left, e, client))
  {
    match e
    case Create(_, _) =>
    case Destroy(c, callback) => DestroyKeepsDestroying(st, c, callback, client, left);
    case Complete(c, adapter) => CompleteKeepsDestroying(st, c, adapter, client, left);
  }

  lemma DestroyKeepsDestroying(st: State, c: Client, callback: bool, client: Client, left: set<Adapter>)
    requires Destroying(st, client, left)
    ensures Destroying(OnDestroy(st, c, callback), client, left)
  {
    DestroyCounts(st, c, callback, client);
  }

  lemma CompleteKeepsDestroying(st: State, c: Client, adapter: Adapter, client: Client, left: set<Adapter>)
    requires Destroying(st, client, left)
    ensures Destroying(OnComplete(st, c, adapter), client, if c == client then left - {adapter} else left)
  {
    CompleteCounts(st, c, adapter, client);
  }

  lemma StartDestroying(st: State, client: Client)
    requires client in st.clients && UntoldYet(st, client)
    ensures Destroying(Next(st, Destroy(client, true)), client, st.clients[client])
  {
    DestroyCounts(st, client, true, client);
  }

  lemma NextMissing(es: seq<Event>, client: Client, d: nat, i: nat, adapters: set<Adapter>)
    requires d < i <= |es|
    ensures Missing(es, client, d, i, adapters) == Left(Missing(es, client, d, i - 1, adapters), es[i - 1], client)
  {
  }

  lemma {:induction false} DestroyingUntilAnswered(sts: seq<State>, es: seq<Event>, client: Client, d: nat, i: nat)
    requires IsRun(sts, es) && d < i < |sts|
    requires es[d] == Destroy(client, true) && client in sts[d].clients
    ensures Destroying(sts[i], client, Missing(es, client, d + 1, i, sts[d].clients[client]))
    decreases i
  {
    assert StepOf(sts, es, i - 1);
    var adapters := sts[d].clients[client];
    if i == d + 1 {
      RunUntoldYet(sts, es, d, client);
      StartDestroying(sts[d], client);
      assert Missing(es, client, d + 1, i, adapters) == adapters;
    } else {
      DestroyingUntilAnswered(sts, es, client, d, i - 1);
      NextDestroying(sts[i - 1], es[i - 1], client, Missing(es, client, d + 1, i - 1, adapters));
      NextMissing(es, client, d + 1, i, adapters);
    }
  }

  /**
   * After a destroy with a callback, in every order of completions and other
   * events: the callback has been invoked once, and the object deleted once,
   * if every adapter the client was registered with has answered since; until
   * then neither has happened.
   */
  lemma ToldOnceAllAnswered(sts: seq<State>, es: seq<Event>, client: Client, d: nat, i: nat)
    requires IsRun(sts, es) && d < i < |sts|
    requires es[d] == Destroy(client, true) && client in sts[d].clients
    ensures var told := if sts[d].clients[client] <= Answered(es, client, d + 1, i) then 1 else 0;
            Count(sts[i].trace, Notify(client)) == told && Count(sts[i].trace, Delete(client)) == told
  {
    DestroyingUntilAnswered(sts, es, client, d, i);
    SubsetIsNoneMissing(sts[d].clients[client], Answered(es, client, d + 1, i));
  }

  lemma SubsetIsNoneMissing(a: set<Adapter>, b: set<Adapter>)
    ensures a <= b <==> a - b == {}
  {
    assert forall x :: x in a && x !in b ==> x in a - b;
  }

  /** Every adapter still waited for has been asked to remove the client. */
  predicate AwaitedAsked(st: State) {
    forall c, a :: c in st.waiting && a in st.waiting[c] ==> RemoveClient(c, a) in st.trace
  }

  lemma NextAwaitedAsked(st: State, e: Event)
    requires AwaitedAsked(st)
    ensures AwaitedAsked(Next(st, e))
  {
    if e.Destroy? && e.client in st.clients {
      AllAsked(e.client, st.clients[e.client]);
    }
  }

  lemma AllAsked(client: Client, adapters: set<Adapter>)
    ensures forall a :: RemoveClient(client, a) in Removals(client, adapters) <==> a in adapters
  {
    forall a
      ensures RemoveClient(client, a) in Removals(client, adapters) <==> a in adapters
    {
      assert a.Gnss? || a.Batching? || a.Geofence?;
    }
  }

  lemma {:induction false} RunAwaitedAsked(sts: seq<State>, es: seq<Event>, i: nat)
    requires IsRun(sts, es) && i < |sts|
    ensures AwaitedAsked(sts[i])
  {
    if i == 0 {
    } else {
      RunAwaitedAsked(sts, es, i - 1);
      assert StepOf(sts, es, i - 1);
      NextAwaitedAsked(sts[i - 1], es[i - 1]);
    }
  }

  /** Without a callback nobody is told and the object stays. */
  lemma {:induction false} NoCallbackNoDelete(sts: seq<State>, es: seq<Event>, client: Client, d: nat, i: nat)
    requires IsRun(sts, es) && d < i < |sts|
    requires es[d] == Destroy(client, false) && client in sts[d].clients
    ensures client in sts[i].known && client !in sts[i].clients && client !in sts[i].waiting
    ensures Count(sts[i].trace, Notify(client)) == Count(sts[i].trace, Delete(client)) == 0
    decreases i
  {
    assert StepOf(sts, es, i - 1);
    if i == d + 1 {
      RunUntoldYet(sts, es, d, client);
      DestroyCounts(sts[d], client, false, client);
    } else {
      NoCallbackNoDelete(sts, es, client, d, i - 1);
      NextUntold(sts[i - 1], es[i - 1], client);
    }
  }

  lemma NextUntold(st: State, e: Event, client: Client)
    requires client in st.known && client !in st.clients && client !in st.waiting && Enabled(st, e)
    ensures var after := Next(st, e);
            client in after.known && client !in after.clients && client !in after.waiting
            && Count(after.trace, Notify(client)) == Count(st.trace, Notify(client))
            && Count(after.trace, Delete(client)) == Count(st.trace, Delete(client))
  {
    match e
    case Create(_, _) =>
    case Destroy(c, callback) => DestroyCounts(st, c, callback, client);
    case Complete(c, adapter) => CompleteCounts(st, c, adapter, client);
  }

  // ----- Each adapter is asked once -----

  lemma RemovalsCount(c: Client, adapters: set<Adapter>, client: Client, a: Adapter)
    ensures Count(Removals(c, adapters), RemoveClient(client, a)) == if c == client && a in adapters then 1 else 0
  {
    assert a.Gnss? || a.Batching? || a.Geofence?;
  }

  lemma CountConcat(a: seq<Action>, b: seq<Action>, x: Action)
    ensures Count(a + b, x) == Count(a, x) + Count(b, x)
  {
  }

  /** A destroy asks each adapter of the live client to remove it; nothing else asks for anything. */
  lemma NextAsks(st: State, e: Event, client: Client, a: Adapter)
    ensures Count(Next(st, e).trace, RemoveClient(client, a))
            == Count(st.trace, RemoveClient(client, a))
               + if e.Destroy? && e.client == client && client in st.clients && a in st.clients[client] then 1 else 0
  {
    var x := RemoveClient(client, a);
    CountConcat(st.trace, [Notify(e.client), Delete(e.client)], x);
    if e.Destroy? && e.client in st.clients {
      var removals := Removals(e.client, st.clients[e.client]);
      RemovalsCount(e.client, st.clients[e.client], client, a);
      CountConcat(st.trace, removals, x);
      CountConcat(st.trace + removals, [Notify(e.client), Delete(e.client)], x);
    }
  }

  /** No adapter has been asked to remove a client that is live or not yet known. */
  predicate UnaskedYet(st: State, client: Client, a: Adapter) {
    && (client in st.clients ==> client in st.known)
    && (client in st.clients || client !in st.known ==> Count(st.trace, RemoveClient(client, a)) == 0)
  }

  lemma {:induction false} RunUnaskedYet(sts: seq<State>, es: seq<Event>, i: nat, client: Client, a: Adapter)
    requires IsRun(sts, es) && i < |sts|
    ensures UnaskedYet(sts[i], client, a)
  {
    if i == 0 {
    } else {
      assert StepOf(sts, es, i - 1);
      RunUnaskedYet(sts, es, i - 1, client, a);
      NextAsks(sts[i - 1], es[i - 1], client, a);
    }
  }

  /**
   * After a destroy, with or without a callback, every adapter the client was
   * registered with has been asked once to remove it, and no other ever.
   */
  lemma {:induction false} AskedOnce(sts: seq<State>, es: seq<Event>, client: Client, d: nat, i: nat, a: Adapter)
    requires IsRun(sts, es) && d < i < |sts|
    requires es[d].Destroy? && es[d].client == client && client in sts[d].clients
    ensures client in sts[i].known && client !in sts[i].clients
    ensures Count(sts[i].trace, RemoveClient(client, a)) == if a in sts[d].clients[client] then 1 else 0
    decreases i
  {
    assert StepOf(sts, es, i - 1);
    NextAsks(sts[i - 1], es[i - 1], client, a);
    if i == d + 1 {
      RunUnaskedYet(sts, es, d, client, a);
    } else {
      AskedOnce(sts, es, client, d, i - 1, a);
    }
  }

  /** A client is live from its creation, with the adapters it was created for, until it is destroyed. */
  lemma NextRegistered(st: State, e: Event, client: Client)
    ensures client in Next(st, e).clients <==>
            (e.Create? && e.client == client) || (client in st.clients && !(e.Destroy? && e.client == client))
    ensures client in Next(st, e).clients ==>
              Next(st, e).clients[client] == if e.Create? && e.client == client then e.adapters else st.clients[client]
  {
  }

  /** Every delete of a client comes right after its callback. */
  predicate NotifiedFirst(trace: seq<Action>) {
    forall k :: 0 <= k < |trace| && trace[k].Delete? ==> k > 0 && trace[k - 1] == Notify(trace[k].client)
  }

  lemma NextNotifiedFirst(st: State, e: Event)
    requires NotifiedFirst(st.trace)
    ensures NotifiedFirst(Next(st, e).trace)
  {
    if e.Destroy? && e.client in st.clients {
      var removals := Removals(e.client, st.clients[e.client]);
      forall k | 0 <= k < |removals|
        ensures removals[k].RemoveClient?
      {
      }
      assert NotifiedFirst(st.trace + removals);
    }
  }

  lemma {:induction false} RunNotifiedFirst(sts: seq<State>, es: seq<Event>, i: nat)
    requires IsRun(sts, es) && i < |sts|
    ensures NotifiedFirst(sts[i].trace)
  {
    if i == 0 {
    } else {
      RunNotifiedFirst(sts, es, i - 1);
      assert StepOf(sts, es, i - 1);
      NextNotifiedFirst(sts[i - 1], es[i - 1]);
    }
  }
}
