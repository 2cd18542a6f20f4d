/** What a worker of actix-server knows: services, the factories that build them, and a log of what
    the worker does. */
module WorkerServices {
  import opened Options
  import P = Protocol

  datatype Status = Available | Unavailable | Failed | Restarting | Stopping | Stopped

  /** A factory of the builder, with the token of the listener it was bound with. */
  datatype Factory = Factory(id: nat, token: nat)

  /** A running service, known by the factory that built it and by which of its builds it is. */
  datatype Service = Service(factory: Factory, build: nat)

  datatype WorkerService = WorkerService(factoryIdx: nat, status: Status, service: Service)

  datatype State = NotAvailable | IsAvailable | InRestart(factoryId: nat, token: nat) | InShutdown

  /** What a worker does that can be seen from outside. `FoundReady` is a check that found all
      services ready. `Told` is the answer to a stop request, with the connections queued, active and
      on their way at that moment. */
  datatype Act =
    | FoundReady(services: seq<WorkerService>)
    | Dispatched(conn: P.Conn, service: Service)
    | Dropped(conn: P.Conn)
    | Told(idle: bool, queued: int, active: nat, sending: nat)

  // ---------------------------------------------------------------- the builder

  /** Every listener gets the next token, and a factory that carries it. */
  class Builder {
    var token: nat
    var factories: seq<Factory>
    var sockets: seq<nat>

    ghost predicate Valid() reads this {
      token == |factories| == |sockets| && TokensMatch(factories) && forall i :: 0 <= i < token ==> sockets[i] == i
    }

    constructor ()
      ensures Valid() && token == 0
    {
      token, factories, sockets := 0, [], [];
    }

    method NextToken() returns (t: nat)
      modifies this`token
      ensures t == old(token) && token == t + 1
    {
      t := token;
      token := token + 1;
    }

    /** One `bind` call, which may open several listeners. */
    method Bind(id: nat, addresses: nat)
      requires Valid()
      modifies this
      ensures Valid() && token == old(token) + addresses && old(factories) <= factories && old(sockets) <= sockets
      ensures forall i :: old(token) <= i < token ==> factories[i] == Factory(id, i) && sockets[i] == i
    {
      for i := 0 to addresses
        invariant Valid() && token == old(token) + i && old(factories) <= factories && old(sockets) <= sockets
        invariant forall k :: old(token) <= k < token ==> factories[k] == Factory(id, k)
      {
        var t := NextToken();
        factories := factories + [Factory(id, t)];
        sockets := sockets + [t];
      }
    }
  }

  /** What `Builder` promises about its factories. */
  ghost predicate TokensMatch(factories: seq<Factory>) {
    forall i :: 0 <= i < |factories| ==> factories[i].token == i
  }

  // ---------------------------------------------------------------- creating services

  /** What becomes of one `create` call at the start: the service, an error, or a stop request that
      comes first. */
  datatype Creation = Created | CreateFailed | StopCame

  datatype Startup = Ready(list: seq<(nat, nat, Service)>) | Failure(idx: nat) | Cancelled

  /** A factory's `create`: its own token, and a service it has built. */
  method Create(factory: Factory, build: nat) returns (token: nat, service: Service)
    ensures token == factory.token && service == Service(factory, build)
  {
    token, service := factory.token, Service(factory, build);
  }

  /** The first creation that does not succeed. */
  function FirstTrouble(outcomes: seq<Creation>): (k: nat)
    ensures k <= |outcomes|
    ensures forall i :: 0 <= i < k ==> outcomes[i].Created?
    ensures k < |outcomes| ==> !outcomes[k].Created?
  {
    if outcomes == [] || !outcomes[0].Created? then 0 else 1 + FirstTrouble(outcomes[1..])
  }

  lemma {:induction false} FirstTroubleIs(outcomes: seq<Creation>, k: nat)
    requires k <= |outcomes| && forall i :: 0 <= i < k ==> outcomes[i].Created?
    requires k < |outcomes| ==> !outcomes[k].Created?
    ensures FirstTrouble(outcomes) == k
  {
    if outcomes != [] && k > 0 { FirstTroubleIs(outcomes[1..], k - 1); }
  }

  /** `create_services`: asks the factories in order, up to the first error or a stop request. */
  method CreateServices(factories: seq<Factory>, outcomes: seq<Creation>) returns (r: Startup)
    requires |outcomes| == |factories|
    ensures var k := FirstTrouble(outcomes);
            if k == |factories| then
              && r.Ready? && |r.list| == |factories|
              && forall i :: 0 <= i < |factories| ==> r.list[i] == (i, factories[i].token, Service(factories[i], 0))
            else r == if outcomes[k].StopCame? then Cancelled else Failure(k)
  {
    var list: seq<(nat, nat, Service)> := [];
    for idx := 0 to |factories|
      invariant |list| == idx && forall i :: 0 <= i < idx ==> outcomes[i].Created?
      invariant forall i :: 0 <= i < idx ==> list[i] == (i, factories[i].token, Service(factories[i], 0))
    {
      match outcomes[idx] {
        case Created =>
          var token, service := Create(factories[idx], 0);
          list := list + [(idx, token, service)];
        case CreateFailed =>
          FirstTroubleIs(outcomes, idx);
          return Failure(idx);
        case StopCame =>
          FirstTroubleIs(outcomes, idx);
          return Cancelled;
      }
    }
    FirstTroubleIs(outcomes, |factories|);
    return Ready(list);
  }

  /** `wrap_worker_services`: its assertion, that the token of a service is its position, holds. */
  method WrapServices(factories: seq<Factory>, list: seq<(nat, nat, Service)>) returns (services: seq<WorkerService>)
    requires TokensMatch(factories) && |list| == |factories|
    requires forall i :: 0 <= i < |list| ==> list[i] == (i, factories[i].token, Service(factories[i], 0))
    ensures |services| == |factories| && Routed(factories, services)
    ensures forall i :: 0 <= i < |services| ==> services[i].status == Unavailable
  {
    services := [];
    for position := 0 to |list|
      invariant |services| == position
      invariant forall i :: 0 <= i < position ==>
                  services[i] == WorkerService(i, Unavailable, Service(factories[i], 0))
    {
      var (idx, token, service) := list[position];
      assert token == position;
      services := services + [WorkerService(idx, Unavailable, service)];
    }
  }

  // ---------------------------------------------------------------- services and state

  /** The service at each index was built by the factory of that index, which has that token. */
  ghost predicate Routed(factories: seq<Factory>, services: seq<WorkerService>) {
    |services| == |factories| &&
    forall i :: 0 <= i < |services| ==> services[i].factoryIdx == i && services[i].service.factory == factories[i]
  }

  predicate Polled(s: WorkerService) { s.status == Available || s.status == Unavailable }

  /** The services agree with the state: all of them are polled for readiness, but for the one a
      restart names. A worker in shutdown polls none, and its last restart is given up. */
  ghost predicate Agree(state: State, services: seq<WorkerService>) {
    match state
    case InShutdown => AtMostOneRestarts(services)
    case InRestart(factoryId, token) =>
      && token < |services| && services[token].status == Restarting && services[token].factoryIdx == factoryId
      && forall i :: 0 <= i < |services| && i != token ==> Polled(services[i])
    case _ => forall i :: 0 <= i < |services| ==> Polled(services[i])
  }

  ghost predicate AtMostOneRestarts(services: seq<WorkerService>) {
    forall i, j :: 0 <= i < j < |services| ==> services[i].status != Restarting || services[j].status != Restarting
  }

  /** In every state at most one service is restarting, and outside of a shutdown it is the one the
      state names. */
  lemma AgreeMeansOneRestart(state: State, services: seq<WorkerService>)
    requires Agree(state, services)
    ensures AtMostOneRestarts(services)
    ensures forall i :: 0 <= i < |services| && services[i].status == Restarting && !state.InShutdown? ==>
              state == InRestart(services[i].factoryIdx, i)
  {
    forall i | 0 <= i < |services| && services[i].status == Restarting && !state.InShutdown?
      ensures state == InRestart(services[i].factoryIdx, i)
    {
      assert !Polled(services[i]);
    }
  }

  ghost predicate AllAvailable(services: seq<WorkerService>) {
    forall i :: 0 <= i < |services| ==> services[i].status == Available
  }

  // ---------------------------------------------------------------- the log

  /** A connection is dispatched only right after all services were found ready, and to the service
      of its listener's factory; and a stop is answered with "idle" only when nothing is queued,
      active or on its way. */
  ghost predicate LogOk(log: seq<Act>) {
    log == [] || (LogOk(log[..|log| - 1]) && MayFollow(log[..|log| - 1], log[|log| - 1]))
  }

  /** What may be done next. */
  ghost predicate MayFollow(log: seq<Act>, a: Act) {
    match a
    case FoundReady(services) =>
      AllAvailable(services) && forall i :: 0 <= i < |services| ==> services[i].service.factory.token == i
    case Dispatched(conn, service) => log != [] && FollowsCheck(log[|log| - 1], conn, service)
    case Told(idle, queued, active, sending) => idle ==> queued == 0 && active == 0 && sending == 0
    case Dropped(_) => true
  }

  /** The check that comes just before a dispatch names the service that is called. */
  ghost predicate FollowsCheck(check: Act, conn: P.Conn, service: Service) {
    && check.FoundReady? && conn.token < |check.services|
    && check.services[conn.token].service == service && service.factory.token == conn.token
  }

  /** The last thing done since `from` was the answer to a stop request. */
  predicate EndsTold(from: nat, log: seq<Act>) { from < |log| && log[|log| - 1].Told? }

  function HandledBy(a: Act): seq<P.Conn> {
    match a
    case Dispatched(conn, _) => [conn]
    case Dropped(conn) => [conn]
    case _ => []
  }

  /** The connections a worker has dispatched or dropped, in order. */
  function Handled(log: seq<Act>): seq<P.Conn> {
    if log == [] then [] else Handled(log[..|log| - 1]) + HandledBy(log[|log| - 1])
  }

  lemma LogAppend(log: seq<Act>, a: Act)
    requires LogOk(log) && MayFollow(log, a)
    ensures LogOk(log + [a]) && Handled(log + [a]) == Handled(log) + HandledBy(a)
  {
    var l := log + [a];
    assert l[..|log|] == log && l[|l| - 1] == a;
  }

  /** What a right log says of each entry: before every dispatch all services were found available, and
      the connection went to the one that the factory of its listener built. */
  lemma {:induction false} LogMeans(log: seq<Act>, k: nat)
    requires LogOk(log) && k < |log|
    ensures log[k].Dispatched? ==>
              && k > 0 && log[k - 1].FoundReady? && AllAvailable(log[k - 1].services)
              && log[k].conn.token < |log[k - 1].services|
              && log[k].service == log[k - 1].services[log[k].conn.token].service
              && log[k].service.factory.token == log[k].conn.token
    ensures log[k].Told? && log[k].idle ==> log[k].queued == 0 && log[k].active == 0 && log[k].sending == 0
    decreases |log|
  {
    var n := |log| - 1;
    var init := log[..n];
    if k < n {
      LogMeans(init, k);
      assert init[k] == log[k] && (k > 0 ==> init[k - 1] == log[k - 1]);
    } else if log[k].Dispatched? {
      assert log[k - 1] == init[|init| - 1];
      assert MayFollow(init[..n - 1], init[n - 1]);
    }
  }
}
