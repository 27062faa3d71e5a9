/** The balance server between clients and the central server: a client's request goes to the cached
    central session with the client's index stamped into it, and the reply is routed by that index.
 */
module BalanceRouting {
  import opened Bytes
  import opened Framing
  import opened IndexPools
  import opened ServerTypes
  import opened SessionManagers
  import opened SessionSpec
  import K = ServiceKernels

  /** A request that was forwarded: who asked, and the packet as the central server received it. */
  datatype Request = Request(client: PeerId, packet: Packet)

  datatype Balance = Balance(manager: Manager, kernel: K.Kernel, asked: seq<Request>)

  /** The cached session to the central server. */
  function Central(b: Balance): Option<PeerId> {
    if b.kernel.central.Some? then Some(b.kernel.central.value.id) else None
  }

  predicate Transit(packet: Packet) {
    TRANS_BEGIN <= packet.header.kind <= TRANS_END
  }

  function Stamped(packet: Packet, uuid: int32): Packet {
    packet.(header := packet.header.(extraID := uuid))
  }

  /** `CBSession::handlerMsg` and `transToCS`: without a central session the request is dropped. */
  function ClientMsg(b: Balance, client: PeerId, packet: Packet): Balance
    requires client in b.manager.peers
  {
    if !Transit(packet) || Central(b).None? then b
    else
      var forwarded := Stamped(packet, b.manager.peers[client].uuid);
      b.(manager := SendMsg(b.manager, Central(b), forwarded, CLIENT), asked := b.asked + [Request(client, forwarded)])
  }

  /** `B2CSession::handlerMsg` and `transToClient`. */
  function CentralMsg(b: Balance, packet: Packet): Balance {
    if !Transit(packet) then b
    else b.(manager := SendMsgToUuid(b.manager, packet.header.extraID, packet, CLIENT))
  }

  /** The type of a connector session: `createConnector` narrows the type of the service to a byte. */
  function ConnectorKind(address: K.Address): byte {
    address.kind % 0x100
  }

  function Connector(address: K.Address, id: PeerId): K.SessionRef {
    K.SessionRef(id, ConnectorKind(address))
  }

  datatype BalanceEvent =
    | ClientJoins(id: PeerId, session: Session)
    | Connects(address: K.Address, sid: int32, found: Option<int32>, id: PeerId, session: Session)
    | Disconnects(uuid: int32)
    | Leaves(uuid: int32)
    | Asks(id: PeerId, packet: Packet)
    | Replies(packet: Packet)
    | Steps(id: PeerId, event: Event, packets: seq<Packet>)

  /** The assumptions on the environment: sessions are new when they join, a walk through the table finds
      what it may find, and packets are as the dispatch loop hands them out. The central server may answer
      with any stamp, at any time. */
  ghost predicate Allowed(b: Balance, e: BalanceEvent) {
    match e
    case ClientJoins(id, session) => Proper(b.manager, Add(id, CLIENT, session))
    case Connects(address, sid, found, id, session) =>
      && K.Finds(b.kernel.services, address, found)
      && (K.Creates(sid, found) ==> Proper(b.manager, Add(id, ConnectorKind(address), session)))
    case Asks(id, packet) => id in b.manager.peers && Sized(packet)
    case Replies(packet) => Sized(packet)
    case Steps(id, event, packets) => Proper(b.manager, Step(id, event, packets))
    case _ => true
  }

  /** `addNewConnect`: a new entry comes with a new session, which takes the next index. */
  function Connected(b: Balance, address: K.Address, sid: int32, found: Option<int32>, id: PeerId,
                     session: Session): Balance
    requires found.Some? ==> found.value in b.kernel.services
  {
    var joined := AddSession(b.manager, id, ConnectorKind(address), session);
    b.(manager := if K.Creates(sid, found) then joined else b.manager,
       kernel := K.Add(b.kernel, address, sid, found, Connector(address, id), NextUuid(b.manager)))
  }

  function BalanceNext(b: Balance, e: BalanceEvent): Balance
    requires Allowed(b, e)
  {
    if b.manager.aborted then b
    else
      match e
      case ClientJoins(id, session) => b.(manager := AddSession(b.manager, id, CLIENT, session))
      case Connects(address, sid, found, id, session) => Connected(b, address, sid, found, id, session)
      case Disconnects(uuid) => b.(kernel := K.Remove(b.kernel, uuid))
      case Leaves(uuid) => b.(manager := RemoveSession(b.manager, uuid))
      case Asks(id, packet) => ClientMsg(b, id, packet)
      case Replies(packet) => CentralMsg(b, packet)
      case Steps(id, event, packets) => b.(manager := Elsewhere(b.manager, id, event, packets))
  }

  ghost predicate AllAllowed(b: Balance, es: seq<BalanceEvent>)
    decreases |es|
  {
    es == [] || (Allowed(b, es[0]) && AllAllowed(BalanceNext(b, es[0]), es[1..]))
  }

  function BalanceRun(b: Balance, es: seq<BalanceEvent>): Balance
    requires AllAllowed(b, es)
    decreases |es|
  {
    if es == [] then b else BalanceRun(BalanceNext(b, es[0]), es[1..])
  }

  function EmptyBalance(): Balance {
    Balance(EmptyManager(), K.EmptyKernel(), [])
  }

  /// Every run of the balance server is a run of its session manager and a run of its service table

  /** The event that the session manager sees, if any. */
  function ManagerPart(b: Balance, e: BalanceEvent): seq<ManagerEvent>
    requires Allowed(b, e)
  {
    match e
    case ClientJoins(id, session) => [Add(id, CLIENT, session)]
    case Connects(address, sid, found, id, session) =>
      if K.Creates(sid, found) then [Add(id, ConnectorKind(address), session)] else []
    case Disconnects(_) => []
    case Leaves(uuid) => [Remove(uuid)]
    case Asks(id, packet) =>
      if !Transit(packet) || Central(b).None? then []
      else [SendTo(Central(b), Stamped(packet, b.manager.peers[id].uuid), CLIENT)]
    case Replies(packet) => if !Transit(packet) then [] else [SendToUuid(packet.header.extraID, packet, CLIENT)]
    case Steps(id, event, packets) => [Step(id, event, packets)]
  }

  function ManagerEvents(b: Balance, es: seq<BalanceEvent>): seq<ManagerEvent>
    requires AllAllowed(b, es)
    decreases |es|
  {
    if es == [] then [] else ManagerPart(b, es[0]) + ManagerEvents(BalanceNext(b, es[0]), es[1..])
  }

  /** The event that the service table sees, if any. */
  function KernelPart(b: Balance, e: BalanceEvent): seq<K.KernelEvent> {
    if b.manager.aborted then []
    else
      match e
      case Connects(address, sid, found, id, _) =>
        [K.Adding(address, sid, found, Connector(address, id), NextUuid(b.manager))]
      case Disconnects(uuid) => [K.Removing(uuid)]
      case _ => []
  }

  function KernelEvents(b: Balance, es: seq<BalanceEvent>): seq<K.KernelEvent>
    requires AllAllowed(b, es)
    decreases |es|
  {
    if es == [] then [] else KernelPart(b, es[0]) + KernelEvents(BalanceNext(b, es[0]), es[1..])
  }

  /** Every forwarded request carries the index of the client that sent it. */
  ghost predicate Traceable(b: Balance) {
    forall i :: 0 <= i < |b.asked| ==>
      b.asked[i].client in b.manager.peers
      && b.asked[i].packet.header.extraID == b.manager.peers[b.asked[i].client].uuid
  }

  /** The session is one of the manager's. */
  ghost predicate Managed(m: Manager, r: K.SessionRef) {
    r.id in m.peers && m.peers[r.id].kind == r.kind
  }

  /** The table holds sessions of the manager under their indices, and so does the cache. */
  ghost predicate Tied(m: Manager, k: K.Kernel) {
    && (forall u :: u in k.services ==>
          Managed(m, k.services[u].session) && m.peers[k.services[u].session.id].uuid == u)
    && (k.central.Some? ==> Managed(m, k.central.value))
    && K.CentralKind(k)
  }

  /** No index has been given to two sessions. */
  ghost predicate DistinctUuids(m: Manager) {
    forall a, b :: a in m.peers && b in m.peers && a != b ==> m.peers[a].uuid != m.peers[b].uuid
  }

  /** As long as no index has been given to two sessions, the cached session is one of the table. */
  ghost predicate BalanceInv(b: Balance) {
    && ManagerInv(b.manager)
    && Traceable(b)
    && Tied(b.manager, b.kernel)
    && (DistinctUuids(b.manager) ==> K.CacheSound(b.kernel))
  }

  /** No step of the manager forgets a session or changes its index or its type. */
  ghost predicate KeepsIdentities(m: Manager, n: Manager) {
    forall id :: id in m.peers ==>
      id in n.peers && n.peers[id].uuid == m.peers[id].uuid && n.peers[id].kind == m.peers[id].kind
  }

  lemma NextKeepsIdentities(m: Manager, e: ManagerEvent)
    requires ManagerInv(m) && Proper(m, e)
    ensures KeepsIdentities(m, ManagerNext(m, e))
  {
    hide ManagerNext, ManagerInv;
    var n := ManagerNext(m, e);
    forall id | id in m.peers
      ensures id in n.peers && n.peers[id].uuid == m.peers[id].uuid && n.peers[id].kind == m.peers[id].kind
    {
      NextHoldsIff(m, e, id);
    }
  }

  lemma BalanceStep(b: Balance, e: BalanceEvent)
    requires Allowed(b, e)
    ensures
      var part := ManagerPart(b, e);
      && |part| <= 1
      && (part == [] ==> BalanceNext(b, e).manager == b.manager)
      && (part != [] ==> Proper(b.manager, part[0]) && BalanceNext(b, e).manager == ManagerNext(b.manager, part[0]))
    ensures
      var part := KernelPart(b, e);
      && |part| <= 1
      && (part == [] ==> BalanceNext(b, e).kernel == b.kernel)
      && (part != [] ==> K.Possible(b.kernel, part[0]) && BalanceNext(b, e).kernel == K.KernelNext(b.kernel, part[0]))
  {
  }

  /** What has been recorded stays true while sessions keep their identities. */
  lemma IdentitiesSuffice(b: Balance, n: Manager)
    requires Traceable(b) && Tied(b.manager, b.kernel) && KeepsIdentities(b.manager, n)
    requires DistinctUuids(b.manager) ==> K.CacheSound(b.kernel)
    ensures Traceable(b.(manager := n)) && Tied(n, b.kernel)
    ensures DistinctUuids(n) ==> DistinctUuids(b.manager) && K.CacheSound(b.kernel)
  {
  }

  /** A new entry of the table: its index is in use only if it has been given to another session before. */
  lemma ConnectKeepsTie(m: Manager, n: Manager, k: K.Kernel, address: K.Address, sid: int32, found: Option<int32>,
                        id: PeerId)
    requires Tied(m, k) && Tied(n, k) && K.Finds(k.services, address, found)
    requires K.Creates(sid, found) ==>
               id !in m.peers && Managed(n, Connector(address, id)) && n.peers[id].uuid == NextUuid(m)
    requires DistinctUuids(n) ==> K.CacheSound(k)
    ensures
      var after := K.Add(k, address, sid, found, Connector(address, id), NextUuid(m));
      Tied(n, after) && (DistinctUuids(n) ==> K.CacheSound(after))
  {
    var r, uuid := Connector(address, id), NextUuid(m);
    K.NextKeepsCache(k, K.Adding(address, sid, found, r, uuid));
    if K.Creates(sid, found) && uuid in k.services {
      var other := k.services[uuid].session.id;
      assert other in m.peers && other != id;
      assert n.peers[other].uuid == n.peers[id].uuid;
    } else if DistinctUuids(n) {
      K.AddKeepsSoundIff(k, address, sid, found, r, uuid);
    }
  }

  lemma DisconnectKeepsTie(m: Manager, k: K.Kernel, uuid: int32)
    requires Tied(m, k)
    ensures Tied(m, K.Remove(k, uuid)) && (K.CacheSound(k) ==> K.CacheSound(K.Remove(k, uuid)))
  {
    K.RemoveKeepsCache(k, uuid);
  }

  lemma BalanceNextInv(b: Balance, e: BalanceEvent)
    requires BalanceInv(b) && Allowed(b, e)
    ensures BalanceInv(BalanceNext(b, e))
  {
    hide ManagerInv, SendMsg, SendMsgToUuid, RemoveSession, AddSession, Elsewhere, ManagerNext, Tied, DistinctUuids,
         K.CacheSound, K.Finds, K.Add, K.Remove, Sized, Proper;
    if !b.manager.aborted {
      BalanceStep(b, e);
      var part, n := ManagerPart(b, e), BalanceNext(b, e).manager;
      if part != [] {
        NextKeepsInv(b.manager, part[0]);
        NextKeepsIdentities(b.manager, part[0]);
      }
      IdentitiesSuffice(b, n);
      match e
      case Connects(address, sid, found, id, session) =>
        if K.Creates(sid, found) {
          JoinedSession(b.manager, id, ConnectorKind(address), session);
        }
        ConnectKeepsTie(b.manager, n, b.kernel, address, sid, found, id);
      case Disconnects(uuid) => DisconnectKeepsTie(b.manager, b.kernel, uuid);
      case Asks(id, packet) => AskedTraceable(b, n, id, packet);
      case _ =>
    }
  }

  lemma JoinedSession(m: Manager, id: PeerId, kind: byte, session: Session)
    requires ManagerInv(m) && Proper(m, Add(id, kind, session)) && !m.aborted
    ensures
      var n := ManagerNext(m, Add(id, kind, session));
      && n == AddSession(m, id, kind, session) && !n.aborted
      && id !in m.peers && id in n.peers && n.peers[id].kind == kind && n.peers[id].uuid == NextUuid(m)
  {
    hide Unsent;
    AddKeepsInv(m, id, kind, session);
  }

  lemma AskedTraceable(b: Balance, n: Manager, id: PeerId, packet: Packet)
    requires Traceable(b.(manager := n)) && id in b.manager.peers && KeepsIdentities(b.manager, n)
    ensures Traceable(Balance(n, b.kernel, b.asked + [Request(id, Stamped(packet, b.manager.peers[id].uuid))]))
  {
  }

  /** The sessions that join: clients, and connectors for new entries of the table. */
  function Joins(es: seq<BalanceEvent>): nat
    decreases |es|
  {
    if es == [] then 0
    else
      var e := es[0];
      (if e.ClientJoins? || (e.Connects? && K.Creates(e.sid, e.found)) then 1 else 0) + Joins(es[1..])
  }

  /** So whatever holds over every run of the manager or of the table holds over every run of the balance
      server. */
  lemma {:induction false} RunIsManagerRun(b: Balance, es: seq<BalanceEvent>)
    requires BalanceInv(b) && AllAllowed(b, es)
    ensures BalanceInv(BalanceRun(b, es))
    ensures AllProper(b.manager, ManagerEvents(b, es)) && Adds(ManagerEvents(b, es)) == Joins(es)
    ensures BalanceRun(b, es).manager == ManagerRun(b.manager, ManagerEvents(b, es))
    decreases |es|
  {
    hide BalanceInv, ManagerNext, BalanceNext, Proper, Allowed;
    if es != [] {
      BalanceNextInv(b, es[0]);
      BalanceStep(b, es[0]);
      var part, later := ManagerPart(b, es[0]), ManagerEvents(BalanceNext(b, es[0]), es[1..]);
      RunIsManagerRun(BalanceNext(b, es[0]), es[1..]);
      if part == [] {
        assert part + later == later;
      } else {
        assert part + later == [part[0]] + later;
        assert (part + later)[1..] == later;
      }
    }
  }

  lemma {:induction false} RunIsKernelRun(b: Balance, es: seq<BalanceEvent>)
    requires AllAllowed(b, es)
    ensures K.AllPossible(b.kernel, KernelEvents(b, es))
    ensures BalanceRun(b, es).kernel == K.KernelRun(b.kernel, KernelEvents(b, es))
    decreases |es|
  {
    hide BalanceNext, Allowed;
    if es != [] {
      BalanceStep(b, es[0]);
      var part, later := KernelPart(b, es[0]), KernelEvents(BalanceNext(b, es[0]), es[1..]);
      RunIsKernelRun(BalanceNext(b, es[0]), es[1..]);
      if part == [] {
        assert part + later == later;
      } else {
        assert part + later == [part[0]] + later;
        assert (part + later)[1..] == later;
      }
    }
  }

  lemma ReachableInv(es: seq<BalanceEvent>)
    requires AllAllowed(EmptyBalance(), es)
    ensures BalanceInv(BalanceRun(EmptyBalance(), es))
  {
    assert BalanceInv(EmptyBalance());
    RunIsManagerRun(EmptyBalance(), es);
  }

  /** Over every run a client holds its index until somebody removes that index or is given it. */
  lemma ClientHoldsIff(b: Balance, es: seq<BalanceEvent>, client: PeerId)
    requires BalanceInv(b) && AllAllowed(b, es) && client in b.manager.peers
    ensures
      Holds(BalanceRun(b, es).manager, client) <==>
        Holds(b.manager, client) && NeverEvicted(b.manager, ManagerEvents(b, es), b.manager.peers[client].uuid)
  {
    RunIsManagerRun(b, es);
    RunHoldsIff(b.manager, ManagerEvents(b, es), client);
  }

  /** The event ends the server: an answer with a stamp above the array, or a message of the range with a
      negative size that somebody would get. */
  ghost predicate Fatal(b: Balance, e: BalanceEvent) {
    match e
    case Asks(_, packet) => Transit(packet) && Central(b).Some? && packet.header.size < 0
    case Replies(packet) =>
      && Transit(packet)
      && (|| packet.header.extraID > MAX_NUM
          || (packet.header.size < 0 && Reaches(b.manager, Audience(b.manager, packet.header.extraID, CLIENT))))
    case _ => false
  }

  ghost predicate EverFatal(b: Balance, es: seq<BalanceEvent>)
    requires AllAllowed(b, es)
    decreases |es|
  {
    es != [] && (Fatal(b, es[0]) || EverFatal(BalanceNext(b, es[0]), es[1..]))
  }

  lemma StepAbortsIff(b: Balance, e: BalanceEvent)
    requires BalanceInv(b) && Allowed(b, e)
    ensures BalanceNext(b, e).manager.aborted <==> b.manager.aborted || Fatal(b, e)
  {
    hide ManagerNext, BalanceNext, ManagerInv, OfKind;
    BalanceStep(b, e);
    if ManagerPart(b, e) != [] {
      NextAbortsIff(b.manager, ManagerPart(b, e)[0]);
      if e.Asks? {
        assert Central(b).value in Targets(b.manager, Central(b), CLIENT);
      }
    }
  }

  /** The server ends if and only if one of the events is fatal. */
  lemma {:induction false} AbortsIffFatal(b: Balance, es: seq<BalanceEvent>)
    requires BalanceInv(b) && AllAllowed(b, es) && !b.manager.aborted
    ensures BalanceRun(b, es).manager.aborted <==> EverFatal(b, es)
    decreases |es|
  {
    hide BalanceInv, Fatal, BalanceNext, Allowed;
    if es != [] {
      StepAbortsIff(b, es[0]);
      BalanceNextInv(b, es[0]);
      if BalanceNext(b, es[0]).manager.aborted {
        DeadForGood(BalanceNext(b, es[0]), es[1..]);
      } else {
        AbortsIffFatal(BalanceNext(b, es[0]), es[1..]);
      }
    }
  }

  lemma {:induction false} DeadForGood(b: Balance, es: seq<BalanceEvent>)
    requires AllAllowed(b, es) && b.manager.aborted
    ensures BalanceRun(b, es) == b
    decreases |es|
  {
    if es != [] {
      DeadForGood(b, es[1..]);
    }
  }

  /// Where replies go

  /** A session that is in the pool. */
  predicate Registered(m: Manager, id: PeerId) {
    id in m.pool.objects
  }

  /** Whether the central server's answer to a request reaches the client that asked, and no one else. */
  ghost predicate ReachesOnlyItsClient(b: Balance, i: nat, packet: Packet)
    requires i < |b.asked|
  {
    Receivers(b.manager, CentralMsg(b, packet).manager, iset{b.asked[i].client}, packet)
  }

  /** The central server's packet carries the stamp of the request. */
  predicate Answers(packet: Packet, request: Request) {
    packet.header.extraID == request.packet.header.extraID
  }

  lemma StampFindsClient(b: Balance, i: nat)
    requires BalanceInv(b) && i < |b.asked|
    ensures
      var stamp, client := b.asked[i].packet.header.extraID, b.asked[i].client;
      && stamp <= MAX_NUM && client in b.manager.peers
      && (GetSession(b.manager, stamp) == Some(client) <==> Holds(b.manager, client))
  {
    assert b.asked[i].client in b.manager.peers;
  }

  /** In every run, for any number of clients that come and go and any answers of the central server: a
      reply with the stamp of a request passes the assertion and goes exactly to whoever the stamp leads
      to, or to every registered client if it leads to nobody. It reaches the client that asked and no
      one else if and only if that client still holds its index, or the index leads to nobody and it is
      the only registered client. */
  lemma ReplyRouting(es: seq<BalanceEvent>, i: nat, packet: Packet)
    requires AllAllowed(EmptyBalance(), es) && Transit(packet)
    requires
      var b := BalanceRun(EmptyBalance(), es);
      !b.manager.aborted && i < |b.asked| && Answers(packet, b.asked[i])
    ensures
      var b := BalanceRun(EmptyBalance(), es);
      var m, n, client, stamp := b.manager, CentralMsg(b, packet).manager, b.asked[i].client, packet.header.extraID;
      && stamp <= MAX_NUM && client in m.peers
      && Outcome(m, n, Audience(m, stamp, CLIENT), packet)
      && (packet.header.size >= 0 ==>
            && (forall id :: id in m.peers && id in Audience(m, stamp, CLIENT) ==>
                  id in n.peers && Gets(m.peers[id], n.peers[id], packet))
            && (ReachesOnlyItsClient(b, i, packet) <==>
                Holds(m, client) || (GetSession(m, stamp) == None && OfKind(m, 0) == iset{client})))
  {
    hide BalanceRun, AllAllowed, ReachesOnlyItsClient, CentralMsg, Holds, Receivers, Gets, AllFramed, Audience,
         Tied, DistinctUuids, K.CacheSound, Traceable;
    ReachableInv(es);
    var b := BalanceRun(EmptyBalance(), es);
    RouteReply(b, i, packet);
    if packet.header.size >= 0 {
      var m, n := b.manager, CentralMsg(b, packet).manager;
      ReceiversGet(m, n, Audience(m, packet.header.extraID, CLIENT), packet);
    }
  }

  lemma RouteReply(b: Balance, i: nat, packet: Packet)
    requires BalanceInv(b) && !b.manager.aborted && Transit(packet)
    requires i < |b.asked| && Answers(packet, b.asked[i])
    ensures
      var m, n, client, stamp := b.manager, CentralMsg(b, packet).manager, b.asked[i].client, packet.header.extraID;
      && stamp <= MAX_NUM && client in m.peers
      && Outcome(m, n, Audience(m, stamp, CLIENT), packet)
      && (packet.header.size >= 0 ==>
            (ReachesOnlyItsClient(b, i, packet) <==>
             Holds(m, client) || (GetSession(m, stamp) == None && OfKind(m, CLIENT) == iset{client})))
  {
    hide Receivers, SendMsg, Holds, ManagerInv, OfKind, GetSession, Tied, DistinctUuids, K.CacheSound;
    var m, client, stamp := b.manager, b.asked[i].client, packet.header.extraID;
    StampFindsClient(b, i);
    SendReachesAudience(m, stamp, packet);
    var n := CentralMsg(b, packet).manager;
    if packet.header.size >= 0 {
      ReceiversAreUnique(m, n, Audience(m, stamp, CLIENT), iset{client}, packet);
      AudienceAmongPeers(m, stamp);
      AudienceIs(m, stamp, client);
      assert forall id :: id in Audience(m, stamp, CLIENT) || id in iset{client} ==> id in m.peers;
    }
  }

  lemma SendReachesAudience(m: Manager, stamp: int32, packet: Packet)
    requires ManagerInv(m) && !m.aborted && stamp <= MAX_NUM
    ensures Outcome(m, SendMsgToUuid(m, stamp, packet, CLIENT), Audience(m, stamp, CLIENT), packet)
  {
    hide Outcome, SendMsg, OfKind;
    SendToUuidReaches(m, stamp, packet, CLIENT);
  }

  lemma AudienceAmongPeers(m: Manager, stamp: int32)
    requires ManagerInv(m) && stamp <= MAX_NUM
    ensures forall id :: id in Audience(m, stamp, CLIENT) ==> id in m.peers
  {
  }

  lemma AudienceIs(m: Manager, stamp: int32, client: PeerId)
    requires stamp <= MAX_NUM
    ensures Audience(m, stamp, CLIENT) == iset{client} <==>
            GetSession(m, stamp) == Some(client) || (GetSession(m, stamp) == None && OfKind(m, CLIENT) == iset{client})
  {
    var x := GetSession(m, stamp);
    if x.Some? && x.value != client {
      assert x.value in Audience(m, stamp, CLIENT) && x.value !in iset{client};
    }
  }

  /** While no more than 10001 sessions have joined, the client that asked and no one else gets the reply
      if it is still registered; otherwise every registered client gets it, and the one that asked does not. */
  lemma ReplyRoutingWhileCounterLasts(es: seq<BalanceEvent>, i: nat, packet: Packet)
    requires AllAllowed(EmptyBalance(), es) && Joins(es) <= MAX_NUM + 1 && Transit(packet)
    requires
      var b := BalanceRun(EmptyBalance(), es);
      !b.manager.aborted && i < |b.asked| && Answers(packet, b.asked[i])
    ensures
      var b := BalanceRun(EmptyBalance(), es);
      var m, n, client := b.manager, CentralMsg(b, packet).manager, b.asked[i].client;
      if Registered(m, client) then Outcome(m, n, iset{client}, packet)
      else Outcome(m, n, OfKind(m, CLIENT), packet) && client !in OfKind(m, CLIENT)
  {
    hide BalanceRun, AllAllowed, Outcome, CentralMsg, ManagerInv, Holds, Unreused, Tied, DistinctUuids, K.CacheSound;
    ReachableInv(es);
    ReachableUnreused(es);
    var b := BalanceRun(EmptyBalance(), es);
    var m, client, stamp := b.manager, b.asked[i].client, packet.header.extraID;
    RouteReply(b, i, packet);
    StampFindsClient(b, i);
    RegisteredIffHolds(m, client);
    if !Registered(m, client) {
      StrangerCannotHold(m, client);
    }
  }

  lemma ReachableUnreused(es: seq<BalanceEvent>)
    requires AllAllowed(EmptyBalance(), es) && Joins(es) <= MAX_NUM + 1
    ensures Unreused(BalanceRun(EmptyBalance(), es).manager)
  {
    hide AllProper, AllAllowed, ManagerRun, BalanceRun;
    assert BalanceInv(EmptyBalance());
    RunIsManagerRun(EmptyBalance(), es);
    RunKeepsUnreused(EmptyManager(), ManagerEvents(EmptyBalance(), es));
  }

  /** Without reuse the index of a session that has left leads to nobody. */
  lemma StrangerCannotHold(m: Manager, client: PeerId)
    requires ManagerInv(m) && Unreused(m) && client in m.peers && !Holds(m, client)
    ensures m.peers[client].uuid <= MAX_NUM && GetSession(m, m.peers[client].uuid) == None
  {
  }

  /** After that, a reply can reach a stranger: whoever joins next and is given the index of a request gets
      the reply to it, and the client that asked gets nothing. */
  lemma StaleReplyReachesNewOwner(b: Balance, i: nat, id: PeerId, session: Session, packet: Packet)
    requires BalanceInv(b) && !b.manager.aborted && i < |b.asked| && Allowed(b, ClientJoins(id, session))
    requires Transit(packet) && Answers(packet, b.asked[i]) && NextUuid(b.manager) == packet.header.extraID >= 0
    ensures
      var c := BalanceNext(b, ClientJoins(id, session));
      && id != b.asked[i].client
      && Outcome(c.manager, CentralMsg(c, packet).manager, iset{id}, packet)
  {
    hide Outcome, SendMsg, Unsent, ManagerInv, Tied, DistinctUuids, K.CacheSound;
    var c := BalanceNext(b, ClientJoins(id, session));
    BalanceNextInv(b, ClientJoins(id, session));
    AddKeepsInv(b.manager, id, CLIENT, session);
    RouteReply(c, i, packet);
    assert Audience(c.manager, packet.header.extraID, CLIENT) == iset{id};
  }

  /// Where requests go

  /** A request goes to the central session, which is there to get it, and to no one else, stamped with
      the index of its sender. */
  lemma RequestRouting(es: seq<BalanceEvent>, client: PeerId, packet: Packet)
    requires AllAllowed(EmptyBalance(), es) && Transit(packet)
    requires
      var b := BalanceRun(EmptyBalance(), es);
      client in b.manager.peers && Central(b).Some? && !b.manager.aborted
    ensures
      var b := BalanceRun(EmptyBalance(), es);
      var forwarded := Stamped(packet, b.manager.peers[client].uuid);
      var n, central := ClientMsg(b, client, packet).manager, Central(b).value;
      && central in b.manager.peers && b.manager.peers[central].kind == CENTRAL_SERVER
      && Outcome(b.manager, n, iset{central}, forwarded)
      && (packet.header.size >= 0 ==>
            central in n.peers && Gets(b.manager.peers[central], n.peers[central], forwarded))
  {
    hide BalanceRun, AllAllowed, Outcome, SendMsg, Gets;
    ReachableInv(es);
    var b := BalanceRun(EmptyBalance(), es);
    var forwarded := Stamped(packet, b.manager.peers[client].uuid);
    SendMsgEffect(b.manager, Central(b), forwarded, CLIENT);
    if packet.header.size >= 0 {
      SendMsgHandsOver(b.manager, Central(b), forwarded, CLIENT, Central(b).value);
    }
  }

  /** Messages with a type from 17000 to 17500 pass between clients and the central server, and no others:
      a request changes something if and only if its type is one of these and there is a central session. */
  lemma PassesRangeOnly(b: Balance, client: PeerId, packet: Packet)
    requires client in b.manager.peers
    ensures ClientMsg(b, client, packet) != b <==> 17000 <= packet.header.kind <= 17500 && Central(b).Some?
    ensures packet.header.kind < 17000 || packet.header.kind > 17500 ==> CentralMsg(b, packet) == b
    ensures 17000 <= packet.header.kind <= 17500 && packet.header.extraID > 10000 ==>
              CentralMsg(b, packet).manager.aborted
  {
    if Transit(packet) && Central(b).Some? {
      assert |ClientMsg(b, client, packet).asked| == |b.asked| + 1;
    }
  }

  /** A new connection to a service of type 5 is the central session from then on. */
  lemma CentralIsTypeFive(b: Balance, address: K.Address, sid: int32, found: Option<int32>, id: PeerId,
                          session: Session)
    requires !b.manager.aborted && Allowed(b, Connects(address, sid, found, id, session)) && K.Creates(sid, found)
    ensures
      var c := BalanceNext(b, Connects(address, sid, found, id, session));
      if address.kind == 5 then Central(c) == Some(id)
      else 0 <= address.kind < 0x100 ==> Central(c) == Central(b)
  {
  }

  /** Over every run: while no index has been given to two sessions, the central session that gets the
      requests is one of the table; and then requests are forwarded exactly when the table has a central
      entry if and only if every loss of the cached session has been healed. */
  lemma RequestsForwardedIff(es: seq<BalanceEvent>)
    requires AllAllowed(EmptyBalance(), es)
    ensures
      var b := BalanceRun(EmptyBalance(), es);
      && K.AllPossible(K.EmptyKernel(), KernelEvents(EmptyBalance(), es))
      && (DistinctUuids(b.manager) ==>
            && K.CacheSound(b.kernel)
            && ((Central(b).Some? <==> exists u :: K.IsCentral(b.kernel.services, u)) <==>
                K.EveryLossHealed(K.EmptyKernel(), KernelEvents(EmptyBalance(), es))))
  {
    hide BalanceRun, AllAllowed, KernelEvents, K.AllPossible, K.EveryLossHealed, K.KernelRun;
    ReachableInv(es);
    RunIsKernelRun(EmptyBalance(), es);
    K.RunKeepsComplete(K.EmptyKernel(), KernelEvents(EmptyBalance(), es));
  }

  /** With at most 10001 joins no index has been given to two sessions. */
  lemma DistinctWhileCounterLasts(es: seq<BalanceEvent>)
    requires AllAllowed(EmptyBalance(), es) && Joins(es) <= MAX_NUM + 1
    ensures DistinctUuids(BalanceRun(EmptyBalance(), es).manager)
  {
    hide AllAllowed, BalanceRun;
    ReachableUnreused(es);
  }

  /// The server

  class BalanceServer {
    const manager: TCPSessionManager
    const kernel: K.BSKernel
    ghost var asked: seq<Request>

    ghost function AsBalance(): Balance
      reads this, manager, kernel
    {
      Balance(manager.AsManager(), kernel.AsKernel(), asked)
    }

    /** Streams are whole packets, every request forwarded so far leads back to its client, the table holds
        sessions of the manager, and the cached session is one of the table while indices are distinct. */
    ghost predicate Valid()
      reads this, manager, kernel
    {
      BalanceInv(AsBalance())
    }

    constructor ()
      ensures Valid() && fresh(manager) && fresh(kernel) && AsBalance() == EmptyBalance()
    {
      manager := new TCPSessionManager();
      kernel := new K.BSKernel();
      asked := [];
    }

    /** `addNewConnect`, with the session that `createConnector` would create. Afterwards a central session
        is cached if one was reported. */
    method AddNewConnect(address: K.Address, sid: int32, id: PeerId, session: Session)
      requires Valid() && !manager.aborted && id !in manager.peers && Unsent(session)
      modifies manager, kernel
      ensures Valid() && !manager.aborted
      ensures exists found ::
                && Allowed(old(AsBalance()), Connects(address, sid, found, id, session))
                && AsBalance() == BalanceNext(old(AsBalance()), Connects(address, sid, found, id, session))
      ensures ConnectorKind(address) == CENTRAL_SERVER && sid == K.INVALID_UUID ==> Central(AsBalance()) == Some(id)
      ensures old(K.CacheComplete(kernel.AsKernel())) ==> K.CacheComplete(kernel.AsKernel())
    {
      hide ManagerInv, Tied, DistinctUuids, K.CacheSound, AddSession, Unsent, Traceable, K.CacheComplete, NextUuid;
      ghost var b := AsBalance();
      var known := kernel.CheckConnectService(address);
      ghost var found := if known == K.INVALID_UUID then None else Some(known);
      ghost var e := Connects(address, sid, found, id, session);
      assert Allowed(b, e);
      BalanceNextInv(b, e);
      K.AddKeepsCache(b.kernel, address, sid, found, Connector(address, id), NextUuid(b.manager));
      if known == K.INVALID_UUID || sid == K.INVALID_UUID {
        JoinedSession(b.manager, id, ConnectorKind(address), session);
        manager.Add(id, ConnectorKind(address), session);
        kernel.Insert(address, sid, K.SessionRef(id, ConnectorKind(address)), manager.peers[id].uuid);
      } else {
        kernel.Reassign(known, sid);
      }
      assert AsBalance() == BalanceNext(b, e);
    }

    /** `removeServiceSession`: a complete cache stays complete exactly unless this loses it. */
    method RemoveServiceSession(uuid: int32)
      requires Valid() && !manager.aborted
      modifies kernel
      ensures Valid() && AsBalance() == BalanceNext(old(AsBalance()), Disconnects(uuid))
      ensures old(K.CacheComplete(kernel.AsKernel())) ==>
                (K.CacheComplete(kernel.AsKernel()) <==> !old(K.LosesCache(kernel.AsKernel(), uuid)))
    {
      hide ManagerInv, Tied, Traceable, DistinctUuids, K.CacheSound, K.CacheComplete, K.LosesCache, K.Represents;
      BalanceNextInv(AsBalance(), Disconnects(uuid));
      kernel.RemoveServiceSession(uuid);
    }

    /** The central session gets the packet and no one else does; without one nobody does. */
    method TransToCS(packet: Packet)
      requires Valid() && !manager.aborted && Sized(packet)
      modifies manager
      ensures Valid()
      ensures Central(AsBalance()).Some? ==>
                && manager.AsManager() == SendMsg(old(manager.AsManager()), Central(AsBalance()), packet, CLIENT)
                && Central(AsBalance()).value in manager.peers
                && Outcome(old(manager.AsManager()), manager.AsManager(), iset{Central(AsBalance()).value}, packet)
      ensures Central(AsBalance()).None? ==> manager.AsManager() == old(manager.AsManager())
    {
      hide SendMsg, ManagerInv, Outcome, Tied, DistinctUuids, K.CacheSound, Traceable;
      var central := kernel.centralSession;
      ghost var b := AsBalance();
      CentralIsThere(b);
      if central.Some? {
        manager.SendMsg(Some(central.value.id), packet, CLIENT);
        SentKeepsInv(b, manager.AsManager(), iset{central.value.id}, packet);
      }
    }

    /** Whoever the stamp leads to gets the packet, or every registered client; a stamp above the array
        fails the assertion, and nobody gets anything. */
    method TransToClient(packet: Packet)
      requires Valid() && !manager.aborted && Sized(packet)
      modifies manager
      ensures Valid()
      ensures manager.AsManager() ==
              SendMsgToUuid(old(manager.AsManager()), packet.header.extraID, packet, CLIENT)
      ensures if packet.header.extraID > MAX_NUM then manager.AsManager() == old(manager.AsManager()).(aborted := true)
              else Outcome(old(manager.AsManager()), manager.AsManager(),
                           Audience(old(manager.AsManager()), packet.header.extraID, CLIENT), packet)
    {
      hide SendMsg, ManagerInv, Outcome, Tied, DistinctUuids, K.CacheSound, Traceable, OfKind;
      ghost var b := AsBalance();
      manager.SendMsgToUuid(packet.header.extraID, packet, CLIENT);
      if packet.header.extraID > MAX_NUM {
        IdentitiesSuffice(b, manager.AsManager());
      } else {
        SentKeepsInv(b, manager.AsManager(), Audience(b.manager, packet.header.extraID, CLIENT), packet);
      }
    }

    /** `CBSession::handlerMsg`: the header is copied and its extra id overwritten, so that the request
        is on record as one of this client. */
    method HandleClientMsg(client: PeerId, packet: Packet) returns (handled: bool)
      requires Valid() && !manager.aborted && client in manager.peers && Sized(packet)
      modifies this`asked, manager
      ensures Valid()
      ensures AsBalance() == ClientMsg(old(AsBalance()), client, packet) && !handled
      ensures manager.aborted <==> old(Fatal(AsBalance(), Asks(client, packet)))
      ensures Transit(packet) && Central(AsBalance()).Some? ==>
                var forwarded := Stamped(packet, old(manager.peers[client].uuid));
                && Central(AsBalance()).value in manager.peers
                && Outcome(old(manager.AsManager()), manager.AsManager(), iset{Central(AsBalance()).value}, forwarded)
                && asked == old(asked) + [Request(client, forwarded)]
    {
      hide SendMsg, ManagerInv, Outcome, Tied, DistinctUuids, K.CacheSound, OfKind, Reaches;
      ghost var b := AsBalance();
      StepAbortsIff(b, Asks(client, packet));
      if TRANS_BEGIN <= packet.header.kind <= TRANS_END {
        var h := packet.header.(extraID := manager.peers[client].uuid);
        if kernel.centralSession.Some? {
          asked := asked + [Request(client, Packet(h, packet.body))];
        }
        TransToCS(Packet(h, packet.body));
      }
      handled := false;
    }

    /** `B2CSession::handlerMsg`: an answer to a request on record passes the assertion, and reaches the
        client that asked and no one else if that client still holds its index. */
    method HandleCentralMsg(packet: Packet) returns (handled: bool)
      requires Valid() && !manager.aborted && Sized(packet)
      modifies manager
      ensures Valid()
      ensures AsBalance() == CentralMsg(old(AsBalance()), packet) && handled
      ensures manager.aborted <==> old(Fatal(AsBalance(), Replies(packet)))
      ensures forall i :: 0 <= i < |asked| && Transit(packet) && Answers(packet, asked[i]) ==>
                && packet.header.extraID <= MAX_NUM
                && (Holds(old(manager.AsManager()), asked[i].client) && packet.header.size >= 0 ==>
                      Receivers(old(manager.AsManager()), manager.AsManager(), iset{asked[i].client}, packet))
    {
      hide Receivers, Outcome, SendMsg, Audience, ManagerInv, Holds, Tied, DistinctUuids, K.CacheSound, Reaches;
      ghost var b := AsBalance();
      StepAbortsIff(b, Replies(packet));
      if TRANS_BEGIN <= packet.header.kind <= TRANS_END {
        TransToClient(packet);
        forall i | 0 <= i < |asked| && Answers(packet, asked[i])
          ensures
            && packet.header.extraID <= MAX_NUM
            && (Holds(b.manager, asked[i].client) && packet.header.size >= 0 ==> ReachesOnlyItsClient(b, i, packet))
        {
          RouteReply(b, i, packet);
        }
      }
      handled := true;
    }
  }

  lemma CentralIsThere(b: Balance)
    requires BalanceInv(b)
    ensures Central(b).Some? ==>
              Central(b).value in b.manager.peers && b.manager.peers[Central(b).value].kind == CENTRAL_SERVER
  {
  }

  lemma SentKeepsInv(b: Balance, n: Manager, ids: iset<PeerId>, packet: Packet)
    requires BalanceInv(b) && ManagerInv(n) && Outcome(b.manager, n, ids, packet)
    ensures BalanceInv(b.(manager := n)) && b.manager.peers.Keys == n.peers.Keys
  {
    hide Outcome, ManagerInv;
    OutcomeKeepsIdentities(b.manager, n, ids, packet);
    IdentitiesSuffice(b, n);
  }
}
