/** The session manager: a pool of sessions, and packets sent to one of them or to all of a type. */
module SessionManagers {
  import opened Bytes
  import opened Framing
  import opened IndexPools
  import opened SessionSpec

  type PeerId = nat

  /** A session object: its type, its index, its state, and the packets sent through it so far. */
  datatype Peer = Peer(kind: byte, uuid: int32, session: Session, packets: seq<Packet>)

  /** `aborted`: an assertion has failed or a length was negative, and the process does nothing any more. */
  datatype Manager = Manager(pool: Pool<PeerId>, peers: map<PeerId, Peer>, aborted: bool)

  /** `addMore` of the header, then `send` of the body. */
  function Deliver(p: Peer, packet: Packet): Peer {
    var s := DoCall(p.session, AddMore(HeaderBytes(packet.header)));
    p.(session := DoCall(s, Send(packet.body)), packets := p.packets + [packet])
  }

  /** A negative size becomes a huge length, which no buffer can be made to hold. */
  function SendOne(m: Manager, id: PeerId, packet: Packet): Manager {
    if m.aborted || id !in m.peers then m
    else if packet.header.size < 0 then m.(aborted := true)
    else m.(peers := m.peers[id := Deliver(m.peers[id], packet)])
  }

  /** The walk through the list of objects. */
  function Broadcast(m: Manager, ids: seq<PeerId>, packet: Packet, kind: byte): Manager
    decreases |ids|
  {
    if ids == [] then m
    else
      var n := Broadcast(m, ids[..|ids| - 1], packet, kind);
      var id := ids[|ids| - 1];
      if id in n.peers && n.peers[id].kind == kind then SendOne(n, id, packet) else n
  }

  function SendMsg(m: Manager, target: Option<PeerId>, packet: Packet, kind: byte): Manager {
    match target
    case Some(id) => SendOne(m, id, packet)
    case None => Broadcast(m, m.pool.objects, packet, kind)
  }

  /** Index -1 and everything negative is nobody; an index above the array fails the assertion. */
  function GetSession(m: Manager, uuid: int32): Option<PeerId>
    requires uuid <= MAX_NUM
  {
    if uuid >= 0 then GetObject(m.pool, uuid) else None
  }

  function SendMsgToUuid(m: Manager, uuid: int32, packet: Packet, kind: byte): Manager {
    if uuid > MAX_NUM then m.(aborted := true) else SendMsg(m, GetSession(m, uuid), packet, kind)
  }

  function AddSession(m: Manager, id: PeerId, kind: byte, session: Session): Manager {
    var (pool, index) := AddObject(m.pool, id);
    m.(pool := pool, peers := m.peers[id := Peer(kind, Signed(index % 0x1_0000_0000), session, [])])
  }

  function RemoveSession(m: Manager, uuid: int32): Manager {
    m.(pool := RemoveObject(m.pool, Unsigned(uuid)))
  }

  /** The close callback: a client session that may retry reconnects and stays, any other leaves. */
  function RemoveSessionPtr(m: Manager, id: PeerId, client: bool, canRetry: bool): Manager
    requires id in m.peers
  {
    if client && canRetry then m else RemoveSession(m, m.peers[id].uuid)
  }

  /** A step of a session by itself, which may send packets of its own, such as answers to heart beats. */
  function Elsewhere(m: Manager, id: PeerId, e: Event, packets: seq<Packet>): Manager {
    if id in m.peers then
      var p := m.peers[id];
      m.(peers := m.peers[id := p.(session := Next(p.session, e), packets := p.packets + packets)])
    else m
  }

  /// Framing

  /** Everything a session was given to send is whole packets, and it keeps the invariant of sessions. */
  ghost predicate Framed(p: Peer) {
    && Inv(p.session)
    && p.session.log.appended == EncodeAll(p.packets)
    && AllWellFormed(p.packets)
  }

  ghost predicate AllFramed(m: Manager) {
    forall id :: id in m.peers ==> Framed(m.peers[id])
  }

  lemma AppendedTwice(s: Session, a: bytes, b: bytes)
    ensures DoCall(DoCall(s, AddMore(a)), Send(b)).log.appended == s.log.appended + (a + b)
  {
    assert s.log.appended + a + b == s.log.appended + (a + b);
  }

  /** The calls of a message callback that takes bytes out of its buffer and answers with packets. */
  ghost predicate AnswersWith(cs: seq<Call>, packets: seq<Packet>)
    decreases |cs|
  {
    if cs == [] then packets == []
    else if cs[0].Consume? then AnswersWith(cs[1..], packets)
    else
      && |cs| >= 2 && packets != []
      && cs[0] == AddMore(HeaderBytes(packets[0].header)) && cs[1] == Send(packets[0].body)
      && AnswersWith(cs[2..], packets[1..])
  }

  lemma {:induction false} AnswersAppend(s: Session, cs: seq<Call>, packets: seq<Packet>)
    requires AnswersWith(cs, packets)
    ensures Calls(s, cs).log.appended == s.log.appended + EncodeAll(packets)
    decreases |cs|
  {
    hide HeaderBytes, EncodeAll, InternalSend;
    if cs == [] {
      assert EncodeAll(packets) == [] by { EncodeNothing(); }
    } else if cs[0].Consume? {
      AnswersAppend(DoCall(s, cs[0]), cs[1..], packets);
    } else {
      var t := DoCall(DoCall(s, cs[0]), cs[1]);
      assert cs[1..][0] == cs[1] && cs[1..][1..] == cs[2..];
      assert Calls(s, cs) == Calls(t, cs[2..]);
      AppendedTwice(s, HeaderBytes(packets[0].header), packets[0].body);
      AnswersAppend(t, cs[2..], packets[1..]);
      EncodeAllConcat([packets[0]], packets[1..]);
      EncodeOne(packets[0]);
      assert packets == [packets[0]] + packets[1..];
    }
  }

  /** A read whose callback answers with whole packets, heart beats included, appends those packets. */
  lemma AnsweringIsFramed(s: Session, chunk: bytes, cs: seq<Call>, packets: seq<Packet>)
    requires s.log.pendingReads > 0 && AnswersWith(cs, packets)
    ensures AppendsPackets(s, ReadDone(Data(chunk, cs)), packets)
  {
    hide EncodeAll;
    AnswersAppend(Arrived(ReadEnded(s), chunk), cs, packets);
  }

  lemma DeliverFramed(p: Peer, packet: Packet)
    requires Framed(p) && WellFormed(packet)
    ensures Framed(Deliver(p, packet))
  {
    hide HeaderBytes, DoCall, EncodeAll, Inv, Follows;
    AppendedTwice(p.session, HeaderBytes(packet.header), packet.body);
    EncodeAllSnoc(p.packets, packet);
    var s := DoCall(p.session, AddMore(HeaderBytes(packet.header)));
    CallFollows(p.session, AddMore(HeaderBytes(packet.header)));
    CallFollows(s, Send(packet.body));
  }

  lemma DeliverKeepsIdentity(p: Peer, packet: Packet)
    ensures Deliver(p, packet).uuid == p.uuid && Deliver(p, packet).kind == p.kind
    ensures Deliver(p, packet).packets == p.packets + [packet]
  {
  }

  /** What it means for a session to get a packet: its stream grows by header and body, a connected idle
      session hands both to the socket at once, behind what was waiting, and any other keeps them waiting. */
  ghost predicate Gets(p: Peer, q: Peer, packet: Packet) {
    && q.kind == p.kind && q.uuid == p.uuid && q.packets == p.packets + [packet]
    && q.session.state == p.session.state
    && q.session.log.appended == p.session.log.appended + Encode(packet)
    && if p.session.state == Connected && !p.session.operating then
         && q.session.log.handed == p.session.log.handed + [p.session.output + Encode(packet)]
         && q.session.operating && q.session.output == [] && q.session.log.pendingWrites == 1
       else
         && q.session.log.handed == p.session.log.handed
         && q.session.operating == p.session.operating && q.session.output == p.session.output + Encode(packet)
  }

  lemma DeliverGets(p: Peer, packet: Packet)
    requires Inv(p.session)
    ensures Gets(p, Deliver(p, packet), packet)
  {
    hide HeaderBytes;
    var s, header := p.session, HeaderBytes(packet.header);
    assert s.output + header + packet.body == s.output + (header + packet.body);
    assert s.log.appended + header + packet.body == s.log.appended + (header + packet.body);
    assert |header + packet.body| > 0;
  }

  /** A broadcast extends exactly the listed sessions of the type, by one packet each. */
  lemma {:induction false} BroadcastEffect(m: Manager, ids: seq<PeerId>, packet: Packet, kind: byte)
    requires NoDuplicates(ids) && !m.aborted && packet.header.size >= 0
    ensures
      var n := Broadcast(m, ids, packet, kind);
      && n.pool == m.pool && !n.aborted && n.peers.Keys == m.peers.Keys
      && forall id :: id in m.peers ==>
           n.peers[id] == if id in ids && m.peers[id].kind == kind then Deliver(m.peers[id], packet) else m.peers[id]
    decreases |ids|
  {
    hide Deliver;
    if ids != [] {
      var front, last := ids[..|ids| - 1], ids[|ids| - 1];
      BroadcastEffect(m, front, packet, kind);
      assert ids == front + [last];
      assert last !in front;
      if last in m.peers {
        DeliverKeepsIdentity(m.peers[last], packet);
      }
    }
  }

  ghost predicate Listed(m: Manager, ids: seq<PeerId>, kind: byte) {
    exists id :: id in ids && id in m.peers && m.peers[id].kind == kind
  }

  /** A negative size ends the process if and only if there is a session to send to. */
  lemma {:induction false} NegativeBroadcast(m: Manager, ids: seq<PeerId>, packet: Packet, kind: byte)
    requires !m.aborted && packet.header.size < 0
    ensures Broadcast(m, ids, packet, kind) == m.(aborted := Listed(m, ids, kind))
    decreases |ids|
  {
    if ids != [] {
      var front, last := ids[..|ids| - 1], ids[|ids| - 1];
      NegativeBroadcast(m, front, packet, kind);
      assert ids == front + [last];
      assert Listed(m, ids, kind) <==> Listed(m, front, kind) || (last in m.peers && m.peers[last].kind == kind);
    }
  }

  /** Exactly the given sessions get one more packet; every other session is left alone. */
  ghost predicate Receivers(m: Manager, n: Manager, ids: iset<PeerId>, packet: Packet) {
    && n.pool == m.pool && n.aborted == m.aborted && n.peers.Keys == m.peers.Keys
    && forall id :: id in m.peers ==>
         n.peers[id] == if id in ids then Deliver(m.peers[id], packet) else m.peers[id]
  }

  /** The registered sessions of a type. */
  ghost function OfKind(m: Manager, kind: byte): iset<PeerId> {
    iset id | id in m.peers && id in m.pool.objects && m.peers[id].kind == kind
  }

  ghost predicate Reaches(m: Manager, ids: iset<PeerId>) {
    exists id :: id in ids && id in m.peers
  }

  /** What a send to the given sessions does: they get the packet and nobody else does, or, if its size is
      negative, the process ends exactly if there is one of them. */
  ghost predicate Outcome(m: Manager, n: Manager, ids: iset<PeerId>, packet: Packet) {
    if packet.header.size >= 0 then Receivers(m, n, ids, packet) else n == m.(aborted := Reaches(m, ids))
  }

  ghost function Targets(m: Manager, target: Option<PeerId>, kind: byte): iset<PeerId> {
    if target.Some? then iset{target.value} else OfKind(m, kind)
  }

  lemma SendMsgEffect(m: Manager, target: Option<PeerId>, packet: Packet, kind: byte)
    requires NoDuplicates(m.pool.objects) && !m.aborted
    ensures Outcome(m, SendMsg(m, target, packet, kind), Targets(m, target, kind), packet)
  {
    hide Deliver;
    if target.None? {
      if packet.header.size >= 0 {
        BroadcastEffect(m, m.pool.objects, packet, kind);
      } else {
        NegativeBroadcast(m, m.pool.objects, packet, kind);
        ListedIffReached(m, kind);
      }
    } else if packet.header.size < 0 {
      assert target.value in Targets(m, target, kind);
    }
  }

  /** So everyone the send is for gets the packet, and hands it over if it is connected and idle. */
  lemma SendMsgHandsOver(m: Manager, target: Option<PeerId>, packet: Packet, kind: byte, id: PeerId)
    requires ManagerInv(m) && !m.aborted && packet.header.size >= 0
    requires id in m.peers && id in Targets(m, target, kind)
    ensures
      var n := SendMsg(m, target, packet, kind);
      id in n.peers && Gets(m.peers[id], n.peers[id], packet)
  {
    hide SendMsg, Gets, OfKind, Deliver, EncodeAll;
    SendMsgEffect(m, target, packet, kind);
    assert Framed(m.peers[id]);
    DeliverGets(m.peers[id], packet);
  }

  lemma SendMsgGets(m: Manager, target: Option<PeerId>, packet: Packet, kind: byte)
    requires ManagerInv(m) && !m.aborted
    ensures packet.header.size >= 0 ==>
              forall id :: id in m.peers && id in Targets(m, target, kind) ==>
                var n := SendMsg(m, target, packet, kind);
                id in n.peers && Gets(m.peers[id], n.peers[id], packet)
  {
    hide ManagerInv, SendMsg, Gets, Targets;
    if packet.header.size >= 0 {
      forall id | id in m.peers && id in Targets(m, target, kind)
        ensures id in SendMsg(m, target, packet, kind).peers
        ensures Gets(m.peers[id], SendMsg(m, target, packet, kind).peers[id], packet)
      {
        SendMsgHandsOver(m, target, packet, kind, id);
      }
    }
  }

  /** In terms of an outcome: every receiver gets the packet. */
  lemma ReceiversGet(m: Manager, n: Manager, ids: iset<PeerId>, packet: Packet)
    requires AllFramed(m) && Receivers(m, n, ids, packet)
    ensures forall id :: id in m.peers && id in ids ==> id in n.peers && Gets(m.peers[id], n.peers[id], packet)
  {
    hide Gets, Deliver, EncodeAll, Inv;
    forall id | id in m.peers && id in ids ensures id in n.peers && Gets(m.peers[id], n.peers[id], packet) {
      assert Framed(m.peers[id]);
      DeliverGets(m.peers[id], packet);
    }
  }

  lemma ListedIffReached(m: Manager, kind: byte)
    ensures Listed(m, m.pool.objects, kind) <==> Reaches(m, OfKind(m, kind))
  {
    if Listed(m, m.pool.objects, kind) {
      var id :| id in m.pool.objects && id in m.peers && m.peers[id].kind == kind;
      assert id in OfKind(m, kind);
    }
    if Reaches(m, OfKind(m, kind)) {
      var id :| id in OfKind(m, kind) && id in m.peers;
      assert id in m.pool.objects;
    }
  }

  /** No send forgets a session or changes its index or type. */
  lemma OutcomeKeepsIdentities(m: Manager, n: Manager, ids: iset<PeerId>, packet: Packet)
    requires Outcome(m, n, ids, packet)
    ensures n.pool == m.pool && n.peers.Keys == m.peers.Keys
    ensures forall id :: id in m.peers ==> n.peers[id].uuid == m.peers[id].uuid && n.peers[id].kind == m.peers[id].kind
  {
    hide Deliver;
    forall id | id in m.peers ensures n.peers[id].uuid == m.peers[id].uuid && n.peers[id].kind == m.peers[id].kind {
      DeliverKeepsIdentity(m.peers[id], packet);
    }
  }

  /** What was delivered tells who received it. */
  lemma ReceiversAreUnique(m: Manager, n: Manager, a: iset<PeerId>, b: iset<PeerId>, packet: Packet)
    requires Receivers(m, n, a, packet)
    ensures Receivers(m, n, b, packet) <==> forall id :: id in m.peers ==> (id in a <==> id in b)
  {
    forall id | id in m.peers ensures Deliver(m.peers[id], packet) != m.peers[id] {
      DeliverKeepsIdentity(m.peers[id], packet);
    }
    hide Deliver;
    if Receivers(m, n, b, packet) {
      forall id | id in m.peers ensures id in a <==> id in b {
        assert n.peers[id] == if id in a then Deliver(m.peers[id], packet) else m.peers[id];
      }
    }
  }

  /// Runs of the manager

  datatype ManagerEvent =
    | Add(id: PeerId, kind: byte, session: Session)
    | Remove(uuid: int32)
    | SendTo(target: Option<PeerId>, packet: Packet, kind: byte)
    | SendToUuid(uuid: int32, packet: Packet, kind: byte)
    | Step(id: PeerId, event: Event, packets: seq<Packet>)

  /** Callers add a session once, before it has sent anything, their header size is the length of the
      body or negative, and what a session sends by itself is whole packets. */
  ghost predicate Proper(m: Manager, e: ManagerEvent) {
    match e
    case Add(id, _, session) => id !in m.peers && Unsent(session)
    case SendTo(_, packet, _) => Sized(packet)
    case SendToUuid(_, packet, _) => Sized(packet)
    case Step(id, event, packets) =>
      AllWellFormed(packets) && (id in m.peers ==> AppendsPackets(m.peers[id].session, event, packets))
    case _ => true
  }

  /** A session as it is when it is added: it keeps its invariant and has not been given anything to send. */
  ghost predicate Unsent(s: Session) {
    Inv(s) && s.log.appended == []
  }

  predicate AppendsPackets(s: Session, e: Event, packets: seq<Packet>) {
    Next(s, e).log.appended == s.log.appended + EncodeAll(packets)
  }

  function ManagerNext(m: Manager, e: ManagerEvent): Manager {
    if m.aborted then m
    else
      match e
      case Add(id, kind, session) => AddSession(m, id, kind, session)
      case Remove(uuid) => RemoveSession(m, uuid)
      case SendTo(target, packet, kind) => SendMsg(m, target, packet, kind)
      case SendToUuid(uuid, packet, kind) => SendMsgToUuid(m, uuid, packet, kind)
      case Step(id, event, packets) => Elsewhere(m, id, event, packets)
  }

  ghost predicate AllProper(m: Manager, es: seq<ManagerEvent>)
    decreases |es|
  {
    es == [] || (Proper(m, es[0]) && AllProper(ManagerNext(m, es[0]), es[1..]))
  }

  function ManagerRun(m: Manager, es: seq<ManagerEvent>): Manager
    decreases |es|
  {
    if es == [] then m else ManagerRun(ManagerNext(m, es[0]), es[1..])
  }

  function EmptyManager(): Manager {
    Manager(EmptyPool(), map[], false)
  }

  ghost predicate ManagerInv(m: Manager) {
    && Sound(m.pool)
    && AllFramed(m)
    && Indexed(m)
  }

  /** A session that can be found by an index knows it. */
  ghost predicate Indexed(m: Manager) {
    && (forall i :: i in m.pool.slots ==> m.pool.slots[i] in m.peers && m.peers[m.pool.slots[i]].uuid == i)
    && (forall id :: id in m.pool.objects ==> id in m.peers)
    && (forall id :: id in m.peers ==> -1 <= m.peers[id].uuid <= MAX_NUM)
  }

  lemma SendKeepsInv(m: Manager, target: Option<PeerId>, packet: Packet, kind: byte)
    requires ManagerInv(m) && !m.aborted && Sized(packet)
    ensures ManagerInv(SendMsg(m, target, packet, kind))
  {
    hide Framed, Deliver, SendMsg;
    var n := SendMsg(m, target, packet, kind);
    SendMsgEffect(m, target, packet, kind);
    OutcomeKeepsIdentities(m, n, Targets(m, target, kind), packet);
    forall id | id in m.peers ensures Framed(n.peers[id]) {
      if packet.header.size >= 0 { DeliverFramed(m.peers[id], packet); }
    }
  }

  /** The index that the next added session gets, -1 when there is none left. */
  function NextUuid(m: Manager): int32 {
    if m.pool.maxIndex <= MAX_NUM then m.pool.maxIndex
    else if m.pool.invalidIndexes != [] then Signed(m.pool.invalidIndexes[0] % 0x1_0000_0000)
    else -1
  }

  /** An added session is found by the index it is told, unless there was none left; every other index
      leads where it led before. */
  lemma AddKeepsInv(m: Manager, id: PeerId, kind: byte, session: Session)
    requires ManagerInv(m) && id !in m.peers && Unsent(session)
    ensures
      var n := AddSession(m, id, kind, session);
      && ManagerInv(n) && n.peers == m.peers[id := Peer(kind, NextUuid(m), session, [])] && NextUuid(m) <= MAX_NUM
      && forall u: int32 :: u <= MAX_NUM ==>
           GetSession(n, u) == if u == NextUuid(m) && u >= 0 then Some(id) else GetSession(m, u)
  {
    hide Sound, NoOrphans, AddObject, AddSession, NextUuid;
    assert id !in m.pool.objects;
    AddKeepsSound(m.pool, id);
    AddedPeer(m, id, kind, session);
    var index := AddObject(m.pool, id).1;
    assert Framed(Peer(kind, NextUuid(m), session, []));
    AddedIndex(m, AddSession(m, id, kind, session), id, index, Peer(kind, NextUuid(m), session, []));
  }

  lemma AddedIndex(m: Manager, n: Manager, id: PeerId, index: nat, p: Peer)
    requires Indexed(m) && id !in m.peers && n.peers == m.peers[id := p] && -1 <= p.uuid <= MAX_NUM
    requires index == INVALID_INDEX ==> p.uuid == -1 && n.pool == m.pool
    requires index != INVALID_INDEX ==>
               p.uuid == index && n.pool.slots == m.pool.slots[index := id] && n.pool.objects == m.pool.objects + [id]
    ensures Indexed(n)
    ensures forall u: int32 :: u <= MAX_NUM ==>
              GetSession(n, u) == if u == p.uuid && u >= 0 then Some(id) else GetSession(m, u)
  {
  }

  /** The index that the pool hands out is the one that the session is told. */
  lemma AddedPeer(m: Manager, id: PeerId, kind: byte, session: Session)
    requires ManagerInv(m)
    ensures
      var (pool, index) := AddObject(m.pool, id);
      && (index == INVALID_INDEX <==> NextUuid(m) == -1) && (index != INVALID_INDEX ==> NextUuid(m) == index)
      && NextUuid(m) <= MAX_NUM
      && AddSession(m, id, kind, session) ==
           m.(pool := pool, peers := m.peers[id := Peer(kind, NextUuid(m), session, [])])
  {
    var (pool, index) := AddObject(m.pool, id);
    assert index % 0x1_0000_0000 == index;
  }

  lemma RemoveKeepsInv(m: Manager, uuid: int32)
    requires ManagerInv(m)
    ensures
      var n := RemoveSession(m, uuid);
      && ManagerInv(n) && n.peers == m.peers
      && (forall u: int32 :: u <= MAX_NUM ==> GetSession(n, u) == if u == uuid then None else GetSession(m, u))
      && forall x :: x in n.pool.objects <==>
           x in m.pool.objects && !(uuid <= MAX_NUM && GetSession(m, uuid) == Some(x))
  {
    RemoveKeepsSound(m.pool, Unsigned(uuid));
  }

  lemma StepKeepsInv(m: Manager, id: PeerId, event: Event, packets: seq<Packet>)
    requires ManagerInv(m) && Proper(m, Step(id, event, packets))
    ensures ManagerInv(Elsewhere(m, id, event, packets))
  {
    hide Next, EncodeAll, Inv, Steps;
    if id in m.peers {
      NextInv(m.peers[id].session, event);
      EncodeAllConcat(m.peers[id].packets, packets);
      assert Framed(Elsewhere(m, id, event, packets).peers[id]);
    }
  }

  lemma NextKeepsInv(m: Manager, e: ManagerEvent)
    requires ManagerInv(m) && Proper(m, e)
    ensures ManagerInv(ManagerNext(m, e))
  {
    hide ManagerInv, SendMsg, RemoveSession, AddSession, Elsewhere;
    if !m.aborted {
      match e
      case Add(id, kind, session) => AddKeepsInv(m, id, kind, session);
      case Remove(uuid) => RemoveKeepsInv(m, uuid);
      case SendTo(target, packet, kind) => SendKeepsInv(m, target, packet, kind);
      case SendToUuid(uuid, packet, kind) =>
        AbortKeepsInv(m);
        if uuid <= MAX_NUM { SendKeepsInv(m, GetSession(m, uuid), packet, kind); }
      case Step(id, event, packets) => StepKeepsInv(m, id, event, packets);
    }
  }

  lemma AbortKeepsInv(m: Manager)
    requires ManagerInv(m)
    ensures ManagerInv(m.(aborted := true))
  {
    assert m.(aborted := true).pool == m.pool && m.(aborted := true).peers == m.peers;
  }

  lemma {:induction false} RunKeepsInv(m: Manager, es: seq<ManagerEvent>)
    requires ManagerInv(m) && AllProper(m, es)
    ensures ManagerInv(ManagerRun(m, es))
    decreases |es|
  {
    if es != [] {
      NextKeepsInv(m, es[0]);
      RunKeepsInv(ManagerNext(m, es[0]), es[1..]);
    }
  }

  /** In every run of direct and broadcast sends, however many sessions come and go, each session's
      stream is whole packets, namely the ones sent to it in order, and dispatching it gives them back. The
      buffers handed to the socket, then the one that waits, are that stream. */
  lemma FrameIntegrity(es: seq<ManagerEvent>, id: PeerId)
    requires AllProper(EmptyManager(), es) && id in ManagerRun(EmptyManager(), es).peers
    ensures
      var p := ManagerRun(EmptyManager(), es).peers[id];
      && p.session.log.appended == EncodeAll(p.packets)
      && Concat(p.session.log.handed) + p.session.output == EncodeAll(p.packets)
      && Dispatch(p.session.log.appended) == Dispatched(p.packets, [], false)
  {
    assert ManagerInv(EmptyManager());
    RunKeepsInv(EmptyManager(), es);
    var p := ManagerRun(EmptyManager(), es).peers[id];
    assert Framed(p);
    DispatchOfWhole(p.packets);
  }

  /** The event ends the process: a send to an index above the array, or a negative size to somebody. */
  ghost predicate Fails(m: Manager, e: ManagerEvent) {
    match e
    case SendTo(target, packet, kind) => packet.header.size < 0 && Reaches(m, Targets(m, target, kind))
    case SendToUuid(uuid, packet, kind) =>
      uuid > MAX_NUM || (packet.header.size < 0 && Reaches(m, Audience(m, uuid, kind)))
    case _ => false
  }

  ghost predicate EverFails(m: Manager, es: seq<ManagerEvent>)
    decreases |es|
  {
    es != [] && (Fails(m, es[0]) || EverFails(ManagerNext(m, es[0]), es[1..]))
  }

  lemma NextAbortsIff(m: Manager, e: ManagerEvent)
    requires ManagerInv(m)
    ensures ManagerNext(m, e).aborted <==> m.aborted || Fails(m, e)
  {
    hide SendMsg, Deliver, Next;
    if !m.aborted {
      match e
      case SendTo(target, packet, kind) => SendMsgEffect(m, target, packet, kind);
      case SendToUuid(uuid, packet, kind) => SendToUuidReaches(m, uuid, packet, kind);
      case _ =>
    }
  }

  /** A run ends the process if and only if one of its events does. */
  lemma {:induction false} AbortsIff(m: Manager, es: seq<ManagerEvent>)
    requires ManagerInv(m) && AllProper(m, es) && !m.aborted
    ensures ManagerRun(m, es).aborted <==> EverFails(m, es)
    decreases |es|
  {
    hide ManagerInv, Proper, Fails, ManagerNext;
    if es != [] {
      NextAbortsIff(m, es[0]);
      NextKeepsInv(m, es[0]);
      if ManagerNext(m, es[0]).aborted {
        AbortedForGood(ManagerNext(m, es[0]), es[1..]);
      } else {
        AbortsIff(ManagerNext(m, es[0]), es[1..]);
      }
    }
  }

  lemma {:induction false} AbortedForGood(m: Manager, es: seq<ManagerEvent>)
    requires m.aborted
    ensures ManagerRun(m, es) == m
    decreases |es|
  {
    if es != [] {
      AbortedForGood(m, es[1..]);
    }
  }

  /** Whom a send to an index reaches: its session, or every registered session of the type. */
  ghost function Audience(m: Manager, uuid: int32, kind: byte): iset<PeerId>
    requires uuid <= MAX_NUM
  {
    match GetSession(m, uuid)
    case Some(id) => iset{id}
    case None => OfKind(m, kind)
  }

  /** A send to an index has three outcomes: above the array it fails the assertion and nobody gets
      anything; an occupied slot gets the packet alone; a negative index or an empty slot turns it
      into a broadcast. */
  lemma SendToUuidReaches(m: Manager, uuid: int32, packet: Packet, kind: byte)
    requires ManagerInv(m) && !m.aborted
    ensures
      var n := ManagerNext(m, SendToUuid(uuid, packet, kind));
      if uuid > 10000 then n == m.(aborted := true)
      else
        && Outcome(m, n, Audience(m, uuid, kind), packet)
        && (if uuid < 0 || uuid !in m.pool.slots then Audience(m, uuid, kind) == OfKind(m, kind)
            else m.pool.slots[uuid] in m.peers && Audience(m, uuid, kind) == iset{m.pool.slots[uuid]})
  {
    hide SendMsg, Outcome;
    if uuid <= MAX_NUM {
      SendMsgEffect(m, GetSession(m, uuid), packet, kind);
    }
  }

  /// Who can be found by its index

  /** The session is found by the index it was told. */
  predicate Holds(m: Manager, id: PeerId) {
    id in m.peers && m.peers[id].uuid <= MAX_NUM && GetSession(m, m.peers[id].uuid) == Some(id)
  }

  /** The event takes an index away from its session: it removes it, or hands it out again. */
  predicate Evicts(m: Manager, e: ManagerEvent, uuid: int32) {
    !m.aborted && ((e.Remove? && e.uuid == uuid) || (e.Add? && NextUuid(m) == uuid))
  }

  lemma NextHoldsIff(m: Manager, e: ManagerEvent, id: PeerId)
    requires ManagerInv(m) && Proper(m, e) && id in m.peers
    ensures id in ManagerNext(m, e).peers && ManagerNext(m, e).peers[id].uuid == m.peers[id].uuid
    ensures ManagerNext(m, e).peers[id].kind == m.peers[id].kind
    ensures Holds(ManagerNext(m, e), id) <==> Holds(m, id) && !Evicts(m, e, m.peers[id].uuid)
  {
    hide Deliver, Framed, Next;
    if !m.aborted {
      match e
      case Add(joined, kind, session) => AddKeepsInv(m, joined, kind, session);
      case Remove(uuid) => RemoveKeepsInv(m, uuid);
      case Step(_, _, _) =>
      case _ => SendKeepsPool(m, e);
    }
  }

  ghost predicate NeverEvicted(m: Manager, es: seq<ManagerEvent>, uuid: int32)
    decreases |es|
  {
    es == [] || (!Evicts(m, es[0], uuid) && NeverEvicted(ManagerNext(m, es[0]), es[1..], uuid))
  }

  /** Over every run a session is found by its index as long as nobody has removed that index or been
      given it, and from then on never again. */
  lemma {:induction false} RunHoldsIff(m: Manager, es: seq<ManagerEvent>, id: PeerId)
    requires ManagerInv(m) && AllProper(m, es) && id in m.peers
    ensures id in ManagerRun(m, es).peers && ManagerRun(m, es).peers[id].uuid == m.peers[id].uuid
    ensures Holds(ManagerRun(m, es), id) <==> Holds(m, id) && NeverEvicted(m, es, m.peers[id].uuid)
    decreases |es|
  {
    if es != [] {
      NextKeepsInv(m, es[0]);
      NextHoldsIff(m, es[0], id);
      RunHoldsIff(ManagerNext(m, es[0]), es[1..], id);
    }
  }

  /** Closing unregisters whoever is found by the index of the session that closed, and no one else,
      unless it is a client session that retries. That is the session itself if and only if it still
      holds its index. */
  lemma RemoveSessionPtrEffect(m: Manager, id: PeerId, client: bool, canRetry: bool, other: PeerId)
    requires ManagerInv(m) && id in m.peers
    ensures
      var n := RemoveSessionPtr(m, id, client, canRetry);
      && ManagerInv(n) && n.peers == m.peers
      && (other in n.pool.objects <==>
            other in m.pool.objects && ((client && canRetry) || GetSession(m, m.peers[id].uuid) != Some(other)))
      && (id in m.pool.objects && !(client && canRetry) ==> (id !in n.pool.objects <==> Holds(m, id)))
  {
    if !(client && canRetry) {
      RemoveKeepsInv(m, m.peers[id].uuid);
    }
  }

  /// While the counter lasts

  /** No index has been handed out twice. */
  ghost predicate Unreused(m: Manager) {
    && NoOrphans(m.pool)
    && (forall id :: id in m.peers ==> 0 <= m.peers[id].uuid < m.pool.maxIndex)
    && (forall a, b :: a in m.peers && b in m.peers && a != b ==> m.peers[a].uuid != m.peers[b].uuid)
  }

  lemma NextKeepsUnreused(m: Manager, e: ManagerEvent)
    requires ManagerInv(m) && Proper(m, e) && Unreused(m) && (e.Add? ==> m.pool.maxIndex <= MAX_NUM)
    ensures Unreused(ManagerNext(m, e))
    ensures ManagerNext(m, e).pool.maxIndex <= m.pool.maxIndex + if e.Add? then 1 else 0
  {
    hide Deliver, Framed, Next;
    if !m.aborted {
      match e
      case Add(joined, kind, session) => AddKeepsUnreused(m, joined, kind, session);
      case Remove(uuid) => RemoveKeepsSound(m.pool, Unsigned(uuid));
      case _ => SendKeepsPool(m, e);
    }
  }

  lemma UuidFromCounter(m: Manager)
    requires m.pool.maxIndex <= MAX_NUM
    ensures NextUuid(m) == m.pool.maxIndex
  {
  }

  lemma AddKeepsUnreused(m: Manager, id: PeerId, kind: byte, session: Session)
    requires ManagerInv(m) && Proper(m, Add(id, kind, session)) && Unreused(m) && m.pool.maxIndex <= MAX_NUM
    ensures
      var n := AddSession(m, id, kind, session);
      Unreused(n) && n.pool.maxIndex == m.pool.maxIndex + 1
  {
    hide Sound, NoOrphans, AddObject, AddSession, Unsent, Framed, NextUuid;
    assert NextUuid(m) == m.pool.maxIndex by { UuidFromCounter(m); }
    assert id !in m.pool.objects;
    AddKeepsSound(m.pool, id);
    AddedPeer(m, id, kind, session);
  }

  lemma SendKeepsPool(m: Manager, e: ManagerEvent)
    requires ManagerInv(m) && !m.aborted && !e.Add? && !e.Remove?
    ensures
      var n := ManagerNext(m, e);
      && n.pool == m.pool && n.peers.Keys == m.peers.Keys
      && forall id :: id in m.peers ==> n.peers[id].uuid == m.peers[id].uuid && n.peers[id].kind == m.peers[id].kind
  {
    hide Next, SendMsg, Outcome;
    var n := ManagerNext(m, e);
    match e
    case SendTo(target, packet, kind) =>
      SendMsgEffect(m, target, packet, kind);
      OutcomeKeepsIdentities(m, n, Targets(m, target, kind), packet);
    case SendToUuid(uuid, packet, kind) =>
      SendToUuidReaches(m, uuid, packet, kind);
      if uuid <= MAX_NUM { OutcomeKeepsIdentities(m, n, Audience(m, uuid, kind), packet); }
    case Step(_, _, _) =>
  }

  function Adds(es: seq<ManagerEvent>): nat
    decreases |es|
  {
    if es == [] then 0 else (if es[0].Add? then 1 else 0) + Adds(es[1..])
  }

  lemma {:induction false} RunKeepsUnreused(m: Manager, es: seq<ManagerEvent>)
    requires ManagerInv(m) && AllProper(m, es) && Unreused(m) && m.pool.maxIndex + Adds(es) <= MAX_NUM + 1
    ensures Unreused(ManagerRun(m, es))
    decreases |es|
  {
    hide ManagerInv, Unreused;
    if es != [] {
      NextKeepsInv(m, es[0]);
      NextKeepsUnreused(m, es[0]);
      RunKeepsUnreused(ManagerNext(m, es[0]), es[1..]);
    }
  }

  /** Then registered sessions are exactly those found by their index. */
  lemma RegisteredIffHolds(m: Manager, id: PeerId)
    requires ManagerInv(m) && Unreused(m) && id in m.peers
    ensures id in m.pool.objects <==> Holds(m, id)
  {
    if id in m.pool.objects {
      assert InSlot(m.pool, id);
    }
  }

  /** Once the counter has run out, an index on the list of returned ones that is still in use is handed
      out again, and its first owner can no longer be reached by it. */
  lemma ReusedIndexMisroutes(m: Manager, index: nat, owner: PeerId, id: PeerId, kind: byte, session: Session)
    requires m.pool.maxIndex > MAX_NUM >= index && m.pool.invalidIndexes != [] && m.pool.invalidIndexes[0] == index
    requires owner in m.peers && m.peers[owner].uuid == index && GetSession(m, index) == Some(owner) && id != owner
    ensures
      var n := AddSession(m, id, kind, session);
      n.peers[owner].uuid == n.peers[id].uuid == index && GetSession(n, index) == Some(id)
  {
  }

  /// The class

  class TCPSessionManager {
    var pool: Pool<PeerId>
    var peers: map<PeerId, Peer>
    var aborted: bool

    function AsManager(): Manager
      reads this
    {
      Manager(pool, peers, aborted)
    }

    /** Every session's stream is whole packets, and a session that an index leads to knows that index. */
    ghost predicate Valid()
      reads this
    {
      ManagerInv(AsManager())
    }

    constructor ()
      ensures Valid() && AsManager() == EmptyManager()
    {
      pool, peers, aborted := EmptyPool(), map[], false;
    }

    /** The new session is found by the index it is told, unless there was none left; what the other
        indices lead to stays the same. */
    method Add(id: PeerId, kind: byte, session: Session)
      requires Valid() && !aborted && id !in peers && Unsent(session)
      modifies this
      ensures Valid() && AsManager() == AddSession(old(AsManager()), id, kind, session)
      ensures Holds(AsManager(), id) <==> old(NextUuid(AsManager())) >= 0
      ensures forall u: int32 :: u <= MAX_NUM && u != peers[id].uuid ==>
                GetSession(AsManager(), u) == old(GetSession(AsManager(), u))
    {
      AddKeepsInv(AsManager(), id, kind, session);
      var (grown, index) := AddObject(pool, id);
      pool := grown;
      peers := peers[id := Peer(kind, Signed(index % 0x1_0000_0000), session, [])];
    }

    /** Afterwards the index leads to nobody, and every other index where it led before. */
    method Remove(uuid: int32)
      requires Valid() && !aborted
      modifies this`pool
      ensures Valid() && AsManager() == RemoveSession(old(AsManager()), uuid)
      ensures forall u: int32 :: u <= MAX_NUM ==>
                GetSession(AsManager(), u) == if u == uuid then None else old(GetSession(AsManager(), u))
    {
      RemoveKeepsInv(AsManager(), uuid);
      pool := RemoveObject(pool, Unsigned(uuid));
    }

    /** A session that does not retry is unregistered if it still holds its index; if the index has
        been handed out again, its new owner is unregistered instead. */
    method CloseCallback(id: PeerId, client: bool, canRetry: bool)
      requires Valid() && !aborted && id in peers
      modifies this`pool
      ensures Valid() && AsManager() == RemoveSessionPtr(old(AsManager()), id, client, canRetry)
      ensures forall other ::
                old(other in pool.objects) && other !in pool.objects <==>
                !(client && canRetry) && GetSession(old(AsManager()), peers[id].uuid) == Some(other)
    {
      RemoveKeepsInv(AsManager(), peers[id].uuid);
      if !client || !canRetry {
        Remove(peers[id].uuid);
      }
    }

    method SendTo(id: PeerId, packet: Packet)
      modifies this`peers, this`aborted
      ensures AsManager() == SendOne(old(AsManager()), id, packet)
    {
      if !aborted && id in peers {
        if packet.header.size < 0 {
          aborted := true;
          return;
        }
        var p := peers[id];
        var s := DoCall(p.session, AddMore(HeaderBytes(packet.header)));
        s := DoCall(s, Send(packet.body));
        peers := peers[id := p.(session := s, packets := p.packets + [packet])];
      }
    }

    /** `sendMsg`: to the session if there is one, otherwise to every registered session of the type;
        nobody else's stream changes. A negative size ends the process if there is anybody to send to. */
    method SendMsg(target: Option<PeerId>, packet: Packet, kind: byte)
      requires Valid() && !aborted && Sized(packet)
      modifies this`peers, this`aborted
      ensures Valid() && AsManager() == ManagerNext(old(AsManager()), ManagerEvent.SendTo(target, packet, kind))
      ensures Outcome(old(AsManager()), AsManager(), Targets(old(AsManager()), target, kind), packet)
      ensures !aborted && packet.header.size >= 0 ==>
                forall id :: id in old(peers) && id in Targets(old(AsManager()), target, kind) ==>
                  id in peers && Gets(old(peers)[id], peers[id], packet)
    {
      hide Deliver, Framed, Indexed, Outcome, Targets, SendOne, Gets;
      SendKeepsInv(AsManager(), target, packet, kind);
      SendMsgGets(AsManager(), target, packet, kind);
      SendMsgEffect(AsManager(), target, packet, kind);
      if target.Some? {
        SendTo(target.value, packet);
        return;
      }
      var ids := pool.objects;
      for i := 0 to |ids|
        invariant pool == old(pool)
        invariant AsManager() == Broadcast(old(AsManager()), ids[..i], packet, kind)
      {
        assert ids[..i + 1][..i] == ids[..i];
        if ids[i] in peers && peers[ids[i]].kind == kind {
          SendTo(ids[i], packet);
        }
      }
      assert ids[..|ids|] == ids;
    }

    /** The assertion of the lookup fails exactly above the array; otherwise the audience of the index,
        and nobody else, gets the packet, or ends the process if its size is negative. */
    method SendMsgToUuid(uuid: int32, packet: Packet, kind: byte)
      requires Valid() && !aborted && Sized(packet)
      modifies this`peers, this`aborted
      ensures Valid() && AsManager() == ManagerNext(old(AsManager()), SendToUuid(uuid, packet, kind))
      ensures if uuid > MAX_NUM then AsManager() == old(AsManager()).(aborted := true)
              else Outcome(old(AsManager()), AsManager(), Audience(old(AsManager()), uuid, kind), packet)
    {
      hide ManagerInv, Outcome, OfKind;
      if uuid > MAX_NUM {
        AbortKeepsInv(AsManager());
        aborted := true;
        return;
      }
      var target := if uuid >= 0 then GetObject(pool, uuid) else None;
      SendMsg(target, packet, kind);
    }
  }
}
