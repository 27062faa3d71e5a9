/** Messages end to end: packets appended at one side, bytes moved by the network in any chunking,
    packets dispatched at the other side, message bodies parsed.
 */
module Delivery {
  import opened Bytes
  import opened SessionSpec
  import opened Network
  import opened Framing
  import Wire
  import Messages

  /** The bytes that a happening delivers to a side. */
  function Chunk(n: Net, h: Happening, side: Side): bytes {
    if h.side == side && h.event.Deliver? && Enabled(n, h) then n.From(Other(side)).channel[..h.event.count] else []
  }

  /** One side reads with the dispatch loop: each arrival is dispatched as far as whole packets go,
      and nothing else takes bytes out of the input buffer. */
  ghost predicate Dispatching(n: Net, hs: seq<Happening>, side: Side)
    decreases |hs|
  {
    hs == [] || (
      var arrived := n.At(side).input + Chunk(n, hs[0], side);
      && !Dispatch(arrived).hangs
      && NetNext(n, hs[0]).At(side).input == Dispatch(arrived).rest
      && Dispatching(NetNext(n, hs[0]), hs[1..], side))
  }

  /** The packets that the dispatch loop of one side hands out during a run. */
  function Handled(n: Net, hs: seq<Happening>, side: Side): seq<Packet>
    decreases |hs|
  {
    if hs == [] then []
    else Dispatch(n.At(side).input + Chunk(n, hs[0], side)).packets + Handled(NetNext(n, hs[0]), hs[1..], side)
  }

  /** The calls of the dispatch loop on a stream: for each packet what its handler does, then the packet
      is retrieved. */
  function LoopScript(s: bytes, handlers: seq<seq<Call>>): seq<Call>
    decreases |handlers|
  {
    if handlers == [] || !HasPacket(s) then []
    else
      handlers[0] + ([Consume(PacketLength(ReadHeader(s).size))]
                     + LoopScript(s[PacketLength(ReadHeader(s).size)..], handlers[1..]))
  }

  lemma {:induction false} CallsInSequence(s: Session, first: seq<Call>, second: seq<Call>)
    ensures Calls(s, first + second) == Calls(Calls(s, first), second)
    decreases |first|
  {
    if first == [] {
      assert first + second == second;
    } else {
      assert (first + second)[1..] == first[1..] + second;
      CallsInSequence(DoCall(s, first[0]), first[1..], second);
    }
  }

  lemma HandleOnePacket(u: Session, handler: seq<Call>, n: nat, later: seq<Call>)
    requires LeaveInput(handler) && n <= |u.input|
    ensures
      var v := DoCall(Calls(u, handler), Consume(n));
      v.input == u.input[n..] && Calls(u, handler + ([Consume(n)] + later)) == Calls(v, later)
  {
    CallsKeepInput(u, handler);
    CallsInSequence(u, handler, [Consume(n)] + later);
    assert ([Consume(n)] + later)[1..] == later;
  }

  /** Whatever the handlers do besides, closing the session included, the loop takes the whole packets out
      of the input buffer and leaves the rest. */
  lemma {:induction false} LoopTakesWholePackets(u: Session, handlers: seq<seq<Call>>)
    requires |handlers| == |Dispatch(u.input).packets|
    requires forall i :: 0 <= i < |handlers| ==> LeaveInput(handlers[i])
    ensures Calls(u, LoopScript(u.input, handlers)).input == Dispatch(u.input).rest
    decreases |handlers|
  {
    hide ReadHeader, FrontPacket, PacketLength, DoCall;
    if handlers != [] {
      var n := PacketLength(ReadHeader(u.input).size);
      DispatchStep(u.input);
      var v := DoCall(Calls(u, handlers[0]), Consume(n));
      HandleOnePacket(u, handlers[0], n, LoopScript(u.input[n..], handlers[1..]));
      LoopTakesWholePackets(v, handlers[1..]);
    }
  }

  /** The callback is the dispatch loop on the stream, with handlers that leave the buffer to it. */
  ghost predicate IsLoop(cs: seq<Call>, s: bytes) {
    exists handlers: seq<seq<Call>> ::
      && |handlers| == |Dispatch(s).packets| && cs == LoopScript(s, handlers)
      && forall i :: 0 <= i < |handlers| ==> LeaveInput(handlers[i])
  }

  /** What happens at a side that reads with the dispatch loop: each arrival runs it, and no other callback
      takes bytes out of the input buffer. */
  ghost predicate LoopStep(n: Net, h: Happening) {
    match h.event
    case Local(call) => LeavesInput(call)
    case Connect(onConnection, initData) => LeaveInput(onConnection) && LeaveInput(initData)
    case Transmit(_) => true
    case Complete(_, onWritten) => LeaveInput(onWritten)
    case Deliver(_, onMessage) => IsLoop(onMessage, n.At(h.side).input + Chunk(n, h, h.side))
    case ReadError(result) => result.Failed? ==> LeaveInput(result.onClose)
  }

  ghost predicate RunsLoop(n: Net, hs: seq<Happening>, side: Side)
    decreases |hs|
  {
    hs == [] || (
      && (hs[0].side == side && Enabled(n, hs[0]) ==> LoopStep(n, hs[0]))
      && RunsLoop(NetNext(n, hs[0]), hs[1..], side))
  }

  /** A message callback that is the dispatch loop leaves the rest of the stream. */
  lemma DispatchLoopConsumes(n: Net, h: Happening)
    requires h.event.Deliver? && Enabled(n, h) && LoopStep(n, h)
    ensures NetNext(n, h).At(h.side).input == Dispatch(n.At(h.side).input + Chunk(n, h, h.side)).rest
  {
    hide Dispatch, LoopScript, DoCall;
    var arrived := n.At(h.side).input + Chunk(n, h, h.side);
    var handlers: seq<seq<Call>> :|
      && |handlers| == |Dispatch(arrived).packets| && h.event.onMessage == LoopScript(arrived, handlers)
      && forall i :: 0 <= i < |handlers| ==> LeaveInput(handlers[i]);
    LoopTakesWholePackets(Arrived(ReadEnded(n.At(h.side)), Chunk(n, h, h.side)), handlers);
  }

  /** Whatever else happens leaves the input buffer alone. */
  lemma OthersKeepInput(n: Net, h: Happening, side: Side)
    requires h.side == side && Enabled(n, h) ==> LoopStep(n, h) && !h.event.Deliver?
    ensures NetNext(n, h).At(side).input == n.At(side).input && Chunk(n, h, side) == []
  {
    hide DoCall, LeaveInput, IsLoop;
    var s := n.At(side);
    if h.side == side && Enabled(n, h) {
      match h.event
      case Local(call) => CallKeepsInput(s, call);
      case Connect(onConnection, initData) =>
        CallsKeepInput(StartRead(Opened(s)), onConnection);
        CallsKeepInput(Calls(StartRead(Opened(s)), onConnection), initData);
      case Transmit(_) =>
      case Complete(ok, onWritten) => CompletionKeepsInput(s, ok, onWritten);
      case ReadError(result) => ReadErrorKeepsInput(s, result);
    }
  }

  lemma CompletionKeepsInput(s: Session, ok: bool, onWritten: seq<Call>)
    requires s.log.pendingWrites > 0 && LeaveInput(onWritten)
    ensures HandWrite(s, ok, onWritten).input == s.input
  {
    CallsKeepInput(WriteSucceeded(s), onWritten);
  }

  lemma ReadErrorKeepsInput(s: Session, result: ReadResult)
    requires s.log.pendingReads > 0 && !result.Data? && (result.Failed? ==> LeaveInput(result.onClose))
    ensures HandRead(s, result).input == s.input
  {
    if result.Failed? {
      CallsKeepInput(Closed(ReadEnded(s)), result.onClose);
    }
  }

  lemma ReceivedGrowsByChunk(n: Net, h: Happening, side: Side)
    requires NetInv(n)
    ensures NetNext(n, h).At(side).log.received == n.At(side).log.received + Chunk(n, h, side)
  {
    if Enabled(n, h) && h.side == side {
      match SessionEvent(n, h)
      case None =>
      case Some(e) => NextInv(n.At(side), e);
    }
  }

  /** The packets handed out arrival by arrival are those of the whole stream received. */
  lemma {:induction false} HandledIsDispatch(n: Net, hs: seq<Happening>, side: Side)
    requires NetInv(n) && Dispatching(n, hs, side)
    requires !Dispatch(n.At(side).log.received).hangs
    requires Dispatch(n.At(side).log.received).rest == n.At(side).input
    ensures
      var end := NetRun(n, hs).At(side);
      Dispatch(end.log.received)
        == Dispatched(Dispatch(n.At(side).log.received).packets + Handled(n, hs, side), end.input, false)
    decreases |hs|
  {
    hide Dispatch, NetNext, NetInv, Chunk;
    if hs != [] {
      var m := NetNext(n, hs[0]);
      var s, chunk := n.At(side), Chunk(n, hs[0], side);
      NetNextInv(n, hs[0]);
      ReceivedGrowsByChunk(n, hs[0], side);
      DispatchInChunks(s.log.received, chunk);
      HandledIsDispatch(m, hs[1..], side);
      var first, now := Dispatch(s.log.received).packets, Dispatch(s.input + chunk).packets;
      var later := Handled(m, hs[1..], side);
      assert first + now + later == first + (now + later);
    } else {
      var d := Dispatch(n.At(side).log.received);
      assert d.packets + [] == d.packets;
    }
  }

  lemma {:induction false} ReceivedGrows(n: Net, hs: seq<Happening>, side: Side)
    requires NetInv(n)
    ensures n.At(side).log.received <= NetRun(n, hs).At(side).log.received
    decreases |hs|
  {
    hide NetNext, NetInv, Chunk;
    if hs != [] {
      NetNextInv(n, hs[0]);
      ReceivedGrowsByChunk(n, hs[0], side);
      ReceivedGrows(NetNext(n, hs[0]), hs[1..], side);
    }
  }

  /** A dispatched part of a stream of whole packets: the loop does not spin on what comes next. */
  lemma NextArrivalDoesNotSpin(packets: seq<Packet>, received: bytes, input: bytes, chunk: bytes)
    requires AllWellFormed(packets) && received + chunk <= EncodeAll(packets)
    requires Dispatch(received).rest == input
    ensures
      && !Dispatch(received).hangs && !Dispatch(input + chunk).hangs
      && Dispatch(received + chunk).rest == Dispatch(input + chunk).rest
  {
    hide Dispatch, EncodeAll;
    assert received <= EncodeAll(packets) by {
      assert received + chunk <= EncodeAll(packets);
      assert received == (received + chunk)[..|received|] == EncodeAll(packets)[..|received|];
    }
    DispatchOfPrefix(packets, received);
    DispatchOfPrefix(packets, received + chunk);
    DispatchInChunks(received, chunk);
  }

  /** On a stream of whole packets a side whose callbacks are the dispatch loop dispatches: over every run,
      its input buffer holds what the loop has left of the bytes received. */
  lemma {:induction false} LoopDispatches(n: Net, hs: seq<Happening>, side: Side, packets: seq<Packet>)
    requires NetInv(n) && RunsLoop(n, hs, side)
    requires Dispatch(n.At(side).log.received).rest == n.At(side).input
    requires AllWellFormed(packets) && NetRun(n, hs).At(side).log.received <= EncodeAll(packets)
    ensures Dispatching(n, hs, side)
    decreases |hs|
  {
    hide Dispatch, NetNext, NetInv, Chunk, LoopStep, EncodeAll, Enabled;
    if hs != [] {
      var m, s, chunk := NetNext(n, hs[0]), n.At(side), Chunk(n, hs[0], side);
      NetNextInv(n, hs[0]);
      ReceivedGrowsByChunk(n, hs[0], side);
      ReceivedGrows(m, hs[1..], side);
      assert m.At(side).log.received <= EncodeAll(packets) by {
        PrefixTransitive(m.At(side).log.received, NetRun(n, hs).At(side).log.received, EncodeAll(packets));
      }
      NextArrivalDoesNotSpin(packets, s.log.received, s.input, chunk);
      LoopStepDispatches(n, hs[0], side);
      LoopDispatches(m, hs[1..], side, packets);
    }
  }

  lemma PrefixTransitive(a: bytes, b: bytes, c: bytes)
    requires a <= b && b <= c
    ensures a <= c
  {
  }

  lemma LoopStepDispatches(n: Net, h: Happening, side: Side)
    requires h.side == side && Enabled(n, h) ==> LoopStep(n, h)
    requires Dispatch(n.At(side).log.received).rest == n.At(side).input && !Dispatch(n.At(side).log.received).hangs
    ensures NetNext(n, h).At(side).input == Dispatch(n.At(side).input + Chunk(n, h, side)).rest
  {
    hide Dispatch, NetNext, LoopStep, Enabled;
    if h.side == side && Enabled(n, h) && h.event.Deliver? {
      DispatchLoopConsumes(n, h);
    } else {
      OthersKeepInput(n, h, side);
      RestIsDispatched(n.At(side).log.received);
      assert n.At(side).input + [] == n.At(side).input;
    }
  }

  /** Full completions, and a receiver that dispatches: what the receiver has handled is always the
      first few of the packets the sender appended, whole and in order, whatever the chunking; and it
      is all of them when nothing is waiting, in flight or on the way. */
  lemma PacketsArriveInOrder(leftSocket: bool, leftRetry: bool, rightSocket: bool, rightRetry: bool,
                             hs: seq<Happening>, side: Side, packets: seq<Packet>)
    requires
      var start := Start(Fresh(leftSocket, leftRetry), Fresh(rightSocket, rightRetry));
      && WritesFull(start, hs, side) && Dispatching(start, hs, Other(side))
      && AllWellFormed(packets) && NetRun(start, hs).At(side).log.appended == EncodeAll(packets)
    ensures
      var start := Start(Fresh(leftSocket, leftRetry), Fresh(rightSocket, rightRetry));
      var n, handled := NetRun(start, hs), Handled(start, hs, Other(side));
      && handled <= packets
      && n.From(side).sent <= |n.At(side).sending|
      && (n.From(side).channel == [] && n.At(side).sending[n.From(side).sent..] == [] && n.At(side).output == [] ==>
            handled == packets)
  {
    hide NetRun, WritesFull, Dispatching, Handled, NetInv, Conserved, EncodeAll;
    var start := Start(Fresh(leftSocket, leftRetry), Fresh(rightSocket, rightRetry));
    var n := NetRun(start, hs);
    EndToEndConservation(leftSocket, leftRetry, rightSocket, rightRetry, hs, side);
    ReachableInv(start, hs);
    ReceivedIsPrefix(n, side);
    HandledFromStart(start, hs, Other(side));
    DispatchOfPrefix(packets, n.At(Other(side)).log.received);
    DispatchOfWhole(packets);
  }

  /** The same for a receiver given by its callbacks: with full completions, a dispatch loop at every arrival
      and handlers that do whatever else they like, the packets handled are the first few of the packets sent,
      and all of them at rest. */
  lemma LoopDeliversInOrder(leftSocket: bool, leftRetry: bool, rightSocket: bool, rightRetry: bool,
                            hs: seq<Happening>, side: Side, packets: seq<Packet>)
    requires
      var start := Start(Fresh(leftSocket, leftRetry), Fresh(rightSocket, rightRetry));
      && WritesFull(start, hs, side) && RunsLoop(start, hs, Other(side))
      && AllWellFormed(packets) && NetRun(start, hs).At(side).log.appended == EncodeAll(packets)
    ensures
      var start := Start(Fresh(leftSocket, leftRetry), Fresh(rightSocket, rightRetry));
      var n, handled := NetRun(start, hs), Handled(start, hs, Other(side));
      && Dispatching(start, hs, Other(side))
      && handled <= packets
      && n.From(side).sent <= |n.At(side).sending|
      && (n.From(side).channel == [] && n.At(side).sending[n.From(side).sent..] == [] && n.At(side).output == [] ==>
            handled == packets)
  {
    hide NetRun, WritesFull, Dispatching, Handled, NetInv, Conserved, EncodeAll, RunsLoop, Dispatch;
    var start := Start(Fresh(leftSocket, leftRetry), Fresh(rightSocket, rightRetry));
    EndToEndConservation(leftSocket, leftRetry, rightSocket, rightRetry, hs, side);
    ReachableInv(start, hs);
    ReceivedIsPrefix(NetRun(start, hs), side);
    DispatchOfNothing();
    LoopDispatches(start, hs, Other(side), packets);
    PacketsArriveInOrder(leftSocket, leftRetry, rightSocket, rightRetry, hs, side, packets);
  }

  lemma ReachableInv(start: Net, hs: seq<Happening>)
    requires exists ls, lr, rs, rr :: start == Start(Fresh(ls, lr), Fresh(rs, rr))
    ensures NetInv(start) && NetInv(NetRun(start, hs))
  {
    assert NetInv(start);
    NetRunInv(start, hs);
  }

  lemma HandledFromStart(start: Net, hs: seq<Happening>, side: Side)
    requires exists ls, lr, rs, rr :: start == Start(Fresh(ls, lr), Fresh(rs, rr))
    requires Dispatching(start, hs, side)
    ensures Dispatch(NetRun(start, hs).At(side).log.received).packets == Handled(start, hs, side)
  {
    ReachableInv(start, hs);
    DispatchOfNothing();
    HandledIsDispatch(start, hs, side);
    assert [] + Handled(start, hs, side) == Handled(start, hs, side);
  }

  /// Progress

  lemma {:induction false} RunsLoopConcat(n: Net, hs: seq<Happening>, more: seq<Happening>, side: Side)
    ensures RunsLoop(n, hs + more, side) <==> RunsLoop(n, hs, side) && RunsLoop(NetRun(n, hs), more, side)
    decreases |hs|
  {
    hide NetNext, LoopStep, Enabled;
    if hs == [] {
      assert hs + more == more;
    } else {
      assert (hs + more)[1..] == hs[1..] + more;
      RunsLoopConcat(NetNext(n, hs[0]), hs[1..], more, side);
    }
  }

  lemma {:induction false} OtherSideRuns(n: Net, hs: seq<Happening>, side: Side)
    requires forall i :: 0 <= i < |hs| ==> hs[i].side != side
    ensures RunsLoop(n, hs, side)
    decreases |hs|
  {
    hide NetNext, LoopStep, Enabled;
    if hs != [] {
      assert hs[0].side != side;
      OtherSideRuns(NetNext(n, hs[0]), hs[1..], side);
    }
  }

  /** What the sender has appended and the receiver has not received. */
  function OnTheWay(n: Net, side: Side): bytes
    requires n.From(side).sent <= |n.At(side).sending|
  {
    n.From(side).channel + n.At(side).sending[n.From(side).sent..] + n.At(side).output
  }

  /** The loop with handlers that do nothing. */
  function BareLoop(s: bytes): seq<Call> {
    LoopScript(s, seq(|Dispatch(s).packets|, _ => []))
  }

  lemma BareLoopIsLoop(s: bytes)
    ensures IsLoop(BareLoop(s), s)
  {
    hide Dispatch, LoopScript;
    var handlers: seq<seq<Call>> := seq(|Dispatch(s).packets|, _ => []);
    assert BareLoop(s) == LoopScript(s, handlers);
  }

  lemma DrainRunsLoop(n: Net, side: Side)
    requires NetInv(n) && n.At(side).state == Connected && n.At(side).log.pendingWrites > 0
    requires n.At(Other(side)).log.pendingReads > 0 && n.From(side).sent <= |n.At(side).sending|
    ensures RunsLoop(n, Drain(n, side, BareLoop(n.At(Other(side)).input + OnTheWay(n, side))), Other(side))
  {
    hide NetRun, RunsLoop, NetInv, IsLoop, BareLoop;
    var cs := BareLoop(n.At(Other(side)).input + OnTheWay(n, side));
    var hs := Drain(n, side, cs);
    SendTwice(n, side);
    var m, last := NetRun(n, hs[..4]), hs[4];
    assert hs == hs[..4] + [last] && hs[..4] == [hs[0], hs[1], hs[2], hs[3]];
    RunsLoopConcat(n, hs[..4], [last], Other(side));
    OtherSideRuns(n, hs[..4], Other(side));
    BareLoopIsLoop(n.At(Other(side)).input + OnTheWay(n, side));
    LastArrivalRunsLoop(m, last, n.At(Other(side)).input, OnTheWay(n, side));
  }

  lemma LastArrivalRunsLoop(m: Net, h: Happening, input: bytes, arriving: bytes)
    requires h.event.Deliver? && h.event.count == |arriving| && m.From(Other(h.side)).channel == arriving
    requires m.At(h.side).input == input && IsLoop(h.event.onMessage, input + arriving)
    ensures RunsLoop(m, [h], h.side)
  {
    hide IsLoop;
    assert [h][1..] == [];
    assert arriving[..|arriving|] == arriving;
    assert RunsLoop(NetNext(m, h), [], h.side);
    if Enabled(m, h) {
      assert Chunk(m, h, h.side) == arriving;
    }
  }

  /** Every packet can still be handled: after any run with full completions and a receiver that runs the
      loop, if the sender is connected with a write outstanding and the receiver is reading, full completions
      and one arrival bring all packets that were sent to their handlers. */
  lemma EveryPacketCanBeHandled(leftSocket: bool, leftRetry: bool, rightSocket: bool, rightRetry: bool,
                                hs: seq<Happening>, side: Side, packets: seq<Packet>) returns (more: seq<Happening>)
    requires
      var start := Start(Fresh(leftSocket, leftRetry), Fresh(rightSocket, rightRetry));
      var n := NetRun(start, hs);
      && WritesFull(start, hs, side) && RunsLoop(start, hs, Other(side))
      && AllWellFormed(packets) && n.At(side).log.appended == EncodeAll(packets)
      && n.At(side).state == Connected && n.At(side).log.pendingWrites > 0
      && n.At(Other(side)).log.pendingReads > 0
    ensures
      var start := Start(Fresh(leftSocket, leftRetry), Fresh(rightSocket, rightRetry));
      && WritesFull(start, hs + more, side) && RunsLoop(start, hs + more, Other(side))
      && NetRun(start, hs + more).At(side).log.appended == EncodeAll(packets)
      && Handled(start, hs + more, Other(side)) == packets
  {
    hide NetRun, WritesFull, Dispatching, Handled, NetInv, Conserved, EncodeAll, RunsLoop, Dispatch, BareLoop;
    var start := Start(Fresh(leftSocket, leftRetry), Fresh(rightSocket, rightRetry));
    var n := NetRun(start, hs);
    EndToEndConservation(leftSocket, leftRetry, rightSocket, rightRetry, hs, side);
    ReachableInv(start, hs);
    more := Drain(n, side, BareLoop(n.At(Other(side)).input + OnTheWay(n, side)));
    EverythingCanArrive(n, side, BareLoop(n.At(Other(side)).input + OnTheWay(n, side)));
    DrainRunsLoop(n, side);
    NetRunConcat(start, hs, more, side);
    RunsLoopConcat(start, hs, more, Other(side));
    LoopDeliversInOrder(leftSocket, leftRetry, rightSocket, rightRetry, hs + more, side, packets);
  }

  /// Requests

  /** A packet that carries a register request, as the servers send it: the header holds its size. */
  predicate Carries(p: Packet, m: Messages.Register) {
    p.body == Messages.SerializeRegister(m) && p.header.size == Messages.RegisterSize(m)
  }

  /** Such a packet is well formed, and whoever handles it reads the message that was sent. */
  lemma CarriedMessageArrives(p: Packet, m: Messages.Register)
    requires Carries(p, m) && Messages.RegisterSize(m) <= Wire.INT_MAX && Messages.ListenersUtf8(m.listeners)
    ensures WellFormed(p)
    ensures Messages.ParseRegister(Messages.DEFAULT_REGISTER, p.body) == Some(m)
  {
    Messages.RegisterSizeAgrees(m);
    Messages.RegisterRoundTrip(m);
  }

  /** Over any network run with full writes and a receiver that runs the loop: if the i-th packet sent carries a
      request, then the i-th packet handled, once it is handled, parses as that very request. */
  lemma RequestArrives(leftSocket: bool, leftRetry: bool, rightSocket: bool, rightRetry: bool,
                       hs: seq<Happening>, side: Side, packets: seq<Packet>, i: nat, m: Messages.Register)
    requires
      var start := Start(Fresh(leftSocket, leftRetry), Fresh(rightSocket, rightRetry));
      && WritesFull(start, hs, side) && RunsLoop(start, hs, Other(side))
      && AllWellFormed(packets) && NetRun(start, hs).At(side).log.appended == EncodeAll(packets)
    ensures
      var start := Start(Fresh(leftSocket, leftRetry), Fresh(rightSocket, rightRetry));
      var handled := Handled(start, hs, Other(side));
      i < |handled| && i < |packets| && packets[i].body == Messages.SerializeRegister(m)
      && Messages.RegisterSize(m) <= Wire.INT_MAX ==>
        (Messages.ParseRegister(Messages.DEFAULT_REGISTER, handled[i].body) == Some(m) <==>
         Messages.ListenersUtf8(m.listeners))
  {
    hide NetRun, WritesFull, RunsLoop, Dispatching, Handled, EncodeAll, WellFormed;
    LoopDeliversInOrder(leftSocket, leftRetry, rightSocket, rightRetry, hs, side, packets);
    if Messages.RegisterSize(m) <= Wire.INT_MAX {
      Messages.RegisterRoundTrip(m);
    }
    var handled := Handled(Start(Fresh(leftSocket, leftRetry), Fresh(rightSocket, rightRetry)), hs, Other(side));
    assert i < |handled| ==> i < |packets| && handled[i] == packets[i];
  }
}
