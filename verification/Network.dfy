/** Two sessions joined by a byte channel in each direction, over one connection.

The environment moves bytes of a buffer in flight onto the channel a few at a time, completes the
write whenever it likes, and delivers the channel to the other side in chunks of any size.
 */
module Network {
  import opened Bytes
  import opened SessionSpec

  datatype Side = Left | Right

  /** One direction: the bytes on the way, how much of the sender's buffer in flight is among them
      or beyond, and how many bytes were never put on the wire although their write succeeded. */
  datatype Wire = Wire(channel: bytes, sent: nat, dropped: nat)

  datatype Net = Net(left: Session, right: Session, toRight: Wire, toLeft: Wire) {

    function At(side: Side): Session {
      if side == Left then left else right
    }

    /** The direction in which a side sends. */
    function From(side: Side): Wire {
      if side == Left then toRight else toLeft
    }

    function Put(side: Side, s: Session): Net {
      if side == Left then this.(left := s) else this.(right := s)
    }

    function PutWire(side: Side, w: Wire): Net {
      if side == Left then this.(toRight := w) else this.(toLeft := w)
    }
  }

  function Other(side: Side): Side {
    if side == Left then Right else Left
  }

  datatype NetEvent =
    | Local(call: Call)
    | Connect(onConnection: seq<Call>, initData: seq<Call>)
    | Transmit(count: nat)
    | Complete(ok: bool, onWritten: seq<Call>)
    | Deliver(count: nat, onMessage: seq<Call>)
    | ReadError(result: ReadResult)

  /** What happens, and at which side. */
  datatype Happening = Happening(side: Side, event: NetEvent)

  function Enabled(n: Net, h: Happening): bool {
    var s := n.At(h.side);
    match h.event
    case Local(_) => true
    case Connect(_, _) => s.log.established == 0
    case Transmit(count) => s.log.pendingWrites > 0 && n.From(h.side).sent + count <= |s.sending|
    case Complete(_, _) => s.log.pendingWrites > 0
    case Deliver(count, _) => s.log.pendingReads > 0 && count <= |n.From(Other(h.side)).channel|
    case ReadError(result) => s.log.pendingReads > 0 && !result.Data?
  }

  /** The event of the session itself, if it is concerned. */
  function SessionEvent(n: Net, h: Happening): Option<Event>
    requires Enabled(n, h)
  {
    match h.event
    case Local(call) => Some(Api(call))
    case Connect(onConnection, initData) => Some(Establish(onConnection, initData))
    case Transmit(_) => None
    case Complete(ok, onWritten) => Some(WriteDone(ok, onWritten))
    case Deliver(count, onMessage) => Some(ReadDone(Data(n.From(Other(h.side)).channel[..count], onMessage)))
    case ReadError(result) => Some(ReadDone(result))
  }

  /** What happens on the wires. */
  function WireStep(n: Net, h: Happening): Net
    requires Enabled(n, h)
  {
    var s, w, back := n.At(h.side), n.From(h.side), n.From(Other(h.side));
    match h.event
    case Transmit(count) =>
      n.PutWire(h.side, w.(channel := w.channel + s.sending[w.sent..w.sent + count], sent := w.sent + count))
    case Complete(ok, _) =>
      if ok && w.sent <= |s.sending|
      then n.PutWire(h.side, w.(sent := 0, dropped := w.dropped + |s.sending| - w.sent))
      else n
    case Deliver(count, _) => n.PutWire(Other(h.side), back.(channel := back.channel[count..]))
    case _ => n
  }

  function NetNext(n: Net, h: Happening): Net {
    if !Enabled(n, h) then n
    else
      match SessionEvent(n, h)
      case None => WireStep(n, h)
      case Some(e) => WireStep(n, h).Put(h.side, Next(n.At(h.side), e))
  }

  function NetRun(n: Net, hs: seq<Happening>): Net
    decreases |hs|
  {
    if hs == [] then n else NetRun(NetNext(n, hs[0]), hs[1..])
  }

  const SILENT_WIRE := Wire([], 0, 0)

  function Start(left: Session, right: Session): Net {
    Net(left, right, SILENT_WIRE, SILENT_WIRE)
  }

  /// One direction of the connection

  /** Everything handed over is received, on the channel, still in the buffer in flight, or dropped. */
  ghost predicate Flow(tx: Session, w: Wire, rx: Session) {
    && w.sent <= |tx.sending|
    && |rx.log.received| + |w.channel| + |tx.sending| - w.sent + w.dropped == |Concat(tx.log.handed)|
    && (w.dropped == 0 ==> rx.log.received + w.channel + tx.sending[w.sent..] == Concat(tx.log.handed))
  }

  ghost predicate NetInv(n: Net) {
    && Inv(n.left) && Inv(n.right)
    && Flow(n.left, n.toRight, n.right)
    && Flow(n.right, n.toLeft, n.left)
  }

  lemma ConcatLast(parts: seq<bytes>, last: bytes)
    ensures Concat(parts + [last]) == Concat(parts) + last
  {
    assert (parts + [last])[..|parts|] == parts;
  }

  /** A session that hands over at most one buffer keeps the flow it feeds. */
  lemma SenderKeepsFlow(s: Session, t: Session, w: Wire, rx: Session)
    requires Inv(s) && Inv(t) && HandsOver(s, t) && Flow(s, w, rx)
    ensures Flow(t, w, rx)
  {
    if !s.operating && t.operating {
      ConcatLast(s.log.handed, t.sending);
      assert rx.log.received + w.channel + s.sending[w.sent..] == rx.log.received + w.channel;
      assert t.sending[w.sent..] == t.sending;
    }
  }

  /** A completed write empties the flight; what had not been transmitted is dropped. */
  lemma CompletionKeepsFlow(s: Session, w: Wire, rx: Session)
    requires Inv(s) && s.log.pendingWrites > 0 && Flow(s, w, rx)
    ensures Flow(WriteSucceeded(s), w.(sent := 0, dropped := w.dropped + |s.sending| - w.sent), rx)
  {
    if w.dropped == 0 && w.sent == |s.sending| {
      assert rx.log.received + w.channel + s.sending[w.sent..] == rx.log.received + w.channel;
    }
  }

  lemma TransmissionKeepsFlow(s: Session, w: Wire, rx: Session, count: nat)
    requires Flow(s, w, rx) && w.sent + count <= |s.sending|
    ensures Flow(s, w.(channel := w.channel + s.sending[w.sent..w.sent + count], sent := w.sent + count), rx)
  {
    var part, rest := s.sending[w.sent..w.sent + count], s.sending[w.sent + count..];
    assert s.sending[w.sent..] == part + rest;
    assert rx.log.received + (w.channel + part) + rest == rx.log.received + w.channel + (part + rest);
  }

  lemma DeliveryKeepsFlow(tx: Session, w: Wire, s: Session, t: Session, count: nat)
    requires Flow(tx, w, s) && count <= |w.channel|
    requires t.log.received == s.log.received + w.channel[..count]
    ensures Flow(tx, w.(channel := w.channel[count..]), t)
  {
    assert w.channel == w.channel[..count] + w.channel[count..];
    assert s.log.received + w.channel[..count] + w.channel[count..] + tx.sending[w.sent..]
        == s.log.received + w.channel + tx.sending[w.sent..];
  }

  /** The wire a session sends on, after its own step. */
  lemma SendingSide(n: Net, h: Happening, s: Session, t: Session, rx: Session)
    requires Enabled(n, h) && SessionEvent(n, h).Some? && s == n.At(h.side) && rx == n.At(Other(h.side))
    requires Inv(s) && Inv(t) && Steps(s, SessionEvent(n, h).value, t) && Flow(s, n.From(h.side), rx)
    ensures Flow(t, WireStep(n, h).From(h.side), rx)
  {
    if h.event.Complete? && h.event.ok {
      var w := n.From(h.side);
      CompletionKeepsFlow(s, w, rx);
      assert Inv(WriteSucceeded(s));
      SenderKeepsFlow(WriteSucceeded(s), t, w.(sent := 0, dropped := w.dropped + |s.sending| - w.sent), rx);
    } else {
      SenderKeepsFlow(s, t, n.From(h.side), rx);
    }
  }

  /** The wire a session receives on, after its own step. */
  lemma ReceivingSide(n: Net, h: Happening, s: Session, t: Session, tx: Session)
    requires Enabled(n, h) && SessionEvent(n, h).Some? && s == n.At(h.side) && tx == n.At(Other(h.side))
    requires Steps(s, SessionEvent(n, h).value, t) && Flow(tx, n.From(Other(h.side)), s)
    ensures Flow(tx, WireStep(n, h).From(Other(h.side)), t)
  {
    var w := n.From(Other(h.side));
    if h.event.Deliver? {
      DeliveryKeepsFlow(tx, w, s, t, h.event.count);
    } else {
      assert t.log.received == s.log.received;
    }
  }

  lemma NetNextInv(n: Net, h: Happening)
    requires NetInv(n)
    ensures NetInv(NetNext(n, h))
  {
    hide Flow, Inv, Steps, Next;
    if Enabled(n, h) {
      var s, other := n.At(h.side), n.At(Other(h.side));
      match SessionEvent(n, h)
      case None => TransmissionKeepsFlow(s, n.From(h.side), other, h.event.count);
      case Some(e) =>
        NextInv(s, e);
        SendingSide(n, h, s, Next(s, e), other);
        ReceivingSide(n, h, s, Next(s, e), other);
    }
  }

  lemma {:induction false} NetRunInv(n: Net, hs: seq<Happening>)
    requires NetInv(n)
    ensures NetInv(NetRun(n, hs))
    decreases |hs|
  {
    if hs != [] {
      NetNextInv(n, hs[0]);
      NetRunInv(NetNext(n, hs[0]), hs[1..]);
    }
  }

  /// End to end

  /** All bytes appended at one side, in order: consumed, buffered, on the way, in flight, waiting. */
  ghost predicate Conserved(n: Net, side: Side)
    requires n.From(side).sent <= |n.At(side).sending|
  {
    var tx, w, rx := n.At(side), n.From(side), n.At(Other(side));
    tx.log.appended == rx.log.consumed + rx.input + w.channel + tx.sending[w.sent..] + tx.output
  }

  predicate WriteSucceeds(n: Net, h: Happening, side: Side) {
    h.side == side && h.event.Complete? && h.event.ok && Enabled(n, h)
  }

  /** Every successful write of one side reports the whole buffer. */
  ghost predicate WritesFull(n: Net, hs: seq<Happening>, side: Side)
    decreases |hs|
  {
    hs == [] || (
      && (WriteSucceeds(n, hs[0], side) ==> n.From(side).sent == |n.At(side).sending|)
      && WritesFull(NetNext(n, hs[0]), hs[1..], side))
  }

  lemma DroppedByStep(n: Net, h: Happening, side: Side)
    requires n.From(side).sent <= |n.At(side).sending|
    ensures NetNext(n, h).From(side).dropped
         == n.From(side).dropped + if WriteSucceeds(n, h, side) then |n.At(side).sending| - n.From(side).sent else 0
  {
  }

  lemma {:induction false} DroppedIffShort(n: Net, hs: seq<Happening>, side: Side)
    requires NetInv(n)
    ensures NetRun(n, hs).From(side).dropped == 0 <==> n.From(side).dropped == 0 && WritesFull(n, hs, side)
    decreases |hs|
  {
    if hs != [] {
      NetNextInv(n, hs[0]);
      DroppedByStep(n, hs[0], side);
      DroppedIffShort(NetNext(n, hs[0]), hs[1..], side);
    }
  }

  lemma ConservedIffNothingDropped(n: Net, side: Side)
    requires NetInv(n)
    ensures Conserved(n, side) <==> n.From(side).dropped == 0
  {
    var tx, w, rx := n.At(side), n.From(side), n.At(Other(side));
    assert Flow(tx, w, rx);
    assert rx.log.consumed + rx.input + w.channel + tx.sending[w.sent..] + tx.output
        == rx.log.received + w.channel + tx.sending[w.sent..] + tx.output;
    assert tx.log.appended == Concat(tx.log.handed) + tx.output;
    if Conserved(n, side) {
      assert |rx.log.received + w.channel + tx.sending[w.sent..] + tx.output| == |Concat(tx.log.handed) + tx.output|;
    }
  }

  /** In every reachable state, for both directions, conservation holds if and only if no successful
      write so far was short. */
  lemma EndToEndConservation(leftSocket: bool, leftRetry: bool, rightSocket: bool, rightRetry: bool,
                             hs: seq<Happening>, side: Side)
    ensures
      var start := Start(Fresh(leftSocket, leftRetry), Fresh(rightSocket, rightRetry));
      var n := NetRun(start, hs);
      && n.From(side).sent <= |n.At(side).sending|
      && (Conserved(n, side) <==> WritesFull(start, hs, side))
  {
    var start := Start(Fresh(leftSocket, leftRetry), Fresh(rightSocket, rightRetry));
    assert NetInv(start);
    NetRunInv(start, hs);
    DroppedIffShort(start, hs, side);
    ConservedIffNothingDropped(NetRun(start, hs), side);
  }

  /** So a receiver has always seen a prefix of what its peer appended, and all of it at rest. */
  lemma ReceivedIsPrefix(n: Net, side: Side)
    requires NetInv(n) && Conserved(n, side)
    ensures n.At(Other(side)).log.received <= n.At(side).log.appended
    ensures n.From(side).channel == [] && n.At(side).sending[n.From(side).sent..] == [] && n.At(side).output == [] ==>
              n.At(Other(side)).log.received == n.At(side).log.appended
  {
    var tx, w, rx := n.At(side), n.From(side), n.At(Other(side));
    assert rx.log.received == rx.log.consumed + rx.input;
    assert tx.log.appended == rx.log.received + (w.channel + tx.sending[w.sent..] + tx.output);
  }

  /// Progress

  /** The rest of the buffer in flight and its completion, the buffer that waited and its completion, and
      then all that is on the way. */
  function Drain(n: Net, side: Side, onMessage: seq<Call>): seq<Happening>
    requires n.From(side).sent <= |n.At(side).sending|
  {
    var tx, w := n.At(side), n.From(side);
    var flying, waiting := |tx.sending| - w.sent, |tx.output|;
    [Happening(side, Transmit(flying)), Happening(side, Complete(true, [])),
     Happening(side, Transmit(waiting)), Happening(side, Complete(true, [])),
     Happening(Other(side), Deliver(|w.channel| + flying + waiting, onMessage))]
  }

  lemma {:induction false} NetRunConcat(n: Net, hs: seq<Happening>, more: seq<Happening>, side: Side)
    ensures NetRun(n, hs + more) == NetRun(NetRun(n, hs), more)
    ensures WritesFull(n, hs + more, side) <==> WritesFull(n, hs, side) && WritesFull(NetRun(n, hs), more, side)
    decreases |hs|
  {
    hide NetNext, WriteSucceeds;
    if hs == [] {
      assert hs + more == more;
    } else {
      assert (hs + more)[1..] == hs[1..] + more;
      NetRunConcat(NetNext(n, hs[0]), hs[1..], more, side);
    }
  }

  lemma OneStep(n: Net, h: Happening, side: Side)
    ensures NetRun(n, [h]) == NetNext(n, h)
    ensures WritesFull(n, [h], side) <==>
            (WriteSucceeds(n, h, side) ==> n.From(side).sent == |n.At(side).sending|)
  {
    assert [h][1..] == [];
    assert NetRun(n, [h]) == NetRun(NetNext(n, h), []);
  }

  /** The whole buffer in flight is transmitted and its write completes. */
  lemma SendOff(n: Net, side: Side)
    requires NetInv(n) && n.At(side).state == Connected && n.At(side).log.pendingWrites > 0
    ensures
      var tx, w, rx := n.At(side), n.From(side), n.At(Other(side));
      var hs := [Happening(side, Transmit(|tx.sending| - w.sent)), Happening(side, Complete(true, []))];
      var m := NetRun(n, hs);
      && WritesFull(n, hs, side)
      && m.At(side).state == Connected && m.At(Other(side)) == rx && m.At(side).log.appended == tx.log.appended
      && m.From(side) == Wire(w.channel + tx.sending[w.sent..], 0, w.dropped)
      && m.At(side).sending == tx.output && m.At(side).output == []
      && (m.At(side).log.pendingWrites > 0 <==> tx.output != [])
  {
    hide WritesFull, NetRun;
    var tx, w := n.At(side), n.From(side);
    assert Flow(tx, w, n.At(Other(side)));
    var first, second := Happening(side, Transmit(|tx.sending| - w.sent)), Happening(side, Complete(true, []));
    var k := NetNext(n, first);
    NetRunConcat(n, [first], [second], side);
    OneStep(n, first, side);
    OneStep(k, second, side);
    assert [first] + [second] == [first, second];
    assert tx.sending[w.sent..w.sent + (|tx.sending| - w.sent)] == tx.sending[w.sent..];
    assert k.At(side) == tx && k.From(side) == Wire(w.channel + tx.sending[w.sent..], |tx.sending|, w.dropped);
    assert Calls(WriteSucceeded(tx), []) == WriteSucceeded(tx);
  }

  /** A write that is not outstanding is neither transmitted nor completed. */
  lemma NothingToSendOff(n: Net, side: Side)
    requires n.At(side).log.pendingWrites == 0
    ensures
      var hs := [Happening(side, Transmit(0)), Happening(side, Complete(true, []))];
      NetRun(n, hs) == n && WritesFull(n, hs, side)
  {
    hide WritesFull, NetRun;
    var first, second := Happening(side, Transmit(0)), Happening(side, Complete(true, []));
    NetRunConcat(n, [first], [second], side);
    OneStep(n, first, side);
    OneStep(n, second, side);
    assert [first] + [second] == [first, second];
  }

  /** From every state of a connection whose sender has a write outstanding and whose receiver is reading,
      full completions and one delivery bring everything that was ever appended to the receiver. */
  lemma EverythingCanArrive(n: Net, side: Side, onMessage: seq<Call>)
    requires NetInv(n) && Conserved(n, side)
    requires n.At(side).state == Connected && n.At(side).log.pendingWrites > 0
    requires n.At(Other(side)).log.pendingReads > 0
    ensures
      var m := NetRun(n, Drain(n, side, onMessage));
      && WritesFull(n, Drain(n, side, onMessage), side)
      && m.At(side).output == [] && m.At(side).sending == [] && m.From(side).channel == []
      && m.At(side).log.appended == n.At(side).log.appended
      && m.At(Other(side)).log.received == n.At(side).log.appended
  {
    SentWithin(n, side);
    hide NetRun, WritesFull, Conserved, NetInv;
    var hs := Drain(n, side, onMessage);
    SendTwice(n, side);
    var m := NetRun(n, hs[..4]);
    assert hs == hs[..4] + [hs[4]] && hs[..4] == [hs[0], hs[1], hs[2], hs[3]];
    NetRunConcat(n, hs[..4], [hs[4]], side);
    OneStep(m, hs[4], side);
    NetRunInv(n, hs);
    NetRunInv(n, hs[..4]);
    DeliverAll(m, hs[4], side);
    DroppedIffShort(n, hs, side);
    ConservedIffNothingDropped(n, side);
    ConservedIffNothingDropped(NetRun(n, hs), side);
    ReceivedIsPrefix(NetRun(n, hs), side);
  }

  lemma SendTwice(n: Net, side: Side)
    requires NetInv(n) && n.At(side).state == Connected && n.At(side).log.pendingWrites > 0
    ensures
      var tx, w := n.At(side), n.From(side);
      var hs := [Happening(side, Transmit(|tx.sending| - w.sent)), Happening(side, Complete(true, [])),
                 Happening(side, Transmit(|tx.output|)), Happening(side, Complete(true, []))];
      var m := NetRun(n, hs);
      && WritesFull(n, hs, side)
      && m.At(Other(side)) == n.At(Other(side)) && m.At(side).log.appended == tx.log.appended
      && m.At(side).sending == [] && m.At(side).output == [] && m.From(side).sent == 0
      && m.From(side).channel == w.channel + tx.sending[w.sent..] + tx.output
  {
    hide NetRun, WritesFull, NetInv;
    var tx, w := n.At(side), n.From(side);
    assert w.sent <= |tx.sending| by { SentWithin(n, side); }
    var hs := [Happening(side, Transmit(|tx.sending| - w.sent)), Happening(side, Complete(true, []))];
    var more := [Happening(side, Transmit(|tx.output|)), Happening(side, Complete(true, []))];
    var k := NetRun(n, hs);
    SendOff(n, side);
    NetRunInv(n, hs);
    NetRunConcat(n, hs, more, side);
    assert hs + more == [hs[0], hs[1], more[0], more[1]];
    if tx.output == [] {
      NothingToSendOff(k, side);
      assert w.channel + tx.sending[w.sent..] + tx.output == w.channel + tx.sending[w.sent..];
    } else {
      SendOff(k, side);
      assert k.At(side).sending[0..] == tx.output;
    }
  }

  lemma SentWithin(n: Net, side: Side)
    requires NetInv(n)
    ensures n.From(side).sent <= |n.At(side).sending|
  {
    assert Flow(n.At(side), n.From(side), n.At(Other(side)));
  }

  /** One delivery of all that is on the way. */
  lemma DeliverAll(n: Net, h: Happening, side: Side)
    requires h.side == Other(side) && h.event.Deliver? && h.event.count == |n.From(side).channel|
    requires n.At(Other(side)).log.pendingReads > 0
    ensures NetNext(n, h).From(side) == n.From(side).(channel := []) && NetNext(n, h).At(side) == n.At(side)
    ensures !WriteSucceeds(n, h, side)
  {
    assert n.From(side).channel[h.event.count..] == [];
  }
}
