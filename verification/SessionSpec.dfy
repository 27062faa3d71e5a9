/** A `TCPSession` as a state machine over its calls and completion handlers.

User callbacks are arbitrary re-entrant code. A callback is a finite script of calls on the same
session; a call that closes the session carries the script of the close callback in turn. What the
environment does (connections, completions) is an `Event`. `log` records what an observer sees.
 */
module SessionSpec {
  import opened Bytes

  datatype ConnState = Disconnected | Connecting | Connected | Disconnecting

  datatype Log = Log(
    appended: bytes,        // everything passed to addMore and send
    handed: seq<bytes>,     // the buffers passed to async_send, one entry a call
    received: bytes,        // everything that arrived
    consumed: bytes,        // everything the callbacks took out of the input buffer
    pendingReads: nat,      // async_read_some operations outstanding
    pendingWrites: nat,     // async_send operations outstanding
    established: nat,       // calls of connectEstablished
    closed: nat,            // calls of the close callback
    restarts: nat,          // calls of the connector's restart
    writeErrors: nat,       // writes that completed with an error
    fault: bool)            // a null socket has been dereferenced

  datatype Session = Session(
    state: ConnState,
    socket: bool,           // socket_ is not null
    output: bytes,
    sending: bytes,
    operating: bool,        // the operating flag of the send buffer
    input: bytes,
    retry: bool,
    log: Log)

  datatype Call =
    | AddMore(data: bytes)
    | Send(data: bytes)
    | Consume(len: nat)     // a callback retrieves from the input buffer, at most what is readable
    | Shutdown
    | ForceClose(onClose: seq<Call>)
    | ConnectDestroyed(onClose: seq<Call>)
    | Reconnect(onClose: seq<Call>)

  datatype ReadResult =
    | Data(chunk: bytes, onMessage: seq<Call>)
    | Aborted
    | Transient             // interrupted, try_again
    | Failed(onClose: seq<Call>)

  datatype Event =
    | Api(call: Call)
    | Establish(onConnection: seq<Call>, initData: seq<Call>)
    | WriteDone(ok: bool, onWritten: seq<Call>)
    | ReadDone(result: ReadResult)

  function Fresh(socket: bool, retry: bool): Session {
    Session(Connecting, socket, [], [], false, [], retry, Log([], [], [], [], 0, 0, 0, 0, 0, 0, false))
  }

  /// What each function of the class does

  function Appended(s: Session, data: bytes): Session {
    s.(output := s.output + data, log := s.log.(appended := s.log.appended + data))
  }

  function InternalSend(s: Session): Session {
    if s.state != Connected || s.operating || s.output == [] then s
    else
      s.(sending := s.output, output := s.sending, operating := true,
         log := s.log.(handed := s.log.handed + [s.output], pendingWrites := s.log.pendingWrites + 1,
                       fault := s.log.fault || !s.socket))
  }

  function StartRead(s: Session): Session {
    if s.state == Connected
    then s.(log := s.log.(pendingReads := s.log.pendingReads + 1, fault := s.log.fault || !s.socket))
    else s
  }

  function Closed(s: Session): Session {
    s.(state := Disconnected, socket := false,
       log := s.log.(closed := s.log.closed + 1, fault := s.log.fault || !s.socket))
  }

  function HandClose(s: Session, onClose: seq<Call>): Session
    decreases onClose, 1
  {
    if s.state == Connected || s.state == Connecting then Calls(Closed(s), onClose) else s
  }

  function DoCall(s: Session, c: Call): Session
    decreases c
  {
    match c
    case AddMore(data) => Appended(s, data)
    case Send(data) => InternalSend(Appended(s, data))
    case Consume(len) =>
      var n := Min(len, |s.input|);
      s.(input := s.input[n..], log := s.log.(consumed := s.log.consumed + s.input[..n]))
    case Shutdown =>
      if s.state == Connected
      then s.(state := Disconnecting, log := s.log.(fault := s.log.fault || !s.socket))
      else s
    case ForceClose(onClose) =>
      if s.state == Connected || s.state == Disconnecting then HandClose(s, onClose) else s
    case ConnectDestroyed(onClose) =>
      if s.state == Connected then HandClose(s, onClose) else s
    case Reconnect(onClose) =>
      var t := if s.state == Connected then HandClose(s, onClose) else s;
      if t.retry then t.(log := t.log.(restarts := t.log.restarts + 1)) else t
  }

  function Calls(s: Session, cs: seq<Call>): Session
    decreases cs, 0
  {
    if cs == [] then s else Calls(DoCall(s, cs[0]), cs[1..])
  }

  function Opened(s: Session): Session {
    s.(socket := true, state := Connected, log := s.log.(established := s.log.established + 1))
  }

  function Established(s: Session, onConnection: seq<Call>, initData: seq<Call>): Session {
    Calls(Calls(StartRead(Opened(s)), onConnection), initData)
  }

  function HandWrite(s: Session, ok: bool, onWritten: seq<Call>): Session
    requires s.log.pendingWrites > 0
  {
    if ok then InternalSend(Calls(WriteSucceeded(s), onWritten)) else WriteFailed(s)
  }

  function WriteSucceeded(s: Session): Session
    requires s.log.pendingWrites > 0
  {
    s.(operating := false, sending := [], log := s.log.(pendingWrites := s.log.pendingWrites - 1))
  }

  function WriteFailed(s: Session): Session
    requires s.log.pendingWrites > 0
  {
    s.(log := s.log.(pendingWrites := s.log.pendingWrites - 1, writeErrors := s.log.writeErrors + 1))
  }

  function ReadEnded(s: Session): Session
    requires s.log.pendingReads > 0
  {
    s.(log := s.log.(pendingReads := s.log.pendingReads - 1))
  }

  function Arrived(s: Session, chunk: bytes): Session {
    s.(input := s.input + chunk, log := s.log.(received := s.log.received + chunk))
  }

  function HandRead(s: Session, result: ReadResult): Session
    requires s.log.pendingReads > 0
  {
    var t := ReadEnded(s);
    match result
    case Data(chunk, onMessage) => StartRead(Calls(Arrived(t, chunk), onMessage))
    case Aborted => t
    case Transient => StartRead(t)
    case Failed(onClose) => HandClose(t, onClose)
  }

  /** Completions arrive only for operations that are outstanding. */
  function Next(s: Session, e: Event): Session {
    match e
    case Api(call) => DoCall(s, call)
    case Establish(onConnection, initData) => Established(s, onConnection, initData)
    case WriteDone(ok, onWritten) => if s.log.pendingWrites == 0 then s else HandWrite(s, ok, onWritten)
    case ReadDone(result) => if s.log.pendingReads == 0 then s else HandRead(s, result)
  }

  function Run(s: Session, es: seq<Event>): Session
    decreases |es|
  {
    if es == [] then s else Run(Next(s, es[0]), es[1..])
  }

  function Concat(parts: seq<bytes>): bytes {
    if parts == [] then [] else Concat(parts[..|parts| - 1]) + parts[|parts| - 1]
  }

  /// The invariant

  predicate Live(s: Session) {
    s.state == Connected || s.state == Disconnecting
  }

  ghost predicate Inv(s: Session) {
    // the bytes handed over, then the waiting ones, are the bytes appended
    && s.log.appended == Concat(s.log.handed) + s.output
    && s.log.received == s.log.consumed + s.input
    // the buffer in flight is the one handed over last; an idle send buffer is empty
    && (if s.operating then s.log.handed != [] && s.sending == s.log.handed[|s.log.handed| - 1] else s.sending == [])
    // at most one write, and the flag stays up for ever after a failed one
    && s.log.pendingWrites + s.log.writeErrors == (if s.operating then 1 else 0)
    // life cycle
    && (Live(s) ==> s.socket)
    && (s.state == Connecting ==> s.log.pendingReads == 0 && s.log.established == 0)
    && s.log.closed + (if Live(s) then 1 else 0) <= s.log.established
    && s.log.pendingReads <= s.log.established
    && !s.log.fault
  }

  /** A buffer in flight is frozen; an idle session hands over at most one buffer. */
  ghost predicate HandsOver(s: Session, t: Session) {
    if s.operating then t.operating && t.sending == s.sending && t.log.handed == s.log.handed
    else if t.operating then t.log.handed == s.log.handed + [t.sending]
    else t.log.handed == s.log.handed
  }

  /** What any script of calls may do to a session, and no more. */
  ghost predicate Follows(s: Session, t: Session) {
    && s.log.appended <= t.log.appended
    && s.log.consumed <= t.log.consumed
    && t.log.received == s.log.received
    && t.log.pendingReads == s.log.pendingReads && t.log.established == s.log.established
    && t.log.writeErrors == s.log.writeErrors
    && t.retry == s.retry
    && HandsOver(s, t)
    && (s.state != Connected ==> t.state == s.state && t.log.handed == s.log.handed && t.socket == s.socket)
    && (s.state == Connected ==> t.state != Connecting)
    && t.log.closed == s.log.closed + (if s.state == Connected && t.state == Disconnected then 1 else 0)
  }

  lemma InternalSendFollows(s: Session)
    requires Inv(s)
    ensures Inv(InternalSend(s)) && Follows(s, InternalSend(s))
  {
    var t := InternalSend(s);
    if t != s {
      assert t.log.handed[..|s.log.handed|] == s.log.handed;
      assert Concat(t.log.handed) == Concat(s.log.handed) + s.output;
    }
  }

  lemma AppendedFollows(s: Session, data: bytes)
    requires Inv(s)
    ensures Inv(Appended(s, data)) && Follows(s, Appended(s, data))
  {
  }

  lemma FollowsTransitive(s: Session, t: Session, u: Session)
    requires Follows(s, t) && Follows(t, u)
    ensures Follows(s, u)
  {
  }

  lemma SendFollows(s: Session, data: bytes)
    requires Inv(s)
    ensures Inv(DoCall(s, Send(data))) && Follows(s, DoCall(s, Send(data)))
  {
    AppendedFollows(s, data);
    InternalSendFollows(Appended(s, data));
    FollowsTransitive(s, Appended(s, data), InternalSend(Appended(s, data)));
  }

  lemma ConsumeFollows(s: Session, len: nat)
    requires Inv(s)
    ensures Inv(DoCall(s, Consume(len))) && Follows(s, DoCall(s, Consume(len)))
  {
    var n := Min(len, |s.input|);
    assert s.input == s.input[..n] + s.input[n..];
  }

  /** A connected session ends up disconnected, without a socket and with one more close callback; any
      other is left as it was. */
  ghost predicate ClosesIfConnected(s: Session, t: Session) {
    if s.state == Connected
    then t.state == Disconnected && !t.socket && t.log.closed == s.log.closed + 1
    else t == s
  }

  lemma {:induction false} HandCloseFollows(s: Session, onClose: seq<Call>)
    requires Inv(s) && s.state != Connecting
    ensures Inv(HandClose(s, onClose)) && Follows(s, HandClose(s, onClose))
    ensures ClosesIfConnected(s, HandClose(s, onClose))
    decreases onClose, 1
  {
    if s.state == Connected {
      CallsFollow(Closed(s), onClose);
    }
  }

  lemma ShutdownFollows(s: Session)
    requires Inv(s)
    ensures Inv(DoCall(s, Shutdown)) && Follows(s, DoCall(s, Shutdown))
    ensures Follows(s, s)
  {
  }

  lemma RestartFollows(s: Session, t: Session)
    requires Inv(t) && Follows(s, t)
    ensures
      var u := t.(log := t.log.(restarts := t.log.restarts + 1));
      Inv(u) && Follows(s, u)
  {
  }

  lemma {:induction false} CallFollows(s: Session, c: Call)
    requires Inv(s)
    ensures Inv(DoCall(s, c)) && Follows(s, DoCall(s, c))
    decreases c
  {
    hide Inv, Follows, HandClose;
    ShutdownFollows(s);
    match c
    case AddMore(data) => AppendedFollows(s, data);
    case Send(data) => SendFollows(s, data);
    case Consume(len) => ConsumeFollows(s, len);
    case Shutdown =>
    case ForceClose(onClose) => if s.state != Connecting { HandCloseFollows(s, onClose); }
    case ConnectDestroyed(onClose) => if s.state == Connected { HandCloseFollows(s, onClose); }
    case Reconnect(onClose) =>
      if s.state == Connected { HandCloseFollows(s, onClose); }
      RestartFollows(s, if s.state == Connected then HandClose(s, onClose) else s);
  }

  /** Every script of re-entrant calls keeps the invariant and stays within `Follows`. */
  lemma {:induction false} CallsFollow(s: Session, cs: seq<Call>)
    requires Inv(s)
    ensures Inv(Calls(s, cs)) && Follows(s, Calls(s, cs))
    decreases cs, 0
  {
    if cs != [] {
      var t := DoCall(s, cs[0]);
      CallFollows(s, cs[0]);
      CallsFollow(t, cs[1..]);
      FollowsTransitive(s, t, Calls(t, cs[1..]));
    }
  }

  /** What one event may do to a session, and no more. */
  ghost predicate Steps(s: Session, e: Event, t: Session) {
    // only the completion of the write touches a buffer in flight
    && HandsOver(if e.WriteDone? && e.ok && s.log.pendingWrites > 0 then WriteSucceeded(s) else s, t)
    && (s.operating && (e.WriteDone? ==> s.log.pendingWrites == 0) ==> t.log.pendingWrites == s.log.pendingWrites)
    && t.log.received == s.log.received + (
         if e.ReadDone? && e.result.Data? && s.log.pendingReads > 0 then e.result.chunk else [])
    // only a new connection leaves the state after a shutdown
    && (s.state == Disconnecting && !e.Establish? ==>
          && t.state == Disconnecting && t.socket == s.socket
          && t.log.closed == s.log.closed && t.log.handed == s.log.handed)
  }

  lemma EstablishedInv(s: Session, onConnection: seq<Call>, initData: seq<Call>)
    requires Inv(s)
    ensures
      var t := Established(s, onConnection, initData);
      Inv(t) && Steps(s, Establish(onConnection, initData), t)
  {
    var t := StartRead(Opened(s));
    var u := Calls(t, onConnection);
    CallsFollow(t, onConnection);
    CallsFollow(u, initData);
    FollowsTransitive(t, u, Calls(u, initData));
  }

  lemma HandWriteInv(s: Session, ok: bool, onWritten: seq<Call>)
    requires Inv(s) && s.log.pendingWrites > 0
    ensures
      var t := HandWrite(s, ok, onWritten);
      Inv(t) && Steps(s, WriteDone(ok, onWritten), t)
  {
    if ok {
      var t := WriteSucceeded(s);
      CallsFollow(t, onWritten);
      InternalSendFollows(Calls(t, onWritten));
      FollowsTransitive(t, Calls(t, onWritten), InternalSend(Calls(t, onWritten)));
    }
  }

  lemma MessageInv(s: Session, chunk: bytes, onMessage: seq<Call>)
    requires Inv(s) && s.log.pendingReads > 0
    ensures
      var t := HandRead(s, Data(chunk, onMessage));
      Inv(t) && Steps(s, ReadDone(Data(chunk, onMessage)), t)
  {
    var u := Arrived(ReadEnded(s), chunk);
    assert Inv(u);
    CallsFollow(u, onMessage);
  }

  lemma HandReadInv(s: Session, result: ReadResult)
    requires Inv(s) && s.log.pendingReads > 0
    ensures
      var t := HandRead(s, result);
      Inv(t) && Steps(s, ReadDone(result), t)
  {
    match result
    case Data(chunk, onMessage) => MessageInv(s, chunk, onMessage);
    case Aborted =>
    case Transient =>
    case Failed(onClose) => HandCloseFollows(ReadEnded(s), onClose);
  }

  lemma {:induction false} NextInv(s: Session, e: Event)
    requires Inv(s)
    ensures Inv(Next(s, e)) && Steps(s, e, Next(s, e))
  {
    match e
    case Api(call) => CallFollows(s, call);
    case Establish(onConnection, initData) => EstablishedInv(s, onConnection, initData);
    case WriteDone(ok, onWritten) => if s.log.pendingWrites > 0 { HandWriteInv(s, ok, onWritten); }
    case ReadDone(result) => if s.log.pendingReads > 0 { HandReadInv(s, result); }
  }

  lemma {:induction false} RunInv(s: Session, es: seq<Event>)
    requires Inv(s)
    ensures Inv(Run(s, es))
    decreases |es|
  {
    if es != [] {
      NextInv(s, es[0]);
      RunInv(Next(s, es[0]), es[1..]);
    }
  }

  /// The input buffer

  /** A call that takes nothing out of the input buffer, its nested callbacks included. */
  predicate LeavesInput(c: Call)
    decreases c
  {
    match c
    case Consume(_) => false
    case ForceClose(onClose) => LeaveInput(onClose)
    case ConnectDestroyed(onClose) => LeaveInput(onClose)
    case Reconnect(onClose) => LeaveInput(onClose)
    case _ => true
  }

  predicate LeaveInput(cs: seq<Call>)
    decreases cs, 0
  {
    cs == [] || (LeavesInput(cs[0]) && LeaveInput(cs[1..]))
  }

  lemma {:induction false} CallKeepsInput(s: Session, c: Call)
    requires LeavesInput(c)
    ensures DoCall(s, c).input == s.input
    decreases c
  {
    match c
    case ForceClose(onClose) => CallsKeepInput(Closed(s), onClose);
    case ConnectDestroyed(onClose) => CallsKeepInput(Closed(s), onClose);
    case Reconnect(onClose) => CallsKeepInput(Closed(s), onClose);
    case _ =>
  }

  lemma {:induction false} CallsKeepInput(s: Session, cs: seq<Call>)
    requires LeaveInput(cs)
    ensures Calls(s, cs).input == s.input
    decreases cs, 0
  {
    if cs != [] {
      CallKeepsInput(s, cs[0]);
      CallsKeepInput(DoCall(s, cs[0]), cs[1..]);
    }
  }

  /// The properties of whole runs

  /** Nothing is lost, doubled or reordered on the way to async_send, whatever the callbacks do. */
  lemma SendSideFifo(socket: bool, retry: bool, es: seq<Event>)
    ensures
      var s := Run(Fresh(socket, retry), es);
      && s.log.appended == Concat(s.log.handed) + s.output
      && s.log.received == s.log.consumed + s.input
  {
    RunInv(Fresh(socket, retry), es);
  }

  /** At most one write is outstanding, it concerns the buffer in flight, and an idle send buffer is empty. */
  lemma AtMostOneWrite(socket: bool, retry: bool, es: seq<Event>)
    ensures
      var s := Run(Fresh(socket, retry), es);
      && s.log.pendingWrites <= 1
      && (s.log.pendingWrites == 1 ==>
            s.operating && s.log.handed != [] && s.sending == s.log.handed[|s.log.handed| - 1])
      && (!s.operating ==> s.sending == [])
  {
    RunInv(Fresh(socket, retry), es);
  }

  /** The close callback fires at most once a connection, and no step dereferences a null socket. */
  lemma Lifecycle(socket: bool, retry: bool, es: seq<Event>)
    ensures
      var s := Run(Fresh(socket, retry), es);
      && s.log.closed + (if Live(s) then 1 else 0) <= s.log.established
      && (Live(s) ==> s.socket)
      && !s.log.fault
  {
    RunInv(Fresh(socket, retry), es);
  }

  /** Every connection has at most one read outstanding, so that a session that was connected once has
      never more than one. */
  lemma ReadsAtMostConnections(socket: bool, retry: bool, es: seq<Event>)
    ensures
      var s := Run(Fresh(socket, retry), es);
      s.log.pendingReads <= s.log.established
  {
    RunInv(Fresh(socket, retry), es);
  }

  predicate NoWriteDone(es: seq<Event>) {
    forall i :: 0 <= i < |es| ==> !es[i].WriteDone?
  }

  predicate NoEstablish(es: seq<Event>) {
    forall i :: 0 <= i < |es| ==> !es[i].Establish?
  }

  /** Between hand-off and completion no run changes the bytes in flight, closes and new connections included. */
  lemma {:induction false} InFlightFrozen(s: Session, es: seq<Event>)
    requires Inv(s) && s.operating && NoWriteDone(es)
    ensures
      var t := Run(s, es);
      && t.operating && t.sending == s.sending
      && t.log.handed == s.log.handed && t.log.pendingWrites == s.log.pendingWrites
    decreases |es|
  {
    if es != [] {
      assert !es[0].WriteDone?;
      NextInv(s, es[0]);
      InFlightFrozen(Next(s, es[0]), es[1..]);
    }
  }

  /** A session is silent when its flag is up and no completion can ever lower it. */
  predicate Silent(s: Session) {
    s.operating && s.log.pendingWrites == 0
  }

  /** Exactly the sessions that have seen a failed write are silent. */
  lemma SilentIffWriteFailed(socket: bool, retry: bool, es: seq<Event>)
    ensures
      var s := Run(Fresh(socket, retry), es);
      Silent(s) <==> s.log.writeErrors > 0
  {
    RunInv(Fresh(socket, retry), es);
  }

  /** A silent session never hands a byte to a socket again, not even after it has reconnected. */
  lemma {:induction false} SilentForGood(s: Session, es: seq<Event>)
    requires Inv(s) && Silent(s)
    ensures Silent(Run(s, es)) && Run(s, es).log.handed == s.log.handed
    decreases |es|
  {
    if es != [] {
      NextInv(s, es[0]);
      SilentForGood(Next(s, es[0]), es[1..]);
    }
  }

  /** After `shutdown` the session hangs: until it is established again, no call and no completion
      closes it, releases its socket, fires the close callback or sends a byte. */
  lemma {:induction false} ShutdownNeverCloses(s: Session, es: seq<Event>)
    requires Inv(s) && s.state == Disconnecting && NoEstablish(es)
    ensures
      var t := Run(s, es);
      t.state == Disconnecting && t.socket && t.log.closed == s.log.closed && t.log.handed == s.log.handed
    decreases |es|
  {
    if es != [] {
      assert !es[0].Establish?;
      NextInv(s, es[0]);
      ShutdownNeverCloses(Next(s, es[0]), es[1..]);
    }
  }

  /** So `forceClose` closes a session if and only if it is connected, whatever the close callback does:
      one more close callback, no socket, and nothing at all in every other state. */
  lemma ForceCloseClosesIff(s: Session, onClose: seq<Call>)
    requires Inv(s)
    ensures
      var t := DoCall(s, ForceClose(onClose));
      && ClosesIfConnected(s, t)
      && (t.log.closed > s.log.closed <==> s.state == Connected)
  {
    if s.state == Connected || s.state == Disconnecting {
      HandCloseFollows(s, onClose);
    }
  }

  /** The same for a read that fails: the error closes the session if and only if it is connected. */
  lemma FailedReadClosesIff(s: Session, onClose: seq<Call>)
    requires Inv(s) && s.log.pendingReads > 0
    ensures
      var t := HandRead(s, Failed(onClose));
      && ClosesIfConnected(ReadEnded(s), t)
      && (t.log.closed > s.log.closed <==> s.state == Connected)
  {
    HandCloseFollows(ReadEnded(s), onClose);
  }

  /** On a connected session, what `send` leaves behind is either in flight or waiting for a completion. */
  lemma SendLeavesNothingIdle(s: Session, data: bytes)
    requires Inv(s) && s.state == Connected
    ensures
      var t := DoCall(s, Send(data));
      t.operating || t.output == []
  {
    AppendedFollows(s, data);
    InternalSendFollows(Appended(s, data));
  }

  /// Progress

  /** Nothing waits that a connected session could hand over. */
  predicate Flushed(s: Session) {
    s.operating || s.output == []
  }

  /** A completed write hands over what is waiting, whatever its callback did. */
  lemma CompletionFlushes(s: Session, onWritten: seq<Call>)
    requires Inv(s) && s.log.pendingWrites > 0
    ensures
      var t := HandWrite(s, true, onWritten);
      t.state == Connected ==> Flushed(t)
  {
  }

  /** Two completions drain a connected session with a write outstanding: all that was appended has been
      handed over, and nothing is in flight. */
  lemma TwoCompletionsDrain(s: Session)
    requires Inv(s) && s.state == Connected && s.log.pendingWrites > 0
    ensures
      var t := Run(s, [WriteDone(true, []), WriteDone(true, [])]);
      && t.output == [] && t.sending == [] && !t.operating && t.log.pendingWrites == 0
      && t.log.appended == s.log.appended == Concat(t.log.handed)
  {
    var e := WriteDone(true, []);
    var t := Next(s, e);
    var u := Next(t, e);
    assert [e, e][1..] == [e] && [e][1..] == [];
    assert Run(s, [e, e]) == Run(t, [e]) == Run(u, []) == u;
    NextInv(s, e);
    NextInv(t, e);
  }

  /** How many reads a completed read starts: exactly one after data and after a transient error, if the
      session is connected then. */
  lemma ReadsGoOn(s: Session, result: ReadResult)
    requires Inv(s) && s.log.pendingReads > 0
    ensures
      var t := HandRead(s, result);
      t.log.pendingReads == s.log.pendingReads - 1 +
        if t.state == Connected && (result.Data? || result.Transient?) then 1 else 0
    ensures result.Failed? ==> HandRead(s, result).state != Connected
  {
    match result
    case Data(chunk, onMessage) =>
      assert Inv(Arrived(ReadEnded(s), chunk));
      CallsFollow(Arrived(ReadEnded(s), chunk), onMessage);
    case Aborted =>
    case Transient =>
    case Failed(onClose) => HandCloseFollows(ReadEnded(s), onClose);
  }

  /** A new connection starts one read, whatever the callbacks do. */
  lemma EstablishedReads(s: Session, onConnection: seq<Call>, initData: seq<Call>)
    requires Inv(s)
    ensures
      var t := Established(s, onConnection, initData);
      t.log.pendingReads == s.log.pendingReads + 1 && t.log.established == s.log.established + 1
  {
    var t := StartRead(Opened(s));
    CallsFollow(t, onConnection);
    CallsFollow(Calls(t, onConnection), initData);
  }

  predicate NoAbortedRead(es: seq<Event>) {
    forall i :: 0 <= i < |es| ==> !(es[i].ReadDone? && es[i].result.Aborted?)
  }

  ghost predicate Reading(s: Session) {
    s.state == Connected ==> s.log.pendingReads >= 1
  }

  lemma NextKeepsReading(s: Session, e: Event)
    requires Inv(s) && Reading(s) && !(e.ReadDone? && e.result.Aborted?)
    ensures Reading(Next(s, e))
  {
    match e
    case Api(call) => CallFollows(s, call);
    case Establish(onConnection, initData) => EstablishedReads(s, onConnection, initData);
    case WriteDone(ok, onWritten) =>
      if s.log.pendingWrites > 0 && ok {
        var t := WriteSucceeded(s);
        CallsFollow(t, onWritten);
        InternalSendFollows(Calls(t, onWritten));
      }
    case ReadDone(result) => if s.log.pendingReads > 0 { ReadsGoOn(s, result); }
  }

  lemma {:induction false} RunKeepsReading(s: Session, es: seq<Event>)
    requires Inv(s) && Reading(s) && NoAbortedRead(es)
    ensures Reading(Run(s, es))
    decreases |es|
  {
    hide Inv, Reading, Next;
    if es != [] {
      assert !(es[0].ReadDone? && es[0].result.Aborted?);
      NextKeepsReading(s, es[0]);
      NextInv(s, es[0]);
      RunKeepsReading(Next(s, es[0]), es[1..]);
    }
  }

  /** Over every run without aborted reads, a connected session always has a read outstanding. */
  lemma ConnectedSessionReads(socket: bool, retry: bool, es: seq<Event>)
    requires NoAbortedRead(es)
    ensures
      var s := Run(Fresh(socket, retry), es);
      s.state == Connected ==> s.log.pendingReads >= 1
  {
    RunKeepsReading(Fresh(socket, retry), es);
  }

  /// Callbacks are run, each once and in order

  /** A call that closes nothing. */
  predicate WithoutClosing(cs: seq<Call>) {
    forall i :: 0 <= i < |cs| ==> !cs[i].ForceClose? && !cs[i].ConnectDestroyed? && !cs[i].Reconnect?
  }

  /** What a script gives to the session to send. */
  function Sent(cs: seq<Call>): bytes {
    if cs == [] then []
    else
      var first := match cs[0] { case AddMore(data) => data case Send(data) => data case _ => [] };
      first + Sent(cs[1..])
  }

  lemma {:induction false} ScriptAppends(s: Session, cs: seq<Call>)
    requires WithoutClosing(cs)
    ensures Calls(s, cs).log.appended == s.log.appended + Sent(cs)
    decreases |cs|
  {
    if cs != [] {
      var t := DoCall(s, cs[0]);
      assert !cs[0].ForceClose? && !cs[0].ConnectDestroyed? && !cs[0].Reconnect?;
      ScriptAppends(t, cs[1..]);
      var first := match cs[0] { case AddMore(data) => data case Send(data) => data case _ => [] };
      assert t.log.appended == s.log.appended + first;
      assert s.log.appended + first + Sent(cs[1..]) == s.log.appended + (first + Sent(cs[1..]));
    }
  }

  predicate EventWithoutClosing(e: Event) {
    match e
    case Api(call) => WithoutClosing([call])
    case Establish(onConnection, initData) => WithoutClosing(onConnection) && WithoutClosing(initData)
    case WriteDone(_, onWritten) => WithoutClosing(onWritten)
    case ReadDone(Data(_, onMessage)) => WithoutClosing(onMessage)
    case ReadDone(Failed(onClose)) => WithoutClosing(onClose)
    case ReadDone(_) => true
  }

  /** What the callbacks of an event give to the session to send. */
  function EventSends(s: Session, e: Event): bytes {
    match e
    case Api(call) => Sent([call])
    case Establish(onConnection, initData) => Sent(onConnection) + Sent(initData)
    case WriteDone(ok, onWritten) => if ok && s.log.pendingWrites > 0 then Sent(onWritten) else []
    case ReadDone(Data(_, onMessage)) => if s.log.pendingReads > 0 then Sent(onMessage) else []
    case ReadDone(Failed(onClose)) => if s.log.pendingReads > 0 && s.state == Connected then Sent(onClose) else []
    case ReadDone(_) => []
  }

  /** Every event runs its callbacks once: the connection callback and then the initial data, the write
      callback of a successful write, the message callback of an arrival, and the close callback of a failed
      read on a connected session. */
  lemma EventRunsCallbacks(s: Session, e: Event)
    requires Inv(s) && EventWithoutClosing(e)
    ensures Next(s, e).log.appended == s.log.appended + EventSends(s, e)
  {
    match e
    case Api(call) =>
      ScriptAppends(s, [call]);
      assert [call][1..] == [];
      assert Calls(s, [call]) == DoCall(s, call);
    case Establish(onConnection, initData) => EstablishedRunsCallbacks(s, onConnection, initData);
    case WriteDone(ok, onWritten) => if s.log.pendingWrites > 0 { ScriptAppends(WriteSucceeded(s), onWritten); }
    case ReadDone(result) => if s.log.pendingReads > 0 { ReadRunsCallback(s, result); }
  }

  lemma EstablishedRunsCallbacks(s: Session, onConnection: seq<Call>, initData: seq<Call>)
    requires WithoutClosing(onConnection) && WithoutClosing(initData)
    ensures Established(s, onConnection, initData).log.appended
         == s.log.appended + (Sent(onConnection) + Sent(initData))
  {
    hide DoCall;
    var t := StartRead(Opened(s));
    ScriptAppends(t, onConnection);
    ScriptAppends(Calls(t, onConnection), initData);
    assert s.log.appended + Sent(onConnection) + Sent(initData)
        == s.log.appended + (Sent(onConnection) + Sent(initData));
  }

  lemma ReadRunsCallback(s: Session, result: ReadResult)
    requires Inv(s) && s.log.pendingReads > 0 && EventWithoutClosing(ReadDone(result))
    ensures HandRead(s, result).log.appended == s.log.appended + EventSends(s, ReadDone(result))
  {
    hide DoCall;
    match result
    case Data(chunk, onMessage) => ScriptAppends(Arrived(ReadEnded(s), chunk), onMessage);
    case Failed(onClose) => ScriptAppends(Closed(ReadEnded(s)), onClose);
    case _ =>
  }

  predicate OnlyTraffic(cs: seq<Call>) {
    forall i :: 0 <= i < |cs| ==> cs[i].AddMore? || cs[i].Send? || cs[i].Consume?
  }

  lemma {:induction false} TrafficKeepsState(s: Session, cs: seq<Call>)
    requires OnlyTraffic(cs)
    ensures Calls(s, cs).state == s.state && Calls(s, cs).socket == s.socket
    ensures Calls(s, cs).log.closed == s.log.closed
    decreases |cs|
  {
    if cs != [] {
      assert cs[0].AddMore? || cs[0].Send? || cs[0].Consume?;
      TrafficKeepsState(DoCall(s, cs[0]), cs[1..]);
    }
  }

  /** What the environment does, with callbacks that only send and take bytes. */
  predicate TrafficEvent(e: Event) {
    match e
    case Api(call) => OnlyTraffic([call])
    case Establish(onConnection, initData) => OnlyTraffic(onConnection) && OnlyTraffic(initData)
    case WriteDone(_, onWritten) => OnlyTraffic(onWritten)
    case ReadDone(Data(_, onMessage)) => OnlyTraffic(onMessage)
    case ReadDone(Failed(onClose)) => OnlyTraffic(onClose)
    case ReadDone(_) => true
  }

  /** The state changes by itself in two ways only: a new connection is connected, and a failed read on a
      connected session disconnects. Writes, successful or not, other reads and aborted ones change nothing. */
  lemma StateByItself(s: Session, e: Event)
    requires Inv(s) && TrafficEvent(e)
    ensures
      var t := Next(s, e);
      if e.Establish? then t.state == Connected && t.socket && t.log.closed == s.log.closed
      else if e.ReadDone? && e.result.Failed? && s.log.pendingReads > 0 && s.state == Connected then
        t.state == Disconnected && !t.socket && t.log.closed == s.log.closed + 1
      else t.state == s.state && t.socket == s.socket && t.log.closed == s.log.closed
  {
    match e
    case Api(call) =>
      assert [call][0] == call;
    case Establish(onConnection, initData) =>
      var t := StartRead(Opened(s));
      TrafficKeepsState(t, onConnection);
      TrafficKeepsState(Calls(t, onConnection), initData);
    case WriteDone(ok, onWritten) =>
      if s.log.pendingWrites > 0 && ok { TrafficKeepsState(WriteSucceeded(s), onWritten); }
    case ReadDone(Data(chunk, onMessage)) =>
      if s.log.pendingReads > 0 { TrafficKeepsState(Arrived(ReadEnded(s), chunk), onMessage); }
    case ReadDone(Failed(onClose)) =>
      if s.log.pendingReads > 0 { TrafficKeepsState(Closed(ReadEnded(s)), onClose); }
    case ReadDone(_) =>
  }

  /** Destroying the connection, and reconnecting, closes the session if and only if it is connected. */
  lemma DestroyingClosesIff(s: Session, onClose: seq<Call>)
    requires Inv(s)
    ensures ClosesIfConnected(s, DoCall(s, ConnectDestroyed(onClose)))
    ensures
      var t := DoCall(s, Reconnect(onClose));
      if s.state == Connected then t.state == Disconnected && !t.socket && t.log.closed == s.log.closed + 1
      else t.state == s.state && t.socket == s.socket && t.log.closed == s.log.closed
  {
    if s.state == Connected {
      HandCloseFollows(s, onClose);
    }
  }

  /** `shutdown` on a connected session: no byte leaves it and nothing closes it until the next connection. */
  lemma ShutdownStopsForGood(s: Session, es: seq<Event>)
    requires Inv(s) && s.state == Connected && NoEstablish(es)
    ensures
      var t := Run(DoCall(s, Shutdown), es);
      t.state == Disconnecting && t.socket && t.log.closed == s.log.closed && t.log.handed == s.log.handed
  {
    ShutdownFollows(s);
    ShutdownNeverCloses(DoCall(s, Shutdown), es);
  }

  /** The close callback that the session manager installs on a client session that may retry. */
  const MANAGED_CLOSE: seq<Call> := [Reconnect([])]

  /** Reconnecting a connected, managed session restarts its connector twice; otherwise it restarts
      once, and never when retrying is disabled. */
  lemma ManagedReconnectRestarts(s: Session)
    requires Inv(s)
    ensures
      var t := DoCall(s, Reconnect(MANAGED_CLOSE));
      t.log.restarts - s.log.restarts == if !s.retry then 0 else if s.state == Connected then 2 else 1
  {
    if s.state == Connected {
      var u := Closed(s);
      assert Calls(u, MANAGED_CLOSE) == Calls(DoCall(u, Reconnect([])), []);
    }
  }
}
