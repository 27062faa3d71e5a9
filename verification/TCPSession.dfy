/** The session of TCPSession.cpp on the heap: three buffers behind swapped references.

Every method is proved to do what the state machine of SessionSpec.dfy says, and to leave the
storage of a buffer in flight alone.
 */
module TCPSessions {
  import opened Bytes
  import opened ByteQueue
  import opened DataBuffers
  import opened SessionSpec

  class TCPSession {
    var state: ConnState
    var socket: bool
    var sendBuffer: DataBuffer
    var outputBuffer: DataBuffer
    var inputBuffer: DataBuffer
    var retry: bool
    ghost var log: Log

    ghost var Repr: set<object>

    ghost predicate Valid()
      reads this, Repr
      ensures Valid() ==> this in Repr
    {
      && Repr >= {this, sendBuffer, outputBuffer, inputBuffer}
      && Repr >= {sendBuffer.buffer, outputBuffer.buffer, inputBuffer.buffer}
      && sendBuffer != outputBuffer && outputBuffer != inputBuffer && inputBuffer != sendBuffer
      && sendBuffer.buffer != outputBuffer.buffer
      && outputBuffer.buffer != inputBuffer.buffer
      && inputBuffer.buffer != sendBuffer.buffer
      && sendBuffer.Valid() && outputBuffer.Valid() && inputBuffer.Valid()
      // the output buffer is never flagged
      && !outputBuffer.isOperating
    }

    ghost function AsSession(): Session
      requires Valid()
      reads this, Repr
    {
      Session(state, socket, outputBuffer.Contents(), sendBuffer.Contents(), sendBuffer.isOperating,
              inputBuffer.Contents(), retry, log)
    }

    /** The buffer in flight is the same object, with the same storage and the same bytes. */
    twostate predicate FlightUntouched()
      reads this, sendBuffer, sendBuffer.buffer
    {
      && sendBuffer == old(sendBuffer)
      && unchanged(sendBuffer)
      && unchanged(sendBuffer.buffer)
    }

    /** A read that is outstanding finds its place: the same buffer, the same storage, the same bytes in it
        and the same write position. */
    twostate predicate InputUntouched()
      reads this, inputBuffer, inputBuffer.buffer
    {
      && inputBuffer == old(inputBuffer)
      && unchanged(inputBuffer)
      && unchanged(inputBuffer.buffer)
    }

    constructor (socket: bool, retry: bool)
      ensures Valid() && fresh(Repr)
      ensures AsSession() == SessionSpec.Fresh(socket, retry)
      ensures sendBuffer.buffer.Length == outputBuffer.buffer.Length == inputBuffer.buffer.Length == 1024
    {
      state := Connecting;
      this.socket := socket;
      this.retry := retry;
      sendBuffer := new DataBuffer();
      outputBuffer := new DataBuffer();
      inputBuffer := new DataBuffer();
      log := SessionSpec.Fresh(socket, retry).log;
      new;
      Repr := {this, sendBuffer, outputBuffer, inputBuffer, sendBuffer.buffer, outputBuffer.buffer, inputBuffer.buffer};
    }

    method AddMore(data: bytes)
      requires Valid()
      modifies Repr
      ensures Valid() && fresh(Repr - old(Repr))
      ensures AsSession() == Appended(old(AsSession()), data)
      ensures FlightUntouched() && InputUntouched()
    {
      outputBuffer.Append(data);
      Repr := Repr + {outputBuffer.buffer};
      log := log.(appended := log.appended + data);
    }

    method InternalSend()
      requires Valid()
      modifies Repr
      ensures Valid() && fresh(Repr - old(Repr))
      ensures AsSession() == SessionSpec.InternalSend(old(AsSession()))
      ensures state == Connected ==> Flushed(AsSession())
      ensures old(sendBuffer.isOperating) ==> FlightUntouched()
      ensures InputUntouched()
      // the hand-off swaps references: the storage of the output buffer is now in flight
      ensures sendBuffer == old(sendBuffer)
              || (sendBuffer == old(outputBuffer) && sendBuffer.buffer == old(outputBuffer.buffer))
    {
      if state != Connected || sendBuffer.isOperating || outputBuffer.ReadableBytes() == 0 {
        return;
      }
      sendBuffer, outputBuffer := outputBuffer, sendBuffer;
      log := log.(handed := log.handed + [sendBuffer.Contents()], pendingWrites := log.pendingWrites + 1,
                  fault := log.fault || !socket);
      sendBuffer.Operate();
    }

    method Send(data: bytes)
      requires Valid()
      modifies Repr
      ensures Valid() && fresh(Repr - old(Repr))
      ensures AsSession() == DoCall(old(AsSession()), Call.Send(data))
      ensures state == Connected ==> Flushed(AsSession())
      ensures old(sendBuffer.isOperating) ==> FlightUntouched()
      ensures InputUntouched()
    {
      AddMore(data);
      InternalSend();
    }

    /** A message callback takes bytes out of the input buffer, at most what is readable. */
    method Consume(len: nat)
      requires Valid()
      modifies this`log, inputBuffer
      ensures Valid()
      ensures AsSession() == DoCall(old(AsSession()), Call.Consume(len))
      ensures FlightUntouched()
    {
      var n := Min(len, inputBuffer.ReadableBytes());
      log := log.(consumed := log.consumed + inputBuffer.Contents()[..n]);
      inputBuffer.Retrieve(n);
    }

    method StartAsyncRead()
      requires Valid()
      modifies Repr
      ensures Valid() && fresh(Repr - old(Repr))
      ensures AsSession() == StartRead(old(AsSession()))
      ensures state == Connected ==> inputBuffer.WritableBytes() >= 1024
      ensures FlightUntouched()
    {
      if state == Connected {
        inputBuffer.EnsureWritableBytes(1024);
        Repr := Repr + {inputBuffer.buffer};
        log := log.(pendingReads := log.pendingReads + 1, fault := log.fault || !socket);
      }
    }

    method HandClose(onClose: seq<Call>)
      requires Valid()
      modifies Repr
      ensures Valid() && fresh(Repr - old(Repr))
      ensures AsSession() == SessionSpec.HandClose(old(AsSession()), onClose)
      ensures old(sendBuffer.isOperating) ==> FlightUntouched()
      ensures LeaveInput(onClose) ==> InputUntouched()
      decreases onClose, 1
    {
      if state == Connected || state == Connecting {
        MarkClosed();
        RunCalls(onClose);
      }
    }

    method MarkClosed()
      requires Valid()
      modifies this`state, this`socket, this`log
      ensures Valid() && AsSession() == Closed(old(AsSession()))
    {
      log := log.(closed := log.closed + 1, fault := log.fault || !socket);
      state := Disconnected;
      socket := false;
    }

    method Shutdown()
      requires Valid()
      modifies this`state, this`log
      ensures Valid() && AsSession() == DoCall(old(AsSession()), Call.Shutdown)
    {
      if state == Connected {
        log := log.(fault := log.fault || !socket);
        state := Disconnecting;
      }
    }

    method ForceClose(onClose: seq<Call>)
      requires Valid()
      modifies Repr
      ensures Valid() && fresh(Repr - old(Repr))
      ensures AsSession() == DoCall(old(AsSession()), Call.ForceClose(onClose))
      ensures old(sendBuffer.isOperating) ==> FlightUntouched()
      ensures LeaveInput(onClose) ==> InputUntouched()
      decreases onClose, 2
    {
      if state == Connected || state == Disconnecting {
        HandClose(onClose);
      }
    }

    method ConnectDestroyed(onClose: seq<Call>)
      requires Valid()
      modifies Repr
      ensures Valid() && fresh(Repr - old(Repr))
      ensures AsSession() == DoCall(old(AsSession()), Call.ConnectDestroyed(onClose))
      ensures old(sendBuffer.isOperating) ==> FlightUntouched()
      ensures LeaveInput(onClose) ==> InputUntouched()
      decreases onClose, 3
    {
      if state == Connected {
        ForceClose(onClose);
      }
    }

    method Reconnect(onClose: seq<Call>)
      requires Valid()
      modifies Repr
      ensures Valid() && fresh(Repr - old(Repr))
      ensures AsSession() == DoCall(old(AsSession()), Call.Reconnect(onClose))
      ensures old(sendBuffer.isOperating) ==> FlightUntouched()
      ensures LeaveInput(onClose) ==> InputUntouched()
      decreases onClose, 4
    {
      ConnectDestroyed(onClose);
      if retry {
        log := log.(restarts := log.restarts + 1);
      }
    }

    method RunCall(c: Call)
      requires Valid()
      modifies Repr
      ensures Valid() && fresh(Repr - old(Repr))
      ensures AsSession() == DoCall(old(AsSession()), c)
      ensures old(sendBuffer.isOperating) ==> FlightUntouched()
      ensures LeavesInput(c) ==> InputUntouched()
      decreases c
    {
      match c
      case AddMore(data) => AddMore(data);
      case Send(data) => Send(data);
      case Consume(len) => Consume(len);
      case Shutdown => Shutdown();
      case ForceClose(onClose) => ForceClose(onClose);
      case ConnectDestroyed(onClose) => ConnectDestroyed(onClose);
      case Reconnect(onClose) => Reconnect(onClose);
    }

    /** The body of a user callback, re-entering the session. */
    method RunCalls(cs: seq<Call>)
      requires Valid()
      modifies Repr
      ensures Valid() && fresh(Repr - old(Repr))
      ensures AsSession() == Calls(old(AsSession()), cs)
      ensures old(sendBuffer.isOperating) ==> FlightUntouched()
      ensures LeaveInput(cs) ==> InputUntouched()
      decreases cs, 0
    {
      if cs != [] {
        RunCall(cs[0]);
        RunCalls(cs[1..]);
      }
    }

    method Open()
      requires Valid()
      modifies Repr
      ensures Valid() && fresh(Repr - old(Repr))
      ensures AsSession() == StartRead(Opened(old(AsSession())))
      ensures FlightUntouched()
    {
      socket := true;
      state := Connected;
      log := log.(established := log.established + 1);
      assert AsSession() == Opened(old(AsSession()));
      StartAsyncRead();
    }

    method ConnectEstablished(onConnection: seq<Call>, initData: seq<Call>)
      requires Valid()
      modifies Repr
      ensures Valid() && fresh(Repr - old(Repr))
      ensures AsSession() == Established(old(AsSession()), onConnection, initData)
      ensures old(sendBuffer.isOperating) ==> FlightUntouched()
    {
      Open();
      RunCalls(onConnection);
      RunCalls(initData);
    }

    method FinishWrite()
      requires Valid() && log.pendingWrites > 0
      modifies this`log, sendBuffer
      ensures Valid() && AsSession() == WriteSucceeded(old(AsSession()))
    {
      log := log.(pendingWrites := log.pendingWrites - 1);
      sendBuffer.Unoperate();
      sendBuffer.RetrieveAll();
    }

    /** The number of bytes transferred is not looked at. */
    method HandWrite(ok: bool, transferred: nat, onWritten: seq<Call>)
      requires Valid() && log.pendingWrites > 0
      modifies Repr
      ensures Valid() && fresh(Repr - old(Repr))
      ensures AsSession() == SessionSpec.HandWrite(old(AsSession()), ok, onWritten)
      ensures ok && state == Connected ==> Flushed(AsSession())
      ensures LeaveInput(onWritten) ==> InputUntouched()
    {
      if ok {
        FinishWrite();
        RunCalls(onWritten);
        InternalSend();
      } else {
        log := log.(pendingWrites := log.pendingWrites - 1, writeErrors := log.writeErrors + 1);
      }
    }

    method ReceiveChunk(chunk: bytes)
      requires Valid() && log.pendingReads > 0 && |chunk| <= inputBuffer.WritableBytes()
      modifies this`log, inputBuffer, inputBuffer.buffer
      ensures Valid() && AsSession() == Arrived(ReadEnded(old(AsSession())), chunk)
      ensures FlightUntouched()
    {
      log := log.(pendingReads := log.pendingReads - 1, received := log.received + chunk);
      inputBuffer.HasReceived(chunk);
    }

    /** A completed read delivers at most as many bytes as the buffer had room for. */
    method HandRead(result: ReadResult)
      requires Valid() && log.pendingReads > 0
      requires result.Data? ==> |result.chunk| <= inputBuffer.WritableBytes()
      modifies Repr
      ensures Valid() && fresh(Repr - old(Repr))
      ensures AsSession() == SessionSpec.HandRead(old(AsSession()), result)
      ensures old(sendBuffer.isOperating) ==> FlightUntouched()
      // reading goes on
      ensures Inv(old(AsSession())) ==>
                log.pendingReads == old(log.pendingReads) - 1 +
                  if state == Connected && (result.Data? || result.Transient?) then 1 else 0
    {
      hide Inv;
      if Inv(AsSession()) {
        ReadsGoOn(AsSession(), result);
      }
      match result
      case Data(chunk, onMessage) => HandMessage(chunk, onMessage);
      case Aborted => EndRead();
      case Transient =>
        EndRead();
        StartAsyncRead();
      case Failed(onClose) =>
        EndRead();
        HandClose(onClose);
    }

    method EndRead()
      requires Valid() && log.pendingReads > 0
      modifies this`log
      ensures Valid() && AsSession() == ReadEnded(old(AsSession()))
    {
      log := log.(pendingReads := log.pendingReads - 1);
    }

    method HandMessage(chunk: bytes, onMessage: seq<Call>)
      requires Valid() && log.pendingReads > 0 && |chunk| <= inputBuffer.WritableBytes()
      modifies Repr
      ensures Valid() && fresh(Repr - old(Repr))
      ensures AsSession() == SessionSpec.HandRead(old(AsSession()), Data(chunk, onMessage))
      ensures old(sendBuffer.isOperating) ==> FlightUntouched()
    {
      ReceiveChunk(chunk);
      RunCalls(onMessage);
      StartAsyncRead();
    }
  }
}
