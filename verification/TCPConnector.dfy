/** The connector of TCPConnector.cpp. Every method does what ConnectorSpec.dfy says, and keeps what is
    proved there of every run: the waits, the bound on attempts in parallel, and the order of the sweep.
 */
module TCPConnectors {
  import opened Bytes
  import opened ConnectorSpec

  class TCPConnector {
    var state: ConnectorState
    var connect: bool
    var retryDelayMs: nat
    var endpoints: seq<Endpoint>
    var position: nat
    ghost var log: Log
    /** The stops and restarts so far. */
    ghost var disturbances: nat
    /** Whether every event so far was orderly. */
    ghost var orderly: bool

    ghost function AsConnector(): Connector
      reads this
    {
      Connector(state, connect, retryDelayMs, endpoints, position, log)
    }

    /** The waits follow the closed form, every stop or restart adds at most one attempt in parallel, and
        an orderly run tries its endpoints one by one and in order. */
    ghost predicate Valid()
      reads this
    {
      && WaitInv(AsConnector())
      && Bounded(AsConnector(), disturbances)
      && (orderly ==> SweepInv(AsConnector()))
    }

    constructor ()
      ensures Valid() && orderly && AsConnector() == Init()
    {
      state, connect, retryDelayMs := Disconnected, false, INIT_RETRY_DELAY_MS;
      endpoints, position := [], 0;
      log := Init().log;
      disturbances, orderly := 0, true;
    }

    /** Afterwards a resolution or connection is on its way, unless the connector is stuck. */
    method Start()
      requires Valid()
      modifies this`state, this`connect, this`log
      ensures Valid() && AsConnector() == DoStart(old(AsConnector()))
      ensures log.resolves + log.connects > 0 <==> !old(Stuck(AsConnector()))
    {
      if state == Connecting {
        return;
      }
      connect := true;
      state := Connecting;
      log := log.(resolves := log.resolves + 1);
    }

    /** Always one more attempt, also from a stuck connector, and the waits begin anew. */
    method Restart()
      requires Valid()
      modifies this`state, this`connect, this`retryDelayMs, this`log, this`disturbances, this`orderly
      ensures Valid() && AsConnector() == DoRestart(old(AsConnector())) && disturbances == old(disturbances) + 1
      ensures orderly == (old(orderly) && OrderlyCommand(old(AsConnector()), Command.Restart))
      ensures !Stuck(AsConnector()) && log.waits == [] && retryDelayMs == Backoff(0)
      ensures log.resolves + log.connects == old(log.resolves + log.connects) + 1
    {
      assert Pow2(0) == 1;
      disturbances, orderly := disturbances + 1, orderly && Idle(AsConnector());
      state := Disconnected;
      retryDelayMs := INIT_RETRY_DELAY_MS;
      log := log.(waits := []);
      connect := true;
      Start();
    }

    /** Cancels nothing that is outstanding; but while it stays stopped no failure begins a wait. */
    method Stop()
      requires Valid()
      modifies this`state, this`disturbances, this`orderly
      ensures Valid() && AsConnector() == DoStop(old(AsConnector())) && disturbances == old(disturbances) + 1
      ensures orderly == (old(orderly) && OrderlyCommand(old(AsConnector()), Command.Stop))
      ensures !Stuck(AsConnector())
      ensures old(state) == Connecting ==> ConnectorSpec.Retry(AsConnector()) == AsConnector()
    {
      disturbances, orderly := disturbances + 1, orderly && Idle(AsConnector());
      if state == Connecting {
        state := Stopped;
      }
    }

    /** In the middle of a sweep: everything before the iterator has been tried. */
    ghost predicate Sweeping()
      reads this
    {
      && Valid()
      && Bounded(AsConnector().(log := log.(connects := log.connects + 1)), disturbances)
      && connect
      && (orderly ==>
            && state == Connecting && log.resolves + log.connects == 0
            && position < |endpoints| && log.attempts == endpoints[..position])
    }

    /** Tries the endpoint at the iterator; in an orderly sweep, the endpoints tried are then the ones
        up to it, each once. Past the end there is nothing to dereference. */
    method Connect()
      modifies this`log
      ensures AsConnector() == ConnectorSpec.Connect(old(AsConnector()))
      ensures old(Sweeping()) ==> Valid()
      ensures old(Sweeping()) && orderly ==>
                log.connects == 1 && log.attempts == endpoints[..position + 1] && !log.fault
      ensures log.fault <==> old(log.fault) || position >= |endpoints|
    {
      if position < |endpoints| {
        assert log.attempts == endpoints[..position] ==>
                 log.attempts + [endpoints[position]] == endpoints[..position + 1];
        log := log.(connects := log.connects + 1, attempts := log.attempts + [endpoints[position]]);
      } else {
        log := log.(connects := log.connects + 1, fault := true);
      }
    }

    /** The completion handler of the resolver: a sweep from the first endpoint, and a fault exactly if
        there is none. */
    method HandleResolved(results: seq<Endpoint>)
      requires Valid() && log.resolves > 0
      modifies this
      ensures Valid() && AsConnector() == ConnectorSpec.HandleResolved(old(AsConnector()), results)
      ensures disturbances == old(disturbances)
      ensures orderly == (old(orderly) && Orderly(old(AsConnector()), Resolved(results)))
      ensures log.fault <==> old(log.fault) || results == []
      ensures results != [] ==> log.attempts == [results[0]]
    {
      orderly := orderly && results != [];
      log := log.(resolves := log.resolves - 1, attempts := []);
      endpoints, position := results, 0;
      Connect();
    }

    /** The next endpoint is tried instead, or the sweep is over; then the connector waits as long as the
        closed form says if the error is retryable. In an orderly run the endpoints are tried in order, each
        once, and without a wait it is stuck. */
    method HandleFailure(ec: ErrorCode)
      requires Valid() && log.connects > 0
      modifies this`state, this`retryDelayMs, this`position, this`log
      ensures Valid() && AsConnector() == ConnectorSpec.HandleFailure(old(AsConnector()), ec)
      ensures position != |endpoints| ==> log.connects == old(log.connects) && log.waits == old(log.waits)
      ensures position == |endpoints| ==>
                log.waits == old(log.waits) +
                  if ec in {TryAgain, AddressInUse, NoProtocolOption, ConnectionRefused, HostUnreachable}
                     && old(state) != Stopped
                  then [Backoff(|old(log.waits)|)] else []
      ensures orderly ==> position <= |endpoints|
      ensures orderly ==> log.attempts == if position < |endpoints| then endpoints[..position + 1] else endpoints
      ensures orderly && position == |endpoints| ==> (Stuck(AsConnector()) <==> !Retryable(ec))
    {
      hide WaitInv, Bounded, SweepInv, Backoff, Stuck, Sweeping, Exhausted, ConnectorSpec.Connect, ConnectorSpec.Retry,
           Retryable;
      RetryableCodes(ec);
      FailureKeepsBounds(AsConnector(), ec, disturbances);
      FailureInSweep(AsConnector(), ec);
      if orderly {
        StuckAfterSweep(AsConnector(), ec);
      }
      log := log.(connects := log.connects - 1, fault := log.fault || position >= |endpoints|);
      position := position + 1;
      if position != |endpoints| {
        Connect();
      } else if Retryable(ec) {
        Retry();
      }
    }

    /** One more connection; in an orderly run without a start from the callback nothing is outstanding. */
    method HandleSuccess(onConnection: seq<Command>)
      requires Valid() && log.connects > 0
      modifies this`state, this`connect, this`retryDelayMs, this`log, this`disturbances, this`orderly
      ensures Valid() && AsConnector() == ConnectorSpec.HandleSuccess(old(AsConnector()), onConnection)
      ensures log.connections == old(log.connections) + 1
      ensures disturbances == old(disturbances) + Disturbances(onConnection)
      ensures orderly == (old(orderly) && Orderly(old(AsConnector()), ConnectSucceeded(onConnection)))
      ensures orderly && onConnection == [] ==> log.resolves + log.connects == 0
      ensures onConnection == [] ==> state == Connected
    {
      log := log.(connects := log.connects - 1, connections := log.connections + 1);
      state := Connected;
      RunCommands(onConnection);
    }

    method RunCommands(commands: seq<Command>)
      requires Valid()
      modifies this`state, this`connect, this`retryDelayMs, this`log, this`disturbances, this`orderly
      ensures Valid() && AsConnector() == DoAll(old(AsConnector()), commands)
      ensures disturbances == old(disturbances) + Disturbances(commands)
      ensures orderly == (old(orderly) && OrderlyCommands(old(AsConnector()), commands))
      ensures log.connections == old(log.connections)
      decreases |commands|
    {
      if commands != [] {
        match commands[0] {
          case Start => Start();
          case Restart => Restart();
          case Stop => Stop();
        }
        RunCommands(commands[1..]);
      }
    }

    /** After the last attempt of a sweep has failed. */
    ghost predicate Exhausted()
      reads this
    {
      && Valid()
      && Bounded(AsConnector().(state := Disconnected), disturbances)
      && (orderly ==> log.resolves + log.connects == 0)
    }

    /** A wait begins exactly if the connector is wanted and has not been stopped, and it is as long as the
        closed form says, within the bounds. */
    method Retry()
      modifies this`state, this`retryDelayMs, this`log
      ensures AsConnector() == ConnectorSpec.Retry(old(AsConnector()))
      ensures old(Exhausted()) ==> Valid()
      ensures old(WaitInv(AsConnector())) ==>
                && WaitInv(AsConnector())
                && INIT_RETRY_DELAY_MS <= retryDelayMs <= MAX_RETRY_DELAY_MS
                && log.waits ==
                     old(log.waits) + if connect && old(state) != Stopped then [Backoff(|old(log.waits)|)] else []
    {
      BackoffShape(|log.waits|, |log.waits| + 1);
      if state == Stopped {
        return;
      }
      state := Disconnected;
      if connect {
        assert Pow2(|log.waits| + 1) == 2 * Pow2(|log.waits|);
        log := log.(timers := log.timers + 1, waits := log.waits + [retryDelayMs]);
        retryDelayMs := Min(retryDelayMs * 2, MAX_RETRY_DELAY_MS);
      }
    }

    /** The handler of the retry timer ignores its error code: the wait ends in an attempt, unless the
        connector is stuck. */
    method HandleTimer()
      requires Valid() && log.timers > 0
      modifies this`state, this`connect, this`log
      ensures Valid() && AsConnector() == Next(old(AsConnector()), TimerFired)
      ensures log.resolves + log.connects > 0 <==> !old(Stuck(AsConnector()))
    {
      log := log.(timers := log.timers - 1);
      Start();
    }
  }
}
