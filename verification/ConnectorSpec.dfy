/** A `TCPConnector` as a state machine: resolve, sweep over the endpoints, retry with growing waits.

The resolver, the sockets and the timer are the environment: each operation started is outstanding
until its completion event. A wait that is cancelled by a later one still runs its handler, because
the handler ignores the error code.
 */
module ConnectorSpec {
  import opened Bytes

  const MAX_RETRY_DELAY_MS := 30000

  const INIT_RETRY_DELAY_MS := 500

  datatype ConnectorState = Disconnected | Connecting | Connected | Stopped

  /** The error codes that `handleConnect` names, and all others. */
  datatype ErrorCode =
    | TryAgain | AddressInUse | NoProtocolOption | ConnectionRefused | HostUnreachable
    | NoPermission | AccessDenied | AddressFamilyNotSupported | AlreadyStarted | BadDescriptor | Fault | NotSocket
    | OtherError

  predicate Retryable(ec: ErrorCode) {
    ec.TryAgain? || ec.AddressInUse? || ec.NoProtocolOption? || ec.ConnectionRefused? || ec.HostUnreachable?
  }

  /** `handleConnect` retries after these codes and no others. */
  lemma RetryableCodes(ec: ErrorCode)
    ensures Retryable(ec) <==> ec in {TryAgain, AddressInUse, NoProtocolOption, ConnectionRefused, HostUnreachable}
  {
  }

  type Endpoint = nat

  datatype Log = Log(
    resolves: nat,            // async_resolve operations outstanding
    connects: nat,            // async_connect operations outstanding
    timers: nat,              // waits outstanding
    attempts: seq<Endpoint>,  // endpoints tried since the last resolution
    waits: seq<nat>,          // waits in ms since construction or the last restart
    connections: nat,         // calls of the connection callback
    fault: bool)              // the end iterator has been dereferenced or passed

  datatype Connector = Connector(
    state: ConnectorState,
    connect: bool,
    delayMs: nat,
    endpoints: seq<Endpoint>,
    position: nat,            // endpoint_iterator_
    log: Log)

  datatype Command = Start | Restart | Stop

  datatype Event =
    | Command(command: Command)
    | Resolved(endpoints: seq<Endpoint>)
    | ConnectFailed(ec: ErrorCode)
    | ConnectSucceeded(onConnection: seq<Command>)
    | TimerFired

  function Init(): Connector {
    Connector(Disconnected, false, INIT_RETRY_DELAY_MS, [], 0, Log(0, 0, 0, [], [], 0, false))
  }

  /// What each function of the class does

  function DoStart(c: Connector): Connector {
    if c.state == Connecting then c
    else c.(connect := true, state := Connecting, log := c.log.(resolves := c.log.resolves + 1))
  }

  function DoRestart(c: Connector): Connector {
    DoStart(c.(state := Disconnected, delayMs := INIT_RETRY_DELAY_MS, connect := true, log := c.log.(waits := [])))
  }

  function DoStop(c: Connector): Connector {
    if c.state == Connecting then c.(state := Stopped) else c
  }

  function Do(c: Connector, command: Command): Connector {
    match command
    case Start => DoStart(c)
    case Restart => DoRestart(c)
    case Stop => DoStop(c)
  }

  function DoAll(c: Connector, commands: seq<Command>): Connector
    decreases |commands|
  {
    if commands == [] then c else DoAll(Do(c, commands[0]), commands[1..])
  }

  function Connect(c: Connector): Connector {
    if c.position < |c.endpoints|
    then c.(log := c.log.(connects := c.log.connects + 1, attempts := c.log.attempts + [c.endpoints[c.position]]))
    else c.(log := c.log.(connects := c.log.connects + 1, fault := true))
  }

  function HandleResolved(c: Connector, endpoints: seq<Endpoint>): Connector
    requires c.log.resolves > 0
  {
    Connect(c.(endpoints := endpoints, position := 0, log := c.log.(resolves := c.log.resolves - 1, attempts := [])))
  }

  function Retry(c: Connector): Connector {
    if c.state == Stopped then c
    else if !c.connect then c.(state := Disconnected)
    else
      c.(state := Disconnected, delayMs := Min(c.delayMs * 2, MAX_RETRY_DELAY_MS),
         log := c.log.(timers := c.log.timers + 1, waits := c.log.waits + [c.delayMs]))
  }

  function HandleFailure(c: Connector, ec: ErrorCode): Connector
    requires c.log.connects > 0
  {
    var d := c.(position := c.position + 1,
                log := c.log.(connects := c.log.connects - 1, fault := c.log.fault || c.position >= |c.endpoints|));
    if d.position != |d.endpoints| then Connect(d)
    else if Retryable(ec) then Retry(d)
    else d
  }

  function Accepted(c: Connector): Connector
    requires c.log.connects > 0
  {
    c.(state := Connected, log := c.log.(connects := c.log.connects - 1, connections := c.log.connections + 1))
  }

  function HandleSuccess(c: Connector, onConnection: seq<Command>): Connector
    requires c.log.connects > 0
  {
    DoAll(Accepted(c), onConnection)
  }

  function Next(c: Connector, e: Event): Connector {
    match e
    case Command(command) => Do(c, command)
    case Resolved(endpoints) => if c.log.resolves == 0 then c else HandleResolved(c, endpoints)
    case ConnectFailed(ec) => if c.log.connects == 0 then c else HandleFailure(c, ec)
    case ConnectSucceeded(onConnection) => if c.log.connects == 0 then c else HandleSuccess(c, onConnection)
    case TimerFired =>
      if c.log.timers == 0 then c else DoStart(c.(log := c.log.(timers := c.log.timers - 1)))
  }

  function Run(c: Connector, es: seq<Event>): Connector
    decreases |es|
  {
    if es == [] then c else Run(Next(c, es[0]), es[1..])
  }

  /// Waiting times

  function Pow2(n: nat): nat {
    if n == 0 then 1 else 2 * Pow2(n - 1)
  }

  /** The wait after `n` earlier ones. */
  function Backoff(n: nat): nat {
    Min(INIT_RETRY_DELAY_MS * Pow2(n), MAX_RETRY_DELAY_MS)
  }

  ghost predicate WaitInv(c: Connector) {
    && (forall i :: 0 <= i < |c.log.waits| ==> c.log.waits[i] == Backoff(i))
    && c.delayMs == Backoff(|c.log.waits|)
    && (c.state != Disconnected || c.log.resolves + c.log.connects + c.log.timers > 0 ==> c.connect)
  }

  lemma {:induction false} DoAllWaitInv(c: Connector, commands: seq<Command>)
    requires WaitInv(c) && c.connect
    ensures WaitInv(DoAll(c, commands))
    decreases |commands|
  {
    if commands != [] {
      DoAllWaitInv(Do(c, commands[0]), commands[1..]);
    }
  }

  lemma NextWaitInv(c: Connector, e: Event)
    requires WaitInv(c)
    ensures WaitInv(Next(c, e))
  {
    if e.ConnectSucceeded? && c.log.connects > 0 {
      DoAllWaitInv(Accepted(c), e.onConnection);
    } else if e.ConnectFailed? {
      assert Pow2(|c.log.waits| + 1) == 2 * Pow2(|c.log.waits|);
    }
  }

  lemma {:induction false} RunWaitInv(c: Connector, es: seq<Event>)
    requires WaitInv(c)
    ensures WaitInv(Run(c, es))
    decreases |es|
  {
    if es != [] {
      NextWaitInv(c, es[0]);
      RunWaitInv(Next(c, es[0]), es[1..]);
    }
  }

  /** In every run, stops and restarts included, the waits since the last restart follow the closed form. */
  lemma BackoffClosedForm(es: seq<Event>, n: nat)
    requires n < |Run(Init(), es).log.waits|
    ensures Run(Init(), es).log.waits[n] == Min(500 * Pow2(n), 30000)
  {
    assert Pow2(0) == 1;
    RunWaitInv(Init(), es);
  }

  lemma {:induction false} Pow2Monotone(m: nat, n: nat)
    requires m <= n
    ensures 1 <= Pow2(m) <= Pow2(n)
    decreases n
  {
    if m < n {
      Pow2Monotone(m, n - 1);
    } else if 0 < m {
      Pow2Monotone(m - 1, m - 1);
    }
  }

  /** So waits never shrink, stay between the bounds, and are capped from the seventh on. */
  lemma BackoffShape(m: nat, n: nat)
    requires m <= n
    ensures INIT_RETRY_DELAY_MS <= Backoff(m) <= Backoff(n) <= MAX_RETRY_DELAY_MS
    ensures Backoff(m) == MAX_RETRY_DELAY_MS <==> m >= 6
  {
    Pow2Monotone(m, n);
    assert Pow2(2) == 4 && Pow2(4) == 16 && Pow2(5) == 32 && Pow2(6) == 64;
    if m >= 6 { Pow2Monotone(6, m); } else { Pow2Monotone(m, 5); }
  }

  /// Sweeps

  /** Nothing is being resolved or connected. */
  predicate Idle(c: Connector) {
    c.log.resolves + c.log.connects == 0
  }

  ghost predicate SweepInv(c: Connector) {
    && c.log.resolves + c.log.connects <= 1
    && (c.log.resolves + c.log.connects == 1 ==> c.state == Connecting)
    && (c.log.connects == 1 ==> c.position < |c.endpoints| && c.log.attempts == c.endpoints[..c.position + 1])
    && !c.log.fault
  }

  /** Stops and restarts come only while nothing is outstanding, also from within the connection callback,
      and resolutions are not empty. Starts may come at any time. */
  predicate OrderlyCommand(c: Connector, command: Command) {
    command == Start || Idle(c)
  }

  predicate OrderlyCommands(c: Connector, commands: seq<Command>)
    decreases |commands|
  {
    commands == [] || (OrderlyCommand(c, commands[0]) && OrderlyCommands(Do(c, commands[0]), commands[1..]))
  }

  predicate Orderly(c: Connector, e: Event) {
    match e
    case Command(command) => OrderlyCommand(c, command)
    case Resolved(endpoints) => c.log.resolves == 0 || endpoints != []
    case ConnectSucceeded(onConnection) => c.log.connects == 0 || OrderlyCommands(Accepted(c), onConnection)
    case _ => true
  }

  predicate AllOrderly(c: Connector, es: seq<Event>)
    decreases |es|
  {
    es == [] || (Orderly(c, es[0]) && AllOrderly(Next(c, es[0]), es[1..]))
  }

  lemma CommandSweepInvIff(c: Connector, command: Command)
    requires SweepInv(c)
    ensures SweepInv(Do(c, command)) <==> OrderlyCommand(c, command)
  {
  }

  /** An attempt too many: no command can take it back. */
  ghost predicate Overrun(c: Connector) {
    var n := c.log.resolves + c.log.connects;
    n > 1 || (n == 1 && c.state != Connecting)
  }

  lemma {:induction false} OverrunStays(c: Connector, commands: seq<Command>)
    requires Overrun(c)
    ensures Overrun(DoAll(c, commands))
    decreases |commands|
  {
    if commands != [] {
      OverrunStays(Do(c, commands[0]), commands[1..]);
    }
  }

  lemma {:induction false} DoAllSweepInvIff(c: Connector, commands: seq<Command>)
    requires SweepInv(c)
    ensures SweepInv(DoAll(c, commands)) <==> OrderlyCommands(c, commands)
    decreases |commands|
  {
    if commands != [] {
      CommandSweepInvIff(c, commands[0]);
      if SweepInv(Do(c, commands[0])) {
        DoAllSweepInvIff(Do(c, commands[0]), commands[1..]);
      } else {
        OverrunStays(Do(c, commands[0]), commands[1..]);
      }
    }
  }

  lemma FailureSweepInv(c: Connector, ec: ErrorCode)
    requires SweepInv(c) && c.log.connects > 0
    ensures SweepInv(HandleFailure(c, ec))
  {
    if c.position + 1 < |c.endpoints| {
      assert c.endpoints[..c.position + 1] + [c.endpoints[c.position + 1]] == c.endpoints[..c.position + 2];
    }
  }

  /** Every event keeps the sweep in order if and only if it is orderly. */
  lemma NextSweepInvIff(c: Connector, e: Event)
    requires SweepInv(c)
    ensures SweepInv(Next(c, e)) <==> Orderly(c, e)
  {
    match e
    case Command(command) => CommandSweepInvIff(c, command);
    case Resolved(endpoints) =>
      if c.log.resolves > 0 && endpoints != [] { assert [] + [endpoints[0]] == endpoints[..1]; }
    case ConnectFailed(ec) => if c.log.connects > 0 { FailureSweepInv(c, ec); }
    case ConnectSucceeded(onConnection) =>
      if c.log.connects > 0 {
        DoAllSweepInvIff(Accepted(c), onConnection);
      }
    case TimerFired =>
  }

  ghost predicate AlwaysInOrder(c: Connector, es: seq<Event>)
    decreases |es|
  {
    SweepInv(c) && (es == [] || AlwaysInOrder(Next(c, es[0]), es[1..]))
  }

  /** Over every run the sweep is always in order if and only if every event is orderly. */
  lemma {:induction false} AlwaysInOrderIff(c: Connector, es: seq<Event>)
    requires SweepInv(c)
    ensures AlwaysInOrder(c, es) <==> AllOrderly(c, es)
    ensures AllOrderly(c, es) ==> SweepInv(Run(c, es))
    decreases |es|
  {
    hide SweepInv, Orderly, Next;
    if es != [] {
      NextSweepInvIff(c, es[0]);
      if SweepInv(Next(c, es[0])) {
        AlwaysInOrderIff(Next(c, es[0]), es[1..]);
      } else {
        assert !AlwaysInOrder(Next(c, es[0]), es[1..]);
      }
    }
  }

  /** However many starts, timers, and restarts and stops of an idle connector are mixed in, at most one
      resolve or connect is outstanding, and the endpoints tried so far are the first few, each once and in
      order. */
  lemma AtMostOneAttempt(es: seq<Event>)
    requires AllOrderly(Init(), es)
    ensures
      var c := Run(Init(), es);
      && c.log.resolves + c.log.connects <= 1
      && (c.log.connects == 1 ==> c.position < |c.endpoints| && c.log.attempts == c.endpoints[..c.position + 1])
      && !c.log.fault
  {
    AlwaysInOrderIff(Init(), es);
  }

  /** No stop and no restart at all, and no empty resolution. */
  predicate Plain(e: Event) {
    match e
    case Command(command) => command == Start
    case Resolved(endpoints) => endpoints != []
    case ConnectSucceeded(onConnection) => forall i :: 0 <= i < |onConnection| ==> onConnection[i] == Start
    case _ => true
  }

  predicate AllPlain(es: seq<Event>) {
    forall i :: 0 <= i < |es| ==> Plain(es[i])
  }

  lemma {:induction false} StartsAreOrderly(c: Connector, commands: seq<Command>)
    requires forall i :: 0 <= i < |commands| ==> commands[i] == Start
    ensures OrderlyCommands(c, commands)
    decreases |commands|
  {
    if commands != [] {
      assert commands[0] == Start;
      StartsAreOrderly(DoStart(c), commands[1..]);
    }
  }

  /** In particular every run without stops, restarts and empty resolutions is orderly. */
  lemma {:induction false} PlainRunsAreOrderly(c: Connector, es: seq<Event>)
    requires AllPlain(es)
    ensures AllOrderly(c, es)
    decreases |es|
  {
    if es != [] {
      assert Plain(es[0]);
      if es[0].ConnectSucceeded? && c.log.connects > 0 {
        StartsAreOrderly(Accepted(c), es[0].onConnection);
      }
      PlainRunsAreOrderly(Next(c, es[0]), es[1..]);
    }
  }

  /** A wait begins only when the last endpoint has just failed with a retryable error. */
  lemma RetryOnlyAfterFullSweep(es: seq<Event>, e: Event)
    requires AllOrderly(Init(), es)
    ensures
      var c := Run(Init(), es);
      |Next(c, e).log.waits| > |c.log.waits| ==>
        e.ConnectFailed? && Retryable(e.ec) && c.log.attempts == c.endpoints != []
  {
    var c := Run(Init(), es);
    AlwaysInOrderIff(Init(), es);
    if e.ConnectSucceeded? && c.log.connects > 0 {
      CommandsBeginNoWait(Accepted(c), e.onConnection);
    }
    assert c.position + 1 == |c.endpoints| ==> c.endpoints[..c.position + 1] == c.endpoints;
  }

  lemma {:induction false} CommandsBeginNoWait(c: Connector, commands: seq<Command>)
    ensures |DoAll(c, commands).log.waits| <= |c.log.waits|
    decreases |commands|
  {
    if commands != [] {
      CommandsBeginNoWait(Do(c, commands[0]), commands[1..]);
    }
  }

  function Failures(ecs: seq<ErrorCode>): seq<Event> {
    seq(|ecs|, i requires 0 <= i < |ecs| => ConnectFailed(ecs[i]))
  }

  /** A sweep ends: as many failures as endpoints are left exhaust it, with every endpoint tried. */
  lemma {:induction false} SweepTerminates(c: Connector, ecs: seq<ErrorCode>)
    requires SweepInv(c) && c.log.connects == 1 && |ecs| == |c.endpoints| - c.position
    ensures
      var d := Run(c, Failures(ecs));
      d.log.connects == 0 && d.log.attempts == d.endpoints == c.endpoints
    decreases |ecs|
  {
    var es := Failures(ecs);
    assert es[1..] == Failures(ecs[1..]);
    FailureSweepInv(c, ecs[0]);
    if |ecs| == 1 {
      assert es[1..] == [];
      assert c.endpoints[..c.position + 1] == c.endpoints;
    } else {
      SweepTerminates(HandleFailure(c, ecs[0]), ecs[1..]);
    }
  }

  /// Where the obvious claims fail

  predicate Disturbs(command: Command) { command != Start }

  function Disturbances(commands: seq<Command>): nat
    decreases |commands|
  {
    if commands == [] then 0 else (if Disturbs(commands[0]) then 1 else 0) + Disturbances(commands[1..])
  }

  function EventDisturbances(e: Event): nat {
    match e
    case Command(command) => if Disturbs(command) then 1 else 0
    case ConnectSucceeded(onConnection) => Disturbances(onConnection)
    case _ => 0
  }

  function RunDisturbances(es: seq<Event>): nat
    decreases |es|
  {
    if es == [] then 0 else EventDisturbances(es[0]) + RunDisturbances(es[1..])
  }

  ghost predicate Bounded(c: Connector, k: nat) {
    c.log.resolves + c.log.connects <= k + (if c.state == Connecting then 1 else 0)
  }

  lemma {:induction false} DoAllBounded(c: Connector, commands: seq<Command>, k: nat)
    requires Bounded(c, k)
    ensures Bounded(DoAll(c, commands), k + Disturbances(commands))
    decreases |commands|
  {
    if commands != [] {
      DoAllBounded(Do(c, commands[0]), commands[1..], k + if Disturbs(commands[0]) then 1 else 0);
    }
  }

  /** In every run whatsoever, each stop and each restart can add one more attempt in parallel, and
      nothing else can. */
  lemma {:induction false} AttemptsBoundedByDisturbances(c: Connector, es: seq<Event>, k: nat)
    requires Bounded(c, k)
    ensures Bounded(Run(c, es), k + RunDisturbances(es))
    decreases |es|
  {
    if es != [] {
      var e := es[0];
      if e.ConnectSucceeded? && c.log.connects > 0 {
        DoAllBounded(Accepted(c), e.onConnection, k);
      }
      AttemptsBoundedByDisturbances(Next(c, e), es[1..], k + EventDisturbances(e));
    }
  }

  lemma FailureKeepsBounds(c: Connector, ec: ErrorCode, k: nat)
    requires WaitInv(c) && Bounded(c, k) && c.log.connects > 0
    ensures WaitInv(HandleFailure(c, ec)) && Bounded(HandleFailure(c, ec), k)
  {
    NextWaitInv(c, ConnectFailed(ec));
  }

  predicate Stuck(c: Connector) {
    c.state == Connecting && c.log.resolves == 0 && c.log.connects == 0
  }

  /** For every connector and every event: a connector gets stuck if and only if it is connecting and the
      last endpoint of its only attempt fails with an error that is not retryable; and it gets out of it if
      and only if it is stopped or restarted. */
  lemma StuckIffNotRetryable(c: Connector, e: Event)
    ensures Stuck(Next(c, e)) <==>
            if Stuck(c) then !(e.Command? && e.command != Start)
            else
              && e.ConnectFailed? && c.state == Connecting && c.log.resolves == 0 && c.log.connects == 1
              && c.position + 1 == |c.endpoints| && !Retryable(e.ec)
  {
    if e.ConnectSucceeded? && c.log.connects > 0 {
      CommandsKeepBusy(Accepted(c), e.onConnection);
    }
  }

  lemma {:induction false} CommandsKeepBusy(c: Connector, commands: seq<Command>)
    requires !Stuck(c)
    ensures !Stuck(DoAll(c, commands))
    decreases |commands|
  {
    if commands != [] {
      CommandsKeepBusy(Do(c, commands[0]), commands[1..]);
    }
  }

  lemma StuckAfterSweep(c: Connector, ec: ErrorCode)
    requires SweepInv(c) && c.log.connects > 0
    ensures
      var d := HandleFailure(c, ec);
      d.position == |d.endpoints| ==> (Stuck(d) <==> !Retryable(ec)) && Idle(d)
  {
    StuckIffNotRetryable(c, ConnectFailed(ec));
  }

  /** A failure of any connector: another endpoint is tried in place of the one that failed, unless it was
      the last; then a wait of the closed form begins if and only if the error is retryable and the connector
      has not been stopped. In an orderly sweep the endpoints tried are the first few, each once, and in the
      end all of them. */
  lemma FailureInSweep(c: Connector, ec: ErrorCode)
    requires WaitInv(c) && c.log.connects > 0
    ensures
      var d, n := HandleFailure(c, ec), |c.endpoints|;
      && d.endpoints == c.endpoints && d.position == c.position + 1 && d.log.resolves == c.log.resolves
      && (d.position != n ==> d.log.connects == c.log.connects && d.log.waits == c.log.waits)
      && (d.position == n ==>
            && d.log.connects == c.log.connects - 1
            && d.log.waits ==
                 c.log.waits + if Retryable(ec) && c.state != Stopped then [Backoff(|c.log.waits|)] else [])
      && (SweepInv(c) ==>
            && SweepInv(d) && d.position <= n
            && d.log.attempts == if d.position < n then d.endpoints[..d.position + 1] else d.endpoints)
  {
    if SweepInv(c) {
      FailureSweepInv(c, ec);
    }
    assert c.endpoints[..|c.endpoints|] == c.endpoints;
  }

  /** For every connector and every event whose callback does nothing: it is connected afterwards if and only
      if an attempt has succeeded, or it was and neither starts, restarts, nor goes into a wait. */
  lemma ConnectedAfter(c: Connector, e: Event)
    requires e.ConnectSucceeded? ==> e.onConnection == []
    ensures Next(c, e).state == Connected <==>
            || (e.ConnectSucceeded? && c.log.connects > 0)
            || (&& c.state == Connected
                && (e.Command? ==> e.command == Stop) && (e.TimerFired? ==> c.log.timers == 0)
                && !(&& e.ConnectFailed? && c.log.connects > 0
                     && c.position + 1 == |c.endpoints| && Retryable(e.ec)))
  {
  }

  /** By error code: when the last endpoint of an orderly sweep fails, the connector waits and tries again
      after five codes, and is stuck after the eight others. */
  lemma LastFailureByCode(c: Connector, ec: ErrorCode)
    requires WaitInv(c) && SweepInv(c) && c.log.connects > 0 && c.position + 1 == |c.endpoints|
    ensures
      var d := HandleFailure(c, ec);
      match ec
      case TryAgain => WaitsAgain(c, d)
      case AddressInUse => WaitsAgain(c, d)
      case NoProtocolOption => WaitsAgain(c, d)
      case ConnectionRefused => WaitsAgain(c, d)
      case HostUnreachable => WaitsAgain(c, d)
      case NoPermission => Stuck(d) && d.log.waits == c.log.waits
      case AccessDenied => Stuck(d) && d.log.waits == c.log.waits
      case AddressFamilyNotSupported => Stuck(d) && d.log.waits == c.log.waits
      case AlreadyStarted => Stuck(d) && d.log.waits == c.log.waits
      case BadDescriptor => Stuck(d) && d.log.waits == c.log.waits
      case Fault => Stuck(d) && d.log.waits == c.log.waits
      case NotSocket => Stuck(d) && d.log.waits == c.log.waits
      case OtherError => Stuck(d) && d.log.waits == c.log.waits
  {
    FailureInSweep(c, ec);
    StuckAfterSweep(c, ec);
  }

  /** One more wait, of the closed form, with its timer; nothing else is outstanding and any start will do. */
  ghost predicate WaitsAgain(c: Connector, d: Connector) {
    && d.log.waits == c.log.waits + [Backoff(|c.log.waits|)] && d.log.timers == c.log.timers + 1
    && d.state == Disconnected && Idle(d)
  }

  /** So after each of the five codes the timer leads to the next resolution. */
  lemma WaitLeadsToAttempt(c: Connector, d: Connector)
    requires WaitsAgain(c, d)
    ensures
      var e := Next(d, TimerFired);
      e.state == Connecting && e.log.resolves == 1 && e.log.connects == 0 && e.log.timers == c.log.timers
  {
  }

  /** A stuck connector ignores every start and every timer from then on. */
  lemma {:induction false} StuckForGood(c: Connector, es: seq<Event>)
    requires Stuck(c) && AllPlain(es)
    ensures Stuck(Run(c, es)) && Run(c, es).log.connections == c.log.connections
    decreases |es|
  {
    if es != [] {
      assert Plain(es[0]);
      StuckForGood(Next(c, es[0]), es[1..]);
    }
  }
}
