/** A managed client session together with its connector: what `reconnect` sets off. */
module ClientReconnect {
  import C = ConnectorSpec
  import S = SessionSpec

  datatype Client = Client(session: S.Session, connector: C.Connector)

  /** Each restart that the session asks for reaches the connector. */
  function Restarted(c: C.Connector, times: nat): C.Connector {
    if times == 0 then c else C.DoRestart(Restarted(c, times - 1))
  }

  /** `reconnect` with the close callback that the session manager installs. */
  ghost function Reconnected(k: Client): Client
    requires S.Inv(k.session)
  {
    var s := S.DoCall(k.session, S.Reconnect(S.MANAGED_CLOSE));
    S.ManagedReconnectRestarts(k.session);
    Client(s, Restarted(k.connector, s.log.restarts - k.session.log.restarts))
  }

  lemma {:induction false} RestartsAddAttempts(c: C.Connector, times: nat)
    ensures Restarted(c, times).log.resolves == c.log.resolves + times
    ensures Restarted(c, times).log.connects == c.log.connects
    ensures Restarted(c, times).log.connections == c.log.connections
  {
    if times > 0 {
      RestartsAddAttempts(c, times - 1);
    }
  }

  /** From an idle connector, reconnecting keeps at most one attempt outstanding if and only if the
      session was not connected or does not retry. */
  lemma ReconnectKeepsOneAttemptIff(k: Client)
    requires S.Inv(k.session) && C.Idle(k.connector)
    ensures
      var c := Reconnected(k).connector;
      c.log.resolves + c.log.connects <= 1 <==> !(k.session.state == S.Connected && k.session.retry)
  {
    S.ManagedReconnectRestarts(k.session);
    RestartsAddAttempts(k.connector, if !k.session.retry then 0 else if k.session.state == S.Connected then 2 else 1);
  }

  /** Under the same condition it keeps the sweep in order, however often the connector was restarted before. */
  lemma ReconnectKeepsSweepIff(k: Client)
    requires S.Inv(k.session) && C.SweepInv(k.connector) && C.Idle(k.connector)
    ensures C.SweepInv(Reconnected(k).connector) <==> !(k.session.state == S.Connected && k.session.retry)
  {
    S.ManagedReconnectRestarts(k.session);
    var once := C.DoRestart(k.connector);
    C.CommandSweepInvIff(k.connector, C.Restart);
    C.CommandSweepInvIff(once, C.Restart);
    assert Restarted(k.connector, 0) == k.connector && Restarted(k.connector, 1) == once;
    assert Restarted(k.connector, 2) == C.DoRestart(once);
  }

  /** Both attempts can succeed, so that one reconnect of a live session opens two connections. */
  lemma ReconnectCanConnectTwice(k: Client, first: seq<C.Endpoint>, second: seq<C.Endpoint>)
    requires S.Inv(k.session) && C.Idle(k.connector) && k.session.state == S.Connected && k.session.retry
    requires first != [] && second != []
    ensures
      var es := [C.Resolved(first), C.Resolved(second), C.ConnectSucceeded([]), C.ConnectSucceeded([])];
      C.Run(Reconnected(k).connector, es).log.connections == k.connector.log.connections + 2
  {
    S.ManagedReconnectRestarts(k.session);
    RestartsAddAttempts(k.connector, 2);
    TwoConnections(Reconnected(k).connector, first, second);
  }

  lemma TwoConnections(c: C.Connector, first: seq<C.Endpoint>, second: seq<C.Endpoint>)
    requires c.log.resolves == 2
    ensures
      var es := [C.Resolved(first), C.Resolved(second), C.ConnectSucceeded([]), C.ConnectSucceeded([])];
      C.Run(c, es).log.connections == c.log.connections + 2
  {
    var e1, e2, e := C.Resolved(first), C.Resolved(second), C.ConnectSucceeded([]);
    var c1 := C.Next(c, e1);
    var c2 := C.Next(c1, e2);
    assert [e1, e2, e, e][1..] == [e2, e, e] && [e2, e, e][1..] == [e, e] && [e, e][1..] == [e] && [e][1..] == [];
    assert C.Run(c, [e1, e2, e, e]) == C.Run(c1, [e2, e, e]) == C.Run(c2, [e, e]);
    var c3 := C.Next(c2, e);
    var c4 := C.Next(c3, e);
    assert C.Run(c2, [e, e]) == C.Run(c3, [e]) == C.Run(c4, []) == c4;
  }
}
