/** Class TailscaleClient (network/tailscale_client.go) on the darwin build.
    The remote and system calls are replaced by a list of events: chunks of
    output, written while a call is pending, and the answers of the calls. */
module TailscaleClientClass {
  import opened Outcomes
  import opened SpaceIndex
  import PoolModel
  import opened ClientPoolClass
  import opened Notices
  import opened ConnectModel
  import opened ConnectOutcome

  datatype Happening = Chunk(p: string) | Reply(ok: bool)

  function AsEvent(h: Happening): Event {
    match h case Chunk(p) => Output(NoticeOf(p)) case Reply(ok) => Answer(ok)
  }

  function AsEvents(hs: seq<Happening>): (es: seq<Event>)
    ensures |es| == |hs|
    ensures forall i | 0 <= i < |hs| :: es[i] == AsEvent(hs[i])
  {
    if hs == [] then [] else AsEvents(hs[..|hs| - 1]) + [AsEvent(hs[|hs| - 1])]
  }

  /** trace[n] is the model's state after the first n events. */
  ghost predicate Traces(req: Request, hs: seq<Happening>, trace: seq<Conn>) {
    && |trace| == |hs| + 1
    && forall n {:trigger hs[n]} | 0 <= n < |hs| :: trace[n + 1] == Step(req, trace[n], AsEvent(hs[n]))
  }

  ghost function Trace(req: Request, start: Conn, hs: seq<Happening>): (trace: seq<Conn>)
    ensures Traces(req, hs, trace) && trace[0] == start
  {
    if hs == [] then [start]
    else
      var init := Trace(req, start, hs[..|hs| - 1]);
      init + [Step(req, init[|hs| - 1], AsEvent(hs[|hs| - 1]))]
  }

  lemma {:induction false} TraceIsRun(req: Request, start: Conn, hs: seq<Happening>, trace: seq<Conn>, n: nat)
    requires Traces(req, hs, trace) && trace[0] == start && n <= |hs|
    ensures trace[n] == Run(req, start, AsEvents(hs[..n]))
  {
    if n > 0 {
      TraceIsRun(req, start, hs, trace, n - 1);
      assert hs[..n][..n - 1] == hs[..n - 1];
      var es := AsEvents(hs[..n]);
      assert es[..n - 1] == AsEvents(hs[..n - 1]) && es[n - 1] == AsEvent(hs[n - 1]);
    }
  }

  /** Connect still waits for an answer after the given events, has returned,
      or got no API client. */
  datatype Outcome = Pending | Done(ok: bool) | NoClient

  class TailscaleClient {
    const spaceNodes: ClientPool
    var apiClient: Option<ApiClient>
    var waitForExitNode: bool
    var connState: ConnectState

    /** The client's context was cancelled, and Clear was called on its network
        context. */
    var cancelled: bool
    var networkCleared: bool

    constructor (spaceNodes: ClientPool)
      ensures this.spaceNodes == spaceNodes && apiClient == None && !waitForExitNode && connState == Connecting
      ensures !cancelled && !networkCleared
    {
      this.spaceNodes := spaceNodes;
      apiClient := None;
      waitForExitNode := false;
      connState := Connecting;
      cancelled, networkCleared := false, false;
    }

    method Write(p: string) returns (n: nat)
      modifies this`connState
      ensures n == |p|
      ensures connState == AfterNotice(old(connState), waitForExitNode, NoticeOf(p))
      ensures old(connState) == Connected || old(connState) == NotConnected ==> connState == old(connState)
      ensures old(connState) != Connected && old(connState) != NotConnected ==>
                && (AUTHORIZE <= Trimmed(p) ==> connState == Authorizing)
                && (AUTHENTICATE <= Trimmed(p) ==> connState == Authenticating)
                && (SUCCESS <= Trimmed(p) ==> connState == if waitForExitNode then WaitingForExitNode else Connected)
                && (!(AUTHORIZE <= Trimmed(p)) && !(AUTHENTICATE <= Trimmed(p)) && !(SUCCESS <= Trimmed(p)) ==>
                      connState == old(connState))
    {
      RecogniseAnyOrder(Trimmed(p));
      var msg := TrimLeft(TrimRight(p));
      if connState != Connected && connState != NotConnected {
        if AUTHORIZE <= msg {
          connState := Authorizing;
        } else if AUTHENTICATE <= msg {
          connState := Authenticating;
        } else if SUCCESS <= msg {
          if waitForExitNode {
            connState := WaitingForExitNode;
          } else {
            connState := Connected;
          }
        }
      }
      return |p|;
    }

    /** The model's state is the client's. */
    ghost predicate Is(c: Conn) reads this {
      c.state == connState && c.waiting == waitForExitNode
    }

    /** Output is written until the pending call answers. `trace[n]` is the
        model's state after n events. */
    method Call(req: Request, hs: seq<Happening>, ghost trace: seq<Conn>, at: nat)
      returns (answer: Option<bool>, next: nat)
      requires Traces(req, hs, trace) && at <= |hs| && Is(trace[at])
      modifies this`connState
      ensures at <= next <= |hs|
      ensures answer == None ==> next == |hs| && trace[next] == trace[at].(state := connState)
      ensures answer.Some? ==> trace[next] == Step(req, trace[at].(state := connState), Answer(answer.value))
    {
      next := at;
      while next < |hs|
        invariant at <= next <= |hs| && trace[next] == trace[at].(state := connState)
      {
        match hs[next] {
          case Chunk(p) =>
            var _ := Write(p);
            next := next + 1;
          case Reply(ok) =>
            next := next + 1;
            return Some(ok), next;
        }
      }
      answer := None;
    }

    /** __configureDNS: true when both calls succeed. */
    method ConfigureDNS(req: Request, hs: seq<Happening>, ghost trace: seq<Conn>, at: nat)
      returns (ok: Option<bool>, next: nat)
      requires Traces(req, hs, trace) && at <= |hs| && Is(trace[at]) && trace[at].pc == DNSManager
      modifies this`connState
      ensures at <= next <= |hs| && trace[next].state == connState
      ensures ok == None ==> next == |hs| && Is(trace[next]) && !trace[next].pc.Returned?
      ensures ok == Some(false) ==> trace[next] == Fail(trace[next])
      ensures ok == Some(true) ==>
                trace[next] == AfterDNS(req, trace[at].(state := connState,
                                                        done := trace[at].done + [DNSManager] + [DNSServers]))
    {
      ok, next := Call(req, hs, trace, at);
      if ok != Some(true) {
        return;
      }
      ok, next := Call(req, hs, trace, next);
    }

    /** At most 30 pings, until one gets its pong. */
    method PingExitNode(req: Request, hs: seq<Happening>, ghost trace: seq<Conn>, at: nat)
      returns (ok: Option<bool>, next: nat)
      requires Traces(req, hs, trace) && at <= |hs| && Is(trace[at]) && trace[at].pc == Ping && trace[at].pings == 0
      modifies this`connState
      ensures at <= next <= |hs| && trace[next].state == connState
      ensures ok == None ==> next == |hs| && Is(trace[next]) && !trace[next].pc.Returned?
      ensures ok == Some(false) ==> trace[next] == Fail(trace[next]) && trace[next].pings == 30
      ensures ok == Some(true) ==> trace[next].pc == DisableIPv6 && Is(trace[next]) && trace[next].pings <= 30
    {
      next, ok := at, Some(false);
      var i := 0;
      while i < 30
        invariant 0 <= i <= 30 && at <= next <= |hs| && ok == Some(false)
        invariant trace[next].state == connState && trace[next].pings == i
        invariant i < 30 ==> trace[next].pc == Ping && Is(trace[next])
        invariant i == 30 ==> trace[next] == Fail(trace[next])
      {
        ok, next := Call(req, hs, trace, next);
        if ok != Some(false) {
          return;
        }
        i := i + 1;
      }
    }

    /** The external routes to the exit node's endpoints and to the split
        destinations. */
    method AddExternalRoutes(req: Request, hs: seq<Happening>, ghost trace: seq<Conn>, at: nat)
      returns (ok: Option<bool>, next: nat)
      requires Traces(req, hs, trace) && at <= |hs| && Is(trace[at]) && trace[at].pc == RouteEndpoints
      modifies this`connState
      ensures at <= next <= |hs| && trace[next].state == connState
      ensures ok == None ==> next == |hs| && Is(trace[next]) && !trace[next].pc.Returned?
      ensures ok == Some(false) ==> trace[next] == Fail(trace[next])
      ensures ok == Some(true) ==> trace[next].pc == RouteDefault && Is(trace[next])
    {
      ok, next := Call(req, hs, trace, at);
      if ok != Some(true) { return; }
      assert trace[next].pc == RouteSplits && Is(trace[next]);
      ok, next := Call(req, hs, trace, next);
    }

    method PrepareRoutes(req: Request, hs: seq<Happening>, ghost trace: seq<Conn>, at: nat)
      returns (ok: Option<bool>, next: nat)
      requires Traces(req, hs, trace) && at <= |hs| && Is(trace[at]) && trace[at].pc == DisableIPv6
      modifies this`connState
      ensures at <= next <= |hs| && trace[next].state == connState
      ensures ok == None ==> next == |hs| && Is(trace[next]) && !trace[next].pc.Returned?
      ensures ok == Some(false) ==> trace[next] == Fail(trace[next])
      ensures ok == Some(true) ==> trace[next].pc == RouteEndpoints && Is(trace[next])
    {
      ok, next := Call(req, hs, trace, at);       // DisableIPv6
      if ok != Some(true) { return; }
      assert trace[next].pc == RouteManager && Is(trace[next]);
      ok, next := Call(req, hs, trace, next);     // NewRouteManager
    }

    /** __configureExitNode. */
    method ConfigureExitNode(req: Request, hs: seq<Happening>, ghost trace: seq<Conn>, at: nat)
      returns (ok: Option<bool>, next: nat)
      requires Traces(req, hs, trace) && at <= |hs| && Is(trace[at]) && trace[at].pc == DisableIPv6
      modifies this`connState
      ensures at <= next <= |hs| && trace[next].state == connState
      ensures ok == None ==> next == |hs| && Is(trace[next]) && !trace[next].pc.Returned?
      ensures ok.Some? ==> trace[next].pc == Returned(ok.value) && !trace[next].waiting
    {
      ok, next := PrepareRoutes(req, hs, trace, at);
      if ok != Some(true) { return; }
      ok, next := AddExternalRoutes(req, hs, trace, next);
      if ok != Some(true) { return; }
      ok, next := Call(req, hs, trace, next);     // AddDefaultRoute
      if ok != Some(true) { return; }
      connState := Connected;
    }

    /** From the login on; the caller clears waitForExitNode on return. */
    method LoginAndRoute(req: Request, hs: seq<Happening>, ghost trace: seq<Conn>, at: nat)
      returns (ok: Option<bool>, used: nat)
      requires Traces(req, hs, trace) && at <= |hs| && Is(trace[at]) && trace[at].pc == Login && trace[at].pings == 0
      modifies this`connState
      ensures at <= used <= |hs| && trace[used].state == connState
      ensures ok == None ==> used == |hs| && Is(trace[used]) && !trace[used].pc.Returned?
      ensures ok.Some? ==> trace[used].pc == Returned(ok.value) && !trace[used].waiting
    {
      ok, used := Call(req, hs, trace, at);       // RunLogin
      if ok != Some(true) { return; }
      if req.useSpaceDNS {
        ok, used := ConfigureDNS(req, hs, trace, used);
        if ok != Some(true) { return; }
      }
      if req.egress {
        ok, used := PingExitNode(req, hs, trace, used);
        if ok != Some(true) { return; }
        ok, used := ConfigureExitNode(req, hs, trace, used);
      }
    }

    /** Connect once it holds an API client. */
    method ConnectMesh(req: Request, hs: seq<Happening>, ghost trace: seq<Conn>) returns (ok: Option<bool>, used: nat)
      requires !waitForExitNode && Traces(req, hs, trace) && trace[0] == Start(connState)
      modifies this`connState, this`waitForExitNode
      ensures used <= |hs| && Is(trace[used])
      ensures ok == None ==> used == |hs| && !trace[used].pc.Returned?
      ensures ok.Some? ==> trace[used].pc == Returned(ok.value)
    {
      ok, used := Call(req, hs, trace, 0);        // CreateMeshAuthKey
      if ok != Some(true) { return; }
      ok, used := Call(req, hs, trace, used);     // GetEndpoint
      if ok != Some(true) { return; }
      if req.egress {
        if !req.canUseAsEgress {
          return Some(false), used;
        }
        waitForExitNode := true;
      }
      connState := Connecting;
      ok, used := LoginAndRoute(req, hs, trace, used);
      if ok.Some? {
        waitForExitNode := false;
      }
    }

    ghost predicate Holds(granted: multiset<PoolModel.ClientID>)
      reads this, spaceNodes
    {
      if apiClient == None then granted == multiset{}
      else granted == multiset{apiClient.value.id} && apiClient.value in spaceNodes.created
    }

    /** The client is where the machine is after the first `used` events. */
    ghost predicate Reached(req: Request, was: ConnectState, hs: seq<Happening>, used: nat, r: Outcome)
      reads this
    {
      && used <= |hs|
      && var c := Run(req, Start(was), AsEvents(hs[..used]));
      && Is(c)
      && (r == Pending ==> used == |hs| && !c.pc.Returned?)
      && (r.Done? ==> c.pc == Returned(r.ok))
    }

    method ConnectWithClient(req: Request, hs: seq<Happening>) returns (r: Outcome, used: nat)
      requires !waitForExitNode && spaceNodes.Valid()
      modifies this`connState, this`waitForExitNode
      ensures spaceNodes.Valid() && r != NoClient && Reached(req, old(connState), hs, used, r)
      ensures r == Done(true) && req.egress && old(connState) != NotConnected ==> connState == Connected
      ensures r == Done(true) <==> Succeeds(req, Answers(AsEvents(hs[..used])))
      ensures r == Done(false) <==> Fails(req, Answers(AsEvents(hs[..used])))
    {
      ghost var was := connState;
      ghost var trace := Trace(req, Start(connState), hs);
      var ok: Option<bool>;
      ok, used := ConnectMesh(req, hs, trace);
      TraceIsRun(req, trace[0], hs, trace, used);
      r := if ok == None then Pending else Done(ok.value);
      ConnectOutcomeIff(req, was, AsEvents(hs[..used]));
      if req.egress && was != NotConnected {
        ExitNodeSafety(req, was, AsEvents(hs[..used]));
      }
    }

    method KeepClient(client: Option<ApiClient>)
      requires spaceNodes.Valid()
      modifies this`apiClient
      ensures spaceNodes.Valid() && apiClient == client
    {
      apiClient := client;
    }

    method AcquireClient(space: SpaceNode, startup: PoolModel.Startup, authenticated: bool)
      requires spaceNodes.Valid()
      modifies this`apiClient, spaceNodes, spaceNodes.spaceAPIClients.Values
      ensures spaceNodes.Valid()
      ensures spaceNodes.Model() == PoolModel.GetStep(old(spaceNodes.Model()), space.key, startup, authenticated)
      ensures Holds(PoolModel.Granted(old(spaceNodes.Model()), space.key, startup, authenticated))
    {
      var client := spaceNodes.GetApiClientForSpace(space, startup, authenticated);
      KeepClient(if client.Acquired? then Some(client.client) else None);
    }

    /** Connect, called once. The reference it takes on an API client stays in
        `apiClient` however the rest turns out. */
    method Connect(space: SpaceNode, req: Request, startup: PoolModel.Startup, authenticated: bool, hs: seq<Happening>)
      returns (r: Outcome, used: nat)
      requires spaceNodes.Valid() && !waitForExitNode
      modifies this, spaceNodes, spaceNodes.spaceAPIClients.Values
      ensures spaceNodes.Valid()
      ensures spaceNodes.Model() == PoolModel.GetStep(old(spaceNodes.Model()), space.key, startup, authenticated)
      ensures r == NoClient <==> apiClient == None
      ensures Holds(PoolModel.Granted(old(spaceNodes.Model()), space.key, startup, authenticated))
      ensures r == NoClient ==> connState == old(connState)
      ensures r != NoClient ==> Reached(req, old(connState), hs, used, r)
    {
      used := 0;
      AcquireClient(space, startup, authenticated);
      if apiClient == None {
        return NoClient, used;
      }
      r, used := ConnectWithClient(req, hs);
    }

    /** The client is given back, if there is one. */
    method ReleaseClient()
      requires spaceNodes.Valid()
      modifies spaceNodes, spaceNodes.created, spaceNodes.spaceAPIClients.Values
      ensures spaceNodes.Valid()
      ensures apiClient == None ==> spaceNodes.Model() == old(spaceNodes.Model())
      ensures apiClient.Some? && apiClient.value in old(spaceNodes.created) ==>
                && apiClient.value.id < |old(spaceNodes.Model()).keys|
                && spaceNodes.Model() == PoolModel.ReleaseStep(old(spaceNodes.Model()), apiClient.value.id)
    {
      if apiClient.Some? {
        spaceNodes.ReleaseApiClientForSpace(apiClient.value);
      }
    }

    /** Cancels the context, or clears the network configuration. */
    method SetFlags(cancelled: bool, networkCleared: bool)
      requires spaceNodes.Valid()
      modifies this`cancelled, this`networkCleared
      ensures spaceNodes.Valid() && this.cancelled == cancelled && this.networkCleared == networkCleared
    {
      this.cancelled, this.networkCleared := cancelled, networkCleared;
    }

    /** Disconnect. Only the error of the shutdown is returned; that of the
        logout is overwritten. */
    method Disconnect(logoutError: Option<string>, downError: Option<string>) returns (err: Option<string>)
      requires spaceNodes.Valid()
      modifies this`cancelled, this`networkCleared
      modifies spaceNodes, spaceNodes.created, spaceNodes.spaceAPIClients.Values
      ensures spaceNodes.Valid() && cancelled && networkCleared
      ensures apiClient == None ==> spaceNodes.Model() == old(spaceNodes.Model())
      ensures apiClient.Some? && apiClient.value in old(spaceNodes.created) ==>
                && apiClient.value.id < |old(spaceNodes.Model()).keys|
                && spaceNodes.Model() == PoolModel.ReleaseStep(old(spaceNodes.Model()), apiClient.value.id)
      ensures err == downError
    {
      SetFlags(true, networkCleared);
      ReleaseClient();
      err := logoutError;
      err := downError;
      SetFlags(cancelled, true);
    }
  }
}
