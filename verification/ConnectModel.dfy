/** TailscaleClient.Connect (network/tailscale_client.go) with the exit-node
    hook of network/tailscale_client_darwin.go, as a state machine. Output of
    the tailscale tool is written at any time, with any content. */
module ConnectModel {
  import opened Notices

  // ---------------------------------------------------------------------
  // Connect, from the moment it holds an API client.

  datatype Request = Request(useSpaceDNS: bool, egress: bool, canUseAsEgress: bool)

  /** The call whose answer Connect is waiting for. */
  datatype Pc =
    | MeshKey | Endpoint | Login
    | DNSManager | DNSServers
    | Ping
    | DisableIPv6 | RouteManager | RouteEndpoints | RouteSplits | RouteDefault
    | Returned(ok: bool)

  /** `pings`: pings answered so far; `done`: the calls that succeeded, in
      order. */
  datatype Conn = Conn(pc: Pc, state: ConnectState, waiting: bool, pings: nat, done: seq<Pc>)

  const MAX_PINGS := 30

  function Start(state: ConnectState): Conn {
    Conn(MeshKey, state, false, 0, [])
  }

  /** A chunk of output with this notice is written, or the pending call
      answers. */
  datatype Event = Output(n: Notice) | Answer(ok: bool)

  function Fail(c: Conn): Conn { c.(pc := Returned(false), waiting := false) }

  function AfterDNS(req: Request, c: Conn): Conn {
    if req.egress then c.(pc := Ping) else c.(pc := Returned(true), waiting := false)
  }

  /** The call at c.pc, which is not a ping, has succeeded. */
  function Succeed(req: Request, c: Conn): Conn
    requires c.pc != Ping && !c.pc.Returned?
  {
    match c.pc
    case MeshKey => c.(pc := Endpoint)
    case Endpoint =>
      if req.egress && !req.canUseAsEgress then Fail(c)
      else c.(pc := Login, waiting := req.egress, state := Connecting)
    case Login => if req.useSpaceDNS then c.(pc := DNSManager) else AfterDNS(req, c)
    case DNSManager => c.(pc := DNSServers)
    case DNSServers => AfterDNS(req, c)
    case DisableIPv6 => c.(pc := RouteManager)
    case RouteManager => c.(pc := RouteEndpoints)
    case RouteEndpoints => c.(pc := RouteSplits)
    case RouteSplits => c.(pc := RouteDefault)
    case RouteDefault => c.(pc := Returned(true), waiting := false, state := Connected)
  }

  function Step(req: Request, c: Conn, e: Event): Conn {
    match e
    case Output(n) => c.(state := AfterNotice(c.state, c.waiting, n))
    case Answer(ok) =>
      if c.pc.Returned? then c
      else if c.pc == Ping then
        var c1 := c.(pings := c.pings + 1);
        if ok then c1.(pc := DisableIPv6, done := c.done + [Ping])
        else if c1.pings == MAX_PINGS then Fail(c1)
        else c1
      else if !ok then Fail(c)
      else Succeed(req, c.(done := c.done + [c.pc]))
  }

  function Run(req: Request, c: Conn, events: seq<Event>): Conn {
    if events == [] then c else Step(req, Run(req, c, events[..|events| - 1]), events[|events| - 1])
  }

  function Rank(pc: Pc): nat {
    match pc
    case MeshKey => 0 case Endpoint => 1 case Login => 2 case DNSManager => 3 case DNSServers => 4
    case Ping => 5 case DisableIPv6 => 6 case RouteManager => 7
    case RouteEndpoints => 8 case RouteSplits => 9 case RouteDefault => 10
    case Returned(_) => 11
  }

  /** Connect has reset the state to Connecting and not returned. */
  predicate LoggingIn(c: Conn) { 2 <= Rank(c.pc) <= 10 }

  function LoginDone(req: Request): seq<Pc> {
    [MeshKey, Endpoint, Login] + if req.useSpaceDNS then [DNSManager, DNSServers] else []
  }

  /** The calls a successful Connect makes, in order; every route is among them. */
  function Plan(req: Request): seq<Pc> {
    LoginDone(req)
    + if req.egress then [Ping, DisableIPv6, RouteManager, RouteEndpoints, RouteSplits, RouteDefault] else []
  }

  /** The calls of the plan before a given one. */
  function Before(req: Request, pc: Pc): seq<Pc> {
    match pc
    case MeshKey => []
    case Endpoint => [MeshKey]
    case Login => [MeshKey, Endpoint]
    case DNSManager => [MeshKey, Endpoint, Login]
    case DNSServers => [MeshKey, Endpoint, Login, DNSManager]
    case Ping => LoginDone(req)
    case DisableIPv6 => LoginDone(req) + [Ping]
    case RouteManager => LoginDone(req) + [Ping, DisableIPv6]
    case RouteEndpoints => LoginDone(req) + [Ping, DisableIPv6, RouteManager]
    case RouteSplits => LoginDone(req) + [Ping, DisableIPv6, RouteManager, RouteEndpoints]
    case RouteDefault => LoginDone(req) + [Ping, DisableIPv6, RouteManager, RouteEndpoints, RouteSplits]
    case Returned(_) => Plan(req)
  }

  predicate Inv(req: Request, c: Conn) {
    var rank := Rank(c.pc);
    && c.state != NotConnected
    && c.waiting == (LoggingIn(c) && req.egress)
    && (c.waiting ==> c.state != Connected)
    && c.pings <= MAX_PINGS
    && (rank < 5 ==> c.pings == 0)
    && (rank == 5 ==> c.pings < MAX_PINGS)
    && (3 <= rank <= 4 ==> req.useSpaceDNS)
    && (5 <= rank <= 10 ==> req.egress)
    && (6 <= rank <= 10 ==> c.pings > 0)
    && (c.pc != Returned(false) ==> c.done == Before(req, c.pc))
    && (c.pc == Returned(true) && req.egress ==> c.state == Connected && c.pings > 0)
  }

  lemma SucceedInv(req: Request, c: Conn)
    requires Inv(req, c) && c.pc != Ping && !c.pc.Returned?
    ensures Inv(req, Succeed(req, c.(done := c.done + [c.pc])))
  {
    var d := Succeed(req, c.(done := c.done + [c.pc]));
    assert d.pc != Returned(false) ==> d.done == Before(req, d.pc);
  }

  lemma StepInv(req: Request, c: Conn, e: Event)
    requires Inv(req, c)
    ensures Inv(req, Step(req, c, e))
  {
    if e == Answer(true) && c.pc != Ping && !c.pc.Returned? { SucceedInv(req, c); }
  }

  lemma {:induction false} RunInv(req: Request, state: ConnectState, events: seq<Event>)
    requires state != NotConnected
    ensures Inv(req, Run(req, Start(state), events))
  {
    if events != [] {
      RunInv(req, state, events[..|events| - 1]);
      StepInv(req, Run(req, Start(state), events[..|events| - 1]), events[|events| - 1]);
    }
  }

  /** When Connect returns without error it has made every call of its plan,
      once and in order. */
  lemma ConnectFollowsPlan(req: Request, state: ConnectState, events: seq<Event>)
    requires state != NotConnected && Run(req, Start(state), events).pc == Returned(true)
    ensures Run(req, Start(state), events).done
            == [MeshKey, Endpoint, Login]
               + (if req.useSpaceDNS then [DNSManager, DNSServers] else [])
               + (if req.egress
                  then [Ping, DisableIPv6, RouteManager, RouteEndpoints, RouteSplits, RouteDefault] else [])
  {
    RunInv(req, state, events);
  }

  /** From the reset to Connecting until the exit-node step completes no output
      whatsoever makes an egress connection Connected; and when Connect returns
      without error, one of at most 30 pings got its pong, IPv6 was disabled and
      every route added, and the state is Connected, now and after any further
      output. */
  lemma ExitNodeSafety(req: Request, state: ConnectState, events: seq<Event>)
    requires req.egress && state != NotConnected
    ensures var c := Run(req, Start(state), events);
            && (LoggingIn(c) ==> c.state != Connected)
            && (c.pc == Returned(true) ==>
                  && 1 <= c.pings <= 30
                  && c.done == LoginDone(req)
                            + [Ping, DisableIPv6, RouteManager, RouteEndpoints, RouteSplits, RouteDefault]
                  && c.state == Connected)
  {
    RunInv(req, state, events);
  }

  /** The notices among the events, in order. */
  function NoticesIn(events: seq<Event>): seq<Notice> {
    if events == [] then []
    else
      var last := events[|events| - 1];
      NoticesIn(events[..|events| - 1]) + if last.Output? then [last.n] else []
  }

  lemma OneMoreNotice(state: ConnectState, waiting: bool, ns: seq<Notice>, n: Notice)
    ensures AfterNotices(state, waiting, ns + [n]) == AfterNotice(AfterNotices(state, waiting, ns), waiting, n)
    ensures AfterNotices(state, waiting, ns + []) == AfterNotices(state, waiting, ns)
  {
    assert (ns + [n])[..|ns|] == ns && ns + [] == ns;
  }

  lemma MoreNotices(state: ConnectState, waiting: bool, events: seq<Event>)
    requires events != []
    ensures var last := events[|events| - 1];
            var before := AfterNotices(state, waiting, NoticesIn(events[..|events| - 1]));
            AfterNotices(state, waiting, NoticesIn(events))
            == if last.Output? then AfterNotice(before, waiting, last.n) else before
  {
    var last := events[|events| - 1];
    OneMoreNotice(state, waiting, NoticesIn(events[..|events| - 1]), if last.Output? then last.n else Other);
  }

  lemma StepBeforeLogin(req: Request, c: Conn, e: Event)
    ensures var d := Step(req, c, e);
            Rank(d.pc) < 2 ==>
              && Rank(c.pc) < 2 && d.waiting == c.waiting
              && d.state == if e.Output? then AfterNotice(c.state, c.waiting, e.n) else c.state
  {
  }

  /** Up to the login the state is what the output makes of the one before. */
  lemma {:induction false} StateBeforeLogin(req: Request, state: ConnectState, events: seq<Event>)
    ensures var c := Run(req, Start(state), events);
            Rank(c.pc) < 2 ==> !c.waiting && c.state == AfterNotices(state, false, NoticesIn(events))
  {
    if events != [] {
      var n := |events| - 1;
      StateBeforeLogin(req, state, events[..n]);
      StepBeforeLogin(req, Run(req, Start(state), events[..n]), events[n]);
      MoreNotices(state, false, events);
    }
  }

  /** Event b - 1 is the answer with which the login begins. */
  predicate LoginBegins(req: Request, state: ConnectState, events: seq<Event>, b: int) {
    && 0 < b <= |events| && events[b - 1] == Answer(true)
    && Run(req, Start(state), events[..b - 1]).pc == Endpoint && Run(req, Start(state), events[..b]).pc == Login
  }

  /** The state is `s`, as long as an egress Connect is logging in. */
  predicate SinceLogin(req: Request, c: Conn, s: ConnectState) {
    && Rank(c.pc) >= 2 && (5 <= Rank(c.pc) <= 10 ==> req.egress)
    && (LoggingIn(c) || !req.egress ==> c.waiting == req.egress && c.state == s)
  }

  lemma StepSinceLogin(req: Request, c: Conn, e: Event, s: ConnectState)
    requires SinceLogin(req, c, s)
    ensures SinceLogin(req, Step(req, c, e), if e.Output? then AfterNotice(s, req.egress, e.n) else s)
  {
  }

  lemma LoginStarts(req: Request, c: Conn)
    requires c.pc == Endpoint && Step(req, c, Answer(true)).pc == Login
    ensures SinceLogin(req, Step(req, c, Answer(true)), Connecting)
  {
  }

  lemma LoginBeginsBefore(req: Request, state: ConnectState, events: seq<Event>, b: int)
    requires LoginBegins(req, state, events, b) && b < |events|
    ensures LoginBegins(req, state, events[..|events| - 1], b)
  {
    var init := events[..|events| - 1];
    assert init[..b] == events[..b] && init[..b - 1] == events[..b - 1];
  }

  lemma NoticesSince(req: Request, events: seq<Event>, b: nat)
    requires b < |events|
    ensures var last, init := events[|events| - 1], events[..|events| - 1];
            var before := AfterNotices(Connecting, req.egress, NoticesIn(init[b..]));
            AfterNotices(Connecting, req.egress, NoticesIn(events[b..]))
            == if last.Output? then AfterNotice(before, req.egress, last.n) else before
  {
    assert events[b..][..|events[b..]| - 1] == events[..|events| - 1][b..];
    MoreNotices(Connecting, req.egress, events[b..]);
  }

  /** From the login on, until an egress Connect returns, the state is what the
      output since makes of Connecting. */
  lemma {:induction false} StateSinceLogin(req: Request, state: ConnectState, events: seq<Event>, b: int)
    requires LoginBegins(req, state, events, b)
    ensures SinceLogin(req, Run(req, Start(state), events),
                       AfterNotices(Connecting, req.egress, NoticesIn(events[b..])))
    decreases |events|
  {
    if b == |events| {
      assert events[..b] == events && events[b..] == [];
      LoginStarts(req, Run(req, Start(state), events[..b - 1]));
    } else {
      var n := |events| - 1;
      LoginBeginsBefore(req, state, events, b);
      StateSinceLogin(req, state, events[..n], b);
      var s := AfterNotices(Connecting, req.egress, NoticesIn(events[..n][b..]));
      StepSinceLogin(req, Run(req, Start(state), events[..n]), events[n], s);
      NoticesSince(req, events, b);
    }
  }

  // ---------------------------------------------------------------------
  // The other half: egress Connects that fail.

  /** The answers among the events, in order. */
  function Answers(events: seq<Event>): seq<bool> {
    if events == [] then []
    else
      var last := events[|events| - 1];
      Answers(events[..|events| - 1]) + if last.Answer? then [last.ok] else []
  }

  /** The mesh key was made, the endpoint is known and the space may be used as
      an egress node: Connect has reset the state to Connecting. */
  predicate LoginBegun(req: Request, events: seq<Event>) {
    var as_ := Answers(events);
    req.canUseAsEgress && |as_| >= 2 && as_[0] && as_[1]
  }

  /** Event n announces success after Connect has failed. */
  predicate SuccessAfterFailure(req: Request, state: ConnectState, events: seq<Event>, n: int) {
    0 <= n < |events| && events[n] == Output(Success) && Run(req, Start(state), events[..n]).pc == Returned(false)
  }

  /** What the answers say about where an egress Connect is. */
  predicate AnswersTold(req: Request, c: Conn, as_: seq<bool>) {
    match c.pc
    case MeshKey => as_ == []
    case Endpoint => as_ == [true]
    case Returned(false) => |as_| >= 1 && (as_[0] ==> |as_| >= 2)
    case _ => |as_| >= 2 && as_[0] && as_[1] && req.canUseAsEgress
  }

  lemma {:induction false} AnswersFollow(req: Request, state: ConnectState, events: seq<Event>)
    requires req.egress && state != NotConnected
    ensures AnswersTold(req, Run(req, Start(state), events), Answers(events))
  {
    if events != [] {
      AnswersFollow(req, state, events[..|events| - 1]);
      RunInv(req, state, events[..|events| - 1]);
    }
  }

  /** Success was announced before the login, or after the failure. */
  ghost predicate Announced(req: Request, state: ConnectState, events: seq<Event>) {
    || (!LoginBegun(req, events) && (state == Connected || Output(Success) in events))
    || exists n :: SuccessAfterFailure(req, state, events, n)
  }

  lemma AnnouncedStep(req: Request, state: ConnectState, events: seq<Event>)
    requires events != []
    ensures var n := |events| - 1;
            (exists m :: SuccessAfterFailure(req, state, events, m))
            <==> (exists m :: SuccessAfterFailure(req, state, events[..n], m))
                 || SuccessAfterFailure(req, state, events, n)
    ensures Output(Success) in events
            <==> Output(Success) in events[..|events| - 1] || events[|events| - 1] == Output(Success)
  {
    var n := |events| - 1;
    forall m | 0 <= m < n
      ensures SuccessAfterFailure(req, state, events, m) <==> SuccessAfterFailure(req, state, events[..n], m)
    {
      assert events[..n][..m] == events[..m];
    }
    assert events == events[..n] + [events[n]];
  }

  /** What an event makes of a failed egress Connect, or of one that has not
      come to the login. */
  lemma FailingStep(req: Request, c: Conn, e: Event)
    requires req.egress && Inv(req, c)
    ensures var d := Step(req, c, e);
            && (c.pc == Returned(false) || Rank(d.pc) < 2 ==>
                  (d.state == Connected <==> c.state == Connected || e == Output(Success)))
            && (c.pc == Returned(false) ==> d.pc == Returned(false))
            && (Rank(d.pc) < 2 ==> Rank(c.pc) < 2)
            && (c.pc != Returned(false) && d.pc == Returned(false) ==>
                  e.Answer? && d.state == c.state && (Rank(c.pc) >= 2 ==> c.state != Connected))
  {
  }

  /** The state is Connected as was announced, after the failure or before the
      login. */
  ghost predicate FailureTold(req: Request, state: ConnectState, events: seq<Event>, c: Conn) {
    && (c.pc == Returned(false) ==> (c.state == Connected <==> Announced(req, state, events)))
    && (Rank(c.pc) < 2 ==> (c.state == Connected <==> state == Connected || Output(Success) in events))
    && (c.pc != Returned(false) ==> forall n :: !SuccessAfterFailure(req, state, events, n))
  }

  lemma LoginBegunStep(req: Request, c: Conn, e: Event, as_: seq<bool>, more: seq<bool>)
    requires req.egress && AnswersTold(req, c, as_) && more == as_ + (if e.Answer? then [e.ok] else [])
    ensures var begun := req.canUseAsEgress && |as_| >= 2 && as_[0] && as_[1];
            var begunNow := req.canUseAsEgress && |more| >= 2 && more[0] && more[1];
            && (c.pc == Returned(false) ==> begun == begunNow)
            && (c.pc != Returned(false) && Step(req, c, e).pc == Returned(false) ==> (begunNow <==> Rank(c.pc) >= 2))
  {
  }

  lemma FailureToldStep(req: Request, state: ConnectState, events: seq<Event>, c: Conn)
    requires req.egress && events != [] && c == Run(req, Start(state), events[..|events| - 1])
    requires Inv(req, c) && AnswersTold(req, c, Answers(events[..|events| - 1]))
    requires FailureTold(req, state, events[..|events| - 1], c)
    ensures FailureTold(req, state, events, Step(req, c, events[|events| - 1]))
  {
    var n := |events| - 1;
    FailingStep(req, c, events[n]);
    LoginBegunStep(req, c, events[n], Answers(events[..n]), Answers(events));
    AnnouncedStep(req, state, events);
  }

  /** An egress Connect that fails before it resets the state to Connecting
      leaves the state as the output before made it; one that fails later stops
      waiting, and then the next announcement of success makes it Connected. So
      after a failure the state is Connected exactly when the login had not
      begun and the state was Connected before or success was announced, or
      success was announced after the failure. */
  lemma {:induction false} FailedConnectIsConnectedIff(req: Request, state: ConnectState, events: seq<Event>)
    requires req.egress && state != NotConnected
    ensures FailureTold(req, state, events, Run(req, Start(state), events))
  {
    if events != [] {
      var n := |events| - 1;
      var before := Run(req, Start(state), events[..n]);
      FailedConnectIsConnectedIff(req, state, events[..n]);
      RunInv(req, state, events[..n]);
      AnswersFollow(req, state, events[..n]);
      FailureToldStep(req, state, events, before);
    }
  }

  /** A failed egress Connect returns in state Connected exactly when it failed
      before the login and the state was Connected or success was announced. */
  lemma ReturnsConnectedIff(req: Request, state: ConnectState, events: seq<Event>)
    requires req.egress && state != NotConnected && events != []
    requires !Run(req, Start(state), events[..|events| - 1]).pc.Returned?
    requires Run(req, Start(state), events).pc == Returned(false)
    ensures Run(req, Start(state), events).state == Connected
            <==> !LoginBegun(req, events) && (state == Connected || Output(Success) in events)
  {
    FailedConnectIsConnectedIff(req, state, events);
    FailedConnectIsConnectedIff(req, state, events[..|events| - 1]);
    AnnouncedStep(req, state, events);
  }

  /** And for the time after: the state turns Connected, or stays it, exactly
      when it was or success is announced. */
  lemma FailedConnectReportsConnectedIff(req: Request, state: ConnectState, events: seq<Event>, ns: seq<Notice>)
    requires state != NotConnected && Run(req, Start(state), events).pc == Returned(false)
    ensures var c := Run(req, Start(state), events);
            AfterNotices(c.state, c.waiting, ns) == Connected <==> c.state == Connected || Success in ns
  {
    RunInv(req, state, events);
    var c := Run(req, Start(state), events);
    if c.state == Connected {
      ConnectedAbsorbs(c.waiting, ns);
    } else {
      ConnectedByNoticesIff(c.state, c.waiting, ns);
    }
  }

  /** Success is announced, and then the mesh key cannot be made. */
  lemma FailsConnected(req: Request)
    requires req.egress
    ensures var c := Run(req, Start(Connecting), [Output(Success), Answer(false)]);
            c.pc == Returned(false) && c.state == Connected
  {
    var events := [Output(Success), Answer(false)];
    assert events[..1] == [Output(Success)] && events[..1][..0] == [];
    assert Run(req, Start(Connecting), events[..1]) == Step(req, Start(Connecting), Output(Success));
  }
}
