/** Connect and Write of network/tailscale_client.go without a lock: a Write
    tests the state, then reads whether the client waits for its exit node, and
    then stores the new state, and other threads run in between. */
module TornWrites {
  import opened Notices
  import opened ConnectModel

  /** Writes under way: `tested`, the notices of those that have found the state
      open, and `inFlight`, the states that others are about to store. */
  datatype Torn = Torn(conn: Conn, tested: multiset<Notice>, inFlight: multiset<ConnectState>)

  datatype TornEvent = Test(n: Notice) | Decide(n: Notice) | Store(s: ConnectState) | Reply(ok: bool)

  function Begin(state: ConnectState): Torn { Torn(Start(state), multiset{}, multiset{}) }

  predicate Enabled(t: Torn, e: TornEvent) {
    match e
    case Test(n) => n != Other
    case Decide(n) => n in t.tested && n != Other
    case Store(s) => s in t.inFlight
    case Reply(_) => true
  }

  /** The state that a Write of this notice stores. */
  function Stored(waiting: bool, n: Notice): ConnectState
    requires n != Other
  {
    match n
    case Authorize => Authorizing
    case Authenticate => Authenticating
    case Success => if waiting then WaitingForExitNode else Connected
  }

  predicate Open(c: Conn) { c.state != Connected && c.state != NotConnected }

  function TornStep(req: Request, t: Torn, e: TornEvent): Torn
    requires Enabled(t, e)
  {
    match e
    case Test(n) => if Open(t.conn) then t.(tested := t.tested + multiset{n}) else t
    case Decide(n) =>
      t.(tested := t.tested - multiset{n}, inFlight := t.inFlight + multiset{Stored(t.conn.waiting, n)})
    case Store(s) => t.(conn := t.conn.(state := s), inFlight := t.inFlight - multiset{s})
    case Reply(ok) => t.(conn := Step(req, t.conn, Answer(ok)))
  }

  ghost predicate Moves(req: Request, t: Torn, e: TornEvent, u: Torn) {
    Enabled(t, e) && u == TornStep(req, t, e)
  }

  /** A run; states[n] is where it is after n events. */
  ghost predicate IsRun(req: Request, states: seq<Torn>, events: seq<TornEvent>) {
    && |states| == |events| + 1
    && forall n {:trigger events[n]} | 0 <= n < |events| :: Moves(req, states[n], events[n], states[n + 1])
  }

  /** The steps of a Write, taken without interruption, are the Write of the
      locked machine. */
  lemma UntornWrite(req: Request, t: Torn, n: Notice)
    requires n != Other
    ensures Step(req, t.conn, Output(n)) == if Open(t.conn) then t.conn.(state := Stored(t.conn.waiting, n)) else t.conn
    ensures var t1 := TornStep(req, t, Test(n));
            if Open(t.conn)
            then var s := Stored(t.conn.waiting, n);
                 && Enabled(t1, Decide(n)) && Enabled(TornStep(req, t1, Decide(n)), Store(s))
                 && TornStep(req, TornStep(req, t1, Decide(n)), Store(s)) == t.(conn := t.conn.(state := s))
            else t1 == t
  {
    if Open(t.conn) {
      var s := Stored(t.conn.waiting, n);
      assert t.tested + multiset{n} - multiset{n} == t.tested;
      assert t.inFlight + multiset{s} - multiset{s} == t.inFlight;
    }
  }

  // ---------------------------------------------------------------------
  // Exit-node safety.

  /** An egress Connect waits exactly from the reset to Connecting until it
      returns, however Writes are torn. */
  predicate Control(t: Torn) { t.conn.waiting == LoggingIn(t.conn) }

  predicate TooEarly(t: Torn) { LoggingIn(t.conn) && t.conn.state == Connected }

  /** The event decides to store Connected: the client does not wait. */
  predicate DecidesConnected(t: Torn, e: TornEvent) { e == Decide(Success) && !t.conn.waiting }

  /** The event stores Connected during the login. */
  predicate StoresTooEarly(t: Torn, e: TornEvent) { e == Store(Connected) && LoggingIn(t.conn) }

  lemma ReplyKeeps(req: Request, c: Conn, ok: bool)
    requires req.egress && c.waiting == LoggingIn(c)
    ensures var d := Step(req, c, Answer(ok));
            && d.waiting == LoggingIn(d)
            && (LoggingIn(d) && d.state == Connected ==> LoggingIn(c) && c.state == Connected)
            && Rank(c.pc) <= Rank(d.pc)
  {
  }

  lemma ControlStep(req: Request, t: Torn, e: TornEvent)
    requires req.egress && Control(t) && Enabled(t, e)
    ensures var u := TornStep(req, t, e);
            && Control(u) && Rank(t.conn.pc) <= Rank(u.conn.pc)
            && (TooEarly(u) ==> TooEarly(t) || StoresTooEarly(t, e))
            && (StoresTooEarly(t, e) ==> TooEarly(u))
  {
    if e.Reply? { ReplyKeeps(req, t.conn, e.ok); }
  }

  lemma DecideStep(req: Request, t: Torn, e: TornEvent)
    requires Enabled(t, e)
    ensures Connected in TornStep(req, t, e).inFlight ==> Connected in t.inFlight || DecidesConnected(t, e)
  {
  }

  /** What one event of a run keeps. */
  ghost predicate Kept(t: Torn, e: TornEvent, u: Torn) {
    && (Control(t) ==>
          && Control(u) && Rank(t.conn.pc) <= Rank(u.conn.pc)
          && (TooEarly(u) ==> TooEarly(t) || StoresTooEarly(t, e))
          && (StoresTooEarly(t, e) ==> TooEarly(u)))
    && (Connected in u.inFlight ==> Connected in t.inFlight || DecidesConnected(t, e))
    && (StoresTooEarly(t, e) ==> Connected in t.inFlight)
  }

  ghost predicate AllKept(states: seq<Torn>, events: seq<TornEvent>) {
    && |states| == |events| + 1
    && forall n {:trigger events[n]} | 0 <= n < |events| :: Kept(states[n], events[n], states[n + 1])
  }

  lemma RunKeeps(req: Request, states: seq<Torn>, events: seq<TornEvent>)
    requires req.egress && IsRun(req, states, events)
    ensures AllKept(states, events)
  {
    forall n {:trigger events[n]} | 0 <= n < |events| ensures Kept(states[n], events[n], states[n + 1]) {
      if Control(states[n]) { ControlStep(req, states[n], events[n]); }
      DecideStep(req, states[n], events[n]);
    }
  }

  ghost predicate DecidesAt(states: seq<Torn>, events: seq<TornEvent>, m: int) {
    |states| == |events| + 1 && 0 <= m < |events| && DecidesConnected(states[m], events[m])
  }

  ghost predicate StoresAt(states: seq<Torn>, events: seq<TornEvent>, n: int) {
    |states| == |events| + 1 && 0 <= n < |events| && StoresTooEarly(states[n], events[n])
  }

  lemma {:induction false} ControlFollows(states: seq<Torn>, events: seq<TornEvent>, m: nat, n: nat)
    requires AllKept(states, events) && Control(states[0]) && m <= n <= |events|
    ensures Control(states[m]) && Control(states[n]) && Rank(states[m].conn.pc) <= Rank(states[n].conn.pc)
    decreases n
  {
    if n > 0 {
      ControlFollows(states, events, if m < n then m else m - 1, n - 1);
      assert Kept(states[n - 1], events[n - 1], states[n]);
    }
  }

  lemma {:induction false} InFlightWasDecided(states: seq<Torn>, events: seq<TornEvent>, k: nat)
    requires AllKept(states, events) && states[0].inFlight == multiset{} && k <= |events|
    ensures Connected in states[k].inFlight ==> exists m :: m < k && DecidesAt(states, events, m)
  {
    if k > 0 {
      InFlightWasDecided(states, events, k - 1);
      assert Kept(states[k - 1], events[k - 1], states[k]);
      assert DecidesAt(states, events, k - 1) <==> DecidesConnected(states[k - 1], events[k - 1]);
    }
  }

  lemma {:induction false} SafeUntilStored(states: seq<Torn>, events: seq<TornEvent>, k: nat)
    requires AllKept(states, events) && Control(states[0]) && !TooEarly(states[0]) && k <= |events|
    requires forall n :: !StoresAt(states, events, n)
    ensures !TooEarly(states[k])
  {
    if k > 0 {
      SafeUntilStored(states, events, k - 1);
      ControlFollows(states, events, k - 1, k - 1);
      assert Kept(states[k - 1], events[k - 1], states[k]) && !StoresAt(states, events, k - 1);
    }
  }

  /** An egress Connect that starts with no Write under way is never Connected
      between its reset to Connecting and the end of the exit-node step, if and
      only if no success that was decided before the waiting began is stored
      during it. */
  lemma TornExitNodeSafetyIff(req: Request, state: ConnectState, states: seq<Torn>, events: seq<TornEvent>)
    requires req.egress && IsRun(req, states, events) && states[0] == Begin(state)
    ensures (forall k | 0 <= k <= |events| :: !TooEarly(states[k]))
            <==> !exists m, n :: m < n && DecidesAt(states, events, m) && StoresAt(states, events, n)
    ensures forall m, n | m < n && DecidesAt(states, events, m) && StoresAt(states, events, n) ::
              Rank(states[m].conn.pc) < 2
  {
    RunKeeps(req, states, events);
    forall n | StoresAt(states, events, n)
      ensures TooEarly(states[n + 1]) && exists m :: m < n && DecidesAt(states, events, m)
    {
      ControlFollows(states, events, n, n);
      assert Kept(states[n], events[n], states[n + 1]);
      InFlightWasDecided(states, events, n);
    }
    if forall n :: !StoresAt(states, events, n) {
      forall k | 0 <= k <= |events| ensures !TooEarly(states[k]) { SafeUntilStored(states, events, k); }
    }
    forall m, n | m < n && DecidesAt(states, events, m) && StoresAt(states, events, n)
      ensures Rank(states[m].conn.pc) < 2
    {
      ControlFollows(states, events, m, n);
    }
  }

  // ---------------------------------------------------------------------
  // Connected stays.

  /** Some Write under way stores something other than Connected, unless it
      still finds the client waiting. */
  predicate HasOther(t: Torn) {
    (exists n | n in t.tested :: n != Success) || (exists s | s in t.inFlight :: s != Connected)
  }

  /** The event starts such a Write: it finds the state open, or the client
      waiting. */
  predicate StartsOther(t: Torn, e: TornEvent) {
    (e.Test? && e.n != Success && Open(t.conn)) || (e == Decide(Success) && t.conn.waiting)
  }

  predicate StoresOther(e: TornEvent) { e.Store? && e.s != Connected }

  ghost predicate OtherKept(t: Torn, e: TornEvent, u: Torn) {
    && (HasOther(u) ==> HasOther(t) || StartsOther(t, e))
    && (StoresOther(e) ==> HasOther(t) && u.conn.state != Connected)
    && (t.conn.state == Connected && t.conn.pc.Returned? && !StoresOther(e) ==> u.conn.state == Connected)
    && (t.conn.pc.Returned? ==> u.conn.pc.Returned? && u.conn.waiting == t.conn.waiting)
  }

  lemma OtherReply(req: Request, t: Torn, ok: bool)
    ensures OtherKept(t, Reply(ok), TornStep(req, t, Reply(ok)))
  {
    assert t.conn.pc.Returned? ==> Step(req, t.conn, Answer(ok)) == t.conn;
  }

  lemma OtherDecide(req: Request, t: Torn, n: Notice)
    requires Enabled(t, Decide(n))
    ensures OtherKept(t, Decide(n), TornStep(req, t, Decide(n)))
  {
    var u := TornStep(req, t, Decide(n));
    if n == Success {
      if !t.conn.waiting && HasOther(u) {
        if m :| m in u.tested && m != Success {
          assert m in t.tested;
        } else {
          var s :| s in u.inFlight && s != Connected;
          assert s in t.inFlight;
        }
      }
    } else {
      assert n in t.tested;
    }
  }

  lemma OtherStep(req: Request, t: Torn, e: TornEvent)
    requires Enabled(t, e)
    ensures OtherKept(t, e, TornStep(req, t, e))
  {
    match e
    case Test(_) =>
    case Decide(n) => OtherDecide(req, t, n);
    case Store(s) => assert s in t.inFlight;
    case Reply(ok) => OtherReply(req, t, ok);
  }

  ghost predicate StartsOtherAt(states: seq<Torn>, events: seq<TornEvent>, m: int) {
    |states| == |events| + 1 && 0 <= m < |events| && StartsOther(states[m], events[m])
  }

  predicate StoresOtherAt(events: seq<TornEvent>, n: int) { 0 <= n < |events| && StoresOther(events[n]) }

  ghost predicate OthersKept(states: seq<Torn>, events: seq<TornEvent>) {
    && |states| == |events| + 1
    && forall n {:trigger events[n]} | 0 <= n < |events| :: OtherKept(states[n], events[n], states[n + 1])
  }

  lemma {:induction false} OtherWasStarted(states: seq<Torn>, events: seq<TornEvent>, k: nat)
    requires OthersKept(states, events) && !HasOther(states[0]) && k <= |events|
    ensures HasOther(states[k]) ==> exists m :: m < k && StartsOtherAt(states, events, m)
  {
    if k > 0 {
      OtherWasStarted(states, events, k - 1);
      assert OtherKept(states[k - 1], events[k - 1], states[k]);
      assert StartsOtherAt(states, events, k - 1) <==> StartsOther(states[k - 1], events[k - 1]);
    }
  }

  /** As long as nothing else is stored after r, no other Write starts. */
  lemma {:induction false} ConnectedUntilStored(states: seq<Torn>, events: seq<TornEvent>, r: nat, k: nat)
    requires OthersKept(states, events) && r <= k <= |events|
    requires states[r].conn.pc.Returned? && states[r].conn.state == Connected && !states[r].conn.waiting
    requires forall n | r <= n < k :: !StoresOtherAt(events, n)
    ensures states[k].conn.pc.Returned? && states[k].conn.state == Connected && !states[k].conn.waiting
    ensures HasOther(states[k]) ==> HasOther(states[r])
    decreases k
  {
    if r < k {
      ConnectedUntilStored(states, events, r, k - 1);
      assert OtherKept(states[k - 1], events[k - 1], states[k]) && !StoresOtherAt(events, k - 1);
    }
  }

  lemma FirstOther(states: seq<Torn>, events: seq<TornEvent>, r: nat, k: nat) returns (n: nat)
    requires OthersKept(states, events) && r <= k <= |events|
    requires states[r].conn.pc.Returned? && states[r].conn.state == Connected && !states[r].conn.waiting
    requires states[k].conn.state != Connected
    ensures r <= n < k && StoresOtherAt(events, n) && forall i | r <= i < n :: !StoresOtherAt(events, i)
  {
    n := r;
    while n < k && !StoresOtherAt(events, n)
      invariant r <= n <= k && forall i | r <= i < n :: !StoresOtherAt(events, i)
    {
      n := n + 1;
    }
    if n == k {
      ConnectedUntilStored(states, events, r, k);
    }
  }

  /** Once an egress Connect has returned Connected the state stays so, if and
      only if no Write that was started before the return, finding the state
      open or the client waiting, stores anything else after it. */
  lemma TornConnectedStaysIff(req: Request, state: ConnectState, states: seq<Torn>, events: seq<TornEvent>, r: nat)
    requires req.egress && IsRun(req, states, events) && states[0] == Begin(state) && r <= |events|
    requires states[r].conn.pc == Returned(true) && states[r].conn.state == Connected
    ensures (forall k | r <= k <= |events| :: states[k].conn.state == Connected)
            <==> !exists m, n :: m < r <= n && StartsOtherAt(states, events, m) && StoresOtherAt(events, n)
  {
    RunKeeps(req, states, events);
    ControlFollows(states, events, r, r);
    forall n {:trigger events[n]} | 0 <= n < |events| ensures OtherKept(states[n], events[n], states[n + 1]) {
      assert Moves(req, states[n], events[n], states[n + 1]);
      OtherStep(req, states[n], events[n]);
    }
    forall n | StoresOtherAt(events, n) ensures states[n + 1].conn.state != Connected {
      assert OtherKept(states[n], events[n], states[n + 1]);
    }
    if k :| r <= k <= |events| && states[k].conn.state != Connected {
      var n := FirstOther(states, events, r, k);
      ConnectedUntilStored(states, events, r, n);
      assert OtherKept(states[n], events[n], states[n + 1]);
      OtherWasStarted(states, events, r);
    }
  }

  // ---------------------------------------------------------------------
  // Both fail.

  lemma Extend(req: Request, states: seq<Torn>, events: seq<TornEvent>, e: TornEvent) returns (longer: seq<Torn>)
    requires IsRun(req, states, events) && Enabled(states[|events|], e)
    ensures IsRun(req, longer, events + [e]) && longer == states + [TornStep(req, states[|events|], e)]
  {
    longer := states + [TornStep(req, states[|events|], e)];
    var more := events + [e];
    forall n {:trigger more[n]} | 0 <= n < |more| ensures Moves(req, longer[n], more[n], longer[n + 1]) {
      if n < |events| { assert Moves(req, states[n], events[n], states[n + 1]); }
    }
  }

  /** Success is decided before Connect waits, and stored during the login. */
  lemma TornLoginIsConnected(req: Request) returns (states: seq<Torn>, events: seq<TornEvent>)
    requires req.egress && req.canUseAsEgress
    ensures IsRun(req, states, events) && states[0] == Begin(Connecting) && TooEarly(states[|events|])
  {
    states, events := [Begin(Connecting)], [];
    states := Extend(req, states, events, Test(Success));
    events := [Test(Success)];
    states := Extend(req, states, events, Decide(Success));
    events := events + [Decide(Success)];
    states := Extend(req, states, events, Reply(true));
    events := events + [Reply(true)];
    states := Extend(req, states, events, Reply(true));
    events := events + [Reply(true)];
    states := Extend(req, states, events, Store(Connected));
    events := events + [Store(Connected)];
  }

  lemma ReplyTrue(req: Request, c: Conn)
    requires req.egress && req.canUseAsEgress && !c.pc.Returned?
    ensures var d := Step(req, c, Answer(true));
            Rank(c.pc) < Rank(d.pc) && d.pc != Returned(false) && (d.pc == Returned(true) ==> d.state == Connected)
  {
  }

  /** All further calls of an egress Connect succeed. */
  lemma AnswerAll(req: Request, states: seq<Torn>, events: seq<TornEvent>)
    returns (states': seq<Torn>, events': seq<TornEvent>)
    requires req.egress && req.canUseAsEgress && IsRun(req, states, events) && !states[|events|].conn.pc.Returned?
    ensures IsRun(req, states', events') && states'[0] == states[0]
    ensures var t, u := states[|events|], states'[|events'|];
            u.conn.pc == Returned(true) && u.conn.state == Connected && u.tested == t.tested && u.inFlight == t.inFlight
    decreases 11 - Rank(states[|events|].conn.pc)
  {
    ReplyTrue(req, states[|events|].conn);
    states' := Extend(req, states, events, Reply(true));
    events' := events + [Reply(true)];
    if !states'[|events'|].conn.pc.Returned? {
      states', events' := AnswerAll(req, states', events');
    }
  }

  /** A Write that asks for authorisation finds the state open and stores it
      when Connect has returned. */
  lemma TornConnectedIsLost(req: Request) returns (states: seq<Torn>, events: seq<TornEvent>, r: nat)
    requires req.egress && req.canUseAsEgress
    ensures IsRun(req, states, events) && states[0] == Begin(Connecting) && r < |events|
    ensures states[r].conn.pc == Returned(true) && states[r].conn.state == Connected
    ensures states[|events|].conn.state == Authorizing
  {
    states := Extend(req, [Begin(Connecting)], [], Test(Authorize));
    events := [Test(Authorize)];
    states := Extend(req, states, events, Decide(Authorize));
    events := events + [Decide(Authorize)];
    assert Authorizing in states[|events|].inFlight;
    states, events := AnswerAll(req, states, events);
    r := |events|;
    states := Extend(req, states, events, Store(Authorizing));
    events := events + [Store(Authorizing)];
  }
}
