/** Many TailscaleClients (network/tailscale_client.go) over one pool of API
    clients (mycscloud/space_nodes.go): who holds what in every interleaving of
    their Connects and Disconnects, and when the pool ends up empty. */
module MeshModel {
  import opened Outcomes
  import PoolModel
  import ConnectModel
  import Notices

  /** One TailscaleClient. `tried`: its Connect has got its answer from the
      pool; `conn`: where that Connect is, if it was given an API client;
      `gone`: Disconnect was called; `released`: it gave its client back. */
  datatype Member = Member(req: ConnectModel.Request, tried: bool, apiClient: Option<PoolModel.ClientID>,
                           conn: Option<ConnectModel.Conn>, gone: bool, released: bool)

  datatype System = System(pool: PoolModel.Pool, members: seq<Member>)

  datatype Event =
    | Acquire(i: nat, key: string, startup: PoolModel.Startup, authenticated: bool)
    | Work(i: nat, e: ConnectModel.Event)
    | Leave(i: nat)

  function NewMember(req: ConnectModel.Request): Member {
    Member(req, false, None, None, false, false)
  }

  predicate Fresh(s: System) {
    s.pool == PoolModel.NO_CLIENTS && forall i | 0 <= i < |s.members| :: s.members[i] == NewMember(s.members[i].req)
  }

  /** Each client connects once and disconnects once; the calls may overlap. */
  predicate Enabled(s: System, e: Event) {
    && e.i < |s.members|
    && (e.Acquire? ==> !s.members[e.i].tried)
    && (e.Work? ==> s.members[e.i].conn.Some?)
    && (e.Leave? ==> !s.members[e.i].gone
                     && (s.members[e.i].apiClient.Some? ==> s.members[e.i].apiClient.value < |s.pool.keys|))
  }

  function AcquireStep(s: System, i: nat, key: string, startup: PoolModel.Startup, authenticated: bool): System
    requires i < |s.members|
  {
    var granted := PoolModel.Granted(s.pool, key, startup, authenticated);
    var m := s.members[i].(tried := true);
    System(PoolModel.GetStep(s.pool, key, startup, authenticated),
           s.members[i := if granted == multiset{} then m
                          else m.(apiClient := Some(PoolModel.ClientFor(s.pool, key)),
                                  conn := Some(ConnectModel.Start(Notices.Connecting)))])
  }

  function Step(s: System, e: Event): System
    requires Enabled(s, e)
  {
    var m := s.members[e.i];
    match e
    case Acquire(i, key, startup, authenticated) => AcquireStep(s, i, key, startup, authenticated)
    case Work(i, ce) => s.(members := s.members[i := m.(conn := Some(ConnectModel.Step(m.req, m.conn.value, ce)))])
    case Leave(i) =>
      if m.apiClient == None then s.(members := s.members[i := m.(gone := true)])
      else System(PoolModel.ReleaseStep(s.pool, m.apiClient.value),
                  s.members[i := m.(gone := true, released := true)])
  }

  /** What one member holds of the pool. */
  function Handle(m: Member): multiset<PoolModel.ClientID> {
    if m.apiClient == None || m.released then multiset{} else multiset{m.apiClient.value}
  }

  function Handles(ms: seq<Member>): multiset<PoolModel.ClientID> {
    if ms == [] then multiset{} else Handles(ms[..|ms| - 1]) + Handle(ms[|ms| - 1])
  }

  lemma AddToBoth(a: multiset<PoolModel.ClientID>, b: multiset<PoolModel.ClientID>,
                  c: multiset<PoolModel.ClientID>, d: multiset<PoolModel.ClientID>, e: multiset<PoolModel.ClientID>)
    requires a + b == c + d
    ensures (a + e) + b == (c + e) + d
  {
    assert (a + e) + b == (a + b) + e && (c + e) + d == (c + d) + e;
  }

  lemma {:induction false} HandlesUpdate(ms: seq<Member>, i: nat, m: Member)
    requires i < |ms|
    ensures Handle(ms[i]) <= Handles(ms)
    ensures Handles(ms[i := m]) + Handle(ms[i]) == Handles(ms) + Handle(m)
  {
    var n := |ms| - 1;
    var ms' := ms[i := m];
    if i < n {
      assert ms'[..n] == ms[..n][i := m] && ms'[n] == ms[n];
      HandlesUpdate(ms[..n], i, m);
      AddToBoth(Handles(ms'[..n]), Handle(ms[i]), Handles(ms[..n]), Handle(m), Handle(ms[n]));
    } else {
      assert ms'[..n] == ms[..n];
    }
  }

  predicate MemberOk(m: Member) {
    && (m.apiClient.Some? ==> m.tried)
    && (m.released ==> m.gone && m.apiClient.Some?)
    && (m.conn.Some? <==> m.apiClient.Some?)
  }

  /** The pool counts exactly what the members hold. */
  ghost predicate Inv(s: System) {
    && PoolModel.Conserved(s.pool)
    && s.pool.held == Handles(s.members)
    && forall i | 0 <= i < |s.members| :: MemberOk(s.members[i])
  }

  lemma HeldIsPooled(s: System, i: nat)
    requires Inv(s) && i < |s.members| && Handle(s.members[i]) != multiset{}
    ensures var c := s.members[i].apiClient.value;
            c in s.pool.held && PoolModel.Pooled(s.pool, c) && c < |s.pool.stops| && s.pool.stops[c] == 0
  {
    HandlesUpdate(s.members, i, s.members[i]);
    var c := s.members[i].apiClient.value;
    assert c in Handle(s.members[i]);
    assert PoolModel.ClientConserved(s.pool, c);
  }

  lemma SameSum(a: multiset<PoolModel.ClientID>, b: multiset<PoolModel.ClientID>, c: multiset<PoolModel.ClientID>)
    requires a + c == b + c
    ensures a == b
  {
    assert a == (a + c) - c && b == (b + c) - c;
  }

  /** A step that replaces member i and gives the pool the handles it needs. */
  lemma ReplaceInv(s: System, i: nat, m: Member, pool: PoolModel.Pool)
    requires Inv(s) && i < |s.members| && MemberOk(m) && PoolModel.Conserved(pool)
    requires pool.held + Handle(s.members[i]) == s.pool.held + Handle(m)
    ensures Inv(System(pool, s.members[i := m]))
  {
    HandlesUpdate(s.members, i, m);
    SameSum(pool.held, Handles(s.members[i := m]), Handle(s.members[i]));
  }

  lemma AcquireInv(s: System, e: Event)
    requires Inv(s) && Enabled(s, e) && e.Acquire?
    ensures Inv(Step(s, e))
  {
    var t := Step(s, e);
    var m := t.members[e.i];
    assert MemberOk(s.members[e.i]);
    PoolModel.GetConserves(s.pool, e.key, e.startup, e.authenticated);
    assert Handle(m) == PoolModel.Granted(s.pool, e.key, e.startup, e.authenticated);
    ReplaceInv(s, e.i, m, t.pool);
    assert t == System(t.pool, s.members[e.i := m]);
  }

  lemma ReleaseHeld(s: System, i: nat)
    requires Inv(s) && i < |s.members| && Handle(s.members[i]) != multiset{}
    ensures var c := s.members[i].apiClient.value;
            && c < |s.pool.keys|
            && PoolModel.Conserved(PoolModel.ReleaseStep(s.pool, c))
            && PoolModel.ReleaseStep(s.pool, c).held + multiset{c} == s.pool.held
  {
    HeldIsPooled(s, i);
    PoolModel.ReleaseConserves(s.pool, s.members[i].apiClient.value);
  }

  lemma LeaveInv(s: System, i: nat)
    requires Inv(s) && Enabled(s, Leave(i))
    ensures Inv(Step(s, Leave(i)))
  {
    var m := s.members[i];
    assert MemberOk(m);
    if m.apiClient.Some? {
      ReleaseHeld(s, i);
      ReplaceInv(s, i, m.(gone := true, released := true), PoolModel.ReleaseStep(s.pool, m.apiClient.value));
    } else {
      ReplaceInv(s, i, m.(gone := true), s.pool);
    }
  }

  lemma WorkInv(s: System, e: Event)
    requires Inv(s) && Enabled(s, e) && e.Work?
    ensures Inv(Step(s, e))
  {
    assert MemberOk(s.members[e.i]);
    ReplaceInv(s, e.i, Step(s, e).members[e.i], s.pool);
  }

  lemma StepInv(s: System, e: Event)
    requires Inv(s) && Enabled(s, e)
    ensures Inv(Step(s, e)) && |Step(s, e).members| == |s.members|
  {
    match e
    case Acquire(_, _, _, _) => AcquireInv(s, e);
    case Work(_, _) => WorkInv(s, e);
    case Leave(i) => LeaveInv(s, i);
  }

  // ---------------------------------------------------------------------
  // Runs.

  ghost predicate Moves(s: System, e: Event, t: System) {
    Enabled(s, e) && t == Step(s, e)
  }

  /** A run from a fresh system; states[n] is where it is after n events. */
  ghost predicate IsRun(states: seq<System>, events: seq<Event>) {
    && |states| == |events| + 1 && Fresh(states[0])
    && forall n {:trigger events[n]} | 0 <= n < |events| :: Moves(states[n], events[n], states[n + 1])
  }

  lemma {:induction false} NobodyHolds(ms: seq<Member>)
    requires forall i | 0 <= i < |ms| :: Handle(ms[i]) == multiset{}
    ensures Handles(ms) == multiset{}
  {
    if ms != [] { NobodyHolds(ms[..|ms| - 1]); }
  }

  lemma FreshInv(s: System)
    requires Fresh(s)
    ensures Inv(s)
  {
    assert forall c: PoolModel.ClientID :: PoolModel.ClientConserved(s.pool, c);
    forall i | 0 <= i < |s.members| ensures MemberOk(s.members[i]) && Handle(s.members[i]) == multiset{} {
      assert s.members[i] == NewMember(s.members[i].req);
    }
    NobodyHolds(s.members);
  }

  lemma {:induction false} RunInv(states: seq<System>, events: seq<Event>, k: nat)
    requires IsRun(states, events) && k <= |events|
    ensures Inv(states[k]) && |states[k].members| == |states[0].members|
  {
    if k == 0 {
      FreshInv(states[0]);
    } else {
      RunInv(states, events, k - 1);
      StepInv(states[k - 1], events[k - 1]);
    }
  }

  /** In every interleaving, a client that a TailscaleClient still holds is
      running and is the one pooled under its key. */
  lemma MembersHoldRunningClients(states: seq<System>, events: seq<Event>, k: nat, i: nat)
    requires IsRun(states, events) && k <= |events| && i < |states[0].members|
    ensures var t := states[k];
            i < |t.members| && (Handle(t.members[i]) != multiset{} ==>
                                  var c := t.members[i].apiClient.value;
                                  PoolModel.Pooled(t.pool, c) && c < |t.pool.stops| && t.pool.stops[c] == 0)
  {
    RunInv(states, events, k);
    if Handle(states[k].members[i]) != multiset{} { HeldIsPooled(states[k], i); }
  }

  /** What happened to the Connect of member i within the first k events. */
  function WorkOf(events: seq<Event>, k: nat, i: nat): seq<ConnectModel.Event>
    requires k <= |events|
  {
    if k == 0 then []
    else
      var e := events[k - 1];
      WorkOf(events, k - 1, i) + if e.Work? && e.i == i then [e.e] else []
  }

  /** A member that was given a client is where its Connect is after the events
      that concern it, whatever the others do. */
  ghost predicate FollowsConnect(s: System, i: nat, work: seq<ConnectModel.Event>) {
    && i < |s.members|
    && (s.members[i].conn == None ==> work == [])
    && (s.members[i].conn.Some? ==>
          s.members[i].conn.value == ConnectModel.Run(s.members[i].req, ConnectModel.Start(Notices.Connecting), work))
  }

  lemma ConnectStep(s: System, e: Event, i: nat, work: seq<ConnectModel.Event>)
    requires Inv(s) && Enabled(s, e) && FollowsConnect(s, i, work)
    ensures FollowsConnect(Step(s, e), i, work + if e.Work? && e.i == i then [e.e] else [])
    ensures Step(s, e).members[i].req == s.members[i].req
  {
    assert MemberOk(s.members[i]);
    if e.Work? && e.i == i {
      assert (work + [e.e])[..|work|] == work;
    } else {
      assert work + [] == work;
    }
  }

  lemma {:induction false} MembersConnect(states: seq<System>, events: seq<Event>, k: nat, i: nat)
    requires IsRun(states, events) && k <= |events| && i < |states[0].members|
    ensures FollowsConnect(states[k], i, WorkOf(events, k, i)) && states[k].members[i].req == states[0].members[i].req
  {
    if k == 0 {
      assert states[0].members[i] == NewMember(states[0].members[i].req);
    } else {
      MembersConnect(states, events, k - 1, i);
      RunInv(states, events, k - 1);
      ConnectStep(states[k - 1], events[k - 1], i, WorkOf(events, k - 1, i));
    }
  }

  // ---------------------------------------------------------------------
  // What the events say about the state they lead to.

  predicate AcquiresAt(events: seq<Event>, n: int, i: int) {
    0 <= n < |events| && events[n].Acquire? && events[n].i == i
  }

  predicate LeavesAt(events: seq<Event>, n: int, i: int) {
    0 <= n < |events| && events[n].Leave? && events[n].i == i
  }

  /** A Get that takes a reference: the key is pooled, or a client starts. */
  predicate Takes(s: System, e: Event) {
    e.Acquire? && (e.key in s.pool.slots || e.startup == PoolModel.Created)
  }

  predicate TakesAt(states: seq<System>, events: seq<Event>, n: int)
    requires |states| == |events| + 1
  {
    0 <= n < |events| && Takes(states[n], events[n])
  }

  ghost predicate LeftBefore(events: seq<Event>, n: int, i: int) { exists m :: m < n && LeavesAt(events, m, i) }

  /** Event n gives member i a client after its Disconnect. */
  ghost predicate LateAt(states: seq<System>, events: seq<Event>, n: int, i: int)
    requires |states| == |events| + 1
  {
    TakesAt(states, events, n) && events[n].i == i && events[n].authenticated && LeftBefore(events, n, i)
  }

  predicate TimesOutAt(states: seq<System>, events: seq<Event>, n: int)
    requires |states| == |events| + 1
  {
    TakesAt(states, events, n) && !events[n].authenticated
  }

  lemma TimedOutStep(s: System, e: Event)
    requires Enabled(s, e)
    ensures Step(s, e).pool.timedOut == multiset{}
            <==> s.pool.timedOut == multiset{} && !(Takes(s, e) && !e.authenticated)
  {
  }

  /** The member has disconnected and still has its reference. */
  predicate Keeps(m: Member) { m.apiClient.Some? && !m.released && m.gone }

  lemma MemberStep(s: System, e: Event, i: nat)
    requires Inv(s) && Enabled(s, e) && i < |s.members|
    ensures var m, m' := s.members[i], Step(s, e).members[i];
            && (m'.gone <==> m.gone || (e.Leave? && e.i == i))
            && (m'.tried <==> m.tried || (e.Acquire? && e.i == i))
            && (Keeps(m') <==> Keeps(m) || (Takes(s, e) && e.i == i && e.authenticated && m.gone))
  {
    assert MemberOk(s.members[i]);
    if e.i != i { assert Step(s, e).members[i] == s.members[i]; }
  }

  /** How each event changes the flags. */
  ghost predicate FlagsMove(states: seq<System>, events: seq<Event>, n: int, i: nat)
    requires |states| == |events| + 1 && 0 <= n < |events|
  {
    var s, t, e := states[n], states[n + 1], events[n];
    && (t.pool.timedOut == multiset{} <==> s.pool.timedOut == multiset{} && !TimesOutAt(states, events, n))
    && i < |s.members| && i < |t.members|
    && (t.members[i].gone <==> s.members[i].gone || LeavesAt(events, n, i))
    && (t.members[i].tried <==> s.members[i].tried || AcquiresAt(events, n, i))
    && (Keeps(t.members[i]) <==>
          Keeps(s.members[i])
          || (TakesAt(states, events, n) && e.i == i && e.authenticated && s.members[i].gone))
  }

  lemma EventMoves(states: seq<System>, events: seq<Event>, n: nat, i: nat)
    requires IsRun(states, events) && n < |events| && i < |states[0].members|
    ensures FlagsMove(states, events, n, i)
  {
    RunInv(states, events, n);
    TimedOutStep(states[n], events[n]);
    MemberStep(states[n], events[n], i);
  }

  /** The flags are what the events so far say. */
  ghost predicate FlagsTold(states: seq<System>, events: seq<Event>, k: nat, i: nat)
    requires |states| == |events| + 1 && k <= |events| && i < |states[k].members|
  {
    var m := states[k].members[i];
    && (states[k].pool.timedOut == multiset{} <==> forall n | n < k :: !TimesOutAt(states, events, n))
    && (m.gone <==> LeftBefore(events, k, i))
    && (m.tried <==> exists n :: n < k && AcquiresAt(events, n, i))
    && (Keeps(m) <==> exists n :: n < k && LateAt(states, events, n, i))
  }

  lemma FlagsToldStep(states: seq<System>, events: seq<Event>, n: nat, i: nat)
    requires |states| == |events| + 1 && n < |events| && FlagsMove(states, events, n, i)
    requires FlagsTold(states, events, n, i)
    ensures FlagsTold(states, events, n + 1, i)
  {
    assert LateAt(states, events, n, i)
           <==> TakesAt(states, events, n) && events[n].i == i && events[n].authenticated && states[n].members[i].gone;
    assert LeftBefore(events, n + 1, i) <==> LeftBefore(events, n, i) || LeavesAt(events, n, i);
    assert TimesOutAt(states, events, n) || !TimesOutAt(states, events, n);
    assert AcquiresAt(events, n, i) || !AcquiresAt(events, n, i);
  }

  lemma {:induction false} FlagsFollow(states: seq<System>, events: seq<Event>, k: nat, i: nat)
    requires |states| == |events| + 1 && k <= |events|
    requires i < |states[0].members| && FlagsTold(states, events, 0, i)
    requires forall n | 0 <= n < |events| :: FlagsMove(states, events, n, i)
    ensures i < |states[k].members| && FlagsTold(states, events, k, i)
  {
    if k > 0 {
      FlagsFollow(states, events, k - 1, i);
      assert FlagsMove(states, events, k - 1, i);
      FlagsToldStep(states, events, k - 1, i);
    }
  }

  lemma FlagsExact(states: seq<System>, events: seq<Event>, k: nat, i: nat)
    requires IsRun(states, events) && k <= |events| && i < |states[0].members|
    ensures i < |states[k].members| && FlagsTold(states, events, k, i)
  {
    assert states[0].members[i] == NewMember(states[0].members[i].req);
    forall n | 0 <= n < |events| ensures FlagsMove(states, events, n, i) { EventMoves(states, events, n, i); }
    FlagsFollow(states, events, k, i);
  }

  lemma TimedOutExact(states: seq<System>, events: seq<Event>)
    requires IsRun(states, events)
    ensures states[|events|].pool.timedOut == multiset{} <==> forall n :: !TimesOutAt(states, events, n)
  {
    if events != [] {
      assert Moves(states[0], events[0], states[1]);
      FlagsExact(states, events, |events|, 0);
    }
  }

  // ---------------------------------------------------------------------
  // When the pool ends up empty.

  lemma EmptyIffNothingKept(s: System)
    requires Inv(s) && forall i | 0 <= i < |s.members| :: s.members[i].gone
    ensures s.pool.slots == map[]
            <==> s.pool.timedOut == multiset{} && forall i | 0 <= i < |s.members| :: !Keeps(s.members[i])
  {
    PoolModel.ConservedEmptyIff(s.pool);
    forall i | 0 <= i < |s.members|
      ensures Handle(s.members[i]) <= Handles(s.members)
      ensures Handle(s.members[i]) == multiset{} <==> !Keeps(s.members[i])
    {
      HandlesUpdate(s.members, i, s.members[i]);
    }
    if forall i | 0 <= i < |s.members| :: Handle(s.members[i]) == multiset{} { NobodyHolds(s.members); }
  }

  /** When all have disconnected the pool is empty exactly when every Get that
      took a reference was answered in time and came before the Disconnect of
      its client. Connects that failed later make no difference. */
  lemma PoolEmptyIff(states: seq<System>, events: seq<Event>)
    requires IsRun(states, events)
    requires forall i | 0 <= i < |states[0].members| :: LeftBefore(events, |events|, i)
    ensures (states[|events|].pool.slots == map[])
            <==> forall n | TakesAt(states, events, n) ::
                   events[n].authenticated && !LeftBefore(events, n, events[n].i)
  {
    var k := |events|;
    var t := states[k];
    RunInv(states, events, k);
    forall i | 0 <= i < |t.members| ensures t.members[i].gone && FlagsTold(states, events, k, i) {
      FlagsExact(states, events, k, i);
    }
    forall n | TakesAt(states, events, n) ensures events[n].i < |t.members| {
      RunInv(states, events, n);
      assert Moves(states[n], events[n], states[n + 1]);
    }
    EmptyIffNothingKept(t);
    TimedOutExact(states, events);
    if t.pool.slots == map[] {
      forall n | TakesAt(states, events, n) ensures events[n].authenticated && !LeftBefore(events, n, events[n].i) {
        assert FlagsTold(states, events, k, events[n].i) && !TimesOutAt(states, events, n);
        assert !Keeps(t.members[events[n].i]);
        assert !LateAt(states, events, n, events[n].i);
      }
    }
  }

  /** Nobody disconnects before its Connect has asked the pool, and no Get
      times out. */
  ghost predicate Orderly(events: seq<Event>) {
    && (forall n | 0 <= n < |events| && events[n].Acquire? :: events[n].authenticated)
    && (forall n | 0 <= n < |events| && events[n].Leave? :: exists m :: m < n && AcquiresAt(events, m, events[n].i))
  }

  /** Whatever fails after a client is acquired, and however the calls of
      different clients interleave, the pool ends empty. */
  lemma OrderlyRunsEmptyThePool(states: seq<System>, events: seq<Event>)
    requires IsRun(states, events) && Orderly(events)
    requires forall i | 0 <= i < |states[0].members| :: LeftBefore(events, |events|, i)
    ensures states[|events|].pool.slots == map[]
  {
    forall n | TakesAt(states, events, n) ensures !LeftBefore(events, n, events[n].i) {
      var i := events[n].i;
      RunInv(states, events, n);
      assert Moves(states[n], events[n], states[n + 1]);
      FlagsExact(states, events, n, i);
      assert forall l | l < n :: !AcquiresAt(events, l, i);
    }
    PoolEmptyIff(states, events);
  }

  /** A Disconnect that overlaps the Get of its own Connect leaks the client. */
  lemma OverlappingDisconnectLeaks(req: ConnectModel.Request, key: string) returns (states: seq<System>)
    ensures var events := [Leave(0), Acquire(0, key, PoolModel.Created, true)];
            IsRun(states, events) && LeftBefore(events, 2, 0) && key in states[2].pool.slots
  {
    var events := [Leave(0), Acquire(0, key, PoolModel.Created, true)];
    var s := System(PoolModel.NO_CLIENTS, [NewMember(req)]);
    var t := Step(s, events[0]);
    states := [s, t, Step(t, events[1])];
    assert LeavesAt(events, 0, 0);
    assert Moves(states[0], events[0], states[1]) && Moves(states[1], events[1], states[2]);
  }
}
