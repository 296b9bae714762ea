/** The pool of reference-counted API clients of class SpaceNodes
    (mycscloud/space_nodes.go) as a state machine, and what holds over every
    run of it. Each operation holds the pool's mutex from start to end, so an
    interleaving of callers is a sequence of operations. */
module PoolModel {

  /** Clients are numbered in the order in which they are put into the pool. */
  type ClientID = nat

  /** apiClientInstance: the first holder leaves refCount at 0. */
  datatype Slot = Slot(client: ClientID, refCount: int)

  /** `slots` is spaceAPIClients. The rest is bookkeeping: the key of each
      client, how often it was stopped, the outstanding handles, and the Gets
      that timed out after they had taken a reference. */
  datatype Pool = Pool(slots: map<string, Slot>, keys: seq<string>, stops: seq<nat>,
                       held: multiset<ClientID>, timedOut: multiset<ClientID>)

  const NO_CLIENTS := Pool(map[], [], [], multiset{}, multiset{})

  /** How NewApiClient and Start, and then WaitForAuth, turn out. */
  datatype Startup = Created | Refused

  datatype Op =
    | Get(key: string, startup: Startup, authenticated: bool)
    | Release(client: ClientID)

  /** A new client is pooled with a refCount of 0. */
  function PoolNew(p: Pool, key: string): Pool {
    p.(slots := p.slots[key := Slot(|p.keys|, 0)], keys := p.keys + [key], stops := p.stops + [0])
  }

  function PoolShare(p: Pool, key: string): Pool
    requires key in p.slots
  {
    p.(slots := p.slots[key := p.slots[key].(refCount := p.slots[key].refCount + 1)])
  }

  /** The client that is shared or made for a key. */
  function ClientFor(p: Pool, key: string): ClientID {
    if key in p.slots then p.slots[key].client else |p.keys|
  }

  /** A reference to the client for a key is taken. */
  function TakeStep(p: Pool, key: string): Pool {
    if key in p.slots then PoolShare(p, key) else PoolNew(p, key)
  }

  /** GetApiClientForSpace. */
  function GetStep(p: Pool, key: string, startup: Startup, authenticated: bool): Pool {
    if key !in p.slots && startup == Refused then p
    else
      var p1, c := TakeStep(p, key), ClientFor(p, key);
      if authenticated then p1.(held := p1.held + multiset{c})
      else p1.(timedOut := p1.timedOut + multiset{c})
  }

  /** The client a Get hands out, if any. */
  function Granted(p: Pool, key: string, startup: Startup, authenticated: bool): (r: multiset<ClientID>) {
    if (key !in p.slots && startup == Refused) || !authenticated then multiset{}
    else multiset{ClientFor(p, key)}
  }

  /** What a release does to the slot it finds under the key of the client it
      is given, whoever that client belongs to. */
  function ReleaseKey(p: Pool, key: string): Pool {
    if key !in p.slots then p
    else if p.slots[key].refCount == 0 then
      var c := p.slots[key].client;
      p.(slots := p.slots - {key}, stops := if c < |p.stops| then p.stops[c := p.stops[c] + 1] else p.stops)
    else p.(slots := p.slots[key := p.slots[key].(refCount := p.slots[key].refCount - 1)])
  }

  /** ReleaseApiClientForSpace for a client of this pool. */
  function ReleaseStep(p: Pool, c: ClientID): Pool
    requires c < |p.keys|
  {
    ReleaseKey(p.(held := p.held - multiset{c}), p.keys[c])
  }

  predicate Callable(p: Pool, op: Op) {
    op.Release? ==> op.client < |p.keys|
  }

  function Step(p: Pool, op: Op): Pool
    requires Callable(p, op)
  {
    match op
    case Get(key, startup, authenticated) => GetStep(p, key, startup, authenticated)
    case Release(c) => ReleaseStep(p, c)
  }

  /** Callers release only what a Get handed to them and only once. */
  ghost predicate Disciplined(p: Pool, op: Op) {
    op.Release? ==> op.client in p.held && op.client < |p.keys|
  }

  /** c is the client now pooled under its own key. */
  predicate Pooled(p: Pool, c: ClientID) {
    c < |p.keys| && p.keys[c] in p.slots && p.slots[p.keys[c]].client == c
  }

  /** References taken on c and not given back. */
  function References(p: Pool, c: ClientID): nat {
    p.held[c] + p.timedOut[c]
  }

  /** refCount is one less than the references taken on the pooled client; a
      client that is not pooled has none and was stopped once. */
  ghost predicate ClientConserved(p: Pool, c: ClientID) {
    && (Pooled(p, c) ==> p.slots[p.keys[c]].refCount >= 0)
    && References(p, c) == (if Pooled(p, c) then p.slots[p.keys[c]].refCount + 1 else 0)
    && (c < |p.stops| ==> p.stops[c] == if Pooled(p, c) then 0 else 1)
  }

  predicate SlotConserved(p: Pool, k: string)
    requires k in p.slots
  {
    var c := p.slots[k].client;
    c < |p.keys| && p.keys[c] == k
  }

  /** What holds between operations. */
  ghost predicate Conserved(p: Pool) {
    && |p.stops| == |p.keys|
    && (forall k | k in p.slots :: SlotConserved(p, k))
    && (forall c: ClientID :: ClientConserved(p, c))
  }

  /** Taking a reference changes refCount and nothing else that counts. */
  lemma TakeCounts(p: Pool, key: string, c: ClientID)
    requires Conserved(p)
    ensures var q := TakeStep(p, key);
            && |q.stops| == |q.keys| && (forall k | k in q.slots :: SlotConserved(q, k))
            && (Pooled(q, c) <==> Pooled(p, c) || c == ClientFor(p, key))
            && (Pooled(q, c) ==>
                  q.slots[q.keys[c]].refCount + 1 == References(p, c) + if c == ClientFor(p, key) then 1 else 0)
            && (c < |q.stops| ==> q.stops[c] == if Pooled(q, c) then 0 else 1)
  {
    assert ClientConserved(p, c);
    if key in p.slots { assert SlotConserved(p, key); }
    var q := TakeStep(p, key);
    forall k | k in q.slots ensures SlotConserved(q, k) {
      if k in p.slots { assert SlotConserved(p, k); }
    }
  }

  lemma GetConserves(p: Pool, key: string, startup: Startup, authenticated: bool)
    requires Conserved(p)
    ensures Conserved(GetStep(p, key, startup, authenticated))
    ensures GetStep(p, key, startup, authenticated).held == p.held + Granted(p, key, startup, authenticated)
  {
    if key in p.slots || startup == Created {
      var q, e := GetStep(p, key, startup, authenticated), ClientFor(p, key);
      forall c: ClientID ensures ClientConserved(q, c) {
        assert ClientConserved(p, c);
        TakeCounts(p, key, c);
        assert References(q, c) == References(p, c) + if c == e then 1 else 0;
      }
      TakeCounts(p, key, e);
    }
  }

  lemma ReleaseConserves(p: Pool, c: ClientID)
    requires Conserved(p) && Disciplined(p, Release(c))
    ensures Conserved(ReleaseStep(p, c))
    ensures ReleaseStep(p, c).held == p.held - multiset{c}
  {
    var q := ReleaseStep(p, c);
    assert ClientConserved(p, c) && Pooled(p, c);
    forall k | k in q.slots ensures SlotConserved(q, k) {
      assert SlotConserved(p, k);
    }
    forall d: ClientID ensures ClientConserved(q, d) {
      assert ClientConserved(p, d);
    }
  }

  lemma StepConserves(p: Pool, op: Op)
    requires Conserved(p) && Disciplined(p, op)
    ensures Conserved(Step(p, op))
  {
    match op
    case Get(key, startup, authenticated) => GetConserves(p, key, startup, authenticated);
    case Release(c) => ReleaseConserves(p, c);
  }

  // ---------------------------------------------------------------------
  // Runs.

  ghost predicate LegalRun(p: Pool, ops: seq<Op>)
    decreases |ops|
  {
    ops == [] || (Disciplined(p, ops[0]) && LegalRun(Step(p, ops[0]), ops[1..]))
  }

  ghost function Run(p: Pool, ops: seq<Op>): Pool
    requires LegalRun(p, ops)
    decreases |ops|
  {
    if ops == [] then p else Run(Step(p, ops[0]), ops[1..])
  }

  /** Conservation over every run of disciplined callers. */
  lemma {:induction false} RunConserves(p: Pool, ops: seq<Op>)
    requires Conserved(p) && LegalRun(p, ops)
    ensures Conserved(Run(p, ops))
    decreases |ops|
  {
    if ops != [] {
      StepConserves(p, ops[0]);
      RunConserves(Step(p, ops[0]), ops[1..]);
    }
  }

  /** In every reachable state an outstanding handle is a client that was never
      stopped and that is the one now pooled under its key; a key is pooled
      exactly when a reference to a client with that key was taken and not
      given back. */
  lemma NoHolderOfAStoppedClient(ops: seq<Op>)
    requires LegalRun(NO_CLIENTS, ops)
    ensures var p := Run(NO_CLIENTS, ops);
            && |p.stops| == |p.keys|
            && (forall c | c in p.held :: Pooled(p, c) && p.stops[c] == 0)
            && (forall k :: k in p.slots <==>
                              exists c: ClientID :: References(p, c) > 0 && c < |p.keys| && p.keys[c] == k)
  {
    assert forall c: ClientID :: ClientConserved(NO_CLIENTS, c);
    RunConserves(NO_CLIENTS, ops);
    var p := Run(NO_CLIENTS, ops);
    forall c | c in p.held ensures Pooled(p, c) && p.stops[c] == 0 {
      assert ClientConserved(p, c);
    }
    forall k | k in p.slots
      ensures exists c: ClientID :: References(p, c) > 0 && c < |p.keys| && p.keys[c] == k
    {
      var c := p.slots[k].client;
      assert SlotConserved(p, k) && ClientConserved(p, c);
      assert References(p, c) > 0;
    }
    forall c: ClientID | References(p, c) > 0 && c < |p.keys| ensures p.keys[c] in p.slots {
      assert ClientConserved(p, c);
    }
  }

  /** Stop is called only by the Release that gives back the last reference to
      that very client, and no client is stopped twice. */
  lemma StopOnLastRelease(p: Pool, op: Op, c: ClientID)
    requires Conserved(p) && Disciplined(p, op) && c < |p.stops|
    ensures c < |Step(p, op).stops|
    ensures Step(p, op).stops[c] != p.stops[c] <==> op == Release(c) && References(p, c) == 1
    ensures Step(p, op).stops[c] != p.stops[c] ==>
              p.stops[c] == 0 && Step(p, op).stops[c] == 1 && p.keys[c] !in Step(p, op).slots
  {
    assert ClientConserved(p, c);
    if op.Release? {
      assert ClientConserved(p, op.client) && Pooled(p, op.client);
    }
  }

  lemma TimedOutStep(p: Pool, op: Op, c: ClientID)
    requires Disciplined(p, op) && c in p.timedOut
    ensures c in Step(p, op).timedOut
  {
  }

  /** A timed-out Get keeps its client pooled and running for ever. */
  lemma {:induction false} TimedOutClientStays(p: Pool, ops: seq<Op>, c: ClientID)
    requires Conserved(p) && LegalRun(p, ops) && c in p.timedOut
    ensures var q := Run(p, ops);
            c in q.timedOut && Pooled(q, c) && c < |q.stops| && q.stops[c] == 0
    decreases |ops|
  {
    if ops == [] {
      assert ClientConserved(p, c);
    } else {
      StepConserves(p, ops[0]);
      TimedOutStep(p, ops[0], c);
      TimedOutClientStays(Step(p, ops[0]), ops[1..], c);
    }
  }

  lemma ConservedEmptyIff(p: Pool)
    requires Conserved(p)
    ensures p.slots == map[] <==> p.held == multiset{} && p.timedOut == multiset{}
  {
    if p.slots == map[] {
      forall c ensures c !in p.held && c !in p.timedOut { assert ClientConserved(p, c); }
    } else {
      var k :| k in p.slots;
      assert SlotConserved(p, k) && ClientConserved(p, p.slots[k].client);
      assert References(p, p.slots[k].client) > 0;
    }
  }

  /** The pool ends empty exactly when no reference is left. */
  lemma PoolEmptyIff(ops: seq<Op>)
    requires LegalRun(NO_CLIENTS, ops)
    ensures var p := Run(NO_CLIENTS, ops);
            p.slots == map[] <==> p.held == multiset{} && p.timedOut == multiset{}
  {
    assert forall c: ClientID :: ClientConserved(NO_CLIENTS, c);
    RunConserves(NO_CLIENTS, ops);
    ConservedEmptyIff(Run(NO_CLIENTS, ops));
  }
}
