/** Releases of clients that the caller does not hold (mycscloud/space_nodes.go):
    the pool acts on the key alone, and other holders can come to harm. */
module UnheldReleases {
  import opened PoolModel

  /** Exactly when a release keeps the counts: its client is held, or nothing
      is pooled under its key. */
  lemma ReleaseConservesIff(p: Pool, c: ClientID)
    requires Conserved(p) && c < |p.keys|
    ensures Conserved(ReleaseStep(p, c)) <==> c in p.held || p.keys[c] !in p.slots
  {
    var q := ReleaseStep(p, c);
    if c in p.held {
      ReleaseConserves(p, c);
    } else if p.keys[c] in p.slots {
      var d := p.slots[p.keys[c]].client;
      assert SlotConserved(p, p.keys[c]) && ClientConserved(p, d);
      assert q.held == p.held && References(q, d) == References(p, d);
      assert !ClientConserved(q, d);
    } else {
      assert q.held == p.held && q == p;
    }
  }

  /** Release by a caller that does not hold the client. The pool acts on the
      key alone, and nobody's handle is given back. */
  function ReleaseUnheld(p: Pool, c: ClientID): Pool
    requires c < |p.keys|
  {
    ReleaseKey(p, p.keys[c])
  }

  /** A caller whose handles are `mine` releases a client it does not hold. That
      leaves another caller with a stopped client exactly when the client pooled
      under the key is that caller's and the handle is the last reference. */
  lemma UnheldReleaseStopsIff(p: Pool, mine: multiset<ClientID>, others: multiset<ClientID>, c: ClientID)
    requires Conserved(p) && p.held == mine + others && c !in mine && c < |p.keys|
    ensures |ReleaseUnheld(p, c).stops| == |p.keys|
    ensures (exists d | d in others :: d < |p.keys| && ReleaseUnheld(p, c).stops[d] > 0)
            <==> && p.keys[c] in p.slots
                 && p.slots[p.keys[c]].client in others && References(p, p.slots[p.keys[c]].client) == 1
  {
    var q := ReleaseUnheld(p, c);
    forall d | d in others ensures d in p.held && Pooled(p, d) && p.stops[d] == 0 {
      assert d in p.held && ClientConserved(p, d);
    }
    if p.keys[c] in p.slots {
      var e := p.slots[p.keys[c]].client;
      assert SlotConserved(p, p.keys[c]) && ClientConserved(p, e);
      if e in others && References(p, e) == 1 {
        assert q.stops[e] > 0;
      }
    }
  }

  // ---------------------------------------------------------------------
  // What comes of it later, when everybody else releases only what is held.

  ghost predicate HeldAndStopped(p: Pool) {
    exists e :: e in p.held && e < |p.stops| && p.stops[e] > 0
  }

  /** The pooled client d counts one reference too few. */
  ghost predicate OneShort(p: Pool, d: ClientID) {
    && Pooled(p, d) && p.slots[p.keys[d]].refCount >= 0
    && References(p, d) == p.slots[p.keys[d]].refCount + 2 && d < |p.stops| && p.stops[d] == 0
  }

  /** Client d is stopped, and nobody holds it. */
  ghost predicate Gone(p: Pool, d: ClientID) { d < |p.keys| && !Pooled(p, d) && d !in p.held }

  /** The counts are right but for d. */
  ghost predicate OthersConserved(p: Pool, d: ClientID) {
    && |p.stops| == |p.keys|
    && (forall k | k in p.slots :: SlotConserved(p, k))
    && (forall c: ClientID | c != d :: ClientConserved(p, c))
  }

  /** d is one reference short, one of its references being kept for ever, or
      gone. */
  ghost predicate Sheltered(p: Pool, d: ClientID) { (OneShort(p, d) && d in p.timedOut) || Gone(p, d) }

  lemma OthersGet(p: Pool, key: string, startup: Startup, authenticated: bool, d: ClientID)
    requires OthersConserved(p, d)
    ensures OthersConserved(GetStep(p, key, startup, authenticated), d)
  {
    var q, f := GetStep(p, key, startup, authenticated), ClientFor(p, key);
    if key in p.slots { assert SlotConserved(p, key); }
    forall k | k in q.slots ensures SlotConserved(q, k) {
      if k in p.slots { assert SlotConserved(p, k); }
    }
    forall c: ClientID | c != d ensures ClientConserved(q, c) {
      assert ClientConserved(p, c);
      if c != f && (key in p.slots || startup == Created) { assert References(q, c) == References(p, c); }
    }
  }

  lemma ShelteredGet(p: Pool, key: string, startup: Startup, authenticated: bool, d: ClientID)
    requires OthersConserved(p, d) && Sheltered(p, d)
    ensures Sheltered(GetStep(p, key, startup, authenticated), d)
  {
    if key in p.slots { assert SlotConserved(p, key); }
  }

  lemma OthersRelease(p: Pool, c: ClientID, d: ClientID)
    requires OthersConserved(p, d) && Disciplined(p, Release(c)) && Pooled(p, c)
    ensures OthersConserved(ReleaseStep(p, c), d)
  {
    var q := ReleaseStep(p, c);
    forall k | k in q.slots ensures SlotConserved(q, k) { assert SlotConserved(p, k); }
    forall e: ClientID | e != d ensures ClientConserved(q, e) { assert ClientConserved(p, e); }
  }

  lemma ShelteredRelease(p: Pool, c: ClientID, d: ClientID)
    requires OthersConserved(p, d) && Sheltered(p, d) && Disciplined(p, Release(c))
    ensures Pooled(p, c) && Sheltered(ReleaseStep(p, c), d)
  {
    if c != d { assert ClientConserved(p, c); }
  }

  lemma {:induction false} ShelteredRun(p: Pool, ops: seq<Op>, d: ClientID)
    requires OthersConserved(p, d) && Sheltered(p, d) && LegalRun(p, ops)
    ensures OthersConserved(Run(p, ops), d) && Sheltered(Run(p, ops), d)
    decreases |ops|
  {
    if ops != [] {
      match ops[0] {
        case Get(key, startup, authenticated) =>
          ShelteredGet(p, key, startup, authenticated, d);
          OthersGet(p, key, startup, authenticated, d);
        case Release(c) =>
          ShelteredRelease(p, c, d);
          OthersRelease(p, c, d);
      }
      ShelteredRun(Step(p, ops[0]), ops[1..], d);
    }
  }

  lemma ConservedIsSafe(p: Pool)
    requires Conserved(p)
    ensures !HeldAndStopped(p)
  {
    forall e | e in p.held && e < |p.stops| ensures p.stops[e] == 0 { assert ClientConserved(p, e); }
  }

  lemma ShelteredIsSafe(p: Pool, d: ClientID)
    requires OthersConserved(p, d) && Sheltered(p, d)
    ensures !HeldAndStopped(p)
  {
    forall e | e in p.held && e < |p.stops| ensures p.stops[e] == 0 {
      if e != d { assert ClientConserved(p, e); }
    }
  }

  /** The holders of a client that is one reference short give it back one by
      one: the last but one stops it. */
  lemma {:induction false} DrainStops(p: Pool, d: ClientID) returns (ops: seq<Op>)
    requires OneShort(p, d) && p.timedOut[d] == 0
    ensures LegalRun(p, ops) && HeldAndStopped(Run(p, ops))
    decreases p.held[d]
  {
    var release := Release(d);
    var q := Step(p, release);
    if p.slots[p.keys[d]].refCount == 0 {
      ops := [release];
      assert [release][1..] == [] && LegalRun(q, []) && Run(q, []) == q;
      assert d in q.held && q.stops[d] > 0;
    } else {
      var rest := DrainStops(q, d);
      ops := [release] + rest;
      assert ops[1..] == rest;
    }
  }

  lemma UnheldReleaseShelters(p: Pool, c: ClientID)
    requires Conserved(p) && c < |p.keys| && p.keys[c] in p.slots && p.slots[p.keys[c]].client in p.timedOut
    ensures var q, d := ReleaseUnheld(p, c), p.slots[p.keys[c]].client; OthersConserved(q, d) && Sheltered(q, d)
  {
    var q, d := ReleaseUnheld(p, c), p.slots[p.keys[c]].client;
    assert SlotConserved(p, p.keys[c]) && ClientConserved(p, d);
    forall k | k in q.slots ensures SlotConserved(q, k) { assert SlotConserved(p, k); }
    forall e: ClientID | e != d ensures ClientConserved(q, e) { assert ClientConserved(p, e); }
  }

  /** Callers who all release only what they hold can come to hold a stopped
      client. */
  ghost predicate CanComeToHarm(p: Pool) {
    exists ops :: LegalRun(p, ops) && HeldAndStopped(Run(p, ops))
  }

  /** After a Release by a caller that does not hold the client, callers who all
      release only what they hold can come to hold a stopped client, exactly when
      a client is pooled under the key and no Get of it has timed out. */
  lemma UnheldReleaseHarmsIff(p: Pool, c: ClientID)
    requires Conserved(p) && c < |p.keys|
    ensures CanComeToHarm(ReleaseUnheld(p, c))
            <==> p.keys[c] in p.slots && p.timedOut[p.slots[p.keys[c]].client] == 0
  {
    var q := ReleaseUnheld(p, c);
    if p.keys[c] !in p.slots {
      forall ops | LegalRun(q, ops) ensures !HeldAndStopped(Run(q, ops)) {
        RunConserves(q, ops);
        ConservedIsSafe(Run(q, ops));
      }
    } else {
      var d := p.slots[p.keys[c]].client;
      assert SlotConserved(p, p.keys[c]) && ClientConserved(p, d);
      if d in p.timedOut {
        UnheldReleaseShelters(p, c);
        forall ops | LegalRun(q, ops) ensures !HeldAndStopped(Run(q, ops)) {
          ShelteredRun(q, ops, d);
          ShelteredIsSafe(Run(q, ops), d);
        }
      } else if p.slots[p.keys[c]].refCount == 0 {
        assert d in q.held && q.stops[d] > 0;
        assert LegalRun(q, []) && Run(q, []) == q;
      } else {
        var ops := DrainStops(q, d);
      }
    }
  }

  /** Two callers get the client for a key and the first gives it back. */
  lemma SharedOnce(key: string)
    ensures var get := Get(key, Created, true);
            LegalRun(NO_CLIENTS, [get, get, Release(0)])
            && Run(NO_CLIENTS, [get, get, Release(0)])
               == Pool(map[key := Slot(0, 0)], [key], [0], multiset{0}, multiset{})
  {
    var get, release := Get(key, Created, true), Release(0);
    var p1 := Step(NO_CLIENTS, get);
    assert p1 == Pool(map[key := Slot(0, 0)], [key], [0], multiset{0}, multiset{});
    var p2 := Step(p1, get);
    assert p2 == Pool(map[key := Slot(0, 1)], [key], [0], multiset{0, 0}, multiset{});
    var p3 := Step(p2, release);
    assert p3 == Pool(map[key := Slot(0, 0)], [key], [0], multiset{0}, multiset{});
    assert [get, get, release][1..] == [get, release] && [get, release][1..] == [release] && [release][1..] == [];
    assert LegalRun(p3, []) && Run(p3, []) == p3;
    assert LegalRun(p2, [release]) && Run(p2, [release]) == p3;
    assert LegalRun(p1, [get, release]) && Run(p1, [get, release]) == p3;
  }

  /** The first caller releases the client once more: the handle that is still
      out, the second caller's, is a stopped client. */
  lemma DoubleReleaseStopsAHeldClient(key: string)
    ensures var get := Get(key, Created, true);
            LegalRun(NO_CLIENTS, [get, get, Release(0)]) &&
            var p := Run(NO_CLIENTS, [get, get, Release(0)]);
            && p.held == multiset{0} && |p.keys| == 1 && p.stops == [0]
            && ReleaseUnheld(p, 0).held == multiset{0} && ReleaseUnheld(p, 0).stops == [1]
  {
    SharedOnce(key);
  }
}
