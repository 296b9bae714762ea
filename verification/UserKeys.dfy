/** Where the user keys that were loaded go when a configuration is saved
    (config/initializer.go), over every run. */
module UserKeys {
  import opened Outcomes
  import opened InitializerModel

  predicate LoadsKey(s: State, op: Op) {
    op.DoLoadKey? && op.ka.keyLoaded && op.ka.keyAccepted && s.config.owner.Some?
  }

  predicate UpdatesKey(s: State, op: Op) { op.DoSave? && s.updateUserKey && Account(s).Some? }

  /** The call sends a key that was loaded for the owner, through a client of
      that owner. */
  predicate AtHome(c: CloudCall)
    requires c.UpdateKey?
  {
    c.keyed && c.owner.Some? && c.owner.value.userID == c.account
  }

  predicate AllAtHome(s: State) { forall c | c in s.calls && c.UpdateKey? :: AtHome(c) }

  predicate SendsKeyHome(s: State) {
    s.config.ownerKey && s.config.owner.Some? && Some(s.config.owner.value.userID) == Account(s)
  }

  lemma AllAtHomeAfter(calls: seq<CloudCall>, more: seq<CloudCall>)
    ensures (forall c | c in calls + more && c.UpdateKey? :: AtHome(c))
            <==> && (forall c | c in calls && c.UpdateKey? :: AtHome(c))
                 && (forall c | c in more && c.UpdateKey? :: AtHome(c))
  {
    assert forall c :: c in calls + more <==> c in calls || c in more;
  }

  lemma KeyStep(s: State, op: Op)
    ensures AllAtHome(Step(s, op)) <==> AllAtHome(s) && (UpdatesKey(s, op) ==> SendsKeyHome(s))
  {
    if op.DoSave? {
      var s1 := s;
      if UpdatesKey(s, op) {
        var c := UpdateKey(Account(s).value, s.config.owner, s.config.ownerKey, op.sa.keyUpdated);
        AllAtHomeAfter(s.calls, [c]);
        s1 := s.(calls := s.calls + [c]);
        assert c in [c] && (AtHome(c) <==> SendsKeyHome(s));
      }
      SaveDeviceCalls(s1, op.sa);
      AllAtHomeAfter(s1.calls, UnregisterCalls(s1, op.sa));
      AllAtHomeAfter(s1.calls + UnregisterCalls(s1, op.sa), RegisterCalls(s1, op.sa));
    }
  }

  lemma KeyFlagsStep(s: State, op: Op)
    ensures Step(s, op).config.ownerKey <==> LoadsKey(s, op) || (s.config.ownerKey && !Resets(s, op))
    ensures Step(s, op).newOwnerAPIClient.Some? <==> Resets(s, op) || (s.newOwnerAPIClient.Some? && !op.DoReset?)
  {
  }

  predicate LoadsKeyAt(states: seq<State>, ops: seq<Op>, n: int)
    requires |states| == |ops| + 1
  {
    0 <= n < |ops| && LoadsKey(states[n], ops[n])
  }

  predicate UpdatesKeyAt(states: seq<State>, ops: seq<Op>, n: int)
    requires |states| == |ops| + 1
  {
    0 <= n < |ops| && UpdatesKey(states[n], ops[n])
  }

  predicate ResetTriedAt(ops: seq<Op>, n: int) { 0 <= n < |ops| && ops[n].DoReset? }

  /** Operation m loads a key and no reset up to n succeeds. */
  ghost predicate KeyFrom(states: seq<State>, ops: seq<Op>, m: int, n: int)
    requires |states| == |ops| + 1
  {
    m < n && LoadsKeyAt(states, ops, m) && forall l | m < l < n :: !ResetsAt(states, ops, l)
  }

  /** A key was loaded for the owner who is in place before operation n. */
  ghost predicate KeyInPlace(states: seq<State>, ops: seq<Op>, n: int)
    requires |states| == |ops| + 1
  {
    exists m :: KeyFrom(states, ops, m, n)
  }

  /** Operation m is a reset that succeeds and the newest before n. */
  ghost predicate NewestReset(states: seq<State>, ops: seq<Op>, m: int, n: int)
    requires |states| == |ops| + 1
  {
    m < n && ResetsAt(states, ops, m) && forall l | m < l < n :: !ResetTriedAt(ops, l)
  }

  /** The newest reset before operation n succeeded. */
  ghost predicate NewestResetSucceeded(states: seq<State>, ops: seq<Op>, n: int)
    requires |states| == |ops| + 1
  {
    exists m :: NewestReset(states, ops, m, n)
  }

  lemma KeyFromStep(states: seq<State>, ops: seq<Op>, k: nat)
    requires |states| == |ops| + 1 && k < |ops|
    ensures KeyInPlace(states, ops, k + 1)
            <==> LoadsKeyAt(states, ops, k) || (KeyInPlace(states, ops, k) && !ResetsAt(states, ops, k))
  {
    var next := k + 1;
    assert KeyFrom(states, ops, k, next) <==> LoadsKeyAt(states, ops, k);
    if m :| KeyFrom(states, ops, m, next) {
      assert m == k || (KeyFrom(states, ops, m, k) && !ResetsAt(states, ops, k));
    }
    if m :| KeyFrom(states, ops, m, k) {
      assert KeyFrom(states, ops, m, next) <==> !ResetsAt(states, ops, k);
    }
  }

  lemma NewestResetStep(states: seq<State>, ops: seq<Op>, k: nat)
    requires |states| == |ops| + 1 && k < |ops|
    ensures NewestResetSucceeded(states, ops, k + 1)
            <==> ResetsAt(states, ops, k) || (NewestResetSucceeded(states, ops, k) && !ResetTriedAt(ops, k))
  {
    var next := k + 1;
    assert NewestReset(states, ops, k, next) <==> ResetsAt(states, ops, k);
    if m :| NewestReset(states, ops, m, next) {
      assert m == k || (NewestReset(states, ops, m, k) && !ResetTriedAt(ops, k));
    }
    if m :| NewestReset(states, ops, m, k) {
      assert NewestReset(states, ops, m, next) <==> !ResetTriedAt(ops, k);
    }
  }

  lemma {:induction false} KeyFlagsTold(a: LoadAnswer, states: seq<State>, ops: seq<Op>, k: nat)
    requires IsRun(a, states, ops) && k <= |ops|
    ensures states[k].config.ownerKey <==> KeyInPlace(states, ops, k)
    ensures states[k].newOwnerAPIClient.Some? <==> NewestResetSucceeded(states, ops, k)
  {
    if k > 0 {
      KeyFlagsTold(a, states, ops, k - 1);
      KeyFlagsStep(states[k - 1], ops[k - 1]);
      KeyFromStep(states, ops, k - 1);
      NewestResetStep(states, ops, k - 1);
      assert LoadsKeyAt(states, ops, k - 1) <==> LoadsKey(states[k - 1], ops[k - 1]);
      assert ResetsAt(states, ops, k - 1) <==> Resets(states[k - 1], ops[k - 1]);
    }
  }

  /** A key was loaded for the owner in place, and either the newest reset
      succeeded or that owner is the user whose token was loaded. */
  ghost predicate KeyAndClientFit(a: LoadAnswer, states: seq<State>, ops: seq<Op>, n: int)
    requires |states| == |ops| + 1 && 0 <= n < |ops| && a.FileLoaded?
  {
    && KeyInPlace(states, ops, n)
    && (NewestResetSucceeded(states, ops, n)
        || (states[n].config.owner.Some? && states[n].config.owner.value.userID == a.tokenUser))
  }

  /** updateUserKey and the loaded client outlive resets and saves. Every update
      sends a key loaded for the owner through a client of that owner, if and
      only if at every Save that updates the key no reset has succeeded since a
      key was loaded, and the newest reset succeeded or the owner is the user
      whose token was loaded. */
  lemma {:induction false} KeysGoHomeIff(a: LoadAnswer, states: seq<State>, ops: seq<Op>, k: nat)
    requires IsRun(a, states, ops) && k <= |ops|
    ensures (forall c | c in states[k].calls && c.UpdateKey? :: AtHome(c))
            <==> forall n | n < k && UpdatesKeyAt(states, ops, n) :: KeyAndClientFit(a, states, ops, n)
  {
    if k > 0 {
      var n := k - 1;
      KeysGoHomeIff(a, states, ops, n);
      KeyStep(states[n], ops[n]);
      KeyFlagsTold(a, states, ops, n);
      RunInv(a, states, ops, n);
      RunKeepsLoad(a, states, ops, n);
      assert UpdatesKeyAt(states, ops, n) <==> UpdatesKey(states[n], ops[n]);
      assert UpdatesKeyAt(states, ops, n) ==> (SendsKeyHome(states[n]) <==> KeyAndClientFit(a, states, ops, n));
    }
  }

  /** A key was loaded before operation n. */
  ghost predicate KeyLoadedBefore(states: seq<State>, ops: seq<Op>, n: int)
    requires |states| == |ops| + 1
  {
    exists m :: m < n && LoadsKeyAt(states, ops, m)
  }

  lemma {:induction false} KeyFlagTold(a: LoadAnswer, states: seq<State>, ops: seq<Op>, k: nat)
    requires IsRun(a, states, ops) && k <= |ops|
    ensures states[k].updateUserKey <==> KeyLoadedBefore(states, ops, k)
  {
    if k > 0 {
      KeyFlagTold(a, states, ops, k - 1);
      assert states[k] == Step(states[k - 1], ops[k - 1]);
      assert LoadsKeyAt(states, ops, k - 1) <==> LoadsKey(states[k - 1], ops[k - 1]);
    }
  }

  /** Save goes through a client that does not exist exactly when a key was
      loaded, the newest reset (if any) failed, and no initialised configuration
      was loaded. */
  lemma NilClientIff(a: LoadAnswer, states: seq<State>, ops: seq<Op>, k: nat, sa: SaveAnswers)
    requires IsRun(a, states, ops) && k <= |ops|
    ensures Save(states[k], sa).r == NilClient
            <==> KeyLoadedBefore(states, ops, k) && !NewestResetSucceeded(states, ops, k) && !a.initialized
  {
    KeyFlagTold(a, states, ops, k);
    KeyFlagsTold(a, states, ops, k);
    RunKeepsLoad(a, states, ops, k);
  }

  // ---------------------------------------------------------------------
  // Runs that fail.

  /** The file holds an owner and is not initialised: a key is loaded for that
      owner, and Save goes through a client that was never made. */
  lemma NilClientUsed(owner: User) returns (a: LoadAnswer, states: seq<State>, ops: seq<Op>)
    ensures IsRun(a, states, ops) && forall sa :: Save(states[|ops|], sa).r == NilClient
  {
    a := FileLoaded(false, Some(owner), None, "");
    states := Extend(a, [Load(a).value], [], DoLoadKey(KeyAnswers(true, true)));
    ops := [DoLoadKey(KeyAnswers(true, true))];
  }

  lemma SaveKeepsFirstCall(s: State, sa: SaveAnswers, c: CloudCall)
    requires s.updateUserKey && Account(s).Some?
    requires c == UpdateKey(Account(s).value, s.config.owner, s.config.ownerKey, sa.keyUpdated)
    ensures c in Save(s, sa).s.calls
  {
    var s1 := s.(calls := s.calls + [c]);
    SaveDeviceCalls(s1, sa);
    assert c in s1.calls;
  }

  /** A key is loaded for an owner, the next reset puts another in place, and
      Save sends that user's key, which was never loaded. */
  lemma StaleKeyFlag(first: User, second: User, sa: SaveAnswers)
    returns (a: LoadAnswer, states: seq<State>, ops: seq<Op>)
    requires first.name != second.name
    ensures IsRun(a, states, ops)
    ensures UpdateKey(second.userID, Some(second), false, sa.keyUpdated) in states[|ops|].calls
  {
    a := FileLoaded(false, Some(first), None, "");
    var load, reset := DoLoadKey(KeyAnswers(true, true)), DoReset(GoodReset(second));
    states := Extend(a, [Load(a).value], [], load);
    states := Extend(a, states, [load], reset);
    ops := [load, reset, DoSave(sa)];
    var c := UpdateKey(second.userID, Some(second), false, sa.keyUpdated);
    assert [load] + [reset] == [load, reset];
    states := Extend(a, states, [load, reset], DoSave(sa));
    assert [load, reset] + [DoSave(sa)] == ops;
    SaveKeepsFirstCall(states[2], sa, c);
  }

  /** A second reset fails, and Save sends the key of the first new owner
      through the client of the user whose token was loaded. */
  lemma KeyThroughOldClient(loaded: User, id: string, chosen: User, failing: ResetAnswers, sa: SaveAnswers)
    returns (a: LoadAnswer, states: seq<State>, ops: seq<Op>)
    requires loaded.name != chosen.name && !failing.newConfig
    ensures IsRun(a, states, ops)
    ensures UpdateKey(loaded.userID, Some(chosen), true, sa.keyUpdated) in states[|ops|].calls
  {
    a := FileLoaded(true, Some(loaded), Some(id), loaded.userID);
    var r1 := DoReset(GoodReset(chosen).(current := LoggedIn(loaded)));
    var load, r2 := DoLoadKey(KeyAnswers(true, true)), DoReset(failing);
    states := Extend(a, [Load(a).value], [], r1);
    states := Extend(a, states, [r1], load);
    assert [r1] + [load] == [r1, load];
    states := Extend(a, states, [r1, load], r2);
    assert [r1, load] + [r2] == [r1, load, r2];
    states := Extend(a, states, [r1, load, r2], DoSave(sa));
    ops := [r1, load, r2, DoSave(sa)];
    assert [r1, load, r2] + [DoSave(sa)] == ops;
    SaveKeepsFirstCall(states[3], sa, UpdateKey(loaded.userID, Some(chosen), true, sa.keyUpdated));
  }
}
