/** The devices that the resets and saves of config/initializer.go leave
    registered with the cloud, over every run. */
module DeviceRegistrations {
  import opened Outcomes
  import opened InitializerModel

  /** The operation unregisters the device that was loaded. */
  predicate Unregisters(s: State, op: Op) {
    op.DoSave? && KeyAccepted(s, op.sa) && s.resetConfig && s.currOwnerAPIClient.Some? && op.sa.unregistered
  }

  /** The operation registers a device and gets the ID `id`. */
  predicate Registers(s: State, op: Op, id: string) {
    && op.DoSave? && KeyAccepted(s, op.sa) && s.resetConfig && s.newOwnerAPIClient.Some?
    && op.sa.registered == Some(id)
  }

  /** The operation puts another device in place, or none yet. */
  predicate Replaces(s: State, op: Op) {
    Resets(s, op) || (op.DoSave? && op.sa.registered.Some? && Registers(s, op, op.sa.registered.value))
  }

  /** What a call leaves of the registrations. */
  function AfterCall(ids: set<string>, c: CloudCall): set<string> {
    match c
    case Unregister(_, id, ok) => if ok then ids - {id} else ids
    case Register(_, id) => ids + {id}
    case UpdateKey(_, _, _, _) => ids
  }

  /** The IDs of the devices that are registered after the calls. */
  function Registrations(initial: set<string>, calls: seq<CloudCall>): set<string> {
    if calls == [] then initial
    else AfterCall(Registrations(initial, calls[..|calls| - 1]), calls[|calls| - 1])
  }

  lemma OneMoreCall(initial: set<string>, calls: seq<CloudCall>, c: CloudCall)
    ensures Registrations(initial, calls + [c]) == AfterCall(Registrations(initial, calls), c)
  {
    assert (calls + [c])[..|calls|] == calls;
  }

  lemma AtMostOneMore(initial: set<string>, calls: seq<CloudCall>, more: seq<CloudCall>)
    requires |more| <= 1
    ensures var ids := Registrations(initial, calls);
            Registrations(initial, calls + more) == if more == [] then ids else AfterCall(ids, more[0])
  {
    if more == [] {
      assert calls + more == calls;
    } else {
      assert more == [more[0]];
      OneMoreCall(initial, calls, more[0]);
    }
  }

  /** The device of an initialised configuration is registered when loaded. */
  function InitialIDs(a: LoadAnswer): set<string> {
    if a.FileLoaded? && a.initialized && a.deviceID.Some? then {a.deviceID.value} else {}
  }

  function RegisteredIDs(a: LoadAnswer, s: State): set<string> { Registrations(InitialIDs(a), s.calls) }

  lemma SaveDeviceRegisters(initial: set<string>, s: State, a: SaveAnswers, id: string)
    ensures id in Registrations(initial, SaveDevice(s, a).s.calls)
            <==> (id in Registrations(initial, s.calls)
                  && !(s.resetConfig && s.currOwnerAPIClient.Some? && a.unregistered && id == s.currDeviceID))
                 || (s.resetConfig && s.newOwnerAPIClient.Some? && a.registered == Some(id))
  {
    SaveDeviceCalls(s, a);
    AtMostOneMore(initial, s.calls, UnregisterCalls(s, a));
    AtMostOneMore(initial, s.calls + UnregisterCalls(s, a), RegisterCalls(s, a));
  }

  lemma StepRegisters(initial: set<string>, s: State, op: Op, id: string)
    ensures id in Registrations(initial, Step(s, op).calls)
            <==> (id in Registrations(initial, s.calls) && !(Unregisters(s, op) && id == s.currDeviceID))
                 || Registers(s, op, id)
  {
    if op.DoSave? {
      if !s.updateUserKey {
        SaveDeviceRegisters(initial, s, op.sa, id);
      } else if Account(s).Some? {
        var c := UpdateKey(Account(s).value, s.config.owner, s.config.ownerKey, op.sa.keyUpdated);
        OneMoreCall(initial, s.calls, c);
        SaveDeviceRegisters(initial, s.(calls := s.calls + [c]), op.sa, id);
      }
    }
  }

  predicate UnregistersAt(states: seq<State>, ops: seq<Op>, n: int)
    requires |states| == |ops| + 1
  {
    0 <= n < |ops| && Unregisters(states[n], ops[n])
  }

  predicate RegistersAt(states: seq<State>, ops: seq<Op>, n: int, id: string)
    requires |states| == |ops| + 1
  {
    0 <= n < |ops| && Registers(states[n], ops[n], id)
  }

  predicate ReplacesAt(states: seq<State>, ops: seq<Op>, n: int)
    requires |states| == |ops| + 1
  {
    0 <= n < |ops| && Replaces(states[n], ops[n])
  }

  /** The device is unregistered by one of the operations from .. to - 1. */
  ghost predicate UnregisteredIn(states: seq<State>, ops: seq<Op>, id: string, from: int, to: int)
    requires |states| == |ops| + 1
  {
    id == states[0].currDeviceID && exists m :: from <= m < to && UnregistersAt(states, ops, m)
  }

  /** Operation n registers the device and none up to k unregisters it. */
  ghost predicate StaysFrom(states: seq<State>, ops: seq<Op>, id: string, n: int, k: int)
    requires |states| == |ops| + 1
  {
    n < k && RegistersAt(states, ops, n, id) && !UnregisteredIn(states, ops, id, n + 1, k)
  }

  ghost predicate RegisteredSince(states: seq<State>, ops: seq<Op>, id: string, k: int)
    requires |states| == |ops| + 1
  {
    exists n :: StaysFrom(states, ops, id, n, k)
  }

  /** Operation k takes the registration away. */
  predicate Takes(states: seq<State>, ops: seq<Op>, id: string, k: int)
    requires |states| == |ops| + 1
  {
    UnregistersAt(states, ops, k) && id == states[0].currDeviceID
  }

  lemma UnregisteredStep(states: seq<State>, ops: seq<Op>, id: string, from: int, k: nat)
    requires |states| == |ops| + 1 && from <= k < |ops|
    ensures UnregisteredIn(states, ops, id, from, k + 1)
            <==> UnregisteredIn(states, ops, id, from, k) || Takes(states, ops, id, k)
  {
    assert UnregistersAt(states, ops, k) || !UnregistersAt(states, ops, k);
  }

  lemma RegisteredStep(states: seq<State>, ops: seq<Op>, id: string, k: nat)
    requires |states| == |ops| + 1 && k < |ops|
    ensures RegisteredSince(states, ops, id, k + 1)
            <==> (RegisteredSince(states, ops, id, k) && !Takes(states, ops, id, k)) || RegistersAt(states, ops, k, id)
  {
    assert StaysFrom(states, ops, id, k, k + 1) <==> RegistersAt(states, ops, k, id);
    forall n | n < k
      ensures StaysFrom(states, ops, id, n, k + 1) <==> StaysFrom(states, ops, id, n, k) && !Takes(states, ops, id, k)
    {
      UnregisteredStep(states, ops, id, n + 1, k);
    }
    if n :| StaysFrom(states, ops, id, n, k) {
      assert StaysFrom(states, ops, id, n, k + 1) <==> !Takes(states, ops, id, k);
    }
    var next := k + 1;
    if n :| StaysFrom(states, ops, id, n, next) {
      assert n == k || StaysFrom(states, ops, id, n, k);
    }
  }

  /** A device is registered exactly when it was at load, or some Save has
      registered it, and no later operation unregistered it. */
  lemma {:induction false} RegisteredIff(a: LoadAnswer, states: seq<State>, ops: seq<Op>, k: nat, id: string)
    requires IsRun(a, states, ops) && k <= |ops|
    ensures id in RegisteredIDs(a, states[k])
            <==> (id in InitialIDs(a) && !UnregisteredIn(states, ops, id, 0, k)) || RegisteredSince(states, ops, id, k)
  {
    if k > 0 {
      RegisteredIff(a, states, ops, k - 1, id);
      RunKeepsLoad(a, states, ops, k - 1);
      StepRegisters(InitialIDs(a), states[k - 1], ops[k - 1], id);
      UnregisteredStep(states, ops, id, 0, k - 1);
      RegisteredStep(states, ops, id, k - 1);
    }
  }

  /** No device is registered exactly when the device that was loaded, if any,
      was unregistered, and every Save that registered one got the ID of the
      loaded device, which was unregistered later. */
  lemma NothingRegisteredIff(a: LoadAnswer, states: seq<State>, ops: seq<Op>, k: nat)
    requires IsRun(a, states, ops) && k <= |ops|
    ensures RegisteredIDs(a, states[k]) == {}
            <==> && (a.initialized ==> exists m :: m < k && UnregistersAt(states, ops, m))
                 && (forall n, id | n < k && RegistersAt(states, ops, n, id) ::
                       UnregisteredIn(states, ops, id, n + 1, k))
  {
    var ids := RegisteredIDs(a, states[k]);
    if ids == {} {
      forall n, id | n < k && RegistersAt(states, ops, n, id) ensures UnregisteredIn(states, ops, id, n + 1, k) {
        RegisteredIff(a, states, ops, k, id);
        assert StaysFrom(states, ops, id, n, k) || UnregisteredIn(states, ops, id, n + 1, k);
      }
      if a.initialized { RegisteredIff(a, states, ops, k, a.deviceID.value); }
    } else {
      var id :| id in ids;
      RegisteredIff(a, states, ops, k, id);
    }
  }

  /** In reachable states Save takes away the last registration exactly when an
      initialised configuration was loaded, the reset flag is up, the user key
      (if changed) is accepted, the old device is unregistered without error, no
      device is registered for a new owner, and the old device was the only one
      registered. */
  lemma StrandingSaveIff(a: LoadAnswer, states: seq<State>, ops: seq<Op>, k: nat, sa: SaveAnswers)
    requires IsRun(a, states, ops) && k <= |ops|
    ensures var s := states[k];
            RegisteredIDs(a, s) != {} && RegisteredIDs(a, Save(s, sa).s) == {}
            <==> && a.initialized && s.resetConfig && (s.updateUserKey ==> sa.keyUpdated)
                 && sa.unregistered && (s.newOwnerAPIClient == None || sa.registered == None)
                 && RegisteredIDs(a, s) == {a.deviceID.value}
  {
    RunKeepsLoad(a, states, ops, k);
    var s, t := states[k], Save(states[k], sa).s;
    forall id
      ensures id in RegisteredIDs(a, t)
              <==> (id in RegisteredIDs(a, s) && !(Unregisters(s, DoSave(sa)) && id == s.currDeviceID))
                   || Registers(s, DoSave(sa), id)
    {
      StepRegisters(InitialIDs(a), s, DoSave(sa), id);
    }
    if RegisteredIDs(a, s) != {} && RegisteredIDs(a, t) == {} {
      assert forall id | id in RegisteredIDs(a, s) :: id == s.currDeviceID && Unregisters(s, DoSave(sa));
      assert sa.registered.Some? ==> !Registers(s, DoSave(sa), sa.registered.value);
    }
  }

  /** There is no new owner's client, and a new configuration waits for one. */
  predicate NoWayBack(s: State) {
    !s.config.initialized && s.resetConfig && s.newOwnerAPIClient == None
  }

  /** Operation f is a reset that fails while the configuration in place is not
      initialised: a reset has succeeded before, or none was loaded. */
  predicate FailsUnprepared(states: seq<State>, ops: seq<Op>, f: int)
    requires |states| == |ops| + 1
  {
    0 <= f < |ops| && ops[f].DoReset? && !Resets(states[f], ops[f]) && !states[f].config.initialized
  }

  lemma {:induction false} NoWayBackKept(a: LoadAnswer, states: seq<State>, ops: seq<Op>, f: nat, k: nat)
    requires IsRun(a, states, ops) && FailsUnprepared(states, ops, f) && f < k <= |ops|
    requires forall n | f < n < k :: !ops[n].DoReset?
    ensures NoWayBack(states[k])
  {
    if k == f + 1 {
      assert states[k] == Step(states[f], ops[f]);
    } else {
      NoWayBackKept(a, states, ops, f, k - 1);
      assert !ops[k - 1].DoReset?;
    }
  }

  ghost predicate UnregisteredFrom(states: seq<State>, ops: seq<Op>, from: int, to: int)
    requires |states| == |ops| + 1
  {
    exists m :: from <= m < to && UnregistersAt(states, ops, m)
  }

  /** A reset that fails after a successful one, whatever came before and in
      between, leads there: until the next reset no Save succeeds or registers a
      device, and the old device is registered no more exactly when one of them
      has unregistered it. */
  lemma {:induction false} FailedSecondResetStrands(a: LoadAnswer, states: seq<State>, ops: seq<Op>, f: nat, k: nat)
    requires IsRun(a, states, ops) && FailsUnprepared(states, ops, f) && f < k <= |ops|
    requires forall n | f < n < k :: !ops[n].DoReset?
    ensures forall n, id | f < n < k :: !RegistersAt(states, ops, n, id)
    ensures forall sa :: Save(states[k], sa).r != Finished(None)
    ensures RegisteredIDs(a, states[k])
            == RegisteredIDs(a, states[f])
               - if UnregisteredFrom(states, ops, f + 1, k) then {states[0].currDeviceID} else {}
  {
    NoWayBackKept(a, states, ops, f, k);
    if k == f + 1 {
      assert states[k] == Step(states[f], ops[f]);
    } else {
      var n := k - 1;
      FailedSecondResetStrands(a, states, ops, f, n);
      NoWayBackKept(a, states, ops, f, n);
      RunKeepsLoad(a, states, ops, n);
      assert states[k] == Step(states[n], ops[n]);
      forall id ensures !RegistersAt(states, ops, n, id) {}
      forall id
        ensures id in RegisteredIDs(a, states[k])
                <==> id in RegisteredIDs(a, states[n])
                     && !(UnregistersAt(states, ops, n) && id == states[0].currDeviceID)
      {
        StepRegisters(InitialIDs(a), states[n], ops[n], id);
      }
      assert UnregisteredFrom(states, ops, f + 1, k)
             <==> UnregisteredFrom(states, ops, f + 1, n) || UnregistersAt(states, ops, n);
    }
  }

  /** It happens: a reset succeeds, the next fails, and a Save takes away the
      only registration. */
  lemma SaveStrands(owner: User, next: User, id: string, failing: ResetAnswers)
    returns (a: LoadAnswer, states: seq<State>, ops: seq<Op>, sa: SaveAnswers)
    requires owner.name != next.name && !failing.newConfig
    ensures IsRun(a, states, ops)
    ensures var s := states[|ops|]; RegisteredIDs(a, s) == {id} && RegisteredIDs(a, Save(s, sa).s) == {}
  {
    a := FileLoaded(true, Some(owner), Some(id), owner.userID);
    sa := SaveAnswers(true, true, None, true);
    var reset, again := DoReset(GoodReset(next).(current := LoggedIn(owner))), DoReset(failing);
    states := Extend(a, [Load(a).value], [], reset);
    states := Extend(a, states, [reset], again);
    ops := [reset, again];
    assert [reset] + [again] == ops;
    StrandingSaveIff(a, states, ops, 2, sa);
  }

  // ---------------------------------------------------------------------
  // Devices that nobody will unregister.

  /** The device was registered here, and is not the configuration's any more. */
  predicate Leaked(a: LoadAnswer, s: State, id: string) {
    && id in RegisteredIDs(a, s) && id !in InitialIDs(a)
    && !(s.config.device.Registered? && s.config.device.id == id)
  }

  /** Operation j registers the device and none up to k registers another one
      or resets the owner. */
  ghost predicate SettledAt(states: seq<State>, ops: seq<Op>, id: string, j: int, k: int)
    requires |states| == |ops| + 1
  {
    && j < k && RegistersAt(states, ops, j, id)
    && forall l | j < l < k :: !ReplacesAt(states, ops, l)
  }

  lemma DeviceStep(s: State, op: Op, id: string)
    ensures var d, d' := s.config.device, Step(s, op).config.device;
            d'.Registered? && d'.id == id <==> Registers(s, op, id) || (d.Registered? && d.id == id && !Replaces(s, op))
  {
  }

  ghost predicate Settled(states: seq<State>, ops: seq<Op>, id: string, k: int)
    requires |states| == |ops| + 1
  {
    exists j :: SettledAt(states, ops, id, j, k)
  }

  lemma SettledStep(states: seq<State>, ops: seq<Op>, id: string, k: nat)
    requires |states| == |ops| + 1 && k < |ops|
    ensures Settled(states, ops, id, k + 1)
            <==> RegistersAt(states, ops, k, id) || (Settled(states, ops, id, k) && !ReplacesAt(states, ops, k))
  {
    var next := k + 1;
    assert SettledAt(states, ops, id, k, next) <==> RegistersAt(states, ops, k, id);
    if j :| SettledAt(states, ops, id, j, next) {
      assert j == k || (SettledAt(states, ops, id, j, k) && !ReplacesAt(states, ops, k));
    }
    if j :| SettledAt(states, ops, id, j, k) {
      assert SettledAt(states, ops, id, j, next) <==> !ReplacesAt(states, ops, k);
    }
  }

  /** The configuration has a registered device exactly when it is the one
      registered last, and no reset succeeded since. */
  lemma {:induction false} DeviceSettled(a: LoadAnswer, states: seq<State>, ops: seq<Op>, k: nat, id: string)
    requires IsRun(a, states, ops) && k <= |ops|
    ensures var d := states[k].config.device;
            d.Registered? && d.id == id <==> Settled(states, ops, id, k)
  {
    if k > 0 {
      DeviceSettled(a, states, ops, k - 1, id);
      DeviceStep(states[k - 1], ops[k - 1], id);
      SettledStep(states, ops, id, k - 1);
    }
  }

  /** Only the loaded device is ever unregistered. */
  lemma NewStays(a: LoadAnswer, states: seq<State>, ops: seq<Op>, id: string, n: int, k: nat)
    requires IsRun(a, states, ops) && n < k <= |ops| && RegistersAt(states, ops, n, id) && id !in InitialIDs(a)
    ensures StaysFrom(states, ops, id, n, k)
  {
    forall m | n < m < k && UnregistersAt(states, ops, m) ensures id != states[0].currDeviceID {
      RunKeepsLoad(a, states, ops, m);
    }
  }

  /** No registered device is leaked exactly when each new device that a Save
      registered is the one registered last, with no successful reset since. */
  lemma NoDeviceLeaksIff(a: LoadAnswer, states: seq<State>, ops: seq<Op>, k: nat)
    requires IsRun(a, states, ops) && k <= |ops|
    ensures (forall id :: !Leaked(a, states[k], id))
            <==> forall n, id | n < k && RegistersAt(states, ops, n, id) && id !in InitialIDs(a) ::
                   Settled(states, ops, id, k)
  {
    forall n, id | n < k && RegistersAt(states, ops, n, id) && id !in InitialIDs(a)
      ensures id in RegisteredIDs(a, states[k]) && (Leaked(a, states[k], id) <==> !Settled(states, ops, id, k))
    {
      RegisteredIff(a, states, ops, k, id);
      NewStays(a, states, ops, id, n, k);
      DeviceSettled(a, states, ops, k, id);
    }
    forall id | Leaked(a, states[k], id)
      ensures !Settled(states, ops, id, k) && exists n :: n < k && RegistersAt(states, ops, n, id)
    {
      RegisteredIff(a, states, ops, k, id);
      DeviceSettled(a, states, ops, k, id);
    }
  }

  /** A leaked device stays registered in every further run. */
  lemma LeakedForEver(a: LoadAnswer, states: seq<State>, ops: seq<Op>, k: nat, later: nat, id: string)
    requires IsRun(a, states, ops) && k <= later <= |ops| && Leaked(a, states[k], id)
    ensures id in RegisteredIDs(a, states[later])
  {
    RegisteredIff(a, states, ops, k, id);
    var n :| StaysFrom(states, ops, id, n, k);
    NewStays(a, states, ops, id, n, later);
    RegisteredIff(a, states, ops, later, id);
  }

  /** The cloud gives every device an ID of its own. */
  ghost predicate FreshIDs(a: LoadAnswer, states: seq<State>, ops: seq<Op>)
    requires |states| == |ops| + 1
  {
    && (forall n, id | RegistersAt(states, ops, n, id) :: id !in InitialIDs(a))
    && (forall n, m, id | RegistersAt(states, ops, n, id) && RegistersAt(states, ops, m, id) :: n == m)
  }

  /** Then no device leaks exactly when at most one Save registers a device, and
      no reset succeeds after it. */
  lemma OneRegistrationIff(a: LoadAnswer, states: seq<State>, ops: seq<Op>)
    requires IsRun(a, states, ops) && FreshIDs(a, states, ops)
    ensures (forall id :: !Leaked(a, states[|ops|], id))
            <==> forall n, id, m | RegistersAt(states, ops, n, id) && n < m :: !ReplacesAt(states, ops, m)
  {
    var k := |ops|;
    NoDeviceLeaksIff(a, states, ops, k);
    forall n, id | RegistersAt(states, ops, n, id)
      ensures id !in InitialIDs(a) && (Settled(states, ops, id, k) <==> SettledAt(states, ops, id, n, k))
    {
      if j :| SettledAt(states, ops, id, j, k) { assert j == n; }
    }
  }

  /** The new owner's client stays set after a Save, so that the next Save
      registers yet another device and leaks the first. */
  lemma SecondSaveLeaksDevice(a: LoadAnswer, states: seq<State>, ops: seq<Op>, n: nat, id: string, other: string)
    requires IsRun(a, states, ops) && n + 1 < |ops| && id !in InitialIDs(a) && id != other
    requires RegistersAt(states, ops, n, id) && ops[n + 1].DoSave? && ops[n + 1].sa.registered == Some(other)
    requires states[n].updateUserKey ==> ops[n + 1].sa.keyUpdated
    ensures RegistersAt(states, ops, n + 1, other) && Leaked(a, states[n + 2], id)
  {
    RunInv(a, states, ops, n);
    assert states[n + 1] == Step(states[n], ops[n]);
    RunInv(a, states, ops, n + 1);
    NewStays(a, states, ops, id, n, n + 2);
    RegisteredIff(a, states, ops, n + 2, id);
    assert states[n + 2] == Step(states[n + 1], ops[n + 1]);
    DeviceStep(states[n + 1], ops[n + 1], other);
  }

  /** It happens: a reset succeeds, and two Saves register two devices. */
  lemma TwoSavesLeak(owner: User, next: User, id: string, first: string, second: string)
    returns (a: LoadAnswer, states: seq<State>, ops: seq<Op>)
    requires owner.name != next.name && first != id && first != second
    ensures IsRun(a, states, ops) && Leaked(a, states[|ops|], first)
  {
    a := FileLoaded(true, Some(owner), Some(id), owner.userID);
    var reset := DoReset(GoodReset(next).(current := LoggedIn(owner)));
    var save := DoSave(SaveAnswers(true, true, Some(first), true));
    var again := DoSave(SaveAnswers(true, true, Some(second), true));
    states := Extend(a, [Load(a).value], [], reset);
    states := Extend(a, states, [reset], save);
    assert [reset] + [save] == [reset, save];
    states := Extend(a, states, [reset, save], again);
    ops := [reset, save, again];
    assert [reset, save] + [again] == ops;
    SecondSaveLeaksDevice(a, states, ops, 1, first, second);
  }
}
