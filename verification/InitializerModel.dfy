/** The device-owner reset and save machine of config/initializer.go. Every
    remote call, user answer and file operation may turn out either way, and
    the operations run one after the other. */
module InitializerModel {
  import opened Outcomes

  type UserID = string

  datatype User = User(userID: UserID, name: string)

  /** How the device of a configuration came by its ID: it was in the file that
      was loaded, or a registration through the client of `account` returned
      it. A new device has no ID yet. */
  datatype Device = NoDevice | NewDevice | Loaded(id: string) | Registered(id: string, account: UserID)

  /** `ownerKey`: a key was set on the owner since this configuration was made. */
  datatype Config = Config(initialized: bool, owner: Option<User>, ownerKey: bool, device: Device)

  /** Calls that change what the cloud knows, through the client of `account`. */
  datatype CloudCall =
    | Unregister(account: UserID, id: string, ok: bool)
    | Register(account: UserID, id: string)
    | UpdateKey(account: UserID, owner: Option<User>, keyed: bool, ok: bool)

  /** A graphql client is known by the user whose token it carries. */
  datatype State = State(config: Config, resetConfig: bool,
                         currOwnerAPIClient: Option<UserID>, currDeviceID: string,
                         newOwnerAPIClient: Option<UserID>, updateUserKey: bool,
                         calls: seq<CloudCall>)

  /** The errors of the operations. */
  datatype Failure =
    | NoNewConfig | ResetCancelled | AuthFailed(error: string) | OwnerNotLoggedIn | OwnerAlreadySet
    | NoOwnerUser | NoUserDetails | NoDeviceMade
    | KeyNotUpdated | NoNewOwnerClient | NotRegistered | NotSaved

  // ---------------------------------------------------------------------
  // NewConfigInitializer.

  /** What the configuration file holds; `tokenUser` is the user of the token
      stored in it. */
  datatype LoadAnswer =
    | LoadFailed
    | FileLoaded(initialized: bool, owner: Option<User>, deviceID: Option<string>, tokenUser: UserID)

  function Load(a: LoadAnswer): Option<State> {
    match a
    case LoadFailed => None
    case FileLoaded(initialized, owner, deviceID, tokenUser) =>
      var config := Config(initialized, owner, false, if deviceID == None then NoDevice else Loaded(deviceID.value));
      if !initialized then Some(State(config, true, None, "", None, false, []))
      else if owner == None || deviceID == None then None
      else Some(State(config, false, Some(tokenUser), deviceID.value, None, false, []))
  }

  /** A load succeeds unless the file cannot be read, or is initialised without
      an owner or a device; the flag is up when it is not initialised. */
  lemma LoadExact(a: LoadAnswer)
    ensures Load(a).Some? <==> a.FileLoaded? && (a.initialized ==> a.owner.Some? && a.deviceID.Some?)
    ensures Load(a).Some? ==>
              var s := Load(a).value;
              && s.config.initialized == a.initialized && s.config.owner == a.owner && !s.config.ownerKey
              && (a.deviceID.Some? ==> s.config.device == Loaded(a.deviceID.value))
              && (a.deviceID == None ==> s.config.device == NoDevice)
              && s.resetConfig == !a.initialized && s.newOwnerAPIClient == None && !s.updateUserKey && s.calls == []
  {
  }

  // ---------------------------------------------------------------------
  // ResetDeviceOwner.

  datatype LoginAnswer = LoginFailed(error: string) | LoggedIn(user: User)

  datatype ResetAnswers = ResetAnswers(newConfig: bool, confirmed: bool, current: LoginAnswer, next: LoginAnswer,
                                       newOwnerUser: bool, getUser: bool, newDevice: bool)

  /** The owner name, "" when there is no owner. */
  function OwnerName(c: Config): string {
    if c.owner == None then "" else c.owner.value.name
  }

  /** Why the reset stops before the new owner is set up, if it does. */
  function ResetRefused(c: Config, a: ResetAnswers): Option<Failure> {
    if !a.newConfig then Some(NoNewConfig)
    else if c.initialized && c.owner.Some? && !a.confirmed then Some(ResetCancelled)
    else if c.initialized && c.owner.Some? && a.current.LoginFailed? then Some(AuthFailed(a.current.error))
    else if c.initialized && c.owner.Some? && a.current.user.name != c.owner.value.name then Some(OwnerNotLoggedIn)
    else if a.next.LoginFailed? then Some(AuthFailed(a.next.error))
    else if a.next.user.name == OwnerName(c) then Some(OwnerAlreadySet)
    else None
  }

  function ResetError(c: Config, a: ResetAnswers): Option<Failure> {
    var refused := ResetRefused(c, a);
    if refused.Some? then refused
    else if !a.newOwnerUser then Some(NoOwnerUser)
    else if !a.getUser then Some(NoUserDetails)
    else if !a.newDevice then Some(NoDeviceMade)
    else None
  }

  /** The deferred function of the operation restores the flags on an error and
      puts the new configuration in place otherwise. */
  function Reset(s: State, a: ResetAnswers): State {
    if ResetError(s.config, a).Some? then
      s.(newOwnerAPIClient := None, resetConfig := !s.config.initialized)
    else
      var user := a.next.user;
      s.(newOwnerAPIClient := Some(user.userID), resetConfig := true,
         config := Config(false, Some(user), false, NewDevice))
  }

  // ---------------------------------------------------------------------
  // LoadDeviceOwnerKey.

  datatype KeyAnswers = KeyAnswers(keyLoaded: bool, keyAccepted: bool)

  function LoadKey(s: State, a: KeyAnswers): State {
    if a.keyLoaded && s.config.owner.Some? && a.keyAccepted
    then s.(updateUserKey := true, config := s.config.(ownerKey := true))
    else s
  }

  // ---------------------------------------------------------------------
  // Save.

  datatype SaveAnswers = SaveAnswers(keyUpdated: bool, unregistered: bool, registered: Option<string>, saved: bool)

  /** The call finished, or went through a client that does not exist. */
  datatype SaveResult = Finished(error: Option<Failure>) | NilClient

  datatype Saved = Saved(s: State, r: SaveResult)

  /** The client through which the user key is updated. */
  function Account(s: State): Option<UserID> {
    if s.newOwnerAPIClient.Some? then s.newOwnerAPIClient else s.currOwnerAPIClient
  }

  function SaveConfig(s: State, a: SaveAnswers): Saved {
    Saved(s.(config := s.config.(initialized := true)), Finished(if a.saved then None else Some(NotSaved)))
  }

  function SaveDevice(s: State, a: SaveAnswers): Saved {
    if !s.resetConfig then SaveConfig(s, a)
    else
      var s1 := if s.currOwnerAPIClient == None then s
                else s.(calls := s.calls + [Unregister(s.currOwnerAPIClient.value, s.currDeviceID, a.unregistered)]);
      if s.newOwnerAPIClient == None then Saved(s1, Finished(Some(NoNewOwnerClient)))
      else if a.registered == None then Saved(s1, Finished(Some(NotRegistered)))
      else
        var account, id := s.newOwnerAPIClient.value, a.registered.value;
        SaveConfig(s1.(calls := s1.calls + [Register(account, id)],
                       config := s.config.(device := Registered(id, account))), a)
  }

  function Save(s: State, a: SaveAnswers): Saved {
    if !s.updateUserKey then SaveDevice(s, a)
    else if Account(s) == None then Saved(s, NilClient)
    else
      var s1 := s.(calls := s.calls + [UpdateKey(Account(s).value, s.config.owner, s.config.ownerKey, a.keyUpdated)]);
      if !a.keyUpdated then Saved(s1, Finished(Some(KeyNotUpdated))) else SaveDevice(s1, a)
  }

  // ---------------------------------------------------------------------
  // Runs.

  datatype Op = DoReset(ra: ResetAnswers) | DoLoadKey(ka: KeyAnswers) | DoSave(sa: SaveAnswers)

  function Step(s: State, op: Op): State {
    match op
    case DoReset(a) => Reset(s, a)
    case DoLoadKey(a) => LoadKey(s, a)
    case DoSave(a) => Save(s, a).s
  }

  /** A run from a load; states[n] is where it is after n operations. */
  ghost predicate IsRun(a: LoadAnswer, states: seq<State>, ops: seq<Op>) {
    && |states| == |ops| + 1 && Some(states[0]) == Load(a)
    && forall n {:trigger ops[n]} | 0 <= n < |ops| :: states[n + 1] == Step(states[n], ops[n])
  }

  /** The flag is up exactly when there is a new owner to register a device for,
      or the configuration was never initialised. */
  predicate Coupled(s: State) {
    s.resetConfig <==> s.newOwnerAPIClient.Some? || !s.config.initialized
  }

  /** The device ID comes from the load, or from a registration through the
      client of the very user who owns the configuration. */
  predicate DeviceVouched(s: State) {
    match s.config.device
    case Loaded(id) => s.currOwnerAPIClient.Some? && id == s.currDeviceID
    case Registered(id, account) =>
      s.config.owner.Some? && s.config.owner.value.userID == account && Register(account, id) in s.calls
    case _ => false
  }

  predicate InitialisedSafely(s: State) {
    s.config.initialized ==> s.config.owner.Some? && DeviceVouched(s)
  }

  /** The new owner's client and the configuration belong to one user, who has
      a device. */
  predicate NewOwnerReady(s: State) {
    s.newOwnerAPIClient.Some? ==>
      && s.config.owner.Some? && s.config.owner.value.userID == s.newOwnerAPIClient.value
      && (s.config.device.NewDevice? || s.config.device.Registered?)
  }

  /** Only the device that was validated at load is ever unregistered. */
  predicate CallsSafe(s: State) {
    forall c | c in s.calls && c.Unregister? :: Some(c.account) == s.currOwnerAPIClient && c.id == s.currDeviceID
  }

  /** There is an owner whose key an update can send. */
  predicate KeyHasOwner(s: State) { s.updateUserKey ==> s.config.owner.Some? }

  predicate Inv(s: State) {
    Coupled(s) && InitialisedSafely(s) && NewOwnerReady(s) && CallsSafe(s) && KeyHasOwner(s)
  }

  /** No operation changes what was found at load. */
  predicate SameLoad(s: State, t: State) {
    t.currOwnerAPIClient == s.currOwnerAPIClient && t.currDeviceID == s.currDeviceID
  }

  lemma SaveDeviceInv(s: State, a: SaveAnswers)
    requires Inv(s)
    ensures Inv(SaveDevice(s, a).s)
  {
    var t := SaveDevice(s, a).s;
    forall c | c in s.calls ensures c in t.calls {}
  }

  lemma SaveInv(s: State, a: SaveAnswers)
    requires Inv(s)
    ensures Inv(Save(s, a).s)
  {
    if !s.updateUserKey {
      SaveDeviceInv(s, a);
    } else if Account(s).Some? {
      var call := UpdateKey(Account(s).value, s.config.owner, s.config.ownerKey, a.keyUpdated);
      var s1 := s.(calls := s.calls + [call]);
      assert forall c | c in s.calls :: c in s1.calls;
      assert Inv(s1);
      SaveDeviceInv(s1, a);
    }
  }

  lemma StepInv(s: State, op: Op)
    requires Inv(s)
    ensures Inv(Step(s, op)) && SameLoad(s, Step(s, op))
  {
    if op.DoSave? { SaveInv(s, op.sa); }
  }

  lemma {:induction false} RunInv(a: LoadAnswer, states: seq<State>, ops: seq<Op>, k: nat)
    requires IsRun(a, states, ops) && k <= |ops|
    ensures Inv(states[k]) && SameLoad(states[0], states[k])
  {
    if k > 0 {
      RunInv(a, states, ops, k - 1);
      StepInv(states[k - 1], ops[k - 1]);
    }
  }

  /** Reset/save coupling in every reachable state, with any step failing. */
  lemma ResetFlagCoupled(a: LoadAnswer, states: seq<State>, ops: seq<Op>, k: nat)
    requires IsRun(a, states, ops) && k <= |ops|
    ensures states[k].resetConfig <==> states[k].newOwnerAPIClient.Some? || !states[k].config.initialized
  {
    RunInv(a, states, ops, k);
  }

  /** An initialised configuration always has an owner and a device ID that was
      validated at load or returned by a registration through its owner's
      client; and only the device of the load is ever unregistered. */
  lemma InitialisedConfigIsSound(a: LoadAnswer, states: seq<State>, ops: seq<Op>, k: nat)
    requires IsRun(a, states, ops) && k <= |ops| && states[k].config.initialized
    ensures var s := states[k];
            && s.config.owner.Some?
            && (s.config.device == Loaded(s.currDeviceID)
                || (s.config.device.Registered?
                    && s.config.device.account == s.config.owner.value.userID
                    && Register(s.config.device.account, s.config.device.id) in s.calls))
            && (forall c | c in s.calls && c.Unregister? :: c.id == s.currDeviceID)
  {
    RunInv(a, states, ops, k);
  }

  /** A failed reset leaves the configuration in place, and the flags as if no
      reset had been begun since it was put there. */
  lemma FailedResetKeepsConfig(
    a: LoadAnswer, states: seq<State>, ops: seq<Op>, k: nat, ra: ResetAnswers)
    requires IsRun(a, states, ops) && k <= |ops| && ResetError(states[k].config, ra).Some?
    ensures var s, t := states[k], Reset(states[k], ra);
            && t.config == s.config && t.calls == s.calls && t.updateUserKey == s.updateUserKey
            && t.newOwnerAPIClient == None
            && (t.resetConfig <==> s.resetConfig && !s.config.initialized)
  {
    RunInv(a, states, ops, k);
  }

  /** What a run leaves as it was loaded. */
  lemma RunKeepsLoad(a: LoadAnswer, states: seq<State>, ops: seq<Op>, k: nat)
    requires IsRun(a, states, ops) && k <= |ops|
    ensures states[k].currOwnerAPIClient == if a.initialized then Some(a.tokenUser) else None
    ensures states[k].currDeviceID == states[0].currDeviceID
    ensures a.initialized ==> a.deviceID == Some(states[0].currDeviceID)
  {
    RunInv(a, states, ops, k);
  }

  // ---------------------------------------------------------------------
  // Operations and runs of them.

  predicate KeyAccepted(s: State, a: SaveAnswers) {
    s.updateUserKey ==> Account(s).Some? && a.keyUpdated
  }

  predicate Resets(s: State, op: Op) {
    op.DoReset? && ResetError(s.config, op.ra) == None
  }

  predicate ResetsAt(states: seq<State>, ops: seq<Op>, n: int)
    requires |states| == |ops| + 1
  {
    0 <= n < |ops| && Resets(states[n], ops[n])
  }

  function UnregisterCalls(s: State, a: SaveAnswers): seq<CloudCall> {
    if s.resetConfig && s.currOwnerAPIClient.Some?
    then [Unregister(s.currOwnerAPIClient.value, s.currDeviceID, a.unregistered)] else []
  }

  function RegisterCalls(s: State, a: SaveAnswers): seq<CloudCall> {
    if s.resetConfig && s.newOwnerAPIClient.Some? && a.registered.Some?
    then [Register(s.newOwnerAPIClient.value, a.registered.value)] else []
  }

  lemma SaveDeviceCalls(s: State, a: SaveAnswers)
    ensures SaveDevice(s, a).s.calls == s.calls + UnregisterCalls(s, a) + RegisterCalls(s, a)
  {
  }

  lemma Extend(a: LoadAnswer, states: seq<State>, ops: seq<Op>, op: Op) returns (longer: seq<State>)
    requires IsRun(a, states, ops)
    ensures IsRun(a, longer, ops + [op]) && longer == states + [Step(states[|ops|], op)]
  {
    longer := states + [Step(states[|ops|], op)];
    var more := ops + [op];
    forall n {:trigger more[n]} | 0 <= n < |more| ensures longer[n + 1] == Step(longer[n], more[n]) {
      if n < |ops| { assert states[n + 1] == Step(states[n], ops[n]); }
    }
  }

  /** A reset that succeeds for this user. */
  function GoodReset(user: User): ResetAnswers {
    ResetAnswers(true, true, LoggedIn(user), LoggedIn(user), true, true, true)
  }
}
