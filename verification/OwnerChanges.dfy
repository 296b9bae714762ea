/** Who may change the owner of a configuration, and when a save makes it an
    initialised one (config/initializer.go), by the answers and over every run. */
module OwnerChanges {
  import opened Outcomes
  import opened InitializerModel

  // ---------------------------------------------------------------------
  // Resets.

  /** The owner confirmed the reset and logged in; there is no owner to ask in a
      configuration that is not initialised or has none. */
  predicate OwnerAgrees(c: Config, a: ResetAnswers) {
    c.initialized && c.owner.Some? ==>
      && a.confirmed && a.current.LoggedIn? && a.current.user.name == c.owner.value.name
  }

  /** The second login is of a user with another name than the owner's. */
  predicate NewcomerLogsIn(c: Config, a: ResetAnswers) {
    && a.next.LoggedIn?
    && (c.owner.Some? ==> a.next.user.name != c.owner.value.name) && (c.owner == None ==> a.next.user.name != "")
  }

  /** A reset goes through exactly when a new configuration is made, the owner
      agrees, somebody else logs in, and that user and a device can be set up;
      then that user is the owner. Otherwise the configuration stays. */
  lemma ResetGoesThroughIff(s: State, a: ResetAnswers)
    ensures var t := Reset(s, a);
            && (t.newOwnerAPIClient.Some? <==>
                  && a.newConfig && OwnerAgrees(s.config, a) && NewcomerLogsIn(s.config, a)
                  && a.newOwnerUser && a.getUser && a.newDevice)
            && (t.newOwnerAPIClient.Some? ==>
                  && t.newOwnerAPIClient == Some(a.next.user.userID) && t.resetConfig
                  && t.config.owner == Some(a.next.user) && !t.config.initialized)
            && (t.newOwnerAPIClient == None ==> t.config == s.config)
  {
  }

  /** Which error ends a reset before the new owner is set up. */
  lemma RefusedResetExact(c: Config, a: ResetAnswers)
    ensures var e, asks := ResetError(c, a), a.newConfig && c.initialized && c.owner.Some?;
            && (e == Some(NoNewConfig) <==> !a.newConfig)
            && (e == Some(ResetCancelled) <==> asks && !a.confirmed)
            && (e == Some(OwnerNotLoggedIn) <==>
                  asks && a.confirmed && a.current.LoggedIn? && a.current.user.name != c.owner.value.name)
            && (e.Some? && e.value.AuthFailed? <==>
                  || (asks && a.confirmed && a.current.LoginFailed?)
                  || (a.newConfig && OwnerAgrees(c, a) && a.next.LoginFailed?))
            && (e == Some(OwnerAlreadySet) <==>
                  a.newConfig && OwnerAgrees(c, a) && a.next.LoggedIn? && !NewcomerLogsIn(c, a))
  {
  }

  /** Which error ends the set up of the new owner. */
  lemma FailedSetUpExact(c: Config, a: ResetAnswers)
    ensures var e, welcome := ResetError(c, a), a.newConfig && OwnerAgrees(c, a) && NewcomerLogsIn(c, a);
            && (e == Some(NoOwnerUser) <==> welcome && !a.newOwnerUser)
            && (e == Some(NoUserDetails) <==> welcome && a.newOwnerUser && !a.getUser)
            && (e == Some(NoDeviceMade) <==> welcome && a.newOwnerUser && a.getUser && !a.newDevice)
  {
  }

  /** The reset changes the owner, with that owner's consent. */
  predicate ConsentedReset(owner: Option<User>, op: Op) {
    && op.DoReset? && owner.Some?
    && op.ra.confirmed && op.ra.current.LoggedIn? && op.ra.current.user.name == owner.value.name
    && op.ra.next.LoggedIn? && op.ra.next.user.name != owner.value.name
  }

  /** A step that changes the owner of an initialised configuration is a reset
      with the consent of that owner, and the user of the second login is the
      new one. */
  lemma OwnerStep(s: State, op: Op)
    requires s.config.initialized && s.config.owner.Some? && Step(s, op).config.owner != s.config.owner
    ensures ConsentedReset(s.config.owner, op) && Step(s, op).config.owner == Some(op.ra.next.user)
  {
  }

  /** No step but a successful reset makes an initialised configuration another
      one's or not initialised. */
  lemma StaysInitialised(s: State, op: Op)
    requires s.config.initialized && s.config.owner.Some? && !ConsentedReset(s.config.owner, op)
    ensures Step(s, op).config.initialized && Step(s, op).config.owner == s.config.owner
  {
  }

  /** In every run in which an initialised configuration that was loaded gets
      another owner, the loaded owner has consented to a reset. */
  lemma {:induction false} OwnerConsents(a: LoadAnswer, states: seq<State>, ops: seq<Op>, k: nat)
    requires IsRun(a, states, ops) && k <= |ops| && a.initialized
    requires states[k].config.owner != a.owner || !states[k].config.initialized
    ensures exists n :: 0 <= n < k && ConsentedReset(a.owner, ops[n])
  {
    if k > 0 {
      if states[k - 1].config.owner != a.owner || !states[k - 1].config.initialized {
        OwnerConsents(a, states, ops, k - 1);
      } else {
        assert states[k] == Step(states[k - 1], ops[k - 1]);
        if !ConsentedReset(a.owner, ops[k - 1]) { StaysInitialised(states[k - 1], ops[k - 1]); }
      }
    }
  }

  // ---------------------------------------------------------------------
  // Saves.

  /** The key, if it was changed, has a client and is accepted, and a device is
      registered if the reset flag is up. */
  predicate ComesToSave(s: State, a: SaveAnswers) {
    && (s.updateUserKey ==> (s.newOwnerAPIClient.Some? || s.currOwnerAPIClient.Some?) && a.keyUpdated)
    && (s.resetConfig ==> s.newOwnerAPIClient.Some? && a.registered.Some?)
  }

  /** Save ends without error exactly when it comes to save the file and the file
      is saved; the configuration is initialised when it comes that far. */
  lemma SaveSucceedsIff(s: State, a: SaveAnswers)
    ensures Save(s, a).r == Finished(None) <==> ComesToSave(s, a) && a.saved
    ensures Save(s, a).s.config.initialized <==> s.config.initialized || ComesToSave(s, a)
  {
  }

  /** Which error ends a save. */
  lemma SaveErrorExact(s: State, a: SaveAnswers)
    ensures var r, client := Save(s, a).r, s.newOwnerAPIClient.Some? || s.currOwnerAPIClient.Some?;
            var accepted := s.updateUserKey ==> client && a.keyUpdated;
            && (r == NilClient <==> s.updateUserKey && !client)
            && (r == Finished(Some(KeyNotUpdated)) <==> s.updateUserKey && client && !a.keyUpdated)
            && (r == Finished(Some(NoNewOwnerClient)) <==> accepted && s.resetConfig && s.newOwnerAPIClient == None)
            && (r == Finished(Some(NotRegistered)) <==>
                  accepted && s.resetConfig && s.newOwnerAPIClient.Some? && a.registered == None)
            && (r == Finished(Some(NotSaved)) <==> ComesToSave(s, a) && !a.saved)
  {
  }

  predicate ComesToSaveAt(states: seq<State>, ops: seq<Op>, n: int)
    requires |states| == |ops| + 1
  {
    0 <= n < |ops| && ops[n].DoSave? && ComesToSave(states[n], ops[n].sa)
  }

  /** Reset n goes through. */
  predicate GoesThroughAt(states: seq<State>, ops: seq<Op>, n: int)
    requires |states| == |ops| + 1
  {
    && 0 <= n < |ops| && ops[n].DoReset?
    && var a, c := ops[n].ra, states[n].config;
    a.newConfig && OwnerAgrees(c, a) && NewcomerLogsIn(c, a) && a.newOwnerUser && a.getUser && a.newDevice
  }

  ghost predicate NoResetSince(states: seq<State>, ops: seq<Op>, from: int, k: int)
    requires |states| == |ops| + 1
  {
    forall m | from <= m < k :: !GoesThroughAt(states, ops, m)
  }

  /** Save n comes to save the file, and no reset goes through after it. */
  ghost predicate SavedAt(states: seq<State>, ops: seq<Op>, n: int, k: int)
    requires |states| == |ops| + 1
  {
    n < k && ComesToSaveAt(states, ops, n) && NoResetSince(states, ops, n + 1, k)
  }

  ghost predicate EverSaved(states: seq<State>, ops: seq<Op>, k: int)
    requires |states| == |ops| + 1
  {
    exists n :: SavedAt(states, ops, n, k)
  }

  lemma InitialisedStep(s: State, op: Op)
    ensures Step(s, op).config.initialized
            <==> || (op.DoSave? && (s.config.initialized || ComesToSave(s, op.sa)))
                 || (op.DoLoadKey? && s.config.initialized)
                 || (op.DoReset? && Reset(s, op.ra).newOwnerAPIClient == None && s.config.initialized)
  {
  }

  lemma NoResetStep(states: seq<State>, ops: seq<Op>, from: int, k: nat)
    requires |states| == |ops| + 1 && k < |ops| && from <= k
    ensures NoResetSince(states, ops, from, k + 1)
            <==> NoResetSince(states, ops, from, k) && !GoesThroughAt(states, ops, k)
  {
    assert GoesThroughAt(states, ops, k) || !GoesThroughAt(states, ops, k);
  }

  lemma SavedStep(states: seq<State>, ops: seq<Op>, k: nat)
    requires |states| == |ops| + 1 && k < |ops|
    ensures EverSaved(states, ops, k + 1)
            <==> ComesToSaveAt(states, ops, k) || (EverSaved(states, ops, k) && !GoesThroughAt(states, ops, k))
  {
    var next := k + 1;
    assert SavedAt(states, ops, k, next) <==> ComesToSaveAt(states, ops, k);
    if n :| SavedAt(states, ops, n, next) {
      if n < k {
        NoResetStep(states, ops, n + 1, k);
        assert SavedAt(states, ops, n, k);
      }
    }
    if n :| SavedAt(states, ops, n, k) {
      NoResetStep(states, ops, n + 1, k);
      assert SavedAt(states, ops, n, next) <==> !GoesThroughAt(states, ops, k);
    }
  }

  /** Over every run the configuration is initialised exactly when it was loaded
      so and no reset went through since, or some Save came to save the file and
      no reset went through after it. */
  lemma {:induction false} InitialisedIff(a: LoadAnswer, states: seq<State>, ops: seq<Op>, k: nat)
    requires IsRun(a, states, ops) && k <= |ops|
    ensures states[k].config.initialized
            <==> (a.initialized && NoResetSince(states, ops, 0, k)) || EverSaved(states, ops, k)
  {
    if k > 0 {
      var n := k - 1;
      InitialisedIff(a, states, ops, n);
      assert states[k] == Step(states[n], ops[n]);
      InitialisedStep(states[n], ops[n]);
      if ops[n].DoReset? { ResetGoesThroughIff(states[n], ops[n].ra); }
      NoResetStep(states, ops, 0, n);
      SavedStep(states, ops, n);
    }
  }
}
