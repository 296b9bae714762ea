/** Class ConfigInitializer (config/initializer.go): the operations on the
    configuration object, which a reset replaces and a save changes. */
module ConfigInitializerClass {
  import opened Outcomes
  import opened InitializerModel

  class AppConfig {
    var initialized: bool
    var owner: Option<User>
    ghost var ownerKey: bool
    var device: Device

    ghost function AsConfig(): Config reads this {
      Config(initialized, owner, ownerKey, device)
    }

    constructor (initialized: bool, owner: Option<User>, device: Device)
      ensures AsConfig() == Config(initialized, owner, false, device)
    {
      this.initialized, this.owner, this.ownerKey, this.device := initialized, owner, false, device;
    }
  }

  class ConfigInitializer {
    var appConfig: AppConfig
    var resetConfig: bool
    var currOwnerAPIClient: Option<UserID>
    var currDeviceID: string
    var newOwnerAPIClient: Option<UserID>
    var updateUserKey: bool

    /** What the cloud was asked to do. */
    ghost var calls: seq<CloudCall>

    ghost function Abs(): State reads this, appConfig {
      State(appConfig.AsConfig(), resetConfig, currOwnerAPIClient, currDeviceID,
            newOwnerAPIClient, updateUserKey, calls)
    }

    constructor (appConfig: AppConfig, resetConfig: bool, currOwnerAPIClient: Option<UserID>, currDeviceID: string)
      ensures Abs() == State(appConfig.AsConfig(), resetConfig, currOwnerAPIClient, currDeviceID, None, false, [])
      ensures this.appConfig == appConfig
    {
      this.appConfig, this.resetConfig := appConfig, resetConfig;
      this.currOwnerAPIClient, this.currDeviceID := currOwnerAPIClient, currDeviceID;
      newOwnerAPIClient, updateUserKey, calls := None, false, [];
    }

    /** resetDeviceOwner. */
    method SetNewOwner(a: ResetAnswers, newAppConfig: AppConfig) returns (err: Option<Failure>)
      requires a.next.LoggedIn? && newAppConfig != appConfig
      requires newAppConfig.AsConfig() == Config(false, None, false, NoDevice)
      modifies this`newOwnerAPIClient, this`resetConfig, newAppConfig
      ensures err == if !a.newOwnerUser then Some(NoOwnerUser) else if !a.getUser then Some(NoUserDetails)
                     else if !a.newDevice then Some(NoDeviceMade) else None
      ensures err == None ==>
                && newAppConfig.AsConfig() == Config(false, Some(a.next.user), false, NewDevice)
                && newOwnerAPIClient == Some(a.next.user.userID) && resetConfig
    {
      if !a.newOwnerUser {
        return Some(NoOwnerUser);
      }
      newAppConfig.owner := Some(a.next.user);
      newOwnerAPIClient := Some(a.next.user.userID);
      if !a.getUser {
        return Some(NoUserDetails);
      }
      if !a.newDevice {
        return Some(NoDeviceMade);
      }
      newAppConfig.device := NewDevice;
      resetConfig := true;
      err := None;
    }

    /** The body of the reset goroutine; `newAppConfig` is the configuration it
        prepares. Its deferred function is in ResetDeviceOwner. */
    method PrepareNewOwner(a: ResetAnswers) returns (err: Option<Failure>, newAppConfig: AppConfig)
      modifies this`newOwnerAPIClient, this`resetConfig
      ensures fresh(newAppConfig) && err == ResetError(appConfig.AsConfig(), a)
      ensures err == None ==>
                && newAppConfig.AsConfig() == Config(false, Some(a.next.user), false, NewDevice)
                && newOwnerAPIClient == Some(a.next.user.userID) && resetConfig
    {
      newAppConfig := new AppConfig(false, None, NoDevice);
      if !a.newConfig {
        return Some(NoNewConfig), newAppConfig;
      }
      var deviceOwner := if appConfig.owner == None then "" else appConfig.owner.value.name;
      if appConfig.initialized && appConfig.owner.Some? {
        if !a.confirmed {
          return Some(ResetCancelled), newAppConfig;
        }
        if a.current.LoginFailed? {
          return Some(AuthFailed(a.current.error)), newAppConfig;
        }
        if a.current.user.name != deviceOwner {
          return Some(OwnerNotLoggedIn), newAppConfig;
        }
      }
      if a.next.LoginFailed? {
        return Some(AuthFailed(a.next.error)), newAppConfig;
      }
      if deviceOwner == a.next.user.name {
        return Some(OwnerAlreadySet), newAppConfig;
      }
      err := SetNewOwner(a, newAppConfig);
    }

    /** A failed reset leaves the configuration object in place and unchanged. */
    method ResetDeviceOwner(a: ResetAnswers) returns (err: Option<Failure>)
      modifies this`appConfig, this`newOwnerAPIClient, this`resetConfig
      ensures Abs() == Reset(old(Abs()), a) && err == ResetError(old(Abs()).config, a)
      ensures err.Some? ==> appConfig == old(appConfig) && unchanged(appConfig)
      ensures err == None ==> fresh(appConfig)
    {
      var newAppConfig: AppConfig;
      err, newAppConfig := PrepareNewOwner(a);
      if err.Some? {
        newOwnerAPIClient := None;
        resetConfig := !appConfig.initialized;
      } else {
        appConfig := newAppConfig;
      }
    }

    method LoadDeviceOwnerKey(a: KeyAnswers) returns (ok: bool)
      modifies this`updateUserKey, appConfig`ownerKey
      ensures Abs() == LoadKey(old(Abs()), a)
      ensures ok <==> a.keyLoaded && a.keyAccepted && appConfig.owner.Some?
    {
      ok := a.keyLoaded && appConfig.owner.Some? && a.keyAccepted;
      if ok {
        appConfig.ownerKey := true;
        updateUserKey := true;
      }
    }

    /** The user key goes to the cloud through the newest client. */
    method UpdateUserKey(a: SaveAnswers)
      requires newOwnerAPIClient.Some? || currOwnerAPIClient.Some?
      modifies this`calls
      ensures calls == old(calls) + [UpdateKey(Account(Abs()).value, appConfig.owner, appConfig.ownerKey, a.keyUpdated)]
    {
      var client := if newOwnerAPIClient.Some? then newOwnerAPIClient else currOwnerAPIClient;
      calls := calls + [UpdateKey(client.value, appConfig.owner, appConfig.ownerKey, a.keyUpdated)];
    }

    /** Unregisters the old device, which may fail, and registers the new one. */
    method RegisterDevice(a: SaveAnswers) returns (err: Option<Failure>)
      modifies this`calls, appConfig`device
      ensures err == (if newOwnerAPIClient == None then Some(NoNewOwnerClient)
                      else if a.registered == None then Some(NotRegistered) else None)
      ensures calls == old(calls)
                       + (if currOwnerAPIClient == None then []
                          else [Unregister(currOwnerAPIClient.value, currDeviceID, a.unregistered)])
                       + (if err.Some? then [] else [Register(newOwnerAPIClient.value, a.registered.value)])
      ensures appConfig.device == if err.Some? then old(appConfig.device)
                                  else Registered(a.registered.value, newOwnerAPIClient.value)
    {
      if currOwnerAPIClient.Some? {
        // an error is only logged
        calls := calls + [Unregister(currOwnerAPIClient.value, currDeviceID, a.unregistered)];
      }
      if newOwnerAPIClient == None {
        return Some(NoNewOwnerClient);
      }
      if a.registered == None {
        return Some(NotRegistered);
      }
      calls := calls + [Register(newOwnerAPIClient.value, a.registered.value)];
      appConfig.device := Registered(a.registered.value, newOwnerAPIClient.value);
      err := None;
    }

    /** The part of Save after the user key. */
    method SaveDevice(a: SaveAnswers) returns (r: SaveResult)
      modifies this`calls, appConfig
      ensures Saved(Abs(), r) == InitializerModel.SaveDevice(old(Abs()), a)
    {
      if resetConfig {
        var err := RegisterDevice(a);
        if err.Some? {
          return Finished(err);
        }
      }
      appConfig.initialized := true;
      r := Finished(if a.saved then None else Some(NotSaved));
    }

    method Save(a: SaveAnswers) returns (r: SaveResult)
      modifies this`calls, appConfig
      ensures Saved(Abs(), r) == InitializerModel.Save(old(Abs()), a)
    {
      if updateUserKey {
        if newOwnerAPIClient == None && currOwnerAPIClient == None {
          return NilClient;
        }
        UpdateUserKey(a);
        if !a.keyUpdated {
          return Finished(Some(KeyNotUpdated));
        }
      }
      r := SaveDevice(a);
    }
  }

  method NewConfigInitializer(a: LoadAnswer) returns (ci: Option<ConfigInitializer>)
    ensures ci.Some? <==> Load(a).Some?
    ensures ci.Some? ==> fresh(ci.value) && fresh(ci.value.appConfig) && ci.value.Abs() == Load(a).value
  {
    if a.LoadFailed? {
      return None;
    }
    var device := if a.deviceID == None then NoDevice else Loaded(a.deviceID.value);
    var appConfig := new AppConfig(a.initialized, a.owner, device);
    var made: ConfigInitializer;
    if appConfig.initialized {
      if a.owner == None || a.deviceID == None {
        return None;
      }
      made := new ConfigInitializer(appConfig, false, Some(a.tokenUser), a.deviceID.value);
    } else {
      made := new ConfigInitializer(appConfig, true, None, "");
    }
    return Some(made);
  }
}
